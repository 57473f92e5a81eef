/**
 * The snapshot factory: builds the state of a live object and the initial,
 * update and terminal snapshots of its history.
 *
 * The factory's collaborators are parameters: `defaultValue` gives the
 * default of a declared Java type, `typeMapper` classifies property types and
 * finds the managed type of an identity, and `markChanged` is the snapshot
 * builder's comparison of a new state with the previous snapshot.
 */
module SnapshotFactory {
  import opened Metamodel
  import opened SnapshotState

  /** The state of a live node: every property of its type, dehydrated. */
  function FullState(liveNode: LiveNode, defaultValue: JavaType -> Value): State {
    SparseState(liveNode.cdo.managedType.properties, AllProperties,
                liveNode.dehydratedPropertyValue, defaultValue)
  }

  /** The reference-free state of a live object: only properties that are
      neither managed types nor enumerables of them, with raw values. */
  function NoRefsState(typeMapper: TypeMapper, liveCdo: Cdo, defaultValue: JavaType -> Value): State {
    SparseState(liveCdo.managedType.properties, NonReferenceProperties(typeMapper),
                liveCdo.propertyValue, defaultValue)
  }

  /** Builds the reference-free state property by property, in declaration order. */
  method CreateSnapshotStateNoRefs(typeMapper: TypeMapper, liveCdo: Cdo, defaultValue: JavaType -> Value)
    returns (state: State)
    ensures state == NoRefsState(typeMapper, liveCdo, defaultValue)
    ensures forall e :: e in state ==>
      && e.property in liveCdo.managedType.properties
      && !typeMapper.isManagedType(e.property.javersType)
      && !typeMapper.isEnumerableOfManagedTypes(e.property.javersType)
      && e.value == liveCdo.propertyValue(e.property)
      && e.value != defaultValue(e.property.genericType)
    ensures InDeclarationOrder(state, liveCdo.managedType.properties)
  {
    var properties := liveCdo.managedType.properties;
    state := [];
    for i := 0 to |properties|
      invariant state == SparseState(properties[..i], NonReferenceProperties(typeMapper),
                                     liveCdo.propertyValue, defaultValue)
    {
      var property := properties[i];
      assert properties[..i + 1] == properties[..i] + [property];
      if typeMapper.isManagedType(property.javersType) ||
         typeMapper.isEnumerableOfManagedTypes(property.javersType) {
        continue;
      }
      var propertyValue := liveCdo.propertyValue(property);
      if propertyValue == defaultValue(property.genericType) {
        continue;
      }
      state := state + [Entry(property, propertyValue)];
    }
    assert properties[..|properties|] == properties;
    SparseStateSound(properties, NonReferenceProperties(typeMapper), liveCdo.propertyValue, defaultValue);
    SparseStateOrdered(properties, NonReferenceProperties(typeMapper), liveCdo.propertyValue, defaultValue);
  }

  /** Builds the full state property by property, in declaration order. */
  method CreateSnapshotState(liveNode: LiveNode, defaultValue: JavaType -> Value) returns (state: State)
    ensures state == FullState(liveNode, defaultValue)
    ensures forall e :: e in state ==>
      && e.property in liveNode.cdo.managedType.properties
      && e.value == liveNode.dehydratedPropertyValue(e.property)
      && e.value != defaultValue(e.property.genericType)
    ensures InDeclarationOrder(state, liveNode.cdo.managedType.properties)
  {
    var properties := liveNode.cdo.managedType.properties;
    state := [];
    for i := 0 to |properties|
      invariant state == SparseState(properties[..i], AllProperties,
                                     liveNode.dehydratedPropertyValue, defaultValue)
    {
      var property := properties[i];
      assert properties[..i + 1] == properties[..i] + [property];
      var dehydratedPropertyValue := liveNode.dehydratedPropertyValue(property);
      if dehydratedPropertyValue == defaultValue(property.genericType) {
        continue;
      }
      state := state + [Entry(property, dehydratedPropertyValue)];
    }
    assert properties[..|properties|] == properties;
    SparseStateSound(properties, AllProperties, liveNode.dehydratedPropertyValue, defaultValue);
    SparseStateOrdered(properties, AllProperties, liveNode.dehydratedPropertyValue, defaultValue);
  }

  /** The full state holds exactly the node's properties whose dehydrated
      value is not the default, each with that value. */
  lemma SnapshotStateElidesDefaults(liveNode: LiveNode, defaultValue: JavaType -> Value, p: Property, v: Value)
    ensures Entry(p, v) in FullState(liveNode, defaultValue) <==>
      && p in liveNode.cdo.managedType.properties
      && v == liveNode.dehydratedPropertyValue(p)
      && v != defaultValue(p.genericType)
  {
    var props := liveNode.cdo.managedType.properties;
    SparseStateSound(props, AllProperties, liveNode.dehydratedPropertyValue, defaultValue);
    SparseStateComplete(props, AllProperties, liveNode.dehydratedPropertyValue, defaultValue);
  }

  /** A property of the object appears in the reference-free state if and only
      if it is not a reference property and its raw value is not the default;
      a reference property never appears, whatever its value. */
  lemma NoRefsIncludes(typeMapper: TypeMapper, liveCdo: Cdo, defaultValue: JavaType -> Value, p: Property)
    requires p in liveCdo.managedType.properties
    ensures p in PropertiesOf(NoRefsState(typeMapper, liveCdo, defaultValue)) <==>
      && !typeMapper.isManagedType(p.javersType)
      && !typeMapper.isEnumerableOfManagedTypes(p.javersType)
      && liveCdo.propertyValue(p) != defaultValue(p.genericType)
  {
    var props := liveCdo.managedType.properties;
    var selection := NonReferenceProperties(typeMapper);
    var state := NoRefsState(typeMapper, liveCdo, defaultValue);
    SparseStateSound(props, selection, liveCdo.propertyValue, defaultValue);
    SparseStateComplete(props, selection, liveCdo.propertyValue, defaultValue);
    if p in PropertiesOf(state) {
      var i :| 0 <= i < |state| && PropertiesOf(state)[i] == p;
      assert state[i] in state;
    }
    if Selects(selection, p) && liveCdo.propertyValue(p) != defaultValue(p.genericType) {
      EntryPropertyPresent(state, Entry(p, liveCdo.propertyValue(p)));
    }
  }

  /** The identity, type and commit of a snapshot of a live node. */
  function InitSnapshotBuilder(liveNode: LiveNode, commitMetadata: CommitMetadata): (header: SnapshotHeader)
    ensures header.globalId == liveNode.cdo.globalId
    ensures header.managedType == liveNode.cdo.managedType
    ensures header.commitMetadata == commitMetadata
  {
    SnapshotHeader(liveNode.cdo.globalId, liveNode.cdo.managedType, commitMetadata)
  }

  /** The first snapshot of an object: version 1, its full state, and every
      property with a non-default value marked as changed. */
  function CreateInitial(liveNode: LiveNode, commitMetadata: CommitMetadata,
                         defaultValue: JavaType -> Value): (snapshot: Snapshot)
    ensures snapshot.kind == Initial && snapshot.version == 1
    ensures snapshot.header.globalId == liveNode.cdo.globalId
    ensures snapshot.header.managedType == liveNode.cdo.managedType
    ensures snapshot.header.commitMetadata == commitMetadata
    ensures snapshot.state == FullState(liveNode, defaultValue)
    ensures forall name :: name in snapshot.changed <==>
      exists p :: p in liveNode.cdo.managedType.properties && p.name == name
        && liveNode.dehydratedPropertyValue(p) != defaultValue(p.genericType)
  {
    var state := FullState(liveNode, defaultValue);
    SparseStateSound(liveNode.cdo.managedType.properties, AllProperties,
                     liveNode.dehydratedPropertyValue, defaultValue);
    SparseStateComplete(liveNode.cdo.managedType.properties, AllProperties,
                        liveNode.dehydratedPropertyValue, defaultValue);
    Snapshot(InitSnapshotBuilder(liveNode, commitMetadata), state, PropertyNames(state), Initial, 1)
  }

  /** The next snapshot of an object that is still reachable: its full state,
      changes marked against the previous snapshot, the next version. */
  function CreateUpdate(liveNode: LiveNode, previous: Snapshot, commitMetadata: CommitMetadata,
                        defaultValue: JavaType -> Value,
                        markChanged: (Snapshot, State) -> set<string>): (snapshot: Snapshot)
    ensures snapshot.kind == Update && snapshot.version == previous.version + 1
    ensures snapshot.header.globalId == liveNode.cdo.globalId
    ensures snapshot.header.managedType == liveNode.cdo.managedType
    ensures snapshot.header.commitMetadata == commitMetadata
    ensures snapshot.state == FullState(liveNode, defaultValue)
    ensures snapshot.changed == markChanged(previous, snapshot.state)
  {
    var state := FullState(liveNode, defaultValue);
    Snapshot(InitSnapshotBuilder(liveNode, commitMetadata), state, markChanged(previous, state),
             Update, previous.version + 1)
  }

  /** The snapshot recording that an object is gone: the next version, no
      state, no changes, and the type the type mapper gives for the identity. */
  function CreateTerminal(typeMapper: TypeMapper, globalId: GlobalId, previous: Snapshot,
                          commitMetadata: CommitMetadata): (snapshot: Snapshot)
    ensures snapshot.kind == Terminal && snapshot.version == previous.version + 1
    ensures snapshot.header.globalId == globalId
    ensures snapshot.header.managedType == typeMapper.managedTypeOf(globalId)
    ensures snapshot.header.commitMetadata == commitMetadata
    ensures snapshot.state == [] && snapshot.changed == {}
  {
    Snapshot(SnapshotHeader(globalId, typeMapper.managedTypeOf(globalId), commitMetadata),
             [], {}, Terminal, previous.version + 1)
  }

  /** Successive updates of one object, each against the snapshot before it. */
  function UpdateChain(previous: Snapshot, steps: seq<(LiveNode, CommitMetadata)>,
                       defaultValue: JavaType -> Value,
                       markChanged: (Snapshot, State) -> set<string>): (chain: seq<Snapshot>)
    ensures |chain| == |steps|
    decreases |steps|
  {
    if steps == [] then []
    else
      var next := CreateUpdate(steps[0].0, previous, steps[0].1, defaultValue, markChanged);
      [next] + UpdateChain(next, steps[1..], defaultValue, markChanged)
  }

  /** The k-th of successive updates after a snapshot of version v has
      version v + k, so two chained updates give v + 1 and v + 2. */
  lemma {:induction false} UpdateChainVersions(previous: Snapshot, steps: seq<(LiveNode, CommitMetadata)>,
                                               defaultValue: JavaType -> Value,
                                               markChanged: (Snapshot, State) -> set<string>)
    ensures var chain := UpdateChain(previous, steps, defaultValue, markChanged);
      forall i :: 0 <= i < |chain| ==>
        && chain[i].kind == Update
        && chain[i].version == previous.version + i + 1
        && chain[i].header.globalId == steps[i].0.cdo.globalId
    decreases |steps|
  {
    if steps != [] {
      var next := CreateUpdate(steps[0].0, previous, steps[0].1, defaultValue, markChanged);
      UpdateChainVersions(next, steps[1..], defaultValue, markChanged);
    }
  }

  /** The history of one object: an initial snapshot, a run of updates, and a
      terminal snapshot once the object is gone. */
  function History(first: LiveNode, firstCommit: CommitMetadata, updates: seq<(LiveNode, CommitMetadata)>,
                   typeMapper: TypeMapper, lastCommit: CommitMetadata,
                   defaultValue: JavaType -> Value,
                   markChanged: (Snapshot, State) -> set<string>): (history: seq<Snapshot>)
    ensures |history| == |updates| + 2
  {
    var initial := CreateInitial(first, firstCommit, defaultValue);
    var chain := UpdateChain(initial, updates, defaultValue, markChanged);
    var last := if chain == [] then initial else chain[|chain| - 1];
    [initial] + chain + [CreateTerminal(typeMapper, first.cdo.globalId, last, lastCommit)]
  }

  /** Versions along a history count 1, 2, 3, ... without gaps; the first
      snapshot is initial, the last terminal, and all others updates. */
  lemma HistoryVersions(first: LiveNode, firstCommit: CommitMetadata, updates: seq<(LiveNode, CommitMetadata)>,
                        typeMapper: TypeMapper, lastCommit: CommitMetadata,
                        defaultValue: JavaType -> Value,
                        markChanged: (Snapshot, State) -> set<string>)
    ensures var history := History(first, firstCommit, updates, typeMapper, lastCommit, defaultValue, markChanged);
      && (forall i :: 0 <= i < |history| ==> history[i].version == i + 1)
      && history[0].kind == Initial
      && history[|history| - 1].kind == Terminal
      && (forall i :: 0 < i < |history| - 1 ==> history[i].kind == Update)
  {
    var initial := CreateInitial(first, firstCommit, defaultValue);
    UpdateChainVersions(initial, updates, defaultValue, markChanged);
  }

  /** A person named Alice with no address: the initial snapshot holds only
      the name; once the address refers to Address#7 the update holds both;
      when the person is gone the terminal snapshot is empty, at version 3. */
  lemma PersonScenario(typeMapper: TypeMapper, markChanged: (Snapshot, State) -> set<string>,
                       commit: CommitMetadata)
    ensures
      var name := Property("name", JaversType("String"), JavaType("java.lang.String"));
      var address := Property("address", JaversType("Address"), JavaType("Address"));
      var person := ManagedType("Person", [name, address]);
      var id := InstanceId("Person", "1");
      var defaults := (t: JavaType) => Null;
      var before := LiveNode(Cdo(id, person, p => if p == name then StringValue("Alice") else Null),
                             p => if p == name then StringValue("Alice") else Null);
      var after := LiveNode(Cdo(id, person, p => if p == name then StringValue("Alice")
                                               else if p == address then Reference(InstanceId("Address", "7"))
                                               else Null),
                            p => if p == name then StringValue("Alice")
                                 else if p == address then Reference(InstanceId("Address", "7"))
                                 else Null);
      var initial := CreateInitial(before, commit, defaults);
      var update := CreateUpdate(after, initial, commit, defaults, markChanged);
      var terminal := CreateTerminal(typeMapper, id, update, commit);
      && initial.version == 1 && initial.changed == {"name"}
      && initial.state == [Entry(name, StringValue("Alice"))]
      && update.version == 2
      && update.state == [Entry(name, StringValue("Alice")), Entry(address, Reference(InstanceId("Address", "7")))]
      && terminal.version == 3 && terminal.state == [] && terminal.changed == {}
  {
    var name := Property("name", JaversType("String"), JavaType("java.lang.String"));
    var address := Property("address", JaversType("Address"), JavaType("Address"));
    var person := ManagedType("Person", [name, address]);
    var id := InstanceId("Person", "1");
    var defaults := (t: JavaType) => Null;
    var before := LiveNode(Cdo(id, person, p => if p == name then StringValue("Alice") else Null),
                           p => if p == name then StringValue("Alice") else Null);
    var after := LiveNode(Cdo(id, person, p => if p == name then StringValue("Alice")
                                             else if p == address then Reference(InstanceId("Address", "7"))
                                             else Null),
                          p => if p == name then StringValue("Alice")
                               else if p == address then Reference(InstanceId("Address", "7"))
                               else Null);
    assert [name, address][..1] == [name];
    assert [name][..0] == [];
    assert name != address by { assert name.name[0] != address.name[0]; }
    assert SparseState([], AllProperties, before.dehydratedPropertyValue, defaults) == [];
    assert SparseState([name], AllProperties, before.dehydratedPropertyValue, defaults)
        == [Entry(name, StringValue("Alice"))];
    assert SparseState([name], AllProperties, after.dehydratedPropertyValue, defaults)
        == [Entry(name, StringValue("Alice"))];
    assert FullState(before, defaults) == [Entry(name, StringValue("Alice"))];
    assert FullState(after, defaults)
        == [Entry(name, StringValue("Alice")), Entry(address, Reference(InstanceId("Address", "7")))];
    var initial := CreateInitial(before, commit, defaults);
    assert PropertyNames(initial.state) == {"name"};
  }
}
