# JaVers snapshot factory, modelled in Dafny

JaVers records the history of domain objects as a chain of snapshots per
object identity (`GlobalId`). The `SnapshotFactory` builds those snapshots:

- the **snapshot state** of a live object: its type's properties walked in
  declaration order, each with its dehydrated value (nested live objects
  replaced by their identities), every value equal to the property's default
  left out;
- a **reference-free state**: the same walk over raw values, skipping every
  property whose type is a managed type or an enumerable of managed types;
- the **initial** snapshot (version 1, all present properties marked as
  changed), an **update** (the previous version plus one, changes marked
  against the previous snapshot) and a **terminal** snapshot for an object
  that is gone (the previous version plus one, no state, no changes).

Files:

- `metamodel.dfy` (module `Metamodel`): identities, values, properties,
  managed types, the type mapper's services, live objects and nodes, states
  and snapshots, all as datatypes. Value equality is datatype equality, which
  stands in for Java's `Objects.equals`.
- `snapshot_state.dfy` (module `SnapshotState`): `SparseState`, the reference
  definition of a state built in declaration order under a selection (all
  properties, or only non-reference ones), and the lemmas that characterise it.
- `snapshot_factory.dfy` (module `SnapshotFactory`): the two state-building
  loops as methods proved against `SparseState`, the three snapshot
  constructors as functions, and lemmas about versions and identity.

The collaborators whose code is not part of this model are parameters or
function-valued fields: the default value of a declared Java type
(`defaultValue`), the node's dehydrated and raw property values
(`LiveNode.dehydratedPropertyValue`, `Cdo.propertyValue`), the type mapper's
classification and lookup (`TypeMapper`), and the snapshot builder's
`markChanged(previous)` (`markChanged`). The factory's only field, its type
mapper, is passed to the operations that use it.

What the code decides, and the model follows:

- The terminal snapshot's managed type is the type mapper's lookup of the
  identity (SnapshotFactory.java:28).
- Nothing checks that `previous` has the same identity as the node or the
  identity being closed, so the model has no such precondition.
- The update's changed set is whatever the snapshot builder's
  `markChanged(previous)` returns (SnapshotFactory.java:51).

## Model

| member | source | states |
|---|---|---|
| `SnapshotFactory.CreateSnapshotState` | javers-core/src/main/java/org/javers/core/snapshot/SnapshotFactory.java:73-83 | The loop yields exactly the sparse state of all the node's properties: every entry is a property of the node's type holding its dehydrated value, which is not the default, in declaration order. |
| `SnapshotFactory.CreateSnapshotStateNoRefs` | javers-core/src/main/java/org/javers/core/snapshot/SnapshotFactory.java:56-71 | The loop yields exactly the sparse state of the non-reference properties: no entry is of a managed or enumerable-of-managed type, each holds the raw value, which is not the default, in declaration order. |
| `SnapshotFactory.SnapshotStateElidesDefaults` | javers-core/src/main/java/org/javers/core/snapshot/SnapshotFactory.java:74-82 | An entry (p, v) is in the full state if and only if p is a property of the node's type, v is its dehydrated value and v is not p's default. |
| `SnapshotFactory.NoRefsIncludes` | javers-core/src/main/java/org/javers/core/snapshot/SnapshotFactory.java:58-68 | A property of the object is in the reference-free state if and only if it is neither a managed type nor an enumerable of managed types and its raw value is not the default. |
| `SnapshotState.SparseStateSound` | javers-core/src/main/java/org/javers/core/snapshot/SnapshotFactory.java:56-83 | Every entry of a built state is a selected property of the type, holds exactly that property's value, and that value differs from the default. |
| `SnapshotState.SparseStateComplete` | javers-core/src/main/java/org/javers/core/snapshot/SnapshotFactory.java:56-83 | Every selected property whose value differs from its default is in the built state with that value. |
| `SnapshotState.SparseStateOrdered` | javers-core/src/main/java/org/javers/core/snapshot/SnapshotFactory.java:56-83 | The entries of a built state follow the type's declaration order. |
| `SnapshotState.SparseStateDistinct` | javers-core/src/main/java/org/javers/core/snapshot/SnapshotFactory.java:73-83 | When property names are unique in the type, no name occurs twice in the built state. |
| `SnapshotState.SparseStateUnique` | javers-core/src/main/java/org/javers/core/snapshot/SnapshotFactory.java:56-83 | When property names are unique in the type, soundness, completeness and declaration order together determine the built state: any state with all three is the built state. |
| `SnapshotState.SparseStateRoundTrip` | javers-core/src/main/java/org/javers/core/snapshot/SnapshotFactory.java:75-80 | Reading a property back from the built state, with absence meaning the default, gives its value for every selected property of the type and its default otherwise. |
| `SnapshotFactory.InitSnapshotBuilder` | javers-core/src/main/java/org/javers/core/snapshot/SnapshotFactory.java:85-90 | A snapshot of a live node carries the node's identity and managed type and the given commit metadata. |
| `SnapshotFactory.CreateInitial` | javers-core/src/main/java/org/javers/core/snapshot/SnapshotFactory.java:38-45 | Version 1, kind initial, the node's identity, type and the commit, the node's full state, and a property name is marked changed if and only if that property's dehydrated value is not its default. |
| `SnapshotFactory.CreateUpdate` | javers-core/src/main/java/org/javers/core/snapshot/SnapshotFactory.java:47-54 | Version previous + 1, kind update, the node's identity, type and the commit, the node's full state, changes as marked against the previous snapshot. |
| `SnapshotFactory.CreateTerminal` | javers-core/src/main/java/org/javers/core/snapshot/SnapshotFactory.java:27-36 | Version previous + 1, kind terminal, the given identity, the type the type mapper gives for it, empty state, no changes. |
| `SnapshotFactory.UpdateChainVersions` | javers-core/src/main/java/org/javers/core/snapshot/SnapshotFactory.java:47-54 | Updates chained after a snapshot of version v have versions v + 1, v + 2, ..., are all updates and carry their nodes' identities. |
| `SnapshotFactory.HistoryVersions` | javers-core/src/main/java/org/javers/core/snapshot/SnapshotFactory.java:27-54 | An initial snapshot, updates and a terminal snapshot have versions 1, 2, 3, ... without gaps, first initial, last terminal, updates between. |
| `SnapshotFactory.PersonScenario` | javers-core/src/main/java/org/javers/core/snapshot/SnapshotFactory.java:27-54 | Alice without an address gives an initial state {name} with {name} changed at version 1; with Address#7 the update holds both at version 2; the terminal snapshot is empty at version 3. |

## Left out

- `SnapshotFactory.CreateInitial`: `markAllAsChanged` (SnapshotFactory.java:42) is taken to mark exactly the names of the properties present in the new state; its code, in `CdoSnapshotBuilder`, is not part of this model, so the "changed if and only if non-default" promise rests on that reading.
- `SnapshotFactory.CreateUpdate`: the version is an unbounded natural number; Java's `long` would wrap after 2^63 - 1 versions.
- `SnapshotFactory.CreateTerminal`: the version is an unbounded natural number; Java's `long` would wrap after 2^63 - 1 versions.
- A null `previous` snapshot is excluded by its type; the Java code would throw a `NullPointerException` when it reads the previous version.
- The diff behind `markChanged(previous)` is not part of this model: it is a function parameter, so nothing is claimed about which properties an update marks.
- `CdoSnapshotStateBuilder` and `CdoSnapshotBuilder` are not part of this model: adding a property is modelled as appending an entry, and building as taking the fields given.
- `TypeMapper.getJaversManagedType` is a total function here; what it does for an unknown identity is not part of this model.
- How values are dehydrated, how defaults are computed from generic types, and how the type mapper classifies types are not part of this model; they are given functions.
- Commit metadata is opaque and only carried along.
- Structural diffing of two states and the dehydration rules are separate components and not part of this model.
