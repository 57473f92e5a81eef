/**
 * The sparse snapshot state: the present entries of a state built by
 * walking a type's properties in declaration order, skipping the properties
 * a selection leaves out and every value equal to its property's default.
 *
 * SparseState is the reference definition; the lemmas below characterise it
 * completely (every entry is selected, exact and non-default; every selected
 * non-default property is present; order is declaration order) and show that
 * reading a property back from the sparse state, with absence meaning the
 * default, gives the property's value.
 */
module SnapshotState {
  import opened Metamodel

  /** Which properties a state is built from: all of them, or only those the
      type mapper classifies neither as a managed type nor as an enumerable
      of managed types. */
  datatype Selection = AllProperties | NonReferenceProperties(typeMapper: TypeMapper)

  predicate Selects(selection: Selection, p: Property) {
    match selection
    case AllProperties => true
    case NonReferenceProperties(tm) =>
      !(tm.isManagedType(p.javersType) || tm.isEnumerableOfManagedTypes(p.javersType))
  }

  /** The state built from `props` taken in order: a property is added, with
      its value, exactly when it is selected and its value differs from the
      default of its declared type. */
  function SparseState(props: seq<Property>, selection: Selection,
                       valueOf: Property -> Value, defaultValue: JavaType -> Value): State
  {
    if props == [] then []
    else
      var p := props[|props| - 1];
      var before := SparseState(props[..|props| - 1], selection, valueOf, defaultValue);
      if Selects(selection, p) && valueOf(p) != defaultValue(p.genericType)
      then before + [Entry(p, valueOf(p))]
      else before
  }

  /** Reads property `p` back from a state: its entry's value when present
      (the latest one), otherwise its default. */
  function ValueIn(s: State, p: Property, defaultValue: JavaType -> Value): Value {
    if s == [] then defaultValue(p.genericType)
    else if s[|s| - 1].property == p then s[|s| - 1].value
    else ValueIn(s[..|s| - 1], p, defaultValue)
  }

  /** `a` is `b` with some elements left out, the rest kept in order. */
  ghost predicate IsSubsequence<T>(a: seq<T>, b: seq<T>)
    decreases |b|
  {
    if b == [] then a == []
    else
      (a != [] && a[|a| - 1] == b[|b| - 1] && IsSubsequence(a[..|a| - 1], b[..|b| - 1]))
      || IsSubsequence(a, b[..|b| - 1])
  }

  /** Every entry is a selected property of `props`, holds exactly that
      property's value, and that value is not the default. */
  ghost predicate Sound(s: State, props: seq<Property>, selection: Selection,
                        valueOf: Property -> Value, defaultValue: JavaType -> Value)
  {
    forall e :: e in s ==>
      && e.property in props
      && Selects(selection, e.property)
      && e.value == valueOf(e.property)
      && e.value != defaultValue(e.property.genericType)
  }

  /** Every selected property of `props` whose value is not the default is
      present with that value. */
  ghost predicate Complete(s: State, props: seq<Property>, selection: Selection,
                           valueOf: Property -> Value, defaultValue: JavaType -> Value)
  {
    forall p :: p in props && Selects(selection, p) && valueOf(p) != defaultValue(p.genericType) ==>
      Entry(p, valueOf(p)) in s
  }

  /** The entries follow the declaration order of `props`. */
  ghost predicate InDeclarationOrder(s: State, props: seq<Property>) {
    IsSubsequence(PropertiesOf(s), props)
  }

  lemma {:induction false} SubsequenceElements<T>(a: seq<T>, b: seq<T>)
    requires IsSubsequence(a, b)
    ensures forall x :: x in a ==> x in b
    decreases |b|
  {
    if b != [] {
      var b' := b[..|b| - 1];
      if a != [] && a[|a| - 1] == b[|b| - 1] && IsSubsequence(a[..|a| - 1], b') {
        SubsequenceElements(a[..|a| - 1], b');
        assert a == a[..|a| - 1] + [a[|a| - 1]];
      } else {
        SubsequenceElements(a, b');
      }
    }
  }

  lemma EntryPropertyPresent(s: State, e: Entry)
    requires e in s
    ensures e.property in PropertiesOf(s)
  {
  }

  lemma {:induction false} SparseStateSound(props: seq<Property>, selection: Selection,
                                            valueOf: Property -> Value, defaultValue: JavaType -> Value)
    ensures Sound(SparseState(props, selection, valueOf, defaultValue), props, selection, valueOf, defaultValue)
    decreases |props|
  {
    if props != [] {
      var init := props[..|props| - 1];
      SparseStateSound(init, selection, valueOf, defaultValue);
      assert props == init + [props[|props| - 1]];
    }
  }

  lemma {:induction false} SparseStateComplete(props: seq<Property>, selection: Selection,
                                               valueOf: Property -> Value, defaultValue: JavaType -> Value)
    ensures Complete(SparseState(props, selection, valueOf, defaultValue), props, selection, valueOf, defaultValue)
    decreases |props|
  {
    if props != [] {
      var init := props[..|props| - 1];
      SparseStateComplete(init, selection, valueOf, defaultValue);
      assert props == init + [props[|props| - 1]];
    }
  }

  lemma {:induction false} SparseStateOrdered(props: seq<Property>, selection: Selection,
                                              valueOf: Property -> Value, defaultValue: JavaType -> Value)
    ensures InDeclarationOrder(SparseState(props, selection, valueOf, defaultValue), props)
    decreases |props|
  {
    if props != [] {
      var init := props[..|props| - 1];
      var before := SparseState(init, selection, valueOf, defaultValue);
      SparseStateOrdered(init, selection, valueOf, defaultValue);
      var s := SparseState(props, selection, valueOf, defaultValue);
      if s != before {
        assert PropertiesOf(s)[..|s| - 1] == PropertiesOf(before);
      }
    }
  }

  /** With unique property names, no property name occurs twice in the state,
      so the state is a map from property names to values. */
  lemma {:induction false} SparseStateDistinct(props: seq<Property>, selection: Selection,
                                               valueOf: Property -> Value, defaultValue: JavaType -> Value)
    requires DistinctNames(props)
    ensures DistinctNames(PropertiesOf(SparseState(props, selection, valueOf, defaultValue)))
    decreases |props|
  {
    if props != [] {
      var init := props[..|props| - 1];
      var p := props[|props| - 1];
      var before := SparseState(init, selection, valueOf, defaultValue);
      SparseStateDistinct(init, selection, valueOf, defaultValue);
      SparseStateSound(init, selection, valueOf, defaultValue);
      var s := SparseState(props, selection, valueOf, defaultValue);
      if s != before {
        forall i | 0 <= i < |before|
          ensures before[i].property.name != p.name
        {
          assert before[i] in before;
          var k :| 0 <= k < |init| && init[k] == before[i].property;
          assert props[k] == init[k];
        }
      }
    }
  }

  /** Declaration order over `init + [p]` when `p` is present, and not in
      `init`, puts `p`'s entry last and the other entries in the order of `init`. */
  lemma OrderedWithLast(t: State, init: seq<Property>, p: Property)
    requires InDeclarationOrder(t, init + [p])
    requires p in PropertiesOf(t) && p !in init
    ensures t != [] && t[|t| - 1].property == p
    ensures InDeclarationOrder(t[..|t| - 1], init)
  {
    var a := PropertiesOf(t);
    assert (init + [p])[..|init|] == init;
    if !(a != [] && a[|a| - 1] == p && IsSubsequence(a[..|a| - 1], init)) {
      assert IsSubsequence(a, init);
      SubsequenceElements(a, init);
      assert false;
    }
    assert PropertiesOf(t[..|t| - 1]) == a[..|a| - 1];
  }

  /** When the last property `p` of `init + [p]` is present in a sound,
      complete, ordered state, dropping its entry leaves a sound, complete,
      ordered state over `init`. */
  lemma DropIncludedLast(t: State, init: seq<Property>, p: Property, selection: Selection,
                         valueOf: Property -> Value, defaultValue: JavaType -> Value)
    requires p !in init
    requires Selects(selection, p) && valueOf(p) != defaultValue(p.genericType)
    requires Sound(t, init + [p], selection, valueOf, defaultValue)
    requires Complete(t, init + [p], selection, valueOf, defaultValue)
    requires InDeclarationOrder(t, init + [p])
    ensures t != [] && t == t[..|t| - 1] + [Entry(p, valueOf(p))]
    ensures Sound(t[..|t| - 1], init, selection, valueOf, defaultValue)
    ensures Complete(t[..|t| - 1], init, selection, valueOf, defaultValue)
    ensures InDeclarationOrder(t[..|t| - 1], init)
  {
    var e := Entry(p, valueOf(p));
    assert p in init + [p];
    assert e in t;
    EntryPropertyPresent(t, e);
    OrderedWithLast(t, init, p);
    var t' := t[..|t| - 1];
    assert t == t' + [t[|t| - 1]];
    assert t[|t| - 1] in t;
    SubsequenceElements(PropertiesOf(t'), init);
    forall f | f in t'
      ensures f.property in init
    {
      EntryPropertyPresent(t', f);
    }
    forall q | q in init && Selects(selection, q) && valueOf(q) != defaultValue(q.genericType)
      ensures Entry(q, valueOf(q)) in t'
    {
      assert q in init + [p];
      assert Entry(q, valueOf(q)) in t;
    }
  }

  /** When the last property `p` of `init + [p]` is not selected or holds its
      default, a sound, complete, ordered state is one over `init`. */
  lemma DropExcludedLast(t: State, init: seq<Property>, p: Property, selection: Selection,
                         valueOf: Property -> Value, defaultValue: JavaType -> Value)
    requires !(Selects(selection, p) && valueOf(p) != defaultValue(p.genericType))
    requires Sound(t, init + [p], selection, valueOf, defaultValue)
    requires Complete(t, init + [p], selection, valueOf, defaultValue)
    requires InDeclarationOrder(t, init + [p])
    ensures Sound(t, init, selection, valueOf, defaultValue)
    ensures Complete(t, init, selection, valueOf, defaultValue)
    ensures InDeclarationOrder(t, init)
  {
  }

  /** The three properties determine the state: any state that is sound,
      complete and in declaration order is the sparse state. */
  lemma {:induction false} SparseStateUnique(t: State, props: seq<Property>, selection: Selection,
                                             valueOf: Property -> Value, defaultValue: JavaType -> Value)
    requires DistinctNames(props)
    requires Sound(t, props, selection, valueOf, defaultValue)
    requires Complete(t, props, selection, valueOf, defaultValue)
    requires InDeclarationOrder(t, props)
    ensures t == SparseState(props, selection, valueOf, defaultValue)
    decreases |props|
  {
    if props == [] {
      assert |PropertiesOf(t)| == 0;
    } else {
      var n := |props|;
      var init := props[..n - 1];
      var p := props[n - 1];
      assert props == init + [p];
      assert DistinctNames(init);
      if Selects(selection, p) && valueOf(p) != defaultValue(p.genericType) {
        assert p !in init by {
          forall k | 0 <= k < |init| ensures init[k] != p {
            assert props[k].name != props[n - 1].name;
          }
        }
        DropIncludedLast(t, init, p, selection, valueOf, defaultValue);
        SparseStateUnique(t[..|t| - 1], init, selection, valueOf, defaultValue);
      } else {
        DropExcludedLast(t, init, p, selection, valueOf, defaultValue);
        SparseStateUnique(t, init, selection, valueOf, defaultValue);
      }
    }
  }

  /** Absence means default: reading any property back from the sparse state
      gives its value when it is a selected property of `props`, and its
      default otherwise. */
  lemma {:induction false} SparseStateRoundTrip(props: seq<Property>, selection: Selection,
                                                valueOf: Property -> Value, defaultValue: JavaType -> Value,
                                                p: Property)
    ensures ValueIn(SparseState(props, selection, valueOf, defaultValue), p, defaultValue)
         == if p in props && Selects(selection, p) then valueOf(p) else defaultValue(p.genericType)
    decreases |props|
  {
    if props != [] {
      var init := props[..|props| - 1];
      assert props == init + [props[|props| - 1]];
      SparseStateRoundTrip(init, selection, valueOf, defaultValue, p);
      var s := SparseState(props, selection, valueOf, defaultValue);
      var before := SparseState(init, selection, valueOf, defaultValue);
      if s != before {
        assert s[..|s| - 1] == before;
      }
    }
  }
}
