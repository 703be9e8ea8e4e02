/** Laying the delta over the base gives the current tree back, exactly when the base has no keys the
    current tree lacks. */
module YamlDeltaTheorems {
  import opened Wrappers
  import opened YamlDelta

  /** Reading a configuration over another: maps are merged, anything else is replaced. */
  ghost function Overlay(base: Value, delta: Value): Value
    decreases delta
  {
    if base.Dictionary? && delta.Dictionary? then
      Dictionary(map k | k in base.entries.Keys + delta.entries.Keys ::
        if k !in delta.entries then base.entries[k]
        else if k !in base.entries then delta.entries[k]
        else Overlay(base.entries[k], delta.entries[k]))
    else delta
  }

  /** Every map of the base has only keys the corresponding map of the current tree has. */
  ghost predicate Covered(base: Value, current: Value)
    decreases current
  {
    base.Dictionary? && current.Dictionary? ==>
      && base.entries.Keys <= current.entries.Keys
      && forall k :: k in base.entries && k in current.entries ==> Covered(base.entries[k], current.entries[k])
  }

  /** Laying a delta node over a base: an empty one changes nothing. */
  ghost function Applied(base: Value, delta: Node): Value {
    if delta.Null? then base else Overlay(base, Denote(delta))
  }

  // ---------------------------------------------------------------------------------------------
  // What the delta holds at each key

  /** d holds, at the keys of the first n entries of current, exactly what EntryDelta says. */
  ghost predicate Exact(d: seq<Entry>, current: Node, base: Node, n: nat)
    requires current.Map? && base.Map? && n <= |current.entries|
  {
    && WellFormed(Map(d))
    && Keys(d) <= Keys(current.entries[..n])
    && forall i :: 0 <= i < n ==>
         var e := current.entries[i];
         var j := IndexOf(d, e.key);
         if EntryDelta(e, base) == [] then j == |d| else j < |d| && [d[j]] == EntryDelta(e, base)
  }

  lemma {:induction false} EntryDeltaSound(e: Entry, base: Node)
    requires WellFormed(e.value) && WellFormed(base) && base.Map?
    ensures |EntryDelta(e, base)| <= 1
    ensures EntryDelta(e, base) != [] ==> EntryDelta(e, base)[0].key == e.key && WellFormed(EntryDelta(e, base)[0].value)
    decreases e.value, 1, 0
  {
    var j := IndexOf(base.entries, e.key);
    if j < |base.entries| && e.value.Map? && base.entries[j].value.Map? {
      DeltaExact(e.value, base.entries[j].value, |e.value.entries|);
    }
  }

  lemma {:induction false} DeltaExact(current: Node, base: Node, n: nat)
    requires WellFormed(current) && WellFormed(base) && current.Map? && base.Map? && n <= |current.entries|
    ensures Exact(DeltaUpTo(current, base, n), current, base, n)
    decreases current, 0, n
  {
    if n > 0 {
      DeltaExact(current, base, n - 1);
      EntryDeltaSound(current.entries[n - 1], base);
      AppendExact(DeltaUpTo(current, base, n - 1), current, base, n);
    }
  }

  lemma AppendIndex(d: seq<Entry>, e: Entry, key: string)
    ensures IndexOf(d + [e], key) ==
      if IndexOf(d, key) < |d| then IndexOf(d, key) else if e.key == key then |d| else |d| + 1
  {
    assert (d + [e])[..|d|] == d;
  }

  lemma AppendKeys(d: seq<Entry>, e: Entry)
    ensures Keys(d + [e]) == Keys(d) + {e.key}
  {
    assert e.key in Keys(d + [e]) by {
      assert (d + [e])[|d|] == e;
    }
    forall k | k in Keys(d) ensures k in Keys(d + [e]) {
      var i :| 0 <= i < |d| && d[i].key == k;
      assert (d + [e])[i].key == k;
    }
  }

  lemma AppendWellFormed(d: seq<Entry>, e: Entry)
    requires WellFormed(Map(d)) && WellFormed(e.value) && e.key !in Keys(d)
    ensures WellFormed(Map(d + [e]))
  {
    forall i | 0 <= i < |d| ensures d[i].key != e.key {
      assert d[i].key in Keys(d);
    }
  }

  lemma AppendExact(d: seq<Entry>, current: Node, base: Node, n: nat)
    requires WellFormed(current) && current.Map? && base.Map? && 0 < n <= |current.entries|
    requires Exact(d, current, base, n - 1)
    requires var x := EntryDelta(current.entries[n - 1], base);
      |x| <= 1 && (x != [] ==> x[0].key == current.entries[n - 1].key && WellFormed(x[0].value))
    ensures Exact(d + EntryDelta(current.entries[n - 1], base), current, base, n)
  {
    var e := current.entries[n - 1];
    var x := EntryDelta(e, base);
    assert Keys(current.entries[..n]) == Keys(current.entries[..n - 1]) + {e.key};
    assert e.key !in Keys(current.entries[..n - 1]);
    KeyIndex(d, e.key);
    if x == [] {
      assert d + x == d;
    } else {
      assert d + x == d + [x[0]];
      AppendKeys(d, x[0]);
      AppendWellFormed(d, x[0]);
      forall i | 0 <= i < n ensures
        var j := IndexOf(d + x, current.entries[i].key);
        if EntryDelta(current.entries[i], base) == [] then j == |d + x|
        else j < |d + x| && [(d + x)[j]] == EntryDelta(current.entries[i], base)
      {
        AppendIndex(d, x[0], current.entries[i].key);
      }
    }
  }

  /** The delta's dictionary at the key of entry i of the current tree. */
  lemma DeltaAt(current: Node, base: Node, i: nat)
    requires WellFormed(current) && WellFormed(base) && current.Map? && base.Map? && i < |current.entries|
    ensures var e, d := current.entries[i], Denote(Map(Delta(current, base))).entries;
      && |EntryDelta(e, base)| <= 1
      && (e.key in d <==> EntryDelta(e, base) != [])
      && (e.key in d ==> d[e.key] == Denote(EntryDelta(e, base)[0].value))
  {
    var delta, e := Delta(current, base), current.entries[i];
    DeltaExact(current, base, |current.entries|);
    EntryDeltaSound(e, base);
    KeyIndex(delta, e.key);
    DenoteKeys(Map(delta));
    var j := IndexOf(delta, e.key);
    if j < |delta| {
      DenoteAt(Map(delta), j);
    }
  }

  lemma DeltaKeys(current: Node, base: Node)
    requires WellFormed(current) && WellFormed(base) && current.Map? && base.Map?
    ensures Denote(Map(Delta(current, base))).entries.Keys <= Denote(current).entries.Keys
  {
    DeltaExact(current, base, |current.entries|);
    DenoteKeys(Map(Delta(current, base)));
    DenoteKeys(current);
    assert current.entries[..|current.entries|] == current.entries;
  }

  // ---------------------------------------------------------------------------------------------
  // The theorems

  /** What the stored delta leads to when it is laid over the base. */
  ghost function Rebuilt(current: Node, base: Node): Value
    requires current.Map? && base.Map?
  {
    Applied(Denote(base), Wrap(Delta(current, base)))
  }

  lemma EmptyOverlay(base: Value)
    requires base.Dictionary?
    ensures Overlay(base, Denote(Map([]))) == base
  {
    assert Denote(Map([])).entries == map[];
  }

  lemma RebuiltIsOverlay(current: Node, base: Node)
    requires current.Map? && base.Map?
    ensures Rebuilt(current, base) == Overlay(Denote(base), Denote(Map(Delta(current, base))))
  {
    hide Overlay;
    EmptyOverlay(Denote(base));
  }

  lemma OverlayAt(b: Value, d: Value, k: string)
    requires b.Dictionary? && d.Dictionary? && (k in b.entries || k in d.entries)
    ensures var o := Overlay(b, d);
      && o.Dictionary? && k in o.entries
      && o.entries[k] == if k !in d.entries then b.entries[k] else if k !in b.entries then d.entries[k]
                         else Overlay(b.entries[k], d.entries[k])
  {
  }

  lemma DictionaryShape(n: Node)
    ensures Denote(n).Dictionary? <==> n.Map?
  {
  }

  /** One key: what the overlay has there is what the current tree has there, if the values below agree. */
  lemma {:induction false} KeyRebuilt(current: Node, base: Node, i: nat)
    requires WellFormed(current) && WellFormed(base) && current.Map? && base.Map? && i < |current.entries|
    ensures var e, b, o := current.entries[i], Denote(base), Rebuilt(current, base);
      && o.Dictionary? && b.Dictionary? && e.key in o.entries
      && (o.entries[e.key] == Denote(e.value) <==> (e.key in b.entries ==> Covered(b.entries[e.key], Denote(e.value))))
    decreases current, 0
  {
    hide Denote, Delta, Applied, Rebuilt;
    var e := current.entries[i];
    var j := IndexOf(base.entries, e.key);
    RebuiltIsOverlay(current, base);
    DeltaAt(current, base, i);
    DictionaryShape(base);
    DictionaryShape(Map(Delta(current, base)));
    DenoteKeys(base);
    KeyIndex(base.entries, e.key);
    OverlayAt(Denote(base), Denote(Map(Delta(current, base))), e.key);
    if j < |base.entries| {
      var bv := base.entries[j].value;
      DenoteAt(base, j);
      DictionaryShape(e.value);
      DictionaryShape(bv);
      if e.value.Map? && bv.Map? {
        DeltaRebuilds(e.value, bv);
        RebuiltIsOverlay(e.value, bv);
        SubDelta(e, base);
        EmptyOverlay(Denote(bv));
      } else {
        NodesEqualExact(e.value, bv);
      }
    }
  }

  lemma SubDelta(e: Entry, base: Node)
    requires base.Map? && e.value.Map? && IndexOf(base.entries, e.key) < |base.entries|
    requires base.entries[IndexOf(base.entries, e.key)].value.Map?
    ensures var sub := Delta(e.value, base.entries[IndexOf(base.entries, e.key)].value);
      EntryDelta(e, base) == if sub != [] then [Entry(e.key, Map(sub))] else []
  {
  }

  /** Laying the delta node over the base gives the current tree if and only if the base is covered by it. */
  lemma {:induction false} DeltaRebuilds(current: Node, base: Node)
    requires WellFormed(current) && WellFormed(base) && current.Map? && base.Map?
    ensures Rebuilt(current, base) == Denote(current) <==> Covered(Denote(base), Denote(current))
    decreases current, 1
  {
    hide Applied, Rebuilt;
    var b, c, o := Denote(base), Denote(current), Rebuilt(current, base);
    RebuiltIsOverlay(current, base);
    DenoteKeys(current);
    DeltaKeys(current, base);
    forall k | k in c.entries
      ensures k in o.entries && (o.entries[k] == c.entries[k] <==> (k in b.entries ==> Covered(b.entries[k], c.entries[k])))
    {
      KeyIndex(current.entries, k);
      var i := IndexOf(current.entries, k);
      DenoteAt(current, i);
      KeyRebuilt(current, base, i);
    }
    assert o.entries.Keys == b.entries.Keys + c.entries.Keys;
    hide Overlay, Denote, Delta, WellFormed;
    SameExactlyWhenCovered(b, c, o);
  }

  lemma SameExactlyWhenCovered(b: Value, c: Value, o: Value)
    requires b.Dictionary? && c.Dictionary? && o.Dictionary? && o.entries.Keys == b.entries.Keys + c.entries.Keys
    requires forall k :: k in c.entries ==>
               (o.entries[k] == c.entries[k] <==> (k in b.entries ==> Covered(b.entries[k], c.entries[k])))
    ensures o == c <==> Covered(b, c)
  {
    if b.entries.Keys <= c.entries.Keys {
      assert o.entries.Keys == c.entries.Keys;
      assert o.entries == c.entries <==> forall k :: k in c.entries ==> o.entries[k] == c.entries[k];
    } else {
      assert o.entries.Keys != c.entries.Keys;
    }
  }

  /** All of c stands in b already, without a null: maps key by key, anything else equal. */
  ghost predicate Within(c: Value, b: Value)
    decreases c
  {
    if c.Dictionary? && b.Dictionary? then
      forall k :: k in c.entries ==> k in b.entries && Within(c.entries[k], b.entries[k])
    else c == b && !HoldsNull(c)
  }

  lemma {:induction false} EmptyUpTo(current: Node, base: Node, n: nat)
    requires current.Map? && base.Map? && n <= |current.entries|
    ensures DeltaUpTo(current, base, n) == [] <==> forall i :: 0 <= i < n ==> EntryDelta(current.entries[i], base) == []
  {
    if n > 0 {
      EmptyUpTo(current, base, n - 1);
    }
  }

  /** One key: the entry adds nothing exactly when the base holds its value already. */
  lemma {:induction false} NothingToAdd(current: Node, base: Node, i: nat)
    requires WellFormed(current) && WellFormed(base) && current.Map? && base.Map? && i < |current.entries|
    ensures var e, b := current.entries[i], Denote(base).entries;
      EntryDelta(e, base) == [] <==> e.key in b && Within(Denote(e.value), b[e.key])
    decreases current, 0
  {
    hide Denote, NodesEqual, HoldsNull;
    var e := current.entries[i];
    var j := IndexOf(base.entries, e.key);
    DictionaryShape(base);
    DenoteKeys(base);
    KeyIndex(base.entries, e.key);
    if j < |base.entries| {
      var bv := base.entries[j].value;
      DenoteAt(base, j);
      DictionaryShape(e.value);
      DictionaryShape(bv);
      if e.value.Map? && bv.Map? {
        DeltaEmptyExactly(e.value, bv);
        SubDelta(e, base);
      } else {
        NodesEqualExact(e.value, bv);
        NullFreeByMeaning(e.value);
      }
    }
  }

  /** The dictionary b holds what c has at e's key. */
  ghost predicate Holds(c: Value, b: Value, e: Entry)
    requires c.Dictionary? && b.Dictionary?
  {
    e.key in c.entries && e.key in b.entries && Within(c.entries[e.key], b.entries[e.key])
  }

  lemma AllHeld(entries: seq<Entry>, c: Value, b: Value)
    requires c.Dictionary? && b.Dictionary? && c.entries.Keys == Keys(entries)
    ensures Within(c, b) <==> forall i :: 0 <= i < |entries| ==> Holds(c, b, entries[i])
  {
    forall i | 0 <= i < |entries| ensures entries[i].key in c.entries {
      assert entries[i].key in Keys(entries);
    }
    if forall i :: 0 <= i < |entries| ==> Holds(c, b, entries[i]) {
      forall k | k in c.entries ensures k in b.entries && Within(c.entries[k], b.entries[k]) {
        var i :| 0 <= i < |entries| && entries[i].key == k;
        assert Holds(c, b, entries[i]);
      }
    }
  }

  /** The delta of two maps is empty if and only if the base holds all of the current tree already. */
  lemma {:induction false} DeltaEmptyExactly(current: Node, base: Node)
    requires WellFormed(current) && WellFormed(base) && current.Map? && base.Map?
    ensures Delta(current, base) == [] <==> Within(Denote(current), Denote(base))
    decreases current, 1
  {
    hide Denote, EntryDelta, DeltaUpTo, Within, Keys;
    var c, b := Denote(current), Denote(base);
    DictionaryShape(current);
    DictionaryShape(base);
    EmptyUpTo(current, base, |current.entries|);
    DenoteKeys(current);
    forall i | 0 <= i < |current.entries|
      ensures EntryDelta(current.entries[i], base) == [] <==> Holds(c, b, current.entries[i])
    {
      DenoteAt(current, i);
      NothingToAdd(current, base, i);
    }
    hide Holds, WellFormed;
    AllHeld(current.entries, c, b);
  }

  /** Over a covered base that is equality of meaning, without nulls. */
  lemma {:induction false} WithinCovered(c: Value, b: Value)
    requires Covered(b, c)
    ensures Within(c, b) <==> c == b && !HoldsNull(c)
    decreases c
  {
    if c.Dictionary? && b.Dictionary? {
      forall k | k in c.entries && k in b.entries
        ensures Within(c.entries[k], b.entries[k]) <==> c.entries[k] == b.entries[k] && !HoldsNull(c.entries[k])
      {
        WithinCovered(c.entries[k], b.entries[k]);
      }
      if Within(c, b) {
        assert c.entries == b.entries;
      }
    }
  }

  /** Over a covered base the delta of two maps is empty if and only if they mean the same and hold no null. */
  lemma DeltaEmptyWhenSame(current: Node, base: Node)
    requires WellFormed(current) && WellFormed(base) && current.Map? && base.Map?
    requires Covered(Denote(base), Denote(current))
    ensures Delta(current, base) == [] <==> Denote(current) == Denote(base) && NullFree(current)
  {
    hide *;
    DeltaEmptyExactly(current, base);
    WithinCovered(Denote(current), Denote(base));
    NullFreeByMeaning(current);
  }

  lemma EmptyMap(n: Node)
    requires n.Map?
    ensures n.entries == [] <==> Denote(n).entries == map[]
  {
    DenoteKeys(n);
    if n.entries != [] {
      assert n.entries[0].key in Keys(n.entries);
    }
  }

  /** Nothing in d stands in b already, on any level. */
  ghost predicate Lean(d: Value, b: Value)
    decreases d
  {
    d.Dictionary? && b.Dictionary? ==>
      forall k :: k in d.entries && k in b.entries ==> !Within(d.entries[k], b.entries[k]) && Lean(d.entries[k], b.entries[k])
  }

  lemma LeanNotWithin(d: Value, b: Value)
    requires Lean(d, b) && d.Dictionary? && b.Dictionary? && d.entries != map[]
    ensures !Within(d, b)
  {
    assert d.entries.Keys != {};
    var k :| k in d.entries;
    assert k in b.entries ==> !Within(d.entries[k], b.entries[k]);
  }

  lemma {:induction false} KeyIsLean(current: Node, base: Node, i: nat)
    requires WellFormed(current) && WellFormed(base) && current.Map? && base.Map? && i < |current.entries|
    ensures var e, d, b := current.entries[i], Denote(Map(Delta(current, base))), Denote(base);
      && d.Dictionary? && b.Dictionary?
      && (e.key in d.entries && e.key in b.entries ==>
            !Within(d.entries[e.key], b.entries[e.key]) && Lean(d.entries[e.key], b.entries[e.key]))
    decreases current, 0
  {
    hide Denote, Delta, NodesEqual, HoldsNull;
    var e := current.entries[i];
    var j := IndexOf(base.entries, e.key);
    DeltaAt(current, base, i);
    DictionaryShape(base);
    DictionaryShape(Map(Delta(current, base)));
    DenoteKeys(base);
    KeyIndex(base.entries, e.key);
    if j < |base.entries| {
      var bv := base.entries[j].value;
      DenoteAt(base, j);
      DictionaryShape(e.value);
      DictionaryShape(bv);
      if e.value.Map? && bv.Map? {
        DeltaIsLean(e.value, bv);
        SubDelta(e, base);
        EmptyMap(Map(Delta(e.value, bv)));
        DictionaryShape(Map(Delta(e.value, bv)));
        if Delta(e.value, bv) != [] {
          LeanNotWithin(Denote(Map(Delta(e.value, bv))), Denote(bv));
        }
      } else {
        NodesEqualExact(e.value, bv);
        NullFreeByMeaning(e.value);
      }
    }
  }

  /** The delta is no larger than it has to be: on no level does it repeat what the base has. */
  lemma {:induction false} DeltaIsLean(current: Node, base: Node)
    requires WellFormed(current) && WellFormed(base) && current.Map? && base.Map?
    ensures Lean(Denote(Map(Delta(current, base))), Denote(base))
    decreases current, 1
  {
    hide Denote, Delta, Within, WellFormed;
    var d, b := Denote(Map(Delta(current, base))), Denote(base);
    DeltaKeys(current, base);
    DenoteKeys(current);
    DictionaryShape(base);
    DictionaryShape(Map(Delta(current, base)));
    forall k | k in d.entries && k in b.entries ensures !Within(d.entries[k], b.entries[k]) && Lean(d.entries[k], b.entries[k]) {
      assert k in Denote(current).entries.Keys;
      KeyIndex(current.entries, k);
      KeyIsLean(current, base, IndexOf(current.entries, k));
    }
  }

  // ---------------------------------------------------------------------------------------------
  // The node that is stored

  /** When laying the stored node over the base gives the current tree. */
  ghost predicate Recovered(current: Value, base: Value) {
    if !current.Dictionary? then current == base          // nothing is stored
    else if base.Dictionary? then Covered(base, current)
    else current.entries != map[]                         // an empty map replaces nothing
  }

  /** When nothing is stored. */
  ghost predicate Unchanged(current: Value, base: Value) {
    if !current.Dictionary? then true
    else if base.Dictionary? then Within(current, base)
    else current.entries == map[]
  }

  /** A map over something that is no map is stored whole. */
  lemma WholeMap(current: Node, base: Node)
    requires current.Map? && !base.Map?
    ensures Wrap(current.entries).Null? <==> Denote(current).entries == map[]
    ensures Applied(Denote(base), Wrap(current.entries)) == Denote(current) <==> Denote(current).entries != map[]
  {
    EmptyMap(current);
    DictionaryShape(base);
    hide Denote;
  }

  /** The delta as a node. Subscripting a scalar base is the one exception; otherwise the node is empty
      exactly when the base holds all of the current tree, and laying it over the base gives the
      current tree exactly when the base has no keys the current tree lacks. */
  method GenerateDeltaNode(current: Node, base: Node) returns (r: Option<Node>)
    requires WellFormed(current) && WellFormed(base)
    ensures r.None? <==> base.Scalar? && current.Map? && Denote(current).entries != map[]
    ensures r.Some? ==> (r.value == Null <==> Unchanged(Denote(current), Denote(base)))
    ensures r.Some? ==> (Applied(Denote(base), r.value) == Denote(current) <==> Recovered(Denote(current), Denote(base)))
    ensures r.Some? && current.Map? && base.Map? ==> r.value == Wrap(Delta(current, base))
  {
    hide Denote, Delta, Covered, Within, WellFormed;
    DictionaryShape(current);
    DictionaryShape(base);
    if !current.Map? {
      return Some(Null);
    }
    EmptyMap(current);
    if base.Map? {
      var delta, path := GenerateDeltaRecursive(current, base, []);
      DeltaEmptyExactly(current, base);
      DeltaRebuilds(current, base);
      return Some(Wrap(delta));
    }
    WholeMap(current, base);
    if base.Scalar? && current.entries != [] {
      return None;
    }
    return Some(Wrap(current.entries));
  }
}
