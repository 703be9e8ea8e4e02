/** The delta the launcher stores instead of a whole configuration: what the current YAML tree has
    beyond a base tree. Maps are lists of entries with unique keys; their meaning does not depend on
    the order. */
module YamlDelta {
  import opened Wrappers

  datatype Node = Null | Scalar(text: string) | Sequence(items: seq<Node>) | Map(entries: seq<Entry>)

  datatype Entry = Entry(key: string, value: Node)

  function IndexOf(entries: seq<Entry>, key: string): (i: nat)
    ensures i < |entries| ==> entries[i].key == key
    ensures i >= |entries| ==> i == |entries| && forall j :: 0 <= j < |entries| ==> entries[j].key != key
  {
    if entries == [] then 0
    else
      var n := |entries| - 1;
      var i := IndexOf(entries[..n], key);
      if i < n then i else if entries[n].key == key then n else n + 1
  }

  ghost predicate UniqueKeys(entries: seq<Entry>) {
    forall i, j :: 0 <= i < j < |entries| ==> entries[i].key != entries[j].key
  }

  ghost predicate WellFormed(n: Node) {
    match n
    case Sequence(items) => forall i :: 0 <= i < |items| ==> WellFormed(items[i])
    case Map(entries) => UniqueKeys(entries) && forall i :: 0 <= i < |entries| ==> WellFormed(entries[i].value)
    case _ => true
  }

  predicate NullFree(n: Node) {
    match n
    case Null => false
    case Scalar(_) => true
    case Sequence(items) => forall i :: 0 <= i < |items| ==> NullFree(items[i])
    case Map(entries) => forall i :: 0 <= i < |entries| ==> NullFree(entries[i].value)
  }

  /** What a tree means: maps are maps. */
  datatype Value = NullValue | Text(text: string) | List(items: seq<Value>) | Dictionary(entries: map<string, Value>)

  function Keys(entries: seq<Entry>): set<string> {
    set i | 0 <= i < |entries| :: entries[i].key
  }

  ghost function Denote(n: Node): Value {
    match n
    case Null => NullValue
    case Scalar(text) => Text(text)
    case Sequence(items) => List(seq(|items|, i requires 0 <= i < |items| => Denote(items[i])))
    case Map(entries) =>
      Dictionary(map k | k in Keys(entries) && IndexOf(entries, k) < |entries| :: Denote(entries[IndexOf(entries, k)].value))
  }

  // ---------------------------------------------------------------------------------------------
  // NodesEqual

  predicate NodesEqual(a: Node, b: Node) {
    match a
    case Scalar(text) => b == Scalar(text)
    case Sequence(items) =>
      b.Sequence? && |items| == |b.items| && forall i :: 0 <= i < |items| ==> NodesEqual(items[i], b.items[i])
    case Map(entries) =>
      && b.Map? && |entries| == |b.entries|
      && forall i :: 0 <= i < |entries| ==>
           var j := IndexOf(b.entries, entries[i].key);
           j < |b.entries| && NodesEqual(entries[i].value, b.entries[j].value)
    case Null => false
  }

  lemma IndexOfOwn(entries: seq<Entry>, i: nat)
    requires UniqueKeys(entries) && i < |entries|
    ensures IndexOf(entries, entries[i].key) == i
  {
  }

  lemma KeyIndex(entries: seq<Entry>, k: string)
    ensures k in Keys(entries) <==> IndexOf(entries, k) < |entries|
  {
    var i := IndexOf(entries, k);
    if i < |entries| {
      assert entries[i].key in Keys(entries);
    }
  }

  /** Unique keys: as many entries as keys. */
  lemma {:induction false} CountKeys(entries: seq<Entry>)
    requires UniqueKeys(entries)
    ensures |Keys(entries)| == |entries|
  {
    if entries != [] {
      var n := |entries| - 1;
      CountKeys(entries[..n]);
      assert Keys(entries) == Keys(entries[..n]) + {entries[n].key};
      assert entries[n].key !in Keys(entries[..n]);
    }
  }

  lemma SameSizeSubset(a: set<string>, b: set<string>)
    requires a <= b && |a| == |b|
    ensures a == b
  {
    assert b == a + (b - a);
    assert |b| == |a| + |b - a|;
  }

  /** The dictionary's value at the key of entry i. */
  lemma DenoteAt(n: Node, i: nat)
    requires n.Map? && WellFormed(n) && i < |n.entries|
    ensures n.entries[i].key in Denote(n).entries && Denote(n).entries[n.entries[i].key] == Denote(n.entries[i].value)
  {
    IndexOfOwn(n.entries, i);
    assert n.entries[i].key in Keys(n.entries);
  }

  lemma DenoteKeys(n: Node)
    requires n.Map?
    ensures Denote(n).Dictionary? && Denote(n).entries.Keys == Keys(n.entries)
  {
    forall k ensures k in Denote(n).entries <==> k in Keys(n.entries) {
      KeyIndex(n.entries, k);
    }
  }

  /** On trees with unique keys NodesEqual is equality of meaning, except that null is never equal to
      anything, itself included. */
  lemma {:induction false} NodesEqualExact(a: Node, b: Node)
    requires WellFormed(a) && WellFormed(b)
    ensures NodesEqual(a, b) <==> Denote(a) == Denote(b) && NullFree(a)
    decreases a, 2
  {
    if a.Sequence? && b.Sequence? {
      SequencesEqualExact(a, b);
    } else if a.Map? && b.Map? {
      MapsEqualExact(a, b);
    }
  }

  lemma {:induction false} SequencesEqualExact(a: Node, b: Node)
    requires WellFormed(a) && WellFormed(b) && a.Sequence? && b.Sequence?
    ensures NodesEqual(a, b) <==> Denote(a) == Denote(b) && NullFree(a)
    decreases a, 0
  {
    if |a.items| == |b.items| {
      forall i | 0 <= i < |a.items|
        ensures NodesEqual(a.items[i], b.items[i]) <==> Denote(a.items[i]) == Denote(b.items[i]) && NullFree(a.items[i])
      {
        NodesEqualExact(a.items[i], b.items[i]);
      }
      if Denote(a) == Denote(b) {
        forall i | 0 <= i < |a.items| ensures Denote(a.items[i]) == Denote(b.items[i]) {
          assert Denote(a).items[i] == Denote(b).items[i];
        }
      }
    } else {
      assert |Denote(a).items| != |Denote(b).items|;
    }
  }

  /** Entry i of a has an equal in b. */
  predicate SameEntry(a: Node, b: Node, i: nat)
    requires a.Map? && b.Map? && i < |a.entries|
  {
    var j := IndexOf(b.entries, a.entries[i].key);
    j < |b.entries| && NodesEqual(a.entries[i].value, b.entries[j].value)
  }

  /** The dictionaries have the same value at e's key, and it holds no null. */
  ghost predicate Agrees(da: map<string, Value>, db: map<string, Value>, e: Entry) {
    e.key in da && e.key in db && db[e.key] == da[e.key] && NullFree(e.value)
  }

  lemma {:induction false} SameEntryMeans(a: Node, b: Node, i: nat)
    requires WellFormed(a) && WellFormed(b) && a.Map? && b.Map? && i < |a.entries|
    ensures SameEntry(a, b, i) <==> Agrees(Denote(a).entries, Denote(b).entries, a.entries[i])
    decreases a, 0
  {
    var key, j := a.entries[i].key, IndexOf(b.entries, a.entries[i].key);
    DenoteAt(a, i);
    DenoteKeys(b);
    KeyIndex(b.entries, key);
    if j < |b.entries| {
      DenoteAt(b, j);
      NodesEqualExact(a.entries[i].value, b.entries[j].value);
    }
  }

  /** As many entries, all agreeing: the counting argument that makes the test symmetric. */
  lemma AllAgree(entries: seq<Entry>, da: map<string, Value>, db: map<string, Value>)
    requires da.Keys == Keys(entries) && |da.Keys| == |entries|
    ensures |entries| == |db.Keys| && (forall i :: 0 <= i < |entries| ==> Agrees(da, db, entries[i]))
            <==> da == db && forall i :: 0 <= i < |entries| ==> NullFree(entries[i].value)
  {
    hide NullFree;
    forall i | 0 <= i < |entries| ensures entries[i].key in da {
      assert entries[i].key in Keys(entries);
    }
    if |entries| == |db.Keys| && forall i :: 0 <= i < |entries| ==> Agrees(da, db, entries[i]) {
      forall k | k in da ensures k in db && da[k] == db[k] {
        var i :| 0 <= i < |entries| && entries[i].key == k;
        assert Agrees(da, db, entries[i]);
      }
      SameSizeSubset(da.Keys, db.Keys);
      assert forall i :: 0 <= i < |entries| ==> Agrees(da, db, entries[i]) ==> NullFree(entries[i].value);
    }
  }

  lemma {:induction false} MapsEqualExact(a: Node, b: Node)
    requires WellFormed(a) && WellFormed(b) && a.Map? && b.Map?
    ensures NodesEqual(a, b) <==> Denote(a) == Denote(b) && NullFree(a)
    decreases a, 1
  {
    var da, db := Denote(a).entries, Denote(b).entries;
    forall i | 0 <= i < |a.entries| ensures SameEntry(a, b, i) <==> Agrees(da, db, a.entries[i]) {
      SameEntryMeans(a, b, i);
    }
    DenoteKeys(a);
    DenoteKeys(b);
    CountKeys(a.entries);
    CountKeys(b.entries);
    MapNodesEqual(a, b);
    hide Denote, NodesEqual, SameEntry, Agrees, Keys, UniqueKeys;
    AllAgree(a.entries, da, db);
  }

  lemma MapNodesEqual(a: Node, b: Node)
    requires a.Map? && b.Map?
    ensures NodesEqual(a, b) <==> |a.entries| == |b.entries| && forall i :: 0 <= i < |a.entries| ==> SameEntry(a, b, i)
  {
    if |a.entries| == |b.entries| && forall i :: 0 <= i < |a.entries| ==> SameEntry(a, b, i) {
      forall i | 0 <= i < |a.entries|
        ensures var j := IndexOf(b.entries, a.entries[i].key);
          j < |b.entries| && NodesEqual(a.entries[i].value, b.entries[j].value)
      {
        assert SameEntry(a, b, i);
      }
    }
  }

  ghost predicate HoldsNull(v: Value) {
    match v
    case NullValue => true
    case Text(_) => false
    case List(items) => exists i :: 0 <= i < |items| && HoldsNull(items[i])
    case Dictionary(entries) => exists k :: k in entries && HoldsNull(entries[k])
  }

  /** Being null-free is a matter of meaning. */
  lemma {:induction false} NullFreeByMeaning(n: Node)
    requires WellFormed(n)
    ensures NullFree(n) <==> !HoldsNull(Denote(n))
    decreases n, 1
  {
    match n
    case Sequence(items) =>
      forall i | 0 <= i < |items| ensures NullFree(items[i]) <==> !HoldsNull(Denote(n).items[i]) {
        NullFreeByMeaning(items[i]);
      }
    case Map(entries) => MapNullFree(n);
    case _ =>
  }

  /** Each key has an entry and each entry its key. */
  lemma NullsByKey(entries: seq<Entry>, d: map<string, Value>)
    requires d.Keys == Keys(entries)
    requires forall i :: 0 <= i < |entries| ==> entries[i].key in d && (NullFree(entries[i].value) <==> !HoldsNull(d[entries[i].key]))
    ensures (forall i :: 0 <= i < |entries| ==> NullFree(entries[i].value)) <==> forall k :: k in d ==> !HoldsNull(d[k])
  {
    hide NullFree, HoldsNull;
    if forall i :: 0 <= i < |entries| ==> NullFree(entries[i].value) {
      forall k | k in d ensures !HoldsNull(d[k]) {
        var i :| 0 <= i < |entries| && entries[i].key == k;
        assert NullFree(entries[i].value);
      }
    }
  }

  lemma {:induction false} MapNullFree(n: Node)
    requires WellFormed(n) && n.Map?
    ensures NullFree(n) <==> !HoldsNull(Denote(n))
    decreases n, 0
  {
    hide Denote, Keys;
    DenoteKeys(n);
    var d := Denote(n).entries;
    forall i | 0 <= i < |n.entries|
      ensures n.entries[i].key in d && (NullFree(n.entries[i].value) <==> !HoldsNull(d[n.entries[i].key]))
    {
      NullFreeByMeaning(n.entries[i].value);
      DenoteAt(n, i);
    }
    NullsByKey(n.entries, d);
  }

  /** Hence NodesEqual is reflexive exactly on null-free trees, ... */
  lemma NodesEqualReflexive(a: Node)
    requires WellFormed(a)
    ensures NodesEqual(a, a) <==> NullFree(a)
  {
    NodesEqualExact(a, a);
  }

  /** ... symmetric, ... */
  lemma NodesEqualSymmetric(a: Node, b: Node)
    requires WellFormed(a) && WellFormed(b)
    ensures NodesEqual(a, b) <==> NodesEqual(b, a)
  {
    hide NodesEqual, NullFree, Denote, WellFormed, HoldsNull;
    NodesEqualExact(a, b);
    NodesEqualExact(b, a);
    NullFreeByMeaning(a);
    NullFreeByMeaning(b);
  }

  /** ... and transitive. */
  lemma NodesEqualTransitive(a: Node, b: Node, c: Node)
    requires WellFormed(a) && WellFormed(b) && WellFormed(c) && NodesEqual(a, b) && NodesEqual(b, c)
    ensures NodesEqual(a, c)
  {
    hide NodesEqual, NullFree, Denote, WellFormed;
    NodesEqualExact(a, b);
    NodesEqualExact(b, c);
    NodesEqualExact(a, c);
  }

  // ---------------------------------------------------------------------------------------------
  // The delta

  function Wrap(entries: seq<Entry>): Node {
    if entries == [] then Null else Map(entries)
  }

  /** What entry e adds to the delta over a base map: nothing, the whole value, or a smaller map. */
  function EntryDelta(e: Entry, base: Node): seq<Entry>
    requires base.Map?
    decreases e.value, 1, 0
  {
    var j := IndexOf(base.entries, e.key);
    if j == |base.entries| then [e]
    else
      var baseValue := base.entries[j].value;
      if e.value.Map? && baseValue.Map? then
        var sub := DeltaUpTo(e.value, baseValue, |e.value.entries|);
        if sub != [] then [Entry(e.key, Map(sub))] else []
      else if !NodesEqual(e.value, baseValue) then [e]
      else []
  }

  /** The delta of the first n entries. */
  function DeltaUpTo(current: Node, base: Node, n: nat): seq<Entry>
    requires current.Map? && base.Map? && n <= |current.entries|
    decreases current, 0, n
  {
    if n == 0 then [] else DeltaUpTo(current, base, n - 1) + EntryDelta(current.entries[n - 1], base)
  }

  function Delta(current: Node, base: Node): seq<Entry>
    requires current.Map? && base.Map?
  {
    DeltaUpTo(current, base, |current.entries|)
  }

  method GenerateDeltaRecursive(current: Node, base: Node, path: seq<string>) returns (delta: seq<Entry>, keyPath: seq<string>)
    requires current.Map? && base.Map?
    ensures delta == Delta(current, base)
    ensures keyPath == path
    decreases current
  {
    delta, keyPath := [], path;
    for i := 0 to |current.entries|
      invariant delta == DeltaUpTo(current, base, i)
      invariant keyPath == path
    {
      var key, currentValue := current.entries[i].key, current.entries[i].value;
      keyPath := keyPath + [key];
      var j := IndexOf(base.entries, key);
      if j == |base.entries| {
        delta := delta + [Entry(key, currentValue)];
      } else {
        var baseValue := base.entries[j].value;
        if currentValue.Map? && baseValue.Map? {
          var subDelta, subPath := GenerateDeltaRecursive(currentValue, baseValue, keyPath);
          keyPath := subPath;
          if |subDelta| > 0 {
            delta := delta + [Entry(key, Map(subDelta))];
          }
        } else if !NodesEqual(currentValue, baseValue) {
          delta := delta + [Entry(key, currentValue)];
        }
      }
      keyPath := keyPath[..|keyPath| - 1];
    }
  }
}
