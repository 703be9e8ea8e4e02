/** Arrays of pointers to instance descriptors: the CPU groups the pointers by resource, copies the
    span each group covers into a patch buffer, and points every pointer into its group's buffer. */
module InstancePointers {
  import opened AddressMapping
  import opened Arithmetic
  import opened Wrappers

  type Key = nat

  /** What the address service knows about the resource that holds an address. */
  datatype Info = Info(key: Key, captureStart: Word)

  type Finder = Word -> Option<Info>

  /** `buffer` numbers the pool buffers in the order they were handed out; `offsets` is an ordered set. */
  datatype Group = Group(buffer: nat, captureStart: Word, offsets: seq<nat>)

  datatype Failure = UnknownPointer | PoolExhausted | StagingTooSmall | PatchBufferTooSmall | TooManyOffsets

  datatype Result<T> = Ok(value: T) | Err(failure: Failure)

  const STAGING_SIZE := 0x80000
  const PATCH_BUFFER_SIZE := 0x1000_0000
  const OFFSETS_BUFFER_SIZE := 0x40000
  const DESCRIPTOR := 64

  /** A resource starts at or below the addresses it holds, and has one start. */
  ghost predicate Consistent(find: Finder) {
    && (forall a: Word :: find(a).Some? ==> find(a).value.captureStart <= a)
    && (forall a: Word, b: Word :: find(a).Some? && find(b).Some? && find(a).value.key == find(b).value.key ==>
          find(a).value.captureStart == find(b).value.captureStart)
  }

  /** A 64-bit difference kept in 32 bits. */
  function Offset(a: Word, start: Word): nat
    requires start <= a
  {
    (a - start) % TWO_TO_THE_32
  }

  ghost predicate Increasing(s: seq<nat>) {
    forall i, j :: 0 <= i < j < |s| ==> s[i] < s[j]
  }

  function Insert(s: seq<nat>, o: nat): seq<nat> {
    if s == [] then [o]
    else if o < s[0] then [o] + s
    else if o == s[0] then s
    else [s[0]] + Insert(s[1..], o)
  }

  lemma {:induction false} InsertMembers(s: seq<nat>, o: nat)
    ensures forall x :: x in Insert(s, o) <==> x in s || x == o
  {
    if s != [] && o > s[0] {
      InsertMembers(s[1..], o);
      assert s == [s[0]] + s[1..];
    }
  }

  lemma {:induction false} InsertKeepsOrder(s: seq<nat>, o: nat)
    requires Increasing(s)
    ensures Increasing(Insert(s, o))
  {
    if s != [] && o > s[0] {
      var rest := Insert(s[1..], o);
      InsertKeepsOrder(s[1..], o);
      InsertMembers(s[1..], o);
      forall i | 0 <= i < |rest| ensures s[0] < rest[i] {
        assert rest[i] in rest;
        if rest[i] != o {
          var j :| 0 <= j < |s[1..]| && s[1..][j] == rest[i];
          assert s[j + 1] == rest[i];
        }
      }
    }
  }

  /** One pointer of the first loop. */
  function AddPointer(groups: map<Key, Group>, info: Info, a: Word, available: nat): Result<map<Key, Group>>
    requires info.captureStart <= a
  {
    var o := Offset(a, info.captureStart);
    if info.key in groups then
      var g := groups[info.key];
      Ok(groups[info.key := g.(offsets := Insert(g.offsets, o))])
    else if |groups| < available then Ok(groups[info.key := Group(|groups|, info.captureStart, [o])])
    else Err(PoolExhausted)
  }

  /** The groups after the first n pointers. */
  function Grouped(pointers: seq<Word>, find: Finder, available: nat, n: nat): Result<map<Key, Group>>
    requires n <= |pointers|
    requires forall a: Word :: find(a).Some? ==> find(a).value.captureStart <= a
  {
    if n == 0 then Ok(map[])
    else
      var before, found := Grouped(pointers, find, available, n - 1), find(pointers[n - 1]);
      if before.Err? then before
      else if found.None? then Err(UnknownPointer)
      else AddPointer(before.value, found.value, pointers[n - 1], available)
  }

  method GroupPointers(pointers: seq<Word>, find: Finder, available: nat) returns (r: Result<map<Key, Group>>)
    requires Consistent(find)
    ensures r == Grouped(pointers, find, available, |pointers|)
  {
    var groups: map<Key, Group> := map[];
    for i := 0 to |pointers|
      invariant Grouped(pointers, find, available, i) == Ok(groups)
    {
      var info := find(pointers[i]);
      if info.None? {
        StaysFailed(pointers, find, available, i + 1, |pointers|);
        return Err(UnknownPointer);
      }
      var key, start := info.value.key, info.value.captureStart;
      ghost var was := groups;
      if key !in groups {
        if |groups| >= available {
          StaysFailed(pointers, find, available, i + 1, |pointers|);
          return Err(PoolExhausted);
        }
        groups := groups[key := Group(|groups|, start, [])];
        assert Insert([], Offset(pointers[i], start)) == [Offset(pointers[i], start)];
      }
      var group := groups[key];
      var offset := Offset(pointers[i], start);
      groups := groups[key := group.(offsets := Insert(group.offsets, offset))];
      assert AddPointer(was, info.value, pointers[i], available) == Ok(groups) by {
        if key !in was {
          assert groups == was[key := Group(|was|, start, [offset])];
        }
      }
    }
    return Ok(groups);
  }

  lemma {:induction false} StaysFailed(pointers: seq<Word>, find: Finder, available: nat, n: nat, m: nat)
    requires n <= m <= |pointers| && Consistent(find) && Grouped(pointers, find, available, n).Err?
    ensures Grouped(pointers, find, available, m) == Grouped(pointers, find, available, n)
  {
    if n < m {
      StaysFailed(pointers, find, available, n, m - 1);
    }
  }

  /** The i-th pointer's group holds its offset. */
  ghost predicate Placed(groups: map<Key, Group>, find: Finder, a: Word)
    requires find(a).Some? && find(a).value.captureStart <= a
  {
    var info := find(a).value;
    && info.key in groups && groups[info.key].captureStart == info.captureStart
    && Offset(a, info.captureStart) in groups[info.key].offsets
  }

  ghost predicate AllPlaced(groups: map<Key, Group>, pointers: seq<Word>, find: Finder, n: nat)
    requires n <= |pointers| && Consistent(find)
  {
    forall i :: 0 <= i < n ==> find(pointers[i]).Some? && Placed(groups, find, pointers[i])
  }

  /** o is the offset of one of the first n pointers, which lies in resource `key`. */
  ghost predicate Pointed(key: Key, o: nat, pointers: seq<Word>, find: Finder, n: nat)
    requires n <= |pointers| && Consistent(find)
  {
    exists i :: 0 <= i < n && find(pointers[i]).Some? && find(pointers[i]).value.key == key
                && Offset(pointers[i], find(pointers[i]).value.captureStart) == o
  }

  ghost predicate OnlyPlaced(groups: map<Key, Group>, pointers: seq<Word>, find: Finder, n: nat)
    requires n <= |pointers| && Consistent(find)
  {
    forall key, o :: key in groups && o in groups[key].offsets ==> Pointed(key, o, pointers, find, n)
  }

  ghost predicate OrderedSets(groups: map<Key, Group>) {
    forall key :: key in groups ==> Increasing(groups[key].offsets) && groups[key].offsets != []
  }

  ghost predicate OwnBuffers(groups: map<Key, Group>) {
    && (forall key :: key in groups ==> groups[key].buffer < |groups|)
    && (forall k, l :: k in groups && l in groups && groups[k].buffer == groups[l].buffer ==> k == l)
  }

  ghost predicate GroupsExact(groups: map<Key, Group>, pointers: seq<Word>, find: Finder, n: nat)
    requires n <= |pointers| && Consistent(find)
  {
    AllPlaced(groups, pointers, find, n) && OnlyPlaced(groups, pointers, find, n) && OrderedSets(groups) && OwnBuffers(groups)
  }

  /** Each pointer's offset is in its resource's group, the groups hold nothing else, in order and
      without repetition, and no two resources share a buffer. */
  lemma {:induction false} GroupedExact(pointers: seq<Word>, find: Finder, available: nat, n: nat)
    requires n <= |pointers| && Consistent(find) && Grouped(pointers, find, available, n).Ok?
    ensures GroupsExact(Grouped(pointers, find, available, n).value, pointers, find, n)
    ensures |Grouped(pointers, find, available, n).value| <= available
  {
    if n > 0 {
      GroupedExact(pointers, find, available, n - 1);
      var groups, a := Grouped(pointers, find, available, n - 1).value, pointers[n - 1];
      var info := find(a).value;
      var after := AddPointer(groups, info, a, available).value;
      KnownStart(groups, pointers, find, n - 1, a);
      AddExact(groups, after, pointers, find, n, after[info.key]);
    }
  }

  lemma KnownStart(groups: map<Key, Group>, pointers: seq<Word>, find: Finder, n: nat, a: Word)
    requires n <= |pointers| && Consistent(find) && GroupsExact(groups, pointers, find, n) && find(a).Some?
    ensures var info := find(a).value; info.key in groups ==> groups[info.key].captureStart == info.captureStart
  {
    var info := find(a).value;
    if info.key in groups {
      var o := groups[info.key].offsets[0];
      assert Pointed(info.key, o, pointers, find, n);
      var i :| 0 <= i < n && find(pointers[i]).Some? && find(pointers[i]).value.key == info.key;
      assert Placed(groups, find, pointers[i]);
    }
  }

  lemma AddExact(groups: map<Key, Group>, after: map<Key, Group>, pointers: seq<Word>, find: Finder, n: nat, g: Group)
    requires 0 < n <= |pointers| && Consistent(find) && GroupsExact(groups, pointers, find, n - 1) && find(pointers[n - 1]).Some?
    requires var info, o := find(pointers[n - 1]).value, Offset(pointers[n - 1], find(pointers[n - 1]).value.captureStart);
      && after == groups[info.key := g] && g.captureStart == info.captureStart
      && (if info.key in groups then g.buffer == groups[info.key].buffer && g.offsets == Insert(groups[info.key].offsets, o)
          else g.buffer == |groups| && g.offsets == [o])
    ensures GroupsExact(after, pointers, find, n)
  {
    var a, info := pointers[n - 1], find(pointers[n - 1]).value;
    var o := Offset(a, info.captureStart);
    if info.key in groups {
      InsertMembers(groups[info.key].offsets, o);
      InsertKeepsOrder(groups[info.key].offsets, o);
      assert o in g.offsets;
    }
    hide Offset, Insert, Increasing, Consistent, AllPlaced, OnlyPlaced, OwnBuffers;
    AddPlaces(groups, after, pointers, find, n, g, o);
    AddBuffer(groups, after, info.key, g);
  }

  /** g holds o and, where the resource is known, what its group held, and nothing else. */
  ghost predicate Extends(groups: map<Key, Group>, after: map<Key, Group>, info: Info, g: Group, o: nat) {
    && after == groups[info.key := g] && g.captureStart == info.captureStart
    && forall x :: x in g.offsets <==> x == o || (info.key in groups && x in groups[info.key].offsets)
  }

  lemma AddPlaces(groups: map<Key, Group>, after: map<Key, Group>, pointers: seq<Word>, find: Finder, n: nat, g: Group, o: nat)
    requires 0 < n <= |pointers| && Consistent(find) && find(pointers[n - 1]).Some?
    requires AllPlaced(groups, pointers, find, n - 1) && OnlyPlaced(groups, pointers, find, n - 1)
    requires o == Offset(pointers[n - 1], find(pointers[n - 1]).value.captureStart)
    requires Extends(groups, after, find(pointers[n - 1]).value, g, o)
    ensures AllPlaced(after, pointers, find, n) && OnlyPlaced(after, pointers, find, n)
  {
    hide Offset;
    forall i | 0 <= i < n ensures find(pointers[i]).Some? && Placed(after, find, pointers[i]) {
      assert i < n - 1 ==> Placed(groups, find, pointers[i]);
    }
    forall key, x | key in after && x in after[key].offsets ensures Pointed(key, x, pointers, find, n) {
      if key in groups && x in groups[key].offsets {
        assert Pointed(key, x, pointers, find, n - 1);
      }
    }
  }

  lemma AddBuffer(groups: map<Key, Group>, after: map<Key, Group>, key: Key, g: Group)
    requires OwnBuffers(groups) && after == groups[key := g]
    requires g.buffer == if key in groups then groups[key].buffer else |groups|
    ensures OwnBuffers(after)
  {
  }

  function Keys(pointers: seq<Word>, find: Finder, n: nat): set<Key>
    requires n <= |pointers|
  {
    set i | 0 <= i < n && find(pointers[i]).Some? :: find(pointers[i]).value.key
  }

  lemma KeysNext(pointers: seq<Word>, find: Finder, n: nat)
    requires 0 < n <= |pointers|
    ensures Keys(pointers, find, n - 1) <= Keys(pointers, find, n)
    ensures var found := find(pointers[n - 1]);
      Keys(pointers, find, n) == Keys(pointers, find, n - 1) + if found.Some? then {found.value.key} else {}
  {
  }

  lemma {:induction false} GroupedKeys(pointers: seq<Word>, find: Finder, available: nat, n: nat)
    requires n <= |pointers| && Consistent(find) && Grouped(pointers, find, available, n).Ok?
    ensures Grouped(pointers, find, available, n).value.Keys == Keys(pointers, find, n)
  {
    if n > 0 {
      GroupedKeys(pointers, find, available, n - 1);
      KeysNext(pointers, find, n);
    }
  }

  lemma Cardinality(groups: map<Key, Group>)
    ensures |groups| == |groups.Keys|
  {
  }

  lemma LargerSet(a: set<Key>, b: set<Key>)
    requires a <= b
    ensures |a| <= |b|
  {
    assert b == a + (b - a);
  }

  /** Every pointer is known and there is a buffer for every resource. */
  ghost predicate Groupable(pointers: seq<Word>, find: Finder, available: nat, n: nat)
    requires n <= |pointers|
  {
    (forall i :: 0 <= i < n ==> find(pointers[i]).Some?) && |Keys(pointers, find, n)| <= available
  }

  lemma GroupableNext(pointers: seq<Word>, find: Finder, available: nat, n: nat)
    requires 0 < n <= |pointers|
    ensures var found, before := find(pointers[n - 1]), Keys(pointers, find, n - 1);
      Groupable(pointers, find, available, n) <==>
        && Groupable(pointers, find, available, n - 1)
        && found.Some? && (found.value.key in before || |before| < available)
  {
    KeysNext(pointers, find, n);
    LargerSet(Keys(pointers, find, n - 1), Keys(pointers, find, n));
    hide Keys;
  }

  /** The failure is that of the first pointer that cannot be placed. */
  lemma {:induction false} GroupingFailsAtFirst(pointers: seq<Word>, find: Finder, available: nat, n: nat) returns (m: nat)
    requires n <= |pointers| && Consistent(find) && Grouped(pointers, find, available, n).Err?
    ensures m < n && Groupable(pointers, find, available, m) && !Groupable(pointers, find, available, m + 1)
    ensures Grouped(pointers, find, available, n) == Err(if find(pointers[m]).None? then UnknownPointer else PoolExhausted)
  {
    hide Groupable;
    if Grouped(pointers, find, available, n - 1).Err? {
      m := GroupingFailsAtFirst(pointers, find, available, n - 1);
    } else {
      m := n - 1;
      GroupingSucceeds(pointers, find, available, n - 1);
      GroupingSucceeds(pointers, find, available, n);
    }
  }

  lemma {:induction false} GroupingSucceeds(pointers: seq<Word>, find: Finder, available: nat, n: nat)
    requires n <= |pointers| && Consistent(find)
    ensures Grouped(pointers, find, available, n).Ok? <==> Groupable(pointers, find, available, n)
  {
    if n > 0 {
      GroupingSucceeds(pointers, find, available, n - 1);
      GroupableNext(pointers, find, available, n);
      hide Groupable, Keys, Offset, Insert;
      var before := Grouped(pointers, find, available, n - 1);
      if before.Ok? {
        GroupedKeys(pointers, find, available, n - 1);
        Cardinality(before.value);
      }
    } else {
      assert Keys(pointers, find, 0) == {};
    }
  }
}
