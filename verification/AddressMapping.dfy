/** Address translation by interval mappings, as every patching kernel does it: 64-bit unsigned
    arithmetic, and a binary search over a table the CPU has sorted by capture start. */
module AddressMapping {
  import opened Arithmetic
  import opened Wrappers

  type Word = x: int | 0 <= x < TWO_TO_THE_64

  datatype Mapping = Mapping(captureStart: Word, playerStart: Word, size: Word)
  {
    /** The kernel's test; the sum wraps like the shader's. */
    predicate Contains(a: Word) {
      captureStart <= a < Add64(captureStart, size)
    }

    function Translate(a: Word): Word
      requires Contains(a)
    {
      Add64(playerStart, a - captureStart)
    }

    predicate Fits() {
      captureStart + size < TWO_TO_THE_64
    }
  }

  /** Unsigned addition, wrapping at 2^64. */
  function Add64(a: Word, b: Word): Word {
    if a + b < TWO_TO_THE_64 then a + b else a + b - TWO_TO_THE_64
  }

  /** Sorted, disjoint, and inside the address space. */
  ghost predicate Ordered(ms: seq<Mapping>) {
    && (forall i :: 0 <= i < |ms| ==> ms[i].Fits())
    && (forall i, j :: 0 <= i < j < |ms| ==> ms[i].captureStart + ms[i].size <= ms[j].captureStart)
  }

  /** Starts and ends both in order; intervals may still overlap. */
  ghost predicate Monotone(ms: seq<Mapping>) {
    && (forall i :: 0 <= i < |ms| ==> ms[i].Fits())
    && (forall i, j :: 0 <= i < j < |ms| ==>
          ms[i].captureStart <= ms[j].captureStart && ms[i].captureStart + ms[i].size <= ms[j].captureStart + ms[j].size)
  }

  /** The loop of the kernels: indices are signed, the midpoint is rounded down. */
  function Probe(ms: seq<Mapping>, a: Word, first: int, last: int): Option<Word>
    requires 0 <= first <= last + 1 <= |ms|
    decreases last - first + 1
  {
    if first > last then None
    else
      var mid := first + (last - first) / 2;
      if ms[mid].Contains(a) then Some(ms[mid].Translate(a))
      else if a >= Add64(ms[mid].captureStart, ms[mid].size) then Probe(ms, a, mid + 1, last)
      else Probe(ms, a, first, mid - 1)
  }

  method Search(ms: seq<Mapping>, a: Word) returns (r: Option<Word>)
    ensures r == Probe(ms, a, 0, |ms| - 1)
  {
    var first, last := 0, |ms| - 1;
    while first <= last
      invariant 0 <= first <= last + 1 <= |ms|
      invariant Probe(ms, a, 0, |ms| - 1) == Probe(ms, a, first, last)
      decreases last - first + 1
    {
      var mid := first + (last - first) / 2;
      var mapping := ms[mid];
      if a >= mapping.captureStart && a < Add64(mapping.captureStart, mapping.size) {
        var offset := a - mapping.captureStart;
        return Some(Add64(mapping.playerStart, offset));
      } else if a >= Add64(mapping.captureStart, mapping.size) {
        first := mid + 1;
      } else {
        last := mid - 1;
      }
    }
    return None;
  }

  /** Linear search, the reference: the first interval that contains the address decides. */
  function Linear(ms: seq<Mapping>, a: Word): Option<Word> {
    if ms == [] then None
    else if ms[0].Contains(a) then Some(ms[0].Translate(a))
    else Linear(ms[1..], a)
  }

  lemma {:induction false} LinearFinds(ms: seq<Mapping>, a: Word)
    ensures Linear(ms, a).None? <==> forall i :: 0 <= i < |ms| ==> !ms[i].Contains(a)
    ensures Linear(ms, a).Some? ==> exists i :: 0 <= i < |ms| && ms[i].Contains(a) && Linear(ms, a).value == ms[i].Translate(a)
  {
    if ms != [] {
      LinearFinds(ms[1..], a);
      if !ms[0].Contains(a) && Linear(ms, a).Some? {
        var i :| 0 <= i < |ms| - 1 && ms[1..][i].Contains(a) && Linear(ms, a).value == ms[1..][i].Translate(a);
        assert ms[i + 1] == ms[1..][i];
      }
    }
  }

  lemma NoneBefore(ms: seq<Mapping>, a: Word, mid: nat)
    requires Monotone(ms) && mid < |ms| && a >= Add64(ms[mid].captureStart, ms[mid].size)
    ensures forall i :: 0 <= i <= mid ==> !ms[i].Contains(a)
  {
  }

  lemma NoneAfter(ms: seq<Mapping>, a: Word, mid: nat)
    requires Monotone(ms) && mid < |ms| && a < Add64(ms[mid].captureStart, ms[mid].size) && !ms[mid].Contains(a)
    ensures forall i :: mid <= i < |ms| ==> !ms[i].Contains(a)
  {
  }

  /** On monotone tables the search finds some containing interval exactly when there is one. */
  lemma {:induction false} ProbeFinds(ms: seq<Mapping>, a: Word, first: int, last: int)
    requires Monotone(ms) && 0 <= first <= last + 1 <= |ms|
    requires forall i :: 0 <= i < first || last < i < |ms| ==> !ms[i].Contains(a)
    ensures Probe(ms, a, first, last).None? <==> forall i :: 0 <= i < |ms| ==> !ms[i].Contains(a)
    ensures Probe(ms, a, first, last).Some? ==>
              exists i :: 0 <= i < |ms| && ms[i].Contains(a) && Probe(ms, a, first, last).value == ms[i].Translate(a)
    decreases last - first + 1
  {
    hide Monotone;
    if first <= last {
      var mid := first + (last - first) / 2;
      if !ms[mid].Contains(a) {
        if a >= Add64(ms[mid].captureStart, ms[mid].size) {
          NoneBefore(ms, a, mid);
          ProbeFinds(ms, a, mid + 1, last);
        } else {
          NoneAfter(ms, a, mid);
          ProbeFinds(ms, a, first, mid - 1);
        }
      }
    }
  }

  /** On sorted disjoint tables binary search and linear search agree for every address. */
  lemma ProbeIsLinear(ms: seq<Mapping>, a: Word)
    requires Ordered(ms)
    ensures Probe(ms, a, 0, |ms| - 1) == Linear(ms, a)
  {
    ProbeFinds(ms, a, 0, |ms| - 1);
    LinearFinds(ms, a);
  }

  /** The answer inside interval i, whichever i that is, and the address itself where there is none. */
  lemma LinearAt(ms: seq<Mapping>, a: Word, i: nat)
    requires Ordered(ms) && i < |ms| && ms[i].captureStart <= a < ms[i].captureStart + ms[i].size
    ensures Linear(ms, a) == Some(Add64(ms[i].playerStart, a - ms[i].captureStart))
  {
    LinearFinds(ms, a);
    assert ms[i].Contains(a);
  }

  /** Interval i of the table holds the address. */
  predicate Holds(ms: seq<Mapping>, i: nat, a: Word) {
    i < |ms| && ms[i].captureStart <= a < ms[i].captureStart + ms[i].size
  }

  ghost predicate HeldBySome(ms: seq<Mapping>, a: Word) {
    exists i: nat :: Holds(ms, i, a)
  }

  /** r is where interval i takes the address, whichever interval that is. */
  ghost predicate TakenTo(ms: seq<Mapping>, a: Word, r: Word) {
    forall i: nat :: Holds(ms, i, a) ==> r == Add64(ms[i].playerStart, a - ms[i].captureStart)
  }

  /** Linear lookup stated on the intervals alone. */
  lemma LinearDecides(ms: seq<Mapping>, a: Word)
    requires Ordered(ms)
    ensures Linear(ms, a).Some? <==> HeldBySome(ms, a)
    ensures Linear(ms, a).Some? ==> TakenTo(ms, a, Linear(ms, a).value)
  {
    LinearFinds(ms, a);
    forall i: nat | Holds(ms, i, a) ensures Linear(ms, a) == Some(Add64(ms[i].playerStart, a - ms[i].captureStart)) {
      LinearAt(ms, a, i);
    }
    if Linear(ms, a).Some? {
      var i :| 0 <= i < |ms| && ms[i].Contains(a);
      assert Holds(ms, i, a);
    }
  }

  // ---------------------------------------------------------------------------------------------
  // Shader identifiers: four words, compared lexicographically

  datatype Identifier = Identifier(x: Word, y: Word, z: Word, w: Word)
  {
    /** greaterThan_uint64_t4 in the kernel. */
    predicate Greater(b: Identifier) {
      if x != b.x then x > b.x
      else if y != b.y then y > b.y
      else if z != b.z then z > b.z
      else w > b.w
    }

    function Words(): seq<Word> {
      [x, y, z, w]
    }
  }

  datatype IdentifierMapping = IdentifierMapping(capture: Identifier, player: Identifier)

  /** The order std::array's operator< gives the CPU's sort. */
  predicate Less(a: seq<Word>, b: seq<Word>)
    requires |a| == |b|
  {
    a != [] && (a[0] < b[0] || (a[0] == b[0] && Less(a[1..], b[1..])))
  }

  ghost predicate OrderedIdentifiers(ms: seq<IdentifierMapping>) {
    forall i, j :: 0 <= i < j < |ms| ==> Less(ms[i].capture.Words(), ms[j].capture.Words())
  }

  /** The CPU sorts and the kernel searches by the same order. */
  lemma GreaterIsLess(a: Identifier, b: Identifier)
    ensures a.Greater(b) <==> Less(b.Words(), a.Words())
  {
    var u, v := b.Words(), a.Words();
    assert u[1..] == [b.y, b.z, b.w] && v[1..] == [a.y, a.z, a.w];
    var u2, v2 := [b.y, b.z, b.w], [a.y, a.z, a.w];
    assert u2[1..] == [b.z, b.w] && v2[1..] == [a.z, a.w];
    var u3, v3 := [b.z, b.w], [a.z, a.w];
    assert u3[1..] == [b.w] && v3[1..] == [a.w];
    var u4, v4 := [b.w], [a.w];
    assert u4[1..] == [] && v4[1..] == [];
    assert Less(u4, v4) <==> b.w < a.w;
    assert Less(u3, v3) <==> b.z < a.z || (b.z == a.z && Less(u4, v4));
    assert Less(u2, v2) <==> b.y < a.y || (b.y == a.y && Less(u3, v3));
    assert Less(u, v) <==> b.x < a.x || (b.x == a.x && Less(u2, v2));
  }

  function ProbeIdentifier(ms: seq<IdentifierMapping>, id: Identifier, first: int, last: int): Option<Identifier>
    requires 0 <= first <= last + 1 <= |ms|
    decreases last - first + 1
  {
    if first > last then None
    else
      var mid := first + (last - first) / 2;
      if id == ms[mid].capture then Some(ms[mid].player)
      else if id.Greater(ms[mid].capture) then ProbeIdentifier(ms, id, mid + 1, last)
      else ProbeIdentifier(ms, id, first, mid - 1)
  }

  method SearchIdentifier(ms: seq<IdentifierMapping>, id: Identifier) returns (r: Option<Identifier>)
    ensures r == ProbeIdentifier(ms, id, 0, |ms| - 1)
  {
    var first, last := 0, |ms| - 1;
    while first <= last
      invariant 0 <= first <= last + 1 <= |ms|
      invariant ProbeIdentifier(ms, id, 0, |ms| - 1) == ProbeIdentifier(ms, id, first, last)
      decreases last - first + 1
    {
      var mid := first + (last - first) / 2;
      var mapping := ms[mid];
      if id == mapping.capture {
        return Some(mapping.player);
      } else if id.Greater(mapping.capture) {
        first := mid + 1;
      } else {
        last := mid - 1;
      }
    }
    return None;
  }

  function LinearIdentifier(ms: seq<IdentifierMapping>, id: Identifier): Option<Identifier> {
    if ms == [] then None
    else if ms[0].capture == id then Some(ms[0].player)
    else LinearIdentifier(ms[1..], id)
  }

  lemma {:induction false} LinearIdentifierFinds(ms: seq<IdentifierMapping>, id: Identifier)
    ensures LinearIdentifier(ms, id).None? <==> forall i :: 0 <= i < |ms| ==> ms[i].capture != id
    ensures LinearIdentifier(ms, id).Some? ==>
              exists i :: 0 <= i < |ms| && ms[i].capture == id && LinearIdentifier(ms, id).value == ms[i].player
  {
    if ms != [] {
      LinearIdentifierFinds(ms[1..], id);
      if ms[0].capture != id && LinearIdentifier(ms, id).Some? {
        var i :| 0 <= i < |ms| - 1 && ms[1..][i].capture == id && LinearIdentifier(ms, id).value == ms[1..][i].player;
        assert ms[i + 1] == ms[1..][i];
      }
    }
  }

  ghost predicate Below(ms: seq<IdentifierMapping>) {
    forall i, j :: 0 <= i < j < |ms| ==> ms[j].capture.Greater(ms[i].capture)
  }

  lemma {:induction false} ProbeIdentifierFinds(ms: seq<IdentifierMapping>, id: Identifier, first: int, last: int)
    requires Below(ms) && 0 <= first <= last + 1 <= |ms|
    requires forall i :: 0 <= i < first || last < i < |ms| ==> ms[i].capture != id
    ensures ProbeIdentifier(ms, id, first, last).None? <==> forall i :: 0 <= i < |ms| ==> ms[i].capture != id
    ensures ProbeIdentifier(ms, id, first, last).Some? ==>
              exists i :: 0 <= i < |ms| && ms[i].capture == id && ProbeIdentifier(ms, id, first, last).value == ms[i].player
    decreases last - first + 1
  {
    if first <= last {
      var mid := first + (last - first) / 2;
      if ms[mid].capture != id {
        if id.Greater(ms[mid].capture) {
          ProbeIdentifierFinds(ms, id, mid + 1, last);
        } else {
          ProbeIdentifierFinds(ms, id, first, mid - 1);
        }
      }
    }
  }

  /** On a table sorted by the CPU's order the kernel finds an identifier exactly when it is there. */
  lemma ProbeIdentifierIsLinear(ms: seq<IdentifierMapping>, id: Identifier)
    requires OrderedIdentifiers(ms)
    ensures ProbeIdentifier(ms, id, 0, |ms| - 1) == LinearIdentifier(ms, id)
  {
    forall i, j | 0 <= i < j < |ms| ensures ms[j].capture.Greater(ms[i].capture) {
      GreaterIsLess(ms[j].capture, ms[i].capture);
    }
    ProbeIdentifierFinds(ms, id, 0, |ms| - 1);
    LinearIdentifierFinds(ms, id);
  }
}
