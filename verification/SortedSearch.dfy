/** The kernels' binary search over a table that is only sorted by capture start, as the address service
    leaves it: exactly which tables it searches correctly. */
module SortedSearch {
  import opened AddressMapping
  import opened Arithmetic
  import opened Wrappers

  /** What sorting by capture start leaves; intervals may overlap in any way. */
  ghost predicate Sorted(ms: seq<Mapping>) {
    && (forall i :: 0 <= i < |ms| ==> ms[i].Fits())
    && (forall i, j :: 0 <= i < j < |ms| ==> ms[i].captureStart <= ms[j].captureStart)
  }

  /** Intervals that share an address translate it differently. */
  ghost predicate Unaliased(ms: seq<Mapping>) {
    forall i, j, a: Word :: 0 <= i < j < |ms| && ms[i].Contains(a) && ms[j].Contains(a) ==>
      ms[i].Translate(a) != ms[j].Translate(a)
  }

  /** No interval of first..mid-1 reaches an address a with from <= a < hi. */
  predicate EndBefore(ms: seq<Mapping>, first: int, mid: int, from: int, hi: int)
    requires 0 <= first && mid <= |ms|
  {
    from < hi ==> forall i :: first <= i < mid ==> ms[i].captureStart + ms[i].size <= from
  }

  /** The search of first..last by the addresses lo <= a < hi that get there: at each midpoint, those
      that do not turn left lie in no earlier interval of the range. */
  predicate Clear(ms: seq<Mapping>, first: int, last: int, lo: int, hi: int)
    requires 0 <= first <= last + 1 <= |ms|
    decreases last - first + 1
  {
    first <= last ==>
      var mid := first + (last - first) / 2;
      var start, end := ms[mid].captureStart, ms[mid].captureStart + ms[mid].size;
      && EndBefore(ms, first, mid, Max(lo, start), hi)
      && Clear(ms, first, mid - 1, lo, Min(hi, start))
      && Clear(ms, mid + 1, last, Max(lo, end), hi)
  }

  ghost predicate AgreeBetween(ms: seq<Mapping>, first: int, last: int, lo: int, hi: int)
    requires 0 <= first <= last + 1 <= |ms|
  {
    forall a: Word :: lo <= a < hi ==> Probe(ms, a, first, last) == Linear(ms, a)
  }

  /** Addresses lo <= a < hi lie in no interval outside first..last. */
  ghost predicate OnlyWithin(ms: seq<Mapping>, first: int, last: int, lo: int, hi: int) {
    forall a: Word, i :: 0 <= i < |ms| && lo <= a < hi && (i < first || last < i) ==> !ms[i].Contains(a)
  }

  /** The first interval that contains an address decides. */
  lemma {:induction false} LinearFirst(ms: seq<Mapping>, a: Word, k: nat)
    requires k < |ms| && ms[k].Contains(a) && forall j :: 0 <= j < k ==> !ms[j].Contains(a)
    ensures Linear(ms, a) == Some(ms[k].Translate(a))
  {
    if k > 0 {
      assert !ms[0].Contains(a);
      LinearFirst(ms[1..], a, k - 1);
    }
  }

  lemma {:induction false} FirstContaining(ms: seq<Mapping>, a: Word, i: nat) returns (k: nat)
    requires i < |ms| && ms[i].Contains(a)
    ensures k <= i && ms[k].Contains(a) && forall j :: 0 <= j < k ==> !ms[j].Contains(a)
  {
    if j :| 0 <= j < i && ms[j].Contains(a) {
      k := FirstContaining(ms, a, j);
    } else {
      k := i;
    }
  }

  /** The search answers from its range only. */
  lemma {:induction false} ProbeWithin(ms: seq<Mapping>, a: Word, first: int, last: int)
    requires 0 <= first <= last + 1 <= |ms|
    ensures Probe(ms, a, first, last).Some? ==>
              exists j :: first <= j <= last && ms[j].Contains(a) && Probe(ms, a, first, last).value == ms[j].Translate(a)
    decreases last - first + 1
  {
    if first <= last {
      var mid := first + (last - first) / 2;
      if !ms[mid].Contains(a) {
        if a >= Add64(ms[mid].captureStart, ms[mid].size) {
          ProbeWithin(ms, a, mid + 1, last);
        } else {
          ProbeWithin(ms, a, first, mid - 1);
        }
      }
    }
  }

  /** An address in interval i that does not turn left at mid > i gets another answer than i's. */
  lemma WrongAnswer(ms: seq<Mapping>, first: int, last: int, a: Word, i: int)
    requires Sorted(ms) && Unaliased(ms) && 0 <= first <= last < |ms|
    requires var mid := first + (last - first) / 2; first <= i < mid && a >= ms[mid].captureStart
    requires ms[i].Contains(a)
    ensures Probe(ms, a, first, last) != Linear(ms, a)
  {
    var mid := first + (last - first) / 2;
    var k := FirstContaining(ms, a, i);
    LinearFirst(ms, a, k);
    if !ms[mid].Contains(a) {
      ProbeWithin(ms, a, mid + 1, last);
    }
  }

  /** Left of the midpoint's start nothing from the midpoint on contains the address. */
  lemma LeftOnly(ms: seq<Mapping>, first: int, last: int, lo: int, hi: int, mid: int)
    requires Sorted(ms) && OnlyWithin(ms, first, last, lo, hi) && 0 <= first <= mid <= last < |ms|
    ensures OnlyWithin(ms, first, mid - 1, lo, Min(hi, ms[mid].captureStart))
  {
  }

  lemma RightOnly(ms: seq<Mapping>, first: int, last: int, lo: int, hi: int, mid: int)
    requires Sorted(ms) && OnlyWithin(ms, first, last, lo, hi) && 0 <= first <= mid <= last < |ms|
    requires EndBefore(ms, first, mid, Max(lo, ms[mid].captureStart), hi)
    ensures OnlyWithin(ms, mid + 1, last, Max(lo, ms[mid].captureStart + ms[mid].size), hi)
  {
  }

  /** What the first midpoint does with an address. */
  lemma OneTurn(ms: seq<Mapping>, first: int, last: int, lo: int, hi: int, mid: int, a: Word)
    requires Sorted(ms) && OnlyWithin(ms, first, last, lo, hi) && 0 <= first <= last < |ms| && lo <= a < hi
    requires mid == first + (last - first) / 2 && EndBefore(ms, first, mid, Max(lo, ms[mid].captureStart), hi)
    ensures var start, end := ms[mid].captureStart, ms[mid].captureStart + ms[mid].size;
      if a < start then Probe(ms, a, first, last) == Probe(ms, a, first, mid - 1)
      else if a < end then Probe(ms, a, first, last) == Linear(ms, a)
      else Probe(ms, a, first, last) == Probe(ms, a, mid + 1, last)
  {
    hide Linear;
    if ms[mid].Contains(a) {
      LinearFirst(ms, a, mid);
    }
  }

  /** With the earlier intervals out of the way the range agrees if both of its halves do. */
  lemma HalvesAgree(ms: seq<Mapping>, first: int, last: int, lo: int, hi: int, mid: int)
    requires Sorted(ms) && OnlyWithin(ms, first, last, lo, hi) && 0 <= first <= last < |ms|
    requires mid == first + (last - first) / 2 && EndBefore(ms, first, mid, Max(lo, ms[mid].captureStart), hi)
    ensures AgreeBetween(ms, first, last, lo, hi)
            <==> && AgreeBetween(ms, first, mid - 1, lo, Min(hi, ms[mid].captureStart))
                 && AgreeBetween(ms, mid + 1, last, Max(lo, ms[mid].captureStart + ms[mid].size), hi)
  {
    hide Linear, Probe, OnlyWithin, EndBefore;
    var start, end := ms[mid].captureStart, ms[mid].captureStart + ms[mid].size;
    forall a: Word | lo <= a < hi
      ensures if a < start then Probe(ms, a, first, last) == Probe(ms, a, first, mid - 1)
              else if a < end then Probe(ms, a, first, last) == Linear(ms, a)
              else Probe(ms, a, first, last) == Probe(ms, a, mid + 1, last)
    {
      OneTurn(ms, first, last, lo, hi, mid, a);
    }
  }

  lemma EmptyRangeAgrees(ms: seq<Mapping>, first: int, last: int, lo: int, hi: int)
    requires OnlyWithin(ms, first, last, lo, hi) && first == last + 1 && 0 <= first <= |ms|
    ensures AgreeBetween(ms, first, last, lo, hi)
  {
    forall a: Word | lo <= a < hi ensures Linear(ms, a) == None {
      LinearFinds(ms, a);
    }
  }

  lemma ReachedDisagrees(ms: seq<Mapping>, first: int, last: int, lo: int, hi: int)
    requires Sorted(ms) && Unaliased(ms) && 0 <= first <= last < |ms| && 0 <= lo && hi <= TWO_TO_THE_64
    requires var mid := first + (last - first) / 2; !EndBefore(ms, first, mid, Max(lo, ms[mid].captureStart), hi)
    ensures !AgreeBetween(ms, first, last, lo, hi)
  {
    var mid := first + (last - first) / 2;
    var from: Word := Max(lo, ms[mid].captureStart);
    var i :| first <= i < mid && ms[i].captureStart + ms[i].size > from;
    assert ms[i].Contains(from);
    WrongAnswer(ms, first, last, from, i);
  }

  lemma {:induction false} ClearDecides(ms: seq<Mapping>, first: int, last: int, lo: int, hi: int)
    requires Sorted(ms) && OnlyWithin(ms, first, last, lo, hi)
    requires 0 <= first <= last + 1 <= |ms| && 0 <= lo && hi <= TWO_TO_THE_64
    ensures Clear(ms, first, last, lo, hi) ==> AgreeBetween(ms, first, last, lo, hi)
    ensures Unaliased(ms) && AgreeBetween(ms, first, last, lo, hi) ==> Clear(ms, first, last, lo, hi)
    decreases last - first + 1
  {
    hide Sorted, Unaliased, OnlyWithin, AgreeBetween, EndBefore;
    if first > last {
      EmptyRangeAgrees(ms, first, last, lo, hi);
    } else {
      var mid := first + (last - first) / 2;
      var start, end := ms[mid].captureStart, ms[mid].captureStart + ms[mid].size;
      if EndBefore(ms, first, mid, Max(lo, start), hi) {
        LeftOnly(ms, first, last, lo, hi, mid);
        RightOnly(ms, first, last, lo, hi, mid);
        HalvesAgree(ms, first, last, lo, hi, mid);
        ClearDecides(ms, first, mid - 1, lo, Min(hi, start));
        ClearDecides(ms, mid + 1, last, Max(lo, end), hi);
      } else if Unaliased(ms) {
        ReachedDisagrees(ms, first, last, lo, hi);
      }
    }
  }

  /** The kernels' search and linear search agree for every address. */
  ghost predicate Agree(ms: seq<Mapping>) {
    forall a: Word :: Probe(ms, a, 0, |ms| - 1) == Linear(ms, a)
  }

  /** Sorted by start alone: the search agrees with linear search for every address if the table is
      clear, and only then where overlapping intervals lead to different places. */
  lemma SearchedExactly(ms: seq<Mapping>)
    requires Sorted(ms)
    ensures Clear(ms, 0, |ms| - 1, 0, TWO_TO_THE_64) ==> Agree(ms)
    ensures Unaliased(ms) ==> (Agree(ms) <==> Clear(ms, 0, |ms| - 1, 0, TWO_TO_THE_64))
  {
    ClearDecides(ms, 0, |ms| - 1, 0, TWO_TO_THE_64);
    hide Sorted, Unaliased, Clear;
    if Agree(ms) {
      forall a: Word | 0 <= a < TWO_TO_THE_64 ensures Probe(ms, a, 0, |ms| - 1) == Linear(ms, a) {
      }
      assert AgreeBetween(ms, 0, |ms| - 1, 0, TWO_TO_THE_64);
    }
  }

  // ---------------------------------------------------------------------------------------------
  // Tables the address service can come to

  /** AddGpuCaptureAddress for a resource outside every heap: kept by its capture address. */
  function Registered(resources: map<Word, Mapping>, m: Mapping): map<Word, Mapping> {
    if m.captureStart == 0 then resources else resources[m.captureStart := m]
  }

  /** GetMappings without heaps: all resources, sorted by start. */
  ghost predicate Listed(resources: map<Word, Mapping>, ms: seq<Mapping>) {
    && Sorted(ms) && |ms| == |resources|
    && (forall i :: 0 <= i < |ms| ==> ms[i].captureStart in resources && resources[ms[i].captureStart] == ms[i])
    && (forall i, j :: 0 <= i < j < |ms| ==> ms[i] != ms[j])
  }

  /** Sorting is not enough: of resources inside another one the search can miss the outer one. */
  lemma NestedIntervalsMissed()
    ensures var a, b, c := Mapping(100, 1000, 100), Mapping(110, 2000, 5), Mapping(120, 3000, 5);
      && Listed(Registered(Registered(Registered(map[], a), b), c), [a, b, c])
      && Linear([a, b, c], 150) == Some(1050) && Probe([a, b, c], 150, 0, 2) == None
  {
    var ms := [Mapping(100, 1000, 100), Mapping(110, 2000, 5), Mapping(120, 3000, 5)];
    assert Probe(ms, 150, 0, 2) == Probe(ms, 150, 2, 2) == Probe(ms, 150, 3, 2);
  }
}
