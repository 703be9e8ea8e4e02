/** What an array of instance pointers leads to after patching: a copy of each descriptor with only
    its structure address translated, exactly when the descriptors of a resource are congruent. */
module InstanceTheorems {
  import opened AddressMapping
  import opened Arithmetic
  import opened InstanceKernel
  import opened InstancePointers
  import opened Interleaving
  import opened Wrappers

  // ---------------------------------------------------------------------------------------------
  // The rewritten pointers

  /** Offsets of the first descriptor of the group are taken off in 64 bits, then kept in 32. */
  function Relocated(g: Group, buffer: Word, a: Word): Word
    requires g.captureStart <= a && g.offsets != [] && g.offsets[0] <= a - g.captureStart
  {
    Add64(buffer, (a - g.captureStart - g.offsets[0]) % TWO_TO_THE_32)
  }

  ghost predicate Relocatable(groups: map<Key, Group>, find: Finder, a: Word) {
    && find(a).Some? && find(a).value.captureStart <= a && Placed(groups, find, a)
    && OrderedSets(groups)
  }

  lemma OffsetInGroup(groups: map<Key, Group>, find: Finder, a: Word)
    requires Relocatable(groups, find, a)
    ensures var g, o := groups[find(a).value.key], Offset(a, find(a).value.captureStart);
      && g.offsets != [] && g.captureStart <= a && g.offsets[0] <= o <= a - g.captureStart
      && (a - g.captureStart - g.offsets[0]) % TWO_TO_THE_32 == o - g.offsets[0]
  {
    var g, o := groups[find(a).value.key], Offset(a, find(a).value.captureStart);
    var j :| 0 <= j < |g.offsets| && g.offsets[j] == o;
    assert g.offsets[0] <= o;
    var d := a - g.captureStart;
    assert (d - g.offsets[0]) % TWO_TO_THE_32 == o - g.offsets[0] by {
      var q := d / TWO_TO_THE_32;
      assert d == q * TWO_TO_THE_32 + o;
    }
  }

  /** p leads as far into the group's buffer as a leads past the group's first descriptor. */
  ghost predicate LeadsTo(groups: map<Key, Group>, find: Finder, buffers: nat -> Word, a: Word, p: Word) {
    && Relocatable(groups, find, a)
    && var g, o := groups[find(a).value.key], Offset(a, find(a).value.captureStart);
    && g.offsets != [] && g.offsets[0] <= o && o in g.offsets
    && p == Add64(buffers(g.buffer), o - g.offsets[0])
  }

  method RelocatePointers(pointers: seq<Word>, find: Finder, groups: map<Key, Group>, buffers: nat -> Word)
    returns (patched: seq<Word>)
    requires forall i :: 0 <= i < |pointers| ==> Relocatable(groups, find, pointers[i])
    ensures |patched| == |pointers|
    ensures forall i :: 0 <= i < |pointers| ==> LeadsTo(groups, find, buffers, pointers[i], patched[i])
  {
    hide LeadsTo, Offset;
    patched := [];
    for i := 0 to |pointers|
      invariant |patched| == i
      invariant forall j :: 0 <= j < i ==> LeadsTo(groups, find, buffers, pointers[j], patched[j])
    {
      OffsetInGroup(groups, find, pointers[i]);
      var g := groups[find(pointers[i]).value.key];
      RelocatedLeads(groups, find, buffers, pointers[i]);
      patched := patched + [Relocated(g, buffers(g.buffer), pointers[i])];
    }
  }

  lemma RelocatedLeads(groups: map<Key, Group>, find: Finder, buffers: nat -> Word, a: Word)
    requires Relocatable(groups, find, a)
    ensures var g := groups[find(a).value.key];
      && g.offsets != [] && g.captureStart <= a && g.offsets[0] <= a - g.captureStart
      && LeadsTo(groups, find, buffers, a, Relocated(g, buffers(g.buffer), a))
  {
    OffsetInGroup(groups, find, a);
  }

  // ---------------------------------------------------------------------------------------------
  // One group: the span copied and the descriptors the kernel is told about

  datatype Layout = Layout(start: nat, size: nat, indices: seq<nat>)

  function Last(s: seq<nat>): nat
    requires s != []
  {
    s[|s| - 1]
  }

  function Indices(offsets: seq<nat>): seq<nat>
    requires forall i :: 0 <= i < |offsets| ==> offsets[0] <= offsets[i]
  {
    seq(|offsets|, i requires 0 <= i < |offsets| => (offsets[i] - offsets[0]) / DESCRIPTOR)
  }

  lemma FirstIsLeast(offsets: seq<nat>)
    requires Increasing(offsets)
    ensures forall i :: 0 <= i < |offsets| ==> offsets[0] <= offsets[i] <= Last(offsets)
  {
  }

  predicate SpanFits(offsets: seq<nat>)
    requires offsets != []
  {
    Last(offsets) + DESCRIPTOR - offsets[0] <= PATCH_BUFFER_SIZE
  }

  predicate CountFits(offsets: seq<nat>) {
    4 * |offsets| <= OFFSETS_BUFFER_SIZE
  }

  ghost predicate LaidOut(offsets: seq<nat>, layout: Layout) {
    && Increasing(offsets) && offsets != [] && SpanFits(offsets) && CountFits(offsets)
    && (forall i :: 0 <= i < |offsets| ==> offsets[0] <= offsets[i])
    && layout == Layout(offsets[0], Last(offsets) + DESCRIPTOR - offsets[0], Indices(offsets))
  }

  /** One group: its layout, or the limit it exceeds. */
  method LayOut(offsets: seq<nat>) returns (r: Result<Layout>)
    requires Increasing(offsets) && offsets != [] && Last(offsets) + DESCRIPTOR < TWO_TO_THE_32
    ensures if !SpanFits(offsets) then r == Err(PatchBufferTooSmall)
            else if !CountFits(offsets) then r == Err(TooManyOffsets)
            else r.Ok? && LaidOut(offsets, r.value)
  {
    FirstIsLeast(offsets);
    var size := (offsets[|offsets| - 1] + DESCRIPTOR - offsets[0]) % TWO_TO_THE_32;
    if size > PATCH_BUFFER_SIZE {
      return Err(PatchBufferTooSmall);
    }
    var startOffset := offsets[0];
    var indices := offsets;
    for i := 0 to |offsets|
      invariant |indices| == |offsets|
      invariant forall j :: 0 <= j < i ==> indices[j] == (offsets[j] - startOffset) / DESCRIPTOR
      invariant forall j :: i <= j < |offsets| ==> indices[j] == offsets[j]
    {
      indices := indices[i := indices[i] - startOffset];
      indices := indices[i := indices[i] / DESCRIPTOR];
    }
    assert indices == Indices(offsets);
    if 4 * |offsets| > OFFSETS_BUFFER_SIZE {
      return Err(TooManyOffsets);
    }
    return Ok(Layout(startOffset, size, indices));
  }

  // ---------------------------------------------------------------------------------------------
  // The whole CPU side

  datatype Patching = Patching(groups: map<Key, Group>, pointers: seq<Word>, layouts: map<Key, Layout>)

  /** Descriptors end within 4 GB of their resource's start. */
  ghost predicate SmallResources(find: Finder) {
    forall a: Word :: find(a).Some? ==> find(a).value.captureStart <= a < find(a).value.captureStart + TWO_TO_THE_32 - DESCRIPTOR
  }

  /** What the patching of one array comes to: the groups, a pointer and a layout for each of their
      members, or the first limit that is exceeded. */
  ghost predicate Outcome(pointers: seq<Word>, find: Finder, available: nat, buffers: nat -> Word, r: Result<Patching>)
    requires Consistent(find)
  {
    var grouped := Grouped(pointers, find, available, |pointers|);
    if grouped.Err? then r == Err(grouped.failure)
    else if (8 * |pointers|) % TWO_TO_THE_32 > STAGING_SIZE then r == Err(StagingTooSmall)
    else
      var groups := grouped.value;
      match r
      case Ok(p) =>
        && p.groups == groups && |p.pointers| == |pointers|
        && (forall i :: 0 <= i < |pointers| ==> LeadsTo(groups, find, buffers, pointers[i], p.pointers[i]))
        && p.layouts.Keys == groups.Keys
        && (forall key :: key in groups ==> LaidOut(groups[key].offsets, p.layouts[key]))
      case Err(PatchBufferTooSmall) => exists key :: key in groups && groups[key].offsets != [] && !SpanFits(groups[key].offsets)
      case Err(TooManyOffsets) => exists key :: key in groups && !CountFits(groups[key].offsets)
      case _ => false
  }

  /** What the rest of the branch needs to know of one group. */
  ghost predicate Ready(g: Group) {
    Increasing(g.offsets) && g.offsets != [] && Last(g.offsets) + DESCRIPTOR < TWO_TO_THE_32
  }

  lemma SmallOffset(find: Finder, a: Word)
    requires SmallResources(find) && find(a).Some?
    ensures var start := find(a).value.captureStart;
      start <= a && Offset(a, start) == a - start && a - start + DESCRIPTOR < TWO_TO_THE_32
  {
  }

  lemma GroupReady(groups: map<Key, Group>, pointers: seq<Word>, find: Finder, key: Key)
    requires Consistent(find) && SmallResources(find) && key in groups
    requires OnlyPlaced(groups, pointers, find, |pointers|) && OrderedSets(groups)
    ensures Ready(groups[key])
  {
    var offsets := groups[key].offsets;
    assert Pointed(key, Last(offsets), pointers, find, |pointers|);
    hide Offset, SmallResources, OnlyPlaced, Increasing;
    var i :| 0 <= i < |pointers| && find(pointers[i]).Some?
          && Offset(pointers[i], find(pointers[i]).value.captureStart) == Last(offsets);
    SmallOffset(find, pointers[i]);
  }

  lemma GroupsReady(pointers: seq<Word>, find: Finder, available: nat)
    requires Consistent(find) && SmallResources(find) && Grouped(pointers, find, available, |pointers|).Ok?
    ensures var groups := Grouped(pointers, find, available, |pointers|).value;
      && (forall i :: 0 <= i < |pointers| ==> Relocatable(groups, find, pointers[i]))
      && (forall key :: key in groups ==> Ready(groups[key]))
  {
    hide SmallResources, OnlyPlaced, OrderedSets, OwnBuffers, Placed, Grouped, Ready;
    var groups := Grouped(pointers, find, available, |pointers|).value;
    GroupedExact(pointers, find, available, |pointers|);
    forall key | key in groups ensures Ready(groups[key]) {
      GroupReady(groups, pointers, find, key);
    }
  }

  method LayOutGroups(groups: map<Key, Group>) returns (r: Result<map<Key, Layout>>)
    requires forall key :: key in groups ==> Ready(groups[key])
    ensures match r
      case Ok(layouts) =>
        layouts.Keys == groups.Keys && forall key :: key in groups ==> LaidOut(groups[key].offsets, layouts[key])
      case Err(PatchBufferTooSmall) => exists key :: key in groups && groups[key].offsets != [] && !SpanFits(groups[key].offsets)
      case Err(TooManyOffsets) => exists key :: key in groups && !CountFits(groups[key].offsets)
      case _ => false
  {
    hide LaidOut, SpanFits, CountFits, Increasing;
    var layouts: map<Key, Layout> := map[];
    var rest := groups.Keys;
    while rest != {}
      invariant rest <= groups.Keys && layouts.Keys == groups.Keys - rest
      invariant forall key :: key in layouts ==> LaidOut(groups[key].offsets, layouts[key])
      decreases |rest|
    {
      var key :| key in rest;
      var one := LayOut(groups[key].offsets);
      if one.Err? {
        return Err(one.failure);
      }
      layouts := layouts[key := one.value];
      rest := rest - {key};
    }
    return Ok(layouts);
  }

  /** The array-of-pointers branch up to the copies and the kernel: every outcome. */
  method PatchArrayOfPointers(pointers: seq<Word>, find: Finder, available: nat, buffers: nat -> Word) returns (r: Result<Patching>)
    requires Consistent(find) && SmallResources(find)
    ensures Outcome(pointers, find, available, buffers, r)
  {
    var grouped := GroupPointers(pointers, find, available);
    if grouped.Err? {
      return Err(grouped.failure);
    }
    var groups := grouped.value;
    GroupsReady(pointers, find, available);
    hide Relocatable, LeadsTo, LaidOut;
    var patched := RelocatePointers(pointers, find, groups, buffers);
    var size := (8 * |pointers|) % TWO_TO_THE_32;
    if size > STAGING_SIZE {
      return Err(StagingTooSmall);
    }
    var layouts := LayOutGroups(groups);
    if layouts.Err? {
      return Err(layouts.failure);
    }
    return Ok(Patching(groups, patched, layouts.value));
  }

  /** Offsets of whole words inside the resource. */
  ghost predicate Inside(offsets: seq<nat>, contents: seq<Word>) {
    && Increasing(offsets) && offsets != []
    && (forall i :: 0 <= i < |offsets| ==> offsets[i] % 8 == 0)
    && Last(offsets) + DESCRIPTOR <= 8 * |contents|
  }

  /** What CopyBufferRegion puts into the patch buffer. */
  function Copied(offsets: seq<nat>, contents: seq<Word>): seq<Word>
    requires Inside(offsets, contents)
  {
    contents[offsets[0] / 8..(Last(offsets) + DESCRIPTOR) / 8]
  }

  /** The layout of a group is what is copied and what the kernel is told: the span from the first
      descriptor to the end of the last, and each descriptor's place in it in units of 64 bytes. */
  lemma LayoutCopies(offsets: seq<nat>, contents: seq<Word>, layout: Layout)
    requires LaidOut(offsets, layout) && Inside(offsets, contents)
    ensures layout.start % 8 == 0 && (layout.start + layout.size) % 8 == 0 && layout.start + layout.size <= 8 * |contents|
    ensures Copied(offsets, contents) == contents[layout.start / 8..(layout.start + layout.size) / 8]
    ensures layout.indices == Indices(offsets) && |layout.indices| == |offsets|
    ensures forall i :: 0 <= i < |offsets| ==> layout.indices[i] == (offsets[i] - layout.start) / 64
  {
    assert Last(offsets) % 8 == 0;
  }

  ghost predicate Congruent(offsets: seq<nat>) {
    forall i :: 0 <= i < |offsets| ==> (offsets[i] - offsets[0]) % DESCRIPTOR == 0
  }

  /** Word k of the descriptor at byte offset o, with its structure address translated. */
  function PatchedDescriptor(mappings: seq<Mapping>, contents: seq<Word>, o: nat, k: nat): Word
    requires k < 8 && o / 8 + 8 <= |contents|
  {
    if k == 7 then PatchedBlas(mappings, contents[o / 8 + 7]) else contents[o / 8 + k]
  }

  /** The buffer holds descriptor j, patched, where the pointers to it now lead. */
  ghost predicate Arrived(offsets: seq<nat>, contents: seq<Word>, mappings: seq<Mapping>, after: seq<Word>, j: nat)
    requires Inside(offsets, contents) && j < |offsets| && |after| == |Copied(offsets, contents)|
  {
    forall k: nat :: k < 8 ==>
      && offsets[0] <= offsets[j] <= Last(offsets) && offsets[j] % 8 == 0
      && after[(offsets[j] - offsets[0]) / 8 + k] == PatchedDescriptor(mappings, contents, offsets[j], k)
  }

  lemma CongruentIndices(offsets: seq<nat>)
    requires Increasing(offsets) && Congruent(offsets)
    ensures forall i :: 0 <= i < |offsets| ==> offsets[0] <= offsets[i]
    ensures forall i :: 0 <= i < |offsets| ==> offsets[i] - offsets[0] == DESCRIPTOR * Indices(offsets)[i]
    ensures Distinct(Indices(offsets))
  {
    FirstIsLeast(offsets);
  }

  lemma CopiedAt(offsets: seq<nat>, contents: seq<Word>, j: nat, k: nat)
    requires Inside(offsets, contents) && j < |offsets| && k < 8
    ensures offsets[0] <= offsets[j] <= Last(offsets) && offsets[j] / 8 + 8 <= |contents|
    ensures (offsets[j] - offsets[0]) / 8 + k < |Copied(offsets, contents)|
    ensures Copied(offsets, contents)[(offsets[j] - offsets[0]) / 8 + k] == contents[offsets[j] / 8 + k]
  {
    FirstIsLeast(offsets);
    assert offsets[0] % 8 == 0 && offsets[j] % 8 == 0 && Last(offsets) % 8 == 0;
    assert (offsets[j] - offsets[0]) / 8 == offsets[j] / 8 - offsets[0] / 8;
  }

  /** The kernel on one group, from the copied span, under some schedule. */
  function Patched(offsets: seq<nat>, contents: seq<Word>, mappings: seq<Mapping>, threads: nat, schedule: seq<nat>): (m: Machine<Word>)
    requires Inside(offsets, contents)
    ensures |m.memory| == |Copied(offsets, contents)|
  {
    FirstIsLeast(offsets);
    Together(Kernel(mappings, Indices(offsets)), 0, Start(Copied(offsets, contents), threads), schedule)
  }

  ghost predicate Complete(offsets: seq<nat>, contents: seq<Word>, mappings: seq<Mapping>, threads: nat, schedule: seq<nat>)
    requires Inside(offsets, contents)
  {
    FirstIsLeast(offsets);
    |offsets| <= threads && AllHalted(Kernel(mappings, Indices(offsets)), Patched(offsets, contents, mappings, threads, schedule))
  }

  lemma IndexInside(offsets: seq<nat>, contents: seq<Word>, j: nat)
    requires Inside(offsets, contents) && j < |offsets|
    ensures forall i :: 0 <= i < |offsets| ==> offsets[0] <= offsets[i]
    ensures BlasWord(Indices(offsets)[j]) < |Copied(offsets, contents)|
  {
    CopiedAt(offsets, contents, j, 7);
    FirstIsLeast(offsets);
    assert (offsets[j] - offsets[0]) / DESCRIPTOR * 8 <= (offsets[j] - offsets[0]) / 8;
  }

  lemma CongruentResult(offsets: seq<nat>, contents: seq<Word>, mappings: seq<Mapping>, threads: nat, schedule: seq<nat>)
    requires Inside(offsets, contents) && Congruent(offsets) && Ordered(mappings)
    requires Complete(offsets, contents, mappings, threads, schedule)
    ensures forall i :: 0 <= i < |offsets| ==> offsets[0] <= offsets[i]
    ensures Patched(offsets, contents, mappings, threads, schedule).memory
         == PatchedInstances(mappings, Indices(offsets), Copied(offsets, contents))
  {
    CongruentIndices(offsets);
    forall i | 0 <= i < |offsets| ensures BlasWord(Indices(offsets)[i]) < |Copied(offsets, contents)| {
      IndexInside(offsets, contents, i);
    }
    hide Ordered, Distinct, PatchedInstances, BlasWord, Copied;
    AnySchedulePatchesInstances(mappings, Indices(offsets), Copied(offsets, contents), threads, schedule);
  }

  lemma CongruentWord(offsets: seq<nat>, contents: seq<Word>, mappings: seq<Mapping>, j: nat, k: nat)
    requires Inside(offsets, contents) && Congruent(offsets) && j < |offsets| && k < 8
    requires forall i :: 0 <= i < |offsets| ==> offsets[0] <= offsets[i]
    ensures offsets[j] <= Last(offsets) && offsets[j] % 8 == 0 && offsets[j] / 8 + 8 <= |contents|
    ensures (offsets[j] - offsets[0]) / 8 + k < |Copied(offsets, contents)|
    ensures PatchedInstances(mappings, Indices(offsets), Copied(offsets, contents))[(offsets[j] - offsets[0]) / 8 + k]
         == PatchedDescriptor(mappings, contents, offsets[j], k)
  {
    CopiedAt(offsets, contents, j, k);
    CongruentIndices(offsets);
    IndexInside(offsets, contents, j);
    assert offsets[j] % 8 == 0;
    hide Inside, Congruent, PatchedBlas, PatchedInstances, Copied, Distinct;
    OneWord(offsets, Indices(offsets), mappings, Copied(offsets, contents), j, k);
  }

  /** For descriptors congruent modulo 64 every complete schedule of the kernel leaves every
      descriptor patched, and only its address word. */
  lemma CongruentDescriptorsArrive(offsets: seq<nat>, contents: seq<Word>, mappings: seq<Mapping>, threads: nat,
                                   schedule: seq<nat>, j: nat)
    requires Inside(offsets, contents) && Congruent(offsets) && Ordered(mappings) && j < |offsets|
    requires Complete(offsets, contents, mappings, threads, schedule)
    ensures Arrived(offsets, contents, mappings, Patched(offsets, contents, mappings, threads, schedule).memory, j)
  {
    hide Complete, Patched, Ordered, PatchedInstances, Congruent;
    CongruentResult(offsets, contents, mappings, threads, schedule);
    forall k: nat | k < 8
      ensures offsets[0] <= offsets[j] <= Last(offsets) && offsets[j] % 8 == 0 && offsets[j] / 8 + 8 <= |contents|
      ensures (offsets[j] - offsets[0]) / 8 + k < |Copied(offsets, contents)|
      ensures Patched(offsets, contents, mappings, threads, schedule).memory[(offsets[j] - offsets[0]) / 8 + k]
           == PatchedDescriptor(mappings, contents, offsets[j], k)
    {
      CongruentWord(offsets, contents, mappings, j, k);
    }
  }

  lemma OneWord(offsets: seq<nat>, indices: seq<nat>, mappings: seq<Mapping>, memory: seq<Word>, j: nat, k: nat)
    requires |indices| == |offsets| && j < |offsets| && k < 8 && offsets[0] <= offsets[j]
    requires offsets[j] - offsets[0] == DESCRIPTOR * indices[j] && 8 * indices[j] + 7 < |memory|
    ensures var w := (offsets[j] - offsets[0]) / 8 + k;
      w < |memory| && PatchedInstances(mappings, indices, memory)[w] == if k == 7 then PatchedBlas(mappings, memory[w]) else memory[w]
  {
    var w := (offsets[j] - offsets[0]) / 8 + k;
    assert w == 8 * indices[j] + k;
    assert forall i :: 0 <= i < |indices| ==> BlasWord(indices[i]) % 8 == 7;
    if k == 7 {
      assert BlasWord(indices[j]) == w;
    } else {
      assert w % 8 == k;
    }
  }

  // ---------------------------------------------------------------------------------------------
  // Descriptors that are not congruent

  /** The kernel rounds the distance down, so the address of an incongruent descriptor is no thread's. */
  lemma IncongruentMissed(offsets: seq<nat>, m: nat, i: nat)
    requires Increasing(offsets) && m < |offsets| && i < |offsets| && (offsets[m] - offsets[0]) % DESCRIPTOR != 0
    requires offsets[0] % 8 == 0 && offsets[m] % 8 == 0 && forall i :: 0 <= i < |offsets| ==> offsets[0] <= offsets[i]
    ensures BlasWord(Indices(offsets)[i]) != (offsets[m] - offsets[0]) / 8 + 7
  {
    var d := offsets[m] - offsets[0];
    assert d == 8 * (d / 8);
    assert (d / 8) % 8 != 0;
  }

  lemma IncongruentUntouched(offsets: seq<nat>, contents: seq<Word>, mappings: seq<Mapping>, threads: nat,
                             schedule: seq<nat>, m: nat)
    requires Inside(offsets, contents) && m < |offsets| && (offsets[m] - offsets[0]) % DESCRIPTOR != 0
    ensures Patched(offsets, contents, mappings, threads, schedule).memory[(offsets[m] - offsets[0]) / 8 + 7]
         == contents[offsets[m] / 8 + 7]
  {
    var w := (offsets[m] - offsets[0]) / 8 + 7;
    FirstIsLeast(offsets);
    CopiedAt(offsets, contents, m, 7);
    forall i | 0 <= i < |offsets| ensures BlasWord(Indices(offsets)[i]) != w {
      IncongruentMissed(offsets, m, i);
    }
    OthersUntouched(mappings, Indices(offsets), Copied(offsets, contents), threads, schedule, w);
  }

  /** A schedule that lets each thread finish before the next starts. */
  function EachTwice(n: nat): seq<nat> {
    if n == 0 then [] else EachTwice(n - 1) + [n - 1] + [n - 1]
  }

  lemma TurnsNext(schedule: seq<nat>, u: nat, t: nat)
    ensures Turns(schedule + [u], t) == Turns(schedule, t) + if u == t then 1 else 0
  {
    assert (schedule + [u])[..|schedule|] == schedule;
  }

  lemma {:induction false} EachTwiceTurns(n: nat, t: nat)
    ensures Turns(EachTwice(n), t) == if t < n then 2 else 0
  {
    if n > 0 {
      EachTwiceTurns(n - 1, t);
      TurnsNext(EachTwice(n - 1), n - 1, t);
      TurnsNext(EachTwice(n - 1) + [n - 1], n - 1, t);
    }
  }

  lemma {:induction false} LogLengths(mappings: seq<Mapping>, indices: seq<nat>, memory: seq<Word>, threads: nat, schedule: seq<nat>, t: nat)
    requires t < |indices| && t < threads
    ensures var log := Together(Kernel(mappings, indices), 0, Start(memory, threads), schedule).logs[t];
      |log| == if Turns(schedule, t) < 2 then Turns(schedule, t) else 2
  {
    if schedule != [] {
      LogLengths(mappings, indices, memory, threads, schedule[..|schedule| - 1], t);
    }
  }

  lemma EachTwiceCompletes(offsets: seq<nat>, contents: seq<Word>, mappings: seq<Mapping>)
    requires Inside(offsets, contents)
    ensures Complete(offsets, contents, mappings, |offsets|, EachTwice(|offsets|))
  {
    FirstIsLeast(offsets);
    forall t: nat | t < |offsets|
      ensures |Patched(offsets, contents, mappings, |offsets|, EachTwice(|offsets|)).logs[t]| == 2
    {
      EachTwiceTurns(|offsets|, t);
      LogLengths(mappings, Indices(offsets), Copied(offsets, contents), |offsets|, EachTwice(|offsets|), t);
    }
  }

  /** Whatever the resource holds, whatever the mappings and the schedule, every descriptor arrives. */
  ghost predicate AlwaysArrive(offsets: seq<nat>) {
    forall contents: seq<Word>, mappings: seq<Mapping>, threads: nat, schedule: seq<nat> ::
      Inside(offsets, contents) && Ordered(mappings) && Complete(offsets, contents, mappings, threads, schedule) ==>
        forall j: nat :: j < |offsets| ==>
          Arrived(offsets, contents, mappings, Patched(offsets, contents, mappings, threads, schedule).memory, j)
  }

  /** One descriptor off the 64-byte grid: a resource, a mapping and a schedule that lose its address. */
  lemma IncongruentLost(offsets: seq<nat>, m: nat)
    requires Increasing(offsets) && m < |offsets| && (offsets[m] - offsets[0]) % DESCRIPTOR != 0
    requires forall i :: 0 <= i < |offsets| ==> offsets[i] % 8 == 0
    ensures !AlwaysArrive(offsets)
  {
    var words := Last(offsets) / 8 + 8;
    FirstIsLeast(offsets);
    assert 8 * (Last(offsets) / 8) == Last(offsets);
    var blank: seq<Word> := seq(words, i => 0);
    var contents: seq<Word> := blank[offsets[m] / 8 + 7 := 1];
    var mappings := [Mapping(1, 2, 1)];
    var schedule := EachTwice(|offsets|);
    assert Inside(offsets, contents) && Ordered(mappings);
    EachTwiceCompletes(offsets, contents, mappings);
    IncongruentUntouched(offsets, contents, mappings, |offsets|, schedule, m);
    var after := Patched(offsets, contents, mappings, |offsets|, schedule).memory;
    CopiedAt(offsets, contents, m, 7);
    assert Linear(mappings, 1) == Some(2);
    assert PatchedDescriptor(mappings, contents, offsets[m], 7) == 2;
    assert !Arrived(offsets, contents, mappings, after, m);
  }

  /** The path is right for every resource, mapping table and schedule exactly when the descriptors of
      the group lie a multiple of 64 bytes apart. */
  lemma ArriveExactlyWhenCongruent(offsets: seq<nat>)
    requires Increasing(offsets) && offsets != [] && forall i :: 0 <= i < |offsets| ==> offsets[i] % 8 == 0
    ensures AlwaysArrive(offsets) <==> Congruent(offsets)
  {
    if Congruent(offsets) {
      forall contents: seq<Word>, mappings: seq<Mapping>, threads: nat, schedule: seq<nat>, j: nat |
          Inside(offsets, contents) && Ordered(mappings) && Complete(offsets, contents, mappings, threads, schedule)
          && j < |offsets|
        ensures Arrived(offsets, contents, mappings, Patched(offsets, contents, mappings, threads, schedule).memory, j)
      {
        CongruentDescriptorsArrive(offsets, contents, mappings, threads, schedule, j);
      }
    } else {
      var m :| 0 <= m < |offsets| && (offsets[m] - offsets[0]) % DESCRIPTOR != 0;
      IncongruentLost(offsets, m);
    }
  }

  lemma DescriptorAt(offsets: seq<nat>, contents: seq<Word>, mappings: seq<Mapping>, threads: nat, schedule: seq<nat>,
                     o: nat, k: nat)
    requires o in offsets && k < 8 && Inside(offsets, contents) && Congruent(offsets) && Ordered(mappings)
    requires Complete(offsets, contents, mappings, threads, schedule)
    ensures var after := Patched(offsets, contents, mappings, threads, schedule).memory;
      && o / 8 + 8 <= |contents| && offsets[0] <= o && (o - offsets[0]) % 8 == 0
      && (o - offsets[0]) / 8 + k < |after|
      && after[(o - offsets[0]) / 8 + k] == PatchedDescriptor(mappings, contents, o, k)
  {
    hide PatchedDescriptor, Patched, Complete, Congruent, Ordered, Copied;
    var j: nat :| j < |offsets| && offsets[j] == o;
    CongruentDescriptorsArrive(offsets, contents, mappings, threads, schedule, j);
    CopiedAt(offsets, contents, j, k);
    assert offsets[0] % 8 == 0;
  }

  /** From the array of pointers to the patched copy: under congruence the rewritten pointer p leads to
      the descriptor the capture pointer a named, o bytes into its resource. */
  lemma PointerLeadsToDescriptor(groups: map<Key, Group>, find: Finder, buffers: nat -> Word, a: Word, p: Word, o: int,
                                 contents: seq<Word>, mappings: seq<Mapping>, threads: nat, schedule: seq<nat>, k: nat)
    requires SmallResources(find) && LeadsTo(groups, find, buffers, a, p) && o == a - find(a).value.captureStart && k < 8
    requires var offsets := groups[find(a).value.key].offsets;
      && Inside(offsets, contents) && Congruent(offsets) && Ordered(mappings)
      && Complete(offsets, contents, mappings, threads, schedule)
    ensures var g := groups[find(a).value.key];
      var after := Patched(g.offsets, contents, mappings, threads, schedule).memory;
      && 0 <= g.offsets[0] <= o && o / 8 + 8 <= |contents| && (o - g.offsets[0]) % 8 == 0
      && p == Add64(buffers(g.buffer), o - g.offsets[0])
      && (o - g.offsets[0]) / 8 + k < |after|
      && after[(o - g.offsets[0]) / 8 + k] == PatchedDescriptor(mappings, contents, o, k)
  {
    SmallOffset(find, a);
    assert Offset(a, find(a).value.captureStart) == o;
    hide Offset, PatchedDescriptor, Patched, Complete, Congruent, Ordered, Copied, Inside, OrderedSets;
    DescriptorAt(groups[find(a).value.key].offsets, contents, mappings, threads, schedule, o, k);
  }
}
