/** What the pools promise over every run of recording, submitting, releasing and GPU progress. */
module PoolTheorems {
  import opened Arithmetic
  import opened BufferPool
  import opened PoolInvariant
  import opened PoolSafety
  import opened Wrappers

  /** Submitted GPU work that uses b is not finished. */
  ghost predicate InFlight(s: State, b: Buffer) {
    exists q: QueueId, j: nat :: WorkAt(s.queues, q, j, b)
  }

  /** A command list other than `self` that may still be executed refers to b. */
  ghost predicate HeldByOther(s: State, self: Key, b: Buffer) {
    exists cl: Key :: cl != self && cl !in s.submitted && b in s.RecordedBy(cl)
  }

  /** Only list cl can reach b: nothing queued uses it or signals it, and no other recording does. */
  ghost predicate Exclusive(s: State, cl: Key, b: Buffer) {
    !InFlight(s, b) && !Signalling(s.queues, b) && !HeldByOther(s, cl, b)
  }

  lemma NoWork(s: State, b: Buffer)
    requires Inv(s) && s.jobs == [] && (s.pools.Valid(b) ==> s.pools.SlotOf(b).completed == s.pools.SlotOf(b).lastSignal)
    ensures !InFlight(s, b) && !Signalling(s.queues, b)
  {
    forall q: QueueId, j: nat ensures !WorkAt(s.queues, q, j, b) {
      assert !LaterSignal(s.queues, q, j, b) && !JobFor(s.pools, s.jobs, q, b);
    }
  }

  lemma OwnedExclusive(s: State, cl: Key, b: Buffer)
    requires Inv(s) && s.jobs == [] && s.pools.Owns(cl, b)
    ensures s.pools.Valid(b) && Exclusive(s, cl, b)
  {
    assert PoolExact(s.pools.Get(b.kind));
    NoWork(s, b);
  }

  lemma FreeExclusive(s: State, cl: Key, b: Buffer)
    requires Inv(s) && s.jobs == [] && (s.pools.Valid(b) ==> s.pools.SlotOf(b).Free())
    ensures Exclusive(s, cl, b) && b !in (if cl in s.submitted then {} else s.RecordedBy(cl))
  {
    assert PoolExact(s.pools.Get(b.kind));
    NoWork(s, b);
    forall other: Key ensures !s.pools.Owns(other, b) {
    }
  }

  /** At every point of every run, the buffer an acquisition returns - reused, replaced or new - is
      used by no unfinished GPU work, has no signal outstanding, and is referred to by no recording
      that can still be executed. The per-list mapping buffer may be the one the list already has. */
  lemma AcquiredBufferIsUnused(s: State, actions: seq<Action>, a: Action)
    requires Inv(s) && Run(s, actions) && Allowed(After(s, actions), a) && a.Takes()
    ensures var t, b := After(s, actions), Taking(After(s, actions), a).1;
      && Exclusive(t, a.list, b)
      && Next(t, a).pools.Owns(a.list, b)
      && (t.pools.Owns(a.list, b) ==> a.TakePerList?)
      && (!t.pools.Owns(a.list, b) ==> b !in t.RecordedBy(a.list))
  {
    RunKeeps(s, actions);
    var t := After(s, actions);
    var b := Taking(t, a).1;
    TakeAcquires(t, a);
    AcquirePools(t, Next(t, a), a.list, b);
    assert PoolExact(t.pools.Get(b.kind));
    if t.pools.Owns(a.list, b) {
      OwnedExclusive(t, a.list, b);
      match a
      case TakeBestFit(cl, size, grown) => BestFitGains(t.pools.patch, cl, size, grown);
      case TakeFixed(cl, kind) => FixedGains(t.pools.Get(kind), cl);
      case _ =>
    } else {
      FreeExclusive(t, a.list, b);
    }
  }

  /** Pre(ExecuteCommandLists) overwrites the staging side of every mapping buffer owned by a list
      being executed; the GPU is not using any of them, and no other list's recording does. */
  lemma SubmissionWritesExclusiveBuffers(s: State, actions: seq<Action>, q: QueueId, lists: seq<Key>, n: nat, i: nat)
    requires Inv(s) && Run(s, actions) && Allowed(After(s, actions), Execute(q, lists)) && n < |lists|
    requires After(s, actions).pools.mapping.Owns(lists[n], i)
    ensures Exclusive(After(s, actions), lists[n], Buffer(Mapping, i))
  {
    RunKeeps(s, actions);
    OwnedExclusive(After(s, actions), lists[n], Buffer(Mapping, i));
  }

  lemma SlotExact(pool: Pool, i: nat)
    requires PoolExact(pool) && i < |pool.slots|
    ensures pool.slots[i].waiting <==> exists cl: Key :: pool.Owns(cl, i)
    ensures forall cl: Key, other: Key :: pool.Owns(cl, i) && pool.Owns(other, i) ==> cl == other
    ensures 0 <= pool.slots[i].lastSignal - pool.slots[i].completed <= 1
  {
    if pool.slots[i].waiting {
      assert exists cl: Key :: pool.Owns(cl, i);
    }
  }

  /** The ownership table is exact at every point of every run: WaitingForExecute holds for the owned
      indices only, no index has two owners, and a fence is behind by its one outstanding signal. */
  lemma OwnershipExact(s: State, actions: seq<Action>, b: Buffer)
    requires Inv(s) && Run(s, actions) && After(s, actions).pools.Valid(b)
    ensures var t := After(s, actions);
      && (t.pools.SlotOf(b).waiting <==> exists cl: Key :: t.pools.Owns(cl, b))
      && (forall cl: Key, other: Key :: t.pools.Owns(cl, b) && t.pools.Owns(other, b) ==> cl == other)
      && (t.pools.SlotOf(b).lastSignal - t.pools.SlotOf(b).completed == if Signalling(t.queues, b) then 1 else 0)
      && SignalsUnique(t.queues)
  {
    RunKeeps(s, actions);
    var t := After(s, actions);
    assert PoolExact(t.pools.Get(b.kind));
    hide PoolExact, PoolsExact, WorkCovered, RecordedOwned, JobsCurrent, SignalsUnique;
    SlotExact(t.pools.Get(b.kind), b.index);
    if t.pools.SlotOf(b).waiting {
      var cl: Key :| t.pools.Get(b.kind).Owns(cl, b.index);
      assert t.pools.Owns(cl, b);
    }
  }

  /** Nothing leaks: once the queues are empty every slot no list owns can be handed out again. */
  lemma DrainedQueuesFree(s: State, actions: seq<Action>, b: Buffer)
    requires Inv(s) && Run(s, actions) && After(s, actions).pools.Valid(b)
    requires forall q: QueueId :: Lane(After(s, actions).queues, q) == []
    ensures After(s, actions).pools.SlotOf(b).Free() <==> forall cl: Key :: !After(s, actions).pools.Owns(cl, b)
  {
    var t := After(s, actions);
    OwnershipExact(s, actions, b);
    hide Inv, After, SignalsUnique;
    assert forall q: QueueId, j: nat :: !SignalAt(t.queues, q, j, b);
  }

  // ---------------------------------------------------------------------------------------------
  // How large a pool grows

  function BusyCount(slots: seq<Slot>): (r: nat)
    ensures r <= |slots|
  {
    if slots == [] then 0
    else BusyCount(slots[..|slots| - 1]) + if slots[|slots| - 1].Free() then 0 else 1
  }

  /** It counts the buffers that wait for execution or whose fence has not reached its last signal. */
  lemma {:induction false} BusyCountCounts(slots: seq<Slot>)
    ensures BusyCount(slots) == |set i: nat | i < |slots| && (slots[i].waiting || slots[i].completed != slots[i].lastSignal)|
  {
    if slots != [] {
      var n := |slots| - 1;
      var front := slots[..n];
      BusyCountCounts(front);
      var before := set i: nat | i < |front| && (front[i].waiting || front[i].completed != front[i].lastSignal);
      var now := set i: nat | i < |slots| && (slots[i].waiting || slots[i].completed != slots[i].lastSignal);
      assert now == before + if slots[n].Free() then {} else {n};
    }
  }

  lemma {:induction false} AllBusy(slots: seq<Slot>)
    requires forall i: nat :: i < |slots| ==> !slots[i].Free()
    ensures BusyCount(slots) == |slots|
  {
    if slots != [] {
      AllBusy(slots[..|slots| - 1]);
    }
  }

  /** The largest number of busy buffers of one kind at any point of the run. */
  ghost function Peak(s: State, actions: seq<Action>, kind: Kind): nat
    requires Run(s, actions)
    decreases |actions|
  {
    var now := BusyCount(s.pools.Get(kind).slots);
    if actions == [] then now else Max(now, Peak(Next(s, actions[0]), actions[1..], kind))
  }

  ghost predicate Grows(p: seq<Slot>, after: seq<Slot>) {
    && |p| <= |after| && (|after| > |p| ==> BusyCount(after) == |after|)
    && forall i: nat :: i < |p| ==> p[i].size <= after[i].size
  }

  lemma TakeGrowth(s: State, a: Action)
    requires Possible(s, a) && a.Takes()
    ensures var (after, b) := Taking(s, a); Grows(s.pools.Get(b.kind).slots, after.slots)
  {
    var (after, b) := Taking(s, a);
    match a {
      case TakeBestFit(cl, size, grown) => BestFitChoice(s.pools.patch, cl, size, grown);
      case TakePerList(cl) => PerListGains(s.pools.mapping, cl);
      case TakeFixed(cl, kind) => FixedGains(s.pools.Get(kind), cl);
    }
    if |after.slots| > |s.pools.Get(b.kind).slots| {
      AllBusy(after.slots);
    }
  }

  lemma SameGrowth(p: seq<Slot>)
    ensures Grows(p, p)
  {
  }

  lemma SettledGrowth(p: Pool, cl: Key)
    requires PoolExact(p)
    ensures Grows(p.slots, p.Submitted(cl).slots) && Grows(p.slots, p.Dropped(cl).slots)
  {
    SubmitPool(p, cl);
    DropFrees(p, cl);
  }

  lemma ReachedGrowth(p: Pool, i: nat, value: nat)
    ensures Grows(p.slots, Reached(p, i, value).slots)
  {
  }

  /** One action grows a pool by a buffer only if all its buffers are then busy; none shrinks. */
  lemma StepGrowth(s: State, a: Action, kind: Kind)
    requires Inv(s) && Allowed(s, a)
    ensures Grows(s.pools.Get(kind).slots, Next(s, a).pools.Get(kind).slots)
  {
    var p := s.pools.Get(kind);
    assert PoolExact(p);
    hide Grows, PoolExact, Reached;
    SameGrowth(p.slots);
    match a
    case SubmitNext => SettledGrowth(p, s.jobs[0].list);
    case Drop(cl) => SettledGrowth(p, cl);
    case Gpu(q) =>
      var head := Lane(s.queues, q)[0];
      if head.Signal? {
        ReachedGrowth(p, head.buffer.index, head.value);
      }
    case Execute(_, _) =>
    case Reset(_) =>
    case _ => TakeGrowth(s, a);
  }

  /** After any run a pool is no larger than its initial size or the peak number of busy buffers,
      whichever is larger, and no buffer is smaller than it was. */
  lemma {:induction false} PoolBoundedByPeak(s: State, actions: seq<Action>, kind: Kind)
    requires Inv(s) && Run(s, actions)
    ensures var p, after := s.pools.Get(kind).slots, After(s, actions).pools.Get(kind).slots;
      && |p| <= |after| <= Max(|p|, Peak(s, actions, kind))
      && forall i: nat :: i < |p| ==> p[i].size <= after[i].size
    decreases |actions|
  {
    hide Inv, Next;
    if actions != [] {
      var t := Next(s, actions[0]);
      StepGrowth(s, actions[0], kind);
      NextKeeps(s, actions[0]);
      PoolBoundedByPeak(t, actions[1..], kind);
      assert Peak(s, actions, kind) == Max(BusyCount(s.pools.Get(kind).slots), Peak(t, actions[1..], kind));
      assert Peak(t, actions[1..], kind) >= BusyCount(t.pools.Get(kind).slots);
    }
  }

  // ---------------------------------------------------------------------------------------------
  // Executing a recording more than once

  /** With or without the once-per-recording rule, a submission leaves all queued work covered by
      later signals exactly when every buffer it uses is owned by one of the submitted lists. */
  lemma SubmissionCoveredExactly(s: State, q: QueueId, lists: seq<Key>)
    requires Inv(s) && Possible(s, Execute(q, lists))
    ensures var t := Next(s, Execute(q, lists));
      WorkCovered(t.pools, t.queues, t.jobs)
      <==> forall b: Buffer :: b in AllRecorded(s, lists) ==> exists cl: Key :: cl in lists && s.pools.Owns(cl, b)
  {
    var t := Next(s, Execute(q, lists));
    var last := |Lane(s.queues, q)|;
    JobsAt(q, lists);
    AppendAt(s.queues, q, [Work(AllRecorded(s, lists))]);
    forall b: Buffer | b in AllRecorded(s, lists)
      ensures LaterSignal(t.queues, q, last, b) || JobFor(t.pools, t.jobs, q, b)
              <==> exists cl: Key :: cl in lists && s.pools.Owns(cl, b)
    {
      if cl: Key :| cl in lists && s.pools.Owns(cl, b) {
        var i: nat :| i < |lists| && lists[i] == cl;
        assert Job(q, b.kind, lists[i]) in t.jobs;
      }
    }
    forall p: QueueId, j: nat, b: Buffer | WorkAt(t.queues, p, j, b) && !(p == q && j == last)
      ensures LaterSignal(t.queues, p, j, b)
    {
      assert WorkAt(s.queues, p, j, b);
      var k: nat :| j < k && SignalAt(s.queues, p, k, b);
      assert SignalAt(t.queues, p, k, b);
    }
    forall b: Buffer | b in AllRecorded(s, lists) ensures WorkAt(t.queues, q, last, b) {
    }
  }

  /** Execute of one list, with all four signal batches. */
  ghost function Executed(s: State, q: QueueId, cl: Key): State
    requires s.jobs == []
  {
    var t := Next(s, Execute(q, [cl]));
    assert [cl][1..] == [];
    assert Jobs(q, [cl]) == [Job(q, Mapping, cl), Job(q, Patch, cl), Job(q, InstancePatch, cl), Job(q, InstanceStaging, cl)];
    Next(Next(Next(Next(t, SubmitNext), SubmitNext), SubmitNext), SubmitNext)
  }

  /** A list that owns nothing gets no signals. */
  ghost predicate Unsignalled(s: State, t: State, cl: Key) {
    && s.jobs != [] && t.jobs == s.jobs[1..] && t.submitted == s.submitted
    && (forall p: QueueId :: Lane(t.queues, p) == Lane(s.queues, p))
    && (forall kind: Kind :: t.pools.Get(kind).slots == s.pools.Get(kind).slots)
    && (forall c: Buffer :: !t.pools.Owns(cl, c))
  }

  lemma SubmitsNothing(s: State, cl: Key)
    requires s.jobs != [] && s.jobs[0].list == cl && forall c: Buffer :: !s.pools.Owns(cl, c)
    ensures Unsignalled(s, Next(s, SubmitNext), cl)
  {
    var job := s.jobs[0];
    var p := s.pools.Get(job.kind);
    if p.OwnedBy(cl) != [] {
      assert s.pools.Owns(cl, Buffer(job.kind, p.OwnedBy(cl)[0]));
    }
    var t := Next(s, SubmitNext);
    forall c: Buffer ensures !t.pools.Owns(cl, c) {
      assert !s.pools.Owns(cl, c);
    }
  }

  lemma ExecutedUnsignalled(s: State, q: QueueId, cl: Key)
    requires s.jobs == [] && forall c: Buffer :: !s.pools.Owns(cl, c)
    ensures var t := Executed(s, q, cl);
      && t.jobs == [] && t.submitted == s.submitted + {cl}
      && Lane(t.queues, q) == Lane(s.queues, q) + [Work(AllRecorded(s, [cl]))]
      && forall kind: Kind :: t.pools.Get(kind).slots == s.pools.Get(kind).slots
  {
    var t0 := Next(s, Execute(q, [cl]));
    assert [cl][1..] == [];
    assert Jobs(q, [cl]) == [Job(q, Mapping, cl), Job(q, Patch, cl), Job(q, InstancePatch, cl), Job(q, InstanceStaging, cl)];
    assert (set i | 0 <= i < 1 :: [cl][i]) == {cl} by {
      assert [cl][0] == cl;
    }
    SubmitsNothing(t0, cl);
    var t1 := Next(t0, SubmitNext);
    SubmitsNothing(t1, cl);
    var t2 := Next(t1, SubmitNext);
    SubmitsNothing(t2, cl);
    SubmitsNothing(Next(t2, SubmitNext), cl);
  }

  /** The recording of a list starts anew. */
  predicate StartsAnew(a: Action, cl: Key) {
    (a.Reset? || a.Drop?) && a.list == cl
  }

  lemma {:induction false} StaysRecorded(s: State, actions: seq<Action>, cl: Key, b: Buffer)
    requires Run(s, actions) && b in s.RecordedBy(cl)
    requires forall n :: 0 <= n < |actions| ==> !StartsAnew(actions[n], cl)
    ensures b in After(s, actions).RecordedBy(cl)
    decreases |actions|
  {
    if actions != [] {
      RecordedStep(s, actions[0], cl);
      hide Next;
      StaysRecorded(Next(s, actions[0]), actions[1..], cl, b);
    }
  }

  /** What one action does to the buffers a list's recording refers to. */
  lemma RecordedStep(s: State, a: Action, cl: Key)
    requires Allowed(s, a)
    ensures Next(s, a).RecordedBy(cl) ==
      if StartsAnew(a, cl) then {}
      else if a.Takes() && a.list == cl then s.RecordedBy(cl) + {Taking(s, a).1}
      else s.RecordedBy(cl)
  {
  }

  /** The work a submission queues, at the end of its queue, uses exactly what its lists recorded. */
  lemma SubmittedWork(s: State, q: QueueId, lists: seq<Key>)
    requires Allowed(s, Execute(q, lists))
    ensures var w := AllRecorded(s, lists);
      && Lane(Next(s, Execute(q, lists)).queues, q) == Lane(s.queues, q) + [Work(w)]
      && forall b: Buffer :: b in w <==> exists i :: 0 <= i < |lists| && b in s.RecordedBy(lists[i])
  {
  }

  /** Over all runs: a buffer a list acquired is in the work queued when the list is executed, whatever
      happens in between, unless the list was reset or released. */
  lemma AcquiredBufferIsSubmitted(s: State, take: Action, between: seq<Action>, q: QueueId, lists: seq<Key>)
    requires Allowed(s, take) && take.Takes() && Run(Next(s, take), between)
    requires forall n :: 0 <= n < |between| ==> !StartsAnew(between[n], take.list)
    requires Allowed(After(Next(s, take), between), Execute(q, lists)) && take.list in lists
    ensures var t := After(Next(s, take), between);
      var lane := Lane(Next(t, Execute(q, lists)).queues, q);
      lane != [] && lane[|lane| - 1].Work? && Taking(s, take).1 in lane[|lane| - 1].buffers
  {
    hide Next, Taking;
    var t := After(Next(s, take), between);
    RecordedStep(s, take, take.list);
    StaysRecorded(Next(s, take), between, take.list, Taking(s, take).1);
    SubmittedWork(t, q, lists);
    var i :| 0 <= i < |lists| && lists[i] == take.list;
    assert Taking(s, take).1 in t.RecordedBy(lists[i]);
  }

  /** Why the once-per-recording rule is needed: executing a recording again after its ownership
      entry is gone leaves its buffers free while the GPU is using them. */
  lemma ReexecutionUnprotected(s: State, q: QueueId, cl: Key, b: Buffer)
    requires Inv(s) && s.jobs == [] && b in s.RecordedBy(cl) && (forall c: Buffer :: !s.pools.Owns(cl, c))
    requires s.pools.Valid(b) && s.pools.SlotOf(b).Free()
    ensures Possible(s, Execute(q, [cl]))
    ensures var t := Executed(s, q, cl); t.jobs == [] && t.pools.Valid(b) && t.pools.SlotOf(b).Free() && InFlight(t, b)
    ensures forall kind: Kind :: Executed(s, q, cl).pools.Get(kind).slots == s.pools.Get(kind).slots
    ensures Executed(s, q, cl).submitted == s.submitted + {cl}
  {
    hide Executed, Inv, Next;
    assert b in AllRecorded(s, [cl]) by {
      assert b in s.RecordedBy([cl][0]);
    }
    ExecutedUnsignalled(s, q, cl);
    assert WorkAt(Executed(s, q, cl).queues, q, |Lane(s.queues, q)|, b);
  }

  /** List 1 uses the only patch buffer, was executed, and has finished. */
  function FinishedOnce(): State {
    State(Pools(Fresh(0, 0), Pool([Slot(1, 1, false, 8)], map[]), Fresh(0, 0), Fresh(0, 0)),
          map[1 := {Buffer(Patch, 0)}], {1}, map[], [])
  }

  lemma FinishedOnceSound()
    ensures Inv(FinishedOnce()) && forall c: Buffer :: !FinishedOnce().pools.Owns(1, c)
  {
  }

  lemma TakesOnlyBuffer(s: State, cl: Key, slot: Slot)
    requires s.jobs == [] && s.pools.patch.slots == [slot] && slot.Free() && slot.size == 8
    ensures Taking(s, TakeBestFit(cl, 8, 8)).1 == Buffer(Patch, 0)
  {
    assert SmallestFitting([slot], 8, 0) == None;
    assert SmallestFitting([slot], 8, 1) == Some(0);
  }

  /** A concrete case: the buffer list 2 is given is the one list 1 is using on the GPU. */
  lemma ReexecutedBufferHandedOut()
    ensures Inv(FinishedOnce()) && !Allowed(FinishedOnce(), Execute(0, [1]))
    ensures var t := Executed(FinishedOnce(), 0, 1);
      Allowed(t, TakeBestFit(2, 8, 8)) && InFlight(t, Taking(t, TakeBestFit(2, 8, 8)).1)
  {
    var s, b := FinishedOnce(), Buffer(Patch, 0);
    assert [1][0] == 1;
    FinishedOnceSound();
    hide Inv, Executed, Next;
    ReexecutionUnprotected(s, 0, 1, b);
    TakesOnlyBuffer(Executed(s, 0, 1), 2, Slot(1, 1, false, 8));
  }
}
