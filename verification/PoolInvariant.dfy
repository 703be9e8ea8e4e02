/** What every action of the layer, the application and the GPU keeps. */
module PoolInvariant {
  import opened BufferPool
  import opened PoolSafety
  import opened Wrappers

  /** Ownership lists are disjoint and hold exactly the waiting slots; a fence has at most one
      signal outstanding, and a waiting one has none. */
  ghost predicate PoolExact(pool: Pool) {
    && (forall cl: Key, i: nat :: pool.Owns(cl, i) ==> i < |pool.slots| && pool.slots[i].waiting)
    && (forall cl: Key :: DistinctIndices(pool.OwnedBy(cl)))
    && (forall cl: Key, other: Key, i: nat :: pool.Owns(cl, i) && pool.Owns(other, i) ==> cl == other)
    && (forall i: nat :: i < |pool.slots| && pool.slots[i].waiting ==>
          pool.slots[i].completed == pool.slots[i].lastSignal && exists cl: Key :: pool.Owns(cl, i))
    && (forall i: nat :: i < |pool.slots| ==>
          pool.slots[i].completed <= pool.slots[i].lastSignal <= pool.slots[i].completed + 1)
  }

  ghost predicate PoolsExact(pools: Pools) {
    forall kind: Kind :: PoolExact(pools.Get(kind))
  }

  ghost predicate SignalAt(queues: Queues, q: QueueId, j: nat, b: Buffer) {
    j < |Lane(queues, q)| && Lane(queues, q)[j].Signal? && Lane(queues, q)[j].buffer == b
  }

  ghost predicate WorkAt(queues: Queues, q: QueueId, j: nat, b: Buffer) {
    j < |Lane(queues, q)| && Lane(queues, q)[j].Work? && b in Lane(queues, q)[j].buffers
  }

  /** A queued signal carries the last value of its fence. */
  ghost predicate SignalsLast(pools: Pools, queues: Queues) {
    forall q: QueueId, j: nat, b: Buffer :: SignalAt(queues, q, j, b) ==>
      && pools.Valid(b) && Lane(queues, q)[j].value == pools.SlotOf(b).lastSignal
      && pools.SlotOf(b).lastSignal == pools.SlotOf(b).completed + 1
  }

  ghost predicate SignalsUnique(queues: Queues) {
    forall q: QueueId, j: nat, p: QueueId, k: nat, b: Buffer ::
      SignalAt(queues, q, j, b) && SignalAt(queues, p, k, b) ==> q == p && j == k
  }

  ghost predicate Signalling(queues: Queues, b: Buffer) {
    exists q: QueueId, j: nat :: SignalAt(queues, q, j, b)
  }

  /** Every unfinished fence has its signal queued, so draining the queues frees its buffer. */
  ghost predicate SignalsComing(pools: Pools, queues: Queues) {
    forall b: Buffer :: pools.Valid(b) && pools.SlotOf(b).completed != pools.SlotOf(b).lastSignal ==>
      Signalling(queues, b)
  }

  ghost predicate JobFor(pools: Pools, jobs: seq<Job>, q: QueueId, b: Buffer) {
    exists n: nat :: n < |jobs| && jobs[n].queue == q && jobs[n].kind == b.kind && pools.Owns(jobs[n].list, b)
  }

  ghost predicate LaterSignal(queues: Queues, q: QueueId, j: nat, b: Buffer) {
    exists k: nat :: j < k && SignalAt(queues, q, k, b)
  }

  /** Queued work is followed by the signal of each buffer it uses, queued or about to be. */
  ghost predicate WorkCovered(pools: Pools, queues: Queues, jobs: seq<Job>) {
    forall q: QueueId, j: nat, b: Buffer :: WorkAt(queues, q, j, b) ==>
      LaterSignal(queues, q, j, b) || JobFor(pools, jobs, q, b)
  }

  /** An unexecuted recording owns every buffer it refers to. */
  ghost predicate RecordedOwned(s: State) {
    forall cl: Key, b: Buffer :: b in s.RecordedBy(cl) && cl !in s.submitted ==> s.pools.Owns(cl, b)
  }

  ghost predicate JobsCurrent(s: State) {
    forall n: nat :: n < |s.jobs| ==> s.jobs[n].list in s.submitted && s.jobs[n].queue == s.jobs[0].queue
  }

  ghost predicate Inv(s: State) {
    && PoolsExact(s.pools)
    && SignalsLast(s.pools, s.queues)
    && SignalsUnique(s.queues)
    && SignalsComing(s.pools, s.queues)
    && WorkCovered(s.pools, s.queues, s.jobs)
    && RecordedOwned(s)
    && JobsCurrent(s)
  }

  // ---------------------------------------------------------------------------------------------
  // Acquisition

  /** Slot i was free or is new, and now belongs to cl. */
  ghost predicate Gains(p: Pool, after: Pool, cl: Key, i: nat) {
    && |p.slots| <= |after.slots| <= |p.slots| + 1 && i < |after.slots|
    && (|after.slots| == |p.slots| + 1 ==> i == |p.slots|)
    && (i < |p.slots| ==> p.slots[i].Free())
    && after.slots[i].waiting && after.slots[i].completed == after.slots[i].lastSignal
    && (forall j: nat :: j < |p.slots| && j != i ==> after.slots[j] == p.slots[j])
    && (forall other: Key :: after.OwnedBy(other) == if other == cl then p.OwnedBy(cl) + [i] else p.OwnedBy(other))
  }

  lemma BestFitGains(p: Pool, cl: Key, size: nat, grown: nat)
    ensures var (after, i) := p.TakeBestFit(cl, size, grown); Gains(p, after, cl, i)
  {
    SmallestFittingIsBest(p.slots, size, |p.slots|);
    LargestNotFittingIsBest(p.slots, size, |p.slots|);
  }

  lemma PerListGains(p: Pool, cl: Key)
    ensures var (after, i) := p.TakePerList(cl); Gains(p, after, cl, i) || (after == p && p.Owns(cl, i))
  {
  }

  lemma FixedGains(p: Pool, cl: Key)
    requires p.TakeFixed(cl).Some?
    ensures var (after, i) := p.TakeFixed(cl).value; Gains(p, after, cl, i)
  {
  }

  lemma GainsOwners(p: Pool, after: Pool, cl: Key, i: nat)
    requires PoolExact(p) && Gains(p, after, cl, i)
    ensures forall other: Key, k: nat :: after.Owns(other, k) <==> p.Owns(other, k) || (other == cl && k == i)
    ensures forall other: Key :: !p.Owns(other, i) && DistinctIndices(after.OwnedBy(other))
  {
    forall other: Key ensures !p.Owns(other, i) {
      assert i < |p.slots| ==> !p.slots[i].waiting;
    }
    var own := p.OwnedBy(cl);
    assert after.OwnedBy(cl) == own + [i];
    assert !p.Owns(cl, i) && DistinctIndices(own);
    assert (own + [i])[|own|] == i;
  }

  lemma GainsExact(p: Pool, after: Pool, cl: Key, i: nat)
    requires PoolExact(p) && Gains(p, after, cl, i)
    ensures PoolExact(after)
    ensures after.Owns(cl, i) && forall other: Key, k: nat :: p.Owns(other, k) ==> after.Owns(other, k)
  {
    GainsOwners(p, after, cl, i);
    forall j: nat | j < |after.slots| && after.slots[j].waiting
      ensures after.slots[j].completed == after.slots[j].lastSignal && exists other: Key :: after.Owns(other, j)
    {
      if j == i {
        assert after.Owns(cl, j);
      } else {
        var other: Key :| p.Owns(other, j);
        assert after.Owns(other, j);
      }
    }
  }

  /** One action that puts buffer b of list cl into a pool, seen from the whole state. */
  ghost predicate Acquires(s: State, t: State, cl: Key, b: Buffer) {
    && t.queues == s.queues && t.submitted == s.submitted && t.jobs == s.jobs == []
    && t.recorded == s.recorded[cl := s.RecordedBy(cl) + {b}]
    && (forall kind: Kind :: kind != b.kind ==> t.pools.Get(kind) == s.pools.Get(kind))
    && var p, after := s.pools.Get(b.kind), t.pools.Get(b.kind);
    Gains(p, after, cl, b.index) || (after == p && p.Owns(cl, b.index))
  }

  lemma TakeAcquires(s: State, a: Action)
    requires Possible(s, a) && a.Takes()
    ensures Acquires(s, Next(s, a), a.list, Taking(s, a).1)
  {
    match a
    case TakeBestFit(cl, size, grown) => BestFitGains(s.pools.patch, cl, size, grown);
    case TakePerList(cl) => PerListGains(s.pools.mapping, cl);
    case TakeFixed(cl, kind) => FixedGains(s.pools.Get(kind), cl);
  }

  lemma AcquirePools(s: State, t: State, cl: Key, b: Buffer)
    requires Inv(s) && Acquires(s, t, cl, b)
    ensures PoolsExact(t.pools)
    ensures forall other: Key, c: Buffer :: s.pools.Owns(other, c) ==> t.pools.Owns(other, c)
    ensures t.pools.Owns(cl, b)
    ensures forall c: Buffer :: s.pools.Valid(c) && !s.pools.SlotOf(c).Free() ==>
              t.pools.Valid(c) && t.pools.SlotOf(c) == s.pools.SlotOf(c)
    ensures forall c: Buffer :: t.pools.Valid(c) && t.pools.SlotOf(c).completed != t.pools.SlotOf(c).lastSignal ==>
              s.pools.Valid(c) && t.pools.SlotOf(c) == s.pools.SlotOf(c)
  {
    var p, after := s.pools.Get(b.kind), t.pools.Get(b.kind);
    assert PoolExact(p);
    if Gains(p, after, cl, b.index) {
      GainsExact(p, after, cl, b.index);
    }
    forall kind: Kind ensures PoolExact(t.pools.Get(kind)) {
      if kind != b.kind {
        assert PoolExact(s.pools.Get(kind));
      }
    }
  }

  lemma AcquireKeeps(s: State, t: State, cl: Key, b: Buffer)
    requires Inv(s) && Acquires(s, t, cl, b) && cl !in s.submitted
    ensures Inv(t)
  {
    AcquirePools(s, t, cl, b);
    hide PoolsExact;
    forall q: QueueId, j: nat, c: Buffer | SignalAt(t.queues, q, j, c)
      ensures t.pools.Valid(c) && t.pools.SlotOf(c) == s.pools.SlotOf(c)
    {
      assert SignalAt(s.queues, q, j, c);
    }
    forall other: Key, c: Buffer | c in t.RecordedBy(other) && other !in t.submitted ensures t.pools.Owns(other, c) {
      if other != cl || c != b {
        assert c in s.RecordedBy(other);
      }
    }
  }

  // ---------------------------------------------------------------------------------------------
  // Submission

  lemma {:induction false} JobsAt(q: QueueId, lists: seq<Key>)
    ensures forall n: nat :: n < |Jobs(q, lists)| ==> Jobs(q, lists)[n].queue == q && Jobs(q, lists)[n].list in lists
    ensures forall i: nat, kind: Kind :: i < |lists| ==> Job(q, kind, lists[i]) in Jobs(q, lists)
  {
    if lists != [] {
      JobsAt(q, lists[1..]);
      var head, rest := Jobs(q, lists)[..4], Jobs(q, lists[1..]);
      assert Jobs(q, lists) == head + rest;
      forall i: nat, kind: Kind | i < |lists| ensures Job(q, kind, lists[i]) in Jobs(q, lists) {
        if i > 0 {
          assert lists[i] == lists[1..][i - 1];
          assert Job(q, kind, lists[i]) in rest;
        } else {
          assert Job(q, kind, lists[0]) == head[match kind case Mapping => 0 case Patch => 1 case InstancePatch => 2 case InstanceStaging => 3];
        }
      }
    }
  }

  /** Work at the end of queue q: the signals stay, and only the new entry is new work. */
  lemma WorkAppended(queues: Queues, q: QueueId, buffers: set<Buffer>)
    ensures var after := Append(queues, q, [Work(buffers)]);
      && (forall p: QueueId, j: nat, b: Buffer :: SignalAt(after, p, j, b) <==> SignalAt(queues, p, j, b))
      && (forall p: QueueId, j: nat, b: Buffer :: SignalAt(queues, p, j, b) ==> Lane(after, p)[j] == Lane(queues, p)[j])
      && (forall p: QueueId, j: nat, b: Buffer :: WorkAt(after, p, j, b) ==> WorkAt(queues, p, j, b) || (p == q && b in buffers))
  {
    AppendAt(queues, q, [Work(buffers)]);
    hide Append, Lane;
  }

  lemma NewWorkCovered(s: State, t: State, q: QueueId, lists: seq<Key>, b: Buffer)
    requires Inv(s) && Allowed(s, Execute(q, lists)) && t == Next(s, Execute(q, lists)) && b in AllRecorded(s, lists)
    ensures JobFor(t.pools, t.jobs, q, b)
  {
    hide PoolsExact, SignalsLast, SignalsUnique, SignalsComing, WorkCovered, JobsCurrent, Append;
    JobsAt(q, lists);
    var i: nat :| i < |lists| && b in s.RecordedBy(lists[i]);
    assert s.pools.Owns(lists[i], b);
    assert Job(q, b.kind, lists[i]) in t.jobs;
  }

  lemma ExecuteJobs(s: State, q: QueueId, lists: seq<Key>)
    requires Inv(s) && Allowed(s, Execute(q, lists))
    ensures RecordedOwned(Next(s, Execute(q, lists))) && JobsCurrent(Next(s, Execute(q, lists)))
  {
    hide PoolsExact, SignalsLast, SignalsUnique, SignalsComing, WorkCovered, Append;
    JobsAt(q, lists);
  }

  lemma ExecuteKeeps(s: State, q: QueueId, lists: seq<Key>)
    requires Inv(s) && Allowed(s, Execute(q, lists))
    ensures Inv(Next(s, Execute(q, lists)))
  {
    hide Append, SignalAt, WorkAt, PoolsExact, RecordedOwned, JobsCurrent;
    var t := Next(s, Execute(q, lists));
    ExecuteJobs(s, q, lists);
    WorkAppended(s.queues, q, AllRecorded(s, lists));
    forall p: QueueId, j: nat, b: Buffer | WorkAt(t.queues, p, j, b)
      ensures LaterSignal(t.queues, p, j, b) || JobFor(t.pools, t.jobs, p, b)
    {
      if WorkAt(s.queues, p, j, b) {
        var k: nat :| j < k && SignalAt(s.queues, p, k, b);
        assert SignalAt(t.queues, p, k, b);
      } else {
        NewWorkCovered(s, t, q, lists, b);
      }
    }
    forall b: Buffer | Signalling(s.queues, b) ensures Signalling(t.queues, b) {
      var p: QueueId, j: nat :| SignalAt(s.queues, p, j, b);
      assert SignalAt(t.queues, p, j, b);
    }
  }

  /** Appending keeps every entry where it was. */
  lemma AppendAt(queues: Queues, q: QueueId, entries: seq<Entry>)
    ensures var after := Append(queues, q, entries);
      && Lane(after, q) == Lane(queues, q) + entries
      && forall p: QueueId :: p != q ==> Lane(after, p) == Lane(queues, p)
  {
  }

  /** What enqueuing the signals of one list does to a pool: every owned slot has one more signal to
      wait for, and its owner is forgotten. */
  ghost predicate Settles(p: Pool, after: Pool, cl: Key) {
    && |after.slots| == |p.slots|
    && (forall i: nat :: i < |p.slots| ==>
          after.slots[i] == if p.Owns(cl, i) then p.slots[i].(lastSignal := p.slots[i].lastSignal + 1, waiting := false)
                            else p.slots[i])
    && (forall other: Key :: after.OwnedBy(other) == if other == cl then [] else p.OwnedBy(other))
  }

  lemma SettlesExact(p: Pool, after: Pool, cl: Key)
    requires PoolExact(p) && Settles(p, after, cl)
    ensures PoolExact(after)
  {
    forall other: Key, i: nat ensures after.Owns(other, i) <==> other != cl && p.Owns(other, i) {
    }
    forall i: nat | i < |after.slots| && after.slots[i].waiting ensures exists other: Key :: after.Owns(other, i) {
      assert p.slots[i].waiting && !p.Owns(cl, i);
      var other: Key :| p.Owns(other, i);
      assert after.Owns(other, i);
    }
  }

  lemma {:induction false} SignalsEntries(kind: Kind, slots: seq<Slot>, indices: seq<nat>)
    requires forall n: nat :: n < |indices| ==> indices[n] < |slots|
    ensures |Signals(kind, slots, indices)| == |indices|
    ensures forall n: nat :: n < |indices| ==>
              Signals(kind, slots, indices)[n] == Signal(Buffer(kind, indices[n]), slots[indices[n]].lastSignal + 1)
  {
    if indices != [] {
      SignalsEntries(kind, slots, indices[..|indices| - 1]);
    }
  }

  /** A queue after the signals of list cl's buffers in pool p were appended to it. */
  ghost predicate NewEntries(p: Pool, kind: Kind, cl: Key, before: seq<Entry>, now: seq<Entry>) {
    && |now| == |before| + |p.OwnedBy(cl)| && before <= now
    && forall j: nat :: |before| <= j < |now| ==>
         var i := p.OwnedBy(cl)[j - |before|];
         i < |p.slots| && now[j] == Signal(Buffer(kind, i), p.slots[i].lastSignal + 1)
  }

  /** One job, seen from the whole state. */
  ghost predicate Settled(s: State, t: State, job: Job) {
    && s.jobs != [] && s.jobs[0] == job && t.jobs == s.jobs[1..]
    && t.recorded == s.recorded && t.submitted == s.submitted
    && (forall kind: Kind :: kind != job.kind ==> t.pools.Get(kind) == s.pools.Get(kind))
    && Settles(s.pools.Get(job.kind), t.pools.Get(job.kind), job.list)
    && (forall q: QueueId :: q != job.queue ==> Lane(t.queues, q) == Lane(s.queues, q))
    && NewEntries(s.pools.Get(job.kind), job.kind, job.list, Lane(s.queues, job.queue), Lane(t.queues, job.queue))
  }

  lemma SubmitPool(p: Pool, cl: Key)
    requires PoolExact(p)
    ensures Settles(p, p.Submitted(cl), cl)
  {
    SignalledAt(p.slots, p.OwnedBy(cl));
  }

  lemma JobEntries(p: Pool, kind: Kind, cl: Key, before: seq<Entry>)
    requires PoolExact(p)
    ensures NewEntries(p, kind, cl, before, before + Signals(kind, p.slots, p.OwnedBy(cl)))
  {
    var own := p.OwnedBy(cl);
    forall n: nat | n < |own| ensures own[n] < |p.slots| {
      assert p.Owns(cl, own[n]);
    }
    SignalsEntries(kind, p.slots, own);
  }

  lemma SubmitSettles(s: State)
    requires Inv(s) && s.jobs != []
    ensures Settled(s, Next(s, SubmitNext), s.jobs[0])
  {
    var job := s.jobs[0];
    var p := s.pools.Get(job.kind);
    assert PoolExact(p);
    hide Inv, PoolExact, Settles, Signals, NewEntries, Pool.Submitted, Lane;
    SubmitPool(p, job.list);
    JobEntries(p, job.kind, job.list, Lane(s.queues, job.queue));
    AppendAt(s.queues, job.queue, Signals(job.kind, p.slots, p.OwnedBy(job.list)));
  }

  lemma SettledPools(s: State, t: State, job: Job)
    requires PoolsExact(s.pools) && Settled(s, t, job)
    ensures PoolsExact(t.pools)
    ensures forall cl: Key, b: Buffer ::
              t.pools.Owns(cl, b) <==> s.pools.Owns(cl, b) && !(b.kind == job.kind && cl == job.list)
    ensures forall b: Buffer :: t.pools.Valid(b) <==> s.pools.Valid(b)
    ensures forall b: Buffer :: s.pools.Valid(b) ==>
              t.pools.SlotOf(b) ==
                if b.kind == job.kind && s.pools.Owns(job.list, b)
                then s.pools.SlotOf(b).(lastSignal := s.pools.SlotOf(b).lastSignal + 1, waiting := false)
                else s.pools.SlotOf(b)
  {
    forall kind: Kind ensures PoolExact(t.pools.Get(kind)) {
      assert PoolExact(s.pools.Get(kind));
      if kind == job.kind {
        SettlesExact(s.pools.Get(kind), t.pools.Get(kind), job.list);
      }
    }
  }

  /** Entry j of queue q is the new signal for b. */
  ghost predicate NewSignal(s: State, t: State, job: Job, q: QueueId, j: nat, b: Buffer) {
    var own, before := s.pools.Get(job.kind).OwnedBy(job.list), Lane(s.queues, job.queue);
    && q == job.queue && b.kind == job.kind && |before| <= j < |before| + |own| && own[j - |before|] == b.index
    && s.pools.Valid(b) && j < |Lane(t.queues, q)|
    && Lane(t.queues, q)[j] == Signal(b, s.pools.SlotOf(b).lastSignal + 1)
  }

  lemma OldEntry(p: Pool, kind: Kind, cl: Key, before: seq<Entry>, now: seq<Entry>, j: nat)
    requires NewEntries(p, kind, cl, before, now) && j < |before|
    ensures j < |now| && now[j] == before[j]
  {
  }

  /** On the job's own queue. */
  lemma JobSignal(s: State, t: State, job: Job, j: nat, b: Buffer)
    requires Settled(s, t, job)
    ensures SignalAt(t.queues, job.queue, j, b)
            <==> SignalAt(s.queues, job.queue, j, b) || NewSignal(s, t, job, job.queue, j, b)
    ensures SignalAt(s.queues, job.queue, j, b) ==> Lane(t.queues, job.queue)[j] == Lane(s.queues, job.queue)[j]
  {
    hide Settles, Lane, Pool.OwnedBy;
    var before := Lane(s.queues, job.queue);
    if j < |before| {
      OldEntry(s.pools.Get(job.kind), job.kind, job.list, before, Lane(t.queues, job.queue), j);
    }
  }

  lemma OtherSignal(s: State, t: State, job: Job, q: QueueId, j: nat, b: Buffer)
    requires Settled(s, t, job) && q != job.queue
    ensures SignalAt(t.queues, q, j, b) <==> SignalAt(s.queues, q, j, b)
    ensures !NewSignal(s, t, job, q, j, b)
    ensures Lane(t.queues, q) == Lane(s.queues, q)
  {
    hide Settles, NewEntries, Lane;
  }

  /** The queued signals are the old ones and one for each buffer the list owned. */
  lemma SettledSignals(s: State, t: State, job: Job)
    requires Settled(s, t, job)
    ensures forall q: QueueId, j: nat, b: Buffer ::
              SignalAt(t.queues, q, j, b) <==> SignalAt(s.queues, q, j, b) || NewSignal(s, t, job, q, j, b)
    ensures forall q: QueueId, j: nat, b: Buffer :: SignalAt(s.queues, q, j, b) ==>
              Lane(t.queues, q)[j] == Lane(s.queues, q)[j]
  {
    hide Settled, Lane, NewSignal;
    forall q: QueueId, j: nat, b: Buffer
      ensures SignalAt(t.queues, q, j, b) <==> SignalAt(s.queues, q, j, b) || NewSignal(s, t, job, q, j, b)
      ensures SignalAt(s.queues, q, j, b) ==> Lane(t.queues, q)[j] == Lane(s.queues, q)[j]
    {
      if q == job.queue {
        JobSignal(s, t, job, j, b);
      } else {
        OtherSignal(s, t, job, q, j, b);
      }
    }
  }

  lemma SettledWork(s: State, t: State, job: Job)
    requires Settled(s, t, job)
    ensures forall q: QueueId, j: nat, b: Buffer :: WorkAt(t.queues, q, j, b) <==> WorkAt(s.queues, q, j, b)
  {
    hide Settles;
  }

  lemma OwnedSignalled(s: State, t: State, job: Job, b: Buffer)
    requires Settled(s, t, job) && b.kind == job.kind && s.pools.Owns(job.list, b)
    ensures exists j: nat :: NewSignal(s, t, job, job.queue, j, b)
  {
    var own, before := s.pools.Get(job.kind).OwnedBy(job.list), Lane(s.queues, job.queue);
    hide Settles;
    var n: nat :| n < |own| && own[n] == b.index;
    var j := |before| + n;
    assert b == Buffer(job.kind, own[j - |before|]) && Lane(t.queues, job.queue)[j].Signal?;
    assert NewSignal(s, t, job, job.queue, j, b);
  }

  lemma OwnedIdle(pools: Pools, cl: Key, b: Buffer)
    requires PoolsExact(pools) && pools.Owns(cl, b)
    ensures pools.Valid(b) && pools.SlotOf(b).waiting && pools.SlotOf(b).completed == pools.SlotOf(b).lastSignal
  {
    assert PoolExact(pools.Get(b.kind));
  }

  lemma NewSignalOwned(s: State, t: State, job: Job, q: QueueId, j: nat, b: Buffer)
    requires NewSignal(s, t, job, q, j, b)
    ensures b.kind == job.kind && s.pools.Owns(job.list, b)
  {
  }

  lemma NewSignalUnique(s: State, t: State, job: Job, q: QueueId, j: nat, p: QueueId, k: nat, b: Buffer)
    requires PoolsExact(s.pools) && NewSignal(s, t, job, q, j, b) && NewSignal(s, t, job, p, k, b)
    ensures q == p && j == k
  {
    assert PoolExact(s.pools.Get(job.kind));
    var own, before := s.pools.Get(job.kind).OwnedBy(job.list), Lane(s.queues, job.queue);
    assert DistinctIndices(own);
    assert own[j - |before|] == own[k - |before|];
  }

  lemma SettledKeepsLast(s: State, t: State, job: Job)
    requires Inv(s) && Settled(s, t, job)
    ensures SignalsLast(t.pools, t.queues) && SignalsUnique(t.queues)
  {
    SettledPools(s, t, job);
    SettledSignals(s, t, job);
    hide Settled, SignalsComing, WorkCovered, RecordedOwned, JobsCurrent;
    forall q: QueueId, j: nat, b: Buffer | SignalAt(t.queues, q, j, b)
      ensures t.pools.Valid(b) && Lane(t.queues, q)[j].value == t.pools.SlotOf(b).lastSignal
      ensures t.pools.SlotOf(b).lastSignal == t.pools.SlotOf(b).completed + 1
    {
      if SignalAt(s.queues, q, j, b) {
        if b.kind == job.kind && s.pools.Owns(job.list, b) {
          OwnedIdle(s.pools, job.list, b);
        }
      } else {
        NewSignalOwned(s, t, job, q, j, b);
        OwnedIdle(s.pools, job.list, b);
      }
    }
    forall q: QueueId, j: nat, p: QueueId, k: nat, b: Buffer | SignalAt(t.queues, q, j, b) && SignalAt(t.queues, p, k, b)
      ensures q == p && j == k
    {
      if NewSignal(s, t, job, q, j, b) || NewSignal(s, t, job, p, k, b) {
        var r, l := if NewSignal(s, t, job, q, j, b) then (q, j) else (p, k), 0;
        NewSignalOwned(s, t, job, r.0, r.1, b);
        OwnedIdle(s.pools, job.list, b);
        NewSignalUnique(s, t, job, q, j, p, k, b);
      }
    }
  }

  lemma SettledKeepsComing(s: State, t: State, job: Job)
    requires Inv(s) && Settled(s, t, job)
    ensures SignalsComing(t.pools, t.queues)
  {
    SettledPools(s, t, job);
    SettledSignals(s, t, job);
    hide PoolsExact, SignalsLast, SignalsUnique, WorkCovered, RecordedOwned, JobsCurrent;
    forall b: Buffer | t.pools.Valid(b) && t.pools.SlotOf(b).completed != t.pools.SlotOf(b).lastSignal
      ensures Signalling(t.queues, b)
    {
      if b.kind == job.kind && s.pools.Owns(job.list, b) {
        OwnedSignalled(s, t, job, b);
        var j: nat :| NewSignal(s, t, job, job.queue, j, b);
        assert SignalAt(t.queues, job.queue, j, b);
      } else {
        var q: QueueId, j: nat :| SignalAt(s.queues, q, j, b);
        assert SignalAt(t.queues, q, j, b);
      }
    }
  }

  lemma SettledKeepsCover(s: State, t: State, job: Job)
    requires Inv(s) && Settled(s, t, job)
    ensures WorkCovered(t.pools, t.queues, t.jobs)
  {
    SettledPools(s, t, job);
    SettledSignals(s, t, job);
    SettledWork(s, t, job);
    hide PoolsExact, SignalsLast, SignalsUnique, SignalsComing, RecordedOwned;
    forall q: QueueId, j: nat, b: Buffer | WorkAt(t.queues, q, j, b)
      ensures LaterSignal(t.queues, q, j, b) || JobFor(t.pools, t.jobs, q, b)
    {
      if LaterSignal(s.queues, q, j, b) {
        var k: nat :| j < k && SignalAt(s.queues, q, k, b);
        assert SignalAt(t.queues, q, k, b);
      } else {
        var n: nat :| n < |s.jobs| && s.jobs[n].queue == q && s.jobs[n].kind == b.kind && s.pools.Owns(s.jobs[n].list, b);
        if s.jobs[n].kind == job.kind && s.jobs[n].list == job.list {
          OwnedSignalled(s, t, job, b);
          var k: nat :| NewSignal(s, t, job, q, k, b);
          assert SignalAt(t.queues, q, k, b);
        } else {
          assert t.jobs[n - 1] == s.jobs[n];
        }
      }
    }
  }

  lemma SubmitKeeps(s: State)
    requires Inv(s) && s.jobs != []
    ensures Inv(Next(s, SubmitNext))
  {
    var t, job := Next(s, SubmitNext), s.jobs[0];
    SubmitSettles(s);
    SettledPools(s, t, job);
    SettledKeepsLast(s, t, job);
    SettledKeepsComing(s, t, job);
    SettledKeepsCover(s, t, job);
    assert RecordedOwned(t) && JobsCurrent(t) by {
      hide PoolsExact, SignalsLast, SignalsUnique, SignalsComing, WorkCovered;
    }
  }

  // ---------------------------------------------------------------------------------------------
  // Dropping and resetting a list

  /** The slots of a dropped list are no longer waiting; they keep their fences. */
  ghost predicate Frees(p: Pool, after: Pool, cl: Key) {
    && |after.slots| == |p.slots|
    && (forall i: nat :: i < |p.slots| ==>
          after.slots[i] == if p.Owns(cl, i) then p.slots[i].(waiting := false) else p.slots[i])
    && (forall other: Key :: after.OwnedBy(other) == if other == cl then [] else p.OwnedBy(other))
  }

  lemma DropFrees(p: Pool, cl: Key)
    ensures Frees(p, p.Dropped(cl), cl)
  {
    UnwaitedAt(p.slots, p.OwnedBy(cl));
  }

  lemma FreesExact(p: Pool, after: Pool, cl: Key)
    requires PoolExact(p) && Frees(p, after, cl)
    ensures PoolExact(after)
  {
    forall other: Key, i: nat ensures after.Owns(other, i) <==> other != cl && p.Owns(other, i) {
    }
    forall i: nat | i < |after.slots| && after.slots[i].waiting ensures exists other: Key :: after.Owns(other, i) {
      assert p.slots[i].waiting && !p.Owns(cl, i);
      var other: Key :| p.Owns(other, i);
      assert after.Owns(other, i);
    }
  }

  lemma DropKeeps(s: State, cl: Key)
    requires Inv(s) && s.jobs == []
    ensures Inv(Next(s, Drop(cl)))
  {
    var t := Next(s, Drop(cl));
    forall kind: Kind ensures Frees(s.pools.Get(kind), t.pools.Get(kind), cl) && PoolExact(t.pools.Get(kind)) {
      DropFrees(s.pools.Get(kind), cl);
      assert PoolExact(s.pools.Get(kind));
      FreesExact(s.pools.Get(kind), t.pools.Get(kind), cl);
    }
    forall b: Buffer
      ensures t.pools.Valid(b) <==> s.pools.Valid(b)
      ensures s.pools.Valid(b) ==> t.pools.SlotOf(b).completed == s.pools.SlotOf(b).completed
                                   && t.pools.SlotOf(b).lastSignal == s.pools.SlotOf(b).lastSignal
      ensures forall other: Key :: other != cl ==> (t.pools.Owns(other, b) <==> s.pools.Owns(other, b))
    {
      assert Frees(s.pools.Get(b.kind), t.pools.Get(b.kind), cl);
    }
    DropKeepsRest(s, t, cl);
  }

  lemma DropKeepsRest(s: State, t: State, cl: Key)
    requires Inv(s) && s.jobs == t.jobs == [] && t.queues == s.queues && PoolsExact(t.pools)
    requires t.recorded == s.recorded - {cl} && t.submitted == s.submitted - {cl}
    requires forall b: Buffer :: t.pools.Valid(b) <==> s.pools.Valid(b)
    requires forall b: Buffer :: s.pools.Valid(b) ==>
               t.pools.SlotOf(b).completed == s.pools.SlotOf(b).completed
               && t.pools.SlotOf(b).lastSignal == s.pools.SlotOf(b).lastSignal
    requires forall b: Buffer, other: Key :: other != cl ==> (t.pools.Owns(other, b) <==> s.pools.Owns(other, b))
    ensures Inv(t)
  {
    hide PoolsExact;
    forall other: Key, b: Buffer | b in t.RecordedBy(other) && other !in t.submitted ensures t.pools.Owns(other, b) {
      assert b in s.RecordedBy(other);
    }
  }

  lemma ResetKeeps(s: State, cl: Key)
    requires Inv(s) && s.jobs == []
    ensures Inv(Next(s, Reset(cl)))
  {
    DropKeepsRest(s, Next(s, Reset(cl)), cl);
  }

  // ---------------------------------------------------------------------------------------------
  // The GPU

  function Shift(q: QueueId, p: QueueId, j: nat): nat {
    if p == q then j + 1 else j
  }

  /** The head of queue q is gone; everything else is where it was, one place further on in q. */
  ghost predicate Popped(queues: Queues, after: Queues, q: QueueId) {
    && Lane(queues, q) != [] && Lane(after, q) == Lane(queues, q)[1..]
    && forall p: QueueId :: p != q ==> Lane(after, p) == Lane(queues, p)
  }

  lemma PoppedSignals(queues: Queues, after: Queues, q: QueueId)
    requires Popped(queues, after, q)
    ensures forall p: QueueId, j: nat, b: Buffer ::
              SignalAt(after, p, j, b) <==> SignalAt(queues, p, Shift(q, p, j), b)
    ensures forall p: QueueId, j: nat, b: Buffer :: SignalAt(after, p, j, b) ==>
              Lane(after, p)[j] == Lane(queues, p)[Shift(q, p, j)]
    ensures forall p: QueueId, j: nat, b: Buffer :: WorkAt(after, p, j, b) <==> WorkAt(queues, p, Shift(q, p, j), b)
  {
  }

  lemma PoppedKeepsWork(s: State, t: State, q: QueueId)
    requires Inv(s) && Popped(s.queues, t.queues, q) && t.jobs == s.jobs
    requires forall cl: Key, b: Buffer :: t.pools.Owns(cl, b) <==> s.pools.Owns(cl, b)
    ensures WorkCovered(t.pools, t.queues, t.jobs) && SignalsUnique(t.queues)
  {
    PoppedSignals(s.queues, t.queues, q);
    hide PoolsExact, SignalsLast, SignalsComing, Popped;
    forall p: QueueId, j: nat, b: Buffer | WorkAt(t.queues, p, j, b)
      ensures LaterSignal(t.queues, p, j, b) || JobFor(t.pools, t.jobs, p, b)
    {
      var i := Shift(q, p, j);
      assert WorkAt(s.queues, p, i, b);
      if LaterSignal(s.queues, p, i, b) {
        var k: nat :| i < k && SignalAt(s.queues, p, k, b);
        var l: nat := if p == q then k - 1 else k;
        assert Shift(q, p, l) == k;
        assert SignalAt(t.queues, p, l, b);
      }
    }
    forall p: QueueId, j: nat, r: QueueId, k: nat, b: Buffer | SignalAt(t.queues, p, j, b) && SignalAt(t.queues, r, k, b)
      ensures p == r && j == k
    {
      assert SignalAt(s.queues, p, Shift(q, p, j), b) && SignalAt(s.queues, r, Shift(q, r, k), b);
    }
  }

  lemma WorkPopKeeps(s: State, q: QueueId)
    requires Inv(s) && Lane(s.queues, q) != [] && Lane(s.queues, q)[0].Work?
    ensures Inv(Next(s, Gpu(q)))
  {
    var t := Next(s, Gpu(q));
    PoppedKeepsWork(s, t, q);
    PoppedSignals(s.queues, t.queues, q);
    hide PoolsExact, WorkCovered, SignalsUnique, Popped;
    forall b: Buffer | t.pools.Valid(b) && t.pools.SlotOf(b).completed != t.pools.SlotOf(b).lastSignal
      ensures Signalling(t.queues, b)
    {
      var p: QueueId, j: nat :| SignalAt(s.queues, p, j, b);
      KeptSignal(s.queues, t.queues, q, p, j, b);
    }
  }

  lemma KeptSignal(queues: Queues, after: Queues, q: QueueId, p: QueueId, j: nat, b: Buffer)
    requires Popped(queues, after, q) && SignalAt(queues, p, j, b) && (p == q ==> j > 0)
    ensures Signalling(after, b)
  {
    PoppedSignals(queues, after, q);
    var i: nat := if p == q then j - 1 else j;
    assert Shift(q, p, i) == j;
    assert SignalAt(after, p, i, b);
  }

  lemma ReachedExact(p: Pool, i: nat)
    requires PoolExact(p) && i < |p.slots| && p.slots[i].lastSignal == p.slots[i].completed + 1
    ensures PoolExact(Reached(p, i, p.slots[i].lastSignal))
    ensures forall cl: Key, k: nat :: Reached(p, i, p.slots[i].lastSignal).Owns(cl, k) <==> p.Owns(cl, k)
  {
    var after := Reached(p, i, p.slots[i].lastSignal);
    forall cl: Key ensures after.OwnedBy(cl) == p.OwnedBy(cl) {
    }
    forall cl: Key, k: nat ensures after.Owns(cl, k) <==> p.Owns(cl, k) {
    }
    forall k: nat | k < |after.slots| && after.slots[k].waiting ensures exists cl: Key :: after.Owns(cl, k) {
      assert p.slots[k].waiting;
      var cl: Key :| p.Owns(cl, k);
      assert after.Owns(cl, k);
    }
  }

  lemma SignalPopPools(s: State, t: State, q: QueueId, b: Buffer)
    requires Inv(s) && SignalAt(s.queues, q, 0, b)
    requires t == Next(s, Gpu(q))
    ensures PoolsExact(t.pools)
    ensures forall cl: Key, c: Buffer :: t.pools.Owns(cl, c) <==> s.pools.Owns(cl, c)
    ensures forall c: Buffer :: t.pools.Valid(c) <==> s.pools.Valid(c)
    ensures forall c: Buffer :: s.pools.Valid(c) ==>
              t.pools.SlotOf(c) ==
                if c == b then s.pools.SlotOf(c).(completed := s.pools.SlotOf(c).lastSignal) else s.pools.SlotOf(c)
  {
    var p, after := s.pools.Get(b.kind), t.pools.Get(b.kind);
    assert PoolExact(p);
    assert after == Reached(p, b.index, p.slots[b.index].lastSignal);
    ReachedExact(p, b.index);
    forall kind: Kind ensures PoolExact(t.pools.Get(kind)) {
      assert kind != b.kind ==> PoolExact(s.pools.Get(kind));
    }
  }

  lemma SignalPopKeeps(s: State, q: QueueId)
    requires Inv(s) && Lane(s.queues, q) != [] && Lane(s.queues, q)[0].Signal?
    ensures Inv(Next(s, Gpu(q)))
  {
    var t, b := Next(s, Gpu(q)), Lane(s.queues, q)[0].buffer;
    assert SignalAt(s.queues, q, 0, b);
    SignalPopPools(s, t, q, b);
    PoppedKeepsWork(s, t, q);
    PoppedSignals(s.queues, t.queues, q);
    hide PoolsExact, WorkCovered, Popped;
    forall c: Buffer | t.pools.Valid(c) && t.pools.SlotOf(c).completed != t.pools.SlotOf(c).lastSignal
      ensures Signalling(t.queues, c)
    {
      var p: QueueId, j: nat :| SignalAt(s.queues, p, j, c);
      KeptSignal(s.queues, t.queues, q, p, j, c);
    }
    forall p: QueueId, j: nat ensures !SignalAt(t.queues, p, j, b) {
      assert SignalAt(t.queues, p, j, b) <==> SignalAt(s.queues, p, Shift(q, p, j), b);
    }
  }

  // ---------------------------------------------------------------------------------------------

  lemma NextKeeps(s: State, a: Action)
    requires Inv(s) && Allowed(s, a)
    ensures Inv(Next(s, a))
  {
    hide Inv, Next, Acquires;
    match a
    case Execute(q, lists) => ExecuteKeeps(s, q, lists);
    case SubmitNext => SubmitKeeps(s);
    case Drop(cl) => DropKeeps(s, cl);
    case Reset(cl) => ResetKeeps(s, cl);
    case Gpu(q) =>
      if Lane(s.queues, q)[0].Work? {
        WorkPopKeeps(s, q);
      } else {
        SignalPopKeeps(s, q);
      }
    case _ =>
      TakeAcquires(s, a);
      AcquireKeeps(s, Next(s, a), a.list, Taking(s, a).1);
  }

  lemma InitSound(mapping: nat, patch: nat, size: nat, instances: nat, staging: nat)
    ensures Inv(Init(mapping, patch, size, instances, staging))
  {
  }

  lemma {:induction false} RunKeeps(s: State, actions: seq<Action>)
    requires Inv(s) && Run(s, actions)
    ensures Inv(After(s, actions))
    decreases |actions|
  {
    hide Inv, Next;
    if actions != [] {
      NextKeeps(s, actions[0]);
      RunKeeps(Next(s, actions[0]), actions[1..]);
    }
  }
}
