/** What holds of asynchronous replay for every recorded stream, every number of workers and every
    schedule. */
module AsyncReplayTheorems {
  import opened ReplayCommands
  import opened CreationService
  import opened AsyncReplay
  import opened AsyncReplayInvariant
  import opened AsyncReplayMakers
  import opened AsyncReplayMain
  import opened AsyncReplayCommands
  import opened AsyncReplayBegin

  ghost predicate Reachable(commands: seq<Command>, failing: set<Key>, workers: nat, s: State) {
    exists schedule :: Reaches(Init(commands, failing, workers), schedule, s)
  }

  lemma InitSound(commands: seq<Command>, failing: set<Key>, workers: nat)
    requires Recorded(commands)
    ensures Inv(Init(commands, failing, workers))
  {
    assert commands[..0] == [];
  }

  lemma StepKeeps(s: State, step: Step)
    requires Inv(s) && Enabled(s, step)
    ensures Inv(Next(s, step))
  {
    hide Inv;
    match step
    case Pop(w) => KeepPop(s, w);
    case Run(m) => KeepRun(s, m);
    case Take(m) => KeepTake(s, m);
    case Deliver(w) => KeepDeliver(s, w);
    case Begin => KeepBegin(s);
    case Collect => KeepCollect(s);
    case Arrive => KeepArrive(s);
    case Resume => KeepResume(s);
    case Consume => KeepConsume(s);
    case FinishRelease => KeepFinishRelease(s);
    case Flush(k) => KeepFlush(s, k);
    case FinishFlush => KeepFinishFlush(s);
  }

  lemma {:induction false} SchedulesKeep(s: State, schedule: seq<Step>, t: State)
    requires Inv(s) && Reaches(s, schedule, t)
    ensures Inv(t)
    decreases |schedule|
  {
    hide Inv, Enabled, Next;
    if schedule != [] {
      StepKeeps(s, schedule[0]);
      SchedulesKeep(Next(s, schedule[0]), schedule[1..], t);
    }
  }

  /** A step leaves the inputs alone, and only scheduling a creation records providers. */
  ghost predicate Fixes(s: State, u: State, scheduling: bool) {
    && u.commands == s.commands && u.failing == s.failing && s.at <= u.at <= s.at + 1
    && (if scheduling && s.at < |s.commands| && s.commands[s.at].CreateLater? then
          && u.at == s.at + 1
          && u.providers == s.providers[s.commands[s.at].key := NonNull(s.commands[s.at].providers)]
        else u.providers == s.providers)
  }

  lemma ArrivedFixes(s: State, k: Key, out: Output, after: After)
    ensures var u := Arrived(s, k, out, after);
      u.commands == s.commands && u.failing == s.failing && u.at == s.at && u.providers == s.providers
  {
  }

  lemma StartFixes(s: State, k: Key, after: After)
    requires k in s.service.tasks
    ensures var u := StartComplete(s, k, after);
      u.commands == s.commands && u.failing == s.failing && u.at == s.at && u.providers == s.providers
  {
    hide Service.Detach;
  }

  lemma CompleteFixes(s: State, k: Key)
    ensures var u := CompleteObject(s, k);
      u.commands == s.commands && u.failing == s.failing && u.at == s.at && u.providers == s.providers
  {
    hide AddOne, StartComplete;
    if k in s.service.tasks {
      StartFixes(s, k, Materialise);
    }
  }

  lemma BeginFixes(s: State)
    requires Enabled(s, Begin)
    ensures Fixes(s, BeginCommand(s, s.commands[s.at]), true)
  {
    hide CompleteObject;
    var c := s.commands[s.at];
    if c.Keyed() {
      CompleteFixes(s, c.key);
    }
  }

  lemma StepFixes(s: State, step: Step)
    requires Enabled(s, step)
    ensures Fixes(s, Next(s, step), step.Begin?)
  {
    hide Arrived, BeginCommand;
    match step
    case Begin => BeginFixes(s);
    case Collect =>
      ArrivedFixes(s.(promises := s.promises - {s.main.key}), s.main.key, s.promises[s.main.key], s.main.after);
    case Arrive =>
      ArrivedFixes(s.(makers := s.makers[0 := Idle]), s.main.key, s.makers[0].phase.Result(), s.main.after);
    case _ =>
  }

  lemma {:induction false} InputsFixed(s: State, schedule: seq<Step>, t: State)
    requires Reaches(s, schedule, t)
    ensures t.commands == s.commands && t.failing == s.failing
    decreases |schedule|
  {
    hide Enabled, Next;
    if schedule != [] {
      StepFixes(s, schedule[0]);
      InputsFixed(Next(s, schedule[0]), schedule[1..], t);
    }
  }

  lemma ReachableSound(commands: seq<Command>, failing: set<Key>, workers: nat, s: State)
    requires Recorded(commands) && Reachable(commands, failing, workers, s)
    ensures Inv(s) && s.commands == commands && s.failing == failing
  {
    hide Inv;
    var schedule :| Reaches(Init(commands, failing, workers), schedule, s);
    InitSound(commands, failing, workers);
    SchedulesKeep(Init(commands, failing, workers), schedule, s);
    InputsFixed(Init(commands, failing, workers), schedule, s);
  }

  /** The count synchronous replay has after the commands finished so far. */
  function SyncNow(s: State): map<Key, int>
    requires s.at <= |s.commands|
  {
    SyncRun(s.commands[..s.at], s.failing)
  }

  /** Refinement: whatever the workers do, a materialised object has the count synchronous replay
      gives it, a deferred one will get it, one finished early already carries it, and no object
      synchronous replay has is ever lost. */
  lemma ReplayMatchesSynchronousReplay(commands: seq<Command>, failing: set<Key>, workers: nat, s: State)
    requires Recorded(commands) && Reachable(commands, failing, workers, s)
    ensures s.at <= |s.commands| && s.commands == commands && s.failing == failing
    ensures forall k :: k in s.objects ==> k in SyncNow(s) && s.objects[k] == SyncNow(s)[k]
    ensures forall k :: k in SyncNow(s) ==> k in s.objects || Outstanding(s, k)
    ensures forall k :: s.service.Pending(k) && k !in failing ==>
              k in SyncNow(s) && SyncNow(s)[k] == AppliedCount(s.service.Deferred(k))
    ensures forall k :: k in s.preCollected && k !in failing ==>
              k in SyncNow(s) && s.preCollected[k] == Made(SyncNow(s)[k])
  {
    ReachableSound(commands, failing, workers, s);
    RecordedPrefix(s.commands, s.at);
    SyncHoldsRecordedCounts(s.commands[..s.at], s.failing);
    CapFacts(s);
    SyncFromCounts(s, SyncNow(s), Cap(s));
  }

  lemma SyncFromCounts(s: State, sync: map<Key, int>, cap: Capture)
    requires Sound(s, cap)
    requires sync.Keys == cap.counts.Keys - s.failing
    requires forall k :: k in sync ==> sync[k] == cap.counts[k]
    requires forall k :: k in cap.counts ==> cap.counts[k] > 0
    ensures forall k :: k in s.objects ==> k in sync && s.objects[k] == sync[k]
    ensures forall k :: k in sync ==> k in s.objects || Outstanding(s, k)
    ensures forall k :: s.service.Pending(k) && k !in s.failing ==>
              k in sync && sync[k] == AppliedCount(s.service.Deferred(k))
    ensures forall k :: k in s.preCollected && k !in s.failing ==> k in sync && s.preCollected[k] == Made(sync[k])
  {
    hide PlacesDisjoint, Settled, QueueExact, WorkersExact, RunOnce, ProvidersAlive;
    forall k ensures k in sync <==> k in cap.counts && k !in s.failing {
      assert k in sync <==> k in sync.Keys;
      assert k in cap.counts <==> k in cap.counts.Keys;
    }
  }

  /** A count update of an object nobody has started to create: deferred instead of run. */
  predicate Deferrable(s: State, c: Command) {
    (c.AddRef? || (c.Release? && c.captured != 0)) && s.service.Pending(c.key)
  }

  /** Finishing a command: it is deferred, or it runs on an object that is there exactly when
      synchronous replay has it. */
  ghost predicate Finished(s: State, t: State, c: Command, sync: map<Key, int>)
    requires c.Keyed()
  {
    if Deferrable(s, c) then t.objects == s.objects && t.service == s.service.Defer(c.key, if c.AddRef? then 1 else -1)
    else
      && t.objects == RunDirect(s.objects, c) && t.service == s.service
      && (c.key in s.objects <==> c.key in sync)
      && (c.key in s.objects ==> s.objects[c.key] == sync[c.key])
  }

  /** Which steps finish a command on an object. */
  lemma FinishingSteps(s: State, step: Step)
    requires Inv(s) && Enabled(s, step) && Next(s, step).at == s.at + 1
    requires s.at < |s.commands| && s.commands[s.at].Keyed()
    ensures var c, t := s.commands[s.at], Next(s, step);
      if Deferrable(s, c) then t.objects == s.objects && t.service == s.service.Defer(c.key, if c.AddRef? then 1 else -1)
      else t.objects == RunDirect(s.objects, c) && t.service == s.service && (c.key in s.objects || !Outstanding(s, c.key))
  {
    hide RunDirect, Outstanding, CaptureOf, Recorded, Sound, Service.Defer, BeginCommand, Arrived, StartComplete, AddAll;
    var c := s.commands[s.at];
    match step
    case Begin => BeginFinishes(s, c);
    case Resume => SettledNow(s, c.key);
    case FinishRelease => SettledNow(s, c.key);
    case Collect => CollectShape(s);
    case Arrive => ArriveShape(s);
    case Consume =>
      if s.main.consumers[0] in s.service.tasks {
        StartFixes(s, s.main.consumers[0], NextConsumer(s.main.consumers[1..]));
      }
    case _ =>
  }

  lemma SettledNow(s: State, k: Key)
    requires Sound(s, Cap(s)) && Current(s, k) && (s.main.Completed? || s.main.Releasing?)
    ensures !Outstanding(s, k) && !s.service.Pending(k)
  {
    NotOutstanding(s, k);
  }

  /** Only count updates are finished by the step that begins them. */
  lemma BeginFinishes(s: State, c: Command)
    requires Inv(s) && s.main.Ready? && c.Keyed() && BeginCommand(s, c).at == s.at + 1
    ensures var t := BeginCommand(s, c);
      if Deferrable(s, c) then t.objects == s.objects && t.service == s.service.Defer(c.key, if c.AddRef? then 1 else -1)
      else t.objects == RunDirect(s.objects, c) && t.service == s.service && c.key in s.objects
  {
    hide CompleteObject, CountUpdate, RunDirect, Service.Defer, Inv;
    CompleteFixes(s, c.key);
    if c.AddRef? || (c.Release? && c.captured != 0) {
      CountUpdateFinishes(s, c);
    }
  }

  lemma CountUpdateFinishes(s: State, c: Command)
    requires Inv(s) && s.main.Ready? && (c.AddRef? || (c.Release? && c.captured != 0))
    requires CountUpdate(s, c, if c.AddRef? then 1 else -1).at == s.at + 1
    ensures var t := CountUpdate(s, c, if c.AddRef? then 1 else -1);
      if Deferrable(s, c) then t.objects == s.objects && t.service == s.service.Defer(c.key, if c.AddRef? then 1 else -1)
      else t.objects == RunDirect(s.objects, c) && t.service == s.service && c.key in s.objects
  {
    hide CompleteObject, RunDirect, Service.Defer, Sound;
    CompleteFixes(s, c.key);
    NotBoth(s, c.key, Cap(s));
  }

  /** No command runs before its object: whatever the schedule, a command that is not deferred finds
      the object materialised, with the count synchronous replay has, exactly when synchronous replay
      has the object. */
  lemma CommandsFindTheirObjects(commands: seq<Command>, failing: set<Key>, workers: nat, s: State, step: Step)
    requires Recorded(commands) && Reachable(commands, failing, workers, s) && Enabled(s, step)
    requires s.at < |commands| && Next(s, step).at == s.at + 1 && commands[s.at].Keyed()
    ensures Finished(s, Next(s, step), commands[s.at], SyncRun(commands[..s.at], failing))
  {
    hide Next, Enabled, RunDirect, CaptureOf, Recorded, Inv, Reachable, SyncRun, Deferrable, Outstanding;
    ReachableSound(commands, failing, workers, s);
    ReplayMatchesSynchronousReplay(commands, failing, workers, s);
    FinishingSteps(s, step);
  }

  /** Scheduling does not wait: the creation is queued last, its providers know it, and the main thread
      goes on without the object. */
  lemma CreationsAreScheduled(commands: seq<Command>, failing: set<Key>, workers: nat, s: State)
    requires Recorded(commands) && Reachable(commands, failing, workers, s) && Enabled(s, Begin)
    requires s.at < |commands| && commands[s.at].CreateLater?
    ensures var c, t := commands[s.at], Next(s, Begin);
      && t.at == s.at + 1 && t.main.Ready? && t.objects == s.objects && c.key !in s.objects
      && t.service.Pending(c.key) && t.service.queue == s.service.queue + [c.key]
      && forall j :: 0 <= j < |c.providers| && c.providers[j] != 0 ==> c.key in t.service.Consumers(c.providers[j])
  {
    hide Inv, Reachable, Recorded;
    ReachableSound(commands, failing, workers, s);
    ScheduledFresh(s, commands[s.at]);
    DependenciesAdded(s.service, commands[s.at].providers, commands[s.at].key);
  }

  lemma ScheduledFresh(s: State, c: Command)
    requires Inv(s) && s.main.Ready? && s.at < |s.commands| && c == s.commands[s.at] && c.CreateLater?
    ensures c.key != 0 && c.key !in s.service.tasks && c.key !in s.objects
  {
    hide Sound, CaptureOf, Recorded;
    CapFacts(s);
    NextCaptureOf(s);
    FreshIsUnknown(s, c.key, Cap(s));
  }

  lemma NextCaptureOf(s: State)
    requires Inv(s) && s.at < |s.commands|
    ensures CanFollow(Cap(s), s.commands[s.at])
  {
    NextCapture(s.commands, s.at);
  }

  /** Nor does a count update of an object nobody has started to create: it is deferred at once. */
  lemma PendingUpdatesAreDeferred(commands: seq<Command>, failing: set<Key>, workers: nat, s: State)
    requires Recorded(commands) && Reachable(commands, failing, workers, s) && Enabled(s, Begin)
    requires s.at < |commands| && Deferrable(s, commands[s.at])
    ensures var c, t := commands[s.at], Next(s, Begin);
      && t.at == s.at + 1 && t.main.Ready? && t.objects == s.objects && t.service.tasks == s.service.tasks
      && t.service.Deferred(c.key) == s.service.Deferred(c.key) + if c.AddRef? then 1 else -1
  {
    hide Inv, Reachable, Recorded, CompleteObject;
    ReachableSound(commands, failing, workers, s);
    PendingNotThere(s, commands[s.at].key);
  }

  lemma PendingNotThere(s: State, k: Key)
    requires Inv(s) && s.service.Pending(k)
    ensures k !in s.objects
  {
    NotBoth(s, k, Cap(s));
  }

  /** Whatever step finishes a StateRestoreEnd, the object table is then the one of synchronous replay,
      but for results finished early and not yet asked for. */
  lemma FlushMaterialisesEverything(commands: seq<Command>, failing: set<Key>, workers: nat, s: State, step: Step)
    requires Recorded(commands) && Reachable(commands, failing, workers, s) && Enabled(s, step)
    requires s.at < |commands| && Next(s, step).at == s.at + 1 && commands[s.at].FlushAll?
    ensures var t := Next(s, step);
      && t.service.tasks == map[]
      && t.objects.Keys == SyncRun(commands[..t.at], failing).Keys - t.preCollected.Keys
      && (forall k :: k in t.objects ==> t.objects[k] == SyncRun(commands[..t.at], failing)[k])
  {
    hide Inv, Reachable, SyncRun, Recorded;
    var t := Next(s, step);
    assert Reachable(commands, failing, workers, t) by {
      ReachableNext(commands, failing, workers, s, step);
    }
    ReachableSound(commands, failing, workers, s);
    ReplayMatchesSynchronousReplay(commands, failing, workers, t);
    ReachableSound(commands, failing, workers, t);
    FlushFinishes(s, step);
    NothingElseOutstanding(t);
  }

  lemma ReachableNext(commands: seq<Command>, failing: set<Key>, workers: nat, s: State, step: Step)
    requires Reachable(commands, failing, workers, s) && Enabled(s, step)
    ensures Reachable(commands, failing, workers, Next(s, step))
  {
    hide Enabled, Next;
    var schedule :| Reaches(Init(commands, failing, workers), schedule, s);
    ReachesOneMore(Init(commands, failing, workers), schedule, s, step);
  }

  lemma FlushFinishes(s: State, step: Step)
    requires Inv(s) && Enabled(s, step) && Next(s, step).at == s.at + 1
    requires s.at < |s.commands| && s.commands[s.at].FlushAll?
    ensures Next(s, step).main.Ready? && Next(s, step).service.tasks == map[]
  {
    hide Sound, CaptureOf, Recorded, AddAll, RunDirect;
  }

  lemma NothingElseOutstanding(t: State)
    requires Inv(t) && t.main.Ready? && t.service.tasks == map[]
    ensures forall k :: Outstanding(t, k) <==> k in t.preCollected
    ensures forall k :: k in t.preCollected ==> k !in t.objects
  {
    assert Results(t.main) == [];
  }

  lemma {:induction false} ReachesOneMore(s: State, schedule: seq<Step>, t: State, step: Step)
    requires Reaches(s, schedule, t) && Enabled(t, step)
    ensures Reaches(s, schedule + [step], Next(t, step))
    decreases |schedule|
  {
    hide Enabled, Next;
    if schedule == [] {
      assert [step][1..] == [];
      assert Reaches(Next(t, step), [], Next(t, step));
    } else {
      assert (schedule + [step])[1..] == schedule[1..] + [step];
      ReachesOneMore(Next(s, schedule[0]), schedule[1..], t, step);
    }
  }

  /** The queue is exactly the unstarted tasks; every functor has run at most once, not before its
      task was started, and exactly once by the time Complete has returned; and no thread inside
      CreateObject holds a task whose owner has destroyed it. */
  lemma TasksRunOnceAndStayAlive(commands: seq<Command>, failing: set<Key>, workers: nat, s: State)
    requires Recorded(commands) && Reachable(commands, failing, workers, s)
    ensures Distinct(s.service.queue) && forall k :: k in s.service.queue <==> s.service.Pending(k)
    ensures Distinct(s.ran) && forall k :: s.service.Pending(k) ==> k !in s.ran
    ensures forall k :: k in s.freed ==> k in s.ran
    ensures forall m :: 0 <= m < |s.makers| && s.makers[m].Busy? ==>
              s.makers[m].key !in s.freed && (s.makers[m].key in s.service.tasks || Held(s.main, s.makers[m].key))
    ensures forall m, n :: 0 <= m < n < |s.makers| && s.makers[m].Busy? && s.makers[n].Busy? ==>
              s.makers[m].key != s.makers[n].key
  {
    ReachableSound(commands, failing, workers, s);
    BusyAreAlive(s, Cap(s));
  }

  lemma BusyAreAlive(s: State, cap: Capture)
    requires Shape(s) && PlacesDisjoint(s) && WorkersExact(s)
    ensures forall m :: 0 <= m < |s.makers| && s.makers[m].Busy? ==>
              s.makers[m].key !in s.freed && (s.makers[m].key in s.service.tasks || Held(s.main, s.makers[m].key))
    ensures forall m, n :: 0 <= m < n < |s.makers| && s.makers[m].Busy? && s.makers[n].Busy? ==>
              s.makers[m].key != s.makers[n].key
  {
    forall m | 0 <= m < |s.makers| && s.makers[m].Busy?
      ensures s.makers[m].key in s.service.tasks || Held(s.main, s.makers[m].key)
      ensures 0 < m && s.makers[0].Busy? ==> s.makers[m].key != s.makers[0].key
    {
      if 0 < m {
        assert InFlight(s, s.makers[m].key);
      }
    }
  }

  /** Complete returns the result of a functor that has run, for a task nobody else will see. */
  lemma CompleteReturnsOneRun(commands: seq<Command>, failing: set<Key>, workers: nat, s: State, step: Step)
    requires Recorded(commands) && Reachable(commands, failing, workers, s)
    requires (step.Collect? || step.Arrive?) && Enabled(s, step)
    ensures s.main.key in s.ran && s.main.key !in s.freed && s.main.key in Next(s, step).freed
    ensures s.main.key !in Next(s, step).service.tasks
    ensures forall m :: 0 <= m < |s.makers| ==> !BusyWith(Next(s, step).makers, m, s.main.key)
  {
    ReachableSound(commands, failing, workers, s);
    ArrivesAlone(s, step, Cap(s));
  }

  lemma ArrivesAlone(s: State, step: Step, cap: Capture)
    requires Shape(s) && PlacesDisjoint(s) && WorkersExact(s) && RunOnce(s, cap)
    requires (step.Collect? || step.Arrive?) && Enabled(s, step)
    ensures s.main.key in s.ran && s.main.key !in s.freed && s.main.key in Next(s, step).freed
    ensures s.main.key !in Next(s, step).service.tasks
    ensures forall m :: 0 <= m < |s.makers| ==> !BusyWith(Next(s, step).makers, m, s.main.key)
  {
    var k := s.main.key;
    assert Held(s.main, k);
    assert s.main.Creating? ==> !InFlight(s, k);
    assert s.main.Awaiting? ==> k in s.promises;
  }

  /** The assertion on negative deferred totals never fires, and the count a thread is about to
      give its object is the one synchronous replay has. */
  lemma DeferredTotalsNeverNegative(commands: seq<Command>, failing: set<Key>, workers: nat, s: State)
    requires Recorded(commands) && Reachable(commands, failing, workers, s)
    ensures s.at <= |commands|
    ensures forall m :: 0 <= m < |s.makers| && s.makers[m].Busy? && s.makers[m].phase.Taken? ==>
              && s.makers[m].phase.deferred >= 0
              && s.makers[m].key in SyncRun(commands[..s.at], failing)
              && SyncRun(commands[..s.at], failing)[s.makers[m].key] == AppliedCount(s.makers[m].phase.deferred)
    ensures forall k :: s.service.Pending(k) ==> s.service.Deferred(k) >= 0
  {
    ReachableSound(commands, failing, workers, s);
    RecordedPrefix(s.commands, s.at);
    SyncHoldsRecordedCounts(s.commands[..s.at], s.failing);
    CapFacts(s);
    TotalsFromCounts(s, SyncRun(commands[..s.at], failing), Cap(s));
  }

  lemma TotalsFromCounts(s: State, sync: map<Key, int>, cap: Capture)
    requires MakerCounts(s, cap) && sync.Keys == cap.counts.Keys - s.failing
    requires forall k :: k in sync ==> sync[k] == cap.counts[k]
    requires forall k :: k in cap.counts ==> cap.counts[k] > 0
    ensures forall m :: 0 <= m < |s.makers| && s.makers[m].Busy? && s.makers[m].phase.Taken? ==>
              && s.makers[m].phase.deferred >= 0
              && s.makers[m].key in sync && sync[s.makers[m].key] == AppliedCount(s.makers[m].phase.deferred)
    ensures forall k :: s.service.Pending(k) ==> s.service.Deferred(k) >= 0
  {
    forall k ensures k in sync <==> k in cap.counts && k !in s.failing {
      assert k in sync <==> k in sync.Keys;
      assert k in cap.counts <==> k in cap.counts.Keys;
    }
  }

  /** Each scheduled creation has the providers its command names. */
  ghost predicate ProvidersRecorded(s: State) {
    forall i :: 0 <= i < s.at && i < |s.commands| && s.commands[i].CreateLater? ==>
      && s.commands[i].key in s.providers
      && s.providers[s.commands[i].key] == NonNull(s.commands[i].providers)
  }

  lemma {:induction false} SeenEarlier(cs: seq<Command>, i: nat)
    requires i < |cs| && cs[i].CreateLater?
    ensures cs[i].key in CaptureOf(cs).seen
  {
    var n := |cs| - 1;
    if i < n {
      assert cs[..n][i] == cs[i];
      SeenEarlier(cs[..n], i);
    }
  }

  lemma StepRecords(s: State, step: Step)
    requires Inv(s) && Enabled(s, step) && ProvidersRecorded(s)
    ensures ProvidersRecorded(Next(s, step))
  {
    hide Enabled, Next, Sound, CaptureOf, Recorded;
    StepFixes(s, step);
    StepKeeps(s, step);
    var u := Next(s, step);
    if step.Begin? && s.at < |s.commands| && s.commands[s.at].CreateLater? {
      CapAdvances(s, u);
      forall i | 0 <= i < s.at && s.commands[i].CreateLater? ensures s.commands[i].key != s.commands[s.at].key {
        assert s.commands[..s.at][i] == s.commands[i];
        SeenEarlier(s.commands[..s.at], i);
      }
    } else if !step.Begin? && s.at < |s.commands| && s.commands[s.at].CreateLater? {
      OnlyBeginSchedules(s, step);
    }
  }

  lemma OnlyBeginSchedules(s: State, step: Step)
    requires Shape(s) && Enabled(s, step) && !step.Begin? && s.at < |s.commands| && s.commands[s.at].CreateLater?
    ensures Next(s, step).at == s.at
  {
  }

  lemma {:induction false} ProvidersAreRecorded(s: State, schedule: seq<Step>, t: State)
    requires Inv(s) && ProvidersRecorded(s) && Reaches(s, schedule, t)
    ensures ProvidersRecorded(t)
    decreases |schedule|
  {
    hide Inv, Enabled, Next, ProvidersRecorded;
    if schedule != [] {
      StepKeeps(s, schedule[0]);
      StepRecords(s, schedule[0]);
      ProvidersAreRecorded(Next(s, schedule[0]), schedule[1..], t);
    }
  }

  /** When a creation functor is about to run, every provider its command named is still live: no
      Release to zero of it has been finished, and unless its own creation failed it is in the object
      table or can be obtained. */
  lemma ProvidersOutliveCreations(commands: seq<Command>, failing: set<Key>, workers: nat, s: State, m: nat, i: nat)
    requires Recorded(commands) && Reachable(commands, failing, workers, s) && Enabled(s, Run(m))
    requires i < s.at && i < |commands| && commands[i].CreateLater? && commands[i].key == s.makers[m].key
    ensures s.at <= |commands|
    ensures forall j :: 0 <= j < |commands[i].providers| && commands[i].providers[j] != 0 ==>
              var p := commands[i].providers[j];
              && p in CaptureOf(commands[..s.at]).counts
              && (p !in failing ==> p in SyncRun(commands[..s.at], failing) && (p in s.objects || Outstanding(s, p)))
  {
    hide Inv;
    var schedule :| Reaches(Init(commands, failing, workers), schedule, s);
    InitSound(commands, failing, workers);
    ProvidersAreRecorded(Init(commands, failing, workers), schedule, s);
    ReachableSound(commands, failing, workers, s);
    FreshHasProviders(s, m);
    ReplayMatchesSynchronousReplay(commands, failing, workers, s);
    RecordedPrefix(commands, s.at);
    SyncHoldsRecordedCounts(commands[..s.at], failing);
    hide CaptureOf, SyncRun, Outstanding;
    assert forall p :: p in CaptureOf(commands[..s.at]).counts.Keys - failing ==> p in SyncRun(commands[..s.at], failing);
    assert forall j :: 0 <= j < |commands[i].providers| && commands[i].providers[j] != 0 ==>
        commands[i].providers[j] in NonNull(commands[i].providers);
  }

  lemma FreshHasProviders(s: State, m: nat)
    requires Inv(s) && Enabled(s, Run(m))
    ensures s.makers[m].key in s.providers
    ensures forall p :: p in s.providers[s.makers[m].key] ==> p in Cap(s).counts
  {
    assert BusyWith(s.makers, m, s.makers[m].key);
    assert Unexecuted(s, s.makers[m].key);
  }
}
