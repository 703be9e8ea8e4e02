/** Every schedule that does not stop while a step is possible finishes the whole stream, and
    CompleteAll returns each pending key exactly once. */
module AsyncReplayProgress {
  import opened ReplayCommands
  import opened CreationService
  import opened AsyncReplay
  import opened AsyncReplayInvariant
  import opened AsyncReplayBegin
  import opened AsyncReplayTheorems

  ghost predicate Finished(s: State) {
    s.main.Ready? && s.at == |s.commands|
  }

  /** A step some thread can take: no state waits for a wake-up that never comes. */
  lemma SomeStepEnabled(s: State) returns (step: Step)
    requires Inv(s) && !Finished(s)
    ensures Enabled(s, step)
  {
    match s.main
    case Ready => step := Begin;
    case Completed => step := Resume;
    case Releasing(consumers) => step := if consumers == [] then FinishRelease else Consume;
    case Flushing(_) =>
      if k: Key :| k in s.service.tasks {
        step := Flush(k);
      } else {
        assert s.service.tasks == map[];
        step := FinishFlush;
      }
    case Creating(_, _) => step := MakerStep(s, 0);
    case Awaiting(k, _) =>
      assert InFlight(s, k);
      if k in s.promises {
        step := Collect;
      } else {
        var w :| 0 < w < |s.makers| && BusyWith(s.makers, w, k);
        step := MakerStep(s, w);
      }
  }

  lemma MakerStep(s: State, m: nat) returns (step: Step)
    requires m < |s.makers| && s.makers[m].Busy? && (m == 0 ==> s.main.Creating?)
    ensures Enabled(s, step)
  {
    match s.makers[m].phase
    case Fresh => step := Run(m);
    case Ran(success) => step := if success then Take(m) else if m == 0 then Arrive else Deliver(m);
    case Taken(_) => step := if m == 0 then Arrive else Deliver(m);
  }

  // A measure every step lowers: commands left, stage of the current command, loop iterations left
  // in that stage, and the work left for the creating threads.

  function MakerWork(m: Maker): nat {
    match m
    case Idle => 0
    case Busy(_, Fresh) => 3
    case Busy(_, Ran(_)) => 2
    case Busy(_, Taken(_)) => 1
  }

  function MakersWork(makers: seq<Maker>): nat {
    if makers == [] then 0 else MakersWork(makers[..|makers| - 1]) + MakerWork(makers[|makers| - 1])
  }

  function CommandsLeft(s: State): nat {
    if s.at <= |s.commands| then |s.commands| - s.at else 0
  }

  function Stage(main: Main): nat {
    match main
    case Ready => 4
    case Awaiting(_, Materialise) => 3
    case Creating(_, Materialise) => 3
    case Completed => 2
    case _ => 1
  }

  function Iterations(s: State): nat {
    match s.main
    case Releasing(consumers) => 2 * |consumers|
    case Awaiting(_, NextConsumer(rest)) => 2 * |rest| + 1
    case Creating(_, NextConsumer(rest)) => 2 * |rest| + 1
    case Flushing(_) => 2 * |s.service.tasks.Keys|
    case Awaiting(_, NextFlush(_)) => 2 * |s.service.tasks.Keys| + 1
    case Creating(_, NextFlush(_)) => 2 * |s.service.tasks.Keys| + 1
    case _ => 0
  }

  function Work(s: State): nat {
    4 * |s.service.queue| + MakersWork(s.makers)
  }

  ghost predicate Lower(t: State, s: State) {
    || CommandsLeft(t) < CommandsLeft(s)
    || (CommandsLeft(t) == CommandsLeft(s) && Stage(t.main) < Stage(s.main))
    || (CommandsLeft(t) == CommandsLeft(s) && Stage(t.main) == Stage(s.main) && Iterations(t) < Iterations(s))
    || (CommandsLeft(t) == CommandsLeft(s) && Stage(t.main) == Stage(s.main) && Iterations(t) == Iterations(s)
        && Work(t) < Work(s))
  }

  lemma {:induction false} WorkUpdate(makers: seq<Maker>, m: nat, x: Maker)
    requires m < |makers|
    ensures MakersWork(makers[m := x]) == MakersWork(makers) - MakerWork(makers[m]) + MakerWork(x)
  {
    var n := |makers| - 1;
    if m == n {
      assert makers[m := x][..n] == makers[..n];
    } else {
      assert makers[m := x][..n] == makers[..n][m := x];
      WorkUpdate(makers[..n], m, x);
    }
  }

  lemma MakerStepLowers(s: State, step: Step)
    requires Inv(s) && Enabled(s, step) && (step.Pop? || step.Run? || step.Take? || step.Deliver?)
    ensures Lower(Next(s, step), s)
  {
    hide Sound, CaptureOf, Recorded;
    var t := Next(s, step);
    match step
    case Pop(w) =>
      FrontIsRegistered(s);
      assert t.service.tasks.Keys == s.service.tasks.Keys;
      WorkUpdate(s.makers, w, t.makers[w]);
    case Run(m) => WorkUpdate(s.makers, m, t.makers[m]);
    case Take(m) => WorkUpdate(s.makers, m, t.makers[m]);
    case Deliver(w) => WorkUpdate(s.makers, w, t.makers[w]);
    case _ =>
  }

  lemma FrontIsRegistered(s: State)
    requires Inv(s) && s.service.queue != []
    ensures s.service.queue[0] in s.service.tasks
  {
    assert s.service.queue[0] in s.service.queue;
  }

  lemma CompleteObjectLowers(s: State, k: Key)
    requires s.main.Ready?
    ensures Lower(CompleteObject(s, k), s)
  {
  }

  lemma BeginLowers(s: State)
    requires Enabled(s, Begin) && !BeginCommand(s, s.commands[s.at]).main.Ready?
    ensures Lower(BeginCommand(s, s.commands[s.at]), s)
  {
    hide CompleteObject, Lower;
    var c := s.commands[s.at];
    if c.Keyed() {
      CompleteObjectLowers(s, c.key);
    } else {
      assert Lower(s.(main := Flushing([])), s) by {
        FlushLowers(s);
      }
    }
  }

  lemma FlushLowers(s: State)
    requires s.main.Ready?
    ensures Lower(s.(main := Flushing([])), s)
  {
  }

  lemma DetachLowers(s: State, k: Key)
    requires k in s.service.tasks
    ensures s.service.Detach(k).tasks.Keys == s.service.tasks.Keys - {k}
    ensures |s.service.Detach(k).tasks.Keys| == |s.service.tasks.Keys| - 1
  {
    assert (s.service.tasks - {k}).Keys == s.service.tasks.Keys - {k};
  }

  lemma StartLowers(s: State, k: Key, after: After)
    requires k in s.service.tasks
    requires match after
             case Materialise => false
             case NextConsumer(rest) => s.main == Releasing([k] + rest)
             case NextFlush(results) => s.main == Flushing(results)
    ensures Lower(StartComplete(s, k, after), s)
  {
    hide Work;
    DetachLowers(s, k);
  }

  lemma MainStepLowers(s: State, step: Step)
    requires Shape(s) && Enabled(s, step) && Shape(Next(s, step))
    requires !(step.Pop? || step.Run? || step.Take? || step.Deliver? || step.Begin?)
    ensures Lower(Next(s, step), s)
  {
    hide StartComplete;
    match step
    case Consume =>
      assert s.main.consumers == [s.main.consumers[0]] + s.main.consumers[1..];
      if s.main.consumers[0] in s.service.tasks {
        StartLowers(s, s.main.consumers[0], NextConsumer(s.main.consumers[1..]));
      }
    case Flush(k) => StartLowers(s, k, NextFlush(s.main.results));
    case _ =>
  }

  lemma BeginStepLowers(s: State)
    requires Shape(s) && Enabled(s, Begin) && Shape(Next(s, Begin)) && Fixes(s, Next(s, Begin), true)
    ensures Lower(Next(s, Begin), s)
  {
    hide Shape, BeginCommand;
    BeginShape(s, s.commands[s.at]);
    if !Next(s, Begin).main.Ready? {
      BeginLowers(s);
    }
  }

  lemma StepLowers(s: State, step: Step)
    requires Inv(s) && Enabled(s, step)
    ensures Lower(Next(s, step), s)
  {
    hide Next, Enabled, Sound, CaptureOf, Recorded, Lower;
    StepKeeps(s, step);
    StepFixes(s, step);
    if step.Pop? || step.Run? || step.Take? || step.Deliver? {
      MakerStepLowers(s, step);
    } else if step.Begin? {
      BeginStepLowers(s);
    } else {
      MainStepLowers(s, step);
    }
  }

  /** n scheduler turns; a turn given to a thread that cannot move changes nothing. */
  ghost function Turns(s: State, steps: nat -> Step, n: nat): State {
    if n == 0 then s
    else
      var t := Turns(s, steps, n - 1);
      if Enabled(t, steps(n - 1)) then Next(t, steps(n - 1)) else t
  }

  ghost predicate SomeEnabled(s: State) {
    exists step :: Enabled(s, step)
  }

  /** The scheduler never idles while some thread can move. */
  ghost predicate NeverIdle(s: State, steps: nat -> Step) {
    forall n: nat :: SomeEnabled(Turns(s, steps, n)) ==> Enabled(Turns(s, steps, n), steps(n))
  }

  lemma {:induction false} TurnsKeep(s: State, steps: nat -> Step, n: nat)
    requires Inv(s)
    ensures Inv(Turns(s, steps, n)) && Turns(s, steps, n).commands == s.commands
  {
    hide Inv, Enabled, Next;
    if n > 0 {
      TurnsKeep(s, steps, n - 1);
      var t := Turns(s, steps, n - 1);
      if Enabled(t, steps(n - 1)) {
        StepKeeps(t, steps(n - 1));
        StepFixes(t, steps(n - 1));
      }
    }
  }

  lemma FinishesFrom(s: State, steps: nat -> Step, n: nat) returns (m: nat)
    requires Inv(s) && NeverIdle(s, steps)
    ensures Finished(Turns(s, steps, m))
    decreases CommandsLeft(Turns(s, steps, n)), Stage(Turns(s, steps, n).main), Iterations(Turns(s, steps, n)),
              Work(Turns(s, steps, n))
  {
    hide Inv, Enabled, Next;
    var t := Turns(s, steps, n);
    TurnsKeep(s, steps, n);
    if Finished(t) {
      m := n;
    } else {
      var step := SomeStepEnabled(t);
      assert SomeEnabled(t);
      StepLowers(t, steps(n));
      m := FinishesFrom(s, steps, n + 1);
    }
  }

  /** Under every scheduler that never idles, the replay of a recorded stream finishes. */
  lemma EveryScheduleFinishes(commands: seq<Command>, failing: set<Key>, workers: nat, steps: nat -> Step)
    requires Recorded(commands) && NeverIdle(Init(commands, failing, workers), steps)
    ensures exists n :: Finished(Turns(Init(commands, failing, workers), steps, n))
                        && Turns(Init(commands, failing, workers), steps, n).at == |commands|
  {
    hide Inv;
    InitSound(commands, failing, workers);
    var n := FinishesFrom(Init(commands, failing, workers), steps, 0);
    TurnsKeep(Init(commands, failing, workers), steps, n);
  }

  /** Between the start and the end of one CompleteAll: the keys that were registered at its start
      are split between the registry, the one being completed and the results. */
  ghost predicate FlushSplit(s: State, keys: set<Key>) {
    && (s.main.Flushing? || ((s.main.Awaiting? || s.main.Creating?) && s.main.after.NextFlush?))
    && (forall k :: k in keys <==> k in s.service.tasks || Held(s.main, k) || InResults(s.main, k))
  }

  lemma {:induction false} CompleteAllReturnsEachKeyOnce(s: State, schedule: seq<Step>, t: State)
    requires Inv(s) && s.main == Flushing([]) && Reaches(s, schedule, t) && t.at == s.at
    ensures FlushSplit(t, s.service.tasks.Keys)
    ensures t.main.Flushing? && t.service.tasks == map[] ==>
              && (forall k :: k in s.service.tasks <==> exists i :: 0 <= i < |t.main.results| && t.main.results[i].0 == k)
              && (forall i, j :: 0 <= i < j < |t.main.results| ==> t.main.results[i].0 != t.main.results[j].0)
  {
    hide Reaches, Shape, QueueExact, WorkersExact, MakerCounts, OutputsCounted, ObjectsCounted, RunOnce, ProvidersAlive, Settled;
    assert Results(s.main) == [];
    FlushStaysSplit(s, schedule, t, s.service.tasks.Keys);
    SchedulesKeep(s, schedule, t);
    if t.main.Flushing? && t.service.tasks == map[] {
      assert Results(t.main) == t.main.results;
      forall k ensures k in s.service.tasks <==> InResults(t.main, k) {
        assert k in s.service.tasks <==> k in s.service.tasks.Keys;
      }
    }
  }

  lemma {:induction false} FlushStaysSplit(s: State, schedule: seq<Step>, t: State, keys: set<Key>)
    requires Inv(s) && FlushSplit(s, keys) && Reaches(s, schedule, t) && t.at == s.at
    ensures FlushSplit(t, keys)
    decreases |schedule|
  {
    hide Inv, Enabled, Next, FlushSplit;
    if schedule != [] {
      var u := Next(s, schedule[0]);
      StepKeeps(s, schedule[0]);
      StepFixes(s, schedule[0]);
      IndexGrows(u, schedule[1..], t);
      OnlyFlushSteps(s, schedule[0], keys);
      SplitStep(s, schedule[0], keys);
      FlushStaysSplit(u, schedule[1..], t, keys);
    }
  }

  lemma {:induction false} IndexGrows(s: State, schedule: seq<Step>, t: State)
    requires Reaches(s, schedule, t)
    ensures s.at <= t.at
    decreases |schedule|
  {
    hide Enabled, Next;
    if schedule != [] {
      StepFixes(s, schedule[0]);
      IndexGrows(Next(s, schedule[0]), schedule[1..], t);
    }
  }

  predicate FlushStep(step: Step) {
    step.Pop? || step.Run? || step.Take? || step.Deliver? || step.Collect? || step.Arrive? || step.Flush?
  }

  lemma OnlyFlushSteps(s: State, step: Step, keys: set<Key>)
    requires FlushSplit(s, keys) && Enabled(s, step) && Next(s, step).at == s.at
    ensures FlushStep(step)
  {
  }

  lemma SplitStep(s: State, step: Step, keys: set<Key>)
    requires Inv(s) && FlushSplit(s, keys) && Enabled(s, step) && FlushStep(step)
    ensures FlushSplit(Next(s, step), keys)
  {
    hide Inv, FlushSplit;
    match step
    case Pop(_) =>
      FrontIsRegistered(s);
      SplitSame(s, Next(s, step), keys);
    case Collect => SplitArrived(s, Next(s, step), s.promises[s.main.key], keys);
    case Arrive => SplitArrived(s, Next(s, step), s.makers[0].phase.Result(), keys);
    case Flush(k) => SplitStart(s, Next(s, step), k, keys);
    case Run(_) => SplitSame(s, Next(s, step), keys);
    case Take(_) => SplitSame(s, Next(s, step), keys);
    case Deliver(_) => SplitSame(s, Next(s, step), keys);
  }

  lemma SplitSame(s: State, t: State, keys: set<Key>)
    requires FlushSplit(s, keys) && t.main == s.main && t.service.tasks.Keys == s.service.tasks.Keys
    ensures FlushSplit(t, keys)
  {
    assert forall k :: k in t.service.tasks <==> k in s.service.tasks.Keys;
  }

  lemma SplitArrived(s: State, t: State, out: Output, keys: set<Key>)
    requires FlushSplit(s, keys) && (s.main.Awaiting? || s.main.Creating?)
    requires s.main.after.NextFlush? ==> t.main == Flushing(s.main.after.results + [(s.main.key, out)])
    requires t.service.tasks == s.service.tasks
    ensures FlushSplit(t, keys)
  {
    ResultAppended(s, t, out);
  }

  lemma SplitStart(s: State, t: State, k: Key, keys: set<Key>)
    requires FlushSplit(s, keys) && s.main.Flushing? && k in s.service.tasks && t.service.tasks == s.service.tasks - {k}
    requires t.main == Awaiting(k, NextFlush(s.main.results)) || t.main == Creating(k, NextFlush(s.main.results))
    ensures FlushSplit(t, keys)
  {
    assert Results(t.main) == Results(s.main);
  }

  lemma ResultAppended(s: State, t: State, out: Output)
    requires (s.main.Awaiting? || s.main.Creating?) && s.main.after.NextFlush?
    requires t.main == Flushing(s.main.after.results + [(s.main.key, out)])
    ensures forall k :: InResults(t.main, k) <==> InResults(s.main, k) || k == s.main.key
  {
    var r, q := Results(t.main), Results(s.main);
    forall k | InResults(s.main, k) || k == s.main.key ensures InResults(t.main, k) {
      if InResults(s.main, k) {
        var i :| 0 <= i < |q| && q[i].0 == k;
        assert r[i].0 == k;
      } else {
        assert r[|r| - 1].0 == k;
      }
    }
  }
}
