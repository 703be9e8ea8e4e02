/** The sequential executor: the stream's thread hands each token to the thread recorded with it and
    waits for it to run. A mutex and one condition variable, with spurious wake-ups, between the
    dispatcher and any number of thread loops. One step is one stretch of code between two points at
    which another thread can get in. */
module SequentialExecutor {
  import opened Arithmetic
  import opened Wrappers

  /** A thread loop. Fresh and Awake threads want the mutex, Running and Finishing ones hold it. */
  datatype Phase = Fresh | Asleep | Awake | Running | Finishing

  datatype Worker = Worker(id: nat, phase: Phase)

  /** The dispatcher: between tokens, about to take the mutex in Dispatch, waiting, or woken. */
  datatype Main = Ready | Posting | MainAsleep | MainAwake

  datatype State = State(
    stream: seq<nat>,                  // the thread each token is recorded with; 0 is the main thread
    nullRun: bool,
    at: nat,                           // tokens whose Run has returned
    main: Main,
    syncThreadId: nat,
    token: Option<nat>,                // position of the token handed over
    threads: seq<Worker>,
    owner: Option<nat>,                // the worker that holds the mutex across steps
    ran: seq<(nat, nat)>)              // token positions run, and on which thread
  {
    predicate Done() {
      main.Ready? && at == |stream|
    }
  }

  datatype Step =
    | Begin                            // Run, up to Dispatch
    | Post                             // Dispatch: hand over, notify, wait
    | Return                           // Dispatch woken: done, or wait again
    | Test(w: nat)                     // a thread loop takes the mutex and looks
    | Execute(w: nat)                  // the token runs, mutex held
    | Finish(w: nat)                   // hand back, notify, release
    | SpuriousWorker(w: nat)
    | SpuriousMain
  {
    predicate Spurious() {
      SpuriousWorker? || SpuriousMain?
    }
  }

  function Init(stream: seq<nat>, nullRun: bool): State {
    State(stream, nullRun, 0, Ready, 0, None, [], None, [])
  }

  predicate Enabled(s: State, step: Step) {
    match step
    case Begin => s.main.Ready? && s.at < |s.stream|
    case Post => s.main.Posting? && s.owner.None? && s.at < |s.stream|
    case Return => s.main.MainAwake? && s.owner.None?
    case Test(w) => w < |s.threads| && (s.threads[w].phase.Fresh? || s.threads[w].phase.Awake?) && s.owner.None?
    case Execute(w) => w < |s.threads| && s.threads[w].phase.Running? && s.token.Some?
    case Finish(w) => w < |s.threads| && s.threads[w].phase.Finishing?
    case SpuriousWorker(w) => w < |s.threads| && s.threads[w].phase.Asleep?
    case SpuriousMain => s.main.MainAsleep?
  }

  predicate Known(threads: seq<Worker>, id: nat) {
    exists w :: 0 <= w < |threads| && threads[w].id == id
  }

  function Woken(threads: seq<Worker>): (r: seq<Worker>)
    ensures |r| == |threads|
    ensures forall w :: 0 <= w < |r| ==>
              r[w] == if threads[w].phase.Asleep? then Worker(threads[w].id, Awake) else threads[w]
  {
    seq(|threads|, w requires 0 <= w < |threads| =>
      if threads[w].phase.Asleep? then Worker(threads[w].id, Awake) else threads[w])
  }

  function NotifyAll(s: State): State {
    s.(threads := Woken(s.threads), main := if s.main.MainAsleep? then MainAwake else s.main)
  }

  function Set(s: State, w: nat, phase: Phase): State
    requires w < |s.threads|
  {
    s.(threads := s.threads[w := Worker(s.threads[w].id, phase)])
  }

  function Log(s: State, token: nat, thread: nat): State {
    if s.nullRun then s else s.(ran := s.ran + [(token, thread)])
  }

  function Next(s: State, step: Step): State
    requires Enabled(s, step)
  {
    match step
    case Begin =>
      var id := s.stream[s.at];
      if id == 0 then Log(s, s.at, 0).(at := s.at + 1)
      else if Known(s.threads, id) then s.(main := Posting)
      else s.(main := Posting, threads := s.threads + [Worker(id, Fresh)])
    case Post =>
      NotifyAll(s.(syncThreadId := s.stream[s.at], token := Some(s.at))).(main := MainAsleep)
    case Return =>
      if s.token.None? then s.(at := s.at + 1, main := Ready) else s.(main := MainAsleep)
    case Test(w) =>
      if s.syncThreadId == s.threads[w].id && s.token.Some? then Set(s, w, Running).(owner := Some(w))
      else Set(s, w, Asleep)
    case Execute(w) => Set(Log(s, s.token.value, s.threads[w].id), w, Finishing)
    case Finish(w) => NotifyAll(Set(s, w, Fresh).(token := None, owner := None))
    case SpuriousWorker(w) => Set(s, w, Awake)
    case SpuriousMain => s.(main := MainAwake)
  }

  ghost predicate Reaches(s: State, schedule: seq<Step>, t: State)
    decreases |schedule|
  {
    if schedule == [] then t == s else Enabled(s, schedule[0]) && Reaches(Next(s, schedule[0]), schedule[1..], t)
  }

  // ---------------------------------------------------------------------------------------------
  // What every step keeps

  predicate Waiting(s: State) {
    s.main.MainAsleep? || s.main.MainAwake?
  }

  predicate Holds(phase: Phase) {
    phase.Running? || phase.Finishing?
  }

  /** Tokens whose turn is over, counting the current one as soon as it has run. */
  function Completed(s: State): nat {
    if Waiting(s) && (s.token.None? || (s.owner.Some? && s.owner.value < |s.threads| && s.threads[s.owner.value].phase.Finishing?))
    then s.at + 1 else s.at
  }

  ghost predicate MainSound(s: State) {
    && s.at <= |s.stream|
    && (!s.main.Ready? ==> s.at < |s.stream| && s.stream[s.at] != 0 && Known(s.threads, s.stream[s.at]))
    && (!Waiting(s) ==> s.token.None?)
    && (s.token.Some? ==> s.token.value == s.at && s.syncThreadId == s.stream[s.at])
    && |s.threads| <= s.at + if s.main.Ready? then 0 else 1
  }

  ghost predicate ThreadsSound(s: State) {
    && (forall v, w :: 0 <= v < w < |s.threads| ==> s.threads[v].id != s.threads[w].id)
    && (forall w :: 0 <= w < |s.threads| && Holds(s.threads[w].phase) ==>
          s.owner == Some(w) && s.token.Some? && s.threads[w].id == s.syncThreadId)
    && (s.owner.Some? ==> s.owner.value < |s.threads| && Holds(s.threads[s.owner.value].phase))
  }

  /** Nobody sleeps through the event it waits for. */
  ghost predicate NoMissedWakeup(s: State) {
    && (s.main.MainAsleep? ==> s.token.Some?)
    && (forall w :: 0 <= w < |s.threads| && s.threads[w].phase.Asleep? ==>
          !(s.token.Some? && s.threads[w].id == s.syncThreadId))
  }

  /** The first n tokens in stream order, each on the thread it is recorded with. */
  function Runs(stream: seq<nat>, n: nat): seq<(nat, nat)>
    requires n <= |stream|
  {
    seq(n, i requires 0 <= i < n => (i, stream[i]))
  }

  /** The tokens run so far: the first ones of the stream, in order, each once, on its thread. */
  ghost predicate RanInOrder(s: State) {
    Completed(s) <= |s.stream| && s.ran == if s.nullRun then [] else Runs(s.stream, Completed(s))
  }

  ghost predicate Inv(s: State) {
    MainSound(s) && ThreadsSound(s) && NoMissedWakeup(s) && RanInOrder(s)
  }

  lemma KnownStays(before: seq<Worker>, after: seq<Worker>, id: nat)
    requires |before| <= |after| && forall w :: 0 <= w < |before| ==> after[w].id == before[w].id
    requires Known(before, id)
    ensures Known(after, id)
  {
    var w :| 0 <= w < |before| && before[w].id == id;
    assert after[w].id == id;
  }

  lemma BeginKeeps(s: State)
    requires Inv(s) && Enabled(s, Begin)
    ensures Inv(Next(s, Begin))
  {
    var t, id := Next(s, Begin), s.stream[s.at];
    if id != 0 && !Known(s.threads, id) {
      assert t.threads[|s.threads|].id == id;
    }
    if id == 0 {
      assert Runs(s.stream, s.at + 1) == Runs(s.stream, s.at) + [(s.at, 0)];
    }
  }

  lemma PostKeeps(s: State)
    requires Inv(s) && Enabled(s, Post)
    ensures Inv(Next(s, Post))
  {
    hide Known, Runs;
    KnownStays(s.threads, Next(s, Post).threads, s.stream[s.at]);
  }

  lemma ReturnKeeps(s: State)
    requires Inv(s) && Enabled(s, Return)
    ensures Inv(Next(s, Return))
  {
  }

  lemma TestKeeps(s: State, w: nat)
    requires Inv(s) && Enabled(s, Test(w))
    ensures Inv(Next(s, Test(w)))
  {
    hide Known, Runs;
    if !s.main.Ready? {
      KnownStays(s.threads, Next(s, Test(w)).threads, s.stream[s.at]);
    }
  }

  lemma ExecuteKeeps(s: State, w: nat)
    requires Inv(s) && Enabled(s, Execute(w))
    ensures Inv(Next(s, Execute(w)))
  {
    hide Known;
    KnownStays(s.threads, Next(s, Execute(w)).threads, s.stream[s.at]);
    assert Runs(s.stream, s.at + 1) == Runs(s.stream, s.at) + [(s.at, s.stream[s.at])];
  }

  lemma FinishKeeps(s: State, w: nat)
    requires Inv(s) && Enabled(s, Finish(w))
    ensures Inv(Next(s, Finish(w)))
  {
    hide Known, Runs;
    KnownStays(s.threads, Next(s, Finish(w)).threads, s.stream[s.at]);
  }

  lemma SpuriousKeeps(s: State, step: Step)
    requires Inv(s) && Enabled(s, step) && step.Spurious()
    ensures Inv(Next(s, step))
  {
    hide Known, Runs;
    if !s.main.Ready? {
      KnownStays(s.threads, Next(s, step).threads, s.stream[s.at]);
    }
  }

  lemma NextKeeps(s: State, step: Step)
    requires Inv(s) && Enabled(s, step)
    ensures Inv(Next(s, step))
  {
    hide Inv, Next;
    match step
    case Begin => BeginKeeps(s);
    case Post => PostKeeps(s);
    case Return => ReturnKeeps(s);
    case Test(w) => TestKeeps(s, w);
    case Execute(w) => ExecuteKeeps(s, w);
    case Finish(w) => FinishKeeps(s, w);
    case _ => SpuriousKeeps(s, step);
  }

  lemma {:induction false} ReachableSound(s: State, schedule: seq<Step>, t: State)
    requires Inv(s) && Reaches(s, schedule, t)
    ensures Inv(t)
    decreases |schedule|
  {
    hide Inv, Next;
    if schedule != [] {
      NextKeeps(s, schedule[0]);
      ReachableSound(Next(s, schedule[0]), schedule[1..], t);
    }
  }

  lemma InitSound(stream: seq<nat>, nullRun: bool)
    ensures Inv(Init(stream, nullRun))
  {
  }

  // ---------------------------------------------------------------------------------------------
  // The theorems

  lemma {:induction false} StreamStays(s: State, schedule: seq<Step>, t: State)
    requires Reaches(s, schedule, t)
    ensures t.stream == s.stream && t.nullRun == s.nullRun
    decreases |schedule|
  {
    if schedule != [] {
      StreamStays(Next(s, schedule[0]), schedule[1..], t);
    }
  }

  /** In every interleaving the tokens run one at a time, each exactly once, in dispatch order, on the
      thread recorded with them; when a token's Run has returned it has run, and at most the current
      one has run beyond that. With nullRun none runs. */
  lemma TokensRunInOrder(stream: seq<nat>, nullRun: bool, schedule: seq<Step>, t: State)
    requires Reaches(Init(stream, nullRun), schedule, t)
    ensures nullRun ==> t.ran == []
    ensures !nullRun ==> t.at <= |t.ran| <= t.at + 1 && |t.ran| <= |stream|
    ensures forall i :: 0 <= i < |t.ran| ==> t.ran[i] == (i, stream[i])
    ensures !nullRun && t.main.Ready? ==> |t.ran| == t.at
    ensures forall v, w :: 0 <= v < |t.threads| && 0 <= w < |t.threads| && t.threads[v].phase.Running? && t.threads[w].phase.Running? ==> v == w
  {
    InitSound(stream, nullRun);
    ReachableSound(Init(stream, nullRun), schedule, t);
    StreamStays(Init(stream, nullRun), schedule, t);
  }

  /** No reachable state is stuck: unless the stream is finished, a step other than a spurious
      wake-up is possible. */
  lemma NoDeadlock(stream: seq<nat>, nullRun: bool, schedule: seq<Step>, t: State) returns (step: Step)
    requires Reaches(Init(stream, nullRun), schedule, t) && !t.Done()
    ensures Enabled(t, step) && !step.Spurious()
  {
    InitSound(stream, nullRun);
    ReachableSound(Init(stream, nullRun), schedule, t);
    if t.owner.Some? {
      var w := t.owner.value;
      step := if t.threads[w].phase.Running? then Execute(w) else Finish(w);
    } else if t.main.Ready? {
      step := Begin;
    } else if t.main.Posting? {
      step := Post;
    } else if t.main.MainAwake? {
      step := Return;
    } else {
      var w :| 0 <= w < |t.threads| && t.threads[w].id == t.stream[t.at];
      step := Test(w);
    }
  }

  // ---------------------------------------------------------------------------------------------
  // How long it can take

  /** How far the current token is: handed over, picked up, run, handed back. */
  function Stage(s: State): nat {
    match s.main
    case Ready => 0
    case Posting => 1
    case _ =>
      if s.token.None? then 5
      else if s.owner.None? then 2
      else if s.owner.value < |s.threads| && s.threads[s.owner.value].phase.Running? then 3
      else 4
  }

  function Rank(s: State): nat
    requires s.at <= |s.stream| && (!s.main.Ready? ==> s.at < |s.stream|)
  {
    6 * (|s.stream| - s.at) - Stage(s)
  }

  /** Threads that will look at the shared variables once before they sleep. */
  function Restless(threads: seq<Worker>): (r: nat)
    ensures r <= |threads|
  {
    if threads == [] then 0
    else
      var last := threads[|threads| - 1].phase;
      Restless(threads[..|threads| - 1]) + if last.Fresh? || last.Awake? then 1 else 0
  }

  function Measure(s: State): nat
    requires s.at <= |s.stream| && (!s.main.Ready? ==> s.at < |s.stream|)
  {
    (|s.stream| + 3) * Rank(s) + Restless(s.threads) + if s.main.MainAwake? then 1 else 0
  }

  lemma {:induction false} RestlessSet(threads: seq<Worker>, w: nat, worker: Worker)
    requires w < |threads|
    ensures var weight := (p: Phase) => if p.Fresh? || p.Awake? then 1 else 0;
      Restless(threads[w := worker]) == Restless(threads) - weight(threads[w].phase) + weight(worker.phase)
  {
    var n := |threads| - 1;
    if w == n {
      assert threads[w := worker][..n] == threads[..n];
    } else {
      RestlessSet(threads[..n], w, worker);
      assert threads[w := worker][..n] == threads[..n][w := worker];
    }
  }

  lemma RankGap(n: nat, p: nat, q: nat)
    requires p < q
    ensures n * p + n <= n * q
  {
    MulKeepsOrder(p + 1, q, n);
    assert n * (p + 1) == n * p + n;
  }

  lemma LowerRank(s: State, t: State)
    requires Inv(s) && Inv(t) && t.stream == s.stream && Rank(t) < Rank(s)
    ensures Measure(t) < Measure(s)
  {
    hide Rank, ThreadsSound, NoMissedWakeup, RanInOrder;
    RankGap(|s.stream| + 3, Rank(t), Rank(s));
    assert Restless(t.threads) <= |s.stream| + 1;
  }

  lemma QuietTest(s: State, w: nat)
    requires Inv(s) && Enabled(s, Test(w)) && !(s.syncThreadId == s.threads[w].id && s.token.Some?)
    ensures Measure(Next(s, Test(w))) == Measure(s) - 1
  {
    RestlessSet(s.threads, w, Worker(s.threads[w].id, Asleep));
    assert Rank(Next(s, Test(w))) == Rank(s);
  }

  /** A thread that looks in vain, or a dispatcher woken too early. */
  predicate Quiet(s: State, step: Step)
    requires Enabled(s, step)
  {
    match step
    case Test(w) => !(s.syncThreadId == s.threads[w].id && s.token.Some?)
    case Return => s.token.Some?
    case _ => false
  }

  lemma RankDrops(s: State, step: Step)
    requires Inv(s) && Enabled(s, step) && !step.Spurious() && !Quiet(s, step) && Inv(Next(s, step))
    ensures Next(s, step).stream == s.stream && Rank(Next(s, step)) < Rank(s)
  {
    hide NoMissedWakeup, RanInOrder;
  }

  lemma QuietReturn(s: State)
    requires Inv(s) && Enabled(s, Return) && s.token.Some?
    ensures Measure(Next(s, Return)) == Measure(s) - 1
  {
    assert Rank(Next(s, Return)) == Rank(s);
  }

  lemma StepLowers(s: State, step: Step)
    requires Inv(s) && Enabled(s, step) && !step.Spurious()
    ensures Inv(Next(s, step)) && Measure(Next(s, step)) < Measure(s)
  {
    hide Next, Rank, Inv, Measure;
    NextKeeps(s, step);
    if !Quiet(s, step) {
      RankDrops(s, step);
      LowerRank(s, Next(s, step));
    } else if step.Test? {
      QuietTest(s, step.w);
    } else {
      QuietReturn(s);
    }
  }

  lemma SpuriousRaises(s: State, step: Step)
    requires Inv(s) && Enabled(s, step) && step.Spurious()
    ensures Inv(Next(s, step)) && Measure(Next(s, step)) == Measure(s) + 1
  {
    NextKeeps(s, step);
    if step.SpuriousWorker? {
      RestlessSet(s.threads, step.w, Worker(s.threads[step.w].id, Awake));
    }
    assert Rank(Next(s, step)) == Rank(s);
  }

  function SpuriousIn(schedule: seq<Step>): nat {
    if schedule == [] then 0 else SpuriousIn(schedule[1..]) + if schedule[0].Spurious() then 1 else 0
  }

  lemma {:induction false} ScheduleBound(s: State, schedule: seq<Step>, t: State)
    requires Inv(s) && Reaches(s, schedule, t)
    ensures Inv(t) && |schedule| + Measure(t) <= Measure(s) + 2 * SpuriousIn(schedule)
    decreases |schedule|
  {
    hide Inv, Next, Measure;
    if schedule != [] {
      var next := Next(s, schedule[0]);
      if schedule[0].Spurious() {
        SpuriousRaises(s, schedule[0]);
      } else {
        StepLowers(s, schedule[0]);
      }
      ScheduleBound(next, schedule[1..], t);
    }
  }

  lemma InitMeasure(stream: seq<nat>, nullRun: bool)
    ensures Measure(Init(stream, nullRun)) == (|stream| + 3) * (6 * |stream|)
  {
    assert Rank(Init(stream, nullRun)) == 6 * |stream|;
  }

  /** No schedule runs for ever on anything but spurious wake-ups. */
  lemma SchedulesAreBounded(stream: seq<nat>, nullRun: bool, schedule: seq<Step>, t: State)
    requires Reaches(Init(stream, nullRun), schedule, t)
    ensures |schedule| <= (|stream| + 3) * (6 * |stream|) + 2 * SpuriousIn(schedule)
  {
    InitSound(stream, nullRun);
    InitMeasure(stream, nullRun);
    hide Measure, Rank, Inv;
    ScheduleBound(Init(stream, nullRun), schedule, t);
  }

  /** Only a spurious wake-up could still happen. */
  ghost predicate Stopped(t: State) {
    forall step: Step :: Enabled(t, step) ==> step.Spurious()
  }

  /** A schedule that cannot go on has dispatched the whole stream, and every token has run in stream
      order on its thread. */
  lemma MaximalSchedulesFinish(stream: seq<nat>, nullRun: bool, schedule: seq<Step>, t: State)
    requires Reaches(Init(stream, nullRun), schedule, t)
    ensures Stopped(t) ==> t.Done()
    ensures t.Done() ==> t.at == |stream| && t.ran == if nullRun then [] else Runs(stream, |stream|)
  {
    if !t.Done() {
      var step := NoDeadlock(stream, nullRun, schedule, t);
    } else {
      InitSound(stream, nullRun);
      ReachableSound(Init(stream, nullRun), schedule, t);
      StreamStays(Init(stream, nullRun), schedule, t);
    }
  }

  lemma {:induction false} ReachesFurther(s: State, schedule: seq<Step>, t: State, step: Step)
    requires Reaches(s, schedule, t) && Enabled(t, step)
    ensures Reaches(s, schedule + [step], Next(t, step))
    decreases |schedule|
  {
    hide Next;
    if schedule == [] {
      assert ([step])[1..] == [];
    } else {
      ReachesFurther(Next(s, schedule[0]), schedule[1..], t, step);
      assert (schedule + [step])[1..] == schedule[1..] + [step];
    }
  }

  lemma {:induction false} CarriedOn(stream: seq<nat>, nullRun: bool, schedule: seq<Step>, t: State)
    returns (rest: seq<Step>, u: State)
    requires Reaches(Init(stream, nullRun), schedule, t) && Inv(t)
    ensures Reaches(Init(stream, nullRun), schedule + rest, u) && u.Done()
    ensures SpuriousIn(rest) == 0
    decreases Measure(t)
  {
    hide Inv, Next, Measure;
    if t.Done() {
      rest, u := [], t;
      assert schedule + rest == schedule;
    } else {
      var step := NoDeadlock(stream, nullRun, schedule, t);
      ReachesFurther(Init(stream, nullRun), schedule, t, step);
      StepLowers(t, step);
      var later, v := CarriedOn(stream, nullRun, schedule + [step], Next(t, step));
      rest, u := [step] + later, v;
      assert schedule + [step] + later == schedule + rest;
    }
  }

  /** Wherever a schedule has got to, it can be carried on to the end of the stream without a spurious
      wake-up; by the bound, every schedule that keeps going gets there. */
  lemma EveryScheduleCanFinish(stream: seq<nat>, nullRun: bool, schedule: seq<Step>, t: State)
    returns (rest: seq<Step>, u: State)
    requires Reaches(Init(stream, nullRun), schedule, t)
    ensures Reaches(Init(stream, nullRun), schedule + rest, u) && u.Done() && SpuriousIn(rest) == 0
  {
    hide Inv, Next;
    InitSound(stream, nullRun);
    ReachableSound(Init(stream, nullRun), schedule, t);
    rest, u := CarriedOn(stream, nullRun, schedule, t);
  }
}
