/** Asynchronous replay as a transition system. One step is one critical section of the creation
    service, one creation functor, or one main-thread action that no worker can observe. The step
    labels resolve every choice of the scheduler, so a sequence of labels is a schedule. */
module AsyncReplay {
  import opened ReplayCommands
  import opened CreationService

  datatype Output = Failed | Made(count: int)

  /** How far CreateObject has got: functor not run, functor returned, deferred total taken. */
  datatype Phase = Fresh | Ran(success: bool) | Taken(deferred: int)
  {
    predicate Deliverable() {
      Taken? || this == Ran(false)
    }

    function Result(): Output
      requires Deliverable()
    {
      if Taken? then Made(AppliedCount(deferred)) else Failed
    }
  }

  /** A thread inside CreateObject. Maker 0 is the main thread creating inline; the rest are workers. */
  datatype Maker = Idle | Busy(key: Key, phase: Phase)

  type Makers = makers: seq<Maker> | makers != [] witness [Idle]

  /** What the main thread does once Complete has returned. */
  datatype After =
    | Materialise                                    // CompleteObject, then the command itself
    | NextConsumer(rest: seq<Key>)                   // the consumer loop of Pre(Release)
    | NextFlush(results: seq<(Key, Output)>)         // CompleteAll

  datatype Main =
    | Ready
    | Completed                                      // CompleteObject done, command not yet run
    | Awaiting(key: Key, after: After)               // blocked on the future
    | Creating(key: Key, after: After)               // creating inline as maker 0
    | Releasing(consumers: seq<Key>)
    | Flushing(results: seq<(Key, Output)>)

  datatype State = State(
    commands: seq<Command>,
    failing: set<Key>,
    at: nat,                                         // commands finished so far
    main: Main,
    makers: Makers,
    service: Service,
    promises: map<Key, Output>,                      // fulfilled, not yet collected
    preCollected: map<Key, Output>,
    objects: map<Key, int>,                          // the manager's object table
    ran: seq<Key>,                                   // creation functors, in execution order
    freed: set<Key>,                                 // tasks whose owner has destroyed them
    providers: map<Key, set<Key>>)                   // providers recorded with each scheduled key

  datatype Step =
    | Pop(w: nat)
    | Run(m: nat)
    | Take(m: nat)
    | Deliver(w: nat)
    | Begin
    | Collect
    | Arrive
    | Resume
    | Consume
    | FinishRelease
    | Flush(key: Key)
    | FinishFlush

  function Init(commands: seq<Command>, failing: set<Key>, workers: nat): State {
    State(commands, failing, 0, Ready, seq(workers + 1, i => Idle),
          Service.Service(map[], [], map[], map[]), map[], map[], map[], [], {}, map[])
  }

  predicate Enabled(s: State, step: Step) {
    match step
    case Pop(w) => 0 < w < |s.makers| && s.makers[w].Idle? && s.service.queue != []
    case Run(m) => m < |s.makers| && s.makers[m].Busy? && s.makers[m].phase.Fresh?
    case Take(m) => m < |s.makers| && s.makers[m].Busy? && s.makers[m].phase == Ran(true)
    case Deliver(w) => 0 < w < |s.makers| && s.makers[w].Busy? && s.makers[w].phase.Deliverable()
    case Begin => s.main.Ready? && s.at < |s.commands|
    case Collect => s.main.Awaiting? && s.main.key in s.promises
    case Arrive =>
      s.main.Creating? && s.makers[0].Busy? && s.makers[0].phase.Deliverable()
    case Resume => s.main.Completed? && s.at < |s.commands| && s.commands[s.at].Keyed()
    case Consume => s.main.Releasing? && s.main.consumers != []
    case FinishRelease =>
      s.main.Releasing? && s.main.consumers == [] && s.at < |s.commands| && s.commands[s.at].Release?
    case Flush(k) => s.main.Flushing? && k in s.service.tasks
    case FinishFlush => s.main.Flushing? && s.service.tasks == map[]
  }

  function Next(s: State, step: Step): State
    requires Enabled(s, step)
  {
    match step
    case Pop(w) =>
      s.(service := s.service.Pop(), makers := s.makers[w := Busy(s.service.queue[0], Fresh)])
    case Run(m) =>
      var k := s.makers[m].key;
      s.(makers := s.makers[m := Busy(k, Ran(k !in s.failing))], ran := s.ran + [k])
    case Take(m) =>
      var k := s.makers[m].key;
      s.(makers := s.makers[m := Busy(k, Taken(s.service.Deferred(k)))],
         service := s.service.ForgetDeferred(k))
    case Deliver(w) =>
      s.(makers := s.makers[w := Idle],
         promises := s.promises[s.makers[w].key := s.makers[w].phase.Result()])
    case Begin => BeginCommand(s, s.commands[s.at])
    case Collect =>
      var k := s.main.key;
      Arrived(s.(promises := s.promises - {k}), k, s.promises[k], s.main.after)
    case Arrive =>
      Arrived(s.(makers := s.makers[0 := Idle]), s.main.key, s.makers[0].phase.Result(), s.main.after)
    case Resume =>
      var c := s.commands[s.at];
      if c.Release? && c.captured == 0 then
        s.(main := Releasing(s.service.Consumers(c.key)), service := s.service.DropConsumers(c.key))
      else
        Finish(s.(objects := RunDirect(s.objects, c)))
    case Consume =>
      var k, rest := s.main.consumers[0], s.main.consumers[1..];
      if k in s.service.tasks then StartComplete(s, k, NextConsumer(rest)) else s.(main := Releasing(rest))
    case FinishRelease =>
      var c := s.commands[s.at];
      Finish(s.(objects := RunDirect(s.objects, c)))
    case Flush(k) => StartComplete(s, k, NextFlush(s.main.results))
    case FinishFlush => Finish(s.(objects := AddAll(s.objects, s.main.results)))
  }

  function Finish(s: State): State {
    s.(at := s.at + 1, main := Ready)
  }

  /** The Pre handlers of the await and creation layers, followed by the command where nothing has
      to be completed first. */
  function BeginCommand(s: State, c: Command): State {
    match c
    case CreateNow(_) => Finish(s.(objects := SyncStep(s.objects, s.failing, c)))
    case CreateLater(k, ps) =>
      Finish(s.(service := s.service.AddDependencies(ps, k).Schedule(k),
                providers := s.providers[k := NonNull(ps)]))
    case AddRef(k) => CountUpdate(s, c, 1)
    case Release(k, captured) => if captured == 0 then CompleteObject(s, k) else CountUpdate(s, c, -1)
    case Query(k) => CompleteObject(s, k)
    case Use(k) => CompleteObject(s, k)
    case FlushAll => s.(main := Flushing([]))
  }

  function NonNull(providers: seq<Key>): set<Key> {
    set i | 0 <= i < |providers| && providers[i] != 0 :: providers[i]
  }

  /** Pre(AddRef), and Pre(Release) with a non-zero recorded result. */
  function CountUpdate(s: State, c: Command, change: int): State
    requires c.Keyed()
  {
    if c.key in s.objects then Finish(s.(objects := RunDirect(s.objects, c)))
    else if s.service.Pending(c.key) then Finish(s.(service := s.service.Defer(c.key, change)))
    else CompleteObject(s, c.key)
  }

  function CompleteObject(s: State, k: Key): State {
    if k in s.objects then s.(main := Completed)
    else if k in s.preCollected then
      s.(preCollected := s.preCollected - {k}, objects := AddOne(s.objects, k, s.preCollected[k]), main := Completed)
    else if k in s.service.tasks then StartComplete(s, k, Materialise)
    else s.(main := Completed)
  }

  /** Complete for a registered key, up to the point where the lock is dropped. */
  function StartComplete(s: State, k: Key, after: After): State
    requires k in s.service.tasks
  {
    if s.service.tasks[k] then
      s.(service := s.service.Detach(k), main := Awaiting(k, after))
    else
      s.(service := s.service.Detach(k), main := Creating(k, after), makers := s.makers[0 := Busy(k, Fresh)])
  }

  /** Complete has returned; its creation task goes out of scope. */
  function Arrived(s: State, k: Key, out: Output, after: After): State {
    var s := s.(freed := s.freed + {k});
    match after
    case Materialise => s.(objects := AddOne(s.objects, k, out), main := Completed)
    case NextConsumer(rest) => s.(preCollected := s.preCollected[k := out], main := Releasing(rest))
    case NextFlush(results) => s.(main := Flushing(results + [(k, out)]))
  }

  function AddOne(objects: map<Key, int>, k: Key, out: Output): map<Key, int> {
    if out.Made? then objects[k := out.count] else objects
  }

  function AddAll(objects: map<Key, int>, results: seq<(Key, Output)>): map<Key, int> {
    if results == [] then objects
    else
      var last := results[|results| - 1];
      AddOne(AddAll(objects, results[..|results| - 1]), last.0, last.1)
  }

  /** The state after a schedule, where every step was enabled. */
  ghost predicate Reaches(s: State, schedule: seq<Step>, t: State)
    decreases |schedule|
  {
    if schedule == [] then t == s
    else Enabled(s, schedule[0]) && Reaches(Next(s, schedule[0]), schedule[1..], t)
  }
}
