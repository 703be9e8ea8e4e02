/** The four buffer pools together with the command lists being recorded and the GPU. The GPU is a
    set of queues it drains in order, one entry at a time, at any moment: work that reads or writes
    buffers, and fence signals. */
module PoolSafety {
  import opened BufferPool
  import opened Wrappers

  type QueueId = nat

  datatype Kind = Mapping | Patch | InstancePatch | InstanceStaging

  datatype Buffer = Buffer(kind: Kind, index: nat)

  datatype Entry = Work(buffers: set<Buffer>) | Signal(buffer: Buffer, value: nat)

  type Queues = map<QueueId, seq<Entry>>

  /** A signal batch the CPU has still to enqueue after ExecuteCommandLists. */
  datatype Job = Job(queue: QueueId, kind: Kind, list: Key)

  datatype Pools = Pools(mapping: Pool, patch: Pool, instancePatch: Pool, instanceStaging: Pool)
  {
    function Get(kind: Kind): Pool {
      match kind
      case Mapping => mapping
      case Patch => patch
      case InstancePatch => instancePatch
      case InstanceStaging => instanceStaging
    }

    function Set(kind: Kind, pool: Pool): (r: Pools)
      ensures r.Get(kind) == pool
      ensures forall other :: other != kind ==> r.Get(other) == Get(other)
    {
      match kind
      case Mapping => this.(mapping := pool)
      case Patch => this.(patch := pool)
      case InstancePatch => this.(instancePatch := pool)
      case InstanceStaging => this.(instanceStaging := pool)
    }

    predicate Valid(b: Buffer) {
      b.index < |Get(b.kind).slots|
    }

    function SlotOf(b: Buffer): Slot
      requires Valid(b)
    {
      Get(b.kind).slots[b.index]
    }

    predicate Owns(cl: Key, b: Buffer) {
      Get(b.kind).Owns(cl, b.index)
    }
  }

  datatype State = State(
    pools: Pools,
    recorded: map<Key, set<Buffer>>,     // the buffers the current recording of each list refers to
    submitted: set<Key>,                 // lists executed since their last reset
    queues: Queues,                      // what the GPU has still to process
    jobs: seq<Job>)                      // signals the CPU has still to enqueue
  {
    function RecordedBy(cl: Key): set<Buffer> {
      if cl in recorded then recorded[cl] else {}
    }
  }

  function Lane(queues: Queues, q: QueueId): seq<Entry> {
    if q in queues then queues[q] else []
  }

  datatype Action =
    | TakeBestFit(list: Key, size: nat, grown: nat)
    | TakePerList(list: Key)
    | TakeFixed(list: Key, kind: Kind)
    | Execute(queue: QueueId, lists: seq<Key>)
    | SubmitNext
    | Drop(list: Key)
    | Reset(list: Key)
    | Gpu(queue: QueueId)
  {
    predicate Takes() {
      TakeBestFit? || TakePerList? || TakeFixed?
    }
  }

  /** What the layer can be asked to do. The CPU finishes one submission before anything else. */
  predicate Possible(s: State, a: Action) {
    match a
    case TakeBestFit(_, size, grown) => s.jobs == [] && size <= grown
    case TakeFixed(cl, kind) =>
      && s.jobs == [] && (kind.InstancePatch? || kind.InstanceStaging?)
      && s.pools.Get(kind).TakeFixed(cl).Some?
    case SubmitNext => s.jobs != []
    case Gpu(q) => Lane(s.queues, q) != []
    case _ => s.jobs == []
  }

  /** The application's side: a list is recorded only after a reset, and executed at most once per
      recording. */
  predicate Once(s: State, a: Action) {
    match a
    case Execute(_, lists) => forall i :: 0 <= i < |lists| ==> lists[i] !in s.submitted
    case _ => a.Takes() ==> a.list !in s.submitted
  }

  predicate Allowed(s: State, a: Action) {
    Possible(s, a) && Once(s, a)
  }

  /** The pool and index an acquisition leads to. */
  function Taking(s: State, a: Action): (r: (Pool, Buffer))
    requires Possible(s, a) && a.Takes()
  {
    match a
    case TakeBestFit(cl, size, grown) =>
      var (pool, i) := s.pools.patch.TakeBestFit(cl, size, grown);
      (pool, Buffer(Patch, i))
    case TakePerList(cl) =>
      var (pool, i) := s.pools.mapping.TakePerList(cl);
      (pool, Buffer(Mapping, i))
    case TakeFixed(cl, kind) =>
      var (pool, i) := s.pools.Get(kind).TakeFixed(cl).value;
      (pool, Buffer(kind, i))
  }

  function AllRecorded(s: State, lists: seq<Key>): set<Buffer> {
    set i, b | 0 <= i < |lists| && b in s.RecordedBy(lists[i]) :: b
  }

  /** Post(ExecuteCommandLists) visits the lists in order, and per list the four pools. */
  function Jobs(q: QueueId, lists: seq<Key>): seq<Job> {
    if lists == [] then []
    else [Job(q, Mapping, lists[0]), Job(q, Patch, lists[0]), Job(q, InstancePatch, lists[0]),
          Job(q, InstanceStaging, lists[0])] + Jobs(q, lists[1..])
  }

  function Signals(kind: Kind, slots: seq<Slot>, indices: seq<nat>): seq<Entry> {
    if indices == [] then []
    else
      var i := indices[|indices| - 1];
      Signals(kind, slots, indices[..|indices| - 1])
      + if i < |slots| then [Signal(Buffer(kind, i), slots[i].lastSignal + 1)] else []
  }

  function Append(queues: Queues, q: QueueId, entries: seq<Entry>): Queues {
    queues[q := Lane(queues, q) + entries]
  }

  function Reached(pool: Pool, i: nat, value: nat): Pool {
    if i < |pool.slots| then pool.(slots := pool.slots[i := pool.slots[i].(completed := value)]) else pool
  }

  function Next(s: State, a: Action): State
    requires Possible(s, a)
  {
    match a
    case Execute(q, lists) =>
      s.(queues := Append(s.queues, q, [Work(AllRecorded(s, lists))]),
         submitted := s.submitted + (set i | 0 <= i < |lists| :: lists[i]),
         jobs := Jobs(q, lists))
    case SubmitNext =>
      var job := s.jobs[0];
      var pool := s.pools.Get(job.kind);
      s.(pools := s.pools.Set(job.kind, pool.Submitted(job.list)),
         queues := Append(s.queues, job.queue, Signals(job.kind, pool.slots, pool.OwnedBy(job.list))),
         jobs := s.jobs[1..])
    case Drop(cl) =>
      s.(pools := Pools(s.pools.mapping.Dropped(cl), s.pools.patch.Dropped(cl),
                        s.pools.instancePatch.Dropped(cl), s.pools.instanceStaging.Dropped(cl)),
         recorded := s.recorded - {cl}, submitted := s.submitted - {cl})
    case Reset(cl) => s.(recorded := s.recorded - {cl}, submitted := s.submitted - {cl})
    case Gpu(q) =>
      var head := Lane(s.queues, q)[0];
      var rest := s.(queues := s.queues[q := Lane(s.queues, q)[1..]]);
      if head.Work? then rest
      else
        var kind := head.buffer.kind;
        rest.(pools := s.pools.Set(kind, Reached(s.pools.Get(kind), head.buffer.index, head.value)))
    case _ =>
      var (pool, b) := Taking(s, a);
      s.(pools := s.pools.Set(b.kind, pool), recorded := s.recorded[a.list := s.RecordedBy(a.list) + {b}])
  }

  function Fresh(count: nat, size: nat): Pool {
    Pool(seq(count, i => Slot(0, 0, false, size)), map[])
  }

  /** Any initial pool counts and any initial patch-buffer size. */
  function Init(mapping: nat, patch: nat, size: nat, instances: nat, staging: nat): State {
    State(Pools(Fresh(mapping, 0), Fresh(patch, size), Fresh(instances, 0), Fresh(staging, 0)), map[], {}, map[], [])
  }

  ghost predicate Run(s: State, actions: seq<Action>)
    decreases |actions|
  {
    actions == [] || (Allowed(s, actions[0]) && Run(Next(s, actions[0]), actions[1..]))
  }

  ghost function After(s: State, actions: seq<Action>): State
    requires Run(s, actions)
    decreases |actions|
  {
    if actions == [] then s else After(Next(s, actions[0]), actions[1..])
  }
}
