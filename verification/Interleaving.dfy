/** Threads of a compute shader that share a buffer. Each thread is deterministic: what it does next
    depends on its index and on what it has read so far. A schedule interleaves single loads and
    stores in any order. Threads that keep to disjoint parts of the buffer cannot disturb each other. */
module Interleaving {
  import opened Arithmetic

  /** `Pass` is a step that touches no shared memory. */
  datatype Op<W> = Load(address: nat) | Store(address: nat, value: W) | Pass | Halt

  /** What thread t does after having logged these values: the value of each load, and a filler for
      every other step. */
  type Program<!W> = (nat, seq<W>) -> Op<W>

  datatype Machine<W> = Machine(memory: seq<W>, logs: seq<seq<W>>)

  /** Accesses outside the buffer read the filler and write nothing. */
  function Apply<W>(op: Op<W>, filler: W, memory: seq<W>, log: seq<W>): (r: (seq<W>, seq<W>))
    ensures |r.0| == |memory|
  {
    match op
    case Load(address) => (memory, log + [if address < |memory| then memory[address] else filler])
    case Store(address, value) => (if address < |memory| then memory[address := value] else memory, log + [filler])
    case Pass => (memory, log + [filler])
    case Halt => (memory, log)
  }

  /** One step of a thread on its own. */
  function Advance<W>(p: Program<W>, filler: W, t: nat, memory: seq<W>, log: seq<W>): (r: (seq<W>, seq<W>))
    ensures |r.0| == |memory|
  {
    Apply(p(t, log), filler, memory, log)
  }

  /** Thread t alone for n steps. */
  function Alone<W>(p: Program<W>, filler: W, t: nat, memory: seq<W>, n: nat): (r: (seq<W>, seq<W>))
    ensures |r.0| == |memory|
  {
    if n == 0 then (memory, [])
    else
      var (before, log) := Alone(p, filler, t, memory, n - 1);
      Advance(p, filler, t, before, log)
  }

  function StepOf<W>(p: Program<W>, filler: W, m: Machine<W>, t: nat): (r: Machine<W>)
    ensures |r.memory| == |m.memory| && |r.logs| == |m.logs|
  {
    if t < |m.logs| then
      var (memory, log) := Advance(p, filler, t, m.memory, m.logs[t]);
      Machine(memory, m.logs[t := log])
    else m
  }

  /** All threads together, following a schedule of thread indices. */
  function Together<W>(p: Program<W>, filler: W, m: Machine<W>, schedule: seq<nat>): (r: Machine<W>)
    ensures |r.memory| == |m.memory| && |r.logs| == |m.logs|
  {
    if schedule == [] then m
    else
      var last := |schedule| - 1;
      StepOf(p, filler, Together(p, filler, m, schedule[..last]), schedule[last])
  }

  function Start<W>(memory: seq<W>, threads: nat): Machine<W> {
    Machine(memory, seq(threads, t => []))
  }

  function Turns(schedule: seq<nat>, t: nat): nat {
    if schedule == [] then 0
    else Turns(schedule[..|schedule| - 1], t) + if schedule[|schedule| - 1] == t then 1 else 0
  }

  /** Whatever it has read, thread t touches only the addresses it owns. */
  ghost predicate Confined<W(!new)>(p: Program<W>, owner: nat -> nat, t: nat) {
    forall log: seq<W> :: match p(t, log)
                          case Load(address) => owner(address) == t
                          case Store(address, _) => owner(address) == t
                          case _ => true
  }

  ghost predicate AllHalted<W>(p: Program<W>, m: Machine<W>) {
    forall t :: 0 <= t < |m.logs| ==> p(t, m.logs[t]).Halt?
  }

  lemma {:induction false} AloneKeepsOthers<W(!new)>(p: Program<W>, filler: W, owner: nat -> nat, t: nat, memory: seq<W>, n: nat)
    requires Confined(p, owner, t)
    ensures forall a: nat :: a < |memory| && owner(a) != t ==> Alone(p, filler, t, memory, n).0[a] == memory[a]
  {
    if n > 0 {
      AloneKeepsOthers(p, filler, owner, t, memory, n - 1);
      var log := Alone(p, filler, t, memory, n - 1).1;
      assert p(t, log).Store? ==> owner(p(t, log).address) == t;
    }
  }

  /** m is what the threads make of `memory` when thread t has had turns(t) steps. */
  ghost predicate Separate<W(!new)>(p: Program<W>, filler: W, owner: nat -> nat, memory: seq<W>, m: Machine<W>, turns: nat -> nat) {
    && |m.memory| == |memory|
    && (forall t: nat :: t < |m.logs| ==> m.logs[t] == Alone(p, filler, t, memory, turns(t)).1)
    && (forall a: nat :: a < |memory| ==>
          m.memory[a] == if owner(a) < |m.logs| then Alone(p, filler, owner(a), memory, turns(owner(a))).0[a] else memory[a])
  }

  lemma StepSeparate<W(!new)>(p: Program<W>, filler: W, owner: nat -> nat, memory: seq<W>, m: Machine<W>,
                              turns: nat -> nat, t: nat, later: nat -> nat)
    requires Separate(p, filler, owner, memory, m, turns) && t < |m.logs| && Confined(p, owner, t)
    requires forall u: nat :: later(u) == turns(u) + if u == t then 1 else 0
    ensures Separate(p, filler, owner, memory, StepOf(p, filler, m, t), later)
  {
    var log := m.logs[t];
    var (memoryAlone, logAlone) := Alone(p, filler, t, memory, turns(t));
    assert Alone(p, filler, t, memory, later(t)) == Advance(p, filler, t, memoryAlone, logAlone);
    assert p(t, log).Load? ==> owner(p(t, log).address) == t;
    assert p(t, log).Store? ==> owner(p(t, log).address) == t;
  }

  /** Non-interference: under any schedule each thread has done exactly what it would have done
      alone, its part of the buffer is what it alone would have left, and the rest is untouched. */
  lemma {:induction false} TogetherIsAlone<W(!new)>(p: Program<W>, filler: W, owner: nat -> nat, memory: seq<W>,
                                                    threads: nat, schedule: seq<nat>)
    requires forall t: nat :: t < threads ==> Confined(p, owner, t)
    ensures Separate(p, filler, owner, memory, Together(p, filler, Start(memory, threads), schedule), t => Turns(schedule, t))
  {
    if schedule != [] {
      var last := |schedule| - 1;
      TogetherIsAlone(p, filler, owner, memory, threads, schedule[..last]);
      var before := Together(p, filler, Start(memory, threads), schedule[..last]);
      if schedule[last] < threads {
        StepSeparate(p, filler, owner, memory, before, t => Turns(schedule[..last], t), schedule[last], t => Turns(schedule, t));
      }
    }
  }

  lemma {:induction false} HaltedStays<W>(p: Program<W>, filler: W, t: nat, memory: seq<W>, n: nat, k: nat)
    requires p(t, Alone(p, filler, t, memory, n).1).Halt? && n <= k
    ensures Alone(p, filler, t, memory, k) == Alone(p, filler, t, memory, n)
    decreases k
  {
    if n < k {
      HaltedStays(p, filler, t, memory, n, k - 1);
    }
  }

  /** Halting is for good, so two halted runs of a thread are the same. */
  lemma HaltedOnce<W>(p: Program<W>, filler: W, t: nat, memory: seq<W>, n: nat, k: nat)
    requires p(t, Alone(p, filler, t, memory, n).1).Halt? && p(t, Alone(p, filler, t, memory, k).1).Halt?
    ensures Alone(p, filler, t, memory, n) == Alone(p, filler, t, memory, k)
  {
    if n <= k {
      HaltedStays(p, filler, t, memory, n, k);
    } else {
      HaltedStays(p, filler, t, memory, k, n);
    }
  }

  /** Threads that own disjoint parts and each halt after a known number of steps leave one and the
      same buffer, whatever the schedule: the parts each thread would leave alone, put together. */
  lemma AnyScheduleSameResult<W(!new)>(p: Program<W>, filler: W, owner: nat -> nat, memory: seq<W>, threads: nat,
                                       lengths: nat -> nat, schedule: seq<nat>)
    requires forall t: nat :: t < threads ==> Confined(p, owner, t) && p(t, Alone(p, filler, t, memory, lengths(t)).1).Halt?
    requires AllHalted(p, Together(p, filler, Start(memory, threads), schedule))
    ensures var after := Together(p, filler, Start(memory, threads), schedule).memory;
      forall a: nat :: a < |memory| ==>
        after[a] == if owner(a) < threads then Alone(p, filler, owner(a), memory, lengths(owner(a))).0[a] else memory[a]
  {
    TogetherIsAlone(p, filler, owner, memory, threads, schedule);
    forall t: nat | t < threads
      ensures Alone(p, filler, t, memory, Turns(schedule, t)) == Alone(p, filler, t, memory, lengths(t))
    {
      assert Together(p, filler, Start(memory, threads), schedule).logs[t] == Alone(p, filler, t, memory, Turns(schedule, t)).1;
      HaltedOnce(p, filler, t, memory, Turns(schedule, t), lengths(t));
    }
  }

  /** A schedule that gives every thread its steps leaves all threads halted. */
  lemma EnoughTurnsHalt<W(!new)>(p: Program<W>, filler: W, owner: nat -> nat, memory: seq<W>, threads: nat,
                                 lengths: nat -> nat, schedule: seq<nat>)
    requires forall t: nat :: t < threads ==> Confined(p, owner, t) && p(t, Alone(p, filler, t, memory, lengths(t)).1).Halt?
    requires forall t: nat :: t < threads ==> Turns(schedule, t) >= lengths(t)
    ensures AllHalted(p, Together(p, filler, Start(memory, threads), schedule))
  {
    TogetherIsAlone(p, filler, owner, memory, threads, schedule);
    forall t: nat | t < threads
      ensures Alone(p, filler, t, memory, Turns(schedule, t)) == Alone(p, filler, t, memory, lengths(t))
    {
      HaltedStays(p, filler, t, memory, lengths(t), Turns(schedule, t));
    }
  }

  // ---------------------------------------------------------------------------------------------
  // Kernels whose thread t works on record t of the buffer

  function RecordOwner(size: nat): nat -> nat
    requires size > 0
  {
    (a: nat) => a / size
  }

  lemma RecordOf(size: nat, t: nat, a: nat)
    requires t * size <= a < t * size + size
    ensures a / size == t
  {
    var q := a / size;
    assert q * size <= a < q * size + size;
    if q < t {
      MulKeepsOrder(q + 1, t, size);
    } else if t < q {
      MulKeepsOrder(t + 1, q, size);
    }
  }

  /** Thread t < count works inside record t; the others stop at once. */
  ghost predicate OnRecords<W(!new)>(p: Program<W>, size: nat, count: nat, t: nat) {
    forall log: seq<W> ::
      if t < count then
        match p(t, log)
        case Load(address) => t * size <= address < t * size + size
        case Store(address, _) => t * size <= address < t * size + size
        case _ => true
      else p(t, log).Halt?
  }

  lemma OnRecordsConfined<W(!new)>(p: Program<W>, size: nat, count: nat, t: nat)
    requires size > 0 && OnRecords(p, size, count, t)
    ensures Confined(p, RecordOwner(size), t)
  {
    forall log: seq<W>
      ensures match p(t, log)
              case Load(address) => RecordOwner(size)(address) == t
              case Store(address, _) => RecordOwner(size)(address) == t
              case _ => true
    {
      var op := p(t, log);
      if op.Load? || op.Store? {
        RecordOf(size, t, op.address);
      }
    }
  }

  /** All threads of a record kernel halt after `steps` steps alone. */
  ghost predicate RecordKernel<W(!new)>(p: Program<W>, filler: W, memory: seq<W>, size: nat, count: nat, steps: nat) {
    && size > 0
    && (forall t: nat :: OnRecords(p, size, count, t))
    && (forall t: nat :: t < count ==> p(t, Alone(p, filler, t, memory, steps).1).Halt?)
  }

  function RecordSteps(count: nat, steps: nat): nat -> nat {
    (t: nat) => if t < count then steps else 0
  }

  lemma RecordKernelReady<W(!new)>(p: Program<W>, filler: W, memory: seq<W>, size: nat, count: nat, steps: nat, t: nat)
    requires RecordKernel(p, filler, memory, size, count, steps)
    ensures Confined(p, RecordOwner(size), t)
    ensures p(t, Alone(p, filler, t, memory, RecordSteps(count, steps)(t)).1).Halt?
  {
    assert OnRecords(p, size, count, t);
    OnRecordsConfined(p, size, count, t);
  }

  /** With at least a thread a record, any schedule that halts leaves in each record what its thread
      alone leaves there, and the rest of the buffer as it was. */
  lemma AnyScheduleSameRecords<W(!new)>(p: Program<W>, filler: W, memory: seq<W>, size: nat, count: nat, steps: nat,
                                        threads: nat, schedule: seq<nat>)
    requires RecordKernel(p, filler, memory, size, count, steps) && count <= threads
    requires AllHalted(p, Together(p, filler, Start(memory, threads), schedule))
    ensures var after := Together(p, filler, Start(memory, threads), schedule).memory;
      forall a: nat :: a < |memory| ==>
        after[a] == if a / size < count then Alone(p, filler, a / size, memory, steps).0[a] else memory[a]
  {
    forall t: nat
      ensures Confined(p, RecordOwner(size), t) && p(t, Alone(p, filler, t, memory, RecordSteps(count, steps)(t)).1).Halt?
    {
      RecordKernelReady(p, filler, memory, size, count, steps, t);
    }
    AnyScheduleSameResult(p, filler, RecordOwner(size), memory, threads, RecordSteps(count, steps), schedule);
  }

  lemma EnoughTurnsHaltRecords<W(!new)>(p: Program<W>, filler: W, memory: seq<W>, size: nat, count: nat, steps: nat,
                                        threads: nat, schedule: seq<nat>)
    requires RecordKernel(p, filler, memory, size, count, steps)
    requires forall t: nat :: t < count ==> Turns(schedule, t) >= steps
    ensures AllHalted(p, Together(p, filler, Start(memory, threads), schedule))
  {
    forall t: nat
      ensures Confined(p, RecordOwner(size), t) && p(t, Alone(p, filler, t, memory, RecordSteps(count, steps)(t)).1).Halt?
    {
      RecordKernelReady(p, filler, memory, size, count, steps, t);
    }
    EnoughTurnsHalt(p, filler, RecordOwner(size), memory, threads, RecordSteps(count, steps), schedule);
  }

  // ---------------------------------------------------------------------------------------------
  // Dispatch sizes, in 32-bit arithmetic

  /** Threads launched by Dispatch((count + 31) / 32, 1, 1) with 32 threads a group. */
  function Threads(count: nat): nat {
    32 * ((count + 31) % TWO_TO_THE_32 / 32)
  }

  /** The rounded-up dispatch has a thread for every element exactly when the sum does not wrap; then
      fewer than a group are left over. */
  lemma DispatchCovers(count: nat)
    requires count < TWO_TO_THE_32
    ensures count <= Threads(count) <==> count <= 0xFFFF_FFE0
    ensures count <= 0xFFFF_FFE0 ==> Threads(count) < count + 32
  {
    var sum := count + 31;
    if count <= 0xFFFF_FFE0 {
      assert sum % TWO_TO_THE_32 == sum;
    } else {
      assert sum % TWO_TO_THE_32 == sum - TWO_TO_THE_32;
    }
  }
}
