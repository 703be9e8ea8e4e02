/** The argument-buffer kernel as interleaved threads. */
module ArgumentKernelThreads {
  import opened AddressMapping
  import opened ArgumentKernel
  import opened ArgumentLayout
  import opened Arithmetic
  import opened Interleaving
  import opened Wrappers

  /** One iteration for the address at word w, step by step: load two halves, look the address up,
      store two halves or nothing. `halves` is what the iteration has logged so far. */
  function AddressOp(tables: Tables, w: nat, halves: seq<Half>): Op<Half>
    requires |halves| < 4
  {
    if |halves| == 0 then Load(w)
    else if |halves| == 1 then Load(w + 1)
    else
      var found := Lookup(tables, Join(halves[0], halves[1]));
      if found.None? then Pass
      else if |halves| == 2 then Store(w, Low(found.value))
      else Store(w + 1, High(found.value))
  }

  /** One command: its iterations one after the other, four steps each. */
  function CommandOp(tables: Tables, offsets: seq<nat>, start: nat, log: seq<Half>): Op<Half> {
    var j := |log| / 4;
    if j >= |offsets| then Halt
    else AddressOp(tables, (start + offsets[j]) % TWO_TO_THE_32 / 4, log[4 * j..])
  }

  function Kernel(tables: Tables, offsets: seq<nat>, stride: nat, commands: nat): Program<Half> {
    (t: nat, log: seq<Half>) =>
      if t >= commands then Halt else CommandOp(tables, offsets, BaseByte(t, stride), log)
  }

  lemma AddressSteps(tables: Tables, w: nat, memory: seq<Half>)
    requires Ordered(tables.addresses) && w + 1 < |memory|
    ensures var (m1, l1) := Apply<Half>(AddressOp(tables, w, []), 0, memory, []);
      var (m2, l2) := Apply<Half>(AddressOp(tables, w, l1), 0, m1, l1);
      var (m3, l3) := Apply<Half>(AddressOp(tables, w, l2), 0, m2, l2);
      var (m4, l4) := Apply<Half>(AddressOp(tables, w, l3), 0, m3, l3);
      && |l1| == 1 && |l2| == 2 && |l3| == 3 && |l4| == 4
      && m4 == memory[w := Low(PatchedAddress(tables, AddressAt(memory, w)))][w + 1 := High(PatchedAddress(tables, AddressAt(memory, w)))]
  {
    var a := Join(memory[w], memory[w + 1]);
    SplitJoin(a, memory[w], memory[w + 1]);
    LookupIsPatchedAddress(tables, a);
    hide Ordered, Lookup, PatchedAddress, Low, High, Join;
  }

  /** A step inside iteration j sees only what that iteration has logged. */
  lemma StepInIteration(tables: Tables, offsets: seq<nat>, start: nat, j: nat, prefix: seq<Half>, halves: seq<Half>,
                        memory: seq<Half>, w: nat)
    requires |prefix| == 4 * j && |halves| < 4 && j < |offsets| && w == (start + offsets[j]) % TWO_TO_THE_32 / 4
    ensures var (m, l) := Apply<Half>(AddressOp(tables, w, halves), 0, memory, halves);
      Apply<Half>(CommandOp(tables, offsets, start, prefix + halves), 0, memory, prefix + halves) == (m, prefix + l)
  {
    var log := prefix + halves;
    assert |log| / 4 == j && log[4 * j..] == halves;
    hide AddressOp;
    var op := AddressOp(tables, w, halves);
    assert CommandOp(tables, offsets, start, log) == op;
    hide CommandOp;
    var l := Apply(op, 0, memory, halves).1;
    assert !op.Halt? ==> prefix + l == log + [l[|halves|]];
  }

  /** Thread t alone for n steps. */
  function Solo(tables: Tables, offsets: seq<nat>, stride: nat, commands: nat, was: seq<Half>, t: nat, n: nat): (seq<Half>, seq<Half>)
  {
    Alone<Half>(Kernel(tables, offsets, stride, commands), 0, t, was, n)
  }

  lemma SoloNext(tables: Tables, offsets: seq<nat>, stride: nat, commands: nat, was: seq<Half>, t: nat, n: nat)
    requires t < commands
    ensures var (memory, log) := Solo(tables, offsets, stride, commands, was, t, n);
      Solo(tables, offsets, stride, commands, was, t, n + 1)
      == Apply<Half>(CommandOp(tables, offsets, BaseByte(t, stride), log), 0, memory, log)
  {
  }

  lemma NextInIteration(tables: Tables, offsets: seq<nat>, stride: nat, commands: nat, was: seq<Half>, t: nat, j: nat, w: nat,
                        prefix: seq<Half>, halves: seq<Half>, memory: seq<Half>)
    requires t < commands && |prefix| == 4 * j && |halves| < 4
    requires j < |offsets| && w == (BaseByte(t, stride) + offsets[j]) % TWO_TO_THE_32 / 4
    requires Solo(tables, offsets, stride, commands, was, t, 4 * j + |halves|) == (memory, prefix + halves)
    ensures var (m, l) := Apply<Half>(AddressOp(tables, w, halves), 0, memory, halves);
      Solo(tables, offsets, stride, commands, was, t, 4 * j + |halves| + 1) == (m, prefix + l)
  {
    SoloNext(tables, offsets, stride, commands, was, t, 4 * j + |halves|);
    StepInIteration(tables, offsets, BaseByte(t, stride), j, prefix, halves, memory, w);
  }

  lemma FourSteps(tables: Tables, offsets: seq<nat>, stride: nat, commands: nat, was: seq<Half>, t: nat, j: nat, w: nat,
                  memory: seq<Half>, log: seq<Half>)
    requires t < commands && j < |offsets| && w == (BaseByte(t, stride) + offsets[j]) % TWO_TO_THE_32 / 4
    requires Solo(tables, offsets, stride, commands, was, t, 4 * j) == (memory, log) && |log| == 4 * j
    requires Ordered(tables.addresses) && w + 1 < |memory|
    ensures var (after, longer) := Solo(tables, offsets, stride, commands, was, t, 4 * j + 4);
      && |longer| == 4 * j + 4
      && after == memory[w := Low(PatchedAddress(tables, AddressAt(memory, w)))][w + 1 := High(PatchedAddress(tables, AddressAt(memory, w)))]
  {
    hide Solo, AddressOp, PatchedAddress, AddressAt, Ordered;
    AddressSteps(tables, w, memory);
    var (m1, l1) := Apply<Half>(AddressOp(tables, w, []), 0, memory, []);
    var (m2, l2) := Apply<Half>(AddressOp(tables, w, l1), 0, m1, l1);
    var (m3, l3) := Apply<Half>(AddressOp(tables, w, l2), 0, m2, l2);
    assert log + [] == log;
    NextInIteration(tables, offsets, stride, commands, was, t, j, w, log, [], memory);
    NextInIteration(tables, offsets, stride, commands, was, t, j, w, log, l1, m1);
    NextInIteration(tables, offsets, stride, commands, was, t, j, w, log, l2, m2);
    NextInIteration(tables, offsets, stride, commands, was, t, j, w, log, l3, m3);
  }

  lemma WordOf(offsets: seq<nat>, start: nat, j: nat, base: nat, words: nat)
    requires Placed(offsets, words) && j < |offsets| && start == 4 * base && 4 * (base + words) < TWO_TO_THE_32
    ensures (start + offsets[j]) % TWO_TO_THE_32 / 4 == base + offsets[j] / 4 && offsets[j] / 4 + 1 < words
  {
    var p := offsets[j] / 4;
    assert offsets[j] == 4 * p;
  }

  lemma PartlySize(tables: Tables, offsets: seq<nat>, was: seq<Half>, base: nat, words: nat, n: nat, now: seq<Half>)
    requires Placed(offsets, words) && base + words <= |was| && Partly(tables, offsets, was, base, words, n, now)
    ensures |now| == |was|
  {
    hide PatchedHalf, Visited;
  }

  lemma OneMore(tables: Tables, offsets: seq<nat>, stride: nat, commands: nat, was: seq<Half>, t: nat, j: nat, base: nat, words: nat)
    requires Ordered(tables.addresses) && Placed(offsets, words) && t < commands && j < |offsets|
    requires BaseByte(t, stride) == 4 * base && base + words <= |was| && 4 * |was| < TWO_TO_THE_32
    requires var (memory, log) := Solo(tables, offsets, stride, commands, was, t, 4 * j);
      Partly(tables, offsets, was, base, words, j, memory) && |log| == 4 * j
    ensures var (memory, log) := Solo(tables, offsets, stride, commands, was, t, 4 * j + 4);
      Partly(tables, offsets, was, base, words, j + 1, memory) && |log| == 4 * j + 4
  {
    hide Solo, BaseByte, Ordered, PatchedAddress, PatchedHalf, AddressAt, Partly, Visited;
    var (memory, log) := Solo(tables, offsets, stride, commands, was, t, 4 * j);
    var (after, longer) := Solo(tables, offsets, stride, commands, was, t, 4 * j + 4);
    var w := base + offsets[j] / 4;
    WordOf(offsets, BaseByte(t, stride), j, base, words);
    PartlySize(tables, offsets, was, base, words, j, memory);
    FourSteps(tables, offsets, stride, commands, was, t, j, w, memory, log);
    PartlyNext(tables, offsets, was, base, words, j, memory, after, w);
  }

  lemma {:induction false} SoloFrom(tables: Tables, offsets: seq<nat>, stride: nat, commands: nat, was: seq<Half>, t: nat, j: nat,
                                    base: nat, words: nat)
    requires Ordered(tables.addresses) && Placed(offsets, words) && t < commands && j <= |offsets|
    requires BaseByte(t, stride) == 4 * base && base + words <= |was| && 4 * |was| < TWO_TO_THE_32
    ensures var (memory, log) := Solo(tables, offsets, stride, commands, was, t, 4 * j);
      Partly(tables, offsets, was, base, words, j, memory) && |log| == 4 * j
  {
    hide BaseByte, Ordered, PatchedAddress, PatchedHalf;
    if j == 0 {
      assert forall k: int :: !Visited(offsets, 0, k);
    } else {
      hide Solo, Partly;
      SoloFrom(tables, offsets, stride, commands, was, t, j - 1, base, words);
      OneMore(tables, offsets, stride, commands, was, t, j - 1, base, words);
    }
  }

  /** A thread alone patches its addresses one after the other. */
  lemma SoloProgress(tables: Tables, offsets: seq<nat>, stride: nat, commands: nat, was: seq<Half>, t: nat, j: nat)
    requires Ordered(tables.addresses) && Fits(was, stride, commands) && Placed(offsets, stride / 4)
    requires t < commands && j <= |offsets|
    ensures var base, words := t * (stride / 4), stride / 4;
      var (memory, log) := Solo(tables, offsets, stride, commands, was, t, 4 * j);
      base + words <= |was| && Partly(tables, offsets, was, base, words, j, memory) && |log| == 4 * j
  {
    hide Ordered, Placed, Partly, Solo;
    BaseInside(was, stride, commands, t);
    SoloFrom(tables, offsets, stride, commands, was, t, j, t * (stride / 4), stride / 4);
  }

  lemma CommandOpInside(tables: Tables, offsets: seq<nat>, start: nat, log: seq<Half>, base: nat, words: nat)
    requires Placed(offsets, words) && start == 4 * base && 4 * (base + words) < TWO_TO_THE_32
    ensures match CommandOp(tables, offsets, start, log)
            case Load(address) => base <= address < base + words
            case Store(address, _) => base <= address < base + words
            case _ => true
  {
    var j := |log| / 4;
    if j < |offsets| {
      assert (start + offsets[j]) % TWO_TO_THE_32 == start + offsets[j];
    }
  }

  lemma KernelOnRecords(tables: Tables, offsets: seq<nat>, stride: nat, commands: nat, buffer: seq<Half>)
    requires Ordered(tables.addresses) && Fits(buffer, stride, commands) && Placed(offsets, stride / 4)
    ensures RecordKernel<Half>(Kernel(tables, offsets, stride, commands), 0, buffer, stride / 4, commands, 4 * |offsets|)
  {
    var p: Program<Half> := Kernel(tables, offsets, stride, commands);
    forall t: nat ensures OnRecords(p, stride / 4, commands, t) {
      if t < commands {
        BaseInside(buffer, stride, commands, t);
        forall log: seq<Half>
          ensures match p(t, log)
                  case Load(address) => t * (stride / 4) <= address < t * (stride / 4) + stride / 4
                  case Store(address, _) => t * (stride / 4) <= address < t * (stride / 4) + stride / 4
                  case _ => true
        {
          CommandOpInside(tables, offsets, BaseByte(t, stride), log, t * (stride / 4), stride / 4);
        }
      }
    }
    forall t: nat | t < commands ensures p(t, Alone<Half>(p, 0, t, buffer, 4 * |offsets|).1).Halt? {
      SoloProgress(tables, offsets, stride, commands, buffer, t, |offsets|);
    }
  }

  /** Words of a command lie in the buffer. */
  lemma WordInside(buffer: seq<Half>, stride: nat, commands: nat, a: nat)
    requires Fits(buffer, stride, commands) && a < |buffer| && a / (stride / 4) < commands
    ensures var words := stride / 4; a / words * words + words <= |buffer| && a == a / words * words + a % words && a % words < words
  {
    BaseInside(buffer, stride, commands, a / (stride / 4));
  }

  /** Word a of the buffer every complete schedule leaves: patched if it belongs to one of the commands. */
  ghost function PatchedWord(tables: Tables, offsets: seq<nat>, stride: nat, commands: nat, buffer: seq<Half>, a: nat): Half
    requires Fits(buffer, stride, commands) && Placed(offsets, stride / 4) && a < |buffer|
  {
    var words := stride / 4;
    if a / words < commands then
      WordInside(buffer, stride, commands, a);
      PatchedHalf(tables, offsets, buffer, a / words * words, words, a % words)
    else buffer[a]
  }

  /** The addresses of the first min(count, max) commands patched, every other byte as it was. */
  ghost function PatchedBuffer(tables: Tables, offsets: seq<nat>, stride: nat, commands: nat, buffer: seq<Half>): (r: seq<Half>)
    requires Fits(buffer, stride, commands) && Placed(offsets, stride / 4)
    ensures |r| == |buffer|
    ensures forall a: nat :: a < |buffer| ==> r[a] == PatchedWord(tables, offsets, stride, commands, buffer, a)
  {
    seq(|buffer|, (a: nat) requires a < |buffer| => PatchedWord(tables, offsets, stride, commands, buffer, a))
  }

  lemma BufferAt(tables: Tables, offsets: seq<nat>, stride: nat, commands: nat, buffer: seq<Half>, a: nat, base: nat, k: nat)
    requires Fits(buffer, stride, commands) && Placed(offsets, stride / 4)
    requires a < |buffer| && a / (stride / 4) < commands && base == a / (stride / 4) * (stride / 4) && k == a % (stride / 4)
    ensures base + stride / 4 <= |buffer| && a == base + k
    ensures PatchedBuffer(tables, offsets, stride, commands, buffer)[a] == PatchedHalf(tables, offsets, buffer, base, stride / 4, k)
  {
    hide PatchedHalf, Placed, PatchedBuffer;
    WordInside(buffer, stride, commands, a);
  }

  lemma SoloResult(tables: Tables, offsets: seq<nat>, stride: nat, commands: nat, buffer: seq<Half>, a: nat)
    requires Ordered(tables.addresses) && Fits(buffer, stride, commands) && Placed(offsets, stride / 4)
    requires a < |buffer| && a / (stride / 4) < commands
    ensures Solo(tables, offsets, stride, commands, buffer, a / (stride / 4), 4 * |offsets|).0[a]
         == PatchedBuffer(tables, offsets, stride, commands, buffer)[a]
  {
    hide Solo, Ordered, Placed, Partly, PatchedHalf, PatchedBuffer;
    var words := stride / 4;
    var t := a / words;
    var base: nat, k: nat := t * words, a % words;
    BufferAt(tables, offsets, stride, commands, buffer, a, base, k);
    SoloProgress(tables, offsets, stride, commands, buffer, t, |offsets|);
    AllPatched(tables, offsets, buffer, base, words, Solo(tables, offsets, stride, commands, buffer, t, 4 * |offsets|).0);
  }

  /** The dispatched threads together, under a schedule: one thread for each of the at most `max`
      commands, of which the first min(count, max) are worked on. */
  ghost function Final(tables: Tables, offsets: seq<nat>, stride: nat, count: nat, max: nat, buffer: seq<Half>,
                       schedule: seq<nat>): Machine<Half>
  {
    Together<Half>(Kernel(tables, offsets, stride, Min(count, max)), 0, Start<Half>(buffer, Threads(max)), schedule)
  }

  ghost predicate Complete(tables: Tables, offsets: seq<nat>, stride: nat, count: nat, max: nat, buffer: seq<Half>,
                           schedule: seq<nat>)
  {
    AllHalted<Half>(Kernel(tables, offsets, stride, Min(count, max)), Final(tables, offsets, stride, count, max, buffer, schedule))
  }

  lemma AnySchedulePatches(tables: Tables, offsets: seq<nat>, stride: nat, count: nat, max: nat, buffer: seq<Half>,
                           schedule: seq<nat>)
    requires Ordered(tables.addresses) && Fits(buffer, stride, Min(count, max)) && max <= 0xFFFF_FFE0
    requires Placed(offsets, stride / 4) && Complete(tables, offsets, stride, count, max, buffer, schedule)
    ensures Final(tables, offsets, stride, count, max, buffer, schedule).memory
         == PatchedBuffer(tables, offsets, stride, Min(count, max), buffer)
  {
    hide Kernel, Threads, Ordered, RecordKernel, Placed, PatchedBuffer;
    var commands, words := Min(count, max), stride / 4;
    DispatchCovers(max);
    KernelOnRecords(tables, offsets, stride, commands, buffer);
    AnyScheduleSameRecords<Half>(Kernel(tables, offsets, stride, commands), 0, buffer, words, commands, 4 * |offsets|,
                                 Threads(max), schedule);
    BufferSize(tables, offsets, stride, commands, buffer);
    forall a: nat | a < |buffer|
      ensures Final(tables, offsets, stride, count, max, buffer, schedule).memory[a]
           == PatchedBuffer(tables, offsets, stride, commands, buffer)[a]
    {
      if a / words < commands {
        SoloResult(tables, offsets, stride, commands, buffer, a);
      }
    }
  }

  lemma BufferSize(tables: Tables, offsets: seq<nat>, stride: nat, commands: nat, buffer: seq<Half>)
    requires Fits(buffer, stride, commands) && Placed(offsets, stride / 4)
    ensures |PatchedBuffer(tables, offsets, stride, commands, buffer)| == |buffer|
    ensures forall a: nat :: a < |buffer| && a / (stride / 4) >= commands ==>
              PatchedBuffer(tables, offsets, stride, commands, buffer)[a] == buffer[a]
  {
    hide PatchedHalf, Placed, PatchedBuffer;
  }

  /** Whatever the interleaving, the kernel leaves PatchedBuffer for the offsets of the signature: of
      the first min(count, max) commands exactly the address fields change, of the others nothing. */
  lemma AnySchedulePatchesBuffer(tables: Tables, signature: seq<Argument>, stride: nat, count: nat, max: nat, buffer: seq<Half>,
                                 schedule: seq<nat>)
    requires Ordered(tables.addresses) && Fits(buffer, stride, Min(count, max)) && max <= 0xFFFF_FFE0
    requires SignatureSize(signature) <= stride
    requires Complete(tables, AddressOffsets(signature), stride, count, max, buffer, schedule)
    ensures Placed(AddressOffsets(signature), stride / 4)
    ensures Final(tables, AddressOffsets(signature), stride, count, max, buffer, schedule).memory
         == PatchedBuffer(tables, AddressOffsets(signature), stride, Min(count, max), buffer)
  {
    hide Placed, Final, Complete, PatchedBuffer, Ordered;
    SignaturePlaced(signature, stride / 4);
    AnySchedulePatches(tables, AddressOffsets(signature), stride, count, max, buffer, schedule);
  }

  /** Every schedule that keeps giving turns gets there: four steps an address are enough. */
  lemma EnoughTurnsPatch(tables: Tables, offsets: seq<nat>, stride: nat, count: nat, max: nat, buffer: seq<Half>, schedule: seq<nat>)
    requires Ordered(tables.addresses) && Fits(buffer, stride, Min(count, max)) && Placed(offsets, stride / 4)
    requires forall t: nat :: t < Min(count, max) ==> Turns(schedule, t) >= 4 * |offsets|
    ensures Complete(tables, offsets, stride, count, max, buffer, schedule)
  {
    hide Kernel, Threads, RecordKernel, Placed, Ordered;
    KernelOnRecords(tables, offsets, stride, Min(count, max), buffer);
    EnoughTurnsHaltRecords<Half>(Kernel(tables, offsets, stride, Min(count, max)), 0, buffer, stride / 4, Min(count, max),
                                 4 * |offsets|, Threads(max), schedule);
  }
}
