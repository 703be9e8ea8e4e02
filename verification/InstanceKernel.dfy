/** The instance kernels: one thread an instance descriptor, which is eight 64-bit words with the
    address of its bottom-level structure in the last. */
module InstanceKernel {
  import opened AddressMapping
  import opened Interleaving
  import opened Wrappers

  /** The specification of one address: null stays null, an address in a mapping is translated. */
  function PatchedBlas(mappings: seq<Mapping>, a: Word): Word {
    if a != 0 && Linear(mappings, a).Some? then Linear(mappings, a).value else a
  }

  /** The specification stated on the intervals alone. */
  lemma PatchedBlasExactly(mappings: seq<Mapping>, a: Word)
    requires Ordered(mappings)
    ensures if a != 0 && HeldBySome(mappings, a) then TakenTo(mappings, a, PatchedBlas(mappings, a)) else PatchedBlas(mappings, a) == a
  {
    LinearDecides(mappings, a);
  }

  function Lookup(mappings: seq<Mapping>, a: Word): Option<Word> {
    if a == 0 then None else Probe(mappings, a, 0, |mappings| - 1)
  }

  lemma LookupIsPatchedBlas(mappings: seq<Mapping>, a: Word)
    requires Ordered(mappings)
    ensures PatchedBlas(mappings, a) == if Lookup(mappings, a).Some? then Lookup(mappings, a).value else a
  {
    ProbeIsLinear(mappings, a);
  }

  function BlasWord(index: nat): nat {
    8 * index + 7
  }

  /** gits_patch for one thread. */
  method PatchInstance(instances: array<Word>, mappings: seq<Mapping>, indices: seq<nat>, t: nat)
    requires Ordered(mappings) && (t < |indices| ==> BlasWord(indices[t]) < instances.Length)
    modifies instances
    ensures forall a :: 0 <= a < instances.Length ==>
              instances[a] == if t < |indices| && a == BlasWord(indices[t]) then PatchedBlas(mappings, old(instances[a]))
                              else old(instances[a])
  {
    if t >= |indices| {
      return;
    }
    var captureAddress := instances[BlasWord(indices[t])];
    LookupIsPatchedBlas(mappings, captureAddress);
    if captureAddress == 0 {
      return;
    }
    var found := Search(mappings, captureAddress);
    if found.Some? {
      instances[BlasWord(indices[t])] := found.value;
    }
  }

  /** The same thread as two steps. With indices 0, 1, 2, ... it is the kernel for a plain array. */
  function Kernel(mappings: seq<Mapping>, indices: seq<nat>): Program<Word> {
    (t: nat, log: seq<Word>) =>
      if t >= |indices| || |log| >= 2 then Halt
      else if |log| == 0 then Load(BlasWord(indices[t]))
      else
        var found := Lookup(mappings, log[0]);
        if found.Some? then Store(BlasWord(indices[t]), found.value) else Pass
  }

  ghost predicate Distinct(indices: seq<nat>) {
    forall i, j :: 0 <= i < j < |indices| ==> indices[i] != indices[j]
  }

  /** The thread that patches word a, or the number of threads when there is none. */
  function ThreadOf(indices: seq<nat>, a: nat, from: nat): (t: nat)
    requires from <= |indices|
    ensures t < |indices| ==> from <= t && BlasWord(indices[t]) == a
    ensures t >= |indices| ==> t == |indices| && forall i :: from <= i < |indices| ==> BlasWord(indices[i]) != a
    decreases |indices| - from
  {
    if from == |indices| then from
    else if BlasWord(indices[from]) == a then from
    else ThreadOf(indices, a, from + 1)
  }

  function Owner(indices: seq<nat>): nat -> nat {
    (a: nat) => ThreadOf(indices, a, 0)
  }

  function Lengths(indices: seq<nat>): nat -> nat {
    (t: nat) => if t < |indices| then 2 else 0
  }

  /** The buffer with the listed descriptors patched and nothing else changed. */
  function PatchedInstances(mappings: seq<Mapping>, indices: seq<nat>, memory: seq<Word>): seq<Word> {
    seq(|memory|, (a: nat) requires a < |memory| =>
      if ThreadOf(indices, a, 0) < |indices| then PatchedBlas(mappings, memory[a]) else memory[a])
  }

  lemma OwnerOfThread(indices: seq<nat>, t: nat)
    requires Distinct(indices) && t < |indices|
    ensures ThreadOf(indices, BlasWord(indices[t]), 0) == t
  {
    var u := ThreadOf(indices, BlasWord(indices[t]), 0);
    assert u < |indices|;
    assert indices[u] == indices[t];
  }

  lemma ThreadConfined(mappings: seq<Mapping>, indices: seq<nat>, t: nat)
    requires Distinct(indices)
    ensures Confined(Kernel(mappings, indices), Owner(indices), t)
  {
    if t < |indices| {
      OwnerOfThread(indices, t);
    }
    hide Distinct, Lookup, BlasWord;
  }

  lemma TwoSteps(mappings: seq<Mapping>, w: nat, indices: seq<nat>, memory: seq<Word>, t: nat)
    requires Ordered(mappings) && t < |indices| && w == BlasWord(indices[t]) < |memory|
    ensures Alone(Kernel(mappings, indices), 0, t, memory, 2).0 == memory[w := PatchedBlas(mappings, memory[w])]
    ensures |Alone(Kernel(mappings, indices), 0, t, memory, 2).1| == 2
  {
    LookupIsPatchedBlas(mappings, memory[w]);
    hide Ordered, PatchedBlas, Lookup;
    var p := Kernel(mappings, indices);
    assert Alone(p, 0, t, memory, 0) == (memory, []);
    assert p(t, []) == Load(w);
    assert [] + [memory[w]] == [memory[w]];
    assert Alone(p, 0, t, memory, 1) == Apply(Load(w), 0, memory, []) == (memory, [memory[w]]);
    var log := [memory[w]];
    var op := p(t, log);
    assert op == if Lookup(mappings, memory[w]).Some? then Store(w, Lookup(mappings, memory[w]).value) else Pass;
    assert Alone(p, 0, t, memory, 2) == Apply(op, 0, memory, log);
  }

  lemma ThreadAlone(mappings: seq<Mapping>, indices: seq<nat>, memory: seq<Word>, t: nat)
    requires Ordered(mappings) && (t < |indices| ==> BlasWord(indices[t]) < |memory|)
    ensures var (after, log) := Alone(Kernel(mappings, indices), 0, t, memory, Lengths(indices)(t));
      && Kernel(mappings, indices)(t, log).Halt?
      && (t < |indices| ==> after == memory[BlasWord(indices[t]) := PatchedBlas(mappings, memory[BlasWord(indices[t])])])
  {
    if t < |indices| {
      TwoSteps(mappings, BlasWord(indices[t]), indices, memory, t);
      hide BlasWord, PatchedBlas, Ordered, Alone;
    }
  }

  /** Distinct descriptors: every complete schedule patches each listed one exactly once. */
  lemma AnySchedulePatchesInstances(mappings: seq<Mapping>, indices: seq<nat>, memory: seq<Word>, threads: nat, schedule: seq<nat>)
    requires Ordered(mappings) && Distinct(indices) && |indices| <= threads
    requires forall i :: 0 <= i < |indices| ==> BlasWord(indices[i]) < |memory|
    requires AllHalted(Kernel(mappings, indices), Together(Kernel(mappings, indices), 0, Start(memory, threads), schedule))
    ensures Together(Kernel(mappings, indices), 0, Start(memory, threads), schedule).memory
         == PatchedInstances(mappings, indices, memory)
  {
    var p, owner := Kernel(mappings, indices), Owner(indices);
    forall t: nat | t < threads
      ensures Confined(p, owner, t) && p(t, Alone(p, 0, t, memory, Lengths(indices)(t)).1).Halt?
    {
      ThreadConfined(mappings, indices, t);
      ThreadAlone(mappings, indices, memory, t);
    }
    AnyScheduleSameResult(p, 0, owner, memory, threads, Lengths(indices), schedule);
    var after := Together(p, 0, Start(memory, threads), schedule).memory;
    forall a: nat | a < |memory| ensures after[a] == PatchedInstances(mappings, indices, memory)[a] {
      var t := ThreadOf(indices, a, 0);
      assert owner(a) == t;
      ThreadAlone(mappings, indices, memory, t);
    }
  }

  /** Whether or not threads collide, a word that is no listed descriptor's last word is left alone. */
  lemma {:induction false} OthersUntouched(mappings: seq<Mapping>, indices: seq<nat>, memory: seq<Word>, threads: nat,
                                           schedule: seq<nat>, a: nat)
    requires a < |memory| && forall i :: 0 <= i < |indices| ==> BlasWord(indices[i]) != a
    ensures Together(Kernel(mappings, indices), 0, Start(memory, threads), schedule).memory[a] == memory[a]
  {
    if schedule != [] {
      OthersUntouched(mappings, indices, memory, threads, schedule[..|schedule| - 1], a);
    }
  }
}
