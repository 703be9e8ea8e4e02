/** The steps that begin or finish a command keep the invariant, with the recorded counts advanced. */
module AsyncReplayCommands {
  import opened ReplayCommands
  import opened CreationService
  import opened AsyncReplay
  import opened AsyncReplayInvariant
  import opened AsyncReplayMakers
  import opened AsyncReplayMain

  /** Everything but the objects, the command index and the main thread stays. */
  ghost predicate SameService(s: State, t: State) {
    && t.commands == s.commands && t.failing == s.failing && t.makers == s.makers && t.service == s.service
    && t.promises == s.promises && t.preCollected == s.preCollected && t.ran == s.ran && t.freed == s.freed
    && t.providers == s.providers
  }

  /** No completion is under way and nothing is being collected. */
  ghost predicate Calm(main: Main) {
    main.Ready? || main.Completed? || main == Releasing([])
  }

  /** A command runs on its object, which nobody else is still creating. */
  ghost predicate RunsDirect(s: State, t: State, c: Command, cap: Capture) {
    && SameService(s, t)
    && Calm(s.main) && t.main.Ready? && s.makers[0].Idle?
    && c.Keyed() && CanFollow(cap, c) && !Outstanding(s, c.key)
    && t.objects == RunDirect(s.objects, c)
    && (forall k :: k in cap.counts ==> cap.counts[k] > 0 && k in cap.seen)
  }

  lemma DirectPlaces(s: State, t: State, c: Command, cap: Capture)
    requires RunsDirect(s, t, c, cap) && PlacesDisjoint(s)
    ensures PlacesDisjoint(t) && Settled(t)
  {
  }

  lemma DirectWorkers(s: State, t: State, c: Command, cap: Capture)
    requires RunsDirect(s, t, c, cap) && WorkersExact(s) && QueueExact(s)
    ensures WorkersExact(t) && QueueExact(t)
  {
    forall x ensures InFlight(t, x) == InFlight(s, x) && t.service.Pending(x) == s.service.Pending(x) {
    }
  }

  /** The recorded count of every other key is unchanged. */
  lemma OtherCounts(cap: Capture, c: Command, k: Key)
    requires c.Keyed() && k != c.key
    ensures k in CaptureStep(cap, c).counts <==> k in cap.counts
    ensures k in cap.counts ==> CaptureStep(cap, c).counts[k] == cap.counts[k]
  {
  }

  lemma DirectCounts(s: State, t: State, c: Command, cap: Capture)
    requires RunsDirect(s, t, c, cap) && MakerCounts(s, cap) && OutputsCounted(s, cap) && WorkersExact(s)
    ensures MakerCounts(t, CaptureStep(cap, c)) && OutputsCounted(t, CaptureStep(cap, c))
  {
    var next := CaptureStep(cap, c);
    assert forall k :: InFlight(s, k) ==> Outstanding(s, k);
    assert Results(t.main) == [];
    forall k | k in t.service.tasks && !t.service.tasks[k]
      ensures PhaseCounts(next, t.failing, t.service.Deferred(k), k, Fresh)
    {
      OtherCounts(cap, c, k);
    }
    forall m | 0 <= m < |t.makers| && t.makers[m].Busy?
      ensures PhaseCounts(next, t.failing, t.service.Deferred(t.makers[m].key), t.makers[m].key, t.makers[m].phase)
    {
      OtherCounts(cap, c, t.makers[m].key);
    }
    forall k | k in t.promises ensures OutputCounts(next, t.failing, k, t.promises[k]) {
      OtherCounts(cap, c, k);
    }
    forall k | k in t.preCollected ensures OutputCounts(next, t.failing, k, t.preCollected[k]) {
      OtherCounts(cap, c, k);
    }
  }

  lemma DirectObjects(s: State, t: State, c: Command, cap: Capture)
    requires RunsDirect(s, t, c, cap) && ObjectsCounted(s, cap)
    ensures ObjectsCounted(t, CaptureStep(cap, c))
  {
    assert Results(s.main) == Results(t.main) == [];
    var next := CaptureStep(cap, c);
    forall k | k in next.counts && k !in t.failing ensures k in t.objects || Outstanding(t, k) {
      assert k in cap.counts && (k in s.objects || Outstanding(s, k));
    }
  }

  lemma DirectProviders(s: State, t: State, c: Command, cap: Capture)
    requires RunsDirect(s, t, c, cap) && ProvidersAlive(s, cap) && WorkersExact(s)
    requires c.Release? && c.captured == 0 ==> c.key !in s.service.dependencies
    ensures ProvidersAlive(t, CaptureStep(cap, c))
  {
    assert Remaining(s.main) == [];
    forall x | Unexecuted(t, x) ensures Unexecuted(s, x) && x in s.service.tasks {
      if t.service.Pending(x) {
        assert s.service.Pending(x);
      } else {
        var m :| 0 <= m < |t.makers| && BusyWith(t.makers, m, x) && t.makers[m].phase.Fresh?;
        assert BusyWith(s.makers, m, x) && InFlight(s, x);
      }
    }
    forall x, p | Unexecuted(t, x) && p in t.providers[x] ensures Watched(t, p, x) && p in CaptureStep(cap, c).counts {
      assert Watched(s, p, x);
    }
  }

  lemma DirectSound(s: State, t: State, c: Command, cap: Capture)
    requires RunsDirect(s, t, c, cap) && Sound(s, cap)
    requires c.Release? && c.captured == 0 ==> c.key !in s.service.dependencies
    ensures Sound(t, CaptureStep(cap, c))
  {
    hide PlacesDisjoint, Settled, QueueExact, WorkersExact, MakerCounts, OutputsCounted, ObjectsCounted, ProvidersAlive;
    DirectPlaces(s, t, c, cap);
    DirectWorkers(s, t, c, cap);
    DirectCounts(s, t, c, cap);
    DirectObjects(s, t, c, cap);
    DirectProviders(s, t, c, cap);
    assert RunOnce(t, CaptureStep(cap, c));
  }

  /** The recorded counts move with the command index. */
  lemma CapAdvances(s: State, t: State)
    requires Inv(s) && s.at < |s.commands| && t.commands == s.commands && t.at == s.at + 1
    ensures Cap(t) == CaptureStep(Cap(s), s.commands[s.at]) && CanFollow(Cap(s), s.commands[s.at])
  {
    NextCapture(s.commands, s.at);
  }

  lemma ResumeDirect(s: State, t: State, c: Command)
    requires Inv(s) && Enabled(s, Resume) && c == s.commands[s.at] && !(c.Release? && c.captured == 0)
    requires t == Finish(s.(objects := RunDirect(s.objects, c)))
    ensures Inv(t)
  {
    hide Sound, CaptureOf, Recorded, Outstanding;
    CapAdvances(s, t);
    CapFacts(s);
    NotOutstanding(s, c.key);
    DirectSound(s, t, c, Cap(s));
  }

  lemma ResumeReleasing(s: State, t: State, c: Command)
    requires Inv(s) && Enabled(s, Resume) && c == s.commands[s.at] && c.Release? && c.captured == 0
    requires t == s.(main := Releasing(s.service.Consumers(c.key)), service := s.service.DropConsumers(c.key))
    ensures Inv(t)
  {
    hide Sound, CaptureOf, Recorded;
    ToReleasing(s, t, c.key, Cap(s));
  }

  lemma KeepResume(s: State)
    requires Inv(s) && Enabled(s, Resume)
    ensures Inv(Next(s, Resume))
  {
    hide Inv, RunDirect;
    var c := s.commands[s.at];
    if c.Release? && c.captured == 0 {
      ResumeReleasing(s, Next(s, Resume), c);
    } else {
      ResumeDirect(s, Next(s, Resume), c);
    }
  }

  lemma NotOutstanding(s: State, k: Key)
    requires Sound(s, Cap(s)) && Current(s, k) && (s.main.Completed? || s.main.Releasing?)
    ensures !Outstanding(s, k)
  {
  }

  /** CollectConsumers: the consumers move from the service into the main thread's loop. */
  /** The consumers move from the dependency table into the main thread's hands. */
  lemma ToReleasingProviders(s: State, t: State, p: Key, cap: Capture)
    requires ProvidersAlive(s, cap) && Current(s, p) && s.main.Completed?
    requires t == s.(main := Releasing(s.service.Consumers(p)), service := s.service.DropConsumers(p))
    ensures ProvidersAlive(t, cap)
  {
    forall x | Unexecuted(t, x) ensures Unexecuted(s, x) {
      assert t.service.Pending(x) == s.service.Pending(x);
    }
    forall x, q | Unexecuted(t, x) && x in t.service.tasks && q in t.providers[x] ensures Watched(t, q, x) {
      assert Watched(s, q, x);
    }
  }

  lemma ToReleasingPlaces(s: State, t: State, p: Key, cap: Capture)
    requires PlacesDisjoint(s) && Settled(s) && Current(s, p) && s.main.Completed?
    requires QueueExact(s) && WorkersExact(s) && OutputsCounted(s, cap) && ObjectsCounted(s, cap)
    requires t == s.(main := Releasing(s.service.Consumers(p)), service := s.service.DropConsumers(p))
    ensures PlacesDisjoint(t) && Settled(t) && QueueExact(t) && WorkersExact(t) && OutputsCounted(t, cap) && ObjectsCounted(t, cap)
  {
    assert Results(t.main) == Results(s.main) == [];
    assert forall x :: Outstanding(t, x) <==> Outstanding(s, x);
    assert forall x :: Current(t, x) <==> Current(s, x);
  }

  lemma ToReleasing(s: State, t: State, p: Key, cap: Capture)
    requires Sound(s, cap) && Current(s, p) && s.main.Completed?
    requires t == s.(main := Releasing(s.service.Consumers(p)), service := s.service.DropConsumers(p))
    ensures Sound(t, cap)
  {
    hide RunOnce, MakerCounts, PlacesDisjoint, Settled, QueueExact, WorkersExact, OutputsCounted, ObjectsCounted, ProvidersAlive, Current;
    SamePhases(s, t, cap);
    ToReleasingPlaces(s, t, p, cap);
    ToReleasingProviders(s, t, p, cap);
  }

  lemma SamePhases(s: State, t: State, cap: Capture)
    requires RunOnce(s, cap) && MakerCounts(s, cap)
    requires t.service.tasks == s.service.tasks && t.service.refCounts == s.service.refCounts
    requires t.makers == s.makers && t.failing == s.failing && t.ran == s.ran && t.promises == s.promises && t.freed == s.freed
    ensures RunOnce(t, cap) && MakerCounts(t, cap)
  {
    forall x ensures t.service.Pending(x) == s.service.Pending(x) && t.service.Deferred(x) == s.service.Deferred(x) {
    }
  }

  lemma KeepFinishRelease(s: State)
    requires Inv(s) && Enabled(s, FinishRelease)
    ensures Inv(Next(s, FinishRelease))
  {
    hide Sound, CaptureOf, Recorded;
    var c := s.commands[s.at];
    var t := Next(s, FinishRelease);
    CapAdvances(s, t);
    CapFacts(s);
    NotOutstanding(s, c.key);
    NoConsumersLeft(s, c.key);
    DirectSound(s, t, c, Cap(s));
  }

  lemma NoConsumersLeft(s: State, k: Key)
    requires Sound(s, Cap(s)) && Current(s, k) && s.main.Releasing?
    ensures k !in s.service.dependencies
  {
  }

  /** A count update of a task nobody has started is added to its deferred total. */
  lemma DeferSound(s: State, t: State, c: Command, cap: Capture)
    requires Sound(s, cap) && s.main.Ready? && s.makers[0].Idle?
    requires (c.AddRef? || (c.Release? && c.captured != 0)) && CanFollow(cap, c) && s.service.Pending(c.key)
    requires t == Finish(s.(service := s.service.Defer(c.key, if c.AddRef? then 1 else -1)))
    requires forall k :: k in cap.counts ==> k in cap.seen
    ensures Sound(t, CaptureStep(cap, c))
  {
    hide PlacesDisjoint, WorkersExact, MakerCounts, OutputsCounted, ObjectsCounted, ProvidersAlive;
    DeferCounts(s, t, c, cap);
    DeferOutputs(s, t, c, cap);
    DeferObjects(s, t, c, cap);
    DeferProviders(s, t, c, cap);
    DeferPlaces(s, t, c);
    DeferWorkers(s, t, c);
    assert RunOnce(t, CaptureStep(cap, c)) by {
      assert forall x :: t.service.Pending(x) == s.service.Pending(x);
    }
  }

  /** What a deferral changes. */
  ghost predicate Defers(s: State, t: State, c: Command) {
    && (c.AddRef? || (c.Release? && c.captured != 0)) && s.service.Pending(c.key)
    && SameService(s.(service := t.service), t)
    && t.service == s.service.Defer(c.key, if c.AddRef? then 1 else -1)
    && t.objects == s.objects
    && s.main.Ready? && t.main.Ready? && s.makers[0].Idle?
  }

  lemma DeferPlaces(s: State, t: State, c: Command)
    requires Defers(s, t, c) && PlacesDisjoint(s)
    ensures PlacesDisjoint(t)
  {
  }

  lemma DeferWorkers(s: State, t: State, c: Command)
    requires Defers(s, t, c) && WorkersExact(s) && QueueExact(s)
    ensures WorkersExact(t) && QueueExact(t)
  {
    forall x ensures InFlight(t, x) == InFlight(s, x) && t.service.Pending(x) == s.service.Pending(x) {
    }
  }

  lemma DeferCounts(s: State, t: State, c: Command, cap: Capture)
    requires Defers(s, t, c) && MakerCounts(s, cap) && WorkersExact(s) && CanFollow(cap, c)
    requires forall k :: k in cap.counts ==> k in cap.seen
    ensures MakerCounts(t, CaptureStep(cap, c))
  {
    var next := CaptureStep(cap, c);
    forall k | k in t.service.tasks && !t.service.tasks[k]
      ensures PhaseCounts(next, t.failing, t.service.Deferred(k), k, Fresh)
    {
      assert PhaseCounts(cap, s.failing, s.service.Deferred(k), k, Fresh);
    }
    forall m | 0 <= m < |t.makers| && t.makers[m].Busy?
      ensures PhaseCounts(next, t.failing, t.service.Deferred(t.makers[m].key), t.makers[m].key, t.makers[m].phase)
    {
      assert InFlight(s, s.makers[m].key);
    }
  }

  /** Deferring changes the recorded count of a task nobody has started, so of no output. */
  lemma DeferOutputs(s: State, t: State, c: Command, cap: Capture)
    requires Defers(s, t, c) && OutputsCounted(s, cap) && PlacesDisjoint(s) && WorkersExact(s)
    requires CanFollow(cap, c)
    ensures OutputsCounted(t, CaptureStep(cap, c))
  {
    assert Results(t.main) == Results(s.main) == [];
    assert forall k :: k in s.promises ==> InFlight(s, k);
  }

  lemma DeferObjects(s: State, t: State, c: Command, cap: Capture)
    requires Defers(s, t, c) && ObjectsCounted(s, cap) && PlacesDisjoint(s) && CanFollow(cap, c)
    ensures ObjectsCounted(t, CaptureStep(cap, c))
  {
    assert Results(t.main) == Results(s.main) == [];
    var next := CaptureStep(cap, c);
    forall k | k in next.counts && k !in t.failing ensures k in t.objects || Outstanding(t, k) {
      assert k in s.objects || Outstanding(s, k);
    }
  }

  lemma DeferProviders(s: State, t: State, c: Command, cap: Capture)
    requires Defers(s, t, c) && ProvidersAlive(s, cap) && CanFollow(cap, c)
    ensures ProvidersAlive(t, CaptureStep(cap, c))
  {
    forall x | Unexecuted(t, x) ensures Unexecuted(s, x) {
      assert t.service.Pending(x) == s.service.Pending(x);
    }
    forall x, p | Unexecuted(t, x) && p in t.providers[x] && x in t.service.tasks ensures Watched(t, p, x) {
      assert Watched(s, p, x);
    }
  }
}
