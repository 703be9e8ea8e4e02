/** The steps a creating thread takes keep the invariant. */
module AsyncReplayMakers {
  import opened ReplayCommands
  import opened CreationService
  import opened AsyncReplay
  import opened AsyncReplayInvariant

  /** What no maker step touches. */
  ghost predicate SameMainView(s: State, t: State) {
    && t.main == s.main && t.at == s.at && t.commands == s.commands && t.failing == s.failing
    && t.service.tasks.Keys == s.service.tasks.Keys
    && t.service.dependencies == s.service.dependencies
    && t.objects == s.objects && t.preCollected == s.preCollected
    && t.freed == s.freed && t.providers == s.providers
  }

  lemma PlacesFrame(s: State, t: State)
    requires PlacesDisjoint(s) && Settled(s) && SameMainView(s, t)
    ensures PlacesDisjoint(t) && Settled(t)
  {
    forall k ensures k in t.service.tasks <==> k in s.service.tasks {
      assert k in t.service.tasks.Keys <==> k in s.service.tasks.Keys;
    }
    forall k ensures Outstanding(t, k) <==> Outstanding(s, k) {
    }
    forall k ensures Current(t, k) <==> Current(s, k) {
    }
  }

  lemma ProvidersFrame(s: State, t: State, cap: Capture)
    requires ProvidersAlive(s, cap) && SameMainView(s, t)
    requires forall k :: Unexecuted(t, k) ==> Unexecuted(s, k)
    ensures ProvidersAlive(t, cap)
  {
    forall k, p | Unexecuted(t, k) && k in t.service.tasks && p in t.providers[k] ensures Watched(t, p, k) {
      assert k in s.service.tasks.Keys;
      assert Watched(s, p, k);
    }
  }

  lemma PopWorkers(s: State, w: nat)
    requires QueueExact(s) && WorkersExact(s) && PlacesDisjoint(s) && Enabled(s, Pop(w))
    ensures QueueExact(Next(s, Pop(w))) && WorkersExact(Next(s, Pop(w)))
  {
    var t := Next(s, Pop(w));
    var k := s.service.queue[0];
    assert k in s.service.queue;
    assert s.service.queue == [k] + t.service.queue;
    forall x ensures x in t.service.queue <==> t.service.Pending(x) {
      assert x in s.service.queue <==> x == k || x in t.service.queue;
    }
    assert BusyWith(t.makers, w, k);
    forall x | InFlight(t, x) ensures x in t.promises || exists v :: 0 < v < |t.makers| && BusyWith(t.makers, v, x) {
      if x != k && x !in s.promises {
        var v :| 0 < v < |s.makers| && BusyWith(s.makers, v, x);
        assert BusyWith(t.makers, v, x);
      }
    }
  }

  lemma ObjectsFrame(s: State, t: State, cap: Capture)
    requires ObjectsCounted(s, cap) && SameMainView(s, t)
    ensures ObjectsCounted(t, cap)
  {
    forall k | k in cap.counts && k !in t.failing ensures k in t.objects || Outstanding(t, k) {
      if k in s.service.tasks {
        assert k in t.service.tasks.Keys;
      } else {
        assert k !in t.service.tasks.Keys;
      }
    }
  }

  lemma PopRunOnce(s: State, w: nat, cap: Capture)
    requires QueueExact(s) && RunOnce(s, cap) && Enabled(s, Pop(w))
    ensures RunOnce(Next(s, Pop(w)), cap)
  {
    assert s.service.queue[0] in s.service.queue;
    assert forall k :: Next(s, Pop(w)).service.Pending(k) ==> s.service.Pending(k);
  }

  lemma PopEffect(s: State, w: nat)
    requires QueueExact(s) && Enabled(s, Pop(w))
    ensures var t, k := Next(s, Pop(w)), s.service.queue[0];
      && s.service.Pending(k) && t.makers == s.makers[w := Busy(k, Fresh)] && t.failing == s.failing
      && t.service.refCounts == s.service.refCounts
      && forall x :: x in t.service.tasks && !t.service.tasks[x] ==> x in s.service.tasks && !s.service.tasks[x]
  {
    assert s.service.queue[0] in s.service.queue;
  }

  lemma PopMakerCounts(s: State, w: nat, cap: Capture)
    requires QueueExact(s) && MakerCounts(s, cap) && Enabled(s, Pop(w))
    ensures MakerCounts(Next(s, Pop(w)), cap)
  {
    hide QueueExact, Next;
    PopEffect(s, w);
  }

  lemma PopCounts(s: State, w: nat, cap: Capture)
    requires QueueExact(s) && MakerCounts(s, cap) && RunOnce(s, cap) && Enabled(s, Pop(w))
    ensures MakerCounts(Next(s, Pop(w)), cap) && RunOnce(Next(s, Pop(w)), cap)
  {
    hide MakerCounts, RunOnce, QueueExact, Next;
    PopRunOnce(s, w, cap);
    PopMakerCounts(s, w, cap);
  }

  lemma PopView(s: State, w: nat)
    requires QueueExact(s) && Enabled(s, Pop(w))
    ensures SameMainView(s, Next(s, Pop(w)))
    ensures forall x :: Unexecuted(Next(s, Pop(w)), x) ==> Unexecuted(s, x)
  {
    var t := Next(s, Pop(w));
    assert s.service.queue[0] in s.service.queue;
    forall x | Unexecuted(t, x) ensures Unexecuted(s, x) {
      if !t.service.Pending(x) {
        var m :| 0 <= m < |t.makers| && BusyWith(t.makers, m, x) && t.makers[m].phase.Fresh?;
        assert m != w ==> BusyWith(s.makers, m, x);
      }
    }
  }

  lemma OutputsFrame(s: State, t: State, cap: Capture)
    requires OutputsCounted(s, cap) && t.promises == s.promises && SameMainView(s, t)
    ensures OutputsCounted(t, cap)
  {
  }

  lemma KeepPop(s: State, w: nat)
    requires Inv(s) && Enabled(s, Pop(w))
    ensures Inv(Next(s, Pop(w)))
  {
    hide Settled, PlacesDisjoint, WorkersExact, MakerCounts, OutputsCounted, ObjectsCounted, RunOnce, ProvidersAlive;
    var t := Next(s, Pop(w));
    PopView(s, w);
    PlacesFrame(s, t);
    PopWorkers(s, w);
    PopCounts(s, w, Cap(s));
    OutputsFrame(s, t, Cap(s));
    ObjectsFrame(s, t, Cap(s));
    ProvidersFrame(s, t, Cap(s));
  }

  /** Replacing one busy maker by the same task in a later phase. */
  ghost predicate Advanced(s: State, t: State, m: nat) {
    && m < |s.makers| && s.makers[m].Busy?
    && |t.makers| == |s.makers|
    && t.makers[m].Busy? && t.makers[m].key == s.makers[m].key && !t.makers[m].phase.Fresh?
    && (forall v :: 0 <= v < |s.makers| && v != m ==> t.makers[v] == s.makers[v])
    && t.service.tasks == s.service.tasks && t.service.queue == s.service.queue && t.promises == s.promises
  }

  lemma AdvancedFrame(s: State, t: State, m: nat, cap: Capture)
    requires Shape(s) && Sound(s, cap) && SameMainView(s, t) && Advanced(s, t, m)
    ensures Shape(t) && PlacesDisjoint(t) && Settled(t) && QueueExact(t) && WorkersExact(t)
    ensures OutputsCounted(t, cap) && ObjectsCounted(t, cap) && ProvidersAlive(t, cap)
  {
    hide Settled, PlacesDisjoint, QueueExact, WorkersExact, MakerCounts, OutputsCounted, ObjectsCounted, RunOnce, ProvidersAlive;
    PlacesFrame(s, t);
    OutputsFrame(s, t, cap);
    ObjectsFrame(s, t, cap);
    AdvancedWorkers(s, t, m);
    AdvancedUnexecuted(s, t, m);
    ProvidersFrame(s, t, cap);
  }

  lemma AdvancedUnexecuted(s: State, t: State, m: nat)
    requires Advanced(s, t, m)
    ensures forall x :: Unexecuted(t, x) ==> Unexecuted(s, x)
  {
    forall x | Unexecuted(t, x) ensures Unexecuted(s, x) {
      if !t.service.Pending(x) {
        var v :| 0 <= v < |t.makers| && BusyWith(t.makers, v, x) && t.makers[v].phase.Fresh?;
        assert BusyWith(s.makers, v, x);
      } else {
        assert s.service.Pending(x);
      }
    }
  }

  lemma AdvancedWorkers(s: State, t: State, m: nat)
    requires QueueExact(s) && WorkersExact(s) && SameMainView(s, t) && Advanced(s, t, m)
    ensures QueueExact(t) && WorkersExact(t)
  {
    forall k ensures s.service.Pending(k) == t.service.Pending(k) && InFlight(s, k) == InFlight(t, k) {
    }
    forall x | InFlight(t, x) ensures x in t.promises || exists v :: 0 < v < |t.makers| && BusyWith(t.makers, v, x) {
      if x !in s.promises {
        var v :| 0 < v < |s.makers| && BusyWith(s.makers, v, x);
        assert BusyWith(t.makers, v, x);
      }
    }
  }

  lemma KeepRun(s: State, m: nat)
    requires Inv(s) && Enabled(s, Run(m))
    ensures Inv(Next(s, Run(m)))
  {
    hide Shape, Settled, PlacesDisjoint, QueueExact, WorkersExact, MakerCounts, OutputsCounted, ObjectsCounted, RunOnce, ProvidersAlive;
    var t := Next(s, Run(m));
    AdvancedFrame(s, t, m, Cap(s));
    CapFacts(s);
    RunCounts(s, m, Cap(s));
  }

  lemma CapFacts(s: State)
    requires Inv(s)
    ensures forall k :: k in Cap(s).counts ==> k in Cap(s).seen && Cap(s).counts[k] > 0 && k != 0
  {
    RecordedPrefix(s.commands, s.at);
    CaptureFacts(s.commands[..s.at]);
  }

  lemma RunMakerCounts(s: State, m: nat, cap: Capture)
    requires MakerCounts(s, cap) && Enabled(s, Run(m))
    ensures MakerCounts(Next(s, Run(m)), cap)
  {
  }

  /** The functor about to run has not run before: one maker at most holds its task. */
  lemma RunsOnce(s: State, m: nat, cap: Capture)
    requires MakerCounts(s, cap) && Enabled(s, Run(m)) && WorkersExact(s) && PlacesDisjoint(s) && Shape(s) && RunOnce(s, cap)
    requires forall k :: k in cap.counts ==> k in cap.seen
    ensures RunOnce(Next(s, Run(m)), cap)
  {
  }

  lemma RunCounts(s: State, m: nat, cap: Capture)
    requires MakerCounts(s, cap) && Enabled(s, Run(m)) && WorkersExact(s) && PlacesDisjoint(s) && Shape(s) && RunOnce(s, cap)
    requires forall k :: k in cap.counts ==> k in cap.seen
    ensures MakerCounts(Next(s, Run(m)), cap) && RunOnce(Next(s, Run(m)), cap)
  {
    hide *;
    RunMakerCounts(s, m, cap);
    RunsOnce(s, m, cap);
  }

  lemma KeepTake(s: State, m: nat)
    requires Inv(s) && Enabled(s, Take(m))
    ensures Inv(Next(s, Take(m)))
  {
    hide Shape, Settled, PlacesDisjoint, QueueExact, WorkersExact, MakerCounts, OutputsCounted, ObjectsCounted, RunOnce, ProvidersAlive;
    var t := Next(s, Take(m));
    AdvancedFrame(s, t, m, Cap(s));
    TakeCounts(s, m, Cap(s));
  }

  lemma TakeRunOnce(s: State, m: nat, cap: Capture)
    requires Enabled(s, Take(m)) && RunOnce(s, cap)
    ensures RunOnce(Next(s, Take(m)), cap)
  {
  }

  lemma TakeMakerCounts(s: State, m: nat, cap: Capture)
    requires MakerCounts(s, cap) && Enabled(s, Take(m)) && WorkersExact(s) && PlacesDisjoint(s) && Shape(s)
    ensures MakerCounts(Next(s, Take(m)), cap)
  {
  }

  lemma TakeCounts(s: State, m: nat, cap: Capture)
    requires MakerCounts(s, cap) && Enabled(s, Take(m)) && WorkersExact(s) && PlacesDisjoint(s) && Shape(s) && RunOnce(s, cap)
    ensures MakerCounts(Next(s, Take(m)), cap) && RunOnce(Next(s, Take(m)), cap)
  {
    hide MakerCounts, RunOnce, WorkersExact, PlacesDisjoint, Shape, Next;
    TakeRunOnce(s, m, cap);
    TakeMakerCounts(s, m, cap);
  }

  /** A worker fulfils its promise; its creation task is not used after that. */
  lemma KeepDeliver(s: State, w: nat)
    requires Inv(s) && Enabled(s, Deliver(w))
    ensures Inv(Next(s, Deliver(w)))
  {
    hide Settled, PlacesDisjoint, QueueExact, WorkersExact, MakerCounts, OutputsCounted, ObjectsCounted, RunOnce, ProvidersAlive;
    var t := Next(s, Deliver(w));
    PlacesFrame(s, t);
    ObjectsFrame(s, t, Cap(s));
    DeliverWorkers(s, w);
    CapFacts(s);
    DeliverCounts(s, w, Cap(s));
    DeliverUnexecuted(s, w);
    ProvidersFrame(s, t, Cap(s));
  }

  lemma DeliverWorkers(s: State, w: nat)
    requires QueueExact(s) && WorkersExact(s) && Enabled(s, Deliver(w))
    ensures QueueExact(Next(s, Deliver(w))) && WorkersExact(Next(s, Deliver(w)))
  {
    var t := Next(s, Deliver(w));
    forall k ensures s.service.Pending(k) == t.service.Pending(k) && InFlight(s, k) == InFlight(t, k) {
    }
    forall x | InFlight(t, x) ensures x in t.promises || exists v :: 0 < v < |t.makers| && BusyWith(t.makers, v, x) {
      if x !in t.promises {
        var v :| 0 < v < |s.makers| && BusyWith(s.makers, v, x);
        assert BusyWith(t.makers, v, x);
      }
    }
  }

  lemma DeliverCounts(s: State, w: nat, cap: Capture)
    requires MakerCounts(s, cap) && OutputsCounted(s, cap) && RunOnce(s, cap) && Enabled(s, Deliver(w))
    requires forall k :: k in cap.counts ==> cap.counts[k] > 0
    ensures MakerCounts(Next(s, Deliver(w)), cap) && OutputsCounted(Next(s, Deliver(w)), cap)
    ensures RunOnce(Next(s, Deliver(w)), cap)
  {
    var t := Next(s, Deliver(w));
    assert t.service == s.service;
    forall m | 0 <= m < |t.makers| && t.makers[m].Busy? ensures t.makers[m] == s.makers[m] {
    }
  }

  lemma DeliverUnexecuted(s: State, w: nat)
    requires Enabled(s, Deliver(w))
    ensures forall x :: Unexecuted(Next(s, Deliver(w)), x) ==> Unexecuted(s, x)
  {
    var t := Next(s, Deliver(w));
    forall x | Unexecuted(t, x) ensures Unexecuted(s, x) {
      if !t.service.Pending(x) {
        var v :| 0 <= v < |t.makers| && BusyWith(t.makers, v, x) && t.makers[v].phase.Fresh?;
        assert BusyWith(s.makers, v, x);
      } else {
        assert s.service.Pending(x);
      }
    }
  }
}
