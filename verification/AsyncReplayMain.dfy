/** The steps of the main thread keep the invariant. */
module AsyncReplayMain {
  import opened ReplayCommands
  import opened CreationService
  import opened AsyncReplay
  import opened AsyncReplayInvariant
  import opened AsyncReplayMakers

  /** The main thread is between two completions and about to start one for a registered key. */
  ghost predicate CanStart(s: State, k: Key, after: After) {
    && k in s.service.tasks
    && s.makers[0].Idle?
    && match after
       case Materialise => s.main.Ready?
       case NextConsumer(rest) => s.main == Releasing([k] + rest)
       case NextFlush(results) => s.main == Flushing(results)
  }

  /** What StartComplete changes, field by field. */
  ghost predicate Starts(s: State, t: State, k: Key, after: After) {
    && CanStart(s, k, after)
    && t.commands == s.commands && t.failing == s.failing && t.at == s.at
    && t.service.tasks == s.service.tasks - {k}
    && t.service.refCounts == s.service.refCounts && t.service.dependencies == s.service.dependencies
    && t.promises == s.promises && t.preCollected == s.preCollected && t.objects == s.objects
    && t.ran == s.ran && t.freed == s.freed && t.providers == s.providers
    && |t.makers| == |s.makers|
    && (forall m :: 0 < m < |s.makers| ==> t.makers[m] == s.makers[m])
    && (if s.service.tasks[k] then
          && t.main == Awaiting(k, after) && t.makers[0] == s.makers[0] && t.service.queue == s.service.queue
        else
          && t.main == Creating(k, after) && t.makers[0] == Busy(k, Fresh)
          && t.service.queue == Without(s.service.queue, k))
  }

  lemma StartQueue(s: State, t: State, k: Key, after: After)
    requires Starts(s, t, k, after) && QueueExact(s)
    ensures QueueExact(t)
  {
    WithoutIsRemoval(s.service.queue, k);
    forall x ensures x in t.service.queue <==> t.service.Pending(x) {
      assert x in s.service.queue <==> s.service.Pending(x);
    }
  }

  lemma StartPlaces(s: State, t: State, k: Key, after: After)
    requires Starts(s, t, k, after) && PlacesDisjoint(s) && Settled(s)
    ensures PlacesDisjoint(t) && Settled(t)
  {
    assert Results(t.main) == Results(s.main);
    assert forall x :: InResults(t.main, x) ==> InResults(s.main, x);
    assert Outstanding(s, k);
    assert forall x :: Outstanding(t, x) ==> Outstanding(s, x);
    assert forall x :: Current(t, x) ==> Current(s, x);
  }

  lemma StartWorkers(s: State, t: State, k: Key, after: After)
    requires Starts(s, t, k, after) && WorkersExact(s)
    ensures WorkersExact(t)
  {
    forall x | InFlight(t, x) ensures InFlight(s, x) {
    }
    forall x | InFlight(t, x) ensures x in t.promises || exists v :: 0 < v < |t.makers| && BusyWith(t.makers, v, x) {
      if x !in s.promises {
        var v :| 0 < v < |s.makers| && BusyWith(s.makers, v, x);
        assert BusyWith(t.makers, v, x);
      }
    }
  }

  lemma StartCounts(s: State, t: State, k: Key, after: After, cap: Capture)
    requires Starts(s, t, k, after) && MakerCounts(s, cap) && OutputsCounted(s, cap)
    ensures MakerCounts(t, cap) && OutputsCounted(t, cap)
  {
    assert Results(t.main) == Results(s.main);
  }

  lemma StartObjects(s: State, t: State, k: Key, after: After, cap: Capture)
    requires Starts(s, t, k, after) && ObjectsCounted(s, cap)
    ensures ObjectsCounted(t, cap)
  {
    assert Results(t.main) == Results(s.main);
    forall x | Outstanding(s, x) ensures Outstanding(t, x) {
      if InResults(s.main, x) {
        assert InResults(t.main, x);
      }
    }
  }

  lemma StartRunOnce(s: State, t: State, k: Key, after: After, cap: Capture)
    requires Starts(s, t, k, after) && RunOnce(s, cap)
    ensures RunOnce(t, cap)
  {
    assert forall x :: t.service.Pending(x) ==> s.service.Pending(x);
    assert t.main.Creating? ==> s.service.Pending(k);
  }

  lemma StartUnexecuted(s: State, t: State, k: Key, after: After, x: Key)
    requires Starts(s, t, k, after) && Unexecuted(t, x)
    ensures Unexecuted(s, x)
  {
    if t.service.Pending(x) {
      assert s.service.Pending(x);
    } else {
      var m :| 0 <= m < |t.makers| && BusyWith(t.makers, m, x) && t.makers[m].phase.Fresh?;
      if m == 0 && s.makers[0].Idle? {
        assert s.service.Pending(x);
      } else {
        assert BusyWith(s.makers, m, x);
      }
    }
  }

  lemma StartProviders(s: State, t: State, k: Key, after: After, cap: Capture)
    requires Starts(s, t, k, after) && ProvidersAlive(s, cap)
    ensures ProvidersAlive(t, cap)
  {
    forall x | Unexecuted(t, x) ensures Unexecuted(s, x) {
      StartUnexecuted(s, t, k, after, x);
    }
    forall x, p | Unexecuted(t, x) && x in t.service.tasks && p in t.providers[x] ensures Watched(t, p, x) {
      assert Watched(s, p, x);
      assert x in Remaining(s.main) ==> x in Remaining(t.main);
    }
  }

  lemma StartSound(s: State, k: Key, after: After, cap: Capture)
    requires CanStart(s, k, after) && Sound(s, cap)
    ensures Sound(StartComplete(s, k, after), cap)
  {
    hide Settled, PlacesDisjoint, QueueExact, WorkersExact, MakerCounts, OutputsCounted, ObjectsCounted, RunOnce, ProvidersAlive;
    var t := StartComplete(s, k, after);
    StartPlaces(s, t, k, after);
    StartQueue(s, t, k, after);
    StartWorkers(s, t, k, after);
    StartCounts(s, t, k, after, cap);
    StartObjects(s, t, k, after, cap);
    StartRunOnce(s, t, k, after, cap);
    StartProviders(s, t, k, after, cap);
  }

  lemma KeepConsume(s: State)
    requires Inv(s) && Enabled(s, Consume)
    ensures Inv(Next(s, Consume))
  {
    hide Sound, CaptureOf, Recorded;
    var k, rest := s.main.consumers[0], s.main.consumers[1..];
    assert s.main.consumers == [k] + rest;
    if k in s.service.tasks {
      StartSound(s, k, NextConsumer(rest), Cap(s));
    } else {
      SkipConsumer(s, Cap(s));
    }
  }

  lemma SkipConsumer(s: State, cap: Capture)
    requires Sound(s, cap) && Enabled(s, Consume) && s.main.consumers[0] !in s.service.tasks
    ensures Sound(s.(main := Releasing(s.main.consumers[1..])), cap)
  {
    hide QueueExact, WorkersExact, MakerCounts, RunOnce, PlacesDisjoint, Settled, OutputsCounted, ObjectsCounted, ProvidersAlive;
    var t := s.(main := Releasing(s.main.consumers[1..]));
    SkipPlain(s, t, cap);
    SkipPlaces(s, t, cap);
    SkipProviders(s, t, cap);
  }

  lemma SkipPlain(s: State, t: State, cap: Capture)
    requires QueueExact(s) && WorkersExact(s) && MakerCounts(s, cap) && RunOnce(s, cap)
    requires s.main.Releasing? && t.main.Releasing? && t == s.(main := t.main)
    ensures QueueExact(t) && WorkersExact(t) && MakerCounts(t, cap) && RunOnce(t, cap)
  {
  }

  lemma SkipPlaces(s: State, t: State, cap: Capture)
    requires PlacesDisjoint(s) && Settled(s) && OutputsCounted(s, cap) && ObjectsCounted(s, cap)
    requires s.main.Releasing? && t.main.Releasing? && t == s.(main := t.main)
    ensures PlacesDisjoint(t) && Settled(t) && OutputsCounted(t, cap) && ObjectsCounted(t, cap)
  {
    hide OutputCounts;
    assert Results(s.main) == Results(t.main) == [];
    assert forall x :: Outstanding(t, x) <==> Outstanding(s, x);
    assert forall x :: Current(t, x) <==> Current(s, x);
  }

  lemma SkipProviders(s: State, t: State, cap: Capture)
    requires ProvidersAlive(s, cap) && s.main.Releasing? && s.main.consumers != []
    requires s.main.consumers[0] !in s.service.tasks
    requires t == s.(main := Releasing(s.main.consumers[1..]))
    ensures ProvidersAlive(t, cap)
  {
    forall x, p | Unexecuted(t, x) && x in t.service.tasks && p in t.providers[x] ensures Watched(t, p, x) {
      assert Unexecuted(s, x) && Watched(s, p, x);
    }
  }

  lemma KeepFlush(s: State, k: Key)
    requires Inv(s) && Enabled(s, Flush(k))
    ensures Inv(Next(s, Flush(k)))
  {
    hide Sound, CaptureOf, Recorded;
    StartSound(s, k, NextFlush(s.main.results), Cap(s));
  }

  /** What the end of a completion changes: the result of k reaches the main thread. */
  ghost predicate Arrives(s: State, t: State, k: Key, out: Output, after: After) {
    && Held(s.main, k) && s.main.after == after
    && t.commands == s.commands && t.failing == s.failing && t.at == s.at && t.service == s.service
    && t.ran == s.ran && t.providers == s.providers
    && t.freed == s.freed + {k}
    && |t.makers| == |s.makers|
    && (forall m :: 0 < m < |s.makers| ==> t.makers[m] == s.makers[m])
    && t.makers[0].Idle?
    && (if s.main.Awaiting? then
          k in s.promises && out == s.promises[k] && t.promises == s.promises - {k} && s.makers[0].Idle?
        else
          && s.makers[0].Busy? && s.makers[0].key == k && s.makers[0].phase.Deliverable()
          && out == s.makers[0].phase.Result() && t.promises == s.promises)
    && match after
       case Materialise =>
         t.objects == AddOne(s.objects, k, out) && t.preCollected == s.preCollected && t.main == Completed
       case NextConsumer(rest) =>
         t.objects == s.objects && t.preCollected == s.preCollected[k := out] && t.main == Releasing(rest)
       case NextFlush(results) =>
         t.objects == s.objects && t.preCollected == s.preCollected && t.main == Flushing(results + [(k, out)])
  }

  lemma ArriveResults(s: State, t: State, k: Key, out: Output, after: After)
    requires Arrives(s, t, k, out, after)
    ensures Results(t.main) == if after.NextFlush? then Results(s.main) + [(k, out)] else Results(s.main)
    ensures forall x :: InResults(t.main, x) <==> InResults(s.main, x) || (after.NextFlush? && x == k)
  {
    var r := Results(t.main);
    forall x | InResults(s.main, x) || (after.NextFlush? && x == k) ensures InResults(t.main, x) {
      if InResults(s.main, x) {
        var i :| 0 <= i < |Results(s.main)| && Results(s.main)[i].0 == x;
        assert r[i].0 == x;
      } else {
        assert r[|r| - 1].0 == x;
      }
    }
  }

  lemma ArrivePlaces(s: State, t: State, k: Key, out: Output, after: After)
    requires Arrives(s, t, k, out, after) && PlacesDisjoint(s)
    ensures PlacesDisjoint(t)
  {
    ArriveResults(s, t, k, out, after);
    assert forall i :: 0 <= i < |Results(s.main)| ==> InResults(s.main, Results(s.main)[i].0);
  }

  lemma ArriveSettled(s: State, t: State, k: Key, out: Output, after: After)
    requires Arrives(s, t, k, out, after) && PlacesDisjoint(s) && Settled(s)
    requires after.Materialise? ==> Current(s, k)
    ensures Settled(t)
  {
    ArriveResults(s, t, k, out, after);
    assert Outstanding(s, k);
    forall x | Current(t, x) && (t.main.Completed? || t.main.Releasing?) ensures !Outstanding(t, x) {
      assert Current(s, x);
      if after.NextConsumer? {
        assert !Outstanding(s, x);
      } else {
        assert x == k && Results(s.main) == [] && !InResults(t.main, x);
      }
    }
  }

  lemma ArriveWorkers(s: State, t: State, k: Key, out: Output, after: After)
    requires Arrives(s, t, k, out, after) && WorkersExact(s) && PlacesDisjoint(s)
    ensures WorkersExact(t)
  {
    forall x ensures InFlight(t, x) <==> InFlight(s, x) && x != k {
    }
    forall x | InFlight(t, x) ensures x in t.promises || exists v :: 0 < v < |t.makers| && BusyWith(t.makers, v, x) {
      if x !in s.promises {
        var v :| 0 < v < |s.makers| && BusyWith(s.makers, v, x);
        assert BusyWith(t.makers, v, x);
      }
    }
  }

  lemma ArrivingOutput(s: State, t: State, k: Key, out: Output, after: After, cap: Capture)
    requires Arrives(s, t, k, out, after) && MakerCounts(s, cap) && OutputsCounted(s, cap)
    requires forall x :: x in cap.counts ==> cap.counts[x] > 0
    ensures OutputCounts(cap, s.failing, k, out)
  {
  }

  lemma ArriveCounts(s: State, t: State, k: Key, out: Output, after: After, cap: Capture)
    requires Arrives(s, t, k, out, after) && MakerCounts(s, cap) && OutputsCounted(s, cap)
    requires OutputCounts(cap, s.failing, k, out)
    ensures MakerCounts(t, cap) && OutputsCounted(t, cap)
  {
    ArriveResults(s, t, k, out, after);
  }

  lemma ArriveObjects(s: State, t: State, k: Key, out: Output, after: After, cap: Capture)
    requires Arrives(s, t, k, out, after) && ObjectsCounted(s, cap)
    requires OutputCounts(cap, s.failing, k, out)
    ensures ObjectsCounted(t, cap)
  {
    ArriveResults(s, t, k, out, after);
    forall x | x in cap.counts && x !in t.failing ensures x in t.objects || Outstanding(t, x) {
      assert x in s.objects || Outstanding(s, x);
    }
  }

  lemma ArriveRunOnce(s: State, t: State, k: Key, out: Output, after: After, cap: Capture)
    requires Arrives(s, t, k, out, after) && RunOnce(s, cap)
    ensures RunOnce(t, cap)
  {
    assert k in s.ran;
    assert forall x :: t.service.Pending(x) ==> s.service.Pending(x);
  }

  lemma ArriveProviders(s: State, t: State, k: Key, out: Output, after: After, cap: Capture)
    requires Arrives(s, t, k, out, after) && ProvidersAlive(s, cap)
    ensures ProvidersAlive(t, cap)
  {
    forall x | Unexecuted(t, x) ensures Unexecuted(s, x) {
      if t.service.Pending(x) {
        assert s.service.Pending(x);
      } else {
        var m :| 0 <= m < |t.makers| && BusyWith(t.makers, m, x) && t.makers[m].phase.Fresh?;
        assert BusyWith(s.makers, m, x);
      }
    }
    assert Remaining(t.main) == Remaining(s.main);
    forall x, p | Unexecuted(t, x) && x in t.service.tasks && p in t.providers[x] ensures Watched(t, p, x) {
      assert Watched(s, p, x);
    }
  }

  lemma ArriveSound(s: State, t: State, k: Key, out: Output, after: After, cap: Capture)
    requires Arrives(s, t, k, out, after) && Sound(s, cap)
    requires after.Materialise? ==> Current(s, k)
    requires forall x :: x in cap.counts ==> cap.counts[x] > 0
    ensures Sound(t, cap)
  {
    hide Settled, PlacesDisjoint, WorkersExact, MakerCounts, OutputsCounted, ObjectsCounted, RunOnce, ProvidersAlive;
    ArrivePlaces(s, t, k, out, after);
    ArriveSettled(s, t, k, out, after);
    ArriveWorkers(s, t, k, out, after);
    ArrivingOutput(s, t, k, out, after, cap);
    ArriveCounts(s, t, k, out, after, cap);
    ArriveObjects(s, t, k, out, after, cap);
    ArriveRunOnce(s, t, k, out, after, cap);
    ArriveProviders(s, t, k, out, after, cap);
    assert QueueExact(t);
  }

  lemma CollectArrives(s: State)
    requires Shape(s) && Enabled(s, Collect)
    ensures Arrives(s, Next(s, Collect), s.main.key, s.promises[s.main.key], s.main.after)
  {
  }

  lemma CollectShape(s: State)
    requires Shape(s) && Enabled(s, Collect)
    ensures var t := Next(s, Collect); Shape(t) && t.at == s.at && t.commands == s.commands
  {
    hide AddOne;
  }

  lemma KeepCollect(s: State)
    requires Inv(s) && Enabled(s, Collect)
    ensures Inv(Next(s, Collect))
  {
    hide Sound, CaptureOf, Recorded, Next, Arrives;
    CapFacts(s);
    CollectArrives(s);
    CollectShape(s);
    ArriveSound(s, Next(s, Collect), s.main.key, s.promises[s.main.key], s.main.after, Cap(s));
  }

  lemma ArriveArrives(s: State)
    requires Shape(s) && Enabled(s, Arrive)
    ensures Arrives(s, Next(s, Arrive), s.main.key, s.makers[0].phase.Result(), s.main.after)
  {
  }

  lemma ArriveShape(s: State)
    requires Shape(s) && Enabled(s, Arrive)
    ensures var t := Next(s, Arrive); Shape(t) && t.at == s.at && t.commands == s.commands
  {
    hide AddOne;
  }

  lemma KeepArrive(s: State)
    requires Inv(s) && Enabled(s, Arrive)
    ensures Inv(Next(s, Arrive))
  {
    hide Sound, CaptureOf, Recorded, Next, Arrives;
    CapFacts(s);
    ArriveArrives(s);
    ArriveShape(s);
    ArriveSound(s, Next(s, Arrive), s.main.key, s.makers[0].phase.Result(), s.main.after, Cap(s));
  }
}
