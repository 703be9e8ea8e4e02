/** The first step of each command, and the end of CompleteAll. */
module AsyncReplayBegin {
  import opened ReplayCommands
  import opened CreationService
  import opened AsyncReplay
  import opened AsyncReplayInvariant
  import opened AsyncReplayMakers
  import opened AsyncReplayMain
  import opened AsyncReplayCommands

  /** A key no command has created yet appears nowhere. */
  ghost predicate Unknown(s: State, k: Key) {
    && !Outstanding(s, k) && k !in s.objects && k !in s.promises && k !in s.ran && k !in s.freed
    && k !in s.service.refCounts
    && forall m :: 0 <= m < |s.makers| ==> !BusyWith(s.makers, m, k)
  }

  lemma FreshIsUnknown(s: State, k: Key, cap: Capture)
    requires Sound(s, cap) && k !in cap.seen && s.main.Ready?
    requires forall x :: x in cap.counts ==> x in cap.seen
    ensures Unknown(s, k)
  {
    assert Results(s.main) == [];
    assert s.service.Started(k) ==> InFlight(s, k);
  }

  /** An object created in place. */
  lemma CreateNowPlaces(s: State, t: State, k: Key)
    requires PlacesDisjoint(s) && Settled(s) && s.main.Ready? && Unknown(s, k)
    requires t == Finish(s.(objects := if k in s.failing then s.objects else s.objects[k := 1]))
    ensures PlacesDisjoint(t) && Settled(t)
  {
    assert Results(t.main) == [];
  }

  lemma CreateNowCounted(s: State, t: State, k: Key, cap: Capture)
    requires OutputsCounted(s, cap) && ObjectsCounted(s, cap) && s.main.Ready? && Unknown(s, k) && k !in cap.counts
    requires t == Finish(s.(objects := if k in s.failing then s.objects else s.objects[k := 1]))
    ensures OutputsCounted(t, CaptureStep(cap, CreateNow(k))) && ObjectsCounted(t, CaptureStep(cap, CreateNow(k)))
  {
    var next := CaptureStep(cap, CreateNow(k));
    assert Results(t.main) == [];
    forall x | x in next.counts && x !in t.failing ensures x in t.objects || Outstanding(t, x) {
      assert x == k || x in s.objects || Outstanding(s, x);
    }
  }

  lemma CreateNowSound(s: State, t: State, k: Key, cap: Capture)
    requires Sound(s, cap) && s.main.Ready? && Unknown(s, k) && k !in cap.counts && k !in cap.seen
    requires t == Finish(s.(objects := if k in s.failing then s.objects else s.objects[k := 1]))
    ensures Sound(t, CaptureStep(cap, CreateNow(k)))
  {
    hide QueueExact, WorkersExact, ProvidersAlive, RunOnce, MakerCounts, PlacesDisjoint, Settled, OutputsCounted, ObjectsCounted, Unknown;
    CreateNowPlaces(s, t, k);
    CreateNowWorkers(s, t, k, cap);
    CreateNowProviders(s, t, k, cap);
    CreateNowCounted(s, t, k, cap);
  }

  lemma CreateNowWorkers(s: State, t: State, k: Key, cap: Capture)
    requires QueueExact(s) && WorkersExact(s) && RunOnce(s, cap) && MakerCounts(s, cap)
    requires s.main.Ready? && Unknown(s, k) && k !in cap.counts
    requires t == Finish(s.(objects := t.objects))
    ensures QueueExact(t) && WorkersExact(t)
    ensures RunOnce(t, CaptureStep(cap, CreateNow(k))) && MakerCounts(t, CaptureStep(cap, CreateNow(k)))
  {
    assert forall x :: InFlight(t, x) == InFlight(s, x);
    forall m | 0 <= m < |t.makers| && t.makers[m].Busy? ensures t.makers[m].key != k {
      assert !BusyWith(s.makers, m, k);
    }
  }

  lemma CreateNowProviders(s: State, t: State, k: Key, cap: Capture)
    requires ProvidersAlive(s, cap) && s.main.Ready?
    requires t == Finish(s.(objects := t.objects))
    ensures ProvidersAlive(t, CaptureStep(cap, CreateNow(k)))
  {
    assert forall x :: Unexecuted(t, x) == Unexecuted(s, x);
    assert Remaining(s.main) == Remaining(t.main) == [];
    forall x, p | Unexecuted(t, x) && p in t.providers[x] && x in t.service.tasks ensures Watched(t, p, x) {
      assert Watched(s, p, x);
    }
  }

  lemma {:induction false} DependenciesAdded(sv: Service, ps: seq<Key>, k: Key)
    requires k != 0
    ensures var r := sv.AddDependencies(ps, k);
      && r == sv.(dependencies := r.dependencies)
      && (forall p, x :: x in sv.Consumers(p) ==> x in r.Consumers(p))
      && (forall i :: 0 <= i < |ps| && ps[i] != 0 ==> k in r.Consumers(ps[i]))
  {
    if ps != [] {
      DependenciesAdded(sv, ps[..|ps| - 1], k);
    }
  }

  /** What scheduling a creation changes. */
  ghost predicate Schedules(s: State, t: State, k: Key, ps: seq<Key>) {
    && SameService(s.(service := t.service, providers := t.providers), t)
    && s.main.Ready? && t.main.Ready? && s.makers[0].Idle? && Unknown(s, k)
    && t.objects == s.objects
    && t.service.tasks == s.service.tasks[k := false] && t.service.queue == s.service.queue + [k]
    && t.service.refCounts == s.service.refCounts
    && (forall p, x :: x in s.service.Consumers(p) ==> x in t.service.Consumers(p))
    && k in t.providers && t.providers == s.providers[k := t.providers[k]]
    && (forall p :: p in t.providers[k] ==> k in t.service.Consumers(p) && exists i :: 0 <= i < |ps| && ps[i] == p && p != 0)
  }

  lemma ScheduleQueue(s: State, t: State, k: Key, ps: seq<Key>)
    requires Schedules(s, t, k, ps) && QueueExact(s) && WorkersExact(s) && PlacesDisjoint(s)
    ensures QueueExact(t) && WorkersExact(t) && PlacesDisjoint(t) && Settled(t)
  {
    assert Results(s.main) == Results(t.main) == [];
    forall x ensures InFlight(t, x) == InFlight(s, x) {
    }
    assert !s.service.Pending(k) && k !in s.service.queue;
    forall x ensures x in t.service.queue <==> t.service.Pending(x) {
      assert x in s.service.queue <==> s.service.Pending(x);
    }
  }

  lemma ScheduleCounts(s: State, t: State, k: Key, ps: seq<Key>, cap: Capture)
    requires Schedules(s, t, k, ps) && Counts(s, cap) && RunOnce(s, cap) && k !in cap.counts
    ensures Counts(t, CaptureStep(cap, CreateLater(k, ps))) && RunOnce(t, CaptureStep(cap, CreateLater(k, ps)))
  {
    assert Results(s.main) == Results(t.main) == [];
    var next := CaptureStep(cap, CreateLater(k, ps));
    forall m | 0 <= m < |t.makers| && t.makers[m].Busy? ensures t.makers[m].key != k {
      assert !BusyWith(s.makers, m, k);
    }
    forall x | t.service.Pending(x) ensures x == k || s.service.Pending(x) {
    }
    forall x | x in next.counts && x !in t.failing ensures x in t.objects || Outstanding(t, x) {
      assert x == k || x in s.objects || Outstanding(s, x);
    }
  }

  lemma ScheduleProviders(s: State, t: State, k: Key, ps: seq<Key>, cap: Capture)
    requires Schedules(s, t, k, ps) && ProvidersAlive(s, cap) && CanFollow(cap, CreateLater(k, ps))
    ensures ProvidersAlive(t, CaptureStep(cap, CreateLater(k, ps)))
  {
    var next := CaptureStep(cap, CreateLater(k, ps));
    forall x | Unexecuted(t, x) && x != k ensures Unexecuted(s, x) {
      if t.service.Pending(x) {
        assert s.service.Pending(x);
      }
    }
    forall x, p | Unexecuted(t, x) && p in t.providers[x]
      ensures p in next.counts && (x in t.service.tasks ==> Watched(t, p, x))
    {
      if x != k && x in t.service.tasks {
        assert Watched(s, p, x);
      }
    }
  }

  lemma CreateLaterSound(s: State, k: Key, ps: seq<Key>, cap: Capture)
    requires Sound(s, cap) && s.main.Ready? && s.makers[0].Idle? && CanFollow(cap, CreateLater(k, ps))
    requires forall x :: x in cap.counts ==> x in cap.seen
    ensures Sound(BeginCommand(s, CreateLater(k, ps)), CaptureStep(cap, CreateLater(k, ps)))
  {
    hide PlacesDisjoint, Settled, QueueExact, WorkersExact, MakerCounts, OutputsCounted, ObjectsCounted, RunOnce, ProvidersAlive;
    FreshIsUnknown(s, k, cap);
    DependenciesAdded(s.service, ps, k);
    var t := BeginCommand(s, CreateLater(k, ps));
    assert Schedules(s, t, k, ps);
    ScheduleQueue(s, t, k, ps);
    ScheduleCounts(s, t, k, ps, cap);
    ScheduleProviders(s, t, k, ps, cap);
  }

  /** CompleteObject finds nothing to do, or a result that was finished early. */
  ghost predicate Finds(s: State, t: State, k: Key) {
    && SameService(s.(preCollected := t.preCollected), t)
    && s.main.Ready? && s.makers[0].Idle? && t.main.Completed? && t.at == s.at
    && Current(s, k) && k !in s.service.tasks
    && (if k !in s.objects && k in s.preCollected then
          t.preCollected == s.preCollected - {k} && t.objects == AddOne(s.objects, k, s.preCollected[k])
        else
          t.preCollected == s.preCollected && t.objects == s.objects)
  }

  lemma FindPlaces(s: State, t: State, k: Key)
    requires Finds(s, t, k) && PlacesDisjoint(s)
    ensures PlacesDisjoint(t) && Settled(t)
  {
    assert Results(s.main) == Results(t.main) == [];
    forall x | Current(t, x) ensures !Outstanding(t, x) {
      assert Current(s, x) && x == k;
    }
  }

  lemma FindWorkers(s: State, t: State, k: Key, cap: Capture)
    requires Finds(s, t, k) && QueueExact(s) && WorkersExact(s) && RunOnce(s, cap) && MakerCounts(s, cap)
    ensures QueueExact(t) && WorkersExact(t) && RunOnce(t, cap) && MakerCounts(t, cap)
  {
    forall x ensures InFlight(t, x) == InFlight(s, x) {
    }
  }

  lemma FindCounts(s: State, t: State, k: Key, cap: Capture)
    requires Finds(s, t, k) && OutputsCounted(s, cap) && ObjectsCounted(s, cap)
    ensures OutputsCounted(t, cap) && ObjectsCounted(t, cap)
  {
    assert Results(s.main) == Results(t.main) == [];
    forall x | x in cap.counts && x !in t.failing ensures x in t.objects || Outstanding(t, x) {
      assert x in s.objects || Outstanding(s, x);
    }
  }

  lemma FindProviders(s: State, t: State, k: Key, cap: Capture)
    requires Finds(s, t, k) && ProvidersAlive(s, cap)
    ensures ProvidersAlive(t, cap)
  {
    forall x | Unexecuted(t, x) ensures Unexecuted(s, x) {
      assert t.service.Pending(x) == s.service.Pending(x);
    }
    forall x, p | Unexecuted(t, x) && p in t.providers[x] && x in t.service.tasks ensures Watched(t, p, x) {
      assert Watched(s, p, x);
    }
  }

  lemma FindSound(s: State, t: State, k: Key, cap: Capture)
    requires Finds(s, t, k) && Sound(s, cap)
    ensures Sound(t, cap)
  {
    hide PlacesDisjoint, Settled, QueueExact, WorkersExact, MakerCounts, OutputsCounted, ObjectsCounted, RunOnce, ProvidersAlive;
    FindPlaces(s, t, k);
    FindWorkers(s, t, k, cap);
    FindCounts(s, t, k, cap);
    FindProviders(s, t, k, cap);
  }

  lemma CompleteObjectSound(s: State, k: Key, cap: Capture)
    requires Sound(s, cap) && s.main.Ready? && s.makers[0].Idle? && Current(s, k)
    ensures Sound(CompleteObject(s, k), cap)
  {
    hide Sound;
    NotBoth(s, k, cap);
    if k in s.service.tasks {
      StartSound(s, k, Materialise, cap);
    } else {
      FindSound(s, CompleteObject(s, k), k, cap);
    }
  }

  lemma NotBoth(s: State, k: Key, cap: Capture)
    requires Sound(s, cap)
    ensures k in s.service.tasks ==> k !in s.objects && k !in s.preCollected
  {
  }

  lemma PresentNotOutstanding(s: State, k: Key, cap: Capture)
    requires Sound(s, cap) && s.main.Ready? && k in s.objects
    ensures !Outstanding(s, k)
  {
    assert Results(s.main) == [];
  }

  lemma CountUpdateSound(s: State, c: Command, cap: Capture)
    requires (c.AddRef? || (c.Release? && c.captured != 0)) && CanFollow(cap, c)
    requires Sound(s, cap) && s.main.Ready? && s.makers[0].Idle? && Current(s, c.key)
    requires forall k :: k in cap.counts ==> cap.counts[k] > 0 && k in cap.seen
    ensures var t := CountUpdate(s, c, if c.AddRef? then 1 else -1);
      Sound(t, if t.main.Ready? then CaptureStep(cap, c) else cap)
  {
    hide Sound;
    var t := CountUpdate(s, c, if c.AddRef? then 1 else -1);
    if c.key in s.objects {
      PresentNotOutstanding(s, c.key, cap);
      DirectSound(s, t, c, cap);
    } else if s.service.Pending(c.key) {
      DeferSound(s, t, c, cap);
    } else {
      CompleteObjectSound(s, c.key, cap);
    }
  }

  lemma FlushBeginProviders(s: State, t: State, cap: Capture)
    requires ProvidersAlive(s, cap) && s.main.Ready? && t == s.(main := Flushing([]))
    ensures ProvidersAlive(t, cap)
  {
    forall x, p | Unexecuted(t, x) && p in t.providers[x] && x in t.service.tasks ensures Watched(t, p, x) {
      assert Unexecuted(s, x) && Watched(s, p, x);
    }
  }

  lemma FlushBeginSound(s: State, cap: Capture)
    requires Sound(s, cap) && s.main.Ready?
    ensures Sound(s.(main := Flushing([])), cap)
  {
    hide MakerCounts, RunOnce, ProvidersAlive;
    var t := s.(main := Flushing([]));
    assert Results(s.main) == Results(t.main) == [];
    SamePhases(s, t, cap);
    FlushBeginProviders(s, t, cap);
    assert PlacesDisjoint(t) && Settled(t) && QueueExact(t) && WorkersExact(t);
    assert OutputsCounted(t, cap) && ObjectsCounted(t, cap);
  }

  /** Some result made an object of k. */
  ghost predicate MadeIn(results: seq<(Key, Output)>, k: Key) {
    exists i :: 0 <= i < |results| && results[i].0 == k && results[i].1.Made?
  }

  lemma MadeInLast(results: seq<(Key, Output)>, k: Key)
    requires results != []
    ensures var front, last := results[..|results| - 1], results[|results| - 1];
      MadeIn(results, k) <==> MadeIn(front, k) || (last.0 == k && last.1.Made?)
  {
    var front := results[..|results| - 1];
    if MadeIn(front, k) {
      var i :| 0 <= i < |front| && front[i].0 == k && front[i].1.Made?;
      assert results[i] == front[i];
    }
    if MadeIn(results, k) {
      var i :| 0 <= i < |results| && results[i].0 == k && results[i].1.Made?;
      assert i < |front| ==> front[i] == results[i];
    }
  }

  lemma {:induction false} AllAdded(objects: map<Key, int>, results: seq<(Key, Output)>)
    requires forall i, j :: 0 <= i < j < |results| ==> results[i].0 != results[j].0
    requires forall i :: 0 <= i < |results| ==> results[i].0 !in objects
    ensures forall k :: k in AddAll(objects, results) <==> k in objects || MadeIn(results, k)
    ensures forall k :: k in objects ==> AddAll(objects, results)[k] == objects[k]
    ensures forall i :: 0 <= i < |results| && results[i].1.Made? ==>
              results[i].0 in AddAll(objects, results) && AddAll(objects, results)[results[i].0] == results[i].1.count
  {
    if results != [] {
      var front, last := results[..|results| - 1], results[|results| - 1];
      AllAdded(objects, front);
      forall k ensures k in AddAll(objects, results) <==> k in objects || MadeIn(results, k) {
        MadeInLast(results, k);
      }
      forall i | 0 <= i < |results| && results[i].1.Made? ensures MadeIn(results, results[i].0) {
      }
      hide MadeIn;
    }
  }

  /** What the end of CompleteAll changes. */
  ghost predicate EndsFlush(s: State, t: State) {
    && SameService(s, t)
    && s.main.Flushing? && t.main.Ready? && s.makers[0].Idle? && s.service.tasks == map[]
    && t.objects == AddAll(s.objects, s.main.results)
  }

  lemma FlushPlaces(s: State, t: State, cap: Capture)
    requires EndsFlush(s, t) && PlacesDisjoint(s) && OutputsCounted(s, cap)
    ensures PlacesDisjoint(t) && OutputsCounted(t, cap)
  {
    hide OutputCounts;
    var results := s.main.results;
    assert Results(s.main) == results && Results(t.main) == [];
    forall i | 0 <= i < |results| ensures results[i].0 !in s.objects {
      assert InResults(s.main, Results(s.main)[i].0);
    }
    AllAdded(s.objects, results);
    forall k | k in s.preCollected ensures k !in t.objects {
      assert !InResults(s.main, k);
    }
  }

  lemma FlushObjects(s: State, t: State, cap: Capture)
    requires EndsFlush(s, t) && PlacesDisjoint(s) && ObjectsCounted(s, cap) && OutputsCounted(s, cap)
    ensures ObjectsCounted(t, cap)
  {
    var results := s.main.results;
    assert Results(s.main) == results && Results(t.main) == [];
    forall i | 0 <= i < |results| ensures results[i].0 !in s.objects && OutputCounts(cap, s.failing, results[i].0, results[i].1) {
      assert InResults(s.main, Results(s.main)[i].0);
    }
    AllAdded(s.objects, results);
    forall k | k in cap.counts && k !in t.failing ensures k in t.objects || Outstanding(t, k) {
      assert k in s.objects || Outstanding(s, k);
      if InResults(s.main, k) {
        var i :| 0 <= i < |Results(s.main)| && Results(s.main)[i].0 == k;
        assert OutputCounts(cap, s.failing, results[i].0, results[i].1);
      }
    }
  }

  lemma FlushRest(s: State, t: State, cap: Capture)
    requires EndsFlush(s, t) && QueueExact(s) && WorkersExact(s) && MakerCounts(s, cap) && RunOnce(s, cap)
    ensures QueueExact(t) && WorkersExact(t) && MakerCounts(t, cap) && RunOnce(t, cap) && Settled(t)
  {
    forall x ensures InFlight(t, x) == InFlight(s, x) {
    }
  }

  lemma FlushProviders(s: State, t: State, cap: Capture)
    requires EndsFlush(s, t) && ProvidersAlive(s, cap)
    ensures ProvidersAlive(t, cap)
  {
    forall x | Unexecuted(t, x) ensures Unexecuted(s, x) {
      assert t.service.Pending(x) == s.service.Pending(x);
    }
  }

  lemma KeepFinishFlush(s: State)
    requires Inv(s) && Enabled(s, FinishFlush)
    ensures Inv(Next(s, FinishFlush))
  {
    hide Settled, PlacesDisjoint, QueueExact, WorkersExact, MakerCounts, OutputsCounted, ObjectsCounted, RunOnce, ProvidersAlive, CaptureOf, Recorded;
    var t := Next(s, FinishFlush);
    CapAdvances(s, t);
    FlushPlaces(s, t, Cap(s));
    FlushObjects(s, t, Cap(s));
    FlushRest(s, t, Cap(s));
    FlushProviders(s, t, Cap(s));
  }

  lemma KeepBegin(s: State)
    requires Inv(s) && Enabled(s, Begin)
    ensures Inv(Next(s, Begin))
  {
    hide Sound, CaptureOf, Recorded, BeginCommand, CanFollow, CaptureStep;
    var c := s.commands[s.at];
    var t := Next(s, Begin);
    BeginShape(s, c);
    CapFacts(s);
    CapAdvances(s, Finish(s));
    BeginSound(s, c, Cap(s));
  }

  /** Shape after a step that leaves the command index in place or advances it. */
  ghost predicate Begun(s: State, t: State) {
    Shape(t) && t.commands == s.commands && t.at == if t.main.Ready? then s.at + 1 else s.at
  }

  lemma CompleteObjectShape(s: State, k: Key)
    requires Shape(s) && s.main.Ready? && Current(s, k)
    ensures Begun(s, CompleteObject(s, k)) && !CompleteObject(s, k).main.Ready?
  {
  }

  lemma FinishShape(s: State, t: State)
    requires Shape(s) && s.main.Ready? && s.at < |s.commands|
    requires t.commands == s.commands && t.at == s.at + 1 && t.main.Ready? && t.makers == s.makers
    ensures Begun(s, t)
  {
  }

  lemma BeginShape(s: State, c: Command)
    requires Shape(s) && s.main.Ready? && s.at < |s.commands| && s.commands[s.at] == c
    ensures Begun(s, BeginCommand(s, c))
  {
    hide Shape, CompleteObject, Begun;
    var t := BeginCommand(s, c);
    if t.at == s.at + 1 && t.main.Ready? {
      CompleteObjectShapeIfKeyed(s, c);
      FinishShape(s, t);
    } else if c.Keyed() {
      CompleteObjectShape(s, c.key);
    } else {
      FlushShape(s);
    }
  }

  lemma CompleteObjectShapeIfKeyed(s: State, c: Command)
    requires Shape(s) && s.main.Ready? && s.at < |s.commands| && s.commands[s.at] == c
    ensures c.Keyed() ==> !CompleteObject(s, c.key).main.Ready?
  {
    if c.Keyed() {
      CompleteObjectShape(s, c.key);
    }
  }

  lemma FlushShape(s: State)
    requires Shape(s) && s.main.Ready? && s.at < |s.commands| && s.commands[s.at].FlushAll?
    ensures Begun(s, s.(main := Flushing([])))
  {
  }

  lemma BeginSound(s: State, c: Command, cap: Capture)
    requires Sound(s, cap) && s.main.Ready? && s.makers[0].Idle? && CanFollow(cap, c)
    requires s.at < |s.commands| && s.commands[s.at] == c
    requires forall k :: k in cap.counts ==> cap.counts[k] > 0 && k in cap.seen
    ensures var t := BeginCommand(s, c);
      Sound(t, if t.main.Ready? then CaptureStep(cap, c) else cap)
  {
    hide Sound;
    match c
    case CreateNow(k) =>
      FreshIsUnknown(s, k, cap);
      CreateNowSound(s, BeginCommand(s, c), k, cap);
    case CreateLater(k, ps) => CreateLaterSound(s, k, ps, cap);
    case AddRef(_) => CountUpdateSound(s, c, cap);
    case Release(k, captured) =>
      if captured == 0 {
        CompleteObjectSound(s, k, cap);
      } else {
        CountUpdateSound(s, c, cap);
      }
    case Query(k) => CompleteObjectSound(s, k, cap);
    case Use(k) => CompleteObjectSound(s, k, cap);
    case FlushAll => FlushBeginSound(s, cap);
  }
}
