/** What every reachable state of asynchronous replay satisfies, and the proof that each step keeps
    it. The invariant is split by concern; each group is one predicate. */
module AsyncReplayInvariant {
  import opened ReplayCommands
  import opened CreationService
  import opened AsyncReplay

  ghost function Cap(s: State): Capture {
    if s.at <= |s.commands| then CaptureOf(s.commands[..s.at]) else Capture(map[], {})
  }

  /** The command being processed while the main thread is not Ready. */
  ghost predicate Current(s: State, k: Key) {
    s.at < |s.commands| && s.commands[s.at].Keyed() && s.commands[s.at].key == k
  }

  ghost predicate ReleasingToZero(s: State) {
    s.at < |s.commands| && s.commands[s.at].Release? && s.commands[s.at].captured == 0
  }

  /** The consumers the main thread has still to finish before it releases their provider. */
  ghost function Remaining(main: Main): seq<Key> {
    match main
    case Releasing(consumers) => consumers
    case Awaiting(_, NextConsumer(rest)) => rest
    case Creating(_, NextConsumer(rest)) => rest
    case _ => []
  }

  ghost function Results(main: Main): seq<(Key, Output)> {
    match main
    case Flushing(results) => results
    case Awaiting(_, NextFlush(results)) => results
    case Creating(_, NextFlush(results)) => results
    case _ => []
  }

  /** The creation task the main thread has taken out of the registry and is completing. */
  ghost predicate Held(main: Main, k: Key) {
    (main.Awaiting? || main.Creating?) && main.key == k
  }

  ghost predicate InResults(main: Main, k: Key) {
    exists i :: 0 <= i < |Results(main)| && Results(main)[i].0 == k
  }

  ghost predicate BusyWith(makers: seq<Maker>, m: nat, k: Key) {
    m < |makers| && makers[m].Busy? && makers[m].key == k
  }

  /** A task some worker has started whose result nobody has collected. */
  ghost predicate InFlight(s: State, k: Key) {
    s.service.Started(k) || (s.main.Awaiting? && s.main.key == k)
  }

  ghost predicate Shape(s: State) {
    && s.at <= |s.commands|
    && (s.main != Ready ==> s.at < |s.commands|)
    && (s.main.Completed? ==> s.commands[s.at].Keyed())
    && (s.main.Releasing? ==> ReleasingToZero(s))
    && (s.main.Flushing? ==> s.commands[s.at].FlushAll?)
    && (s.main.Awaiting? || s.main.Creating? ==>
          match s.main.after
          case Materialise => Current(s, s.main.key)
          case NextConsumer(_) => ReleasingToZero(s)
          case NextFlush(_) => s.commands[s.at].FlushAll?)
    && (s.main.Creating? <==> s.makers[0].Busy?)
    && (s.main.Creating? ==> s.makers[0].key == s.main.key)
  }

  /** The queue holds, without duplicates, exactly the registered tasks nobody has started. */
  ghost predicate QueueExact(s: State) {
    && Distinct(s.service.queue)
    && forall k :: k in s.service.queue <==> s.service.Pending(k)
  }

  /** Started tasks and promises: one worker per task, and a started task is either with its worker
      or fulfilled. */
  ghost predicate WorkersExact(s: State) {
    && (forall w :: 0 < w < |s.makers| && s.makers[w].Busy? ==>
          InFlight(s, s.makers[w].key) && s.makers[w].key !in s.promises)
    && (forall w, v :: 0 < w < v < |s.makers| && s.makers[w].Busy? && s.makers[v].Busy? ==>
          s.makers[w].key != s.makers[v].key)
    && (forall k :: k in s.promises ==> InFlight(s, k))
    && (forall k :: InFlight(s, k) ==> k in s.promises || exists w :: 0 < w < |s.makers| && BusyWith(s.makers, w, k))
  }

  /** Where a key can be: registered, held by the main thread, finished early, or materialised. */
  ghost predicate PlacesDisjoint(s: State) {
    && (forall k :: k in s.service.tasks || Held(s.main, k) ==>
          k !in s.objects && k !in s.preCollected && !InResults(s.main, k) && k !in s.freed)
    && (forall k :: Held(s.main, k) ==> k !in s.service.tasks)
    && (forall k :: k in s.preCollected ==> k !in s.objects && !InResults(s.main, k) && k in s.freed)
    && (forall k :: InResults(s.main, k) ==> k !in s.objects && k in s.freed)
    && (forall i, j :: 0 <= i < j < |Results(s.main)| ==> Results(s.main)[i].0 != Results(s.main)[j].0)
  }

  ghost predicate Outstanding(s: State, k: Key) {
    k in s.service.tasks || Held(s.main, k) || k in s.preCollected || InResults(s.main, k)
  }

  /** The count an object will have once its deferred updates are applied is the recorded count. */
  ghost predicate PhaseCounts(cap: Capture, failing: set<Key>, deferred: int, k: Key, phase: Phase) {
    && k in cap.counts
    && match phase
       case Fresh => cap.counts[k] == 1 + deferred
       case Ran(success) => success == (k !in failing) && cap.counts[k] == 1 + deferred
       case Taken(total) => k !in failing && cap.counts[k] == 1 + total
  }

  ghost predicate OutputCounts(cap: Capture, failing: set<Key>, k: Key, out: Output) {
    && k in cap.counts
    && (out.Failed? <==> k in failing)
    && (out.Made? ==> out.count == cap.counts[k])
  }

  ghost predicate MakerCounts(s: State, cap: Capture) {
    && (forall k :: k in s.service.tasks && !s.service.tasks[k] ==>
          PhaseCounts(cap, s.failing, s.service.Deferred(k), k, Fresh))
    && (forall m :: 0 <= m < |s.makers| && s.makers[m].Busy? ==>
          PhaseCounts(cap, s.failing, s.service.Deferred(s.makers[m].key), s.makers[m].key, s.makers[m].phase))
    && (forall k :: k in s.service.refCounts ==> k in cap.seen)
  }

  ghost predicate OutputsCounted(s: State, cap: Capture) {
    && (forall k :: k in s.promises ==> OutputCounts(cap, s.failing, k, s.promises[k]))
    && (forall k :: k in s.preCollected ==> OutputCounts(cap, s.failing, k, s.preCollected[k]))
    && (forall i :: 0 <= i < |Results(s.main)| ==>
          OutputCounts(cap, s.failing, Results(s.main)[i].0, Results(s.main)[i].1))
  }

  /** Every live object is materialised with its recorded count, or can still be obtained. */
  ghost predicate ObjectsCounted(s: State, cap: Capture) {
    && (forall k :: k in s.objects ==> k in cap.counts && k !in s.failing && s.objects[k] == cap.counts[k])
    && (forall k :: k in cap.counts && k !in s.failing ==> k in s.objects || Outstanding(s, k))
  }

  ghost predicate Counts(s: State, cap: Capture) {
    MakerCounts(s, cap) && OutputsCounted(s, cap) && ObjectsCounted(s, cap)
  }

  /** The functor of k has not run yet. */
  ghost predicate Unexecuted(s: State, k: Key) {
    s.service.Pending(k) || exists m :: 0 <= m < |s.makers| && BusyWith(s.makers, m, k) && s.makers[m].phase.Fresh?
  }

  /** Every functor runs at most once, and before anyone sees its result. */
  ghost predicate RunOnce(s: State, cap: Capture) {
    && Distinct(s.ran)
    && (forall k :: k in s.ran ==> k in cap.seen)
    && (forall k :: s.service.Pending(k) ==> k !in s.ran)
    && (forall m :: 0 <= m < |s.makers| && s.makers[m].Busy? ==> (s.makers[m].key in s.ran <==> !s.makers[m].phase.Fresh?))
    && (forall k :: k in s.promises ==> k in s.ran)
    && (forall k :: k in s.freed ==> k in s.ran)
  }

  ghost predicate Watched(s: State, p: Key, k: Key) {
    k in s.service.Consumers(p) || (Current(s, p) && k in Remaining(s.main))
  }

  /** Every provider of an unexecuted creation is live, and releasing a provider will find it. */
  ghost predicate ProvidersAlive(s: State, cap: Capture) {
    && (forall k :: Unexecuted(s, k) ==> k in s.providers)
    && (forall k, p :: Unexecuted(s, k) && p in s.providers[k] ==> p in cap.counts)
    && (forall k, p :: Unexecuted(s, k) && k in s.service.tasks && p in s.providers[k] ==> Watched(s, p, k))
    && (s.main.Releasing? || ((s.main.Awaiting? || s.main.Creating?) && s.main.after.NextConsumer?) ==>
          forall p :: Current(s, p) ==> p !in s.service.dependencies)
  }

  /** Once CompleteObject has returned, the object of the current command is materialised or, if its
      creation failed, gone. */
  ghost predicate Settled(s: State) {
    s.main.Completed? || s.main.Releasing? || ((s.main.Awaiting? || s.main.Creating?) && s.main.after.NextConsumer?) ==>
      forall k :: Current(s, k) ==> !Outstanding(s, k)
  }

  ghost predicate Sound(s: State, cap: Capture) {
    && PlacesDisjoint(s)
    && Settled(s)
    && QueueExact(s)
    && WorkersExact(s)
    && Counts(s, cap)
    && RunOnce(s, cap)
    && ProvidersAlive(s, cap)
  }

  ghost predicate Inv(s: State) {
    Recorded(s.commands) && Shape(s) && Sound(s, Cap(s))
  }
}
