/** The commands of a recorded stream that touch asynchronously created objects, the reference
    counts the recorded application held, and plain synchronous replay of the same stream. */
module ReplayCommands {

  /** A GITS object key; zero is the null key. */
  type Key = nat

  datatype Command =
    | CreateNow(key: Key)                          // device, root signature, pipeline library, ...
    | CreateLater(key: Key, providers: seq<Key>)   // pipeline state or state object
    | AddRef(key: Key)
    | Release(key: Key, captured: nat)             // captured: the count Release returned when recorded
    | Query(key: Key)                              // QueryInterface answered by the same object
    | Use(key: Key)                                // any other command that needs the object
    | FlushAll                                     // StateRestoreEnd
  {
    predicate Keyed() {
      AddRef? || Release? || Query? || Use?
    }
  }

  /** counts: live objects of the recorded run; seen: every key ever created. */
  datatype Capture = Capture(counts: map<Key, nat>, seen: set<Key>)

  /** What the recording guarantees: keys are fresh, only live objects are used, and Release
      carries the count it really returned. */
  predicate CanFollow(cap: Capture, c: Command) {
    match c
    case CreateNow(k) => k != 0 && k !in cap.seen
    case CreateLater(k, ps) =>
      && k != 0 && k !in cap.seen
      && forall i :: 0 <= i < |ps| ==> ps[i] == 0 || ps[i] in cap.counts
    case AddRef(k) => k in cap.counts
    case Release(k, captured) => k in cap.counts && cap.counts[k] == captured + 1
    case Query(k) => k in cap.counts
    case Use(k) => k in cap.counts
    case FlushAll => true
  }

  function CaptureStep(cap: Capture, c: Command): Capture {
    match c
    case CreateNow(k) => Capture(cap.counts[k := 1], cap.seen + {k})
    case CreateLater(k, _) => Capture(cap.counts[k := 1], cap.seen + {k})
    case AddRef(k) => if k in cap.counts then cap.(counts := cap.counts[k := cap.counts[k] + 1]) else cap
    case Query(k) => if k in cap.counts then cap.(counts := cap.counts[k := cap.counts[k] + 1]) else cap
    case Release(k, captured) =>
      if captured == 0 then cap.(counts := cap.counts - {k}) else cap.(counts := cap.counts[k := captured])
    case Use(_) => cap
    case FlushAll => cap
  }

  function CaptureOf(cs: seq<Command>): Capture {
    if cs == [] then Capture(map[], {}) else CaptureStep(CaptureOf(cs[..|cs| - 1]), cs[|cs| - 1])
  }

  predicate Recorded(cs: seq<Command>) {
    forall i :: 0 <= i < |cs| ==> CanFollow(CaptureOf(cs[..i]), cs[i])
  }

  /** Replay without worker threads: every creation runs in place. `failing` holds the keys whose
      creation functor does not return S_OK. */
  function SyncStep(objects: map<Key, int>, failing: set<Key>, c: Command): map<Key, int> {
    match c
    case CreateNow(k) => if k in failing then objects else objects[k := 1]
    case CreateLater(k, _) => if k in failing then objects else objects[k := 1]
    case _ => RunDirect(objects, c)
  }

  /** A command executed on the object itself; a null object is skipped by the runner. */
  function RunDirect(objects: map<Key, int>, c: Command): map<Key, int> {
    match c
    case AddRef(k) => if k in objects then objects[k := objects[k] + 1] else objects
    case Query(k) => if k in objects then objects[k := objects[k] + 1] else objects
    case Release(k, _) =>
      if k !in objects then objects
      else if objects[k] == 1 then objects - {k}
      else objects[k := objects[k] - 1]
    case _ => objects
  }

  function SyncRun(cs: seq<Command>, failing: set<Key>): map<Key, int> {
    if cs == [] then map[]
    else SyncStep(SyncRun(cs[..|cs| - 1], failing), failing, cs[|cs| - 1])
  }

  lemma StepFacts(cap: Capture, c: Command)
    requires CanFollow(cap, c) && forall k :: k in cap.counts ==> cap.counts[k] > 0 && k in cap.seen && k != 0
    ensures var next := CaptureStep(cap, c); forall k :: k in next.counts ==> next.counts[k] > 0 && k in next.seen && k != 0
  {
  }

  lemma {:induction false} CaptureFacts(cs: seq<Command>)
    requires Recorded(cs)
    ensures forall k :: k in CaptureOf(cs).counts ==> CaptureOf(cs).counts[k] > 0 && k in CaptureOf(cs).seen && k != 0
  {
    hide CanFollow, CaptureStep;
    if cs != [] {
      var front := cs[..|cs| - 1];
      RecordedPrefix(cs, |cs| - 1);
      CaptureFacts(front);
      assert CanFollow(CaptureOf(front), cs[|cs| - 1]);
      StepFacts(CaptureOf(front), cs[|cs| - 1]);
    }
  }

  lemma RecordedPrefix(cs: seq<Command>, n: nat)
    requires Recorded(cs) && n <= |cs|
    ensures Recorded(cs[..n])
  {
    forall i | 0 <= i < n ensures CanFollow(CaptureOf(cs[..n][..i]), cs[..n][i]) {
      assert cs[..n][..i] == cs[..i];
    }
  }

  /** Advancing the stream by one command. */
  lemma NextCapture(cs: seq<Command>, n: nat)
    requires Recorded(cs) && n < |cs|
    ensures CanFollow(CaptureOf(cs[..n]), cs[n])
    ensures CaptureOf(cs[..n + 1]) == CaptureStep(CaptureOf(cs[..n]), cs[n])
  {
    assert cs[..n + 1][..n] == cs[..n];
  }

  /** On a recorded stream, synchronous replay holds exactly the recorded counts of the objects
      whose creation succeeded. */
  lemma {:induction false} SyncHoldsRecordedCounts(cs: seq<Command>, failing: set<Key>)
    requires Recorded(cs)
    ensures SyncRun(cs, failing).Keys == CaptureOf(cs).counts.Keys - failing
    ensures forall k :: k in SyncRun(cs, failing) ==> SyncRun(cs, failing)[k] == CaptureOf(cs).counts[k]
  {
    if cs != [] {
      var n := |cs| - 1;
      RecordedPrefix(cs, n);
      SyncHoldsRecordedCounts(cs[..n], failing);
      CaptureFacts(cs[..n]);
      assert CanFollow(CaptureOf(cs[..n]), cs[n]);
    }
  }
}
