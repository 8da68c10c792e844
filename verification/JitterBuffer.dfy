/** The two audio jitter buffers of the SCO demo: microphone to radio, and radio to speaker.  Each is a byte queue
    that pauses when it runs dry and resumes when enough is queued again. */
module JitterBuffers {
  import opened Machine

  const BYTES_PER_FRAME: int := 2
  const CVSD_PREBUFFER_BYTES: int := 50 * 8000 / 1000 * BYTES_PER_FRAME
  const MSBC_PREBUFFER_BYTES: int := 50 * 16000 / 1000 * BYTES_PER_FRAME
  const OUTPUT_STORAGE: int := 2 * MSBC_PREBUFFER_BYTES
  const INPUT_STORAGE: int := 2 * 8000

  // ---- One stream ----

  /** A queue with its pause flag, and the history of what it accepted and handed out. */
  datatype Stream = Stream(queue: seq<uint8>, paused: bool, accepted: seq<uint8>, delivered: seq<uint8>) {
    /** Nothing lost, duplicated or reordered: what was accepted is what was handed out plus what is queued. */
    predicate Conserved() {
      accepted == delivered + queue
    }
  }

  const SILENT_START := Stream([], true, [], [])

  /** A write of the whole data, or nothing. */
  function Push(s: Stream, data: seq<uint8>, capacity: nat): Stream {
    if |s.queue| + |data| <= capacity then s.(queue := s.queue + data, accepted := s.accepted + data) else s
  }

  /** Paused and still below the threshold. */
  predicate Waiting(s: Stream, threshold: nat) {
    s.paused && |s.queue| < threshold
  }

  /** How many bytes of a request for n, taken in samples of `unit` bytes, are filled from the queue. */
  function Filled(s: Stream, threshold: nat, n: nat, unit: nat): (k: nat)
    requires unit > 0
    ensures k <= n && k <= |s.queue|
  {
    if Waiting(s, threshold) then 0
    else
      var available := Min(n, |s.queue|);
      available - available % unit
  }

  /** A request for n bytes.  Everything read leaves the queue, also the part of a sample that is not handed out. */
  function Pull(s: Stream, threshold: nat, n: nat, unit: nat): Stream
    requires unit > 0
  {
    if Waiting(s, threshold) then s
    else
      var k := Filled(s, threshold, n, unit);
      Stream(s.queue[Min(n, |s.queue|)..], k < n, s.accepted, s.delivered + s.queue[..k])
  }

  function Zeros(n: nat): seq<uint8> {
    seq(n, _ => 0)
  }

  /** What the caller's buffer then holds: queued data, then silence, exactly n bytes. */
  function Heard(s: Stream, threshold: nat, n: nat, unit: nat): (out: seq<uint8>)
    requires unit > 0
    ensures |out| == n
  {
    var k := Filled(s, threshold, n, unit);
    s.queue[..k] + Zeros(n - k)
  }

  // ---- One step ----

  /** A request keeps the books exactly when it does not cut a sample in half. */
  lemma PullConserves(s: Stream, threshold: nat, n: nat, unit: nat)
    requires unit > 0 && s.Conserved()
    ensures Pull(s, threshold, n, unit).Conserved() <==>
            Waiting(s, threshold) || Min(n, |s.queue|) % unit == 0
  {
    if !Waiting(s, threshold) {
      var k, m := Filled(s, threshold, n, unit), Min(n, |s.queue|);
      var s' := Pull(s, threshold, n, unit);
      if k == m {
        assert s.delivered + s.queue == s.delivered + s.queue[..k] + s.queue[k..];
      } else {
        assert |s'.delivered + s'.queue| < |s.accepted|;
      }
    }
  }

  lemma PushConserves(s: Stream, data: seq<uint8>, capacity: nat)
    requires s.Conserved()
    ensures Push(s, data, capacity).Conserved()
  {
    assert s.delivered + s.queue + data == s.delivered + (s.queue + data);
  }

  // ---- The four interleaved events ----

  datatype Event =
    | Record(data: seq<uint8>)   // microphone samples arrive
    | Send(n: nat)               // the radio wants a packet payload of n bytes
    | Receive(data: seq<uint8>)  // decoded samples of a radio packet arrive
    | Play(samples: nat)         // the speaker wants samples

  datatype System = System(input: Stream, output: Stream)

  const INITIAL := System(SILENT_START, SILENT_START)

  function Step(sys: System, e: Event): System {
    match e
    case Record(data) => sys.(input := Push(sys.input, data, INPUT_STORAGE))
    case Send(n) => sys.(input := Pull(sys.input, CVSD_PREBUFFER_BYTES, n, 1))
    case Receive(data) => sys.(output := Push(sys.output, data, OUTPUT_STORAGE))
    case Play(samples) =>
      sys.(output := Pull(sys.output, CVSD_PREBUFFER_BYTES, samples * BYTES_PER_FRAME, BYTES_PER_FRAME))
  }

  /** The speaker's storage takes 200 milliseconds of 8 kHz samples, the microphone's a second; what does not fit as a
      whole is dropped as a whole. */
  lemma Capacities(sys: System, data: seq<uint8>)
    requires data != []
    ensures Step(sys, Receive(data)).output.queue ==
            sys.output.queue + if |sys.output.queue| + |data| <= 3200 then data else []
    ensures Step(sys, Record(data)).input.queue ==
            sys.input.queue + if |sys.input.queue| + |data| <= 16000 then data else []
    ensures Step(sys, Receive(data)).input == sys.input && Step(sys, Record(data)).output == sys.output
  {
    assert sys.output.queue + [] == sys.output.queue && sys.input.queue + [] == sys.input.queue;
  }

  function Run(sys: System, events: seq<Event>): System {
    if events == [] then sys else Step(Run(sys, events[..|events| - 1]), events[|events| - 1])
  }

  lemma RunSnoc(sys: System, events: seq<Event>, e: Event)
    ensures Run(sys, events + [e]) == Step(Run(sys, events), e)
  {
    assert (events + [e])[..|events|] == events;
  }

  // ---- Conservation ----

  /** The speaker, unless it is kept waiting, does not run out in the middle of a sample. */
  predicate CutsNoSample(sys: System, e: Event) {
    e.Play? ==>
      || Waiting(sys.output, CVSD_PREBUFFER_BYTES)
      || Min(e.samples * BYTES_PER_FRAME, |sys.output.queue|) % BYTES_PER_FRAME == 0
  }

  predicate NeverCuts(events: seq<Event>) {
    Cuts(events) == 0
  }

  /** How many requests of the run cut a sample in half. */
  function Cuts(events: seq<Event>): nat {
    if events == [] then 0
    else
      var n := |events| - 1;
      Cuts(events[..n]) + if CutsNoSample(Run(INITIAL, events[..n]), events[n]) then 0 else 1
  }

  /** How many bytes have left the queue without being handed out. */
  function Lost(s: Stream): int {
    |s.accepted| - |s.queue| - |s.delivered|
  }

  /** `part` is found in `whole` at these places, in order. */
  predicate FoundAt(places: seq<nat>, part: seq<uint8>, whole: seq<uint8>) {
    && |places| == |part|
    && (forall i :: 0 <= i < |places| ==> places[i] < |whole| && whole[places[i]] == part[i])
    && forall i, j :: 0 <= i < j < |places| ==> places[i] < places[j]
  }

  /** Nothing duplicated or reordered: what was handed out and is queued is part of what was accepted, in order. */
  ghost predicate InOrder(s: Stream) {
    exists places :: FoundAt(places, s.delivered + s.queue, s.accepted)
  }

  lemma PrefixFound(places: seq<nat>, part: seq<uint8>, prefix: seq<uint8>, whole: seq<uint8>)
    requires FoundAt(places, part, whole) && prefix <= part
    ensures FoundAt(places[..|prefix|], prefix, whole)
  {
  }

  lemma MoreFound(places: seq<nat>, part: seq<uint8>, whole: seq<uint8>, data: seq<uint8>)
    requires FoundAt(places, part, whole)
    ensures FoundAt(places + seq(|data|, k => |whole| + k), part + data, whole + data)
  {
    var more := seq(|data|, k => |whole| + k);
    forall i | 0 <= i < |places + more|
      ensures (places + more)[i] < |whole + data| && (whole + data)[(places + more)[i]] == (part + data)[i]
    {
      if i >= |places| {
        assert (places + more)[i] == |whole| + (i - |places|) && (part + data)[i] == data[i - |places|];
      }
    }
  }

  lemma PushInOrder(s: Stream, data: seq<uint8>, capacity: nat)
    requires InOrder(s)
    ensures InOrder(Push(s, data, capacity))
  {
    if |s.queue| + |data| <= capacity {
      var places :| FoundAt(places, s.delivered + s.queue, s.accepted);
      MoreFound(places, s.delivered + s.queue, s.accepted, data);
      assert s.delivered + s.queue + data == s.delivered + (s.queue + data);
    }
  }

  lemma PullInOrder(s: Stream, threshold: nat, n: nat, unit: nat)
    requires 1 <= unit <= 2 && n % unit == 0 && InOrder(s)
    ensures InOrder(Pull(s, threshold, n, unit))
  {
    if !Waiting(s, threshold) {
      var s' := Pull(s, threshold, n, unit);
      var places :| FoundAt(places, s.delivered + s.queue, s.accepted);
      PullKeepsPrefix(s, threshold, n, unit);
      PrefixFound(places, s.delivered + s.queue, s'.delivered + s'.queue, s.accepted);
    }
  }

  /** A request hands out what comes next and drops at most the byte at the end. */
  lemma PullKeepsPrefix(s: Stream, threshold: nat, n: nat, unit: nat)
    requires 1 <= unit <= 2 && n % unit == 0
    ensures Pull(s, threshold, n, unit).delivered + Pull(s, threshold, n, unit).queue <= s.delivered + s.queue
  {
    if !Waiting(s, threshold) {
      var k := Filled(s, threshold, n, unit);
      assert s.queue == s.queue[..k] + s.queue[k..];
      assert s.delivered + s.queue == s.delivered + s.queue[..k] + s.queue[k..];
    }
  }

  predicate Bounded(sys: System) {
    |sys.input.queue| <= INPUT_STORAGE && |sys.output.queue| <= OUTPUT_STORAGE
  }

  /** A step loses a byte exactly if it cuts a sample, and brings nothing out of order. */
  lemma StepBooks(sys: System, e: Event)
    requires sys.input.Conserved() && Bounded(sys)
    ensures Step(sys, e).input.Conserved() && Bounded(Step(sys, e))
    ensures Lost(Step(sys, e).output) == Lost(sys.output) + if CutsNoSample(sys, e) then 0 else 1
    ensures sys.output.Conserved() && CutsNoSample(sys, e) ==> Step(sys, e).output.Conserved()
    ensures InOrder(sys.output) ==> InOrder(Step(sys, e).output)
  {
    match e
    case Record(data) => PushConserves(sys.input, data, INPUT_STORAGE);
    case Send(n) => PullConserves(sys.input, CVSD_PREBUFFER_BYTES, n, 1);
    case Receive(data) => OutputPushBooks(sys.output, data);
    case Play(samples) => OutputPullBooks(sys.output, samples * BYTES_PER_FRAME);
  }

  lemma OutputPushBooks(s: Stream, data: seq<uint8>)
    ensures s.Conserved() ==> Push(s, data, OUTPUT_STORAGE).Conserved()
    ensures InOrder(s) ==> InOrder(Push(s, data, OUTPUT_STORAGE))
  {
    if s.Conserved() {
      PushConserves(s, data, OUTPUT_STORAGE);
    }
    if InOrder(s) {
      PushInOrder(s, data, OUTPUT_STORAGE);
    }
  }

  lemma OutputPullBooks(s: Stream, n: nat)
    requires n % BYTES_PER_FRAME == 0
    ensures s.Conserved() ==>
      (Pull(s, CVSD_PREBUFFER_BYTES, n, BYTES_PER_FRAME).Conserved() <==>
       Waiting(s, CVSD_PREBUFFER_BYTES) || Min(n, |s.queue|) % BYTES_PER_FRAME == 0)
    ensures InOrder(s) ==> InOrder(Pull(s, CVSD_PREBUFFER_BYTES, n, BYTES_PER_FRAME))
  {
    if s.Conserved() {
      PullConserves(s, CVSD_PREBUFFER_BYTES, n, BYTES_PER_FRAME);
    }
    if InOrder(s) {
      PullInOrder(s, CVSD_PREBUFFER_BYTES, n, BYTES_PER_FRAME);
    }
  }

  lemma {:induction false} RunBooks(events: seq<Event>)
    ensures var sys := Run(INITIAL, events);
            && Bounded(sys) && sys.input.Conserved()
            && Lost(sys.output) == Cuts(events) && InOrder(sys.output)
            && (NeverCuts(events) ==> sys.output.Conserved())
  {
    if events == [] {
      assert FoundAt([], [], []);
    } else {
      var n := |events| - 1;
      RunBooks(events[..n]);
      StepBooks(Run(INITIAL, events[..n]), events[n]);
    }
  }

  /** Over every interleaving: the microphone's bytes are handed out, in order and without gap or repeat, as a prefix
      of the bytes accepted, and the rest is still queued.  The speaker's come in order, too; exactly one byte is lost
      for every request that cuts a sample, so they are a prefix if none does. */
  lemma Conservation(events: seq<Event>)
    ensures var sys := Run(INITIAL, events);
            && Bounded(sys) && sys.input.Conserved() && sys.input.delivered <= sys.input.accepted
            && InOrder(sys.output) && Lost(sys.output) == Cuts(events)
            && (sys.output.Conserved() <==> NeverCuts(events))
            && (NeverCuts(events) ==> sys.output.delivered <= sys.output.accepted)
  {
    RunBooks(events);
  }

  /** One more packet before the speaker starts. */
  lemma Prebuffering(events: seq<Event>, queued: seq<uint8>, data: seq<uint8>)
    requires Run(INITIAL, events).output == Stream(queued, true, queued, [])
    requires |queued| + |data| <= OUTPUT_STORAGE
    ensures Run(INITIAL, events + [Receive(data)]).output == Stream(queued + data, true, queued + data, [])
  {
    RunSnoc(INITIAL, events, Receive(data));
  }

  /** An odd number of queued bytes is enough: of 801 bytes received in four packets the speaker, asked for 401
      samples, plays 800, and the last one is gone. */
  lemma HalfSampleLost(p: seq<uint8>, q: seq<uint8>, r: seq<uint8>, t: seq<uint8>)
    requires |p| == |q| == |r| == 200 && |t| == 201
    ensures var s := Run(INITIAL, [Receive(p), Receive(q), Receive(r), Receive(t), Play(401)]).output;
            && s.accepted == p + q + r + t && s.queue == [] && s.delivered == s.accepted[..800]
            && !s.Conserved()
  {
    var e1, e2 := [Receive(p)], [Receive(p), Receive(q)];
    var e3, e4 := e2 + [Receive(r)], e2 + [Receive(r)] + [Receive(t)];
    assert [] + e1 == e1 && [] + p == p && e1 + [Receive(q)] == e2;
    Prebuffering([], [], p);
    Prebuffering(e1, p, q);
    Prebuffering(e2, p + q, r);
    Prebuffering(e3, p + q + r, t);
    RunSnoc(INITIAL, e4, Play(401));
    assert e4 + [Play(401)] == [Receive(p), Receive(q), Receive(r), Receive(t), Play(401)];
    SpeakerRunsOut(p + q + r + t);
  }

  lemma SpeakerRunsOut(queued: seq<uint8>)
    requires |queued| == 801
    ensures Pull(Stream(queued, true, queued, []), CVSD_PREBUFFER_BYTES, 401 * BYTES_PER_FRAME, BYTES_PER_FRAME)
            == Stream([], true, queued, queued[..800])
  {
    assert queued[801..] == [] && [] + queued[..800] == queued[..800];
  }

  /** Radio packets carry whole samples. */
  predicate WholeSamples(e: Event) {
    e.Receive? ==> |e.data| % BYTES_PER_FRAME == 0
  }

  predicate Sound(sys: System) {
    && sys.input.Conserved() && sys.output.Conserved() && |sys.output.queue| % BYTES_PER_FRAME == 0 && Bounded(sys)
  }

  lemma StepSound(sys: System, e: Event)
    requires Sound(sys) && WholeSamples(e)
    ensures Sound(Step(sys, e))
  {
    match e
    case Record(data) => PushConserves(sys.input, data, INPUT_STORAGE);
    case Send(n) => PullConserves(sys.input, CVSD_PREBUFFER_BYTES, n, 1);
    case Receive(data) => PushConserves(sys.output, data, OUTPUT_STORAGE);
    case Play(samples) =>
      PullConserves(sys.output, CVSD_PREBUFFER_BYTES, samples * BYTES_PER_FRAME, BYTES_PER_FRAME);
  }

  /** If every packet carries whole samples, no request ever cuts one. */
  lemma {:induction false} WholeSamplesNeverCut(events: seq<Event>)
    requires forall k :: 0 <= k < |events| ==> WholeSamples(events[k])
    ensures Sound(Run(INITIAL, events)) && NeverCuts(events)
  {
    if events != [] {
      var n := |events| - 1;
      WholeSamplesNeverCut(events[..n]);
      StepSound(Run(INITIAL, events[..n]), events[n]);
    }
  }

  // ---- Hysteresis ----

  /** A call that is not kept waiting pauses the stream exactly when it comes up short, and then it has emptied it. */
  lemma PausesWhenShort(s: Stream, threshold: nat, n: nat, unit: nat)
    requires unit > 0 && !Waiting(s, threshold) && n % unit == 0
    ensures Pull(s, threshold, n, unit).paused <==> |s.queue| < n
    ensures Pull(s, threshold, n, unit).paused ==> Pull(s, threshold, n, unit).queue == []
  {
  }

  predicate Requests(e: Event, speaker: bool) {
    if speaker then e.Play? else e.Send?
  }

  function Side(sys: System, speaker: bool): Stream {
    if speaker then sys.output else sys.input
  }

  /** No request of this side, in this run, finds the threshold reached. */
  predicate Starved(sys: System, events: seq<Event>, speaker: bool) {
    forall k :: 0 <= k < |events| && Requests(events[k], speaker) ==>
      |Side(Run(sys, events[..k]), speaker).queue| < CVSD_PREBUFFER_BYTES
  }

  /** Once paused, a stream hands out nothing but silence until a request finds the threshold reached. */
  lemma {:induction false} SilentUntilPrebuffered(sys: System, events: seq<Event>, speaker: bool)
    requires Side(sys, speaker).paused && Starved(sys, events, speaker)
    ensures Side(Run(sys, events), speaker).paused
    ensures Side(Run(sys, events), speaker).delivered == Side(sys, speaker).delivered
  {
    if events != [] {
      var n := |events| - 1;
      StarvedBefore(sys, events, speaker);
      SilentUntilPrebuffered(sys, events[..n], speaker);
    }
  }

  lemma StarvedBefore(sys: System, events: seq<Event>, speaker: bool)
    requires events != [] && Starved(sys, events, speaker)
    ensures Starved(sys, events[..|events| - 1], speaker)
  {
    var prefix := events[..|events| - 1];
    forall k | 0 <= k < |prefix| && Requests(prefix[k], speaker)
      ensures |Side(Run(sys, prefix[..k]), speaker).queue| < CVSD_PREBUFFER_BYTES
    {
      assert prefix[..k] == events[..k] && prefix[k] == events[k];
    }
  }

  /** The stream has been running since the request that found the threshold reached. */
  predicate Running(sys: System, events: seq<Event>, speaker: bool) {
    forall k :: 0 < k < |events| ==> !Side(Run(sys, events[..k]), speaker).paused
  }

  /** How a stream has run on from `start`: it has handed out whole samples, with what is queued at least the
      threshold, and has not paused without running empty. */
  predicate RunsOn(start: Stream, s: Stream, unit: nat)
    requires unit > 0
  {
    && |s.delivered| >= |start.delivered| && (|s.delivered| - |start.delivered|) % unit == 0
    && |s.delivered| + |s.queue| >= |start.delivered| + CVSD_PREBUFFER_BYTES
    && (s.paused ==> s.queue == [])
  }

  /** A request that is not kept waiting: half a sample that it drops is beyond the threshold, which is whole. */
  lemma SpeakerRunsOn(start: Stream, s: Stream, n: nat)
    requires !Waiting(s, CVSD_PREBUFFER_BYTES) && n % 2 == 0
    requires RunsOn(start, s.(paused := false), 2)
    ensures RunsOn(start, Pull(s, CVSD_PREBUFFER_BYTES, n, 2), 2)
  {
  }

  lemma MicrophoneRunsOn(start: Stream, s: Stream, n: nat)
    requires !Waiting(s, CVSD_PREBUFFER_BYTES)
    requires RunsOn(start, s.(paused := false), 1)
    ensures RunsOn(start, Pull(s, CVSD_PREBUFFER_BYTES, n, 1), 1)
  {
  }

  function Unit(speaker: bool): nat {
    if speaker then BYTES_PER_FRAME else 1
  }

  lemma StepRunsOn(start: Stream, sys: System, e: Event, speaker: bool)
    requires RunsOn(start, Side(sys, speaker).(paused := false), Unit(speaker))
    requires Side(sys, speaker).paused ==>
      !Waiting(Side(sys, speaker), CVSD_PREBUFFER_BYTES) && Requests(e, speaker)
    ensures RunsOn(start, Side(Step(sys, e), speaker), Unit(speaker))
  {
    match e
    case Play(samples) =>
      if speaker {
        SpeakerRunsOn(start, sys.output, samples * BYTES_PER_FRAME);
      }
    case Send(n) =>
      if !speaker {
        MicrophoneRunsOn(start, sys.input, n);
      }
    case _ =>
  }

  lemma {:induction false} SpurtRunsOn(sys: System, events: seq<Event>, speaker: bool)
    requires Side(sys, speaker).paused && |Side(sys, speaker).queue| >= CVSD_PREBUFFER_BYTES
    requires Running(sys, events, speaker) && events != [] && Requests(events[0], speaker)
    ensures RunsOn(Side(sys, speaker), Side(Run(sys, events), speaker), Unit(speaker))
  {
    var n := |events| - 1;
    var prefix := events[..n];
    if n == 0 {
      assert prefix == [];
    } else {
      RunningBefore(sys, events, speaker);
      SpurtRunsOn(sys, prefix, speaker);
    }
    StepRunsOn(Side(sys, speaker), Run(sys, prefix), events[n], speaker);
  }

  lemma RunningBefore(sys: System, events: seq<Event>, speaker: bool)
    requires |events| > 1 && Running(sys, events, speaker)
    ensures Running(sys, events[..|events| - 1], speaker) && !Side(Run(sys, events[..|events| - 1]), speaker).paused
  {
    var prefix := events[..|events| - 1];
    forall k | 0 < k < |prefix| ensures !Side(Run(sys, prefix[..k]), speaker).paused {
      assert prefix[..k] == events[..k];
    }
  }

  /** Hysteresis: from the request that ends a pause to the next pause, at least the threshold is handed out, packets
      of any size in between. */
  lemma SpurtsAreLong(sys: System, events: seq<Event>, speaker: bool)
    requires Side(sys, speaker).paused && |Side(sys, speaker).queue| >= CVSD_PREBUFFER_BYTES
    requires Running(sys, events, speaker) && events != [] && Requests(events[0], speaker)
    requires Side(Run(sys, events), speaker).paused
    ensures |Side(Run(sys, events), speaker).delivered| >= |Side(sys, speaker).delivered| + CVSD_PREBUFFER_BYTES
  {
    SpurtRunsOn(sys, events, speaker);
  }
}
