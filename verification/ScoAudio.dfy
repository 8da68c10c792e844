/** The SCO demo's callbacks for a CVSD connection, working in place on two ring buffers and the caller's buffers. */
module ScoCallbacks {
  import opened Machine
  import opened RingBuffers
  import opened JitterBuffers

  /** `memset` to zero of the rest of a buffer. */
  method Silence(buffer: array<uint8>, at: nat, n: nat)
    requires at + n <= buffer.Length
    modifies buffer
    ensures forall i :: 0 <= i < buffer.Length ==> buffer[i] == if at <= i < at + n then 0 else old(buffer[i])
  {
    for k := 0 to n
      invariant forall i :: 0 <= i < buffer.Length ==> buffer[i] == if at <= i < at + k then 0 else old(buffer[i])
    {
      buffer[at + k] := 0;
    }
  }

  /** A request that is kept waiting: silence in its part of the buffer. */
  method SilencePart(buffer: array<uint8>, at: nat, n: nat, unit: nat, ghost s: Stream, ghost threshold: nat)
    requires at + n <= buffer.Length && unit > 0 && Waiting(s, threshold)
    modifies buffer
    ensures buffer[..] == old(buffer[..at]) + Heard(s, threshold, n, unit) + old(buffer[at + n..])
  {
    Silence(buffer, at, n);
    assert Heard(s, threshold, n, unit) == Zeros(n);
    assert buffer[at..at + n] == Zeros(n);
    assert buffer[..at] == old(buffer[..at]) && buffer[at + n..] == old(buffer[at + n..]);
    assert buffer[..] == buffer[..at] + buffer[at..at + n] + buffer[at + n..];
  }

  /** The tail of both callbacks: read what is queued, count it in samples of `unit` bytes, silence the rest. */
  method ReadThenSilence(ring: RingBuffer, buffer: array<uint8>, at: nat, n: nat, unit: nat,
                         ghost s: Stream, ghost threshold: nat) returns (filled: nat)
    requires ring.Valid() && buffer != ring.storage && at + n <= buffer.Length && 1 <= unit <= 2 && n % unit == 0
    requires s.queue == ring.contents && !Waiting(s, threshold)
    modifies ring, buffer
    ensures ring.Valid() && ring.contents == Pull(s, threshold, n, unit).queue
    ensures filled == Filled(s, threshold, n, unit)
    ensures buffer[..] == old(buffer[..at]) + Heard(s, threshold, n, unit) + old(buffer[at + n..])
  {
    var bytesRead := ring.Read(buffer, at, n);
    filled := bytesRead - bytesRead % unit;
    if filled != n {
      Silence(buffer, at + filled, n - filled);
    }
    assert buffer[at..at + n] == s.queue[..filled] + Zeros(n - filled);
    assert buffer[..at] == old(buffer[..at]) && buffer[at + n..] == old(buffer[at + n..]);
    assert buffer[..] == buffer[..at] + buffer[at..at + n] + buffer[at + n..];
  }

  /** How much of a request for n bytes is data: whole samples of what is queued, unless the stream is kept waiting
      for 800 bytes. */
  function DataBytes(wasPaused: bool, queued: nat, n: nat, unit: nat): nat
    requires unit > 0
  {
    if wasPaused && queued < 800 then 0 else Min(n, queued) - Min(n, queued) % unit
  }

  /** The first k bytes are data, the rest is silence. */
  predicate DataThenSilence(out: seq<uint8>, k: nat) {
    k <= |out| && forall i :: k <= i < |out| ==> out[i] == 0
  }

  /** What a request hands out is the data that the caller's buffer then begins with. */
  lemma HeardIsDelivered(s: Stream, n: nat, unit: nat)
    requires unit > 0
    ensures var k := DataBytes(s.paused, |s.queue|, n, unit);
            && DataThenSilence(Heard(s, CVSD_PREBUFFER_BYTES, n, unit), k)
            && Pull(s, CVSD_PREBUFFER_BYTES, n, unit).delivered ==
               s.delivered + Heard(s, CVSD_PREBUFFER_BYTES, n, unit)[..k]
  {
    var k := DataBytes(s.paused, |s.queue|, n, unit);
    assert Heard(s, CVSD_PREBUFFER_BYTES, n, unit)[..k] == s.queue[..k];
  }

  /** A part that is all of a buffer. */
  lemma Whole(whole: seq<uint8>, part: seq<uint8>)
    requires whole == [] + part + []
    ensures whole == part
  {
  }

  lemma Middle(whole: seq<uint8>, head: seq<uint8>, part: seq<uint8>, tail: seq<uint8>)
    requires whole == head + part + tail
    ensures whole[..|head|] == head && whole[|head| + |part|..] == tail
    ensures whole[|head|..|head| + |part|] == part
  {
  }

  /** The radio-to-speaker side: `audio_output_ring_buffer` and `audio_output_paused`. */
  class AudioOutput {
    const ring: RingBuffer
    var paused: bool
    ghost var accepted: seq<uint8>
    ghost var delivered: seq<uint8>

    ghost predicate Valid()
      reads this, ring, ring.storage
    {
      ring.Valid() && ring.storage.Length == OUTPUT_STORAGE
    }

    ghost function Now(): Stream
      requires Valid()
      reads this, ring, ring.storage
    {
      Stream(ring.contents, paused, accepted, delivered)
    }

    /** The output half of `audio_initialize`. */
    constructor ()
      ensures Valid() && fresh(ring) && fresh(ring.storage) && Now() == INITIAL.output
    {
      ring := new RingBuffer(OUTPUT_STORAGE);
      paused := true;
      accepted, delivered := [], [];
    }

    /** A received packet: `frame` holds the 256 bytes of decoded samples, of which the packet filled size - 3.  A
        packet of 2 bytes then asks for more room than any buffer has; shorter ones make the sample count that is
        passed to the concealment negative, which its unsigned parameter turns into 65535. */
    method ReceiveCVSD(size: uint16, frame: seq<uint8>)
      requires Valid() && |frame| == 256 && size >= 2
      modifies this`accepted, ring, ring.storage
      ensures Valid()
      ensures Now() == if 3 <= size <= 256 then Push(old(Now()), frame[..size - 3], OUTPUT_STORAGE) else old(Now())
    {
      if size > 256 {
        return;
      }
      var audioBytesRead: int := size as int - 3;
      if audioBytesRead < 0 {
        return;
      }
      var ok := ring.Write(frame[..audioBytesRead]);
      if ok {
        accepted := accepted + frame[..audioBytesRead];
      }
    }

    /** Fills the whole speaker buffer: queued samples, then silence. */
    method PlaybackCallback(buffer: array<uint8>, numSamples: uint16)
      requires Valid() && buffer.Length == numSamples * BYTES_PER_FRAME && buffer != ring.storage
      modifies this`paused, this`delivered, ring, buffer
      ensures Valid()
      ensures Now() == Pull(old(Now()), CVSD_PREBUFFER_BYTES, numSamples * BYTES_PER_FRAME, BYTES_PER_FRAME)
      ensures buffer[..] == Heard(old(Now()), CVSD_PREBUFFER_BYTES, numSamples * BYTES_PER_FRAME, BYTES_PER_FRAME)
      ensures var k := DataBytes(old(paused), old(|ring.contents|), buffer.Length, 2);
              DataThenSilence(buffer[..], k) && delivered == old(delivered) + buffer[..][..k]
    {
      ghost var s := Now();
      FillBuffer(buffer, numSamples);
      HeardIsDelivered(s, buffer.Length, BYTES_PER_FRAME);
    }

    method FillBuffer(buffer: array<uint8>, numSamples: uint16)
      requires Valid() && buffer.Length == numSamples * BYTES_PER_FRAME && buffer != ring.storage
      modifies this`paused, this`delivered, ring, buffer
      ensures Valid()
      ensures Now() == Pull(old(Now()), CVSD_PREBUFFER_BYTES, numSamples * BYTES_PER_FRAME, BYTES_PER_FRAME)
      ensures buffer[..] == Heard(old(Now()), CVSD_PREBUFFER_BYTES, numSamples * BYTES_PER_FRAME, BYTES_PER_FRAME)
    {
      ghost var s := Now();
      if paused {
        var available := ring.BytesAvailable();
        if available < CVSD_PREBUFFER_BYTES {
          SilencePart(buffer, 0, buffer.Length, BYTES_PER_FRAME, s, CVSD_PREBUFFER_BYTES);
          Whole(buffer[..], Heard(s, CVSD_PREBUFFER_BYTES, buffer.Length, BYTES_PER_FRAME));
          return;
        }
        paused := false;
      }
      var n := numSamples * BYTES_PER_FRAME;
      var filled := ReadThenSilence(ring, buffer, 0, n, BYTES_PER_FRAME, s, CVSD_PREBUFFER_BYTES);
      Whole(buffer[..], Heard(s, CVSD_PREBUFFER_BYTES, n, BYTES_PER_FRAME));
      if filled != n {
        paused := true;
      }
      delivered := delivered + s.queue[..filled];
    }
  }

  /** The microphone-to-radio side: `audio_input_ring_buffer` and `audio_input_paused`. */
  class AudioInput {
    const ring: RingBuffer
    var paused: bool
    ghost var accepted: seq<uint8>
    ghost var delivered: seq<uint8>

    ghost predicate Valid()
      reads this, ring, ring.storage
    {
      ring.Valid() && ring.storage.Length == INPUT_STORAGE
    }

    ghost function Now(): Stream
      requires Valid()
      reads this, ring, ring.storage
    {
      Stream(ring.contents, paused, accepted, delivered)
    }

    /** The input half of `audio_initialize`. */
    constructor ()
      ensures Valid() && fresh(ring) && fresh(ring.storage) && Now() == INITIAL.input
    {
      ring := new RingBuffer(INPUT_STORAGE);
      paused := true;
      accepted, delivered := [], [];
    }

    method RecordingCallback(samples: seq<uint8>)
      requires Valid()
      modifies this`accepted, ring, ring.storage
      ensures Valid() && Now() == Push(old(Now()), samples, INPUT_STORAGE)
    {
      var ok := ring.Write(samples);
      if ok {
        accepted := accepted + samples;
      }
    }

    /** Fills the payload of an outgoing packet, behind its three header bytes: queued bytes, then silence. */
    method SendPayload(packet: array<uint8>, payloadLength: nat)
      requires Valid() && packet.Length >= 3 + payloadLength && packet != ring.storage
      modifies this`paused, this`delivered, ring, packet
      ensures Valid() && Now() == Pull(old(Now()), CVSD_PREBUFFER_BYTES, payloadLength, 1)
      ensures packet[..3] == old(packet[..3]) && packet[3 + payloadLength..] == old(packet[3 + payloadLength..])
      ensures packet[3..3 + payloadLength] == Heard(old(Now()), CVSD_PREBUFFER_BYTES, payloadLength, 1)
      ensures var k := DataBytes(old(paused), old(|ring.contents|), payloadLength, 1);
              && DataThenSilence(packet[3..3 + payloadLength], k)
              && delivered == old(delivered) + packet[3..3 + payloadLength][..k]
    {
      ghost var s, head, tail := Now(), packet[..3], packet[3 + payloadLength..];
      FillPayload(packet, payloadLength);
      HeardIsDelivered(s, payloadLength, 1);
      Middle(packet[..], head, Heard(s, CVSD_PREBUFFER_BYTES, payloadLength, 1), tail);
    }

    method FillPayload(packet: array<uint8>, payloadLength: nat)
      requires Valid() && packet.Length >= 3 + payloadLength && packet != ring.storage
      modifies this`paused, this`delivered, ring, packet
      ensures Valid() && Now() == Pull(old(Now()), CVSD_PREBUFFER_BYTES, payloadLength, 1)
      ensures packet[..] == old(packet[..3]) + Heard(old(Now()), CVSD_PREBUFFER_BYTES, payloadLength, 1)
                            + old(packet[3 + payloadLength..])
    {
      ghost var s := Now();
      if paused {
        var available := ring.BytesAvailable();
        if available >= CVSD_PREBUFFER_BYTES {
          paused := false;
        }
      }
      var pos := 0;
      if !paused {
        pos := ReadThenSilence(ring, packet, 3, payloadLength, 1, s, CVSD_PREBUFFER_BYTES);
      } else {
        SilencePart(packet, 3, payloadLength, 1, s, CVSD_PREBUFFER_BYTES);
      }
      if payloadLength - pos != 0 {
        paused := true;
      }
      delivered := delivered + s.queue[..pos];
    }
  }

  /** A packet's samples fit the decoder's frame. */
  predicate Deliverable(e: Event) {
    && (e.Receive? ==> |e.data| <= 253)
    && (e.Play? ==> e.samples < 0x1_0000)
  }

  // ---- Any interleaving ----

  /** The data parts of the buffers that were handed out, one after the other. */
  function Joined(outs: seq<seq<uint8>>, counts: seq<nat>): seq<uint8>
    requires |counts| == |outs| && forall j :: 0 <= j < |outs| ==> DataThenSilence(outs[j], counts[j])
  {
    if outs == [] then []
    else
      var n := |outs| - 1;
      assert DataThenSilence(outs[n], counts[n]);
      Joined(outs[..n], counts[..n]) + outs[n][..counts[n]]
  }

  /** Each buffer is data, then silence, and together the data are `delivered`. */
  predicate HandedOut(outs: seq<seq<uint8>>, counts: seq<nat>, delivered: seq<uint8>) {
    && |counts| == |outs| && (forall j :: 0 <= j < |outs| ==> DataThenSilence(outs[j], counts[j]))
    && Joined(outs, counts) == delivered
  }

  lemma HandOutMore(outs: seq<seq<uint8>>, counts: seq<nat>, delivered: seq<uint8>, sizes: seq<nat>,
                    out: seq<uint8>, k: nat)
    requires HandedOut(outs, counts, delivered) && SizesAre(outs, sizes) && DataThenSilence(out, k)
    ensures HandedOut(outs + [out], counts + [k], delivered + out[..k])
    ensures SizesAre(outs + [out], sizes + [|out|])
  {
    assert (outs + [out])[..|outs|] == outs && (counts + [k])[..|counts|] == counts;
  }

  /** How many bytes the requests of one side ask for. */
  function RequestSizes(events: seq<Event>, speaker: bool): seq<nat> {
    if events == [] then []
    else
      var n := |events| - 1;
      var e := events[n];
      RequestSizes(events[..n], speaker) + RequestSize(e, speaker)
  }

  function RequestSize(e: Event, speaker: bool): seq<nat> {
    if speaker && e.Play? then [e.samples * 2] else if !speaker && e.Send? then [e.n] else []
  }

  predicate SizesAre(outs: seq<seq<uint8>>, sizes: seq<nat>) {
    |outs| == |sizes| && forall j :: 0 <= j < |outs| ==> |outs[j]| == sizes[j]
  }

  /** Everything that arrived on one side, whether or not there was room for it. */
  function Incoming(events: seq<Event>, speaker: bool): seq<uint8> {
    if events == [] then []
    else
      var n := |events| - 1;
      var e := events[n];
      Incoming(events[..n], speaker) +
      if (if speaker then e.Receive? else e.Record?) then e.data else []
  }

  /** There was always room: 3200 bytes on the speaker's side, 16000 on the microphone's. */
  predicate NeverRefuses(events: seq<Event>, speaker: bool) {
    events == [] ||
    (var n := |events| - 1;
     var sys := Run(INITIAL, events[..n]);
     && NeverRefuses(events[..n], speaker)
     && (speaker && events[n].Receive? ==> |sys.output.queue| + |events[n].data| <= 3200)
     && (!speaker && events[n].Record? ==> |sys.input.queue| + |events[n].data| <= 16000))
  }

  lemma {:induction false} AcceptsAll(events: seq<Event>, speaker: bool)
    requires NeverRefuses(events, speaker)
    ensures Side(Run(INITIAL, events), speaker).accepted == Incoming(events, speaker)
  {
    if events != [] {
      AcceptsAll(events[..|events| - 1], speaker);
    }
  }

  /** What is handed out is a beginning of what came in. */
  lemma InToOut(events: seq<Event>)
    ensures NeverRefuses(events, false) ==> Run(INITIAL, events).input.delivered <= Incoming(events, false)
    ensures NeverRefuses(events, true) && NeverCuts(events) ==>
      Run(INITIAL, events).output.delivered <= Incoming(events, true)
  {
    Conservation(events);
    if NeverRefuses(events, false) {
      AcceptsAll(events, false);
    }
    if NeverRefuses(events, true) {
      AcceptsAll(events, true);
    }
  }

  /** Any interleaving of the four callbacks on freshly initialised buffers: the objects go through the states of
      `Run`, and the buffers that they fill are of the sizes asked for.  The data in them, put together, are what was
      handed out: on the microphone's side always a beginning of what came in, unless that found no room; on the
      speaker's side too, if no request cuts a sample, and else with one byte missing for each that does. */
  method Interleave(events: seq<Event>)
    returns (microphone: AudioInput, speaker: AudioOutput, sent: seq<seq<uint8>>, played: seq<seq<uint8>>,
             ghost sentData: seq<nat>, ghost playedData: seq<nat>)
    requires forall k :: 0 <= k < |events| ==> Deliverable(events[k])
    ensures microphone.Valid() && speaker.Valid()
    ensures System(microphone.Now(), speaker.Now()) == Run(INITIAL, events)
    ensures SizesAre(sent, RequestSizes(events, false)) && HandedOut(sent, sentData, microphone.delivered)
    ensures SizesAre(played, RequestSizes(events, true)) && HandedOut(played, playedData, speaker.delivered)
    ensures microphone.Now().Conserved() && microphone.delivered <= microphone.accepted
    ensures InOrder(speaker.Now()) && Lost(speaker.Now()) == Cuts(events)
    ensures speaker.Now().Conserved() <==> NeverCuts(events)
    ensures NeverCuts(events) ==> speaker.delivered <= speaker.accepted
    ensures NeverRefuses(events, false) ==> Joined(sent, sentData) <= Incoming(events, false)
    ensures NeverRefuses(events, true) && NeverCuts(events) ==> Joined(played, playedData) <= Incoming(events, true)
  {
    microphone, speaker, sent, played, sentData, playedData := DispatchAll(events);
    Conservation(events);
    InToOut(events);
  }

  method DispatchAll(events: seq<Event>)
    returns (microphone: AudioInput, speaker: AudioOutput, sent: seq<seq<uint8>>, played: seq<seq<uint8>>,
             ghost sentData: seq<nat>, ghost playedData: seq<nat>)
    requires forall k :: 0 <= k < |events| ==> Deliverable(events[k])
    ensures microphone.Valid() && speaker.Valid()
    ensures System(microphone.Now(), speaker.Now()) == Run(INITIAL, events)
    ensures SizesAre(sent, RequestSizes(events, false)) && HandedOut(sent, sentData, microphone.delivered)
    ensures SizesAre(played, RequestSizes(events, true)) && HandedOut(played, playedData, speaker.delivered)
  {
    microphone := new AudioInput();
    speaker := new AudioOutput();
    sent, played, sentData, playedData := [], [], [], [];
    for n := 0 to |events|
      invariant fresh(microphone) && fresh(microphone.ring) && fresh(microphone.ring.storage) && microphone.Valid()
      invariant fresh(speaker) && fresh(speaker.ring) && fresh(speaker.ring.storage) && speaker.Valid()
      invariant microphone.ring != speaker.ring && microphone.ring.storage != speaker.ring.storage
      invariant System(microphone.Now(), speaker.Now()) == Run(INITIAL, events[..n])
      invariant SizesAre(sent, RequestSizes(events[..n], false)) && HandedOut(sent, sentData, microphone.delivered)
      invariant SizesAre(played, RequestSizes(events[..n], true)) && HandedOut(played, playedData, speaker.delivered)
    {
      assert events[..n + 1][..n] == events[..n];
      sent, played, sentData, playedData :=
        DispatchNext(microphone, speaker, events[n], sent, played, sentData, playedData,
                     RequestSizes(events[..n], false), RequestSizes(events[..n], true));
    }
    assert events[..|events|] == events;
  }

  method DispatchNext(microphone: AudioInput, speaker: AudioOutput, e: Event, sent: seq<seq<uint8>>,
                      played: seq<seq<uint8>>, ghost sentData: seq<nat>, ghost playedData: seq<nat>,
                      ghost sentSizes: seq<nat>, ghost playedSizes: seq<nat>)
    returns (sent': seq<seq<uint8>>, played': seq<seq<uint8>>, ghost sentData': seq<nat>, ghost playedData': seq<nat>)
    requires microphone.Valid() && speaker.Valid() && Deliverable(e)
    requires microphone.ring != speaker.ring && microphone.ring.storage != speaker.ring.storage
    requires SizesAre(sent, sentSizes) && HandedOut(sent, sentData, microphone.delivered)
    requires SizesAre(played, playedSizes) && HandedOut(played, playedData, speaker.delivered)
    modifies microphone, microphone.ring, microphone.ring.storage, speaker, speaker.ring, speaker.ring.storage
    ensures microphone.Valid() && speaker.Valid()
    ensures System(microphone.Now(), speaker.Now()) == Step(old(System(microphone.Now(), speaker.Now())), e)
    ensures SizesAre(sent', sentSizes + RequestSize(e, false)) && HandedOut(sent', sentData', microphone.delivered)
    ensures SizesAre(played', playedSizes + RequestSize(e, true)) && HandedOut(played', playedData', speaker.delivered)
  {
    var out;
    ghost var k;
    ghost var wasSent, wasPlayed := microphone.delivered, speaker.delivered;
    out, k := Dispatch(microphone, speaker, e);
    sent', sentData' := Append(e.Send?, sent, out, sentData, wasSent, sentSizes, k);
    played', playedData' := Append(e.Play?, played, out, playedData, wasPlayed, playedSizes, k);
  }

  /** Adds the buffer if it is one of this side's. */
  method Append(own: bool, outs: seq<seq<uint8>>, out: seq<uint8>, ghost counts: seq<nat>, ghost delivered: seq<uint8>,
                ghost sizes: seq<nat>, ghost k: nat)
    returns (outs': seq<seq<uint8>>, ghost counts': seq<nat>)
    requires HandedOut(outs, counts, delivered) && SizesAre(outs, sizes) && DataThenSilence(out, k)
    ensures HandedOut(outs', counts', delivered + if own then out[..k] else [])
    ensures SizesAre(outs', sizes + if own then [|out|] else [])
  {
    outs', counts' := outs, counts;
    if own {
      HandOutMore(outs, counts, delivered, sizes, out, k);
      outs', counts' := outs + [out], counts + [k];
    } else {
      assert delivered + [] == delivered && sizes + [] == sizes;
    }
  }

  /** One callback; `out` is the buffer that it filled, if it is a request, with k bytes of data. */
  method Dispatch(microphone: AudioInput, speaker: AudioOutput, e: Event) returns (out: seq<uint8>, ghost k: nat)
    requires microphone.Valid() && speaker.Valid() && Deliverable(e)
    requires microphone.ring != speaker.ring && microphone.ring.storage != speaker.ring.storage
    modifies microphone, microphone.ring, microphone.ring.storage, speaker, speaker.ring, speaker.ring.storage
    ensures microphone.Valid() && speaker.Valid()
    ensures System(microphone.Now(), speaker.Now()) == Step(old(System(microphone.Now(), speaker.Now())), e)
    ensures DataThenSilence(out, k)
    ensures microphone.delivered == old(microphone.delivered) + if e.Send? then out[..k] else []
    ensures speaker.delivered == old(speaker.delivered) + if e.Play? then out[..k] else []
    ensures |out| == if e.Send? then e.n else if e.Play? then e.samples * 2 else 0
  {
    out, k := [], 0;
    match e {
      case Record(data) =>
        microphone.RecordingCallback(data);
      case Send(n) =>
        out, k := SendOne(microphone, n);
      case Receive(data) =>
        var frame := data + Zeros(256 - |data|);
        assert frame[..|data|] == data;
        speaker.ReceiveCVSD(|data| + 3, frame);
      case Play(samples) =>
        out, k := PlayOne(speaker, samples);
    }
  }

  method SendOne(microphone: AudioInput, n: nat) returns (out: seq<uint8>, ghost k: nat)
    requires microphone.Valid()
    modifies microphone`paused, microphone`delivered, microphone.ring
    ensures microphone.Valid() && microphone.Now() == Pull(old(microphone.Now()), CVSD_PREBUFFER_BYTES, n, 1)
    ensures |out| == n && DataThenSilence(out, k) && microphone.delivered == old(microphone.delivered) + out[..k]
  {
    var packet := new uint8[3 + n];
    k := DataBytes(microphone.paused, |microphone.ring.contents|, n, 1);
    microphone.SendPayload(packet, n);
    out := packet[3..3 + n];
  }

  method PlayOne(speaker: AudioOutput, samples: uint16) returns (out: seq<uint8>, ghost k: nat)
    requires speaker.Valid()
    modifies speaker`paused, speaker`delivered, speaker.ring
    ensures speaker.Valid()
    ensures speaker.Now() ==
            Pull(old(speaker.Now()), CVSD_PREBUFFER_BYTES, samples * BYTES_PER_FRAME, BYTES_PER_FRAME)
    ensures |out| == samples * 2 && DataThenSilence(out, k)
    ensures speaker.delivered == old(speaker.delivered) + out[..k]
  {
    var buffer := new uint8[samples * BYTES_PER_FRAME];
    k := DataBytes(speaker.paused, |speaker.ring.contents|, buffer.Length, 2);
    speaker.PlaybackCallback(buffer, samples);
    out := buffer[..];
  }
}
