/** The transcoding relay: a reader that decodes packets into a byte stream, a writer that cuts the stream
    into hub frames for the encoder, and the loop that joins them.  The codecs themselves are not modelled:
    a packet is the list of samples it decodes to, and the encoder is the list of frames handed to it. */
module PcmRelay {
  import opened Lists
  import opened Wrappers
  import opened Pcm16

  // ---- Frame sizes

  const HUB_SAMPLE_RATE := 8000
  const DEFAULT_HUB_FRAME := 160

  /** Sample duration in nanoseconds. */
  datatype Codec = Codec(payloadType: nat, name: string, sampleRate: int, sampleDur: int)

  function SamplesPerFrame(c: Codec): (n: int)
    ensures n >= 0
  {
    var dur := if c.sampleDur <= 0 then 20_000_000 else c.sampleDur;
    var rate := if c.sampleRate <= 0 then HUB_SAMPLE_RATE else c.sampleRate;
    var ms := dur / 1_000_000;
    assert 0 <= rate * ms;
    rate * ms / 1000
  }

  predicate IsG726(c: Codec) { c.name in {"G726-16", "G726-24", "G726-32", "G726-40", "G726"} }

  /** The hub frame a codec's handler is built with; None for a codec that cannot be transcoded. */
  function HandlerFrame(c: Codec): Option<int> {
    if (c.payloadType == 0 && c.name == "PCMU")
       || (c.payloadType == 8 && c.name == "PCMA")
    then Some(SamplesPerFrame(c))
    else if c.name == "G722" || c.payloadType == 9 then
      var half := SamplesPerFrame(c) / 2;
      Some(if half == 0 then 80 else half)
    else if c.name == "G729" || c.payloadType == 18 then Some(160)
    else if IsG726(c) then Some(SamplesPerFrame(c))
    else None
  }

  function HubFrameSamples(handlerFrame: int): int { if handlerFrame == 0 then DEFAULT_HUB_FRAME else handlerFrame }

  /** Whatever was negotiated, a frame holds at least one sample, so the writer's loop makes progress. */
  lemma FrameIsPositive(c: Codec)
    requires HandlerFrame(c).Some?
    ensures HubFrameSamples(HandlerFrame(c).value) >= 1
  {}

  /** The samples of a frame's whole milliseconds, 20 of them at 8 kHz where nothing was negotiated. */
  lemma SamplesExactly(c: Codec, rate: nat, ms: nat)
    requires rate == if c.sampleRate <= 0 then 8000 else c.sampleRate
    requires if c.sampleDur <= 0 then ms == 20 else ms * 1_000_000 <= c.sampleDur < (ms + 1) * 1_000_000
    ensures SamplesPerFrame(c) * 1000 <= rate * ms < (SamplesPerFrame(c) + 1) * 1000
  {
    assert ms == (if c.sampleDur <= 0 then 20_000_000 else c.sampleDur) / 1_000_000;
  }

  /** Which codecs can be transcoded, and the samples of their hub frame: two 10 ms frames of G.729 make 160, G.722
      is read at half the samples of its frame or 80, and the others at all of them or 160. */
  lemma HandlersExactly(c: Codec)
    ensures var pcm := (c.payloadType == 0 && c.name == "PCMU") || (c.payloadType == 8 && c.name == "PCMA");
            var g722, g729 := c.name == "G722" || c.payloadType == 9, c.name == "G729" || c.payloadType == 18;
            var g726 := c.name in {"G726", "G726-16", "G726-24", "G726-32", "G726-40"};
            && (HandlerFrame(c).Some? <==> pcm || g722 || g729 || g726)
            && (HandlerFrame(c).Some? ==>
                  var n, frame := SamplesPerFrame(c), HubFrameSamples(HandlerFrame(c).value);
                  && (g722 && !pcm ==> frame == if n < 2 then 80 else n / 2)
                  && (g729 && !pcm && !g722 ==> frame == 160)
                  && (pcm || (!g722 && !g729) ==> frame == if n == 0 then 160 else n))
  {}

  // ---- The reader

  /** What one read of the network yields: decoded samples (none for an empty packet), or None for an error. */
  type Packet = Option<seq<Int16>>

  datatype Reader = Reader(incoming: seq<Packet>, scratch: seq<Byte>)

  /** Decodes packets until there are bytes to hand out; None when the source or the decoder failed. */
  function Fill(r: Reader): (Reader, bool)
    decreases r.incoming
  {
    if r.scratch != [] then (r, true)
    else if r.incoming == [] then (r, false)
    else if r.incoming[0].None? then (Reader(r.incoming[1..], []), false)
    else Fill(Reader(r.incoming[1..], Bytes(r.incoming[0].value)))
  }

  /** One Read into a buffer of `size` bytes. */
  function ReadStep(r: Reader, size: nat): (Reader, Option<seq<Byte>>) {
    var (f, ok) := Fill(r);
    if !ok then (f, None)
    else var n := if size < |f.scratch| then size else |f.scratch|;
         (f.(scratch := f.scratch[n..]), Some(f.scratch[..n]))
  }

  // ---- The writer

  datatype Writer = Writer(pending: seq<Int16>, frames: seq<seq<Int16>>)

  /** Hands complete frames to the encoder; `limit` is the number of frames it takes before it fails. */
  function Drain(w: Writer, frame: nat, limit: Option<nat>): (Writer, bool)
    requires frame >= 1
    decreases |w.pending|
  {
    if |w.pending| < frame then (w, true)
    else if limit == Some(0) then (w, false)
    else Drain(Writer(w.pending[frame..], w.frames + [w.pending[..frame]]), frame,
               match limit { case None => None case Some(n) => Some(n - 1) })
  }

  function WriteStep(w: Writer, p: seq<Byte>, frame: nat, limit: Option<nat>): (Writer, bool)
    requires frame >= 1
  {
    if |p| % 2 != 0 then (w, false) else Drain(w.(pending := w.pending + Samples(p)), frame, limit)
  }

  /** Everything the writer has been given: the frames it passed on, then what waits. */
  function Given(w: Writer): seq<Int16> { Flatten(w.frames) + w.pending }

  ghost predicate Framed(w: Writer, frame: nat) { forall i :: 0 <= i < |w.frames| ==> |w.frames[i]| == frame }

  lemma {:induction false} DrainConserves(w: Writer, frame: nat, limit: Option<nat>)
    requires frame >= 1 && Framed(w, frame)
    ensures var (v, ok) := Drain(w, frame, limit);
            && Given(v) == Given(w) && Framed(v, frame)
            && (ok ==> |v.pending| < frame) && (limit.None? ==> ok)
    decreases |w.pending|
  {
    if |w.pending| >= frame && limit != Some(0) {
      var next := Writer(w.pending[frame..], w.frames + [w.pending[..frame]]);
      assert next.frames[..|next.frames| - 1] == w.frames;
      assert w.pending == w.pending[..frame] + w.pending[frame..];
      assert Given(next) == Flatten(w.frames) + w.pending[..frame] + w.pending[frame..];
      DrainConserves(next, frame, match limit { case None => None case Some(n) => Some(n - 1) });
    }
  }

  /** An encoder that fails has taken exactly as many frames as it would. */
  lemma {:induction false} DrainCounts(w: Writer, frame: nat, limit: Option<nat>)
    requires frame >= 1
    ensures var (v, ok) := Drain(w, frame, limit);
            && (limit.Some? ==> |v.frames| <= |w.frames| + limit.value)
            && (!ok ==> |v.pending| >= frame && limit.Some? && |v.frames| == |w.frames| + limit.value)
    decreases |w.pending|
  {
    if |w.pending| >= frame && limit != Some(0) {
      DrainCounts(Writer(w.pending[frame..], w.frames + [w.pending[..frame]]), frame,
                  match limit { case None => None case Some(n) => Some(n - 1) });
    }
  }

  /** A write loses nothing, even when the encoder fails: the refused frame and all after it are still pending. */
  lemma {:induction false} WriteConserves(w: Writer, p: seq<Byte>, frame: nat, limit: Option<nat>)
    requires frame >= 1 && Framed(w, frame) && |p| % 2 == 0
    ensures var (v, ok) := WriteStep(w, p, frame, limit);
            && Given(v) == Given(w) + Samples(p) && Framed(v, frame)
            && (ok ==> |v.pending| < frame) && (limit.None? ==> ok)
            && (limit.Some? ==> |v.frames| <= |w.frames| + limit.value)
            && (!ok ==> |v.pending| >= frame && |v.frames| == |w.frames| + limit.value)
  {
    DrainConserves(w.(pending := w.pending + Samples(p)), frame, limit);
    DrainCounts(w.(pending := w.pending + Samples(p)), frame, limit);
    Regroup(Flatten(w.frames), w.pending, Samples(p));
  }

  /** The consecutive frames of a sample stream. */
  function Frames(s: seq<Int16>, frame: nat): seq<seq<Int16>>
    requires frame >= 1
    decreases |s|
  {
    if |s| < frame then [] else [s[..frame]] + Frames(s[frame..], frame)
  }

  function Rest(s: seq<Int16>, frame: nat): seq<Int16>
    requires frame >= 1
    decreases |s|
  {
    if |s| < frame then s else Rest(s[frame..], frame)
  }

  /** Frames of one length and a shorter rest are determined by the stream they add up to. */
  lemma {:induction false} FramingIsUnique(w: Writer, frame: nat)
    requires frame >= 1 && Framed(w, frame) && |w.pending| < frame
    ensures w.frames == Frames(Given(w), frame) && w.pending == Rest(Given(w), frame)
    decreases |w.frames|
  {
    if w.frames == [] {
      assert Given(w) == w.pending;
    } else {
      var f, tail := w.frames[0], w.frames[1..];
      assert w.frames == [f] + tail;
      FlattenCons(f, tail);
      assert Given(w) == f + Given(w.(frames := tail));
      FramingIsUnique(w.(frames := tail), frame);
      assert Given(w)[..frame] == f && Given(w)[frame..] == Given(w.(frames := tail));
    }
  }

  /** Frames already cut off a stream are its first frames. */
  lemma {:induction false} FramesAfter(frames: seq<seq<Int16>>, rest: seq<Int16>, frame: nat)
    requires frame >= 1 && forall i :: 0 <= i < |frames| ==> |frames[i]| == frame
    ensures Frames(Flatten(frames) + rest, frame) == frames + Frames(rest, frame)
    decreases |frames|
  {
    if frames == [] {
      assert [] + rest == rest && [] + Frames(rest, frame) == Frames(rest, frame);
    } else {
      var f, tail := frames[0], frames[1..];
      assert frames == [f] + tail;
      FlattenCons(f, tail);
      var s, later := Flatten(frames) + rest, Flatten(tail) + rest;
      assert s == f + later && s[..frame] == f && s[frame..] == later;
      FramesAfter(tail, rest, frame);
      assert [f] + (tail + Frames(rest, frame)) == frames + Frames(rest, frame);
    }
  }

  // ---- The relay

  datatype Relay = Relay(reader: Reader, writer: Writer, running: bool)

  /** One round of the relay loop: a read into a buffer of `size` bytes and a write of what was read. */
  function Round(r: Relay, size: nat, frame: nat): Relay
    requires frame >= 1
  {
    if !r.running then r
    else var (reader, chunk) := ReadStep(r.reader, size);
         if chunk.None? then Relay(reader, r.writer, false)
         else if chunk.value == [] then r.(reader := reader)
         else var (writer, ok) := WriteStep(r.writer, chunk.value, frame, None);
              Relay(reader, writer, ok)
  }

  function Rounds(r: Relay, sizes: seq<nat>, frame: nat): Relay
    requires frame >= 1
    decreases sizes
  {
    if sizes == [] then r else Rounds(Round(r, sizes[0], frame), sizes[1..], frame)
  }

  function RelayStart(incoming: seq<Packet>): Relay { Relay(Reader(incoming, []), Writer([], []), true) }

  /** The samples of the packets up to the first error. */
  function Decoded(incoming: seq<Packet>): seq<Int16> {
    if incoming == [] || incoming[0].None? then [] else incoming[0].value + Decoded(incoming[1..])
  }

  function Unread(r: Reader): seq<Int16> { Samples(r.scratch) + Decoded(r.incoming) }

  lemma {:induction false} FillConserves(r: Reader)
    requires |r.scratch| % 2 == 0
    ensures var (f, ok) := Fill(r);
            && |f.scratch| % 2 == 0
            && (ok ==> f.scratch != [] && Unread(f) == Unread(r))
            && (!ok ==> f.scratch == [] && Unread(r) == [])
    decreases r.incoming
  {
    if r.scratch == [] && r.incoming != [] && r.incoming[0].Some? {
      var next := Reader(r.incoming[1..], Bytes(r.incoming[0].value));
      SamplesOfBytes(r.incoming[0].value);
      assert Samples([]) + Decoded(r.incoming) == Decoded(r.incoming);
      FillConserves(next);
    }
  }

  /** Nothing is lost, repeated or moved: at every round, what the writer was given followed by what is still
      unread is the decoded stream, and everything given is framed. */
  ghost predicate RelayInv(r: Relay, stream: seq<Int16>, frame: nat) {
    && |r.reader.scratch| % 2 == 0
    && Framed(r.writer, frame) && |r.writer.pending| < frame
    && Given(r.writer) + (if r.running then Unread(r.reader) else []) == stream
  }

  lemma {:induction false} TakeSamples(scratch: seq<Byte>, n: nat, later: seq<Int16>)
    requires n <= |scratch| && n % 2 == 0
    ensures Samples(scratch) + later == Samples(scratch[..n]) + (Samples(scratch[n..]) + later)
  {
    assert scratch == scratch[..n] + scratch[n..];
    SamplesAppend(scratch[..n], scratch[n..]);
    Regroup(Samples(scratch[..n]), Samples(scratch[n..]), later);
  }

  /** A read hands out the front of what is unread, in whole samples. */
  lemma ReadConserves(r: Reader, size: nat)
    requires |r.scratch| % 2 == 0 && size % 2 == 0
    ensures var (s, chunk) := ReadStep(r, size);
            && |s.scratch| % 2 == 0
            && (chunk.None? ==> Unread(r) == [])
            && (chunk.Some? ==> |chunk.value| % 2 == 0 && Unread(r) == Samples(chunk.value) + Unread(s))
  {
    FillConserves(r);
    var (f, ok) := Fill(r);
    if ok {
      var n := if size < |f.scratch| then size else |f.scratch|;
      TakeSamples(f.scratch, n, Decoded(f.incoming));
    }
  }

  lemma RoundKeepsInv(r: Relay, size: nat, stream: seq<Int16>, frame: nat)
    requires frame >= 1 && size % 2 == 0 && RelayInv(r, stream, frame)
    ensures RelayInv(Round(r, size, frame), stream, frame)
  {
    if r.running {
      ReadConserves(r.reader, size);
      var (reader, chunk) := ReadStep(r.reader, size);
      if chunk.Some? && chunk.value != [] {
        WriteConserves(r.writer, chunk.value, frame, None);
        Regroup(Given(r.writer), Samples(chunk.value), Unread(reader));
      } else {
        assert Samples([]) + Unread(reader) == Unread(reader);
      }
    }
  }

  lemma {:induction false} RoundsKeepInv(r: Relay, sizes: seq<nat>, stream: seq<Int16>, frame: nat)
    requires frame >= 1 && RelayInv(r, stream, frame) && forall i :: 0 <= i < |sizes| ==> sizes[i] % 2 == 0
    ensures RelayInv(Rounds(r, sizes, frame), stream, frame)
    decreases sizes
  {
    if sizes != [] {
      RoundKeepsInv(r, sizes[0], stream, frame);
      RoundsKeepInv(Round(r, sizes[0], frame), sizes[1..], stream, frame);
    }
  }

  /** With even read buffers, whatever their sizes and the packet boundaries, the encoder has been given exactly
      the consecutive frames of a prefix of the decoded stream, the remainder of that prefix waits and is shorter
      than a frame, and the rest of the stream is still unread. */
  lemma {:induction false} RelayIsFaithful(incoming: seq<Packet>, sizes: seq<nat>, frame: nat)
    requires frame >= 1 && forall i :: 0 <= i < |sizes| ==> sizes[i] % 2 == 0
    ensures var r := Rounds(RelayStart(incoming), sizes, frame);
            var given := Given(r.writer);
            && given + (if r.running then Unread(r.reader) else []) == Decoded(incoming)
            && r.writer.frames == Frames(given, frame)
            && r.writer.pending == Rest(given, frame) && |r.writer.pending| < frame
  {
    assert Samples([]) + Decoded(incoming) == Decoded(incoming);
    assert Given(RelayStart(incoming).writer) + Decoded(incoming) == Decoded(incoming);
    RoundsKeepInv(RelayStart(incoming), sizes, Decoded(incoming), frame);
    FramingIsUnique(Rounds(RelayStart(incoming), sizes, frame).writer, frame);
  }

  /** A relay that has consumed the whole stream gave the encoder the frames of the stream and nothing else. */
  lemma {:induction false} FinishedRelay(incoming: seq<Packet>, sizes: seq<nat>, frame: nat)
    requires frame >= 1 && (forall i :: 0 <= i < |sizes| ==> sizes[i] % 2 == 0)
    requires !Rounds(RelayStart(incoming), sizes, frame).running
    ensures Rounds(RelayStart(incoming), sizes, frame).writer
            == Writer(Rest(Decoded(incoming), frame), Frames(Decoded(incoming), frame))
  {
    RelayIsFaithful(incoming, sizes, frame);
    var w := Rounds(RelayStart(incoming), sizes, frame).writer;
    assert Given(w) + [] == Given(w);
  }

  lemma RoundProgresses(r: Relay, size: nat, stream: seq<Int16>, frame: nat)
    requires frame >= 1 && size >= 2 && size % 2 == 0 && RelayInv(r, stream, frame) && r.running
    ensures var s := Round(r, size, frame); s.running ==> |Unread(s.reader)| < |Unread(r.reader)|
  {
    ReadConserves(r.reader, size);
    FillConserves(r.reader);
    var (reader, chunk) := ReadStep(r.reader, size);
    if chunk.Some? { SamplesCount(chunk.value); }
  }

  lemma {:induction false} RoundsEnd(r: Relay, sizes: seq<nat>, stream: seq<Int16>, frame: nat)
    requires frame >= 1 && RelayInv(r, stream, frame)
    requires forall i :: 0 <= i < |sizes| ==> sizes[i] >= 2 && sizes[i] % 2 == 0
    requires r.running ==> |Unread(r.reader)| < |sizes|
    ensures !Rounds(r, sizes, frame).running
    decreases sizes
  {
    if sizes != [] {
      var next := Round(r, sizes[0], frame);
      RoundKeepsInv(r, sizes[0], stream, frame);
      if r.running { RoundProgresses(r, sizes[0], stream, frame); }
      RoundsEnd(next, sizes[1..], stream, frame);
    }
  }

  /** With room for a sample in every read, a relay has finished after as many rounds as there are samples and one
      more, and the encoder was then given the frames of the whole stream. */
  lemma {:induction false} RelayFinishes(incoming: seq<Packet>, sizes: seq<nat>, frame: nat)
    requires frame >= 1 && forall i :: 0 <= i < |sizes| ==> sizes[i] >= 2 && sizes[i] % 2 == 0
    requires |Decoded(incoming)| < |sizes|
    ensures !Rounds(RelayStart(incoming), sizes, frame).running
    ensures Rounds(RelayStart(incoming), sizes, frame).writer
            == Writer(Rest(Decoded(incoming), frame), Frames(Decoded(incoming), frame))
  {
    assert Samples([]) + Decoded(incoming) == Decoded(incoming);
    assert Given(RelayStart(incoming).writer) + Decoded(incoming) == Decoded(incoming);
    RoundsEnd(RelayStart(incoming), sizes, Decoded(incoming), frame);
    FinishedRelay(incoming, sizes, frame);
  }

  /** Packet boundaries and read sizes are invisible to the encoder. */
  lemma {:induction false} ChunkingIsInvisible(
      incoming: seq<Packet>, incoming': seq<Packet>, sizes: seq<nat>, sizes': seq<nat>, frame: nat)
    requires frame >= 1 && Decoded(incoming) == Decoded(incoming')
    requires forall i :: 0 <= i < |sizes| ==> sizes[i] % 2 == 0
    requires forall i :: 0 <= i < |sizes'| ==> sizes'[i] % 2 == 0
    requires !Rounds(RelayStart(incoming), sizes, frame).running
    requires !Rounds(RelayStart(incoming'), sizes', frame).running
    ensures Rounds(RelayStart(incoming), sizes, frame).writer == Rounds(RelayStart(incoming'), sizes', frame).writer
  {
    FinishedRelay(incoming, sizes, frame);
    FinishedRelay(incoming', sizes', frame);
  }

  // ---- The reader and writer objects

  class PCMReader {
    var incoming: seq<Packet>
    var scratch: seq<Byte>

    constructor (incoming: seq<Packet>)
      ensures Reader(this.incoming, scratch) == RelayStart(incoming).reader
    {
      this.incoming := incoming;
      scratch := [];
    }

    method Read(size: nat) returns (chunk: Option<seq<Byte>>)
      modifies this
      ensures (Reader(incoming, scratch), chunk) == ReadStep(old(Reader(incoming, scratch)), size)
    {
      ghost var goal := Fill(Reader(incoming, scratch));
      while |scratch| == 0
        invariant Fill(Reader(incoming, scratch)) == goal
        decreases |incoming|, |scratch| == 0
      {
        if |incoming| == 0 {
          return None;
        }
        var packet := incoming[0];
        incoming := incoming[1..];
        if packet.None? {
          return None;
        }
        if |packet.value| == 0 {
          continue;
        }
        scratch := SamplesToBytes(packet.value);
      }
      var n := if size < |scratch| then size else |scratch|;
      chunk := Some(scratch[..n]);
      scratch := scratch[n..];
    }
  }

  class PCMWriter {
    const frame: nat
    var pending: seq<Int16>
    var frames: seq<seq<Int16>>

    constructor (frame: nat)
      ensures Writer(pending, frames) == Writer([], []) && this.frame == frame
    {
      this.frame := frame;
      pending := [];
      frames := [];
    }

    /** False is an odd buffer or an encoder error. */
    method Write(p: seq<Byte>, limit: Option<nat>) returns (ok: bool)
      requires frame >= 1
      modifies this
      ensures (Writer(pending, frames), ok) == WriteStep(old(Writer(pending, frames)), p, frame, limit)
      ensures |p| % 2 != 0 ==> !ok && pending == old(pending) && frames == old(frames)
    {
      if |p| % 2 != 0 {
        return false;
      }
      var samples := BytesToSamples(p);
      pending := pending + samples;
      var left := limit;
      ghost var goal := Drain(Writer(pending, frames), frame, limit);
      while |pending| >= frame
        invariant Drain(Writer(pending, frames), frame, left) == goal
        decreases |pending|
      {
        if left == Some(0) {
          return false;
        }
        left := match left { case None => None case Some(n) => Some(n - 1) };
        frames := frames + [pending[..frame]];
        pending := pending[frame..];
      }
      return true;
    }
  }

  const RTP_BUF_SIZE := 1500

  function First<T>(s: seq<T>, limit: Option<nat>): seq<T> {
    if limit.Some? && limit.value < |s| then s[..limit.value] else s
  }

  /** Where the loop stands: what was given and what is left make up the stream, and it goes on unless the source
      ended or the encoder failed. */
  ghost predicate LoopInv(
      w: Writer, left: seq<Int16>, running: bool, failed: bool, stream: seq<Int16>, frame: nat, limit: Option<nat>) {
    && Framed(w, frame) && Given(w) + left == stream
    && (limit.Some? ==> |w.frames| <= limit.value)
    && (failed ==> !running && |w.pending| >= frame && limit == Some(|w.frames|))
    && (!failed ==> |w.pending| < frame)
    && (!running && !failed ==> left == [])
  }

  function RoomLeft(limit: Option<nat>, taken: nat): Option<nat>
    requires limit.Some? ==> taken <= limit.value
  {
    match limit case None => None case Some(n) => Some(n - taken)
  }

  lemma {:induction false} Written(
      w: Writer, chunk: seq<Byte>, left: seq<Int16>, stream: seq<Int16>, frame: nat, limit: Option<nat>)
    requires frame >= 1 && |chunk| % 2 == 0 && LoopInv(w, Samples(chunk) + left, true, false, stream, frame, limit)
    ensures var (v, ok) := WriteStep(w, chunk, frame, RoomLeft(limit, |w.frames|));
            LoopInv(v, left, ok, !ok, stream, frame, limit)
  {
    WriteConserves(w, chunk, frame, RoomLeft(limit, |w.frames|));
    Regroup(Given(w), Samples(chunk), left);
  }

  lemma {:induction false} LoopEnds(
      w: Writer, left: seq<Int16>, failed: bool, stream: seq<Int16>, frame: nat, limit: Option<nat>)
    requires frame >= 1 && LoopInv(w, left, false, failed, stream, frame, limit)
    ensures w.frames == First(Frames(stream, frame), limit)
    ensures failed <==> limit.Some? && limit.value < |Frames(stream, frame)|
    ensures !failed ==> w.pending == Rest(stream, frame)
  {
    var rest := w.pending + left;
    assert stream == Flatten(w.frames) + rest;
    FramesAfter(w.frames, rest, frame);
    if failed {
      assert Frames(rest, frame) != [];
    } else {
      assert Given(w) == stream;
      FramingIsUnique(w, frame);
    }
  }

  /** The relay loop: reads and writes until the source ends or fails, or the encoder fails; `limit` is the number
      of frames it takes.  The encoder gets the frames of the stream, up to its failure. */
  method RunRelay(incoming: seq<Packet>, frame: nat, limit: Option<nat>)
    returns (frames: seq<seq<Int16>>, pending: seq<Int16>, failed: bool)
    requires frame >= 1
    ensures frames == First(Frames(Decoded(incoming), frame), limit)
    ensures failed <==> limit.Some? && limit.value < |Frames(Decoded(incoming), frame)|
    ensures !failed ==> pending == Rest(Decoded(incoming), frame)
  {
    var reader := new PCMReader(incoming);
    var writer := new PCMWriter(frame);
    var running := true;
    failed := false;
    assert Samples([]) + Decoded(incoming) == Decoded(incoming) && [] + Decoded(incoming) == Decoded(incoming);
    ghost var left := Decoded(incoming);
    while running
      invariant writer.frame == frame && |reader.scratch| % 2 == 0
      invariant running ==> left == Unread(Reader(reader.incoming, reader.scratch))
      invariant LoopInv(Writer(writer.pending, writer.frames), left, running, failed, Decoded(incoming), frame, limit)
      decreases running, |left|
    {
      ReadConserves(Reader(reader.incoming, reader.scratch), RTP_BUF_SIZE);
      FillConserves(Reader(reader.incoming, reader.scratch));
      var chunk := reader.Read(RTP_BUF_SIZE);
      if chunk.None? {
        running := false;
        left := [];
      } else {
        left := Unread(Reader(reader.incoming, reader.scratch));
        SamplesCount(chunk.value);
        if chunk.value != [] {
          Written(Writer(writer.pending, writer.frames), chunk.value, left, Decoded(incoming), frame, limit);
          var room := RoomLeft(limit, |writer.frames|);
          running := writer.Write(chunk.value, room);
          failed := !running;
        }
      }
    }
    frames, pending := writer.frames, writer.pending;
    LoopEnds(Writer(pending, frames), left, failed, Decoded(incoming), frame, limit);
  }
}
