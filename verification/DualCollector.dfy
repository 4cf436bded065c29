/** The digit collector: one stream of packets, dispatched to the telephone-event decoder and the in-band detector. */
module DualCollector {
  import opened Wrappers
  import opened Lists
  import T = TelephoneEvents
  import I = InbandPress
  import P = Pcm16

  /** A packet by its payload type: a telephone event, audio with its decoded PCM (empty when it does not decode), or
      neither. */
  datatype Input = EventPacket(packet: T.Packet) | AudioPacket(pcm: seq<P.Byte>) | OtherPacket

  /** There is no in-band detector for codecs it does not support. */
  datatype Both = Both(rfc: T.Decoder, inband: Option<I.Detector>)

  datatype Report = Report(outOfBand: bool, digit: char)

  datatype Collected = Collected(state: Both, reports: seq<Report>)

  function Tagged(outOfBand: bool, digits: seq<char>): seq<Report> {
    if digits == [] then [] else [Report(outOfBand, digits[0])] + Tagged(outOfBand, digits[1..])
  }

  function AsDigits(digit: Option<char>): seq<char> { if digit.Some? then [digit.value] else [] }

  function Collect(s: Both, input: Input, decide: seq<P.Int16> -> I.Block): Collected {
    match input
    case EventPacket(p) =>
      var o := T.Receive(s.rfc, p);
      Collected(s.(rfc := o.decoder), Tagged(true, AsDigits(o.digit)))
    case AudioPacket(pcm) =>
      if s.inband.None? then Collected(s, [])
      else var f := I.Feed(s.inband.value, P.Samples(pcm), decide);
           Collected(s.(inband := Some(f.detector)), Tagged(false, f.digits))
    case OtherPacket => Collected(s, [])
  }

  function CollectAll(s: Both, inputs: seq<Input>, decide: seq<P.Int16> -> I.Block): Collected
    decreases inputs
  {
    if inputs == [] then Collected(s, [])
    else var first := Collect(s, inputs[0], decide);
         var rest := CollectAll(first.state, inputs[1..], decide);
         Collected(rest.state, first.reports + rest.reports)
  }

  // ---- The two streams within the packets

  function Events(inputs: seq<Input>): seq<T.Packet> {
    if inputs == [] then []
    else if inputs[0].EventPacket? then [inputs[0].packet] + Events(inputs[1..])
    else Events(inputs[1..])
  }

  function Audio(inputs: seq<Input>): seq<seq<P.Byte>> {
    if inputs == [] then []
    else if inputs[0].AudioPacket? then [inputs[0].pcm] + Audio(inputs[1..])
    else Audio(inputs[1..])
  }

  /** The digits of the reports of one kind. */
  function Of(reports: seq<Report>, outOfBand: bool): seq<char> {
    if reports == [] then []
    else if reports[0].outOfBand == outOfBand then [reports[0].digit] + Of(reports[1..], outOfBand)
    else Of(reports[1..], outOfBand)
  }

  /** Every digit the telephone-event decoder reports. */
  function Told(d: T.Decoder, ps: seq<T.Packet>): seq<char>
    decreases ps
  {
    if ps == [] then []
    else var o := T.Receive(d, ps[0]);
         (match o.digit { case Some(c) => [c] case None => [] }) + Told(o.decoder, ps[1..])
  }

  lemma {:induction false} OfAppend(a: seq<Report>, b: seq<Report>, outOfBand: bool)
    ensures Of(a + b, outOfBand) == Of(a, outOfBand) + Of(b, outOfBand)
  {
    if a == [] {
      assert a + b == b;
    } else {
      assert (a + b)[0] == a[0] && (a + b)[1..] == a[1..] + b;
      OfAppend(a[1..], b, outOfBand);
    }
  }

  lemma {:induction false} OfTagged(outOfBand: bool, digits: seq<char>, asked: bool)
    ensures Of(Tagged(outOfBand, digits), asked) == if asked == outOfBand then digits else []
  {
    if digits != [] {
      OfTagged(outOfBand, digits[1..], asked);
      assert Tagged(outOfBand, digits)[1..] == Tagged(outOfBand, digits[1..]);
    }
  }

  lemma EventStep(s: Both, input: Input, decide: seq<P.Int16> -> I.Block)
    ensures var c := Collect(s, input, decide);
            if input.EventPacket? then
              var o := T.Receive(s.rfc, input.packet);
              && c.state.rfc == o.decoder
              && Of(c.reports, true) == match o.digit { case Some(d) => [d] case None => [] }
            else c.state.rfc == s.rfc && Of(c.reports, true) == []
  {
    match input
    case EventPacket(p) => OfTagged(true, AsDigits(T.Receive(s.rfc, p).digit), true);
    case AudioPacket(pcm) =>
      if s.inband.Some? { OfTagged(false, I.Feed(s.inband.value, P.Samples(pcm), decide).digits, true); }
    case OtherPacket =>
  }

  /** However event and audio packets alternate, the telephone-event decoder does with them exactly what it does with
      the event packets alone. */
  lemma {:induction false} EventsAreUndisturbed(s: Both, inputs: seq<Input>, decide: seq<P.Int16> -> I.Block)
    ensures var c := CollectAll(s, inputs, decide);
            c.state.rfc == T.Run(s.rfc, Events(inputs)) && Of(c.reports, true) == Told(s.rfc, Events(inputs))
    decreases inputs
  {
    if inputs != [] {
      var first := Collect(s, inputs[0], decide);
      EventStep(s, inputs[0], decide);
      EventsAreUndisturbed(first.state, inputs[1..], decide);
      OfAppend(first.reports, CollectAll(first.state, inputs[1..], decide).reports, true);
    }
  }

  lemma AudioStep(s: Both, input: Input, decide: seq<P.Int16> -> I.Block)
    requires s.inband.Some?
    ensures var c := Collect(s, input, decide);
            if input.AudioPacket? then
              var f := I.Feed(s.inband.value, P.Samples(input.pcm), decide);
              c.state.inband == Some(f.detector) && Of(c.reports, false) == f.digits
            else c.state.inband == s.inband && Of(c.reports, false) == []
  {
    match input
    case EventPacket(p) => OfTagged(true, AsDigits(T.Receive(s.rfc, p).digit), false);
    case AudioPacket(pcm) => OfTagged(false, I.Feed(s.inband.value, P.Samples(pcm), decide).digits, false);
    case OtherPacket =>
  }

  /** And the in-band detector exactly what it does with the audio alone. */
  lemma {:induction false} AudioIsUndisturbed(s: Both, inputs: seq<Input>, decide: seq<P.Int16> -> I.Block)
    requires s.inband.Some?
    ensures var c, f := CollectAll(s, inputs, decide), I.FeedChunks(s.inband.value, Audio(inputs), decide);
            c.state.inband == Some(f.detector) && Of(c.reports, false) == f.digits
    decreases inputs
  {
    if inputs != [] {
      var first := Collect(s, inputs[0], decide);
      AudioStep(s, inputs[0], decide);
      AudioIsUndisturbed(first.state, inputs[1..], decide);
      OfAppend(first.reports, CollectAll(first.state, inputs[1..], decide).reports, false);
      if !inputs[0].AudioPacket? { assert Audio(inputs) == Audio(inputs[1..]); }
    }
  }

  /** A new collector reports, from the audio packets of any mixed stream, the digits of the block decisions of the
      audio put together. */
  lemma {:induction false} MixedStreamKeepsPresses(inputs: seq<Input>, decide: seq<P.Int16> -> I.Block)
    requires forall i :: 0 <= i < |Audio(inputs)| ==> |Audio(inputs)[i]| % 2 == 0
    ensures var blocks := I.Decisions(P.Samples(Flatten(Audio(inputs))), decide);
            Of(CollectAll(Both(T.Fresh, Some(I.Detector([], I.Idle))), inputs, decide).reports, false)
            == I.Digits(blocks, 0, |blocks|)
  {
    AudioIsUndisturbed(Both(T.Fresh, Some(I.Detector([], I.Idle))), inputs, decide);
    I.ReportDependsOnlyOnStream(Audio(inputs), decide);
  }

  class Collector {
    const rfc: T.Rfc2833Decoder
    const inband: I.InbandDetector?

    function State(): Both
      reads rfc, inband
    {
      Both(rfc.State(), if inband == null then None else Some(inband.State()))
    }

    constructor (supported: bool, decide: seq<P.Int16> -> I.Block)
      ensures fresh(rfc) && (inband != null ==> fresh(inband) && inband.decide == decide)
              && (inband != null <==> supported)
      ensures State() == Both(T.Fresh, if supported then Some(I.Detector([], I.Idle)) else None)
    {
      rfc := new T.Rfc2833Decoder();
      if supported { inband := new I.InbandDetector(decide); } else { inband := null; }
    }

    /** One packet; `takes` is how many digits the handler takes before it fails.  The digits handed over are those of
        the packet, up to the failure. */
    method Read(
        input: Input, takes: Option<nat>, ghost decide: seq<P.Int16> -> I.Block)
      returns (digits: seq<char>, stopped: bool)
      requires inband != null ==> inband.decide == decide
      modifies rfc, inband
      ensures var c := Collect(old(State()), input, decide);
              && (!stopped ==> State() == c.state && Tagged(input.EventPacket?, digits) == c.reports)
              && (stopped ==> takes == Some(|digits|) && |digits| < |c.reports|
                              && Tagged(input.EventPacket?, digits) == c.reports[..|digits|])
              // after a failure the decoders have taken the packet in, but its timestamp is not remembered
              && (stopped ==>
                    State() == if input.EventPacket? then
                                 c.state.(rfc := c.state.rfc.(lastTimestamp := old(State()).rfc.lastTimestamp))
                               else c.state)
    {
      digits, stopped := [], false;
      match input
      case EventPacket(p) =>
        var digit;
        digit, stopped := rfc.Read(p, takes == Some(0));
        digits := if stopped then [] else AsDigits(digit);
      case AudioPacket(pcm) =>
        if inband != null {
          digits := inband.FeedPCM(pcm);
          TaggedPrefix(false, digits);
          if takes.Some? && takes.value < |digits| { digits, stopped := digits[..takes.value], true; }
        }
      case OtherPacket =>
    }
  }

  lemma {:induction false} TaggedPrefix(outOfBand: bool, digits: seq<char>)
    ensures |Tagged(outOfBand, digits)| == |digits|
    ensures forall n :: 0 <= n <= |digits| ==> Tagged(outOfBand, digits[..n]) == Tagged(outOfBand, digits)[..n]
  {
    if digits != [] {
      TaggedPrefix(outOfBand, digits[1..]);
      forall n | 0 < n <= |digits| ensures Tagged(outOfBand, digits[..n]) == Tagged(outOfBand, digits)[..n] {
        assert digits[..n][1..] == digits[1..][..n - 1];
        assert Tagged(outOfBand, digits[1..][..n - 1]) == Tagged(outOfBand, digits[1..])[..n - 1];
      }
    }
  }
}
