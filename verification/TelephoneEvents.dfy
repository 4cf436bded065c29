/** The telephone-event decoder (section 2.5 of RFC 4733) and the collector step that derives the
    start-of-event marker from a change of RTP timestamp. */
module TelephoneEvents {
  import opened Wrappers

  type Byte = b: nat | b < 256

  datatype Event = Event(code: Byte, end: bool, duration: nat)

  const NO_EVENT := Event(0, false, 0)

  /** Duration, in RTP clock units, after which a tone counts even if no end packet follows. */
  const ACCEPT_DURATION := 320

  datatype Decoder = Decoder(lastTimestamp: nat, last: Event, emitted: bool)

  const Fresh := Decoder(0, NO_EVENT, false)

  datatype Packet = Packet(timestamp: nat, marker: bool, payload: seq<Byte>)

  datatype Outcome = Outcome(decoder: Decoder, digit: Option<char>)

  const EVENT_DIGITS := "0123456789*#ABCD"

  function Digit(code: Byte): Option<char> {
    if code < 16 then Some(EVENT_DIGITS[code]) else None
  }

  function Decode(payload: seq<Byte>): Option<Event> {
    if |payload| < 4 then None
    else Some(Event(payload[0], payload[1] >= 0x80, payload[2] as int * 256 + payload[3] as int))
  }

  /** The events 0 to 15 in the order of section 3.2 of RFC 4733. */
  lemma DigitExactly(code: Byte)
    ensures code <= 9 ==> Digit(code) == Some('0' + code as char)
    ensures Digit(10) == Some('*') && Digit(11) == Some('#')
    ensures 12 <= code <= 15 ==> Digit(code) == Some('A' + (code - 12) as char)
    ensures code >= 16 ==> Digit(code) == None
  {}

  /** The fields of section 2.3 of RFC 4733: the event, the end bit above the volume, and the duration, high byte
      first; what follows them is passed over. */
  lemma EventFields(ev: Event, volume: nat, rest: seq<Byte>)
    requires ev.duration < 0x1_0000 && volume < 0x80
    ensures Decode([ev.code, (if ev.end then 0x80 else 0) + volume, ev.duration / 256, ev.duration % 256] + rest)
            == Some(ev)
  {}

  lemma ShortPayload(payload: seq<Byte>)
    ensures |payload| < 4 <==> Decode(payload) == None
  {}

  function ProcessEvent(d: Decoder, ev: Event, marker: bool): Outcome {
    if ev.end then
      if d.emitted || d.last.duration == 0 || d.last.code != ev.code then Outcome(d, None)
      else Outcome(d.(last := NO_EVENT, emitted := true), Digit(ev.code))
    else if marker || d.last.code != ev.code then Outcome(d.(last := ev, emitted := false), None)
    else if !d.emitted && ev.duration >= ACCEPT_DURATION then
      // `last` is left alone when a digit is reported here, and stores the event when the code has no digit
      Outcome(if Digit(ev.code).Some? then d.(emitted := true) else d.(last := ev, emitted := true), Digit(ev.code))
    else Outcome(d.(last := ev), None)
  }

  function Process(d: Decoder, payload: seq<Byte>, marker: bool): Outcome {
    match Decode(payload)
    case None => Outcome(d, None)
    case Some(ev) => ProcessEvent(d, ev, marker)
  }

  /** One telephone-event packet through the collector. */
  function Receive(d: Decoder, p: Packet): Outcome {
    var o := Process(d, p.payload, p.marker || d.lastTimestamp != p.timestamp);
    o.(decoder := o.decoder.(lastTimestamp := p.timestamp))
  }

  function Run(d: Decoder, ps: seq<Packet>): Decoder
    decreases ps
  {
    if ps == [] then d else Run(Receive(d, ps[0]).decoder, ps[1..])
  }

  /** The digits reported while receiving the packets of the event with timestamp `t`. */
  function Reported(d: Decoder, ps: seq<Packet>, t: nat): seq<char>
    decreases ps
  {
    if ps == [] then []
    else var o := Receive(d, ps[0]);
         (if ps[0].timestamp == t && o.digit.Some? then [o.digit.value] else []) + Reported(o.decoder, ps[1..], t)
  }

  predicate Decodable(p: Packet) { |p.payload| >= 4 }

  function Ev(p: Packet): Event
    requires Decodable(p)
  {
    Decode(p.payload).value
  }

  /** Packets `p` then `q` of one event: same code, end packets last, the marker only on the first packet. */
  predicate Follows(p: Packet, q: Packet)
    requires Decodable(p) && Decodable(q)
  {
    Ev(p).code == Ev(q).code && (Ev(p).end ==> Ev(q).end) && !q.marker
  }

  /** An in-order stream in which every event has its own timestamp. */
  predicate InOrder(ps: seq<Packet>) {
    && (forall i :: 0 <= i < |ps| ==> Decodable(ps[i]))
    && (forall i, j, k :: 0 <= i < j < k < |ps| && ps[i].timestamp == ps[k].timestamp ==>
            ps[j].timestamp == ps[i].timestamp)
    && (forall i, j :: 0 <= i < j < |ps| && ps[i].timestamp == ps[j].timestamp ==> Follows(ps[i], ps[j]))
  }

  /** `received` is `sent` with packets lost: `index` says where each received packet was in `sent`. */
  predicate Lossy(sent: seq<Packet>, received: seq<Packet>, index: seq<nat>) {
    && |index| == |received|
    && (forall i :: 0 <= i < |index| ==> index[i] < |sent| && received[i] == sent[index[i]])
    && (forall i, j :: 0 <= i < j < |index| ==> index[i] < index[j])
  }

  /** Any one packet can be lost. */
  lemma OneLost(sent: seq<Packet>, k: nat)
    requires k < |sent|
    ensures Lossy(sent, sent[..k] + sent[k + 1..], seq(|sent| - 1, i requires 0 <= i => if i < k then i else i + 1))
  {}

  lemma LossKeepsOrder(sent: seq<Packet>, received: seq<Packet>, index: seq<nat>)
    requires InOrder(sent) && Lossy(sent, received, index)
    ensures InOrder(received)
  {}

  lemma {:induction false} SilentElsewhere(d: Decoder, ps: seq<Packet>, t: nat)
    requires forall i :: 0 <= i < |ps| ==> ps[i].timestamp != t
    ensures Reported(d, ps, t) == []
    decreases ps
  {
    if ps != [] { SilentElsewhere(Receive(d, ps[0]).decoder, ps[1..], t); }
  }

  /** In the middle of event `t` the decoder still holds its code, or only end packets are left. */
  ghost predicate Inside(d: Decoder, ps: seq<Packet>, t: nat) {
    && d.lastTimestamp == t && InOrder(ps)
    && (forall i :: 0 <= i < |ps| && ps[i].timestamp == t ==>
            !ps[i].marker && (Ev(ps[i]).end || Ev(ps[i]).code == d.last.code))
  }

  lemma TailInOrder(ps: seq<Packet>)
    requires InOrder(ps) && ps != []
    ensures InOrder(ps[1..])
    ensures forall j :: 0 <= j < |ps[1..]| && ps[1..][j].timestamp == ps[0].timestamp ==> Follows(ps[0], ps[1..][j])
  {}

  lemma {:induction false} InsideAtMostOne(d: Decoder, ps: seq<Packet>, t: nat)
    requires Inside(d, ps, t)
    requires ps != [] ==> ps[0].timestamp == t || (forall i :: 0 <= i < |ps| ==> ps[i].timestamp != t)
    ensures |Reported(d, ps, t)| <= if d.emitted then 0 else 1
    decreases ps
  {
    if ps == [] {
    } else if ps[0].timestamp != t {
      SilentElsewhere(d, ps, t);
    } else {
      TailInOrder(ps);
      var next := Receive(d, ps[0]).decoder;
      EventContiguous(ps, t);
      InsideAtMostOne(next, ps[1..], t);
    }
  }

  lemma EventContiguous(ps: seq<Packet>, t: nat)
    requires InOrder(ps) && ps != [] && ps[0].timestamp == t
    ensures var rest := ps[1..];
            rest != [] ==> rest[0].timestamp == t || (forall i :: 0 <= i < |rest| ==> rest[i].timestamp != t)
  {}

  /** Every reported digit is the digit of the event it is reported for. */
  lemma {:induction false} ReportedIsOwnDigit(d: Decoder, ps: seq<Packet>, t: nat, code: Byte)
    requires forall i :: 0 <= i < |ps| && ps[i].timestamp == t ==> Decodable(ps[i]) && Ev(ps[i]).code == code
    ensures forall i :: 0 <= i < |Reported(d, ps, t)| ==> Digit(code) == Some(Reported(d, ps, t)[i])
    ensures Digit(code).None? ==> Reported(d, ps, t) == []
    decreases ps
  {
    if ps != [] {
      ReportedIsOwnDigit(Receive(d, ps[0]).decoder, ps[1..], t, code);
    }
  }

  lemma {:induction false} FromAnyStateAtMostOne(d: Decoder, ps: seq<Packet>, t: nat)
    requires InOrder(ps)
    ensures |Reported(d, ps, t)| <= 1
    decreases ps
  {
    if ps != [] {
      TailInOrder(ps);
      var next := Receive(d, ps[0]).decoder;
      if ps[0].timestamp != t {
        FromAnyStateAtMostOne(next, ps[1..], t);
      } else {
        EventContiguous(ps, t);
        InsideAtMostOne(next, ps[1..], t);
      }
    }
  }

  /** Under any packet loss, every event of an in-order stream is reported at most once, as its own digit. */
  lemma {:induction false} AtMostOneDigitPerEvent(sent: seq<Packet>, received: seq<Packet>, index: seq<nat>, i: nat)
    requires InOrder(sent) && Lossy(sent, received, index) && i < |sent|
    ensures var digits := Reported(Fresh, received, sent[i].timestamp);
            digits == [] || (Digit(Ev(sent[i]).code).Some? && digits == [Digit(Ev(sent[i]).code).value])
  {
    var t := sent[i].timestamp;
    LossKeepsOrder(sent, received, index);
    FromAnyStateAtMostOne(Fresh, received, t);
    forall k | 0 <= k < |received| && received[k].timestamp == t
      ensures Ev(received[k]).code == Ev(sent[i]).code
    {
      assert received[k] == sent[index[k]];
      if index[k] < i { assert Follows(sent[index[k]], sent[i]); }
      if i < index[k] { assert Follows(sent[i], sent[index[k]]); }
    }
    ReportedIsOwnDigit(Fresh, received, t, Ev(sent[i]).code);
  }

  // ---- Events received without loss

  /** The packets of one event, all received: it starts with a non-end packet, marked or not. */
  predicate WholeEvent(ps: seq<Packet>) {
    && ps != [] && InOrder(ps) && !Ev(ps[0]).end
    && (forall i :: 0 <= i < |ps| ==> ps[i].timestamp == ps[0].timestamp)
  }

  /** Packet `i` completes the event: a later non-end packet that is long enough, or an end packet right
      after a non-end packet of positive duration. */
  predicate Completes(ps: seq<Packet>, i: nat)
    requires i < |ps| && Decodable(ps[i])
    requires i > 0 ==> Decodable(ps[i - 1])
  {
    i > 0 && if Ev(ps[i]).end then !Ev(ps[i - 1]).end && Ev(ps[i - 1]).duration > 0
             else Ev(ps[i]).duration >= 320
  }

  ghost predicate Complete(ps: seq<Packet>)
    requires InOrder(ps)
  {
    exists i :: 0 <= i < |ps| && Completes(ps, i)
  }

  /** The decoder after `k` packets of the event, as long as none of them completed it. */
  lemma {:induction false} WholeEventFrom(d: Decoder, ps: seq<Packet>, k: nat)
    requires WholeEvent(ps) && 0 < k <= |ps|
    requires d.lastTimestamp == ps[0].timestamp && !d.emitted
    requires !Ev(ps[k - 1]).end ==> d.last == Ev(ps[k - 1])
    requires Ev(ps[k - 1]).end ==> d.last.duration == 0 && (forall i :: k <= i < |ps| ==> Ev(ps[i]).end)
    ensures Digit(Ev(ps[0]).code).Some? ==>
            (|Reported(d, ps[k..], ps[0].timestamp)| == 1 <==> exists i :: k <= i < |ps| && Completes(ps, i))
    decreases |ps| - k
  {
    if k < |ps| {
      var t := ps[0].timestamp;
      var rest := ps[k..];
      assert rest[0] == ps[k] && rest[1..] == ps[k + 1..];
      assert Follows(ps[0], ps[k]) && Follows(ps[k - 1], ps[k]);
      var o := Receive(d, ps[k]);
      if o.digit.Some? {
        assert Completes(ps, k);
        RestIsSilent(o.decoder, ps, k + 1);
      } else {
        assert Digit(Ev(ps[0]).code).Some? ==> !Completes(ps, k);
        if Digit(Ev(ps[0]).code).Some? { WholeEventFrom(o.decoder, ps, k + 1); }
      }
    }
  }

  lemma {:induction false} RestIsSilent(d: Decoder, ps: seq<Packet>, k: nat)
    requires WholeEvent(ps) && 0 < k <= |ps|
    requires d.lastTimestamp == ps[0].timestamp && d.emitted
    requires Ev(ps[k - 1]).end || d.last.code == Ev(ps[0]).code
    ensures Reported(d, ps[k..], ps[0].timestamp) == []
  {
    var rest := ps[k..];
    assert forall i :: 0 <= i < |rest| ==> rest[i] == ps[k + i];
    forall i | 0 <= i < |rest|
      ensures !rest[i].marker && (Ev(rest[i]).end || Ev(rest[i]).code == d.last.code)
    {
      assert Follows(ps[0], ps[k + i]) && Follows(ps[k - 1], ps[k + i]);
    }
    InsideAtMostOne(d, rest, ps[0].timestamp);
  }

  lemma {:induction false} ReportedAppend(d: Decoder, a: seq<Packet>, b: seq<Packet>, t: nat)
    ensures Reported(d, a + b, t) == Reported(d, a, t) + Reported(Run(d, a), b, t)
    decreases a
  {
    if a == [] {
      assert a + b == b;
    } else {
      assert (a + b)[0] == a[0] && (a + b)[1..] == a[1..] + b;
      ReportedAppend(Receive(d, a[0]).decoder, a[1..], b, t);
    }
  }

  lemma WholeEventCodes(ps: seq<Packet>)
    requires WholeEvent(ps)
    ensures forall i :: 0 <= i < |ps| ==> Ev(ps[i]).code == Ev(ps[0]).code
  {}

  /** A new decoder remembers event 0 at timestamp 0, so it takes an unmarked first packet there for a later one. */
  predicate TakenAtOnce(before: seq<Packet>, event: seq<Packet>)
    requires WholeEvent(event)
  {
    && before == [] && !event[0].marker && event[0].timestamp == 0
    && Ev(event[0]).code == 0 && Ev(event[0]).duration >= 320
  }

  lemma {:induction false} LastSeen(d: Decoder, ps: seq<Packet>)
    ensures Run(d, ps).lastTimestamp == if ps == [] then d.lastTimestamp else ps[|ps| - 1].timestamp
    decreases ps
  {
    if ps != [] { LastSeen(Receive(d, ps[0]).decoder, ps[1..]); }
  }

  /** What the first packet of an event does, whether or not it carries the marker. */
  lemma {:induction false} EventBegins(before: seq<Packet>, event: seq<Packet>)
    requires WholeEvent(event) && forall i :: 0 <= i < |before| ==> before[i].timestamp != event[0].timestamp
    ensures var ev, o := Ev(event[0]), Receive(Run(Fresh, before), event[0]);
            if TakenAtOnce(before, event) then o == Outcome(Decoder(0, Event(0, false, 0), true), Some('0'))
            else o == Outcome(Decoder(event[0].timestamp, ev, false), None)
  {
    LastSeen(Fresh, before);
  }

  /** An event received without loss, anywhere in a stream and whatever came before it, is reported exactly once if
      and only if its code has a digit and one of its packets completes it, or its first packet is taken at once. */
  lemma {:induction false} WholeEventReportedOnce(before: seq<Packet>, event: seq<Packet>, after: seq<Packet>)
    requires WholeEvent(event)
    requires forall i :: 0 <= i < |before| ==> before[i].timestamp != event[0].timestamp
    requires forall i :: 0 <= i < |after| ==> after[i].timestamp != event[0].timestamp
    ensures |Reported(Fresh, before + event + after, event[0].timestamp)| == 1
            <==> Digit(Ev(event[0]).code).Some? && (Complete(event) || TakenAtOnce(before, event))
  {
    var t, d := event[0].timestamp, Run(Fresh, before);
    OnlyTheEvent(before, event, after, t);
    EventBegins(before, event);
    var first := Receive(d, event[0]);
    if TakenAtOnce(before, event) {
      RestIsSilent(first.decoder, event, 1);
      assert Reported(d, event, t) == [Digit(0).value] + Reported(first.decoder, event[1..], t);
    } else {
      assert Reported(d, event, t) == Reported(first.decoder, event[1..], t);
      WholeEventFrom(first.decoder, event, 1);
      WholeEventCodes(event);
      ReportedIsOwnDigit(d, event, t, Ev(event[0]).code);
    }
  }

  /** The case the standard describes, anywhere in a stream: the last non-end packet has positive duration and an
      end packet follows. */
  lemma {:induction false} EndedEventReported(before: seq<Packet>, event: seq<Packet>, after: seq<Packet>, k: nat)
    requires WholeEvent(event) && Digit(Ev(event[0]).code).Some?
    requires forall i :: 0 <= i < |before| ==> before[i].timestamp != event[0].timestamp
    requires forall i :: 0 <= i < |after| ==> after[i].timestamp != event[0].timestamp
    requires k + 1 < |event| && !Ev(event[k]).end && Ev(event[k]).duration > 0 && Ev(event[k + 1]).end
    ensures Reported(Fresh, before + event + after, event[0].timestamp) == [Digit(Ev(event[0]).code).value]
  {
    var t, code, d := event[0].timestamp, Ev(event[0]).code, Run(Fresh, before);
    assert Completes(event, k + 1);
    WholeEventReportedOnce(before, event, after);
    OnlyTheEvent(before, event, after, t);
    WholeEventCodes(event);
    ReportedIsOwnDigit(d, event, t, code);
    assert Some(Reported(d, event, t)[0]) == Digit(code);
  }

  /** A key held down and let go, as section 2.5.1 of RFC 4733 has it sent: the marked packet, an update, and the end
      packet three times. */
  function Held(t: nat, code: Byte, long: Byte, short: Byte): seq<Packet> {
    var end := Packet(t, false, [code, 138, long, short]);
    [Packet(t, true, [code, 10, 0, short]), Packet(t, false, [code, 10, long, short]), end, end, end]
  }

  lemma HeldIsWhole(t: nat, code: Byte, long: Byte, short: Byte)
    ensures var held := Held(t, code, long, short);
            && WholeEvent(held) && Ev(held[0]).code == code
            && Ev(held[1]) == Event(code, false, long as int * 256 + short as int) && Ev(held[2]).end
  {
    var held := Held(t, code, long, short);
    forall i | 0 <= i < 5
      ensures Decodable(held[i]) && held[i].timestamp == t && Ev(held[i]).code == code
              && (Ev(held[i]).end <==> i >= 2) && (held[i].marker <==> i == 0)
    {}
  }

  /** It is reported as its digit, wherever it comes among other events. */
  lemma {:induction false} HeldKeyReported(
      before: seq<Packet>, after: seq<Packet>, t: nat, code: Byte, long: Byte, short: Byte)
    requires code < 16 && short > 0
    requires forall i :: 0 <= i < |before| ==> before[i].timestamp != t
    requires forall i :: 0 <= i < |after| ==> after[i].timestamp != t
    ensures Reported(Fresh, before + Held(t, code, long, short) + after, t) == [Digit(code).value]
  {
    HeldIsWhole(t, code, long, short);
    EndedEventReported(before, Held(t, code, long, short), after, 1);
  }

  /** Packets with other timestamps report nothing for `t`. */
  lemma {:induction false} OnlyTheEvent(before: seq<Packet>, event: seq<Packet>, after: seq<Packet>, t: nat)
    requires forall i :: 0 <= i < |before| ==> before[i].timestamp != t
    requires forall i :: 0 <= i < |after| ==> after[i].timestamp != t
    ensures Reported(Fresh, before + event + after, t) == Reported(Run(Fresh, before), event, t)
  {
    ReportedAppend(Fresh, before + event, after, t);
    ReportedAppend(Fresh, before, event, t);
    SilentElsewhere(Fresh, before, t);
    SilentElsewhere(Run(Fresh, before + event), after, t);
  }

  // ---- The decoder object

  class Rfc2833Decoder {
    var lastTimestamp: nat
    var lastEv: Event
    var emitted: bool

    function State(): Decoder
      reads this
    {
      Decoder(lastTimestamp, lastEv, emitted)
    }

    constructor ()
      ensures State() == Fresh
    {
      lastTimestamp, lastEv, emitted := 0, NO_EVENT, false;
    }

    method ProcessPayload(payload: seq<Byte>, marker: bool) returns (digit: Option<char>)
      modifies this
      ensures Outcome(State(), digit) == Process(old(State()), payload, marker)
      ensures |payload| < 4 ==> digit == None && State() == old(State())
      ensures |payload| >= 4 && payload[1] >= 128 ==>
                var known := !old(emitted) && old(lastEv).duration > 0 && old(lastEv).code == payload[0];
                && (digit.Some? <==> known && payload[0] < 16)
                && emitted == (old(emitted) || known)
                && lastEv == if known then Event(0, false, 0) else old(lastEv)
      ensures |payload| >= 4 && payload[1] < 128 ==>
                var begins := marker || old(lastEv).code != payload[0];
                var long := payload[2] as int * 256 + payload[3] as int >= 320;
                && (digit.Some? <==> !begins && !old(emitted) && long && payload[0] < 16)
                && emitted == (!begins && (old(emitted) || long))
                && lastEv == if digit.Some? then old(lastEv)
                             else Event(payload[0], false, payload[2] as int * 256 + payload[3] as int)
    {
      var decoded := Decode(payload);
      if decoded.None? {
        return None;
      }
      var ev := decoded.value;
      if ev.end {
        if emitted {
          return None;
        }
        if lastEv.duration == 0 {
          return None;
        }
        if lastEv.code != ev.code {
          return None;
        }
        lastEv := NO_EVENT;
        emitted := true;
        return Digit(ev.code);
      }
      if marker || lastEv.code != ev.code {
        lastEv := ev;
        emitted := false;
        return None;
      }
      if !emitted && ev.duration >= ACCEPT_DURATION {
        emitted := true;
        if Digit(ev.code).Some? {
          return Digit(ev.code);
        }
      }
      lastEv := ev;
      return None;
    }

    /** The collector's step: the marker is set, or the timestamp differs from the last packet's.  When the handler
        of digits fails, the timestamp is not stored. */
    method Read(p: Packet, handlerFails: bool) returns (digit: Option<char>, stopped: bool)
      modifies this
      ensures stopped <==> digit.Some? && handlerFails
      ensures !stopped ==> Outcome(State(), digit) == Receive(old(State()), p)
      ensures stopped ==>
                Outcome(State(), digit)
                    == Process(old(State()), p.payload, p.marker || old(lastTimestamp) != p.timestamp)
    {
      digit := ProcessPayload(p.payload, p.marker || lastTimestamp != p.timestamp);
      stopped := digit.Some? && handlerFails;
      if !stopped { lastTimestamp := p.timestamp; }
    }
  }
}
