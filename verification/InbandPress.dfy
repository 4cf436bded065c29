/** The in-band DTMF press detector: one decision per block of samples, and the debouncing that turns the
    decisions into digits.  How a block of samples is recognised as a digit is left to `decide`. */
module InbandPress {
  import opened Lists
  import opened Wrappers
  import opened Pcm16

  const BLOCK_SAMPLES := 160
  const MIN_ACTIVE := 2
  const MIN_GAP := 2

  /** One block decision: a digit, or blank. */
  type Block = Option<char>

  datatype Press = Press(pending: Option<char>, blocks: nat, gap: nat, emitted: bool)

  const Idle := Press(None, 0, 0, false)

  datatype Outcome = Outcome(press: Press, digit: Option<char>)

  /** finishBlock without the filter reset. */
  function Finish(p: Press, b: Block): Outcome {
    match b
    case Some(d) =>
      var q := if p.pending == Some(d) then p.(gap := 0, blocks := p.blocks + 1) else Press(Some(d), 1, 0, false);
      if q.blocks >= MIN_ACTIVE && !q.emitted then Outcome(q.(emitted := true), Some(d)) else Outcome(q, None)
    case None =>
      if p.gap + 1 >= MIN_GAP then Outcome(Press(None, 0, p.gap + 1, false), None)
      else Outcome(p.(gap := p.gap + 1), None)
  }

  function After(blocks: seq<Block>): Press {
    if blocks == [] then Idle else Finish(After(blocks[..|blocks| - 1]), blocks[|blocks| - 1]).press
  }

  /** The digit reported at block `i`, if any. */
  function At(blocks: seq<Block>, i: nat): Option<char>
    requires i < |blocks|
  {
    Finish(After(blocks[..i]), blocks[i]).digit
  }

  lemma AfterStep(blocks: seq<Block>, i: nat)
    requires i < |blocks|
    ensures After(blocks[..i + 1]) == Finish(After(blocks[..i]), blocks[i]).press
  {
    assert blocks[..i + 1][..i] == blocks[..i];
  }

  // ---- Presses, declared without the detector

  predicate Blank(blocks: seq<Block>, i: int) { 0 <= i < |blocks| && blocks[i].None? }

  /** Blocks [lo, hi) hear only `d`, begin and end with it, and never pause for two blocks. */
  ghost predicate Stretch(blocks: seq<Block>, lo: nat, hi: nat, d: char) {
    && lo < hi <= |blocks| && blocks[lo] == Some(d) && blocks[hi - 1] == Some(d)
    && (forall i :: lo <= i < hi ==> blocks[i] == Some(d) || blocks[i].None?)
    && (forall i :: lo <= i < hi - 1 ==> !(Blank(blocks, i) && Blank(blocks, i + 1)))
  }

  /** A press is a maximal stretch. */
  ghost predicate IsPress(blocks: seq<Block>, lo: nat, hi: nat, d: char) {
    && Stretch(blocks, lo, hi, d)
    && (forall lo': nat :: lo' < lo ==> !Stretch(blocks, lo', hi, d))
    && (forall hi': nat :: hi < hi' ==> !Stretch(blocks, lo, hi', d))
  }

  function Detections(blocks: seq<Block>, lo: nat, hi: nat): nat
    requires lo <= hi <= |blocks|
    decreases hi
  {
    if lo == hi then 0 else Detections(blocks, lo, hi - 1) + if blocks[hi - 1].Some? then 1 else 0
  }

  /** The digits reported during blocks [lo, hi). */
  function Digits(blocks: seq<Block>, lo: nat, hi: nat): seq<char>
    requires lo <= hi <= |blocks|
    decreases hi
  {
    if lo == hi then []
    else Digits(blocks, lo, hi - 1) + match At(blocks, hi - 1) { case Some(c) => [c] case None => [] }
  }

  // ---- The detector against the declaration

  /** While a digit is pending, it was last heard `gap` blocks before the end, and blanks followed. */
  ghost predicate Remembers(blocks: seq<Block>, n: nat)
    requires n <= |blocks|
  {
    var p := After(blocks[..n]);
    && (p.pending.Some? ==>
          && p.gap < MIN_GAP && p.gap < n && blocks[n - 1 - p.gap] == p.pending
          && (forall i :: n - p.gap <= i < n ==> blocks[i].None?))
    && (p.pending.None? ==> p.blocks == 0 && !p.emitted)
  }

  lemma AlwaysRemembers(blocks: seq<Block>, n: nat)
    requires n <= |blocks|
    ensures Remembers(blocks, n)
  {}

  /** At the first block of a press the detector is not already pending on that digit. */
  lemma PressStartsAfresh(blocks: seq<Block>, lo: nat, hi: nat, d: char)
    requires IsPress(blocks, lo, hi, d)
    ensures After(blocks[..lo]).pending != Some(d)
  {
    AlwaysRemembers(blocks, lo);
    var p := After(blocks[..lo]);
    if p.pending == Some(d) {
      assert Stretch(blocks, lo - 1 - p.gap, hi, d);
    }
  }

  function Trailing(blocks: seq<Block>, k: nat): nat
    requires 0 < k <= |blocks|
  {
    if blocks[k - 1].Some? then 0 else 1
  }

  lemma {:induction false} InsidePress(blocks: seq<Block>, lo: nat, hi: nat, d: char, k: nat)
    requires IsPress(blocks, lo, hi, d) && lo < k <= hi
    ensures var n := Detections(blocks, lo, k);
            && n >= 1
            && After(blocks[..k]) == Press(Some(d), n, Trailing(blocks, k), n >= MIN_ACTIVE)
            && Digits(blocks, lo, k) == if n >= MIN_ACTIVE then [d] else []
    decreases k
  {
    AfterStep(blocks, k - 1);
    if k == lo + 1 {
      PressStartsAfresh(blocks, lo, hi, d);
    } else {
      InsidePress(blocks, lo, hi, d, k - 1);
      assert !(Blank(blocks, k - 2) && Blank(blocks, k - 1));
    }
  }

  /** During a press the detector reports its digit once if the press has at least two detected blocks,
      and nothing otherwise. */
  lemma {:induction false} OneDigitPerPress(blocks: seq<Block>, lo: nat, hi: nat, d: char)
    requires IsPress(blocks, lo, hi, d)
    ensures Digits(blocks, lo, hi) == if Detections(blocks, lo, hi) >= 2 then [d] else []
  {
    InsidePress(blocks, lo, hi, d, hi);
  }

  lemma {:induction false} ExtendLeft(blocks: seq<Block>, lo: nat, hi: nat, d: char, bound: nat) returns (lo': nat)
    requires Stretch(blocks, lo, hi, d) && bound <= lo
    requires forall l: nat :: l < bound ==> !Stretch(blocks, l, hi, d)
    ensures lo' <= lo && Stretch(blocks, lo', hi, d) && forall l: nat :: l < lo' ==> !Stretch(blocks, l, hi, d)
    decreases lo - bound
  {
    if Stretch(blocks, bound, hi, d) {
      lo' := bound;
    } else {
      lo' := ExtendLeft(blocks, lo, hi, d, bound + 1);
    }
  }

  lemma {:induction false} ExtendRight(blocks: seq<Block>, lo: nat, hi: nat, d: char, bound: nat) returns (hi': nat)
    requires Stretch(blocks, lo, hi, d) && hi <= bound <= |blocks|
    requires forall h: nat :: bound < h ==> !Stretch(blocks, lo, h, d)
    ensures hi <= hi' && Stretch(blocks, lo, hi', d) && forall h: nat :: hi' < h ==> !Stretch(blocks, lo, h, d)
    decreases bound
  {
    if Stretch(blocks, lo, bound, d) {
      hi' := bound;
    } else {
      hi' := ExtendRight(blocks, lo, hi, d, bound - 1);
    }
  }

  /** Every detected block belongs to a press, so the detector reports nothing outside presses. */
  lemma EveryDetectionIsInAPress(blocks: seq<Block>, i: nat) returns (lo: nat, hi: nat)
    requires i < |blocks| && blocks[i].Some?
    ensures lo <= i < hi && IsPress(blocks, lo, hi, blocks[i].value)
  {
    var d := blocks[i].value;
    assert Stretch(blocks, i, i + 1, d);
    lo := ExtendLeft(blocks, i, i + 1, d, 0);
    hi := ExtendRight(blocks, lo, i + 1, d, |blocks|);
    forall l: nat | l < lo ensures !Stretch(blocks, l, hi, d) {
      if Stretch(blocks, l, hi, d) { assert Stretch(blocks, l, i + 1, d); }
    }
  }

  lemma ReportsOnlyInPresses(blocks: seq<Block>, i: nat) returns (lo: nat, hi: nat)
    requires i < |blocks| && At(blocks, i).Some?
    ensures lo <= i < hi && IsPress(blocks, lo, hi, At(blocks, i).value) && Detections(blocks, lo, hi) >= 2
  {
    lo, hi := EveryDetectionIsInAPress(blocks, i);
    InsidePress(blocks, lo, hi, blocks[i].value, i + 1);
    DetectionsGrow(blocks, lo, i + 1, hi);
  }

  lemma {:induction false} DetectionsGrow(blocks: seq<Block>, lo: nat, k: nat, hi: nat)
    requires lo <= k <= hi <= |blocks|
    ensures Detections(blocks, lo, k) <= Detections(blocks, lo, hi)
    decreases hi
  {
    if k < hi { DetectionsGrow(blocks, lo, k, hi - 1); }
  }

  // ---- From PCM to blocks

  /** `block` holds the samples the filters have taken in since the last decision. */
  datatype Detector = Detector(block: seq<Int16>, press: Press)

  datatype Fed = Fed(detector: Detector, digits: seq<char>)

  function FeedSample(d: Detector, sample: Int16, decide: seq<Int16> -> Block): Fed {
    var block := d.block + [sample];
    if |block| < BLOCK_SAMPLES then Fed(d.(block := block), [])
    else var o := Finish(d.press, decide(block));
         Fed(Detector([], o.press), match o.digit { case Some(c) => [c] case None => [] })
  }

  function Feed(d: Detector, samples: seq<Int16>, decide: seq<Int16> -> Block): Fed
    decreases samples
  {
    if samples == [] then Fed(d, [])
    else var f := FeedSample(d, samples[0], decide);
         var r := Feed(f.detector, samples[1..], decide);
         Fed(r.detector, f.digits + r.digits)
  }

  lemma {:induction false} FeedAppend(d: Detector, a: seq<Int16>, b: seq<Int16>, decide: seq<Int16> -> Block)
    ensures var f := Feed(d, a, decide); var g := Feed(f.detector, b, decide);
            Feed(d, a + b, decide) == Fed(g.detector, f.digits + g.digits)
    decreases a
  {
    if a == [] {
      assert a + b == b;
    } else {
      assert (a + b)[0] == a[0] && (a + b)[1..] == a[1..] + b;
      FeedAppend(FeedSample(d, a[0], decide).detector, a[1..], b, decide);
    }
  }

  /** The decisions on the consecutive complete blocks of a sample stream. */
  function Decisions(samples: seq<Int16>, decide: seq<Int16> -> Block): seq<Block> {
    seq(|samples| / BLOCK_SAMPLES,
        k requires 0 <= k < |samples| / BLOCK_SAMPLES => decide(samples[k * BLOCK_SAMPLES..(k + 1) * BLOCK_SAMPLES]))
  }

  lemma {:induction false} DigitsPrefix(blocks: seq<Block>, more: seq<Block>, k: nat)
    requires k <= |blocks|
    ensures Digits(blocks + more, 0, k) == Digits(blocks, 0, k)
    decreases k
  {
    if k > 0 {
      DigitsPrefix(blocks, more, k - 1);
      assert (blocks + more)[..k - 1] == blocks[..k - 1];
    }
  }

  /** The samples after the last complete block. */
  function Open(samples: seq<Int16>): (r: seq<Int16>)
    ensures |r| < BLOCK_SAMPLES
  {
    samples[|samples| / BLOCK_SAMPLES * BLOCK_SAMPLES..]
  }

  lemma BlockCount(n: nat)
    ensures var k := n / BLOCK_SAMPLES; var open := n - k * BLOCK_SAMPLES;
            (n + 1) / BLOCK_SAMPLES == if open + 1 < BLOCK_SAMPLES then k else k + 1
  {}

  lemma DecisionsStep(samples: seq<Int16>, x: Int16, decide: seq<Int16> -> Block)
    ensures var open := Open(samples);
            var full := |open| + 1 == BLOCK_SAMPLES;
            && Decisions(samples + [x], decide)
                  == Decisions(samples, decide) + (if full then [decide(open + [x])] else [])
            && Open(samples + [x]) == if full then [] else open + [x]
  {
    var n := |samples| / BLOCK_SAMPLES;
    var all := samples + [x];
    BlockCount(|samples|);
    forall k | 0 <= k < n
      ensures all[k * BLOCK_SAMPLES..(k + 1) * BLOCK_SAMPLES] == samples[k * BLOCK_SAMPLES..(k + 1) * BLOCK_SAMPLES]
    {}
    if |Open(samples)| + 1 == BLOCK_SAMPLES {
      assert all[n * BLOCK_SAMPLES..(n + 1) * BLOCK_SAMPLES] == Open(samples) + [x];
    }
  }

  lemma {:induction false} OneMoreBlock(blocks: seq<Block>, b: Block)
    ensures var o := Finish(After(blocks), b);
            && After(blocks + [b]) == o.press
            && Digits(blocks + [b], 0, |blocks| + 1)
               == Digits(blocks, 0, |blocks|) + match o.digit { case Some(c) => [c] case None => [] }
  {
    DigitsPrefix(blocks, [b], |blocks|);
    assert (blocks + [b])[..|blocks|] == blocks;
  }

  /** What a stream means: the open block, the press state of the decisions so far, and their digits. */
  function Meaning(samples: seq<Int16>, decide: seq<Int16> -> Block): Fed {
    var blocks := Decisions(samples, decide);
    Fed(Detector(Open(samples), After(blocks)), Digits(blocks, 0, |blocks|))
  }

  lemma MeaningStep(samples: seq<Int16>, x: Int16, decide: seq<Int16> -> Block)
    ensures var m := Meaning(samples, decide);
            Meaning(samples + [x], decide) == Prepend(m.digits, FeedSample(m.detector, x, decide))
  {
    var blocks, open := Decisions(samples, decide), Open(samples);
    DecisionsStep(samples, x, decide);
    if |open| + 1 == BLOCK_SAMPLES {
      OneMoreBlock(blocks, decide(open + [x]));
    } else {
      assert blocks + [] == blocks;
    }
  }

  lemma {:induction false} FeedMeansDecisions(samples: seq<Int16>, decide: seq<Int16> -> Block)
    ensures Feed(Detector([], Idle), samples, decide) == Meaning(samples, decide)
    ensures var blocks := Decisions(samples, decide);
            |blocks| == |samples| / 160
            && forall k :: 0 <= k < |blocks| ==> blocks[k] == decide(samples[160 * k..160 * k + 160])
    decreases samples
  {
    if samples != [] {
      var init, x := samples[..|samples| - 1], samples[|samples| - 1];
      assert samples == init + [x];
      FeedMeansDecisions(init, decide);
      MeaningStep(init, x, decide);
      FeedAppend(Detector([], Idle), init, [x], decide);
      FeedSingle(Meaning(init, decide).detector, x, decide);
    }
  }

  lemma {:induction false} FeedSingle(d: Detector, x: Int16, decide: seq<Int16> -> Block)
    ensures Feed(d, [x], decide) == FeedSample(d, x, decide)
  {}

  /** FeedPCM called once per chunk. */
  function FeedChunks(d: Detector, chunks: seq<seq<Byte>>, decide: seq<Int16> -> Block): Fed
    decreases chunks
  {
    if chunks == [] then Fed(d, [])
    else var f := Feed(d, Samples(chunks[0]), decide);
         var r := FeedChunks(f.detector, chunks[1..], decide);
         Fed(r.detector, f.digits + r.digits)
  }

  lemma {:induction false} ChunksAreOneStream(d: Detector, chunks: seq<seq<Byte>>, decide: seq<Int16> -> Block)
    requires forall i :: 0 <= i < |chunks| ==> |chunks[i]| % 2 == 0
    ensures FeedChunks(d, chunks, decide) == Feed(d, Samples(Flatten(chunks)), decide)
    decreases chunks
  {
    if chunks != [] {
      ChunksAreOneStream(Feed(d, Samples(chunks[0]), decide).detector, chunks[1..], decide);
      assert chunks == [chunks[0]] + chunks[1..];
      FlattenCons(chunks[0], chunks[1..]);
      SamplesAppend(chunks[0], Flatten(chunks[1..]));
      FeedAppend(d, Samples(chunks[0]), Samples(Flatten(chunks[1..])), decide);
    }
  }

  /** Whatever the chunking at even offsets, a new detector reports the digits of the block decisions. */
  lemma {:induction false} ReportDependsOnlyOnStream(chunks: seq<seq<Byte>>, decide: seq<Int16> -> Block)
    requires forall i :: 0 <= i < |chunks| ==> |chunks[i]| % 2 == 0
    ensures var blocks := Decisions(Samples(Flatten(chunks)), decide);
            FeedChunks(Detector([], Idle), chunks, decide).digits == Digits(blocks, 0, |blocks|)
  {
    ChunksAreOneStream(Detector([], Idle), chunks, decide);
    FeedMeansDecisions(Samples(Flatten(chunks)), decide);
  }

  // ---- The detector object

  class InbandDetector {
    const decide: seq<Int16> -> Block
    var block: seq<Int16>
    var pending: Option<char>
    var pendingBlks: nat
    var gapBlks: nat
    var emittedPress: bool

    function State(): Detector
      reads this
    {
      Detector(block, Press(pending, pendingBlks, gapBlks, emittedPress))
    }

    constructor (decide: seq<Int16> -> Block)
      ensures State() == Detector([], Idle) && this.decide == decide
    {
      this.decide := decide;
      block, pending, pendingBlks, gapBlks, emittedPress := [], None, 0, 0, false;
    }

    method FinishBlock() returns (digit: Option<char>)
      modifies this
      ensures var o := Finish(old(State().press), decide(old(block)));
              State() == Detector([], o.press) && digit == o.digit
      ensures gapBlks == if decide(old(block)).Some? then 0 else old(gapBlks) + 1
    {
      var decision := decide(block);
      block := [];
      match decision {
        case Some(d) =>
          gapBlks := 0;
          if pending == Some(d) {
            pendingBlks := pendingBlks + 1;
          } else {
            pending := Some(d);
            pendingBlks := 1;
            emittedPress := false;
          }
          if pendingBlks >= MIN_ACTIVE && !emittedPress {
            emittedPress := true;
            return Some(d);
          }
          return None;
        case None =>
          gapBlks := gapBlks + 1;
          if gapBlks >= MIN_GAP {
            pending := None;
            pendingBlks := 0;
            emittedPress := false;
          }
          return None;
      }
    }

    method TakeSample(sample: Int16) returns (digits: seq<char>)
      modifies this
      ensures Fed(State(), digits) == FeedSample(old(State()), sample, decide)
    {
      digits := [];
      block := block + [sample];
      if |block| >= BLOCK_SAMPLES {
        var digit := FinishBlock();
        if digit.Some? { digits := [digit.value]; }
      }
    }

    method FeedPCM(lpcm: seq<Byte>) returns (digits: seq<char>)
      modifies this
      ensures Fed(State(), digits) == Feed(old(State()), Samples(lpcm), decide)
    {
      digits := [];
      var i := 0;
      ghost var goal := Feed(State(), Samples(lpcm), decide);
      while i + 1 < |lpcm|
        invariant 0 <= i <= |lpcm|
        invariant goal == Prepend(digits, Feed(State(), Samples(lpcm[i..]), decide))
      {
        FeedNext(State(), lpcm[i..], decide);
        assert lpcm[i..][2..] == lpcm[i + 2..];
        var more := TakeSample(Sample(lpcm[i], lpcm[i + 1]));
        PrependTwice(digits, more, Feed(State(), Samples(lpcm[i + 2..]), decide));
        digits := digits + more;
        i := i + 2;
      }
    }
  }

  function Prepend(digits: seq<char>, f: Fed): Fed { Fed(f.detector, digits + f.digits) }

  lemma PrependTwice(a: seq<char>, b: seq<char>, f: Fed)
    ensures Prepend(a, Prepend(b, f)) == Prepend(a + b, f)
  {}

  lemma {:induction false} FeedNext(d: Detector, lpcm: seq<Byte>, decide: seq<Int16> -> Block)
    requires |lpcm| >= 2
    ensures var f := FeedSample(d, Sample(lpcm[0], lpcm[1]), decide);
            Feed(d, Samples(lpcm), decide) == Prepend(f.digits, Feed(f.detector, Samples(lpcm[2..]), decide))
  {}
}
