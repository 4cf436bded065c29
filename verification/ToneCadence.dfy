/** Call-progress tones: a generator that counts its way through the on and off segments of a cadence, one
    8 kHz sample at a time.  The waveform is left to `wave`, a sample for each time. */
module ToneCadence {
  import opened Pcm16

  /** Durations are in nanoseconds. */
  datatype Step = Step(on: bool, duration: int)

  const NS_PER_MS := 1_000_000

  const SAMPLES_PER_MS := 8

  /** Whole milliseconds, the fraction dropped on either side of zero. */
  function Milliseconds(ns: int): int { if ns >= 0 then ns / NS_PER_MS else -(-ns / NS_PER_MS) }

  /** The fraction of a millisecond is dropped toward zero. */
  lemma MillisecondsExactly(ns: int)
    ensures if ns >= 0 then Milliseconds(ns) * 1_000_000 <= ns < (Milliseconds(ns) + 1) * 1_000_000
            else (Milliseconds(ns) - 1) * 1_000_000 < ns <= Milliseconds(ns) * 1_000_000
  {}

  function SegmentSamples(s: Step): int { Milliseconds(s.duration * SAMPLES_PER_MS) }

  datatype Cursor = Cursor(sample: nat, segIdx: nat, segPos: nat, segOn: bool)

  function Start(cadence: seq<Step>): Cursor { Cursor(0, 0, 0, cadence == [] || cadence[0].on) }

  predicate Within(cadence: seq<Step>, g: Cursor) { cadence != [] ==> g.segIdx < |cadence| }

  function Following(i: nat, n: nat): (next: nat)
    requires i < n
    ensures next == if i + 1 == n then 0 else i + 1
  {
    (i + 1) % n
  }

  /** One sample on: the sample counter and then advanceCadence. */
  function Advance(cadence: seq<Step>, g: Cursor): Cursor
    requires Within(cadence, g)
  {
    if cadence == [] then g.(sample := g.sample + 1)
    else if g.segPos + 1 < SegmentSamples(cadence[g.segIdx]) then g.(sample := g.sample + 1, segPos := g.segPos + 1)
    else var next := Following(g.segIdx, |cadence|); Cursor(g.sample + 1, next, 0, cadence[next].on)
  }

  function Emitted(wave: nat -> Int16, g: Cursor): Int16 { if g.segOn then wave(g.sample) else 0 }

  datatype Played = Played(cursor: Cursor, pcm: seq<Int16>)

  function Play(cadence: seq<Step>, wave: nat -> Int16, g: Cursor, n: nat): (r: Played)
    requires Within(cadence, g)
    ensures Within(cadence, r.cursor) && |r.pcm| == n
  {
    if n == 0 then Played(g, [])
    else var before := Play(cadence, wave, g, n - 1);
         Played(Advance(cadence, before.cursor), before.pcm + [Emitted(wave, before.cursor)])
  }

  // ---- The cadence as a timetable

  /** A segment lasts at least one sample. */
  function Length(s: Step): nat { if SegmentSamples(s) < 1 then 1 else SegmentSamples(s) }

  /** The samples before segment `i` of a cycle. */
  function Before(cadence: seq<Step>, i: nat): nat
    requires i <= |cadence|
  {
    if i == 0 then 0 else Before(cadence, i - 1) + Length(cadence[i - 1])
  }

  function Cycle(cadence: seq<Step>): nat { Before(cadence, |cadence|) }

  /** Sample `k` of a cycle falls in segment `i`, `pos` samples into it. */
  predicate IsAt(cadence: seq<Step>, k: nat, i: nat, pos: nat) {
    i < |cadence| && pos < Length(cadence[i]) && Before(cadence, i) + pos == k
  }

  lemma {:induction false} BeforeGrows(cadence: seq<Step>, i: nat, j: nat)
    requires i < j <= |cadence|
    ensures Before(cadence, i) + Length(cadence[i]) <= Before(cadence, j)
  {
    if i < j - 1 { BeforeGrows(cadence, i, j - 1); }
  }

  /** No sample falls in two segments. */
  lemma PlaceIsUnique(cadence: seq<Step>, k: nat, i: nat, pos: nat, j: nat, other: nat)
    requires IsAt(cadence, k, i, pos) && IsAt(cadence, k, j, other)
    ensures i == j && pos == other
  {
    if i < j { BeforeGrows(cadence, i, j); }
    if j < i { BeforeGrows(cadence, j, i); }
  }

  /** How far into its cycle sample `n` is. */
  function Phase(n: nat, cycle: nat): (k: nat)
    requires cycle > 0
    ensures k < cycle
  {
    n % cycle
  }

  lemma PhaseStep(n: nat, cycle: nat)
    requires cycle > 0
    ensures Phase(n + 1, cycle) == if Phase(n, cycle) + 1 == cycle then 0 else Phase(n, cycle) + 1
  {
    var q, k := n / cycle, n % cycle;
    assert n == q * cycle + k;
    if k + 1 == cycle { Remainder(n + 1, cycle, q + 1, 0); } else { Remainder(n + 1, cycle, q, k + 1); }
  }

  lemma SmallMultiple(e: int, cycle: int)
    requires -cycle < e * cycle < cycle
    ensures e == 0
  {}

  lemma Remainder(n: nat, cycle: nat, q: nat, k: nat)
    requires k < cycle && n == q * cycle + k
    ensures n % cycle == k
  {
    var e := n / cycle - q;
    assert n == (n / cycle) * cycle + n % cycle;
    assert e * cycle == k - n % cycle;
    SmallMultiple(e, cycle);
  }

  lemma LengthGuards(s: Step, pos: nat)
    ensures pos + 1 < SegmentSamples(s) <==> pos + 1 < Length(s)
  {}

  /** One step of the machine is one step of the timetable. */
  lemma AdvanceFollows(cadence: seq<Step>, g: Cursor, k: nat)
    requires Within(cadence, g) && IsAt(cadence, k, g.segIdx, g.segPos)
    requires g.segOn == cadence[g.segIdx].on
    ensures k < Cycle(cadence)
    ensures var h := Advance(cadence, g);
            && IsAt(cadence, if k + 1 == Cycle(cadence) then 0 else k + 1, h.segIdx, h.segPos)
            && h.sample == g.sample + 1 && h.segOn == cadence[h.segIdx].on
  {
    var i := g.segIdx;
    LengthGuards(cadence[i], g.segPos);
    BeforeGrows(cadence, i, |cadence|);
    if g.segPos + 1 == Length(cadence[i]) {
      assert Before(cadence, i + 1) == k + 1;
      if i + 1 < |cadence| { BeforeGrows(cadence, i + 1, |cadence|); }
    }
  }

  /** The cursor stands where sample n, taken modulo the cycle, falls. */
  predicate OnTime(cadence: seq<Step>, g: Cursor, n: nat)
    requires Cycle(cadence) > 0
  {
    && g.sample == n && IsAt(cadence, Phase(n, Cycle(cadence)), g.segIdx, g.segPos)
    && g.segOn == cadence[g.segIdx].on
  }

  lemma StaysOnTime(cadence: seq<Step>, g: Cursor, n: nat)
    requires Cycle(cadence) > 0 && Within(cadence, g) && OnTime(cadence, g, n)
    ensures OnTime(cadence, Advance(cadence, g), n + 1)
  {
    PhaseStep(n, Cycle(cadence));
    AdvanceFollows(cadence, g, Phase(n, Cycle(cadence)));
  }

  /** After n samples the machine stands where n, taken modulo the cycle, falls. */
  lemma {:induction false} FollowsTimetable(cadence: seq<Step>, wave: nat -> Int16, n: nat)
    requires cadence != []
    ensures Cycle(cadence) > 0 && OnTime(cadence, Play(cadence, wave, Start(cadence), n).cursor, n)
  {
    StartsAtZero(cadence);
    if n > 0 {
      FollowsTimetable(cadence, wave, n - 1);
      StaysOnTime(cadence, Play(cadence, wave, Start(cadence), n - 1).cursor, n - 1);
    }
  }

  lemma StartsAtZero(cadence: seq<Step>)
    requires cadence != []
    ensures Cycle(cadence) > 0 && Phase(0, Cycle(cadence)) == 0 && IsAt(cadence, 0, 0, 0)
  {}

  lemma {:induction false} PlaySteps(cadence: seq<Step>, wave: nat -> Int16, g: Cursor, n: nat, k: nat)
    requires Within(cadence, g) && k < n
    ensures Play(cadence, wave, g, n).pcm[k] == Emitted(wave, Play(cadence, wave, g, k).cursor)
  {
    if k < n - 1 { PlaySteps(cadence, wave, g, n - 1, k); }
  }

  /** Every sample has its place in the cycle, and silence is forced exactly in the off segments. */
  lemma {:induction false} SilenceExactlyInOffSegments(cadence: seq<Step>, wave: nat -> Int16, n: nat, k: nat)
    requires cadence != [] && k < n
    ensures Cycle(cadence) > 0 && exists i: nat, pos: nat :: IsAt(cadence, Phase(k, Cycle(cadence)), i, pos)
    ensures forall i: nat, pos: nat :: IsAt(cadence, Phase(k, Cycle(cadence)), i, pos)
              ==> Play(cadence, wave, Start(cadence), n).pcm[k] == if cadence[i].on then wave(k) else 0
  {
    PlaySteps(cadence, wave, Start(cadence), n, k);
    FollowsTimetable(cadence, wave, k);
    var g := Play(cadence, wave, Start(cadence), k).cursor;
    forall i: nat, pos: nat | IsAt(cadence, Phase(k, Cycle(cadence)), i, pos) ensures i == g.segIdx {
      PlaceIsUnique(cadence, Phase(k, Cycle(cadence)), i, pos, g.segIdx, g.segPos);
    }
  }

  /** With no cadence the tone never stops. */
  lemma {:induction false} NoCadenceIsSteady(wave: nat -> Int16, n: nat, k: nat)
    requires k < n
    ensures Play([], wave, Start([]), n).pcm[k] == wave(k)
  {
    PlaySteps([], wave, Start([]), n, k);
    Steady(wave, k);
  }

  lemma {:induction false} Steady(wave: nat -> Int16, n: nat)
    ensures var g := Play([], wave, Start([]), n).cursor; g.sample == n && g.segOn
  {
    if n > 0 { Steady(wave, n - 1); }
  }

  // ---- Reads

  function Total(counts: seq<nat>): nat { if counts == [] then 0 else counts[0] + Total(counts[1..]) }

  /** One read after another, each for a number of samples. */
  function PlayAll(cadence: seq<Step>, wave: nat -> Int16, g: Cursor, counts: seq<nat>): (r: Played)
    requires Within(cadence, g)
    ensures Within(cadence, r.cursor)
    decreases counts
  {
    if counts == [] then Played(g, [])
    else var first := Play(cadence, wave, g, counts[0]);
         var rest := PlayAll(cadence, wave, first.cursor, counts[1..]);
         Played(rest.cursor, first.pcm + rest.pcm)
  }

  lemma {:induction false} PlayOn(cadence: seq<Step>, wave: nat -> Int16, g: Cursor, a: nat, b: nat)
    requires Within(cadence, g)
    ensures var first := Play(cadence, wave, g, a);
            var rest := Play(cadence, wave, first.cursor, b);
            Play(cadence, wave, g, a + b) == Played(rest.cursor, first.pcm + rest.pcm)
    decreases b
  {
    var first := Play(cadence, wave, g, a);
    if b == 0 {
      assert first.pcm + [] == first.pcm;
    } else {
      PlayOn(cadence, wave, g, a, b - 1);
      var rest := Play(cadence, wave, first.cursor, b - 1);
      var last := [Emitted(wave, rest.cursor)];
      assert a + b - 1 == a + (b - 1);
      assert (first.pcm + rest.pcm) + last == first.pcm + (rest.pcm + last);
    }
  }

  /** However the reads are sized, together they are one read of the whole. */
  lemma {:induction false} ReadSizesAreInvisible(cadence: seq<Step>, wave: nat -> Int16, g: Cursor, counts: seq<nat>)
    requires Within(cadence, g)
    ensures PlayAll(cadence, wave, g, counts) == Play(cadence, wave, g, Total(counts))
    decreases counts
  {
    if counts != [] {
      ReadSizesAreInvisible(cadence, wave, Play(cadence, wave, g, counts[0]).cursor, counts[1..]);
      PlayOn(cadence, wave, g, counts[0], Total(counts[1..]));
    }
  }

  lemma {:induction false} SamplesSnoc(pcm: seq<Byte>, v: Int16)
    requires |pcm| % 2 == 0
    ensures Samples(pcm + [LowByte(v), HighByte(v)]) == Samples(pcm) + [v]
  {
    var two := [LowByte(v), HighByte(v)];
    SamplesAppend(pcm, two);
    SampleOfBytes(v);
    assert Samples(two[2..]) == [];
  }

  /** An odd last byte is no sample. */
  lemma {:induction false} OddByte(pcm: seq<Byte>, i: nat)
    requires i <= |pcm| <= i + 1 && i % 2 == 0
    ensures Samples(pcm) == Samples(pcm[..i])
  {
    assert pcm == pcm[..i] + pcm[i..];
    SamplesAppend(pcm[..i], pcm[i..]);
  }

  class Generator {
    const cadence: seq<Step>
    var sample: nat
    var segIdx: nat
    var segPos: nat
    var segOn: bool

    ghost function Now(): Cursor reads this { Cursor(sample, segIdx, segPos, segOn) }

    ghost predicate Valid() reads this { Within(cadence, Now()) }

    constructor (cadence: seq<Step>)
      ensures Valid() && this.cadence == cadence && Now() == Start(cadence)
    {
      this.cadence := cadence;
      sample, segIdx, segPos := 0, 0, 0;
      segOn := cadence == [] || cadence[0].on;
    }

    method AdvanceCadence()
      requires Valid()
      modifies this`segIdx, this`segPos, this`segOn
      ensures Valid() && Now() == Advance(cadence, old(Now())).(sample := sample)
    {
      if cadence == [] { return; }
      segPos := segPos + 1;
      if segPos < SegmentSamples(cadence[segIdx]) { return; }
      segIdx := (segIdx + 1) % |cadence|;
      segPos := 0;
      segOn := cadence[segIdx].on;
    }

    /** One turn of the loop of Read. */
    method PutSample(p: array<Byte>, i: nat, wave: nat -> Int16)
      requires Valid() && i + 1 < p.Length
      modifies this, p
      ensures Valid() && Now() == Advance(cadence, old(Now()))
      ensures p[..i + 2] == old(p[..i]) + [LowByte(Emitted(wave, old(Now()))), HighByte(Emitted(wave, old(Now())))]
      ensures p[i + 2..] == old(p[i + 2..])
    {
      var v := if segOn then wave(sample) else 0;
      p[i], p[i + 1] := LowByte(v), HighByte(v);
      sample := sample + 1;
      AdvanceCadence();
    }

    /** Fills the buffer; an odd last byte is claimed but not written. */
    method Read(p: array<Byte>, wave: nat -> Int16) returns (n: nat)
      requires Valid()
      modifies this, p
      ensures Valid() && n == p.Length
      ensures Played(Now(), Samples(p[..])) == Play(cadence, wave, old(Now()), p.Length / 2)
      ensures p.Length % 2 == 1 ==> p[p.Length - 1] == old(p[p.Length - 1])
    {
      var i := 0;
      ghost var k := 0;
      while i + 1 < p.Length
        invariant Valid() && i == 2 * k && i <= p.Length
        invariant Played(Now(), Samples(p[..i])) == Play(cadence, wave, old(Now()), k)
        invariant p[i..] == old(p[i..])
      {
        SamplesSnoc(p[..i], Emitted(wave, Now()));
        assert p[i + 2..] == p[i..][2..] == old(p[i..])[2..] == old(p[i + 2..]);
        PutSample(p, i, wave);
        i, k := i + 2, k + 1;
      }
      OddByte(p[..], i);
      assert i < p.Length ==> p[i..][0] == old(p[i..])[0];
      return p.Length;
    }
  }

  // ---- How long to play

  function TotalMilliseconds(cadence: seq<Step>): int {
    if cadence == [] then 0
    else TotalMilliseconds(cadence[..|cadence| - 1]) + Milliseconds(cadence[|cadence| - 1].duration)
  }

  /** Milliseconds to play for at least `cycles` repeats. */
  method PlayDuration(cadence: seq<Step>, cycles: int) returns (ms: int)
    ensures var c := if cycles < 1 then 1 else cycles;
            ms == if TotalMilliseconds(cadence) <= 0 then c else TotalMilliseconds(cadence) * c
  {
    var c := if cycles < 1 then 1 else cycles;
    if cadence == [] { return c; }
    var cycle := 0;
    for i := 0 to |cadence|
      invariant cycle == TotalMilliseconds(cadence[..i])
    {
      assert cadence[..i + 1][..i] == cadence[..i];
      cycle := cycle + Milliseconds(cadence[i].duration);
    }
    assert cadence[..|cadence|] == cadence;
    if cycle <= 0 { return c; }
    return cycle * c;
  }

  /** A segment that is some milliseconds long, and less than one sample longer. */
  predicate WholeMilliseconds(s: Step) {
    s.duration >= NS_PER_MS && s.duration % NS_PER_MS < NS_PER_MS / SAMPLES_PER_MS
  }

  lemma SegmentMilliseconds(s: Step)
    ensures var ms := Milliseconds(s.duration);
            SAMPLES_PER_MS * ms <= Length(s) && (SAMPLES_PER_MS * ms == Length(s) <==> WholeMilliseconds(s))
  {}

  lemma {:induction false} CycleMilliseconds(cadence: seq<Step>)
    ensures SAMPLES_PER_MS * TotalMilliseconds(cadence) <= Cycle(cadence)
    ensures SAMPLES_PER_MS * TotalMilliseconds(cadence) == Cycle(cadence) <==>
              forall i :: 0 <= i < |cadence| ==> WholeMilliseconds(cadence[i])
  {
    if cadence != [] {
      var front := cadence[..|cadence| - 1];
      CycleMilliseconds(front);
      BeforeOfPrefix(cadence, |front|, |front|);
      SegmentMilliseconds(cadence[|front|]);
    }
  }

  lemma {:induction false} BeforeOfPrefix(cadence: seq<Step>, n: nat, i: nat)
    requires i <= n <= |cadence|
    ensures Before(cadence[..n], i) == Before(cadence, i)
  {
    if i > 0 { BeforeOfPrefix(cadence, n, i - 1); }
  }

  /** Playing that long covers the repeats asked for exactly when every segment is whole milliseconds, to within
      a sample.  A cadence whose milliseconds add up to nothing is covered when a cycle fits in one millisecond. */
  lemma {:induction false} CoversRepeats(cadence: seq<Step>, cycles: nat)
    requires cadence != [] && cycles >= 1
    ensures var total := TotalMilliseconds(cadence);
            var ms := if total <= 0 then cycles else total * cycles;
            SAMPLES_PER_MS * ms >= cycles * Cycle(cadence)
            <==> if total <= 0 then Cycle(cadence) <= SAMPLES_PER_MS
                 else forall i :: 0 <= i < |cadence| ==> WholeMilliseconds(cadence[i])
  {
    var total, cycle := TotalMilliseconds(cadence), Cycle(cadence);
    CycleMilliseconds(cadence);
    if total <= 0 {
      ScaledOrder(cycle, SAMPLES_PER_MS, cycles);
    } else {
      ScaledOrder(cycle, SAMPLES_PER_MS * total, cycles);
      assert SAMPLES_PER_MS * (total * cycles) == SAMPLES_PER_MS * total * cycles;
    }
  }

  lemma ScaledOrder(a: int, b: int, c: nat)
    requires c >= 1
    ensures a <= b <==> c * a <= b * c
  {}

  /** Two segments of a millisecond and a half, twice: four milliseconds are asked for where six are needed. */
  lemma HalfMillisecondsFallShort()
    ensures var cadence := [Step(true, 1_500_000), Step(false, 1_500_000)];
            TotalMilliseconds(cadence) * 2 == 4 && Cycle(cadence) * 2 == 48 > SAMPLES_PER_MS * 4
  {
    var cadence := [Step(true, 1_500_000), Step(false, 1_500_000)];
    assert cadence[..1] == [cadence[0]] && cadence[..1][..0] == [];
    assert TotalMilliseconds([cadence[0]]) == 1 && Before(cadence, 1) == 12;
  }
}
