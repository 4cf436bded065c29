/** The conference mixer: each leg's window over the audio read from it, the set of legs, and the mix each leg hears. */
module MixerWindow {
  import opened Lists
  import opened Pcm16

  const FRAME := 160

  type Window = w: seq<Int16> | |w| == FRAME witness Silence()

  function Silence(): seq<Int16> { seq(FRAME, i => 0) }

  function LastFrame(s: seq<Int16>): Window
    requires |s| >= FRAME
  {
    s[|s| - FRAME..]
  }

  /** The samples of a sequence of reads; each read drops an odd last byte. */
  function Heard(chunks: seq<seq<Byte>>): seq<Int16> {
    if chunks == [] then [] else Heard(chunks[..|chunks| - 1]) + Samples(chunks[|chunks| - 1])
  }

  lemma SlideOn(before: seq<Int16>, more: seq<Int16>)
    requires |before| >= FRAME
    ensures LastFrame(LastFrame(before) + more) == LastFrame(before + more)
  {}

  lemma HeardNext(chunks: seq<seq<Byte>>, i: nat)
    requires i < |chunks|
    ensures LastFrame(LastFrame(Silence() + Heard(chunks[..i])) + Samples(chunks[i]))
            == LastFrame(Silence() + Heard(chunks[..i + 1]))
  {
    var before := Silence() + Heard(chunks[..i]);
    assert chunks[..i + 1][..i] == chunks[..i];
    SlideOn(before, Samples(chunks[i]));
    assert before + Samples(chunks[i]) == Silence() + Heard(chunks[..i + 1]);
  }

  class Leg {
    const latest: array<Int16>

    ghost predicate Valid() { latest.Length == FRAME }

    constructor ()
      ensures Valid() && fresh(latest) && latest[..] == Silence()
    {
      latest := new Int16[FRAME](i => 0);
      new;
      assert latest[..] == Silence();
    }

    /** copy(latest, latest[n:]): source and destination overlap. */
    method ShiftLeft(n: nat)
      requires Valid() && n <= FRAME
      modifies latest
      ensures latest[..FRAME - n] == old(latest[n..])
    {
      for k := 0 to FRAME - n
        invariant forall j :: 0 <= j < k ==> latest[j] == old(latest[j + n])
        invariant forall j :: k <= j < FRAME ==> latest[j] == old(latest[j])
      {
        latest[k] := latest[k + n];
      }
    }

    /** copy(latest[off:], samples). */
    method CopyTo(off: nat, samples: seq<Int16>)
      requires Valid() && off + |samples| == FRAME
      modifies latest
      ensures latest[..] == old(latest[..off]) + samples
    {
      for k := 0 to |samples|
        invariant latest[..off] == old(latest[..off])
        invariant latest[off..off + k] == samples[..k]
      {
        latest[off + k] := samples[k];
        assert samples[..k + 1] == samples[..k] + [samples[k]];
      }
      assert latest[..] == latest[..off] + latest[off..off + |samples|];
    }

    method Update(samples: seq<Int16>)
      requires Valid()
      modifies latest
      ensures latest[..] == LastFrame(old(latest[..]) + samples)
    {
      if samples == [] {
      } else if |samples| >= FRAME {
        CopyTo(0, samples[|samples| - FRAME..]);
      } else {
        ghost var before := latest[..];
        ShiftLeft(|samples|);
        assert latest[..FRAME - |samples|] == before[|samples|..];
        CopyTo(FRAME - |samples|, samples);
      }
    }

    /** Whatever the sizes of the reads, the window is the last frame of a frame of silence followed by all that was
        read. */
    method ReadLoop(chunks: seq<seq<Byte>>)
      requires Valid() && latest[..] == Silence()
      modifies latest
      ensures latest[..] == LastFrame(Silence() + Heard(chunks))
      ensures latest[..] == (seq(160, i => 0 as Int16) + Heard(chunks))[|Heard(chunks)|..]
    {
      for i := 0 to |chunks|
        invariant latest[..] == LastFrame(Silence() + Heard(chunks[..i]))
      {
        var samples := BytesToSamples(chunks[i]);
        Update(samples);
        HeardNext(chunks, i);
      }
      assert chunks[..|chunks|] == chunks;
    }
  }

  /** The window depends on what was read and not on how the reads split it. */
  lemma {:induction false} WindowIgnoresReadSizes(chunks: seq<seq<Byte>>, others: seq<seq<Byte>>)
    requires forall i :: 0 <= i < |chunks| ==> |chunks[i]| % 2 == 0
    requires forall i :: 0 <= i < |others| ==> |others[i]| % 2 == 0
    requires Flatten(chunks) == Flatten(others)
    ensures LastFrame(Silence() + Heard(chunks)) == LastFrame(Silence() + Heard(others))
  {
    HeardIsStream(chunks);
    HeardIsStream(others);
  }

  lemma {:induction false} HeardIsStream(chunks: seq<seq<Byte>>)
    requires forall i :: 0 <= i < |chunks| ==> |chunks[i]| % 2 == 0
    ensures Heard(chunks) == Samples(Flatten(chunks)) && |Flatten(chunks)| % 2 == 0
  {
    if chunks != [] {
      var front, last := chunks[..|chunks| - 1], chunks[|chunks| - 1];
      assert forall i :: 0 <= i < |front| ==> front[i] == chunks[i];
      HeardIsStream(front);
      SamplesAppend(Flatten(front), last);
      assert Flatten(chunks) == Flatten(front) + last;
    }
  }

  // ---- The set of legs and the mixing loop

  class ConferenceMixer {
    var legs: map<string, Leg>
    /** Whether a mixing loop has been started and not stopped. */
    var running: bool

    /** The mixing loop runs exactly while there are two legs to mix, so it never finds fewer. */
    ghost predicate Valid()
      reads this
    {
      && (forall id :: id in legs ==> legs[id].Valid())
      && (running <==> |legs| >= 2)
    }

    constructor ()
      ensures Valid() && legs == map[] && !running
    {
      legs, running := map[], false;
    }

    /** A leg whose audio cannot be transcoded is refused; one that is already there is left alone, and so are the
        others.  `started` says whether this leg started the mixing loop. */
    method Add(id: string, transcodable: bool) returns (ok: bool, started: bool)
      requires Valid()
      modifies this
      ensures Valid() && ok == transcodable
      ensures !ok || id in old(legs) ==> legs == old(legs) && !started && running == old(running)
      ensures ok ==> legs.Keys == old(legs.Keys) + {id} && forall k :: k in old(legs) ==> legs[k] == old(legs[k])
      ensures ok && id !in old(legs) ==>
                fresh(legs[id]) && fresh(legs[id].latest) && legs[id].latest[..] == Silence()
                    && started == (|old(legs)| == 1)
    {
      if !transcodable { return false, false; }
      if id in legs { return true, false; }
      started := Insert(id);
      ok := true;
    }

    method Insert(id: string) returns (started: bool)
      requires Valid() && id !in legs
      modifies this
      ensures Valid() && legs.Keys == old(legs.Keys) + {id} && forall k :: k in old(legs) ==> legs[k] == old(legs[k])
      ensures fresh(legs[id]) && fresh(legs[id].latest) && legs[id].latest[..] == Silence()
              && started == (|old(legs)| == 1)
    {
      var leg := new Leg();
      legs := legs[id := leg];
      assert legs.Keys == old(legs.Keys) + {id};
      started := |legs| >= 2 && !running;
      if started { running := true; }
    }

    method RemoveAll() returns (stopped: bool)
      requires Valid()
      modifies this
      ensures Valid() && legs == map[] && !running && stopped == old(running)
    {
      stopped := running;
      legs, running := map[], false;
    }
  }

  // ---- The mix

  datatype Source = Source(id: string, frame: Window)

  function Saturate(v: int): Int16 { if v > 32767 then 32767 else if v < -32768 then -32768 else v }

  /** Sample `i` of what `target` hears: everyone else, added one at a time. */
  function MixAt(legs: seq<Source>, target: string, i: nat): Int16
    requires i < FRAME
  {
    if legs == [] then 0
    else var before, last := MixAt(legs[..|legs| - 1], target, i), legs[|legs| - 1];
         if last.id == target then before else Saturate(before + last.frame[i])
  }

  method Mix(legs: seq<Source>, target: string) returns (mixed: seq<Int16>)
    ensures |mixed| == FRAME && forall i :: 0 <= i < FRAME ==> mixed[i] == MixAt(legs, target, i)
  {
    var buf := new Int16[FRAME](i => 0);
    for n := 0 to |legs|
      invariant forall i :: 0 <= i < FRAME ==> buf[i] == MixAt(legs[..n], target, i)
    {
      assert legs[..n + 1][..n] == legs[..n];
      if legs[n].id == target { continue; }
      for k := 0 to FRAME
        invariant forall i :: 0 <= i < k ==> buf[i] == MixAt(legs[..n + 1], target, i)
        invariant forall i :: k <= i < FRAME ==> buf[i] == MixAt(legs[..n], target, i)
      {
        buf[k] := Saturate(buf[k] as int + legs[n].frame[k] as int);
      }
    }
    assert legs[..|legs|] == legs;
    return buf[..];
  }

  // ---- When the order of the legs shows

  /** What a leg adds to sample `i` of what `target` hears. */
  function Voice(leg: Source, target: string, i: nat): int
    requires i < FRAME
  {
    if leg.id == target then 0 else leg.frame[i] as int
  }

  /** The sum of the positive voices, and of the magnitudes of the negative ones. */
  function Ups(legs: seq<Source>, target: string, i: nat): nat
    requires i < FRAME
  {
    if legs == [] then 0
    else var v := Voice(legs[0], target, i); Ups(legs[1..], target, i) + if v > 0 then v else 0
  }

  function Downs(legs: seq<Source>, target: string, i: nat): nat
    requires i < FRAME
  {
    if legs == [] then 0
    else var v := Voice(legs[0], target, i); Downs(legs[1..], target, i) + if v < 0 then -v else 0
  }

  /** All voices on one side of silence, or neither side loud enough to clip. */
  predicate OrderFree(legs: seq<Source>, target: string, i: nat)
    requires i < FRAME
  {
    var up, down := Ups(legs, target, i), Downs(legs, target, i);
    up == 0 || down == 0 || (up <= 32767 && down <= 32768)
  }

  lemma {:induction false} SumsOfSplit(a: seq<Source>, b: seq<Source>, target: string, i: nat)
    requires i < FRAME
    ensures Ups(a + b, target, i) == Ups(a, target, i) + Ups(b, target, i)
    ensures Downs(a + b, target, i) == Downs(a, target, i) + Downs(b, target, i)
  {
    if a == [] {
      assert a + b == b;
    } else {
      assert (a + b)[1..] == a[1..] + b;
      SumsOfSplit(a[1..], b, target, i);
    }
  }

  lemma SumsOfLast(legs: seq<Source>, target: string, i: nat)
    requires i < FRAME && legs != []
    ensures var front, v := legs[..|legs| - 1], Voice(legs[|legs| - 1], target, i);
            && Ups(legs, target, i) == Ups(front, target, i) + (if v > 0 then v else 0)
            && Downs(legs, target, i) == Downs(front, target, i) + (if v < 0 then -v else 0)
            && MixAt(legs, target, i) == Saturate(MixAt(front, target, i) as int + v)
  {
    var front, last := legs[..|legs| - 1], legs[|legs| - 1];
    assert legs == front + [last] && [last][1..] == [];
    SumsOfSplit(front, [last], target, i);
  }

  /** Moving a leg to the front changes neither sum. */
  lemma SumsOfMove(b: seq<Source>, k: nat, target: string, i: nat)
    requires i < FRAME && k < |b|
    ensures var moved := [b[k]] + (b[..k] + b[k + 1..]);
            Ups(moved, target, i) == Ups(b, target, i) && Downs(moved, target, i) == Downs(b, target, i)
  {
    var before, after := b[..k], b[k + 1..];
    assert b == before + ([b[k]] + after);
    SumsOfSplit(before, [b[k]] + after, target, i);
    SumsOfSplit([b[k]], after, target, i);
    SumsOfSplit(before, after, target, i);
    SumsOfSplit([b[k]], before + after, target, i);
  }

  lemma FindFirst(a: seq<Source>, b: seq<Source>) returns (k: nat)
    requires a != [] && multiset(a) == multiset(b)
    ensures k < |b| && b[k] == a[0] && multiset(a[1..]) == multiset(b[..k] + b[k + 1..])
  {
    assert a[0] in multiset(b);
    k :| 0 <= k < |b| && b[k] == a[0];
    var before, after := b[..k], b[k + 1..];
    assert a == [a[0]] + a[1..];
    assert b == before + [b[k]] + after;
    assert multiset(b) == multiset(before) + multiset{b[k]} + multiset(after);
    assert multiset(a) == multiset{a[0]} + multiset(a[1..]);
    assert multiset(a[1..]) == multiset(a) - multiset{a[0]};
    assert multiset(before + after) == multiset(before) + multiset(after);
  }

  lemma {:induction false} SumsOfReorder(a: seq<Source>, b: seq<Source>, target: string, i: nat)
    requires i < FRAME && multiset(a) == multiset(b)
    ensures Ups(a, target, i) == Ups(b, target, i) && Downs(a, target, i) == Downs(b, target, i)
  {
    if a == [] {
      assert |multiset(b)| == 0;
    } else {
      var k := FindFirst(a, b);
      var rest := b[..k] + b[k + 1..];
      SumsOfReorder(a[1..], rest, target, i);
      SumsOfMove(b, k, target, i);
      assert ([b[k]] + rest)[1..] == rest;
    }
  }

  /** Legs that all push up clip once, at the top. */
  lemma {:induction false} MixUp(a: seq<Source>, b: seq<Source>, target: string, i: nat)
    requires i < FRAME && forall s :: s in b ==> Voice(s, target, i) >= 0
    ensures Downs(b, target, i) == 0
    ensures var v := MixAt(a, target, i) as int + Ups(b, target, i);
            MixAt(a + b, target, i) as int == if v > 32767 then 32767 else v
    decreases |b|
  {
    if b == [] {
      assert a + b == a;
    } else {
      var front, last := b[..|b| - 1], b[|b| - 1];
      assert (a + b)[..|a + b| - 1] == a + front && last in b;
      MixUp(a, front, target, i);
      SumsOfLast(b, target, i);
      SumsOfLast(a + b, target, i);
    }
  }

  /** Legs that all push down clip once, at the bottom. */
  lemma {:induction false} MixDown(a: seq<Source>, b: seq<Source>, target: string, i: nat)
    requires i < FRAME && forall s :: s in b ==> Voice(s, target, i) <= 0
    ensures Ups(b, target, i) == 0
    ensures var v := MixAt(a, target, i) as int - Downs(b, target, i);
            MixAt(a + b, target, i) as int == if v < -32768 then -32768 else v
    decreases |b|
  {
    if b == [] {
      assert a + b == a;
    } else {
      var front, last := b[..|b| - 1], b[|b| - 1];
      assert (a + b)[..|a + b| - 1] == a + front && last in b;
      MixDown(a, front, target, i);
      SumsOfLast(b, target, i);
      SumsOfLast(a + b, target, i);
    }
  }

  lemma {:induction false} MixWithin(legs: seq<Source>, target: string, i: nat)
    requires i < FRAME && Ups(legs, target, i) <= 32767 && Downs(legs, target, i) <= 32768
    ensures MixAt(legs, target, i) as int == Ups(legs, target, i) - Downs(legs, target, i)
    decreases |legs|
  {
    if legs != [] {
      SumsOfLast(legs, target, i);
      MixWithin(legs[..|legs| - 1], target, i);
    }
  }

  lemma {:induction false} OneSided(legs: seq<Source>, target: string, i: nat)
    requires i < FRAME
    ensures Downs(legs, target, i) == 0 ==> forall s :: s in legs ==> Voice(s, target, i) >= 0
    ensures Ups(legs, target, i) == 0 ==> forall s :: s in legs ==> Voice(s, target, i) <= 0
  {
    if legs != [] { OneSided(legs[1..], target, i); }
  }

  lemma {:induction false} MixOneSided(legs: seq<Source>, target: string, i: nat)
    requires i < FRAME
    ensures Downs(legs, target, i) == 0 ==> MixAt(legs, target, i) == Saturate(Ups(legs, target, i))
    ensures Ups(legs, target, i) == 0 ==> MixAt(legs, target, i) == Saturate(-(Downs(legs, target, i) as int))
  {
    OneSided(legs, target, i);
    var none: seq<Source> := [];
    assert none + legs == legs && MixAt(none, target, i) == 0;
    if Downs(legs, target, i) == 0 { MixUp(none, legs, target, i); }
    if Ups(legs, target, i) == 0 { MixDown(none, legs, target, i); }
  }

  /** Whatever the order then is, a leg hears the sum of the others, clipped once. */
  lemma {:induction false} MixIsClippedSum(legs: seq<Source>, target: string, i: nat)
    requires i < FRAME && OrderFree(legs, target, i)
    ensures MixAt(legs, target, i) == Saturate(Ups(legs, target, i) - Downs(legs, target, i))
  {
    if Downs(legs, target, i) == 0 || Ups(legs, target, i) == 0 { MixOneSided(legs, target, i); }
    else { MixWithin(legs, target, i); }
  }

  /** The legs that push up and the rest. */
  lemma Halves(legs: seq<Source>, target: string, i: nat) returns (up: seq<Source>, down: seq<Source>)
    requires i < FRAME
    ensures multiset(up + down) == multiset(legs)
    ensures (forall s :: s in up ==> Voice(s, target, i) >= 0) && (forall s :: s in down ==> Voice(s, target, i) <= 0)
  {
    up := Filter(legs, (s: Source) => Voice(s, target, i) > 0);
    down := Filter(legs, (s: Source) => !(Voice(s, target, i) > 0));
    FilterParts(legs, (s: Source) => Voice(s, target, i) > 0, (s: Source) => !(Voice(s, target, i) > 0));
    FilterMembers(legs, (s: Source) => Voice(s, target, i) > 0);
    FilterMembers(legs, (s: Source) => !(Voice(s, target, i) > 0));
  }

  lemma {:induction false} UpFirst(up: seq<Source>, down: seq<Source>, target: string, i: nat)
    requires i < FRAME
    requires (forall s :: s in up ==> Voice(s, target, i) >= 0) && (forall s :: s in down ==> Voice(s, target, i) <= 0)
    ensures Downs(up, target, i) == 0 == Ups(down, target, i)
    ensures var u, d := Ups(up, target, i), Downs(down, target, i);
            var top := if u > 32767 then 32767 else u;
            MixAt(up + down, target, i) as int == if top - d < -32768 then -32768 else top - d
  {
    assert [] + up == up;
    MixUp([], up, target, i);
    MixDown(up, down, target, i);
  }

  lemma {:induction false} DownFirst(up: seq<Source>, down: seq<Source>, target: string, i: nat)
    requires i < FRAME
    requires (forall s :: s in up ==> Voice(s, target, i) >= 0) && (forall s :: s in down ==> Voice(s, target, i) <= 0)
    ensures var u, d := Ups(up, target, i), Downs(down, target, i);
            var bottom := if d > 32768 then 32768 else d;
            MixAt(down + up, target, i) as int == if u - bottom > 32767 then 32767 else u - bottom
  {
    assert [] + down == down;
    MixDown([], down, target, i);
    MixUp(down, up, target, i);
  }

  /** Unless the order is free, two orders of the same legs differ. */
  lemma TwoOrders(legs: seq<Source>, target: string, i: nat) returns (upFirst: seq<Source>, downFirst: seq<Source>)
    requires i < FRAME && !OrderFree(legs, target, i)
    ensures multiset(upFirst) == multiset(legs) == multiset(downFirst)
    ensures MixAt(upFirst, target, i) != MixAt(downFirst, target, i)
  {
    var up, down := Halves(legs, target, i);
    upFirst, downFirst := up + down, down + up;
    SumsOfReorder(upFirst, legs, target, i);
    SumsOfSplit(up, down, target, i);
    UpFirst(up, down, target, i);
    DownFirst(up, down, target, i);
  }

  /** The order in which the legs are visited is inaudible exactly when all the others' voices are on one side, or
      neither side could clip alone. */
  lemma {:induction false} OrderIsInvisibleExactly(legs: seq<Source>, target: string, i: nat)
    requires i < FRAME
    ensures (forall others :: multiset(others) == multiset(legs) ==> MixAt(others, target, i) == MixAt(legs, target, i))
            <==> OrderFree(legs, target, i)
  {
    if OrderFree(legs, target, i) {
      forall others | multiset(others) == multiset(legs) ensures MixAt(others, target, i) == MixAt(legs, target, i) {
        SumsOfReorder(others, legs, target, i);
        MixIsClippedSum(others, target, i);
        MixIsClippedSum(legs, target, i);
      }
    } else {
      var upFirst, downFirst := TwoOrders(legs, target, i);
    }
  }

  /** Three loud voices on both sides sound different in two orders. */
  lemma ClippingShowsOrder(target: string, b: string, c: string, d: string)
    requires target !in {b, c, d}
    ensures var loud, quiet := seq(FRAME, i => 30000 as Int16), seq(FRAME, i => -30000 as Int16);
            var x, y, z := Source(b, loud), Source(c, loud), Source(d, quiet);
            MixAt([x, y, z], target, 0) == 2767 && MixAt([x, z, y], target, 0) == 30000
  {
    var loud, quiet := seq(FRAME, i => 30000 as Int16), seq(FRAME, i => -30000 as Int16);
    var x, y, z := Source(b, loud), Source(c, loud), Source(d, quiet);
    assert [x, y, z][..2] == [x, y] && [x, z, y][..2] == [x, z] && [x, y][..1] == [x] && [x, z][..1] == [x]
           && [x][..0] == [];
    assert MixAt([x], target, 0) == 30000;
  }
}
