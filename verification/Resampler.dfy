/** Linear resampling between the codec rate and the 8 kHz hub, in exact arithmetic: the source position
    of output sample `i` is i * inRate / outRate, split into an index and a remainder. */
module Resampler {

  /** Conversion of a quotient to an integer sample: toward zero. */
  function TruncDiv(a: int, b: int): int
    requires b > 0
  {
    if a >= 0 then a / b else -((-a) / b)
  }

  /** Output sample `i`: between its two source neighbours, or the last sample at the end. */
  function Interpolate(x: seq<int>, i: nat, inRate: int, outRate: int): int
    requires x != [] && inRate > 0 && outRate > 0
  {
    SourceIndex(i, inRate, outRate);
    var j, r := i * inRate / outRate, i * inRate % outRate;
    if j >= |x| - 1 then x[|x| - 1]
    else TruncDiv(x[j] * (outRate - r) + x[j + 1] * r, outRate)
  }

  function Resample(x: seq<int>, inRate: int, outRate: int): seq<int> {
    if x == [] || inRate <= 0 || outRate <= 0 then []
    else if inRate == outRate then x
    else Length(|x|, inRate, outRate);
         seq(|x| * outRate / inRate, i requires 0 <= i => Interpolate(x, i, inRate, outRate))
  }

  lemma SourceIndex(i: nat, inRate: int, outRate: int)
    requires inRate > 0 && outRate > 0
    ensures 0 <= i * inRate / outRate && 0 <= i * inRate % outRate < outRate
  {
    assert 0 <= i * inRate;
  }

  lemma Length(n: nat, inRate: int, outRate: int)
    requires inRate > 0 && outRate > 0
    ensures 0 <= n * outRate / inRate
  {
    assert 0 <= n * outRate;
  }

  // ---- Truncated division

  lemma MulMono(a: int, b: int, c: int)
    requires a <= b && c >= 0
    ensures a * c <= b * c
  {}

  lemma DivMono(a: int, b: int, d: int)
    requires 0 <= a <= b && d > 0
    ensures a / d <= b / d
  {
    if b / d < a / d { MulMono(b / d + 1, a / d, d); }
  }

  lemma TruncMono(a: int, b: int, d: int)
    requires a <= b && d > 0
    ensures TruncDiv(a, d) <= TruncDiv(b, d)
  {
    if a >= 0 {
      DivMono(a, b, d);
    } else if b < 0 {
      DivMono(-b, -a, d);
    } else {
      DivMono(0, -a, d);
      DivMono(0, b, d);
    }
  }

  lemma DivModUnique(a: int, d: int)
    requires d > 0
    ensures a == (a / d) * d + a % d && 0 <= a % d < d
  {}

  lemma TruncExact(v: int, d: int)
    requires d > 0
    ensures TruncDiv(v * d, d) == v
  {
    if v >= 0 {
      DivExact(v, d);
      assert v * d >= 0;
    } else {
      DivExact(-v, d);
      assert -(v * d) == (-v) * d;
      MulMono(v, -1, d);
    }
  }

  lemma DivExact(v: nat, d: int)
    requires d > 0
    ensures v * d / d == v && v * d % d == 0
  {
    assert v * d == (v * d / d) * d + v * d % d;
    var e := v - v * d / d;
    assert e * d == v * d % d;
    if e > 0 { MulMono(1, e, d); }
    if e < 0 { MulMono(e, -1, d); }
  }

  // ---- Each output sample lies between its neighbours

  lemma BlendBounds(a: int, b: int, r: int, d: int)
    requires 0 <= r <= d && a <= b
    ensures a * d <= a * (d - r) + b * r <= b * d
    ensures a * d <= b * (d - r) + a * r <= b * d
  {
    MulMono(a, b, r);
    MulMono(a, b, d - r);
    assert a * (d - r) == a * d - a * r && b * (d - r) == b * d - b * r;
  }

  lemma TruncBounds(lo: int, v: int, hi: int, d: int)
    requires d > 0 && lo * d <= v <= hi * d
    ensures lo <= TruncDiv(v, d) <= hi
  {
    TruncMono(lo * d, v, d);
    TruncMono(v, hi * d, d);
    TruncExact(lo, d);
    TruncExact(hi, d);
  }

  function Lower(a: int, b: int): int { if a < b then a else b }

  function Upper(a: int, b: int): int { if a < b then b else a }

  /** Every source index is in range and the output stays within its two neighbours. */
  lemma BetweenNeighbours(x: seq<int>, i: nat, inRate: int, outRate: int)
    requires x != [] && inRate > 0 && outRate > 0
    ensures var j := i * inRate / outRate;
            && 0 <= j
            && (j < |x| - 1 ==> Lower(x[j], x[j + 1]) <= Interpolate(x, i, inRate, outRate) <= Upper(x[j], x[j + 1]))
            && (j >= |x| - 1 ==> Interpolate(x, i, inRate, outRate) == x[|x| - 1])
  {
    SourceIndex(i, inRate, outRate);
    var j, r := i * inRate / outRate, i * inRate % outRate;
    if j < |x| - 1 {
      var lo, hi := Lower(x[j], x[j + 1]), Upper(x[j], x[j + 1]);
      BlendBounds(lo, hi, r, outRate);
      TruncBounds(lo, x[j] * (outRate - r) + x[j + 1] * r, hi, outRate);
    }
  }

  /** Conversion drops less than one unit, and only toward zero. */
  lemma TruncExactly(v: int, d: int)
    requires d > 0
    ensures var q := TruncDiv(v, d);
            && -d < q * d - v < d
            && (if v >= 0 then 0 <= q * d <= v else v <= q * d <= 0)
  {
    if v >= 0 { DivModUnique(v, d); } else { DivModUnique(-v, d); }
    if v < 0 {
      var q := (-v) / d;
      assert (-q) * d == -(q * d);
      if q < 0 { MulMono(q, -1, d); }
    } else if v / d < 0 {
      MulMono(v / d, -1, d);
    }
  }

  /** `y` is the point at position i * inRate / outRate on the line between the samples on either side, converted
      toward zero; past the last pair it is the last sample. */
  predicate OnLine(x: seq<int>, i: nat, inRate: int, outRate: int, y: int)
    requires x != [] && inRate > 0 && outRate > 0
  {
    var j, r := i * inRate / outRate, i * inRate % outRate;
    && 0 <= j
    && (j >= |x| - 1 ==> y == x[|x| - 1])
    && (j < |x| - 1 ==>
          var p := x[j] * (outRate - r) + x[j + 1] * r;
          && -outRate < y * outRate - p < outRate
          && (if p >= 0 then 0 <= y * outRate <= p else p <= y * outRate <= 0))
  }

  lemma TruncNotBelow(p: int, d: int, y: int, z: int)
    requires d > 0 && -d < y * d - p < d && -d < z * d - p < d
    requires if p >= 0 then 0 <= y * d && z * d <= p else p <= y * d && z * d <= 0
    ensures y >= z
  {
    assert (y + 1) * d == y * d + d;
    if y < z { MulMono(y + 1, z, d); }
  }

  /** The conditions single out one sample. */
  lemma OneOnLine(x: seq<int>, i: nat, inRate: int, outRate: int, y: int, z: int)
    requires x != [] && inRate > 0 && outRate > 0
    requires OnLine(x, i, inRate, outRate, y) && OnLine(x, i, inRate, outRate, z)
    ensures y == z
  {
    var j, r := i * inRate / outRate, i * inRate % outRate;
    if j < |x| - 1 {
      var p := x[j] * (outRate - r) + x[j + 1] * r;
      TruncNotBelow(p, outRate, y, z);
      TruncNotBelow(p, outRate, z, y);
    }
  }

  lemma OnTheLine(x: seq<int>, i: nat, inRate: int, outRate: int)
    requires x != [] && inRate > 0 && outRate > 0
    ensures OnLine(x, i, inRate, outRate, Interpolate(x, i, inRate, outRate))
  {
    SourceIndex(i, inRate, outRate);
    var j, r := i * inRate / outRate, i * inRate % outRate;
    if j < |x| - 1 { TruncExactly(x[j] * (outRate - r) + x[j + 1] * r, outRate); }
  }

  // ---- Order is kept

  lemma BlendMono(a: int, b: int, r: int, s: int, d: int)
    requires a <= b && 0 <= r <= s <= d
    ensures a * (d - r) + b * r <= a * (d - s) + b * s
  {
    MulMono(0, b - a, s - r);
    assert (b - a) * (s - r) == b * s - b * r - a * s + a * r;
    assert a * (d - r) == a * d - a * r && a * (d - s) == a * d - a * s;
  }

  lemma InterpolateMono(x: seq<int>, i: nat, k: nat, inRate: int, outRate: int)
    requires (forall j, l :: 0 <= j <= l < |x| ==> x[j] <= x[l]) && x != [] && inRate > 0 && outRate > 0 && i <= k
    ensures Interpolate(x, i, inRate, outRate) <= Interpolate(x, k, inRate, outRate)
  {
    BetweenNeighbours(x, i, inRate, outRate);
    BetweenNeighbours(x, k, inRate, outRate);
    var p, q := i * inRate, k * inRate;
    MulMono(i, k, inRate);
    assert 0 <= p <= q by { assert 0 <= i * inRate; }
    DivMono(p, q, outRate);
    var j, l := p / outRate, q / outRate;
    if j == l {
      DivModUnique(p, outRate);
      DivModUnique(q, outRate);
      if j < |x| - 1 {
        BlendMono(x[j], x[j + 1], p % outRate, q % outRate, outRate);
        TruncMono(x[j] * (outRate - p % outRate) + x[j + 1] * (p % outRate),
                  x[j] * (outRate - q % outRate) + x[j + 1] * (q % outRate), outRate);
      }
    } else if l < |x| - 1 {
      assert x[j + 1] <= x[l] <= x[l + 1];
    }
  }

  /** Nondecreasing input gives nondecreasing output. */
  lemma ResampleKeepsOrder(x: seq<int>, inRate: int, outRate: int)
    requires forall i, k :: 0 <= i <= k < |x| ==> x[i] <= x[k]
    ensures var y := Resample(x, inRate, outRate); forall i, k :: 0 <= i <= k < |y| ==> y[i] <= y[k]
  {
    var y := Resample(x, inRate, outRate);
    if x != [] && inRate > 0 && outRate > 0 && inRate != outRate {
      Length(|x|, inRate, outRate);
      forall i, k | 0 <= i <= k < |y| ensures y[i] <= y[k] {
        InterpolateMono(x, i, k, inRate, outRate);
      }
    }
  }

  /** Output samples never leave the range of the input, so 16-bit samples stay 16-bit. */
  lemma ResampleStaysWithin(x: seq<int>, inRate: int, outRate: int, lo: int, hi: int)
    requires forall i :: 0 <= i < |x| ==> lo <= x[i] <= hi
    ensures var y := Resample(x, inRate, outRate); forall i :: 0 <= i < |y| ==> lo <= y[i] <= hi
  {
    var y := Resample(x, inRate, outRate);
    if x != [] && inRate > 0 && outRate > 0 && inRate != outRate {
      Length(|x|, inRate, outRate);
      forall i | 0 <= i < |y| ensures lo <= y[i] <= hi {
        BetweenNeighbours(x, i, inRate, outRate);
      }
    }
  }

  // ---- Up and back down

  lemma ScaledPosition(i: nat, rate: int, m: nat)
    requires rate > 0 && m > 0
    ensures (m * i) * rate / (m * rate) == i && (m * i) * rate % (m * rate) == 0
    ensures i * (m * rate) / rate == m * i && i * (m * rate) % rate == 0
  {
    assert (m * i) * rate == i * (m * rate) == (m * i) * rate;
    assert m * rate > 0 by { MulMono(1, m, rate); }
    DivExact(i, m * rate);
    DivExact(m * i, rate);
  }

  /** Raising the rate by a whole factor keeps sample `k` at position m * k. */
  lemma UpKeepsSamples(x: seq<int>, rate: int, m: nat, k: nat)
    requires rate > 0 && m > 1 && k < |x|
    ensures Interpolate(x, m * k, rate, m * rate) == x[k]
  {
    ScaledPosition(k, rate, m);
    MulMono(1, m, rate);
    if k < |x| - 1 { TruncExact(x[k], m * rate); }
  }

  lemma DownTakesSamples(y: seq<int>, rate: int, m: nat, k: nat)
    requires rate > 0 && m > 1 && m * k < |y| - 1
    ensures Interpolate(y, k, m * rate, rate) == y[m * k]
  {
    ScaledPosition(k, rate, m);
    MulMono(1, m, rate);
    TruncExact(y[m * k], rate);
  }

  /** Raising the rate by a whole factor and lowering it again gives every sequence back. */
  lemma UpThenDown(x: seq<int>, rate: int, m: nat)
    requires rate > 0 && m > 1
    ensures Resample(Resample(x, rate, m * rate), m * rate, rate) == x
  {
    MulMono(2, m, rate);
    var y := Resample(x, rate, m * rate);
    if x != [] {
      Length(|x|, rate, m * rate);
      ScaledPosition(|x|, rate, m);
      assert |x| * (m * rate) / rate == m * |x|;
      assert |y| == m * |x|;
      Length(|y|, m * rate, rate);
      assert |y| * rate / (m * rate) == |x|;
      MulMono(1, |x|, m);
      var z := Resample(y, m * rate, rate);
      assert |z| == |x|;
      forall k | 0 <= k < |x| ensures z[k] == x[k] {
        MulMono(k + 1, |x|, m);
        assert m * k + m <= m * |x|;
        assert m * k >= 0;
        UpKeepsSamples(x, rate, m, k);
        DownTakesSamples(y, rate, m, k);
      }
    }
  }

  const HUB_RATE := 8000
  const WIDEBAND_RATE := 16000

  /** 8 kHz to 16 kHz and back is the identity. */
  lemma WidebandRoundTrip(x: seq<int>)
    ensures Resample(Resample(x, HUB_RATE, WIDEBAND_RATE), WIDEBAND_RATE, HUB_RATE) == x
  {
    UpThenDown(x, HUB_RATE, 2);
  }

  method ResampleLinear(x: seq<int>, inRate: int, outRate: int) returns (y: seq<int>)
    ensures y == Resample(x, inRate, outRate)
    ensures x == [] || inRate <= 0 || outRate <= 0 ==> y == []
    ensures x != [] && inRate > 0 && outRate > 0 ==>
              if inRate == outRate then y == x
              else |y| == |x| * outRate / inRate && forall i :: 0 <= i < |y| ==> OnLine(x, i, inRate, outRate, y[i])
  {
    if |x| == 0 || inRate <= 0 || outRate <= 0 {
      return [];
    }
    if inRate == outRate {
      return x;
    }
    Length(|x|, inRate, outRate);
    var outLen := |x| * outRate / inRate;
    var out := new int[outLen];
    var last := |x| - 1;
    for i := 0 to outLen
      invariant forall k :: 0 <= k < i ==> out[k] == Interpolate(x, k, inRate, outRate)
    {
      SourceIndex(i, inRate, outRate);
      var j, r := i * inRate / outRate, i * inRate % outRate;
      out[i] := if j >= last then x[last] else TruncDiv(x[j] * (outRate - r) + x[j + 1] * r, outRate);
    }
    y := out[..];
    forall i | 0 <= i < |y| ensures OnLine(x, i, inRate, outRate, y[i]) { OnTheLine(x, i, inRate, outRate); }
  }
}
