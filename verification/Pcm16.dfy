/** 16-bit little-endian PCM. */
module Pcm16 {

  type Byte = b: nat | b < 256

  type Int16 = v: int | -0x8000 <= v < 0x8000

  /** One sample from its two bytes, in two's complement. */
  function Sample(low: Byte, high: Byte): Int16 {
    var v := low as int + 256 * (high as int);
    if v >= 0x8000 then v - 0x1_0000 else v
  }

  /** The whole samples of a buffer; an odd last byte is dropped. */
  function Samples(pcm: seq<Byte>): seq<Int16> {
    if |pcm| < 2 then [] else [Sample(pcm[0], pcm[1])] + Samples(pcm[2..])
  }

  function Unsigned(v: Int16): int { if v < 0 then v as int + 0x1_0000 else v as int }

  function LowByte(v: Int16): Byte { Unsigned(v) % 256 }

  function HighByte(v: Int16): Byte { Unsigned(v) / 256 }

  function Bytes(samples: seq<Int16>): seq<Byte> {
    if samples == [] then [] else [LowByte(samples[0]), HighByte(samples[0])] + Bytes(samples[1..])
  }

  lemma {:induction false} SamplesAppend(a: seq<Byte>, b: seq<Byte>)
    requires |a| % 2 == 0
    ensures Samples(a + b) == Samples(a) + Samples(b)
    decreases a
  {
    if a == [] {
      assert a + b == b;
    } else {
      assert (a + b)[2..] == a[2..] + b;
      SamplesAppend(a[2..], b);
    }
  }

  lemma {:induction false} SamplesCount(pcm: seq<Byte>)
    ensures |Samples(pcm)| == |pcm| / 2
    ensures forall i :: 0 <= i < |pcm| / 2 ==> Samples(pcm)[i] == Sample(pcm[2 * i], pcm[2 * i + 1])
    decreases pcm
  {
    if |pcm| >= 2 { SamplesCount(pcm[2..]); }
  }

  /** The low byte comes first, and the high byte counts as a signed one. */
  lemma {:induction false} SamplesExactly(pcm: seq<Byte>)
    ensures |Samples(pcm)| == |pcm| / 2
    ensures forall i :: 0 <= i < |pcm| / 2 ==>
              Samples(pcm)[i] as int
              == pcm[2 * i] as int + 256 * (pcm[2 * i + 1] as int) - if pcm[2 * i + 1] < 128 then 0 else 65536
  {
    SamplesCount(pcm);
    forall i | 0 <= i < |pcm| / 2
      ensures Samples(pcm)[i] as int
              == pcm[2 * i] as int + 256 * (pcm[2 * i + 1] as int) - if pcm[2 * i + 1] < 128 then 0 else 65536
    {
      assert Samples(pcm)[i] == Sample(pcm[2 * i], pcm[2 * i + 1]);
    }
  }

  lemma SampleOfBytes(v: Int16)
    ensures Sample(LowByte(v), HighByte(v)) == v
  {}

  /** Writing samples as bytes and reading them back gives the same samples. */
  lemma {:induction false} SamplesOfBytes(samples: seq<Int16>)
    ensures Samples(Bytes(samples)) == samples && |Bytes(samples)| == 2 * |samples|
  {
    if samples != [] {
      SampleOfBytes(samples[0]);
      SamplesOfBytes(samples[1..]);
      assert Bytes(samples)[2..] == Bytes(samples[1..]);
    }
  }

  /** Reading a whole number of samples and writing them gives the same bytes. */
  lemma {:induction false} BytesOfSamples(pcm: seq<Byte>)
    requires |pcm| % 2 == 0
    ensures Bytes(Samples(pcm)) == pcm
    decreases pcm
  {
    if pcm != [] {
      BytesOfSamples(pcm[2..]);
      assert pcm == [pcm[0], pcm[1]] + pcm[2..];
    }
  }

  method BytesToSamples(pcm: seq<Byte>) returns (out: seq<Int16>)
    ensures out == Samples(pcm) && |out| == |pcm| / 2
    ensures forall i :: 0 <= i < |out| ==>
              out[i] as int
              == pcm[2 * i] as int + 256 * (pcm[2 * i + 1] as int) - if pcm[2 * i + 1] < 128 then 0 else 65536
  {
    var a := new Int16[|pcm| / 2];
    for i := 0 to a.Length
      invariant forall k :: 0 <= k < i ==> a[k] == Sample(pcm[2 * k], pcm[2 * k + 1])
    {
      a[i] := Sample(pcm[2 * i], pcm[2 * i + 1]);
    }
    SamplesCount(pcm);
    SamplesExactly(pcm);
    return a[..];
  }

  method SamplesToBytes(samples: seq<Int16>) returns (out: seq<Byte>)
    ensures out == Bytes(samples) && |out| == 2 * |samples|
    ensures forall i :: 0 <= i < |samples| ==>
              samples[i] as int
              == out[2 * i] as int + 256 * (out[2 * i + 1] as int) - if out[2 * i + 1] < 128 then 0 else 65536
  {
    out := [];
    for i := 0 to |samples|
      invariant out + Bytes(samples[i..]) == Bytes(samples)
    {
      assert samples[i..][1..] == samples[i + 1..];
      ghost var two := [LowByte(samples[i]), HighByte(samples[i])];
      assert out + (two + Bytes(samples[i + 1..])) == (out + two) + Bytes(samples[i + 1..]);
      out := out + [LowByte(samples[i]), HighByte(samples[i])];
    }
    assert out + [] == out;
    SamplesOfBytes(samples);
    SamplesExactly(out);
  }
}
