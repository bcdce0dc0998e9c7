/** Local playback arithmetic: 16-bit samples, stereo downmix and frame sizes (voice/server.go). */
module Audio {
  import opened Basics

  const MAX_OPUS_FRAME: nat := 11520
  const SAMPLES_PER_CHANNEL: nat := 960

  // ---- 16-bit little-endian samples ----

  /** A byte of PCM data, as a number: what follows is arithmetic. */
  type Octet = x: int | 0 <= x < 0x100

  /** uint16(low) | uint16(high)<<8: the operands share no bit, so the or is a sum (OrIsSum). */
  function Word(low: Octet, high: Octet): (w: int)
    ensures 0 <= w < 0x1_0000
  {
    low + 0x100 * high
  }

  lemma OrIsSum(low: byte, high: byte)
    ensures ((low as bv16) | ((high as bv16) << 8)) as int == Word(low as int, high as int)
  {
  }

  /** int16(w): two's complement. */
  function ToSigned(w: int): (v: int)
    requires 0 <= w < 0x1_0000
    ensures -0x8000 <= v < 0x8000
  {
    if w < 0x8000 then w else w - 0x1_0000
  }

  /** uint16(v): the low 16 bits. */
  function ToWord(v: int): (w: int)
    ensures 0 <= w < 0x1_0000
    ensures -0x8000 <= v < 0x8000 ==> ToSigned(w) == v
  {
    v % 0x1_0000
  }

  function Sample(low: Octet, high: Octet): int {
    ToSigned(Word(low, high))
  }

  function LowByte(w: int): Octet
    requires 0 <= w < 0x1_0000
  {
    w % 0x100
  }

  function HighByte(w: int): Octet
    requires 0 <= w < 0x1_0000
  {
    w / 0x100
  }

  /** Go's integer division truncates toward zero; Dafny's rounds down. */
  function Half(x: int): int {
    if x < 0 then -((-x) / 2) else x / 2
  }

  /** The mean of two samples, truncated toward zero, lies between them. */
  lemma HalfBetween(l: int, r: int)
    ensures var m := Half(l + r);
            (if l <= r then l <= m <= r else r <= m <= l) &&
            Abs(2 * m) <= Abs(l + r) <= Abs(2 * m) + 1
    ensures Half(l + l) == l
  {
  }

  /** Sample i of channel c (0 left, 1 right) of an interleaved stereo buffer. */
  function StereoSample(stereo: seq<Octet>, i: nat, c: nat): int
    requires c < 2 && 4 * i + 4 <= |stereo|
  {
    Sample(stereo[4 * i + 2 * c], stereo[4 * i + 2 * c + 1])
  }

  function MonoSample(mono: seq<Octet>, i: nat): int
    requires 2 * i + 2 <= |mono|
  {
    Sample(mono[2 * i], mono[2 * i + 1])
  }

  /** Sample i of the output is the truncated mean of the two channels. */
  ghost predicate Mixed(stereo: seq<Octet>, mono: seq<Octet>, i: nat)
    requires 4 * i + 4 <= |stereo| && 2 * i + 2 <= |mono|
  {
    MonoSample(mono, i) == Half(StereoSample(stereo, i, 0) + StereoSample(stereo, i, 1))
  }

  method DownmixStereo(input: seq<Octet>, samplesPerCh: nat) returns (out: array<Octet>)
    requires 4 * samplesPerCh <= |input|
    ensures fresh(out) && out.Length == 2 * samplesPerCh
    ensures forall i: nat | i < samplesPerCh :: Mixed(input, out[..], i)
  {
    out := new Octet[samplesPerCh * 2](_ => 0);
    for i := 0 to samplesPerCh
      invariant forall k: nat | k < i :: Mixed(input, out[..], k)
    {
      var li := 4 * i;
      var ri := li + 2;
      var l := Sample(input[li], input[li + 1]);
      var r := Sample(input[ri], input[ri + 1]);
      var m := Half(l + r);
      HalfBetween(l, r);
      ghost var before := out[..];
      var oi := 2 * i;
      out[oi] := LowByte(ToWord(m));
      out[oi + 1] := HighByte(ToWord(m));
      forall k: nat | k <= i
        ensures Mixed(input, out[..], k)
      {
        if k < i {
          assert Mixed(input, before, k);
        } else {
          assert StereoSample(input, i, 0) == l && StereoSample(input, i, 1) == r;
        }
      }
    }
  }

  /** Any buffer the downmix may return stays within the channels and keeps equal channels unchanged. */
  lemma MixedBetween(stereo: seq<Octet>, mono: seq<Octet>, i: nat)
    requires 4 * i + 4 <= |stereo| && 2 * i + 2 <= |mono|
    ensures var l, r, m := StereoSample(stereo, i, 0), StereoSample(stereo, i, 1), MonoSample(mono, i);
            Mixed(stereo, mono, i) ==> (l <= m <= r || r <= m <= l) && (l == r ==> m == l)
  {
    HalfBetween(StereoSample(stereo, i, 0), StereoSample(stereo, i, 1));
  }

  /** The two bytes of a sample, low one first. */
  lemma BytesOfSample(v: int)
    requires -0x8000 <= v < 0x8000
    ensures var w := ToWord(v);
            LowByte(w) + 0x100 * HighByte(w) == (if v < 0 then v + 0x1_0000 else v) && Sample(LowByte(w), HighByte(w)) == v
  {
  }

  /**
   The downmix from bytes to bytes: four bytes that hold left and then right, each low byte first,
   become the two bytes of their mean truncated toward zero.
   */
  lemma MixedBytes(stereo: seq<Octet>, mono: seq<Octet>, i: nat, l: int, r: int)
    requires 4 * i + 4 <= |stereo| && 2 * i + 2 <= |mono| && -0x8000 <= l < 0x8000 && -0x8000 <= r < 0x8000
    requires stereo[4 * i..4 * i + 4] == [LowByte(ToWord(l)), HighByte(ToWord(l)), LowByte(ToWord(r)), HighByte(ToWord(r))]
    requires Mixed(stereo, mono, i)
    ensures var m := if l + r < 0 then -((-(l + r)) / 2) else (l + r) / 2;
            -0x8000 <= m < 0x8000 && mono[2 * i..2 * i + 2] == [LowByte(ToWord(m)), HighByte(ToWord(m))]
  {
    var four := stereo[4 * i..4 * i + 4];
    assert stereo[4 * i] == four[0] && stereo[4 * i + 1] == four[1] && stereo[4 * i + 2] == four[2] && stereo[4 * i + 3] == four[3];
    var m := Half(l + r);
    HalfBetween(l, r);
    BytesOfSample(l);
    BytesOfSample(r);
    BytesOfSample(m);
    SampleInjective(mono[2 * i], mono[2 * i + 1], LowByte(ToWord(m)), HighByte(ToWord(m)));
  }

  /** Equal channels pass through byte for byte. */
  lemma EqualChannelsPass(stereo: seq<Octet>, mono: seq<Octet>, i: nat)
    requires 4 * i + 4 <= |stereo| && 2 * i + 2 <= |mono| && Mixed(stereo, mono, i)
    requires stereo[4 * i] == stereo[4 * i + 2] && stereo[4 * i + 1] == stereo[4 * i + 3]
    ensures mono[2 * i] == stereo[4 * i] && mono[2 * i + 1] == stereo[4 * i + 1]
  {
    MixedBetween(stereo, mono, i);
    SampleInjective(mono[2 * i], mono[2 * i + 1], stereo[4 * i], stereo[4 * i + 1]);
  }

  /** The mix decides every output byte. */
  lemma MixedUnique(stereo: seq<Octet>, a: seq<Octet>, b: seq<Octet>, n: nat)
    requires 4 * n <= |stereo| && |a| == |b| == 2 * n
    requires forall i: nat | i < n :: Mixed(stereo, a, i) && Mixed(stereo, b, i)
    ensures a == b
  {
    forall i: nat | i < n
      ensures a[2 * i] == b[2 * i] && a[2 * i + 1] == b[2 * i + 1]
    {
      assert Mixed(stereo, a, i) && Mixed(stereo, b, i);
      SampleInjective(a[2 * i], a[2 * i + 1], b[2 * i], b[2 * i + 1]);
    }
    forall j: nat | j < 2 * n
      ensures a[j] == b[j]
    {
      var i := j / 2;
      assert j == 2 * i || j == 2 * i + 1;
    }
  }

  lemma SampleInjective(a: Octet, b: Octet, c: Octet, d: Octet)
    requires Sample(a, b) == Sample(c, d)
    ensures a == c && b == d
  {
  }

  // ---- How much of a decoded frame is played ----

  datatype FrameSize = FrameSize(samplesPerCh: int, bytesToUse: int)

  /** Go's sr / 50 for any int. */
  function DivFifty(sr: int): int {
    if sr < 0 then -((-sr) / 50) else sr / 50
  }

  method PlaybackSize(sampleRate: int, isStereo: bool) returns (size: FrameSize)
    ensures 0 < size.samplesPerCh
    ensures 0 < size.bytesToUse <= MAX_OPUS_FRAME
    ensures size == SizeOf(sampleRate, isStereo)
  {
    var sr := sampleRate;
    if sr == 0 {
      sr := 48000;
    }
    var samplesPerCh := DivFifty(sr);
    if samplesPerCh <= 0 {
      samplesPerCh := SAMPLES_PER_CHANNEL;
    }
    var channels := 1;
    if isStereo {
      channels := 2;
    }
    var bytesToUse := samplesPerCh * 2 * channels;
    if bytesToUse > MAX_OPUS_FRAME {
      bytesToUse := MAX_OPUS_FRAME;
    }
    size := FrameSize(samplesPerCh, bytesToUse);
  }

  /** 20 ms of samples, 960 where the rate gives none, and the bytes they take, cut to the buffer. */
  function SizeOf(sampleRate: int, isStereo: bool): FrameSize {
    var perCh := if sampleRate < 50 then SAMPLES_PER_CHANNEL else sampleRate / 50;
    var wanted := if isStereo then 4 * perCh else 2 * perCh;
    FrameSize(perCh, if wanted <= MAX_OPUS_FRAME then wanted else MAX_OPUS_FRAME)
  }

  /**
   Twenty milliseconds at 2 bytes a sample and channel, at most the 11520 bytes of the buffer; a
   rate that gives no sample counts as 48 kHz. The mono path is clamped from twice the rate on.
   */
  lemma SizeInNumbers(sampleRate: int)
    ensures var perCh := SizeOf(sampleRate, true).samplesPerCh;
            perCh == SizeOf(sampleRate, false).samplesPerCh &&
            (sampleRate < 50 ==> perCh == 960) && (50 <= sampleRate ==> 50 * perCh <= sampleRate < 50 * perCh + 50)
    ensures sampleRate < 288_050 ==> SizeOf(sampleRate, false).bytesToUse == 2 * SizeOf(sampleRate, false).samplesPerCh
    ensures 288_050 <= sampleRate ==> SizeOf(sampleRate, false).bytesToUse == 11_520
    ensures 144_050 <= sampleRate ==> SizeOf(sampleRate, true).bytesToUse == 11_520
  {
  }

  /** The stereo path stays inside the decoded frame exactly for rates below 144050 Hz. */
  lemma StereoFitsIff(sampleRate: int)
    ensures 4 * SizeOf(sampleRate, true).samplesPerCh <= SizeOf(sampleRate, true).bytesToUse
            <==> sampleRate < 144_050
    ensures SizeOf(sampleRate, true).bytesToUse == 4 * SizeOf(sampleRate, true).samplesPerCh
            <==> sampleRate < 144_050
  {
  }
}
