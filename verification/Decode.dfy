/**
  Decoding payloads with missing stretches, and estimating their duration (codec/imp.rs, codec/mod.rs).

  A codec is a function of everything it has been fed: sample `k` of the block it answers its latest frame with.
 */
module Decode {
  import opened Words
  import opened Header
  import opened Frames
  import opened Pcm
  import R = Resampler
  import S = ResamplerStream

  /** A byte range whose chunk never arrived. */
  datatype Gap = Gap(start: nat, end: nat)

  type Decoder = (seq<Bytes>, nat) -> i16

  predicate FrameOverlapsGap(start: nat, len: nat, gaps: seq<Gap>) {
    exists g :: g in gaps && start < g.end && g.start < start + len
  }

  ghost predicate InGap(b: nat, gaps: seq<Gap>) {
    exists g :: g in gaps && g.start <= b < g.end
  }

  /** A frame counts as hit exactly when it shares a byte with a gap, or a gap of no bytes lies strictly inside it. */
  lemma OverlapExactly(start: nat, len: nat, gaps: seq<Gap>)
    requires len > 0 && forall g :: g in gaps ==> g.start <= g.end
    ensures FrameOverlapsGap(start, len, gaps) <==>
              || (exists b: nat :: start <= b < start + len && InGap(b, gaps))
              || (exists g :: g in gaps && start < g.start == g.end < start + len)
  {
    if FrameOverlapsGap(start, len, gaps) {
      var g :| g in gaps && start < g.end && g.start < start + len;
      if g.start < g.end {
        assert InGap(Max(start, g.start), gaps);
      }
    }
  }

  /** A gap of no bytes hits the frame around it. */
  lemma EmptyGapHits()
    ensures FrameOverlapsGap(0, 13, [Gap(5, 5)]) && forall b: nat :: !InGap(b, [Gap(5, 5)])
  {
    assert Gap(5, 5) in [Gap(5, 5)];
  }

  // ----- AMR-NB

  const AMRNB_SAMPLES_PER_FRAME: nat := 160

  const NO_DATA: Bytes := [0x7C]

  /** What the fixed-stride walk feeds the decoder from byte `i` on. */
  function AmrnbFeeds(payload: Bytes, size: nat, gaps: seq<Gap>, i: nat): seq<Bytes>
    requires size > 0
    decreases |payload| - i
  {
    if i + size > |payload| then []
    else
      [if FrameOverlapsGap(i, size, gaps) then NO_DATA else payload[i..i + size]]
      + AmrnbFeeds(payload, size, gaps, i + size)
  }

  function Block(dec: Decoder, fed: seq<Bytes>, samples: nat): Pcm16 {
    seq(samples, k requires 0 <= k => dec(fed, k))
  }

  /** The blocks that answer the first `n` frames fed. */
  function Blocks(dec: Decoder, feeds: seq<Bytes>, n: nat): (pcm: Pcm16)
    requires n <= |feeds|
    ensures |pcm| == AMRNB_SAMPLES_PER_FRAME * n
  {
    if n == 0 then [] else Blocks(dec, feeds, n - 1) + Block(dec, feeds[..n], AMRNB_SAMPLES_PER_FRAME)
  }

  function PlaybackRates(): (r: R.Rates)
    ensures r.Valid() && !r.Filters()
  {
    R.Rates(8_000, 48_000, R.Silence(R.TAPS))
  }

  function ToFloats(pcm: Pcm16): R.Samples {
    seq(|pcm|, i requires 0 <= i < |pcm| => ToFloat(pcm[i]))
  }

  function QuantiseAll(samples: R.Samples): Pcm16 {
    seq(|samples|, i requires 0 <= i < |samples| => Quantise(samples[i]))
  }

  /** From 8 kHz to what is played at 48 kHz. */
  function Playback(pcm: Pcm16): Pcm16 {
    QuantiseAll(R.PushSpec(PlaybackRates(), R.Fresh(PlaybackRates()), ToFloats(pcm)).1)
  }

  /** With an exact cursor: six additions of 1/6 make exactly one input sample. */
  lemma PlaybackLength(pcm: Pcm16)
    ensures |Playback(pcm)| == 6 * |pcm|
  {
    var r := PlaybackRates();
    var floats := ToFloats(pcm);
    S.TwoFeeds(r, floats, floats, []);
    S.OutputCount(r, [floats]);
    CeilDivUnique(|floats| * r.dst, r.src, 6 * |pcm|);
  }

  method ToPlayback(pcm: Pcm16) returns (out: Pcm16)
    ensures out == Playback(pcm)
  {
    var rs := new R.Resampler(8_000, 48_000, R.Silence(R.TAPS));
    var up := rs.Push(ToFloats(pcm), []);
    out := QuantiseAll(up);
  }

  /** The 8 kHz samples the decoder answers with. */
  function AmrnbDecoded(dec: Decoder, payload: Bytes, param: byte, gaps: seq<Gap>): Result<Pcm16, CodecError> {
    if gaps == [] then
      var (frames, rest) := AmrnbWalk(payload);
      if rest == [] then Ok(Blocks(dec, frames, |frames|))
      else if AmrnbFrameBytes(TocMode(rest[0])).None? then Err(UnsupportedToc(rest[0]))
      else Err(TruncatedFrame)
    else if param >= 8 then Err(UnknownMode(param))
    else
      var feeds := AmrnbFeeds(payload, AmrnbFrameBytes(param).value, gaps, 0);
      Ok(Blocks(dec, feeds, |feeds|))
  }

  function Played(decoded: Result<Pcm16, CodecError>): Result<Pcm16, CodecError> {
    match decoded
    case Ok(pcm) => Ok(Playback(pcm))
    case Err(e) => Err(e)
  }

  function DecodeAmrnbSpec(dec: Decoder, payload: Bytes, param: byte, gaps: seq<Gap>): Result<Pcm16, CodecError> {
    Played(AmrnbDecoded(dec, payload, param, gaps))
  }

  method DecodeAmrnb(dec: Decoder, payload: Bytes, param: byte, gaps: seq<Gap>) returns (r: Result<Pcm16, CodecError>)
    ensures r == DecodeAmrnbSpec(dec, payload, param, gaps)
  {
    var feeds: seq<Bytes>;
    if gaps == [] {
      var remaining;
      feeds, remaining := CollectAmrnb(payload);
      AmrnbWalkCovers(payload);
      if remaining > 0 {
        ghost var frames, rest := AmrnbWalk(payload).0, AmrnbWalk(payload).1;
        var toc := payload[|payload| - remaining];
        assert payload == Flatten(frames) + rest;
        return Err(if AmrnbFrameBytes(TocMode(toc)).None? then UnsupportedToc(toc) else TruncatedFrame);
      }
    } else {
      if param >= 8 {
        return Err(UnknownMode(param));
      }
      feeds := StrideFeeds(payload, AmrnbFrameBytes(param).value, gaps);
    }
    var pcm: Pcm16 := [];
    for n := 0 to |feeds|
      invariant pcm == Blocks(dec, feeds, n)
    {
      pcm := pcm + Block(dec, feeds[..n + 1], AMRNB_SAMPLES_PER_FRAME);
    }
    var out := ToPlayback(pcm);
    r := Ok(out);
  }

  method StrideFeeds(payload: Bytes, size: nat, gaps: seq<Gap>) returns (feeds: seq<Bytes>)
    requires size > 0
    ensures feeds == AmrnbFeeds(payload, size, gaps, 0)
  {
    feeds := [];
    var i := 0;
    while i + size <= |payload|
      invariant feeds + AmrnbFeeds(payload, size, gaps, i) == AmrnbFeeds(payload, size, gaps, 0)
      decreases |payload| - i
    {
      feeds := feeds + [if FrameOverlapsGap(i, size, gaps) then NO_DATA else payload[i..i + size]];
      i := i + size;
    }
  }

  // ----- Codec2

  /** The samples from byte `i` on; a frame that touches a gap is silence and never reaches the codec. */
  function Codec2Pcm(dec: Decoder, payload: Bytes, sizes: (nat, nat), gaps: seq<Gap>, i: nat, fed: seq<Bytes>): Pcm16
    requires sizes.1 > 0
    decreases |payload| - i
  {
    if i + sizes.1 > |payload| then []
    else if FrameOverlapsGap(i, sizes.1, gaps) then
      seq(sizes.0, _ => 0) + Codec2Pcm(dec, payload, sizes, gaps, i + sizes.1, fed)
    else
      var fed' := fed + [payload[i..i + sizes.1]];
      Block(dec, fed', sizes.0) + Codec2Pcm(dec, payload, sizes, gaps, i + sizes.1, fed')
  }

  function Codec2Decoded(dec: Decoder, payload: Bytes, param: byte, gaps: seq<Gap>): Result<Pcm16, CodecError> {
    match Codec2FrameSizes(param)
    case None => Err(UnknownMode(param))
    case Some(sizes) => Ok(Codec2Pcm(dec, payload, sizes, gaps, 0, []))
  }

  function DecodeCodec2Spec(dec: Decoder, payload: Bytes, param: byte, gaps: seq<Gap>): Result<Pcm16, CodecError> {
    Played(Codec2Decoded(dec, payload, param, gaps))
  }

  method DecodeCodec2(dec: Decoder, payload: Bytes, param: byte, gaps: seq<Gap>) returns (r: Result<Pcm16, CodecError>)
    ensures r == DecodeCodec2Spec(dec, payload, param, gaps)
  {
    var found := Codec2FrameSizes(param);
    if found.None? {
      return Err(UnknownMode(param));
    }
    var pcm := Codec2Samples(dec, payload, found.value, gaps);
    var out := ToPlayback(pcm);
    r := Ok(out);
  }

  method Codec2Samples(dec: Decoder, payload: Bytes, sizes: (nat, nat), gaps: seq<Gap>) returns (pcm: Pcm16)
    requires sizes.1 > 0
    ensures pcm == Codec2Pcm(dec, payload, sizes, gaps, 0, [])
  {
    pcm := [];
    var fed: seq<Bytes>, i := [], 0;
    while i + sizes.1 <= |payload|
      invariant pcm + Codec2Pcm(dec, payload, sizes, gaps, i, fed) == Codec2Pcm(dec, payload, sizes, gaps, 0, [])
      decreases |payload| - i
    {
      Codec2Turn(dec, payload, sizes, gaps, i, fed, pcm);
      if FrameOverlapsGap(i, sizes.1, gaps) {
        pcm := pcm + seq(sizes.0, _ => 0);
      } else {
        fed := fed + [payload[i..i + sizes.1]];
        pcm := pcm + Block(dec, fed, sizes.0);
      }
      i := i + sizes.1;
    }
  }

  lemma {:induction false} Codec2Turn(dec: Decoder, payload: Bytes, sizes: (nat, nat), gaps: seq<Gap>, i: nat, fed: seq<Bytes>,
                                      pcm: Pcm16)
    requires sizes.1 > 0 && i + sizes.1 <= |payload|
    ensures var fed' := fed + [payload[i..i + sizes.1]];
            pcm + Codec2Pcm(dec, payload, sizes, gaps, i, fed)
            == if FrameOverlapsGap(i, sizes.1, gaps)
               then pcm + seq(sizes.0, _ => 0) + Codec2Pcm(dec, payload, sizes, gaps, i + sizes.1, fed)
               else pcm + Block(dec, fed', sizes.0) + Codec2Pcm(dec, payload, sizes, gaps, i + sizes.1, fed')
  {
  }

  // ----- durations

  /** What the Opus arm adds up, a packet without a readable header counting as 20 ms. */
  function PacketSamples(samplesOf: Bytes -> Option<nat>, packets: seq<Bytes>): nat {
    if packets == [] then 0
    else
      var last := samplesOf(packets[|packets| - 1]);
      PacketSamples(samplesOf, packets[..|packets| - 1]) + if last.Some? then last.value else 960
  }

  function PayloadDurationSpec(samplesOf: Bytes -> Option<nat>, payload: Bytes, codec: VoiceCodec, param: byte): nat {
    match codec
    case Opus => PacketSamples(samplesOf, OpusWalk(payload).0) / 48
    case Codec2 =>
      var sizes := Codec2FrameSizes(param);
      if sizes.None? then 0 else |payload| / sizes.value.1 * sizes.value.0 / 8
    case AmrNb => |AmrnbWalk(payload).0| * 20
    case _ => 0
  }

  method PayloadDurationMs(samplesOf: Bytes -> Option<nat>, payload: Bytes, codec: VoiceCodec, param: byte)
    returns (ms: nat)
    ensures ms == PayloadDurationSpec(samplesOf, payload, codec, param)
  {
    if codec.Opus? {
      var packets, _ := CollectOpus(payload);
      var total: nat := 0;
      for n := 0 to |packets|
        invariant total == PacketSamples(samplesOf, packets[..n])
      {
        var samples := samplesOf(packets[n]);
        total := total + if samples.Some? then samples.value else 960;
        assert packets[..n + 1][..n] == packets[..n];
      }
      assert packets[..|packets|] == packets;
      ms := total / 48;
    } else if codec.Codec2? {
      var sizes := Codec2FrameSizes(param);
      ms := if sizes.None? then 0 else |payload| / sizes.value.1 * sizes.value.0 / 8;
    } else if codec.AmrNb? {
      var frames, _ := CollectAmrnb(payload);
      ms := |frames| * 20;
    } else {
      ms := 0;
    }
  }

  function DurationWithGaps(samplesOf: Bytes -> Option<nat>, payload: Bytes, gaps: seq<Gap>, codec: VoiceCodec, param: byte)
    : nat
  {
    if gaps != [] && codec.AmrNb? && AmrnbFrameBytes(param).Some? then |payload| / AmrnbFrameBytes(param).value * 20
    else PayloadDurationSpec(samplesOf, payload, codec, param)
  }
}
