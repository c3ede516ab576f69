/** What concealment keeps: the timing of a clip, and every frame no gap touches. */
module DecodeGuarantees {
  import opened Words
  import opened Header
  import opened Frames
  import opened Pcm
  import opened Decode

  /** `partial` is `original` with anything at all inside the gaps. */
  ghost predicate Patched(original: Bytes, partial: Bytes, gaps: seq<Gap>) {
    |original| == |partial| && forall b :: 0 <= b < |original| && !InGap(b, gaps) ==> partial[b] == original[b]
  }

  lemma CleanSlice(original: Bytes, partial: Bytes, gaps: seq<Gap>, i: nat, size: nat)
    requires Patched(original, partial, gaps) && i + size <= |original| && !FrameOverlapsGap(i, size, gaps)
    ensures partial[i..i + size] == original[i..i + size]
  {
    forall b | i <= b < i + size ensures partial[b] == original[b] {
      assert !InGap(b, gaps);
    }
  }

  // ----- the bytes of a gap are never heard

  lemma {:induction false} AmrnbFeedsPatched(original: Bytes, partial: Bytes, size: nat, gaps: seq<Gap>, i: nat)
    requires size > 0 && Patched(original, partial, gaps)
    ensures AmrnbFeeds(partial, size, gaps, i) == AmrnbFeeds(original, size, gaps, i)
    decreases |original| - i
  {
    if i + size <= |original| {
      AmrnbFeedsPatched(original, partial, size, gaps, i + size);
      if !FrameOverlapsGap(i, size, gaps) {
        CleanSlice(original, partial, gaps, i, size);
      }
    }
  }

  lemma {:induction false} Codec2Patched(dec: Decoder, original: Bytes, partial: Bytes, sizes: (nat, nat), gaps: seq<Gap>,
                                         i: nat, fed: seq<Bytes>)
    requires sizes.1 > 0 && Patched(original, partial, gaps)
    ensures Codec2Pcm(dec, partial, sizes, gaps, i, fed) == Codec2Pcm(dec, original, sizes, gaps, i, fed)
    decreases |original| - i
  {
    if i + sizes.1 <= |original| {
      if FrameOverlapsGap(i, sizes.1, gaps) {
        Codec2Patched(dec, original, partial, sizes, gaps, i + sizes.1, fed);
      } else {
        CleanSlice(original, partial, gaps, i, sizes.1);
        Codec2Patched(dec, original, partial, sizes, gaps, i + sizes.1, fed + [original[i..i + sizes.1]]);
      }
    }
  }

  /** Whatever stands inside the gaps, the decoded clip is the one of the original bytes with the same gaps. */
  lemma GapBytesAreNeverHeard(dec: Decoder, original: Bytes, partial: Bytes, param: byte, gaps: seq<Gap>)
    requires Patched(original, partial, gaps)
    ensures Codec2Decoded(dec, partial, param, gaps) == Codec2Decoded(dec, original, param, gaps)
    ensures AmrnbDecoded(dec, partial, param, gaps) == AmrnbDecoded(dec, original, param, gaps)
    ensures DecodeCodec2Spec(dec, partial, param, gaps) == DecodeCodec2Spec(dec, original, param, gaps)
    ensures DecodeAmrnbSpec(dec, partial, param, gaps) == DecodeAmrnbSpec(dec, original, param, gaps)
  {
    if Codec2FrameSizes(param).Some? {
      Codec2Patched(dec, original, partial, Codec2FrameSizes(param).value, gaps, 0, []);
    }
    if gaps == [] {
      NothingMissing(original, partial);
    } else if param < 8 {
      AmrnbFeedsPatched(original, partial, AmrnbFrameBytes(param).value, gaps, 0);
    }
  }

  // ----- the two walks of a single-mode clip

  /** What an encoder with one fixed mode and no DTX writes. */
  ghost predicate SingleMode(frames: seq<Bytes>, mode: nat) {
    mode < 8 && forall f :: f in frames ==> SelfDescribed(f) && TocMode(f[0]) == mode
  }

  lemma {:induction false} UniformLength(frames: seq<Bytes>, size: nat)
    requires forall f :: f in frames ==> |f| == size
    ensures |Flatten(frames)| == |frames| * size
  {
    if frames != [] {
      assert frames[0] in frames;
      UniformLength(frames[1..], size);
      MulSucc(|frames[1..]|, size);
    }
  }

  lemma {:induction false} UniformSlice(frames: seq<Bytes>, size: nat, k: nat)
    requires k < |frames| && forall f :: f in frames ==> |f| == size
    ensures k * size + size <= |Flatten(frames)| && Flatten(frames)[k * size..k * size + size] == frames[k]
  {
    var head, tail := frames[0], Flatten(frames[1..]);
    assert head in frames;
    assert Flatten(frames) == head + tail;
    if k == 0 {
      assert (head + tail)[..size] == head;
    } else {
      UniformSlice(frames[1..], size, k - 1);
      MulSucc(k - 1, size);
      Later(head, tail, (k - 1) * size, size);
    }
  }

  lemma Later<T>(head: seq<T>, tail: seq<T>, at: nat, len: nat)
    requires at + len <= |tail|
    ensures (head + tail)[|head| + at..|head| + at + len] == tail[at..at + len]
  {
  }

  /** What the stride walk should feed for each frame of the clip. */
  function Concealed(frames: seq<Bytes>, size: nat, gaps: seq<Gap>): seq<Bytes> {
    seq(|frames|, k requires 0 <= k < |frames| => if FrameOverlapsGap(k * size, size, gaps) then NO_DATA else frames[k])
  }

  lemma {:induction false} StridesFeedFrames(frames: seq<Bytes>, payload: Bytes, size: nat, gaps: seq<Gap>, k: nat)
    requires size > 0 && k <= |frames| && forall f :: f in frames ==> |f| == size
    requires payload == Flatten(frames) && |payload| == |frames| * size
    ensures AmrnbFeeds(payload, size, gaps, k * size) == Concealed(frames, size, gaps)[k..]
    decreases |frames| - k
  {
    if k < |frames| {
      UniformSlice(frames, size, k);
      StridesFeedFrames(frames, payload, size, gaps, k + 1);
      MulSucc(k, size);
    }
  }

  lemma StridesSeeFrames(frames: seq<Bytes>, mode: nat, gaps: seq<Gap>)
    requires SingleMode(frames, mode)
    ensures AmrnbFeeds(Flatten(frames), AmrnbFrameBytes(mode).value, gaps, 0)
         == Concealed(frames, AmrnbFrameBytes(mode).value, gaps)
  {
    var size := AmrnbFrameBytes(mode).value;
    UniformLength(frames, size);
    StridesFeedFrames(frames, Flatten(frames), size, gaps, 0);
  }

  /**
    The self-describing walk and the fixed-stride walk agree on every single-mode clip: both see exactly the encoder's
    frames, and with gaps each frame is fed unchanged unless a gap hits it, in which case NO_DATA is fed in its place. The
    bytes inside the gaps may be anything.
   */
  lemma WalksAgree(frames: seq<Bytes>, mode: nat, partial: Bytes, gaps: seq<Gap>)
    requires SingleMode(frames, mode) && Patched(Flatten(frames), partial, gaps)
    ensures AmrnbWalk(Flatten(frames)) == (frames, [])
    ensures AmrnbFeeds(Flatten(frames), AmrnbFrameBytes(mode).value, [], 0) == frames
    ensures AmrnbFeeds(partial, AmrnbFrameBytes(mode).value, gaps, 0)
         == Concealed(frames, AmrnbFrameBytes(mode).value, gaps)
  {
    var size := AmrnbFrameBytes(mode).value;
    assert Flatten(frames) + [] == Flatten(frames) && frames + AmrnbWalk([]).0 == frames;
    AmrnbWalkFinds(frames, []);
    StridesSeeFrames(frames, mode, []);
    assert Concealed(frames, size, []) == frames;
    StridesSeeFrames(frames, mode, gaps);
    AmrnbFeedsPatched(Flatten(frames), partial, size, gaps, 0);
  }

  // ----- timing

  lemma {:induction false} AmrnbFeedsCount(payload: Bytes, size: nat, gaps: seq<Gap>, i: nat)
    requires size > 0 && i <= |payload|
    ensures |AmrnbFeeds(payload, size, gaps, i)| == (|payload| - i) / size
    decreases |payload| - i
  {
    QuotientStep(|payload| - i, size);
    if i + size <= |payload| {
      AmrnbFeedsCount(payload, size, gaps, i + size);
    }
  }

  lemma QuotientStep(n: nat, size: nat)
    requires size > 0
    ensures n / size == if n < size then 0 else 1 + (n - size) / size
  {
    if n < size {
      DivUnique(n, size, 0);
    } else {
      var q := (n - size) / size;
      assert n - size == q * size + (n - size) % size;
      assert (q + 1) * size == q * size + size && (q + 2) * size == q * size + size + size;
      DivUnique(n, size, q + 1);
    }
  }

  lemma {:induction false} Codec2PcmLength(dec: Decoder, payload: Bytes, sizes: (nat, nat), gaps: seq<Gap>, i: nat,
                                           fed: seq<Bytes>)
    requires sizes.1 > 0 && i <= |payload|
    ensures |Codec2Pcm(dec, payload, sizes, gaps, i, fed)| == (|payload| - i) / sizes.1 * sizes.0
    decreases |payload| - i
  {
    var n := |payload| - i;
    QuotientStep(n, sizes.1);
    if i + sizes.1 <= |payload| {
      var next := (n - sizes.1) / sizes.1;
      assert (1 + next) * sizes.0 == sizes.0 + next * sizes.0;
      if FrameOverlapsGap(i, sizes.1, gaps) {
        Codec2PcmLength(dec, payload, sizes, gaps, i + sizes.1, fed);
      } else {
        Codec2PcmLength(dec, payload, sizes, gaps, i + sizes.1, fed + [payload[i..i + sizes.1]]);
      }
    }
  }

  /**
    For any AMR-NB bytes and any gaps: whenever decoding succeeds the duration estimate is exactly what the decoder
    answered with, at 8 samples a millisecond; with an exact resampler, 48 are played.
   */
  lemma AmrnbEstimateIsExact(dec: Decoder, samplesOf: Bytes -> Option<nat>, payload: Bytes, param: byte, gaps: seq<Gap>)
    requires DecodeAmrnbSpec(dec, payload, param, gaps).Ok?
    ensures AmrnbDecoded(dec, payload, param, gaps).Ok?
    ensures |AmrnbDecoded(dec, payload, param, gaps).value|
         == 8 * DurationWithGaps(samplesOf, payload, gaps, VoiceCodec.AmrNb, param)
    ensures |DecodeAmrnbSpec(dec, payload, param, gaps).value|
         == 48 * DurationWithGaps(samplesOf, payload, gaps, VoiceCodec.AmrNb, param)
  {
    if gaps != [] {
      AmrnbFeedsCount(payload, AmrnbFrameBytes(param).value, gaps, 0);
    }
    PlaybackLength(AmrnbDecoded(dec, payload, param, gaps).value);
  }

  /** For any Codec2 bytes and any gaps, in every mode: the same. */
  lemma Codec2EstimateIsExact(dec: Decoder, samplesOf: Bytes -> Option<nat>, payload: Bytes, param: byte, gaps: seq<Gap>)
    requires DecodeCodec2Spec(dec, payload, param, gaps).Ok?
    ensures Codec2Decoded(dec, payload, param, gaps).Ok?
    ensures |Codec2Decoded(dec, payload, param, gaps).value|
         == 8 * DurationWithGaps(samplesOf, payload, gaps, VoiceCodec.Codec2, param)
    ensures |DecodeCodec2Spec(dec, payload, param, gaps).value|
         == 48 * DurationWithGaps(samplesOf, payload, gaps, VoiceCodec.Codec2, param)
  {
    var sizes := Codec2FrameSizes(param).value;
    Codec2PcmLength(dec, payload, sizes, gaps, 0, []);
    PlaybackLength(Codec2Decoded(dec, payload, param, gaps).value);
    WholeMilliseconds(|payload| / sizes.1, sizes.0);
  }

  /** The samples of two stretches of an Opus stream add up. */
  lemma {:induction false} PacketSamplesAdd(samplesOf: Bytes -> Option<nat>, p: seq<Bytes>, q: seq<Bytes>)
    ensures PacketSamples(samplesOf, p + q) == PacketSamples(samplesOf, p) + PacketSamples(samplesOf, q)
  {
    if q == [] {
      assert p + q == p;
    } else {
      PacketSamplesAdd(samplesOf, p, q[..|q| - 1]);
      assert (p + q)[..|p + q| - 1] == p + q[..|q| - 1];
    }
  }

  /** A packet counts for what its header says, and for 20 ms, 960 samples, if that cannot be read. */
  lemma OnePacket(samplesOf: Bytes -> Option<nat>, packet: Bytes)
    ensures PacketSamples(samplesOf, [packet]) == match samplesOf(packet) { case Some(n) => n case None => 960 }
  {
    assert [packet][..0] == [] && PacketSamples(samplesOf, []) == 0;
  }

  lemma {:induction false} TwentyEach(samplesOf: Bytes -> Option<nat>, packets: seq<Bytes>)
    requires forall p :: p in packets ==> samplesOf(p) == None || samplesOf(p) == Some(960)
    ensures PacketSamples(samplesOf, packets) == 960 * |packets|
  {
    if packets != [] {
      var before, last := packets[..|packets| - 1], packets[|packets| - 1];
      assert last in packets;
      TwentyEach(samplesOf, before);
    }
  }

  /**
    The Opus estimate of a written stream: the samples of its packets, added up one by one, at 48 a millisecond and rounded down;
    20 ms a packet if every header says so or cannot be read.
   */
  lemma OpusEstimate(samplesOf: Bytes -> Option<nat>, packets: seq<Bytes>, param: byte, gaps: seq<Gap>)
    requires forall p :: p in packets ==> |p| < 0x1_0000
    ensures var ms := DurationWithGaps(samplesOf, Flatten(PrefixedAll(packets)), gaps, VoiceCodec.Opus, param);
            && 48 * ms <= PacketSamples(samplesOf, packets) < 48 * ms + 48
            && ((forall p :: p in packets ==> samplesOf(p) == None || samplesOf(p) == Some(960)) ==> ms == 20 * |packets|)
  {
    OpusWalkFinds(packets, []);
    assert Flatten(PrefixedAll(packets)) + [] == Flatten(PrefixedAll(packets)) && packets + OpusWalk([]).0 == packets;
    if forall p :: p in packets ==> samplesOf(p) == None || samplesOf(p) == Some(960) {
      TwentyEach(samplesOf, packets);
    }
  }

  /** Estimates without a decode behind them: nothing for a codec or mode unknown, and for AMR-NB by the frame size or by the walk. */
  lemma OtherEstimates(samplesOf: Bytes -> Option<nat>, payload: Bytes, gaps: seq<Gap>, codec: VoiceCodec, param: byte)
    ensures var ms := DurationWithGaps(samplesOf, payload, gaps, codec, param);
            && (!codec.Opus? && !codec.Codec2? && !codec.AmrNb? ==> ms == 0)
            && (codec.Codec2? && param >= 6 ==> ms == 0)
            && (codec.AmrNb? && (gaps == [] || (param > 8 && param != 15)) ==> ms == 20 * |AmrnbWalk(payload).0|)
            && (codec.AmrNb? && gaps != [] && param == 8 ==> ms == 20 * (|payload| / 6))
            && (codec.AmrNb? && gaps != [] && param == 15 ==> ms == 20 * |payload|)
  {
  }

  lemma WholeMilliseconds(n: nat, samples: nat)
    requires samples == 160 || samples == 320
    ensures n * samples == 8 * (n * samples / 8)
  {
    if samples == 160 {
      EightTimes(n * samples, 20 * n);
    } else {
      EightTimes(n * samples, 40 * n);
    }
  }

  lemma EightTimes(total: nat, eighth: nat)
    requires total == 8 * eighth
    ensures total == 8 * (total / 8)
  {
  }

  lemma NothingMissing(original: Bytes, partial: Bytes)
    requires Patched(original, partial, [])
    ensures partial == original
  {
    forall b | 0 <= b < |original| ensures partial[b] == original[b] {
      assert !InGap(b, []);
    }
  }

  lemma WholeClip(frames: seq<Bytes>, size: nat, payload: Bytes)
    requires size > 0 && |payload| == |Flatten(frames)| && forall f :: f in frames ==> |f| == size
    ensures |payload| / size == |frames|
  {
    UniformLength(frames, size);
    MulSucc(|frames|, size);
    DivUnique(|payload|, size, |frames|);
  }

  lemma {:induction false} ClipDuration(samplesOf: Bytes -> Option<nat>, frames: seq<Bytes>, mode: byte, partial: Bytes, gaps: seq<Gap>)
    requires SingleMode(frames, mode) && Patched(Flatten(frames), partial, gaps)
    ensures DurationWithGaps(samplesOf, partial, gaps, VoiceCodec.AmrNb, mode) == 20 * |frames|
    ensures gaps == [] ==> AmrnbWalk(partial).1 == []
  {
    if gaps == [] {
      NothingMissing(Flatten(frames), partial);
      assert Flatten(frames) + [] == partial;
      AmrnbWalkFinds(frames, []);
    } else {
      WholeClip(frames, AmrnbFrameBytes(mode).value, partial);
    }
  }

  /** Losing chunks changes neither the samples decoded of a single-mode clip nor its duration estimate, nor, played exactly, its length. */
  lemma {:induction false} LossKeepsTiming(dec: Decoder, samplesOf: Bytes -> Option<nat>, frames: seq<Bytes>, mode: byte,
                                           partial: Bytes, gaps: seq<Gap>)
    requires SingleMode(frames, mode) && Patched(Flatten(frames), partial, gaps)
    ensures DurationWithGaps(samplesOf, partial, gaps, VoiceCodec.AmrNb, mode) == 20 * |frames|
    ensures AmrnbDecoded(dec, partial, mode, gaps).Ok? && |AmrnbDecoded(dec, partial, mode, gaps).value| == 160 * |frames|
    ensures DecodeAmrnbSpec(dec, partial, mode, gaps).Ok?
    ensures |DecodeAmrnbSpec(dec, partial, mode, gaps).value| == 960 * |frames|
  {
    ClipDuration(samplesOf, frames, mode, partial, gaps);
    AmrnbEstimateIsExact(dec, samplesOf, partial, mode, gaps);
  }

  // ----- Codec2, frame by frame

  /** The frames among the first `n` that no gap touches: all the decoder has been fed by then. */
  function Untouched(payload: Bytes, size: nat, gaps: seq<Gap>, n: nat): seq<Bytes>
    requires n * size <= |payload|
  {
    if n == 0 then []
    else
      MulSucc(n - 1, size);
      var before := Untouched(payload, size, gaps, n - 1);
      if FrameOverlapsGap((n - 1) * size, size, gaps) then before
      else before + [payload[(n - 1) * size..n * size]]
  }

  /** What frame `k` should contribute. */
  function Codec2Block(dec: Decoder, payload: Bytes, sizes: (nat, nat), gaps: seq<Gap>, k: nat): Pcm16
    requires (k + 1) * sizes.1 <= |payload|
  {
    if FrameOverlapsGap(k * sizes.1, sizes.1, gaps) then seq(sizes.0, _ => 0)
    else Block(dec, Untouched(payload, sizes.1, gaps, k + 1), sizes.0)
  }

  lemma Codec2Unfold(dec: Decoder, payload: Bytes, sizes: (nat, nat), gaps: seq<Gap>, m: nat)
    requires sizes.1 > 0 && m * sizes.1 <= (m + 1) * sizes.1 <= |payload|
    ensures Codec2Pcm(dec, payload, sizes, gaps, m * sizes.1, Untouched(payload, sizes.1, gaps, m))
         == Codec2Block(dec, payload, sizes, gaps, m)
            + Codec2Pcm(dec, payload, sizes, gaps, (m + 1) * sizes.1, Untouched(payload, sizes.1, gaps, m + 1))
  {
    MulSucc(m, sizes.1);
  }

  /** The blocks of a clip stand one after the other. */
  lemma BlockAt(block: Pcm16, rest: Pcm16, d: nat, n: nat, target: Pcm16)
    requires |block| == n && (d == 0 ==> target == block)
    requires d > 0 ==> (d - 1) * n + n <= |rest| && rest[(d - 1) * n..(d - 1) * n + n] == target
    ensures d * n + n <= |block + rest| && (block + rest)[d * n..d * n + n] == target
  {
    if d == 0 {
      assert (block + rest)[..n] == block;
    } else {
      MulSucc(d - 1, n);
      Later(block, rest, (d - 1) * n, n);
    }
  }

  lemma {:induction false} Codec2BlocksFrom(dec: Decoder, payload: Bytes, sizes: (nat, nat), gaps: seq<Gap>, m: nat, k: nat)
    requires sizes.1 > 0 && m <= k && m * sizes.1 <= (k + 1) * sizes.1 <= |payload|
    ensures var pcm := Codec2Pcm(dec, payload, sizes, gaps, m * sizes.1, Untouched(payload, sizes.1, gaps, m));
            && (k - m) * sizes.0 + sizes.0 <= |pcm|
            && pcm[(k - m) * sizes.0..(k - m) * sizes.0 + sizes.0] == Codec2Block(dec, payload, sizes, gaps, k)
    decreases k - m
  {
    MulSucc(m, sizes.1);
    MulMono(m + 1, k + 1, sizes.1);
    Codec2Unfold(dec, payload, sizes, gaps, m);
    var block := Codec2Block(dec, payload, sizes, gaps, m);
    var rest := Codec2Pcm(dec, payload, sizes, gaps, (m + 1) * sizes.1, Untouched(payload, sizes.1, gaps, m + 1));
    if m < k {
      Codec2BlocksFrom(dec, payload, sizes, gaps, m + 1, k);
    }
    BlockAt(block, rest, k - m, sizes.0, Codec2Block(dec, payload, sizes, gaps, k));
  }

  /**
    Codec2 with gaps, sample by sample: block `k` is silence exactly when a gap touches frame `k`, and otherwise the decoder's
    answer to the frames of the original that no gap touched, up to that one, whatever stands in the gaps.
   */
  lemma {:induction false} Codec2Blocks(dec: Decoder, original: Bytes, partial: Bytes, sizes: (nat, nat), gaps: seq<Gap>, k: nat,
                                        j: nat)
    requires sizes.1 > 0 && j < sizes.0 && (k + 1) * sizes.1 <= |original| && Patched(original, partial, gaps)
    ensures var pcm := Codec2Pcm(dec, partial, sizes, gaps, 0, []);
            && k * sizes.0 + sizes.0 <= |pcm|
            && pcm[k * sizes.0 + j] == if FrameOverlapsGap(k * sizes.1, sizes.1, gaps) then 0
                                       else dec(Untouched(original, sizes.1, gaps, k + 1), j)
  {
    Codec2Patched(dec, original, partial, sizes, gaps, 0, []);
    Codec2BlocksFrom(dec, original, sizes, gaps, 0, k);
    assert Codec2Block(dec, original, sizes, gaps, k)[j]
        == Codec2Pcm(dec, original, sizes, gaps, 0, [])[k * sizes.0..k * sizes.0 + sizes.0][j];
  }
}
