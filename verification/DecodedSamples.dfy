/** What a decoded clip holds, sample by sample: the decoder's own answers, and what is played of them at 48 kHz. */
module DecodedSamples {
  import opened Words
  import opened Header
  import opened Frames
  import opened Pcm
  import opened Decode
  import opened DecodeGuarantees
  import R = Resampler
  import S = ResamplerStream

  // ----- from 8 kHz to 48 kHz

  lemma FloatMean(a: i16, b: i16, j: nat, y: real)
    requires j < 6 && R.Weighted(ToFloat(a), ToFloat(b), 8_000 * j, 48_000, y)
    ensures y * 196_602.0 == (a * (6 - j) + b * j) as real
  {
    var fa, fb := ToFloat(a), ToFloat(b);
    assert fa * 32767.0 == a as real && fb * 32767.0 == b as real;
    if j == 0 {
    } else if j == 1 {
    } else if j == 2 {
    } else if j == 3 {
    } else if j == 4 {
    } else {
    }
  }

  /** `total / 6` as the cast to 16 bits leaves it: clamped to 32767 either way, and cut off toward zero. */
  ghost predicate Sixth(total: int, q: int) {
    if total > 196_602 then q == 32767
    else if total >= 0 then 6 * q <= total < 6 * q + 6
    else if total >= -196_602 then 6 * q - 6 < total <= 6 * q
    else q == -32767
  }

  lemma QuantisedSixth(y: real, total: int)
    requires y * 196_602.0 == total as real
    ensures Sixth(total, Quantise(y))
  {
    var q := Quantise(y);
    var scaled := Clamp(y) * 32767.0;
  }

  lemma PlayedAt(pcm: Pcm16, k: nat, j: nat)
    requires k < |pcm| && j < 6
    ensures |Playback(pcm)| == 6 * |pcm|
    ensures var r := PlaybackRates();
            var out := R.PushSpec(r, R.Fresh(r), ToFloats(pcm)).1;
            && |out| == 6 * |pcm|
            && R.Weighted(ToFloat(pcm[k]), ToFloat(pcm[if k + 1 < |pcm| then k + 1 else k]), 8_000 * j, 48_000, out[6 * k + j])
            && Playback(pcm)[6 * k + j] == Quantise(out[6 * k + j])
  {
    var r := PlaybackRates();
    PlaybackLength(pcm);
    R.PushInterpolates(r, R.Fresh(r), ToFloats(pcm), 6 * k + j, k, 8_000 * j);
  }

  /**
    What is played of a decoded sample: six samples on the straight line to the next one, each cut off toward zero; after the last
    sample the line is level.
   */
  lemma PlaybackExact(pcm: Pcm16, k: nat, j: nat)
    requires k < |pcm| && j < 6
    ensures |Playback(pcm)| == 6 * |pcm|
    ensures var next := if k + 1 < |pcm| then pcm[k + 1] else pcm[k];
            Sixth(pcm[k] * (6 - j) + next * j, Playback(pcm)[6 * k + j])
  {
    var r := PlaybackRates();
    var next := if k + 1 < |pcm| then pcm[k + 1] else pcm[k];
    PlayedAt(pcm, k, j);
    var y := R.PushSpec(r, R.Fresh(r), ToFloats(pcm)).1[6 * k + j];
    FloatMean(pcm[k], next, j, y);
    QuantisedSixth(y, pcm[k] * (6 - j) + next * j);
  }

  /** So every sixth sample is a decoded one, and the five after it lie between that and the next. */
  lemma PlaybackKeepsSamples(pcm: Pcm16, k: nat, j: nat)
    requires k < |pcm| && j < 6
    ensures |Playback(pcm)| == 6 * |pcm|
    ensures Playback(pcm)[6 * k] == Max(pcm[k], -32767)
    ensures var a, b := Max(pcm[k], -32767), Max(if k + 1 < |pcm| then pcm[k + 1] else pcm[k], -32767);
            Min(a, b) <= Playback(pcm)[6 * k + j] <= Max(a, b)
  {
    PlaybackExact(pcm, k, 0);
    PlaybackExact(pcm, k, j);
    var a, b := pcm[k], if k + 1 < |pcm| then pcm[k + 1] else pcm[k];
    SixthBetween(a, b, j, Playback(pcm)[6 * k + j]);
  }

  lemma SixthBetween(a: i16, b: i16, j: nat, q: int)
    requires j < 6 && Sixth(a * (6 - j) + b * j, q)
    ensures Min(Max(a, -32767), Max(b, -32767)) <= q <= Max(Max(a, -32767), Max(b, -32767))
  {
    if j == 0 {
    } else if j == 1 {
    } else if j == 2 {
    } else if j == 3 {
    } else if j == 4 {
    } else {
    }
  }

  /** A Codec2 payload is decoded in the six modes there are, and every sixth sample played is one the decoder answered with, or silence. */
  lemma Codec2Played(dec: Decoder, original: Bytes, partial: Bytes, param: byte, gaps: seq<Gap>, k: nat, j: nat)
    requires Patched(original, partial, gaps)
    ensures if param >= 6 then DecodeCodec2Spec(dec, partial, param, gaps) == Err(UnknownMode(param))
            else
              var (samples, bytes) := Codec2FrameSizes(param).value;
              var r := DecodeCodec2Spec(dec, partial, param, gaps);
              && r.Ok? && |r.value| == 6 * (|partial| / bytes * samples)
              && (j < samples && (k + 1) * bytes <= |original| ==>
                    && 6 * (k * samples + j) < |r.value|
                    && r.value[6 * (k * samples + j)]
                       == if FrameOverlapsGap(k * bytes, bytes, gaps) then 0
                          else Max(dec(Untouched(original, bytes, gaps, k + 1), j), -32767))
  {
    if param < 6 {
      var (samples, bytes) := Codec2FrameSizes(param).value;
      var pcm := Codec2Decoded(dec, partial, param, gaps).value;
      Codec2PcmLength(dec, partial, (samples, bytes), gaps, 0, []);
      PlaybackLength(pcm);
      if j < samples && (k + 1) * bytes <= |original| {
        Codec2Blocks(dec, original, partial, (samples, bytes), gaps, k, j);
        PlaybackKeepsSamples(pcm, k * samples + j, 0);
      }
    }
  }

  // ----- AMR-NB at 8 kHz

  lemma {:induction false} BlocksAt(dec: Decoder, feeds: seq<Bytes>, n: nat, k: nat, j: nat)
    requires k < n <= |feeds| && j < 160
    ensures Blocks(dec, feeds, n)[160 * k + j] == dec(feeds[..k + 1], j)
  {
    if k < n - 1 {
      BlocksAt(dec, feeds, n - 1, k, j);
    }
  }

  /** Stride `k` of the payload, replaced by an empty NO_DATA frame if a gap hits it. */
  function StrideAt(payload: Bytes, size: nat, gaps: seq<Gap>, k: nat): Bytes {
    if k * size + size > |payload| then []
    else if FrameOverlapsGap(k * size, size, gaps) then [0x7C]
    else payload[k * size..k * size + size]
  }

  lemma StrideBound(len: nat, size: nat, k: nat)
    requires size > 0 && k < len / size
    ensures 0 <= k * size && k * size + size <= len
  {
    MulMono(k + 1, len / size, size);
    MulSucc(k, size);
    assert len / size * size <= len;
  }

  lemma {:induction false} FeedsAt(payload: Bytes, size: nat, gaps: seq<Gap>, i: nat, m: nat, k: nat)
    requires size > 0 && i == m * size <= |payload| && k < |AmrnbFeeds(payload, size, gaps, i)|
    ensures AmrnbFeeds(payload, size, gaps, i)[k] == StrideAt(payload, size, gaps, m + k)
    decreases k
  {
    if k > 0 {
      MulSucc(m, size);
      FeedsAt(payload, size, gaps, i + size, m + 1, k - 1);
    }
  }

  /**
    What the AMR-NB decoder is fed, one frame after the other: without gaps the frames of the walk, and with gaps one frame for
    each whole stride of the payload.
   */
  ghost predicate Fed(fed: seq<Bytes>, payload: Bytes, param: byte, gaps: seq<Gap>) {
    if gaps == [] then fed == AmrnbWalk(payload).0
    else
      && param < 8 && |fed| == |payload| / AmrnbFrameBytes(param).value
      && forall k :: 0 <= k < |fed| ==> fed[k] == StrideAt(payload, AmrnbFrameBytes(param).value, gaps, k)
  }

  lemma FeedsAreFed(payload: Bytes, size: nat, gaps: seq<Gap>, fed: seq<Bytes>)
    requires size > 0 && |fed| == |payload| / size
    requires forall k :: 0 <= k < |fed| ==> fed[k] == StrideAt(payload, size, gaps, k)
    ensures AmrnbFeeds(payload, size, gaps, 0) == fed
  {
    AmrnbFeedsCount(payload, size, gaps, 0);
    forall k | 0 <= k < |fed| ensures AmrnbFeeds(payload, size, gaps, 0)[k] == fed[k] {
      FeedsAt(payload, size, gaps, 0, 0, k);
    }
  }

  /**
    When an AMR-NB payload is decoded, and with which error otherwise: with gaps the mode alone decides; without, what the
    walk leaves does, and it leaves nothing exactly when the payload is a list of self-described frames.
   */
  lemma AmrnbOutcome(dec: Decoder, payload: Bytes, param: byte, gaps: seq<Gap>)
    ensures var r := AmrnbDecoded(dec, payload, param, gaps);
            if gaps != [] then (if param < 8 then r.Ok? else r == Err(UnknownMode(param)))
            else (r.Ok? <==> exists frames: seq<Bytes> :: Flatten(frames) == payload && forall f :: f in frames ==> SelfDescribed(f))
  {
    if gaps == [] {
      AmrnbWalkCovers(payload);
      var walked := AmrnbWalk(payload).0;
      if AmrnbWalk(payload).1 == [] {
        assert Flatten(walked) == payload;
      }
      if frames: seq<Bytes> :| Flatten(frames) == payload && forall f :: f in frames ==> SelfDescribed(f) {
        assert Flatten(frames) + [] == payload;
        AmrnbWalkFinds(frames, []);
      }
    }
  }

  lemma NoneInFront(rest: Bytes)
    requires forall n :: 0 < n <= |rest| ==> !SelfDescribed(rest[..n])
    ensures AmrnbWalk(rest) == ([], rest)
  {
    assert AmrnbFront(rest).Some? ==> SelfDescribed(rest[..AmrnbFront(rest).value]);
  }

  /** A payload cut off or broken off after some frames: the first byte left over says which error it is. */
  lemma AmrnbRefused(dec: Decoder, frames: seq<Bytes>, rest: Bytes, param: byte)
    requires rest != [] && forall f :: f in frames ==> SelfDescribed(f)
    requires forall n :: 0 < n <= |rest| ==> !SelfDescribed(rest[..n])
    ensures var r := AmrnbDecoded(dec, Flatten(frames) + rest, param, []);
            r == if TocMode(rest[0]) <= 8 || TocMode(rest[0]) == 15 then Err(TruncatedFrame) else Err(UnsupportedToc(rest[0]))
  {
    AmrnbWalkFinds(frames, rest);
    NoneInFront(rest);
  }

  /** Sample `j` of frame `k` is what the decoder answers to the frames up to that one, for any payload and any gaps. */
  lemma AmrnbSamples(dec: Decoder, payload: Bytes, param: byte, gaps: seq<Gap>, fed: seq<Bytes>, k: nat, j: nat)
    requires AmrnbDecoded(dec, payload, param, gaps).Ok? && Fed(fed, payload, param, gaps)
    ensures var pcm := AmrnbDecoded(dec, payload, param, gaps).value;
            && |pcm| == 160 * |fed|
            && (k < |fed| && j < 160 ==> pcm[160 * k + j] == dec(fed[..k + 1], j))
  {
    if gaps != [] {
      FeedsAreFed(payload, AmrnbFrameBytes(param).value, gaps, fed);
    }
    if k < |fed| && j < 160 {
      BlocksAt(dec, fed, |fed|, k, j);
    }
  }

  /** A single-mode clip with stretches missing: the encoder's frames, NO_DATA for those a gap hits, and the decoder's answers to them. */
  lemma ConcealedSamples(dec: Decoder, frames: seq<Bytes>, mode: byte, partial: Bytes, gaps: seq<Gap>, k: nat, j: nat)
    requires SingleMode(frames, mode) && Patched(Flatten(frames), partial, gaps) && k < |frames| && j < 160
    ensures var fed := if gaps == [] then frames else Concealed(frames, AmrnbFrameBytes(mode).value, gaps);
            var r := AmrnbDecoded(dec, partial, mode, gaps);
            r.Ok? && |r.value| == 160 * |frames| && r.value[160 * k + j] == dec(fed[..k + 1], j)
  {
    WalksAgree(frames, mode, partial, gaps);
    if gaps == [] {
      NothingMissing(Flatten(frames), partial);
      BlocksAt(dec, frames, |frames|, k, j);
    } else {
      BlocksAt(dec, Concealed(frames, AmrnbFrameBytes(mode).value, gaps), |frames|, k, j);
    }
  }

  /** And what is played of it: every sixth sample is one of those. */
  lemma AmrnbPlayed(dec: Decoder, payload: Bytes, param: byte, gaps: seq<Gap>, fed: seq<Bytes>, k: nat, j: nat)
    requires DecodeAmrnbSpec(dec, payload, param, gaps).Ok? && Fed(fed, payload, param, gaps)
    ensures var played := DecodeAmrnbSpec(dec, payload, param, gaps).value;
            && |played| == 960 * |fed|
            && (k < |fed| && j < 160 ==> played[960 * k + 6 * j] == Max(dec(fed[..k + 1], j), -32767))
  {
    AmrnbSamples(dec, payload, param, gaps, fed, k, j);
    var pcm := AmrnbDecoded(dec, payload, param, gaps).value;
    PlaybackLength(pcm);
    if k < |fed| && j < 160 {
      PlaybackKeepsSamples(pcm, 160 * k + j, 0);
    }
  }
}
