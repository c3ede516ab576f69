/**
  The streaming encoder (codec/imp.rs): resample, cut into frames, quantise, hand to the codec, collect its bytes.

  The codec library is a parameter: a function of every frame it has been given, answering the latest with bytes or with
  a failure.
 */
module Encoder {
  import opened Words
  import opened Header
  import opened Frames
  import opened Pcm
  import R = Resampler

  type Frame = Pcm16

  datatype Format =
    | OpusFormat
    | Codec2Format(samples: nat, bytes: nat)
    | AmrNbFormat(mode: byte, bytes: nat)
  {
    predicate Valid() {
      Codec2Format? ==> samples > 0
    }

    function SamplesPerFrame(): nat {
      match this
      case OpusFormat => 960
      case Codec2Format(samples, _) => samples
      case AmrNbFormat(_, _) => 160
    }
  }

  function FormatFor(codec: VoiceCodec, param: byte): (r: Result<Format, CodecError>)
    ensures r.Ok? ==> r.value.Valid()
  {
    match codec
    case Opus => Ok(OpusFormat)
    case Codec2 =>
      (match Codec2FrameSizes(param)
       case None => Err(UnknownMode(param))
       case Some(sizes) => Ok(Codec2Format(sizes.0, sizes.1)))
    case AmrNb => if param < 8 then Ok(AmrNbFormat(param, AmrnbFrameBytes(param).value)) else Err(UnknownMode(param))
    case other => Err(UnsupportedCodec(other))
  }

  const OPUS_BUFFER: nat := 1275

  function Resize<T>(s: seq<T>, n: nat, fill: T): (r: seq<T>)
    ensures |r| == n
  {
    if |s| >= n then s[..n] else s + seq(n - |s|, _ => fill)
  }

  datatype Codec = Codec(format: Format, encode: seq<Frame> -> Option<Bytes>, taps: R.Samples)
  {
    predicate Valid() {
      format.Valid() && format.SamplesPerFrame() > 0 && |taps| == R.TAPS
    }

    function Rates(): R.Rates {
      R.Rates(48_000, 8_000, taps)
    }

    /** The bytes accepted for the latest frame: what fits the Opus buffer, a whole Codec2 buffer, an AMR-NB frame of the expected size. */
    function Answer(fed: seq<Frame>): Option<Bytes> {
      match format
      case OpusFormat =>
        var a := encode(fed);
        if a.Some? then Some(a.value[..Min(|a.value|, OPUS_BUFFER)]) else None
      case Codec2Format(_, bytes) =>
        var a := encode(fed);
        Some(Resize(if a.Some? then a.value else [], bytes, 0))
      case AmrNbFormat(_, bytes) =>
        var a := encode(fed);
        if a.Some? && |a.value| == bytes then a else None
    }

    /** The answer as it is stored. */
    function Stored(answer: Bytes): Bytes {
      if format.OpusFormat? then Prefixed(answer) else answer
    }
  }

  function ToFrame(samples: R.Samples): Frame {
    seq(|samples|, i requires 0 <= i < |samples| => Quantise(samples[i]))
  }

  datatype Enc = Enc(fed: seq<Frame>, scratch: R.Samples, payload: Bytes)

  /** Encode every whole frame in `scratch`, stopping at the first the codec refuses. */
  function Drain(c: Codec, s: Enc): (Enc, bool)
    requires c.Valid()
    decreases |s.scratch|
  {
    var n := c.format.SamplesPerFrame();
    if |s.scratch| < n then (s, true)
    else
      var fed := s.fed + [ToFrame(s.scratch[..n])];
      var taken := s.(fed := fed, scratch := s.scratch[n..]);
      match c.Answer(fed)
      case None => (taken, false)
      case Some(answer) => Drain(c, taken.(payload := s.payload + c.Stored(answer)))
  }

  /** What a push adds to `scratch`, and where that leaves the resampler. */
  function Intake(c: Codec, at: R.Position, src: R.Samples): (result: (R.Position, R.Samples))
    requires c.Valid() && c.Rates().HistoryFits(at.history)
    ensures c.Rates().HistoryFits(result.0.history)
  {
    if c.format.OpusFormat? then (at, src) else R.PushSpec(c.Rates(), at, src)
  }

  /** A push: the encoder and the resampler after it, and whether the codec took every whole frame. */
  function EncPushSpec(c: Codec, s: Enc, at: R.Position, src: R.Samples): (result: (Enc, R.Position, bool))
    requires c.Valid() && c.Rates().HistoryFits(at.history)
    ensures c.Rates().HistoryFits(result.1.history)
  {
    var (at', taken) := Intake(c, at, src);
    var (next, ok) := Drain(c, s.(scratch := s.scratch + taken));
    (next, at', ok)
  }

  /** The tail of `finish`: a refused last frame is an error for Opus and quietly missing for AMR-NB. */
  function FinishSpec(c: Codec, s: Enc): (seq<Frame>, Result<Bytes, CodecError>)
    requires c.Valid()
  {
    if s.scratch == [] then (s.fed, Ok(s.payload))
    else
      var fed := s.fed + [ToFrame(Resize(s.scratch, c.format.SamplesPerFrame(), 0.0))];
      match c.Answer(fed)
      case Some(answer) => (fed, Ok(s.payload + c.Stored(answer)))
      case None => (fed, if c.format.AmrNbFormat? then Ok(s.payload) else Err(EncoderFailed))
  }

  class EncState {
    const codec: Codec
    const resampler: R.Resampler
    var fed: seq<Frame>
    var scratch: R.Samples
    var payload: Bytes

    ghost predicate Valid()
      reads this, resampler
    {
      codec.Valid() && resampler.Valid() && resampler.rates == codec.Rates()
    }

    function State(): Enc
      reads this
    {
      Enc(fed, scratch, payload)
    }

    constructor (codec: Codec)
      requires codec.Valid()
      ensures Valid() && fresh(resampler) && this.codec == codec
      ensures State() == Enc([], [], []) && resampler.At() == R.Fresh(codec.Rates())
    {
      this.codec := codec;
      resampler := new R.Resampler(48_000, 8_000, codec.taps);
      fed, scratch, payload := [], [], [];
    }

    /** Take one frame off `scratch` and encode it. */
    method EncodeFrame() returns (ok: bool)
      requires Valid() && |scratch| >= codec.format.SamplesPerFrame()
      modifies this
      ensures Valid()
      ensures var n := codec.format.SamplesPerFrame();
              var answer := codec.Answer(fed);
              && fed == old(fed) + [ToFrame(old(scratch)[..n])] && scratch == old(scratch)[n..]
              && ok == answer.Some? && payload == if ok then old(payload) + codec.Stored(answer.value) else old(payload)
    {
      var n := codec.format.SamplesPerFrame();
      var frame := QuantiseFrame(scratch[..n]);
      scratch := scratch[n..];
      fed := fed + [frame];
      var answer := codec.Answer(fed);
      if answer.None? {
        return false;
      }
      payload := payload + codec.Stored(answer.value);
      ok := true;
    }

    static method QuantiseFrame(samples: R.Samples) returns (frame: Frame)
      ensures frame == ToFrame(samples)
    {
      frame := [];
      for i := 0 to |samples|
        invariant frame == ToFrame(samples[..i])
      {
        frame := frame + [Quantise(samples[i])];
      }
      assert samples[..|samples|] == samples;
    }

    method Push(src: R.Samples) returns (r: Result<(), CodecError>)
      requires Valid()
      modifies this, resampler
      ensures Valid()
      ensures var (next, at, ok) := EncPushSpec(codec, old(State()), old(resampler.At()), src);
              State() == next && resampler.At() == at && r == if ok then Ok(()) else Err(EncoderFailed)
    {
      if codec.format.OpusFormat? {
        scratch := scratch + src;
      } else {
        scratch := resampler.Push(src, scratch);
      }
      ghost var start, at := State(), resampler.At();
      while |scratch| >= codec.format.SamplesPerFrame()
        invariant Valid() && resampler.At() == at && Drain(codec, State()) == Drain(codec, start)
        decreases |scratch|
      {
        var ok := EncodeFrame();
        if !ok {
          return Err(EncoderFailed);
        }
      }
      r := Ok(());
    }

    method Finish() returns (r: Result<Bytes, CodecError>)
      requires Valid()
      modifies this
      ensures Valid() && resampler.At() == old(resampler.At())
      ensures (fed, r) == FinishSpec(codec, old(State()))
    {
      if scratch != [] {
        scratch := Resize(scratch, codec.format.SamplesPerFrame(), 0.0);
        assert scratch[..codec.format.SamplesPerFrame()] == scratch;
        var ok := EncodeFrame();
        if !ok && !codec.format.AmrNbFormat? {
          return Err(EncoderFailed);
        }
      }
      r := Ok(payload);
    }
  }
}
