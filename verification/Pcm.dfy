/** 16-bit samples and the errors of the codec layer (codec/imp.rs, codec/error.rs). */
module Pcm {
  import opened Words
  import opened Header

  type i16 = x: int | -0x8000 <= x < 0x8000
  type Pcm16 = seq<i16>

  datatype CodecError =
    | UnknownMode(mode: byte)
    | UnsupportedToc(toc: byte)
    | TruncatedFrame
    | UnsupportedCodec(codec: VoiceCodec)
    | EncoderFailed

  function Clamp(s: real): real {
    if s < -1.0 then -1.0 else if s > 1.0 then 1.0 else s
  }

  /** `(s.clamp(-1.0, 1.0) * i16::MAX as f32) as i16`: the cast truncates toward zero. */
  function Quantise(s: real): (q: i16)
    ensures -32767 <= q <= 32767
    ensures s >= 0.0 ==> q >= 0 && q as real <= Clamp(s) * 32767.0 < q as real + 1.0
    ensures s <= 0.0 ==> q <= 0 && q as real - 1.0 < Clamp(s) * 32767.0 <= q as real
  {
    var scaled := Clamp(s) * 32767.0;
    if scaled >= 0.0 then scaled.Floor else -((-scaled).Floor)
  }

  function ToFloat(q: i16): real {
    q as real / 32767.0
  }
}
