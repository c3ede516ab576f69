/**
  The 16-byte chunk header and its integrity tag (header.rs, mac.rs, types.rs, consts.rs, error.rs).

  The truncated SHA-256 is an arbitrary function of the bytes it covers, passed as `tag`.
 */
module Header {
  import opened Words
  import opened Bits

  const PROTOCOL_VERSION: byte := 3
  const HEADER_SIZE: nat := 16
  const HEADER_MAC_LEN: nat := 4
  const MAX_PACKET_SIZE: nat := 231
  const MAX_BODY_SIZE: nat := 215
  const MIN_CHUNK_SIZE: nat := 16
  const MAX_CHUNKS_PER_MESSAGE: nat := 255
  const MAX_PARITY_PER_MESSAGE: nat := 128
  const MAX_TOTAL_SHARDS: nat := 256

  datatype VoiceError =
    | TooShort(len: nat, needed: nat)
    | TooLarge(len: nat, max: nat)
    | BadVersion(version: byte)
    | ReservedFlagSet(flags: byte)
    | ReservedPacketType
    | ZeroMessageId
    | BadTotal(total: byte)
    | TooMuchParity(parity: byte)
    | TooManyShards(data: byte, parity: byte)
    | BadIndex(idx: byte, of: byte)
    | AudioTooLarge(bytes: nat, max: nat)
    | ChunkTooSmall(size: nat)
    | ChunkTooLarge(got: nat, max: nat)
    | NackTooShort
    | BadNackIndex(idx: byte)
    | BadMac
    | Fec
    | Rng

  // ----- types.rs

  datatype PacketType = Data | Parity | Nack
  {
    function ToBits(): byte {
      match this
      case Data => 0 * 64
      case Parity => 1 * 64
      case Nack => 2 * 64
    }
  }

  function PacketTypeFromBits(b: byte): Option<PacketType> {
    match And(b, 0xC0) / 64
    case 0 => Some(Data)
    case 1 => Some(Parity)
    case 2 => Some(Nack)
    case _ => None
  }

  datatype VoiceCodec = AmrNb | Opus | PcmS16Le | Codec2 | Unknown(b: byte)
  {
    function ToByte(): byte {
      match this
      case AmrNb => 0
      case Opus => 1
      case PcmS16Le => 2
      case Codec2 => 3
      case Unknown(b) => b
    }
  }

  function VoiceCodecFromByte(b: byte): VoiceCodec {
    match b
    case 0 => AmrNb
    case 1 => Opus
    case 2 => PcmS16Le
    case 3 => Codec2
    case _ => Unknown(b)
  }

  // ----- mac.rs

  type TagFn = Bytes -> (byte, byte, byte, byte)

  function ComputeTag(tag: TagFn, covered: Bytes): (r: Bytes)
    ensures |r| == HEADER_MAC_LEN
  {
    var t := tag(covered);
    [t.0, t.1, t.2, t.3]
  }

  /** The last four header bytes are the tag of the first twelve. */
  predicate TagMatches(tag: TagFn, header: Bytes)
    requires |header| == HEADER_SIZE
  {
    header[12..] == ComputeTag(tag, header[..12])
  }

  /** The constant-time compare: or-ing the differences finds exactly the mismatches. */
  method Verify(tag: TagFn, header: Bytes) returns (r: Result<(), VoiceError>)
    requires |header| == HEADER_SIZE
    ensures r == if TagMatches(tag, header) then Ok(()) else Err(BadMac)
  {
    var expected, actual := ComputeTag(tag, header[..12]), header[12..];
    var diff: nat := 0;
    for i := 0 to HEADER_MAC_LEN
      invariant diff == 0 <==> expected[..i] == actual[..i]
    {
      XorZero(expected[i], actual[i]);
      OrIsZero(diff, Xor(expected[i], actual[i]));
      diff := Or(diff, Xor(expected[i], actual[i]));
      assert expected[..i + 1] == expected[..i] + [expected[i]] && actual[..i + 1] == actual[..i] + [actual[i]];
    }
    assert expected[..4] == expected && actual[..4] == actual;
    r := if diff == 0 then Ok(()) else Err(BadMac);
  }

  // ----- header.rs

  datatype ChunkHeader = ChunkHeader(
    packetType: PacketType,
    lastInStream: bool,
    messageId: u32,
    codec: VoiceCodec,
    codecParam: byte,
    streamSeq: byte,
    chunkIndex: byte,
    totalData: byte,
    parityCount: byte)
  {
    function TypeFlagsByte(): byte {
      var b := packetType.ToBits();
      if lastInStream then (FlagByte(b); Or(b, 0x10)) else b
    }

    /** The twelve logical bytes. */
    function Logical(): (r: Bytes)
      ensures |r| == 12
    {
      [PROTOCOL_VERSION, TypeFlagsByte()] + ToBe32(messageId)
      + [codec.ToByte(), codecParam, streamSeq, chunkIndex, totalData, parityCount]
    }

    function Wire(tag: TagFn): (r: Bytes)
      ensures |r| == HEADER_SIZE
    {
      Logical() + ComputeTag(tag, Logical())
    }

    /** The index rule of each packet type. */
    predicate IndexFits() {
      match packetType
      case Data => chunkIndex < totalData
      case Parity => chunkIndex < parityCount
      case Nack => chunkIndex == 0
    }

    predicate WellFormed() {
      messageId != 0 && totalData != 0 && parityCount <= MAX_PARITY_PER_MESSAGE && IndexFits()
    }

    /** The codec as a receiver names it: `Unknown` never stands for an assigned byte. */
    function Canonical(): ChunkHeader {
      this.(codec := VoiceCodecFromByte(codec.ToByte()))
    }

    method WriteLogical(out: array<byte>)
      requires out.Length == HEADER_SIZE
      modifies out
      ensures out[..12] == Logical() && out[12..] == old(out[12..])
    {
      var id := ToBe32(messageId);
      out[0] := PROTOCOL_VERSION;
      out[1] := TypeFlagsByte();
      forall i | 0 <= i < 4 {
        out[2 + i] := id[i];
      }
      out[6] := codec.ToByte();
      out[7] := codecParam;
      out[8] := streamSeq;
      out[9] := chunkIndex;
      out[10] := totalData;
      out[11] := parityCount;
      assert forall i :: 12 <= i < HEADER_SIZE ==> out[i] == old(out[i]);
      assert forall i :: 0 <= i < 12 ==> out[i] == Logical()[i];
    }

    method Serialize(tag: TagFn) returns (out: array<byte>)
      ensures fresh(out) && out[..] == Wire(tag)
    {
      out := new byte[HEADER_SIZE](_ => 0);
      WriteLogical(out);
      var t := ComputeTag(tag, out[..12]);
      forall i | 0 <= i < 4 {
        out[12 + i] := t[i];
      }
      assert out[..12] == Logical();
    }
  }

  lemma FlagByte(b: byte)
    ensures Or(b, 0x10) < 256
  {
    assert Pow2(4) == 0x10;
    OrByte(b, 4);
  }

  function Parse(tag: TagFn, bytes: Bytes): Result<(ChunkHeader, Bytes), VoiceError> {
    if |bytes| < HEADER_SIZE then Err(TooShort(|bytes|, HEADER_SIZE))
    else if |bytes| > MAX_PACKET_SIZE then Err(TooLarge(|bytes|, MAX_PACKET_SIZE))
    else if bytes[0] != PROTOCOL_VERSION then Err(BadVersion(bytes[0]))
    else
      var tf := bytes[1];
      if And(tf, 0x2F) != 0 then Err(ReservedFlagSet(tf))
      else
        var packetType := PacketTypeFromBits(tf);
        if packetType.None? then Err(ReservedPacketType)
        else
          var h := ChunkHeader(packetType.value, And(tf, 0x10) != 0, FromBe32(bytes[2..6]),
                               VoiceCodecFromByte(bytes[6]), bytes[7], bytes[8], bytes[9], bytes[10], bytes[11]);
          if h.messageId == 0 then Err(ZeroMessageId)
          else if h.totalData == 0 then Err(BadTotal(0))
          else if h.parityCount > MAX_PARITY_PER_MESSAGE then Err(TooMuchParity(h.parityCount))
          else if h.packetType.Data? && h.chunkIndex >= h.totalData then Err(BadIndex(h.chunkIndex, h.totalData))
          else if h.packetType.Parity? && (h.parityCount == 0 || h.chunkIndex >= h.parityCount)
            then Err(BadIndex(h.chunkIndex, h.parityCount))
          else if h.packetType.Nack? && h.chunkIndex != 0 then Err(BadNackIndex(h.chunkIndex))
          else if !TagMatches(tag, bytes[..HEADER_SIZE]) then Err(BadMac)
          else Ok((h, bytes[HEADER_SIZE..]))
  }

  function PeekMessageId(bytes: Bytes): Option<u32> {
    if |bytes| < HEADER_SIZE || bytes[0] != PROTOCOL_VERSION then None
    else
      var id := FromBe32(bytes[2..6]);
      if id != 0 then Some(id) else None
  }

  // ----- the two directions

  /** `a & mask`, one bit of the mask at a time. */
  lemma {:induction false} AndOdd(a: nat, m: nat)
    ensures And(a, 2 * m + 1) == a % 2 + 2 * And(a / 2, m)
  {
    assert (2 * m + 1) / 2 == m && (2 * m + 1) % 2 == 1;
  }

  lemma {:induction false} AndEven(a: nat, m: nat)
    ensures And(a, 2 * m) == 2 * And(a / 2, m)
  {
    assert (2 * m) / 2 == m && (2 * m) % 2 == 0;
  }

  lemma {:induction false} AndZero(a: nat)
    ensures And(a, 0) == 0
  {
  }

  /** The low four bits of a flags byte, one more at a time. */
  lemma LowBits(tf: byte)
    ensures tf % 2 + 2 * (tf / 2 % 2) + 4 * (tf / 4 % 2) + 8 * (tf / 8 % 2) == tf % 16
  {
    Mod4(tf);
    Mod8(tf);
    Mod16(tf);
  }

  lemma Mod4(tf: byte)
    ensures tf % 4 == tf % 2 + 2 * (tf / 2 % 2)
  {
    var t := tf / 2;
    assert tf == 4 * (t / 2) + 2 * (t % 2) + tf % 2;
  }

  lemma Mod8(tf: byte)
    ensures tf % 8 == tf % 4 + 4 * (tf / 4 % 2)
  {
    var t := tf / 4;
    assert tf == 8 * (t / 2) + 4 * (t % 2) + tf % 4;
  }

  lemma Mod16(tf: byte)
    ensures tf % 16 == tf % 8 + 8 * (tf / 8 % 2)
  {
    var t := tf / 8;
    assert tf == 16 * (t / 2) + 8 * (t % 2) + tf % 8;
  }

  lemma {:induction false} ReservedMask(tf: byte)
    ensures And(tf, 0x2F) == tf % 16 + 32 * (tf / 32 % 2)
  {
    AndOdd(tf, 23);
    AndOdd(tf / 2, 11);
    AndOdd(tf / 4, 5);
    AndOdd(tf / 8, 2);
    AndEven(tf / 16, 1);
    AndOdd(tf / 32, 0);
    AndZero(tf / 64);
    assert tf / 2 / 2 == tf / 4 && tf / 4 / 2 == tf / 8 && tf / 8 / 2 == tf / 16 && tf / 16 / 2 == tf / 32 && tf / 32 / 2 == tf / 64;
    LowBits(tf);
  }

  lemma {:induction false} LastMask(tf: byte)
    ensures And(tf, 0x10) == 16 * (tf / 16 % 2)
  {
    AndEven(tf, 8);
    AndEven(tf / 2, 4);
    AndEven(tf / 4, 2);
    AndEven(tf / 8, 1);
    AndOdd(tf / 16, 0);
    AndZero(tf / 32);
    assert tf / 2 / 2 == tf / 4 && tf / 4 / 2 == tf / 8 && tf / 8 / 2 == tf / 16 && tf / 16 / 2 == tf / 32;
  }

  lemma {:induction false} TypeMask(tf: byte)
    ensures And(tf, 0xC0) == 64 * (tf / 64)
  {
    AndEven(tf, 96);
    AndEven(tf / 2, 48);
    AndEven(tf / 4, 24);
    AndEven(tf / 8, 12);
    assert tf / 2 / 2 == tf / 4 && tf / 4 / 2 == tf / 8 && tf / 8 / 2 == tf / 16;
    TypeNibble(tf / 16);
    assert tf / 16 / 4 == tf / 64;
  }

  lemma {:induction false} TypeNibble(high: byte)
    requires high < 16
    ensures And(high, 0xC) == 4 * (high / 4)
  {
    AndEven(high, 6);
    AndEven(high / 2, 3);
    AndOdd(high / 4, 1);
    AndOdd(high / 8, 0);
    AndZero(high / 16);
    assert high / 2 / 2 == high / 4 && high / 4 / 2 == high / 8 && high / 8 / 2 == high / 16;
  }

  /** What the three masks of the flags byte select. */
  lemma Masks(tf: byte)
    ensures And(tf, 0x2F) == 0 <==> tf % 16 == 0 && tf / 32 % 2 == 0
    ensures And(tf, 0x10) != 0 <==> tf / 16 % 2 == 1
    ensures And(tf, 0xC0) / 64 == tf / 64
  {
    ReservedMask(tf);
    LastMask(tf);
    TypeMask(tf);
  }

  lemma {:induction false} OrHigh(t: nat)
    requires t % 2 == 0
    ensures Or(t, 1) == t + 1
  {
    assert Or(t, 1) == 1 + 2 * Or(t / 2, 0);
    OrZero(t / 2);
  }

  lemma {:induction false} OrFlag(t: nat)
    requires t % 2 == 0
    ensures Or(16 * t, 0x10) == 16 * t + 0x10
  {
    OrHigh(t);
    OrDouble(t, 1);
    OrDouble(2 * t, 2);
    OrDouble(4 * t, 4);
    OrDouble(8 * t, 8);
  }

  /** `(2 a) | (2 m)`. */
  lemma {:induction false} OrDouble(a: nat, m: nat)
    ensures Or(2 * a, 2 * m) == 2 * Or(a, m)
  {
    assert (2 * a) / 2 == a && (2 * a) % 2 == 0 && (2 * m) / 2 == m && (2 * m) % 2 == 0;
  }

  lemma FlagsValue(h: ChunkHeader)
    ensures h.TypeFlagsByte() == h.packetType.ToBits() + if h.lastInStream then 16 else 0
  {
    OrFlag(match h.packetType case Data => 0 case Parity => 4 case Nack => 8);
  }

  lemma FlagFields(tf: byte, t: nat, l: nat)
    requires t < 4 && l < 2 && tf == 64 * t + 16 * l
    ensures tf % 16 == 0 && tf / 32 % 2 == 0 && tf / 16 % 2 == l && tf / 64 == t
  {
    assert tf / 16 == 4 * t + l && tf / 32 == 2 * t;
  }

  lemma FlagsOf(h: ChunkHeader)
    ensures h.TypeFlagsByte() == h.packetType.ToBits() + if h.lastInStream then 16 else 0
    ensures And(h.TypeFlagsByte(), 0x2F) == 0
    ensures PacketTypeFromBits(h.TypeFlagsByte()) == Some(h.packetType)
    ensures And(h.TypeFlagsByte(), 0x10) != 0 <==> h.lastInStream
  {
    FlagsValue(h);
    var tf := h.TypeFlagsByte();
    var t := match h.packetType case Data => 0 case Parity => 1 case Nack => 2;
    FlagFields(tf, t, if h.lastInStream then 1 else 0);
    Masks(tf);
  }

  /** Only six flag bytes pass the masks, and each is the flags byte of what it parses to. */
  lemma FlagsInjective(tf: byte)
    requires And(tf, 0x2F) == 0 && PacketTypeFromBits(tf).Some?
    ensures tf == PacketTypeFromBits(tf).value.ToBits() + if And(tf, 0x10) != 0 then 16 else 0
  {
    Masks(tf);
    Recompose(tf);
  }

  lemma Recompose(tf: byte)
    requires tf % 16 == 0 && tf / 32 % 2 == 0
    ensures tf == 64 * (tf / 64) + 16 * (tf / 16 % 2)
  {
    var t := tf / 16;
    assert tf == 16 * t && tf / 32 == t / 2 && tf / 64 == t / 2 / 2;
  }

  // ----- the bytes on the air

  function HighFirst(a: nat, b: nat, c: nat, d: byte): (n: nat)
    requires a < 256 && b < 256 && c < 256
    ensures n < 0x1_0000_0000
  {
    0x100_0000 * a + 0x1_0000 * b + 0x100 * c + d
  }

  /** The six fields that are a byte each. */
  lemma WireFields(tag: TagFn, h: ChunkHeader)
    ensures var w := h.Wire(tag);
            && w[6] == (match h.codec case AmrNb => 0 case Opus => 1 case PcmS16Le => 2 case Codec2 => 3 case Unknown(b) => b)
            && w[7] == h.codecParam && w[8] == h.streamSeq && w[9] == h.chunkIndex
            && w[10] == h.totalData && w[11] == h.parityCount
  {
  }

  /** The header byte by byte: version 3, type and flag, the id high byte first, one byte for each field, and the tag of those twelve. */
  lemma WireLayout(tag: TagFn, h: ChunkHeader)
    ensures var w := h.Wire(tag);
            && |w| == 16 && w[0] == 3
            && w[1] == 64 * (match h.packetType case Data => 0 case Parity => 1 case Nack => 2) + (if h.lastInStream then 16 else 0)
            && HighFirst(w[2], w[3], w[4], w[5]) == h.messageId
            && (w[12], w[13], w[14], w[15]) == tag(w[..12])
  {
    FlagsValue(h);
    var w, id := h.Wire(tag), ToBe32(h.messageId);
    assert w[..12] == h.Logical();
    assert [w[2], w[3], w[4], w[5]] == id;
    Be32RoundTrip(h.messageId);
  }

  /** The codec a receiver names is the one that was sent; a byte without a name is passed on, unless it has one. */
  lemma CodecNames(h: ChunkHeader)
    ensures !h.codec.Unknown? ==> h.Canonical() == h
    ensures h.codec.Unknown? ==>
              h.Canonical().codec == (match h.codec.b case 0 => AmrNb case 1 => Opus case 2 => PcmS16Le case 3 => Codec2 case b => Unknown(b))
  {
  }

  /** Why bytes that are no frame at all are refused. */
  lemma RefusedBytes(tag: TagFn, bytes: Bytes)
    ensures |bytes| < 16 ==> Parse(tag, bytes) == Err(TooShort(|bytes|, 16))
    ensures |bytes| > 231 ==> Parse(tag, bytes) == Err(TooLarge(|bytes|, 231))
    ensures 16 <= |bytes| <= 231 && bytes[0] != 3 ==> Parse(tag, bytes) == Err(BadVersion(bytes[0]))
    ensures 16 <= |bytes| <= 231 && bytes[0] == 3 ==>
              var tf := bytes[1];
              && (tf % 16 != 0 || tf / 32 % 2 != 0 ==> Parse(tag, bytes) == Err(ReservedFlagSet(tf)))
              && (tf % 16 == 0 && tf / 32 % 2 == 0 && tf / 64 == 3 ==> Parse(tag, bytes) == Err(ReservedPacketType))
  {
    if |bytes| >= 16 {
      Masks(bytes[1]);
    }
  }

  /** Why a serialised header is refused with a body that fits, and what it is refused with, first things first. */
  lemma RefusedFields(tag: TagFn, h: ChunkHeader, body: Bytes)
    requires |body| <= 215
    ensures var r := Parse(tag, h.Wire(tag) + body);
            if h.messageId == 0 then r == Err(ZeroMessageId)
            else if h.totalData == 0 then r == Err(BadTotal(0))
            else if h.parityCount > 128 then r == Err(TooMuchParity(h.parityCount))
            else match h.packetType
              case Data => if h.chunkIndex < h.totalData then r.Ok? else r == Err(BadIndex(h.chunkIndex, h.totalData))
              case Parity => if h.chunkIndex < h.parityCount then r.Ok? else r == Err(BadIndex(h.chunkIndex, h.parityCount))
              case Nack => if h.chunkIndex == 0 then r.Ok? else r == Err(BadNackIndex(h.chunkIndex))
  {
    ParsedFields(tag, h, body);
    ParseOfWire(tag, h, body);
  }

  /** What the parser reads of a serialised header before it checks the fields. */
  lemma ParsedFields(tag: TagFn, h: ChunkHeader, body: Bytes)
    ensures var bytes := h.Wire(tag) + body;
            && And(bytes[1], 0x2F) == 0 && PacketTypeFromBits(bytes[1]) == Some(h.packetType)
            && FromBe32(bytes[2..6]) == h.messageId
            && bytes[0] == 3 && bytes[9] == h.chunkIndex && bytes[10] == h.totalData && bytes[11] == h.parityCount
  {
    var bytes := h.Wire(tag) + body;
    FlagsOf(h);
    Be32RoundTrip(h.messageId);
    assert bytes[2..6] == ToBe32(h.messageId);
  }

  /** A frame whose fields are right but whose header does not carry its own tag is refused for that. */
  lemma RefusedTag(tag: TagFn, other: TagFn, h: ChunkHeader, body: Bytes)
    requires h.WellFormed() && |body| <= 215 && h.Wire(other) != h.Wire(tag)
    ensures Parse(tag, h.Wire(other) + body) == Err(BadMac)
  {
    ParsedFields(other, h, body);
    var bytes := h.Wire(other) + body;
    assert bytes[..16] == h.Wire(other) && bytes[..16][..12] == h.Logical();
    assert bytes[..16][12..] == ComputeTag(other, h.Logical());
  }

  /** What a receiver reads of a serialised header, exactly: it accepts the well-formed ones and names the codec canonically. */
  lemma ParseOfWire(tag: TagFn, h: ChunkHeader, body: Bytes)
    ensures Parse(tag, h.Wire(tag) + body).Ok? <==> h.WellFormed() && |body| <= MAX_BODY_SIZE
    ensures h.WellFormed() && |body| <= MAX_BODY_SIZE ==> Parse(tag, h.Wire(tag) + body) == Ok((h.Canonical(), body))
  {
    var bytes := h.Wire(tag) + body;
    FlagsOf(h);
    Be32RoundTrip(h.messageId);
    assert bytes[..HEADER_SIZE] == h.Wire(tag) && bytes[HEADER_SIZE..] == body;
    assert h.Wire(tag)[..12] == h.Logical() && h.Wire(tag)[12..] == ComputeTag(tag, h.Logical());
    assert bytes[2..6] == ToBe32(h.messageId);
  }

  /** What acceptance says of the bytes, apart from the flags and the id. */
  lemma Accepted(tag: TagFn, bytes: Bytes)
    requires Parse(tag, bytes).Ok?
    ensures HEADER_SIZE <= |bytes| <= MAX_PACKET_SIZE && TagMatches(tag, bytes[..HEADER_SIZE])
    ensures And(bytes[1], 0x2F) == 0 && PacketTypeFromBits(bytes[1]).Some?
    ensures var (h, body) := Parse(tag, bytes).value;
            h.WellFormed() && h.Canonical() == h && body == bytes[HEADER_SIZE..]
  {
  }

  lemma FlagsOfParse(tag: TagFn, bytes: Bytes)
    requires Parse(tag, bytes).Ok?
    ensures Parse(tag, bytes).value.0.TypeFlagsByte() == bytes[1]
  {
    FlagsInjective(bytes[1]);
    FlagsValue(Parse(tag, bytes).value.0);
  }

  lemma IdOfParse(tag: TagFn, bytes: Bytes)
    requires Parse(tag, bytes).Ok?
    ensures ToBe32(Parse(tag, bytes).value.0.messageId) == [bytes[2], bytes[3], bytes[4], bytes[5]]
  {
    Be32Onto(bytes[2..6]);
    assert bytes[2..6] == [bytes[2], bytes[3], bytes[4], bytes[5]];
  }

  lemma RestOfParse(tag: TagFn, bytes: Bytes)
    requires Parse(tag, bytes).Ok?
    ensures var h := Parse(tag, bytes).value.0;
            && bytes[0] == PROTOCOL_VERSION
            && [h.codec.ToByte(), h.codecParam, h.streamSeq, h.chunkIndex, h.totalData, h.parityCount]
               == [bytes[6], bytes[7], bytes[8], bytes[9], bytes[10], bytes[11]]
  {
  }

  /** The parsed fields write back the twelve logical bytes. */
  lemma LogicalOfParse(tag: TagFn, bytes: Bytes)
    requires Parse(tag, bytes).Ok?
    ensures Parse(tag, bytes).value.0.Logical() == bytes[..12]
  {
    FlagsOfParse(tag, bytes);
    IdOfParse(tag, bytes);
    RestOfParse(tag, bytes);
    JoinLogical(Parse(tag, bytes).value.0, bytes);
  }

  lemma JoinLogical(h: ChunkHeader, bytes: Bytes)
    requires |bytes| >= HEADER_SIZE && bytes[0] == PROTOCOL_VERSION && h.TypeFlagsByte() == bytes[1]
    requires ToBe32(h.messageId) == [bytes[2], bytes[3], bytes[4], bytes[5]]
    requires [h.codec.ToByte(), h.codecParam, h.streamSeq, h.chunkIndex, h.totalData, h.parityCount]
          == [bytes[6], bytes[7], bytes[8], bytes[9], bytes[10], bytes[11]]
    ensures h.Logical() == bytes[..12]
  {
    assert bytes[..12] == [bytes[0], bytes[1]] + [bytes[2], bytes[3], bytes[4], bytes[5]]
                          + [bytes[6], bytes[7], bytes[8], bytes[9], bytes[10], bytes[11]];
  }

  /** Every accepted byte string is the serialisation of what it parses to, so no two parse alike. */
  lemma WireOfParse(tag: TagFn, bytes: Bytes)
    requires Parse(tag, bytes).Ok?
    ensures var (h, body) := Parse(tag, bytes).value;
            h.WellFormed() && h.Canonical() == h && h.Wire(tag) + body == bytes
  {
    Accepted(tag, bytes);
    LogicalOfParse(tag, bytes);
    RejoinHeader(tag, Parse(tag, bytes).value.0, bytes);
  }

  lemma RejoinHeader(tag: TagFn, h: ChunkHeader, bytes: Bytes)
    requires |bytes| >= HEADER_SIZE && TagMatches(tag, bytes[..HEADER_SIZE]) && h.Logical() == bytes[..12]
    ensures h.Wire(tag) + bytes[HEADER_SIZE..] == bytes
  {
    var header := bytes[..HEADER_SIZE];
    assert header[..12] == bytes[..12];
    assert header == header[..12] + header[12..];
    assert bytes == header + bytes[HEADER_SIZE..];
  }

  lemma ParseInjective(tag: TagFn, a: Bytes, b: Bytes)
    requires Parse(tag, a).Ok? && Parse(tag, a) == Parse(tag, b)
    ensures a == b
  {
    WireOfParse(tag, a);
    WireOfParse(tag, b);
  }

  /** The cheap peek finds the id of every frame the full parse accepts. */
  lemma PeekAgrees(tag: TagFn, bytes: Bytes)
    requires Parse(tag, bytes).Ok?
    ensures PeekMessageId(bytes) == Some(Parse(tag, bytes).value.0.messageId)
  {
  }

  /** The peek in full: the id of anything long enough with the right version, unless that is zero. */
  lemma PeekReads(bytes: Bytes)
    ensures PeekMessageId(bytes)
         == if |bytes| < 16 || bytes[0] != 3 || bytes[2..6] == [0, 0, 0, 0] then None
            else Some(HighFirst(bytes[2], bytes[3], bytes[4], bytes[5]))
  {
    if |bytes| >= 16 {
      assert bytes[2..6] == [bytes[2], bytes[3], bytes[4], bytes[5]];
    }
  }
}
