/**
  Selective-retransmit frames (nack.rs): a version byte, a give-up byte and one bit per data chunk,
  most significant bit first.
 */
module Nack {
  import opened Words
  import opened Bits
  import opened Header

  datatype NackInfo = NackInfo(
    messageId: u32,
    streamSeq: byte,
    totalData: byte,
    parityCount: byte,
    giveUp: bool,
    missing: seq<byte>)

  /** The bit a body holds for chunk `i`. */
  predicate BitFor(body: Bytes, i: byte)
    requires 2 + i / 8 < |body|
  {
    BitAt(body[2 + i / 8], 7 - i % 8)
  }

  /** A body that asks for exactly the members of `missing` below `total`, with every padding bit clear. */
  ghost predicate Asks(body: Bytes, total: byte, missing: seq<byte>, giveUp: bool) {
    && |body| == 2 + CeilDiv(total, 8)
    && body[0] == 1
    && body[1] == (if giveUp then 1 else 0)
    && forall i: byte :: i < 8 * CeilDiv(total, 8) ==> (BitFor(body, i) <==> i < total && i in missing)
  }

  function NackHeader(messageId: u32, streamSeq: byte, codec: VoiceCodec, codecParam: byte, totalData: byte,
                      parityCount: byte): ChunkHeader {
    ChunkHeader(PacketType.Nack, false, messageId, codec, codecParam, streamSeq, 0, totalData, parityCount)
  }

  /** Setting one bit of the bitmap changes that chunk's bit and no other. */
  lemma SetBit(body: Bytes, idx: byte, next: Bytes, i: byte)
    requires 2 + idx / 8 < |body| && 2 + i / 8 < |body|
    requires Or(body[2 + idx / 8], Pow2(7 - idx % 8)) < 256
    requires next == body[2 + idx / 8 := Or(body[2 + idx / 8], Pow2(7 - idx % 8))]
    ensures BitFor(next, i) <==> i == idx || BitFor(body, i)
  {
    if i / 8 == idx / 8 {
      OrPow2(body[2 + idx / 8], 7 - idx % 8, 7 - i % 8);
      assert i == 8 * (i / 8) + i % 8 && idx == 8 * (idx / 8) + idx % 8;
    }
  }

  method BuildNack(tag: TagFn, messageId: u32, streamSeq: byte, codec: VoiceCodec, codecParam: byte,
                   totalData: byte, parityCount: byte, missing: seq<byte>, giveUp: bool)
    returns (frame: Bytes)
    ensures |frame| >= HEADER_SIZE
    ensures frame[..HEADER_SIZE] == NackHeader(messageId, streamSeq, codec, codecParam, totalData, parityCount).Wire(tag)
    ensures Asks(frame[HEADER_SIZE..], totalData, missing, giveUp)
  {
    var body := BuildBody(totalData, missing, giveUp);
    var header := NackHeader(messageId, streamSeq, codec, codecParam, totalData, parityCount).Serialize(tag);
    frame := header[..] + body;
    assert frame[HEADER_SIZE..] == body;
  }

  method BuildBody(totalData: byte, missing: seq<byte>, giveUp: bool) returns (body: Bytes)
    ensures Asks(body, totalData, missing, giveUp)
  {
    var bitmapLen := CeilDiv(totalData, 8);
    body := [1, if giveUp then 1 else 0] + seq(bitmapLen, _ => 0);
    forall i: byte | i < 8 * bitmapLen ensures !BitFor(body, i) {
      ZeroBits(7 - i % 8);
    }
    for k := 0 to |missing|
      invariant Asks(body, totalData, missing[..k], giveUp)
    {
      ghost var was := body;
      var idx := missing[k];
      if idx < totalData {
        OrByte(body[2 + idx / 8], 7 - idx % 8);
        body := body[2 + idx / 8 := Or(body[2 + idx / 8], Pow2(7 - idx % 8))];
        forall i: byte | i < 8 * bitmapLen ensures BitFor(body, i) <==> i == idx || BitFor(was, i) {
          SetBit(was, idx, body, i);
        }
      }
      assert missing[..k + 1] == missing[..k] + [idx];
    }
    assert missing[..|missing|] == missing;
  }

  /** The chunk indices below `n` whose bits are set, in order. */
  function Requested(body: Bytes, n: byte): seq<byte>
    requires |body| >= 2 + CeilDiv(n, 8)
  {
    if n == 0 then []
    else
      var before := Requested(body, n - 1);
      if And(body[2 + (n - 1) / 8], Pow2(7 - (n - 1) % 8)) != 0 then before + [n - 1] else before
  }

  function ParseNackSpec(header: ChunkHeader, body: Bytes): Result<NackInfo, VoiceError> {
    if |body| < 2 + CeilDiv(header.totalData, 8) then Err(NackTooShort)
    else if body[0] != 1 then Err(BadVersion(body[0]))
    else Ok(NackInfo(header.messageId, header.streamSeq, header.totalData, header.parityCount,
                     And(body[1], 1) != 0, Requested(body, header.totalData)))
  }

  method ParseNackBody(header: ChunkHeader, body: Bytes) returns (r: Result<NackInfo, VoiceError>)
    ensures r == ParseNackSpec(header, body)
  {
    var bitmapLen := CeilDiv(header.totalData, 8);
    if |body| < 2 + bitmapLen {
      return Err(NackTooShort);
    }
    if body[0] != 1 {
      return Err(BadVersion(body[0]));
    }
    var giveUp := And(body[1], 1) != 0;
    var missing: seq<byte> := [];
    for i := 0 to header.totalData
      invariant missing == Requested(body, i)
    {
      if And(body[2 + i / 8], Pow2(7 - i % 8)) != 0 {
        missing := missing + [i];
      }
    }
    r := Ok(NackInfo(header.messageId, header.streamSeq, header.totalData, header.parityCount, giveUp, missing));
  }

  lemma IncreasingSnoc(s: seq<byte>, x: byte)
    requires StrictlyIncreasing(s) && forall y :: y in s ==> y < x
    ensures StrictlyIncreasing(s + [x])
  {
    assert forall k :: 0 <= k < |s| ==> s[k] in s;
  }

  /** The scan lists, in increasing order, exactly the indices whose bits are set. */
  lemma {:induction false} RequestedExact(body: Bytes, n: byte)
    requires |body| >= 2 + CeilDiv(n, 8)
    ensures StrictlyIncreasing(Requested(body, n))
    ensures forall i: byte :: i in Requested(body, n) <==> i < n && BitFor(body, i)
  {
    if n > 0 {
      RequestedExact(body, n - 1);
      AndPow2(body[2 + (n - 1) / 8], 7 - (n - 1) % 8);
      IncreasingSnoc(Requested(body, n - 1), n - 1);
    }
  }

  lemma HalvedFirst(a: nat, p: nat)
    requires p > 0
    ensures a / (2 * p) == a / 2 / p
  {
    var q := a / 2 / p;
    assert a / 2 == q * p + a / 2 % p;
    assert q * (2 * p) == 2 * (q * p) && (q + 1) * (2 * p) == 2 * (q * p) + 2 * p;
    DivUnique(a, 2 * p, q);
  }

  lemma {:induction false} BitMeans(a: nat, k: nat)
    ensures BitAt(a, k) <==> a / Pow2(k) % 2 == 1
    decreases k
  {
    if k > 0 {
      BitMeans(a / 2, k - 1);
      HalvedFirst(a, Pow2(k - 1));
    }
  }

  /** Which bodies are refused, and what the second byte says of the others. */
  lemma {:induction false} NackOutcome(header: ChunkHeader, body: Bytes)
    ensures var r := ParseNackSpec(header, body);
            if |body| < 2 + CeilDiv(header.totalData, 8) then r == Err(NackTooShort)
            else if body[0] != 1 then r == Err(BadVersion(body[0]))
            else
              && r.Ok? && r.value.messageId == header.messageId && (r.value.giveUp <==> body[1] % 2 == 1)
              && forall i: byte :: i in r.value.missing <==>
                   i < header.totalData && body[2 + i / 8] / Pow2(7 - i % 8) % 2 == 1
  {
    if |body| >= 2 + CeilDiv(header.totalData, 8) {
      RequestedExact(body, header.totalData);
      forall i: byte | i < header.totalData ensures BitFor(body, i) <==> body[2 + i / 8] / Pow2(7 - i % 8) % 2 == 1 {
        BitMeans(body[2 + i / 8], 7 - i % 8);
      }
      AndOdd(body[1], 0);
      AndZero(body[1] / 2);
    }
  }

  /**
    From `build_nack` to `parse_nack_body`: a receiver's list, however it is ordered and whatever it repeats
    or exceeds, arrives as the increasing list of its in-range members, with the give-up flag unchanged. The frame
    is accepted exactly when the header it carries is a legal one.
   */
  lemma NackRoundTrip(tag: TagFn, messageId: u32, streamSeq: byte, codec: VoiceCodec, codecParam: byte, totalData: byte,
                      parityCount: byte, missing: seq<byte>, giveUp: bool, frame: Bytes)
    requires |frame| >= HEADER_SIZE
    requires frame[..HEADER_SIZE] == NackHeader(messageId, streamSeq, codec, codecParam, totalData, parityCount).Wire(tag)
    requires Asks(frame[HEADER_SIZE..], totalData, missing, giveUp)
    ensures Parse(tag, frame).Ok? <==> messageId != 0 && totalData != 0 && parityCount <= MAX_PARITY_PER_MESSAGE
    ensures Parse(tag, frame).Ok? ==>
              var (header, body) := Parse(tag, frame).value;
              var parsed := ParseNackSpec(header, body);
              && header.packetType.Nack? && !header.lastInStream && header.chunkIndex == 0
              && header.codec == VoiceCodecFromByte(codec.ToByte()) && header.codecParam == codecParam
              && parsed.Ok?
              && parsed.value.messageId == messageId && parsed.value.streamSeq == streamSeq
              && parsed.value.totalData == totalData && parsed.value.parityCount == parityCount
              && parsed.value.giveUp == giveUp
              && StrictlyIncreasing(parsed.value.missing)
              && forall i: byte :: i in parsed.value.missing <==> i < totalData && i in missing
  {
    var header := NackHeader(messageId, streamSeq, codec, codecParam, totalData, parityCount);
    var body := frame[HEADER_SIZE..];
    assert frame == header.Wire(tag) + body;
    ParseOfWire(tag, header, body);
    BodyRoundTrip(header.Canonical(), body, missing, giveUp);
  }

  lemma BodyRoundTrip(header: ChunkHeader, body: Bytes, missing: seq<byte>, giveUp: bool)
    requires Asks(body, header.totalData, missing, giveUp)
    ensures var parsed := ParseNackSpec(header, body);
            parsed.Ok? && parsed.value.giveUp == giveUp
            && parsed.value == NackInfo(header.messageId, header.streamSeq, header.totalData, header.parityCount, giveUp,
                                        Requested(body, header.totalData))
            && StrictlyIncreasing(parsed.value.missing)
            && forall i: byte :: i in parsed.value.missing <==> i < header.totalData && i in missing
  {
    RequestedExact(body, header.totalData);
    AndOdd(1, 0);
    AndZero(0);
  }
}
