/**
  Walking the frames of an encoded payload (frames.rs), and the frame sizes of the fixed-rate codecs
  (frames.rs, codec/mod.rs).
 */
module Frames {
  import opened Words
  import opened Bits

  /** Bytes of an AMR-NB frame, its table-of-contents byte included, by frame type. */
  function AmrnbFrameBytes(mode: nat): (size: Option<nat>)
    ensures size.Some? ==> 0 < size.value <= 32
  {
    match mode
    case 0 => Some(13)
    case 1 => Some(14)
    case 2 => Some(16)
    case 3 => Some(18)
    case 4 => Some(20)
    case 5 => Some(21)
    case 6 => Some(27)
    case 7 => Some(32)
    case 8 => Some(6)
    case 15 => Some(1)
    case _ => None
  }

  /** Samples and packed bytes of a Codec2 frame, by mode. */
  function Codec2FrameSizes(mode: nat): (sizes: Option<(nat, nat)>)
    ensures sizes.Some? ==> sizes.value.0 > 0 && sizes.value.1 > 0
  {
    match mode
    case 0 => Some((160, 8))
    case 1 => Some((160, 6))
    case 2 => Some((320, 8))
    case 3 => Some((320, 7))
    case 4 => Some((320, 7))
    case 5 => Some((320, 6))
    case _ => None
  }

  /** Bits a second of the eight speech modes. */
  const AMRNB_RATES: seq<nat> := [4_750, 5_150, 5_900, 6_700, 7_400, 7_950, 10_200, 12_200]

  /** A speech frame is its header byte and 20 ms at the mode's rate, in whole bytes; the other types are SID, NO_DATA and none. */
  lemma AmrnbRates(mode: nat)
    ensures mode < 8 ==> AmrnbFrameBytes(mode) == Some(1 + CeilDiv(AMRNB_RATES[mode] / 50, 8))
    ensures mode >= 8 ==> (AmrnbFrameBytes(mode).Some? <==> mode == 8 || mode == 15)
    ensures AmrnbFrameBytes(8) == Some(1 + CeilDiv(39, 8)) && AmrnbFrameBytes(15) == Some(1)
  {
    if mode < 8 {
      assert mode == 0 || mode == 1 || mode == 2 || mode == 3 || mode == 4 || mode == 5 || mode == 6 || mode == 7;
    }
  }

  /** Bits a second of the six Codec2 modes. */
  const CODEC2_RATES: seq<nat> := [3_200, 2_400, 1_600, 1_400, 1_300, 1_200]

  /** A Codec2 frame is 20 ms in the two fastest modes and 40 ms in the others, at the mode's rate, in whole bytes. */
  lemma Codec2Rates(mode: nat)
    ensures Codec2FrameSizes(mode).Some? <==> mode < 6
    ensures mode < 6 ==>
              var (samples, bytes) := Codec2FrameSizes(mode).value;
              samples == (if mode < 2 then 160 else 320) && bytes == CeilDiv(CODEC2_RATES[mode] * samples / 8_000, 8)
  {
    if mode < 6 {
      assert mode == 0 || mode == 1 || mode == 2 || mode == 3 || mode == 4 || mode == 5;
    }
  }

  function TocMode(toc: byte): nat {
    toc / 8 % 16
  }

  /** The frame type is the four bits below the highest. */
  lemma TocFields(unused: nat, frameType: nat, low: nat)
    requires unused < 2 && frameType < 16 && low < 8
    ensures TocMode(128 * unused + 8 * frameType + low) == frameType
  {
    assert (128 * unused + 8 * frameType + low) / 8 == 16 * unused + frameType;
  }

  /** The size of the frame at the front of `data`, if a whole one stands there. */
  function AmrnbFront(data: Bytes): (size: Option<nat>)
    ensures size.Some? ==> 0 < size.value <= |data|
  {
    if data == [] then None
    else
      var size := AmrnbFrameBytes(TocMode(data[0]));
      if size.Some? && size.value <= |data| then size else None
  }

  /** The size of the packet at the front of `data`, its two length bytes not included. */
  function OpusFront(data: Bytes): (size: Option<nat>)
    ensures size.Some? ==> 2 + size.value <= |data|
  {
    if |data| < 2 then None
    else
      var size := FromBe16(data[0], data[1]);
      if 2 + size <= |data| then Some(size) else None
  }

  class AmrnbFrames {
    const data: Bytes
    var pos: nat

    ghost predicate Valid()
      reads this
    {
      pos <= |data|
    }

    constructor (data: Bytes)
      ensures Valid() && this.data == data && pos == 0
    {
      this.data, pos := data, 0;
    }

    function Remaining(): nat
      requires Valid()
      reads this
    {
      |data| - pos
    }

    /** The next whole frame, or no move at all. */
    method Next() returns (frame: Option<Bytes>)
      requires Valid()
      modifies this
      ensures Valid()
      ensures match AmrnbFront(data[old(pos)..])
              case None => frame == None && pos == old(pos)
              case Some(size) => pos == old(pos) + size && frame == Some(data[old(pos)..pos])
    {
      if pos >= |data| {
        return None;
      }
      var size := AmrnbFrameBytes(TocMode(data[pos]));
      if size.None? || pos + size.value > |data| {
        return None;
      }
      frame := Some(data[pos..pos + size.value]);
      pos := pos + size.value;
    }
  }

  class OpusPackets {
    const data: Bytes
    var pos: nat

    ghost predicate Valid()
      reads this
    {
      pos <= |data|
    }

    constructor (data: Bytes)
      ensures Valid() && this.data == data && pos == 0
    {
      this.data, pos := data, 0;
    }

    function Remaining(): nat
      requires Valid()
      reads this
    {
      |data| - pos
    }

    method Next() returns (packet: Option<Bytes>)
      requires Valid()
      modifies this
      ensures Valid()
      ensures match OpusFront(data[old(pos)..])
              case None => packet == None && pos == old(pos)
              case Some(size) => pos == old(pos) + 2 + size && packet == Some(data[old(pos) + 2..pos])
    {
      if pos + 2 > |data| {
        return None;
      }
      var len := FromBe16(data[pos], data[pos + 1]);
      if pos + 2 + len > |data| {
        return None;
      }
      pos := pos + 2;
      packet := Some(data[pos..pos + len]);
      pos := pos + len;
    }
  }

  // ----- a whole walk

  /** Every frame a walk yields, and what it leaves. */
  function AmrnbWalk(data: Bytes): (seq<Bytes>, Bytes) {
    match AmrnbFront(data)
    case None => ([], data)
    case Some(size) =>
      var (frames, rest) := AmrnbWalk(data[size..]);
      ([data[..size]] + frames, rest)
  }

  function OpusWalk(data: Bytes): (seq<Bytes>, Bytes) {
    match OpusFront(data)
    case None => ([], data)
    case Some(size) =>
      var (packets, rest) := OpusWalk(data[2 + size..]);
      ([data[2..2 + size]] + packets, rest)
  }

  lemma {:induction false} AmrnbTurn(data: Bytes, size: nat, frames: seq<Bytes>)
    requires AmrnbFront(data) == Some(size)
    ensures frames + AmrnbWalk(data).0 == frames + [data[..size]] + AmrnbWalk(data[size..]).0
    ensures AmrnbWalk(data).1 == AmrnbWalk(data[size..]).1
  {
  }

  lemma {:induction false} OpusTurn(data: Bytes, size: nat, packets: seq<Bytes>)
    requires OpusFront(data) == Some(size)
    ensures packets + OpusWalk(data).0 == packets + [data[2..2 + size]] + OpusWalk(data[2 + size..]).0
    ensures OpusWalk(data).1 == OpusWalk(data[2 + size..]).1
  {
  }

  lemma SliceSlice(data: Bytes, at: nat, m: nat, n: nat)
    requires at <= |data| && m <= n <= |data| - at
    ensures data[at..][m..n] == data[at + m..at + n] && data[at..][n..] == data[at + n..]
  {
  }

  lemma AmrnbTurnAt(data: Bytes, at: nat, next: nat, frames: seq<Bytes>, frame: Bytes)
    requires at <= next <= |data| && AmrnbFront(data[at..]) == Some(next - at) && frame == data[at..next]
    ensures frames + AmrnbWalk(data[at..]).0 == frames + [frame] + AmrnbWalk(data[next..]).0
    ensures AmrnbWalk(data[at..]).1 == AmrnbWalk(data[next..]).1
  {
    AmrnbTurn(data[at..], next - at, frames);
    SliceSlice(data, at, 0, next - at);
  }

  lemma OpusTurnAt(data: Bytes, at: nat, next: nat, packets: seq<Bytes>, packet: Bytes)
    requires at + 2 <= next <= |data| && OpusFront(data[at..]) == Some(next - at - 2) && packet == data[at + 2..next]
    ensures packets + OpusWalk(data[at..]).0 == packets + [packet] + OpusWalk(data[next..]).0
    ensures OpusWalk(data[at..]).1 == OpusWalk(data[next..]).1
  {
    OpusTurn(data[at..], next - at - 2, packets);
    SliceSlice(data, at, 2, next - at);
  }

  method CollectAmrnb(data: Bytes) returns (frames: seq<Bytes>, remaining: nat)
    ensures frames == AmrnbWalk(data).0 && remaining == |AmrnbWalk(data).1|
  {
    var iter := new AmrnbFrames(data);
    frames := [];
    assert data[0..] == data;
    var done := false;
    while !done
      invariant iter.Valid() && iter.data == data
      invariant frames + AmrnbWalk(data[iter.pos..]).0 == AmrnbWalk(data).0
      invariant AmrnbWalk(data[iter.pos..]).1 == AmrnbWalk(data).1
      invariant done ==> AmrnbFront(data[iter.pos..]).None?
      decreases !done, |data| - iter.pos
    {
      ghost var at := iter.pos;
      var frame := iter.Next();
      if frame.Some? {
        AmrnbTurnAt(data, at, iter.pos, frames, frame.value);
        frames := frames + [frame.value];
      } else {
        done := true;
      }
    }
    remaining := iter.Remaining();
  }

  method CollectOpus(data: Bytes) returns (packets: seq<Bytes>, remaining: nat)
    ensures packets == OpusWalk(data).0 && remaining == |OpusWalk(data).1|
  {
    var iter := new OpusPackets(data);
    packets := [];
    assert data[0..] == data;
    var done := false;
    while !done
      invariant iter.Valid() && iter.data == data
      invariant packets + OpusWalk(data[iter.pos..]).0 == OpusWalk(data).0
      invariant OpusWalk(data[iter.pos..]).1 == OpusWalk(data).1
      invariant done ==> OpusFront(data[iter.pos..]).None?
      decreases !done, |data| - iter.pos
    {
      ghost var at := iter.pos;
      var packet := iter.Next();
      if packet.Some? {
        OpusTurnAt(data, at, iter.pos, packets, packet.value);
        packets := packets + [packet.value];
      } else {
        done := true;
      }
    }
    remaining := iter.Remaining();
  }

  // ----- what a walk means

  /** One whole frame, as its own first byte describes it. */
  predicate SelfDescribed(frame: Bytes) {
    frame != [] && AmrnbFrameBytes(TocMode(frame[0])) == Some(|frame|)
  }

  lemma {:induction false} AmrnbWalkJoins(data: Bytes)
    ensures Flatten(AmrnbWalk(data).0) + AmrnbWalk(data).1 == data && AmrnbFront(AmrnbWalk(data).1).None?
  {
    match AmrnbFront(data)
    case None => assert [] + data == data;
    case Some(size) =>
      AmrnbWalkJoins(data[size..]);
      FlattenFirst(data[..size], AmrnbWalk(data[size..]).0, AmrnbWalk(data[size..]).1);
      assert data[..size] + data[size..] == data;
  }

  lemma {:induction false} FlattenFirst(first: Bytes, others: seq<Bytes>, rest: Bytes)
    ensures Flatten([first] + others) + rest == first + (Flatten(others) + rest)
  {
    assert ([first] + others)[1..] == others;
  }

  lemma {:induction false} AmrnbWalkSound(data: Bytes)
    ensures forall f :: f in AmrnbWalk(data).0 ==> SelfDescribed(f)
  {
    match AmrnbFront(data)
    case None =>
    case Some(size) => AmrnbWalkSound(data[size..]);
  }

  /** For any bytes: the frames yielded are exactly the prefix consumed, and no whole frame starts where the walk stopped. */
  lemma {:induction false} AmrnbWalkCovers(data: Bytes)
    ensures var (frames, rest) := AmrnbWalk(data);
            && Flatten(frames) + rest == data
            && AmrnbFront(rest).None?
            && (forall f :: f in frames ==> SelfDescribed(f))
  {
    AmrnbWalkJoins(data);
    AmrnbWalkSound(data);
  }

  lemma {:induction false} AmrnbStep(frame: Bytes, rest: Bytes)
    requires SelfDescribed(frame)
    ensures AmrnbWalk(frame + rest) == ([frame] + AmrnbWalk(rest).0, AmrnbWalk(rest).1)
  {
    var data := frame + rest;
    assert AmrnbFront(data) == Some(|frame|);
    assert data[..|frame|] == frame && data[|frame|..] == rest;
  }

  /** The walk is the only such reading: self-described frames come back one by one, whatever follows them. */
  lemma {:induction false} AmrnbWalkFinds(frames: seq<Bytes>, rest: Bytes)
    requires forall f :: f in frames ==> SelfDescribed(f)
    ensures AmrnbWalk(Flatten(frames) + rest) == (frames + AmrnbWalk(rest).0, AmrnbWalk(rest).1)
  {
    if frames == [] {
      assert Flatten(frames) + rest == rest;
      assert frames + AmrnbWalk(rest).0 == AmrnbWalk(rest).0;
    } else {
      AmrnbWalkFinds(frames[1..], rest);
      assert frames[0] in frames;
      AmrnbFirst(frames, rest, Flatten(frames[1..]) + rest);
      ConsAppend(frames, AmrnbWalk(rest).0);
    }
  }

  lemma {:induction false} AmrnbFirst(frames: seq<Bytes>, rest: Bytes, tail: Bytes)
    requires frames != [] && SelfDescribed(frames[0]) && tail == Flatten(frames[1..]) + rest
    ensures AmrnbWalk(Flatten(frames) + rest) == ([frames[0]] + AmrnbWalk(tail).0, AmrnbWalk(tail).1)
  {
    AmrnbStep(frames[0], tail);
    assert Flatten(frames) + rest == frames[0] + tail;
  }

  /** The wire form of a packet: its length, then its bytes. */
  function Prefixed(packet: Bytes): Bytes {
    ToBe16(|packet| % 0x1_0000) + packet
  }

  function PrefixedAll(packets: seq<Bytes>): seq<Bytes> {
    seq(|packets|, i requires 0 <= i < |packets| => Prefixed(packets[i]))
  }

  lemma PrefixedSlices(packet: Bytes, rest: Bytes)
    ensures var data := Prefixed(packet) + rest;
            |data| >= 2 + |packet| && [data[0], data[1]] == ToBe16(|packet| % 0x1_0000)
            && data[2..2 + |packet|] == packet && data[2 + |packet|..] == rest
  {
  }

  lemma LengthRead(data: Bytes, size: nat)
    requires size < 0x1_0000 && |data| >= 2 + size && [data[0], data[1]] == ToBe16(size)
    ensures OpusFront(data) == Some(size)
  {
    var word := ToBe16(size);
    Be16RoundTrip(size);
    assert data[0] == word[0] && data[1] == word[1];
  }

  lemma {:induction false} OpusUnfold(data: Bytes, size: nat, packet: Bytes, rest: Bytes)
    requires OpusFront(data) == Some(size) && data[2..2 + size] == packet && data[2 + size..] == rest
    ensures OpusWalk(data) == ([packet] + OpusWalk(rest).0, OpusWalk(rest).1)
  {
  }

  lemma OpusFramed(data: Bytes, packet: Bytes, rest: Bytes)
    requires |packet| < 0x1_0000 && |data| >= 2 + |packet| && [data[0], data[1]] == ToBe16(|packet|)
    requires data[2..2 + |packet|] == packet && data[2 + |packet|..] == rest
    ensures OpusWalk(data) == ([packet] + OpusWalk(rest).0, OpusWalk(rest).1)
  {
    LengthRead(data, |packet|);
    OpusUnfold(data, |packet|, packet, rest);
  }

  lemma {:induction false} OpusStep(packet: Bytes, rest: Bytes)
    requires |packet| < 0x1_0000
    ensures OpusWalk(Prefixed(packet) + rest) == ([packet] + OpusWalk(rest).0, OpusWalk(rest).1)
  {
    PrefixedSlices(packet, rest);
    OpusFramed(Prefixed(packet) + rest, packet, rest);
  }

  lemma {:induction false} OpusSplit(data: Bytes, size: nat)
    requires OpusFront(data) == Some(size)
    ensures size < 0x1_0000 && Prefixed(data[2..2 + size]) + data[2 + size..] == data
  {
    Be16Onto(data[0], data[1]);
    assert data[..2] == [data[0], data[1]];
    assert data == data[..2] + data[2..2 + size] + data[2 + size..];
  }

  lemma {:induction false} PrefixedAllFirst(packets: seq<Bytes>, rest: Bytes)
    requires packets != []
    ensures Flatten(PrefixedAll(packets)) + rest == Prefixed(packets[0]) + (Flatten(PrefixedAll(packets[1..])) + rest)
  {
    assert PrefixedAll(packets)[1..] == PrefixedAll(packets[1..]);
  }

  /** For any bytes: the packets yielded, framed again, are exactly the prefix consumed. */
  lemma {:induction false} OpusWalkCovers(data: Bytes)
    ensures var (packets, rest) := OpusWalk(data);
            && Flatten(PrefixedAll(packets)) + rest == data
            && OpusFront(rest).None?
            && (forall p :: p in packets ==> |p| < 0x1_0000)
  {
    match OpusFront(data)
    case None =>
    case Some(size) =>
      var (packets, rest) := OpusWalk(data);
      OpusWalkCovers(data[2 + size..]);
      OpusSplit(data, size);
      assert packets[1..] == OpusWalk(data[2 + size..]).0;
      PrefixedAllFirst(packets, rest);
  }

  lemma ConsAppend<T>(s: seq<T>, t: seq<T>)
    requires s != []
    ensures [s[0]] + (s[1..] + t) == s + t
  {
  }

  lemma {:induction false} OpusFirst(packets: seq<Bytes>, rest: Bytes, tail: Bytes)
    requires packets != [] && |packets[0]| < 0x1_0000 && tail == Flatten(PrefixedAll(packets[1..])) + rest
    ensures OpusWalk(Flatten(PrefixedAll(packets)) + rest) == ([packets[0]] + OpusWalk(tail).0, OpusWalk(tail).1)
  {
    PrefixedAllFirst(packets, rest);
    OpusStep(packets[0], tail);
  }

  /** A framed list of packets is read back as that list, whatever follows it. */
  lemma {:induction false} OpusWalkFinds(packets: seq<Bytes>, rest: Bytes)
    requires forall p :: p in packets ==> |p| < 0x1_0000
    ensures OpusWalk(Flatten(PrefixedAll(packets)) + rest) == (packets + OpusWalk(rest).0, OpusWalk(rest).1)
  {
    if packets == [] {
      assert Flatten(PrefixedAll(packets)) + rest == rest;
      assert packets + OpusWalk(rest).0 == OpusWalk(rest).0;
    } else {
      OpusWalkFinds(packets[1..], rest);
      assert packets[0] in packets;
      OpusFirst(packets, rest, Flatten(PrefixedAll(packets[1..])) + rest);
      ConsAppend(packets, OpusWalk(rest).0);
    }
  }
}
