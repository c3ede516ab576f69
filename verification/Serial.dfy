/**
  Serial framing (meshtastic/serial.rs): two start bytes, a big-endian length, the payload; and the reader that finds
  such frames in a stream that also carries console output.
 */
module Serial {
  import opened Words
  import opened Bits

  const START1: byte := 0x94
  const START2: byte := 0xc3
  const MAX_PAYLOAD: nat := 512

  datatype SerialError = PayloadTooLarge(len: nat, max: nat)

  predicate Legal(payload: Bytes) {
    0 < |payload| <= MAX_PAYLOAD
  }

  function Framed(payload: Bytes): Bytes
    requires |payload| <= MAX_PAYLOAD
  {
    [START1, START2] + ToBe16(|payload|) + payload
  }

  /** The frame byte by byte. */
  lemma FramedLayout(payload: Bytes)
    requires |payload| <= 512
    ensures Framed(payload) == [0x94, 0xc3, |payload| / 256, |payload| % 256] + payload
  {
    assert ToBe16(|payload|) == [|payload| / 256, |payload| % 256];
  }

  method WriteToRadio(payload: Bytes) returns (r: Result<Bytes, SerialError>)
    ensures r == if |payload| > MAX_PAYLOAD then Err(PayloadTooLarge(|payload|, MAX_PAYLOAD)) else Ok(Framed(payload))
    ensures if |payload| <= 512 then r == Ok([0x94, 0xc3, |payload| / 256, |payload| % 256] + payload)
            else r == Err(PayloadTooLarge(|payload|, 512))
  {
    if |payload| > MAX_PAYLOAD {
      return Err(PayloadTooLarge(|payload|, MAX_PAYLOAD));
    }
    var len := |payload|;
    var header: Bytes := [START1, START2, len / 256, len % 256];
    assert header == [START1, START2] + ToBe16(len);
    r := Ok(header + payload);
  }

  /** One call on `s`: the payload returned (`None` at end of stream) and what is left to read. */
  function ReadFrom(s: Bytes): (result: (Option<Bytes>, Bytes))
    ensures result.0.Some? ==> Legal(result.0.value) && |result.0.value| + 4 + |result.1| <= |s|
    ensures result.0.None? ==> result.1 == []
  {
    if s == [] then (None, [])
    else if s[0] != START1 then ReadFrom(s[1..])
    else if |s| < 2 then (None, [])
    else if s[1] != START2 then ReadFrom(s[2..])
    else if |s| < 4 then (None, [])
    else
      var len := FromBe16(s[2], s[3]);
      if len == 0 || len > MAX_PAYLOAD then ReadFrom(s[4..])
      else if |s| < 4 + len then (None, [])
      else (Some(s[4..4 + len]), s[4 + len..])
  }

  /** What the reader makes of a whole header: lengths of zero and above 512 are skipped, others wait for that many bytes. */
  lemma {:induction false} HeaderRead(hi: byte, lo: byte, rest: Bytes)
    ensures var len := HighLow(hi, lo);
            ReadFrom([0x94, 0xc3, hi, lo] + rest)
            == if len == 0 || len > 512 then ReadFrom(rest)
               else if |rest| < len then (None, [])
               else (Some(rest[..len]), rest[len..])
  {
    var s := [0x94, 0xc3, hi, lo] + rest;
    var len := HighLow(hi, lo);
    assert s[4..] == rest;
    if 0 < len <= |rest| {
      assert s[4..4 + len] == rest[..len] && s[4 + len..] == rest[len..];
    }
  }

  function HighLow(hi: nat, lo: nat): nat {
    256 * hi + lo
  }

  datatype Turn = Rescan | Return(result: Option<Bytes>)

  class Reader {
    const stream: Bytes
    var pos: nat

    ghost predicate Valid()
      reads this
    {
      pos <= |stream|
    }

    constructor (stream: Bytes)
      ensures Valid() && this.stream == stream && pos == 0
    {
      this.stream, pos := stream, 0;
    }

    method ReadByte() returns (b: Option<byte>)
      requires Valid()
      modifies this
      ensures Valid()
      ensures if old(pos) < |stream| then b == Some(stream[old(pos)]) && pos == old(pos) + 1 else b == None && pos == old(pos)
    {
      if pos == |stream| {
        return None;
      }
      b := Some(stream[pos]);
      pos := pos + 1;
    }

    /** The scanning loop. */
    method ReadFrame() returns (r: Option<Bytes>)
      requires Valid()
      modifies this
      ensures Valid()
      ensures (r, stream[pos..]) == ReadFrom(stream[old(pos)..])
    {
      var turn := Rescan;
      while turn.Rescan?
        invariant Valid()
        invariant match turn
                  case Rescan => ReadFrom(stream[pos..]) == ReadFrom(stream[old(pos)..])
                  case Return(r) => (r, stream[pos..]) == ReadFrom(stream[old(pos)..])
        decreases turn.Rescan?, |stream| - pos
      {
        turn := ReadTurn();
      }
      r := turn.result;
    }

    /** One turn of the loop. Scanning on always consumes a byte. */
    method ReadTurn() returns (turn: Turn)
      requires Valid()
      modifies this
      ensures Valid()
      ensures match turn
              case Rescan => pos > old(pos) && ReadFrom(stream[pos..]) == ReadFrom(stream[old(pos)..])
              case Return(r) => (r, stream[pos..]) == ReadFrom(stream[old(pos)..])
    {
      ghost var s := stream[pos..];
      var b := ReadByte();
      if b.None? {
        return Return(None);
      }
      assert s[1..] == stream[pos..];
      if b.value != START1 {
        return Rescan;
      }
      var b2 := ReadByte();
      if b2.None? {
        return Return(None);
      }
      assert s[2..] == stream[pos..];
      if b2.value != START2 {
        return Rescan;
      }
      turn := ReadBody(s);
    }

    /** The length and the payload, once both start bytes have been read. */
    method ReadBody(ghost s: Bytes) returns (turn: Turn)
      requires Valid() && |s| >= 2 && s[0] == START1 && s[1] == START2 && s[2..] == stream[pos..]
      modifies this
      ensures Valid()
      ensures match turn
              case Rescan => pos > old(pos) && ReadFrom(stream[pos..]) == ReadFrom(s)
              case Return(r) => (r, stream[pos..]) == ReadFrom(s)
    {
      assert |s| == 2 + |stream| - pos;
      var msb := ReadByte();
      if msb.None? {
        assert stream[pos..] == [];
        return Return(None);
      }
      var lsb := ReadByte();
      if lsb.None? {
        assert stream[pos..] == [];
        return Return(None);
      }
      assert msb.value == s[2..][0] && lsb.value == s[2..][1];
      assert s[4..] == s[2..][2..] == stream[pos..];
      var len := FromBe16(msb.value, lsb.value);
      if len == 0 || len > MAX_PAYLOAD {
        return Rescan;
      }
      assert |s| == 4 + |stream| - pos;
      if pos + len > |stream| {
        pos := |stream|;
        assert stream[pos..] == [];
        return Return(None);
      }
      var payload := stream[pos..pos + len];
      assert payload == s[4..][..len] == s[4..4 + len] && s[4 + len..] == s[4..][len..] == stream[pos + len..];
      pos := pos + len;
      turn := Return(Some(payload));
    }
  }

  /** What repeated calls return until the end of the stream. */
  function ReadAll(s: Bytes): seq<Bytes>
    decreases |s|
  {
    var (first, rest) := ReadFrom(s);
    if first.None? then [] else [first.value] + ReadAll(rest)
  }

  method Drain(stream: Bytes) returns (payloads: seq<Bytes>)
    ensures payloads == ReadAll(stream)
  {
    var reader := new Reader(stream);
    payloads := [];
    var done := false;
    assert stream[0..] == stream;
    while !done
      invariant reader.Valid() && reader.stream == stream
      invariant payloads + ReadAll(stream[reader.pos..]) == ReadAll(stream)
      invariant done ==> ReadAll(stream[reader.pos..]) == []
      decreases !done, |stream| - reader.pos
    {
      ghost var before := stream[reader.pos..];
      var next := reader.ReadFrame();
      if next.None? {
        done := true;
      } else {
        payloads := payloads + [next.value];
      }
    }
  }

  // ----- the grammar the reader follows

  datatype Token = Noise(b: byte) | FalseStart(b: byte) | BadLength(hi: byte, lo: byte) | Message(payload: Bytes)
  {
    predicate Valid() {
      match this
      case Noise(b) => b != START1
      case FalseStart(b) => b != START2
      case BadLength(hi, lo) => FromBe16(hi, lo) == 0 || FromBe16(hi, lo) > MAX_PAYLOAD
      case Message(payload) => Legal(payload)
    }

    function Encoded(): Bytes
      requires Valid()
    {
      match this
      case Noise(b) => [b]
      case FalseStart(b) => [START1, b]
      case BadLength(hi, lo) => [START1, START2, hi, lo]
      case Message(payload) => Framed(payload)
    }
  }

  predicate AllValid(tokens: seq<Token>) {
    forall t :: t in tokens ==> t.Valid()
  }

  function EncodeAll(tokens: seq<Token>): Bytes
    requires AllValid(tokens)
  {
    if tokens == [] then []
    else
      assert tokens[0] in tokens;
      tokens[0].Encoded() + EncodeAll(tokens[1..])
  }

  function Payloads(tokens: seq<Token>): seq<Bytes> {
    if tokens == [] then []
    else (if tokens[0].Message? then [tokens[0].payload] else []) + Payloads(tokens[1..])
  }

  lemma {:induction false} TokenRead(t: Token, rest: Bytes)
    requires t.Valid()
    ensures t.Message? ==> ReadFrom(t.Encoded() + rest) == (Some(t.payload), rest)
    ensures !t.Message? ==> ReadFrom(t.Encoded() + rest) == ReadFrom(rest)
  {
    var s := t.Encoded() + rest;
    match t
    case Noise(b) => assert s[1..] == rest;
    case FalseStart(b) => assert s[2..] == rest;
    case BadLength(hi, lo) => assert s[4..] == rest;
    case Message(payload) =>
      Be16RoundTrip(|payload|);
      assert s[2] == ToBe16(|payload|)[0] && s[3] == ToBe16(|payload|)[1];
      assert s[4..4 + |payload|] == payload && s[4 + |payload|..] == rest;
  }

  lemma {:induction false} TokenReadAll(t: Token, rest: Bytes)
    requires t.Valid()
    ensures ReadAll(t.Encoded() + rest) == Payloads([t]) + ReadAll(rest)
  {
    TokenRead(t, rest);
    assert Payloads([t]) == if t.Message? then [t.payload] else [];
  }

  lemma Regroup<T>(a: seq<T>, b: seq<T>, c: seq<T>)
    ensures a + b + c == a + (b + c)
  {
  }

  lemma {:induction false} FirstOf(tokens: seq<Token>, tail: Bytes, after: seq<Bytes>)
    requires AllValid(tokens) && tokens != []
    ensures tokens[0].Valid() && AllValid(tokens[1..])
    ensures EncodeAll(tokens) + tail == tokens[0].Encoded() + (EncodeAll(tokens[1..]) + tail)
    ensures Payloads(tokens) + after == Payloads([tokens[0]]) + (Payloads(tokens[1..]) + after)
  {
    var t := tokens[0];
    assert t in tokens;
    var first := if t.Message? then [t.payload] else [];
    assert Payloads([t][1..]) == [] && first + [] == first;
    assert Payloads([t]) == first && Payloads(tokens) == first + Payloads(tokens[1..]);
    Regroup(first, Payloads(tokens[1..]), after);
    Regroup(t.Encoded(), EncodeAll(tokens[1..]), tail);
  }

  /**
    Whatever resynchronisation tokens are interleaved with written frames, the reader returns exactly their payloads, in
    order, and then carries on with whatever follows.
   */
  lemma {:induction false} TokensRead(tokens: seq<Token>, tail: Bytes)
    requires AllValid(tokens)
    ensures ReadAll(EncodeAll(tokens) + tail) == Payloads(tokens) + ReadAll(tail)
  {
    if tokens == [] {
      assert EncodeAll(tokens) + tail == tail;
    } else {
      FirstOf(tokens, tail, ReadAll(tail));
      TokensRead(tokens[1..], tail);
      TokenReadAll(tokens[0], EncodeAll(tokens[1..]) + tail);
    }
  }

  /** Too little is left to decide what starts here. */
  predicate Unfinished(s: Bytes) {
    || s == []
    || (s[0] == START1 &&
        (|s| < 2 || (s[1] == START2 &&
          (|s| < 4 || (0 < FromBe16(s[2], s[3]) <= MAX_PAYLOAD && |s| < 4 + FromBe16(s[2], s[3]))))))
  }

  /** Any stream at all reads as tokens and an unfinished tail. */
  function Tokens(s: Bytes): (result: (seq<Token>, Bytes))
    decreases |s|
  {
    if Unfinished(s) then ([], s)
    else
      var (t, n) := FirstToken(s);
      var (tokens, tail) := Tokens(s[n..]);
      ([t] + tokens, tail)
  }

  function FirstToken(s: Bytes): (result: (Token, nat))
    requires !Unfinished(s)
    ensures result.0.Valid() && 0 < result.1 <= |s|
  {
    if s[0] != START1 then (Noise(s[0]), 1)
    else if s[1] != START2 then (FalseStart(s[1]), 2)
    else
      var len := FromBe16(s[2], s[3]);
      if len == 0 || len > MAX_PAYLOAD then (BadLength(s[2], s[3]), 4) else (Message(s[4..4 + len]), 4 + len)
  }

  lemma FirstTokenSplits(s: Bytes)
    requires !Unfinished(s)
    ensures FirstToken(s).0.Encoded() + s[FirstToken(s).1..] == s
  {
    if s[0] != START1 {
      assert [s[0]] + s[1..] == s;
    } else if s[1] != START2 {
      assert [START1, s[1]] + s[2..] == s;
    } else {
      HeadedSplits(s);
    }
  }

  lemma HeadBytes(s: Bytes, len: nat)
    requires |s| >= 4 && s[0] == START1 && s[1] == START2 && len == FromBe16(s[2], s[3])
    ensures len < 0x1_0000 && [START1, START2] + ToBe16(len) == s[..4] == [START1, START2, s[2], s[3]]
  {
    Be16Onto(s[2], s[3]);
  }

  lemma Rejoin(s: Bytes, m: nat, n: nat)
    requires m <= n <= |s|
    ensures s[..m] + s[m..n] + s[n..] == s && s[..m] + s[m..] == s
  {
  }

  lemma HeadedSplits(s: Bytes)
    requires !Unfinished(s) && s[0] == START1 && s[1] == START2
    ensures FirstToken(s).0.Encoded() + s[FirstToken(s).1..] == s
  {
    var len := FromBe16(s[2], s[3]);
    HeadBytes(s, len);
    if 0 < len <= MAX_PAYLOAD {
      assert |s[4..4 + len]| == len;
      assert Framed(s[4..4 + len]) == s[..4] + s[4..4 + len];
      Rejoin(s, 4, 4 + len);
    } else {
      Rejoin(s, 4, 4);
    }
  }

  lemma {:induction false} TokensRejoin(s: Bytes)
    ensures var (tokens, tail) := Tokens(s);
            AllValid(tokens) && EncodeAll(tokens) + tail == s && Unfinished(tail)
    decreases |s|
  {
    if Unfinished(s) {
      assert [] + s == s;
    } else {
      var (t, n) := FirstToken(s);
      var (rest, tail) := Tokens(s[n..]);
      FirstTokenSplits(s);
      TokensRejoin(s[n..]);
      assert ([t] + rest)[1..] == rest;
      FirstOf([t] + rest, tail, []);
    }
  }

  lemma UnfinishedReadsNothing(s: Bytes)
    requires Unfinished(s)
    ensures ReadAll(s) == []
  {
  }

  /** The grammar is complete: every byte string is read as exactly the messages among its tokens. */
  lemma {:induction false} TokensCover(s: Bytes)
    ensures var (tokens, tail) := Tokens(s);
            && AllValid(tokens) && EncodeAll(tokens) + tail == s && Unfinished(tail)
            && ReadAll(s) == Payloads(tokens)
  {
    var (tokens, tail) := Tokens(s);
    TokensRejoin(s);
    TokensRead(tokens, tail);
    UnfinishedReadsNothing(tail);
    assert Payloads(tokens) + [] == Payloads(tokens);
  }

  lemma {:induction false} TokensUnfold(s: Bytes)
    requires !Unfinished(s)
    ensures var (t, n) := FirstToken(s);
            Tokens(s) == ([t] + Tokens(s[n..]).0, Tokens(s[n..]).1)
  {
  }

  /** Where a stream reads as whole tokens, what follows it is read afresh. */
  lemma {:induction false} TokensAppend(s: Bytes, more: Bytes)
    requires Tokens(s).1 == []
    ensures Tokens(s + more) == (Tokens(s).0 + Tokens(more).0, Tokens(more).1)
    decreases |s|
  {
    if Unfinished(s) {
      assert s == [] && s + more == more;
      assert [] + Tokens(more).0 == Tokens(more).0;
    } else {
      var (t, n) := FirstToken(s);
      TokensUnfold(s);
      TokensAppend(s[n..], more);
      FirstTokenOf(s, more);
      TokensUnfold(s + more);
      Regroup([t], Tokens(s[n..]).0, Tokens(more).0);
    }
  }

  lemma FirstTokenOf(s: Bytes, more: Bytes)
    requires !Unfinished(s)
    ensures !Unfinished(s + more) && FirstToken(s + more) == FirstToken(s)
    ensures (s + more)[FirstToken(s).1..] == s[FirstToken(s).1..] + more
  {
    var (t, n) := FirstToken(s);
    assert forall i :: 0 <= i < |s| ==> (s + more)[i] == s[i];
    if t.Message? {
      assert (s + more)[4..n] == s[4..n];
    }
  }

  lemma {:induction false} FramedTokens(payload: Bytes)
    requires Legal(payload)
    ensures Tokens(Framed(payload)) == ([Message(payload)], [])
  {
    var s := Framed(payload);
    Be16RoundTrip(|payload|);
    assert s[2] == ToBe16(|payload|)[0] && s[3] == ToBe16(|payload|)[1];
    assert s[4..4 + |payload|] == payload && s[4 + |payload|..] == [];
    assert !Unfinished(s) && FirstToken(s) == (Message(payload), |s|);
    assert s[|s|..] == [] && Tokens([]) == ([], []);
    TokensUnfold(s);
    assert [Message(payload)] + [] == [Message(payload)];
  }

  // ----- the writer's frames

  /** A written payload comes back exactly when it is not empty: the writer takes an empty one, the reader skips it. */
  lemma WrittenIsReadIff(payload: Bytes, rest: Bytes)
    requires |payload| <= MAX_PAYLOAD
    ensures ReadAll(Framed(payload) + rest) == [payload] + ReadAll(rest) <==> payload != []
  {
    if payload == [] {
      var t := BadLength(0, 0);
      assert Framed(payload) == t.Encoded();
      TokenRead(t, rest);
    } else {
      TokenRead(Message(payload), rest);
    }
  }

  /** How many start bytes end `s`. */
  function Trailing(s: Bytes): (n: nat)
    ensures n <= |s|
  {
    if s == [] || s[|s| - 1] != START1 then 0 else 1 + Trailing(s[..|s| - 1])
  }

  lemma {:induction false} TrailingDrop(s: Bytes)
    requires s != []
    ensures Trailing(s) == if s[0] == START1 && Trailing(s[1..]) == |s| - 1 then |s| else Trailing(s[1..])
  {
    var last := s[|s| - 1];
    if |s| == 1 {
      assert s[..0] == [];
    } else if last == START1 {
      var init := s[..|s| - 1];
      TrailingDrop(init);
      assert s[1..][..|s| - 2] == init[1..];
    }
  }

  lemma {:induction false} TrailingAfterPair(s: Bytes)
    requires |s| >= 2 && s[0] == START1
    ensures Trailing(s) % 2 == Trailing(s[2..]) % 2
  {
    var t := s[1..];
    assert t[1..] == s[2..];
    TrailingDrop(s);
    TrailingDrop(t);
    var n, m, k := Trailing(s), Trailing(t), Trailing(s[2..]);
    assert n == k + 2 || n == k by {
      assert m == |t| ==> k == |t| - 1;
    }
  }

  lemma {:induction false} LoneStartSwallows(payload: Bytes)
    requires Legal(payload)
    ensures ReadFrom([START1] + Framed(payload)) != (Some(payload), [])
  {
    var frame := Framed(payload);
    TokenRead(FalseStart(START1), frame[1..]);
    assert [START1] + frame == FalseStart(START1).Encoded() + frame[1..];
    assert |frame[1..]| == |payload| + 3;
  }

  lemma {:induction false} SkipNoise(noise: Bytes, frame: Bytes)
    requires noise != [] && noise[0] != START1
    ensures ReadFrom(noise + frame) == ReadFrom(noise[1..] + frame)
  {
    TokenRead(Noise(noise[0]), noise[1..] + frame);
    assert noise + frame == Noise(noise[0]).Encoded() + (noise[1..] + frame);
  }

  lemma {:induction false} SkipFalseStart(noise: Bytes, frame: Bytes)
    requires |noise| >= 2 && noise[0] == START1 && noise[1] != START2
    ensures ReadFrom(noise + frame) == ReadFrom(noise[2..] + frame)
  {
    TokenRead(FalseStart(noise[1]), noise[2..] + frame);
    assert noise + frame == FalseStart(noise[1]).Encoded() + (noise[2..] + frame);
  }

  /**
    Console output is taken off one or two bytes at a time until nothing, or one start byte, stands before the frame;
    the parity of the trailing run says which.
   */
  lemma {:induction false} NoiseBefore(noise: Bytes, frame: Bytes)
    requires START2 !in noise
    ensures Trailing(noise) % 2 == 0 ==> ReadFrom(noise + frame) == ReadFrom(frame)
    ensures Trailing(noise) % 2 != 0 ==> ReadFrom(noise + frame) == ReadFrom([START1] + frame)
    decreases |noise|
  {
    if noise == [] {
      assert noise + frame == frame;
    } else if noise[0] != START1 {
      NoiseBefore(noise[1..], frame);
      TrailingDrop(noise);
      SkipNoise(noise, frame);
    } else if |noise| == 1 {
      assert noise == [START1] && noise[..0] == [] && Trailing(noise) == 1;
    } else {
      assert noise[1] in noise;
      NoiseBefore(noise[2..], frame);
      TrailingAfterPair(noise);
      SkipFalseStart(noise, frame);
    }
  }

  /**
    Console output ahead of a frame, when it holds no second start byte: the frame survives exactly when the output ends
    in an even run of first start bytes. After an odd run the last one pairs with the frame's own and the frame is lost.
   */
  lemma {:induction false} NoiseThenFrame(noise: Bytes, payload: Bytes)
    requires Legal(payload) && START2 !in noise
    ensures ReadFrom(noise + Framed(payload)) == (Some(payload), []) <==> Trailing(noise) % 2 == 0
  {
    TokenRead(Message(payload), []);
    assert Message(payload).Encoded() + [] == Framed(payload);
    LoneStartSwallows(payload);
    NoiseBefore(noise, Framed(payload));
  }

  /** After whole tokens the frame is read as itself. */
  lemma {:induction false} FrameAfterTokens(noise: Bytes, payload: Bytes)
    requires Legal(payload) && Tokens(noise).1 == []
    ensures Tokens(noise + Framed(payload)) == (Tokens(noise).0 + [Message(payload)], [])
    ensures ReadAll(noise + Framed(payload)) == ReadAll(noise) + [payload]
  {
    var tokens, frame := Tokens(noise).0, Framed(payload);
    TokensAppend(noise, frame);
    FramedTokens(payload);
    TokensCover(noise);
    TokensCover(noise + frame);
    PayloadsSnoc(tokens, Message(payload));
  }

  lemma {:induction false} PayloadsSnoc(tokens: seq<Token>, t: Token)
    ensures Payloads(tokens + [t]) == Payloads(tokens) + if t.Message? then [t.payload] else []
  {
    if tokens == [] {
      assert tokens + [t] == [t] && Payloads([t][1..]) == [];
    } else {
      PayloadsSnoc(tokens[1..], t);
      assert (tokens + [t])[1..] == tokens[1..] + [t];
    }
  }

  /** And only then: otherwise the tokens of the whole stream are too short to be those of the noise and the frame. */
  lemma {:induction false} FrameNeedsTokens(noise: Bytes, payload: Bytes)
    requires Legal(payload)
    requires Tokens(noise + Framed(payload)) == (Tokens(noise).0 + [Message(payload)], [])
    ensures Tokens(noise).1 == []
  {
    var (tokens, tail) := Tokens(noise);
    var frame := Framed(payload);
    TokensRejoin(noise);
    TokensRejoin(noise + frame);
    EncodeSnoc(tokens, Message(payload));
    assert |EncodeAll(tokens)| + |tail| == |noise|;
    assert |EncodeAll(tokens + [Message(payload)])| == |noise| + |frame|;
  }

  /**
    Any bytes at all ahead of a frame, false headers and truncated frames included: they are read as they are alone and the
    frame after them as itself, if and only if alone they leave the reader with nothing unfinished. What they leave unfinished takes
    its missing bytes from the frame.
   */
  lemma {:induction false} FrameSurvivesIff(noise: Bytes, payload: Bytes)
    requires Legal(payload)
    ensures Tokens(noise + Framed(payload)) == (Tokens(noise).0 + [Message(payload)], []) <==> Tokens(noise).1 == []
    ensures Tokens(noise).1 == [] ==> ReadAll(noise + Framed(payload)) == ReadAll(noise) + [payload]
  {
    if Tokens(noise).1 == [] {
      FrameAfterTokens(noise, payload);
    } else if Tokens(noise + Framed(payload)) == (Tokens(noise).0 + [Message(payload)], []) {
      FrameNeedsTokens(noise, payload);
    }
  }

  /** Without a second start byte, bytes read as whole tokens exactly when they end in an even run of first ones. */
  lemma {:induction false} ConsoleTokens(noise: Bytes)
    requires START2 !in noise
    ensures Tokens(noise).1 == [] <==> Trailing(noise) % 2 == 0
    decreases |noise|
  {
    if noise == [] {
    } else if noise[0] != START1 {
      TrailingDrop(noise);
      ConsoleTokens(noise[1..]);
    } else if |noise| == 1 {
      assert noise[..0] == [];
    } else {
      assert noise[1] in noise;
      TrailingAfterPair(noise);
      ConsoleTokens(noise[2..]);
    }
  }

  lemma {:induction false} EncodeSnoc(tokens: seq<Token>, t: Token)
    requires AllValid(tokens) && t.Valid()
    ensures AllValid(tokens + [t]) && EncodeAll(tokens + [t]) == EncodeAll(tokens) + t.Encoded()
  {
    if tokens == [] {
      assert tokens + [t] == [t] && EncodeAll([t][1..]) == [];
    } else {
      EncodeSnoc(tokens[1..], t);
      assert (tokens + [t])[1..] == tokens[1..] + [t] && (tokens + [t])[0] == tokens[0];
      Regroup(tokens[0].Encoded(), EncodeAll(tokens[1..]), t.Encoded());
    }
  }
}
