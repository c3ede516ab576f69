/**
  Splitting a payload into framed DATA and PARITY chunks (builder.rs), and putting the DATA bodies back together.

  The Reed-Solomon coder is a parameter: it may refuse a pair of shard counts, and otherwise computes each parity
  byte from the data shards.
 */
module Builder {
  import opened Words
  import opened Bits
  import opened Header

  datatype Coder = Coder(refuses: (nat, nat) -> bool, parity: (seq<Bytes>, nat, nat) -> byte)

  datatype BuildConfig = BuildConfig(
    messageId: u32,
    streamSeq: byte,
    codec: VoiceCodec,
    codecParam: byte,
    chunkSize: nat,
    parityCount: byte,
    lastInStream: bool)

  datatype EncodedMessage = EncodedMessage(frames: seq<Bytes>, totalData: byte, parityCount: byte)

  // ----- chunks

  /** A shard: a chunk padded with zeros to the chunk size. */
  function Pad(chunk: Bytes, size: nat): Bytes {
    chunk + seq(SaturatingSub(size, |chunk|), _ => 0)
  }

  function PadAll(chunks: seq<Bytes>, size: nat): seq<Bytes> {
    seq(|chunks|, i requires 0 <= i < |chunks| => Pad(chunks[i], size))
  }

  function ParityShards(coder: Coder, shards: seq<Bytes>, size: nat, count: nat): seq<Bytes> {
    seq(count, p requires 0 <= p => ParityShard(coder, shards, size, p))
  }

  function ParityShard(coder: Coder, shards: seq<Bytes>, size: nat, p: nat): Bytes {
    seq<byte>(size, k requires 0 <= k => coder.parity(shards, p, k))
  }

  // ----- frames

  function HeaderAt(cfg: BuildConfig, total: byte, i: nat): ChunkHeader {
    ChunkHeader(
      if i < total then PacketType.Data else PacketType.Parity,
      cfg.lastInStream && i == total + cfg.parityCount - 1,
      cfg.messageId, cfg.codec, cfg.codecParam, cfg.streamSeq,
      (if i < total then i else i - total) % 256,
      total, cfg.parityCount)
  }

  /** The unpadded body of every frame, DATA first. */
  function Bodies(coder: Coder, audio: Bytes, cfg: BuildConfig): seq<Bytes>
    requires cfg.chunkSize > 0
  {
    var chunks := Chunks(audio, cfg.chunkSize);
    chunks + ParityShards(coder, PadAll(chunks, cfg.chunkSize), cfg.chunkSize, cfg.parityCount)
  }

  function Frames(tag: TagFn, cfg: BuildConfig, total: byte, bodies: seq<Bytes>): seq<Bytes> {
    seq(|bodies|, i requires 0 <= i < |bodies| => HeaderAt(cfg, total, i).Wire(tag) + bodies[i])
  }

  /** What the chunker accepts. */
  predicate Buildable(coder: Coder, audio: Bytes, cfg: BuildConfig) {
    && MIN_CHUNK_SIZE <= cfg.chunkSize <= MAX_BODY_SIZE
    && audio != []
    && CeilDiv(|audio|, cfg.chunkSize) <= MAX_CHUNKS_PER_MESSAGE
    && cfg.parityCount <= MAX_PARITY_PER_MESSAGE
    && CeilDiv(|audio|, cfg.chunkSize) + cfg.parityCount <= MAX_TOTAL_SHARDS
    && (cfg.parityCount > 0 ==> !coder.refuses(CeilDiv(|audio|, cfg.chunkSize), cfg.parityCount))
  }

  /** The first refusal that applies, in the order the chunker checks. */
  function Refusal(audio: Bytes, cfg: BuildConfig): VoiceError {
    if cfg.chunkSize < MIN_CHUNK_SIZE then ChunkTooSmall(cfg.chunkSize)
    else if cfg.chunkSize > MAX_BODY_SIZE then ChunkTooLarge(cfg.chunkSize, MAX_BODY_SIZE)
    else if audio == [] then TooShort(0, 1)
    else
      var total := CeilDiv(|audio|, cfg.chunkSize);
      if total > MAX_CHUNKS_PER_MESSAGE then AudioTooLarge(|audio|, MAX_CHUNKS_PER_MESSAGE * cfg.chunkSize)
      else if cfg.parityCount > MAX_PARITY_PER_MESSAGE then TooMuchParity(cfg.parityCount)
      else if total + cfg.parityCount > MAX_TOTAL_SHARDS then TooManyShards(total, cfg.parityCount)
      else Fec
  }

  function Built(tag: TagFn, coder: Coder, audio: Bytes, cfg: BuildConfig): EncodedMessage
    requires Buildable(coder, audio, cfg)
  {
    var total := CeilDiv(|audio|, cfg.chunkSize);
    EncodedMessage(Frames(tag, cfg, total, Bodies(coder, audio, cfg)), total, cfg.parityCount)
  }

  function BuildSpec(tag: TagFn, coder: Coder, audio: Bytes, cfg: BuildConfig): Result<EncodedMessage, VoiceError> {
    if Buildable(coder, audio, cfg) then Ok(Built(tag, coder, audio, cfg)) else Err(Refusal(audio, cfg))
  }

  lemma ChunkCount(len: nat, size: nat)
    requires size > 0
    ensures CeilDiv(len, size) <= MAX_CHUNKS_PER_MESSAGE <==> len <= MAX_CHUNKS_PER_MESSAGE * size
    ensures len > 0 ==> CeilDiv(len, size) > 0
  {
    CeilDivBounds(len, size);
    var q := CeilDiv(len, size);
    if q <= 255 {
      MulMono(q, 255, size);
    } else {
      MulMono(255, q - 1, size);
    }
    if q == 0 {
      assert q * size == 0;
    }
  }

  /**
    Which messages are built, and why the others are refused, in numbers: chunks of 16 to 215 bytes, some audio, at most 255 chunks of it,
    at most 128 parity chunks, at most 256 of both, and no refusal of the coder. The first limit broken is the one named.
   */
  lemma BuildOutcome(tag: TagFn, coder: Coder, audio: Bytes, cfg: BuildConfig, total: nat)
    requires cfg.chunkSize > 0 ==> total == CeilDiv(|audio|, cfg.chunkSize)
    ensures var r := BuildSpec(tag, coder, audio, cfg);
            if cfg.chunkSize < 16 then r == Err(ChunkTooSmall(cfg.chunkSize))
            else if cfg.chunkSize > 215 then r == Err(ChunkTooLarge(cfg.chunkSize, 215))
            else if audio == [] then r == Err(TooShort(0, 1))
            else if total > 255 then r == Err(AudioTooLarge(|audio|, 255 * cfg.chunkSize))
            else if cfg.parityCount > 128 then r == Err(TooMuchParity(cfg.parityCount))
            else if total + cfg.parityCount > 256 then r == Err(TooManyShards(total, cfg.parityCount))
            else if cfg.parityCount > 0 && coder.refuses(total, cfg.parityCount) then r == Err(Fec)
            else r.Ok? && r.value.totalData == total && r.value.parityCount == cfg.parityCount
  {
  }

  /** Success exactly on `Buildable`; a refusal names the first limit broken. */
  method BuildMessage(tag: TagFn, coder: Coder, audio: Bytes, cfg: BuildConfig)
    returns (r: Result<EncodedMessage, VoiceError>)
    ensures r == BuildSpec(tag, coder, audio, cfg)
    ensures r.Ok? <==> Buildable(coder, audio, cfg)
  {
    if cfg.chunkSize < MIN_CHUNK_SIZE {
      return Err(ChunkTooSmall(cfg.chunkSize));
    }
    if cfg.chunkSize > MAX_BODY_SIZE {
      return Err(ChunkTooLarge(cfg.chunkSize, MAX_BODY_SIZE));
    }
    if audio == [] {
      return Err(TooShort(0, 1));
    }
    var total := CeilDiv(|audio|, cfg.chunkSize);
    if total > MAX_CHUNKS_PER_MESSAGE {
      return Err(AudioTooLarge(|audio|, MAX_CHUNKS_PER_MESSAGE * cfg.chunkSize));
    }
    if cfg.parityCount > MAX_PARITY_PER_MESSAGE {
      return Err(TooMuchParity(cfg.parityCount));
    }
    if total + cfg.parityCount > MAX_TOTAL_SHARDS {
      return Err(TooManyShards(total, cfg.parityCount));
    }
    if cfg.parityCount > 0 && coder.refuses(total, cfg.parityCount) {
      return Err(Fec);
    }
    var shards := DataShards(audio, cfg.chunkSize);
    var lastDataLen := |audio| - (total - 1) * cfg.chunkSize;
    shards := shards + ParityShards(coder, shards, cfg.chunkSize, cfg.parityCount);
    BodiesShape(coder, audio, cfg);
    var frames := FrameShards(tag, cfg, total, lastDataLen, shards, Bodies(coder, audio, cfg));
    r := Ok(EncodedMessage(frames, total, cfg.parityCount));
  }

  method DataShards(audio: Bytes, size: nat) returns (shards: seq<Bytes>)
    requires size > 0
    ensures shards == PadAll(Chunks(audio, size), size)
  {
    shards := [];
    ghost var done: seq<Bytes> := [];
    var rest := audio;
    while rest != []
      invariant shards == PadAll(done, size)
      invariant done + Chunks(rest, size) == Chunks(audio, size)
      decreases |rest|
    {
      var chunk := rest[..Min(size, |rest|)];
      shards := shards + [Pad(chunk, size)];
      done := done + [chunk];
      rest := rest[|chunk|..];
    }
  }

  /** Trimming the last DATA shard is all that separates the shards from the bodies sent. */
  lemma BodiesShape(coder: Coder, audio: Bytes, cfg: BuildConfig)
    requires Buildable(coder, audio, cfg)
    ensures var chunks := Chunks(audio, cfg.chunkSize);
            var bodies := Bodies(coder, audio, cfg);
            var data := PadAll(chunks, cfg.chunkSize);
            var shards := data + ParityShards(coder, data, cfg.chunkSize, cfg.parityCount);
            var total := CeilDiv(|audio|, cfg.chunkSize);
            var lastLen := |audio| - (total - 1) * cfg.chunkSize;
            && |chunks| == total && |bodies| == |shards| == total + cfg.parityCount
            && 0 < lastLen <= cfg.chunkSize
            && (forall i :: 0 <= i < total ==> bodies[i] == chunks[i])
            && (forall i :: 0 <= i < |shards| ==> |shards[i]| == cfg.chunkSize)
            && (forall i :: 0 <= i < |shards| ==> bodies[i] == if i == total - 1 then shards[i][..lastLen] else shards[i])
  {
    ChunksShape(audio, cfg.chunkSize);
    var chunks := Chunks(audio, cfg.chunkSize);
    var data := PadAll(chunks, cfg.chunkSize);
    var parity := ParityShards(coder, data, cfg.chunkSize, cfg.parityCount);
    TrimShards(chunks, cfg.chunkSize, |chunks[|chunks| - 1]|);
    TrimWithParity(chunks, data, parity, cfg.chunkSize, |chunks[|chunks| - 1]|);
  }

  lemma TrimWithParity(chunks: seq<Bytes>, data: seq<Bytes>, parity: seq<Bytes>, size: nat, lastLen: nat)
    requires |chunks| == |data| && lastLen <= size && forall i :: 0 <= i < |data| ==> |data[i]| == size
    requires forall i :: 0 <= i < |data| ==> chunks[i] == if i == |data| - 1 then data[i][..lastLen] else data[i]
    requires forall i :: 0 <= i < |parity| ==> |parity[i]| == size
    ensures var shards, bodies := data + parity, chunks + parity;
            && (forall i :: 0 <= i < |shards| ==> |shards[i]| == size)
            && (forall i :: 0 <= i < |shards| ==> bodies[i] == if i == |data| - 1 then shards[i][..lastLen] else shards[i])
  {
  }

  lemma TrimShards(chunks: seq<Bytes>, size: nat, lastLen: nat)
    requires chunks != [] && lastLen == |chunks[|chunks| - 1]| <= size
    requires forall i :: 0 <= i < |chunks| - 1 ==> |chunks[i]| == size
    ensures var data := PadAll(chunks, size);
            && (forall i :: 0 <= i < |data| ==> |data[i]| == size)
            && (forall i :: 0 <= i < |data| ==> chunks[i] == if i == |data| - 1 then data[i][..lastLen] else data[i])
  {
    var data := PadAll(chunks, size);
    forall i | 0 <= i < |data|
      ensures |data[i]| == size && chunks[i] == if i == |data| - 1 then data[i][..lastLen] else data[i]
    {
      PadTrims(chunks[i], size);
    }
  }

  lemma PadTrims(chunk: Bytes, size: nat)
    requires |chunk| <= size
    ensures |Pad(chunk, size)| == size && Pad(chunk, size)[..|chunk|] == chunk
    ensures |chunk| == size ==> Pad(chunk, size) == chunk
  {
  }

  method FrameShards(tag: TagFn, cfg: BuildConfig, total: byte, lastDataLen: nat, shards: seq<Bytes>,
                     ghost bodies: seq<Bytes>)
    returns (frames: seq<Bytes>)
    requires total > 0 && |shards| == |bodies| == total + cfg.parityCount <= MAX_TOTAL_SHARDS
    requires lastDataLen <= cfg.chunkSize <= MAX_BODY_SIZE
    requires forall i :: 0 <= i < |shards| ==> |shards[i]| == cfg.chunkSize
    requires forall i :: 0 <= i < |shards| ==> bodies[i] == if i == total - 1 then shards[i][..lastDataLen] else shards[i]
    ensures frames == Frames(tag, cfg, total, bodies)
  {
    frames := [];
    for idx := 0 to |shards|
      invariant |frames| == idx
      invariant forall i :: 0 <= i < idx ==> frames[i] == HeaderAt(cfg, total, i).Wire(tag) + bodies[i]
    {
      var isData := idx % 256 < total;
      var body := if idx == total - 1 then shards[idx][..lastDataLen] else shards[idx];
      // The size check made here never fires: a body is at most a chunk long.
      assert HEADER_SIZE + |body| <= MAX_PACKET_SIZE;
      var header := ChunkHeader(
        if isData then PacketType.Data else PacketType.Parity,
        cfg.lastInStream && idx == |shards| - 1,
        cfg.messageId, cfg.codec, cfg.codecParam, cfg.streamSeq,
        if isData then idx % 256 else (idx - total) % 256,
        total, cfg.parityCount);
      assert header == HeaderAt(cfg, total, idx);
      var out := header.Serialize(tag);
      frames := frames + [out[..] + body];
    }
  }

  // ----- what a receiver makes of the frames

  lemma HeaderFits(cfg: BuildConfig, total: byte, i: nat)
    requires cfg.messageId != 0 && total > 0 && cfg.parityCount <= MAX_PARITY_PER_MESSAGE
    requires i < total + cfg.parityCount <= MAX_TOTAL_SHARDS
    ensures HeaderAt(cfg, total, i).WellFormed()
    ensures HeaderAt(cfg, total, i).chunkIndex == (if i < total then i else i - total)
  {
  }

  lemma HeaderParses(tag: TagFn, cfg: BuildConfig, total: byte, i: nat, body: Bytes)
    requires cfg.messageId != 0 && total > 0 && cfg.parityCount <= MAX_PARITY_PER_MESSAGE
    requires i < total + cfg.parityCount <= MAX_TOTAL_SHARDS && |body| <= MAX_BODY_SIZE
    ensures HeaderAt(cfg, total, i).chunkIndex == (if i < total then i else i - total)
    ensures Parse(tag, HeaderAt(cfg, total, i).Wire(tag) + body) == Ok((HeaderAt(cfg, total, i).Canonical(), body))
  {
    HeaderFits(cfg, total, i);
    ParseOfWire(tag, HeaderAt(cfg, total, i), body);
  }

  /** Every frame fits the radio, and parses back to its own place and body: the `u8` indices lose nothing. */
  lemma {:induction false} FrameParses(tag: TagFn, coder: Coder, audio: Bytes, cfg: BuildConfig, i: nat)
    requires Buildable(coder, audio, cfg) && cfg.messageId != 0
    requires i < CeilDiv(|audio|, cfg.chunkSize) + cfg.parityCount
    ensures |Built(tag, coder, audio, cfg).frames| == CeilDiv(|audio|, cfg.chunkSize) + cfg.parityCount
    ensures |Chunks(audio, cfg.chunkSize)| == CeilDiv(|audio|, cfg.chunkSize)
    ensures |Built(tag, coder, audio, cfg).frames[i]| <= MAX_PACKET_SIZE
    ensures Parse(tag, Built(tag, coder, audio, cfg).frames[i]).Ok?
    ensures var total := CeilDiv(|audio|, cfg.chunkSize);
            var (header, body) := Parse(tag, Built(tag, coder, audio, cfg).frames[i]).value;
            && header == ChunkHeader(if i < total then PacketType.Data else PacketType.Parity,
                                     cfg.lastInStream && i == total + cfg.parityCount - 1,
                                     cfg.messageId, VoiceCodecFromByte(cfg.codec.ToByte()), cfg.codecParam, cfg.streamSeq,
                                     if i < total then i else i - total, total, cfg.parityCount)
            && (i < total ==> body == Chunks(audio, cfg.chunkSize)[i])
            && |body| == if i == total - 1 then |audio| - (total - 1) * cfg.chunkSize else cfg.chunkSize
  {
    BodiesShape(coder, audio, cfg);
    var total := CeilDiv(|audio|, cfg.chunkSize);
    var bodies := Bodies(coder, audio, cfg);
    HeaderParses(tag, cfg, total, i, bodies[i]);
  }

  /** `shards` are the chunks of the audio, every one filled up with zeros to the chunk size. */
  ghost predicate Padded(shards: seq<Bytes>, chunks: seq<Bytes>, size: nat) {
    && |shards| == |chunks|
    && forall i :: 0 <= i < |chunks| ==>
         && |chunks[i]| <= |shards[i]| == size
         && shards[i][..|chunks[i]|] == chunks[i] && forall b :: |chunks[i]| <= b < size ==> shards[i][b] == 0
  }

  lemma PadAllPads(chunks: seq<Bytes>, size: nat, shards: seq<Bytes>)
    requires Padded(shards, chunks, size)
    ensures PadAll(chunks, size) == shards
  {
    forall i | 0 <= i < |chunks| ensures Pad(chunks[i], size) == shards[i] {
      assert shards[i] == shards[i][..|chunks[i]|] + shards[i][|chunks[i]|..];
    }
  }

  lemma ParityAt(coder: Coder, chunks: seq<Bytes>, size: nat, count: nat, shards: seq<Bytes>, p: nat, b: nat)
    requires Padded(shards, chunks, size) && p < count && b < size
    ensures var parity := ParityShards(coder, PadAll(chunks, size), size, count);
            |parity| == count && |parity[p]| == size && parity[p][b] == coder.parity(shards, p, b)
  {
    PadAllPads(chunks, size, shards);
  }

  lemma FrameBody(tag: TagFn, cfg: BuildConfig, total: byte, bodies: seq<Bytes>, i: nat)
    requires cfg.messageId != 0 && total > 0 && cfg.parityCount <= MAX_PARITY_PER_MESSAGE
    requires i < |bodies| == total + cfg.parityCount <= MAX_TOTAL_SHARDS && |bodies[i]| <= MAX_BODY_SIZE
    ensures Parse(tag, Frames(tag, cfg, total, bodies)[i]).Ok?
    ensures Parse(tag, Frames(tag, cfg, total, bodies)[i]).value.1 == bodies[i]
  {
    HeaderParses(tag, cfg, total, i, bodies[i]);
  }

  /** The frame after the DATA frames and `p` parity frames parses to the body of that place. */
  lemma ParityParses(tag: TagFn, coder: Coder, audio: Bytes, cfg: BuildConfig, p: nat, at: nat)
    requires Buildable(coder, audio, cfg) && cfg.messageId != 0 && p < cfg.parityCount
    requires at == CeilDiv(|audio|, cfg.chunkSize) + p
    ensures at < |Built(tag, coder, audio, cfg).frames| && at < |Bodies(coder, audio, cfg)|
    ensures Parse(tag, Built(tag, coder, audio, cfg).frames[at]).Ok?
    ensures Parse(tag, Built(tag, coder, audio, cfg).frames[at]).value.1 == Bodies(coder, audio, cfg)[at]
  {
    BodiesShape(coder, audio, cfg);
    FrameBody(tag, cfg, CeilDiv(|audio|, cfg.chunkSize), Bodies(coder, audio, cfg), at);
  }

  lemma ParityBodies(coder: Coder, audio: Bytes, cfg: BuildConfig, p: nat)
    requires Buildable(coder, audio, cfg) && p < cfg.parityCount
    ensures CeilDiv(|audio|, cfg.chunkSize) + p < |Bodies(coder, audio, cfg)|
    ensures var chunks := Chunks(audio, cfg.chunkSize);
            Bodies(coder, audio, cfg)[CeilDiv(|audio|, cfg.chunkSize) + p]
            == ParityShards(coder, PadAll(chunks, cfg.chunkSize), cfg.chunkSize, cfg.parityCount)[p]
  {
    BodiesShape(coder, audio, cfg);
  }

  /** Byte `b` of parity frame `p` is the coder's, over the padded chunks. */
  lemma ParityBody(tag: TagFn, coder: Coder, audio: Bytes, cfg: BuildConfig, shards: seq<Bytes>, p: nat, b: nat)
    requires Buildable(coder, audio, cfg) && cfg.messageId != 0 && p < cfg.parityCount && b < cfg.chunkSize
    requires Padded(shards, Chunks(audio, cfg.chunkSize), cfg.chunkSize)
    ensures CeilDiv(|audio|, cfg.chunkSize) + p < |Built(tag, coder, audio, cfg).frames|
    ensures var parsed := Parse(tag, Built(tag, coder, audio, cfg).frames[CeilDiv(|audio|, cfg.chunkSize) + p]);
            parsed.Ok? && |parsed.value.1| == cfg.chunkSize && parsed.value.1[b] == coder.parity(shards, p, b)
  {
    ParityParses(tag, coder, audio, cfg, p, CeilDiv(|audio|, cfg.chunkSize) + p);
    ParityBodies(coder, audio, cfg, p);
    ParityAt(coder, Chunks(audio, cfg.chunkSize), cfg.chunkSize, cfg.parityCount, shards, p, b);
  }

  /** The body of the latest DATA frame received for chunk `i`. */
  function Received(tag: TagFn, arrivals: seq<Bytes>, i: byte): Bytes {
    if arrivals == [] then []
    else
      var parsed := Parse(tag, arrivals[|arrivals| - 1]);
      if parsed.Ok? && parsed.value.0.packetType.Data? && parsed.value.0.chunkIndex == i then parsed.value.1
      else Received(tag, arrivals[..|arrivals| - 1], i)
  }

  /** The DATA bodies in index order. */
  function Reassembled(tag: TagFn, arrivals: seq<Bytes>, n: byte): Bytes {
    if n == 0 then [] else Reassembled(tag, arrivals, n - 1) + Received(tag, arrivals, n - 1)
  }

  /** `arrivals` are frames of the message, and DATA frames `0..n` are all among them. */
  ghost predicate Arrived(m: EncodedMessage, arrivals: seq<Bytes>, n: nat) {
    && n <= |m.frames|
    && (forall f :: f in arrivals ==> f in m.frames)
    && (forall i :: 0 <= i < n ==> m.frames[i] in arrivals)
  }

  lemma {:induction false} ReceivedIsChunk(tag: TagFn, coder: Coder, audio: Bytes, cfg: BuildConfig, arrivals: seq<Bytes>,
                                           i: byte)
    requires Buildable(coder, audio, cfg) && cfg.messageId != 0
    requires i < |Chunks(audio, cfg.chunkSize)| == CeilDiv(|audio|, cfg.chunkSize)
    requires i < |Built(tag, coder, audio, cfg).frames| == CeilDiv(|audio|, cfg.chunkSize) + cfg.parityCount
    requires forall f :: f in arrivals ==> f in Built(tag, coder, audio, cfg).frames
    requires Built(tag, coder, audio, cfg).frames[i] in arrivals
    ensures Received(tag, arrivals, i) == Chunks(audio, cfg.chunkSize)[i]
  {
    var frames := Built(tag, coder, audio, cfg).frames;
    var last, before := arrivals[|arrivals| - 1], arrivals[..|arrivals| - 1];
    assert arrivals == before + [last];
    assert last in arrivals;
    var j :| 0 <= j < |frames| && frames[j] == last;
    FrameParses(tag, coder, audio, cfg, j);
    if j != i {
      if frames[i] == last {
        FrameParses(tag, coder, audio, cfg, i);
      } else {
        ReceivedIsChunk(tag, coder, audio, cfg, before, i);
      }
    }
  }

  /** A byte string that ends in the latest chunk is the concatenation of one chunk more. */
  lemma {:induction false} ChunkAppended(chunks: seq<Bytes>, n: nat, before: Bytes, last: Bytes)
    requires 0 < n <= |chunks| && before == Flatten(chunks[..n - 1]) && last == chunks[n - 1]
    ensures before + last == Flatten(chunks[..n])
  {
    assert chunks[..n] == chunks[..n - 1] + [chunks[n - 1]];
    FlattenSnoc(chunks[..n - 1], chunks[n - 1]);
  }

  lemma {:induction false} PrefixReassembles(tag: TagFn, coder: Coder, audio: Bytes, cfg: BuildConfig, arrivals: seq<Bytes>,
                                             n: byte)
    requires Buildable(coder, audio, cfg) && cfg.messageId != 0
    requires n <= CeilDiv(|audio|, cfg.chunkSize) == |Chunks(audio, cfg.chunkSize)|
    requires |Built(tag, coder, audio, cfg).frames| == CeilDiv(|audio|, cfg.chunkSize) + cfg.parityCount
    requires Arrived(Built(tag, coder, audio, cfg), arrivals, n)
    ensures Reassembled(tag, arrivals, n) == Flatten(Chunks(audio, cfg.chunkSize)[..n])
  {
    if n > 0 {
      PrefixReassembles(tag, coder, audio, cfg, arrivals, n - 1);
      ReceivedIsChunk(tag, coder, audio, cfg, arrivals, n - 1);
      ChunkAppended(Chunks(audio, cfg.chunkSize), n, Reassembled(tag, arrivals, n - 1), Received(tag, arrivals, n - 1));
    }
  }

  /**
    No audio is lost or reordered by the radio: whatever order the frames arrive in, however often each, with
    or without the parity, the DATA bodies in index order are the audio once every DATA frame has come.
   */
  lemma {:induction false} AnyArrivalReassembles(tag: TagFn, coder: Coder, audio: Bytes, cfg: BuildConfig, arrivals: seq<Bytes>)
    requires Buildable(coder, audio, cfg) && cfg.messageId != 0
    requires Arrived(Built(tag, coder, audio, cfg), arrivals, Built(tag, coder, audio, cfg).totalData)
    ensures Reassembled(tag, arrivals, Built(tag, coder, audio, cfg).totalData) == audio
  {
    ChunksShape(audio, cfg.chunkSize);
    FrameParses(tag, coder, audio, cfg, 0);
    var m := Built(tag, coder, audio, cfg);
    var chunks := Chunks(audio, cfg.chunkSize);
    PrefixReassembles(tag, coder, audio, cfg, arrivals, m.totalData);
    assert chunks[..m.totalData] == chunks;
  }
}
