/**
  From a payload to a burst ready to drive (send_prep.rs), with the FEC policy (settings/api.rs) and the
  modem presets (types.rs) it consults.
 */
module SendPrep {
  import opened Words
  import opened Header
  import opened Builder
  import opened Outgoing
  import V = VoiceTx
  import opened Driver

  datatype ModemPreset =
    | ShortTurbo
    | ShortFast
    | ShortSlow
    | MediumFast
    | MediumSlow
    | LongFast
    | LongModerate
    | LongSlow
    | VeryLongSlow
  {
    function PacingMs(): nat {
      match this
      case ShortTurbo => 150
      case ShortFast => 250
      case ShortSlow => 400
      case MediumFast => 500
      case MediumSlow => 700
      case LongFast => 900
      case LongModerate => 1200
      case LongSlow => 1800
      case VeryLongSlow => 3000
    }

    function RecommendedChunkSize(): nat {
      match this
      case ShortTurbo | ShortFast => MAX_BODY_SIZE
      case ShortSlow | MediumFast => 160
      case MediumSlow => 96
      case LongFast => MAX_BODY_SIZE - 12 - 4
      case LongModerate | LongSlow | VeryLongSlow => 48
    }
  }

  /** What the driver paces with, 500 ms when the radio's preset is unknown. */
  function PacingFor(preset: Option<ModemPreset>): nat {
    1_000_000 * if preset.Some? then preset.value.PacingMs() else 500
  }

  datatype VoiceFecMode = Auto | Off | Light | Medium | Heavy
  {
    function Percent(broadcast: bool, preset: Option<ModemPreset>): nat {
      match this
      case Off => 0
      case Light => 10
      case Medium => 25
      case Heavy => 50
      case Auto =>
        if broadcast then 50
        else match preset
          case Some(LongFast) | Some(LongModerate) | Some(LongSlow) | Some(VeryLongSlow) => 33
          case Some(MediumFast) | Some(MediumSlow) => 20
          case Some(ShortTurbo) | Some(ShortFast) | Some(ShortSlow) => 0
          case None => 20
    }

    function Resolve(broadcast: bool, preset: Option<ModemPreset>, total: nat): byte {
      var raw := CeilDiv(total * Percent(broadcast, preset), 100);
      var cap := Min(Min(Min(total, MAX_PARITY_PER_MESSAGE), SaturatingSub(MAX_TOTAL_SHARDS, total)), 255);
      Min(raw, cap)
    }
  }

  /**
    The resolved parity never breaks a limit of the coder. On every message the chunker accepts, it is the mode's
    percentage rounded up, and only the sum limit ever cuts it short.
   */
  lemma ResolveFits(mode: VoiceFecMode, broadcast: bool, preset: Option<ModemPreset>, total: nat)
    ensures var parity := mode.Resolve(broadcast, preset, total);
            && parity <= total && parity <= MAX_PARITY_PER_MESSAGE
            && (total <= MAX_TOTAL_SHARDS ==> total + parity <= MAX_TOTAL_SHARDS)
            && (total <= MAX_CHUNKS_PER_MESSAGE ==>
                  parity == Min(CeilDiv(total * mode.Percent(broadcast, preset), 100), MAX_TOTAL_SHARDS - total))
  {
    var pct := mode.Percent(broadcast, preset);
    CeilDivBounds(total * pct, 100);
    MulMono(pct, 50, total);
    assert pct * total == total * pct;
  }

  /** The parity is `percent` of the chunks, rounded up, or what 256 shards leave room for if that is less. */
  ghost predicate Protects(parity: nat, total: nat, percent: nat) {
    && total + parity <= 256 && (total + parity < 256 ==> total * percent <= 100 * parity)
    && (parity > 0 ==> 100 * (parity - 1) < total * percent)
  }

  lemma ProtectsCeil(total: nat, percent: nat, parity: nat)
    requires total <= 255 && parity == Min(CeilDiv(total * percent, 100), 256 - total)
    ensures Protects(parity, total, percent)
  {
    CeilDivBounds(total * percent, 100);
  }

  /**
    What each mode protects, on every message the chunker accepts: nothing, a tenth, a quarter or a half. Automatic mode protects half of a broadcast, and of a unicast a third (33 percent) at long range, a fifth at medium
    range or on an unknown preset, and nothing at short range.
   */
  lemma ModesProtect(mode: VoiceFecMode, broadcast: bool, preset: Option<ModemPreset>, total: nat)
    requires 0 < total <= 255
    ensures var parity := mode.Resolve(broadcast, preset, total);
            var short := preset == Some(ShortTurbo) || preset == Some(ShortFast) || preset == Some(ShortSlow);
            var medium := preset.None? || preset == Some(MediumFast) || preset == Some(MediumSlow);
            && (mode.Off? || (mode.Auto? && !broadcast && short) ==> parity == 0)
            && (mode.Light? ==> Protects(parity, total, 10))
            && (mode.Medium? ==> Protects(parity, total, 25))
            && (mode.Auto? && !broadcast && medium ==> Protects(parity, total, 20))
            && (mode.Auto? && !broadcast && !medium && !short ==> Protects(parity, total, 33))
            && (mode.Heavy? || (mode.Auto? && broadcast) ==> Protects(parity, total, 50))
  {
    ResolveFits(mode, broadcast, preset, total);
    ProtectsCeil(total, mode.Percent(broadcast, preset), mode.Resolve(broadcast, preset, total));
  }

  datatype PreparedVoice = PreparedVoice(
    messageId: u32,
    totalData: byte,
    parityCount: byte,
    chunkSize: nat,
    frames: V.Queue,
    encoded: EncodedMessage)

  function ChunkSizeFor(preset: Option<ModemPreset>): (r: nat)
    ensures 48 <= r <= MAX_BODY_SIZE
  {
    if preset.Some? then preset.value.RecommendedChunkSize() else MAX_BODY_SIZE
  }

  function Enumerated(frames: seq<Bytes>): V.Queue {
    seq(|frames|, i requires 0 <= i < |frames| => (i % 256, frames[i]))
  }

  function ConfigFor(id: u32, payload: Bytes, codec: VoiceCodec, codecParam: byte, preset: Option<ModemPreset>,
                     broadcast: bool, mode: VoiceFecMode): BuildConfig {
    var chunkSize := ChunkSizeFor(preset);
    var total := Max(CeilDiv(|payload|, chunkSize), 1);
    BuildConfig(id, 0, codec, codecParam, chunkSize, mode.Resolve(broadcast, preset, total), true)
  }

  /** `random` is the four bytes the operating system delivers, if any. */
  function PrepareVoiceSend(tag: TagFn, coder: Coder, random: Option<u32>, payload: Bytes, codec: VoiceCodec,
                            codecParam: byte, preset: Option<ModemPreset>, broadcast: bool, mode: VoiceFecMode)
    : Result<PreparedVoice, VoiceError>
  {
    if random.None? then Err(Rng)
    else
      var id: u32 := Max(random.value, 1);
      var cfg := ConfigFor(id, payload, codec, codecParam, preset, broadcast, mode);
      match BuildSpec(tag, coder, payload, cfg)
      case Err(e) => Err(e)
      case Ok(encoded) =>
        Ok(PreparedVoice(id, encoded.totalData, encoded.parityCount, cfg.chunkSize, Enumerated(encoded.frames), encoded))
  }

  /**
    Preparation fails only without random bytes, on an empty payload, on one longer than 255 chunks, or
    when the coder itself refuses; no mode, preset or destination ever breaks a limit.
   */
  lemma PrepareOutcome(tag: TagFn, coder: Coder, random: Option<u32>, payload: Bytes, codec: VoiceCodec, codecParam: byte,
                       preset: Option<ModemPreset>, broadcast: bool, mode: VoiceFecMode)
    ensures var r := PrepareVoiceSend(tag, coder, random, payload, codec, codecParam, preset, broadcast, mode);
            var most := MAX_CHUNKS_PER_MESSAGE * ChunkSizeFor(preset);
            if random.None? then r == Err(Rng)
            else if payload == [] then r == Err(TooShort(0, 1))
            else if |payload| > most then r == Err(AudioTooLarge(|payload|, most))
            else
              var total := CeilDiv(|payload|, ChunkSizeFor(preset));
              var parity := mode.Resolve(broadcast, preset, total);
              if parity > 0 && coder.refuses(total, parity) then r == Err(Fec)
              else r.Ok? && r.value.totalData == total && r.value.parityCount == parity
  {
    if random.Some? {
      var id: u32 := Max(random.value, 1);
      var cfg := ConfigFor(id, payload, codec, codecParam, preset, broadcast, mode);
      ChunkCount(|payload|, cfg.chunkSize);
      ResolveFits(mode, broadcast, preset, Max(CeilDiv(|payload|, cfg.chunkSize), 1));
    }
  }

  lemma EnumeratedInOrder(frames: seq<Bytes>)
    requires |frames| <= 256
    ensures Numbered(Enumerated(frames), 0) && FramesOf(Enumerated(frames)) == frames
  {
  }

  /**
    The id handed to the caller is the random one, never zero, and it is the id every frame carries on the air, with the codec asked for;
    only the last frame is marked as the last.
   */
  lemma PreparedHeaders(tag: TagFn, coder: Coder, random: Option<u32>, payload: Bytes, codec: VoiceCodec, codecParam: byte,
                        preset: Option<ModemPreset>, broadcast: bool, mode: VoiceFecMode, i: nat)
    requires PrepareVoiceSend(tag, coder, random, payload, codec, codecParam, preset, broadcast, mode).Ok?
    ensures var p := PrepareVoiceSend(tag, coder, random, payload, codec, codecParam, preset, broadcast, mode).value;
            && random.Some? && p.messageId == (if random.value == 0 then 1 else random.value)
            && p.chunkSize == ChunkSizeFor(preset)
            && (i < |p.frames| ==>
                  && Parse(tag, p.frames[i].1).Ok?
                  && var header := Parse(tag, p.frames[i].1).value.0;
                  && header.messageId == p.messageId
                  && header.codec == VoiceCodecFromByte(codec.ToByte()) && header.codecParam == codecParam
                  && header.streamSeq == 0 && header.totalData == p.totalData && header.parityCount == p.parityCount
                  && (header.packetType.Data? <==> i < p.totalData) && (header.packetType.Parity? <==> i >= p.totalData)
                  && (header.lastInStream <==> i == |p.frames| - 1))
  {
    var cfg := ConfigFor(Max(random.value, 1), payload, codec, codecParam, preset, broadcast, mode);
    FrameTotal(coder, tag, payload, cfg);
    if i < |Built(tag, coder, payload, cfg).frames| {
      FrameParses(tag, coder, payload, cfg, i);
    }
  }

  /** Each frame's `u8` index is its position: 256 frames at most, DATA first, all of them the encoded ones. */
  lemma PreparedInOrder(tag: TagFn, coder: Coder, random: Option<u32>, payload: Bytes, codec: VoiceCodec, codecParam: byte,
                        preset: Option<ModemPreset>, broadcast: bool, mode: VoiceFecMode)
    requires PrepareVoiceSend(tag, coder, random, payload, codec, codecParam, preset, broadcast, mode).Ok?
    ensures var p := PrepareVoiceSend(tag, coder, random, payload, codec, codecParam, preset, broadcast, mode).value;
            && Drivable(p)
            && |p.frames| == p.totalData + p.parityCount
            && FramesOf(p.frames) == p.encoded.frames
  {
    var cfg := ConfigFor(Max(random.value, 1), payload, codec, codecParam, preset, broadcast, mode);
    FrameTotal(coder, tag, payload, cfg);
    EnumeratedInOrder(Built(tag, coder, payload, cfg).frames);
  }

  lemma FrameTotal(coder: Coder, tag: TagFn, payload: Bytes, cfg: BuildConfig)
    requires Buildable(coder, payload, cfg)
    ensures var m := Built(tag, coder, payload, cfg);
            |m.frames| == m.totalData + m.parityCount <= 256 && 0 < m.totalData
  {
    BodiesShape(coder, payload, cfg);
    ChunkCount(|payload|, cfg.chunkSize);
  }

  function FramesOf(queue: V.Queue): seq<Bytes> {
    seq(|queue|, i requires 0 <= i < |queue| => queue[i].1)
  }

  /** What the driver relies on. */
  ghost predicate Drivable(p: PreparedVoice) {
    Numbered(p.frames, 0) && 0 < p.totalData <= |p.frames| == |p.encoded.frames|
  }

  /**
    The documented driver, end to end: register the message, then run the transmit machine at the preset's pacing. While
    writes succeed every frame is written once and in order whatever depths the radio reports, each DATA chunk is
    marked once and no parity chunk is, and the retained entry ends with nothing pending. A failed write ends it after a
    prefix.
   */
  method SendPrepared(p: PreparedVoice, registry: OutgoingVoiceRegistry, channel: u32, to: Option<u32>,
                      preset: Option<ModemPreset>, depths: nat -> nat, late: nat -> nat, writes: nat -> bool, start: nat)
    returns (ok: bool, written: V.Queue, marked: seq<byte>)
    requires registry.Valid() && Drivable(p)
    modifies registry`inner
    ensures (forall i :: writes(i)) ==> ok
    ensures ok ==> written == p.frames && marked == Upto(p.totalData)
    ensures !ok ==> |written| < |p.frames| && written == p.frames[..|written|] && marked == Upto(Min(|written|, p.totalData))
    ensures registry.Valid()
    ensures registry.Get(p.messageId)
         == Some(InitialEntry(p.encoded.frames, p.totalData, start).(
                   pending := if ok then {} else DataFrom(|written|, p.totalData)))
  {
    registry.Register(p.messageId, p.encoded.frames, p.totalData, start);
    var tx := new V.VoiceTx(p.totalData, p.frames, channel, to, PacingFor(preset));
    var calls, finish, left;
    ok, written, marked, calls, finish, left := DriveBurst(tx, registry, p.messageId, depths, late, writes, start);
  }

  /**
    How long that takes with punctual sleeps: any burst that can be prepared at all, on any preset and whatever the radio
    reports, is out within 255 gaps of 3 s and 256 stalls of 2.04 s.
   */
  lemma PreparedTime(p: PreparedVoice, channel: u32, to: Option<u32>, preset: Option<ModemPreset>, depths: nat -> nat,
                     late: nat -> nat, start: nat, k: nat)
    requires Drivable(p) && forall i :: late(i) == 0
    requires After(Loop(V.TxState(p.totalData, p.frames, channel, to, PacingFor(preset), None, None), start), depths, late, k).Over()
    ensures var l := Loop(V.TxState(p.totalData, p.frames, channel, to, PacingFor(preset), None, None), start);
            var finish := After(l, depths, late, k).now;
            && finish <= start + LongestBurst(|p.frames|, PacingFor(preset))
            && finish <= start + 255 * Seconds(3) + 256 * 2_040_000_000
  {
    var l := Loop(V.TxState(p.totalData, p.frames, channel, to, PacingFor(preset), None, None), start);
    BurstTime(l, depths, late, k);
    MulMono(|p.frames| - 1, 255, PacingFor(preset));
    MulMono(PacingFor(preset), Seconds(3), 255);
    assert 255 * PacingFor(preset) == PacingFor(preset) * 255;
  }

  /** Bytes to a chunk and milliseconds between frames, by preset. */
  function Figures(preset: Option<ModemPreset>): (nat, nat) {
    match preset
    case None => (215, 500)
    case Some(ShortTurbo) => (215, 150)
    case Some(ShortFast) => (215, 250)
    case Some(ShortSlow) => (160, 400)
    case Some(MediumFast) => (160, 500)
    case Some(MediumSlow) => (96, 700)
    case Some(LongFast) => (199, 900)
    case Some(LongModerate) => (48, 1_200)
    case Some(LongSlow) => (48, 1_800)
    case Some(VeryLongSlow) => (48, 3_000)
  }

  /** What a payload takes on each preset when the radio always has room: so many chunks, and that long a gap after every frame but the last. */
  lemma PresetBurst(tag: TagFn, coder: Coder, random: Option<u32>, payload: Bytes, codec: VoiceCodec, codecParam: byte,
                    preset: Option<ModemPreset>, broadcast: bool, mode: VoiceFecMode, channel: u32, to: Option<u32>,
                    depths: nat -> nat, late: nat -> nat, start: nat, k: nat)
    requires PrepareVoiceSend(tag, coder, random, payload, codec, codecParam, preset, broadcast, mode).Ok?
    requires forall i :: depths(i) > 2 && late(i) == 0
    ensures var p := PrepareVoiceSend(tag, coder, random, payload, codec, codecParam, preset, broadcast, mode).value;
            var l := Loop(V.TxState(p.totalData, p.frames, channel, to, PacingFor(preset), None, None), start);
            var (bytes, ms) := Figures(preset);
            && p.totalData == CeilDiv(|payload|, bytes)
            && (After(l, depths, late, k).Over() ==>
                  After(l, depths, late, k).now == start + (|p.frames| - 1) * (1_000_000 * ms))
  {
    var p := PrepareVoiceSend(tag, coder, random, payload, codec, codecParam, preset, broadcast, mode).value;
    PreparedInOrder(tag, coder, random, payload, codec, codecParam, preset, broadcast, mode);
    BurstOpen(Loop(V.TxState(p.totalData, p.frames, channel, to, PacingFor(preset), None, None), start), depths, late, k);
  }

  /** What that burst carries: a receiver that hears every DATA frame, in any order, has the payload. */
  lemma BurstCarriesPayload(tag: TagFn, coder: Coder, random: Option<u32>, payload: Bytes, codec: VoiceCodec,
                            codecParam: byte, preset: Option<ModemPreset>, broadcast: bool, mode: VoiceFecMode,
                            heard: seq<Bytes>)
    requires PrepareVoiceSend(tag, coder, random, payload, codec, codecParam, preset, broadcast, mode).Ok?
    requires var p := PrepareVoiceSend(tag, coder, random, payload, codec, codecParam, preset, broadcast, mode).value;
             && (forall f :: f in heard ==> f in FramesOf(p.frames))
             && (forall i :: 0 <= i < p.totalData && i < |p.frames| ==> p.frames[i].1 in heard)
    ensures var p := PrepareVoiceSend(tag, coder, random, payload, codec, codecParam, preset, broadcast, mode).value;
            Reassembled(tag, heard, p.totalData) == payload
  {
    PreparedInOrder(tag, coder, random, payload, codec, codecParam, preset, broadcast, mode);
    var cfg := ConfigFor(Max(random.value, 1), payload, codec, codecParam, preset, broadcast, mode);
    var m := Built(tag, coder, payload, cfg);
    forall i | 0 <= i < m.totalData ensures m.frames[i] in heard {
      assert FramesOf(Enumerated(m.frames))[i] == m.frames[i];
    }
    AnyArrivalReassembles(tag, coder, payload, cfg, heard);
  }
}
