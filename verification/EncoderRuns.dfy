/** The encoder over a whole capture: its payload does not depend on how the capture was cut into pushes. */
module EncoderRuns {
  import opened Words
  import opened Bits
  import opened Header
  import opened Frames
  import opened Pcm
  import opened Encoder
  import opened Decode
  import G = DecodeGuarantees
  import R = Resampler
  import S = ResamplerStream

  /** A fresh encoder after a run of pushes; the caller stops at the first error. */
  function Run(c: Codec, pushes: seq<R.Samples>): (result: (Enc, R.Position, bool))
    requires c.Valid()
    ensures c.Rates().HistoryFits(result.1.history)
  {
    if pushes == [] then (Enc([], [], []), R.Fresh(c.Rates()), true)
    else
      var (s, at, ok) := Run(c, pushes[..|pushes| - 1]);
      if ok then EncPushSpec(c, s, at, pushes[|pushes| - 1]) else (s, at, false)
  }

  /** The frames fed to the codec, and the payload of the finished capture. */
  function Capture(c: Codec, pushes: seq<R.Samples>): (seq<Frame>, Result<Bytes, CodecError>)
    requires c.Valid()
  {
    var (s, _, ok) := Run(c, pushes);
    if ok then FinishSpec(c, s) else (s.fed, Err(EncoderFailed))
  }

  /** The whole signal at the codec's rate. */
  function Signal(c: Codec, pushes: seq<R.Samples>): R.Samples
    requires c.Valid()
  {
    if c.format.OpusFormat? then Flatten(pushes) else S.Feed(c.Rates(), pushes).1
  }

  /** The same encoder given the whole signal at once. */
  function OneShot(c: Codec, signal: R.Samples): (seq<Frame>, Result<Bytes, CodecError>)
    requires c.Valid()
  {
    var (s, ok) := Drain(c, Enc([], signal, []));
    if ok then FinishSpec(c, s) else (s.fed, Err(EncoderFailed))
  }

  // ----- pushing in pieces is pushing at once

  /** Samples that arrive later change nothing about the frames already complete. */
  lemma {:induction false} DrainAppend(c: Codec, s: Enc, more: R.Samples)
    requires c.Valid()
    ensures var (t, ok) := Drain(c, s);
            var later := t.(scratch := t.scratch + more);
            Drain(c, s.(scratch := s.scratch + more)) == if ok then Drain(c, later) else (later, false)
    decreases |s.scratch|
  {
    var n := c.format.SamplesPerFrame();
    if |s.scratch| >= n {
      var fed := s.fed + [ToFrame(s.scratch[..n])];
      assert (s.scratch + more)[..n] == s.scratch[..n] && (s.scratch + more)[n..] == s.scratch[n..] + more;
      match c.Answer(fed)
      case None =>
      case Some(answer) =>
        DrainAppend(c, Enc(fed, s.scratch[n..], s.payload + c.Stored(answer)), more);
    }
  }

  lemma SignalGrows(c: Codec, before: seq<R.Samples>, last: R.Samples)
    requires c.Valid()
    ensures var at := if c.format.OpusFormat? then R.Fresh(c.Rates()) else S.Feed(c.Rates(), before).0;
            Signal(c, before + [last]) == Signal(c, before) + Intake(c, at, last).1
  {
    assert (before + [last])[..|before|] == before;
    FlattenSnoc(before, last);
  }

  lemma {:induction false} RunIsDrain(c: Codec, pushes: seq<R.Samples>)
    requires c.Valid()
    ensures var (s, at, ok) := Run(c, pushes);
            var (t, all) := Drain(c, Enc([], Signal(c, pushes), []));
            && ok == all && s.fed == t.fed && s.payload == t.payload
            && (ok ==> s == t && at == if c.format.OpusFormat? then R.Fresh(c.Rates()) else S.Feed(c.Rates(), pushes).0)
  {
    if pushes != [] {
      var before, last := pushes[..|pushes| - 1], pushes[|pushes| - 1];
      assert pushes == before + [last];
      RunIsDrain(c, before);
      SignalGrows(c, before, last);
      var at := if c.format.OpusFormat? then R.Fresh(c.Rates()) else S.Feed(c.Rates(), before).0;
      DrainAppend(c, Enc([], Signal(c, before), []), Intake(c, at, last).1);
    }
  }

  /** The capture, error cases included, is that of the whole signal pushed at once. */
  lemma CaptureIsOneShot(c: Codec, pushes: seq<R.Samples>)
    requires c.Valid()
    ensures Capture(c, pushes) == OneShot(c, Signal(c, pushes))
  {
    RunIsDrain(c, pushes);
  }

  /** Frames, payload and errors depend only on the samples, never on how they were cut into pushes. */
  lemma {:induction false} CaptureIgnoresSplits(c: Codec, p: seq<R.Samples>, q: seq<R.Samples>)
    requires c.Valid() && Flatten(p) == Flatten(q)
    ensures Capture(c, p) == Capture(c, q)
  {
    CaptureIsOneShot(c, p);
    CaptureIsOneShot(c, q);
    assert c.Rates().src % c.Rates().dst == 0;
    S.WholeRatioIsIndependent(c.Rates());
  }

  // ----- what the codec is fed, and what comes of it

  /** The signal in frames, the last one padded with silence. */
  function FramesOf(c: Codec, signal: R.Samples): seq<Frame>
    requires c.Valid()
  {
    var n := c.format.SamplesPerFrame();
    var chunks := Chunks(signal, n);
    seq(|chunks|, i requires 0 <= i < |chunks| => ToFrame(Resize(chunks[i], n, 0.0)))
  }

  predicate Partial(c: Codec, signal: R.Samples)
    requires c.Valid()
  {
    var n := c.format.SamplesPerFrame();
    var chunks := Chunks(signal, n);
    chunks != [] && |chunks[|chunks| - 1]| < n
  }

  /** The codec's answers to a list of frames, unless it refuses one. */
  function Answers(c: Codec, fed: seq<Frame>, frames: seq<Frame>): Option<seq<Bytes>>
    decreases |frames|
  {
    if frames == [] then Some([])
    else
      var fed' := fed + [frames[0]];
      var rest := Answers(c, fed', frames[1..]);
      if c.Answer(fed').Some? && rest.Some? then Some([c.Answer(fed').value] + rest.value) else None
  }

  function StoredAll(c: Codec, answers: seq<Bytes>): seq<Bytes> {
    seq(|answers|, i requires 0 <= i < |answers| => c.Stored(answers[i]))
  }

  lemma FramesUnfold(c: Codec, signal: R.Samples)
    requires c.Valid() && signal != []
    ensures var n := c.format.SamplesPerFrame();
            |signal| < n ==> FramesOf(c, signal) == [ToFrame(Resize(signal, n, 0.0))] && Partial(c, signal)
    ensures var n := c.format.SamplesPerFrame();
            |signal| >= n ==>
              && FramesOf(c, signal) == [ToFrame(signal[..n])] + FramesOf(c, signal[n..])
              && (Partial(c, signal) <==> Partial(c, signal[n..]))
  {
    var n := c.format.SamplesPerFrame();
    if |signal| < n {
      assert Chunks(signal, n) == [signal[..|signal|]] + Chunks(signal[|signal|..], n);
      assert signal[..|signal|] == signal && Chunks(signal[|signal|..], n) == [];
    } else {
      var rest := Chunks(signal[n..], n);
      assert Chunks(signal, n) == [signal[..n]] + rest;
      assert Resize(signal[..n], n, 0.0) == signal[..n];
      var all, tail := FramesOf(c, signal), FramesOf(c, signal[n..]);
      assert forall i :: 0 < i < |all| ==> all[i] == tail[i - 1];
    }
  }

  lemma StoredFirst(c: Codec, payload: Bytes, answers: seq<Bytes>)
    requires answers != []
    ensures payload + Flatten(StoredAll(c, answers)) == payload + c.Stored(answers[0]) + Flatten(StoredAll(c, answers[1..]))
  {
    assert StoredAll(c, answers)[1..] == StoredAll(c, answers[1..]);
  }

  lemma StoredOne(c: Codec, payload: Bytes, answer: Bytes)
    ensures payload + Flatten(StoredAll(c, [answer])) == payload + c.Stored(answer)
  {
    StoredFirst(c, payload, [answer]);
    assert StoredAll(c, [answer][1..]) == [];
  }

  lemma AcceptedTail(c: Codec, s: Enc, frames: seq<Frame>, answers: seq<Bytes>)
    requires c.Valid() && |s.scratch| < c.format.SamplesPerFrame()
    requires frames == FramesOf(c, s.scratch) && Answers(c, s.fed, frames) == Some(answers)
    ensures FinishSpec(c, s) == (s.fed + frames, Ok(s.payload + Flatten(StoredAll(c, answers))))
  {
    if s.scratch == [] {
      assert frames == [] && StoredAll(c, []) == [];
      assert s.fed + frames == s.fed && s.payload + Flatten(StoredAll(c, answers)) == s.payload;
    } else {
      FramesUnfold(c, s.scratch);
      assert frames[1..] == [];
      var answer := c.Answer(s.fed + [frames[0]]).value;
      StoredOne(c, s.payload, answer);
      assert answers == [answer];
    }
  }

  /** Every frame accepted: the codec is fed exactly the frames of the signal, and the payload is its answers. */
  lemma {:induction false} AcceptedFrom(c: Codec, s: Enc, frames: seq<Frame>, answers: seq<Bytes>)
    requires c.Valid() && frames == FramesOf(c, s.scratch) && Answers(c, s.fed, frames) == Some(answers)
    ensures Drain(c, s).1
    ensures FinishSpec(c, Drain(c, s).0) == (s.fed + frames, Ok(s.payload + Flatten(StoredAll(c, answers))))
    decreases |s.scratch|
  {
    var n := c.format.SamplesPerFrame();
    if |s.scratch| < n {
      AcceptedTail(c, s, frames, answers);
    } else {
      FramesUnfold(c, s.scratch);
      var rest := FramesOf(c, s.scratch[n..]);
      assert frames[1..] == rest;
      var next := Enc(s.fed + [frames[0]], s.scratch[n..], s.payload + c.Stored(answers[0]));
      AcceptedFrom(c, next, rest, answers[1..]);
      StoredFirst(c, s.payload, answers);
      assert next.fed + rest == s.fed + frames;
    }
  }

  /** A frame refused: an error, unless it is an AMR-NB capture's own partial last frame, which is dropped. */
  lemma {:induction false} RefusedFrom(c: Codec, s: Enc)
    requires c.Valid() && Answers(c, s.fed, FramesOf(c, s.scratch)).None?
    ensures var (t, ok) := Drain(c, s);
            var frames := FramesOf(c, s.scratch);
            var kept := Answers(c, s.fed, frames[..|frames| - 1]);
            if c.format.AmrNbFormat? && Partial(c, s.scratch) && kept.Some?
            then ok && FinishSpec(c, t).1 == Ok(s.payload + Flatten(StoredAll(c, kept.value)))
            else !ok || FinishSpec(c, t).1 == Err(EncoderFailed)
    decreases |s.scratch|
  {
    var n := c.format.SamplesPerFrame();
    var frames := FramesOf(c, s.scratch);
    FramesUnfold(c, s.scratch);
    if |s.scratch| < n {
      assert frames[..0] == [] && frames[1..] == [] && StoredAll(c, []) == [] && s.payload + [] == s.payload;
    } else {
      var fed := s.fed + [frames[0]];
      var rest := FramesOf(c, s.scratch[n..]);
      assert frames[1..] == rest;
      if c.Answer(fed).None? {
        if |frames| == 1 {
          assert !Partial(c, s.scratch);
        }
      } else {
        RefusedFrom(c, Enc(fed, s.scratch[n..], s.payload + c.Stored(c.Answer(fed).value)));
        var init := frames[..|frames| - 1];
        assert init[1..] == rest[..|rest| - 1];
        if Answers(c, s.fed, init).Some? {
          StoredFirst(c, s.payload, Answers(c, s.fed, init).value);
        }
      }
    }
  }

  lemma AcceptedCapture(c: Codec, pushes: seq<R.Samples>, answers: seq<Bytes>)
    requires c.Valid() && Answers(c, [], FramesOf(c, Signal(c, pushes))) == Some(answers)
    ensures Capture(c, pushes) == (FramesOf(c, Signal(c, pushes)), Ok(Flatten(StoredAll(c, answers))))
  {
    CaptureIsOneShot(c, pushes);
    var frames := FramesOf(c, Signal(c, pushes));
    AcceptedFrom(c, Enc([], Signal(c, pushes), []), frames, answers);
    var payload := Flatten(StoredAll(c, answers));
    assert [] + frames == frames && [] + payload == payload;
  }

  lemma RefusedCapture(c: Codec, pushes: seq<R.Samples>)
    requires c.Valid() && Answers(c, [], FramesOf(c, Signal(c, pushes))).None?
    ensures var frames := FramesOf(c, Signal(c, pushes));
            var kept := Answers(c, [], frames[..|frames| - 1]);
            Capture(c, pushes).1 ==
              if c.format.AmrNbFormat? && Partial(c, Signal(c, pushes)) && kept.Some?
              then Ok(Flatten(StoredAll(c, kept.value))) else Err(EncoderFailed)
  {
    CaptureIsOneShot(c, pushes);
    var frames := FramesOf(c, Signal(c, pushes));
    RefusedFrom(c, Enc([], Signal(c, pushes), []));
    var kept := Answers(c, [], frames[..|frames| - 1]);
    if kept.Some? {
      assert [] + Flatten(StoredAll(c, kept.value)) == Flatten(StoredAll(c, kept.value));
    }
  }

  /**
    The outcome of every capture, for every codec and every split: the answers to the frames of the signal; an error when a
    frame is refused; and, for AMR-NB only, a payload that silently lacks the partial last frame when only that is refused.
   */
  lemma {:induction false} CaptureOutcome(c: Codec, pushes: seq<R.Samples>)
    requires c.Valid()
    ensures var frames := FramesOf(c, Signal(c, pushes));
            match Answers(c, [], frames)
            case Some(answers) => Capture(c, pushes) == (frames, Ok(Flatten(StoredAll(c, answers))))
            case None =>
              var kept := Answers(c, [], frames[..|frames| - 1]);
              Capture(c, pushes).1 ==
                if c.format.AmrNbFormat? && Partial(c, Signal(c, pushes)) && kept.Some?
                then Ok(Flatten(StoredAll(c, kept.value))) else Err(EncoderFailed)
  {
    match Answers(c, [], FramesOf(c, Signal(c, pushes)))
    case Some(answers) => AcceptedCapture(c, pushes, answers);
    case None => RefusedCapture(c, pushes);
  }

  // ----- the same, in terms of the samples captured and of the library's own answers

  /** Element `b` of chunk `i` is element `i * size + b`, as long as there is one. */
  lemma {:induction false} ChunkAt<T>(s: seq<T>, size: nat, i: nat, b: nat)
    requires size > 0 && b < size && i < |Chunks(s, size)|
    ensures |Chunks(s, size)[i]| <= size
    ensures b < |Chunks(s, size)[i]| <==> i * size + b < |s|
    ensures b < |Chunks(s, size)[i]| ==> Chunks(s, size)[i][b] == s[i * size + b]
    decreases i
  {
    var first := s[..Min(size, |s|)];
    assert Chunks(s, size) == [first] + Chunks(s[|first|..], size);
    if i > 0 {
      ChunkAt(s[|first|..], size, i - 1, b);
      MulSucc(i - 1, size);
    }
  }

  /** Sample `b` of frame `i`: the signal cut every `n` samples, quantised, with silence after its end. */
  lemma FrameSample(c: Codec, signal: R.Samples, i: nat, b: nat)
    requires c.Valid() && i < |FramesOf(c, signal)|
    ensures var n := match c.format { case OpusFormat => 960 case Codec2Format(samples, _) => samples case AmrNbFormat(_, _) => 160 };
            && |FramesOf(c, signal)[i]| == n
            && (b < n ==> FramesOf(c, signal)[i][b] == if i * n + b < |signal| then Quantise(signal[i * n + b]) else 0)
  {
    var n := c.format.SamplesPerFrame();
    if b < n {
      ChunkAt(signal, n, i, b);
      assert Quantise(0.0) == 0;
    }
  }

  /** And sample `k` of the signal: the capture's own for Opus, otherwise its filtered sample `6 k`. */
  lemma SignalSample(c: Codec, pushes: seq<R.Samples>, k: nat)
    requires c.Valid() && k < |Signal(c, pushes)|
    ensures if c.format.OpusFormat? then Signal(c, pushes) == Flatten(pushes)
            else 6 * k < |Flatten(pushes)| && Signal(c, pushes)[k] == S.Smooth(c.Rates(), Flatten(pushes), 6 * k)
  {
    if !c.format.OpusFormat? {
      S.FeedDecimates(c.Rates(), pushes, 6);
      assert k * 6 == 6 * k;
    }
  }

  /** Which codecs a capture can use: Opus, six modes of Codec2 and eight of AMR-NB, each with its frame size. */
  lemma FormatOutcome(codec: VoiceCodec, param: byte)
    ensures var r := FormatFor(codec, param);
            match codec
            case Opus => r == Ok(OpusFormat)
            case Codec2 =>
              if param >= 6 then r == Err(UnknownMode(param))
              else r == Ok(Codec2Format(Codec2FrameSizes(param).value.0, Codec2FrameSizes(param).value.1))
            case AmrNb =>
              if param >= 8 then r == Err(UnknownMode(param))
              else r == Ok(AmrNbFormat(param, 1 + CeilDiv(AMRNB_RATES[param] / 50, 8)))
            case _ => r == Err(UnsupportedCodec(codec))
  {
    AmrnbRates(param);
    Codec2Rates(param);
  }

  /**
    What is stored of the library's answer to the latest frame: an Opus packet up to 1275 bytes, exactly a Codec2 frame whatever came
    back, and an AMR-NB frame only if it has the size of the mode.
   */
  ghost predicate Accepts(c: Codec, fed: seq<Frame>, stored: Bytes) {
    var a := c.encode(fed);
    match c.format
    case OpusFormat => a.Some? && stored <= a.value && |stored| == Min(|a.value|, 1275)
    case Codec2Format(_, bytes) =>
      |stored| == bytes && forall b :: 0 <= b < bytes ==> stored[b] == if a.Some? && b < |a.value| then a.value[b] else 0
    case AmrNbFormat(_, bytes) => a == Some(stored) && |stored| == bytes
  }

  /** An Opus frame is refused if the library fails, an AMR-NB frame also if the answer has another size, a Codec2 frame never. */
  ghost predicate Refuses(c: Codec, fed: seq<Frame>) {
    match c.format
    case OpusFormat => c.encode(fed).None?
    case Codec2Format(_, _) => false
    case AmrNbFormat(_, bytes) => c.encode(fed).None? || |c.encode(fed).value| != bytes
  }

  lemma AcceptsAnswer(c: Codec, fed: seq<Frame>, stored: Bytes)
    ensures Accepts(c, fed, stored) <==> c.Answer(fed) == Some(stored)
    ensures Refuses(c, fed) <==> c.Answer(fed).None?
  {
    var a := c.encode(fed);
    match c.format
    case OpusFormat =>
      if Accepts(c, fed, stored) {
        assert stored == a.value[..Min(|a.value|, 1275)];
      }
    case Codec2Format(_, bytes) =>
      if Accepts(c, fed, stored) {
        assert stored == Resize(if a.Some? then a.value else [], bytes, 0);
      }
    case AmrNbFormat(_, _) =>
  }

  /** How an answer stands in the payload: an Opus packet after its length, high byte first, the others as they are. */
  function Layout(c: Codec, a: Bytes): Bytes {
    (if c.format.OpusFormat? then [|a| / 256 % 256, |a| % 256] else []) + a
  }

  function Packed(c: Codec, answers: seq<Bytes>): Bytes {
    if answers == [] then [] else Packed(c, answers[..|answers| - 1]) + Layout(c, answers[|answers| - 1])
  }

  lemma LengthBytes(n: nat)
    ensures ToBe16(n % 0x1_0000) == [n / 256 % 256, n % 256]
  {
    var m := n % 0x1_0000;
    assert n == 0x1_0000 * (n / 0x1_0000) + m;
    assert n / 256 == 256 * (n / 0x1_0000) + m / 256;
  }

  lemma LayoutIsStored(c: Codec, a: Bytes)
    ensures c.Stored(a) == Layout(c, a)
  {
    LengthBytes(|a|);
  }

  lemma {:induction false} PackedIsStored(c: Codec, answers: seq<Bytes>)
    ensures Flatten(StoredAll(c, answers)) == Packed(c, answers)
  {
    if answers != [] {
      var before, a := answers[..|answers| - 1], answers[|answers| - 1];
      PackedIsStored(c, before);
      LayoutIsStored(c, a);
      assert StoredAll(c, answers) == StoredAll(c, before) + [c.Stored(a)];
      FlattenSnoc(StoredAll(c, before), c.Stored(a));
    }
  }

  lemma {:induction false} AnswersAre(c: Codec, fed: seq<Frame>, frames: seq<Frame>, answers: seq<Bytes>)
    requires |answers| == |frames|
    requires forall i :: 0 <= i < |frames| ==> Accepts(c, fed + frames[..i + 1], answers[i])
    ensures Answers(c, fed, frames) == Some(answers)
    decreases |frames|
  {
    if frames != [] {
      assert frames[..1] == [frames[0]];
      AcceptsAnswer(c, fed + frames[..1], answers[0]);
      forall i | 0 <= i < |frames[1..]| ensures Accepts(c, fed + [frames[0]] + frames[1..][..i + 1], answers[1..][i]) {
        assert fed + [frames[0]] + frames[1..][..i + 1] == fed + frames[..i + 2];
      }
      AnswersAre(c, fed + [frames[0]], frames[1..], answers[1..]);
      assert answers == [answers[0]] + answers[1..];
    }
  }

  lemma {:induction false} AnswersNot(c: Codec, fed: seq<Frame>, frames: seq<Frame>, n: nat)
    requires n < |frames| && c.Answer(fed + frames[..n + 1]).None?
    ensures Answers(c, fed, frames).None?
    decreases n
  {
    if n == 0 {
      assert frames[..1] == [frames[0]];
    } else {
      assert fed + [frames[0]] + frames[1..][..n] == fed + frames[..n + 1];
      AnswersNot(c, fed + [frames[0]], frames[1..], n - 1);
    }
  }

  /**
    A capture through the library's own answers, for every split into pushes: with all frames accepted the payload is what is stored
    of each. With frame `n` the first refused it is an error, except for the partial last frame of an AMR-NB capture, which is left out.
   */
  lemma {:induction false} CaptureStores(c: Codec, pushes: seq<R.Samples>, answers: seq<Bytes>)
    requires c.Valid() && |answers| <= |FramesOf(c, Signal(c, pushes))|
    requires forall i :: 0 <= i < |answers| ==> Accepts(c, FramesOf(c, Signal(c, pushes))[..i + 1], answers[i])
    ensures var frames := FramesOf(c, Signal(c, pushes));
            var n := |answers|;
            if n == |frames| then Capture(c, pushes) == (frames, Ok(Packed(c, answers)))
            else Refuses(c, frames[..n + 1]) ==>
              Capture(c, pushes).1 ==
                if c.format.AmrNbFormat? && n == |frames| - 1 && |Signal(c, pushes)| % 160 != 0 then Ok(Packed(c, answers))
                else Err(EncoderFailed)
  {
    var frames, n := FramesOf(c, Signal(c, pushes)), |answers|;
    PackedIsStored(c, answers);
    CaptureOutcome(c, pushes);
    if n == |frames| {
      AnswersPrefix(c, frames, answers, n);
      assert frames[..n] == frames;
    } else if Refuses(c, frames[..n + 1]) {
      RefusedAt(c, pushes, frames, answers);
    }
  }

  lemma AnswersPrefix(c: Codec, frames: seq<Frame>, answers: seq<Bytes>, n: nat)
    requires n == |answers| <= |frames| && forall i :: 0 <= i < n ==> Accepts(c, frames[..i + 1], answers[i])
    ensures Answers(c, [], frames[..n]) == Some(answers)
  {
    forall i | 0 <= i < n ensures Accepts(c, [] + frames[..n][..i + 1], answers[i]) {
      assert [] + frames[..n][..i + 1] == frames[..i + 1];
    }
    AnswersAre(c, [], frames[..n], answers);
  }

  lemma RefusedAt(c: Codec, pushes: seq<R.Samples>, frames: seq<Frame>, answers: seq<Bytes>)
    requires c.Valid() && frames == FramesOf(c, Signal(c, pushes)) && |answers| < |frames|
    requires forall i :: 0 <= i < |answers| ==> Accepts(c, frames[..i + 1], answers[i])
    requires Refuses(c, frames[..|answers| + 1])
    ensures Capture(c, pushes).1 ==
              if c.format.AmrNbFormat? && |answers| == |frames| - 1 && |Signal(c, pushes)| % 160 != 0
              then Ok(Flatten(StoredAll(c, answers))) else Err(EncoderFailed)
  {
    var n := |answers|;
    AcceptsAnswer(c, frames[..n + 1], []);
    assert [] + frames[..n + 1] == frames[..n + 1];
    AnswersNot(c, [], frames, n);
    CaptureOutcome(c, pushes);
    PartialIff(c, Signal(c, pushes));
    if n == |frames| - 1 {
      AnswersPrefix(c, frames, answers, n);
    } else {
      assert [] + frames[..|frames| - 1][..n + 1] == frames[..n + 1];
      AnswersNot(c, [], frames[..|frames| - 1], n);
    }
  }

  lemma PartialStep(c: Codec, signal: R.Samples)
    requires c.Valid() && signal != []
    ensures var n := c.format.SamplesPerFrame();
            if |signal| < n then Partial(c, signal) else Partial(c, signal) == Partial(c, signal[n..])
  {
    FramesUnfold(c, signal);
  }

  lemma RemainderStep(len: nat, n: nat)
    requires n > 0
    ensures len % n == if len < n then len else (len - n) % n
  {
    G.QuotientStep(len, n);
    if len >= n {
      assert len == len / n * n + len % n;
      assert len - n == (len - n) / n * n + (len - n) % n;
      MulSucc((len - n) / n, n);
    }
  }

  /** The last frame is partial exactly when the frame size does not divide the signal. */
  lemma {:induction false} PartialIff(c: Codec, signal: R.Samples)
    requires c.Valid()
    ensures Partial(c, signal) <==> |signal| % c.format.SamplesPerFrame() != 0
    decreases |signal|
  {
    var n := c.format.SamplesPerFrame();
    RemainderStep(|signal|, n);
    if signal != [] {
      PartialStep(c, signal);
      if |signal| >= n {
        PartialIff(c, signal[n..]);
      }
    }
  }

  /** A capture of one partial frame that the AMR-NB library refuses. */
  lemma OneFrameDropped(c: Codec, pushes: seq<R.Samples>)
    requires c.Valid() && c.format.AmrNbFormat? && |Signal(c, pushes)| == 1
    requires c.Answer([ToFrame(Resize(Signal(c, pushes), 160, 0.0))]).None?
    ensures |FramesOf(c, Signal(c, pushes))| == 1 && Capture(c, pushes).1 == Ok([])
  {
    var frames := FramesOf(c, Signal(c, pushes));
    FramesUnfold(c, Signal(c, pushes));
    assert [] + [frames[0]] == frames && frames[..0] == [];
    CaptureOutcome(c, pushes);
    assert StoredAll(c, []) == [];
  }

  /** `finish` then succeeds with an empty payload. */
  lemma TailDropped()
    ensures exists c: Codec, pushes ::
              && c.Valid() && c.format.AmrNbFormat? && |FramesOf(c, Signal(c, pushes))| == 1
              && Capture(c, pushes).1 == Ok([])
  {
    var c := Codec(AmrNbFormat(0, 13), _ => None, R.Silence(R.TAPS));
    var pushes: seq<R.Samples> := [[0.0]];
    assert Flatten(pushes) == [0.0] + Flatten(pushes[1..]) == [0.0];
    SignalLength(c, pushes);
    OneFrameDropped(c, pushes);
  }

  lemma SixToOne(n: nat)
    ensures CeilDiv(n * 8_000, 48_000) == CeilDiv(n, 6)
  {
    CeilDivBounds(n, 6);
    CeilDivUnique(n * 8_000, 48_000, CeilDiv(n, 6));
  }

  lemma SignalLength(c: Codec, pushes: seq<R.Samples>)
    requires c.Valid()
    ensures |Signal(c, pushes)| == if c.format.OpusFormat? then |Flatten(pushes)| else CeilDiv(|Flatten(pushes)|, 6)
  {
    if !c.format.OpusFormat? {
      S.OutputCount(c.Rates(), pushes);
      SixToOne(|Flatten(pushes)|);
    }
  }

  lemma {:induction false} FrameShape(c: Codec, signal: R.Samples)
    requires c.Valid()
    ensures var n := c.format.SamplesPerFrame();
            var frames, chunks := FramesOf(c, signal), Chunks(signal, n);
            && |frames| == |chunks| == CeilDiv(|signal|, n) && Flatten(chunks) == signal
            && (forall f :: f in frames ==> |f| == n)
            && (forall i :: 0 <= i < |frames| - 1 ==> |chunks[i]| == n && frames[i] == ToFrame(chunks[i]))
  {
    var n := c.format.SamplesPerFrame();
    if signal != [] {
      ChunksShape(signal, n);
    } else {
      CeilDivUnique(0, n, 0);
    }
  }

  /** How many frames a capture of `N` samples makes. */
  lemma {:induction false} FrameCount(c: Codec, pushes: seq<R.Samples>)
    requires c.Valid()
    ensures var samples := |Flatten(pushes)|;
            var n := c.format.SamplesPerFrame();
            |FramesOf(c, Signal(c, pushes))| == CeilDiv(if c.format.OpusFormat? then samples else CeilDiv(samples, 6), n)
  {
    SignalLength(c, pushes);
    FrameShape(c, Signal(c, pushes));
  }

  // ----- what a reader of the payload finds

  lemma {:induction false} AnswerSizes(c: Codec, fed: seq<Frame>, frames: seq<Frame>)
    requires Answers(c, fed, frames).Some?
    ensures |Answers(c, fed, frames).value| == |frames|
    ensures c.format.OpusFormat? ==> forall a :: a in Answers(c, fed, frames).value ==> |a| <= OPUS_BUFFER
    ensures !c.format.OpusFormat? ==> forall a :: a in Answers(c, fed, frames).value ==> |a| == c.format.bytes
    decreases |frames|
  {
    if frames != [] {
      AnswerSizes(c, fed + [frames[0]], frames[1..]);
    }
  }

  lemma {:induction false} Codec2NeverRefuses(c: Codec, fed: seq<Frame>, frames: seq<Frame>)
    requires c.format.Codec2Format?
    ensures Answers(c, fed, frames).Some?
    decreases |frames|
  {
    if frames != [] {
      Codec2NeverRefuses(c, fed + [frames[0]], frames[1..]);
    }
  }

  /** An Opus capture is read back packet for packet. */
  lemma OpusReadsBack(c: Codec, pushes: seq<R.Samples>)
    requires c.Valid() && c.format.OpusFormat? && Capture(c, pushes).1.Ok?
    ensures var answers := Answers(c, [], FramesOf(c, Signal(c, pushes)));
            answers.Some? && OpusWalk(Capture(c, pushes).1.value) == (answers.value, [])
  {
    CaptureOutcome(c, pushes);
    var frames := FramesOf(c, Signal(c, pushes));
    var answers := Answers(c, [], frames).value;
    AnswerSizes(c, [], frames);
    assert StoredAll(c, answers) == PrefixedAll(answers);
    OpusWalkFinds(answers, []);
    assert Flatten(PrefixedAll(answers)) + [] == Flatten(PrefixedAll(answers)) && answers + OpusWalk([]).0 == answers;
  }

  /** A Codec2 capture never fails, and the estimate of its payload is the length of its frames to the millisecond. */
  lemma {:induction false} Codec2Captures(c: Codec, samplesOf: Bytes -> Option<nat>, pushes: seq<R.Samples>, param: byte)
    requires c.Valid() && FormatFor(VoiceCodec.Codec2, param) == Ok(c.format)
    ensures Capture(c, pushes).1.Ok?
    ensures var frames := CeilDiv(CeilDiv(|Flatten(pushes)|, 6), c.format.samples);
            PayloadDurationSpec(samplesOf, Capture(c, pushes).1.value, VoiceCodec.Codec2, param) == frames * c.format.samples / 8
  {
    var frames := FramesOf(c, Signal(c, pushes));
    Codec2NeverRefuses(c, [], frames);
    var answers := Answers(c, [], frames).value;
    AcceptedCapture(c, pushes, answers);
    FrameCount(c, pushes);
    AnswerSizes(c, [], frames);
    PlainStored(c, answers);
    G.WholeClip(answers, c.format.bytes, Flatten(answers));
  }

  /**
    An AMR-NB capture whose codec answers with frames of its own mode is a single-mode clip: 20 ms and 160 decoded samples a
    frame however much of it is lost on the way, as long as the gaps are known; 960 played, with an exact resampler.
   */
  lemma {:induction false} AmrnbCaptures(c: Codec, samplesOf: Bytes -> Option<nat>, dec: Decoder, pushes: seq<R.Samples>, param: byte,
                      partial: Bytes, gaps: seq<Gap>)
    requires c.Valid() && FormatFor(VoiceCodec.AmrNb, param) == Ok(c.format)
    requires var answers := Answers(c, [], FramesOf(c, Signal(c, pushes)));
             answers.Some? && forall a :: a in answers.value ==> a != [] && TocMode(a[0]) == param
    requires Capture(c, pushes).1.Ok? ==> G.Patched(Capture(c, pushes).1.value, partial, gaps)
    ensures Capture(c, pushes).1.Ok?
    ensures var frames := CeilDiv(CeilDiv(|Flatten(pushes)|, 6), 160);
            && DurationWithGaps(samplesOf, partial, gaps, VoiceCodec.AmrNb, param) == 20 * frames
            && AmrnbDecoded(dec, partial, param, gaps).Ok?
            && |AmrnbDecoded(dec, partial, param, gaps).value| == 160 * frames
            && DecodeAmrnbSpec(dec, partial, param, gaps).Ok?
            && |DecodeAmrnbSpec(dec, partial, param, gaps).value| == 960 * frames
  {
    var frames := FramesOf(c, Signal(c, pushes));
    var answers := Answers(c, [], frames).value;
    AnswerSizes(c, [], frames);
    AcceptedCapture(c, pushes, answers);
    PlainStored(c, answers);
    FrameCount(c, pushes);
    SingleModeAnswers(c, answers, param);
    G.LossKeepsTiming(dec, samplesOf, answers, param, partial, gaps);
  }

  lemma SingleModeAnswers(c: Codec, answers: seq<Bytes>, param: byte)
    requires FormatFor(VoiceCodec.AmrNb, param) == Ok(c.format)
    requires forall a :: a in answers ==> a != [] && TocMode(a[0]) == param && |a| == c.format.bytes
    ensures G.SingleMode(answers, param)
  {
  }

  lemma PlainStored(c: Codec, answers: seq<Bytes>)
    requires !c.format.OpusFormat?
    ensures StoredAll(c, answers) == answers
  {
  }
}
