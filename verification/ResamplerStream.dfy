/**
  The resampler over a whole capture: which of its results depend on how the capture was cut into pushes.
 */
module ResamplerStream {
  import opened Words
  import opened Resampler

  /** A fresh resampler after a run of pushes: where it stands, and everything it has emitted. */
  function Feed(r: Rates, pushes: seq<Samples>): (result: (Position, Samples))
    requires r.Valid()
    ensures r.HistoryFits(result.0.history)
  {
    if pushes == [] then (Fresh(r), [])
    else
      var (s, out) := Feed(r, pushes[..|pushes| - 1]);
      var (next, emitted) := PushSpec(r, s, pushes[|pushes| - 1]);
      (next, out + emitted)
  }

  /** What the filter looks back on: silence before the first sample. */
  function Line(heard: Samples): Samples {
    Silence(HIST) + heard
  }

  /** The filter applied to the whole capture at once. */
  function Smooth(r: Rates, heard: Samples, p: nat): real
    requires r.Valid() && p < |heard|
  {
    if r.Filters() then Taps(r.coeffs, Line(heard), p + HIST, TAPS) else heard[p]
  }

  /** The cursor stands where the next output belongs, less than one step past the input; the history is the last 62 inputs. */
  ghost predicate InStep(r: Rates, heard: Samples, s: Position, out: Samples) {
    && s.cursor + |heard| * r.dst == |out| * r.src
    && s.cursor < r.src
    && (r.Filters() ==> s.history == Line(heard)[|heard|..])
  }

  lemma StepKept(r: Rates, heard: Samples, s: Position, out: Samples, input: Samples)
    requires r.Valid() && r.HistoryFits(s.history) && InStep(r, heard, s, out)
    ensures InStep(r, heard + input, PushSpec(r, s, input).0, out + PushSpec(r, s, input).1)
  {
    var (next, emitted) := PushSpec(r, s, input);
    if input == [] {
      assert heard + input == heard && out + emitted == out;
    } else {
      EmitEnds(r, Signal(r, s.history, input), s.cursor);
      MulSplit(|heard|, |input|, r.dst);
      MulSplit(|out|, |emitted|, r.src);
      if r.Filters() {
        assert next.history == Line(heard + input)[|heard + input|..];
      }
    }
  }

  lemma {:induction false} FeedInStep(r: Rates, pushes: seq<Samples>)
    requires r.Valid()
    ensures InStep(r, Flatten(pushes), Feed(r, pushes).0, Feed(r, pushes).1)
  {
    if pushes == [] {
      assert Line([])[0..] == Silence(HIST);
    } else {
      var before, last := pushes[..|pushes| - 1], pushes[|pushes| - 1];
      FeedInStep(r, before);
      var (s, out) := Feed(r, before);
      StepKept(r, Flatten(before), s, out, last);
      assert pushes == before + [last];
      FlattenSnoc(before, last);
    }
  }

  lemma CountWithin(due: nat, cursor: nat, n: nat, step: nat)
    requires cursor < step && cursor + due == n * step
    ensures n == CeilDiv(due, step)
  {
    MulSplit(n, -1, step);
    CeilDivUnique(due, step, n);
  }

  /** However a capture of `N` samples is split, `ceil(N * dst / src)` samples come out of it. */
  lemma {:induction false} OutputCount(r: Rates, pushes: seq<Samples>)
    requires r.Valid()
    ensures |Feed(r, pushes).1| == CeilDiv(|Flatten(pushes)| * r.dst, r.src)
  {
    FeedInStep(r, pushes);
    var (s, out) := Feed(r, pushes);
    CountWithin(|Flatten(pushes)| * r.dst, s.cursor, |out|, r.src);
  }

  // ----- the filter across pushes

  lemma {:induction false} TapsShift(coeffs: Samples, line: Samples, n: nat, base: nat, j: nat)
    requires n <= |line| && j <= |coeffs| && n + base < |line| && j <= base + 1
    ensures Taps(coeffs, line[n..], base, j) == Taps(coeffs, line, n + base, j)
  {
    if j > 0 {
      TapsShift(coeffs, line, n, base, j - 1);
      assert line[n..][base - (j - 1)] == line[n + base - (j - 1)];
    }
  }

  lemma {:induction false} TapsPrefix(coeffs: Samples, line: Samples, rest: Samples, base: nat, j: nat)
    requires j <= |coeffs| && base < |line| && j <= base + 1
    ensures Taps(coeffs, line + rest, base, j) == Taps(coeffs, line, base, j)
  {
    if j > 0 {
      TapsPrefix(coeffs, line, rest, base, j - 1);
    }
  }

  /** The filter is causal: later input does not change it. */
  lemma SmoothPrefix(r: Rates, heard: Samples, rest: Samples, p: nat)
    requires r.Valid() && p < |heard|
    ensures Smooth(r, heard + rest, p) == Smooth(r, heard, p)
  {
    TapsPrefix(r.coeffs, Line(heard), rest, p + HIST, TAPS);
    assert Line(heard) + rest == Line(heard + rest);
  }

  /** What a push filters locally is the capture filtered as a whole. */
  lemma SignalIsSmooth(r: Rates, heard: Samples, history: Samples, input: Samples, i: nat)
    requires r.Valid() && r.HistoryFits(history) && i < |input|
    requires r.Filters() ==> history == Line(heard)[|heard|..]
    ensures Signal(r, history, input)[i] == Smooth(r, heard + input, |heard| + i)
  {
    if r.Filters() {
      var line := Line(heard + input);
      assert history + input == line[|heard|..];
      TapsShift(r.coeffs, line, |heard|, i + HIST, TAPS);
    }
  }

  // ----- whole-number ratios

  lemma WholeStep(out: nat, m: nat, cursor: nat, heard: nat, step: nat, dst: nat)
    requires dst > 0 && cursor + heard * dst == out * (step * dst)
    ensures var pos := cursor + m * (step * dst);
            pos / dst == (out + m) * step - heard && pos % dst == 0
  {
    var pos := cursor + m * (step * dst);
    var q := (out + m) * step - heard;
    assert pos == q * dst by {
      MulSplit(out, m, step * dst);
      MulSplit(q, heard, dst);
      assert (out + m) * (step * dst) == ((out + m) * step) * dst;
    }
    MulSplit(q, 1, dst);
    DivUnique(pos, dst, q);
  }

  lemma OnSample(r: Rates, signal: Samples, cursor: nat, m: nat, i: int)
    requires r.Valid() && m < |Emit(r, signal, cursor)|
    requires (cursor + m * r.src) / r.dst == i && (cursor + m * r.src) % r.dst == 0
    ensures 0 <= i < |signal| && Emit(r, signal, cursor)[m] == signal[i]
  {
    EmitAt(r, signal, cursor, m);
    DivBelow(cursor + m * r.src, r.dst, |signal|);
  }

  lemma PushDecimates(r: Rates, heard: Samples, s: Position, out: Samples, input: Samples, step: nat, m: nat)
    requires r.Valid() && r.HistoryFits(s.history) && InStep(r, heard, s, out) && r.src == step * r.dst
    requires input != [] && m < |PushSpec(r, s, input).1|
    ensures 0 <= (|out| + m) * step < |heard + input|
    ensures PushSpec(r, s, input).1[m] == Smooth(r, heard + input, (|out| + m) * step)
  {
    var signal := Signal(r, s.history, input);
    var i := (|out| + m) * step - |heard|;
    EmitAt(r, signal, s.cursor, m);
    DivBelow(s.cursor + m * r.src, r.dst, |signal|);
    WholeStep(|out|, m, s.cursor, |heard|, step, r.dst);
    OnSample(r, signal, s.cursor, m, i);
    SignalIsSmooth(r, heard, s.history, input, i);
  }

  /**
    When the output rate divides the input rate, output `k` is the filtered capture at sample `k * step`, for every
    split into pushes.
   */
  lemma {:induction false} FeedDecimates(r: Rates, pushes: seq<Samples>, step: nat)
    requires r.Valid() && r.src == step * r.dst
    ensures forall k :: 0 <= k < |Feed(r, pushes).1| ==>
              0 <= k * step < |Flatten(pushes)| && Feed(r, pushes).1[k] == Smooth(r, Flatten(pushes), k * step)
  {
    if pushes != [] {
      var before, last := pushes[..|pushes| - 1], pushes[|pushes| - 1];
      FeedDecimates(r, before, step);
      FeedInStep(r, before);
      assert pushes == before + [last];
      FlattenSnoc(before, last);
      var heard := Flatten(before);
      var (s, out) := Feed(r, before);
      forall k | 0 <= k < |Feed(r, pushes).1|
        ensures 0 <= k * step < |heard + last| && Feed(r, pushes).1[k] == Smooth(r, heard + last, k * step)
      {
        if k < |out| {
          SmoothPrefix(r, heard, last, k * step);
        } else {
          PushDecimates(r, heard, s, out, last, step, k - |out|);
        }
      }
    }
  }

  // ----- which ratios stream seamlessly

  ghost predicate SplitIndependent(r: Rates)
    requires r.Valid()
  {
    forall p: seq<Samples>, q: seq<Samples> :: Flatten(p) == Flatten(q) ==> Feed(r, p).1 == Feed(r, q).1
  }

  lemma WholeRatioIsIndependent(r: Rates)
    requires r.Valid() && r.src % r.dst == 0
    ensures SplitIndependent(r)
  {
    var step := r.src / r.dst;
    forall p: seq<Samples>, q: seq<Samples> | Flatten(p) == Flatten(q) ensures Feed(r, p).1 == Feed(r, q).1 {
      FeedDecimates(r, p, step);
      FeedDecimates(r, q, step);
      OutputCount(r, p);
      OutputCount(r, q);
    }
  }

  /** A line that is silent but for a unit sample at `z` picks out one tap. */
  lemma {:induction false} TapsImpulse(coeffs: Samples, line: Samples, z: nat, base: nat, n: nat)
    requires n <= |coeffs| && base < |line| && n <= base + 1
    requires forall i :: 0 <= i < |line| ==> line[i] == if i == z then 1.0 else 0.0
    ensures Taps(coeffs, line, base, n) == if 0 <= base - z < n then coeffs[base - z] else 0.0
  {
    if n > 0 {
      TapsImpulse(coeffs, line, z, base, n - 1);
    }
  }

  function Impulse(n: nat, t: nat): Samples {
    seq(n, i => if i == t then 1.0 else 0.0)
  }

  /** `x` with `y` added `w` times. */
  function Mixed(x: Samples, y: Samples, w: real): Samples
    requires |x| == |y|
  {
    seq(|x|, i requires 0 <= i < |x| => x[i] + w * y[i])
  }

  lemma {:induction false} TapsMixed(coeffs: Samples, x: Samples, y: Samples, w: real, base: nat, j: nat)
    requires |x| == |y| && j <= |coeffs| && base < |x| && j <= base + 1
    ensures Taps(coeffs, Mixed(x, y, w), base, j) == Taps(coeffs, x, base, j) + w * Taps(coeffs, y, base, j)
  {
    if j > 0 {
      TapsMixed(coeffs, x, y, w, base, j - 1);
      var c, a, b := coeffs[j - 1], x[base - (j - 1)], y[base - (j - 1)];
      assert c * (a + w * b) == c * a + w * (c * b);
      assert w * (Taps(coeffs, y, base, j - 1) + c * b) == w * Taps(coeffs, y, base, j - 1) + w * (c * b);
    }
  }

  /** The filter is linear, so what it does to a single sample, its impulse response, is all there is to it. */
  lemma SmoothMixed(r: Rates, x: Samples, y: Samples, w: real, p: nat)
    requires r.Valid() && p < |x| == |y|
    ensures Smooth(r, Mixed(x, y, w), p) == Smooth(r, x, p) + w * Smooth(r, y, p)
  {
    if r.Filters() {
      var mixed, apart := Line(Mixed(x, y, w)), Mixed(Line(x), Line(y), w);
      forall i | 0 <= i < |mixed| ensures mixed[i] == apart[i] {
        assert i < HIST ==> Line(x)[i] == Line(y)[i] == 0.0;
        assert i >= HIST ==> Line(x)[i] == x[i - HIST] && Line(y)[i] == y[i - HIST];
      }
      assert mixed == apart;
      TapsMixed(r.coeffs, Line(x), Line(y), w, p + HIST, TAPS);
    }
  }

  /** A unit sample at `t` is answered `p - t` samples later by tap `p - t`; without the filter, only by itself. */
  lemma ImpulseResponse(r: Rates, n: nat, t: nat, p: nat)
    requires r.Valid() && p < n
    ensures Smooth(r, Impulse(n, t), p)
         == if r.Filters() then (if 0 <= p - t < 63 then r.coeffs[p - t] else 0.0) else (if p == t then 1.0 else 0.0)
  {
    if r.Filters() {
      TapsImpulse(r.coeffs, Line(Impulse(n, t)), HIST + t, p + HIST, TAPS);
    }
  }

  /** The first tap that is not zero has only zeros before it. */
  lemma {:induction false} EdgeTap(r: Rates, from: nat) returns (j: nat)
    requires r.Valid() && from < TAPS && r.coeffs[from] != 0.0
    ensures j < TAPS && r.coeffs[j] != 0.0 && (j > 0 ==> r.coeffs[j - 1] == 0.0)
  {
    if from == 0 || r.coeffs[from - 1] == 0.0 {
      j := from;
    } else {
      j := EdgeTap(r, from - 1);
    }
  }

  /** A push emits output `k` if the `k`-th step is still inside it. */
  lemma EmitReaches(r: Rates, signal: Samples, k: nat)
    requires r.Valid() && k * r.src < |signal| * r.dst
    ensures k < |Emit(r, signal, 0)|
  {
    EmitEnds(r, signal, 0);
    var n := |Emit(r, signal, 0)|;
    if n <= k {
      MulMono(n, k, r.src);
    }
  }

  lemma DivModUnique(g: nat, dst: nat, i: nat)
    requires dst > 0 && i * dst <= g < (i + 1) * dst
    ensures g / dst == i && g % dst == g - i * dst
  {
    DivUnique(g, dst, i);
  }

  lemma EmitFirst(r: Rates, signal: Samples, k: nat, i: nat)
    requires r.Valid() && i < |signal| && i * r.dst <= k * r.src < (i + 1) * r.dst
    ensures k < |Emit(r, signal, 0)| && Emit(r, signal, 0)[k] == SampleAt(signal, i, k * r.src - i * r.dst, r.dst)
  {
    MulMono(i + 1, |signal|, r.dst);
    EmitReaches(r, signal, k);
    EmitAt(r, signal, 0, k);
    DivModUnique(k * r.src, r.dst, i);
  }

  /** Output `k` of a first push that reaches sample `i`, where `k` steps land in sample `i`. */
  lemma FirstPush(r: Rates, input: Samples, k: nat, i: nat)
    requires r.Valid() && i < |input| && i * r.dst <= k * r.src < (i + 1) * r.dst
    ensures k < |PushSpec(r, Fresh(r), input).1|
    ensures PushSpec(r, Fresh(r), input).1[k]
         == Lerp(Smooth(r, input, i), Smooth(r, input, if i + 1 < |input| then i + 1 else i), k * r.src - i * r.dst, r.dst)
  {
    var s := Fresh(r);
    EmitFirst(r, Signal(r, s.history, input), k, i);
    assert Line([])[0..] == Silence(HIST) && [] + input == input;
    SignalIsSmooth(r, [], s.history, input, i);
    if i + 1 < |input| {
      SignalIsSmooth(r, [], s.history, input, i + 1);
    }
  }

  /** The step that exposes the held sample: far enough in for every tap, and between two input samples. */
  lemma Between(src: nat, dst: nat) returns (k: nat, i: nat)
    requires src > 0 && dst > 0 && src % dst != 0
    ensures i >= HIST && i * dst < k * src < (i + 1) * dst
  {
    k := HIST * dst + 1;
    i := HIST * src + src / dst;
    MulSplit(HIST * dst, 1, src);
    MulSplit(HIST * src, src / dst, dst);
    MulSplit(i, 1, dst);
    assert HIST * dst * src == HIST * src * dst;
    assert HIST * src >= HIST;
  }

  /** An input whose interpolated signal steps up right after sample `i`, far enough in for every tap. */
  lemma StepAfter(r: Rates, tap: nat, i: nat) returns (whole: Samples)
    requires r.Valid() && i >= HIST && (r.Filters() ==> tap < TAPS && r.coeffs[tap] != 0.0)
    ensures |whole| == i + 2 && Smooth(r, whole, i) != Smooth(r, whole, i + 1)
  {
    var j := 0;
    if r.Filters() {
      j := EdgeTap(r, tap);
    }
    whole := Impulse(i + 2, i + 1 - j);
    ImpulseResponse(r, i + 2, i + 1 - j, i);
    ImpulseResponse(r, i + 2, i + 1 - j, i + 1);
  }

  /** Cut right after sample `i`, the first push holds the signal where the whole push interpolates. */
  lemma CutDiffers(r: Rates, whole: Samples, cut: Samples, rest: Samples, k: nat, i: nat)
    requires r.Valid() && i * r.dst < k * r.src < (i + 1) * r.dst
    requires whole == cut + rest && |cut| == i + 1 && |whole| == i + 2
    requires Smooth(r, whole, i) != Smooth(r, whole, i + 1)
    ensures k < |PushSpec(r, Fresh(r), whole).1| && k < |PushSpec(r, Fresh(r), cut).1|
    ensures PushSpec(r, Fresh(r), whole).1[k] != PushSpec(r, Fresh(r), cut).1[k]
  {
    SmoothPrefix(r, cut, rest, i);
    FirstPush(r, whole, k, i);
    FirstPush(r, cut, k, i);
    Steeper(Smooth(r, whole, i), Smooth(r, whole, i + 1), k * r.src - i * r.dst, r.dst);
  }

  /** At a fractional ratio, some input split in two gives other output than the same input pushed at once. */
  lemma FractionalRatioDiverges(r: Rates, tap: nat)
    requires r.Valid() && r.src % r.dst != 0
    requires r.Filters() ==> tap < TAPS && r.coeffs[tap] != 0.0
    ensures !SplitIndependent(r)
  {
    var k, i := Between(r.src, r.dst);
    var whole := StepAfter(r, tap, i);
    var cut, rest := whole[..i + 1], whole[i + 1..];
    assert whole == cut + rest;
    CutDiffers(r, whole, cut, rest, k, i);
    TwoFeeds(r, whole, cut, rest);
    assert Feed(r, [whole]).1[k] != Feed(r, [cut, rest]).1[k];
  }

  lemma Steeper(f0: real, f1: real, num: nat, den: nat)
    requires f0 != f1 && num > 0 && den > 0
    ensures Lerp(f0, f1, num, den) != f0 == Lerp(f0, f0, num, den)
  {
    var frac := num as real / den as real;
    assert frac > 0.0;
    assert (f1 - f0) * frac != 0.0;
  }

  lemma TwoFeeds(r: Rates, whole: Samples, cut: Samples, rest: Samples)
    requires r.Valid() && whole == cut + rest
    ensures Flatten([whole]) == Flatten([cut, rest]) == whole
    ensures Feed(r, [whole]).1 == PushSpec(r, Fresh(r), whole).1
    ensures PushSpec(r, Fresh(r), cut).1 <= Feed(r, [cut, rest]).1
  {
    assert [whole][..0] == [] && [cut, rest][..1] == [cut] && [cut][..0] == [];
    assert Feed(r, [cut]).1 == PushSpec(r, Fresh(r), cut).1;
    assert [cut, rest][1..] == [rest] && Flatten([rest]) == rest + Flatten([]);
  }

  /**
    The resampler's output is the same for every way of cutting the input into pushes exactly when the output rate divides
    the input rate. All that is asked of the filter, where there is one, is a tap that is not zero.
   */
  lemma SeamlessIff(r: Rates, tap: nat)
    requires r.Valid() && (r.Filters() ==> tap < TAPS && r.coeffs[tap] != 0.0)
    ensures SplitIndependent(r) <==> r.src % r.dst == 0
  {
    if r.src % r.dst == 0 {
      WholeRatioIsIndependent(r);
    } else {
      FractionalRatioDiverges(r, tap);
    }
  }
}
