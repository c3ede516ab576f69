/**
  The streaming resampler (resampler.rs) in exact arithmetic.

  Samples are reals, the filter coefficients are arbitrary, and the cursor, a fraction of an input sample, is kept as
  its numerator over the output rate: advancing by `src / dst` adds `src`, consuming one input sample subtracts `dst`.
 */
module Resampler {
  import opened Words

  const TAPS: nat := 63
  const HIST: nat := 62

  type Samples = seq<real>

  datatype Rates = Rates(src: nat, dst: nat, coeffs: Samples)
  {
    predicate Valid() {
      src > 0 && dst > 0 && |coeffs| == TAPS
    }

    /** Downsampling filters before it interpolates. */
    predicate Filters() {
      src > dst
    }

    predicate HistoryFits(history: Samples) {
      Filters() ==> |history| == HIST
    }
  }

  function Silence(n: nat): Samples {
    seq(n, _ => 0.0)
  }

  /** The first `j` products of the filter whose newest sample is `line[base]`. */
  function Taps(coeffs: Samples, line: Samples, base: nat, j: nat): real
    requires j <= |coeffs| && base < |line| && j <= base + 1
  {
    if j == 0 then 0.0 else Taps(coeffs, line, base, j - 1) + coeffs[j - 1] * line[base - (j - 1)]
  }

  method FirEval(scratch: Samples, coeffs: Samples, i: nat) returns (s: real)
    requires |coeffs| == TAPS && i + HIST < |scratch|
    ensures s == Taps(coeffs, scratch, i + HIST, TAPS)
  {
    var base := i + TAPS - 1;
    s := 0.0;
    for j := 0 to TAPS
      invariant s == Taps(coeffs, scratch, base, j)
    {
      s := s + coeffs[j] * scratch[base - j];
    }
  }

  // ----- one push

  /** The signal that is interpolated: the filtered input when downsampling, the input itself otherwise. */
  function Signal(r: Rates, history: Samples, input: Samples): (signal: Samples)
    requires r.Valid() && r.HistoryFits(history)
    ensures |signal| == |input|
  {
    if r.Filters() then
      seq(|input|, i requires 0 <= i < |input| => Taps(r.coeffs, history + input, i + HIST, TAPS))
    else input
  }

  function Lerp(f0: real, f1: real, num: nat, den: nat): real
    requires den > 0
  {
    f0 + (f1 - f0) * (num as real / den as real)
  }

  /** The output at sample `i` and fraction `num / den`; past the last sample of the push the signal is held. */
  function SampleAt(signal: Samples, i: nat, num: nat, den: nat): real
    requires i < |signal| && den > 0
  {
    Lerp(signal[i], if i + 1 < |signal| then signal[i + 1] else signal[i], num, den)
  }

  lemma DivBelow(pos: nat, dst: nat, n: nat)
    requires dst > 0 && pos < n * dst
    ensures 0 <= pos / dst < n && 0 <= pos % dst < dst
  {
    var q := pos / dst;
    assert pos == q * dst + pos % dst;
    if q >= n {
      MulMono(n, q, dst);
    }
  }

  /** The outputs of a push whose cursor stands at `pos`. */
  function Emit(r: Rates, signal: Samples, pos: nat): Samples
    requires r.Valid()
    decreases |signal| * r.dst - pos
  {
    if pos >= |signal| * r.dst then []
    else
      DivBelow(pos, r.dst, |signal|);
      [SampleAt(signal, pos / r.dst, pos % r.dst, r.dst)] + Emit(r, signal, pos + r.src)
  }

  datatype Position = Position(cursor: nat, history: Samples)

  function Fresh(r: Rates): Position {
    Position(0, if r.Filters() then Silence(HIST) else [])
  }

  /** The last `HIST` samples heard. */
  function Remember(history: Samples, input: Samples): Samples
    requires |history| == HIST
  {
    (history + input)[|input|..]
  }

  /** Where the cursor stands once it has passed `limit`. */
  function EndOf(r: Rates, limit: nat, pos: nat): (end: nat)
    requires r.Valid()
    ensures end >= limit && (pos < limit + r.src ==> end < limit + r.src)
    decreases limit - pos
  {
    if pos >= limit then pos else EndOf(r, limit, pos + r.src)
  }

  /** Every output advances the cursor by one step. */
  lemma {:induction false} EmitEnds(r: Rates, signal: Samples, pos: nat)
    requires r.Valid()
    ensures EndOf(r, |signal| * r.dst, pos) == pos + |Emit(r, signal, pos)| * r.src
    decreases |signal| * r.dst - pos
  {
    if pos < |signal| * r.dst {
      EmitEnds(r, signal, pos + r.src);
      MulSucc(|Emit(r, signal, pos + r.src)|, r.src);
    }
  }

  lemma EmitStep(r: Rates, signal: Samples, pos: nat, limit: nat, out: Samples, sample: real)
    requires r.Valid() && pos < limit == |signal| * r.dst
    requires pos / r.dst < |signal| && sample == SampleAt(signal, pos / r.dst, pos % r.dst, r.dst)
    ensures out + Emit(r, signal, pos) == out + [sample] + Emit(r, signal, pos + r.src)
    ensures EndOf(r, limit, pos) == EndOf(r, limit, pos + r.src)
  {
  }

  /** Output `k` of a push stands `k` steps past the cursor. */
  lemma {:induction false} EmitAt(r: Rates, signal: Samples, pos: nat, k: nat)
    requires r.Valid() && k < |Emit(r, signal, pos)|
    ensures pos + k * r.src < |signal| * r.dst
    ensures (pos + k * r.src) / r.dst < |signal|
    ensures Emit(r, signal, pos)[k] == SampleAt(signal, (pos + k * r.src) / r.dst, (pos + k * r.src) % r.dst, r.dst)
    decreases k
  {
    if k > 0 {
      EmitAt(r, signal, pos + r.src, k - 1);
      assert pos + r.src + (k - 1) * r.src == pos + k * r.src;
    }
    DivBelow(pos + k * r.src, r.dst, |signal|);
  }

  function PushSpec(r: Rates, s: Position, input: Samples): (Position, Samples)
    requires r.Valid() && r.HistoryFits(s.history)
  {
    if input == [] then (s, [])
    else
      (Position(EndOf(r, |input| * r.dst, s.cursor) - |input| * r.dst,
                if r.Filters() then Remember(s.history, input) else s.history),
       Emit(r, Signal(r, s.history, input), s.cursor))
  }

  // ----- what a push emits

  lemma QuotientAt(at: nat, dst: nat, i: nat, num: nat)
    requires num < dst && at == i * dst + num
    ensures at / dst == i && at % dst == num
  {
    MulSucc(i, dst);
    DivUnique(at, dst, i);
  }

  lemma LerpScaled(f0: real, f1: real, num: nat, den: nat)
    requires den > 0
    ensures Lerp(f0, f1, num, den) * den as real == f0 * (den - num) as real + f1 * num as real
  {
    var frac := num as real / den as real;
    assert frac * den as real == num as real;
    assert (f1 - f0) * frac * den as real == (f1 - f0) * num as real;
  }

  /** `y` lies between `left` and `right`, `num / den` of the way. */
  ghost predicate Weighted(left: real, right: real, num: nat, den: nat, y: real) {
    && y * den as real == left * (den - num) as real + right * num as real
    && (left <= right ==> left <= y <= right) && (right <= left ==> right <= y <= left)
  }

  /** A weighted mean lies between what it is taken of. */
  lemma MeanBetween(a: real, b: real, y: real, num: nat, den: nat)
    requires num <= den && den > 0 && y * den as real == a * (den - num) as real + b * num as real
    ensures a <= b ==> a <= y <= b
    ensures b <= a ==> b <= y <= a
  {
    assert y * den as real == a * den as real + (b - a) * num as real;
    assert y * den as real == b * den as real + (a - b) * (den - num) as real;
    if a <= b {
      WeightedMean(a, b, y, num as real, den as real);
    } else {
      WeightedMean(b, a, y, (den - num) as real, den as real);
    }
  }

  lemma WeightedMean(low: real, high: real, y: real, num: real, den: real)
    requires low <= high && 0.0 <= num <= den && den > 0.0 && y * den == low * den + (high - low) * num
    ensures low <= y <= high
  {
    var up, down := (high - low) * num, (high - low) * (den - num);
    assert up >= 0.0 && down >= 0.0;
    assert (y - low) * den == up && (high - y) * den == down;
    assert y < low ==> (y - low) * den < 0.0;
    assert y > high ==> (high - y) * den < 0.0;
  }

  lemma SampleBetween(signal: Samples, i: nat, num: nat, dst: nat)
    requires i < |signal| && num < dst
    ensures var left, right := signal[i], signal[if i + 1 < |signal| then i + 1 else i];
            var y := SampleAt(signal, i, num, dst);
            Weighted(left, right, num, dst, y)
  {
    var left, right := signal[i], signal[if i + 1 < |signal| then i + 1 else i];
    LerpScaled(left, right, num, dst);
    MeanBetween(left, right, SampleAt(signal, i, num, dst), num, dst);
  }

  lemma EmitPlace(r: Rates, signal: Samples, pos: nat, k: nat, i: nat, num: nat)
    requires r.Valid() && k < |Emit(r, signal, pos)| && num < r.dst && pos + k * r.src == i * r.dst + num
    ensures i < |signal| && Emit(r, signal, pos)[k] == SampleAt(signal, i, num, r.dst)
  {
    EmitAt(r, signal, pos, k);
    QuotientAt(pos + k * r.src, r.dst, i, num);
  }

  /**
    Output `k` of a push, whose place is `num / dst` past sample `i`, is the mean of the samples on both sides weighted by how near
    they are, and so between them; past the last sample of the push the signal is held.
   */
  lemma PushInterpolates(r: Rates, s: Position, input: Samples, k: nat, i: nat, num: nat)
    requires r.Valid() && r.HistoryFits(s.history) && k < |PushSpec(r, s, input).1|
    requires num < r.dst && s.cursor + k * r.src == i * r.dst + num
    ensures i < |input|
    ensures var signal := Signal(r, s.history, input);
            var left, right := signal[i], signal[if i + 1 < |input| then i + 1 else i];
            var y := PushSpec(r, s, input).1[k];
            Weighted(left, right, num, r.dst, y)
    ensures r.src <= r.dst ==> Signal(r, s.history, input) == input
  {
    EmitPlace(r, Signal(r, s.history, input), s.cursor, k, i, num);
    SampleBetween(Signal(r, s.history, input), i, num, r.dst);
  }

  class Resampler {
    const rates: Rates
    var cursor: nat
    var history: Samples
    var scratch: Samples

    ghost predicate Valid()
      reads this
    {
      rates.Valid() && rates.HistoryFits(history)
    }

    function At(): Position
      reads this
    {
      Position(cursor, history)
    }

    constructor (src: nat, dst: nat, coeffs: Samples)
      requires src > 0 && dst > 0 && |coeffs| == TAPS
      ensures Valid() && rates == Rates(src, dst, coeffs) && At() == Fresh(rates)
    {
      rates := Rates(src, dst, coeffs);
      cursor, scratch := 0, [];
      history := if src > dst then Silence(HIST) else [];
    }

    method Push(input: Samples, out: Samples) returns (out': Samples)
      requires Valid()
      modifies this
      ensures Valid()
      ensures var (next, emitted) := PushSpec(rates, old(At()), input);
              At() == next && out' == out + emitted
    {
      out' := out;
      if input == [] {
        return;
      }
      if rates.src > rates.dst {
        scratch := history + input;
        out' := FilteredPass(input, out', Signal(rates, history, input));
        if |input| >= HIST {
          history := input[|input| - HIST..];
        } else {
          history := history[|input|..] + input;
        }
      } else {
        out' := PlainPass(input, out');
      }
      cursor := cursor - |input| * rates.dst;
    }

    /** One turn of the filtering loop: the newest evaluation is kept while the cursor stays on one input sample. */
    method FilteredSample(input: Samples, i: nat, prev: Option<nat>, kept: real, ghost signal: Samples)
      returns (f0: real, sample: real)
      requires Valid() && rates.Filters() && scratch == history + input
      requires signal == Signal(rates, history, input) && i < |signal|
      requires prev == Some(i) ==> kept == signal[i]
      ensures f0 == signal[i]
      ensures sample == SampleAt(signal, i, cursor % rates.dst, rates.dst)
    {
      f0 := kept;
      if prev != Some(i) {
        f0 := FirEval(scratch, rates.coeffs, i);
      }
      var f1 := f0;
      if i + 1 < |input| {
        f1 := FirEval(scratch, rates.coeffs, i + 1);
      }
      sample := Lerp(f0, f1, cursor % rates.dst, rates.dst);
    }

    method FilteredPass(input: Samples, out: Samples, ghost signal: Samples) returns (out': Samples)
      requires Valid() && rates.Filters() && scratch == history + input
      requires signal == Signal(rates, history, input)
      modifies this`cursor
      ensures out' == out + Emit(rates, signal, old(cursor))
      ensures cursor == EndOf(rates, |input| * rates.dst, old(cursor))
    {
      out' := out;
      var prev: Option<nat> := None;
      var f0, sample := 0.0, 0.0;
      var limit := |input| * rates.dst;
      ghost var start := cursor;
      while cursor < limit
        invariant out' + Emit(rates, signal, cursor) == out + Emit(rates, signal, start)
        invariant EndOf(rates, limit, cursor) == EndOf(rates, limit, start)
        invariant prev.Some? ==> prev.value < |signal| && f0 == signal[prev.value]
        decreases limit - cursor
      {
        DivBelow(cursor, rates.dst, |input|);
        var i := cursor / rates.dst;
        f0, sample := FilteredSample(input, i, prev, f0, signal);
        prev := Some(i);
        EmitStep(rates, signal, cursor, limit, out', sample);
        out' := out' + [sample];
        cursor := cursor + rates.src;
      }
    }

    method PlainPass(input: Samples, out: Samples) returns (out': Samples)
      requires Valid()
      modifies this`cursor
      ensures out' == out + Emit(rates, input, old(cursor))
      ensures cursor == EndOf(rates, |input| * rates.dst, old(cursor))
    {
      out' := out;
      var limit := |input| * rates.dst;
      ghost var start := cursor;
      while cursor < limit
        invariant out' + Emit(rates, input, cursor) == out + Emit(rates, input, start)
        invariant EndOf(rates, limit, cursor) == EndOf(rates, limit, start)
        decreases limit - cursor
      {
        DivBelow(cursor, rates.dst, |input|);
        var i := cursor / rates.dst;
        var s0 := input[i];
        var s1 := if i + 1 < |input| then input[i + 1] else s0;
        var sample := Lerp(s0, s1, cursor % rates.dst, rates.dst);
        EmitStep(rates, input, cursor, limit, out', sample);
        out' := out' + [sample];
        cursor := cursor + rates.src;
      }
    }
  }
}
