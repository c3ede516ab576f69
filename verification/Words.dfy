/** Fixed-width values, the shared failure types and small arithmetic. */
module Words {

  type byte = x: int | 0 <= x < 256
  type u32 = x: int | 0 <= x < 0x1_0000_0000

  type Bytes = seq<byte>

  datatype Option<+T> = None | Some(value: T)

  datatype Result<+T, +E> = Ok(value: T) | Err(error: E)

  function Min(a: int, b: int): int {
    if a <= b then a else b
  }

  function Max(a: int, b: int): int {
    if a <= b then b else a
  }

  /** `a - b`, stopping at zero: `Instant::duration_since` and `saturating_sub`. */
  function SaturatingSub(a: nat, b: nat): nat {
    if a >= b then a - b else 0
  }

  /** Integer division rounding up, as `div_ceil`. */
  function CeilDiv(a: nat, b: nat): nat
    requires b > 0
  {
    (a + b - 1) / b
  }

  /** The quotient rounded up is the only number of groups of `b` that covers `a` without a spare group. */
  lemma CeilDivUnique(a: nat, b: nat, q: nat)
    requires b > 0
    requires (q - 1) * b < a <= q * b
    ensures CeilDiv(a, b) == q
  {
    var d := a + b - 1;
    assert q * b <= d < (q + 1) * b by {
      assert (q + 1) * b == q * b + b;
      assert (q - 1) * b == q * b - b;
    }
    DivUnique(d, b, q);
  }

  lemma DivUnique(d: nat, b: nat, q: int)
    requires b > 0
    requires q * b <= d < (q + 1) * b
    ensures d / b == q
  {
    var e := d / b;
    assert d == e * b + d % b;
    if e < q {
      assert (e + 1) * b <= q * b by { MulMono(e + 1, q, b); }
    } else if e > q {
      MulMono(q + 1, e, b);
    }
  }

  lemma MulMono(x: int, y: int, b: nat)
    requires x <= y
    ensures x * b <= y * b
  {
  }

  lemma MulSucc(m: nat, b: nat)
    ensures (m + 1) * b == m * b + b
  {
  }

  lemma MulSplit(a: int, b: int, c: int)
    ensures (a + b) * c == a * c + b * c
  {
  }

  /** What `CeilDiv` promises, in the form the chunker and the resampler use it. */
  lemma CeilDivBounds(a: nat, b: nat)
    requires b > 0
    ensures (CeilDiv(a, b) - 1) * b < a <= CeilDiv(a, b) * b
  {
    var d := a + b - 1;
    var q := CeilDiv(a, b);
    assert d == q * b + d % b;
    assert (q - 1) * b == q * b - b;
  }

  /** No element appears twice. */
  ghost predicate Distinct(s: seq<byte>) {
    forall x: byte :: multiset(s)[x] <= 1
  }

  ghost predicate StrictlyIncreasing(s: seq<byte>) {
    forall i, j :: 0 <= i < j < |s| ==> s[i] < s[j]
  }

  function Elements(s: seq<byte>): set<byte> {
    set x | x in s
  }

  /** The byte values below `n`. */
  function Below(n: nat): (r: set<byte>)
    requires n <= 256
    ensures forall x: byte :: x in r <==> x < n
    ensures |r| == n
  {
    if n == 0 then {} else Below(n - 1) + {n - 1}
  }

  lemma {:induction false} IncreasingDistinct(s: seq<byte>)
    requires StrictlyIncreasing(s)
    ensures Distinct(s)
  {
    if s != [] {
      var t, last := s[..|s| - 1], s[|s| - 1];
      IncreasingDistinct(t);
      assert s == t + [last];
      assert last !in t;
    }
  }

  lemma DistinctElements(s: seq<byte>)
    requires Distinct(s)
    ensures multiset(s) == multiset(Elements(s))
  {
    forall x: byte ensures multiset(s)[x] == multiset(Elements(s))[x] {
      assert x in multiset(s) <==> x in s;
    }
  }

  /** A duplicate-free list of indices below `n` is no longer than `n`. */
  lemma DistinctShort(s: seq<byte>, n: nat)
    requires n <= 256 && Distinct(s)
    requires forall x :: x in s ==> x < n
    ensures |s| <= n
  {
    DistinctElements(s);
    assert |s| == |multiset(s)| == |multiset(Elements(s))| == |Elements(s)|;
    SubsetSize(Elements(s), Below(n));
  }

  lemma {:induction false} SubsetSize<T>(a: set<T>, b: set<T>)
    requires a <= b
    ensures |a| <= |b|
  {
    if a != {} {
      var x :| x in a;
      SubsetSize(a - {x}, b - {x});
    }
  }

  /** The concatenation of all parts. */
  function Flatten<T>(parts: seq<seq<T>>): seq<T> {
    if parts == [] then [] else parts[0] + Flatten(parts[1..])
  }

  lemma {:induction false} FlattenSnoc<T>(parts: seq<seq<T>>, last: seq<T>)
    ensures Flatten(parts + [last]) == Flatten(parts) + last
  {
    if parts == [] {
      assert parts + [last] == [last];
    } else {
      assert (parts + [last])[1..] == parts[1..] + [last];
      FlattenSnoc(parts[1..], last);
    }
  }

  /** `s.chunks(size)`. */
  function Chunks<T>(s: seq<T>, size: nat): seq<seq<T>>
    requires size > 0
  {
    if s == [] then []
    else
      var n := Min(size, |s|);
      [s[..n]] + Chunks(s[n..], size)
  }

  lemma CeilDivStep(a: nat, b: nat)
    requires 0 < b < a
    ensures CeilDiv(a, b) == 1 + CeilDiv(a - b, b)
  {
    CeilDivBounds(a - b, b);
    var q := CeilDiv(a - b, b);
    assert (q + 1) * b == q * b + b;
    CeilDivUnique(a, b, q + 1);
  }

  lemma {:induction false} ChunksCount<T>(s: seq<T>, size: nat)
    requires s != [] && size > 0
    ensures |Chunks(s, size)| == CeilDiv(|s|, size) > 0
  {
    if |s| <= size {
      CeilDivUnique(|s|, size, 1);
      assert Chunks(s[|s|..], size) == [];
    } else {
      ChunksCount(s[size..], size);
      CeilDivStep(|s|, size);
    }
  }

  lemma {:induction false} ChunksFull<T>(s: seq<T>, size: nat)
    requires s != [] && size > 0
    ensures var chunks := Chunks(s, size);
            && |chunks| > 0
            && (forall i :: 0 <= i < |chunks| - 1 ==> |chunks[i]| == size)
            && 0 < |chunks[|chunks| - 1]| <= size
  {
    if |s| <= size {
      assert Chunks(s[|s|..], size) == [];
    } else {
      ChunksFull(s[size..], size);
      assert Chunks(s, size) == [s[..size]] + Chunks(s[size..], size);
    }
  }

  lemma {:induction false} ChunksFlatten<T>(s: seq<T>, size: nat)
    requires size > 0
    ensures Flatten(Chunks(s, size)) == s
  {
    if s != [] {
      var n := Min(size, |s|);
      ChunksFlatten(s[n..], size);
      assert s == s[..n] + s[n..];
    }
  }

  /** The length of parts that are all `size` long but for the last. */
  lemma {:induction false} FlattenLength<T>(parts: seq<seq<T>>, size: nat)
    requires parts != [] && forall i :: 0 <= i < |parts| - 1 ==> |parts[i]| == size
    ensures |Flatten(parts)| == (|parts| - 1) * size + |parts[|parts| - 1]|
  {
    if |parts| > 1 {
      FlattenLength(parts[1..], size);
      MulSucc(|parts| - 2, size);
    } else {
      assert Flatten(parts[1..]) == [];
    }
  }

  /** There are `div_ceil` chunks, all but the last full and the last not empty, and they concatenate to `s`. */
  lemma {:induction false} ChunksShape<T>(s: seq<T>, size: nat)
    requires s != [] && size > 0
    ensures var chunks := Chunks(s, size);
            && |chunks| == CeilDiv(|s|, size) > 0
            && (forall i :: 0 <= i < |chunks| - 1 ==> |chunks[i]| == size)
            && 0 < |chunks[|chunks| - 1]| <= size
            && |s| == (|chunks| - 1) * size + |chunks[|chunks| - 1]|
            && Flatten(chunks) == s
  {
    ChunksCount(s, size);
    ChunksFull(s, size);
    ChunksFlatten(s, size);
    FlattenLength(Chunks(s, size), size);
  }
}
