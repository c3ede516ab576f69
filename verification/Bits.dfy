/** Bitwise operators on naturals, and big-endian words. */
module Bits {
  import opened Words

  function And(a: nat, b: nat): nat {
    if a == 0 || b == 0 then 0 else (if a % 2 == 1 && b % 2 == 1 then 1 else 0) + 2 * And(a / 2, b / 2)
  }

  function Or(a: nat, b: nat): nat {
    if a == 0 && b == 0 then 0 else (if a % 2 == 1 || b % 2 == 1 then 1 else 0) + 2 * Or(a / 2, b / 2)
  }

  function Xor(a: nat, b: nat): nat {
    if a == 0 && b == 0 then 0 else (if a % 2 != b % 2 then 1 else 0) + 2 * Xor(a / 2, b / 2)
  }

  /** `1 << k`. */
  function Pow2(k: nat): (r: nat)
    ensures r > 0
  {
    if k == 0 then 1 else 2 * Pow2(k - 1)
  }

  /** Bit `k` of `a`. */
  predicate BitAt(a: nat, k: nat) {
    if k == 0 then a % 2 == 1 else BitAt(a / 2, k - 1)
  }

  lemma {:induction false} OrPow2(a: nat, j: nat, k: nat)
    ensures BitAt(Or(a, Pow2(j)), k) <==> j == k || BitAt(a, k)
  {
    if j > 0 {
      assert Or(a, Pow2(j)) / 2 == Or(a / 2, Pow2(j - 1));
      if k > 0 {
        OrPow2(a / 2, j - 1, k - 1);
      }
    } else {
      assert Pow2(0) / 2 == 0;
      OrZero(a / 2);
    }
  }

  lemma {:induction false} OrZero(a: nat)
    ensures Or(a, 0) == a
  {
    if a > 0 {
      OrZero(a / 2);
    }
  }

  lemma {:induction false} AndPow2(a: nat, k: nat)
    ensures And(a, Pow2(k)) != 0 <==> BitAt(a, k)
  {
    if a == 0 {
      ZeroBits(k);
    } else if k > 0 {
      assert Pow2(k) / 2 == Pow2(k - 1);
      AndPow2(a / 2, k - 1);
    }
  }

  lemma {:induction false} ZeroBits(k: nat)
    ensures !BitAt(0, k)
  {
    if k > 0 {
      ZeroBits(k - 1);
    }
  }

  lemma {:induction false} OrBelow(a: nat, b: nat, n: nat)
    requires a < Pow2(n) && b < Pow2(n)
    ensures Or(a, b) < Pow2(n)
  {
    if n > 0 && (a != 0 || b != 0) {
      OrBelow(a / 2, b / 2, n - 1);
    }
  }

  lemma {:induction false} Pow2Monotone(j: nat, n: nat)
    requires j < n
    ensures Pow2(j) < Pow2(n)
  {
    if j < n - 1 {
      Pow2Monotone(j, n - 1);
    }
  }

  /** A byte with bit `j` set is still a byte. */
  lemma OrByte(a: byte, j: nat)
    requires j < 8
    ensures Or(a, Pow2(j)) < 256
  {
    assert Pow2(8) == 256;
    Pow2Monotone(j, 8);
    OrBelow(a, Pow2(j), 8);
  }

  lemma {:induction false} XorZero(a: nat, b: nat)
    ensures Xor(a, b) == 0 <==> a == b
  {
    if a != 0 || b != 0 {
      XorZero(a / 2, b / 2);
    }
  }

  lemma {:induction false} XorBelow(a: nat, b: nat, n: nat)
    requires a < Pow2(n) && b < Pow2(n)
    ensures Xor(a, b) < Pow2(n)
  {
    if n > 0 && (a != 0 || b != 0) {
      XorBelow(a / 2, b / 2, n - 1);
    }
  }

  lemma OrIsZero(a: nat, b: nat)
    ensures Or(a, b) == 0 <==> a == 0 && b == 0
  {
    if a % 2 == 0 && b % 2 == 0 && (a != 0 || b != 0) {
      OrIsZero(a / 2, b / 2);
    }
  }

  // ----- big-endian words

  function ToBe16(x: nat): (r: Bytes)
    requires x < 0x1_0000
    ensures |r| == 2
  {
    [x / 256, x % 256]
  }

  function FromBe16(hi: byte, lo: byte): (r: nat)
    ensures r < 0x1_0000
  {
    (hi as nat) * 256 + lo as nat
  }

  function ToBe32(x: u32): (r: Bytes)
    ensures |r| == 4
  {
    ToBe16(x / 0x1_0000) + ToBe16(x % 0x1_0000)
  }

  function FromBe32(b: Bytes): u32
    requires |b| == 4
  {
    FromBe16(b[0], b[1]) * 0x1_0000 + FromBe16(b[2], b[3])
  }

  lemma Be16RoundTrip(x: nat)
    requires x < 0x1_0000
    ensures FromBe16(ToBe16(x)[0], ToBe16(x)[1]) == x
  {
  }

  lemma Be16Onto(hi: byte, lo: byte)
    ensures ToBe16(FromBe16(hi, lo)) == [hi, lo]
  {
  }

  lemma Be32RoundTrip(x: u32)
    ensures FromBe32(ToBe32(x)) == x
  {
    Be16RoundTrip(x / 0x1_0000);
    Be16RoundTrip(x % 0x1_0000);
  }

  lemma Be32Onto(b: Bytes)
    requires |b| == 4
    ensures ToBe32(FromBe32(b)) == b
  {
    var hi, lo := FromBe16(b[0], b[1]), FromBe16(b[2], b[3]);
    assert FromBe32(b) / 0x1_0000 == hi && FromBe32(b) % 0x1_0000 == lo;
    Be16Onto(b[0], b[1]);
    Be16Onto(b[2], b[3]);
  }
}
