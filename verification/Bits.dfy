// Bitwise operators of C on unsigned words, and the facts that turn masks and
// shifts into arithmetic.

module Bits {

  const UINT_MAX := 0xFFFF_FFFF
  const U64: nat := 0x1_0000_0000_0000_0000

  type uint64 = x: int | 0 <= x < 0x1_0000_0000_0000_0000
  type int64 = x: int | -0x8000_0000_0000_0000 <= x < 0x8000_0000_0000_0000
  type int32 = x: int | -0x8000_0000 <= x < 0x8000_0000

  function Pow2(k: nat): (r: nat)
    ensures r > 0
  {
    if k == 0 then 1 else 2 * Pow2(k - 1)
  }

  lemma {:induction false} Pow2Adds(j: nat, k: nat)
    ensures Pow2(j + k) == Pow2(j) * Pow2(k)
  {
    if j != 0 {
      Pow2Adds(j - 1, k);
      assert Pow2(j + k) == 2 * Pow2(j - 1 + k);
      assert 2 * (Pow2(j - 1) * Pow2(k)) == Pow2(j) * Pow2(k);
    }
  }

  function BitOr(a: nat, b: nat): nat
    decreases a + b
  {
    if a == 0 && b == 0 then 0
    else 2 * BitOr(a / 2, b / 2) + (if a % 2 == 1 || b % 2 == 1 then 1 else 0)
  }

  function BitAnd(a: nat, b: nat): nat
    decreases a + b
  {
    if a == 0 && b == 0 then 0
    else 2 * BitAnd(a / 2, b / 2) + (if a % 2 == 1 && b % 2 == 1 then 1 else 0)
  }

  function BitXor(a: nat, b: nat): nat
    decreases a + b
  {
    if a == 0 && b == 0 then 0
    else 2 * BitXor(a / 2, b / 2) + (if a % 2 != b % 2 then 1 else 0)
  }

  function Shl(a: nat, k: nat): nat { a * Pow2(k) }

  function Shr(a: nat, k: nat): nat
  {
    QuotientIsNat(a, Pow2(k));
    a / Pow2(k)
  }

  lemma QuotientIsNat(a: nat, p: nat)
    requires p > 0
    ensures a / p >= 0
  {}

  lemma HalfOfMultiple(a: nat, k: nat)
    requires k > 0
    ensures (a / 2) * Pow2(k - 1) * 2 == (a / 2) * Pow2(k)
    ensures a / Pow2(k) == (a / 2) / Pow2(k - 1)
    ensures a % Pow2(k) == 2 * ((a / 2) % Pow2(k - 1)) + a % 2
  {
    var p := Pow2(k - 1);
    var q, r := (a / 2) / p, (a / 2) % p;
    assert a / 2 == q * p + r;
    assert a == q * (2 * p) + (2 * r + a % 2);
    DivModUnique(a, 2 * p, q, 2 * r + a % 2);
  }

  lemma DivModUnique(a: int, d: int, q: int, r: int)
    requires d > 0 && 0 <= r < d && a == q * d + r
    ensures a / d == q && a % d == r
  {
    var dq := a / d - q;
    assert a == (a / d) * d + a % d;
    assert dq * d == r - a % d;
    assert dq >= 1 ==> dq * d >= d;
    assert dq <= -1 ==> dq * d <= -d;
  }

  // `hi | lo` is `hi + lo` when lo fits below the lowest bit of hi.
  lemma {:induction false} OrOfDisjoint(h: nat, lo: nat, k: nat)
    requires lo < Pow2(k)
    ensures BitOr(h * Pow2(k), lo) == h * Pow2(k) + lo
    decreases k, h
  {
    if k == 0 {
      OrZero(h);
      assert h * Pow2(0) == h;
    } else {
      var p := Pow2(k - 1);
      var hi := h * Pow2(k);
      assert hi == 2 * (h * p);
      assert hi / 2 == h * p && hi % 2 == 0;
      OrOfDisjoint(h, lo / 2, k - 1);
      assert BitOr(hi / 2, lo / 2) == h * p + lo / 2;
    }
  }

  lemma {:induction false} OrZero(a: nat)
    ensures BitOr(a, 0) == a
  {
    if a != 0 { OrZero(a / 2); }
  }

  // Masking with 2^k - 1 keeps the low k bits.
  lemma {:induction false} AndLowMask(a: nat, k: nat)
    ensures BitAnd(a, Pow2(k) - 1) == a % Pow2(k)
  {
    if k == 0 {
      AndZero(a);
    } else {
      var m := Pow2(k) - 1;
      assert m / 2 == Pow2(k - 1) - 1 && m % 2 == 1;
      AndLowMask(a / 2, k - 1);
      HalfOfMultiple(a, k);
    }
  }

  lemma {:induction false} AndZero(a: nat)
    ensures BitAnd(a, 0) == 0
  {
    if a != 0 { AndZero(a / 2); }
  }

  // Testing one bit.
  lemma {:induction false} AndOneBit(a: nat, k: nat)
    ensures BitAnd(a, Pow2(k)) == (a / Pow2(k) % 2) * Pow2(k)
  {
    if k == 0 {
      AndZero(a / 2);
    } else {
      var p := Pow2(k);
      assert p / 2 == Pow2(k - 1) && p % 2 == 0;
      AndOneBit(a / 2, k - 1);
      HalfOfMultiple(a, k);
    }
  }

  // Exclusive or with k ones is the k-bit complement.
  lemma {:induction false} XorAllOnes(a: nat, k: nat)
    requires a < Pow2(k)
    ensures BitXor(a, Pow2(k) - 1) == Pow2(k) - 1 - a
  {
    if k > 0 {
      var m := Pow2(k) - 1;
      assert m / 2 == Pow2(k - 1) - 1 && m % 2 == 1;
      XorAllOnes(a / 2, k - 1);
    }
  }

  lemma {:induction false} XorZero(a: nat)
    ensures BitXor(a, 0) == a
  {
    if a != 0 { XorZero(a / 2); }
  }
}
