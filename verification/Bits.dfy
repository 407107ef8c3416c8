/** Powers of two and bitwise operations on natural numbers. */
module Bits {

  function Pow2(k: nat): (r: nat)
    ensures r >= 1
  {
    if k == 0 then 1 else 2 * Pow2(k - 1)
  }

  function BitAnd(a: nat, b: nat): nat {
    if a == 0 || b == 0 then 0
    else 2 * BitAnd(a / 2, b / 2) + (if a % 2 == 1 && b % 2 == 1 then 1 else 0)
  }

  function BitOr(a: nat, b: nat): nat {
    if a == 0 then b
    else 2 * BitOr(a / 2, b / 2) + (if a % 2 == 1 || b % 2 == 1 then 1 else 0)
  }

  /** Bit k of a number. */
  predicate Bit(a: nat, k: nat) { a / Pow2(k) % 2 == 1 }

  lemma BitHalf(a: nat, k: nat)
    requires k > 0
    ensures Bit(a, k) <==> Bit(a / 2, k - 1)
  {
    HalfDivision(a, Pow2(k - 1));
  }

  lemma BitZero(a: nat)
    ensures Bit(a, 0) <==> a % 2 == 1
    ensures forall k :: !Bit(0, k)
  {
    assert Pow2(0) == 1;
    forall k: nat ensures !Bit(0, k) {
      Remainder(0, Pow2(k), 0, 0);
    }
  }

  /** BitOr sets exactly the bits that one of its arguments has. */
  lemma {:induction false} OrBits(a: nat, b: nat, k: nat)
    ensures Bit(BitOr(a, b), k) <==> Bit(a, k) || Bit(b, k)
    decreases k
  {
    if a == 0 {
      BitZero(0);
    } else if k == 0 {
      BitZero(a);
      BitZero(b);
      BitZero(BitOr(a, b));
    } else {
      OrBits(a / 2, b / 2, k - 1);
      BitHalf(a, k);
      BitHalf(b, k);
      BitHalf(BitOr(a, b), k);
      assert BitOr(a, b) / 2 == BitOr(a / 2, b / 2);
    }
  }

  /** BitAnd keeps exactly the bits that both of its arguments have. */
  lemma {:induction false} AndBits(a: nat, b: nat, k: nat)
    ensures Bit(BitAnd(a, b), k) <==> Bit(a, k) && Bit(b, k)
    decreases k
  {
    if a == 0 || b == 0 {
      BitZero(0);
    } else if k == 0 {
      BitZero(a);
      BitZero(b);
      BitZero(BitAnd(a, b));
    } else {
      AndBits(a / 2, b / 2, k - 1);
      BitHalf(a, k);
      BitHalf(b, k);
      BitHalf(BitAnd(a, b), k);
      assert BitAnd(a, b) / 2 == BitAnd(a / 2, b / 2);
    }
  }

  /** A power of two has one bit. */
  lemma {:induction false} PowerBit(j: nat, k: nat)
    ensures Bit(Pow2(j), k) <==> j == k
    decreases j + k
  {
    if k == 0 {
      BitZero(Pow2(j));
    } else if j == 0 {
      Pow2Increases(0, k);
      Remainder(1, Pow2(k), 0, 1);
    } else {
      BitHalf(Pow2(j), k);
      PowerBit(j - 1, k - 1);
    }
  }

  /** Setting one bit sets that bit and leaves all others. */
  lemma SetsOneBit(a: nat, j: nat, k: nat)
    ensures Bit(BitOr(a, Pow2(j)), k) <==> k == j || Bit(a, k)
  {
    OrBits(a, Pow2(j), k);
    PowerBit(j, k);
  }

  /** Setting bits that are set changes nothing. */
  lemma {:induction false} OrIdempotent(a: nat, b: nat)
    ensures BitOr(BitOr(a, b), b) == BitOr(a, b)
    decreases a + b
  {
    if a > 0 {
      OrIdempotent(a / 2, b / 2);
    } else if b > 0 {
      OrIdempotent(0, b / 2);
      assert BitOr(b / 2, b / 2) == b / 2;
    }
  }

  lemma {:induction false} OrBelow(a: nat, b: nat, k: nat)
    requires a < Pow2(k) && b < Pow2(k)
    ensures BitOr(a, b) < Pow2(k)
    decreases k
  {
    if a > 0 {
      OrBelow(a / 2, b / 2, k - 1);
    }
  }

  function Shr(a: nat, k: nat): nat {
    if k == 0 then a else Shr(a / 2, k - 1)
  }

  /** Masking with 2^k - 1 keeps the remainder modulo 2^k. */
  lemma {:induction false} AndLowMask(x: nat, k: nat)
    ensures BitAnd(x, Pow2(k) - 1) == x % Pow2(k)
    decreases k
  {
    if k > 0 {
      var m := Pow2(k) - 1;
      assert m / 2 == Pow2(k - 1) - 1 && m % 2 == 1;
      AndLowMask(x / 2, k - 1);
      HalfDivision(x, Pow2(k - 1));
    }
  }

  /** Dividing by 2p is halving, then dividing by p. */
  lemma HalfDivision(x: nat, p: nat)
    requires p > 0
    ensures x / (2 * p) == x / 2 / p
    ensures x % (2 * p) == 2 * (x / 2 % p) + x % 2
  {
    var h := x / 2;
    var q, r := h / p, h % p;
    assert h == q * p + r;
    DoubleProduct(q, p);
    Remainder(x, 2 * p, q, 2 * r + x % 2);
  }

  lemma DoubleProduct(q: nat, p: nat)
    ensures q * (2 * p) == 2 * (q * p)
  {}

  lemma MultipleGap(d: int, n: int)
    requires n > 0
    ensures d > 0 ==> d * n >= n
    ensures d < 0 ==> d * n <= -n
  {
    if d > 0 {
      assert (d - 1) * n >= 0;
    } else if d < 0 {
      assert (-d - 1) * n >= 0;
    }
  }

  lemma ProductBelow(y: nat, p: nat, q: nat)
    requires y < p && q > 0
    ensures y * q + q <= p * q
  {
    MultipleGap(p - y, q);
    assert (p - y) * q == p * q - y * q;
  }

  /** Quotient and remainder are unique. */
  lemma Remainder(x: int, n: nat, q: int, r: nat)
    requires n > 0 && r < n && x == q * n + r
    ensures x % n == r && x / n == q
  {
    var d := x / n - q;
    assert x == (x / n) * n + x % n;
    assert d * n == (x / n) * n - q * n;
    MultipleGap(d, n);
  }

  lemma {:induction false} ShrIsDivision(a: nat, k: nat)
    ensures Shr(a, k) == a / Pow2(k)
    decreases k
  {
    if k > 0 {
      ShrIsDivision(a / 2, k - 1);
      HalfDivision(a, Pow2(k - 1));
    }
  }

  lemma {:induction false} Pow2Adds(j: nat, k: nat)
    ensures Pow2(j + k) == Pow2(j) * Pow2(k)
  {
    if j > 0 {
      Pow2Adds(j - 1, k);
      assert Pow2(j + k) == 2 * Pow2(j - 1 + k);
      assert 2 * (Pow2(j - 1) * Pow2(k)) == (2 * Pow2(j - 1)) * Pow2(k);
    }
  }

  lemma {:induction false} Pow2Increases(j: nat, k: nat)
    requires j < k
    ensures 2 * Pow2(j) <= Pow2(k)
  {
    if j + 1 < k {
      Pow2Increases(j, k - 1);
    }
  }

  lemma PowersOfSixteen()
    ensures Pow2(16) == 0x1_0000
  {
    Pow2Adds(8, 8);
    assert Pow2(8) == 256;
  }

  /** The upper and the lower half of a word. */
  lemma Halves(c: nat, i: nat)
    requires i <= 0xffff
    ensures Shr(c * 0x1_0000 + i, 16) == c && BitAnd(c * 0x1_0000 + i, 0xffff) == i
  {
    PowersOfSixteen();
    var m := c * 0x1_0000 + i;
    AndLowMask(m, 16);
    ShrIsDivision(m, 16);
    Remainder(m, 0x1_0000, c, i);
  }
}
