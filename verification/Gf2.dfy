/**
 Polynomials over GF(2), written as natural numbers: bit i is the coefficient of x^i.
 Addition is exclusive or, multiplication is carry-less multiplication.
 */
module Gf2 {
  import opened Bytes

  function Xor(a: nat, b: nat): nat
    decreases a + b
  {
    if a == 0 && b == 0 then 0
    else (if a % 2 == b % 2 then 0 else 1) + 2 * Xor(a / 2, b / 2)
  }

  function Clmul(a: nat, b: nat): nat {
    if a == 0 then 0
    else Xor(if a % 2 == 1 then b else 0, 2 * Clmul(a / 2, b))
  }

  /** Multiplication by x^k. */
  function Shl(a: nat, k: nat): nat {
    if k == 0 then a else 2 * Shl(a, k - 1)
  }

  lemma {:induction false} ShlShl(a: nat, j: nat, k: nat)
    ensures Shl(Shl(a, j), k) == Shl(a, j + k)
  {
    if k == 0 {
    } else {
      ShlShl(a, j, k - 1);
    }
  }

  lemma Shl8(a: nat)
    ensures Shl(a, 8) == 0x100 * a
  {
    assert Shl(a, 1) == 2 * a;
    assert Shl(a, 3) == 8 * a;
    assert Shl(a, 5) == 32 * a;
    assert Shl(a, 7) == 128 * a;
  }

  lemma ShlValues(a: nat)
    ensures Shl(a, 8) == 0x100 * a
    ensures Shl(a, 16) == 0x1_0000 * a
    ensures Shl(a, 24) == 0x100_0000 * a
    ensures Shl(a, 31) == 0x8000_0000 * a
    ensures Shl(a, 32) == WORD * a
  {
    Shl8(a);
    Shl8(0x100 * a);
    Shl8(0x1_0000 * a);
    Shl8(0x100_0000 * a);
    ShlShl(a, 8, 8);
    ShlShl(a, 16, 8);
    ShlShl(a, 24, 8);
    assert Shl(a, 32) == 2 * Shl(a, 31);
  }

  // ---- Exclusive or is a commutative group in which every element is its own inverse ----

  lemma {:induction false} XorComm(a: nat, b: nat)
    ensures Xor(a, b) == Xor(b, a)
    decreases a + b
  {
    if a == 0 && b == 0 {
    } else {
      XorComm(a / 2, b / 2);
    }
  }

  lemma {:induction false} XorZero(a: nat)
    ensures Xor(a, 0) == a && Xor(0, a) == a
  {
    if a == 0 {
    } else {
      XorZero(a / 2);
    }
  }

  lemma {:induction false} XorSelf(a: nat)
    ensures Xor(a, a) == 0
  {
    if a == 0 {
    } else {
      XorSelf(a / 2);
    }
  }

  lemma XorHalves(a: nat, b: nat)
    ensures Xor(a, b) % 2 == (if a % 2 == b % 2 then 0 else 1)
    ensures Xor(a, b) / 2 == Xor(a / 2, b / 2)
  {
  }

  lemma {:induction false} XorAssoc(a: nat, b: nat, c: nat)
    ensures Xor(Xor(a, b), c) == Xor(a, Xor(b, c))
    decreases a + b + c
  {
    if a == 0 && b == 0 && c == 0 {
    } else {
      XorHalves(a, b);
      XorHalves(b, c);
      XorHalves(Xor(a, b), c);
      XorHalves(a, Xor(b, c));
      XorAssoc(a / 2, b / 2, c / 2);
    }
  }

  /** Adding the same polynomial twice changes nothing. */
  lemma XorCancel(a: nat, b: nat)
    ensures Xor(a, Xor(a, b)) == b && Xor(Xor(b, a), a) == b
  {
    XorAssoc(a, a, b);
    XorAssoc(b, a, a);
    XorSelf(a);
    XorZero(b);
  }

  /** (a + b) + (c + d) == (a + c) + (b + d). */
  lemma XorSwap(a: nat, b: nat, c: nat, d: nat)
    ensures Xor(Xor(a, b), Xor(c, d)) == Xor(Xor(a, c), Xor(b, d))
  {
    XorAssoc(a, b, Xor(c, d));
    XorAssoc(b, c, d);
    XorComm(b, c);
    XorAssoc(c, b, d);
    XorAssoc(a, c, Xor(b, d));
  }

  lemma XorInjective(a: nat, b: nat, c: nat)
    requires Xor(a, c) == Xor(b, c)
    ensures a == b
  {
    XorCancel(c, a);
    XorCancel(c, b);
  }

  lemma XorDouble(a: nat, b: nat)
    ensures Xor(2 * a, 2 * b) == 2 * Xor(a, b)
  {
    XorHalves(2 * a, 2 * b);
  }

  // ---- Degrees ----

  lemma {:induction false} XorBound(a: nat, b: nat, k: nat)
    requires a < Pow2(k) && b < Pow2(k)
    ensures Xor(a, b) < Pow2(k)
    decreases k
  {
    if k == 0 {
    } else {
      XorBound(a / 2, b / 2, k - 1);
      XorHalves(a, b);
    }
  }

  /** Only the low addends contribute to the lowest bit. */
  lemma XorLowBit(a: nat, b: nat, c: nat, d: nat)
    ensures Xor(2 * a + b, 2 * c + d) == Xor(b, d) % 2 + 2 * Xor(a + b / 2, c + d / 2)
  {
    XorHalves(2 * a + b, 2 * c + d);
    XorHalves(b, d);
  }

  /** Exclusive or works on a high part and a low part of k bits independently. */
  lemma {:induction false} XorSplit(a: nat, b: nat, c: nat, d: nat, k: nat)
    requires b < Pow2(k) && d < Pow2(k)
    ensures Xor(Shl(a, k) + b, Shl(c, k) + d) == Shl(Xor(a, c), k) + Xor(b, d)
    decreases k
  {
    hide Xor;
    if k == 0 {
      assert b == 0 && d == 0;
      XorZero(0);
    } else {
      XorSplit(a, b / 2, c, d / 2, k - 1);
      XorLowBit(Shl(a, k - 1), b, Shl(c, k - 1), d);
      XorHalves(b, d);
    }
  }

  /** A polynomial of degree below k and one of degree at least k have a sum of degree at least k. */
  lemma XorKeepsHighDegree(a: nat, b: nat, k: nat)
    requires a < Pow2(k) <= b
    ensures Xor(a, b) >= Pow2(k)
  {
    if Xor(a, b) < Pow2(k) {
      XorBound(a, Xor(a, b), k);
      XorCancel(a, b);
    }
  }

  // ---- Multiplication ----

  lemma {:induction false} ClmulDistributes(a: nat, b: nat, c: nat)
    ensures Clmul(Xor(a, b), c) == Xor(Clmul(a, c), Clmul(b, c))
    decreases a + b
  {
    if a == 0 {
      XorZero(b);
      XorZero(Clmul(b, c));
    } else if b == 0 {
      XorZero(a);
      XorZero(Clmul(a, c));
    } else {
      XorHalves(a, b);
      ClmulDistributes(a / 2, b / 2, c);
      var la := if a % 2 == 1 then c else 0;
      var lb := if b % 2 == 1 then c else 0;
      var ha, hb := Clmul(a / 2, c), Clmul(b / 2, c);
      XorSwap(la, 2 * ha, lb, 2 * hb);
      XorDouble(ha, hb);
      XorSelf(c);
      XorZero(c);
      XorZero(2 * Xor(ha, hb));
    }
  }

  /** Multiplying by x and adding a constant term, in the first factor. */
  lemma ClmulTimesX(a: nat, d: nat, b: nat)
    requires d < 2
    ensures Clmul(2 * a + d, b) == Xor(if d == 1 then b else 0, 2 * Clmul(a, b))
  {
    assert (2 * a + d) / 2 == a && (2 * a + d) % 2 == d;
  }

  /** A non-zero multiple of a polynomial of degree k has degree at least k. */
  lemma {:induction false} ClmulDegree(a: nat, b: nat, k: nat)
    requires a != 0
    requires Pow2(k) <= b < Pow2(k + 1)
    ensures Clmul(a, b) >= Pow2(k)
  {
    if a / 2 == 0 {
      XorZero(b);
    } else {
      ClmulDegree(a / 2, b, k);
      XorKeepsHighDegree(if a % 2 == 1 then b else 0, 2 * Clmul(a / 2, b), k + 1);
    }
  }
}
