/**
 The 32-bit shift register behind `cksum`: one step multiplies the register by x modulo the
 generator G(x) = x^32 + GENERATOR. Every table-driven step is eight of these.
 */
module BitRegister {
  import opened Bytes
  import opened Gf2

  /** The generator without its leading term. */
  const GENERATOR: u32 := 0x04C1_1DB7

  function BitStep(r: u32): (s: u32)
  {
    if r < 0x8000_0000 then 2 * r
    else
      WordXor(2 * r - WORD, GENERATOR);
      Xor(2 * r - WORD, GENERATOR)
  }

  function Steps(r: u32, n: nat): u32 {
    if n == 0 then r else BitStep(Steps(r, n - 1))
  }

  lemma WordXor(a: u32, b: u32)
    ensures Xor(a, b) < WORD
  {
    Pow2Values();
    XorBound(a, b, 32);
  }

  /** Exclusive or of two registers. */
  function Add(a: u32, b: u32): u32 {
    WordXor(a, b);
    Xor(a, b)
  }

  // ---- Linearity ----

  /** A step doubles the low 31 bits and adds the generator when the top bit h was set. */
  lemma BitStepParts(h: nat, l: nat)
    requires h < 2 && l < 0x8000_0000
    ensures BitStep(h * 0x8000_0000 + l) == Xor(2 * l, h * GENERATOR)
  {
    hide Xor;
    XorZero(2 * l);
    if h == 0 {
      assert h * 0x8000_0000 + l == l && h * GENERATOR == 0;
    } else {
      assert h * 0x8000_0000 + l == 0x8000_0000 + l && h * GENERATOR == GENERATOR;
      assert 2 * (0x8000_0000 + l) - WORD == 2 * l;
    }
  }

  lemma TopBitOfSum(a: nat, la: nat, b: nat, lb: nat)
    requires a < 2 && b < 2 && la < 0x8000_0000 && lb < 0x8000_0000
    ensures Xor(la, lb) < 0x8000_0000 && Xor(a, b) < 2
    ensures Xor(a * 0x8000_0000 + la, b * 0x8000_0000 + lb) == Xor(a, b) * 0x8000_0000 + Xor(la, lb)
  {
    hide Xor;
    Pow2Values();
    ShlValues(a);
    ShlValues(b);
    ShlValues(Xor(a, b));
    XorSplit(a, la, b, lb, 31);
    XorBound(la, lb, 31);
    XorOfMultiples(a, b, 1);
  }

  lemma XorOfMultiples(a: nat, b: nat, g: nat)
    requires a < 2 && b < 2
    ensures Xor(a, b) < 2 && Xor(a * g, b * g) == Xor(a, b) * g
  {
    hide Xor;
    XorZero(a);
    XorZero(b);
    XorSelf(a);
    XorZero(a * g);
    XorZero(b * g);
    XorSelf(a * g);
  }

  lemma BitStepLinear(a: u32, b: u32)
    ensures BitStep(Add(a, b)) == Add(BitStep(a), BitStep(b))
  {
    hide Xor, BitStep;
    var ha, la := a / 0x8000_0000, a % 0x8000_0000;
    var hb, lb := b / 0x8000_0000, b % 0x8000_0000;
    TopBitOfSum(ha, la, hb, lb);
    XorOfMultiples(ha, hb, GENERATOR);
    BitStepParts(ha, la);
    BitStepParts(hb, lb);
    BitStepParts(Xor(ha, hb), Xor(la, lb));
    XorDouble(la, lb);
    XorSwap(2 * la, ha * GENERATOR, 2 * lb, hb * GENERATOR);
  }

  lemma {:induction false} StepsLinear(a: u32, b: u32, n: nat)
    ensures Steps(Add(a, b), n) == Add(Steps(a, n), Steps(b, n))
  {
    if n == 0 {
    } else {
      StepsLinear(a, b, n - 1);
      BitStepLinear(Steps(a, n - 1), Steps(b, n - 1));
    }
  }

  lemma {:induction false} StepsOfZero(n: nat)
    ensures Steps(0, n) == 0
  {
    if n == 0 {
    } else {
      StepsOfZero(n - 1);
    }
  }

  lemma {:induction false} StepsSplit(r: u32, m: nat, n: nat)
    ensures Steps(Steps(r, m), n) == Steps(r, m + n)
  {
    if n == 0 {
    } else {
      StepsSplit(r, m, n - 1);
    }
  }

  // ---- Bijectivity: the generator is odd, so the lowest bit tells whether a step reduced ----

  function BitStepInverse(s: u32): u32 {
    if s % 2 == 0 then s / 2
    else 0x8000_0000 + Add(s, GENERATOR) / 2
  }

  lemma BitStepIsBijective(r: u32)
    ensures BitStepInverse(BitStep(r)) == r
    ensures BitStep(BitStepInverse(r)) == r
  {
    InverseOfStep(r);
    StepOfInverse(r);
  }

  lemma InverseOfStep(r: u32)
    ensures BitStepInverse(BitStep(r)) == r
  {
    hide Xor;
    if r >= 0x8000_0000 {
      XorHalves(2 * r - WORD, GENERATOR);
      XorCancel(GENERATOR, 2 * r - WORD);
    }
  }

  lemma StepOfInverse(r: u32)
    ensures BitStep(BitStepInverse(r)) == r
  {
    hide Xor;
    XorHalves(r, GENERATOR);
    XorCancel(GENERATOR, r);
  }

  function StepsBack(s: u32, n: nat): u32
    decreases n
  {
    if n == 0 then s else StepsBack(BitStepInverse(s), n - 1)
  }

  lemma {:induction false} StepsAreBijective(r: u32, n: nat)
    ensures StepsBack(Steps(r, n), n) == r
    ensures Steps(StepsBack(r, n), n) == r
    decreases n
  {
    hide BitStep, BitStepInverse;
    if n == 0 {
    } else {
      BitStepIsBijective(Steps(r, n - 1));
      StepsAreBijective(r, n - 1);
      BitStepIsBijective(r);
      StepsAreBijective(BitStepInverse(r), n - 1);
    }
  }

  lemma StepsInjective(a: u32, b: u32, n: nat)
    requires Steps(a, n) == Steps(b, n)
    ensures a == b
  {
    hide Steps, StepsBack;
    StepsAreBijective(a, n);
    StepsAreBijective(b, n);
  }

  // ---- Octets and messages ----

  /** An octet in the top eight bits of a register. */
  function Align(c: byte): u32 {
    0x100_0000 * (c as int)
  }

  /** Feeds one octet, most significant bit first. */
  function Octet(r: u32, c: byte): u32 {
    Steps(Add(r, Align(c)), 8)
  }

  /** Feeds a message, first octet first. */
  function Feed(r: u32, m: bytes): u32 {
    if m == [] then r else Octet(Feed(r, m[..|m| - 1]), m[|m| - 1])
  }

  lemma {:induction false} FeedConcat(r: u32, a: bytes, b: bytes)
    ensures Feed(r, a + b) == Feed(Feed(r, a), b)
  {
    if b == [] {
      assert a + b == a;
    } else {
      assert (a + b)[..|a + b| - 1] == a + b[..|b| - 1];
      FeedConcat(r, a, b[..|b| - 1]);
    }
  }

  lemma FeedOne(r: u32, m: bytes, i: nat)
    requires i < |m|
    ensures Feed(r, m[..i + 1]) == Octet(Feed(r, m[..i]), m[i])
  {
    assert m[..i + 1][..i] == m[..i];
  }

  /** The register from which a message leads to this one: the octets taken back, last first. */
  function Unfeed(s: u32, m: bytes): u32
    decreases |m|
  {
    if m == [] then s else Unfeed(Add(StepsBack(s, 8), Align(m[|m| - 1])), m[..|m| - 1])
  }

  /** Feeding one fixed message is a permutation of the registers. */
  lemma {:induction false} FeedIsBijective(r: u32, m: bytes)
    ensures Unfeed(Feed(r, m), m) == r
    ensures Feed(Unfeed(r, m), m) == r
    decreases |m|
  {
    hide Xor, Steps, StepsBack;
    if m == [] {
    } else {
      var (p, c) := (m[..|m| - 1], Align(m[|m| - 1]));
      StepsAreBijective(Add(Feed(r, p), c), 8);
      XorTwice(Feed(r, p), c);
      FeedIsBijective(r, p);
      StepsAreBijective(r, 8);
      XorTwice(StepsBack(r, 8), c);
      FeedIsBijective(Add(StepsBack(r, 8), c), p);
    }
  }

  lemma XorTwice(r: u32, c: u32)
    ensures Add(Add(r, c), c) == r
  {
    XorCancel(c, r);
  }

  lemma FeedInjective(a: u32, b: u32, m: bytes)
    requires Feed(a, m) == Feed(b, m)
    ensures a == b
  {
    hide Feed, Unfeed;
    FeedIsBijective(a, m);
    FeedIsBijective(b, m);
  }

  function XorOctet(a: byte, b: byte): byte {
    Pow2Values();
    XorBound(a, b, 8);
    Xor(a, b)
  }

  function XorBytes(a: bytes, b: bytes): (m: bytes)
    requires |a| == |b|
    ensures |m| == |a|
  {
    seq(|a|, i requires 0 <= i < |a| => XorOctet(a[i], b[i]))
  }

  /** The register is linear in the starting register and the message together. */
  lemma {:induction false} FeedLinear(r: u32, s: u32, a: bytes, b: bytes)
    requires |a| == |b|
    ensures Feed(Add(r, s), XorBytes(a, b)) == Add(Feed(r, a), Feed(s, b))
    decreases |a|
  {
    if a == [] {
    } else {
      var n := |a| - 1;
      var (ra, rb) := (Feed(r, a[..n]), Feed(s, b[..n]));
      assert XorBytes(a, b)[..n] == XorBytes(a[..n], b[..n]);
      FeedLinear(r, s, a[..n], b[..n]);
      OctetLinear(ra, rb, a[n], b[n]);
    }
  }

  lemma OctetLinear(r: u32, s: u32, c: byte, d: byte)
    ensures Octet(Add(r, s), XorOctet(c, d)) == Add(Octet(r, c), Octet(s, d))
  {
    Pow2Values();
    ShlValues(c);
    ShlValues(d);
    ShlValues(XorOctet(c, d));
    XorSplit(c, 0, d, 0, 24);
    XorZero(0);
    XorSwap(r, s, Align(c), Align(d));
    StepsLinear(Add(r, Align(c)), Add(s, Align(d)), 8);
  }
}
