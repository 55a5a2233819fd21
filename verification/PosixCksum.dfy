/**
 The POSIX `cksum` value (IEEE Std 1003.1-2017, Shell and Utilities, cksum, DESCRIPTION), defined by
 division of polynomials and without any register, and the proof that the register computes it.
 */
module PosixCksum {
  import opened Bytes
  import opened Gf2
  import opened BitRegister

  /** The generator polynomial of degree 32. */
  const G: nat := WORD + GENERATOR

  /** The polynomial whose coefficients are the bits of the octets, most significant bit first. */
  function Poly(m: bytes): nat {
    if m == [] then 0 else 0x100 * Poly(m[..|m| - 1]) + m[|m| - 1]
  }

  /** r is what polynomial division by G leaves of p. */
  ghost predicate IsRemainder(p: nat, r: nat) {
    r < WORD && exists q: nat :: p == Xor(Clmul(q, G), r)
  }

  /** The octets of a number, least significant first, in the fewest octets; none for zero. */
  function LengthOctets(n: nat): bytes {
    if n == 0 then [] else [n % 0x100] + LengthOctets(n / 0x100)
  }

  /** The number that octets denote, the first the least significant. */
  function Denotes(field: bytes): nat {
    if field == [] then 0
    else field[|field| - 1] * Pow2(8 * (|field| - 1)) + Denotes(field[..|field| - 1])
  }

  /** The length field the standard appends: the fewest octets that denote the length, but at least one. */
  predicate IsLengthField(field: bytes, n: nat) {
    Denotes(field) == n && field != [] && (|field| > 1 ==> field[|field| - 1] != 0)
  }

  /** c is the standard's checksum of m: the complement of the remainder of M(x) times x^32. */
  ghost predicate IsPosixCksum(m: bytes, c: nat) {
    exists field: bytes, r: nat ::
      IsLengthField(field, |m|) && IsRemainder(WORD * Poly(m + field), r) && c == Xor(r, WORD_MAX)
  }

  // ---- Division has one answer ----

  lemma RemainderIsUnique(p: nat, r: nat, s: nat)
    requires IsRemainder(p, r) && IsRemainder(p, s)
    ensures r == s
  {
    hide Xor, Clmul;
    var q: nat :| p == Xor(Clmul(q, G), r);
    var t: nat :| p == Xor(Clmul(t, G), s);
    XorSwap(Clmul(q, G), r, Clmul(t, G), s);
    XorSelf(p);
    ClmulDistributes(q, t, G);
    var (d, e) := (Xor(q, t), Xor(r, s));
    assert Xor(Clmul(d, G), e) == 0;
    XorCancel(Clmul(d, G), e);
    XorZero(Clmul(d, G));
    WordXor(r, s);
    Pow2Values();
    if d != 0 {
      ClmulDegree(d, G, 32);
      assert false;
    }
    ClmulZero(G);
    XorCancel(r, s);
    XorZero(r);
  }

  lemma ClmulZero(b: nat)
    ensures Clmul(0, b) == 0
  {
  }

  // ---- What the register does to remainders ----

  lemma RemainderOfSmall(r: u32)
    ensures IsRemainder(r, r)
  {
    hide Xor;
    ClmulZero(G);
    XorZero(r);
    assert r == Xor(Clmul(0, G), r);
  }

  lemma RemainderPlusSmall(p: nat, r: u32, d: u32)
    requires IsRemainder(p, r)
    ensures IsRemainder(Xor(p, d), Add(r, d))
  {
    hide Xor, Clmul;
    var q: nat :| p == Xor(Clmul(q, G), r);
    XorAssoc(Clmul(q, G), r, d);
    assert Xor(p, d) == Xor(Clmul(q, G), Add(r, d));
  }

  /** One step multiplies by x. */
  lemma RemainderTimesX(p: nat, r: u32)
    requires IsRemainder(p, r)
    ensures IsRemainder(2 * p, BitStep(r))
  {
    hide Xor, Clmul;
    var q: nat :| p == Xor(Clmul(q, G), r);
    var (c, h, l) := (Clmul(q, G), r / 0x8000_0000, r % 0x8000_0000);
    XorDouble(c, r);
    StepReduces(h, l);
    ClmulTimesX(q, h, G);
    XorComm(h * G, 2 * c);
    XorAssoc(2 * c, h * G, BitStep(r));
    assert 2 * p == Xor(Clmul(2 * q + h, G), BitStep(r));
  }

  /** Doubling a register is a step plus, when the top bit was set, the generator. */
  lemma StepReduces(h: nat, l: nat)
    requires h < 2 && l < 0x8000_0000
    ensures 2 * (h * 0x8000_0000 + l) == Xor(h * G, BitStep(h * 0x8000_0000 + l))
  {
    hide Xor;
    XorZero(2 * l);
    if h == 1 {
      Pow2Values();
      WordXor(2 * l, GENERATOR);
      XorSplit(1, GENERATOR, 0, Xor(2 * l, GENERATOR), 32);
      ShlValues(1);
      ShlValues(0);
      XorZero(1);
      XorCancel(GENERATOR, 2 * l);
      XorComm(GENERATOR, 2 * l);
    }
  }

  lemma {:induction false} RemainderSteps(p: nat, r: u32, n: nat)
    requires IsRemainder(p, r)
    ensures IsRemainder(Shl(p, n), Steps(r, n))
  {
    hide IsRemainder;
    if n == 0 {
    } else {
      RemainderSteps(p, r, n - 1);
      RemainderTimesX(Shl(p, n - 1), Steps(r, n - 1));
    }
  }

  /** The register after a message is the remainder of the message times x^32. */
  lemma {:induction false} FeedIsRemainder(m: bytes)
    ensures IsRemainder(WORD * Poly(m), Feed(0, m))
  {
    hide Xor, IsRemainder;
    if m == [] {
      RemainderOfSmall(0);
    } else {
      var (p, c) := (Poly(m[..|m| - 1]), m[|m| - 1]);
      var r := Feed(0, m[..|m| - 1]);
      FeedIsRemainder(m[..|m| - 1]);
      RemainderPlusSmall(WORD * p, r, Align(c));
      RemainderSteps(Xor(WORD * p, Align(c)), Add(r, Align(c)), 8);
      AppendOctet(p, c);
    }
  }

  lemma AppendOctet(p: nat, c: byte)
    ensures Shl(Xor(WORD * p, Align(c)), 8) == WORD * (0x100 * p + c)
  {
    hide Xor;
    Pow2Values();
    ShlValues(p);
    XorZero(p);
    XorZero(Align(c));
    XorSplit(p, 0, 0, Align(c), 32);
    ShlValues(0);
    Shl8(Xor(WORD * p, Align(c)));
  }

  // ---- The checksum ----

  /** What both programs return: feed the message, then its length, then complement. */
  function Cksum(m: bytes): u32 {
    WORD_MAX - Feed(Feed(0, m), LengthOctets(|m|))
  }

  lemma {:induction false} ComplementIsXor(r: nat, k: nat)
    requires r < Pow2(k)
    ensures Xor(r, Pow2(k) - 1) == Pow2(k) - 1 - r
  {
    if k == 0 {
    } else {
      ComplementIsXor(r / 2, k - 1);
      XorHalves(r, Pow2(k) - 1);
    }
  }

  lemma FeedZeroOctet()
    ensures Feed(0, [0]) == 0
  {
    hide Xor;
    XorZero(0);
    assert [0][..0] == [];
    StepsOfZero(8);
  }

  // ---- What the length loop appends ----

  /** Taking the lowest octet off the front leaves the number without its lowest digit. */
  lemma {:induction false} DenotesFirst(c: byte, rest: bytes)
    ensures Denotes([c] + rest) == c + 0x100 * Denotes(rest)
    decreases |rest|
  {
    var field := [c] + rest;
    if rest == [] {
      assert field[..0] == [];
    } else {
      var n := |rest| - 1;
      assert field[..n + 1] == [c] + rest[..n] && field[n + 1] == rest[n];
      DenotesFirst(c, rest[..n]);
      EightMoreBits(n);
      TimesOctet(rest[n], Pow2(8 * n));
    }
  }

  lemma TimesOctet(c: nat, p: nat)
    ensures c * (0x100 * p) == 0x100 * (c * p)
  {
  }

  /** The octets of the length loop denote the length, and no fewer would. */
  lemma {:induction false} LengthOctetsDenote(n: nat)
    ensures Denotes(LengthOctets(n)) == n
    ensures n > 0 ==> LengthOctets(n) != [] && LengthOctets(n)[|LengthOctets(n)| - 1] != 0
  {
    if n == 0 {
    } else {
      LengthOctetsDenote(n / 0x100);
      DenotesFirst(n % 0x100, LengthOctets(n / 0x100));
    }
  }

  /** Octets without a zero in the highest place are determined by the number they denote. */
  lemma {:induction false} DenotationIsUnique(field: bytes)
    requires field == [] || field[|field| - 1] != 0
    ensures field == LengthOctets(Denotes(field))
    decreases |field|
  {
    if field == [] {
    } else {
      var (c, rest) := (field[0], field[1..]);
      assert field == [c] + rest;
      DenotesFirst(c, rest);
      DenotationIsUnique(rest);
      if rest == [] {
        assert Denotes(rest) == 0;
      } else {
        LengthOctetsDenote(Denotes(rest));
        assert Denotes(rest) != 0;
      }
    }
  }

  /** A length field adds to the register what the loop adds: for zero, whose field is one zero octet, nothing. */
  lemma FieldFeeds(m: bytes, field: bytes)
    requires IsLengthField(field, |m|)
    ensures Feed(0, m + field) == Feed(Feed(0, m), LengthOctets(|m|))
  {
    FeedConcat(0, m, field);
    if field[|field| - 1] != 0 {
      DenotationIsUnique(field);
    } else {
      assert field == [0];
      assert Denotes([0]) == 0;
      assert m == [];
      FeedZeroOctet();
    }
  }

  lemma LengthFieldExists(n: nat)
    ensures IsLengthField(if n == 0 then [0] else LengthOctets(n), n)
  {
    LengthOctetsDenote(n);
    assert Denotes([0]) == 0;
  }

  /** Cksum is the standard's checksum, and nothing else is. */
  lemma CksumIsPosix(m: bytes, c: nat)
    ensures IsPosixCksum(m, c) <==> c == Cksum(m)
  {
    hide Xor, IsRemainder, IsLengthField, Feed, Poly;
    var r := Feed(Feed(0, m), LengthOctets(|m|));
    var field := if |m| == 0 then [0] else LengthOctets(|m|);
    LengthFieldExists(|m|);
    FieldFeeds(m, field);
    FeedIsRemainder(m + field);
    Pow2Values();
    ComplementIsXor(r, 32);
    if IsPosixCksum(m, c) {
      var other: bytes, s: nat :|
        IsLengthField(other, |m|) && IsRemainder(WORD * Poly(m + other), s) && c == Xor(s, WORD_MAX);
      FieldFeeds(m, other);
      FeedIsRemainder(m + other);
      RemainderIsUnique(WORD * Poly(m + other), r, s);
    }
  }

  // ---- The length field is a permutation of registers ----

  /** The register a message must leave for its checksum to be c. */
  function RegisterFor(c: u32, length: nat): u32 {
    Unfeed(WORD_MAX - c, LengthOctets(length))
  }

  /** For each length, checksums and registers determine one another. */
  lemma CksumDeterminesRegister(m: bytes, c: u32)
    ensures Cksum(m) == c <==> Feed(0, m) == RegisterFor(c, |m|)
  {
    hide Feed, Unfeed;
    FeedIsBijective(Feed(0, m), LengthOctets(|m|));
    FeedIsBijective(WORD_MAX - c, LengthOctets(|m|));
  }

  /** For messages of one length the checksum tells apart exactly what the register tells apart. */
  lemma CksumsAgreeIffRegistersDo(a: bytes, b: bytes)
    requires |a| == |b|
    ensures Cksum(a) == Cksum(b) <==> Feed(0, a) == Feed(0, b)
  {
    if Cksum(a) == Cksum(b) {
      FeedInjective(Feed(0, a), Feed(0, b), LengthOctets(|a|));
    }
  }

  /** Adding two equal-length messages adds their registers. */
  lemma RegisterOfSum(a: bytes, b: bytes)
    requires |a| == |b|
    ensures Feed(0, XorBytes(a, b)) == Add(Feed(0, a), Feed(0, b))
  {
    XorZero(0);
    FeedLinear(0, 0, a, b);
  }
}
