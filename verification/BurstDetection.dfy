/** Two files of one length that differ only inside 32 consecutive bits never share a checksum. */
module BurstDetection {
  import opened Bytes
  import opened Gf2
  import opened BitRegister
  import opened PosixCksum

  type bit = d: nat | d < 2

  /** The eight bits of an octet, most significant first. */
  function BitsOfOctet(c: byte): (s: seq<bit>)
    ensures |s| == 8
  {
    var n: nat := c;
    [n / 128, n / 64 % 2, n / 32 % 2, n / 16 % 2, n / 8 % 2, n / 4 % 2, n / 2 % 2, n % 2]
  }

  /** Bit i of a file, in the order the checksum takes them. */
  function BitOfFile(m: bytes, i: nat): bit
    requires i < 8 * |m|
  {
    BitsOfOctet(m[i / 8])[i % 8]
  }

  function BitsOfFile(m: bytes): (s: seq<bit>)
    ensures |s| == 8 * |m|
    ensures forall i :: 0 <= i < 8 * |m| ==> s[i] == BitOfFile(m, i)
  {
    seq(8 * |m|, i requires 0 <= i < 8 * |m| => BitOfFile(m, i))
  }

  // ---- Feeding bits one at a time ----

  /** A bit in the top place of a register. */
  function Top(d: bit): u32 {
    0x8000_0000 * (d as int)
  }

  function FeedBits(r: u32, s: seq<bit>): u32
    decreases |s|
  {
    if s == [] then r else FeedBits(BitStep(Add(r, Top(s[0]))), s[1..])
  }

  lemma {:induction false} FeedBitsConcat(r: u32, s: seq<bit>, t: seq<bit>)
    ensures FeedBits(r, s + t) == FeedBits(FeedBits(r, s), t)
    decreases |s|
  {
    if s == [] {
      assert s + t == t;
    } else {
      assert (s + t)[1..] == s[1..] + t;
      FeedBitsConcat(BitStep(Add(r, Top(s[0]))), s[1..], t);
    }
  }

  lemma {:induction false} FeedBitsInjective(a: u32, b: u32, s: seq<bit>)
    requires FeedBits(a, s) == FeedBits(b, s)
    ensures a == b
    decreases |s|
  {
    hide Xor, BitStep;
    if s == [] {
    } else {
      var (x, y) := (Add(a, Top(s[0])), Add(b, Top(s[0])));
      FeedBitsInjective(BitStep(x), BitStep(y), s[1..]);
      BitStepIsBijective(x);
      BitStepIsBijective(y);
      XorInjective(a, b, Top(s[0]));
    }
  }

  // ---- Up to 32 bits fed at once are one number added before the steps ----

  /** The bits as the leading binary digits of a register. */
  function Pack(s: seq<bit>): u32 {
    if s == [] then 0 else Top(s[0]) + Pack(s[1..]) / 2
  }

  /** The number whose binary digits are the bits. */
  function Number(s: seq<bit>): nat {
    if s == [] then 0 else s[0] * Pow2(|s| - 1) + Number(s[1..])
  }

  lemma {:induction false} PackAligned(s: seq<bit>)
    requires |s| <= 32
    ensures Pack(s) == Shl(Number(s), 32 - |s|)
  {
    if s == [] {
      ShlPow2(0, 32);
    } else {
      PackAligned(s[1..]);
      TopAsShift(s[0], Number(s[1..]), |s|);
    }
  }

  lemma TopAsShift(d: bit, g: nat, n: nat)
    requires 1 <= n <= 32
    ensures Shl(g, 33 - n) / 2 == Shl(g, 32 - n)
    ensures Top(d) + Shl(g, 32 - n) == Shl(d * Pow2(n - 1) + g, 32 - n)
  {
    ShlAdds(d * Pow2(n - 1), g, 32 - n);
    ShlPow2(n - 1, 32 - n);
    Pow2Values();
  }

  lemma {:induction false} ShlAdds(a: nat, b: nat, k: nat)
    ensures Shl(a + b, k) == Shl(a, k) + Shl(b, k)
  {
    if k == 0 {
    } else {
      ShlAdds(a, b, k - 1);
    }
  }

  lemma {:induction false} ShlPow2(j: nat, k: nat)
    ensures Shl(Pow2(j), k) == Pow2(j + k) && Shl(0, k) == 0
  {
    if k == 0 {
    } else {
      ShlPow2(j, k - 1);
    }
  }

  /** Different strings of at most 32 bits pack differently. */
  lemma {:induction false} PackInjective(s: seq<bit>, t: seq<bit>)
    requires |s| == |t| <= 32 && Pack(s) == Pack(t)
    ensures s == t
  {
    if s == [] {
    } else {
      PackEven(s[1..]);
      PackEven(t[1..]);
      assert s[0] == t[0];
      PackInjective(s[1..], t[1..]);
      assert s == [s[0]] + s[1..] && t == [t[0]] + t[1..];
    }
  }

  lemma PackEven(s: seq<bit>)
    requires |s| < 32
    ensures Pack(s) % 2 == 0
  {
    hide Pack, Number;
    PackAligned(s);
    assert Shl(Number(s), 32 - |s|) == 2 * Shl(Number(s), 31 - |s|);
  }

  /** Feeding at most 32 bits is adding them to the register and stepping as often. */
  lemma {:induction false} FeedBitsIsSteps(r: u32, s: seq<bit>)
    requires |s| <= 32
    ensures FeedBits(r, s) == Steps(Add(r, Pack(s)), |s|)
    decreases |s|
  {
    hide Xor;
    if s == [] {
      XorZero(r);
    } else {
      var (d, rest) := (Top(s[0]), s[1..]);
      var half := Pack(rest) / 2;
      FeedBitsIsSteps(BitStep(Add(r, d)), rest);
      PackEven(rest);
      assert BitStep(half) == Pack(rest);
      BitStepLinear(Add(r, d), half);
      XorAssoc(r, d, half);
      TopPlusLow(s[0], half);
      assert Steps(Add(r, Pack(s)), 1) == BitStep(Add(r, Pack(s)));
      StepsSplit(Add(r, Pack(s)), 1, |rest|);
    }
  }

  lemma TopPlusLow(d: bit, low: nat)
    requires low < 0x8000_0000
    ensures Xor(Top(d), low) == Top(d) + low
  {
    hide Xor;
    Pow2Values();
    ShlValues(d);
    ShlValues(0);
    XorSplit(d, 0, 0, low, 31);
    XorZero(d);
    XorZero(low);
  }

  // ---- Octets are their eight bits ----

  lemma PackOfOctet(c: byte)
    ensures Pack(BitsOfOctet(c)) == Align(c)
  {
    var s := BitsOfOctet(c);
    PackOfFour(s[4..]);
    PackOfFour(s[..4]);
    PackAppend(s[..4], s[4..]);
    assert s == s[..4] + s[4..];
    DigitsOfOctet(c);
  }

  lemma DigitsOfOctet(n: nat)
    requires n < 256
    ensures n == 128 * (n / 128) + 64 * (n / 64 % 2) + 32 * (n / 32 % 2) + 16 * (n / 16 % 2)
              + 8 * (n / 8 % 2) + 4 * (n / 4 % 2) + 2 * (n / 2 % 2) + n % 2
  {
    assert n / 64 == 2 * (n / 128) + n / 64 % 2;
    assert n / 32 == 2 * (n / 64) + n / 32 % 2;
    assert n / 16 == 2 * (n / 32) + n / 16 % 2;
    assert n / 8 == 2 * (n / 16) + n / 8 % 2;
    assert n / 4 == 2 * (n / 8) + n / 4 % 2;
    assert n / 2 == 2 * (n / 4) + n / 2 % 2;
  }

  lemma PackOfFour(s: seq<bit>)
    requires |s| == 4
    ensures Pack(s) == 0x1000_0000 * (8 * (s[0] as int) + 4 * (s[1] as int) + 2 * (s[2] as int) + (s[3] as int))
  {
    assert s[1..][1..] == s[2..] && s[2..][1..] == s[3..] && s[3..][1..] == [];
    assert Pack(s[3..]) == Top(s[3]);
    assert Pack(s[2..]) == Top(s[2]) + Top(s[3]) / 2;
    assert Pack(s[1..]) == Top(s[1]) + Pack(s[2..]) / 2;
  }

  /** Appending bits below four leading ones. */
  lemma PackAppend(s: seq<bit>, t: seq<bit>)
    requires |s| == |t| == 4
    ensures Pack(s + t) == Pack(s) + Pack(t) / 16
  {
    PackOfFour(s);
    PackOfFour(t);
    var u := s + t;
    assert u[1..][1..] == u[2..] && u[2..][1..] == u[3..] && u[3..][1..] == u[4..] == t;
    assert Pack(u[3..]) == Top(s[3]) + Pack(t) / 2;
    assert Pack(u[2..]) == Top(s[2]) + Pack(u[3..]) / 2;
    assert Pack(u[1..]) == Top(s[1]) + Pack(u[2..]) / 2;
  }

  lemma OctetIsBits(r: u32, c: byte)
    ensures Octet(r, c) == FeedBits(r, BitsOfOctet(c))
  {
    PackOfOctet(c);
    FeedBitsIsSteps(r, BitsOfOctet(c));
  }

  lemma {:induction false} FeedIsFeedBits(r: u32, m: bytes)
    ensures Feed(r, m) == FeedBits(r, BitsOfFile(m))
  {
    if m == [] {
    } else {
      var (p, c) := (m[..|m| - 1], m[|m| - 1]);
      FeedIsFeedBits(r, p);
      OctetIsBits(Feed(r, p), c);
      FeedBitsConcat(r, BitsOfFile(p), BitsOfOctet(c));
      BitsOfSnoc(p, c);
      assert m == p + [c];
    }
  }

  lemma BitsOfSnoc(m: bytes, c: byte)
    ensures BitsOfFile(m + [c]) == BitsOfFile(m) + BitsOfOctet(c)
  {
    hide BitsOfOctet;
    var n := m + [c];
    forall i | 0 <= i < 8 * |n|
      ensures BitsOfFile(n)[i] == (BitsOfFile(m) + BitsOfOctet(c))[i]
    {
      if i < 8 * |m| {
        assert n[i / 8] == m[i / 8];
      } else {
        assert i / 8 == |m| && i % 8 == i - 8 * |m|;
      }
    }
  }

  // ---- Bursts ----

  /** Two bit strings of one length agree outside the window of 32 bits that starts at k. */
  ghost predicate AgreeOutside(a: bytes, b: bytes, k: nat)
    requires |a| == |b|
  {
    forall i :: 0 <= i < 8 * |a| && !(k <= i < k + 32) ==> BitOfFile(a, i) == BitOfFile(b, i)
  }

  lemma BurstIsDetected(a: bytes, b: bytes, k: nat)
    requires |a| == |b| && a != b && AgreeOutside(a, b, k)
    ensures Cksum(a) != Cksum(b)
  {
    if Cksum(a) == Cksum(b) {
      CksumsAgreeIffRegistersDo(a, b);
      FeedIsFeedBits(0, a);
      FeedIsFeedBits(0, b);
      var (s, t) := (BitsOfFile(a), BitsOfFile(b));
      CutWindow(s, t, k);
      BitsDetermineFile(a, b);
    }
  }

  lemma CutWindow(s: seq<bit>, t: seq<bit>, k: nat)
    requires |s| == |t| && FeedBits(0, s) == FeedBits(0, t)
    requires forall i :: 0 <= i < |s| && !(k <= i < k + 32) ==> s[i] == t[i]
    ensures s == t
  {
    hide FeedBits;
    var (i, j) := (if k < |s| then k else |s|, if k + 32 < |s| then k + 32 else |s|);
    assert s[..i] == t[..i];
    assert s[j..] == t[j..];
    assert s == s[..i] + s[i..j] + s[j..];
    assert t == s[..i] + t[i..j] + s[j..];
    WindowDecides(s[..i], s[i..j], t[i..j], s[j..]);
  }

  lemma WindowDecides(before: seq<bit>, u: seq<bit>, v: seq<bit>, after: seq<bit>)
    requires |u| == |v| <= 32
    requires FeedBits(0, before + u + after) == FeedBits(0, before + v + after)
    ensures u == v
  {
    var r := FeedBits(0, before);
    FeedBitsConcat(0, before + u, after);
    FeedBitsConcat(0, before + v, after);
    FeedBitsConcat(0, before, u);
    FeedBitsConcat(0, before, v);
    FeedBitsInjective(FeedBits(r, u), FeedBits(r, v), after);
    FeedBitsIsSteps(r, u);
    FeedBitsIsSteps(r, v);
    StepsInjective(Add(r, Pack(u)), Add(r, Pack(v)), |u|);
    XorComm(r, Pack(u));
    XorComm(r, Pack(v));
    XorInjective(Pack(u), Pack(v), r);
    PackInjective(u, v);
  }

  lemma BitsDetermineOctet(a: byte, b: byte)
    requires BitsOfOctet(a) == BitsOfOctet(b)
    ensures a == b
  {
    PackOfOctet(a);
    PackOfOctet(b);
  }

  lemma OctetOfFile(m: bytes, i: nat)
    requires i < |m|
    ensures BitsOfFile(m)[8 * i..8 * i + 8] == BitsOfOctet(m[i])
  {
    hide BitsOfOctet;
    forall k | 0 <= k < 8
      ensures BitsOfFile(m)[8 * i + k] == BitsOfOctet(m[i])[k]
    {
      assert (8 * i + k) / 8 == i && (8 * i + k) % 8 == k;
    }
  }

  /** Files with the same bits are the same file. */
  lemma BitsDetermineFile(a: bytes, b: bytes)
    requires |a| == |b| && BitsOfFile(a) == BitsOfFile(b)
    ensures a == b
  {
    hide BitsOfFile;
    forall i | 0 <= i < |a|
      ensures a[i] == b[i]
    {
      OctetOfFile(a, i);
      OctetOfFile(b, i);
      BitsDetermineOctet(a[i], b[i]);
    }
  }

  /** In particular: other octets in up to four consecutive places are always noticed. */
  lemma FourOctetsAreDetected(a: bytes, i: nat, window: bytes)
    requires |window| <= 4 && i + |window| <= |a| && a[i..i + |window|] != window
    ensures Cksum(a) != Cksum(a[..i] + window + a[i + |window|..])
  {
    hide Cksum, BitsOfOctet;
    var b := a[..i] + window + a[i + |window|..];
    assert b[i..i + |window|] == window;
    forall k | 0 <= k < 8 * |a| && !(8 * i <= k < 8 * i + 32)
      ensures BitOfFile(a, k) == BitOfFile(b, k)
    {
      assert k / 8 < i || k / 8 >= i + 4;
      assert a[k / 8] == b[k / 8];
    }
    BurstIsDetected(a, b, 8 * i);
  }
}
