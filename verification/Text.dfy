/** Names on the wire: NUL padding and stripping, ASCII lower case, and hexadecimal. */
module Text {
  import opened Bytes

  const NAME_LENGTH: nat := 255
  const NUL: byte := 0
  const BACKSLASH: byte := 0x5C

  // ---- Lower case ----

  function LowerChar(c: byte): byte {
    if 0x41 <= c <= 0x5A then c + 0x20 else c
  }

  /** Python's str.lower and C's tolower on ASCII. */
  function Lower(s: bytes): (t: bytes)
    ensures |t| == |s|
  {
    seq(|s|, i requires 0 <= i < |s| => LowerChar(s[i]))
  }

  lemma LowerTwice(s: bytes)
    ensures Lower(Lower(s)) == Lower(s)
  {
  }

  /** Every capital letter, and nothing else, moves by the distance between the cases. */
  lemma LowerMeans(s: bytes)
    ensures forall i :: 0 <= i < |s| ==> Lower(s)[i] == if 0x41 <= s[i] <= 0x5A then s[i] + 0x20 else s[i]
  {
  }

  /** u is a capital letter and l the same letter in lower case. */
  predicate CasePair(u: byte, l: byte) {
    0x41 <= u <= 0x5A && l == u + 0x20
  }

  predicate SameButCase(a: bytes, b: bytes) {
    |a| == |b| && forall i :: 0 <= i < |a| ==> a[i] == b[i] || CasePair(a[i], b[i]) || CasePair(b[i], a[i])
  }

  /** Names have one lower-case form exactly when they differ in the case of letters alone. */
  lemma LowerAgrees(a: bytes, b: bytes)
    ensures Lower(a) == Lower(b) <==> SameButCase(a, b)
  {
    if Lower(a) == Lower(b) {
      forall i | 0 <= i < |a|
        ensures a[i] == b[i] || CasePair(a[i], b[i]) || CasePair(b[i], a[i])
      {
        assert LowerChar(a[i]) == Lower(a)[i] == Lower(b)[i] == LowerChar(b[i]);
      }
    }
  }

  // ---- NUL padding ----

  function StripLeft(s: bytes): (t: bytes)
    ensures |t| <= |s|
    ensures t == [] || t[0] != NUL
  {
    if s != [] && s[0] == NUL then StripLeft(s[1..]) else s
  }

  function StripRight(s: bytes): (t: bytes)
    ensures t <= s
    ensures t == [] || t[|t| - 1] != NUL
  {
    if s != [] && s[|s| - 1] == NUL then StripRight(s[..|s| - 1]) else s
  }

  /** Python's strip("\0"). */
  function Strip(s: bytes): (t: bytes)
    ensures Clean(t) || |t| > NAME_LENGTH
    ensures |t| <= |s|
  {
    StripRight(StripLeft(s))
  }

  /** A name that fits its field and has no NUL at either end. */
  predicate Clean(s: bytes) {
    |s| <= NAME_LENGTH && (s == [] || (s[0] != NUL && s[|s| - 1] != NUL))
  }

  function Zeros(n: nat): (z: bytes)
    ensures |z| == n && forall i :: 0 <= i < n ==> z[i] == NUL
  {
    seq(n, i requires 0 <= i < n => NUL)
  }

  /** The name field: resize(255, NUL) on the client, padding before pack on the server. */
  function Pad(s: bytes): (t: bytes)
    ensures |t| == NAME_LENGTH
  {
    if |s| <= NAME_LENGTH then s + Zeros(NAME_LENGTH - |s|) else s[..NAME_LENGTH]
  }

  lemma {:induction false} StripRightOfZeros(s: bytes, n: nat)
    requires s == [] || s[|s| - 1] != NUL
    ensures StripRight(s + Zeros(n)) == s
    decreases n
  {
    if n == 0 {
      assert s + Zeros(0) == s;
    } else {
      assert (s + Zeros(n))[..|s| + n - 1] == s + Zeros(n - 1);
      StripRightOfZeros(s, n - 1);
    }
  }

  lemma {:induction false} StripLeftOfZeros(n: nat)
    ensures StripLeft(Zeros(n)) == []
  {
    if n == 0 {
    } else {
      assert Zeros(n)[1..] == Zeros(n - 1);
      StripLeftOfZeros(n - 1);
    }
  }

  /** Stripping undoes padding. */
  lemma StripPad(s: bytes)
    requires Clean(s)
    ensures Strip(Pad(s)) == s
  {
    if s == [] {
      assert Pad(s) == Zeros(NAME_LENGTH);
      StripLeftOfZeros(NAME_LENGTH);
    } else {
      StripRightOfZeros(s, NAME_LENGTH - |s|);
    }
  }

  lemma LowerClean(s: bytes)
    requires Clean(s)
    ensures Clean(Lower(s))
  {
  }

  /** The field holds the name from its start, cut at 255 octets, and NULs from there on. */
  lemma PadMeans(s: bytes)
    ensures forall i :: 0 <= i < 255 ==> Pad(s)[i] == if i < |s| then s[i] else 0
  {
  }

  lemma ZerosGrow(n: nat)
    ensures Zeros(n + 1) == [NUL] + Zeros(n) == Zeros(n) + [NUL]
  {
  }

  lemma {:induction false} StripLeftMeans(s: bytes) returns (i: nat)
    ensures s == Zeros(i) + StripLeft(s)
  {
    hide Zeros;
    i := 0;
    if s == [] || s[0] != NUL {
      assert Zeros(0) == [];
    } else {
      i := StripLeftMeans(s[1..]);
      ZerosGrow(i);
      assert s == [NUL] + s[1..];
      assert [NUL] + (Zeros(i) + StripLeft(s)) == [NUL] + Zeros(i) + StripLeft(s);
      i := i + 1;
    }
  }

  lemma {:induction false} StripRightMeans(s: bytes) returns (j: nat)
    ensures s == StripRight(s) + Zeros(j)
  {
    hide Zeros;
    j := 0;
    if s == [] || s[|s| - 1] != NUL {
      assert s == StripRight(s) + Zeros(0) by {
        assert Zeros(0) == [];
      }
    } else {
      j := StripRightMeans(s[..|s| - 1]);
      ZerosGrow(j);
      assert s == s[..|s| - 1] + [NUL];
      assert StripRight(s) + Zeros(j) + [NUL] == StripRight(s) + (Zeros(j) + [NUL]);
      j := j + 1;
    }
  }

  /** Stripping takes NULs off both ends, all of them and nothing else. */
  lemma StripMeans(s: bytes)
    ensures exists i: nat, j: nat :: s == Zeros(i) + Strip(s) + Zeros(j)
    ensures Strip(s) != [] ==> Strip(s)[0] != 0 && Strip(s)[|Strip(s)| - 1] != 0
  {
    hide Zeros, StripLeft, StripRight;
    var i := StripLeftMeans(s);
    var j := StripRightMeans(StripLeft(s));
    assert s == Zeros(i) + Strip(s) + Zeros(j);
    FirstOfStrip(s);
  }

  lemma FirstOfStrip(s: bytes)
    ensures Strip(s) != [] ==> Strip(s)[0] != 0
  {
    hide StripLeft, StripRight;
    assert Strip(s) <= StripLeft(s);
  }

  /** The octets of an ASCII literal. */
  function Ascii(s: string): bytes {
    seq(|s|, i requires 0 <= i < |s| => s[i] as int % 0x100)
  }

  // ---- Hexadecimal ----

  function HexDigit(n: nat): byte
    requires n < 16
  {
    if n < 10 then 0x30 + n else 0x57 + n
  }

  /** The value of a hexadecimal digit of either case. */
  function DigitValue(c: byte): nat {
    if 0x30 <= c <= 0x39 then c - 0x30
    else if 0x61 <= c <= 0x66 then c - 0x57
    else if 0x41 <= c <= 0x46 then c - 0x37
    else 0
  }

  function HexOctet(x: byte, y: byte): byte {
    (16 * DigitValue(x) + DigitValue(y)) % 0x100
  }

  /** Two lower-case digits an octet. */
  function Hex(b: bytes): (h: bytes)
    ensures |h| == 2 * |b|
  {
    if b == [] then []
    else Hex(b[..|b| - 1]) + [HexDigit(b[|b| - 1] / 16), HexDigit(b[|b| - 1] % 16)]
  }

  function Unhex(h: bytes): (b: bytes)
    requires |h| % 2 == 0
    ensures |b| == |h| / 2
  {
    if h == [] then []
    else Unhex(h[..|h| - 2]) + [HexOctet(h[|h| - 2], h[|h| - 1])]
  }

  lemma DigitOfHexDigit(n: nat)
    requires n < 16
    ensures DigitValue(HexDigit(n)) == n
  {
  }

  lemma OctetOfHexDigits(c: byte)
    ensures HexOctet(HexDigit(c / 16), HexDigit(c % 16)) == c
  {
    DigitOfHexDigit(c / 16);
    DigitOfHexDigit(c % 16);
  }

  lemma {:induction false} UnhexHex(b: bytes)
    ensures Unhex(Hex(b)) == b
  {
    if b == [] {
    } else {
      var (h, c) := (Hex(b), b[|b| - 1]);
      assert h[..|h| - 2] == Hex(b[..|b| - 1]);
      UnhexHex(b[..|b| - 1]);
      OctetOfHexDigits(c);
      assert b == b[..|b| - 1] + [c];
    }
  }

  // ---- Where the server keeps a file ----

  const FILES: bytes := [0x66, 0x69, 0x6C, 0x65, 0x73, 0x5C]

  function PathOf(id: bytes, filename: bytes): bytes {
    FILES + Hex(id) + [BACKSLASH] + filename
  }

  /** The directory `files`, the id in digits, and the name, with backslashes between. */
  lemma PathIsSpelled(id: bytes, filename: bytes)
    ensures PathOf(id, filename) == Ascii("files\\") + Hex(id) + Ascii("\\") + filename
  {
    assert Ascii("files\\") == FILES && Ascii("\\") == [BACKSLASH];
  }

  /** No two (client, file name) pairs share a path, whatever characters the names hold. */
  lemma PathInjective(id: bytes, f: bytes, id': bytes, f': bytes)
    requires |id| == |id'| && PathOf(id, f) == PathOf(id', f')
    ensures id == id' && f == f'
  {
    var (p, n) := (PathOf(id, f), |FILES| + 2 * |id|);
    assert Hex(id) == p[|FILES|..n] == Hex(id');
    assert f == p[n + 1..] == f';
    UnhexHex(id);
    UnhexHex(id');
  }
}
