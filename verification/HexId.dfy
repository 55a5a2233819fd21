/** The hexadecimal client id: written, checked and read by the client. */
module HexId {
  import opened Bytes
  import opened Text
  import opened Stores

  predicate IsHexChar(c: byte) {
    0x30 <= c <= 0x39 || 0x61 <= c <= 0x66 || 0x41 <= c <= 0x46
  }

  predicate IsHex(h: bytes) {
    forall i :: 0 <= i < |h| ==> IsHexChar(h[i])
  }

  /** What a stream in std::hex mode writes for an octet: no leading zero. */
  function StreamHex(n: byte): bytes {
    if n < 0x10 then [HexDigit(n)] else [HexDigit(n / 16), HexDigit(n % 16)]
  }

  /** The digits the client writes for its id. */
  method ClientIdToHex(id: Id) returns (hex: bytes)
    ensures hex == Hex(id)
  {
    hex := [];
    for i := 0 to |id|
      invariant hex == Hex(id[..i])
    {
      if id[i] < 0x10 {
        hex := hex + [0x30] + StreamHex(id[i]);
      } else {
        hex := hex + StreamHex(id[i]);
      }
      assert id[..i + 1][..i] == id[..i];
    }
    assert id[..|id|] == id;
  }

  method VerifyClientIdHex(hex: bytes) returns (ok: bool)
    ensures ok <==> |hex| == 32 && IsHex(hex)
  {
    if |hex| != 2 * 16 {
      return false;
    }
    var lower := Lower(hex);
    for i := 0 to |lower|
      invariant forall k :: 0 <= k < i ==> IsHexChar(hex[k])
    {
      if (lower[i] < 0x30 || lower[i] > 0x39) && (lower[i] < 0x61 || lower[i] > 0x66) {
        return false;
      }
    }
    ok := true;
  }

  /** Every two digits become one octet. */
  method HexToBytesArray(hex: bytes) returns (id: Id)
    requires |hex| == 32 && IsHex(hex)
    ensures id == Unhex(hex)
  {
    var octets: bytes := [];
    var i := 0;
    while i < |hex|
      invariant i % 2 == 0 && i <= 32 && |octets| == i / 2
      invariant octets == Unhex(hex[..i])
    {
      DigitBound(hex[i]);
      DigitBound(hex[i + 1]);
      var octet := 16 * DigitValue(hex[i]) + DigitValue(hex[i + 1]);
      assert octet == HexOctet(hex[i], hex[i + 1]);
      assert hex[..i + 2][..i] == hex[..i];
      octets := octets + [octet];
      i := i + 2;
    }
    assert hex[..i] == hex;
    id := octets;
  }

  lemma DigitBound(c: byte)
    ensures DigitValue(c) < 16
  {
  }

  lemma DigitRoundTrip(c: byte)
    requires IsHexChar(c)
    ensures HexDigit(DigitValue(c)) == LowerChar(c)
  {
  }

  lemma HexSnoc(b: bytes, c: byte)
    ensures Hex(b + [c]) == Hex(b) + [HexDigit(c / 16), HexDigit(c % 16)]
  {
    assert (b + [c])[..|b|] == b;
  }

  lemma UnhexSnoc(h: bytes, x: byte, y: byte)
    requires |h| % 2 == 0
    ensures Unhex(h + [x, y]) == Unhex(h) + [HexOctet(x, y)]
  {
    hide HexOctet;
    var g := h + [x, y];
    assert |g| - 2 == |h|;
    assert g[..|h|] == h && g[|h|] == x && g[|h| + 1] == y;
  }

  lemma LowerSnoc(h: bytes, x: byte, y: byte)
    ensures Lower(h + [x, y]) == Lower(h) + [LowerChar(x), LowerChar(y)]
  {
  }

  lemma IsHexSnoc(h: bytes, x: byte, y: byte)
    requires IsHex(h) && IsHexChar(x) && IsHexChar(y)
    ensures IsHex(h + [x, y])
  {
    hide IsHexChar;
  }

  /** An id survives being written and read back, and what is written is always accepted. */
  lemma {:induction false} HexIsAccepted(b: bytes)
    ensures IsHex(Hex(b)) && Unhex(Hex(b)) == b && Lower(Hex(b)) == Hex(b)
  {
    hide Hex, Unhex, Lower, HexDigit, IsHex, IsHexChar;
    UnhexHex(b);
    if b == [] {
      NothingIsHex();
    } else {
      var (a, c) := (b[..|b| - 1], b[|b| - 1]);
      assert b == a + [c];
      HexIsAccepted(a);
      HexSnoc(a, c);
      HexDigitIsLower(c / 16);
      HexDigitIsLower(c % 16);
      LowerSnoc(Hex(a), HexDigit(c / 16), HexDigit(c % 16));
      IsHexSnoc(Hex(a), HexDigit(c / 16), HexDigit(c % 16));
    }
  }

  const DIGITS: string := "0123456789abcdef"
  const CAPITALS: string := "ABCDEF"

  lemma DigitsAreSpelled(n: nat)
    requires n < 16
    ensures HexDigit(n) == DIGITS[n] as int && DigitValue(DIGITS[n] as int) == n
    ensures n >= 10 ==> DigitValue(CAPITALS[n - 10] as int) == n
  {
    assert HexDigit(n) == DIGITS[n] as int;
  }

  /** Octet i is the digits 2i and 2i+1, the higher one first. */
  lemma {:induction false} HexMeans(b: bytes, i: nat)
    requires i < |b|
    ensures Hex(b)[2 * i] == DIGITS[b[i] / 16] as int && Hex(b)[2 * i + 1] == DIGITS[b[i] % 16] as int
    decreases |b|
  {
    hide HexDigit;
    var a := b[..|b| - 1];
    HexSnoc(a, b[|b| - 1]);
    assert b == a + [b[|b| - 1]];
    if i == |a| {
      DigitsAreSpelled(b[i] / 16);
      DigitsAreSpelled(b[i] % 16);
    } else {
      HexMeans(a, i);
    }
  }

  lemma NothingIsHex()
    ensures IsHex(Hex([])) && Lower(Hex([])) == Hex([])
  {
  }

  lemma HexDigitIsLower(n: nat)
    requires n < 16
    ensures IsHexChar(HexDigit(n)) && LowerChar(HexDigit(n)) == HexDigit(n)
  {
  }

  /** Any accepted string, read and written again, comes back in lower case. */
  lemma {:induction false} HexOfUnhex(h: bytes)
    requires |h| % 2 == 0 && IsHex(h)
    ensures Hex(Unhex(h)) == Lower(h)
    decreases |h|
  {
    if h == [] {
    } else {
      hide Hex, Unhex, Lower, HexOctet, HexDigit, LowerChar;
      var n := |h| - 2;
      var (g, x, y) := (h[..n], h[n], h[n + 1]);
      assert h == g + [x, y];
      HexOfUnhex(g);
      hide IsHex;
      OctetOfDigits(x, y);
      UnhexSnoc(g, x, y);
      HexSnoc(Unhex(g), HexOctet(x, y));
      LowerSnoc(g, x, y);
    }
  }

  lemma OctetOfDigits(x: byte, y: byte)
    requires IsHexChar(x) && IsHexChar(y)
    ensures var n := HexOctet(x, y);
      HexDigit(n / 16) == LowerChar(x) && HexDigit(n % 16) == LowerChar(y)
  {
    DigitBound(x);
    DigitBound(y);
    DigitRoundTrip(x);
    DigitRoundTrip(y);
    hide DigitValue, HexDigit, LowerChar;
    var (u, v) := (DigitValue(x), DigitValue(y));
    SplitOctet(u, v);
  }

  lemma SplitOctet(u: nat, v: nat)
    requires u < 16 && v < 16
    ensures (16 * u + v) / 16 == u && (16 * u + v) % 16 == v && (16 * u + v) % 0x100 == 16 * u + v
  {
  }
}
