/**
 The 256-entry table that client/crc.cpp and server/crc.py both spell out, sixteen entries a row.
 The literals are checked once, as machine words, against the bit-serial step; afterwards only the
 step is used.
 */
module CrcTable {
  import opened Bytes
  import opened Gf2
  import opened BitRegister

  const ROW_0: seq<bv32> := [
    0x00000000, 0x04C11DB7, 0x09823B6E, 0x0D4326D9, 0x130476DC, 0x17C56B6B, 0x1A864DB2, 0x1E475005,
    0x2608EDB8, 0x22C9F00F, 0x2F8AD6D6, 0x2B4BCB61, 0x350C9B64, 0x31CD86D3, 0x3C8EA00A, 0x384FBDBD
  ]

  const ROW_1: seq<bv32> := [
    0x4C11DB70, 0x48D0C6C7, 0x4593E01E, 0x4152FDA9, 0x5F15ADAC, 0x5BD4B01B, 0x569796C2, 0x52568B75,
    0x6A1936C8, 0x6ED82B7F, 0x639B0DA6, 0x675A1011, 0x791D4014, 0x7DDC5DA3, 0x709F7B7A, 0x745E66CD
  ]

  const ROW_2: seq<bv32> := [
    0x9823B6E0, 0x9CE2AB57, 0x91A18D8E, 0x95609039, 0x8B27C03C, 0x8FE6DD8B, 0x82A5FB52, 0x8664E6E5,
    0xBE2B5B58, 0xBAEA46EF, 0xB7A96036, 0xB3687D81, 0xAD2F2D84, 0xA9EE3033, 0xA4AD16EA, 0xA06C0B5D
  ]

  const ROW_3: seq<bv32> := [
    0xD4326D90, 0xD0F37027, 0xDDB056FE, 0xD9714B49, 0xC7361B4C, 0xC3F706FB, 0xCEB42022, 0xCA753D95,
    0xF23A8028, 0xF6FB9D9F, 0xFBB8BB46, 0xFF79A6F1, 0xE13EF6F4, 0xE5FFEB43, 0xE8BCCD9A, 0xEC7DD02D
  ]

  const ROW_4: seq<bv32> := [
    0x34867077, 0x30476DC0, 0x3D044B19, 0x39C556AE, 0x278206AB, 0x23431B1C, 0x2E003DC5, 0x2AC12072,
    0x128E9DCF, 0x164F8078, 0x1B0CA6A1, 0x1FCDBB16, 0x018AEB13, 0x054BF6A4, 0x0808D07D, 0x0CC9CDCA
  ]

  const ROW_5: seq<bv32> := [
    0x7897AB07, 0x7C56B6B0, 0x71159069, 0x75D48DDE, 0x6B93DDDB, 0x6F52C06C, 0x6211E6B5, 0x66D0FB02,
    0x5E9F46BF, 0x5A5E5B08, 0x571D7DD1, 0x53DC6066, 0x4D9B3063, 0x495A2DD4, 0x44190B0D, 0x40D816BA
  ]

  const ROW_6: seq<bv32> := [
    0xACA5C697, 0xA864DB20, 0xA527FDF9, 0xA1E6E04E, 0xBFA1B04B, 0xBB60ADFC, 0xB6238B25, 0xB2E29692,
    0x8AAD2B2F, 0x8E6C3698, 0x832F1041, 0x87EE0DF6, 0x99A95DF3, 0x9D684044, 0x902B669D, 0x94EA7B2A
  ]

  const ROW_7: seq<bv32> := [
    0xE0B41DE7, 0xE4750050, 0xE9362689, 0xEDF73B3E, 0xF3B06B3B, 0xF771768C, 0xFA325055, 0xFEF34DE2,
    0xC6BCF05F, 0xC27DEDE8, 0xCF3ECB31, 0xCBFFD686, 0xD5B88683, 0xD1799B34, 0xDC3ABDED, 0xD8FBA05A
  ]

  const ROW_8: seq<bv32> := [
    0x690CE0EE, 0x6DCDFD59, 0x608EDB80, 0x644FC637, 0x7A089632, 0x7EC98B85, 0x738AAD5C, 0x774BB0EB,
    0x4F040D56, 0x4BC510E1, 0x46863638, 0x42472B8F, 0x5C007B8A, 0x58C1663D, 0x558240E4, 0x51435D53
  ]

  const ROW_9: seq<bv32> := [
    0x251D3B9E, 0x21DC2629, 0x2C9F00F0, 0x285E1D47, 0x36194D42, 0x32D850F5, 0x3F9B762C, 0x3B5A6B9B,
    0x0315D626, 0x07D4CB91, 0x0A97ED48, 0x0E56F0FF, 0x1011A0FA, 0x14D0BD4D, 0x19939B94, 0x1D528623
  ]

  const ROW_A: seq<bv32> := [
    0xF12F560E, 0xF5EE4BB9, 0xF8AD6D60, 0xFC6C70D7, 0xE22B20D2, 0xE6EA3D65, 0xEBA91BBC, 0xEF68060B,
    0xD727BBB6, 0xD3E6A601, 0xDEA580D8, 0xDA649D6F, 0xC423CD6A, 0xC0E2D0DD, 0xCDA1F604, 0xC960EBB3
  ]

  const ROW_B: seq<bv32> := [
    0xBD3E8D7E, 0xB9FF90C9, 0xB4BCB610, 0xB07DABA7, 0xAE3AFBA2, 0xAAFBE615, 0xA7B8C0CC, 0xA379DD7B,
    0x9B3660C6, 0x9FF77D71, 0x92B45BA8, 0x9675461F, 0x8832161A, 0x8CF30BAD, 0x81B02D74, 0x857130C3
  ]

  const ROW_C: seq<bv32> := [
    0x5D8A9099, 0x594B8D2E, 0x5408ABF7, 0x50C9B640, 0x4E8EE645, 0x4A4FFBF2, 0x470CDD2B, 0x43CDC09C,
    0x7B827D21, 0x7F436096, 0x7200464F, 0x76C15BF8, 0x68860BFD, 0x6C47164A, 0x61043093, 0x65C52D24
  ]

  const ROW_D: seq<bv32> := [
    0x119B4BE9, 0x155A565E, 0x18197087, 0x1CD86D30, 0x029F3D35, 0x065E2082, 0x0B1D065B, 0x0FDC1BEC,
    0x3793A651, 0x3352BBE6, 0x3E119D3F, 0x3AD08088, 0x2497D08D, 0x2056CD3A, 0x2D15EBE3, 0x29D4F654
  ]

  const ROW_E: seq<bv32> := [
    0xC5A92679, 0xC1683BCE, 0xCC2B1D17, 0xC8EA00A0, 0xD6AD50A5, 0xD26C4D12, 0xDF2F6BCB, 0xDBEE767C,
    0xE3A1CBC1, 0xE760D676, 0xEA23F0AF, 0xEEE2ED18, 0xF0A5BD1D, 0xF464A0AA, 0xF9278673, 0xFDE69BC4
  ]

  const ROW_F: seq<bv32> := [
    0x89B8FD09, 0x8D79E0BE, 0x803AC667, 0x84FBDBD0, 0x9ABC8BD5, 0x9E7D9662, 0x933EB0BB, 0x97FFAD0C,
    0xAFB010B1, 0xAB710D06, 0xA6322BDF, 0xA2F33668, 0xBCB4666D, 0xB8757BDA, 0xB5365D03, 0xB1F740B4
  ]

  const ROWS: seq<seq<bv32>> := [
    ROW_0, ROW_1, ROW_2, ROW_3, ROW_4, ROW_5, ROW_6, ROW_7,
    ROW_8, ROW_9, ROW_A, ROW_B, ROW_C, ROW_D, ROW_E, ROW_F
  ]

  function Row(i: nat): (row: seq<bv32>)
    requires i < 16
    ensures |row| == 16
  {
    ROWS[i]
  }

  // ---- Machine words and the numbers they hold ----

  function Digit(x: bv32, mask: bv32): (d: nat)
    ensures d < 2
  {
    if x & mask == 0 then 0 else 1
  }

  /** The number whose binary digits a word has at four places, lowest first. */
  function Nibble(x: bv32, m0: bv32, m1: bv32, m2: bv32, m3: bv32): (n: nat)
    ensures n < 16
  {
    Digit(x, m0) + 2 * (Digit(x, m1) + 2 * (Digit(x, m2) + 2 * Digit(x, m3)))
  }

  function LowHalf(x: bv32): (n: nat)
    ensures n < 0x1_0000
  {
    Nibble(x, 0x1, 0x2, 0x4, 0x8)
    + 16 * (Nibble(x, 0x10, 0x20, 0x40, 0x80)
    + 16 * (Nibble(x, 0x100, 0x200, 0x400, 0x800)
    + 16 * Nibble(x, 0x1000, 0x2000, 0x4000, 0x8000)))
  }

  function HighHalf(x: bv32): (n: nat)
    ensures n < 0x1_0000
  {
    Nibble(x, 0x10000, 0x20000, 0x40000, 0x80000)
    + 16 * (Nibble(x, 0x100000, 0x200000, 0x400000, 0x800000)
    + 16 * (Nibble(x, 0x1000000, 0x2000000, 0x4000000, 0x8000000)
    + 16 * Nibble(x, 0x10000000, 0x20000000, 0x40000000, 0x80000000)))
  }

  /** The number a word holds. */
  function Value(x: bv32): u32 {
    LowHalf(x) + 0x1_0000 * HighHalf(x)
  }

  // ---- Exclusive or of words adds the polynomials they hold ----

  /** A mask with at most one bit. */
  predicate Single(m: bv32) {
    m == 0 || m & (m - 1) == 0
  }

  lemma DigitXor(x: bv32, y: bv32, m: bv32)
    requires Single(m)
    ensures Digit(x ^ y, m) == Xor(Digit(x, m), Digit(y, m))
  {
    hide Xor;
    XorOfDigits(Digit(x, m), Digit(y, m));
  }

  lemma XorOfDigits(p: nat, q: nat)
    requires p < 2 && q < 2
    ensures Xor(p, q) == if p == q then 0 else 1
  {
  }

  lemma XorCarries(p: nat, a: nat, q: nat, b: nat)
    requires p < 2 && q < 2
    ensures Xor(p + 2 * a, q + 2 * b) == Xor(p, q) + 2 * Xor(a, b)
  {
    hide Xor;
    XorHalves(p + 2 * a, q + 2 * b);
    XorHalves(p, q);
    XorZero(0);
  }

  lemma NibbleXor(x: bv32, y: bv32, m0: bv32, m1: bv32, m2: bv32, m3: bv32)
    requires Single(m0) && Single(m1) && Single(m2) && Single(m3)
    ensures Nibble(x ^ y, m0, m1, m2, m3) == Xor(Nibble(x, m0, m1, m2, m3), Nibble(y, m0, m1, m2, m3))
  {
    hide Xor, Digit, Single;
    DigitXor(x, y, m0);
    DigitXor(x, y, m1);
    DigitXor(x, y, m2);
    DigitXor(x, y, m3);
    var (a, b) := (Digit(x, m2) + 2 * Digit(x, m3), Digit(y, m2) + 2 * Digit(y, m3));
    XorCarries(Digit(x, m2), Digit(x, m3), Digit(y, m2), Digit(y, m3));
    XorCarries(Digit(x, m1), a, Digit(y, m1), b);
    XorCarries(Digit(x, m0), Digit(x, m1) + 2 * a, Digit(y, m0), Digit(y, m1) + 2 * b);
  }

  lemma XorJoin16(a: nat, c: nat, b: nat, d: nat)
    requires c < 16 && d < 16
    ensures Xor(c + 16 * a, d + 16 * b) == Xor(c, d) + 16 * Xor(a, b)
  {
    hide Xor;
    assert Pow2(4) == 16;
    XorSplit(a, c, b, d, 4);
    Shl4(a);
    Shl4(b);
    Shl4(Xor(a, b));
  }

  lemma Shl4(a: nat)
    ensures Shl(a, 4) == 16 * a
  {
    assert Shl(a, 2) == 2 * Shl(a, 1);
  }

  lemma HalfJoin(a3: nat, a2: nat, a1: nat, a0: nat, b3: nat, b2: nat, b1: nat, b0: nat)
    requires a3 < 16 && a2 < 16 && a1 < 16 && a0 < 16 && b3 < 16 && b2 < 16 && b1 < 16 && b0 < 16
    ensures Xor(a0 + 16 * (a1 + 16 * (a2 + 16 * a3)), b0 + 16 * (b1 + 16 * (b2 + 16 * b3)))
         == Xor(a0, b0) + 16 * (Xor(a1, b1) + 16 * (Xor(a2, b2) + 16 * Xor(a3, b3)))
  {
    hide Xor;
    XorJoin16(a3, a2, b3, b2);
    XorJoin16(a2 + 16 * a3, a1, b2 + 16 * b3, b1);
    XorJoin16(a1 + 16 * (a2 + 16 * a3), a0, b1 + 16 * (b2 + 16 * b3), b0);
  }

  lemma LowHalfXor(x: bv32, y: bv32)
    ensures LowHalf(x ^ y) == Xor(LowHalf(x), LowHalf(y))
  {
    hide Xor, Nibble;
    NibbleXor(x, y, 0x1, 0x2, 0x4, 0x8);
    NibbleXor(x, y, 0x10, 0x20, 0x40, 0x80);
    NibbleXor(x, y, 0x100, 0x200, 0x400, 0x800);
    NibbleXor(x, y, 0x1000, 0x2000, 0x4000, 0x8000);
    HalfJoin(Nibble(x, 0x1000, 0x2000, 0x4000, 0x8000),
             Nibble(x, 0x100, 0x200, 0x400, 0x800),
             Nibble(x, 0x10, 0x20, 0x40, 0x80),
             Nibble(x, 0x1, 0x2, 0x4, 0x8),
             Nibble(y, 0x1000, 0x2000, 0x4000, 0x8000),
             Nibble(y, 0x100, 0x200, 0x400, 0x800),
             Nibble(y, 0x10, 0x20, 0x40, 0x80),
             Nibble(y, 0x1, 0x2, 0x4, 0x8));
  }

  lemma HighHalfXor(x: bv32, y: bv32)
    ensures HighHalf(x ^ y) == Xor(HighHalf(x), HighHalf(y))
  {
    hide Xor, Nibble;
    NibbleXor(x, y, 0x10000, 0x20000, 0x40000, 0x80000);
    NibbleXor(x, y, 0x100000, 0x200000, 0x400000, 0x800000);
    NibbleXor(x, y, 0x1000000, 0x2000000, 0x4000000, 0x8000000);
    NibbleXor(x, y, 0x10000000, 0x20000000, 0x40000000, 0x80000000);
    HalfJoin(Nibble(x, 0x10000000, 0x20000000, 0x40000000, 0x80000000),
             Nibble(x, 0x1000000, 0x2000000, 0x4000000, 0x8000000),
             Nibble(x, 0x100000, 0x200000, 0x400000, 0x800000),
             Nibble(x, 0x10000, 0x20000, 0x40000, 0x80000),
             Nibble(y, 0x10000000, 0x20000000, 0x40000000, 0x80000000),
             Nibble(y, 0x1000000, 0x2000000, 0x4000000, 0x8000000),
             Nibble(y, 0x100000, 0x200000, 0x400000, 0x800000),
             Nibble(y, 0x10000, 0x20000, 0x40000, 0x80000));
  }

  lemma ValueXor(x: bv32, y: bv32)
    ensures Value(x ^ y) == Xor(Value(x), Value(y))
  {
    hide Xor, LowHalf, HighHalf;
    LowHalfXor(x, y);
    HighHalfXor(x, y);
    Pow2Values();
    ShlValues(HighHalf(x));
    ShlValues(HighHalf(y));
    ShlValues(Xor(HighHalf(x), HighHalf(y)));
    XorSplit(HighHalf(x), LowHalf(x), HighHalf(y), LowHalf(y), 16);
  }

  // ---- Shifting a word doubles the number it holds ----

  lemma LowHalfDouble(x: bv32)
    ensures LowHalf(x << 1) == 2 * LowHalf(x) - 0x1_0000 * Digit(x, 0x8000)
  {
    hide Digit;
    DigitsDouble(x);
  }

  lemma HighHalfDouble(x: bv32)
    ensures HighHalf(x << 1) == 2 * HighHalf(x) + Digit(x, 0x8000) - 0x1_0000 * Digit(x, 0x8000_0000)
  {
    hide Digit;
    DigitsDouble(x);
  }

  lemma HighHalfTop(x: bv32)
    ensures Digit(x, 0x8000_0000) == 0 <==> HighHalf(x) < 0x8000
  {
    hide Digit;
  }

  /** Doubling a word moves every bit up by one and drops the top one. */
  lemma ValueDouble(x: bv32)
    ensures Value(x << 1) == 2 * Value(x) - WORD * Digit(x, 0x8000_0000)
    ensures Digit(x, 0x8000_0000) == 0 <==> Value(x) < 0x8000_0000
  {
    hide LowHalf, HighHalf, Digit;
    LowHalfDouble(x);
    HighHalfDouble(x);
    HighHalfTop(x);
  }

  lemma DigitsDouble(x: bv32)
    ensures Digit(x << 1, 1) == 0
    ensures Digit(x << 1, 0x2) == Digit(x, 0x1)
    ensures Digit(x << 1, 0x4) == Digit(x, 0x2)
    ensures Digit(x << 1, 0x8) == Digit(x, 0x4)
    ensures Digit(x << 1, 0x10) == Digit(x, 0x8)
    ensures Digit(x << 1, 0x20) == Digit(x, 0x10)
    ensures Digit(x << 1, 0x40) == Digit(x, 0x20)
    ensures Digit(x << 1, 0x80) == Digit(x, 0x40)
    ensures Digit(x << 1, 0x100) == Digit(x, 0x80)
    ensures Digit(x << 1, 0x200) == Digit(x, 0x100)
    ensures Digit(x << 1, 0x400) == Digit(x, 0x200)
    ensures Digit(x << 1, 0x800) == Digit(x, 0x400)
    ensures Digit(x << 1, 0x1000) == Digit(x, 0x800)
    ensures Digit(x << 1, 0x2000) == Digit(x, 0x1000)
    ensures Digit(x << 1, 0x4000) == Digit(x, 0x2000)
    ensures Digit(x << 1, 0x8000) == Digit(x, 0x4000)
    ensures Digit(x << 1, 0x10000) == Digit(x, 0x8000)
    ensures Digit(x << 1, 0x20000) == Digit(x, 0x10000)
    ensures Digit(x << 1, 0x40000) == Digit(x, 0x20000)
    ensures Digit(x << 1, 0x80000) == Digit(x, 0x40000)
    ensures Digit(x << 1, 0x100000) == Digit(x, 0x80000)
    ensures Digit(x << 1, 0x200000) == Digit(x, 0x100000)
    ensures Digit(x << 1, 0x400000) == Digit(x, 0x200000)
    ensures Digit(x << 1, 0x800000) == Digit(x, 0x400000)
    ensures Digit(x << 1, 0x1000000) == Digit(x, 0x800000)
    ensures Digit(x << 1, 0x2000000) == Digit(x, 0x1000000)
    ensures Digit(x << 1, 0x4000000) == Digit(x, 0x2000000)
    ensures Digit(x << 1, 0x8000000) == Digit(x, 0x4000000)
    ensures Digit(x << 1, 0x10000000) == Digit(x, 0x8000000)
    ensures Digit(x << 1, 0x20000000) == Digit(x, 0x10000000)
    ensures Digit(x << 1, 0x40000000) == Digit(x, 0x20000000)
    ensures Digit(x << 1, 0x80000000) == Digit(x, 0x40000000)
  {
  }

  lemma ValueStep(x: bv32)
    ensures Value(WordStep(x)) == BitStep(Value(x))
  {
    hide Xor, Value, Digit;
    ValueDouble(x);
    ValueXor(x << 1, 0x04C1_1DB7);
    GeneratorValue();
  }

  lemma GeneratorValue()
    ensures Value(0x04C1_1DB7) == GENERATOR && Value(0) == 0
  {
    assert LowHalf(0x04C1_1DB7) == 0x1DB7;
    assert HighHalf(0x04C1_1DB7) == 0x04C1;
    assert LowHalf(0) == HighHalf(0) == 0;
  }

  /** The entry that both programs index. */
  function Crctab(i: nat): u32
    requires i < 256
  {
    Value(Row(i / 16)[i % 16])
  }

  // ---- The check of the literals ----

  function WordStep(x: bv32): bv32 {
    if Digit(x, 0x8000_0000) == 0 then x << 1 else (x << 1) ^ 0x04C1_1DB7
  }

  predicate Pair(h: bv32, even: bv32, odd: bv32) {
    even == WordStep(h) && odd == even ^ 0x04C1_1DB7
  }

  /** Entries 2j and 2j+1 of the table come from entry j by one step, with and without the generator. */
  predicate Follows(half: seq<bv32>, off: nat, row: seq<bv32>)
    requires |half| == 16 && |row| == 16 && off <= 8
  {
    && Pair(half[off], row[0], row[1]) && Pair(half[off + 1], row[2], row[3])
    && Pair(half[off + 2], row[4], row[5]) && Pair(half[off + 3], row[6], row[7])
    && Pair(half[off + 4], row[8], row[9]) && Pair(half[off + 5], row[10], row[11])
    && Pair(half[off + 6], row[12], row[13]) && Pair(half[off + 7], row[14], row[15])
  }

  lemma Row0()
    ensures ROW_0[0] == 0 && ROW_0[1] == 0x04C1_1DB7
    ensures Follows(ROW_0, 0, ROW_0)
  {
  }

  lemma Row1()
    ensures Follows(ROW_0, 8, ROW_1)
  {
  }

  lemma Row2()
    ensures Follows(ROW_1, 0, ROW_2)
  {
  }

  lemma Row3()
    ensures Follows(ROW_1, 8, ROW_3)
  {
  }

  lemma Row4()
    ensures Follows(ROW_2, 0, ROW_4)
  {
  }

  lemma Row5()
    ensures Follows(ROW_2, 8, ROW_5)
  {
  }

  lemma Row6()
    ensures Follows(ROW_3, 0, ROW_6)
  {
  }

  lemma Row7()
    ensures Follows(ROW_3, 8, ROW_7)
  {
  }

  lemma Row8()
    ensures Follows(ROW_4, 0, ROW_8)
  {
  }

  lemma Row9()
    ensures Follows(ROW_4, 8, ROW_9)
  {
  }

  lemma RowA()
    ensures Follows(ROW_5, 0, ROW_A)
  {
  }

  lemma RowB()
    ensures Follows(ROW_5, 8, ROW_B)
  {
  }

  lemma RowC()
    ensures Follows(ROW_6, 0, ROW_C)
  {
  }

  lemma RowD()
    ensures Follows(ROW_6, 8, ROW_D)
  {
  }

  lemma RowE()
    ensures Follows(ROW_7, 0, ROW_E)
  {
  }

  lemma RowF()
    ensures Follows(ROW_7, 8, ROW_F)
  {
  }

  lemma RowFollows(i: nat)
    requires i < 16
    ensures Follows(Row(i / 2), 8 * (i % 2), Row(i))
  {
    hide Follows;
    match i
    case 0 => Row0();
    case 1 => Row1();
    case 2 => Row2();
    case 3 => Row3();
    case 4 => Row4();
    case 5 => Row5();
    case 6 => Row6();
    case 7 => Row7();
    case 8 => Row8();
    case 9 => Row9();
    case 10 => RowA();
    case 11 => RowB();
    case 12 => RowC();
    case 13 => RowD();
    case 14 => RowE();
    case 15 => RowF();
  }

  lemma FollowsAt(half: seq<bv32>, off: nat, row: seq<bv32>, j: nat)
    requires |half| == 16 && |row| == 16 && off <= 8 && j < 8
    requires Follows(half, off, row)
    ensures Pair(half[off + j], row[2 * j], row[2 * j + 1])
  {
    hide Pair;
  }

  lemma IndexOfPair(j: nat)
    requires j < 128
    ensures (2 * j) / 16 == (2 * j + 1) / 16 == j / 8 && j / 16 == (j / 8) / 2
    ensures (2 * j) % 16 == 2 * (j % 8) && (2 * j + 1) % 16 == 2 * (j % 8) + 1
    ensures j % 16 == 8 * ((j / 8) % 2) + j % 8
  {
  }

  lemma TablePair(j: nat)
    requires j < 128
    ensures Crctab(2 * j) == BitStep(Crctab(j))
    ensures Crctab(2 * j + 1) == Add(BitStep(Crctab(j)), GENERATOR)
  {
    hide Xor, Value, BitStep, WordStep, Follows, Row, Digit;
    IndexOfPair(j);
    var i := j / 8;
    RowFollows(i);
    FollowsAt(Row(i / 2), 8 * (i % 2), Row(i), j % 8);
    var (half, even) := (Row(i / 2)[8 * (i % 2) + j % 8], Row(i)[2 * (j % 8)]);
    ValueStep(half);
    ValueXor(even, 0x04C1_1DB7);
    GeneratorValue();
  }

  lemma TableOrigin()
    ensures Crctab(0) == 0
  {
    GeneratorValue();
  }

  /** Doubling an index and adding a digit, seen from the octet's eight steps. */
  lemma OneMoreBit(j: nat, d: nat)
    requires j < 128 && d < 2
    ensures Steps(Align(2 * j + d), 8) == Add(BitStep(Steps(Align(j), 8)), d * GENERATOR)
  {
    hide Xor;
    XorZero(Align(2 * j));
    if d == 1 {
      LowestIndexBit(j);
      StepsLinear(Align(2 * j), Align(1), 8);
      StepsOfOne();
    } else {
      XorZero(Steps(Align(2 * j), 8));
    }
    assert BitStep(Align(j)) == Align(2 * j);
    assert Steps(Align(j), 1) == BitStep(Align(j));
    StepsSplit(Align(j), 1, 8);
  }

  lemma LowestIndexBit(j: nat)
    requires j < 128
    ensures Align(2 * j + 1) == Add(Align(2 * j), Align(1))
  {
    hide Xor;
    Pow2Values();
    ShlValues(2 * j);
    ShlValues(1);
    XorZero(0);
    XorSplit(2 * j, 0, 1, 0, 24);
    XorCarries(0, j, 1, 0);
    XorZero(j);
    XorZero(1);
    ShlValues(2 * j + 1);
  }

  lemma StepsOfOne()
    ensures Steps(Align(1), 8) == GENERATOR
  {
    hide Xor;
    XorZero(GENERATOR);
    assert Steps(Align(1), 1) == 0x200_0000;
    assert Steps(Align(1), 3) == 0x800_0000;
    assert Steps(Align(1), 5) == 0x2000_0000;
    assert Steps(Align(1), 7) == 0x8000_0000;
  }

  /** Every entry is the register left by its index fed as one octet: eight steps. */
  lemma {:induction false} TableIsEightSteps(i: nat)
    requires i < 256
    ensures Crctab(i) == Steps(Align(i), 8)
  {
    hide Xor, Crctab;
    TableOrigin();
    if i == 0 {
      StepsOfZero(8);
    } else {
      TablePair(i / 2);
      TableIsEightSteps(i / 2);
      OneMoreBit(i / 2, i % 2);
      XorZero(BitStep(Steps(Align(i / 2), 8)));
    }
  }

  // ---- The step both programs take ----

  /** One table-driven step, as a 32-bit program computes it. */
  function TableStep(crc: u32, c: byte): (next: u32)
  {
    TableIndex(crc, c);
    Add(Crctab(Xor(crc / 0x100_0000, c)), (0x100 * crc) % WORD)
  }

  lemma TableIndex(crc: u32, c: byte)
    ensures Xor(crc / 0x100_0000, c) < 256
  {
    hide Xor;
    Pow2Values();
    XorBound(crc / 0x100_0000, c, 8);
  }

  /** The table step is eight bit steps: the fast form refines the simple one. */
  lemma TableStepIsOctet(crc: u32, c: byte)
    ensures TableStep(crc, c) == Octet(crc, c)
  {
    hide Xor, Crctab;
    var (high, low) := (crc / 0x100_0000, crc % 0x100_0000);
    TableIndex(crc, c);
    var i: byte := Xor(high, c);
    TableIsEightSteps(i);
    AlignedSum(high, low, c);
    StepsLinear(Align(i), low, 8);
    StepsShift(low, 8);
    Shl8(low);
  }

  /** Adding an octet at the top only touches the top octet of the register. */
  lemma AlignedSum(high: byte, low: nat, c: byte)
    requires low < 0x100_0000
    ensures Xor(high, c) < 256
    ensures Add(Align(high) + low, Align(c)) == Add(Align(Xor(high, c)), low)
  {
    hide Xor;
    Pow2Values();
    XorBound(high, c, 8);
    ShlValues(high);
    ShlValues(c);
    ShlValues(Xor(high, c));
    XorZero(low);
    XorZero(Xor(high, c));
    ShlValues(0);
    XorSplit(high, low, c, 0, 24);
    XorSplit(Xor(high, c), 0, 0, low, 24);
  }

  /** No reduction happens while the bits shifted out are zero. */
  lemma {:induction false} StepsShift(low: nat, n: nat)
    requires n <= 8 && low < 0x100_0000
    ensures Steps(low, n) == Shl(low, n) < 0x100_0000 * Pow2(n)
  {
    assert Pow2(7) == 0x80;
    if n == 0 {
    } else {
      StepsShift(low, n - 1);
      Pow2Mono(n - 1, 7);
    }
  }

  lemma {:induction false} Pow2Mono(m: nat, n: nat)
    requires m <= n
    ensures Pow2(m) <= Pow2(n)
  {
    if m < n {
      Pow2Mono(m, n - 1);
    }
  }
}
