/**
 What the checksum is, apart from any register: the complement of the remainder that long
 division by the generator polynomial leaves.
 */
module CrcDivision {
  import opened Bytes
  import opened Crc32c
  import opened CrcWords
  import opened CrcBursts

  // ---- long division of polynomials over the two-element field ----

  /** x^32 + x^28 + x^27 + ... + x^6 + 1, by its exponents. */
  const EXPONENTS: set<nat> := {32, 28, 27, 26, 25, 23, 22, 20, 19, 18, 14, 13, 11, 10, 9, 8, 6, 0}

  /** One step of long division: if the leading coefficient is set, the generator is subtracted
      below it; then it is dropped. Coefficients are listed from the highest power down. */
  function Subtract(p: seq<bool>): (q: seq<bool>)
    requires |p| > 32
    ensures |q| == |p| - 1
  {
    seq(|p| - 1, i requires 0 <= i < |p| - 1 => p[i + 1] != (p[0] && i < 32 && 31 - i in EXPONENTS))
  }

  /** The remainder of `p` after division by the generator. */
  function Remainder(p: seq<bool>): (r: seq<bool>)
    requires |p| >= 32
    ensures |r| == 32
    decreases |p|
  {
    if |p| == 32 then p else Remainder(Subtract(p))
  }

  /** Bit `i` of `n`. */
  predicate BitAt(n: nat, i: nat) { if i == 0 then n % 2 == 1 else BitAt(n / 2, i - 1) }

  /** The data as a polynomial: the bits of each byte from the lowest up, then 32 zeros, with the
      first 32 coefficients of it all complemented. */
  function Message(data: seq<byte>): (p: seq<bool>)
    ensures |p| == 8 * |data| + 32
  {
    seq(8 * |data| + 32, i requires 0 <= i < 8 * |data| + 32 =>
      (i < 8 * |data| && BitAt(data[i / 8] as nat, i % 8)) != (i < 32))
  }

  // ---- bits of numbers ----

  lemma {:induction false} BitOfNumber(n: nat, width: nat, i: nat)
    requires i < width
    ensures BitsOf(n, width)[i] == BitAt(n, i)
  {
    if i > 0 {
      BitOfNumber(n / 2, width - 1, i - 1);
    }
  }

  lemma ByteBits(b: byte)
    ensures forall i :: 0 <= i < 8 ==> Bits(b)[i] == BitAt(b as nat, i)
    ensures forall i :: 8 <= i < 32 ==> !Bits(b)[i]
  {
    hide BitAt;
    ByteLayout(b);
    forall i | 0 <= i < 8 ensures Bits(b)[i] == BitAt(b as nat, i) {
      BitOfNumber(b as nat, 32, i);
    }
    hide BitsOf;
  }

  lemma ChecksumBits(data: seq<byte>, i: nat)
    requires i < 32
    ensures BitAt(Checksum(data), i) == Crc(data)[i]
  {
    hide BitAt, Crc;
    BitsOfNat(Crc(data));
    BitOfNumber(Checksum(data), 32, i);
  }

  // ---- the generator in the register ----

  lemma GeneratorBits(i: nat)
    requires i < 32
    ensures POLYNOMIAL[i] == (31 - i in EXPONENTS)
  {
    hide BitsOf;
    BitsAre(0x78, [false, false, false, true, true, true, true, false]);
    BitsAre(0x3B, [true, true, false, true, true, true, false, false]);
    BitsAre(0xF6, [false, true, true, false, true, true, true, true]);
    BitsAre(0x82, [false, true, false, false, false, false, false, true]);
  }

  // ---- the register holds the leading coefficients ----

  /** `p` with the register added to its first 32 coefficients. */
  function Mix(c: Register, p: seq<bool>): (q: seq<bool>)
    requires |p| >= 32
    ensures |q| == |p|
  {
    seq(|p|, i requires 0 <= i < |p| => p[i] != (i < 32 && c[i]))
  }

  lemma MixAt(c: Register, p: seq<bool>, i: nat)
    requires i < |p| && |p| >= 32
    ensures Mix(c, p)[i] == (p[i] != (i < 32 && c[i]))
  {
  }

  lemma SubtractAt(p: seq<bool>, i: nat)
    requires i < |p| - 1 && |p| > 32
    ensures Subtract(p)[i] == (p[i + 1] != (p[0] && i < 32 && 31 - i in EXPONENTS))
  {
    hide EXPONENTS;
  }

  lemma ShiftAt(c: Register, i: nat)
    requires i < 32
    ensures Shift(c)[i] == ((i < 31 && c[i + 1]) != (c[0] && 31 - i in EXPONENTS))
  {
    hide Shift, EXPONENTS;
    ShiftBits(c);
    PolynomialTop();
    GeneratorBits(i);
    hide POLYNOMIAL;
  }

  lemma StepOfDivision(c: Register, p: seq<bool>)
    requires |p| >= 32
    ensures Subtract(Mix(c, [false] + p)) == Mix(Shift(c), p)
  {
    hide Shift, EXPONENTS, Mix, Subtract, POLYNOMIAL;
    var t := [false] + p;
    var q := Mix(c, t);
    MixAt(c, t, 0);
    forall i | 0 <= i < |p| ensures Subtract(q)[i] == Mix(Shift(c), p)[i] {
      MixAt(c, t, i + 1);
      MixAt(Shift(c), p, i);
      SubtractAt(q, i);
      if i < 32 {
        ShiftAt(c, i);
      }
    }
  }

  lemma {:induction false} StepsOfDivision(c: Register, n: nat, p: seq<bool>)
    requires |p| >= 32
    ensures Remainder(Mix(c, Copies(false, n) + p)) == Remainder(Mix(Shifts(c, n), p))
    decreases n
  {
    hide Shift, Subtract, Mix;
    if n == 0 {
      assert Copies(false, 0) + p == p;
    } else {
      var rest := Copies(false, n - 1) + p;
      assert Copies(false, n) + p == [false] + rest;
      StepOfDivision(c, rest);
      StepsOfDivision(Shift(c), n - 1, p);
    }
  }

  function EightBitsOf(b: byte): (s: seq<bool>)
    ensures |s| == 8
  {
    Bits(b)[..8]
  }

  lemma TakeByte(c: Register, b: byte, p: seq<bool>)
    requires |p| >= 32
    ensures Mix(c, EightBitsOf(b) + p) == Mix(Xor(c, Bits(b)), Copies(false, 8) + p)
  {
    hide Bits, BitsOf;
    ByteLayout(b);
    var s, t := EightBitsOf(b) + p, Copies(false, 8) + p;
    assert forall i :: 8 <= i < 32 ==> !Bits(b)[i] by { ByteBits(b); }
    forall i | 0 <= i < |s| ensures Mix(c, s)[i] == Mix(Xor(c, Bits(b)), t)[i] {
    }
  }

  function Stream(data: seq<byte>): (s: seq<bool>)
    ensures |s| == 8 * |data|
  {
    if data == [] then [] else EightBitsOf(data[0]) + Stream(data[1..])
  }

  lemma {:induction false} FoldDivides(c: Register, data: seq<byte>)
    ensures Remainder(Mix(c, Stream(data) + Copies(false, 32))) == Fold(c, data)
    decreases |data|
  {
    hide Shift, Subtract, EightBitsOf, Mix, Xor, Bits;
    var zeros := Copies(false, 32);
    if data == [] {
      assert Stream(data) + zeros == zeros;
      MixZeros(c);
    } else {
      var rest := Stream(data[1..]) + zeros;
      assert Stream(data) + zeros == EightBitsOf(data[0]) + rest;
      TakeByte(c, data[0], rest);
      StepsOfDivision(Xor(c, Bits(data[0])), 8, rest);
      FoldDivides(Advance(Xor(c, Bits(data[0]))), data[1..]);
    }
  }

  lemma MixZeros(c: Register)
    ensures Mix(c, Copies(false, 32)) == c
  {
  }

  lemma {:induction false} StreamBits(data: seq<byte>, i: nat)
    requires i < 8 * |data|
    ensures Stream(data)[i] == BitAt(data[i / 8] as nat, i % 8)
    decreases |data|
  {
    hide BitAt, Bits;
    if i < 8 {
      ByteBits(data[0]);
    } else {
      StreamBits(data[1..], i - 8);
      assert data[1..][(i - 8) / 8] == data[i / 8] && (i - 8) % 8 == i % 8;
      assert Stream(data)[i] == Stream(data[1..])[i - 8];
    }
  }

  lemma MessageIsMixed(data: seq<byte>)
    ensures Message(data) == Mix(ONES, Stream(data) + Copies(false, 32))
  {
    hide BitAt, Stream;
    var p := Stream(data) + Copies(false, 32);
    forall i | 0 <= i < |p| ensures Message(data)[i] == Mix(ONES, p)[i] {
      if i < 8 * |data| {
        StreamBits(data, i);
      }
    }
  }

  /** Bit `i` of the checksum is the complement of the coefficient of x^(31 - i) that long division
      of the message by the generator leaves. */
  lemma ChecksumIsRemainder(data: seq<byte>, i: nat)
    requires i < 32
    ensures Checksum(data) < 0x1_0000_0000
    ensures BitAt(Checksum(data), i) <==> !Remainder(Message(data))[i]
  {
    hide BitAt, Remainder, Message, Stream, Fold, Checksum;
    MessageIsMixed(data);
    FoldDivides(ONES, data);
    ChecksumBits(data, i);
    IntegerBounds();
  }

  // ---- two values ----

  function XorWord(x: bv32, y: bv32): bv32 { x ^ y }

  lemma XorEight(a: Register, b: Register, at: nat, x: bv32, y: bv32)
    requires at <= 24 && Eight(a, at, x) && Eight(b, at, y)
    ensures Eight(Xor(a, b), at, XorWord(x, y))
  {
  }

  lemma XorDown0(x: bv32, y: bv32)
    ensures Above(XorWord(x, y), 0) == XorWord(Above(x, 0), Above(y, 0))
  {
  }

  lemma XorDown1(x: bv32, y: bv32)
    ensures Above(XorWord(x, y), 1) == XorWord(Above(x, 1), Above(y, 1))
  {
  }

  lemma XorDown2(x: bv32, y: bv32)
    ensures Above(XorWord(x, y), 2) == XorWord(Above(x, 2), Above(y, 2))
  {
  }

  lemma XorDown3(x: bv32, y: bv32)
    ensures Above(XorWord(x, y), 3) == XorWord(Above(x, 3), Above(y, 3))
  {
  }

  lemma XorOnWords(a: Register, b: Register, x: bv32, y: bv32)
    requires Same(a, x) && Same(b, y)
    ensures Same(Xor(a, b), XorWord(x, y))
  {
    hide Same, Eight, Above, Xor, XorWord;
    Unpack(a, x);
    Unpack(b, y);
    Unpack(Xor(a, b), XorWord(x, y));
    XorDown0(x, y);
    XorDown1(x, y);
    XorDown2(x, y);
    XorDown3(x, y);
    XorEight(a, b, 0, Above(x, 0), Above(y, 0));
    XorEight(a, b, 8, Above(x, 1), Above(y, 1));
    XorEight(a, b, 16, Above(x, 2), Above(y, 2));
    XorEight(a, b, 24, Above(x, 3), Above(y, 3));
  }

  lemma ByteOnWords(b: byte, v: bv32)
    requires Eight(Bits(b), 0, v) && v >> 8 == 0
    ensures Same(Bits(b), v)
  {
    hide Bits, BitsOf, Eight, Above, Same;
    ByteBits(b);
    NoneAbove(Bits(b), v);
    Unpack(Bits(b), v);
  }

  lemma NoneAbove(c: Register, v: bv32)
    requires v >> 8 == 0 && forall i :: 8 <= i < 32 ==> !c[i]
    ensures Above(v, 0) == v
    ensures Eight(c, 8, Above(v, 1)) && Eight(c, 16, Above(v, 2)) && Eight(c, 24, Above(v, 3))
  {
    assert v >> 16 == 0 && v >> 24 == 0;
  }

  lemma OnesOnWords()
    ensures Same(ONES, 0xFFFF_FFFF)
  {
  }

  /** The ASCII character of `d`. */
  function DigitWord(d: byte): bv32 {
    if d == 1 then 0x31 else if d == 2 then 0x32 else if d == 3 then 0x33 else if d == 4 then 0x34
    else if d == 5 then 0x35 else if d == 6 then 0x36 else if d == 7 then 0x37 else if d == 8 then 0x38
    else if d == 9 then 0x39 else 0x30
  }

  lemma DigitBits(d: byte)
    requires d < 10
    ensures Eight(Bits(0x30 + d), 0, DigitWord(d)) && DigitWord(d) >> 8 == 0
  {
    hide Bits, BitsOf;
    var n := d as nat;
    var bits := [n % 2 == 1, n / 2 % 2 == 1, n / 4 % 2 == 1, n >= 8, true, true, false, false];
    ConstantByte(0x30 + d, bits, DigitWord(d));
  }

  lemma FeedDigit(c: Register, w: bv32, d: byte, v: bv32, next: bv32) returns (e: Register)
    requires Same(c, w) && d < 10 && DigitWord(d) == v && AdvanceWord(XorWord(w, v)) == next
    ensures e == Advance(Xor(c, Bits(0x30 + d))) && Same(e, next)
  {
    hide Same, Bits, Xor, Advance, AdvanceWord, DigitWord, XorWord;
    DigitBits(d);
    ByteOnWords(0x30 + d, v);
    XorOnWords(c, Bits(0x30 + d), w, v);
    AdvanceOnWords(Xor(c, Bits(0x30 + d)), XorWord(w, v));
    e := Advance(Xor(c, Bits(0x30 + d)));
  }

  lemma DigitSteps()
    ensures AdvanceWord(XorWord(0xFFFF_FFFF, 0x31)) == 0x6F0A_661C
    ensures AdvanceWord(XorWord(0x6F0A_661C, 0x32)) == 0x8CAA_3B9F
    ensures AdvanceWord(XorWord(0x8CAA_3B9F, 0x33)) == 0xEF84_D04D
    ensures AdvanceWord(XorWord(0xEF84_D04D, 0x34)) == 0x09C5_0B11
    ensures AdvanceWord(XorWord(0x09C5_0B11, 0x35)) == 0xE72E_DCCA
    ensures AdvanceWord(XorWord(0xE72E_DCCA, 0x36)) == 0xBECA_8E79
    ensures AdvanceWord(XorWord(0xBECA_8E79, 0x37)) == 0xEDBD_6815
    ensures AdvanceWord(XorWord(0xEDBD_6815, 0x38)) == 0x9F78_7F65
    ensures AdvanceWord(XorWord(0x9F78_7F65, 0x39)) == 0x1CF9_6D7C
  {
  }

  lemma RegisterOfDigits() returns (c: Register)
    ensures c == Fold(ONES, [0x31, 0x32, 0x33, 0x34, 0x35, 0x36, 0x37, 0x38, 0x39]) && Same(c, 0x1CF9_6D7C)
  {
    hide Same, Bits, Xor, Advance, AdvanceWord, BitsOf, XorWord;
    DigitSteps();
    OnesOnWords();
    var c1 := FeedDigit(ONES, 0xFFFF_FFFF, 1, 0x31, 0x6F0A_661C);
    var c2 := FeedDigit(c1, 0x6F0A_661C, 2, 0x32, 0x8CAA_3B9F);
    var c3 := FeedDigit(c2, 0x8CAA_3B9F, 3, 0x33, 0xEF84_D04D);
    var c4 := FeedDigit(c3, 0xEF84_D04D, 4, 0x34, 0x09C5_0B11);
    var c5 := FeedDigit(c4, 0x09C5_0B11, 5, 0x35, 0xE72E_DCCA);
    var c6 := FeedDigit(c5, 0xE72E_DCCA, 6, 0x36, 0xBECA_8E79);
    var c7 := FeedDigit(c6, 0xBECA_8E79, 7, 0x37, 0xEDBD_6815);
    var c8 := FeedDigit(c7, 0xEDBD_6815, 8, 0x38, 0x9F78_7F65);
    var c9 := FeedDigit(c8, 0x9F78_7F65, 9, 0x39, 0x1CF9_6D7C);
    var t: seq<byte> := [0x31, 0x32, 0x33, 0x34, 0x35, 0x36, 0x37, 0x38, 0x39];
    assert Fold(ONES, t) == Fold(c1, t[1..]);
    assert Fold(c1, t[1..]) == Fold(c2, t[2..]) by { assert t[1..][1..] == t[2..]; }
    assert Fold(c2, t[2..]) == Fold(c3, t[3..]) by { assert t[2..][1..] == t[3..]; }
    assert Fold(c3, t[3..]) == Fold(c4, t[4..]) by { assert t[3..][1..] == t[4..]; }
    assert Fold(c4, t[4..]) == Fold(c5, t[5..]) by { assert t[4..][1..] == t[5..]; }
    assert Fold(c5, t[5..]) == Fold(c6, t[6..]) by { assert t[5..][1..] == t[6..]; }
    assert Fold(c6, t[6..]) == Fold(c7, t[7..]) by { assert t[6..][1..] == t[7..]; }
    assert Fold(c7, t[7..]) == Fold(c8, t[8..]) by { assert t[7..][1..] == t[8..]; }
    assert Fold(c8, t[8..]) == Fold(c9, t[9..]) by { assert t[8..][1..] == t[9..]; }
    c := c9;
  }

  lemma CheckWord()
    ensures Same(Word([0x83, 0x92, 0x06, 0xE3]), 0xE306_9283)
  {
    hide Word, Bits;
    ConstantByte(0x83, [true, true, false, false, false, false, false, true], 0x83);
    ConstantByte(0x92, [false, true, false, false, true, false, false, true], 0x92);
    ConstantByte(0x06, [false, true, true, false, false, false, false, false], 0x06);
    ConstantByte(0xE3, [true, true, false, false, false, true, true, true], 0xE3);
    BytesAreWord([0x83, 0x92, 0x06, 0xE3], 0x83, 0x92, 0x06, 0xE3, 0xE306_9283);
  }

  lemma LastXor()
    ensures XorWord(0x1CF9_6D7C, 0xFFFF_FFFF) == 0xE306_9283
  {
  }

  lemma LastByte(u: seq<byte>, v: seq<byte>, b: byte)
    requires u == v + [b]
    ensures Unsigned(u) == 256 * Unsigned(v) + b as int
    ensures Backwards(u) == [b] + Backwards(v)
  {
    assert u[..|u| - 1] == v;
  }

  lemma CheckBytes(u: seq<byte>)
    requires u == [0xE3, 0x06, 0x92, 0x83]
    ensures Unsigned(u) == 0xE306_9283 && Backwards(u) == [0x83, 0x92, 0x06, 0xE3]
  {
    assert Unsigned([]) == 0 && Backwards([]) == [];
    hide Unsigned, Backwards;
    LastByte([0xE3], [], 0xE3);
    LastByte([0xE3, 0x06], [0xE3], 0x06);
    LastByte([0xE3, 0x06, 0x92], [0xE3, 0x06], 0x92);
    LastByte(u, [0xE3, 0x06, 0x92], 0x83);
  }

  lemma CheckRegister()
    ensures Crc([0x31, 0x32, 0x33, 0x34, 0x35, 0x36, 0x37, 0x38, 0x39]) == Word([0x83, 0x92, 0x06, 0xE3])
  {
    hide Same, Xor, Fold, Word, XorWord;
    var c := RegisterOfDigits();
    OnesOnWords();
    XorOnWords(c, ONES, 0x1CF9_6D7C, 0xFFFF_FFFF);
    LastXor();
    CheckWord();
    SameIsUnique(Xor(c, ONES), Word([0x83, 0x92, 0x06, 0xE3]), 0xE306_9283);
  }

  /** The checksum of nothing, and that of the characters "123456789". */
  lemma CheckValues()
    ensures Checksum([]) == 0
    ensures Checksum([0x31, 0x32, 0x33, 0x34, 0x35, 0x36, 0x37, 0x38, 0x39]) == 0xE306_9283
  {
    hide Xor, Word, Unsigned, Crc, Checksum, NatOf;
    EmptyChecksum();
    var u: seq<byte> := [0xE3, 0x06, 0x92, 0x83];
    CheckRegister();
    CheckBytes(u);
    StoredMatches([0x31, 0x32, 0x33, 0x34, 0x35, 0x36, 0x37, 0x38, 0x39], u);
  }

  lemma EmptyChecksum()
    ensures Checksum([]) == 0
  {
    assert Crc([]) == ZERO;
    ZeroIs(32);
  }

  lemma {:induction false} ZeroIs(n: nat)
    ensures NatOf(Copies(false, n)) == 0
  {
    if n > 0 {
      assert Copies(false, n)[1..] == Copies(false, n - 1);
      ZeroIs(n - 1);
    }
  }
}
