/**
 The CRC register as a 32-bit machine word, on which it can be computed which differences at the
 end of a content its stored checksum can hide.
 */
module CrcWords {
  import opened Bytes
  import opened Crc32c

  // ---- registers as machine words ----

  const POLYNOMIAL_WORD: bv32 := 0x82F63B78

  /** The eight bits from `at` on are the low ones of `w`. */
  predicate Eight(c: seq<bool>, at: nat, w: bv32)
    requires at + 8 <= |c|
  {
    && c[at] == (w & 0x1 != 0) && c[at + 1] == (w & 0x2 != 0) && c[at + 2] == (w & 0x4 != 0)
    && c[at + 3] == (w & 0x8 != 0) && c[at + 4] == (w & 0x10 != 0) && c[at + 5] == (w & 0x20 != 0)
    && c[at + 6] == (w & 0x40 != 0) && c[at + 7] == (w & 0x80 != 0)
  }

  /** `w` without its lowest `k` bytes. */
  function Above(w: bv32, k: nat): bv32 {
    if k == 0 then w else if k == 1 then w >> 8 else if k == 2 then w >> 16 else w >> 24
  }

  /** The word `w` has the bits of `c`. */
  predicate Same(c: Register, w: bv32) {
    Eight(c, 0, Above(w, 0)) && Eight(c, 8, Above(w, 1)) && Eight(c, 16, Above(w, 2)) && Eight(c, 24, Above(w, 3))
  }

  lemma Unpack(c: Register, w: bv32)
    ensures Same(c, w) <==> && Eight(c, 0, Above(w, 0)) && Eight(c, 8, Above(w, 1))
                            && Eight(c, 16, Above(w, 2)) && Eight(c, 24, Above(w, 3))
  {
    hide Eight, Above;
  }

  function Bit(on: bool, mask: bv32): bv32 { if on then mask else 0 }

  lemma EightBits(c: Register, at: nat) returns (w: bv32)
    requires at <= 24
    ensures w >> 8 == 0 && Eight(c, at, w)
  {
    w := (Bit(c[at], 0x1) | Bit(c[at + 1], 0x2) | Bit(c[at + 2], 0x4) | Bit(c[at + 3], 0x8))
         | (Bit(c[at + 4], 0x10) | Bit(c[at + 5], 0x20) | Bit(c[at + 6], 0x40) | Bit(c[at + 7], 0x80));
  }

  lemma FourBytes(w0: bv32, w1: bv32, w2: bv32, w3: bv32) returns (w: bv32)
    requires w0 >> 8 == 0 && w1 >> 8 == 0 && w2 >> 8 == 0 && w3 >> 8 == 0
    ensures Above(w, 0) & 0xFF == w0 && Above(w, 1) & 0xFF == w1
    ensures Above(w, 2) & 0xFF == w2 && Above(w, 3) & 0xFF == w3
  {
    w := w0 | (w1 << 8) | (w2 << 16) | (w3 << 24);
  }

  lemma EightLow(c: seq<bool>, at: nat, w: bv32, v: bv32)
    requires at + 8 <= |c| && Eight(c, at, v) && w & 0xFF == v & 0xFF
    ensures Eight(c, at, w)
  {
  }

  lemma WordOf(c: Register) returns (w: bv32)
    ensures Same(c, w)
  {
    hide Same, Eight, Above;
    var w0 := EightBits(c, 0);
    var w1 := EightBits(c, 8);
    var w2 := EightBits(c, 16);
    var w3 := EightBits(c, 24);
    w := FourBytes(w0, w1, w2, w3);
    EightLow(c, 0, Above(w, 0), w0);
    EightLow(c, 8, Above(w, 1), w1);
    EightLow(c, 16, Above(w, 2), w2);
    EightLow(c, 24, Above(w, 3), w3);
    Unpack(c, w);
  }

  lemma EightIsUnique(c: Register, d: Register, at: nat, w: bv32)
    requires at <= 24 && Eight(c, at, w) && Eight(d, at, w)
    ensures forall i :: at <= i < at + 8 ==> c[i] == d[i]
  {
    forall i | at <= i < at + 8 ensures c[i] == d[i] {
      assert i == at || i == at + 1 || i == at + 2 || i == at + 3
             || i == at + 4 || i == at + 5 || i == at + 6 || i == at + 7;
    }
  }

  lemma EightsMeet(c: seq<bool>, at: nat, w: bv32, v: bv32)
    requires at + 8 <= |c| && Eight(c, at, w) && Eight(c, at, v)
    ensures w & 0xFF == v & 0xFF
  {
  }

  lemma SameIsUnique(c: Register, d: Register, w: bv32)
    requires Same(c, w) && Same(d, w)
    ensures c == d
  {
    hide Eight, Above;
    EightIsUnique(c, d, 0, Above(w, 0));
    EightIsUnique(c, d, 8, Above(w, 1));
    EightIsUnique(c, d, 16, Above(w, 2));
    EightIsUnique(c, d, 24, Above(w, 3));
  }

  function ShiftWord(w: bv32): bv32 {
    if w & 1 != 0 then (w >> 1) ^ POLYNOMIAL_WORD else w >> 1
  }

  function Unshift(w: bv32): bv32 {
    if w & 0x8000_0000 != 0 then ((w ^ POLYNOMIAL_WORD) << 1) | 1 else w << 1
  }

  function AdvanceWord(w: bv32): bv32 {
    ShiftWord(ShiftWord(ShiftWord(ShiftWord(ShiftWord(ShiftWord(ShiftWord(ShiftWord(w))))))))
  }

  function Retreat(w: bv32): bv32 { Unshift(Unshift(Unshift(Unshift(Unshift(Unshift(Unshift(Unshift(w)))))))) }

  // ---- the step on words ----

  function Value(on: bool): nat { if on then 1 else 0 }

  lemma FourBits(b: seq<bool>)
    requires |b| >= 4
    ensures NatOf(b) == Value(b[0]) + 2 * Value(b[1]) + 4 * Value(b[2]) + 8 * Value(b[3]) + 16 * NatOf(b[4..])
  {
    assert b[1..][1..] == b[2..] && b[2..][1..] == b[3..] && b[3..][1..] == b[4..];
    assert NatOf(b[3..]) == Value(b[3]) + 2 * NatOf(b[4..]);
    assert NatOf(b[2..]) == Value(b[2]) + 2 * NatOf(b[3..]);
    assert NatOf(b[1..]) == Value(b[1]) + 2 * NatOf(b[2..]);
  }

  /** The eight bits of a byte. */
  lemma BitsAre(n: nat, b: seq<bool>)
    requires |b| == 8
    requires n == Value(b[0]) + 2 * Value(b[1]) + 4 * Value(b[2]) + 8 * Value(b[3])
                  + 16 * (Value(b[4]) + 2 * Value(b[5]) + 4 * Value(b[6]) + 8 * Value(b[7]))
    ensures BitsOf(n, 8) == b
  {
    hide BitsOf;
    FourBits(b);
    FourBits(b[4..]);
    assert b[4..][4..] == [];
    BitsOfNat(b);
  }

  lemma PolynomialIsWord()
    ensures Same(POLYNOMIAL, POLYNOMIAL_WORD)
  {
    hide BitsOf;
    BitsAre(0x78, [false, false, false, true, true, true, true, false]);
    BitsAre(0x3B, [true, true, false, true, true, true, false, false]);
    BitsAre(0xF6, [false, true, true, false, true, true, true, true]);
    BitsAre(0x82, [false, true, false, false, false, false, false, true]);
  }

  /** The low byte of `y` is that of `x` shifted, with the byte above it moving in. */
  predicate Stepped(on: bool, x: bv32, q: bv32, y: bv32) { y & 0xFF == ((x >> 1) ^ (if on then q else 0)) & 0xFF }

  predicate Ninth(x: bv32) { x & 0x100 != 0 }

  /** One step on eight of the bits. */
  lemma StepEight(c: Register, at: nat, x: bv32, q: bv32, y: bv32)
    requires at <= 24 && Eight(c, at, x) && Eight(POLYNOMIAL, at, q)
    requires Ninth(x) == (at < 24 && c[at + 8]) && Stepped(c[0], x, q, y)
    ensures Eight(Shift(c), at, y)
  {
    hide Shift, BitsOf;
    ShiftBits(c);
    PolynomialTop();
  }

  lemma WordParts(w: bv32, on: bool)
    requires on == (w & 0x1 != 0)
    ensures Stepped(on, Above(w, 0), Above(POLYNOMIAL_WORD, 0), Above(ShiftWord(w), 0))
    ensures Stepped(on, Above(w, 1), Above(POLYNOMIAL_WORD, 1), Above(ShiftWord(w), 1))
    ensures Stepped(on, Above(w, 2), Above(POLYNOMIAL_WORD, 2), Above(ShiftWord(w), 2))
    ensures Stepped(on, Above(w, 3), Above(POLYNOMIAL_WORD, 3), Above(ShiftWord(w), 3))
  {
  }

  lemma NextBits(c: Register, w: bv32)
    requires Same(c, w)
    ensures c[0] == (w & 0x1 != 0) && !Ninth(Above(w, 3))
    ensures c[8] == Ninth(Above(w, 0)) && c[16] == Ninth(Above(w, 1)) && c[24] == Ninth(Above(w, 2))
  {
  }

  lemma ShiftOnWords(c: Register, w: bv32)
    requires Same(c, w)
    ensures Same(Shift(c), ShiftWord(w))
  {
    hide Same, Eight, Shift, ShiftWord, Stepped, Ninth, Above, BitsOf;
    NextBits(c, w);
    Unpack(c, w);
    Unpack(POLYNOMIAL, POLYNOMIAL_WORD);
    Unpack(Shift(c), ShiftWord(w));
    WordParts(w, c[0]);
    PolynomialIsWord();
    StepEight(c, 0, Above(w, 0), Above(POLYNOMIAL_WORD, 0), Above(ShiftWord(w), 0));
    StepEight(c, 8, Above(w, 1), Above(POLYNOMIAL_WORD, 1), Above(ShiftWord(w), 1));
    StepEight(c, 16, Above(w, 2), Above(POLYNOMIAL_WORD, 2), Above(ShiftWord(w), 2));
    StepEight(c, 24, Above(w, 3), Above(POLYNOMIAL_WORD, 3), Above(ShiftWord(w), 3));
  }

  lemma AdvanceOnWords(c: Register, w: bv32)
    requires Same(c, w)
    ensures Same(Advance(c), AdvanceWord(w))
  {
    hide Same, Shift, ShiftWord;
    var c1, w1 := Shift(c), ShiftWord(w);
    var c2, w2 := Shift(c1), ShiftWord(w1);
    var c3, w3 := Shift(c2), ShiftWord(w2);
    var c4, w4 := Shift(c3), ShiftWord(w3);
    ShiftOnWords(c, w);
    ShiftOnWords(c1, w1);
    ShiftOnWords(c2, w2);
    ShiftOnWords(c3, w3);
    var c5, w5 := Shift(c4), ShiftWord(w4);
    var c6, w6 := Shift(c5), ShiftWord(w5);
    var c7, w7 := Shift(c6), ShiftWord(w6);
    ShiftOnWords(c4, w4);
    ShiftOnWords(c5, w5);
    ShiftOnWords(c6, w6);
    ShiftOnWords(c7, w7);
    assert Shifts(c, 8) == Shifts(c4, 4) == Shift(c7);
  }

  // ---- the differences nobody notices ----

  lemma OneByteKernel(w: bv32)
    requires w >> 8 == 0 && AdvanceWord(w) & 0xFF == 0
    ensures w == 0 || w == 0x5D
  {
  }

  lemma TwoByteKernel(w: bv32)
    requires w >> 16 == 0 && AdvanceWord(AdvanceWord(w)) & 0xFFFF == 0
    ensures w == 0 || w == 0x904D
  {
  }

  lemma RetreatKernel(w: bv32)
    requires w & 0xFF_FFFF == 0 && Retreat(Retreat(Retreat(w))) >> 24 == 0
    ensures w == 0
  {
  }

  lemma RetreatUndoes(w: bv32)
    ensures Retreat(AdvanceWord(w)) == w
  {
    hide ShiftWord, Unshift;
    var w1 := ShiftWord(w);
    var w2 := ShiftWord(w1);
    var w3 := ShiftWord(w2);
    var w4 := ShiftWord(w3);
    var w5 := ShiftWord(w4);
    var w6 := ShiftWord(w5);
    var w7 := ShiftWord(w6);
    UnshiftUndoes(w);
    UnshiftUndoes(w1);
    UnshiftUndoes(w2);
    UnshiftUndoes(w3);
    UnshiftUndoes(w4);
    UnshiftUndoes(w5);
    UnshiftUndoes(w6);
    UnshiftUndoes(w7);
  }

  lemma UnshiftUndoes(w: bv32)
    ensures Unshift(ShiftWord(w)) == w
  {
  }

  lemma RetreatOfZero()
    ensures Retreat(0) == 0
  {
  }

  lemma ThreeByteKernel(w: bv32)
    requires w >> 24 == 0 && AdvanceWord(AdvanceWord(AdvanceWord(w))) & 0xFF_FFFF == 0
    ensures w == 0
  {
    hide AdvanceWord, Retreat;
    RetreatUndoes(w);
    RetreatUndoes(AdvanceWord(w));
    RetreatUndoes(AdvanceWord(AdvanceWord(w)));
    RetreatKernel(AdvanceWord(AdvanceWord(AdvanceWord(w))));
    RetreatOfZero();
  }

  // ---- words of bytes ----

  lemma WordBytes(x: seq<byte>)
    requires 0 < |x| <= 4
    ensures forall i :: 0 <= i < 8 ==> Word(x)[i] == Bits(x[0])[i]
    ensures forall i :: 8 <= i < 32 ==> Word(x)[i] == Word(x[1..])[i - 8]
  {
    ByteLayout(x[0]);
    hide Bits, BitsOf;
    var tail := Word(x[1..]);
    forall i | 8 <= i < 32 ensures Word(x)[i] == tail[i - 8] {
      assert Up(tail, 8)[i] == tail[i - 8];
    }
  }

  lemma EightMoves(c: seq<bool>, at: nat, d: seq<bool>, to: nat, w: bv32)
    requires at + 8 <= |c| && to + 8 <= |d| && Eight(c, at, w)
    requires c[at] == d[to] && c[at + 1] == d[to + 1] && c[at + 2] == d[to + 2] && c[at + 3] == d[to + 3]
    requires c[at + 4] == d[to + 4] && c[at + 5] == d[to + 5] && c[at + 6] == d[to + 6] && c[at + 7] == d[to + 7]
    ensures Eight(d, to, w)
  {
  }

  lemma {:induction false} WordHolds(x: seq<byte>, k: nat, v: bv32)
    requires k < |x| <= 4 && Eight(Bits(x[k]), 0, v)
    ensures Eight(Word(x), 8 * k, v)
    decreases k
  {
    hide Word, Bits, Eight;
    WordBytes(x);
    if k == 0 {
      EightMoves(Bits(x[0]), 0, Word(x), 0, v);
    } else {
      WordHolds(x[1..], k - 1, v);
      EightMoves(Word(x[1..]), 8 * k - 8, Word(x), 8 * k, v);
    }
  }

  lemma ConstantByte(b: byte, bits: seq<bool>, v: bv32)
    requires |bits| == 8 && Eight(bits, 0, v)
    requires b as nat == Value(bits[0]) + 2 * Value(bits[1]) + 4 * Value(bits[2]) + 8 * Value(bits[3])
                         + 16 * (Value(bits[4]) + 2 * Value(bits[5]) + 4 * Value(bits[6]) + 8 * Value(bits[7]))
    ensures Eight(Bits(b), 0, v)
  {
    hide BitsOf, Bits;
    BitsAre(b as nat, bits);
    ByteLayout(b);
  }

  lemma BytesAreWord(x: seq<byte>, v0: bv32, v1: bv32, v2: bv32, v3: bv32, w: bv32)
    requires |x| == 4 && Eight(Bits(x[0]), 0, v0) && Eight(Bits(x[1]), 0, v1)
    requires Eight(Bits(x[2]), 0, v2) && Eight(Bits(x[3]), 0, v3)
    requires Above(w, 0) & 0xFF == v0 & 0xFF && Above(w, 1) & 0xFF == v1 & 0xFF
    requires Above(w, 2) & 0xFF == v2 & 0xFF && Above(w, 3) & 0xFF == v3 & 0xFF
    ensures Same(Word(x), w)
  {
    hide Word, Bits, Eight, Same, Above;
    WordHolds(x, 0, v0);
    WordHolds(x, 1, v1);
    WordHolds(x, 2, v2);
    WordHolds(x, 3, v3);
    EightLow(Word(x), 0, Above(w, 0), v0);
    EightLow(Word(x), 8, Above(w, 1), v1);
    EightLow(Word(x), 16, Above(w, 2), v2);
    EightLow(Word(x), 24, Above(w, 3), v3);
    Unpack(Word(x), w);
  }

  lemma NoWord()
    ensures Same(Word([0x00, 0x00, 0x00, 0x00]), 0)
  {
    hide Word, Bits;
    ConstantByte(0x00, [false, false, false, false, false, false, false, false], 0x00);
    BytesAreWord([0x00, 0x00, 0x00, 0x00], 0x00, 0x00, 0x00, 0x00, 0);
  }

  lemma BlindByte()
    ensures Same(Word([0x5D, 0x00, 0x00, 0x00]), 0x5D)
  {
    hide Word, Bits;
    ConstantByte(0x00, [false, false, false, false, false, false, false, false], 0x00);
    ConstantByte(0x5D, [true, false, true, true, true, false, true, false], 0x5D);
    BytesAreWord([0x5D, 0x00, 0x00, 0x00], 0x5D, 0x00, 0x00, 0x00, 0x5D);
  }

  lemma BlindByteChecksum()
    ensures Same(Word([0x00, 0x96, 0x0D, 0xEE]), 0xEE0D_9600)
  {
    hide Word, Bits;
    ConstantByte(0x00, [false, false, false, false, false, false, false, false], 0x00);
    ConstantByte(0x0D, [true, false, true, true, false, false, false, false], 0x0D);
    ConstantByte(0x96, [false, true, true, false, true, false, false, true], 0x96);
    ConstantByte(0xEE, [false, true, true, true, false, true, true, true], 0xEE);
    BytesAreWord([0x00, 0x96, 0x0D, 0xEE], 0x00, 0x96, 0x0D, 0xEE, 0xEE0D_9600);
  }

  lemma BlindPair()
    ensures Same(Word([0x4D, 0x90, 0x00, 0x00]), 0x904D)
  {
    hide Word, Bits;
    ConstantByte(0x00, [false, false, false, false, false, false, false, false], 0x00);
    ConstantByte(0x4D, [true, false, true, true, false, false, true, false], 0x4D);
    ConstantByte(0x90, [false, false, false, false, true, false, false, true], 0x90);
    BytesAreWord([0x4D, 0x90, 0x00, 0x00], 0x4D, 0x90, 0x00, 0x00, 0x904D);
  }

  lemma BlindPairChecksum()
    ensures Same(Word([0x00, 0x00, 0x83, 0xAD]), 0xAD83_0000)
  {
    hide Word, Bits;
    ConstantByte(0x00, [false, false, false, false, false, false, false, false], 0x00);
    ConstantByte(0x83, [true, true, false, false, false, false, false, true], 0x83);
    ConstantByte(0xAD, [true, false, true, true, false, true, false, true], 0xAD);
    BytesAreWord([0x00, 0x00, 0x83, 0xAD], 0x00, 0x00, 0x83, 0xAD, 0xAD83_0000);
  }

  lemma ZeroByte(x: seq<byte>, k: nat, w: bv32)
    requires |x| == 4 && k < 4 && x[k] == 0 && Same(Word(x), w)
    ensures Above(w, k) & 0xFF == 0
  {
    hide Word, Bits, Same, Eight, Above;
    NoByte();
    WordHolds(x, k, 0);
    Unpack(Word(x), w);
    EightsMeet(Word(x), 8 * k, Above(w, k), 0);
  }

  lemma NoByte()
    ensures Eight(Bits(0), 0, 0)
  {
    hide Bits;
    ConstantByte(0, [false, false, false, false, false, false, false, false], 0);
  }

  lemma LowAndHigh(w: bv32)
    ensures Above(w, 0) & 0xFF == 0 ==> w & 0xFF == 0
    ensures Above(w, 0) & 0xFF == 0 && Above(w, 1) & 0xFF == 0 ==> w & 0xFFFF == 0
    ensures Above(w, 0) & 0xFF == 0 && Above(w, 1) & 0xFF == 0 && Above(w, 2) & 0xFF == 0 ==> w & 0xFF_FFFF == 0
    ensures Above(w, 3) & 0xFF == 0 ==> w >> 24 == 0
    ensures Above(w, 2) & 0xFF == 0 && Above(w, 3) & 0xFF == 0 ==> w >> 16 == 0
    ensures Above(w, 1) & 0xFF == 0 && Above(w, 2) & 0xFF == 0 && Above(w, 3) & 0xFF == 0 ==> w >> 8 == 0
  {
  }

  /** One content byte: the three checksum bytes that follow can hide one difference. */
  lemma OneByteHides(d: seq<byte>, r: seq<byte>)
    requires |d| == |r| == 4 && d[1] == d[2] == d[3] == 0 && r[0] == 0
    requires Advance(Word(d)) == Word(r)
    ensures d == [0, 0, 0, 0] || d == [0x5D, 0, 0, 0]
  {
    hide Word, Advance, AdvanceWord, Same, Above;
    var w := WordOf(Word(d));
    var v := AdvanceWord(w);
    AdvanceOnWords(Word(d), w);
    ZeroByte(d, 1, w);
    ZeroByte(d, 2, w);
    ZeroByte(d, 3, w);
    ZeroByte(r, 0, v);
    LowAndHigh(w);
    LowAndHigh(v);
    OneByteKernel(w);
    BlindByte();
    NoWord();
    SameBytes(d, if w == 0 then [0, 0, 0, 0] else [0x5D, 0, 0, 0], w);
  }

  lemma SameBytes(x: seq<byte>, y: seq<byte>, w: bv32)
    requires |x| == |y| == 4 && Same(Word(x), w) && Same(Word(y), w)
    ensures x == y
  {
    hide Word, Same;
    SameIsUnique(Word(x), Word(y), w);
    WordInjective(x, y);
  }

  lemma TwoBytesHide(d: seq<byte>, r: seq<byte>)
    requires |d| == |r| == 4 && d[2] == d[3] == 0 && r[0] == r[1] == 0
    requires Advance(Advance(Word(d))) == Word(r)
    ensures d == [0, 0, 0, 0] || d == [0x4D, 0x90, 0, 0]
  {
    hide Word, Advance, AdvanceWord, Same, Above;
    var w := WordOf(Word(d));
    var v := AdvanceWord(AdvanceWord(w));
    AdvanceOnWords(Word(d), w);
    AdvanceOnWords(Advance(Word(d)), AdvanceWord(w));
    ZeroByte(d, 2, w);
    ZeroByte(d, 3, w);
    ZeroByte(r, 0, v);
    ZeroByte(r, 1, v);
    LowAndHigh(w);
    LowAndHigh(v);
    TwoByteKernel(w);
    BlindPair();
    NoWord();
    SameBytes(d, if w == 0 then [0, 0, 0, 0] else [0x4D, 0x90, 0, 0], w);
  }

  lemma ThreeBytesHide(d: seq<byte>, r: seq<byte>)
    requires |d| == |r| == 4 && d[3] == 0 && r[0] == r[1] == r[2] == 0
    requires Advance(Advance(Advance(Word(d)))) == Word(r)
    ensures d == [0, 0, 0, 0]
  {
    hide Word, Advance, AdvanceWord, Same, Above;
    var w := WordOf(Word(d));
    var v := AdvanceWord(AdvanceWord(AdvanceWord(w)));
    AdvanceOnWords(Word(d), w);
    AdvanceOnWords(Advance(Word(d)), AdvanceWord(w));
    AdvanceOnWords(Advance(Advance(Word(d))), AdvanceWord(AdvanceWord(w)));
    ZeroByte(d, 3, w);
    ZeroByte(r, 0, v);
    ZeroByte(r, 1, v);
    ZeroByte(r, 2, v);
    LowAndHigh(w);
    LowAndHigh(v);
    ThreeByteKernel(w);
    NoWord();
    SameBytes(d, [0, 0, 0, 0], w);
  }

  lemma AdvanceOfNone()
    ensures AdvanceWord(0) == 0 && AdvanceWord(0x5D) == 0xEE0D_9600
    ensures AdvanceWord(AdvanceWord(0x904D)) == 0xAD83_0000
  {
  }

  lemma BlindByteIs(r: seq<byte>)
    requires |r| == 4
    ensures Advance(Word([0x5D, 0, 0, 0])) == Word(r) <==> r == [0x00, 0x96, 0x0D, 0xEE]
  {
    hide Word, Advance, AdvanceWord, Same;
    var d: seq<byte>, e: seq<byte> := [0x5D, 0, 0, 0], [0x00, 0x96, 0x0D, 0xEE];
    AdvanceOfNone();
    BlindByte();
    BlindByteChecksum();
    AdvanceOnWords(Word(d), 0x5D);
    SameIsUnique(Advance(Word(d)), Word(e), 0xEE0D_9600);
    if Advance(Word(d)) == Word(r) {
      WordInjective(r, e);
    }
  }

  lemma BlindPairIs(r: seq<byte>)
    requires |r| == 4
    ensures Advance(Advance(Word([0x4D, 0x90, 0, 0]))) == Word(r) <==> r == [0x00, 0x00, 0x83, 0xAD]
  {
    hide Word, Advance, AdvanceWord, Same;
    var d: seq<byte>, e: seq<byte> := [0x4D, 0x90, 0, 0], [0x00, 0x00, 0x83, 0xAD];
    AdvanceOfNone();
    BlindPair();
    BlindPairChecksum();
    AdvanceOnWords(Word(d), 0x904D);
    AdvanceOnWords(Advance(Word(d)), AdvanceWord(0x904D));
    SameIsUnique(Advance(Advance(Word(d))), Word(e), 0xAD83_0000);
    if Advance(Advance(Word(d))) == Word(r) {
      WordInjective(r, e);
    }
  }

  lemma NothingIs(r: seq<byte>)
    requires |r| == 4
    ensures Advance(Word([0, 0, 0, 0])) == Word([0, 0, 0, 0])
    ensures Word([0, 0, 0, 0]) == Word(r) <==> r == [0, 0, 0, 0]
  {
    hide Word, Advance, AdvanceWord, Same;
    var d: seq<byte> := [0, 0, 0, 0];
    AdvanceOfNone();
    NoWord();
    AdvanceOnWords(Word(d), 0);
    SameIsUnique(Advance(Word(d)), Word(d), 0);
    if Word(d) == Word(r) {
      WordInjective(r, d);
    }
  }
}
