/**
 CRC32C in the two forms the repository carries: bit by bit (the storage inspectors) and
 table driven over a streamed file (the upload tool). A 32-bit register is the sequence of
 its bits, least significant first.
 */
module Crc32c {
  import opened Bytes
  import opened Options

  type Register = w: seq<bool> | |w| == 32 witness BitsOf(0, 32)

  /** The `width` low-order bits of `n`. */
  function BitsOf(n: nat, width: nat): (w: seq<bool>)
    ensures |w| == width
  {
    if width == 0 then [] else [n % 2 == 1] + BitsOf(n / 2, width - 1)
  }

  function NatOf(w: seq<bool>): nat {
    if w == [] then 0 else (if w[0] then 1 else 0) + 2 * NatOf(w[1..])
  }

  function Copies(bit: bool, n: nat): (w: seq<bool>)
    ensures |w| == n
    ensures forall i :: 0 <= i < n ==> w[i] == bit
  {
    if n == 0 then [] else [bit] + Copies(bit, n - 1)
  }

  const ZERO: Register := Copies(false, 32)

  const ONES: Register := Copies(true, 32)

  /** The generator polynomial 0x82F63B78 (reflected), low byte first. */
  const POLYNOMIAL: Register := BitsOf(0x78, 8) + BitsOf(0x3B, 8) + BitsOf(0xF6, 8) + BitsOf(0x82, 8)

  function Xor(a: Register, b: Register): Register {
    seq(32, i requires 0 <= i < 32 => a[i] != b[i])
  }

  /** `c >> n`. */
  function Down(c: Register, n: nat): Register
    requires n <= 32
  {
    c[n..] + Copies(false, n)
  }

  /** `c << n`, cut to 32 bits. */
  function Up(c: Register, n: nat): Register
    requires n <= 32
  {
    Copies(false, n) + c[..32 - n]
  }

  /** The register after one bit. */
  function Shift(c: Register): Register { if c[0] then Xor(Down(c, 1), POLYNOMIAL) else Down(c, 1) }

  function Shifts(c: Register, n: nat): Register
    decreases n
  {
    if n == 0 then c else Shifts(Shift(c), n - 1)
  }

  const BYTE_BITS: nat := 8

  /** The register after one byte. */
  function Advance(c: Register): Register { Shifts(c, BYTE_BITS) }

  function Bits(b: byte): Register { BitsOf(b as nat, 32) }

  function Fold(c: Register, data: seq<byte>): Register
    decreases |data|
  {
    if data == [] then c else Fold(Advance(Xor(c, Bits(data[0]))), data[1..])
  }

  function Crc(data: seq<byte>): Register { Xor(Fold(ONES, data), ONES) }

  /** The checksum as the unsigned integer the formats store. */
  function Checksum(data: seq<byte>): (n: nat)
    ensures n < Pow256(4)
  {
    NatOfBound(Crc(data));
    NatOf(Crc(data))
  }

  // ---- the two implementations ----

  /** The inner loop: eight bit steps. */
  method DivideByte(start: Register) returns (checksum: Register)
    ensures checksum == Advance(start)
  {
    checksum := start;
    for k := 0 to BYTE_BITS
      invariant Shifts(checksum, BYTE_BITS - k) == Advance(start)
    {
      checksum := if checksum[0] then Xor(Down(checksum, 1), POLYNOMIAL) else Down(checksum, 1);
    }
  }

  /** The bit-by-bit form. */
  method BitwiseCrc(data: seq<byte>) returns (checksum: Register)
    ensures checksum == Crc(data)
  {
    checksum := ONES;
    for i := 0 to |data|
      invariant Fold(checksum, data[i..]) == Fold(ONES, data)
    {
      checksum := Xor(checksum, Bits(data[i]));
      checksum := DivideByte(checksum);
      assert data[i..][1..] == data[i + 1..];
    }
    checksum := Xor(checksum, ONES);
  }

  method TableEntry(b: byte) returns (crc: Register)
    ensures crc == Advance(Bits(b))
  {
    crc := Bits(b);
    for k := 0 to BYTE_BITS
      invariant Shifts(crc, BYTE_BITS - k) == Advance(Bits(b))
    {
      XorZero(Down(crc, 1));
      crc := Xor(Down(crc, 1), if crc[0] then POLYNOMIAL else ZERO);
    }
  }

  /** The lookup table: entry `i` is the register after eight bits from `i`. */
  method MakeTable() returns (table: seq<Register>)
    ensures |table| == 256
    ensures forall b: byte :: table[b as int] == Advance(Bits(b))
  {
    table := [];
    for entry := 0 to 256
      invariant |table| == entry
      invariant forall b: byte :: b as int < entry ==> table[b as int] == Advance(Bits(b))
    {
      var crc := TableEntry(entry as byte);
      table := table + [crc];
    }
  }

  function Concat(chunks: seq<seq<byte>>): seq<byte> {
    if chunks == [] then [] else chunks[0] + Concat(chunks[1..])
  }

  /** `c & 0xFF` as an index. */
  function LowByte(c: Register): (b: byte) {
    LowByteBound(c);
    NatOf(c[..8]) as byte
  }

  /** One chunk of the streamed form. */
  method FeedChunk(table: seq<Register>, start: Register, chunk: seq<byte>) returns (crc: Register)
    requires |table| == 256
    requires forall b: byte :: table[b as int] == Advance(Bits(b))
    ensures crc == Fold(start, chunk)
  {
    crc := start;
    for i := 0 to |chunk|
      invariant Fold(crc, chunk[i..]) == Fold(start, chunk)
    {
      assert chunk[i..][1..] == chunk[i + 1..];
      TableStep(crc, chunk[i]);
      crc := Xor(table[LowByte(Xor(crc, Bits(chunk[i]))) as int], Down(crc, 8));
    }
  }

  /** The streamed, table-driven form computes the bit-by-bit checksum of the whole file,
      however the file is cut into chunks. */
  method StreamedCrc(chunks: seq<seq<byte>>) returns (crc: Register)
    ensures crc == Crc(Concat(chunks))
  {
    var table := MakeTable();
    crc := ONES;
    for j := 0 to |chunks|
      invariant Fold(crc, Concat(chunks[j..])) == Fold(ONES, Concat(chunks))
    {
      assert chunks[j..][1..] == chunks[j + 1..];
      FoldConcat(crc, chunks[j], Concat(chunks[j + 1..]));
      crc := FeedChunk(table, crc, chunks[j]);
    }
    crc := Xor(crc, ONES);
  }

  // ---- numbers and bits ----

  function Pow2(width: nat): nat { if width == 0 then 1 else 2 * Pow2(width - 1) }

  lemma {:induction false} NatOfLess(w: seq<bool>)
    ensures NatOf(w) < Pow2(|w|)
  {
    if w != [] {
      NatOfLess(w[1..]);
    }
  }

  lemma FourBytesAreBits()
    ensures Pow2(32) == Pow256(4)
  {
    assert Pow2(8) == 0x100 && Pow2(16) == 0x1_0000 && Pow2(24) == 0x100_0000;
  }

  lemma NatOfBound(w: Register)
    ensures NatOf(w) < Pow256(4)
  {
    NatOfLess(w);
    FourBytesAreBits();
  }

  lemma LowByteBound(c: Register)
    ensures NatOf(c[..8]) < 256
  {
    NatOfLess(c[..8]);
    assert Pow2(8) == 256;
  }

  lemma {:induction false} BitsOfNat(w: seq<bool>)
    ensures BitsOf(NatOf(w), |w|) == w
  {
    if w != [] {
      BitsOfNat(w[1..]);
    }
  }

  lemma {:induction false} NatOfBits(n: nat, width: nat)
    requires n < Pow2(width)
    ensures NatOf(BitsOf(n, width)) == n
  {
    if width > 0 {
      NatOfBits(n / 2, width - 1);
    }
  }

  lemma {:induction false} BitsOfPadding(n: nat, width: nat, more: nat)
    requires n < Pow2(width)
    ensures BitsOf(n, width + more) == BitsOf(n, width) + Copies(false, more)
    decreases width, more
  {
    if width > 0 {
      BitsOfPadding(n / 2, width - 1, more);
    } else if more > 0 {
      BitsOfPadding(0, 0, more - 1);
    }
  }

  /** A byte fills the low eight bits and nothing else. */
  lemma ByteLayout(b: byte)
    ensures Bits(b) == BitsOf(b as nat, 8) + Copies(false, 24)
    ensures NatOf(Bits(b)[..8]) == b as nat
  {
    assert Pow2(8) == 256;
    BitsOfPadding(b as nat, 8, 24);
    assert Bits(b)[..8] == BitsOf(b as nat, 8);
    NatOfBits(b as nat, 8);
  }

  lemma LastBit(n: nat, width: nat)
    requires width > 0 && n < Pow2(width)
    ensures BitsOf(n, width)[width - 1] <==> n >= Pow2(width - 1)
  {
    if width > 1 {
      LastBit(n / 2, width - 1);
    }
  }

  lemma PolynomialTop()
    ensures POLYNOMIAL[31]
  {
    assert Pow2(7) == 128 && Pow2(8) == 256;
    LastBit(0x82, 8);
  }

  // ---- the step is linear, injective, and transparent to high bits ----

  lemma XorZero(a: Register)
    ensures Xor(a, ZERO) == a
  {
  }

  lemma XorAssociates(a: Register, b: Register, c: Register)
    ensures Xor(Xor(a, b), c) == Xor(a, Xor(b, c))
  {
  }

  lemma XorCancels(c: Register, a: Register, b: Register)
    requires Xor(a, c) == Xor(b, c)
    ensures a == b
  {
    forall i | 0 <= i < 32 ensures a[i] == b[i] {
      assert Xor(a, c)[i] == Xor(b, c)[i];
    }
  }

  lemma XorCommutes(a: Register, b: Register)
    ensures Xor(a, b) == Xor(b, a)
  {
  }

  lemma ShiftXor(a: Register, b: Register)
    ensures Shift(Xor(a, b)) == Xor(Shift(a), Shift(b))
  {
    forall i | 0 <= i < 32 ensures Shift(Xor(a, b))[i] == Xor(Shift(a), Shift(b))[i] {
    }
  }

  /** The top bit of the result tells which bit fell off. */
  lemma ShiftBits(c: Register)
    ensures Shift(c)[31] == c[0]
    ensures forall i :: 0 <= i < 31 ==> Shift(c)[i] == (c[i + 1] != (c[0] && POLYNOMIAL[i]))
  {
    PolynomialTop();
    var down := Down(c, 1);
    assert forall i :: 0 <= i < 31 ==> down[i] == c[i + 1];
  }

  lemma ShiftInjective(a: Register, b: Register)
    requires Shift(a) == Shift(b)
    ensures a == b
  {
    hide Shift;
    ShiftBits(a);
    ShiftBits(b);
    forall i | 0 < i < 32 ensures a[i] == b[i] {
      assert Shift(a)[i - 1] == (a[i - 1 + 1] != (a[0] && POLYNOMIAL[i - 1]));
      assert Shift(b)[i - 1] == (b[i - 1 + 1] != (b[0] && POLYNOMIAL[i - 1]));
    }
  }

  lemma {:induction false} ShiftsXor(a: Register, b: Register, n: nat)
    ensures Shifts(Xor(a, b), n) == Xor(Shifts(a, n), Shifts(b, n))
    decreases n
  {
    if n > 0 {
      ShiftXor(a, b);
      ShiftsXor(Shift(a), Shift(b), n - 1);
    }
  }

  lemma {:induction false} ShiftsInjective(a: Register, b: Register, n: nat)
    requires Shifts(a, n) == Shifts(b, n)
    ensures a == b
    decreases n
  {
    if n > 0 {
      ShiftsInjective(Shift(a), Shift(b), n - 1);
      ShiftInjective(a, b);
    }
  }

  lemma ShiftOfUp(y: Register, n: nat)
    requires 0 < n <= 32 && !y[32 - n]
    ensures Shift(Up(y, n)) == Up(y, n - 1)
  {
    var up := Up(y, n);
    forall i | 0 <= i < 32 ensures Down(up, 1)[i] == Up(y, n - 1)[i] {
      if i < 31 {
        assert Down(up, 1)[i] == up[i + 1];
      }
    }
  }

  /** Bits that have room are only moved, never fed back. */
  lemma {:induction false} ShiftsOfUp(y: Register, n: nat)
    requires n <= 32
    requires forall i :: 32 - n <= i < 32 ==> !y[i]
    ensures Shifts(Up(y, n), n) == y
    decreases n
  {
    if n > 0 {
      ShiftOfUp(y, n);
      ShiftsOfUp(y, n - 1);
    }
  }

  /** At most the low 24 bits are set. */
  predicate Small(y: Register) { forall i :: 24 <= i < 32 ==> !y[i] }

  lemma AdvanceXorUp(c: Register, y: Register)
    requires Small(y)
    ensures Advance(Xor(c, Up(y, 8))) == Xor(Advance(c), y)
  {
    ShiftsXor(c, Up(y, 8), BYTE_BITS);
    ShiftsOfUp(y, BYTE_BITS);
  }

  /** One table lookup is eight bit steps. */
  lemma TableStep(crc: Register, b: byte)
    ensures Xor(Advance(Bits(LowByte(Xor(crc, Bits(b))))), Down(crc, 8)) == Advance(Xor(crc, Bits(b)))
  {
    var x := Xor(crc, Bits(b));
    var low := Bits(LowByte(x));
    ByteLayout(b);
    ByteLayout(LowByte(x));
    BitsOfNat(x[..8]);
    assert x == Xor(low, Up(Down(crc, 8), 8));
    AdvanceXorUp(low, Down(crc, 8));
  }

  // ---- error detection ----

  /** Up to four bytes as one little-endian word. */
  function Word(x: seq<byte>): Register {
    if x == [] then ZERO else Xor(Bits(x[0]), Up(Word(x[1..]), 8))
  }

  function Advances(c: Register, n: nat): Register
    decreases n
  {
    if n == 0 then c else Advances(Advance(c), n - 1)
  }

  lemma {:induction false} WordBound(x: seq<byte>)
    requires |x| <= 3
    ensures forall i :: 8 * |x| <= i < 32 ==> !Word(x)[i]
  {
    if x != [] {
      WordBound(x[1..]);
      ByteLayout(x[0]);
      var tail := Word(x[1..]);
      forall i | 8 * |x| <= i < 32 ensures !Word(x)[i] {
        assert Up(tail, 8)[i] == tail[i - 8];
      }
    }
  }

  /** Up to four bytes taken one after another act as one word. */
  lemma {:induction false} FoldIsWordDivision(c: Register, x: seq<byte>)
    requires |x| <= 4
    ensures Fold(c, x) == Advances(Xor(c, Word(x)), |x|)
    decreases |x|
  {
    if x == [] {
      XorZero(c);
    } else {
      var rest := Word(x[1..]);
      WordBound(x[1..]);
      FoldIsWordDivision(Advance(Xor(c, Bits(x[0]))), x[1..]);
      AdvanceXorUp(Xor(c, Bits(x[0])), rest);
      XorAssociates(c, Bits(x[0]), Up(rest, 8));
    }
  }

  lemma WordHead(x: seq<byte>)
    requires x != []
    ensures NatOf(Word(x)[..8]) == x[0] as nat
    ensures Down(Word(x), 8) == Down(Up(Word(x[1..]), 8), 8)
  {
    hide BitsOf, NatOf;
    ByteLayout(x[0]);
    var tail := Up(Word(x[1..]), 8);
    assert Word(x)[..8] == Bits(x[0])[..8];
    assert Word(x)[8..] == tail[8..];
  }

  lemma {:induction false} WordInjective(x: seq<byte>, y: seq<byte>)
    requires |x| == |y| <= 4
    requires Word(x) == Word(y)
    ensures x == y
    decreases |x|
  {
    if x != [] {
      WordHead(x);
      WordHead(y);
      UpInjective(x[1..], y[1..]);
      WordInjective(x[1..], y[1..]);
      assert x == [x[0]] + x[1..] && y == [y[0]] + y[1..];
    }
  }

  lemma UpInjective(x: seq<byte>, y: seq<byte>)
    requires |x| == |y| <= 3
    requires Down(Up(Word(x), 8), 8) == Down(Up(Word(y), 8), 8)
    ensures Word(x) == Word(y)
  {
    WordBound(x);
    WordBound(y);
    forall i | 0 <= i < 24 ensures Word(x)[i] == Word(y)[i] {
      assert Down(Up(Word(x), 8), 8)[i] == Word(x)[i];
      assert Down(Up(Word(y), 8), 8)[i] == Word(y)[i];
    }
  }

  lemma {:induction false} AdvancesInjective(a: Register, b: Register, n: nat)
    requires Advances(a, n) == Advances(b, n)
    ensures a == b
    decreases n
  {
    hide Shifts, Shift;
    if n > 0 {
      AdvancesInjective(Advance(a), Advance(b), n - 1);
      ShiftsInjective(a, b, BYTE_BITS);
    }
  }

  lemma {:induction false} FoldInjective(a: Register, b: Register, data: seq<byte>)
    requires Fold(a, data) == Fold(b, data)
    ensures a == b
    decreases |data|
  {
    if data != [] {
      var bits := Bits(data[0]);
      FoldInjective(Advance(Xor(a, bits)), Advance(Xor(b, bits)), data[1..]);
      ShiftsInjective(Xor(a, bits), Xor(b, bits), BYTE_BITS);
      XorCancels(bits, a, b);
    }
  }

  lemma {:induction false} FoldConcat(c: Register, x: seq<byte>, y: seq<byte>)
    ensures Fold(c, x + y) == Fold(Fold(c, x), y)
    decreases |x|
  {
    if x == [] {
      assert x + y == y;
    } else {
      assert (x + y)[1..] == x[1..] + y;
      FoldConcat(Advance(Xor(c, Bits(x[0]))), x[1..], y);
    }
  }

  /** The two byte strings have one length and agree outside `[at, at + width)`. */
  ghost predicate DifferWithin(x: seq<byte>, y: seq<byte>, at: nat, width: nat) {
    |x| == |y| && forall i :: 0 <= i < |x| && !(at <= i < at + width) ==> x[i] == y[i]
  }

  lemma ChecksumFixesFold(x: seq<byte>, y: seq<byte>)
    requires Checksum(x) == Checksum(y)
    ensures Fold(ONES, x) == Fold(ONES, y)
  {
    BitsOfNat(Crc(x));
    BitsOfNat(Crc(y));
    XorCancels(ONES, Fold(ONES, x), Fold(ONES, y));
  }

  lemma WindowInjective(c: Register, x: seq<byte>, y: seq<byte>)
    requires |x| == |y| <= 4
    requires Fold(c, x) == Fold(c, y)
    ensures x == y
  {
    FoldIsWordDivision(c, x);
    FoldIsWordDivision(c, y);
    AdvancesInjective(Xor(c, Word(x)), Xor(c, Word(y)), |x|);
    XorCommutes(c, Word(x));
    XorCommutes(c, Word(y));
    XorCancels(c, Word(x), Word(y));
    WordInjective(x, y);
  }

  lemma FoldFindsBurst(c: Register, head: seq<byte>, x: seq<byte>, y: seq<byte>, tail: seq<byte>)
    requires |x| == |y| <= 4
    requires Fold(c, head + (x + tail)) == Fold(c, head + (y + tail))
    ensures x == y
  {
    FoldConcat(c, head, x + tail);
    FoldConcat(c, head, y + tail);
    var start := Fold(c, head);
    FoldConcat(start, x, tail);
    FoldConcat(start, y, tail);
    FoldInjective(Fold(start, x), Fold(start, y), tail);
    WindowInjective(start, x, y);
  }

  lemma Window(x: seq<byte>, y: seq<byte>, at: nat) returns (i: nat, j: nat)
    requires DifferWithin(x, y, at, 4)
    ensures i <= j <= |x| && j - i <= 4
    ensures x == x[..i] + (x[i..j] + x[j..]) && y == x[..i] + (y[i..j] + x[j..])
  {
    i := if at < |x| then at else |x|;
    j := if at + 4 < |x| then at + 4 else |x|;
    assert x[..i] == y[..i] && x[j..] == y[j..];
  }

  /** A change confined to four consecutive bytes always changes the checksum. */
  lemma BurstIsDetected(x: seq<byte>, y: seq<byte>, at: nat)
    requires DifferWithin(x, y, at, 4)
    requires x != y
    ensures Checksum(x) != Checksum(y)
  {
    if Checksum(x) == Checksum(y) {
      ChecksumFixesFold(x, y);
      var i, j := Window(x, y, at);
      FoldFindsBurst(ONES, x[..i], x[i..j], y[i..j], x[j..]);
    }
  }

  // ---- checksum-terminated files ----

  /** The content followed by its four-byte checksum. */
  function Checked(content: seq<byte>): seq<byte> { content + Digits(Checksum(content), 4) }

  /** The content of a file whose last four bytes must be its checksum. */
  function Unchecked(data: seq<byte>, minimum: nat): Option<seq<byte>>
    requires minimum >= 4
  {
    if |data| < minimum || Checksum(data[..|data| - 4]) != Unsigned(data[|data| - 4..]) then None
    else Some(data[..|data| - 4])
  }

  lemma CheckedCodec(data: seq<byte>, minimum: nat, content: seq<byte>)
    requires minimum >= 4
    ensures Unchecked(data, minimum) == Some(content) <==> |data| >= minimum && data == Checked(content)
  {
    if Unchecked(data, minimum) == Some(content) {
      DigitsOfUnsigned(data[|data| - 4..]);
    } else if data == Checked(content) {
      UnsignedOfDigits(Checksum(content), 4);
      assert data[..|data| - 4] == content && data[|data| - 4..] == Digits(Checksum(content), 4);
    }
  }

  /** Changing up to four consecutive content bytes of an accepted file makes it rejected. */
  lemma CheckedFileDetectsBurst(data: seq<byte>, changed: seq<byte>, minimum: nat, at: nat, width: nat)
    requires minimum >= 4 && Unchecked(data, minimum).Some?
    requires width <= 4 && at + width <= |data| - 4
    requires DifferWithin(data, changed, at, width) && data != changed
    ensures Unchecked(changed, minimum).None?
  {
    hide Fold, Crc;
    var n := |data| - 4;
    var x, y := data[..n], changed[..n];
    assert data[n..] == changed[n..];
    assert x != y by {
      assert data == x + data[n..] && changed == y + changed[n..];
    }
    BurstIsDetected(x, y, at);
  }
}
