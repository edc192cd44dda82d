/**
 Which changes of four consecutive bytes a checksummed file does not notice when they reach
 into its checksum: two, and no other.
 */
module CrcBursts {
  import opened Bytes
  import opened Options
  import opened Crc32c
  import opened CrcWords

  // ---- differences of byte strings ----

  /** `a ^ b` on bytes. */
  function XorByte(a: byte, b: byte): byte { LowByte(Xor(Bits(a), Bits(b))) }

  lemma XorByteBits(a: byte, b: byte)
    ensures Bits(XorByte(a, b)) == Xor(Bits(a), Bits(b))
  {
    var w := Xor(Bits(a), Bits(b));
    ByteLayout(a);
    ByteLayout(b);
    ByteLayout(XorByte(a, b));
    BitsOfNat(w[..8]);
    assert w == w[..8] + Copies(false, 24);
  }

  lemma NoBits()
    ensures Bits(0) == ZERO
  {
    BitsOfPadding(0, 0, 32);
  }

  lemma XorByteZero(a: byte, b: byte)
    ensures XorByte(a, b) == 0 <==> a == b
  {
    hide Bits, XorByte;
    NoBits();
    XorByteBits(a, b);
    ByteLayout(a);
    ByteLayout(b);
    if XorByte(a, b) == 0 {
      XorIsZero(Bits(a), Bits(b));
    }
    if a == b {
      assert Xor(Bits(a), Bits(b)) == ZERO;
      ByteLayout(XorByte(a, b));
      ByteLayout(0);
    }
  }

  lemma XorIsZero(a: Register, b: Register)
    ensures Xor(a, b) == ZERO <==> a == b
  {
    if Xor(a, b) == ZERO {
      forall i | 0 <= i < 32 ensures a[i] == b[i] {
        assert !Xor(a, b)[i];
      }
    }
  }

  /** The bytewise exclusive-or of two byte strings. */
  function Difference(x: seq<byte>, y: seq<byte>): (d: seq<byte>)
    requires |x| == |y|
    ensures |d| == |x|
    ensures forall i :: 0 <= i < |d| ==> d[i] == XorByte(x[i], y[i])
  {
    seq(|x|, i requires 0 <= i < |x| => XorByte(x[i], y[i]))
  }

  lemma {:induction false} WordDifference(x: seq<byte>, y: seq<byte>)
    requires |x| == |y| <= 4
    ensures Word(Difference(x, y)) == Xor(Word(x), Word(y))
    decreases |x|
  {
    if x == [] {
      XorZero(ZERO);
    } else {
      WordDifference(x[1..], y[1..]);
      XorByteBits(x[0], y[0]);
      assert Difference(x, y)[1..] == Difference(x[1..], y[1..]);
      hide Bits, XorByte, Word;
      XorUp(Bits(x[0]), Word(x[1..]), Bits(y[0]), Word(y[1..]));
    }
  }

  lemma XorUp(a: Register, p: Register, b: Register, q: Register)
    ensures Xor(Xor(a, Up(p, 8)), Xor(b, Up(q, 8))) == Xor(Xor(a, b), Up(Xor(p, q), 8))
  {
    forall i | 0 <= i < 32 ensures Up(Xor(p, q), 8)[i] == Xor(Up(p, 8), Up(q, 8))[i] {
      if i >= 8 {
        assert Up(Xor(p, q), 8)[i] == Xor(p, q)[i - 8];
      }
    }
  }

  lemma {:induction false} WordPadding(x: seq<byte>)
    requires |x| <= 3
    ensures Word(x + [0]) == Word(x)
    decreases |x|
  {
    hide Bits;
    if x == [] {
      NoBits();
      var zero: seq<byte> := [0];
      assert x + zero == zero && zero[1..] == [];
      assert Xor(ZERO, Up(ZERO, 8)) == ZERO;
    } else {
      assert (x + [0])[1..] == x[1..] + [0];
      WordPadding(x[1..]);
    }
  }

  // ---- the checksum bytes ----

  function Backwards(u: seq<byte>): (v: seq<byte>)
    ensures |v| == |u|
    ensures forall i :: 0 <= i < |v| ==> v[i] == u[|u| - 1 - i]
  {
    seq(|u|, i requires 0 <= i < |u| => u[|u| - 1 - i])
  }

  lemma EightOfNat(b: seq<bool>)
    requires |b| >= 8
    ensures NatOf(b) == NatOf(b[..8]) + 256 * NatOf(b[8..])
  {
    hide NatOf;
    FourBits(b);
    FourBits(b[4..]);
    FourBits(b[..8]);
    FourBits(b[..8][4..]);
    assert b[4..][4..] == b[8..] && b[..8][4..][4..] == [];
    assert NatOf([]) == 0 by { NoneIsZero(); }
  }

  lemma NoneIsZero()
    ensures NatOf([]) == 0
  {
  }

  lemma WordSplits(x: seq<byte>)
    requires 0 < |x| <= 4
    ensures Word(x)[..8 * |x|][..8] == Bits(x[0])[..8]
    ensures Word(x)[..8 * |x|][8..] == Word(x[1..])[..8 * (|x| - 1)]
  {
    hide Word, Bits;
    WordBytes(x);
  }

  /** The stored checksum is big-endian, the register little-endian. */
  lemma {:induction false} StoredBits(u: seq<byte>)
    requires |u| <= 4
    ensures NatOf(Word(Backwards(u))[..8 * |u|]) == Unsigned(u)
    decreases |u|
  {
    hide Word, Bits, NatOf;
    if u == [] {
      NoneIsZero();
    } else {
      var init, last, v := u[..|u| - 1], u[|u| - 1], Backwards(u);
      StoredBits(init);
      assert v[1..] == Backwards(init) && v[0] == last;
      WordSplits(v);
      EightOfNat(Word(v)[..8 * |u|]);
      ByteLayout(last);
    }
  }

  /** A stored checksum fits the content exactly when its bytes, backwards, are the register. */
  lemma StoredMatches(y: seq<byte>, u: seq<byte>)
    requires |u| == 4
    ensures Checksum(y) == Unsigned(u) <==> Crc(y) == Word(Backwards(u))
  {
    hide Crc, Word, Unsigned, BitsOf, NatOf;
    StoredBits(u);
    var w := Word(Backwards(u));
    assert w[..32] == w;
    BitsOfNat(Crc(y));
    BitsOfNat(w);
  }

  lemma {:induction false} AdvancesXor(a: Register, b: Register, n: nat)
    ensures Advances(Xor(a, b), n) == Xor(Advances(a, n), Advances(b, n))
    decreases n
  {
    hide Xor;
    if n > 0 {
      ShiftsXor(a, b, BYTE_BITS);
      AdvancesXor(Advance(a), Advance(b), n - 1);
    }
  }

  lemma XorOfXors(c: Register, a: Register, b: Register)
    ensures Xor(Xor(c, a), Xor(c, b)) == Xor(a, b) && Xor(Xor(a, c), Xor(b, c)) == Xor(a, b)
  {
  }

  /** What the last bytes of the content change in the checksum. */
  lemma CrcDifference(head: seq<byte>, a: seq<byte>, b: seq<byte>)
    requires |a| == |b| <= 4
    ensures Xor(Crc(head + a), Crc(head + b)) == Advances(Word(Difference(a, b)), |a|)
  {
    hide Xor, Word, Fold, Advances;
    var c := Fold(ONES, head);
    FoldConcat(ONES, head, a);
    FoldConcat(ONES, head, b);
    XorOfXors(ONES, Fold(c, a), Fold(c, b));
    FoldIsWordDivision(c, a);
    FoldIsWordDivision(c, b);
    AdvancesXor(Xor(c, Word(a)), Xor(c, Word(b)), |a|);
    XorOfXors(c, Word(a), Word(b));
    WordDifference(a, b);
  }

  lemma XorMoves(p: Register, q: Register, r: Register)
    ensures q == r <==> Xor(p, q) == Xor(p, r)
  {
    if Xor(p, q) == Xor(p, r) {
      XorCommutes(p, q);
      XorCommutes(p, r);
      XorCancels(p, q, r);
    }
  }

  lemma ChangedMatches(head: seq<byte>, a: seq<byte>, b: seq<byte>, t: seq<byte>, u: seq<byte>)
    requires |a| == |b| <= 4 && |t| == |u| == 4 && Checksum(head + a) == Unsigned(t)
    ensures Checksum(head + b) == Unsigned(u)
            <==> Advances(Word(Difference(a, b)), |a|) == Word(Backwards(Difference(t, u)))
  {
    hide Xor, Word, Checksum, Crc, Unsigned, Advances;
    StoredMatches(head + a, t);
    StoredMatches(head + b, u);
    CrcDifference(head, a, b);
    assert Backwards(Difference(t, u)) == Difference(Backwards(t), Backwards(u));
    WordDifference(Backwards(t), Backwards(u));
    XorMoves(Crc(head + a), Crc(head + b), Word(Backwards(u)));
  }

  /** Which differences of up to three content bytes the checksum bytes next to them can hide. */
  lemma Hides(d: seq<byte>, r: seq<byte>)
    requires |d| <= 3 && |r| == 4 && forall i :: 0 <= i < |d| ==> r[i] == 0
    ensures Advances(Word(d), |d|) == Word(r)
            <==> || (d == [0x5D] && r == [0x00, 0x96, 0x0D, 0xEE])
                 || (d == [0x4D, 0x90] && r == [0x00, 0x00, 0x83, 0xAD])
                 || ((forall i :: 0 <= i < |d| ==> d[i] == 0) && r == [0, 0, 0, 0])
  {
    hide Word, Advance;
    if |d| == 0 {
      NothingHides(d, r);
    } else if |d| == 1 {
      OneHides(d, r);
    } else if |d| == 2 {
      TwoHide(d, r);
    } else {
      ThreeHide(d, r);
    }
  }

  lemma NothingHides(d: seq<byte>, r: seq<byte>)
    requires d == [] && |r| == 4
    ensures Advances(Word(d), 0) == Word(r) <==> r == [0, 0, 0, 0]
  {
    hide Word;
    NothingIs(r);
    WordPadding([]);
    WordPadding([0]);
    WordPadding([0, 0]);
    WordPadding([0, 0, 0]);
    assert [] + [0] == [0] && [0] + [0] == [0, 0] && [0, 0] + [0] == [0, 0, 0] && [0, 0, 0] + [0] == [0, 0, 0, 0];
  }

  lemma OneHides(d: seq<byte>, r: seq<byte>)
    requires |d| == 1 && |r| == 4 && r[0] == 0
    ensures Advances(Word(d), 1) == Word(r)
            <==> (d == [0x5D] && r == [0x00, 0x96, 0x0D, 0xEE]) || (d == [0] && r == [0, 0, 0, 0])
  {
    hide Word, Advance;
    var e := d + [0] + [0] + [0];
    WordPadding(d);
    WordPadding(d + [0]);
    WordPadding(d + [0] + [0]);
    assert Advances(Word(d), 1) == Advances(Advance(Word(e)), 0) == Advance(Word(e));
    if Advance(Word(e)) == Word(r) {
      OneByteHides(e, r);
    }
    BlindByteIs(r);
    NothingIs(r);
    assert d == [e[0]];
    assert d == [0x5D] ==> e == [0x5D, 0, 0, 0];
    assert d == [0] ==> e == [0, 0, 0, 0];
  }

  lemma TwoHide(d: seq<byte>, r: seq<byte>)
    requires |d| == 2 && |r| == 4 && r[0] == r[1] == 0
    ensures Advances(Word(d), 2) == Word(r)
            <==> (d == [0x4D, 0x90] && r == [0x00, 0x00, 0x83, 0xAD]) || (d == [0, 0] && r == [0, 0, 0, 0])
  {
    hide Word, Advance;
    var e := d + [0] + [0];
    WordPadding(d);
    WordPadding(d + [0]);
    assert Advances(Word(d), 2) == Advances(Advance(Word(e)), 1) == Advances(Advance(Advance(Word(e))), 0);
    if Advance(Advance(Word(e))) == Word(r) {
      TwoBytesHide(e, r);
    }
    BlindPairIs(r);
    NothingIs(r);
    assert d == [e[0], e[1]];
    assert d == [0x4D, 0x90] ==> e == [0x4D, 0x90, 0, 0];
    assert d == [0, 0] ==> e == [0, 0, 0, 0];
  }

  lemma ThreeHide(d: seq<byte>, r: seq<byte>)
    requires |d| == 3 && |r| == 4 && r[0] == r[1] == r[2] == 0
    ensures Advances(Word(d), 3) == Word(r) <==> d == [0, 0, 0] && r == [0, 0, 0, 0]
  {
    hide Word, Advance;
    var e := d + [0];
    WordPadding(d);
    assert Advances(Word(d), 3) == Advances(Advance(Word(e)), 2) == Advances(Advance(Advance(Word(e))), 1);
    assert Advances(Advance(Advance(Word(e))), 1) == Advances(Advance(Advance(Advance(Word(e)))), 0);
    if Advance(Advance(Advance(Word(e)))) == Word(r) {
      ThreeBytesHide(e, r);
    }
    NothingIs(r);
    assert d == [e[0], e[1], e[2]];
    assert d == [0, 0, 0] ==> e == [0, 0, 0, 0];
  }

  // ---- whole files ----

  /** `y` is `x` with the bytes from `at` on changed by `mask`. */
  ghost predicate ChangedBy(x: seq<byte>, y: seq<byte>, at: int, mask: seq<byte>) {
    && |x| == |y| && 0 <= at <= |x| - |mask|
    && forall i :: 0 <= i < |x| ==> XorByte(x[i], y[i]) == if at <= i < at + |mask| then mask[i - at] else 0
  }

  /** The two changes across the end of the content that no checksum notices. */
  ghost predicate Unnoticed(x: seq<byte>, y: seq<byte>) {
    || ChangedBy(x, y, |x| - 5, [0x5D, 0xEE, 0x0D, 0x96])
    || ChangedBy(x, y, |x| - 6, [0x4D, 0x90, 0xAD, 0x83])
  }

  lemma UnnoticedReach(x: seq<byte>, y: seq<byte>)
    requires Unnoticed(x, y)
    ensures |x| == |y| >= 5
    ensures var n := |x| - 4;
            && x[n - 1] != y[n - 1] && x[n] != y[n] && x[n + 1] != y[n + 1]
            && (x[n + 2] != y[n + 2] || (n >= 2 && x[n - 2] != y[n - 2]))
  {
    var n := |x| - 4;
    XorByteZero(x[n - 1], y[n - 1]);
    XorByteZero(x[n], y[n]);
    XorByteZero(x[n + 1], y[n + 1]);
    XorByteZero(x[n + 2], y[n + 2]);
    if n >= 2 {
      XorByteZero(x[n - 2], y[n - 2]);
    }
    hide XorByte;
  }

  lemma MaskIsUnique(x: seq<byte>, y: seq<byte>, at: int, m: seq<byte>, mask: seq<byte>)
    requires |m| == |mask| && ChangedBy(x, y, at, m)
    ensures ChangedBy(x, y, at, mask) <==> m == mask
  {
    hide XorByte;
    if ChangedBy(x, y, at, mask) {
      forall i | 0 <= i < |m| ensures m[i] == mask[i] {
        assert XorByte(x[at + i], y[at + i]) == m[at + i - at];
      }
    }
  }

  /** The last `k` content bytes and the first `4 - k` checksum bytes. */
  function Across(x: seq<byte>, y: seq<byte>, k: nat): (m: seq<byte>)
    requires |x| == |y| && k <= 4 && |x| >= 4 + k
    ensures |m| == 4
  {
    var n := |x| - 4;
    Difference(x[n - k..n], y[n - k..n]) + Difference(x[n..], y[n..])[..4 - k]
  }

  lemma AcrossChanges(x: seq<byte>, y: seq<byte>, k: nat)
    requires k <= 4 && 4 + k <= |x| && DifferWithin(x, y, |x| - 4 - k, 4)
    ensures ChangedBy(x, y, |x| - 4 - k, Across(x, y, k))
  {
    hide XorByte;
    forall i | 0 <= i < |x| && x[i] == y[i] ensures XorByte(x[i], y[i]) == 0 {
      XorByteZero(x[i], y[i]);
    }
  }

  lemma FirstReach(x: seq<byte>, y: seq<byte>, k: nat)
    requires k <= 3 && 4 + k <= |x| && DifferWithin(x, y, |x| - 4 - k, 4)
    requires ChangedBy(x, y, |x| - 5, [0x5D, 0xEE, 0x0D, 0x96])
    ensures k == 1
  {
    XorByteZero(x[|x| - 2], y[|x| - 2]);
    XorByteZero(x[|x| - 5], y[|x| - 5]);
    hide XorByte;
  }

  lemma SecondReach(x: seq<byte>, y: seq<byte>, k: nat)
    requires k <= 3 && 4 + k <= |x| && DifferWithin(x, y, |x| - 4 - k, 4)
    requires ChangedBy(x, y, |x| - 6, [0x4D, 0x90, 0xAD, 0x83])
    ensures k == 2
  {
    XorByteZero(x[|x| - 3], y[|x| - 3]);
    XorByteZero(x[|x| - 6], y[|x| - 6]);
    hide XorByte;
  }

  lemma UnnoticedAcross(x: seq<byte>, y: seq<byte>, k: nat)
    requires k <= 3 && 4 + k <= |x| && DifferWithin(x, y, |x| - 4 - k, 4)
    ensures Unnoticed(x, y) <==> || (k == 1 && Across(x, y, k) == [0x5D, 0xEE, 0x0D, 0x96])
                                 || (k == 2 && Across(x, y, k) == [0x4D, 0x90, 0xAD, 0x83])
  {
    hide ChangedBy, Across;
    AcrossChanges(x, y, k);
    if k == 1 {
      MaskIsUnique(x, y, |x| - 5, Across(x, y, k), [0x5D, 0xEE, 0x0D, 0x96]);
    }
    if k == 2 {
      MaskIsUnique(x, y, |x| - 6, Across(x, y, k), [0x4D, 0x90, 0xAD, 0x83]);
    }
    if ChangedBy(x, y, |x| - 5, [0x5D, 0xEE, 0x0D, 0x96]) {
      FirstReach(x, y, k);
    }
    if ChangedBy(x, y, |x| - 6, [0x4D, 0x90, 0xAD, 0x83]) {
      SecondReach(x, y, k);
    }
  }

  lemma BackwardsIs(u: seq<byte>)
    requires |u| == 4
    ensures Backwards(u) == [u[3], u[2], u[1], u[0]]
  {
  }

  /** What changes in the last `k` content bytes, and in the checksum backwards. */
  function ContentPart(x: seq<byte>, y: seq<byte>, k: nat): (d: seq<byte>)
    requires |x| == |y| && 4 + k <= |x|
    ensures |d| == k
  {
    Difference(x[|x| - 4 - k..|x| - 4], y[|x| - 4 - k..|x| - 4])
  }

  function ChecksumPart(x: seq<byte>, y: seq<byte>): (r: seq<byte>)
    requires 4 <= |x| == |y|
    ensures |r| == 4
  {
    Backwards(Difference(x[|x| - 4..], y[|x| - 4..]))
  }

  lemma PartsAt(x: seq<byte>, y: seq<byte>, k: nat)
    requires 4 + k <= |x| == |y|
    ensures forall i :: |x| - 4 - k <= i < |x| - 4 ==> ContentPart(x, y, k)[i - (|x| - 4 - k)] == XorByte(x[i], y[i])
    ensures forall i :: 0 <= i < 4 ==> ChecksumPart(x, y)[i] == XorByte(x[|x| - 1 - i], y[|x| - 1 - i])
  {
    hide XorByte;
  }

  lemma NoDifference(x: seq<byte>, y: seq<byte>, k: nat)
    requires 4 + k <= |x| && DifferWithin(x, y, |x| - 4 - k, 4)
    requires forall i :: |x| - 4 - k <= i < |x| ==> XorByte(x[i], y[i]) == 0
    ensures x == y
  {
    forall i | 0 <= i < |x| ensures x[i] == y[i] {
      XorByteZero(x[i], y[i]);
    }
  }

  lemma PartsAreZero(x: seq<byte>, y: seq<byte>, k: nat)
    requires 4 + k <= |x| && DifferWithin(x, y, |x| - 4 - k, 4)
    requires (forall i :: 0 <= i < k ==> ContentPart(x, y, k)[i] == 0) && ChecksumPart(x, y) == [0, 0, 0, 0]
    ensures x == y
  {
    hide XorByte, ContentPart, ChecksumPart;
    PartsAt(x, y, k);
    var n := |x| - 4;
    forall i | n - k <= i < |x| ensures XorByte(x[i], y[i]) == 0 {
      if i < n {
        assert ContentPart(x, y, k)[i - (n - k)] == 0;
      } else {
        assert ChecksumPart(x, y)[|x| - 1 - i] == XorByte(x[i], y[i]);
      }
    }
    NoDifference(x, y, k);
  }

  lemma ChecksumPartIsHigh(x: seq<byte>, y: seq<byte>, k: nat)
    requires k <= 3 && 4 + k <= |x| && DifferWithin(x, y, |x| - 4 - k, 4)
    ensures forall i :: 0 <= i < k ==> ChecksumPart(x, y)[i] == 0
  {
    hide XorByte, ContentPart, ChecksumPart;
    PartsAt(x, y, k);
    forall i | 0 <= i < k ensures ChecksumPart(x, y)[i] == 0 {
      XorByteZero(x[|x| - 1 - i], y[|x| - 1 - i]);
    }
  }

  lemma AcrossOne(x: seq<byte>, y: seq<byte>, d: seq<byte>, r: seq<byte>)
    requires 5 <= |x| == |y| && d == ContentPart(x, y, 1) && r == ChecksumPart(x, y) && r[0] == 0
    ensures Across(x, y, 1) == [0x5D, 0xEE, 0x0D, 0x96] <==> d == [0x5D] && r == [0x00, 0x96, 0x0D, 0xEE]
  {
    hide XorByte;
    var u := Difference(x[|x| - 4..], y[|x| - 4..]);
    BackwardsIs(u);
    assert Across(x, y, 1) == [d[0], u[0], u[1], u[2]];
  }

  lemma AcrossTwo(x: seq<byte>, y: seq<byte>, d: seq<byte>, r: seq<byte>)
    requires 6 <= |x| == |y| && d == ContentPart(x, y, 2) && r == ChecksumPart(x, y) && r[0] == r[1] == 0
    ensures Across(x, y, 2) == [0x4D, 0x90, 0xAD, 0x83] <==> d == [0x4D, 0x90] && r == [0x00, 0x00, 0x83, 0xAD]
  {
    hide XorByte;
    var u := Difference(x[|x| - 4..], y[|x| - 4..]);
    BackwardsIs(u);
    assert Across(x, y, 2) == [d[0], d[1], u[0], u[1]];
  }

  lemma HidesUnnoticed(x: seq<byte>, y: seq<byte>, k: nat)
    requires k <= 3 && 4 + k <= |x| && DifferWithin(x, y, |x| - 4 - k, 4) && x != y
    ensures Advances(Word(ContentPart(x, y, k)), k) == Word(ChecksumPart(x, y)) <==> Unnoticed(x, y)
  {
    hide Advances, Word, Unnoticed, Across, ContentPart, ChecksumPart, XorByte;
    var d, r := ContentPart(x, y, k), ChecksumPart(x, y);
    ChecksumPartIsHigh(x, y, k);
    Hides(d, r);
    if (forall i :: 0 <= i < k ==> d[i] == 0) && r == [0, 0, 0, 0] {
      PartsAreZero(x, y, k);
    }
    if k == 1 {
      AcrossOne(x, y, d, r);
    } else if k == 2 {
      AcrossTwo(x, y, d, r);
    }
    UnnoticedAcross(x, y, k);
  }

  lemma ContentChanged(x: seq<byte>, y: seq<byte>, k: nat)
    requires k <= 3 && 4 + k <= |x| && DifferWithin(x, y, |x| - 4 - k, 4)
    requires Checksum(x[..|x| - 4]) == Unsigned(x[|x| - 4..])
    ensures Checksum(y[..|x| - 4]) == Unsigned(y[|x| - 4..])
            <==> Advances(Word(ContentPart(x, y, k)), k) == Word(ChecksumPart(x, y))
  {
    hide Checksum, Unsigned, Advances, Word, XorByte;
    var n := |x| - 4;
    var head, a, b := x[..n - k], x[n - k..n], y[n - k..n];
    assert x[..n] == head + a && y[..n] == head + b;
    ChangedMatches(head, a, b, x[n..], y[n..]);
  }

  lemma CrossingExactly(x: seq<byte>, y: seq<byte>, k: nat)
    requires k <= 3 && 4 + k <= |x| && DifferWithin(x, y, |x| - 4 - k, 4) && x != y
    requires Checksum(x[..|x| - 4]) == Unsigned(x[|x| - 4..])
    ensures Checksum(y[..|x| - 4]) == Unsigned(y[|x| - 4..]) <==> Unnoticed(x, y)
  {
    hide Checksum, Unsigned, Advances, Word, Unnoticed, ContentPart, ChecksumPart, DifferWithin;
    ContentChanged(x, y, k);
    HidesUnnoticed(x, y, k);
  }

  /** A change confined to any four consecutive bytes of an accepted file, checksum included,
      stays accepted only if it is one of the two. */
  lemma FileBurstExactly(data: seq<byte>, changed: seq<byte>, minimum: nat, at: nat)
    requires minimum >= 4 && Unchecked(data, minimum).Some?
    requires DifferWithin(data, changed, at, 4) && data != changed
    ensures Unchecked(changed, minimum).Some? <==> Unnoticed(data, changed)
  {
    hide Checksum, Unsigned, Unnoticed;
    var n := |data| - 4;
    if at + 4 <= n {
      CheckedFileDetectsBurst(data, changed, minimum, at, 4);
      if Unnoticed(data, changed) {
        UnnoticedReach(data, changed);
      }
    } else if at < n {
      CrossingExactly(data, changed, n - at);
    } else {
      assert DifferWithin(data, changed, n, 4);
      CrossingExactly(data, changed, 0);
    }
  }

  lemma XorByteTwice(a: byte, m: byte)
    ensures XorByte(a, XorByte(a, m)) == m
  {
    XorByteBits(a, m);
    XorByteBits(a, XorByte(a, m));
    ByteLayout(m);
    ByteLayout(XorByte(a, XorByte(a, m)));
    hide Bits, XorByte;
    assert Xor(Bits(a), Xor(Bits(a), Bits(m))) == Bits(m);
  }

  /** Both exist for every accepted file with a content long enough. */
  lemma UnnoticedExist(data: seq<byte>, minimum: nat, two: bool) returns (changed: seq<byte>)
    requires minimum >= 4 && Unchecked(data, minimum).Some? && |data| >= if two then 6 else 5
    ensures changed != data && Unchecked(changed, minimum).Some?
    ensures DifferWithin(data, changed, |data| - if two then 6 else 5, 4)
  {
    hide XorByte, Unchecked;
    var at: nat := |data| - if two then 6 else 5;
    var mask: seq<byte> := if two then [0x4D, 0x90, 0xAD, 0x83] else [0x5D, 0xEE, 0x0D, 0x96];
    changed := seq(|data|, i requires 0 <= i < |data| =>
                             if at <= i < at + 4 then XorByte(data[i], mask[i - at]) else data[i]);
    forall i | 0 <= i < |data|
      ensures XorByte(data[i], changed[i]) == if at <= i < at + 4 then mask[i - at] else 0
    {
      XorByteZero(data[i], data[i]);
      if at <= i < at + 4 {
        XorByteTwice(data[i], mask[i - at]);
      }
    }
    assert ChangedBy(data, changed, at, mask);
    XorByteZero(data[at], changed[at]);
    hide ChangedBy;
    FileBurstExactly(data, changed, minimum, at);
  }
}
