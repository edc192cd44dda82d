/**
 Integers, strings and records as bytes, written out by position: what the decoders have to
 agree with.
 */
module ByteForms {
  import opened Bytes
  import opened Crc32c
  import opened Layouts

  // ---- integers ----

  /** Big-endian: what stands in front counts 256 times as much for each byte behind it. */
  lemma {:induction false} UnsignedByPlace(s: seq<byte>, t: seq<byte>)
    ensures Unsigned(s + t) == Unsigned(s) * Pow256(|t|) + Unsigned(t)
    ensures forall b: byte :: Unsigned([b]) == b as int
  {
    if t == [] {
      assert s + t == s;
    } else {
      var init, last := t[..|t| - 1], t[|t| - 1];
      UnsignedByPlace(s, init);
      assert (s + t)[..|s + t| - 1] == s + init && (s + t)[|s + t| - 1] == last;
      TimesBase(Unsigned(s), Pow256(|init|));
    }
    forall b: byte ensures Unsigned([b]) == b as int {
      assert [b][..0] == [] && Unsigned([]) == 0;
    }
  }

  lemma TimesBase(u: nat, p: nat)
    ensures u * p * 256 == u * (256 * p)
  {
  }

  lemma UnsignedByte(b: byte)
    ensures Unsigned([b]) == b as int
  {
    assert [b][..0] == [] && Unsigned([]) == 0;
  }

  /** Two's complement: the sign is the top bit of the first byte. */
  lemma SignedBySign(s: seq<byte>)
    requires s != []
    ensures Signed(s) == Unsigned(s) - (if s[0] as int >= 0x80 then Pow256(|s|) else 0)
  {
    var rest := s[1..];
    UnsignedByPlace([s[0]], rest);
    assert s == [s[0]] + rest;
    DigitsOfUnsigned(rest);
    var p := Pow256(|rest|);
    assert Pow256(|s|) == 256 * p;
    UnsignedByte(s[0]);
    if s[0] as int >= 0x80 {
      LeadingByte(s[0] as int, 0x80, p);
    } else {
      LeadingByte(0x7F, s[0] as int, p);
    }
  }

  lemma LeadingByte(a: int, b: int, p: nat)
    requires a >= b
    ensures a * p >= b * p
  {
    assert (a - b) * p >= 0;
  }

  lemma SmallSigned(n: nat, width: nat)
    requires InSigned(n, width)
    ensures SignedDigits(n, width) == Digits(n, width)
  {
  }

  lemma OneByteSigned(b: byte)
    requires b < 0x80
    ensures InSigned(b as int, 1) && SignedDigits(b as int, 1) == [b] && Signed([b]) == b as int
  {
    assert Pow256(1) == 256;
    UnsignedByte(b);
    assert Digits(b as int / 256, 0) == [];
    assert Digits(b as int, 1) == [(b as int % 256) as byte];
  }

  lemma MinusOne()
    ensures InSigned(-1, 4) && SignedDigits(-1, 4) == [0xFF, 0xFF, 0xFF, 0xFF]
  {
    assert Pow256(4) == 0x1_0000_0000;
    var s: seq<byte> := [0xFF, 0xFF, 0xFF, 0xFF];
    UnsignedOfFour(s);
    DigitsOfUnsigned(s);
  }

  lemma UnsignedOfFour(s: seq<byte>)
    requires |s| == 4
    ensures Unsigned(s) == 0x100_0000 * s[0] as int + 0x1_0000 * s[1] as int + 0x100 * s[2] as int + s[3] as int
  {
    assert Pow256(1) == 256;
    UnsignedByPlace([s[0]], [s[1]]);
    UnsignedByPlace([s[0]] + [s[1]], [s[2]]);
    UnsignedByPlace([s[0]] + [s[1]] + [s[2]], [s[3]]);
    assert s == [s[0]] + [s[1]] + [s[2]] + [s[3]];
  }

  lemma FourByteBound()
    ensures Pow256(4) == 0x1_0000_0000
  {
    IntegerBounds();
  }

  // ---- strings and records ----

  /** A length in four bytes, then that many bytes. */
  function Sized(s: seq<byte>): seq<byte> { Digits(|s|, 4) + s }

  /** A record is its fields one after the other. */
  lemma {:induction false} EncodeIsConcat(l: Layout, vs: seq<Value>, parts: seq<seq<byte>>)
    requires AllFit(l, vs) && |parts| == |l|
    requires forall i :: 0 <= i < |l| ==> EncodeField(l[i], vs[i]) == parts[i]
    ensures Encode(l, vs) == Concat(parts)
    decreases |l|
  {
    hide EncodeField, Fits;
    if l != [] {
      EncodeIsConcat(l[1..], vs[1..], parts[1..]);
    }
  }
}
