/**
 Bytes, big-endian integers and strict UTF-8: the vocabulary every binary format of the
 repository is written in.
 */
module Bytes {
  /** One element of a Python `bytes` value. */
  newtype byte = x: int | 0 <= x < 256

  function Pow256(width: nat): (p: nat)
    ensures p > 0
  {
    if width == 0 then 1 else 256 * Pow256(width - 1)
  }

  lemma IntegerBounds()
    ensures Pow256(1) == 256 && Pow256(2) == 65536 && Pow256(4) == 0x1_0000_0000 && Pow256(8) == 0x1_0000_0000_0000_0000
  {
  }

  /** The unsigned big-endian value of a byte string. */
  function Unsigned(s: seq<byte>): nat {
    if s == [] then 0 else Unsigned(s[..|s| - 1]) * 256 + s[|s| - 1] as int
  }

  /** The two's-complement big-endian value of a byte string. */
  function Signed(s: seq<byte>): int {
    if 2 * Unsigned(s) < Pow256(|s|) then Unsigned(s) else Unsigned(s) - Pow256(|s|)
  }

  /** The `width` low-order big-endian bytes of `n`. */
  function Digits(n: nat, width: nat): (s: seq<byte>)
    ensures |s| == width
  {
    if width == 0 then [] else Digits(n / 256, width - 1) + [(n % 256) as byte]
  }

  predicate InUnsigned(n: int, width: nat) { 0 <= n < Pow256(width) }

  predicate InSigned(n: int, width: nat) { 0 <= 2 * n + Pow256(width) < 2 * Pow256(width) }

  /** Two's-complement packing. */
  function SignedDigits(n: int, width: nat): (s: seq<byte>)
    requires InSigned(n, width)
    ensures |s| == width
  {
    Digits(if n < 0 then n + Pow256(width) else n, width)
  }

  lemma {:induction false} UnsignedOfDigits(n: nat, width: nat)
    requires n < Pow256(width)
    ensures Unsigned(Digits(n, width)) == n
  {
    if width > 0 {
      assert n / 256 < Pow256(width - 1);
      UnsignedOfDigits(n / 256, width - 1);
      assert Digits(n, width)[..width - 1] == Digits(n / 256, width - 1);
    }
  }

  lemma {:induction false} DigitsOfUnsigned(s: seq<byte>)
    ensures Unsigned(s) < Pow256(|s|)
    ensures Digits(Unsigned(s), |s|) == s
  {
    if s != [] {
      var init, last := s[..|s| - 1], s[|s| - 1];
      DigitsOfUnsigned(init);
      assert Unsigned(s) / 256 == Unsigned(init);
      assert init + [last] == s;
    }
  }

  lemma SignedOfDigits(n: int, width: nat)
    requires InSigned(n, width)
    ensures Signed(SignedDigits(n, width)) == n
  {
    UnsignedOfDigits(if n < 0 then n + Pow256(width) else n, width);
  }

  lemma DigitsOfSigned(s: seq<byte>)
    ensures InSigned(Signed(s), |s|)
    ensures SignedDigits(Signed(s), |s|) == s
  {
    DigitsOfUnsigned(s);
  }

  /** The byte ranges of a UTF-8 continuation byte. */
  predicate Continuation(b: byte) { 0x80 <= b <= 0xBF }

  /** Length of the well-formed UTF-8 sequence that starts `s`, or 0 when there is none
      (Unicode table 3-7: no overlong form, no surrogate, nothing above U+10FFFF). */
  function Utf8Unit(s: seq<byte>): (n: nat)
    ensures n <= |s|
  {
    if s == [] then 0
    else if s[0] <= 0x7F then 1
    else if |s| < 2 then 0
    else if 0xC2 <= s[0] <= 0xDF && Continuation(s[1]) then 2
    else if |s| < 3 || !Continuation(s[2]) then 0
    else if (s[0] == 0xE0 && 0xA0 <= s[1] <= 0xBF) || (s[0] == 0xED && 0x80 <= s[1] <= 0x9F) then 3
    else if 0xE1 <= s[0] <= 0xEF && s[0] != 0xED && Continuation(s[1]) then 3
    else if |s| < 4 || !Continuation(s[3]) then 0
    else if (s[0] == 0xF0 && 0x90 <= s[1] <= 0xBF) || (s[0] == 0xF4 && 0x80 <= s[1] <= 0x8F) then 4
    else if 0xF1 <= s[0] <= 0xF3 && Continuation(s[1]) then 4
    else 0
  }

  /** Strict UTF-8 validity. Decoding is injective on valid strings, so a decoded string is
      represented by its bytes. */
  predicate Utf8(s: seq<byte>)
    decreases |s|
  {
    s == [] || (Utf8Unit(s) > 0 && Utf8(s[Utf8Unit(s)..]))
  }

  /** The bytes of an ASCII literal. */
  function Ascii(t: string): (s: seq<byte>)
    requires forall i :: 0 <= i < |t| ==> t[i] < 128 as char
    ensures |s| == |t|
    ensures forall i :: 0 <= i < |t| ==> s[i] == t[i] as int as byte && s[i] <= 0x7F
  {
    seq(|t|, i requires 0 <= i < |t| => t[i] as int as byte)
  }

  lemma {:induction false} AsciiIsUtf8(s: seq<byte>)
    requires forall i :: 0 <= i < |s| ==> s[i] <= 0x7F
    ensures Utf8(s)
  {
    if s != [] {
      AsciiIsUtf8(s[1..]);
    }
  }
}
