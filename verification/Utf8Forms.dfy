/**
 Strict UTF-8 as section 3 of RFC 3629 defines it: the encodings of lists of code points that are no
 surrogates. The decoder's byte ranges accept exactly these.
 */
module Utf8Forms {
  import opened Bytes

  /** A code point up to U+10FFFF that is no surrogate. */
  predicate Scalar(c: int) { 0 <= c < 0xD800 || 0xE000 <= c < 0x11_0000 }

  /** One to four bytes, six bits in each but the first. */
  function Encoded(c: int): (s: seq<byte>)
    requires Scalar(c)
    ensures 1 <= |s| <= 4
  {
    if c < 0x80 then [c as byte]
    else if c < 0x800 then [(0xC0 + c / 64) as byte, (0x80 + c % 64) as byte]
    else if c < 0x1_0000 then [(0xE0 + c / 4096) as byte, (0x80 + c / 64 % 64) as byte, (0x80 + c % 64) as byte]
    else [(0xF0 + c / 262144) as byte, (0x80 + c / 4096 % 64) as byte, (0x80 + c / 64 % 64) as byte,
          (0x80 + c % 64) as byte]
  }

  predicate Scalars(cs: seq<int>) { forall i :: 0 <= i < |cs| ==> Scalar(cs[i]) }

  function AllEncoded(cs: seq<int>): seq<byte>
    requires Scalars(cs)
  {
    if cs == [] then [] else Encoded(cs[0]) + AllEncoded(cs[1..])
  }

  // ---- one code point ----

  lemma OneAccepted(c: int, rest: seq<byte>)
    requires Scalar(c) && c < 0x80
    ensures Utf8Unit(Encoded(c) + rest) == 1
  {
    assert (Encoded(c) + rest)[0] == Encoded(c)[0];
  }

  lemma TwoAccepted(c: int, rest: seq<byte>)
    requires Scalar(c) && 0x80 <= c < 0x800
    ensures Utf8Unit(Encoded(c) + rest) == 2
  {
    var s := Encoded(c) + rest;
    assert s[0] == Encoded(c)[0] && s[1] == Encoded(c)[1];
    assert 2 <= c / 64 < 32;
  }

  lemma ThreeAccepted(c: int, rest: seq<byte>)
    requires Scalar(c) && 0x800 <= c < 0x1_0000
    ensures Utf8Unit(Encoded(c) + rest) == 3
  {
    var s := Encoded(c) + rest;
    assert s[0] == Encoded(c)[0] && s[1] == Encoded(c)[1] && s[2] == Encoded(c)[2];
    var a, b := c / 4096, c / 64 % 64;
    assert c / 64 == 64 * a + b && 0 <= a < 16 && 0 <= b < 64 && 32 <= 64 * a + b;
    assert a == 13 ==> b < 32;
  }

  lemma FourAccepted(c: int, rest: seq<byte>)
    requires Scalar(c) && 0x1_0000 <= c
    ensures Utf8Unit(Encoded(c) + rest) == 4
  {
    var s := Encoded(c) + rest;
    assert s[0] == Encoded(c)[0] && s[1] == Encoded(c)[1] && s[2] == Encoded(c)[2] && s[3] == Encoded(c)[3];
    var a, b := c / 262144, c / 4096 % 64;
    assert c / 4096 == 64 * a + b && 0 <= a <= 4 && 0 <= b < 64 && 16 <= 64 * a + b < 272;
  }

  lemma Accepted(c: int, rest: seq<byte>)
    requires Scalar(c)
    ensures Utf8Unit(Encoded(c) + rest) == |Encoded(c)|
  {
    if c < 0x80 {
      OneAccepted(c, rest);
    } else if c < 0x800 {
      TwoAccepted(c, rest);
    } else if c < 0x1_0000 {
      ThreeAccepted(c, rest);
    } else {
      FourAccepted(c, rest);
    }
  }

  lemma TwoRead(a: int, b: int)
    requires 2 <= a < 32 && 0 <= b < 64
    ensures var c := 64 * a + b; Scalar(c) && Encoded(c) == [(0xC0 + a) as byte, (0x80 + b) as byte]
  {
    var c := 64 * a + b;
    assert c / 64 == a && c % 64 == b;
  }

  lemma ThreeRead(a: int, b: int, d: int)
    requires 0 <= a < 16 && 0 <= b < 64 && 0 <= d < 64 && 32 <= 64 * a + b && (a == 13 ==> b < 32)
    ensures var c := 4096 * a + 64 * b + d;
            Scalar(c) && Encoded(c) == [(0xE0 + a) as byte, (0x80 + b) as byte, (0x80 + d) as byte]
  {
    var c := 4096 * a + 64 * b + d;
    assert c / 64 == 64 * a + b && c % 64 == d && c / 4096 == a;
    assert (64 * a + b) % 64 == b;
  }

  lemma FourRead(a: int, b: int, d: int, e: int)
    requires 0 <= a <= 4 && 0 <= b < 64 && 0 <= d < 64 && 0 <= e < 64 && 16 <= 64 * a + b < 272
    ensures var c := 262144 * a + 4096 * b + 64 * d + e;
            Scalar(c)
            && Encoded(c) == [(0xF0 + a) as byte, (0x80 + b) as byte, (0x80 + d) as byte, (0x80 + e) as byte]
  {
    var c := 262144 * a + 4096 * b + 64 * d + e;
    assert c / 64 == 4096 * a + 64 * b + d && c % 64 == e && c / 4096 == 64 * a + b && c / 262144 == a;
    assert (4096 * a + 64 * b + d) % 64 == d && (64 * a + b) % 64 == b;
  }

  lemma Read(s: seq<byte>) returns (c: int)
    requires Utf8Unit(s) > 0
    ensures Scalar(c) && s[..Utf8Unit(s)] == Encoded(c)
  {
    var n := Utf8Unit(s);
    if n == 1 {
      c := s[0] as int;
    } else if n == 2 {
      c := 64 * (s[0] as int - 0xC0) + (s[1] as int - 0x80);
      TwoRead(s[0] as int - 0xC0, s[1] as int - 0x80);
    } else if n == 3 {
      c := 4096 * (s[0] as int - 0xE0) + 64 * (s[1] as int - 0x80) + (s[2] as int - 0x80);
      ThreeRead(s[0] as int - 0xE0, s[1] as int - 0x80, s[2] as int - 0x80);
    } else {
      c := 262144 * (s[0] as int - 0xF0) + 4096 * (s[1] as int - 0x80) + 64 * (s[2] as int - 0x80)
           + (s[3] as int - 0x80);
      FourRead(s[0] as int - 0xF0, s[1] as int - 0x80, s[2] as int - 0x80, s[3] as int - 0x80);
    }
  }

  // ---- strings ----

  lemma {:induction false} EncodedIsAccepted(cs: seq<int>)
    requires Scalars(cs)
    ensures Utf8(AllEncoded(cs))
  {
    if cs != [] {
      hide Encoded, Utf8Unit, Scalar;
      EncodedIsAccepted(cs[1..]);
      Accepted(cs[0], AllEncoded(cs[1..]));
      var s := AllEncoded(cs);
      assert s[|Encoded(cs[0])|..] == AllEncoded(cs[1..]);
    }
  }

  lemma {:induction false} AcceptedIsEncoded(s: seq<byte>) returns (cs: seq<int>)
    requires Utf8(s)
    ensures Scalars(cs) && s == AllEncoded(cs)
    decreases |s|
  {
    hide Encoded, Utf8Unit, Scalar;
    if s == [] {
      cs := [];
    } else {
      var n := Utf8Unit(s);
      var c := Read(s);
      var rest := AcceptedIsEncoded(s[n..]);
      cs := [c] + rest;
      assert cs[1..] == rest && s == s[..n] + s[n..];
    }
  }

  /** A byte string is accepted exactly when it encodes some list of code points. */
  lemma Utf8Exactly(s: seq<byte>)
    ensures Utf8(s) <==> exists cs :: Scalars(cs) && AllEncoded(cs) == s
  {
    if Utf8(s) {
      var cs := AcceptedIsEncoded(s);
    }
    if cs :| Scalars(cs) && AllEncoded(cs) == s {
      EncodedIsAccepted(cs);
    }
  }
}
