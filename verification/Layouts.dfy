/**
 Packed record layouts: what the Python code expresses with `struct` shapes, length-prefixed
 strings and a cursor. One theorem, `LayoutCodec`, says that a layout is a canonical encoding:
 decoding accepts exactly the encodings, and each byte string has at most one reading.
 */
module Layouts {
  import opened Bytes
  import opened Options

  datatype Field =
    | Int(width: nat, signed: bool)     // struct codes b, h, i, q (signed) and B, I, Q (unsigned)
    | Text(min: nat, max: nat)          // four-byte length, then that many bytes of strict UTF-8
    | Raw(size: nat)

  datatype Value = Number(n: int) | Blob(s: seq<byte>)

  const S16 := Int(2, true)
  const U32 := Int(4, false)
  const S32 := Int(4, true)
  const U64 := Int(8, false)
  const S64 := Int(8, true)

  predicate Fits(f: Field, v: Value) {
    match f
    case Int(width, signed) => v.Number? && (if signed then InSigned(v.n, width) else InUnsigned(v.n, width))
    case Text(min, max) => v.Blob? && min <= |v.s| <= max && |v.s| < Pow256(4) && Utf8(v.s)
    case Raw(size) => v.Blob? && |v.s| == size
  }

  function EncodeField(f: Field, v: Value): seq<byte>
    requires Fits(f, v)
  {
    match f
    case Int(width, signed) => if signed then SignedDigits(v.n, width) else Digits(v.n, width)
    case Text(_, _) => Digits(|v.s|, 4) + v.s
    case Raw(_) => v.s
  }

  /** An integer at the front of `s` and what follows it. */
  function DecodeInt(width: nat, signed: bool, s: seq<byte>): Option<(int, seq<byte>)> {
    if |s| < width then None
    else Some((if signed then Signed(s[..width]) else Unsigned(s[..width]), s[width..]))
  }

  /** A length-prefixed string at the front of `s` and what follows it. */
  function DecodeText(min: nat, max: nat, s: seq<byte>): Option<(seq<byte>, seq<byte>)> {
    if |s| < 4 then None
    else
      var length := Unsigned(s[..4]);
      if length < min || length > max || |s| < 4 + length || !Utf8(s[4..4 + length]) then None
      else Some((s[4..4 + length], s[4 + length..]))
  }

  /** The value at the front of `s` and what follows it. */
  function DecodeField(f: Field, s: seq<byte>): Option<(Value, seq<byte>)> {
    match f
    case Int(width, signed) => (
      match DecodeInt(width, signed, s)
      case None => None
      case Some((n, rest)) => Some((Number(n), rest)))
    case Text(min, max) => (
      match DecodeText(min, max, s)
      case None => None
      case Some((t, rest)) => Some((Blob(t), rest)))
    case Raw(size) =>
      if |s| < size then None else Some((Blob(s[..size]), s[size..]))
  }

  lemma IntDecodes(width: nat, signed: bool, s: seq<byte>)
    requires DecodeInt(width, signed, s).Some?
    ensures var (n, rest) := DecodeInt(width, signed, s).value;
            && (if signed then InSigned(n, width) else InUnsigned(n, width))
            && s == (if signed then SignedDigits(n, width) else Digits(n, width)) + rest
  {
    hide Unsigned, Signed, Digits, SignedDigits, Pow256;
    DigitsOfUnsigned(s[..width]);
    DigitsOfSigned(s[..width]);
    assert s == s[..width] + s[width..];
  }

  lemma TextDecodes(min: nat, max: nat, s: seq<byte>)
    requires DecodeText(min, max, s).Some?
    ensures var (t, rest) := DecodeText(min, max, s).value;
            min <= |t| <= max && |t| < Pow256(4) && Utf8(t) && s == Digits(|t|, 4) + t + rest
  {
    hide Unsigned, Digits, Pow256, Utf8;
    DigitsOfUnsigned(s[..4]);
    var length := Unsigned(s[..4]);
    assert s == s[..4] + s[4..4 + length] + s[4 + length..];
  }

  lemma FieldDecodes(f: Field, s: seq<byte>)
    requires DecodeField(f, s).Some?
    ensures var (v, rest) := DecodeField(f, s).value; Fits(f, v) && s == EncodeField(f, v) + rest
  {
    hide DecodeInt, DecodeText, Digits, SignedDigits, Utf8, Pow256;
    match f
    case Int(width, signed) => IntDecodes(width, signed, s);
    case Text(min, max) => TextDecodes(min, max, s);
    case Raw(size) => assert s == s[..size] + s[size..];
  }

  lemma FieldEncodes(f: Field, v: Value, rest: seq<byte>)
    requires Fits(f, v)
    ensures DecodeField(f, EncodeField(f, v) + rest) == Some((v, rest))
  {
    var e := EncodeField(f, v);
    var s := e + rest;
    assert s[..|e|] == e && s[|e|..] == rest;
    match f
    case Int(width, signed) =>
      if signed {
        SignedOfDigits(v.n, width);
      } else {
        UnsignedOfDigits(v.n, width);
      }
    case Text(_, _) =>
      UnsignedOfDigits(|v.s|, 4);
      assert s[..4] == Digits(|v.s|, 4);
      assert s[4..4 + |v.s|] == v.s;
    case Raw(_) =>
  }

  type Layout = seq<Field>

  predicate AllFit(l: Layout, vs: seq<Value>) {
    |l| == |vs| && forall i :: 0 <= i < |l| ==> Fits(l[i], vs[i])
  }

  function Encode(l: Layout, vs: seq<Value>): seq<byte>
    requires AllFit(l, vs)
    decreases |l|
  {
    if l == [] then [] else EncodeField(l[0], vs[0]) + Encode(l[1..], vs[1..])
  }

  function Decode(l: Layout, s: seq<byte>): Option<(seq<Value>, seq<byte>)>
    decreases |l|
  {
    if l == [] then Some(([], s))
    else match DecodeField(l[0], s)
      case None => None
      case Some((v, rest)) =>
        match Decode(l[1..], rest)
        case None => None
        case Some((vs, end)) => Some(([v] + vs, end))
  }

  lemma EncodeCons(l: Layout, v: Value, vs: seq<Value>)
    requires l != [] && Fits(l[0], v) && AllFit(l[1..], vs)
    ensures AllFit(l, [v] + vs)
    ensures Encode(l, [v] + vs) == EncodeField(l[0], v) + Encode(l[1..], vs)
  {
    forall i | 0 < i < |l| ensures Fits(l[i], ([v] + vs)[i]) {
      assert l[i] == l[1..][i - 1];
    }
    assert ([v] + vs)[1..] == vs;
  }

  lemma Associates(a: seq<byte>, b: seq<byte>, c: seq<byte>)
    ensures a + (b + c) == (a + b) + c
  {
  }

  lemma {:induction false} LayoutDecodes(l: Layout, s: seq<byte>)
    requires Decode(l, s).Some?
    ensures var (vs, rest) := Decode(l, s).value; AllFit(l, vs) && s == Encode(l, vs) + rest
    decreases |l|
  {
    if l == [] {
      assert s == [] + s;
    } else {
      FieldDecodes(l[0], s);
      var (v, more) := DecodeField(l[0], s).value;
      LayoutDecodes(l[1..], more);
      var (vs, rest) := Decode(l[1..], more).value;
      EncodeCons(l, v, vs);
      Associates(EncodeField(l[0], v), Encode(l[1..], vs), rest);
    }
  }

  lemma {:induction false} LayoutEncodes(l: Layout, vs: seq<Value>, rest: seq<byte>)
    requires AllFit(l, vs)
    ensures Decode(l, Encode(l, vs) + rest) == Some((vs, rest))
    decreases |l|
  {
    hide EncodeField, DecodeField, Fits;
    if l == [] {
      assert [] + rest == rest;
    } else {
      LayoutEncodes(l[1..], vs[1..], rest);
      var head, tail := EncodeField(l[0], vs[0]), Encode(l[1..], vs[1..]);
      FieldEncodes(l[0], vs[0], tail + rest);
      Associates(head, tail, rest);
      assert [vs[0]] + vs[1..] == vs;
    }
  }

  /** Decoding and encoding are inverse: `s` starts with the values `vs` and continues with
      `rest` exactly when it is their encoding followed by `rest`. */
  lemma LayoutCodec(l: Layout, s: seq<byte>, vs: seq<Value>, rest: seq<byte>)
    ensures Decode(l, s) == Some((vs, rest)) <==> AllFit(l, vs) && s == Encode(l, vs) + rest
  {
    if Decode(l, s) == Some((vs, rest)) {
      LayoutDecodes(l, s);
    } else if AllFit(l, vs) && s == Encode(l, vs) + rest {
      LayoutEncodes(l, vs, rest);
    }
  }

  /** Encodings of one layout are uniquely decodable, even with something appended. */
  lemma EncodeInjective(l: Layout, vs: seq<Value>, rest: seq<byte>, vs': seq<Value>, rest': seq<byte>)
    requires AllFit(l, vs) && AllFit(l, vs')
    requires Encode(l, vs) + rest == Encode(l, vs') + rest'
    ensures vs == vs' && rest == rest'
  {
    LayoutEncodes(l, vs, rest);
    LayoutEncodes(l, vs', rest');
  }

  lemma EncodeSize(l: Layout, vs: seq<Value>, k: nat)
    requires AllFit(l, vs) && k < |l|
    ensures AllFit(l[k..], vs[k..]) && AllFit(l[k + 1..], vs[k + 1..])
    ensures |Encode(l[k..], vs[k..])| == |EncodeField(l[k], vs[k])| + |Encode(l[k + 1..], vs[k + 1..])|
  {
    assert l[k..][1..] == l[k + 1..] && vs[k..][1..] == vs[k + 1..];
  }

  /** The parse position of one byte string. */
  class Cursor {
    const data: seq<byte>
    var offset: nat

    ghost predicate Valid()
      reads this
    {
      offset <= |data|
    }

    /** What has not been read yet. */
    ghost function Rest(): seq<byte>
      requires Valid()
      reads this
    {
      data[offset..]
    }

    constructor (data: seq<byte>)
      ensures Valid() && this.data == data && Rest() == data
    {
      this.data := data;
      offset := 0;
    }

    /** Bounded read; `None` is the truncated-field error. */
    method Read(size: int) returns (r: Option<seq<byte>>)
      requires Valid()
      modifies this
      ensures Valid()
      ensures r.Some? <==> 0 <= size <= |old(Rest())|
      ensures r.Some? ==> |r.value| == size && old(Rest()) == r.value + Rest()
      ensures r.None? ==> offset == old(offset)
    {
      if size < 0 || offset + size > |data| {
        return None;
      }
      r := Some(data[offset..offset + size]);
      offset := offset + size;
    }

    method ReadInt(width: nat, signed: bool) returns (r: Option<int>)
      requires Valid()
      modifies this
      ensures Valid()
      ensures r.Some? <==> DecodeInt(width, signed, old(Rest())).Some?
      ensures r.Some? ==> DecodeInt(width, signed, old(Rest())) == Some((r.value, Rest()))
    {
      var b := Read(width);
      if b.None? {
        return None;
      }
      r := Some(if signed then Signed(b.value) else Unsigned(b.value));
    }

    method ReadText(min: nat, max: nat) returns (r: Option<seq<byte>>)
      requires Valid()
      modifies this
      ensures Valid()
      ensures r.Some? <==> DecodeText(min, max, old(Rest())).Some?
      ensures r.Some? ==> DecodeText(min, max, old(Rest())) == Some((r.value, Rest()))
    {
      ghost var start := Rest();
      var prefix := Read(4);
      if prefix.None? {
        return None;
      }
      var length := Unsigned(prefix.value);
      assert start[..4] == prefix.value && Rest() == start[4..];
      if length < min || length > max {
        return None;
      }
      r := Read(length);
      if r.None? {
        return None;
      }
      assert start[4..][..length] == start[4..4 + length] == r.value;
      if !Utf8(r.value) {
        return None;
      }
    }

    /** Reads one field and moves past it. */
    method ReadField(f: Field) returns (r: Option<Value>)
      requires Valid()
      modifies this
      ensures Valid()
      ensures r.Some? <==> DecodeField(f, old(Rest())).Some?
      ensures r.Some? ==> DecodeField(f, old(Rest())) == Some((r.value, Rest()))
    {
      match f
      case Int(width, signed) =>
        var n := ReadInt(width, signed);
        return if n.None? then None else Some(Number(n.value));
      case Text(min, max) =>
        var t := ReadText(min, max);
        return if t.None? then None else Some(Blob(t.value));
      case Raw(size) =>
        var b := Read(size);
        return if b.None? then None else Some(Blob(b.value));
    }

    /** Reads the fields of a layout one after another. */
    method ReadFields(l: Layout) returns (r: Option<seq<Value>>)
      requires Valid()
      modifies this
      ensures Valid()
      ensures r.Some? <==> Decode(l, old(Rest())).Some?
      ensures r.Some? ==> Decode(l, old(Rest())) == Some((r.value, Rest()))
    {
      var vs: seq<Value> := [];
      ghost var start := Rest();
      assert l[0..] == l;
      PrependNothing(Decode(l, start));
      for i := 0 to |l|
        invariant Valid()
        invariant Decode(l, start) == Prepend(vs, Decode(l[i..], Rest()))
      {
        ghost var before := Rest();
        var v := ReadField(l[i]);
        assert l[i..][1..] == l[i + 1..];
        if v.None? {
          return None;
        }
        PrependStep(vs, v.value, Decode(l[i + 1..], Rest()));
        vs := vs + [v.value];
      }
      assert vs + [] == vs;
      r := Some(vs);
    }
  }

  // ---- accumulating readers ----

  /** The outcome `d` of reading what is left, with the values already read put in front. */
  ghost function Prepend<T>(xs: seq<T>, d: Option<(seq<T>, seq<byte>)>): Option<(seq<T>, seq<byte>)> {
    match d
    case None => None
    case Some((more, rest)) => Some((xs + more, rest))
  }

  lemma PrependNothing<T>(d: Option<(seq<T>, seq<byte>)>)
    ensures Prepend([], d) == d
  {
    if d.Some? {
      assert [] + d.value.0 == d.value.0;
    }
  }

  lemma PrependStep<T>(xs: seq<T>, x: T, d: Option<(seq<T>, seq<byte>)>)
    ensures Prepend(xs + [x], d) == Prepend(xs, Prepend([x], d))
  {
    if d.Some? {
      assert xs + [x] + d.value.0 == xs + ([x] + d.value.0);
    }
  }
}
