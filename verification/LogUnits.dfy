/**
 The logical units a log frame can carry, as `docs/v4/PHASE_2_STORAGE_FORMAT.md` lays them out:
 mutations, bulks, index creation and index drop. The payload check accepts exactly their bytes.
 */
module LogUnits {
  import opened Bytes
  import opened Options
  import opened Crc32c
  import opened Layouts
  import opened ByteForms
  import opened PartForms
  import opened StorageParts
  import opened StorageFiles
  import opened WriteAheadLog

  datatype Mutation =
    | Add(key: seq<byte>, document: seq<byte>)
    | Update(key: seq<byte>, document: seq<byte>)
    | Remove(key: seq<byte>)

  datatype LogicalUnit =
    | Single(mutation: Mutation)
    | Bulk(mutations: seq<Mutation>)
    | CreateIndex(kind: byte, field: seq<byte>, analyzer: seq<byte>)
    | DropIndex(field: seq<byte>)

  predicate MutationOk(m: Metadata, mu: Mutation) {
    match mu
    case Add(key, document) => Bounded(key, m.maxKeyBytes) && Bounded(document, m.maxDocumentBytes)
    case Update(key, document) => Bounded(key, m.maxKeyBytes) && Bounded(document, m.maxDocumentBytes)
    case Remove(key) => Bounded(key, m.maxKeyBytes)
  }

  predicate LogicalOk(m: Metadata, u: LogicalUnit) {
    match u
    case Single(mu) => MutationOk(m, mu)
    case Bulk(mus) =>
      0 < |mus| < 0x8000_0000 && |mus| <= m.maxBulkElements && forall i :: 0 <= i < |mus| ==> MutationOk(m, mus[i])
    case CreateIndex(kind, field, analyzer) =>
      && 1 <= kind <= 4 && TextOk(field, 1, 1024) && TextOk(analyzer, 0, 1024)
      && (kind == 4 <==> analyzer == Ascii("gse-simple-v1"))
    case DropIndex(field) => TextOk(field, 1, 1024)
  }

  function TypeOf(u: LogicalUnit): int {
    match u
    case Single(_) => 1
    case Bulk(_) => 2
    case CreateIndex(_, _, _) => 3
    case DropIndex(_) => 4
  }

  function MutationBytes(mu: Mutation): seq<byte> {
    match mu
    case Add(key, document) => [1] + Sized(key) + Sized(document)
    case Update(key, document) => [2] + Sized(key) + Sized(document)
    case Remove(key) => [3] + Sized(key) + [0xFF, 0xFF, 0xFF, 0xFF]
  }

  function MutationsBytes(mus: seq<Mutation>): seq<byte> {
    if mus == [] then [] else MutationBytes(mus[0]) + MutationsBytes(mus[1..])
  }

  function Payload(u: LogicalUnit): seq<byte> {
    match u
    case Single(mu) => MutationBytes(mu)
    case Bulk(mus) => Digits(|mus|, 4) + MutationsBytes(mus)
    case CreateIndex(kind, field, analyzer) => [kind] + Sized(field) + Sized(analyzer)
    case DropIndex(field) => Sized(field)
  }

  // ---- mutations ----

  lemma BlobFollows(max: int, s: seq<byte>, rest: seq<byte>)
    requires Bounded(s, max)
    ensures DecodeBlob(max, Sized(s) + rest) == Some((s, rest))
  {
    BoundedFits(s, max);
    BlobEncodes(max, s, rest);
  }

  lemma OperationFollows(operation: byte, rest: seq<byte>)
    requires operation < 0x80
    ensures DecodeInt(1, true, [operation] + rest) == Some((operation as int, rest))
  {
    OneByteSigned(operation);
    assert ([operation] + rest)[..1] == [operation] && ([operation] + rest)[1..] == rest;
  }

  lemma AbsentFollows(rest: seq<byte>)
    ensures DecodeInt(4, true, [0xFF, 0xFF, 0xFF, 0xFF] + rest) == Some((-1, rest))
  {
    MinusOne();
    IntCodec(4, true, [0xFF, 0xFF, 0xFF, 0xFF] + rest, -1, rest);
  }

  lemma RegroupMutation(a: seq<byte>, b: seq<byte>, c: seq<byte>, rest: seq<byte>)
    ensures a + b + c + rest == a + (b + (c + rest))
  {
  }

  lemma MutationEncodes(m: Metadata, mu: Mutation, rest: seq<byte>)
    requires MutationOk(m, mu)
    ensures SkipMutation(m, MutationBytes(mu) + rest) == Some(rest)
  {
    hide DecodeInt, DecodeBlob, Sized, Bounded;
    var operation := if mu.Add? then 1 else if mu.Update? then 2 else 3;
    if mu.Remove? {
      RegroupMutation([operation], Sized(mu.key), [0xFF, 0xFF, 0xFF, 0xFF], rest);
      AbsentFollows(rest);
      BlobFollows(m.maxKeyBytes, mu.key, [0xFF, 0xFF, 0xFF, 0xFF] + rest);
      OperationFollows(operation, Sized(mu.key) + ([0xFF, 0xFF, 0xFF, 0xFF] + rest));
    } else {
      RegroupMutation([operation], Sized(mu.key), Sized(mu.document), rest);
      BlobFollows(m.maxDocumentBytes, mu.document, rest);
      BlobFollows(m.maxKeyBytes, mu.key, Sized(mu.document) + rest);
      OperationFollows(operation, Sized(mu.key) + (Sized(mu.document) + rest));
    }
  }

  lemma BlobIs(max: int, s: seq<byte>)
    requires DecodeBlob(max, s).Some?
    ensures var (b, rest) := DecodeBlob(max, s).value; Bounded(b, max) && s == Sized(b) + rest
  {
    BlobDecodes(max, s);
    BoundedFits(DecodeBlob(max, s).value.0, max);
  }

  lemma OperationIs(s: seq<byte>)
    requires DecodeInt(1, true, s).Some? && 1 <= DecodeInt(1, true, s).value.0 <= 4
    ensures var (n, rest) := DecodeInt(1, true, s).value; s == [n as byte] + rest
  {
    var (n, rest) := DecodeInt(1, true, s).value;
    IntCodec(1, true, s, n, rest);
    OneByteSigned(n as byte);
  }

  lemma AbsentIs(s: seq<byte>)
    requires DecodeInt(4, true, s).Some? && DecodeInt(4, true, s).value.0 == -1
    ensures s == [0xFF, 0xFF, 0xFF, 0xFF] + DecodeInt(4, true, s).value.1
  {
    IntCodec(4, true, s, -1, DecodeInt(4, true, s).value.1);
    MinusOne();
  }

  lemma MutationDecodes(m: Metadata, s: seq<byte>) returns (mu: Mutation)
    requires SkipMutation(m, s).Some?
    ensures MutationOk(m, mu) && s == MutationBytes(mu) + SkipMutation(m, s).value
  {
    hide DecodeInt, DecodeBlob, Sized, Bounded;
    var (operation, s1) := DecodeInt(1, true, s).value;
    OperationIs(s);
    BlobIs(m.maxKeyBytes, s1);
    var (key, s2) := DecodeBlob(m.maxKeyBytes, s1).value;
    if operation == 3 {
      mu := Remove(key);
      AbsentIs(s2);
      RegroupMutation([3], Sized(key), [0xFF, 0xFF, 0xFF, 0xFF], SkipMutation(m, s).value);
    } else {
      BlobIs(m.maxDocumentBytes, s2);
      var (document, s3) := DecodeBlob(m.maxDocumentBytes, s2).value;
      mu := if operation == 1 then Add(key, document) else Update(key, document);
      RegroupMutation([operation as byte], Sized(key), Sized(document), s3);
    }
  }

  lemma {:induction false} MutationsEncode(m: Metadata, mus: seq<Mutation>, rest: seq<byte>)
    requires forall i :: 0 <= i < |mus| ==> MutationOk(m, mus[i])
    ensures SkipMutations(m, |mus|, MutationsBytes(mus) + rest) == Some(rest)
    decreases |mus|
  {
    hide SkipMutation, MutationBytes, MutationOk;
    if mus == [] {
      assert [] + rest == rest;
    } else {
      var head, tail := MutationBytes(mus[0]), MutationsBytes(mus[1..]);
      Associates(head, tail, rest);
      MutationEncodes(m, mus[0], tail + rest);
      MutationsEncode(m, mus[1..], rest);
    }
  }

  lemma {:induction false} MutationsDecode(m: Metadata, n: nat, s: seq<byte>) returns (mus: seq<Mutation>)
    requires SkipMutations(m, n, s).Some?
    ensures |mus| == n && forall i :: 0 <= i < n ==> MutationOk(m, mus[i])
    ensures s == MutationsBytes(mus) + SkipMutations(m, n, s).value
    decreases n
  {
    hide SkipMutation, MutationBytes, MutationOk;
    if n == 0 {
      mus := [];
    } else {
      var mu := MutationDecodes(m, s);
      var more := SkipMutation(m, s).value;
      var tail := MutationsDecode(m, n - 1, more);
      mus := [mu] + tail;
      assert mus[1..] == tail;
      Associates(MutationBytes(mu), MutationsBytes(tail), SkipMutations(m, n, s).value);
    }
  }

  // ---- payloads ----

  lemma PayloadEncodes(m: Metadata, u: LogicalUnit)
    requires LogicalOk(m, u)
    ensures PayloadOk(m, TypeOf(u), Payload(u))
  {
    hide MutationOk, SkipMutation, SkipMutations, DecodeInt, TextOk;
    var p := Payload(u);
    assert p + [] == p;
    match u
    case Single(mu) => MutationEncodes(m, mu, []);
    case Bulk(mus) =>
      CountFollows(|mus|, MutationsBytes(mus));
      MutationsEncode(m, mus, []);
      assert MutationsBytes(mus) + [] == MutationsBytes(mus);
    case CreateIndex(kind, field, analyzer) =>
      var ix := Index(kind as int, field, analyzer);
      DescriptorFits(TextBounds(1, 1024, 1024), true, ix);
      IndexEncodes(INDEX_SHAPE, ix, []);
      hide DecodeIndex;
    case DropIndex(field) =>
      TextField(1, 1024, field);
      FieldEncodes(Text(1, 1024), Blob(field), []);
  }

  lemma PayloadDecodes(m: Metadata, kind: int, p: seq<byte>) returns (u: LogicalUnit)
    requires 1 <= kind <= 4 && PayloadOk(m, kind, p)
    ensures LogicalOk(m, u) && TypeOf(u) == kind && Payload(u) == p
  {
    if kind == 1 {
      u := SingleDecodes(m, p);
    } else if kind == 2 {
      u := BulkDecodes(m, p);
    } else if kind == 3 {
      u := IndexUnitDecodes(m, p);
    } else {
      u := DropDecodes(m, p);
    }
  }

  lemma SingleDecodes(m: Metadata, p: seq<byte>) returns (u: LogicalUnit)
    requires SkipMutation(m, p) == Some([])
    ensures LogicalOk(m, u) && u.Single? && Payload(u) == p
  {
    hide SkipMutation;
    var mu := MutationDecodes(m, p);
    u := Single(mu);
  }

  lemma BulkDecodes(m: Metadata, p: seq<byte>) returns (u: LogicalUnit)
    requires SkipBulk(m, p) == Some([])
    ensures LogicalOk(m, u) && u.Bulk? && Payload(u) == p
  {
    hide SkipMutations, DecodeInt, MutationOk;
    CountIs(p);
    var (n, rest) := DecodeInt(4, true, p).value;
    var mus := MutationsDecode(m, n, rest);
    u := Bulk(mus);
  }

  lemma IndexUnitDecodes(m: Metadata, p: seq<byte>) returns (u: LogicalUnit)
    requires SkipIndex(p) == Some([])
    ensures LogicalOk(m, u) && u.CreateIndex? && Payload(u) == p
  {
    hide DecodeIndex, IndexFits, TextOk;
    IndexDecodes(INDEX_SHAPE, p);
    var (ix, rest) := DecodeIndex(INDEX_SHAPE, p).value;
    DescriptorFits(TextBounds(1, 1024, 1024), true, ix);
    u := CreateIndex(ix.kind as byte, ix.field, ix.analyzer);
  }

  lemma DropDecodes(m: Metadata, p: seq<byte>) returns (u: LogicalUnit)
    requires SkipText(p) == Some([])
    ensures LogicalOk(m, u) && u.DropIndex? && Payload(u) == p
  {
    hide TextOk, Utf8;
    TextDecodes(1, 1024, p);
    var (t, rest) := DecodeText(1, 1024, p).value;
    TextField(1, 1024, t);
    u := DropIndex(t);
  }

  /** `p` is the payload of a well-formed unit of this type. */
  ghost predicate IsPayload(m: Metadata, kind: int, p: seq<byte>) {
    exists u :: LogicalOk(m, u) && TypeOf(u) == kind && Payload(u) == p
  }

  /** The payload check accepts exactly the payloads of well-formed units of the type. */
  lemma PayloadsExactly(m: Metadata, kind: int, p: seq<byte>)
    requires 1 <= kind <= 4
    ensures PayloadOk(m, kind, p) <==> IsPayload(m, kind, p)
  {
    hide PayloadOk, LogicalOk, Payload;
    if PayloadOk(m, kind, p) {
      var u := PayloadDecodes(m, kind, p);
    }
    if u :| LogicalOk(m, u) && TypeOf(u) == kind && Payload(u) == p {
      PayloadEncodes(m, u);
    }
  }

  // ---- one reading ----

  lemma SizedInjective(s: seq<byte>, t: seq<byte>, x: seq<byte>, y: seq<byte>)
    requires |s| < 0x8000_0000 && |t| < 0x8000_0000 && Sized(s) + x == Sized(t) + y
    ensures s == t && x == y
  {
    BlobFollows(|s| + |t|, s, x);
    BlobFollows(|s| + |t|, t, y);
  }

  lemma MutationUnique(m: Metadata, a: Mutation, b: Mutation, x: seq<byte>, y: seq<byte>)
    requires MutationOk(m, a) && MutationOk(m, b) && MutationBytes(a) + x == MutationBytes(b) + y
    ensures a == b && x == y
  {
    hide Sized;
    var f, g := MutationBytes(a) + x, MutationBytes(b) + y;
    var d := if a.Remove? then [0xFF, 0xFF, 0xFF, 0xFF] else Sized(a.document);
    var e := if b.Remove? then [0xFF, 0xFF, 0xFF, 0xFF] else Sized(b.document);
    RegroupMutation([f[0]], Sized(a.key), d, x);
    RegroupMutation([g[0]], Sized(b.key), e, y);
    assert f[1..] == Sized(a.key) + (d + x) && g[1..] == Sized(b.key) + (e + y);
    SizedInjective(a.key, b.key, d + x, e + y);
    if a.Remove? {
      assert (d + x)[4..] == x && (e + y)[4..] == y;
    } else {
      SizedInjective(a.document, b.document, x, y);
    }
  }

  lemma {:induction false} MutationsUnique(m: Metadata, a: seq<Mutation>, b: seq<Mutation>)
    requires |a| == |b| && MutationsBytes(a) == MutationsBytes(b)
    requires forall i :: 0 <= i < |a| ==> MutationOk(m, a[i]) && MutationOk(m, b[i])
    ensures a == b
    decreases |a|
  {
    hide MutationBytes, MutationOk;
    if a != [] {
      MutationUnique(m, a[0], b[0], MutationsBytes(a[1..]), MutationsBytes(b[1..]));
      MutationsUnique(m, a[1..], b[1..]);
      assert a == [a[0]] + a[1..] && b == [b[0]] + b[1..];
    }
  }

  /** A payload can be read in one way only. */
  lemma PayloadUnique(m: Metadata, u: LogicalUnit, v: LogicalUnit)
    requires LogicalOk(m, u) && LogicalOk(m, v) && TypeOf(u) == TypeOf(v) && Payload(u) == Payload(v)
    ensures u == v
  {
    hide MutationBytes, MutationOk, Sized, Utf8;
    match (u, v)
    case (Single(a), Single(b)) => MutationUnique(m, a, b, [], []);
    case (Bulk(a), Bulk(b)) =>
      CountFollows(|a|, MutationsBytes(a));
      CountFollows(|b|, MutationsBytes(b));
      MutationsUnique(m, a, b);
    case (CreateIndex(i, s, t), CreateIndex(j, x, y)) =>
      Associates([i], Sized(s), Sized(t));
      Associates([j], Sized(x), Sized(y));
      assert Payload(u)[0] == i && Payload(v)[0] == j;
      assert Payload(u)[1..] == Sized(s) + Sized(t) && Payload(v)[1..] == Sized(x) + Sized(y);
      SizedInjective(s, x, Sized(t), Sized(y));
      SizedInjective(t, y, [], []);
    case (DropIndex(s), DropIndex(x)) => SizedInjective(s, x, [], []);
  }
}
