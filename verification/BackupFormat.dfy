/**
 The backup format (1,0): three files, each the one and only encoding of what it decodes to.
 */
module BackupFormat {
  import opened Bytes
  import opened Options
  import opened Crc32c
  import opened Layouts
  import opened StorageParts

  const BACKUP_MAGIC := 0x4753_4542_4B50_3130
  const MAX_MANIFEST_BYTES := 16 * 1024 * 1024

  const BACKUP_FAMILY: seq<byte> := Ascii("gse-backup")
  const SOURCE_FAMILY: seq<byte> := Ascii("gse-durable")
  const CHECKPOINT_MEMBER: seq<byte> := Ascii("gse-backup-checkpoint")
  const METADATA_MEMBER: seq<byte> := Ascii("gse-backup-metadata")

  const NAME := Text(0, 128)

  // ---- sizes ----

  lemma FieldAtMost(f: Field, v: Value)
    requires Fits(f, v) && Small(f)
    ensures |EncodeField(f, v)| <= 260
  {
  }

  // ---- manifest parts ----

  /** The identity fields that a backup's content identity covers. */
  datatype Identity = Identity(
    historyMost: int, historyLeast: int, sequence: int,
    storageIdentity: seq<byte>, schemaIdentity: seq<byte>, codecIdentity: seq<byte>, codecVersion: int)

  const IDENTITY_LAYOUT: Layout := [U64, U64, S64, NAME, NAME, NAME, S32]

  function IdentityValues(x: Identity): seq<Value> {
    [Number(x.historyMost), Number(x.historyLeast), Number(x.sequence),
     Blob(x.storageIdentity), Blob(x.schemaIdentity), Blob(x.codecIdentity), Number(x.codecVersion)]
  }

  function IdentityOf(v: seq<Value>): Identity
    requires AllFit(IDENTITY_LAYOUT, v)
  {
    Identity(v[0].n, v[1].n, v[2].n, v[3].s, v[4].s, v[5].s, v[6].n)
  }

  predicate IdentityFits(x: Identity) {
    AllFit(IDENTITY_LAYOUT, IdentityValues(x)) && x.sequence >= 0 && x.codecVersion >= 0
  }

  lemma IdentityRoundTrip(v: seq<Value>)
    requires AllFit(IDENTITY_LAYOUT, v)
    ensures IdentityValues(IdentityOf(v)) == v
  {
    assert forall i :: 0 <= i < 7 ==> Fits(IDENTITY_LAYOUT[i], v[i]);
  }

  datatype Payload = Payload(size: int, sha256: seq<byte>)

  const MEMBER_LAYOUT: Layout := [NAME, U64, Raw(32)]

  function MemberValues(name: seq<byte>, p: Payload): seq<Value> { [Blob(name), Number(p.size), Blob(p.sha256)] }

  predicate MemberFits(name: seq<byte>, p: Payload) { AllFit(MEMBER_LAYOUT, MemberValues(name, p)) }

  function EncodeMember(name: seq<byte>, p: Payload): (s: seq<byte>)
    requires MemberFits(name, p)
  {
    Encode(MEMBER_LAYOUT, MemberValues(name, p))
  }

  function DecodeMember(name: seq<byte>, s: seq<byte>): Option<(Payload, seq<byte>)> {
    match Decode(MEMBER_LAYOUT, s)
    case None => None
    case Some((v, rest)) =>
      LayoutDecodes(MEMBER_LAYOUT, s);
      if v[0].s != name then None else Some((Payload(v[1].n, v[2].s), rest))
  }

  lemma MemberDecodes(name: seq<byte>, s: seq<byte>)
    requires DecodeMember(name, s).Some?
    ensures var (p, rest) := DecodeMember(name, s).value; MemberFits(name, p) && s == EncodeMember(name, p) + rest
  {
    LayoutDecodes(MEMBER_LAYOUT, s);
    var (v, rest) := Decode(MEMBER_LAYOUT, s).value;
    assert v == MemberValues(name, DecodeMember(name, s).value.0);
  }

  lemma MemberEncodes(name: seq<byte>, p: Payload, rest: seq<byte>)
    requires MemberFits(name, p)
    ensures DecodeMember(name, EncodeMember(name, p) + rest) == Some((p, rest))
  {
    LayoutEncodes(MEMBER_LAYOUT, MemberValues(name, p), rest);
  }

  lemma MemberSize(name: seq<byte>, p: Payload)
    requires MemberFits(name, p)
    ensures 44 <= |EncodeMember(name, p)| <= 780
  {
    var l, v := MEMBER_LAYOUT, MemberValues(name, p);
    LayoutAtMost(l, v);
    EncodeSize(l, v, 0);
    EncodeSize(l, v, 1);
    EncodeSize(l, v, 2);
    assert l[0..] == l && v[0..] == v;
    assert Fits(l[1], v[1]) && Fits(l[2], v[2]);
  }

  // ---- the manifest ----

  datatype Manifest = Manifest(
    identity: Identity, checkpoint: Payload, metadata: Payload,
    contentDigest: seq<byte>, createdEpochMillis: int, requestId: seq<byte>)

  const PREFIX_LAYOUT: Layout := [U64, S16, S16, NAME, NAME, S16, S16]

  /** Magic, version, family, source family and source version: fixed. */
  const PREFIX_VALUES: seq<Value> := [
    Number(BACKUP_MAGIC), Number(1), Number(0), Blob(BACKUP_FAMILY), Blob(SOURCE_FAMILY), Number(1), Number(0)]

  const TRAILER_LAYOUT: Layout := [Raw(32), S64, Text(0, 256)]

  function TrailerValues(m: Manifest): seq<Value> {
    [Blob(m.contentDigest), Number(m.createdEpochMillis), Blob(m.requestId)]
  }

  predicate ManifestFits(m: Manifest) {
    && IdentityFits(m.identity) && MemberFits(CHECKPOINT_MEMBER, m.checkpoint)
    && MemberFits(METADATA_MEMBER, m.metadata)
    && AllFit(TRAILER_LAYOUT, TrailerValues(m))
  }

  lemma PrefixFits()
    ensures AllFit(PREFIX_LAYOUT, PREFIX_VALUES)
  {
    FamilyFits();
    IntegerBounds();
    hide Pow256, Utf8, Ascii;
    assert Fits(U64, Number(BACKUP_MAGIC)) && Fits(S16, Number(1)) && Fits(S16, Number(0));
  }

  lemma FamilyFits()
    ensures Fits(NAME, Blob(BACKUP_FAMILY)) && Fits(NAME, Blob(SOURCE_FAMILY))
  {
    IntegerBounds();
    hide Pow256;
    AsciiIsUtf8(BACKUP_FAMILY);
    AsciiIsUtf8(SOURCE_FAMILY);
  }

  function PrefixBytes(): seq<byte> {
    PrefixFits();
    Encode(PREFIX_LAYOUT, PREFIX_VALUES)
  }

  function PayloadBytes(m: Manifest): seq<byte>
    requires ManifestFits(m)
  {
    EncodeMember(CHECKPOINT_MEMBER, m.checkpoint)
    + (EncodeMember(METADATA_MEMBER, m.metadata) + Encode(TRAILER_LAYOUT, TrailerValues(m)))
  }

  /** The manifest's content, before its checksum. */
  function ManifestBody(m: Manifest): seq<byte>
    requires ManifestFits(m)
  {
    PrefixBytes() + (Encode(IDENTITY_LAYOUT, IdentityValues(m.identity)) + (Digits(2, 4) + PayloadBytes(m)))
  }

  function EncodeManifest(m: Manifest): seq<byte>
    requires ManifestFits(m)
  {
    Checked(ManifestBody(m))
  }

  function ParsePayloads(identity: Identity, s: seq<byte>): Option<Manifest> {
    match DecodeMember(CHECKPOINT_MEMBER, s)
    case None => None
    case Some((checkpoint, s1)) =>
      match DecodeMember(METADATA_MEMBER, s1)
      case None => None
      case Some((metadata, s2)) =>
        match Decode(TRAILER_LAYOUT, s2)
        case None => None
        case Some((t, rest)) =>
          LayoutDecodes(TRAILER_LAYOUT, s2);
          if rest != [] then None else Some(Manifest(identity, checkpoint, metadata, t[0].s, t[1].n, t[2].s))
  }

  function ParseIdentity(s: seq<byte>): Option<Manifest> {
    match Decode(IDENTITY_LAYOUT, s)
    case None => None
    case Some((v, s1)) =>
      LayoutDecodes(IDENTITY_LAYOUT, s);
      var x := IdentityOf(v);
      match DecodeInt(4, false, s1)
      case None => None
      case Some((count, s2)) =>
        if x.sequence < 0 || x.codecVersion < 0 || count != 2 then None else ParsePayloads(x, s2)
  }

  function ParseManifest(data: seq<byte>): Option<Manifest> {
    if |data| > MAX_MANIFEST_BYTES then None
    else match Unchecked(data, 128)
      case None => None
      case Some(body) =>
        match Decode(PREFIX_LAYOUT, body)
        case None => None
        case Some((v, s)) => if v != PREFIX_VALUES then None else ParseIdentity(s)
  }

  method ReadMember(cursor: Cursor, name: seq<byte>) returns (r: Option<Payload>)
    requires cursor.Valid()
    modifies cursor
    ensures cursor.Valid()
    ensures r.Some? <==> DecodeMember(name, old(cursor.Rest())).Some?
    ensures r.Some? ==> DecodeMember(name, old(cursor.Rest())) == Some((r.value, cursor.Rest()))
  {
    ghost var before := cursor.Rest();
    var v := cursor.ReadFields(MEMBER_LAYOUT);
    if v.None? { return None; }
    LayoutDecodes(MEMBER_LAYOUT, before);
    if v.value[0].s != name { return None; }
    r := Some(Payload(v.value[1].n, v.value[2].s));
  }

  method ReadPayloads(cursor: Cursor, identity: Identity) returns (r: Option<Manifest>)
    requires cursor.Valid()
    modifies cursor
    ensures cursor.Valid() && r == ParsePayloads(identity, old(cursor.Rest()))
  {
    hide DecodeMember, Decode;
    var checkpoint := ReadMember(cursor, CHECKPOINT_MEMBER);
    if checkpoint.None? { return None; }
    var metadata := ReadMember(cursor, METADATA_MEMBER);
    if metadata.None? { return None; }
    ghost var s := cursor.Rest();
    var t := cursor.ReadFields(TRAILER_LAYOUT);
    if t.None? { return None; }
    LayoutDecodes(TRAILER_LAYOUT, s);
    if cursor.offset != |cursor.data| { return None; }
    assert cursor.Rest() == [];
    r := Some(Manifest(identity, checkpoint.value, metadata.value, t.value[0].s, t.value[1].n, t.value[2].s));
  }

  method ReadIdentity(cursor: Cursor) returns (r: Option<Manifest>)
    requires cursor.Valid()
    modifies cursor
    ensures cursor.Valid() && r == ParseIdentity(old(cursor.Rest()))
  {
    hide ParsePayloads, Decode, DecodeInt;
    ghost var s := cursor.Rest();
    var v := cursor.ReadFields(IDENTITY_LAYOUT);
    if v.None? { return None; }
    LayoutDecodes(IDENTITY_LAYOUT, s);
    var identity := IdentityOf(v.value);
    var count := cursor.ReadInt(4, false);
    if count.None? || identity.sequence < 0 || identity.codecVersion < 0 || count.value != 2 { return None; }
    r := ReadPayloads(cursor, identity);
  }

  /** The cursor-driven parser. */
  method ParseManifestFile(data: seq<byte>) returns (r: Option<Manifest>)
    ensures r == ParseManifest(data)
  {
    hide ParseIdentity, Decode, Unsigned, Checksum;
    if |data| < 128 || |data| > MAX_MANIFEST_BYTES || Checksum(data[..|data| - 4]) != Unsigned(data[|data| - 4..]) {
      return None;
    }
    var cursor := new Cursor(data[..|data| - 4]);
    var prefix := cursor.ReadFields(PREFIX_LAYOUT);
    if prefix.None? || prefix.value != PREFIX_VALUES { return None; }
    r := ReadIdentity(cursor);
  }

  // ---- the manifest encoding is canonical ----

  lemma TrailerDecodes(s: seq<byte>)
    requires Decode(TRAILER_LAYOUT, s).Some?
    ensures var (t, rest) := Decode(TRAILER_LAYOUT, s).value;
            && AllFit(TRAILER_LAYOUT, t) && t == [Blob(t[0].s), Number(t[1].n), Blob(t[2].s)]
            && (rest == [] ==> s == Encode(TRAILER_LAYOUT, t))
  {
    LayoutDecodes(TRAILER_LAYOUT, s);
    var (t, rest) := Decode(TRAILER_LAYOUT, s).value;
    assert Fits(TRAILER_LAYOUT[0], t[0]) && Fits(TRAILER_LAYOUT[1], t[1]) && Fits(TRAILER_LAYOUT[2], t[2]);
    assert Encode(TRAILER_LAYOUT, t) + [] == Encode(TRAILER_LAYOUT, t);
  }

  lemma PayloadsDecode(identity: Identity, s: seq<byte>)
    requires IdentityFits(identity) && ParsePayloads(identity, s).Some?
    ensures ManifestFits(ParsePayloads(identity, s).value) && s == PayloadBytes(ParsePayloads(identity, s).value)
    ensures ParsePayloads(identity, s).value.identity == identity
  {
    MemberDecodes(CHECKPOINT_MEMBER, s);
    var s1 := DecodeMember(CHECKPOINT_MEMBER, s).value.1;
    MemberDecodes(METADATA_MEMBER, s1);
    var s2 := DecodeMember(METADATA_MEMBER, s1).value.1;
    TrailerDecodes(s2);
    hide DecodeMember, EncodeMember, Decode, Encode, IdentityFits;
  }

  lemma PayloadsEncode(m: Manifest)
    requires ManifestFits(m)
    ensures ParsePayloads(m.identity, PayloadBytes(m)) == Some(m)
  {
    var t := Encode(TRAILER_LAYOUT, TrailerValues(m));
    LayoutEncodes(TRAILER_LAYOUT, TrailerValues(m), []);
    assert t + [] == t;
    MemberEncodes(METADATA_MEMBER, m.metadata, t);
    MemberEncodes(CHECKPOINT_MEMBER, m.checkpoint, EncodeMember(METADATA_MEMBER, m.metadata) + t);
  }

  lemma IdentityDecodes(s: seq<byte>)
    requires ParseIdentity(s).Some?
    ensures var m := ParseIdentity(s).value;
            ManifestFits(m) && s == Encode(IDENTITY_LAYOUT, IdentityValues(m.identity))
              + (Digits(2, 4) + PayloadBytes(m))
  {
    hide ParsePayloads, PayloadBytes;
    LayoutDecodes(IDENTITY_LAYOUT, s);
    var (v, s1) := Decode(IDENTITY_LAYOUT, s).value;
    IdentityRoundTrip(v);
    var (count, s2) := DecodeInt(4, false, s1).value;
    IntCodec(4, false, s1, count, s2);
    PayloadsDecode(IdentityOf(v), s2);
  }

  lemma IdentityEncodes(m: Manifest)
    requires ManifestFits(m)
    ensures ParseIdentity(Encode(IDENTITY_LAYOUT, IdentityValues(m.identity)) + (Digits(2, 4) + PayloadBytes(m)))
            == Some(m)
  {
    hide ParsePayloads, PayloadBytes;
    assert Pow256(4) == 0x1_0000_0000;
    PayloadsEncode(m);
    IntCodec(4, false, Digits(2, 4) + PayloadBytes(m), 2, PayloadBytes(m));
    LayoutEncodes(IDENTITY_LAYOUT, IdentityValues(m.identity), Digits(2, 4) + PayloadBytes(m));
  }

  lemma PrefixSize()
    ensures |PrefixBytes()| <= 1820
  {
    PrefixFits();
    LayoutAtMost(PREFIX_LAYOUT, PREFIX_VALUES);
  }

  lemma PayloadsSize(m: Manifest)
    requires ManifestFits(m)
    ensures 88 <= |PayloadBytes(m)| <= 2340
  {
    MemberSize(CHECKPOINT_MEMBER, m.checkpoint);
    MemberSize(METADATA_MEMBER, m.metadata);
    TrailerSize(m);
    hide EncodeMember, Encode, AllFit, IdentityFits, MemberFits;
  }

  lemma ManifestSize(m: Manifest)
    requires ManifestFits(m)
    ensures 128 <= |EncodeManifest(m)| <= MAX_MANIFEST_BYTES
  {
    PrefixSize();
    PayloadsSize(m);
    IdentitySize(m.identity);
    hide Encode, Checksum, AllFit, IdentityFits, MemberFits, PayloadBytes, PrefixBytes;
  }

  lemma TrailerSize(m: Manifest)
    requires AllFit(TRAILER_LAYOUT, TrailerValues(m))
    ensures |Encode(TRAILER_LAYOUT, TrailerValues(m))| <= 780
  {
    LayoutAtMost(TRAILER_LAYOUT, TrailerValues(m));
  }

  predicate Small(f: Field) { (f.Int? ==> f.width <= 8) && (f.Text? ==> f.max <= 256) && (f.Raw? ==> f.size <= 32) }

  lemma {:induction false} LayoutAtMost(l: Layout, v: seq<Value>)
    requires AllFit(l, v) && forall f :: f in l ==> Small(f)
    ensures |Encode(l, v)| <= |l| * 260
    decreases |l|
  {
    if l != [] {
      FieldAtMost(l[0], v[0]);
      LayoutAtMost(l[1..], v[1..]);
    }
  }

  /** The three leading numbers alone take 24 bytes, and every string at least four. */
  lemma IdentitySize(x: Identity)
    requires IdentityFits(x)
    ensures 36 <= |Encode(IDENTITY_LAYOUT, IdentityValues(x))| <= 1820
  {
    LayoutAtMost(IDENTITY_LAYOUT, IdentityValues(x));
    var l, v := IDENTITY_LAYOUT, IdentityValues(x);
    EncodeSize(l, v, 0);
    EncodeSize(l, v, 1);
    EncodeSize(l, v, 2);
    EncodeSize(l, v, 3);
    EncodeSize(l, v, 4);
    EncodeSize(l, v, 5);
    assert l[0..] == l && v[0..] == v;
  }

  lemma ManifestDecodes(data: seq<byte>)
    requires ParseManifest(data).Some?
    ensures ManifestFits(ParseManifest(data).value) && data == EncodeManifest(ParseManifest(data).value)
  {
    hide ParseIdentity, ManifestFits, PayloadBytes;
    var body := Unchecked(data, 128).value;
    CheckedCodec(data, 128, body);
    LayoutDecodes(PREFIX_LAYOUT, body);
    IdentityDecodes(Decode(PREFIX_LAYOUT, body).value.1);
  }

  lemma ManifestEncodes(m: Manifest)
    requires ManifestFits(m)
    ensures ParseManifest(EncodeManifest(m)) == Some(m)
  {
    ManifestSize(m);
    PrefixFits();
    IdentityEncodes(m);
    hide ParseIdentity, ManifestFits, PayloadBytes;
    CheckedCodec(EncodeManifest(m), 128, ManifestBody(m));
    LayoutEncodes(PREFIX_LAYOUT, PREFIX_VALUES,
      Encode(IDENTITY_LAYOUT, IdentityValues(m.identity)) + (Digits(2, 4) + PayloadBytes(m)));
  }

  /** The parser accepts exactly the encodings of in-bound manifests, and decodes each to the
      manifest it encodes. */
  lemma ManifestCanonical(data: seq<byte>, m: Manifest)
    ensures ParseManifest(data) == Some(m) <==> ManifestFits(m) && data == EncodeManifest(m)
  {
    if ParseManifest(data) == Some(m) {
      ManifestDecodes(data);
    } else if ManifestFits(m) && data == EncodeManifest(m) {
      ManifestEncodes(m);
    }
  }
}
