/**
 Content identity of a (1,0) backup: what the digest covers, and that it binds the backup's
 payload bytes and identity fields up to a collision of the hash.
 */
module ContentIdentity {
  import opened Bytes
  import opened Options
  import opened Layouts
  import opened StorageParts
  import opened BackupFormat
  import opened BackupPayloads

  type Digest = s: seq<byte> | |s| == 32 witness Digits(0, 32)

  /** SHA-256, about which nothing is used but that it is a function. */
  type Hash = seq<byte> -> Digest

  ghost predicate Collision(sha: Hash, x: seq<byte>, y: seq<byte>) { x != y && sha(x) == sha(y) }

  const CONTENT_DOMAIN: seq<byte> := Ascii("gse-backup-content-v1\0")

  // A length-prefixed string without a bound of its own.
  const STRING := Text(0, 0xFFFF_FFFF)

  // ---- described members ----

  datatype Described = Described(name: seq<byte>, payload: Payload)

  const DESCRIBED_LAYOUT: Layout := [STRING, U64, Raw(32)]

  function DescribedValues(d: Described): seq<Value> { [Blob(d.name), Number(d.payload.size), Blob(d.payload.sha256)] }

  predicate AllDescribable(ds: seq<Described>) {
    forall i :: 0 <= i < |ds| ==> AllFit(DESCRIBED_LAYOUT, DescribedValues(ds[i]))
  }

  function EncodeDescribed(ds: seq<Described>): seq<byte>
    requires AllDescribable(ds)
  {
    if ds == [] then [] else Encode(DESCRIBED_LAYOUT, DescribedValues(ds[0])) + EncodeDescribed(ds[1..])
  }

  /** Lists of equal length with equal encodings are equal. */
  lemma {:induction false} DescribedInjective(ds: seq<Described>, es: seq<Described>)
    requires AllDescribable(ds) && AllDescribable(es) && |ds| == |es|
    requires EncodeDescribed(ds) == EncodeDescribed(es)
    ensures ds == es
  {
    if ds != [] {
      EncodeInjective(DESCRIBED_LAYOUT, DescribedValues(ds[0]), EncodeDescribed(ds[1..]),
                      DescribedValues(es[0]), EncodeDescribed(es[1..]));
      DescribedValuesInjective(ds[0], es[0]);
      DescribedInjective(ds[1..], es[1..]);
      assert ds == [ds[0]] + ds[1..] && es == [es[0]] + es[1..];
    }
  }

  lemma DescribedValuesInjective(d: Described, e: Described)
    requires DescribedValues(d) == DescribedValues(e)
    ensures d == e
  {
    assert DescribedValues(d)[0] == DescribedValues(e)[0];
    assert DescribedValues(d)[1] == DescribedValues(e)[1];
    assert DescribedValues(d)[2] == DescribedValues(e)[2];
  }

  // ---- the preimage ----

  datatype Fields = Fields(family: seq<byte>, sourceFamily: seq<byte>, identity: Identity)

  const FAMILY_LAYOUT: Layout := [STRING, S16, S16, STRING, S16, S16]
  const CONTENT_LAYOUT: Layout := [U64, U64, S64, STRING, STRING, STRING, S32]

  function FamilyValues(f: Fields): seq<Value> {
    [Blob(f.family), Number(1), Number(0), Blob(f.sourceFamily), Number(1), Number(0)]
  }

  predicate Hashable(f: Fields, ds: seq<Described>) {
    && AllFit(FAMILY_LAYOUT, FamilyValues(f)) && AllFit(CONTENT_LAYOUT, IdentityValues(f.identity))
    && InUnsigned(|ds|, 4) && AllDescribable(ds)
  }

  /** The hashed bytes; `ds` lists the payloads in name order. */
  function ContentPreimage(f: Fields, ds: seq<Described>): seq<byte>
    requires Hashable(f, ds)
  {
    CONTENT_DOMAIN + (Encode(FAMILY_LAYOUT, FamilyValues(f))
                      + (Encode(CONTENT_LAYOUT, IdentityValues(f.identity)) + (Digits(|ds|, 4) + EncodeDescribed(ds))))
  }

  lemma IdentityValuesInjective(x: Identity, y: Identity)
    requires IdentityValues(x) == IdentityValues(y)
    ensures x == y
  {
    var v, w := IdentityValues(x), IdentityValues(y);
    assert v[0] == w[0] && v[1] == w[1] && v[2] == w[2] && v[3] == w[3] && v[4] == w[4] && v[5] == w[5] && v[6] == w[6];
  }

  lemma CountedInjective(ds: seq<Described>, es: seq<Described>)
    requires InUnsigned(|ds|, 4) && InUnsigned(|es|, 4) && AllDescribable(ds) && AllDescribable(es)
    requires Digits(|ds|, 4) + EncodeDescribed(ds) == Digits(|es|, 4) + EncodeDescribed(es)
    ensures ds == es
  {
    hide Digits;
    var s := Digits(|ds|, 4) + EncodeDescribed(ds);
    IntCodec(4, false, s, |ds|, EncodeDescribed(ds));
    IntCodec(4, false, s, |es|, EncodeDescribed(es));
    DescribedInjective(ds, es);
  }

  /** Two different field values or payload lists never hash the same bytes. */
  lemma PreimageInjective(f: Fields, ds: seq<Described>, g: Fields, es: seq<Described>)
    requires Hashable(f, ds) && Hashable(g, es) && ContentPreimage(f, ds) == ContentPreimage(g, es)
    ensures f == g && ds == es
  {
    hide AllFit, Encode, EncodeDescribed, AllDescribable;
    var p, q := Digits(|ds|, 4) + EncodeDescribed(ds), Digits(|es|, 4) + EncodeDescribed(es);
    var fi, gi := Encode(CONTENT_LAYOUT, IdentityValues(f.identity)),
      Encode(CONTENT_LAYOUT, IdentityValues(g.identity));
    DropPrefix(CONTENT_DOMAIN, Encode(FAMILY_LAYOUT, FamilyValues(f)) + (fi + p),
      Encode(FAMILY_LAYOUT, FamilyValues(g)) + (gi + q));
    EncodeInjective(FAMILY_LAYOUT, FamilyValues(f), fi + p, FamilyValues(g), gi + q);
    EncodeInjective(CONTENT_LAYOUT, IdentityValues(f.identity), p, IdentityValues(g.identity), q);
    IdentityValuesInjective(f.identity, g.identity);
    assert FamilyValues(f)[0] == FamilyValues(g)[0] && FamilyValues(f)[3] == FamilyValues(g)[3];
    CountedInjective(ds, es);
  }

  lemma DropPrefix(a: seq<byte>, s: seq<byte>, t: seq<byte>)
    requires a + s == a + t
    ensures s == t
  {
    assert (a + s)[|a|..] == s && (a + t)[|a|..] == t;
  }

  // ---- bundles ----

  datatype Bundle = Bundle(checkpoint: seq<byte>, metadata: seq<byte>, manifest: seq<byte>)

  const MEMBERS: set<string> := {"gse-backup-checkpoint", "gse-backup-manifest", "gse-backup-metadata"}

  /** The three members of a directory that holds exactly them. */
  function BundleIn(files: map<string, seq<byte>>): Option<Bundle> {
    if files.Keys != MEMBERS then None
    else Some(Bundle(files["gse-backup-checkpoint"], files["gse-backup-metadata"], files["gse-backup-manifest"]))
  }

  function Fingerprint(sha: Hash, data: seq<byte>): Payload { Payload(|data|, sha(data)) }

  function FieldsOf(x: Identity): Fields { Fields(BACKUP_FAMILY, SOURCE_FAMILY, x) }

  function Payloads(checkpoint: Payload, metadata: Payload): seq<Described> {
    [Described(CHECKPOINT_MEMBER, checkpoint), Described(METADATA_MEMBER, metadata)]
  }

  lemma IdentityIsHashable(x: Identity)
    requires AllFit(IDENTITY_LAYOUT, IdentityValues(x))
    ensures AllFit(CONTENT_LAYOUT, IdentityValues(x))
  {
    assert Pow256(4) == 0x1_0000_0000;
    var v := IdentityValues(x);
    forall i | 0 <= i < 7 ensures Fits(CONTENT_LAYOUT[i], v[i]) {
      assert Fits(IDENTITY_LAYOUT[i], v[i]);
    }
  }

  lemma MemberIsHashable(name: seq<byte>, p: Payload)
    requires MemberFits(name, p)
    ensures AllFit(DESCRIBED_LAYOUT, DescribedValues(Described(name, p)))
  {
    assert Pow256(4) == 0x1_0000_0000;
    var v := MemberValues(name, p);
    forall i | 0 <= i < 3 ensures Fits(DESCRIBED_LAYOUT[i], v[i]) {
      assert Fits(MEMBER_LAYOUT[i], v[i]);
    }
  }

  lemma FamilyIsHashable(x: Identity)
    ensures AllFit(FAMILY_LAYOUT, FamilyValues(FieldsOf(x)))
  {
    FamilyFits();
    IntegerBounds();
    hide Pow256, Utf8, Ascii;
    assert Fits(STRING, Blob(BACKUP_FAMILY)) && Fits(STRING, Blob(SOURCE_FAMILY));
  }

  lemma BundleIsHashable(x: Identity, checkpoint: Payload, metadata: Payload)
    requires AllFit(IDENTITY_LAYOUT, IdentityValues(x))
    requires MemberFits(CHECKPOINT_MEMBER, checkpoint) && MemberFits(METADATA_MEMBER, metadata)
    ensures Hashable(FieldsOf(x), Payloads(checkpoint, metadata))
  {
    IdentityIsHashable(x);
    FamilyIsHashable(x);
    MemberIsHashable(CHECKPOINT_MEMBER, checkpoint);
    MemberIsHashable(METADATA_MEMBER, metadata);
    IntegerBounds();
    hide Pow256, AllFit, FieldsOf;
  }

  /** The bytes whose digest a manifest must carry. */
  function BundlePreimage(m: Manifest): seq<byte>
    requires ManifestFits(m)
  {
    BundleIsHashable(m.identity, m.checkpoint, m.metadata);
    ContentPreimage(FieldsOf(m.identity), Payloads(m.checkpoint, m.metadata))
  }

  predicate Agrees(x: Identity, meta: Metadata, c: Checkpoint) {
    && x.historyMost == meta.historyMost && x.historyLeast == meta.historyLeast
    && x.storageIdentity == meta.storageIdentity && x.schemaIdentity == meta.schemaIdentity
    && x.codecIdentity == meta.codecIdentity && x.codecVersion == meta.limits.codecVersion
    && x.sequence == c.sequence
  }

  function InspectParsed(sha: Hash, b: Bundle, m: Manifest, meta: Metadata, c: Checkpoint): Option<Manifest>
    requires ManifestFits(m)
  {
    if m.checkpoint != Fingerprint(sha, b.checkpoint) || m.metadata != Fingerprint(sha, b.metadata) then None
    else if sha(BundlePreimage(m)) != m.contentDigest || !Agrees(m.identity, meta, c) then None
    else Some(m)
  }

  /** The manifest of an accepted bundle. */
  function InspectBundle(sha: Hash, b: Bundle): Option<Manifest> {
    match ParseManifest(b.manifest)
    case None => None
    case Some(m) =>
      ManifestDecodes(b.manifest);
      match ParseMetadata(b.metadata)
      case None => None
      case Some(meta) =>
        match ParseCheckpoint(b.checkpoint, meta)
        case None => None
        case Some(c) => InspectParsed(sha, b, m, meta, c)
  }

  /** The inspector as it runs, on the three files of a directory. */
  method InspectBundleFiles(sha: Hash, files: map<string, seq<byte>>) returns (r: Option<Manifest>)
    ensures r == match BundleIn(files) case None => None case Some(b) => InspectBundle(sha, b)
  {
    hide ParseManifest, ParseMetadata, ParseCheckpoint, BundlePreimage, ManifestFits;
    if files.Keys != MEMBERS { return None; }
    var b := Bundle(files["gse-backup-checkpoint"], files["gse-backup-metadata"], files["gse-backup-manifest"]);
    var m := ParseManifestFile(b.manifest);
    if m.None? { return None; }
    ManifestDecodes(b.manifest);
    var meta := ParseMetadataFile(b.metadata);
    if meta.None? { return None; }
    var counts := ParseCheckpointFile(b.checkpoint, meta.value);
    if counts.None? { return None; }
    ghost var c := ParseCheckpoint(b.checkpoint, meta.value).value;
    var x := m.value.identity;
    if m.value.checkpoint != Fingerprint(sha, b.checkpoint) || m.value.metadata != Fingerprint(sha, b.metadata) {
      return None;
    }
    if sha(BundlePreimage(m.value)) != m.value.contentDigest { return None; }
    if x.historyMost != meta.value.historyMost || x.historyLeast != meta.value.historyLeast
       || x.storageIdentity != meta.value.storageIdentity || x.schemaIdentity != meta.value.schemaIdentity
       || x.codecIdentity != meta.value.codecIdentity || x.codecVersion != meta.value.limits.codecVersion
       || x.sequence != counts.value.0 { return None; }
    r := m;
  }

  // ---- what the identity binds ----

  /** Two accepted bundles with one content identity have the same payload bytes and identity
      fields, or the two bundles exhibit a hash collision. */
  lemma ContentIdentityBinds(sha: Hash, a: Bundle, b: Bundle)
    requires InspectBundle(sha, a).Some? && InspectBundle(sha, b).Some?
    requires InspectBundle(sha, a).value.contentDigest == InspectBundle(sha, b).value.contentDigest
    ensures var m, n := InspectBundle(sha, a).value, InspectBundle(sha, b).value;
            && ManifestFits(m) && ManifestFits(n)
            && (|| (a.checkpoint == b.checkpoint && a.metadata == b.metadata
                    && m == n.(createdEpochMillis := m.createdEpochMillis, requestId := m.requestId))
                || Collision(sha, a.checkpoint, b.checkpoint)
                || Collision(sha, a.metadata, b.metadata)
                || Collision(sha, BundlePreimage(m), BundlePreimage(n)))
  {
    hide ParseManifest, ParseMetadata, ParseCheckpoint, ManifestFits, Agrees;
    ManifestDecodes(a.manifest);
    ManifestDecodes(b.manifest);
    var m, n := InspectBundle(sha, a).value, InspectBundle(sha, b).value;
    if BundlePreimage(m) == BundlePreimage(n) {
      EqualPreimages(m, n);
    }
  }

  lemma EqualPreimages(m: Manifest, n: Manifest)
    requires ManifestFits(m) && ManifestFits(n) && BundlePreimage(m) == BundlePreimage(n)
    ensures m.identity == n.identity && m.checkpoint == n.checkpoint && m.metadata == n.metadata
  {
    BundleIsHashable(m.identity, m.checkpoint, m.metadata);
    BundleIsHashable(n.identity, n.checkpoint, n.metadata);
    hide Hashable, ManifestFits, ContentPreimage;
    var ds, es := Payloads(m.checkpoint, m.metadata), Payloads(n.checkpoint, n.metadata);
    PreimageInjective(FieldsOf(m.identity), ds, FieldsOf(n.identity), es);
    assert ds[0] == es[0] && ds[1] == es[1];
  }

  // ---- what it leaves free, and that a backup can be sealed ----

  function Seal(sha: Hash, meta: Metadata, c: Checkpoint, createdEpochMillis: int, requestId: seq<byte>): Bundle
    requires Sealable(sha, meta, c, createdEpochMillis, requestId)
  {
    var m := SealedManifest(sha, meta, c, createdEpochMillis, requestId);
    SealedFits(sha, meta, c, createdEpochMillis, requestId);
    Bundle(EncodeCheckpoint(meta, c), EncodeMetadata(meta), EncodeManifest(m))
  }

  predicate Sealable(sha: Hash, meta: Metadata, c: Checkpoint, createdEpochMillis: int, requestId: seq<byte>) {
    && MetadataFits(meta) && CheckpointFits(meta, c)
    && InUnsigned(|EncodeCheckpoint(meta, c)|, 8) && InUnsigned(|EncodeMetadata(meta)|, 8)
    && InSigned(createdEpochMillis, 8) && |requestId| <= 256 && Utf8(requestId)
  }

  function SealedIdentity(meta: Metadata, c: Checkpoint): Identity {
    Identity(meta.historyMost, meta.historyLeast, c.sequence,
             meta.storageIdentity, meta.schemaIdentity, meta.codecIdentity, meta.limits.codecVersion)
  }

  lemma SealedIdentityFits(meta: Metadata, c: Checkpoint)
    requires MetadataFits(meta) && CheckpointFits(meta, c)
    ensures IdentityFits(SealedIdentity(meta, c))
  {
    var h, k := HeadValues(meta), CheckpointValues(meta, c.sequence, |c.slots|, CountLive(c.slots));
    var v := LimitValues(meta.limits, |meta.indexes|);
    assert Fits(METADATA_HEAD[3], h[3]) && Fits(METADATA_HEAD[4], h[4]) && Fits(METADATA_HEAD[6], h[6]);
    assert Fits(METADATA_HEAD[7], h[7]) && Fits(METADATA_HEAD[8], h[8]);
    assert Fits(CHECKPOINT_HEAD[5], k[5]) && Fits(LIMITS_LAYOUT[0], v[0]);
    hide Pow256, Utf8;
  }

  lemma MemberNamesFit()
    ensures Fits(NAME, Blob(CHECKPOINT_MEMBER)) && Fits(NAME, Blob(METADATA_MEMBER))
  {
    IntegerBounds();
    hide Pow256;
    AsciiIsUtf8(CHECKPOINT_MEMBER);
    AsciiIsUtf8(METADATA_MEMBER);
  }

  lemma FingerprintFits(sha: Hash, data: seq<byte>)
    requires InUnsigned(|data|, 8)
    ensures MemberFits(CHECKPOINT_MEMBER, Fingerprint(sha, data)) && MemberFits(METADATA_MEMBER, Fingerprint(sha, data))
  {
    MemberNamesFit();
    hide Pow256, Ascii, Utf8;
  }

  function SealedManifest(sha: Hash, meta: Metadata, c: Checkpoint, createdEpochMillis: int,
      requestId: seq<byte>): Manifest
    requires Sealable(sha, meta, c, createdEpochMillis, requestId)
  {
    var x := SealedIdentity(meta, c);
    var p, q := Fingerprint(sha, EncodeCheckpoint(meta, c)), Fingerprint(sha, EncodeMetadata(meta));
    SealedIdentityFits(meta, c);
    FingerprintFits(sha, EncodeCheckpoint(meta, c));
    FingerprintFits(sha, EncodeMetadata(meta));
    BundleIsHashable(x, p, q);
    Manifest(x, p, q, sha(ContentPreimage(FieldsOf(x), Payloads(p, q))), createdEpochMillis, requestId)
  }

  lemma SealedFits(sha: Hash, meta: Metadata, c: Checkpoint, createdEpochMillis: int, requestId: seq<byte>)
    requires Sealable(sha, meta, c, createdEpochMillis, requestId)
    ensures ManifestFits(SealedManifest(sha, meta, c, createdEpochMillis, requestId))
  {
    SealedIdentityFits(meta, c);
    FingerprintFits(sha, EncodeCheckpoint(meta, c));
    FingerprintFits(sha, EncodeMetadata(meta));
    var m := SealedManifest(sha, meta, c, createdEpochMillis, requestId);
    TrailerFits(m);
    hide IdentityFits, MemberFits, MetadataFits, CheckpointFits, AllFit, ContentPreimage, Hashable;
  }

  lemma TrailerFits(m: Manifest)
    requires |m.contentDigest| == 32 && InSigned(m.createdEpochMillis, 8) && |m.requestId| <= 256 && Utf8(m.requestId)
    ensures AllFit(TRAILER_LAYOUT, TrailerValues(m))
  {
    IntegerBounds();
    hide Pow256, Utf8;
  }

  lemma SealedDigest(sha: Hash, meta: Metadata, c: Checkpoint, createdEpochMillis: int, requestId: seq<byte>)
    requires Sealable(sha, meta, c, createdEpochMillis, requestId)
    ensures var m := SealedManifest(sha, meta, c, createdEpochMillis, requestId);
            ManifestFits(m) && sha(BundlePreimage(m)) == m.contentDigest
  {
    SealedFits(sha, meta, c, createdEpochMillis, requestId);
    hide ManifestFits, MetadataFits, CheckpointFits, ContentPreimage, Hashable, EncodeMetadata, EncodeCheckpoint;
    hide Payloads, FieldsOf;
  }

  lemma SealedParts(sha: Hash, meta: Metadata, c: Checkpoint, createdEpochMillis: int, requestId: seq<byte>)
    requires Sealable(sha, meta, c, createdEpochMillis, requestId)
    ensures var m := SealedManifest(sha, meta, c, createdEpochMillis, requestId);
            && m.checkpoint == Fingerprint(sha, EncodeCheckpoint(meta, c))
            && m.metadata == Fingerprint(sha, EncodeMetadata(meta))
            && Agrees(m.identity, meta, c)
  {
    hide MetadataFits, CheckpointFits, EncodeMetadata, EncodeCheckpoint, Fingerprint, ContentPreimage, Hashable;
    hide Payloads, FieldsOf;
  }

  lemma SealedAgrees(sha: Hash, meta: Metadata, c: Checkpoint, createdEpochMillis: int, requestId: seq<byte>)
    requires Sealable(sha, meta, c, createdEpochMillis, requestId)
    ensures var m := SealedManifest(sha, meta, c, createdEpochMillis, requestId);
            ManifestFits(m) && InspectParsed(sha, Seal(sha, meta, c, createdEpochMillis, requestId), m, meta, c)
              == Some(m)
  {
    SealedDigest(sha, meta, c, createdEpochMillis, requestId);
    SealedParts(sha, meta, c, createdEpochMillis, requestId);
    hide ManifestFits, MetadataFits, CheckpointFits, BundlePreimage, EncodeManifest, EncodeMetadata, EncodeCheckpoint;
    hide SealedManifest, Fingerprint, Agrees;
  }

  /** Sealing any in-bound metadata and checkpoint gives an accepted bundle. */
  lemma SealedIsAccepted(sha: Hash, meta: Metadata, c: Checkpoint, createdEpochMillis: int, requestId: seq<byte>)
    requires Sealable(sha, meta, c, createdEpochMillis, requestId)
    ensures InspectBundle(sha, Seal(sha, meta, c, createdEpochMillis, requestId))
            == Some(SealedManifest(sha, meta, c, createdEpochMillis, requestId))
  {
    SealedFits(sha, meta, c, createdEpochMillis, requestId);
    var m := SealedManifest(sha, meta, c, createdEpochMillis, requestId);
    ManifestCanonical(EncodeManifest(m), m);
    MetadataCanonical(EncodeMetadata(meta), meta);
    CheckpointCanonical(EncodeCheckpoint(meta, c), meta, c);
    SealedAgrees(sha, meta, c, createdEpochMillis, requestId);
    hide ParseManifest, ParseMetadata, ParseCheckpoint, InspectParsed, SealedManifest, ManifestFits, MetadataFits;
    hide CheckpointFits;
  }

  lemma PartsAreSealable(sha: Hash, b: Bundle, m: Manifest, meta: Metadata, c: Checkpoint)
    requires ManifestFits(m) && MetadataFits(meta) && CheckpointFits(meta, c)
    requires b.metadata == EncodeMetadata(meta) && b.checkpoint == EncodeCheckpoint(meta, c)
    requires InspectParsed(sha, b, m, meta, c) == Some(m)
    ensures Sealable(sha, meta, c, m.createdEpochMillis, m.requestId)
    ensures m == SealedManifest(sha, meta, c, m.createdEpochMillis, m.requestId)
  {
    hide EncodeMetadata, EncodeCheckpoint, MetadataFits, CheckpointFits, ContentPreimage, Pow256, Utf8;
    var p, q := MemberValues(CHECKPOINT_MEMBER, m.checkpoint), MemberValues(METADATA_MEMBER, m.metadata);
    assert Fits(MEMBER_LAYOUT[1], p[1]) && Fits(MEMBER_LAYOUT[1], q[1]);
    var v := TrailerValues(m);
    assert Fits(TRAILER_LAYOUT[1], v[1]) && Fits(TRAILER_LAYOUT[2], v[2]);
  }

  /** The accepted bundles are exactly the sealed ones. */
  lemma AcceptedExactly(sha: Hash, b: Bundle, m: Manifest)
    ensures InspectBundle(sha, b) == Some(m)
            <==> exists meta, c :: && Sealable(sha, meta, c, m.createdEpochMillis, m.requestId)
                                   && b == Seal(sha, meta, c, m.createdEpochMillis, m.requestId)
                                   && m == SealedManifest(sha, meta, c, m.createdEpochMillis, m.requestId)
  {
    hide ParseManifest, ParseMetadata, ParseCheckpoint, InspectParsed, SealedManifest, ManifestFits;
    hide MetadataFits, CheckpointFits, EncodeManifest, EncodeMetadata, EncodeCheckpoint, Sealable;
    if InspectBundle(sha, b) == Some(m) {
      ManifestDecodes(b.manifest);
      var parsed, meta := ParseManifest(b.manifest).value, ParseMetadata(b.metadata).value;
      var c := ParseCheckpoint(b.checkpoint, meta).value;
      MetadataDecodes(b.metadata);
      CheckpointDecodes(b.checkpoint, meta);
      InspectedIsParsed(sha, b, parsed, meta, c);
      PartsAreSealable(sha, b, m, meta, c);
    }
    if meta, c :| && Sealable(sha, meta, c, m.createdEpochMillis, m.requestId)
                  && b == Seal(sha, meta, c, m.createdEpochMillis, m.requestId)
                  && m == SealedManifest(sha, meta, c, m.createdEpochMillis, m.requestId)
    {
      SealedIsAccepted(sha, meta, c, m.createdEpochMillis, m.requestId);
    }
  }

  lemma InspectedIsParsed(sha: Hash, b: Bundle, m: Manifest, meta: Metadata, c: Checkpoint)
    requires ManifestFits(m) && InspectParsed(sha, b, m, meta, c).Some?
    ensures InspectParsed(sha, b, m, meta, c) == Some(m)
  {
  }
}
