/**
 The (1,1) formats: the capability profile every member is bound to, and the backup inspector
 with its profile-bound content identity.
 */
module StorageFormat11 {
  import opened Orders
  import opened Bytes
  import opened Options
  import opened Crc32c
  import opened Layouts
  import opened StorageParts
  import opened BackupFormat
  import opened BackupPayloads
  import opened ContentIdentity

  const PROFILE_DOMAIN: seq<byte> := Ascii("gse-durable-format-profile-v1\0")
  const CONTENT_DOMAIN_2: seq<byte> := Ascii("gse-backup-content-v2\0")

  // ---- the capability profile ----

  const CAPABILITY_TEXT := Text(1, 128)

  const CAPABILITIES: seq<Value> := [
    Blob(Ascii("canonical-documents-v1")), Blob(Ascii("checkpoint-authority-v1")), Blob(Ascii("crc32c-wal-v1")),
    Blob(Ascii("logical-index-config-v1")), Blob(Ascii("sha256-profile-binding-v1"))]

  function Copies(n: nat): (l: Layout)
    ensures |l| == n && forall i :: 0 <= i < n ==> l[i] == CAPABILITY_TEXT
  {
    seq(n, _ => CAPABILITY_TEXT)
  }

  predicate LowerOrDigit(b: byte) { 0x61 <= b <= 0x7A || 0x30 <= b <= 0x39 }

  /** The capability pattern: lower-case letters, digits and inner or trailing hyphens. */
  predicate Capability(s: seq<byte>) {
    1 <= |s| <= 128 && LowerOrDigit(s[0]) && forall i :: 0 <= i < |s| ==> LowerOrDigit(s[i]) || s[i] == 0x2D
  }

  predicate ByteBefore(a: byte, b: byte) { a < b }

  predicate CapabilityList(v: seq<Value>) {
    && (forall i :: 0 <= i < |v| ==> v[i].Blob? && Capability(v[i].s))
    && forall i :: 0 < i < |v| ==> Before(v[i - 1].s, v[i].s, ByteBefore)
  }

  function ReadCapabilities(s: seq<byte>): Option<(seq<Value>, seq<byte>)> {
    match DecodeInt(4, false, s)
    case None => None
    case Some((count, more)) =>
      if !(0 <= count <= 64) then None
      else match Decode(Copies(count), more)
        case None => None
        case Some((v, rest)) => if CapabilityList(v) then Some((v, rest)) else None
  }

  predicate ProfileFits(v: seq<Value>) { |v| <= 64 && CapabilityList(v) }

  lemma ProfileAllFit(v: seq<Value>)
    requires ProfileFits(v)
    ensures AllFit(Copies(|v|), v)
  {
    IntegerBounds();
    hide Pow256, Utf8;
    forall i | 0 <= i < |v| ensures Fits(CAPABILITY_TEXT, v[i]) {
      assert Capability(v[i].s);
      AsciiIsUtf8(v[i].s);
    }
  }

  function EncodeCapabilities(v: seq<Value>): seq<byte>
    requires ProfileFits(v)
  {
    ProfileAllFit(v);
    Digits(|v|, 4) + Encode(Copies(|v|), v)
  }

  function ProfileBytes(required: seq<Value>, optional: seq<Value>): seq<byte>
    requires ProfileFits(required) && ProfileFits(optional)
  {
    EncodeCapabilities(required) + EncodeCapabilities(optional)
  }

  /** A capability list is read back exactly when it is the canonical encoding. */
  lemma CapabilitiesCodec(s: seq<byte>, v: seq<Value>, rest: seq<byte>)
    ensures ReadCapabilities(s) == Some((v, rest)) <==> ProfileFits(v) && s == EncodeCapabilities(v) + rest
  {
    hide CapabilityList, Fits, Encode, Decode;
    IntegerBounds();
    if ReadCapabilities(s) == Some((v, rest)) {
      var (count, more) := DecodeInt(4, false, s).value;
      IntCodec(4, false, s, count, more);
      LayoutDecodes(Copies(count), more);
      Associates(Digits(count, 4), Encode(Copies(count), v), rest);
    } else if ProfileFits(v) && s == EncodeCapabilities(v) + rest {
      ProfileAllFit(v);
      CountFits(|v|);
      Associates(Digits(|v|, 4), Encode(Copies(|v|), v), rest);
      IntCodec(4, false, s, |v|, Encode(Copies(|v|), v) + rest);
      LayoutEncodes(Copies(|v|), v, rest);
    }
  }

  lemma CountFits(n: nat)
    requires n <= 64
    ensures Fits(Int(4, false), Number(n))
  {
    IntegerBounds();
  }

  function ProfileDigest(sha: Hash, profile: seq<byte>): Digest { sha(PROFILE_DOMAIN + profile) }

  predicate PlainName(t: string) {
    && 1 <= |t| <= 128 && 'a' <= t[0] <= 'z'
    && forall i :: 0 <= i < |t| ==> t[i] < 128 as char && ('a' <= t[i] <= 'z' || '0' <= t[i] <= '9' || t[i] == '-')
  }

  lemma CapabilityFromAscii(t: string)
    requires PlainName(t)
    ensures Capability(Ascii(t))
  {
  }

  lemma ShortNames()
    ensures Capability(CAPABILITIES[0].s) && Capability(CAPABILITIES[2].s) && Capability(CAPABILITIES[3].s)
  {
    hide Capability;
    CapabilityFromAscii("canonical-documents-v1");
    CapabilityFromAscii("crc32c-wal-v1");
    CapabilityFromAscii("logical-index-config-v1");
  }

  lemma LongNames()
    ensures Capability(CAPABILITIES[1].s) && Capability(CAPABILITIES[4].s)
  {
    hide Capability;
    CapabilityFromAscii("checkpoint-authority-v1");
    CapabilityFromAscii("sha256-profile-binding-v1");
  }

  lemma KnownOrder()
    ensures Before(CAPABILITIES[0].s, CAPABILITIES[1].s, ByteBefore)
            && Before(CAPABILITIES[1].s, CAPABILITIES[2].s, ByteBefore)
    ensures Before(CAPABILITIES[2].s, CAPABILITIES[3].s, ByteBefore)
            && Before(CAPABILITIES[3].s, CAPABILITIES[4].s, ByteBefore)
  {
    var v := CAPABILITIES;
    assert v[0].s[0] == v[1].s[0] == v[2].s[0];
    assert v[0].s[1..][0] < v[1].s[1..][0] < v[2].s[1..][0];
  }

  lemma KnownCapabilities()
    ensures ProfileFits(CAPABILITIES) && ProfileFits([])
  {
    ShortNames();
    LongNames();
    KnownOrder();
    hide Capability, Before, Ascii;
  }

  /** The required and the optional capabilities, and nothing more. */
  function ReadLists(encoded: seq<byte>): Option<(seq<Value>, seq<Value>)> {
    match ReadCapabilities(encoded)
    case None => None
    case Some((required, tail)) =>
      match ReadCapabilities(tail)
      case None => None
      case Some((optional, end)) => if end == [] then Some((required, optional)) else None
  }

  predicate KnownLists(required: seq<Value>, optional: seq<Value>) { required == CAPABILITIES && optional == [] }

  /** The required capabilities are the known ones and nothing else is listed. */
  predicate KnownEncoding(encoded: seq<byte>) {
    match ReadLists(encoded)
    case None => false
    case Some((required, optional)) => KnownLists(required, optional)
  }

  /** The bound profile at the front of `s`: a length, the profile and its digest. */
  function ReadProfile(sha: Hash, s: seq<byte>): Option<(seq<byte>, seq<byte>)> {
    match DecodeInt(4, false, s)
    case None => None
    case Some((length, more)) =>
      if length < 12 || length > 4096 || |more| < length + 32 then None
      else
        var encoded, observed := more[..length], more[length..length + 32];
        if observed != ProfileDigest(sha, encoded) || !KnownEncoding(encoded) then None
        else Some((observed, more[length + 32..]))
  }

  /** The one profile this version understands. */
  function KnownProfile(): seq<byte> {
    KnownCapabilities();
    ProfileBytes(CAPABILITIES, [])
  }

  lemma KnownProfileParts(encoded: seq<byte>)
    ensures KnownEncoding(encoded) <==> encoded == KnownProfile()
  {
    KnownCapabilities();
    hide ReadCapabilities, EncodeCapabilities, ProfileFits;
    var t := EncodeCapabilities([]);
    CapabilitiesCodec(t, [], []);
    assert t + [] == t;
    CapabilitiesCodec(encoded, CAPABILITIES, t);
    if KnownEncoding(encoded) {
      var tail := ReadCapabilities(encoded).value.1;
      CapabilitiesCodec(tail, [], []);
      CapabilitiesCodec(encoded, CAPABILITIES, tail);
    }
  }

  lemma KnownProfileSize()
    ensures 12 <= |KnownProfile()| <= 4096
  {
    KnownCapabilities();
    ProfileAllFit(CAPABILITIES);
    ProfileAllFit([]);
    LayoutAtMost(Copies(5), CAPABILITIES);
    EncodeSize(Copies(5), CAPABILITIES, 0);
    assert Copies(5)[0..] == Copies(5) && CAPABILITIES[0..] == CAPABILITIES;
    hide CapabilityList;
  }

  lemma ProfileDecodes(sha: Hash, s: seq<byte>)
    requires ReadProfile(sha, s).Some?
    ensures var (digest, rest) := ReadProfile(sha, s).value;
            digest == ProfileDigest(sha, KnownProfile()) && s == ProfileField(sha, rest)
  {
    hide KnownEncoding, KnownProfile, ProfileDigest, DecodeInt, Digits;
    var (length, more) := DecodeInt(4, false, s).value;
    IntCodec(4, false, s, length, more);
    var encoded := more[..length];
    KnownProfileParts(encoded);
    assert more == encoded + (more[length..length + 32] + more[length + 32..]);
  }

  lemma ProfileEncodes(sha: Hash, rest: seq<byte>)
    ensures ReadProfile(sha, ProfileField(sha, rest)) == Some((ProfileDigest(sha, KnownProfile()), rest))
  {
    KnownProfileSize();
    IntegerBounds();
    hide KnownEncoding, KnownProfile, ProfileDigest;
    var p, digest := KnownProfile(), ProfileDigest(sha, KnownProfile());
    KnownProfileParts(p);
    var more := p + (digest + rest);
    IntCodec(4, false, Digits(|p|, 4) + more, |p|, more);
    assert more[..|p|] == p && more[|p|..|p| + 32] == digest && more[|p| + 32..] == rest;
  }

  /** The known profile with its length and digest, then `rest`. */
  function ProfileField(sha: Hash, rest: seq<byte>): seq<byte> {
    Digits(|KnownProfile()|, 4) + (KnownProfile() + (ProfileDigest(sha, KnownProfile()) + rest))
  }

  /** The profile field has one accepted form, whatever follows it. */
  lemma ProfileIsCanonical(sha: Hash, s: seq<byte>, digest: seq<byte>, rest: seq<byte>)
    ensures ReadProfile(sha, s) == Some((digest, rest))
            <==> digest == ProfileDigest(sha, KnownProfile()) && s == ProfileField(sha, rest)
  {
    if ReadProfile(sha, s) == Some((digest, rest)) {
      ProfileDecodes(sha, s);
    } else if digest == ProfileDigest(sha, KnownProfile()) && s == ProfileField(sha, rest) {
      ProfileEncodes(sha, rest);
    }
  }

  // ---- metadata and checkpoint ----

  const NAME_11 := Text(1, 128)
  const INDEX_SHAPE_11 := IndexShape(false, 1, 1024, 128)

  datatype Metadata11 = Metadata11(
    historyMost: int, historyLeast: int, profileDigest: seq<byte>,
    storageIdentity: seq<byte>, schemaIdentity: seq<byte>, codecIdentity: seq<byte>, limits: Limits,
      indexes: seq<Index>)

  const METADATA_HEAD_11: Layout := [U64, S16, S16, U64, U64, NAME_11]
  const METADATA_NAMES_11: Layout := [NAME_11, NAME_11, NAME_11]

  predicate MetadataHeadOk(h: seq<Value>)
    requires AllFit(METADATA_HEAD_11, h)
  {
    h[0].n == METADATA_MAGIC && h[1].n == 1 && h[2].n == 1 && h[5].s == SOURCE_FAMILY
  }

  /** How often a loop over a range of signed length runs. */
  function Times(n: int): nat { if n < 0 then 0 else n }

  function ParseLimits11(s: seq<byte>): Option<(Limits, seq<Index>)> {
    match Decode(LIMITS_LAYOUT, s)
    case None => None
    case Some((v, rest)) =>
      LayoutDecodes(LIMITS_LAYOUT, s);
      if !LimitsOk(LimitsOf(v)) || v[7].n > 100_000 then None
      else match DecodeIndexes(INDEX_SHAPE_11, false, Times(v[7].n), rest)
        case None => None
        case Some((indexes, end)) => if end != [] then None else Some((LimitsOf(v), indexes))
  }

  /** The three identities and what follows them. */
  function ParseIdentities11(s: seq<byte>): Option<((seq<byte>, seq<byte>, seq<byte>), (Limits, seq<Index>))> {
    match Decode(METADATA_NAMES_11, s)
    case None => None
    case Some((v, rest)) =>
      LayoutDecodes(METADATA_NAMES_11, s);
      match ParseLimits11(rest)
      case None => None
      case Some(limits) => Some(((v[0].s, v[1].s, v[2].s), limits))
  }

  function ParseMetadata11(sha: Hash, data: seq<byte>): Option<Metadata11> {
    match Unchecked(data, 64)
    case None => None
    case Some(body) =>
      match Decode(METADATA_HEAD_11, body)
      case None => None
      case Some((h, s)) =>
        LayoutDecodes(METADATA_HEAD_11, body);
        if !MetadataHeadOk(h) then None
        else match ReadProfile(sha, s)
          case None => None
          case Some((digest, s1)) =>
            match ParseIdentities11(s1)
            case None => None
            case Some(((storage, schema, codec), (limits, indexes))) =>
              Some(Metadata11(h[3].n, h[4].n, digest, storage, schema, codec, limits, indexes))
  }

  const CHECKPOINT_HEAD_11: Layout := [U64, S16, S16, U64, U64, Raw(32), S64, S32, S32, S32]

  predicate CheckpointHeadOk11(h: seq<Value>, m: Metadata11)
    requires AllFit(CHECKPOINT_HEAD_11, h)
  {
    && h[0].n == CHECKPOINT_MAGIC && h[1].n == 1 && h[2].n == 1
    && h[3].n == m.historyMost && h[4].n == m.historyLeast && h[5].s == m.profileDigest
  }

  // Lengths are bounded by the signed four-byte count alone.
  const ANY_SLOT := SlotBounds(0x7FFF_FFFF, 0x7FFF_FFFF)

  /** The slot table of a checkpoint that must end the file. */
  function ParseSlots11(nextDocId: int, live: int, s: seq<byte>): bool {
    match DecodeInt(4, true, s)
    case None => false
    case Some((slotCount, more)) =>
      match DecodeSlots(ANY_SLOT, Times(slotCount), more)
      case None => false
      case Some((slots, end)) => end == [] && slotCount == nextDocId && CountLive(slots) == live
  }

  /** The sequence number of an accepted checkpoint. */
  function ParseCheckpoint11(data: seq<byte>, m: Metadata11): Option<int> {
    match Unchecked(data, 88)
    case None => None
    case Some(body) =>
      match Decode(CHECKPOINT_HEAD_11, body)
      case None => None
      case Some((h, s)) =>
        LayoutDecodes(CHECKPOINT_HEAD_11, body);
        if !CheckpointHeadOk11(h, m) then None
        else match DecodeIndexes(INDEX_SHAPE_11, false, Times(h[9].n), s)
          case None => None
          case Some((indexes, s1)) =>
            if !ParseSlots11(h[7].n, h[8].n, s1) || h[6].n < 0 || indexes != m.indexes then None else Some(h[6].n)
  }

  // ---- the backup manifest ----

  const PREFIX_LAYOUT_11: Layout := [U64, S16, S16, NAME_11, NAME_11, S16, S16, Raw(32)]
  const IDENTITY_LAYOUT_11: Layout := [U64, U64, S64, NAME_11, NAME_11, NAME_11, S32]

  function PrefixValues11(sha: Hash): seq<Value> {
    [Number(BACKUP_MAGIC), Number(1), Number(1), Blob(BACKUP_FAMILY), Blob(SOURCE_FAMILY), Number(1), Number(1),
     Blob(ProfileDigest(sha, KnownProfile()))]
  }

  lemma NonemptyNames(v: seq<Value>)
    requires AllFit(IDENTITY_LAYOUT_11, v)
    ensures AllFit(IDENTITY_LAYOUT, v)
  {
    hide Utf8, Pow256;
    forall i | 0 <= i < 7 ensures Fits(IDENTITY_LAYOUT[i], v[i]) {
      assert Fits(IDENTITY_LAYOUT_11[i], v[i]);
    }
  }

  function ParseIdentity11(s: seq<byte>): Option<Manifest> {
    match Decode(IDENTITY_LAYOUT_11, s)
    case None => None
    case Some((v, s1)) =>
      LayoutDecodes(IDENTITY_LAYOUT_11, s);
      NonemptyNames(v);
      match DecodeInt(4, false, s1)
      case None => None
      case Some((count, s2)) =>
        var x := IdentityOf(v);
        if x.sequence < 0 || x.codecVersion < 0 || count != 2 then None
        else match ParsePayloads(x, s2)
          case None => None
          case Some(m) => if m.createdEpochMillis < 0 then None else Some(m)
  }

  function ParseManifest11(sha: Hash, data: seq<byte>): Option<Manifest> {
    match Unchecked(data, 160)
    case None => None
    case Some(body) =>
      match Decode(PREFIX_LAYOUT_11, body)
      case None => None
      case Some((v, s)) => if v != PrefixValues11(sha) then None else ParseIdentity11(s)
  }

  lemma ManifestFits11(s: seq<byte>)
    requires ParseIdentity11(s).Some?
    ensures ManifestFits(ParseIdentity11(s).value)
  {
    hide ParsePayloads, PayloadBytes;
    LayoutDecodes(IDENTITY_LAYOUT_11, s);
    var (v, s1) := Decode(IDENTITY_LAYOUT_11, s).value;
    NonemptyNames(v);
    IdentityRoundTrip(v);
    PayloadsDecode(IdentityOf(v), DecodeInt(4, false, s1).value.1);
  }

  // ---- content identity ----

  const FAMILY_LAYOUT_11: Layout := [STRING, S16, S16, STRING, S16, S16, Raw(32)]

  function FamilyValues11(profile: Digest): seq<Value> {
    [Blob(BACKUP_FAMILY), Number(1), Number(1), Blob(SOURCE_FAMILY), Number(1), Number(1), Blob(profile)]
  }

  predicate Hashable11(x: Identity, ds: seq<Described>) {
    AllFit(CONTENT_LAYOUT, IdentityValues(x)) && InUnsigned(|ds|, 4) && AllDescribable(ds)
  }

  lemma FamilyFits11(profile: Digest)
    ensures AllFit(FAMILY_LAYOUT_11, FamilyValues11(profile))
  {
    FamilyFits();
    IntegerBounds();
    hide Pow256, Utf8, Ascii;
    assert Fits(STRING, Blob(BACKUP_FAMILY)) && Fits(STRING, Blob(SOURCE_FAMILY));
  }

  function FamilyBytes11(profile: Digest): seq<byte> {
    FamilyFits11(profile);
    Encode(FAMILY_LAYOUT_11, FamilyValues11(profile))
  }

  function BackupPreimage(profile: Digest, x: Identity, ds: seq<Described>): seq<byte>
    requires Hashable11(x, ds)
  {
    CONTENT_DOMAIN_2 + (FamilyBytes11(profile)
                        + (Encode(CONTENT_LAYOUT, IdentityValues(x)) + (Digits(|ds|, 4) + EncodeDescribed(ds))))
  }

  /** Two different profiles, identities or payload lists never hash the same bytes. */
  lemma BackupPreimageInjective(p: Digest, x: Identity, ds: seq<Described>, q: Digest, y: Identity, es: seq<Described>)
    requires Hashable11(x, ds) && Hashable11(y, es) && BackupPreimage(p, x, ds) == BackupPreimage(q, y, es)
    ensures p == q && x == y && ds == es
  {
    FamilyFits11(p);
    FamilyFits11(q);
    hide AllFit, Encode, EncodeDescribed, AllDescribable;
    var c, d := Digits(|ds|, 4) + EncodeDescribed(ds), Digits(|es|, 4) + EncodeDescribed(es);
    var a, b := Encode(CONTENT_LAYOUT, IdentityValues(x)), Encode(CONTENT_LAYOUT, IdentityValues(y));
    DropPrefix(CONTENT_DOMAIN_2, FamilyBytes11(p) + (a + c), FamilyBytes11(q) + (b + d));
    EncodeInjective(FAMILY_LAYOUT_11, FamilyValues11(p), a + c, FamilyValues11(q), b + d);
    assert FamilyValues11(p)[6] == FamilyValues11(q)[6];
    EncodeInjective(CONTENT_LAYOUT, IdentityValues(x), c, IdentityValues(y), d);
    IdentityValuesInjective(x, y);
    CountedInjective(ds, es);
  }

  /** The two format versions never hash the same bytes. */
  lemma VersionsNeverHashAlike(f: Fields, ds: seq<Described>, p: Digest, y: Identity, es: seq<Described>)
    requires Hashable(f, ds) && Hashable11(y, es)
    ensures ContentPreimage(f, ds) != BackupPreimage(p, y, es)
  {
    hide Encode, EncodeDescribed, AllDescribable, AllFit, Digits;
    var a, b := ContentPreimage(f, ds), BackupPreimage(p, y, es);
    assert a[20] == CONTENT_DOMAIN[20] && b[20] == CONTENT_DOMAIN_2[20];
  }

  function Preimage11(sha: Hash, m: Manifest): seq<byte>
    requires ManifestFits(m)
  {
    BundleIsHashable(m.identity, m.checkpoint, m.metadata);
    BackupPreimage(ProfileDigest(sha, KnownProfile()), m.identity, Payloads(m.checkpoint, m.metadata))
  }

  function InspectParsed11(sha: Hash, b: Bundle, m: Manifest, meta: Metadata11, sequence: int): Option<Manifest>
    requires ManifestFits(m)
  {
    if m.checkpoint != Fingerprint(sha, b.checkpoint) || m.metadata != Fingerprint(sha, b.metadata) then None
    else if m.identity.historyMost != meta.historyMost || m.identity.historyLeast != meta.historyLeast then None
    else if meta.profileDigest != ProfileDigest(sha, KnownProfile()) then None
    else if m.identity.sequence != sequence || sha(Preimage11(sha, m)) != m.contentDigest then None
    else Some(m)
  }

  function InspectMembers11(sha: Hash, b: Bundle, m: Manifest): Option<Manifest>
    requires ManifestFits(m)
  {
    match ParseMetadata11(sha, b.metadata)
    case None => None
    case Some(meta) =>
      match ParseCheckpoint11(b.checkpoint, meta)
      case None => None
      case Some(sequence) => InspectParsed11(sha, b, m, meta, sequence)
  }

  lemma ManifestParses11(sha: Hash, data: seq<byte>)
    requires ParseManifest11(sha, data).Some?
    ensures ManifestFits(ParseManifest11(sha, data).value)
  {
    var body := Unchecked(data, 160).value;
    ManifestFits11(Decode(PREFIX_LAYOUT_11, body).value.1);
  }

  /** The manifest of an accepted bundle. */
  function InspectBackup(sha: Hash, b: Bundle): Option<Manifest> {
    match ParseManifest11(sha, b.manifest)
    case None => None
    case Some(m) =>
      ManifestParses11(sha, b.manifest);
      InspectMembers11(sha, b, m)
  }

  /** Two accepted (1,1) bundles with one content identity have the same payload bytes and
      identity fields, or exhibit a hash collision. */
  lemma BackupIdentityBinds(sha: Hash, a: Bundle, b: Bundle)
    requires InspectBackup(sha, a).Some? && InspectBackup(sha, b).Some?
    requires InspectBackup(sha, a).value.contentDigest == InspectBackup(sha, b).value.contentDigest
    ensures var m, n := InspectBackup(sha, a).value, InspectBackup(sha, b).value;
            && ManifestFits(m) && ManifestFits(n)
            && (|| (a.checkpoint == b.checkpoint && a.metadata == b.metadata
                    && m == n.(createdEpochMillis := m.createdEpochMillis, requestId := m.requestId))
                || Collision(sha, a.checkpoint, b.checkpoint)
                || Collision(sha, a.metadata, b.metadata)
                || Collision(sha, Preimage11(sha, m), Preimage11(sha, n)))
  {
    ManifestParses11(sha, a.manifest);
    ManifestParses11(sha, b.manifest);
    hide ParseManifest11, ParseMetadata11, ParseCheckpoint11, ManifestFits;
    var m, n := InspectBackup(sha, a).value, InspectBackup(sha, b).value;
    if Preimage11(sha, m) == Preimage11(sha, n) {
      EqualPreimages11(sha, m, n);
    }
  }

  lemma EqualPreimages11(sha: Hash, m: Manifest, n: Manifest)
    requires ManifestFits(m) && ManifestFits(n) && Preimage11(sha, m) == Preimage11(sha, n)
    ensures m.identity == n.identity && m.checkpoint == n.checkpoint && m.metadata == n.metadata
  {
    BundleIsHashable(m.identity, m.checkpoint, m.metadata);
    BundleIsHashable(n.identity, n.checkpoint, n.metadata);
    hide ManifestFits, BackupPreimage, AllFit, AllDescribable;
    var ds, es := Payloads(m.checkpoint, m.metadata), Payloads(n.checkpoint, n.metadata);
    var profile := ProfileDigest(sha, KnownProfile());
    BackupPreimageInjective(profile, m.identity, ds, profile, n.identity, es);
    assert ds[0] == es[0] && ds[1] == es[1];
  }

  // ---- the parsers as they run ----

  method ReadCapabilityList(cursor: Cursor) returns (r: Option<seq<Value>>)
    requires cursor.Valid()
    modifies cursor
    ensures cursor.Valid()
    ensures r.Some? <==> ReadCapabilities(old(cursor.Rest())).Some?
    ensures r.Some? ==> ReadCapabilities(old(cursor.Rest())) == Some((r.value, cursor.Rest()))
  {
    hide Decode, DecodeInt, CapabilityList;
    var count := cursor.ReadInt(4, false);
    if count.None? || !(0 <= count.value <= 64) { return None; }
    var v := cursor.ReadFields(Copies(count.value));
    if v.None? || !CapabilityList(v.value) { return None; }
    r := v;
  }

  method ReadProfileField(sha: Hash, cursor: Cursor) returns (r: Option<seq<byte>>)
    requires cursor.Valid()
    modifies cursor
    ensures cursor.Valid()
    ensures r.Some? <==> ReadProfile(sha, old(cursor.Rest())).Some?
    ensures r.Some? ==> ReadProfile(sha, old(cursor.Rest())) == Some((r.value, cursor.Rest()))
  {
    hide DecodeInt, KnownEncoding;
    var length := cursor.ReadInt(4, false);
    if length.None? || length.value < 12 || length.value > 4096 { return None; }
    ghost var more := cursor.Rest();
    var encoded := cursor.Read(length.value);
    if encoded.None? { return None; }
    var observed := cursor.Read(32);
    if observed.None? { return None; }
    SplitTwice(more, encoded.value, observed.value, cursor.Rest());
    if observed.value != ProfileDigest(sha, encoded.value) { return None; }
    var known := CheckEncoding(encoded.value);
    if !known { return None; }
    r := observed;
  }

  lemma BothLists(s: seq<byte>, required: seq<Value>, tail: seq<byte>, optional: seq<Value>, end: seq<byte>)
    requires ReadCapabilities(s) == Some((required, tail)) && ReadCapabilities(tail) == Some((optional, end))
    ensures ReadLists(s) == if |end| == 0 then Some((required, optional)) else None
  {
    hide ReadCapabilities;
  }

  lemma NoLists(s: seq<byte>)
    ensures ReadCapabilities(s).None? ==> ReadLists(s).None?
    ensures ReadCapabilities(s).Some? && ReadCapabilities(ReadCapabilities(s).value.1).None? ==> ReadLists(s).None?
  {
    hide ReadCapabilities;
  }

  method ReadBothLists(encoded: seq<byte>) returns (r: Option<(seq<Value>, seq<Value>)>)
    ensures r == ReadLists(encoded)
  {
    hide ReadCapabilities, ReadLists;
    var profile := new Cursor(encoded);
    var required := ReadCapabilityList(profile);
    if required.None? {
      NoLists(encoded);
      return None;
    }
    ghost var tail := profile.Rest();
    var optional := ReadCapabilityList(profile);
    if optional.None? {
      NoLists(encoded);
      return None;
    }
    BothLists(encoded, required.value, tail, optional.value, profile.Rest());
    if profile.offset != |profile.data| { return None; }
    r := Some((required.value, optional.value));
  }

  method CheckEncoding(encoded: seq<byte>) returns (ok: bool)
    ensures ok == KnownEncoding(encoded)
  {
    hide ReadLists, KnownLists;
    var lists := ReadBothLists(encoded);
    ok := lists.Some? && KnownLists(lists.value.0, lists.value.1);
  }

  lemma SplitTwice(s: seq<byte>, a: seq<byte>, b: seq<byte>, rest: seq<byte>)
    requires s == a + (b + rest)
    ensures s[..|a|] == a && s[|a|..|a| + |b|] == b && s[|a| + |b|..] == rest
  {
  }

  method ReadLimits11(cursor: Cursor) returns (r: Option<(Limits, seq<Index>)>)
    requires cursor.Valid()
    modifies cursor
    ensures cursor.Valid() && r == ParseLimits11(old(cursor.Rest()))
  {
    hide Decode, DecodeIndexes;
    ghost var s := cursor.Rest();
    var limits := cursor.ReadFields(LIMITS_LAYOUT);
    if limits.None? { return None; }
    LayoutDecodes(LIMITS_LAYOUT, s);
    var v := limits.value;
    if !LimitsOk(LimitsOf(v)) || v[7].n > 100_000 { return None; }
    var indexes := ReadIndexes(cursor, INDEX_SHAPE_11, false, Times(v[7].n));
    if indexes.None? || cursor.offset != |cursor.data| { return None; }
    assert cursor.Rest() == [];
    r := Some((LimitsOf(v), indexes.value));
  }

  method ReadIdentities11(cursor: Cursor) returns (r: Option<((seq<byte>, seq<byte>, seq<byte>), (Limits, seq<Index>))>)
    requires cursor.Valid()
    modifies cursor
    ensures cursor.Valid() && r == ParseIdentities11(old(cursor.Rest()))
  {
    hide Decode, ParseLimits11;
    ghost var s := cursor.Rest();
    var v := cursor.ReadFields(METADATA_NAMES_11);
    if v.None? { return None; }
    LayoutDecodes(METADATA_NAMES_11, s);
    var limits := ReadLimits11(cursor);
    if limits.None? { return None; }
    r := Some(((v.value[0].s, v.value[1].s, v.value[2].s), limits.value));
  }

  method ParseMetadataFile11(sha: Hash, data: seq<byte>) returns (r: Option<Metadata11>)
    ensures r == ParseMetadata11(sha, data)
  {
    hide Decode, ParseIdentities11, ReadProfile, Unsigned, Checksum, MetadataHeadOk;
    if |data| < 64 || Checksum(data[..|data| - 4]) != Unsigned(data[|data| - 4..]) { return None; }
    var cursor := new Cursor(data[..|data| - 4]);
    var h := cursor.ReadFields(METADATA_HEAD_11);
    if h.None? { return None; }
    LayoutDecodes(METADATA_HEAD_11, cursor.data);
    if !MetadataHeadOk(h.value) { return None; }
    var digest := ReadProfileField(sha, cursor);
    if digest.None? { return None; }
    var identities := ReadIdentities11(cursor);
    if identities.None? { return None; }
    var ((storage, schema, codec), (limits, indexes)) := identities.value;
    r := Some(Metadata11(h.value[3].n, h.value[4].n, digest.value, storage, schema, codec, limits, indexes));
  }

  method CheckSlots11(cursor: Cursor, nextDocId: int, live: int) returns (ok: bool)
    requires cursor.Valid()
    modifies cursor
    ensures cursor.Valid() && ok == ParseSlots11(nextDocId, live, old(cursor.Rest()))
  {
    hide DecodeSlots, DecodeInt;
    var slotCount := cursor.ReadInt(4, true);
    if slotCount.None? { return false; }
    var decoded, counted := ReadSlots(cursor, ANY_SLOT, Times(slotCount.value));
    ok := decoded && cursor.offset == |cursor.data| && slotCount.value == nextDocId && counted == live;
  }

  method ParseCheckpointFile11(data: seq<byte>, m: Metadata11) returns (r: Option<int>)
    ensures r == ParseCheckpoint11(data, m)
  {
    hide Decode, DecodeIndexes, ParseSlots11, Unsigned, Checksum, CheckpointHeadOk11;
    if |data| < 88 || Checksum(data[..|data| - 4]) != Unsigned(data[|data| - 4..]) { return None; }
    var cursor := new Cursor(data[..|data| - 4]);
    var head := cursor.ReadFields(CHECKPOINT_HEAD_11);
    if head.None? { return None; }
    LayoutDecodes(CHECKPOINT_HEAD_11, cursor.data);
    var h := head.value;
    if !CheckpointHeadOk11(h, m) { return None; }
    var indexes := ReadIndexes(cursor, INDEX_SHAPE_11, false, Times(h[9].n));
    if indexes.None? { return None; }
    var ok := CheckSlots11(cursor, h[7].n, h[8].n);
    if !ok || h[6].n < 0 || indexes.value != m.indexes { return None; }
    r := Some(h[6].n);
  }

  method ParseManifestFile11(sha: Hash, data: seq<byte>) returns (r: Option<Manifest>)
    ensures r == ParseManifest11(sha, data)
  {
    hide Decode, DecodeMember, Unsigned, Checksum, PrefixValues11;
    if |data| < 160 || Checksum(data[..|data| - 4]) != Unsigned(data[|data| - 4..]) { return None; }
    var cursor := new Cursor(data[..|data| - 4]);
    var prefix := cursor.ReadFields(PREFIX_LAYOUT_11);
    if prefix.None? || prefix.value != PrefixValues11(sha) { return None; }
    r := ReadIdentity11(cursor);
  }

  method ReadIdentity11(cursor: Cursor) returns (r: Option<Manifest>)
    requires cursor.Valid()
    modifies cursor
    ensures cursor.Valid() && r == ParseIdentity11(old(cursor.Rest()))
  {
    hide Decode, ParsePayloads, DecodeInt;
    ghost var s := cursor.Rest();
    var v := cursor.ReadFields(IDENTITY_LAYOUT_11);
    if v.None? { return None; }
    LayoutDecodes(IDENTITY_LAYOUT_11, s);
    NonemptyNames(v.value);
    var count := cursor.ReadInt(4, false);
    if count.None? || count.value != 2 { return None; }
    var identity := IdentityOf(v.value);
    if identity.sequence < 0 || identity.codecVersion < 0 { return None; }
    r := ReadPayloads(cursor, identity);
    if r.Some? && r.value.createdEpochMillis < 0 { return None; }
  }

  /** The inspector as it runs, on the three files of a directory. */
  method InspectBackupFiles(sha: Hash, files: map<string, seq<byte>>) returns (r: Option<Manifest>)
    ensures r == match BundleIn(files) case None => None case Some(b) => InspectBackup(sha, b)
  {
    hide ParseManifest11, ParseMetadata11, ParseCheckpoint11, Preimage11, ManifestFits;
    if files.Keys != MEMBERS { return None; }
    var b := Bundle(files["gse-backup-checkpoint"], files["gse-backup-metadata"], files["gse-backup-manifest"]);
    var m := ParseManifestFile11(sha, b.manifest);
    if m.None? { return None; }
    ManifestParses11(sha, b.manifest);
    var meta := ParseMetadataFile11(sha, b.metadata);
    if meta.None? { return None; }
    var sequence := ParseCheckpointFile11(b.checkpoint, meta.value);
    if sequence.None? { return None; }
    r := InspectParsed11(sha, b, m.value, meta.value, sequence.value);
  }
}
