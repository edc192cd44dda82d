/**
 Which files the (1,1) inspector accepts: every byte form of a metadata file, a checkpoint and
 a manifest, and that sealing in-bound members gives an accepted bundle. A negative count
 stands for an empty list, so a file without indexes has more than one accepted form.
 */
module SealedBackup11 {
  import opened Bytes
  import opened Options
  import opened Crc32c
  import opened Layouts
  import opened StorageParts
  import opened BackupFormat
  import opened BackupPayloads
  import opened ContentIdentity
  import opened StorageFormat11

  // ---- metadata ----

  function HeadValues11(m: Metadata11): seq<Value> {
    [Number(METADATA_MAGIC), Number(1), Number(1), Number(m.historyMost), Number(m.historyLeast), Blob(SOURCE_FAMILY)]
  }

  function NameValues11(storage: seq<byte>, schema: seq<byte>, codec: seq<byte>): seq<Value> {
    [Blob(storage), Blob(schema), Blob(codec)]
  }

  /** `count` is written for the indexes: their number, or anything negative for none. */
  predicate LimitsFit11(limits: Limits, indexes: seq<Index>, count: int) {
    && AllFit(LIMITS_LAYOUT, LimitValues(limits, count)) && LimitsOk(limits) && count <= 100_000
    && Times(count) == |indexes| && IndexesFit(INDEX_SHAPE_11, false, indexes)
  }

  function LimitsBytes11(limits: Limits, indexes: seq<Index>, count: int): seq<byte>
    requires LimitsFit11(limits, indexes, count)
  {
    Encode(LIMITS_LAYOUT, LimitValues(limits, count)) + EncodeIndexes(INDEX_SHAPE_11, indexes)
  }

  lemma LimitsDecode11(s: seq<byte>) returns (count: int)
    requires ParseLimits11(s).Some?
    ensures var (limits, indexes) := ParseLimits11(s).value;
            LimitsFit11(limits, indexes, count) && s == LimitsBytes11(limits, indexes, count)
  {
    LayoutDecodes(LIMITS_LAYOUT, s);
    var (v, rest) := Decode(LIMITS_LAYOUT, s).value;
    count := v[7].n;
    IndexesDecode(INDEX_SHAPE_11, false, Times(count), rest);
    LimitsRoundTrip(v);
    hide Encode, Decode, EncodeIndexes, DecodeIndexes, IndexesFit;
    var indexes := ParseLimits11(s).value.1;
    assert EncodeIndexes(INDEX_SHAPE_11, indexes) + [] == EncodeIndexes(INDEX_SHAPE_11, indexes);
  }

  lemma LimitsEncode11(limits: Limits, indexes: seq<Index>, count: int)
    requires LimitsFit11(limits, indexes, count)
    ensures ParseLimits11(LimitsBytes11(limits, indexes, count)) == Some((limits, indexes))
  {
    var e := EncodeIndexes(INDEX_SHAPE_11, indexes);
    IndexesEncode(INDEX_SHAPE_11, false, indexes, []);
    assert e + [] == e;
    LayoutEncodes(LIMITS_LAYOUT, LimitValues(limits, count), e);
    hide Encode, Decode, EncodeIndexes, DecodeIndexes, IndexesFit;
  }

  predicate IdentitiesFit11(m: Metadata11, count: int) {
    && AllFit(METADATA_NAMES_11, NameValues11(m.storageIdentity, m.schemaIdentity, m.codecIdentity))
    && LimitsFit11(m.limits, m.indexes, count)
  }

  function IdentitiesBytes11(m: Metadata11, count: int): seq<byte>
    requires IdentitiesFit11(m, count)
  {
    Encode(METADATA_NAMES_11, NameValues11(m.storageIdentity, m.schemaIdentity, m.codecIdentity))
    + LimitsBytes11(m.limits, m.indexes, count)
  }

  function IdentitiesOf(m: Metadata11): ((seq<byte>, seq<byte>, seq<byte>), (Limits, seq<Index>)) {
    ((m.storageIdentity, m.schemaIdentity, m.codecIdentity), (m.limits, m.indexes))
  }

  lemma IdentitiesDecode11(s: seq<byte>, m: Metadata11) returns (count: int)
    requires ParseIdentities11(s) == Some(IdentitiesOf(m))
    ensures IdentitiesFit11(m, count) && s == IdentitiesBytes11(m, count)
  {
    hide ParseLimits11, LimitsFit11, LimitsBytes11, Encode, Decode, Utf8, Pow256;
    LayoutDecodes(METADATA_NAMES_11, s);
    var (v, rest) := Decode(METADATA_NAMES_11, s).value;
    count := LimitsDecode11(rest);
    assert Fits(METADATA_NAMES_11[0], v[0]) && Fits(METADATA_NAMES_11[1], v[1]) && Fits(METADATA_NAMES_11[2], v[2]);
    assert v == NameValues11(m.storageIdentity, m.schemaIdentity, m.codecIdentity);
  }

  lemma IdentitiesEncode11(m: Metadata11, count: int)
    requires IdentitiesFit11(m, count)
    ensures ParseIdentities11(IdentitiesBytes11(m, count)) == Some(IdentitiesOf(m))
  {
    hide ParseLimits11, LimitsFit11, LimitsBytes11, Encode, Decode, AllFit;
    LimitsEncode11(m.limits, m.indexes, count);
    var v := NameValues11(m.storageIdentity, m.schemaIdentity, m.codecIdentity);
    LayoutEncodes(METADATA_NAMES_11, v, LimitsBytes11(m.limits, m.indexes, count));
  }

  predicate MetadataFits11(sha: Hash, m: Metadata11, count: int) {
    && AllFit(METADATA_HEAD_11, HeadValues11(m)) && m.profileDigest == ProfileDigest(sha, KnownProfile())
    && IdentitiesFit11(m, count)
  }

  function EncodeMetadata11(sha: Hash, m: Metadata11, count: int): seq<byte>
    requires MetadataFits11(sha, m, count)
  {
    Checked(Encode(METADATA_HEAD_11, HeadValues11(m)) + ProfileField(sha, IdentitiesBytes11(m, count)))
  }

  lemma HeadRoundTrip11(h: seq<Value>, m: Metadata11)
    requires AllFit(METADATA_HEAD_11, h) && MetadataHeadOk(h) && m.historyMost == h[3].n && m.historyLeast == h[4].n
    ensures HeadValues11(m) == h
  {
    hide Utf8, Pow256, Ascii;
    assert forall i :: 0 <= i < 6 ==> Fits(METADATA_HEAD_11[i], h[i]);
  }

  lemma MetadataDecodes11(sha: Hash, data: seq<byte>, m: Metadata11) returns (count: int)
    requires ParseMetadata11(sha, data) == Some(m)
    ensures MetadataFits11(sha, m, count) && data == EncodeMetadata11(sha, m, count)
  {
    hide ParseIdentities11, IdentitiesBytes11, IdentitiesFit11, ReadProfile, ProfileField, Encode, Decode, Checksum;
    var body := Unchecked(data, 64).value;
    CheckedCodec(data, 64, body);
    LayoutDecodes(METADATA_HEAD_11, body);
    var (h, s) := Decode(METADATA_HEAD_11, body).value;
    ProfileDecodes(sha, s);
    count := IdentitiesDecode11(ReadProfile(sha, s).value.1, m);
    HeadRoundTrip11(h, m);
  }

  lemma HeadIsOk11(m: Metadata11)
    requires AllFit(METADATA_HEAD_11, HeadValues11(m))
    ensures MetadataHeadOk(HeadValues11(m))
  {
  }

  lemma HeadSize11(m: Metadata11)
    requires AllFit(METADATA_HEAD_11, HeadValues11(m))
    ensures |Encode(METADATA_HEAD_11, HeadValues11(m))| >= 28
  {
    var l, v := METADATA_HEAD_11, HeadValues11(m);
    EncodeSize(l, v, 0);
    EncodeSize(l, v, 1);
    EncodeSize(l, v, 2);
    EncodeSize(l, v, 3);
    EncodeSize(l, v, 4);
    assert l[0..] == l && v[0..] == v;
  }

  lemma ProfileFieldSize(sha: Hash, rest: seq<byte>)
    ensures |ProfileField(sha, rest)| >= 48
  {
    KnownProfileSize();
    hide KnownProfile, ProfileDigest;
  }

  lemma MetadataEncodes11(sha: Hash, m: Metadata11, count: int)
    requires MetadataFits11(sha, m, count)
    ensures ParseMetadata11(sha, EncodeMetadata11(sha, m, count)) == Some(m)
  {
    hide ParseIdentities11, IdentitiesBytes11, IdentitiesFit11, ReadProfile, ProfileField, KnownProfile;
    hide Encode, Decode, Checksum, AllFit, MetadataHeadOk;
    var s := IdentitiesBytes11(m, count);
    IdentitiesEncode11(m, count);
    ProfileEncodes(sha, s);
    ProfileFieldSize(sha, s);
    HeadSize11(m);
    HeadIsOk11(m);
    CheckedCodec(EncodeMetadata11(sha, m, count), 64,
                 Encode(METADATA_HEAD_11, HeadValues11(m)) + ProfileField(sha, s));
    LayoutEncodes(METADATA_HEAD_11, HeadValues11(m), ProfileField(sha, s));
  }

  /** The accepted metadata files, all of them. */
  lemma MetadataForms(sha: Hash, data: seq<byte>, m: Metadata11)
    ensures ParseMetadata11(sha, data) == Some(m)
            <==> exists count :: MetadataFits11(sha, m, count) && data == EncodeMetadata11(sha, m, count)
  {
    hide MetadataFits11, ParseMetadata11, EncodeMetadata11;
    if ParseMetadata11(sha, data) == Some(m) {
      var count := MetadataDecodes11(sha, data, m);
    }
    if count :| MetadataFits11(sha, m, count) && data == EncodeMetadata11(sha, m, count) {
      MetadataEncodes11(sha, m, count);
    }
  }

  // ---- checkpoint ----

  /** What a checkpoint file says beside the copy of the store's indexes; both counts are
      written as they stand. */
  datatype Checkpoint11 = Checkpoint11(sequence: int, slots: seq<Slot>, slotCount: int, indexCount: int)

  function CheckpointValues11(m: Metadata11, c: Checkpoint11): seq<Value> {
    [Number(CHECKPOINT_MAGIC), Number(1), Number(1), Number(m.historyMost), Number(m.historyLeast),
     Blob(m.profileDigest), Number(c.sequence), Number(c.slotCount), Number(CountLive(c.slots)), Number(c.indexCount)]
  }

  predicate SlotTableFits(c: Checkpoint11) {
    InSigned(c.slotCount, 4) && Times(c.slotCount) == |c.slots| && SlotsFit(ANY_SLOT, c.slots)
  }

  predicate CheckpointFits11(m: Metadata11, c: Checkpoint11) {
    && AllFit(CHECKPOINT_HEAD_11, CheckpointValues11(m, c)) && c.sequence >= 0
    && Times(c.indexCount) == |m.indexes| && IndexesFit(INDEX_SHAPE_11, false, m.indexes) && SlotTableFits(c)
  }

  function SlotTable(c: Checkpoint11): (s: seq<byte>)
    requires SlotTableFits(c)
  {
    SignedDigits(c.slotCount, 4) + EncodeSlots(ANY_SLOT, c.slots)
  }

  function EncodeCheckpoint11(m: Metadata11, c: Checkpoint11): seq<byte>
    requires CheckpointFits11(m, c)
  {
    Checked(Encode(CHECKPOINT_HEAD_11, CheckpointValues11(m, c))
            + (EncodeIndexes(INDEX_SHAPE_11, m.indexes) + SlotTable(c)))
  }

  lemma SlotTableDecodes(nextDocId: int, live: int, s: seq<byte>) returns (slots: seq<Slot>)
    requires ParseSlots11(nextDocId, live, s)
    ensures forall sequence, indexCount ::
              var c := Checkpoint11(sequence, slots, nextDocId, indexCount);
              SlotTableFits(c) && CountLive(slots) == live && s == SlotTable(c)
  {
    var (slotCount, more) := DecodeInt(4, true, s).value;
    IntCodec(4, true, s, slotCount, more);
    SlotsDecode(ANY_SLOT, Times(slotCount), more);
    slots := DecodeSlots(ANY_SLOT, Times(slotCount), more).value.0;
    hide EncodeSlots, DecodeSlots;
    assert EncodeSlots(ANY_SLOT, slots) + [] == EncodeSlots(ANY_SLOT, slots);
  }

  lemma SlotTableEncodes(c: Checkpoint11)
    requires SlotTableFits(c)
    ensures ParseSlots11(c.slotCount, CountLive(c.slots), SlotTable(c)) && |SlotTable(c)| >= 4
  {
    var e := EncodeSlots(ANY_SLOT, c.slots);
    SlotsEncode(ANY_SLOT, c.slots, []);
    assert e + [] == e;
    IntCodec(4, true, SlotTable(c), c.slotCount, e);
    hide EncodeSlots, DecodeSlots;
  }

  lemma CheckpointHeadRoundTrip11(h: seq<Value>, m: Metadata11, c: Checkpoint11)
    requires AllFit(CHECKPOINT_HEAD_11, h) && CheckpointHeadOk11(h, m) && CountLive(c.slots) == h[8].n
    requires c.sequence == h[6].n && c.slotCount == h[7].n && c.indexCount == h[9].n
    ensures CheckpointValues11(m, c) == h
  {
    hide Pow256;
    assert forall i :: 0 <= i < 10 ==> Fits(CHECKPOINT_HEAD_11[i], h[i]);
  }

  lemma CheckpointDecodes11(data: seq<byte>, m: Metadata11) returns (c: Checkpoint11)
    requires ParseCheckpoint11(data, m).Some?
    ensures CheckpointFits11(m, c) && data == EncodeCheckpoint11(m, c)
    ensures c.sequence == ParseCheckpoint11(data, m).value
  {
    hide ParseSlots11, SlotTable, SlotTableFits, Encode, Decode, Checksum, EncodeIndexes, DecodeIndexes;
    var body := Unchecked(data, 88).value;
    CheckedCodec(data, 88, body);
    LayoutDecodes(CHECKPOINT_HEAD_11, body);
    var (h, s) := Decode(CHECKPOINT_HEAD_11, body).value;
    IndexesDecode(INDEX_SHAPE_11, false, Times(h[9].n), s);
    var s1 := DecodeIndexes(INDEX_SHAPE_11, false, Times(h[9].n), s).value.1;
    var slots := SlotTableDecodes(h[7].n, h[8].n, s1);
    c := Checkpoint11(h[6].n, slots, h[7].n, h[9].n);
    CheckpointHeadRoundTrip11(h, m, c);
  }

  lemma CheckpointHeadFits11(m: Metadata11, c: Checkpoint11)
    requires AllFit(CHECKPOINT_HEAD_11, CheckpointValues11(m, c))
    ensures CheckpointHeadOk11(CheckpointValues11(m, c), m)
  {
  }

  lemma CheckpointTailSize11(v: seq<Value>)
    requires AllFit(CHECKPOINT_HEAD_11, v)
    ensures AllFit(CHECKPOINT_HEAD_11[5..], v[5..]) && |Encode(CHECKPOINT_HEAD_11[5..], v[5..])| == 52
  {
    EncodeSize(CHECKPOINT_HEAD_11, v, 5);
    EncodeSize(CHECKPOINT_HEAD_11, v, 6);
    EncodeSize(CHECKPOINT_HEAD_11, v, 7);
    EncodeSize(CHECKPOINT_HEAD_11, v, 8);
    EncodeSize(CHECKPOINT_HEAD_11, v, 9);
  }

  lemma CheckpointHeadSize11(v: seq<Value>)
    requires AllFit(CHECKPOINT_HEAD_11, v)
    ensures |Encode(CHECKPOINT_HEAD_11, v)| == 80
  {
    hide Encode;
    CheckpointTailSize11(v);
    var l := CHECKPOINT_HEAD_11;
    EncodeSize(l, v, 0);
    EncodeSize(l, v, 1);
    EncodeSize(l, v, 2);
    EncodeSize(l, v, 3);
    EncodeSize(l, v, 4);
    assert l[0..] == l && v[0..] == v;
  }

  lemma CheckpointEncodes11(m: Metadata11, c: Checkpoint11)
    requires CheckpointFits11(m, c)
    ensures ParseCheckpoint11(EncodeCheckpoint11(m, c), m) == Some(c.sequence)
  {
    hide ParseSlots11, SlotTable, SlotTableFits, AllFit, CheckpointHeadOk11, IndexesFit;
    hide Encode, Decode, Checksum, EncodeIndexes, DecodeIndexes;
    var v := CheckpointValues11(m, c);
    SlotTableEncodes(c);
    CheckpointHeadSize11(v);
    CheckpointHeadFits11(m, c);
    var s := EncodeIndexes(INDEX_SHAPE_11, m.indexes) + SlotTable(c);
    CheckedCodec(EncodeCheckpoint11(m, c), 88, Encode(CHECKPOINT_HEAD_11, v) + s);
    LayoutEncodes(CHECKPOINT_HEAD_11, v, s);
    IndexesEncode(INDEX_SHAPE_11, false, m.indexes, SlotTable(c));
  }

  /** The accepted checkpoints of the store `m`, all of them. */
  lemma CheckpointForms(data: seq<byte>, m: Metadata11, sequence: int)
    ensures ParseCheckpoint11(data, m) == Some(sequence)
            <==> exists c :: CheckpointFits11(m, c) && data == EncodeCheckpoint11(m, c) && c.sequence == sequence
  {
    hide CheckpointFits11, ParseCheckpoint11, EncodeCheckpoint11;
    if ParseCheckpoint11(data, m) == Some(sequence) {
      var c := CheckpointDecodes11(data, m);
    }
    if c :| CheckpointFits11(m, c) && data == EncodeCheckpoint11(m, c) && c.sequence == sequence {
      CheckpointEncodes11(m, c);
    }
  }

  // ---- manifest ----

  predicate ManifestInBounds11(m: Manifest) {
    ManifestFits(m) && AllFit(IDENTITY_LAYOUT_11, IdentityValues(m.identity)) && m.createdEpochMillis >= 0
  }

  function IdentityBytes11(m: Manifest): seq<byte>
    requires ManifestInBounds11(m)
  {
    Encode(IDENTITY_LAYOUT_11, IdentityValues(m.identity)) + (Digits(2, 4) + PayloadBytes(m))
  }

  lemma PrefixFits11(sha: Hash)
    ensures AllFit(PREFIX_LAYOUT_11, PrefixValues11(sha))
  {
    FamilyFits();
    IntegerBounds();
    hide Pow256, Utf8, Ascii, KnownProfile, ProfileDigest;
    assert Fits(NAME_11, Blob(BACKUP_FAMILY)) && Fits(NAME_11, Blob(SOURCE_FAMILY));
  }

  function PrefixBytes11(sha: Hash): seq<byte> {
    PrefixFits11(sha);
    Encode(PREFIX_LAYOUT_11, PrefixValues11(sha))
  }

  function EncodeManifest11(sha: Hash, m: Manifest): seq<byte>
    requires ManifestInBounds11(m)
  {
    Checked(PrefixBytes11(sha) + IdentityBytes11(m))
  }

  lemma IdentityRoundTrip11(v: seq<Value>)
    requires AllFit(IDENTITY_LAYOUT_11, v)
    ensures AllFit(IDENTITY_LAYOUT, v) && IdentityValues(IdentityOf(v)) == v
  {
    NonemptyNames(v);
    IdentityRoundTrip(v);
  }

  lemma IdentityDecodes11(s: seq<byte>)
    requires ParseIdentity11(s).Some?
    ensures var m := ParseIdentity11(s).value; ManifestInBounds11(m) && s == IdentityBytes11(m)
  {
    hide ParsePayloads, PayloadBytes, Encode, Decode, AllFit;
    LayoutDecodes(IDENTITY_LAYOUT_11, s);
    var (v, s1) := Decode(IDENTITY_LAYOUT_11, s).value;
    IdentityRoundTrip11(v);
    var (count, s2) := DecodeInt(4, false, s1).value;
    IntCodec(4, false, s1, count, s2);
    PayloadsDecode(IdentityOf(v), s2);
  }

  lemma IdentityEncodes11(m: Manifest)
    requires ManifestInBounds11(m)
    ensures ParseIdentity11(IdentityBytes11(m)) == Some(m)
  {
    hide ParsePayloads, PayloadBytes, Encode, Decode, AllFit;
    IntegerBounds();
    PayloadsEncode(m);
    CountFits(2);
    IntCodec(4, false, Digits(2, 4) + PayloadBytes(m), 2, PayloadBytes(m));
    LayoutEncodes(IDENTITY_LAYOUT_11, IdentityValues(m.identity), Digits(2, 4) + PayloadBytes(m));
    IdentityRoundTrip11(IdentityValues(m.identity));
  }

  lemma PrefixTailSize11(v: seq<Value>)
    requires AllFit(PREFIX_LAYOUT_11, v)
    ensures AllFit(PREFIX_LAYOUT_11[5..], v[5..]) && |Encode(PREFIX_LAYOUT_11[5..], v[5..])| == 36
  {
    EncodeSize(PREFIX_LAYOUT_11, v, 5);
    EncodeSize(PREFIX_LAYOUT_11, v, 6);
    EncodeSize(PREFIX_LAYOUT_11, v, 7);
  }

  lemma PrefixSize11(sha: Hash)
    ensures |PrefixBytes11(sha)| >= 56
  {
    PrefixFits11(sha);
    var l, v := PREFIX_LAYOUT_11, PrefixValues11(sha);
    PrefixTailSize11(v);
    hide KnownProfile, ProfileDigest;
    EncodeSize(l, v, 0);
    EncodeSize(l, v, 1);
    EncodeSize(l, v, 2);
    EncodeSize(l, v, 3);
    EncodeSize(l, v, 4);
    assert l[0..] == l && v[0..] == v;
  }

  lemma IdentitySize11(v: seq<Value>)
    requires AllFit(IDENTITY_LAYOUT_11, v)
    ensures |Encode(IDENTITY_LAYOUT_11, v)| >= 24
  {
    var l := IDENTITY_LAYOUT_11;
    EncodeSize(l, v, 0);
    EncodeSize(l, v, 1);
    EncodeSize(l, v, 2);
    assert l[0..] == l && v[0..] == v;
  }

  lemma ManifestSize11(sha: Hash, m: Manifest)
    requires ManifestInBounds11(m)
    ensures |EncodeManifest11(sha, m)| >= 160
  {
    PrefixSize11(sha);
    IdentitySize11(IdentityValues(m.identity));
    PayloadsSize(m);
    hide Encode, AllFit, Checksum, PayloadBytes, PrefixBytes11;
  }

  lemma ManifestDecodes11(sha: Hash, data: seq<byte>)
    requires ParseManifest11(sha, data).Some?
    ensures ManifestInBounds11(ParseManifest11(sha, data).value)
    ensures data == EncodeManifest11(sha, ParseManifest11(sha, data).value)
  {
    hide ParseIdentity11, IdentityBytes11, ManifestInBounds11, PrefixValues11, Checksum, Encode, Decode;
    var body := Unchecked(data, 160).value;
    CheckedCodec(data, 160, body);
    LayoutDecodes(PREFIX_LAYOUT_11, body);
    IdentityDecodes11(Decode(PREFIX_LAYOUT_11, body).value.1);
  }

  lemma ManifestEncodes11(sha: Hash, m: Manifest)
    requires ManifestInBounds11(m)
    ensures ParseManifest11(sha, EncodeManifest11(sha, m)) == Some(m)
  {
    hide ParseIdentity11, IdentityBytes11, ManifestInBounds11, PrefixValues11, Checksum, Encode, Decode;
    ManifestSize11(sha, m);
    PrefixFits11(sha);
    IdentityEncodes11(m);
    CheckedCodec(EncodeManifest11(sha, m), 160, PrefixBytes11(sha) + IdentityBytes11(m));
    LayoutEncodes(PREFIX_LAYOUT_11, PrefixValues11(sha), IdentityBytes11(m));
  }

  /** The manifest parser accepts exactly one form of each in-bound manifest. */
  lemma ManifestCanonical11(sha: Hash, data: seq<byte>, m: Manifest)
    ensures ParseManifest11(sha, data) == Some(m) <==> ManifestInBounds11(m) && data == EncodeManifest11(sha, m)
  {
    if ParseManifest11(sha, data) == Some(m) {
      ManifestDecodes11(sha, data);
    } else if ManifestInBounds11(m) && data == EncodeManifest11(sha, m) {
      ManifestEncodes11(sha, m);
    }
  }

  // ---- sealing ----

  /** The identity of the store itself. */
  function SealedIdentity11(meta: Metadata11, sequence: int): Identity {
    Identity(meta.historyMost, meta.historyLeast, sequence,
             meta.storageIdentity, meta.schemaIdentity, meta.codecIdentity, meta.limits.codecVersion)
  }

  /** What a manifest's identity must share with its members: history and sequence, but no name
      and no codec version. */
  predicate Vouches(x: Identity, meta: Metadata11, c: Checkpoint11) {
    && IdentityFits(x) && AllFit(IDENTITY_LAYOUT_11, IdentityValues(x))
    && x.historyMost == meta.historyMost && x.historyLeast == meta.historyLeast && x.sequence == c.sequence
  }

  /** All that a backup is made of: an identity, two members with the counts written for their
      lists, a time and a request. */
  datatype Draft = Draft(
    identity: Identity, metadata: Metadata11, count: int, checkpoint: Checkpoint11, created: int, requestId: seq<byte>)

  predicate Sealable11(sha: Hash, s: Draft) {
    && MetadataFits11(sha, s.metadata, s.count) && CheckpointFits11(s.metadata, s.checkpoint)
    && Vouches(s.identity, s.metadata, s.checkpoint)
    && InUnsigned(|EncodeCheckpoint11(s.metadata, s.checkpoint)|, 8)
    && InUnsigned(|EncodeMetadata11(sha, s.metadata, s.count)|, 8)
    && InSigned(s.created, 8) && s.created >= 0 && |s.requestId| <= 256 && Utf8(s.requestId)
  }

  /** The store's own identity always qualifies. */
  lemma OwnIdentityVouches(sha: Hash, meta: Metadata11, count: int, c: Checkpoint11)
    requires MetadataFits11(sha, meta, count) && CheckpointFits11(meta, c)
    ensures Vouches(SealedIdentity11(meta, c.sequence), meta, c)
  {
    hide Pow256, Utf8, Ascii, SlotTableFits, IndexesFit, ProfileDigest, KnownProfile;
    var h, k := HeadValues11(meta), CheckpointValues11(meta, c);
    var n := NameValues11(meta.storageIdentity, meta.schemaIdentity, meta.codecIdentity);
    var v := LimitValues(meta.limits, count);
    assert Fits(METADATA_HEAD_11[3], h[3]) && Fits(METADATA_HEAD_11[4], h[4]);
    assert Fits(METADATA_NAMES_11[0], n[0]) && Fits(METADATA_NAMES_11[1], n[1]) && Fits(METADATA_NAMES_11[2], n[2]);
    assert Fits(CHECKPOINT_HEAD_11[6], k[6]) && Fits(LIMITS_LAYOUT[0], v[0]);
    NonemptyNames(IdentityValues(SealedIdentity11(meta, c.sequence)));
  }

  /** The manifest of a draft: its identity, the two fingerprints and the digest. */
  function SealedManifest11(sha: Hash, s: Draft): Manifest
    requires Sealable11(sha, s)
  {
    var p := Fingerprint(sha, EncodeCheckpoint11(s.metadata, s.checkpoint));
    var q := Fingerprint(sha, EncodeMetadata11(sha, s.metadata, s.count));
    FingerprintFits(sha, EncodeCheckpoint11(s.metadata, s.checkpoint));
    FingerprintFits(sha, EncodeMetadata11(sha, s.metadata, s.count));
    BundleIsHashable(s.identity, p, q);
    var digest := sha(BackupPreimage(ProfileDigest(sha, KnownProfile()), s.identity, Payloads(p, q)));
    Manifest(s.identity, p, q, digest, s.created, s.requestId)
  }

  lemma SealedFits11(sha: Hash, s: Draft)
    requires Sealable11(sha, s)
    ensures ManifestInBounds11(SealedManifest11(sha, s))
  {
    hide IdentityFits, MemberFits, MetadataFits11, CheckpointFits11, AllFit, BackupPreimage, Hashable11;
    FingerprintFits(sha, EncodeCheckpoint11(s.metadata, s.checkpoint));
    FingerprintFits(sha, EncodeMetadata11(sha, s.metadata, s.count));
    TrailerFits(SealedManifest11(sha, s));
  }

  function Seal11(sha: Hash, s: Draft): Bundle
    requires Sealable11(sha, s)
  {
    SealedFits11(sha, s);
    Bundle(EncodeCheckpoint11(s.metadata, s.checkpoint), EncodeMetadata11(sha, s.metadata, s.count),
           EncodeManifest11(sha, SealedManifest11(sha, s)))
  }

  lemma SealedAgrees11(sha: Hash, s: Draft)
    requires Sealable11(sha, s)
    ensures var m := SealedManifest11(sha, s);
            && ManifestFits(m)
            && InspectParsed11(sha, Seal11(sha, s), m, s.metadata, s.checkpoint.sequence) == Some(m)
  {
    SealedFits11(sha, s);
    hide ManifestFits, CheckpointFits11, BackupPreimage, EncodeManifest11, EncodeMetadata11, EncodeCheckpoint11;
    hide Fingerprint, Hashable11, IdentitiesFit11, AllFit, KnownProfile;
  }

  /** Sealing any in-bound metadata and checkpoint, in any of their forms and under any names,
      gives an accepted bundle. */
  lemma SealedIsAccepted11(sha: Hash, s: Draft)
    requires Sealable11(sha, s)
    ensures InspectBackup(sha, Seal11(sha, s)) == Some(SealedManifest11(sha, s))
  {
    hide ParseManifest11, ParseMetadata11, ParseCheckpoint11, InspectParsed11, SealedManifest11, ManifestInBounds11;
    hide MetadataFits11, CheckpointFits11, EncodeManifest11, EncodeMetadata11, EncodeCheckpoint11, Vouches;
    SealedFits11(sha, s);
    ManifestEncodes11(sha, SealedManifest11(sha, s));
    MetadataEncodes11(sha, s.metadata, s.count);
    CheckpointEncodes11(s.metadata, s.checkpoint);
    SealedAgrees11(sha, s);
  }

  lemma PartsAreSealable(sha: Hash, b: Bundle, m: Manifest, s: Draft)
    requires ManifestInBounds11(m) && MetadataFits11(sha, s.metadata, s.count)
             && CheckpointFits11(s.metadata, s.checkpoint)
    requires b.metadata == EncodeMetadata11(sha, s.metadata, s.count)
    requires b.checkpoint == EncodeCheckpoint11(s.metadata, s.checkpoint)
    requires InspectParsed11(sha, b, m, s.metadata, s.checkpoint.sequence) == Some(m)
    requires m.identity == s.identity && m.createdEpochMillis == s.created && m.requestId == s.requestId
    ensures Sealable11(sha, s) && m == SealedManifest11(sha, s)
  {
    hide EncodeMetadata11, EncodeCheckpoint11, MetadataFits11, CheckpointFits11, BackupPreimage, KnownProfile, Pow256;
    hide Utf8;
    var p, q := MemberValues(CHECKPOINT_MEMBER, m.checkpoint), MemberValues(METADATA_MEMBER, m.metadata);
    assert Fits(MEMBER_LAYOUT[1], p[1]) && Fits(MEMBER_LAYOUT[1], q[1]);
    var v := TrailerValues(m);
    assert Fits(TRAILER_LAYOUT[1], v[1]) && Fits(TRAILER_LAYOUT[2], v[2]);
  }

  lemma InspectedIsParsed(sha: Hash, b: Bundle, m: Manifest, meta: Metadata11, sequence: int)
    requires ManifestFits(m) && InspectParsed11(sha, b, m, meta, sequence).Some?
    ensures InspectParsed11(sha, b, m, meta, sequence) == Some(m)
  {
  }

  /** The accepted (1,1) bundles are exactly the sealed ones: the names in the manifest need not
      be those of the metadata. */
  lemma AcceptedExactly11(sha: Hash, b: Bundle, m: Manifest)
    ensures InspectBackup(sha, b) == Some(m)
            <==> exists s :: Sealable11(sha, s) && b == Seal11(sha, s) && m == SealedManifest11(sha, s)
  {
    hide ParseManifest11, ParseMetadata11, ParseCheckpoint11, InspectParsed11, SealedManifest11, ManifestInBounds11;
    hide MetadataFits11, CheckpointFits11, EncodeManifest11, EncodeMetadata11, EncodeCheckpoint11, Sealable11;
    if InspectBackup(sha, b) == Some(m) {
      ManifestDecodes11(sha, b.manifest);
      ManifestParses11(sha, b.manifest);
      var parsed, meta := ParseManifest11(sha, b.manifest).value, ParseMetadata11(sha, b.metadata).value;
      InspectedIsParsed(sha, b, parsed, meta, ParseCheckpoint11(b.checkpoint, meta).value);
      var count := MetadataDecodes11(sha, b.metadata, meta);
      var c := CheckpointDecodes11(b.checkpoint, meta);
      var s := Draft(m.identity, meta, count, c, m.createdEpochMillis, m.requestId);
      PartsAreSealable(sha, b, m, s);
    }
    if s :| Sealable11(sha, s) && b == Seal11(sha, s) && m == SealedManifest11(sha, s) {
      SealedIsAccepted11(sha, s);
    }
  }
}
