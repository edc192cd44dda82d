/**
 The three files of a (1,1) backup, the bound capability profile and the bytes its content digest
 covers, written out field by field; and which bundles the inspector accepts, in these terms.
 */
module WrittenBackup11 {
  import opened Bytes
  import opened Options
  import opened Crc32c
  import opened Layouts
  import opened ByteForms
  import opened PartForms
  import opened StorageParts
  import opened BackupFormat
  import opened BackupPayloads
  import opened ContentIdentity
  import opened BackupForms
  import opened StorageFormat11
  import opened SealedBackup11

  predicate Name11Ok(s: seq<byte>) { TextOk(s, 1, 128) }

  lemma NameField11(s: seq<byte>)
    ensures Name11Ok(s) <==> Fits(NAME_11, Blob(s))
    ensures Name11Ok(s) ==> EncodeField(NAME_11, Blob(s)) == Sized(s)
  {
    TextField(1, 128, s);
  }

  lemma FamilyNames11()
    ensures Name11Ok(BACKUP_FAMILY) && EncodeField(NAME_11, Blob(BACKUP_FAMILY)) == Sized(Ascii("gse-backup"))
    ensures Name11Ok(SOURCE_FAMILY) && EncodeField(NAME_11, Blob(SOURCE_FAMILY)) == Sized(Ascii("gse-durable"))
  {
    FamilyNames();
    NameField11(BACKUP_FAMILY);
    NameField11(SOURCE_FAMILY);
    hide Ascii, EncodeField, Sized, Fits;
  }

  // ---- the profile ----

  const DOCUMENTS: seq<byte> := Ascii("canonical-documents-v1")
  const AUTHORITY: seq<byte> := Ascii("checkpoint-authority-v1")
  const CHECKED_LOG: seq<byte> := Ascii("crc32c-wal-v1")
  const INDEX_CONFIG: seq<byte> := Ascii("logical-index-config-v1")
  const BINDING: seq<byte> := Ascii("sha256-profile-binding-v1")

  /** Five required capabilities and no optional one. */
  function CapabilityParts(): seq<seq<byte>> {
    [Sized(DOCUMENTS), Sized(AUTHORITY), Sized(CHECKED_LOG), Sized(INDEX_CONFIG), Sized(BINDING)]
  }

  function Profile(): seq<byte> { [0, 0, 0, 5] + Concat(CapabilityParts()) + [0, 0, 0, 0] }

  const PROFILE_STRING: seq<byte> := Ascii("gse-durable-format-profile-v1\0")

  function ProfileSha(sha: Hash): Digest { sha(PROFILE_STRING + Profile()) }

  /** The profile's length, the profile, and its digest. */
  function BoundProfile(sha: Hash): seq<byte> { Digits(|Profile()|, 4) + Profile() + ProfileSha(sha) }

  lemma SmallNumber(n: byte)
    ensures Digits(n as int, 4) == [0, 0, 0, n]
  {
    UnsignedOfFour([0, 0, 0, n]);
    DigitsOfUnsigned([0, 0, 0, n]);
  }

  lemma CapabilityWritten(v: seq<Value>, i: nat)
    requires i < |v| && AllFit(StorageFormat11.Copies(|v|), v)
    ensures v[i].Blob? && EncodeField(StorageFormat11.Copies(|v|)[i], v[i]) == Sized(v[i].s)
  {
    assert Fits(StorageFormat11.Copies(|v|)[i], v[i]);
    TextField(1, 128, v[i].s);
  }

  lemma CapabilitiesWritten()
    requires AllFit(StorageFormat11.Copies(5), CAPABILITIES)
    ensures Encode(StorageFormat11.Copies(5), CAPABILITIES) == Concat(CapabilityParts())
  {
    hide EncodeField, Fits, Encode, Concat, Ascii, Sized;
    CapabilityWritten(CAPABILITIES, 0);
    CapabilityWritten(CAPABILITIES, 1);
    CapabilityWritten(CAPABILITIES, 2);
    CapabilityWritten(CAPABILITIES, 3);
    CapabilityWritten(CAPABILITIES, 4);
    EncodeIsConcat(StorageFormat11.Copies(5), CAPABILITIES, CapabilityParts());
  }

  lemma NoCapability()
    requires ProfileFits([])
    ensures EncodeCapabilities([]) == [0, 0, 0, 0]
  {
    SmallNumber(0);
    ProfileAllFit([]);
    assert Digits(0, 4) + [] == Digits(0, 4);
  }

  lemma FiveCapabilities()
    requires ProfileFits(CAPABILITIES)
    ensures EncodeCapabilities(CAPABILITIES) == [0, 0, 0, 5] + Concat(CapabilityParts())
  {
    hide CapabilityList, Encode, Concat, Ascii, Digits, CapabilityParts;
    SmallNumber(5);
    ProfileAllFit(CAPABILITIES);
    CapabilitiesWritten();
  }

  lemma ProfileWritten()
    ensures KnownProfile() == Profile()
  {
    KnownCapabilities();
    NoCapability();
    FiveCapabilities();
    hide EncodeCapabilities, ProfileFits, CapabilityParts, Concat, Ascii, Digits;
  }

  lemma SameString()
    ensures PROFILE_STRING == PROFILE_DOMAIN
  {
    hide Ascii;
  }

  /** The one profile that is understood. */
  lemma ProfileExactly(sha: Hash)
    ensures KnownProfile() == Profile() && ProfileDigest(sha, KnownProfile()) == ProfileSha(sha)
    ensures forall rest :: ProfileField(sha, rest) == BoundProfile(sha) + rest
  {
    ProfileWritten();
    SameString();
    hide Profile, KnownProfile, Digits, PROFILE_STRING, PROFILE_DOMAIN;
    forall rest ensures ProfileField(sha, rest) == BoundProfile(sha) + rest {
      var n, p, d := Digits(|Profile()|, 4), Profile(), ProfileSha(sha);
      assert n + (p + (d + rest)) == n + p + d + rest;
    }
  }

  // ---- metadata ----

  predicate MetadataInBounds11(sha: Hash, m: Metadata11, count: int) {
    && Eight(m.historyMost) && Eight(m.historyLeast) && m.profileDigest == ProfileSha(sha)
    && Name11Ok(m.storageIdentity) && Name11Ok(m.schemaIdentity) && Name11Ok(m.codecIdentity)
    && LimitsInBounds(m.limits) && AllLoose(TextBounds(1, 1024, 128), m.indexes)
    && (if m.indexes == [] then -0x8000_0000 <= count <= 0 else count == |m.indexes| <= 100_000)
  }

  function HeadParts11(m: Metadata11): seq<seq<byte>>
    requires Eight(m.historyMost) && Eight(m.historyLeast)
  {
    [Ascii("GSEMETA1"), [0, 1], [0, 1], Digits(m.historyMost, 8), Digits(m.historyLeast, 8),
     Sized(Ascii("gse-durable"))]
  }

  lemma CountFits11(count: int)
    requires -0x8000_0000 <= count < 0x8000_0000
    ensures InSigned(count, 4)
  {
    FourByteBound();
  }

  function MetadataBytes11(sha: Hash, m: Metadata11, count: int): seq<byte>
    requires MetadataInBounds11(sha, m, count)
  {
    CountFits11(count);
    LooseListExactly(TextBounds(1, 1024, 128), m.indexes);
    Concat(HeadParts11(m))
    + (BoundProfile(sha)
       + (Concat([Sized(m.storageIdentity), Sized(m.schemaIdentity), Sized(m.codecIdentity)])
          + (Concat(LimitParts(m.limits, SignedDigits(count, 4))) + DescriptorsBytes(m.indexes))))
  }

  lemma HeadFits11(m: Metadata11)
    ensures AllFit(METADATA_HEAD_11, HeadValues11(m)) <==> Eight(m.historyMost) && Eight(m.historyLeast)
    ensures AllFit(METADATA_HEAD_11, HeadValues11(m)) ==>
            Encode(METADATA_HEAD_11, HeadValues11(m)) == Concat(HeadParts11(m))
  {
    hide Fits, EncodeField, Name11Ok, Sized, Digits, Ascii, Encode, Concat;
    MagicField("GSEMETA1", 0x4753_454D_4554_4131);
    VersionField(1);
    NumberField(m.historyMost);
    NumberField(m.historyLeast);
    FamilyNames11();
    NameField11(SOURCE_FAMILY);
    var l, v := METADATA_HEAD_11, HeadValues11(m);
    if AllFit(l, v) {
      assert Fits(l[3], v[3]) && Fits(l[4], v[4]);
      EncodeIsConcat(l, v, HeadParts11(m));
    }
  }

  lemma NamesFit11(storage: seq<byte>, schema: seq<byte>, codec: seq<byte>)
    ensures AllFit(METADATA_NAMES_11, NameValues11(storage, schema, codec)) <==>
            Name11Ok(storage) && Name11Ok(schema) && Name11Ok(codec)
    ensures AllFit(METADATA_NAMES_11, NameValues11(storage, schema, codec)) ==>
            Encode(METADATA_NAMES_11, NameValues11(storage, schema, codec))
            == Concat([Sized(storage), Sized(schema), Sized(codec)])
  {
    hide Fits, EncodeField, Name11Ok, Sized, Encode, Concat;
    NameField11(storage);
    NameField11(schema);
    NameField11(codec);
    var l, v := METADATA_NAMES_11, NameValues11(storage, schema, codec);
    if AllFit(l, v) {
      assert Fits(l[0], v[0]) && Fits(l[1], v[1]) && Fits(l[2], v[2]);
      EncodeIsConcat(l, v, [Sized(storage), Sized(schema), Sized(codec)]);
    }
  }

  lemma LimitsExactly11(limits: Limits, indexes: seq<Index>, count: int)
    ensures LimitsFit11(limits, indexes, count) <==>
            && LimitsInBounds(limits) && AllLoose(TextBounds(1, 1024, 128), indexes)
            && (if indexes == [] then -0x8000_0000 <= count <= 0 else count == |indexes| <= 100_000)
    ensures LimitsFit11(limits, indexes, count) ==>
            && InSigned(count, 4) && Kinds(indexes)
            && LimitsBytes11(limits, indexes, count)
               == Concat(LimitParts(limits, SignedDigits(count, 4))) + DescriptorsBytes(indexes)
  {
    hide AllFit, LimitsOk, LimitsInBounds, Encode, Concat, LimitParts, Digits, SignedDigits, InSigned, AllLoose;
    hide IndexesFit, EncodeIndexes, DescriptorsBytes, Kinds;
    assert INDEX_SHAPE_11 == ShapeOf(TextBounds(1, 1024, 128), false);
    LooseListExactly(TextBounds(1, 1024, 128), indexes);
    LimitsFit(limits, count);
  }

  lemma MetadataBounds11(sha: Hash, m: Metadata11, count: int)
    ensures MetadataFits11(sha, m, count) <==> MetadataInBounds11(sha, m, count)
  {
    hide AllFit, LimitsFit11, LimitsInBounds, AllLoose, Name11Ok, KnownProfile, ProfileDigest, ProfileSha, Eight;
    ProfileExactly(sha);
    HeadFits11(m);
    NamesFit11(m.storageIdentity, m.schemaIdentity, m.codecIdentity);
    LimitsExactly11(m.limits, m.indexes, count);
  }

  lemma MetadataBody11(sha: Hash, m: Metadata11, count: int)
    requires MetadataFits11(sha, m, count) && MetadataInBounds11(sha, m, count)
    ensures Encode(METADATA_HEAD_11, HeadValues11(m)) + ProfileField(sha, IdentitiesBytes11(m, count))
            == MetadataBytes11(sha, m, count)
  {
    hide AllFit, Encode, Concat, LimitsFit11, LimitsBytes11, LimitsInBounds, AllLoose, Name11Ok, Digits, SignedDigits;
    hide HeadParts11, LimitParts, DescriptorsBytes, KnownProfile, ProfileDigest, ProfileField, BoundProfile, Eight;
    hide HeadValues11, NameValues11, Sized, ProfileSha, Kinds;
    ProfileExactly(sha);
    HeadFits11(m);
    NamesFit11(m.storageIdentity, m.schemaIdentity, m.codecIdentity);
    LimitsExactly11(m.limits, m.indexes, count);
  }

  /** In-bound metadata with the count that stands for its indexes, and its file. */
  lemma MetadataExactly11(sha: Hash, m: Metadata11, count: int)
    ensures MetadataFits11(sha, m, count) <==> MetadataInBounds11(sha, m, count)
    ensures MetadataFits11(sha, m, count) ==>
            EncodeMetadata11(sha, m, count)
            == MetadataBytes11(sha, m, count) + Digits(Checksum(MetadataBytes11(sha, m, count)), 4)
  {
    MetadataBounds11(sha, m, count);
    hide MetadataInBounds11, MetadataBytes11, IdentitiesBytes11, ProfileField, Encode, Checksum, Digits;
    if MetadataFits11(sha, m, count) {
      MetadataBody11(sha, m, count);
    }
  }

  // ---- checkpoint ----

  predicate CheckpointInBounds11(m: Metadata11, c: Checkpoint11) {
    && Eight(m.historyMost) && Eight(m.historyLeast) && |m.profileDigest| == 32
    && 0 <= c.sequence < 0x8000_0000_0000_0000
    && (if m.indexes == [] then -0x8000_0000 <= c.indexCount <= 0 else c.indexCount == |m.indexes| < 0x8000_0000)
    && AllLoose(TextBounds(1, 1024, 128), m.indexes)
    && (if c.slots == [] then -0x8000_0000 <= c.slotCount <= 0 else c.slotCount == |c.slots| < 0x8000_0000)
    && forall i :: 0 <= i < |c.slots| && c.slots[i].Document? ==>
         |c.slots[i].key| < 0x8000_0000 && |c.slots[i].body| < 0x8000_0000
  }

  lemma CheckpointCounts11(m: Metadata11, c: Checkpoint11)
    requires CheckpointInBounds11(m, c)
    ensures InSigned(c.slotCount, 4) && InSigned(c.indexCount, 4)
  {
    FourByteBound();
  }

  function CheckpointParts11(m: Metadata11, c: Checkpoint11): seq<seq<byte>>
    requires CheckpointInBounds11(m, c)
  {
    CheckpointCounts11(m, c);
    [Ascii("GSECHK10"), [0, 1], [0, 1], Digits(m.historyMost, 8), Digits(m.historyLeast, 8), m.profileDigest,
     Digits(c.sequence, 8), SignedDigits(c.slotCount, 4),
     Digits(|set i | 0 <= i < |c.slots| && c.slots[i].Document?|, 4), SignedDigits(c.indexCount, 4)]
  }

  function CheckpointBytes11(m: Metadata11, c: Checkpoint11): seq<byte>
    requires CheckpointInBounds11(m, c)
  {
    CheckpointCounts11(m, c);
    LooseListExactly(TextBounds(1, 1024, 128), m.indexes);
    Concat(CheckpointParts11(m, c))
    + (DescriptorsBytes(m.indexes) + (SignedDigits(c.slotCount, 4) + SlotsBytes(c.slots)))
  }

  lemma CountExactly(count: int, n: nat)
    ensures InSigned(count, 4) && Times(count) == n <==>
            if n == 0 then -0x8000_0000 <= count <= 0 else count == n < 0x8000_0000
  {
    FourByteBound();
  }

  lemma AnySlots(slots: seq<Slot>)
    ensures SlotsOk(ANY_SLOT, slots) <==>
            forall i :: 0 <= i < |slots| && slots[i].Document? ==>
              |slots[i].key| < 0x8000_0000 && |slots[i].body| < 0x8000_0000
  {
    if SlotsOk(ANY_SLOT, slots) {
      forall i | 0 <= i < |slots| && slots[i].Document?
        ensures |slots[i].key| < 0x8000_0000 && |slots[i].body| < 0x8000_0000
      {
        assert SlotOk(ANY_SLOT, slots[i]);
      }
    }
  }

  lemma CheckpointHeadFits(m: Metadata11, c: Checkpoint11)
    requires c.sequence >= 0 && |c.slots| < 0x8000_0000
    ensures AllFit(CHECKPOINT_HEAD_11, CheckpointValues11(m, c)) <==>
            && Eight(m.historyMost) && Eight(m.historyLeast) && |m.profileDigest| == 32
            && c.sequence < 0x8000_0000_0000_0000 && InSigned(c.slotCount, 4) && InSigned(c.indexCount, 4)
    ensures CheckpointInBounds11(m, c) && AllFit(CHECKPOINT_HEAD_11, CheckpointValues11(m, c)) ==>
            Encode(CHECKPOINT_HEAD_11, CheckpointValues11(m, c)) == Concat(CheckpointParts11(m, c))
  {
    hide EncodeField, Digits, SignedDigits, Ascii, Encode, Concat, AllLoose;
    MagicField("GSECHK10", 0x4753_4543_484B_3130);
    VersionField(1);
    NumberField(m.historyMost);
    NumberField(m.historyLeast);
    DigestField(m.profileDigest);
    CountField(c.sequence);
    assert Fits(S32, Number(c.slotCount)) <==> InSigned(c.slotCount, 4);
    assert Fits(S32, Number(c.indexCount)) <==> InSigned(c.indexCount, 4);
    SignedField(c.slotCount);
    SignedField(c.indexCount);
    LiveAreDocuments(c.slots);
    CountField(CountLive(c.slots));
    hide Fits, InSigned;
    var l, v := CHECKPOINT_HEAD_11, CheckpointValues11(m, c);
    if AllFit(l, v) {
      assert Fits(l[3], v[3]) && Fits(l[4], v[4]) && Fits(l[5], v[5]) && Fits(l[6], v[6]);
      assert Fits(l[7], v[7]) && Fits(l[9], v[9]);
      if CheckpointInBounds11(m, c) {
        EncodeIsConcat(l, v, CheckpointParts11(m, c));
      }
    }
  }

  lemma CheckpointBounds11(m: Metadata11, c: Checkpoint11)
    ensures CheckpointFits11(m, c) <==> CheckpointInBounds11(m, c)
    ensures CheckpointFits11(m, c) ==> c.sequence >= 0 && |c.slots| < 0x8000_0000
  {
    hide AllFit, Digits, SignedDigits, InSigned, AllLoose, IndexesFit, SlotsFit, SlotsOk, Times;
    assert INDEX_SHAPE_11 == ShapeOf(TextBounds(1, 1024, 128), false);
    LooseListExactly(TextBounds(1, 1024, 128), m.indexes);
    CountExactly(c.indexCount, |m.indexes|);
    CountExactly(c.slotCount, |c.slots|);
    SlotsExactly(ANY_SLOT, c.slots);
    AnySlots(c.slots);
    if c.sequence >= 0 && |c.slots| < 0x8000_0000 {
      CheckpointHeadFits(m, c);
    }
  }

  lemma CheckpointBody11(m: Metadata11, c: Checkpoint11)
    requires CheckpointFits11(m, c) && CheckpointInBounds11(m, c)
    ensures Encode(CHECKPOINT_HEAD_11, CheckpointValues11(m, c))
            + (EncodeIndexes(INDEX_SHAPE_11, m.indexes) + SlotTable(c))
            == CheckpointBytes11(m, c)
  {
    CheckpointBounds11(m, c);
    hide AllFit, Encode, Concat, Digits, SignedDigits, InSigned, AllLoose, IndexesFit, SlotsFit, SlotsOk, Times;
    hide EncodeIndexes, EncodeSlots, DescriptorsBytes, SlotsBytes, CheckpointParts11, CheckpointValues11;
    assert INDEX_SHAPE_11 == ShapeOf(TextBounds(1, 1024, 128), false);
    LooseListExactly(TextBounds(1, 1024, 128), m.indexes);
    SlotsExactly(ANY_SLOT, c.slots);
    CheckpointHeadFits(m, c);
  }

  /** An in-bound checkpoint with both of its counts, and its file. */
  lemma CheckpointExactly11(m: Metadata11, c: Checkpoint11)
    ensures CheckpointFits11(m, c) <==> CheckpointInBounds11(m, c)
    ensures CheckpointFits11(m, c) ==>
            EncodeCheckpoint11(m, c) == CheckpointBytes11(m, c) + Digits(Checksum(CheckpointBytes11(m, c)), 4)
  {
    CheckpointBounds11(m, c);
    hide CheckpointInBounds11, CheckpointBytes11, SlotTable, EncodeIndexes, Encode, Checksum, Digits;
    if CheckpointFits11(m, c) {
      CheckpointBody11(m, c);
    }
  }

  // ---- manifest ----

  predicate ManifestOk11(m: Manifest) {
    && ManifestInBounds(m) && m.createdEpochMillis >= 0
    && m.identity.storageIdentity != [] && m.identity.schemaIdentity != [] && m.identity.codecIdentity != []
  }

  function PrefixParts11(sha: Hash): seq<seq<byte>> {
    [Ascii("GSEBKP10"), [0, 1], [0, 1], Sized(Ascii("gse-backup")), Sized(Ascii("gse-durable")), [0, 1], [0, 1],
     ProfileSha(sha)]
  }

  /** The same fields as in a (1,0) manifest behind the prefix. */
  function ManifestBytes11(sha: Hash, m: Manifest): seq<byte>
    requires ManifestOk11(m)
  {
    Concat(PrefixParts11(sha))
    + (Concat(IdentityParts(m.identity))
       + ([0, 0, 0, 2]
          + (Concat(CheckpointPart(m)) + (Concat(MetadataPart(m)) + Concat(TrailerParts(m))))))
  }

  lemma PrefixWritten11(sha: Hash)
    ensures PrefixBytes11(sha) == Concat(PrefixParts11(sha))
  {
    ProfileExactly(sha);
    hide Fits, EncodeField, Sized, Digits, Ascii, Encode, Concat, KnownProfile, ProfileDigest, ProfileSha;
    PrefixFits11(sha);
    MagicField("GSEBKP10", 0x4753_4542_4B50_3130);
    VersionField(1);
    FamilyNames11();
    DigestField(ProfileSha(sha));
    hide BACKUP_FAMILY, SOURCE_FAMILY;
    PrefixParted11(PREFIX_LAYOUT_11, PrefixValues11(sha), PrefixParts11(sha));
  }

  lemma PrefixParted11(l: Layout, v: seq<Value>, parts: seq<seq<byte>>)
    requires |l| == |v| == |parts| == 8 && AllFit(l, v)
    requires EncodeField(l[0], v[0]) == parts[0] && EncodeField(l[1], v[1]) == parts[1]
    requires EncodeField(l[2], v[2]) == parts[2] && EncodeField(l[3], v[3]) == parts[3]
    requires EncodeField(l[4], v[4]) == parts[4] && EncodeField(l[5], v[5]) == parts[5]
    requires EncodeField(l[6], v[6]) == parts[6] && EncodeField(l[7], v[7]) == parts[7]
    ensures Encode(l, v) == Concat(parts)
  {
    hide Fits, EncodeField, Encode, Concat;
    forall i | 0 <= i < 8 ensures EncodeField(l[i], v[i]) == parts[i] {
      assert i == 0 || i == 1 || i == 2 || i == 3 || i == 4 || i == 5 || i == 6 || i == 7;
    }
    EncodeIsConcat(l, v, parts);
  }

  lemma NonemptyName(s: seq<byte>)
    ensures Name11Ok(s) <==> NameOk(s) && s != []
  {
  }

  lemma IdentityFitsExactly11(x: Identity)
    requires IdentityFits(x)
    ensures AllFit(IDENTITY_LAYOUT_11, IdentityValues(x)) <==>
            x.storageIdentity != [] && x.schemaIdentity != [] && x.codecIdentity != []
    ensures AllFit(IDENTITY_LAYOUT_11, IdentityValues(x)) ==>
            IdentityInBounds(x) && Encode(IDENTITY_LAYOUT_11, IdentityValues(x)) == Concat(IdentityParts(x))
  {
    hide Fits, EncodeField, NameOk, Name11Ok, Sized, Digits, Encode, Concat;
    IdentityExactly(x);
    NumberField(x.historyMost);
    NumberField(x.historyLeast);
    NonemptyName(x.storageIdentity);
    NonemptyName(x.schemaIdentity);
    NonemptyName(x.codecIdentity);
    NameField11(x.storageIdentity);
    NameField11(x.schemaIdentity);
    NameField11(x.codecIdentity);
    CountField(x.sequence);
    CountField(x.codecVersion);
    var l, v := IDENTITY_LAYOUT_11, IdentityValues(x);
    if AllFit(l, v) {
      assert Fits(l[3], v[3]) && Fits(l[4], v[4]) && Fits(l[5], v[5]);
      EncodeIsConcat(l, v, IdentityParts(x));
    }
  }

  lemma ManifestBounds11(m: Manifest)
    ensures ManifestInBounds11(m) <==> ManifestOk11(m)
  {
    ManifestExactly(m);
    hide AllFit, MemberFits, ManifestInBounds, TrailerValues, IdentityValues, IdentityFits;
    if ManifestFits(m) {
      IdentityFitsExactly11(m.identity);
    }
  }

  lemma ManifestBody11(sha: Hash, m: Manifest)
    requires ManifestInBounds11(m) && ManifestOk11(m)
    ensures PrefixBytes11(sha) + IdentityBytes11(m) == ManifestBytes11(sha, m)
  {
    hide AllFit, Encode, Concat, IdentityFits, IdentityInBounds, MemberFits, PayloadInBounds, EncodeMember, TextOk;
    hide PrefixBytes11, PrefixParts11, IdentityParts, CheckpointPart, MetadataPart, TrailerParts, Digits, Ascii;
    hide IdentityValues;
    hide TrailerValues;
    PrefixWritten11(sha);
    IdentityFitsExactly11(m.identity);
    MembersExactly(m);
    TrailerExactly(m);
    TwoMembers();
  }

  /** An in-bound (1,1) manifest, and its file. */
  lemma ManifestExactly11(sha: Hash, m: Manifest)
    ensures ManifestInBounds11(m) <==> ManifestOk11(m)
    ensures ManifestInBounds11(m) ==>
            EncodeManifest11(sha, m) == ManifestBytes11(sha, m) + Digits(Checksum(ManifestBytes11(sha, m)), 4)
  {
    hide ManifestInBounds11, ManifestOk11, PrefixBytes11, IdentityBytes11, ManifestBytes11, Checksum, Digits;
    ManifestBounds11(m);
    if ManifestInBounds11(m) {
      ManifestBody11(sha, m);
    }
  }

  // ---- what the content digest covers ----

  function ContentParts11(sha: Hash): seq<seq<byte>> {
    [Sized(Ascii("gse-backup")), [0, 1], [0, 1], Sized(Ascii("gse-durable")), [0, 1], [0, 1], ProfileSha(sha)]
  }

  function ContentBytes11(sha: Hash, m: Manifest): seq<byte>
    requires ManifestInBounds(m)
  {
    Ascii("gse-backup-content-v2\0")
    + (Concat(ContentParts11(sha))
       + (Concat(IdentityParts(m.identity))
          + ([0, 0, 0, 2] + (Concat(CheckpointPart(m)) + Concat(MetadataPart(m))))))
  }

  lemma FamilyWritten11(sha: Hash)
    ensures FamilyBytes11(ProfileSha(sha)) == Concat(ContentParts11(sha))
  {
    hide Fits, EncodeField, Sized, Ascii, Encode, Concat, NameOk, ProfileSha;
    FamilyFits11(ProfileSha(sha));
    VersionField(1);
    FamilyNames();
    StringField(BACKUP_FAMILY);
    StringField(SOURCE_FAMILY);
    DigestField(ProfileSha(sha));
    EncodeIsConcat(FAMILY_LAYOUT_11, FamilyValues11(ProfileSha(sha)), ContentParts11(sha));
  }

  lemma ContentWritten11(sha: Hash, m: Manifest, ds: seq<Described>)
    requires Hashable11(m.identity, ds) && ds == Payloads(m.checkpoint, m.metadata) && ManifestInBounds(m)
    ensures BackupPreimage(ProfileSha(sha), m.identity, ds) == ContentBytes11(sha, m)
  {
    hide AllFit, Encode, Concat, IdentityInBounds, PayloadInBounds, AllDescribable, EncodeDescribed, TextOk, ProfileSha;
    hide ContentParts11, IdentityParts, CheckpointPart, MetadataPart, Digits, Ascii, FamilyBytes11, IdentityValues;
    FamilyWritten11(sha);
    ContentIdentityWritten(m.identity);
    PayloadsWritten(m);
    TwoMembers();
  }

  /** The hashed bytes: a domain string of its own, the families with version (1,1), the profile
      digest, the identity fields, and name, size and digest of both payloads. */
  lemma ContentExactly11(sha: Hash, m: Manifest)
    requires ManifestFits(m)
    ensures ManifestInBounds(m) && Preimage11(sha, m) == ContentBytes11(sha, m)
  {
    ManifestExactly(m);
    ProfileExactly(sha);
    BundleIsHashable(m.identity, m.checkpoint, m.metadata);
    ContentWritten11(sha, m, Payloads(m.checkpoint, m.metadata));
    hide ManifestFits, ManifestInBounds, ContentBytes11, BackupPreimage, Payloads, KnownProfile, ProfileDigest;
    hide ProfileSha;
    hide ProfileField, BoundProfile;
  }

  // ---- bundles ----

  /** The three files of one backup: metadata `meta` written with index count `count`, checkpoint `c`
      and manifest `m`, which share the history and the sequence. */
  ghost predicate Written11(sha: Hash, b: Bundle, m: Manifest, meta: Metadata11, count: int, c: Checkpoint11) {
    && MetadataInBounds11(sha, meta, count) && CheckpointInBounds11(meta, c) && ManifestOk11(m)
    && b.metadata == MetadataBytes11(sha, meta, count) + Digits(Checksum(MetadataBytes11(sha, meta, count)), 4)
    && b.checkpoint == CheckpointBytes11(meta, c) + Digits(Checksum(CheckpointBytes11(meta, c)), 4)
    && b.manifest == ManifestBytes11(sha, m) + Digits(Checksum(ManifestBytes11(sha, m)), 4)
    && m.checkpoint == Payload(|b.checkpoint|, sha(b.checkpoint))
    && m.metadata == Payload(|b.metadata|, sha(b.metadata))
    && m.contentDigest == sha(ContentBytes11(sha, m))
    && m.identity.historyMost == meta.historyMost && m.identity.historyLeast == meta.historyLeast
    && m.identity.sequence == c.sequence
  }

  /** The inspector accepts a bundle under manifest `m` exactly when its files are those of one
      backup. */
  lemma BundleExactly11(sha: Hash, b: Bundle, m: Manifest)
    ensures InspectBackup(sha, b) == Some(m) <==> exists meta, count, c :: Written11(sha, b, m, meta, count, c)
  {
    hide Written11, InspectBackup;
    if InspectBackup(sha, b) == Some(m) {
      var meta, count, c := BundleRead11(sha, b, m);
    }
    if meta, count, c :| Written11(sha, b, m, meta, count, c) {
      BundleWritten11(sha, b, m, meta, count, c);
    }
  }

  lemma BundleRead11(sha: Hash, b: Bundle, m: Manifest)
    returns (meta: Metadata11, count: int, c: Checkpoint11)
    requires InspectBackup(sha, b) == Some(m)
    ensures Written11(sha, b, m, meta, count, c)
  {
    hide ParseManifest11, ParseMetadata11, ParseCheckpoint11, ManifestInBounds11, MetadataFits11, CheckpointFits11;
    hide MetadataInBounds11, CheckpointInBounds11, ManifestOk11, MetadataBytes11, CheckpointBytes11, ManifestBytes11;
    hide EncodeManifest11, EncodeMetadata11, EncodeCheckpoint11, Preimage11, ContentBytes11, Checksum, Digits;
    hide ManifestInBounds, ManifestFits;
    ManifestParses11(sha, b.manifest);
    ManifestCanonical11(sha, b.manifest, m);
    meta := ParseMetadata11(sha, b.metadata).value;
    count := MetadataDecodes11(sha, b.metadata, meta);
    c := CheckpointDecodes11(b.checkpoint, meta);
    ManifestExactly11(sha, m);
    MetadataExactly11(sha, meta, count);
    CheckpointExactly11(meta, c);
    ContentExactly11(sha, m);
  }

  lemma BundleWritten11(sha: Hash, b: Bundle, m: Manifest, meta: Metadata11, count: int, c: Checkpoint11)
    requires Written11(sha, b, m, meta, count, c)
    ensures InspectBackup(sha, b) == Some(m)
  {
    hide ParseManifest11, ParseMetadata11, ParseCheckpoint11, MetadataFits11, CheckpointFits11;
    hide CheckpointInBounds11, ManifestOk11, MetadataBytes11, CheckpointBytes11, ManifestBytes11;
    hide EncodeManifest11, EncodeMetadata11, EncodeCheckpoint11, Preimage11, ContentBytes11, Checksum, Digits;
    hide ManifestInBounds, ManifestFits, LimitsInBounds, AllLoose, Name11Ok, KnownProfile, ProfileDigest, ProfileSha;
    hide Eight, ProfileField, BoundProfile;
    ManifestExactly11(sha, m);
    MetadataExactly11(sha, meta, count);
    CheckpointExactly11(meta, c);
    FitsAnyway(m);
    ContentExactly11(sha, m);
    ProfileExactly(sha);
    ManifestCanonical11(sha, b.manifest, m);
    MetadataEncodes11(sha, meta, count);
    CheckpointEncodes11(meta, c);
  }

  lemma FitsAnyway(m: Manifest)
    requires ManifestInBounds11(m)
    ensures ManifestFits(m)
  {
  }
}
