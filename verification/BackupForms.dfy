/**
 The three files of a (1,0) backup and the bytes its content digest covers, written out field by
 field, with their bounds; and which bundles the inspector accepts, in these terms.
 */
module BackupForms {
  import opened Bytes
  import opened Options
  import opened Crc32c
  import opened Layouts
  import opened ByteForms
  import opened PartForms
  import opened StorageParts
  import opened BackupFormat
  import opened BackupPayloads
  import opened ContentIdentity

  predicate Eight(n: int) { 0 <= n < 0x1_0000_0000_0000_0000 }

  predicate NameOk(s: seq<byte>) { TextOk(s, 0, 128) }

  lemma NameField(s: seq<byte>)
    ensures NameOk(s) <==> Fits(NAME, Blob(s))
    ensures NameOk(s) ==> EncodeField(NAME, Blob(s)) == Sized(s)
  {
    TextField(0, 128, s);
  }

  lemma FixedName(t: string)
    requires |t| <= 128 && forall i :: 0 <= i < |t| ==> t[i] < 128 as char
    ensures NameOk(Ascii(t)) && Fits(NAME, Blob(Ascii(t))) && EncodeField(NAME, Blob(Ascii(t))) == Sized(Ascii(t))
  {
    AsciiIsUtf8(Ascii(t));
    NameField(Ascii(t));
  }

  // ---- metadata ----

  predicate LimitsInBounds(x: Limits) {
    && 0 <= x.codecVersion < 0x8000_0000
    && 1 <= x.maxKey < 0x8000_0000 && 1 <= x.maxDocument < 0x8000_0000 && 1 <= x.maxBulk < 0x8000_0000
    && 1 <= x.maxDocuments < 0x8000_0000 && 1 <= x.checkpointWal < x.maxRetained < 0x8000_0000_0000_0000
  }

  predicate IndexesInBounds(ixs: seq<Index>) {
    && |ixs| <= 100_000 && DescriptorsOk(TextBounds(0, 1024, 128), ixs)
    && forall i, j :: 0 <= i < j < |ixs| ==> ixs[i] != ixs[j]
  }

  predicate MetadataInBounds(m: Metadata) {
    && Eight(m.historyMost) && Eight(m.historyLeast)
    && NameOk(m.storageIdentity) && NameOk(m.schemaIdentity) && NameOk(m.codecIdentity)
    && LimitsInBounds(m.limits) && IndexesInBounds(m.indexes)
  }

  function HeadParts(m: Metadata): seq<seq<byte>>
    requires MetadataInBounds(m)
  {
    [Ascii("GSEMETA1"), [0, 1], [0, 0], Digits(m.historyMost, 8), Digits(m.historyLeast, 8),
     Sized(Ascii("gse-durable")), Sized(m.storageIdentity), Sized(m.schemaIdentity), Sized(m.codecIdentity)]
  }

  /** The seven limits, then the bytes of the index count. */
  function LimitParts(x: Limits, count: seq<byte>): seq<seq<byte>>
    requires LimitsInBounds(x)
  {
    [Digits(x.codecVersion, 4), Digits(x.maxKey, 4), Digits(x.maxDocument, 4), Digits(x.maxBulk, 4),
     Digits(x.maxDocuments, 4), Digits(x.checkpointWal, 8), Digits(x.maxRetained, 8), count]
  }

  function MetadataBytes(m: Metadata): seq<byte>
    requires MetadataInBounds(m)
  {
    KindsOf(TextBounds(0, 1024, 128), m.indexes);
    Concat(HeadParts(m)) + (Concat(LimitParts(m.limits, Digits(|m.indexes|, 4))) + DescriptorsBytes(m.indexes))
  }

  lemma HeadFits(m: Metadata)
    ensures AllFit(METADATA_HEAD, HeadValues(m)) <==>
            Eight(m.historyMost) && Eight(m.historyLeast)
            && NameOk(m.storageIdentity) && NameOk(m.schemaIdentity) && NameOk(m.codecIdentity)
    ensures MetadataInBounds(m) && AllFit(METADATA_HEAD, HeadValues(m)) ==>
            Encode(METADATA_HEAD, HeadValues(m)) == Concat(HeadParts(m))
  {
    hide Fits, EncodeField, NameOk, Sized, Digits, Ascii, Encode, Concat, LimitsInBounds, IndexesInBounds;
    MagicField("GSEMETA1", 0x4753_454D_4554_4131);
    VersionField(1);
    VersionField(0);
    NumberField(m.historyMost);
    NumberField(m.historyLeast);
    FixedName("gse-durable");
    NameField(m.storageIdentity);
    NameField(m.schemaIdentity);
    NameField(m.codecIdentity);
    var l, v := METADATA_HEAD, HeadValues(m);
    if AllFit(l, v) {
      assert Fits(l[3], v[3]) && Fits(l[4], v[4]) && Fits(l[6], v[6]) && Fits(l[7], v[7]) && Fits(l[8], v[8]);
      if MetadataInBounds(m) {
        EncodeIsConcat(l, v, HeadParts(m));
      }
    }
  }

  lemma SignedField(n: int)
    ensures -0x8000_0000 <= n < 0x8000_0000 <==> Fits(S32, Number(n))
    ensures Fits(S32, Number(n)) ==> InSigned(n, 4) && EncodeField(S32, Number(n)) == SignedDigits(n, 4)
  {
    FourByteBound();
  }

  lemma LimitsFit(x: Limits, count: int)
    ensures AllFit(LIMITS_LAYOUT, LimitValues(x, count)) && LimitsOk(x) <==>
            LimitsInBounds(x) && -0x8000_0000 <= count < 0x8000_0000
    ensures LimitsInBounds(x) && AllFit(LIMITS_LAYOUT, LimitValues(x, count)) ==>
            InSigned(count, 4)
            && Encode(LIMITS_LAYOUT, LimitValues(x, count)) == Concat(LimitParts(x, SignedDigits(count, 4)))
  {
    hide Fits, EncodeField, Digits, SignedDigits, InSigned, Encode, Concat;
    if LimitsOk(x) {
      CountField(x.codecVersion);
      CountField(x.maxKey);
      CountField(x.maxDocument);
      CountField(x.maxBulk);
      CountField(x.maxDocuments);
      CountField(x.checkpointWal);
      CountField(x.maxRetained);
      SignedField(count);
      var l, v := LIMITS_LAYOUT, LimitValues(x, count);
      if AllFit(l, v) {
        assert Fits(l[0], v[0]) && Fits(l[1], v[1]) && Fits(l[2], v[2]) && Fits(l[3], v[3]);
        assert Fits(l[4], v[4]) && Fits(l[5], v[5]) && Fits(l[6], v[6]) && Fits(l[7], v[7]);
        EncodeIsConcat(l, v, LimitParts(x, SignedDigits(count, 4)));
      }
    }
  }

  lemma IndexListExactly(ixs: seq<Index>)
    ensures IndexListOk(ixs) <==> IndexesInBounds(ixs)
    ensures IndexListOk(ixs) ==>
            && IndexesFit(BackupPayloads.INDEX_SHAPE, false, ixs) && Kinds(ixs)
            && EncodeIndexes(BackupPayloads.INDEX_SHAPE, ixs) == DescriptorsBytes(ixs)
  {
    hide DescriptorsOk, IndexesFit, EncodeIndexes, DescriptorsBytes;
    assert BackupPayloads.INDEX_SHAPE == ShapeOf(TextBounds(0, 1024, 128), false);
    DescriptorsExactly(TextBounds(0, 1024, 128), false, ixs);
  }

  /** In-bound metadata, and its file. */
  lemma MetadataExactly(m: Metadata)
    ensures MetadataFits(m) <==> MetadataInBounds(m)
    ensures MetadataFits(m) ==>
            EncodeMetadata(m) == MetadataBytes(m) + Digits(Checksum(MetadataBytes(m)), 4)
  {
    hide AllFit, LimitsOk, IndexListOk, Encode, Concat, HeadParts, LimitParts, Checksum, Digits, LimitsInBounds;
    hide IndexesInBounds, IndexesFit, EncodeIndexes, DescriptorsBytes, SignedDigits, InSigned;
    IndexListExactly(m.indexes);
    if |m.indexes| <= 100_000 {
      HeadFits(m);
      LimitsFit(m.limits, |m.indexes|);
      SmallCount(|m.indexes|);
    } else {
      TooMany(m.indexes);
    }
  }

  lemma TooMany(ixs: seq<Index>)
    requires |ixs| > 100_000
    ensures !IndexesInBounds(ixs) && !IndexListOk(ixs)
  {
  }

  // ---- checkpoint ----

  predicate CheckpointInBounds(m: Metadata, c: Checkpoint) {
    && Eight(m.historyMost) && Eight(m.historyLeast)
    && 0 <= c.sequence < 0x8000_0000_0000_0000 && |c.slots| < 0x8000_0000
    && |set i | 0 <= i < |c.slots| && c.slots[i].Document?| <= m.limits.maxDocuments
    && |m.indexes| <= 100_000 && DescriptorsOk(TextBounds(0, 1024, 128), m.indexes)
    && SlotsOk(SlotBounds(m.limits.maxKey, m.limits.maxDocument), c.slots)
  }

  function CheckpointParts(m: Metadata, c: Checkpoint): seq<seq<byte>>
    requires CheckpointInBounds(m, c)
  {
    [Ascii("GSECHK10"), [0, 1], [0, 0], Digits(m.historyMost, 8), Digits(m.historyLeast, 8),
     Digits(c.sequence, 8), Digits(|c.slots|, 4), Digits(|set i | 0 <= i < |c.slots| && c.slots[i].Document?|, 4),
     Digits(|m.indexes|, 4)]
  }

  function CheckpointBytes(m: Metadata, c: Checkpoint): seq<byte>
    requires CheckpointInBounds(m, c)
  {
    KindsOf(TextBounds(0, 1024, 128), m.indexes);
    Concat(CheckpointParts(m, c)) + (DescriptorsBytes(m.indexes) + (Digits(|c.slots|, 4) + SlotsBytes(c.slots)))
  }

  lemma CheckpointHeadExactly(m: Metadata, c: Checkpoint)
    requires c.sequence >= 0 && |m.indexes| <= 100_000
    ensures AllFit(BackupPayloads.CHECKPOINT_HEAD, CheckpointValues(m, c.sequence, |c.slots|, CountLive(c.slots)))
            <==> Eight(m.historyMost) && Eight(m.historyLeast) && c.sequence < 0x8000_0000_0000_0000
                 && |c.slots| < 0x8000_0000
    ensures CheckpointInBounds(m, c)
            && AllFit(BackupPayloads.CHECKPOINT_HEAD,
               CheckpointValues(m, c.sequence, |c.slots|, CountLive(c.slots))) ==>
            Encode(BackupPayloads.CHECKPOINT_HEAD, CheckpointValues(m, c.sequence, |c.slots|, CountLive(c.slots)))
            == Concat(CheckpointParts(m, c))
  {
    hide Fits, EncodeField, Digits, Ascii, Encode, Concat, DescriptorsOk, SlotsOk;
    MagicField("GSECHK10", 0x4753_4543_484B_3130);
    VersionField(1);
    VersionField(0);
    NumberField(m.historyMost);
    NumberField(m.historyLeast);
    CountField(c.sequence);
    LiveAreDocuments(c.slots);
    CountField(|c.slots|);
    CountField(CountLive(c.slots));
    CountField(|m.indexes|);
    var l, v := BackupPayloads.CHECKPOINT_HEAD, CheckpointValues(m, c.sequence, |c.slots|, CountLive(c.slots));
    if AllFit(l, v) {
      assert Fits(l[3], v[3]) && Fits(l[4], v[4]) && Fits(l[5], v[5]) && Fits(l[6], v[6]);
      if CheckpointInBounds(m, c) {
        EncodeIsConcat(l, v, CheckpointParts(m, c));
      }
    }
  }

  lemma SmallCount(n: nat)
    ensures InSigned(n, 4) <==> n < 0x8000_0000
    ensures InSigned(n, 4) ==> SignedDigits(n, 4) == Digits(n, 4)
  {
    FourByteBound();
  }

  /** An in-bound checkpoint, and its file. */
  lemma CheckpointExactly(m: Metadata, c: Checkpoint)
    ensures CheckpointFits(m, c) <==> CheckpointInBounds(m, c)
    ensures CheckpointFits(m, c) ==>
            EncodeCheckpoint(m, c) == CheckpointBytes(m, c) + Digits(Checksum(CheckpointBytes(m, c)), 4)
  {
    hide AllFit, Encode, Concat, CheckpointValues, CheckpointParts, Checksum, Digits, SignedDigits, InSigned, CountLive;
    hide IndexesFit, EncodeIndexes, DescriptorsOk, DescriptorsBytes, SlotsFit, EncodeSlots, SlotsOk, SlotsBytes;
    LiveAreDocuments(c.slots);
    SmallCount(|c.slots|);
    SlotsExactly(Bounds(m), c.slots);
    assert BackupPayloads.INDEX_SHAPE == ShapeOf(TextBounds(0, 1024, 128), false);
    DescriptorsExactly(TextBounds(0, 1024, 128), false, m.indexes);
    if c.sequence >= 0 && |m.indexes| <= 100_000 {
      CheckpointHeadExactly(m, c);
    }
  }

  // ---- manifest ----

  predicate IdentityInBounds(x: Identity) {
    && Eight(x.historyMost) && Eight(x.historyLeast) && 0 <= x.sequence < 0x8000_0000_0000_0000
    && NameOk(x.storageIdentity) && NameOk(x.schemaIdentity) && NameOk(x.codecIdentity)
    && 0 <= x.codecVersion < 0x8000_0000
  }

  predicate PayloadInBounds(p: Payload) { Eight(p.size) && |p.sha256| == 32 }

  predicate ManifestInBounds(m: Manifest) {
    && IdentityInBounds(m.identity) && PayloadInBounds(m.checkpoint) && PayloadInBounds(m.metadata)
    && |m.contentDigest| == 32
    && -0x8000_0000_0000_0000 <= m.createdEpochMillis < 0x8000_0000_0000_0000
    && TextOk(m.requestId, 0, 256)
  }

  function PrefixParts(): seq<seq<byte>> {
    [Ascii("GSEBKP10"), [0, 1], [0, 0], Sized(Ascii("gse-backup")), Sized(Ascii("gse-durable")), [0, 1], [0, 0]]
  }

  function IdentityParts(x: Identity): seq<seq<byte>>
    requires IdentityInBounds(x)
  {
    [Digits(x.historyMost, 8), Digits(x.historyLeast, 8), Digits(x.sequence, 8),
     Sized(x.storageIdentity), Sized(x.schemaIdentity), Sized(x.codecIdentity), Digits(x.codecVersion, 4)]
  }

  function PayloadParts(name: seq<byte>, p: Payload): seq<seq<byte>>
    requires PayloadInBounds(p)
  {
    [Sized(name), Digits(p.size, 8), p.sha256]
  }

  function CheckpointPart(m: Manifest): seq<seq<byte>>
    requires PayloadInBounds(m.checkpoint)
  {
    PayloadParts(Ascii("gse-backup-checkpoint"), m.checkpoint)
  }

  function MetadataPart(m: Manifest): seq<seq<byte>>
    requires PayloadInBounds(m.metadata)
  {
    PayloadParts(Ascii("gse-backup-metadata"), m.metadata)
  }

  function TrailerParts(m: Manifest): seq<seq<byte>>
    requires ManifestInBounds(m)
  {
    SequenceField(m.createdEpochMillis);
    [m.contentDigest, SignedDigits(m.createdEpochMillis, 8), Sized(m.requestId)]
  }

  function ManifestBytes(m: Manifest): seq<byte>
    requires ManifestInBounds(m)
  {
    Concat(PrefixParts())
    + (Concat(IdentityParts(m.identity))
       + ([0, 0, 0, 2]
          + (Concat(CheckpointPart(m)) + (Concat(MetadataPart(m)) + Concat(TrailerParts(m))))))
  }

  lemma FamilyNames()
    ensures NameOk(BACKUP_FAMILY) && EncodeField(NAME, Blob(BACKUP_FAMILY)) == Sized(Ascii("gse-backup"))
    ensures NameOk(SOURCE_FAMILY) && EncodeField(NAME, Blob(SOURCE_FAMILY)) == Sized(Ascii("gse-durable"))
  {
    FamilyFits();
    NameField(BACKUP_FAMILY);
    NameField(SOURCE_FAMILY);
    hide Ascii, NameOk, Fits, EncodeField, Sized;
  }

  lemma PrefixWritten()
    ensures PrefixBytes() == Concat(PrefixParts())
  {
    hide Fits, EncodeField, Sized, Digits, Ascii, Encode, Concat, NameOk, BACKUP_FAMILY, SOURCE_FAMILY;
    PrefixFits();
    MagicField("GSEBKP10", 0x4753_4542_4B50_3130);
    VersionField(1);
    VersionField(0);
    FamilyNames();
    EncodeIsConcat(PREFIX_LAYOUT, PREFIX_VALUES, PrefixParts());
  }

  lemma IdentityExactly(x: Identity)
    ensures IdentityFits(x) <==> IdentityInBounds(x)
    ensures IdentityFits(x) ==> Encode(IDENTITY_LAYOUT, IdentityValues(x)) == Concat(IdentityParts(x))
  {
    hide Fits, EncodeField, NameOk, Sized, Digits, Encode, Concat;
    NumberField(x.historyMost);
    NumberField(x.historyLeast);
    NameField(x.storageIdentity);
    NameField(x.schemaIdentity);
    NameField(x.codecIdentity);
    if x.sequence >= 0 && x.codecVersion >= 0 {
      CountField(x.sequence);
      CountField(x.codecVersion);
      var l, v := IDENTITY_LAYOUT, IdentityValues(x);
      if AllFit(l, v) {
        assert Fits(l[0], v[0]) && Fits(l[1], v[1]) && Fits(l[2], v[2]) && Fits(l[3], v[3]);
        assert Fits(l[4], v[4]) && Fits(l[5], v[5]) && Fits(l[6], v[6]);
        EncodeIsConcat(l, v, IdentityParts(x));
      }
    }
  }

  lemma DigestField(s: seq<byte>)
    ensures Fits(Raw(32), Blob(s)) <==> |s| == 32
    ensures Fits(Raw(32), Blob(s)) ==> EncodeField(Raw(32), Blob(s)) == s
  {
  }

  lemma MemberExactly(name: seq<byte>, p: Payload)
    requires NameOk(name)
    ensures MemberFits(name, p) <==> PayloadInBounds(p)
    ensures MemberFits(name, p) ==> EncodeMember(name, p) == Concat(PayloadParts(name, p))
  {
    hide Fits, EncodeField, NameOk, Sized, Digits, Encode, Concat;
    NameField(name);
    NumberField(p.size);
    DigestField(p.sha256);
    var l, v := MEMBER_LAYOUT, MemberValues(name, p);
    if AllFit(l, v) {
      assert Fits(l[1], v[1]) && Fits(l[2], v[2]);
      EncodeIsConcat(l, v, PayloadParts(name, p));
    }
  }

  lemma TrailerExactly(m: Manifest)
    ensures AllFit(TRAILER_LAYOUT, TrailerValues(m)) <==>
            && |m.contentDigest| == 32
            && -0x8000_0000_0000_0000 <= m.createdEpochMillis < 0x8000_0000_0000_0000
            && TextOk(m.requestId, 0, 256)
    ensures ManifestInBounds(m) && AllFit(TRAILER_LAYOUT, TrailerValues(m)) ==>
            Encode(TRAILER_LAYOUT, TrailerValues(m)) == Concat(TrailerParts(m))
  {
    hide EncodeField, TextOk, Sized, Digits, SignedDigits, Encode, Concat, IdentityInBounds, PayloadInBounds;
    DigestField(m.contentDigest);
    SequenceField(m.createdEpochMillis);
    if InSigned(m.createdEpochMillis, 8) {
      SequenceWritten(m.createdEpochMillis);
    }
    TextField(0, 256, m.requestId);
    var l, v := TRAILER_LAYOUT, TrailerValues(m);
    assert Fits(S64, Number(m.createdEpochMillis)) <==> InSigned(m.createdEpochMillis, 8);
    hide Fits;
    if AllFit(l, v) {
      assert Fits(l[0], v[0]) && Fits(l[1], v[1]) && Fits(l[2], v[2]);
      if ManifestInBounds(m) {
        EncodeIsConcat(l, v, TrailerParts(m));
      }
    }
  }

  lemma TwoMembers()
    ensures Digits(2, 4) == [0, 0, 0, 2]
  {
    UnsignedOfFour([0, 0, 0, 2]);
    DigitsOfUnsigned([0, 0, 0, 2]);
  }

  lemma MembersExactly(m: Manifest)
    ensures MemberFits(CHECKPOINT_MEMBER, m.checkpoint) <==> PayloadInBounds(m.checkpoint)
    ensures MemberFits(METADATA_MEMBER, m.metadata) <==> PayloadInBounds(m.metadata)
    ensures PayloadInBounds(m.checkpoint) ==>
            EncodeMember(CHECKPOINT_MEMBER, m.checkpoint)
            == Concat(CheckpointPart(m))
    ensures PayloadInBounds(m.metadata) ==>
            EncodeMember(METADATA_MEMBER, m.metadata) == Concat(MetadataPart(m))
  {
    hide EncodeMember, MemberFits, PayloadInBounds, PayloadParts, Concat, Ascii, NameOk;
    MemberNames();
    MemberExactly(CHECKPOINT_MEMBER, m.checkpoint);
    MemberExactly(METADATA_MEMBER, m.metadata);
  }

  lemma MemberNames()
    ensures NameOk(CHECKPOINT_MEMBER) && NameOk(METADATA_MEMBER)
  {
    MemberNamesFit();
    NameField(CHECKPOINT_MEMBER);
    NameField(METADATA_MEMBER);
    hide Ascii, NameOk, Fits;
  }

  lemma BodyWritten(m: Manifest)
    requires ManifestFits(m) && ManifestInBounds(m)
    ensures ManifestBody(m) == ManifestBytes(m)
  {
    hide AllFit, Encode, Concat, IdentityFits, IdentityInBounds, MemberFits, PayloadInBounds, EncodeMember, TextOk;
    hide PrefixBytes, PrefixParts, IdentityParts, CheckpointPart, MetadataPart, TrailerParts, Digits, Ascii;
    hide IdentityValues;
    hide TrailerValues;
    PrefixWritten();
    IdentityExactly(m.identity);
    MembersExactly(m);
    TrailerExactly(m);
    TwoMembers();
  }

  lemma BoundsOfManifest(m: Manifest)
    ensures ManifestFits(m) <==> ManifestInBounds(m)
  {
    hide AllFit, IdentityFits, IdentityInBounds, MemberFits, PayloadInBounds, TextOk, Ascii, IdentityValues;
    hide TrailerValues;
    IdentityExactly(m.identity);
    MembersExactly(m);
    TrailerExactly(m);
  }

  /** An in-bound manifest, and its file. */
  lemma ManifestExactly(m: Manifest)
    ensures ManifestFits(m) <==> ManifestInBounds(m)
    ensures ManifestFits(m) ==>
            EncodeManifest(m) == ManifestBytes(m) + Digits(Checksum(ManifestBytes(m)), 4)
  {
    hide ManifestFits, ManifestInBounds, ManifestBody, ManifestBytes, Checksum, Digits;
    BoundsOfManifest(m);
    if ManifestFits(m) {
      BodyWritten(m);
    }
  }

  // ---- what the content digest covers ----

  function ContentParts(m: Manifest): seq<seq<byte>> {
    [Sized(Ascii("gse-backup")), [0, 1], [0, 0], Sized(Ascii("gse-durable")), [0, 1], [0, 0]]
  }

  function ContentBytes(m: Manifest): seq<byte>
    requires ManifestInBounds(m)
  {
    Ascii("gse-backup-content-v1\0")
    + (Concat(ContentParts(m))
       + (Concat(IdentityParts(m.identity))
          + ([0, 0, 0, 2] + (Concat(CheckpointPart(m)) + Concat(MetadataPart(m))))))
  }

  lemma StringField(s: seq<byte>)
    requires NameOk(s)
    ensures Fits(STRING, Blob(s)) && EncodeField(STRING, Blob(s)) == Sized(s)
  {
    TextField(0, 0xFFFF_FFFF, s);
  }

  lemma FamilyWritten(m: Manifest)
    requires AllFit(FAMILY_LAYOUT, FamilyValues(FieldsOf(m.identity)))
    ensures Encode(FAMILY_LAYOUT, FamilyValues(FieldsOf(m.identity))) == Concat(ContentParts(m))
  {
    hide Fits, EncodeField, Sized, Ascii, Encode, Concat, NameOk;
    VersionField(1);
    VersionField(0);
    FamilyNames();
    StringField(BACKUP_FAMILY);
    StringField(SOURCE_FAMILY);
    EncodeIsConcat(FAMILY_LAYOUT, FamilyValues(FieldsOf(m.identity)), ContentParts(m));
  }

  lemma ContentIdentityWritten(x: Identity)
    requires IdentityInBounds(x) && AllFit(CONTENT_LAYOUT, IdentityValues(x))
    ensures Encode(CONTENT_LAYOUT, IdentityValues(x)) == Concat(IdentityParts(x))
  {
    hide Fits, EncodeField, Sized, Digits, Encode, Concat, NameOk;
    NumberField(x.historyMost);
    NumberField(x.historyLeast);
    StringField(x.storageIdentity);
    StringField(x.schemaIdentity);
    StringField(x.codecIdentity);
    CountField(x.sequence);
    CountField(x.codecVersion);
    EncodeIsConcat(CONTENT_LAYOUT, IdentityValues(x), IdentityParts(x));
  }

  lemma DescribedWritten(name: seq<byte>, p: Payload)
    requires NameOk(name) && PayloadInBounds(p) && AllFit(DESCRIBED_LAYOUT, DescribedValues(Described(name, p)))
    ensures Encode(DESCRIBED_LAYOUT, DescribedValues(Described(name, p))) == Concat(PayloadParts(name, p))
  {
    hide Fits, EncodeField, Sized, Digits, Encode, Concat, NameOk;
    StringField(name);
    NumberField(p.size);
    DigestField(p.sha256);
    EncodeIsConcat(DESCRIBED_LAYOUT, DescribedValues(Described(name, p)), PayloadParts(name, p));
  }

  lemma DescribedOne(e: Described)
    requires AllFit(DESCRIBED_LAYOUT, DescribedValues(e))
    ensures AllDescribable([e]) && EncodeDescribed([e]) == Encode(DESCRIBED_LAYOUT, DescribedValues(e))
  {
    hide AllFit, Encode;
    assert [e][1..] == [] && EncodeDescribed([e][1..]) == [];
    assert Encode(DESCRIBED_LAYOUT, DescribedValues(e)) + [] == Encode(DESCRIBED_LAYOUT, DescribedValues(e));
  }

  lemma DescribedTwo(d: Described, e: Described)
    requires AllDescribable([d, e])
    ensures AllFit(DESCRIBED_LAYOUT, DescribedValues(d)) && AllFit(DESCRIBED_LAYOUT, DescribedValues(e))
    ensures EncodeDescribed([d, e]) == Encode(DESCRIBED_LAYOUT, DescribedValues(d))
                                       + Encode(DESCRIBED_LAYOUT, DescribedValues(e))
  {
    hide AllFit, Encode;
    assert AllFit(DESCRIBED_LAYOUT, DescribedValues([d, e][0])) && AllFit(DESCRIBED_LAYOUT, DescribedValues([d, e][1]));
    DescribedOne(e);
    assert [d, e][1..] == [e];
  }

  lemma PayloadsWritten(m: Manifest)
    requires ManifestInBounds(m) && AllDescribable(Payloads(m.checkpoint, m.metadata))
    ensures EncodeDescribed(Payloads(m.checkpoint, m.metadata)) ==
            Concat(CheckpointPart(m)) + Concat(MetadataPart(m))
  {
    hide AllFit, Encode, Concat, IdentityInBounds, AllDescribable, TextOk, EncodeDescribed, PayloadParts, Ascii, NameOk;
    MemberNames();
    DescribedTwo(Described(CHECKPOINT_MEMBER, m.checkpoint), Described(METADATA_MEMBER, m.metadata));
    DescribedWritten(CHECKPOINT_MEMBER, m.checkpoint);
    DescribedWritten(METADATA_MEMBER, m.metadata);
  }

  lemma ContentWritten(m: Manifest, f: Fields, ds: seq<Described>)
    requires Hashable(f, ds) && f == FieldsOf(m.identity) && ds == Payloads(m.checkpoint, m.metadata)
    requires ManifestInBounds(m)
    ensures ContentPreimage(f, ds) == ContentBytes(m)
  {
    hide AllFit, Encode, Concat, IdentityInBounds, PayloadInBounds, AllDescribable, EncodeDescribed, TextOk;
    hide ContentParts, IdentityParts, CheckpointPart, MetadataPart, Digits, Ascii, FamilyValues, IdentityValues;
    FamilyWritten(m);
    ContentIdentityWritten(m.identity);
    PayloadsWritten(m);
    TwoMembers();
  }

  /** The hashed bytes: a domain string, the two families with their versions, the identity fields,
      and name, size and digest of both payloads. */
  lemma ContentExactly(m: Manifest)
    requires ManifestFits(m)
    ensures ManifestInBounds(m) && BundlePreimage(m) == ContentBytes(m)
  {
    ManifestExactly(m);
    BundleIsHashable(m.identity, m.checkpoint, m.metadata);
    ContentWritten(m, FieldsOf(m.identity), Payloads(m.checkpoint, m.metadata));
    hide ManifestFits, ManifestInBounds, ContentBytes, ContentPreimage, Hashable, Payloads, FieldsOf;
  }

  // ---- bundles ----

  /** A bundle is a directory of exactly these three files. */
  lemma FilesExactly(files: map<string, seq<byte>>, b: Bundle)
    ensures BundleIn(files) == Some(b) <==>
            files == map["gse-backup-checkpoint" := b.checkpoint, "gse-backup-metadata" := b.metadata,
                         "gse-backup-manifest" := b.manifest]
  {
    var names := map["gse-backup-checkpoint" := b.checkpoint, "gse-backup-metadata" := b.metadata,
                     "gse-backup-manifest" := b.manifest];
    assert |"gse-backup-checkpoint"| == 21 && |"gse-backup-metadata"| == |"gse-backup-manifest"| == 19;
    assert "gse-backup-metadata"[12] != "gse-backup-manifest"[12];
    assert names.Keys == MEMBERS;
    if BundleIn(files) == Some(b) {
      forall k | k in files ensures k in names && files[k] == names[k] {
        assert k in MEMBERS;
      }
      assert files.Keys == names.Keys;
    }
  }

  /** The three files of one backup of metadata `meta` and checkpoint `c` under manifest `m`. */
  ghost predicate Written(sha: Hash, b: Bundle, m: Manifest, meta: Metadata, c: Checkpoint) {
    && MetadataInBounds(meta) && CheckpointInBounds(meta, c) && ManifestInBounds(m)
    && b.metadata == MetadataBytes(meta) + Digits(Checksum(MetadataBytes(meta)), 4)
    && b.checkpoint == CheckpointBytes(meta, c) + Digits(Checksum(CheckpointBytes(meta, c)), 4)
    && b.manifest == ManifestBytes(m) + Digits(Checksum(ManifestBytes(m)), 4)
    && m.checkpoint == Payload(|b.checkpoint|, sha(b.checkpoint))
    && m.metadata == Payload(|b.metadata|, sha(b.metadata))
    && m.contentDigest == sha(ContentBytes(m))
    && m.identity == Identity(meta.historyMost, meta.historyLeast, c.sequence, meta.storageIdentity,
                              meta.schemaIdentity, meta.codecIdentity, meta.limits.codecVersion)
  }

  /** The inspector accepts a bundle under manifest `m` exactly when its files are those of one
      backup: sizes, digests, content digest and all shared fields agree. */
  lemma BundleExactly(sha: Hash, b: Bundle, m: Manifest)
    ensures InspectBundle(sha, b) == Some(m) <==> exists meta, c :: Written(sha, b, m, meta, c)
  {
    hide Written, InspectBundle;
    if InspectBundle(sha, b) == Some(m) {
      var meta, c := BundleRead(sha, b, m);
    }
    if meta, c :| Written(sha, b, m, meta, c) {
      BundleWritten(sha, b, m, meta, c);
    }
  }

  lemma BundleRead(sha: Hash, b: Bundle, m: Manifest) returns (meta: Metadata, c: Checkpoint)
    requires InspectBundle(sha, b) == Some(m)
    ensures Written(sha, b, m, meta, c)
  {
    hide ParseManifest, ParseMetadata, ParseCheckpoint, ManifestFits, MetadataFits, CheckpointFits, Checksum, Digits;
    hide MetadataInBounds, CheckpointInBounds, ManifestInBounds, MetadataBytes, CheckpointBytes, ManifestBytes;
    hide EncodeManifest, EncodeMetadata, EncodeCheckpoint, BundlePreimage, ContentBytes;
    ManifestDecodes(b.manifest);
    meta := ParseMetadata(b.metadata).value;
    c := ParseCheckpoint(b.checkpoint, meta).value;
    MetadataDecodes(b.metadata);
    CheckpointDecodes(b.checkpoint, meta);
    ManifestExactly(m);
    MetadataExactly(meta);
    CheckpointExactly(meta, c);
    ContentExactly(m);
  }

  lemma BundleWritten(sha: Hash, b: Bundle, m: Manifest, meta: Metadata, c: Checkpoint)
    requires Written(sha, b, m, meta, c)
    ensures InspectBundle(sha, b) == Some(m)
  {
    hide ParseManifest, ParseMetadata, ParseCheckpoint, ManifestFits, MetadataFits, CheckpointFits, Checksum, Digits;
    hide MetadataInBounds, CheckpointInBounds, ManifestInBounds, MetadataBytes, CheckpointBytes, ManifestBytes;
    hide EncodeManifest, EncodeMetadata, EncodeCheckpoint, BundlePreimage, ContentBytes;
    ManifestExactly(m);
    MetadataExactly(meta);
    CheckpointExactly(meta, c);
    ContentExactly(m);
    ManifestCanonical(b.manifest, m);
    MetadataCanonical(b.metadata, meta);
    CheckpointCanonical(b.checkpoint, meta, c);
  }
}
