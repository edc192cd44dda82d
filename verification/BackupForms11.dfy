/**
 Which (1,1) files have one form only, and concrete files and bundles that show what the
 inspector lets through.
 */
module BackupForms11 {
  import opened Bytes
  import opened Options
  import opened Crc32c
  import opened Layouts
  import opened StorageParts
  import opened BackupFormat
  import opened BackupPayloads
  import opened ContentIdentity
  import opened StorageFormat11
  import opened SealedBackup11

  // ---- which metadata has one form ----

  lemma LimitsInjective11(limits: Limits, indexes: seq<Index>, count: int, other: int)
    requires LimitsFit11(limits, indexes, count) && LimitsFit11(limits, indexes, other)
    requires LimitsBytes11(limits, indexes, count) == LimitsBytes11(limits, indexes, other)
    ensures count == other
  {
    var e := EncodeIndexes(INDEX_SHAPE_11, indexes);
    EncodeInjective(LIMITS_LAYOUT, LimitValues(limits, count), e, LimitValues(limits, other), e);
    assert LimitValues(limits, count)[7] == LimitValues(limits, other)[7];
  }

  lemma ProfileInjective(sha: Hash, s: seq<byte>, t: seq<byte>)
    requires ProfileField(sha, s) == ProfileField(sha, t)
    ensures s == t
  {
    hide ReadProfile, ProfileField;
    ProfileEncodes(sha, s);
    ProfileEncodes(sha, t);
  }

  lemma CheckedInjective(s: seq<byte>, t: seq<byte>)
    requires Checked(s) == Checked(t)
    ensures s == t
  {
    assert Checked(s)[..|Checked(s)| - 4] == s && Checked(t)[..|Checked(t)| - 4] == t;
  }

  lemma FormsDiffer(sha: Hash, m: Metadata11, count: int, other: int)
    requires MetadataFits11(sha, m, count) && MetadataFits11(sha, m, other)
    requires EncodeMetadata11(sha, m, count) == EncodeMetadata11(sha, m, other)
    ensures count == other
  {
    hide Checked, ProfileField, LimitsBytes11, LimitsFit11, Encode, AllFit;
    var h := Encode(METADATA_HEAD_11, HeadValues11(m));
    var s, t := IdentitiesBytes11(m, count), IdentitiesBytes11(m, other);
    CheckedInjective(h + ProfileField(sha, s), h + ProfileField(sha, t));
    DropPrefix(h, ProfileField(sha, s), ProfileField(sha, t));
    ProfileInjective(sha, s, t);
    var n := Encode(METADATA_NAMES_11, NameValues11(m.storageIdentity, m.schemaIdentity, m.codecIdentity));
    DropPrefix(n, LimitsBytes11(m.limits, m.indexes, count), LimitsBytes11(m.limits, m.indexes, other));
    LimitsInjective11(m.limits, m.indexes, count, other);
  }

  lemma OtherCount(sha: Hash, m: Metadata11, count: int) returns (other: int)
    requires MetadataFits11(sha, m, count) && m.indexes == []
    ensures other != count && MetadataFits11(sha, m, other)
  {
    hide Utf8, Ascii, KnownProfile, ProfileDigest, LimitsOk;
    other := if count == 0 then -1 else 0;
    IntegerBounds();
    var v, w := LimitValues(m.limits, count), LimitValues(m.limits, other);
    hide Pow256;
    forall i | 0 <= i < 8 ensures Fits(LIMITS_LAYOUT[i], w[i]) {
      assert Fits(LIMITS_LAYOUT[i], v[i]);
    }
  }

  /** An accepted metadata file is the only form of what it says exactly when it has indexes. */
  lemma UniqueFormExactly(sha: Hash, data: seq<byte>, m: Metadata11)
    requires ParseMetadata11(sha, data) == Some(m)
    ensures (forall other :: ParseMetadata11(sha, other) == Some(m) ==> other == data) <==> m.indexes != []
  {
    hide ParseMetadata11, EncodeMetadata11;
    var count := MetadataDecodes11(sha, data, m);
    if m.indexes == [] {
      var another := OtherCount(sha, m, count);
      var other := EncodeMetadata11(sha, m, another);
      MetadataEncodes11(sha, m, another);
      assert other != data by {
        if other == data {
          FormsDiffer(sha, m, count, another);
        }
      }
    } else {
      forall other | ParseMetadata11(sha, other) == Some(m) ensures other == data {
        var again := MetadataDecodes11(sha, other, m);
        assert count == again;
      }
    }
  }

  // ---- which checkpoint has one form ----

  lemma CheckpointCounts(m: Metadata11, c: Checkpoint11, other: Checkpoint11)
    requires CheckpointFits11(m, c) && CheckpointFits11(m, other)
    requires EncodeCheckpoint11(m, c) == EncodeCheckpoint11(m, other)
    ensures c.slotCount == other.slotCount && c.indexCount == other.indexCount
  {
    hide Checked, Encode, EncodeIndexes, SlotTable, AllFit, SlotTableFits;
    var v, v' := CheckpointValues11(m, c), CheckpointValues11(m, other);
    var s := EncodeIndexes(INDEX_SHAPE_11, m.indexes) + SlotTable(c);
    var s' := EncodeIndexes(INDEX_SHAPE_11, m.indexes) + SlotTable(other);
    CheckedInjective(Encode(CHECKPOINT_HEAD_11, v) + s, Encode(CHECKPOINT_HEAD_11, v') + s');
    EncodeInjective(CHECKPOINT_HEAD_11, v, s, v', s');
    assert v[7] == v'[7] && v[9] == v'[9];
  }

  lemma OtherCounts(m: Metadata11, c: Checkpoint11) returns (other: Checkpoint11)
    requires CheckpointFits11(m, c) && (m.indexes == [] || c.slots == [])
    ensures other == c.(slotCount := other.slotCount, indexCount := other.indexCount) && other != c
    ensures CheckpointFits11(m, other)
  {
    IntegerBounds();
    other := if m.indexes == [] then c.(indexCount := if c.indexCount == 0 then -1 else 0)
             else c.(slotCount := if c.slotCount == 0 then -1 else 0);
    hide Pow256, IndexesFit, SlotsFit;
    var v, w := CheckpointValues11(m, c), CheckpointValues11(m, other);
    forall i | 0 <= i < 10 ensures Fits(CHECKPOINT_HEAD_11[i], w[i]) {
      assert Fits(CHECKPOINT_HEAD_11[i], v[i]);
    }
  }

  /** A checkpoint's sequence and slots have one form exactly when the store has indexes and the
      checkpoint has slots. */
  lemma CheckpointUniqueExactly(m: Metadata11, c: Checkpoint11)
    requires CheckpointFits11(m, c)
    ensures (forall other :: CheckpointFits11(m, other) && other.sequence == c.sequence && other.slots == c.slots ==>
               EncodeCheckpoint11(m, other) == EncodeCheckpoint11(m, c))
            <==> m.indexes != [] && c.slots != []
  {
    if m.indexes == [] || c.slots == [] {
      var other := OtherCounts(m, c);
      hide CheckpointFits11, EncodeCheckpoint11;
      if EncodeCheckpoint11(m, other) == EncodeCheckpoint11(m, c) {
        CheckpointCounts(m, c, other);
      }
    } else {
      hide AllFit, EncodeCheckpoint11, IndexesFit, SlotsFit;
      forall other | CheckpointFits11(m, other) && other.sequence == c.sequence && other.slots == c.slots
        ensures other == c
      {
      }
    }
  }

  // ---- an empty store ----

  const STORE: seq<byte> := Ascii("store")
  const OTHER_STORE: seq<byte> := Ascii("other")

  const EXAMPLE_LIMITS := Limits(1, 1024, 4096, 1000, 10_000, 1_048_576, 67_108_864)

  function ExampleStore(sha: Hash): Metadata11 {
    Metadata11(1, 2, ProfileDigest(sha, KnownProfile()), STORE, STORE, STORE, EXAMPLE_LIMITS, [])
  }

  lemma ExampleNames()
    ensures Fits(NAME_11, Blob(STORE)) && Fits(NAME_11, Blob(OTHER_STORE)) && Fits(NAME_11, Blob(SOURCE_FAMILY))
    ensures STORE != OTHER_STORE
  {
    IntegerBounds();
    hide Pow256;
    AsciiIsUtf8(STORE);
    AsciiIsUtf8(OTHER_STORE);
    AsciiIsUtf8(SOURCE_FAMILY);
    assert STORE[0] != OTHER_STORE[0];
  }

  lemma ExampleHeadFits(sha: Hash)
    ensures AllFit(METADATA_HEAD_11, HeadValues11(ExampleStore(sha)))
    ensures AllFit(METADATA_NAMES_11, NameValues11(STORE, STORE, STORE))
  {
    IntegerBounds();
    ExampleNames();
    hide Pow256, Utf8, Ascii, KnownProfile, ProfileDigest;
    assert Fits(NAME_11, Blob(SOURCE_FAMILY));
  }

  lemma ExampleLimitsFit(count: int)
    requires count == 0 || count == -1
    ensures LimitsFit11(EXAMPLE_LIMITS, [], count)
  {
    IntegerBounds();
    hide Pow256;
  }

  lemma ExampleFits(sha: Hash, count: int)
    requires count == 0 || count == -1
    ensures MetadataFits11(sha, ExampleStore(sha), count)
  {
    hide AllFit, LimitsFit11, KnownProfile, ProfileDigest, Ascii;
    ExampleHeadFits(sha);
    ExampleLimitsFit(count);
  }

  /** An accepted metadata file with a negative index count; it has the same content as another. */
  lemma NegativeCountIsAccepted(sha: Hash)
    ensures MetadataFits11(sha, ExampleStore(sha), 0) && MetadataFits11(sha, ExampleStore(sha), -1)
    ensures var m := ExampleStore(sha);
            && ParseMetadata11(sha, EncodeMetadata11(sha, m, -1)) == Some(m)
            && ParseMetadata11(sha, EncodeMetadata11(sha, m, 0)) == Some(m)
            && EncodeMetadata11(sha, m, -1) != EncodeMetadata11(sha, m, 0)
  {
    ExampleFits(sha, 0);
    ExampleFits(sha, -1);
    hide MetadataFits11, EncodeMetadata11, ParseMetadata11, ExampleStore;
    var m := ExampleStore(sha);
    MetadataEncodes11(sha, m, -1);
    MetadataEncodes11(sha, m, 0);
    if EncodeMetadata11(sha, m, -1) == EncodeMetadata11(sha, m, 0) {
      FormsDiffer(sha, m, -1, 0);
    }
  }

  const EMPTY_CHECKPOINT := Checkpoint11(0, [], 0, 0)

  lemma ExampleCheckpointFits(sha: Hash)
    ensures CheckpointFits11(ExampleStore(sha), EMPTY_CHECKPOINT)
  {
    IntegerBounds();
    hide Pow256, Utf8, Ascii, KnownProfile;
    assert Fits(Raw(32), Blob(ProfileDigest(sha, KnownProfile())));
  }

  lemma MetadataSize(sha: Hash)
    ensures MetadataFits11(sha, ExampleStore(sha), 0)
    ensures |EncodeMetadata11(sha, ExampleStore(sha), 0)| < 10_000
  {
    hide AllFit, Encode, KnownProfile, ProfileDigest, Checksum, Ascii;
    ExampleFits(sha, 0);
    KnownProfileSize();
    var m := ExampleStore(sha);
    LayoutAtMost(METADATA_HEAD_11, HeadValues11(m));
    LayoutAtMost(METADATA_NAMES_11, NameValues11(STORE, STORE, STORE));
    LayoutAtMost(LIMITS_LAYOUT, LimitValues(EXAMPLE_LIMITS, 0));
  }

  lemma CheckpointSize(sha: Hash)
    ensures CheckpointFits11(ExampleStore(sha), EMPTY_CHECKPOINT)
    ensures |EncodeCheckpoint11(ExampleStore(sha), EMPTY_CHECKPOINT)| < 10_000
  {
    hide AllFit, Encode, KnownProfile, ProfileDigest, Checksum, Ascii;
    ExampleCheckpointFits(sha);
    LayoutAtMost(CHECKPOINT_HEAD_11, CheckpointValues11(ExampleStore(sha), EMPTY_CHECKPOINT));
  }

  lemma OtherNameVouches(sha: Hash)
    ensures Vouches(Identity(1, 2, 0, OTHER_STORE, STORE, STORE, 1), ExampleStore(sha), EMPTY_CHECKPOINT)
  {
    IntegerBounds();
    ExampleNames();
    hide Pow256, Utf8, Ascii, KnownProfile, ProfileDigest;
    var v := IdentityValues(Identity(1, 2, 0, OTHER_STORE, STORE, STORE, 1));
    assert AllFit(IDENTITY_LAYOUT_11, v);
    NonemptyNames(v);
  }

  function OtherDraft(sha: Hash): Draft {
    Draft(Identity(1, 2, 0, OTHER_STORE, STORE, STORE, 1), ExampleStore(sha), 0, EMPTY_CHECKPOINT, 0, [])
  }

  lemma OtherIsSealable(sha: Hash)
    ensures Sealable11(sha, OtherDraft(sha))
  {
    hide MetadataFits11, CheckpointFits11, EncodeMetadata11, EncodeCheckpoint11, Vouches, Pow256, Utf8, Ascii;
    MetadataSize(sha);
    CheckpointSize(sha);
    OtherNameVouches(sha);
    IntegerBounds();
    AsciiIsUtf8([]);
  }

  /** An accepted (1,1) bundle whose manifest names another store than its metadata. */
  lemma NamesMayDiffer(sha: Hash) returns (b: Bundle, m: Manifest)
    ensures InspectBackup(sha, b) == Some(m)
    ensures ParseMetadata11(sha, b.metadata) == Some(ExampleStore(sha))
    ensures m.identity.storageIdentity == OTHER_STORE != ExampleStore(sha).storageIdentity
  {
    hide MetadataFits11, CheckpointFits11, EncodeMetadata11, EncodeCheckpoint11, Vouches, InspectBackup;
    hide ParseMetadata11;
    hide Ascii, KnownProfile, EncodeManifest11;
    var s := OtherDraft(sha);
    OtherIsSealable(sha);
    ExampleNames();
    SealedIsAccepted11(sha, s);
    MetadataEncodes11(sha, s.metadata, s.count);
    b, m := Seal11(sha, s), SealedManifest11(sha, s);
  }
}
