/**
 The metadata, checkpoint manifest and checkpoint files of the durable store byte by byte, with
 their bounds, and the theorem that each inspector accepts exactly these.
 */
module StorageForms {
  import opened Bytes
  import opened Options
  import opened Crc32c
  import opened Layouts
  import Orders
  import opened ByteForms
  import opened PartForms
  import opened StorageParts
  import opened StorageFiles

  // ---- metadata ----

  predicate MetadataInBounds(m: Metadata) {
    && 0 <= m.historyMost < 0x1_0000_0000_0000_0000 && 0 <= m.historyLeast < 0x1_0000_0000_0000_0000
    && TextOk(m.storageIdentity, 1, 1024) && TextOk(m.schemaIdentity, 1, 1024) && TextOk(m.codecId, 1, 1024)
    && 0 <= m.codecVersion < 0x8000_0000
    && 1 <= m.maxKeyBytes <= 67_108_864 && 1 <= m.maxDocumentBytes <= 268_435_456
    && 1 <= m.maxBulkElements <= 1_000_000 && 1 <= m.maxDocuments <= 100_000_000
    && 1 <= m.checkpointWalBytes <= 1_099_511_627_776
    && m.checkpointWalBytes < m.maxRetainedBytes <= 17_592_186_044_416
    && |m.indexes| <= 100_000 && DescriptorsOk(TextBounds(1, 1024, 1024), m.indexes)
  }

  function MetadataParts(m: Metadata): seq<seq<byte>>
    requires MetadataInBounds(m)
  {
    [Ascii("GSEMETA1"), [0, 1], [0, 0], Digits(m.historyMost, 8), Digits(m.historyLeast, 8),
     Sized(Ascii("gse-durable")), Sized(m.storageIdentity), Sized(m.schemaIdentity), Sized(m.codecId),
     Digits(m.codecVersion, 4), Digits(m.maxKeyBytes, 4), Digits(m.maxDocumentBytes, 4), Digits(m.maxBulkElements, 4),
     Digits(m.maxDocuments, 4), Digits(m.checkpointWalBytes, 8), Digits(m.maxRetainedBytes, 8),
     Digits(|m.indexes|, 4)]
  }

  function MetadataBytes(m: Metadata): seq<byte>
    requires MetadataInBounds(m)
  {
    KindsOf(TextBounds(1, 1024, 1024), m.indexes);
    Concat(MetadataParts(m)) + DescriptorsBytes(m.indexes)
  }

  function HeadValues(m: Metadata): (vs: seq<Value>)
    ensures |vs| == 17
  {
    [Number(0x4753_454D_4554_4131), Number(1), Number(0), Number(m.historyMost), Number(m.historyLeast),
     Blob(Ascii("gse-durable")), Blob(m.storageIdentity), Blob(m.schemaIdentity), Blob(m.codecId),
     Number(m.codecVersion), Number(m.maxKeyBytes), Number(m.maxDocumentBytes), Number(m.maxBulkElements),
     Number(m.maxDocuments), Number(m.checkpointWalBytes), Number(m.maxRetainedBytes), Number(|m.indexes|)]
  }

  lemma FamilyText()
    ensures TextOk(Ascii("gse-durable"), 1, 1024)
  {
    AsciiIsUtf8(Ascii("gse-durable"));
  }

  lemma HeadWritten(m: Metadata)
    requires MetadataInBounds(m)
    ensures AllFit(METADATA_HEAD, HeadValues(m)) && Encode(METADATA_HEAD, HeadValues(m)) == Concat(MetadataParts(m))
    ensures MetadataHeadOk(HeadValues(m))
  {
    hide Fits, EncodeField, TextOk, Sized, Digits, Ascii, DescriptorsOk, Encode, Concat;
    MagicField("GSEMETA1", 0x4753_454D_4554_4131);
    VersionField(1);
    VersionField(0);
    NumberField(m.historyMost);
    NumberField(m.historyLeast);
    FamilyText();
    TextField(1, 1024, Ascii("gse-durable"));
    TextField(1, 1024, m.storageIdentity);
    TextField(1, 1024, m.schemaIdentity);
    TextField(1, 1024, m.codecId);
    CountField(m.codecVersion);
    CountField(m.maxKeyBytes);
    CountField(m.maxDocumentBytes);
    CountField(m.maxBulkElements);
    CountField(m.maxDocuments);
    CountField(m.checkpointWalBytes);
    CountField(m.maxRetainedBytes);
    CountField(|m.indexes|);
    EncodeIsConcat(METADATA_HEAD, HeadValues(m), MetadataParts(m));
  }

  lemma HeadRead(h: seq<Value>, indexes: seq<Index>)
    requires AllFit(METADATA_HEAD, h) && MetadataHeadOk(h)
    requires DescriptorsOk(TextBounds(1, 1024, 1024), indexes) && |indexes| == h[16].n
    ensures MetadataInBounds(MetadataOf(h, indexes)) && h == HeadValues(MetadataOf(h, indexes))
  {
    hide Fits, TextOk, Ascii, DescriptorsOk;
    var l := METADATA_HEAD;
    assert Fits(l[3], h[3]) && Fits(l[4], h[4]) && Fits(l[6], h[6]) && Fits(l[7], h[7]) && Fits(l[8], h[8]);
    assert Fits(l[9], h[9]);
    HeadKinds(h);
    NumberField(h[3].n);
    NumberField(h[4].n);
    TextField(1, 1024, h[6].s);
    TextField(1, 1024, h[7].s);
    TextField(1, 1024, h[8].s);
    CountField(h[9].n);
  }

  lemma HeadKinds(h: seq<Value>)
    requires AllFit(METADATA_HEAD, h)
    ensures |h| == 17 && forall i :: 0 <= i < 17 ==> (if 5 <= i <= 8 then h[i].Blob? else h[i].Number?)
  {
    hide Utf8, Pow256;
    forall i | 0 <= i < 17 ensures if 5 <= i <= 8 then h[i].Blob? else h[i].Number? {
      assert Fits(METADATA_HEAD[i], h[i]);
    }
  }

  /** The metadata inspector accepts a file as `m` exactly when it is these bytes. */
  lemma MetadataExactly(data: seq<byte>, m: Metadata)
    ensures InspectMetadata(data) == Some(m) <==>
            MetadataInBounds(m) && data == MetadataBytes(m) + Digits(Checksum(MetadataBytes(m)), 4)
  {
    hide MetadataInBounds, MetadataBytes, Checksum, Digits;
    if InspectMetadata(data) == Some(m) {
      MetadataRead(data, m);
    }
    if MetadataInBounds(m) && data == MetadataBytes(m) + Digits(Checksum(MetadataBytes(m)), 4) {
      CheckedCodec(data, 4, MetadataBytes(m));
      MetadataWritten(data, m);
    }
  }

  lemma MetadataRead(data: seq<byte>, m: Metadata)
    requires InspectMetadata(data) == Some(m)
    ensures MetadataInBounds(m) && data == Checked(MetadataBytes(m))
  {
    hide MetadataInBounds, MetadataHeadOk, MetadataOf, MetadataParts, Checked, Unchecked, Encode, Decode, HeadValues;
    hide DescriptorsOk, DescriptorsBytes, DecodeIndexes, IndexesFit, EncodeIndexes, Concat;
    var body := Unchecked(data, 4).value;
    CheckedCodec(data, 4, body);
    LayoutDecodes(METADATA_HEAD, body);
    var (h, rest) := Decode(METADATA_HEAD, body).value;
    IndexCount(h);
    IndexesDecode(INDEX_SHAPE, true, h[16].n, rest);
    var (indexes, end) := DecodeIndexes(INDEX_SHAPE, true, h[16].n, rest).value;
    MetadataIndexes(h, indexes);
    DescriptorsExactly(TextBounds(1, 1024, 1024), true, indexes);
    HeadRead(h, indexes);
    HeadWritten(m);
    BoundedDescriptors(m);
    assert rest == EncodeIndexes(INDEX_SHAPE, indexes) + [] == DescriptorsBytes(m.indexes);
  }

  lemma MetadataIndexes(h: seq<Value>, indexes: seq<Index>)
    requires AllFit(METADATA_HEAD, h)
    ensures MetadataOf(h, indexes).indexes == indexes
  {
  }

  lemma BoundedDescriptors(m: Metadata)
    requires MetadataInBounds(m)
    ensures DescriptorsOk(TextBounds(1, 1024, 1024), m.indexes)
  {
  }

  lemma MetadataWritten(data: seq<byte>, m: Metadata)
    requires MetadataInBounds(m) && Unchecked(data, 4) == Some(MetadataBytes(m))
    ensures InspectMetadata(data) == Some(m)
  {
    hide MetadataHeadOk, MetadataParts, Checked, Unchecked, Encode, Decode, HeadValues, Fits;
    hide DescriptorsOk, DescriptorsBytes, DecodeIndexes, IndexesFit, EncodeIndexes, Concat;
    DescriptorsExactly(TextBounds(1, 1024, 1024), true, m.indexes);
    HeadWritten(m);
    BoundedDescriptors(m);
    LayoutEncodes(METADATA_HEAD, HeadValues(m), DescriptorsBytes(m.indexes));
    IndexesEncode(INDEX_SHAPE, true, m.indexes, []);
    assert DescriptorsBytes(m.indexes) + [] == DescriptorsBytes(m.indexes);
    HeadOf(m);
  }

  lemma HeadOf(m: Metadata)
    requires AllFit(METADATA_HEAD, HeadValues(m))
    ensures HeadValues(m)[16] == Number(|m.indexes|) && MetadataOf(HeadValues(m), m.indexes) == m
  {
    hide Fits, Ascii;
  }

  // ---- checkpoint manifest ----

  predicate DecimalByte(b: byte) { 0x30 <= b <= 0x39 }

  predicate HexByte(b: byte) { 0x30 <= b <= 0x39 || 0x61 <= b <= 0x66 }

  /** `gse-checkpoint-`, 20 digits, `-`, 32 lower-case hex digits, `.chk`. */
  ghost predicate CheckpointName(s: seq<byte>) {
    exists d: seq<byte>, x: seq<byte> :: NameParts(s, d, x)
  }

  predicate NameParts(s: seq<byte>, d: seq<byte>, x: seq<byte>) {
    && |d| == 20 && (forall i :: 0 <= i < 20 ==> DecimalByte(d[i]))
    && |x| == 32 && (forall i :: 0 <= i < 32 ==> HexByte(x[i]))
    && s == Ascii("gse-checkpoint-") + d + Ascii("-") + x + Ascii(".chk")
  }

  lemma NameExactly(s: seq<byte>)
    ensures IsCheckpointName(s) <==> CheckpointName(s)
    ensures IsCheckpointName(s) ==> TextOk(s, 1, 1024)
  {
    if IsCheckpointName(s) {
      var d, x := s[15..35], s[36..68];
      assert s[35..36] == Ascii("-");
      assert s == s[..15] + d + s[35..36] + x + s[68..];
      assert NameParts(s, d, x);
      forall i | 0 <= i < |s| ensures s[i] <= 0x7F {
        NameByte(s, i);
      }
      AsciiIsUtf8(s);
    }
    if d, x :| NameParts(s, d, x) {
      assert s[..15] == Ascii("gse-checkpoint-") && s[15..35] == d && s[36..68] == x && s[68..] == Ascii(".chk");
      assert forall i :: 15 <= i < 35 ==> s[i] == d[i - 15];
      assert forall i :: 36 <= i < 68 ==> s[i] == x[i - 36];
      assert s[35] == Ascii("-")[0];
    }
  }

  lemma NameByte(s: seq<byte>, i: nat)
    requires IsCheckpointName(s) && i < |s|
    ensures s[i] <= 0x7F
  {
    if i < 15 {
      assert s[i] == s[..15][i];
    } else if i >= 68 {
      assert s[i] == s[68..][i - 68];
    }
  }

  ghost predicate ManifestInBounds(m: Metadata, man: Manifest) {
    && 0 <= m.historyMost < 0x1_0000_0000_0000_0000 && 0 <= m.historyLeast < 0x1_0000_0000_0000_0000
    && 0 <= man.checkpointSequence && 56 <= man.checkpointBytes < 0x8000_0000_0000_0000
    && 0 <= man.checkpointChecksum < 0x1_0000_0000
    && CheckpointName(man.checkpointFile)
    && 2 <= man.walGeneration < 0x8000_0000_0000_0000
    && man.walFirstSequence == man.checkpointSequence + 1 < 0x8000_0000_0000_0000
  }

  function ManifestParts(m: Metadata, man: Manifest): seq<seq<byte>>
    requires ManifestInBounds(m, man)
  {
    [Ascii("GSEMAN10"), [0, 1], [0, 0], Digits(m.historyMost, 8), Digits(m.historyLeast, 8),
     Digits(man.checkpointSequence, 8), Digits(man.checkpointBytes, 8), Digits(man.checkpointChecksum, 4),
     Sized(man.checkpointFile), Digits(man.walGeneration, 8), Digits(man.walFirstSequence, 8)]
  }

  function ManifestValues(m: Metadata, man: Manifest): (vs: seq<Value>)
    ensures |vs| == 11
  {
    [Number(0x4753_454D_414E_3130), Number(1), Number(0), Number(m.historyMost), Number(m.historyLeast),
     Number(man.checkpointSequence), Number(man.checkpointBytes), Number(man.checkpointChecksum),
     Blob(man.checkpointFile), Number(man.walGeneration), Number(man.walFirstSequence)]
  }

  lemma ManifestHeadWritten(m: Metadata, man: Manifest)
    requires ManifestInBounds(m, man)
    ensures AllFit(MANIFEST_LAYOUT, ManifestValues(m, man)) && ManifestOk(ManifestValues(m, man), m)
    ensures Encode(MANIFEST_LAYOUT, ManifestValues(m, man)) == Concat(ManifestParts(m, man))
  {
    hide Fits, EncodeField, TextOk, Sized, Digits, Ascii, Encode, Concat, CheckpointName, IsCheckpointName;
    MagicField("GSEMAN10", 0x4753_454D_414E_3130);
    VersionField(1);
    VersionField(0);
    NumberField(m.historyMost);
    NumberField(m.historyLeast);
    CountField(man.checkpointSequence);
    CountField(man.checkpointBytes);
    NumberField(man.checkpointChecksum);
    NameExactly(man.checkpointFile);
    TextField(1, 1024, man.checkpointFile);
    CountField(man.walGeneration);
    CountField(man.walFirstSequence);
    EncodeIsConcat(MANIFEST_LAYOUT, ManifestValues(m, man), ManifestParts(m, man));
  }

  lemma ManifestHeadRead(m: Metadata, v: seq<Value>)
    requires AllFit(MANIFEST_LAYOUT, v) && ManifestOk(v, m)
    ensures var man := Manifest(v[5].n, v[6].n, v[7].n, v[8].s, v[9].n, v[10].n);
            ManifestInBounds(m, man) && v == ManifestValues(m, man)
  {
    hide Fits, CheckpointName, IsCheckpointName;
    var l := MANIFEST_LAYOUT;
    assert Fits(l[3], v[3]) && Fits(l[4], v[4]) && Fits(l[6], v[6]) && Fits(l[7], v[7]);
    assert Fits(l[9], v[9]) && Fits(l[10], v[10]);
    ManifestKinds(v);
    NumberField(v[3].n);
    NumberField(v[4].n);
    CountField(v[6].n);
    NumberField(v[7].n);
    NameExactly(v[8].s);
    CountField(v[9].n);
    CountField(v[10].n);
  }

  lemma ManifestKinds(v: seq<Value>)
    requires AllFit(MANIFEST_LAYOUT, v)
    ensures |v| == 11 && forall i :: 0 <= i < 11 ==> (if i == 8 then v[i].Blob? else v[i].Number?)
    ensures |v[8].s| <= 1024
  {
    hide Utf8, Pow256;
    forall i | 0 <= i < 11 ensures if i == 8 then v[i].Blob? else v[i].Number? {
      assert Fits(MANIFEST_LAYOUT[i], v[i]);
    }
    assert Fits(MANIFEST_LAYOUT[8], v[8]);
  }

  /** The manifest inspector accepts a file as `man` exactly when it is these bytes. */
  lemma ManifestExactly(data: seq<byte>, m: Metadata, man: Manifest)
    ensures InspectManifest(data, m) == Some(man) <==>
            && ManifestInBounds(m, man)
            && var body := Concat(ManifestParts(m, man)); data == body + Digits(Checksum(body), 4)
  {
    hide ManifestInBounds, ManifestParts, Checksum, Digits, Concat;
    if InspectManifest(data, m) == Some(man) {
      ManifestRead(data, m, man);
    }
    if ManifestInBounds(m, man) && data == Checked(Concat(ManifestParts(m, man))) {
      ManifestSize(m, man);
      CheckedCodec(data, 72, Concat(ManifestParts(m, man)));
      ManifestWritten(data, m, man);
    }
  }

  lemma ManifestSize(m: Metadata, man: Manifest)
    requires ManifestInBounds(m, man)
    ensures |Concat(ManifestParts(m, man))| == 140
  {
    hide Digits, Ascii, Concat, IsCheckpointName;
    NameExactly(man.checkpointFile);
    SizeOfEleven(ManifestParts(m, man));
  }

  lemma SizeOfEleven(p: seq<seq<byte>>)
    requires |p| == 11
    ensures |Concat(p)| == |p[0]| + |p[1]| + |p[2]| + |p[3]| + |p[4]| + |p[5]| + |p[6]| + |p[7]| + |p[8]| + |p[9]|
                           + |p[10]|
  {
    assert Concat(p[11..]) == [];
    hide Concat;
    ConcatSize(p, 10);
    ConcatSize(p, 9);
    ConcatSize(p, 8);
    ConcatSize(p, 7);
    ConcatSize(p, 6);
    ConcatSize(p, 5);
    ConcatSize(p, 4);
    ConcatSize(p, 3);
    ConcatSize(p, 2);
    ConcatSize(p, 1);
    ConcatSize(p, 0);
    assert p[0..] == p;
  }

  lemma ManifestRead(data: seq<byte>, m: Metadata, man: Manifest)
    requires InspectManifest(data, m) == Some(man)
    ensures ManifestInBounds(m, man) && data == Checked(Concat(ManifestParts(m, man)))
  {
    hide ManifestInBounds, ManifestOk, ManifestParts, Checked, Unchecked, Encode, Decode, ManifestValues, Concat;
    var body := Unchecked(data, 72).value;
    CheckedCodec(data, 72, body);
    LayoutDecodes(MANIFEST_LAYOUT, body);
    var (v, rest) := Decode(MANIFEST_LAYOUT, body).value;
    ManifestHeadRead(m, v);
    ManifestHeadWritten(m, man);
    assert Encode(MANIFEST_LAYOUT, v) + [] == Encode(MANIFEST_LAYOUT, v);
  }

  lemma ManifestWritten(data: seq<byte>, m: Metadata, man: Manifest)
    requires ManifestInBounds(m, man) && Unchecked(data, 72) == Some(Concat(ManifestParts(m, man))) && |data| <= 16384
    ensures InspectManifest(data, m) == Some(man)
  {
    hide ManifestInBounds, ManifestOk, ManifestParts, Unchecked, Encode, Decode, Concat, Fits;
    ManifestHeadWritten(m, man);
    LayoutEncodes(MANIFEST_LAYOUT, ManifestValues(m, man), []);
    assert Encode(MANIFEST_LAYOUT, ManifestValues(m, man)) + [] == Encode(MANIFEST_LAYOUT, ManifestValues(m, man));
  }

  // ---- checkpoint ----

  predicate CheckpointInBounds(m: Metadata, c: Checkpoint, slots: seq<Slot>) {
    && 0 <= m.historyMost < 0x1_0000_0000_0000_0000 && 0 <= m.historyLeast < 0x1_0000_0000_0000_0000
    && -0x8000_0000_0000_0000 <= c.sequence < 0x8000_0000_0000_0000
    && c.nextDocId == |slots| < 0x8000_0000 && SlotsOk(SlotBounds(m.maxKeyBytes, m.maxDocumentBytes), slots)
    && c.liveDocuments == |set i | 0 <= i < |slots| && slots[i].Document?| <= m.maxDocuments
    && |c.indexes| <= 100_000 && DescriptorsOk(TextBounds(1, 1024, 1024), c.indexes)
    && (forall i, j :: 0 <= i < j < |c.indexes| ==> c.indexes[i] != c.indexes[j])
  }

  function CheckpointParts(m: Metadata, c: Checkpoint, slots: seq<Slot>): seq<seq<byte>>
    requires CheckpointInBounds(m, c, slots)
  {
    SequenceField(c.sequence);
    [Ascii("GSECHK10"), [0, 1], [0, 0], Digits(m.historyMost, 8), Digits(m.historyLeast, 8),
     SignedDigits(c.sequence, 8), Digits(|slots|, 4), Digits(c.liveDocuments, 4), Digits(|c.indexes|, 4)]
  }

  function CheckpointBytes(m: Metadata, c: Checkpoint, slots: seq<Slot>): seq<byte>
    requires CheckpointInBounds(m, c, slots)
  {
    KindsOf(TextBounds(1, 1024, 1024), c.indexes);
    Concat(CheckpointParts(m, c, slots)) + DescriptorsBytes(c.indexes) + (Digits(|slots|, 4) + SlotsBytes(slots))
  }

  function CheckpointValues(m: Metadata, c: Checkpoint): (vs: seq<Value>)
    ensures |vs| == 9
  {
    [Number(0x4753_4543_484B_3130), Number(1), Number(0), Number(m.historyMost), Number(m.historyLeast),
     Number(c.sequence), Number(c.nextDocId), Number(c.liveDocuments), Number(|c.indexes|)]
  }

  lemma CheckpointHeadWritten(m: Metadata, man: Manifest, c: Checkpoint, slots: seq<Slot>)
    requires CheckpointInBounds(m, c, slots) && c.sequence == man.checkpointSequence
    ensures AllFit(CHECKPOINT_HEAD, CheckpointValues(m, c)) && CheckpointHeadOk(CheckpointValues(m, c), m, man)
    ensures Encode(CHECKPOINT_HEAD, CheckpointValues(m, c)) == Concat(CheckpointParts(m, c, slots))
  {
    hide EncodeField, Sized, Digits, Ascii, Encode, Concat, DescriptorsOk, SlotsOk;
    MagicField("GSECHK10", 0x4753_4543_484B_3130);
    VersionField(1);
    VersionField(0);
    NumberField(m.historyMost);
    NumberField(m.historyLeast);
    SequenceField(c.sequence);
    assert Fits(S64, Number(c.sequence)) && EncodeField(S64, Number(c.sequence)) == SignedDigits(c.sequence, 8) by {
      SequenceWritten(c.sequence);
    }
    hide Fits;
    LiveFits(slots);
    CountField(c.nextDocId);
    CountField(c.liveDocuments);
    CountField(|c.indexes|);
    EncodeIsConcat(CHECKPOINT_HEAD, CheckpointValues(m, c), CheckpointParts(m, c, slots));
  }

  lemma CheckpointHeadRead(m: Metadata, man: Manifest, h: seq<Value>, indexes: seq<Index>, slots: seq<Slot>)
    requires AllFit(CHECKPOINT_HEAD, h) && CheckpointHeadOk(h, m, man) && Orders.Distinct(indexes)
    requires DescriptorsOk(TextBounds(1, 1024, 1024), indexes) && |indexes| == h[8].n
    requires SlotsOk(SlotBounds(m.maxKeyBytes, m.maxDocumentBytes), slots) && |slots| == h[6].n
    requires CountLive(slots) == h[7].n
    ensures var c := Checkpoint(h[5].n, h[6].n, h[7].n, indexes);
            CheckpointInBounds(m, c, slots) && h == CheckpointValues(m, c)
  {
    hide Fits, DescriptorsOk, SlotsOk;
    var l := CHECKPOINT_HEAD;
    assert Fits(l[3], h[3]) && Fits(l[4], h[4]) && Fits(l[5], h[5]) && Fits(l[6], h[6]);
    CheckpointKinds(h);
    NumberField(h[3].n);
    NumberField(h[4].n);
    SequenceRead(h[5].n);
    CountField(h[6].n);
    LiveAreDocuments(slots);
  }

  lemma CheckpointKinds(h: seq<Value>)
    requires AllFit(CHECKPOINT_HEAD, h)
    ensures |h| == 9 && forall i :: 0 <= i < 9 ==> h[i].Number?
  {
    hide Pow256;
    forall i | 0 <= i < 9 ensures h[i].Number? {
      assert Fits(CHECKPOINT_HEAD[i], h[i]);
    }
  }

  /** The checkpoint inspector accepts a file as `c` exactly when it is these bytes, for some list of
      document slots, with the sequence, the size and the checksum that the manifest names. */
  lemma CheckpointExactly(data: seq<byte>, m: Metadata, man: Manifest, c: Checkpoint)
    ensures InspectCheckpoint(data, m, man) == Some(c) <==>
            && c.sequence == man.checkpointSequence && |data| == man.checkpointBytes
            && exists slots :: IsCheckpoint(data, m, man, c, slots)
  {
    hide IsCheckpoint, InspectCheckpoint;
    if InspectCheckpoint(data, m, man) == Some(c) {
      var slots := CheckpointRead(data, m, man, c);
    }
    if c.sequence == man.checkpointSequence && |data| == man.checkpointBytes {
      if slots :| IsCheckpoint(data, m, man, c, slots) {
        CheckpointWritten(data, m, man, c, slots);
      }
    }
  }

  ghost predicate IsCheckpoint(data: seq<byte>, m: Metadata, man: Manifest, c: Checkpoint, slots: seq<Slot>) {
    && CheckpointInBounds(m, c, slots)
    && data == CheckpointBytes(m, c, slots) + Digits(Checksum(CheckpointBytes(m, c, slots)), 4)
    && Checksum(CheckpointBytes(m, c, slots)) == man.checkpointChecksum
  }

  lemma StoredChecksum(data: seq<byte>, minimum: nat, body: seq<byte>)
    requires minimum >= 4 && Unchecked(data, minimum) == Some(body)
    ensures |data| >= 4 && data == body + Digits(Checksum(body), 4) && Unsigned(data[|data| - 4..]) == Checksum(body)
  {
    hide Checksum, Unsigned;
    CheckedCodec(data, minimum, body);
  }

  lemma CheckpointRead(data: seq<byte>, m: Metadata, man: Manifest, c: Checkpoint) returns (slots: seq<Slot>)
    requires InspectCheckpoint(data, m, man) == Some(c)
    ensures c.sequence == man.checkpointSequence && |data| == man.checkpointBytes
    ensures IsCheckpoint(data, m, man, c, slots)
  {
    hide CheckpointInBounds, CheckpointHeadOk, CheckpointParts, Unchecked, Encode, Decode, CheckpointValues, Concat;
    hide DescriptorsOk, DescriptorsBytes, DecodeIndexes, IndexesFit, EncodeIndexes, Orders.Distinct, DecodeInt;
    hide SlotsOk, SlotsFit, DecodeSlots, EncodeSlots, SlotsBytes, CountLive, Checksum, Unsigned, Digits;
    var bounds := SlotBounds(m.maxKeyBytes, m.maxDocumentBytes);
    var body := Unchecked(data, 56).value;
    StoredChecksum(data, 56, body);
    LayoutDecodes(CHECKPOINT_HEAD, body);
    var (h, s) := Decode(CHECKPOINT_HEAD, body).value;
    CheckpointCounts(h, m, man);
    var (indexes, s1) := DecodeIndexes(INDEX_SHAPE, true, h[8].n, s).value;
    IndexesDecode(INDEX_SHAPE, true, h[8].n, s);
    DescriptorsExactly(TextBounds(1, 1024, 1024), true, indexes);
    var (count, s2) := DecodeInt(4, true, s1).value;
    CountIs(s1);
    SlotsDecode(bounds, count, s2);
    slots := DecodeSlots(bounds, count, s2).value.0;
    SlotsExactly(SlotBounds(m.maxKeyBytes, m.maxDocumentBytes), slots);
    CheckpointHeadRead(m, man, h, indexes, slots);
    CheckpointHeadWritten(m, man, c, slots);
    assert s2 == SlotsBytes(slots) + [] == SlotsBytes(slots);
    Associates(Concat(CheckpointParts(m, c, slots)), DescriptorsBytes(indexes), s1);
  }

  lemma CheckpointCounts(h: seq<Value>, m: Metadata, man: Manifest)
    requires AllFit(CHECKPOINT_HEAD, h) && CheckpointHeadOk(h, m, man)
    ensures h[5].Number? && h[6].Number? && h[7].Number? && h[8].Number?
    ensures h[5].n == man.checkpointSequence && h[6].n >= 0 && h[8].n >= 0
  {
    CheckpointKinds(h);
  }

  lemma CheckpointWritten(data: seq<byte>, m: Metadata, man: Manifest, c: Checkpoint, slots: seq<Slot>)
    requires IsCheckpoint(data, m, man, c, slots)
    requires c.sequence == man.checkpointSequence && |data| == man.checkpointBytes
    ensures InspectCheckpoint(data, m, man) == Some(c)
  {
    hide CheckpointInBounds, CheckpointHeadOk, CheckpointParts, Unchecked, Encode, Decode, CheckpointValues, Concat;
    hide DescriptorsOk, DescriptorsBytes, DecodeIndexes, IndexesFit, EncodeIndexes, DecodeInt, Fits;
    hide SlotsOk, SlotsFit, DecodeSlots, EncodeSlots, SlotsBytes, CountLive, Checksum, Unsigned, Digits;
    var bounds := SlotBounds(m.maxKeyBytes, m.maxDocumentBytes);
    var body := CheckpointBytes(m, c, slots);
    CheckpointSize(m, c, slots);
    CheckedCodec(data, 56, body);
    StoredChecksum(data, 56, body);
    CheckpointHeadWritten(m, man, c, slots);
    CheckpointParams(m, c, slots);
    DescriptorsExactly(TextBounds(1, 1024, 1024), true, c.indexes);
    SlotsExactly(SlotBounds(m.maxKeyBytes, m.maxDocumentBytes), slots);
    var s1 := Digits(|slots|, 4) + SlotsBytes(slots);
    Associates(Concat(CheckpointParts(m, c, slots)), DescriptorsBytes(c.indexes), s1);
    LayoutEncodes(CHECKPOINT_HEAD, CheckpointValues(m, c), DescriptorsBytes(c.indexes) + s1);
    IndexesEncode(INDEX_SHAPE, true, c.indexes, s1);
    CountFollows(|slots|, SlotsBytes(slots));
    SlotsEncode(bounds, slots, []);
    assert SlotsBytes(slots) + [] == SlotsBytes(slots);
  }

  lemma CheckpointParams(m: Metadata, c: Checkpoint, slots: seq<Slot>)
    requires CheckpointInBounds(m, c, slots)
    ensures DescriptorsOk(TextBounds(1, 1024, 1024), c.indexes) && Orders.Distinct(c.indexes)
    ensures SlotsOk(SlotBounds(m.maxKeyBytes, m.maxDocumentBytes), slots)
    ensures c.nextDocId == |slots| < 0x8000_0000 && c.liveDocuments == CountLive(slots)
    ensures var h := CheckpointValues(m, c);
            h[5] == Number(c.sequence) && h[6] == Number(|slots|) && h[7] == Number(c.liveDocuments)
            && h[8] == Number(|c.indexes|)
  {
    hide DescriptorsOk, SlotsOk;
    LiveAreDocuments(slots);
  }

  lemma CheckpointSize(m: Metadata, c: Checkpoint, slots: seq<Slot>)
    requires CheckpointInBounds(m, c, slots)
    ensures |CheckpointBytes(m, c, slots)| >= 52
  {
    hide Digits, SignedDigits, Ascii, DescriptorsBytes, SlotsBytes, DescriptorsOk, SlotsOk;
    var p := CheckpointParts(m, c, slots);
    SequenceField(c.sequence);
    ConcatSize(p, 0);
    ConcatSize(p, 1);
    ConcatSize(p, 2);
    ConcatSize(p, 3);
    ConcatSize(p, 4);
    ConcatSize(p, 5);
    ConcatSize(p, 6);
    ConcatSize(p, 7);
    ConcatSize(p, 8);
    assert p[0..] == p;
  }
}
