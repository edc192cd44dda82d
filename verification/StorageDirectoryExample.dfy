/**
 A store directory that the inspector accepts and that may not be cleaned up from the front:
 generation 0 leads, and generation 1 behind it does not begin at sequence 1.
 */
module StorageDirectoryExample {
  import opened Bytes
  import opened Options
  import opened SortedSets
  import opened Crc32c
  import opened Layouts
  import opened StorageParts
  import opened StorageFiles
  import opened WriteAheadLog
  import opened LogGrammar
  import opened StorageDirectory

  // ---- metadata ----

  const STORE: seq<byte> := Ascii("store")

  const METADATA_VALUES: seq<Value> := [
    Number(METADATA_MAGIC), Number(1), Number(0), Number(7), Number(9),
    Blob(Ascii("gse-durable")), Blob(STORE), Blob(STORE), Blob(STORE), Number(1),
    Number(1024), Number(4096), Number(1000), Number(10000), Number(1048576), Number(67108864), Number(0)]

  const EXAMPLE_METADATA := Metadata(7, 9, STORE, STORE, STORE, 1, 1024, 4096, 1000, 10000, 1048576, 67108864, [])

  lemma NamesFit()
    ensures Fits(Text(1, 1024), Blob(STORE)) && Fits(Text(1, 1024), Blob(Ascii("gse-durable")))
  {
    IntegerBounds();
    AsciiIsUtf8(STORE);
    AsciiIsUtf8(Ascii("gse-durable"));
    hide Pow256;
  }

  lemma MetadataValuesFit()
    ensures AllFit(METADATA_HEAD, METADATA_VALUES)
  {
    NamesFit();
    IntegerBounds();
    hide Pow256, Utf8, Ascii;
  }

  lemma MetadataValuesOk()
    requires AllFit(METADATA_HEAD, METADATA_VALUES)
    ensures MetadataHeadOk(METADATA_VALUES) && MetadataOf(METADATA_VALUES, []) == EXAMPLE_METADATA
    ensures METADATA_VALUES[16].n == 0
  {
    hide AllFit, Ascii;
  }

  function MetadataBytes(): seq<byte> {
    MetadataValuesFit();
    Checked(Encode(METADATA_HEAD, METADATA_VALUES))
  }

  lemma MetadataAccepted()
    ensures InspectMetadata(MetadataBytes()) == Some(EXAMPLE_METADATA)
  {
    MetadataValuesFit();
    MetadataValuesOk();
    hide Encode, Checksum, MetadataHeadOk, AllFit, InspectMetadata, MetadataOf;
    SealedMetadata(METADATA_VALUES);
  }

  lemma SealedMetadata(v: seq<Value>)
    requires AllFit(METADATA_HEAD, v) && MetadataHeadOk(v) && v[16].n == 0
    ensures InspectMetadata(Checked(Encode(METADATA_HEAD, v))) == Some(MetadataOf(v, []))
  {
    var body := Encode(METADATA_HEAD, v);
    LayoutEncodes(METADATA_HEAD, v, []);
    assert body + [] == body;
    hide Encode, Decode, Checksum, MetadataHeadOk, AllFit, MetadataOf;
    CheckedCodec(Checked(body), 4, body);
  }

  // ---- the checkpoint: no document, taken at sequence 4 ----

  const CHECKPOINT_VALUES: seq<Value> := [
    Number(CHECKPOINT_MAGIC), Number(1), Number(0), Number(7), Number(9), Number(4), Number(0), Number(0), Number(0)]

  lemma CheckpointValuesFit()
    ensures AllFit(CHECKPOINT_HEAD, CHECKPOINT_VALUES)
  {
    IntegerBounds();
    hide Pow256;
  }

  function CheckpointBody(): seq<byte> {
    CheckpointValuesFit();
    Encode(CHECKPOINT_HEAD, CHECKPOINT_VALUES) + Digits(0, 4)
  }

  function CheckpointBytes(): seq<byte> { Checked(CheckpointBody()) }

  lemma CheckpointTail()
    requires AllFit(CHECKPOINT_HEAD, CHECKPOINT_VALUES)
    ensures AllFit(CHECKPOINT_HEAD[5..], CHECKPOINT_VALUES[5..])
    ensures |Encode(CHECKPOINT_HEAD[5..], CHECKPOINT_VALUES[5..])| == 20
  {
    EncodeSize(CHECKPOINT_HEAD, CHECKPOINT_VALUES, 5);
    EncodeSize(CHECKPOINT_HEAD, CHECKPOINT_VALUES, 6);
    EncodeSize(CHECKPOINT_HEAD, CHECKPOINT_VALUES, 7);
    EncodeSize(CHECKPOINT_HEAD, CHECKPOINT_VALUES, 8);
  }

  lemma CheckpointLength()
    ensures |CheckpointBytes()| == 56
  {
    hide Checksum;
    CheckpointValuesFit();
    CheckpointTail();
    var l, v := CHECKPOINT_HEAD, CHECKPOINT_VALUES;
    EncodeSize(l, v, 0);
    EncodeSize(l, v, 1);
    EncodeSize(l, v, 2);
    EncodeSize(l, v, 3);
    EncodeSize(l, v, 4);
    assert l[0..] == l && v[0..] == v;
  }

  // ---- the manifest: that checkpoint, and generation 2 from sequence 5 on ----

  function Zeros(n: nat): (s: seq<byte>)
    ensures |s| == n && forall i :: 0 <= i < n ==> s[i] == 0x30
  {
    seq(n, _ => 0x30 as byte)
  }

  function CheckpointName(): seq<byte> { Ascii("gse-checkpoint-") + Zeros(20) + [0x2D] + Zeros(32) + Ascii(".chk") }

  lemma CheckpointNameOk()
    ensures IsCheckpointName(CheckpointName()) && Fits(Text(1, 1024), Blob(CheckpointName()))
  {
    NameBytes();
    var s := CheckpointName();
    hide CheckpointName, Ascii;
    IntegerBounds();
    AsciiIsUtf8(s);
    hide Pow256, Utf8;
  }

  lemma NameBytes()
    ensures var s := CheckpointName();
            && |s| == 72 && s[..15] == Ascii("gse-checkpoint-") && s[68..] == Ascii(".chk") && s[35] == 0x2D
            && (forall i :: 0 <= i < 72 ==> s[i] <= 0x7F)
            && (forall i :: 15 <= i < 35 || 36 <= i < 68 ==> s[i] == 0x30)
  {
  }

  const BOUNDARY_GENERATION := 2

  function ManifestValues(checksum: nat, name: seq<byte>): seq<Value> {
    [Number(MANIFEST_MAGIC), Number(1), Number(0), Number(7), Number(9), Number(4), Number(56),
     Number(checksum), Blob(name), Number(BOUNDARY_GENERATION), Number(5)]
  }

  function ExampleManifest(): Manifest {
    Manifest(4, 56, Checksum(CheckpointBody()), CheckpointName(), BOUNDARY_GENERATION, 5)
  }

  lemma ManifestValuesFit(checksum: nat, name: seq<byte>)
    requires checksum < Pow256(4) && Fits(Text(1, 1024), Blob(name))
    ensures AllFit(MANIFEST_LAYOUT, ManifestValues(checksum, name))
  {
    IntegerBounds();
    hide Pow256, Utf8;
  }

  lemma ManifestValuesOk(checksum: nat, name: seq<byte>)
    requires AllFit(MANIFEST_LAYOUT, ManifestValues(checksum, name)) && IsCheckpointName(name)
    ensures ManifestOk(ManifestValues(checksum, name), EXAMPLE_METADATA)
  {
    hide IsCheckpointName, AllFit;
  }

  function ManifestBytes(): seq<byte> {
    CheckpointNameOk();
    ManifestValuesFit(Checksum(CheckpointBody()), CheckpointName());
    Checked(Encode(MANIFEST_LAYOUT, ManifestValues(Checksum(CheckpointBody()), CheckpointName())))
  }

  lemma ManifestEnd(checksum: nat, name: seq<byte>)
    requires AllFit(MANIFEST_LAYOUT, ManifestValues(checksum, name)) && |name| == 72
    ensures AllFit(MANIFEST_LAYOUT[8..], ManifestValues(checksum, name)[8..])
    ensures |Encode(MANIFEST_LAYOUT[8..], ManifestValues(checksum, name)[8..])| == 92
  {
    hide Utf8, Pow256;
    var l, v := MANIFEST_LAYOUT, ManifestValues(checksum, name);
    EncodeSize(l, v, 8);
    EncodeSize(l, v, 9);
    EncodeSize(l, v, 10);
  }

  lemma ManifestTail(checksum: nat, name: seq<byte>)
    requires AllFit(MANIFEST_LAYOUT, ManifestValues(checksum, name)) && |name| == 72
    ensures AllFit(MANIFEST_LAYOUT[4..], ManifestValues(checksum, name)[4..])
    ensures |Encode(MANIFEST_LAYOUT[4..], ManifestValues(checksum, name)[4..])| == 120
  {
    ManifestEnd(checksum, name);
    hide Utf8, Pow256;
    var l, v := MANIFEST_LAYOUT, ManifestValues(checksum, name);
    EncodeSize(l, v, 4);
    EncodeSize(l, v, 5);
    EncodeSize(l, v, 6);
    EncodeSize(l, v, 7);
  }

  lemma ManifestLength(checksum: nat, name: seq<byte>)
    requires AllFit(MANIFEST_LAYOUT, ManifestValues(checksum, name)) && |name| == 72
    ensures |Encode(MANIFEST_LAYOUT, ManifestValues(checksum, name))| == 140
  {
    ManifestTail(checksum, name);
    hide Utf8;
    var l, v := MANIFEST_LAYOUT, ManifestValues(checksum, name);
    EncodeSize(l, v, 0);
    EncodeSize(l, v, 1);
    EncodeSize(l, v, 2);
    EncodeSize(l, v, 3);
    assert l[0..] == l && v[0..] == v;
  }

  lemma SealedManifest(v: seq<Value>, m: Metadata)
    requires AllFit(MANIFEST_LAYOUT, v) && ManifestOk(v, m) && 68 <= |Encode(MANIFEST_LAYOUT, v)| <= 1024
    ensures InspectManifest(Checked(Encode(MANIFEST_LAYOUT, v)), m)
            == Some(Manifest(v[5].n, v[6].n, v[7].n, v[8].s, v[9].n, v[10].n))
  {
    var body := Encode(MANIFEST_LAYOUT, v);
    LayoutEncodes(MANIFEST_LAYOUT, v, []);
    assert body + [] == body;
    hide Encode, Decode, Checksum, ManifestOk;
    CheckedCodec(Checked(body), 72, body);
  }

  lemma ManifestAccepted()
    ensures InspectManifest(ManifestBytes(), EXAMPLE_METADATA) == Some(ExampleManifest())
  {
    var checksum, name := Checksum(CheckpointBody()), CheckpointName();
    CheckpointNameOk();
    ManifestValuesFit(checksum, name);
    ManifestValuesOk(checksum, name);
    ManifestLength(checksum, name);
    hide Encode, Checksum, AllFit, CheckpointBody, CheckpointName, IsCheckpointName, InspectManifest, ManifestOk;
    SealedManifest(ManifestValues(checksum, name), EXAMPLE_METADATA);
  }

  lemma CheckpointHeadAccepted()
    requires AllFit(CHECKPOINT_HEAD, CHECKPOINT_VALUES)
    ensures CheckpointHeadOk(CHECKPOINT_VALUES, EXAMPLE_METADATA, ExampleManifest())
  {
    hide AllFit, Checksum, CheckpointBody, CheckpointName;
  }

  lemma StoredChecksum(body: seq<byte>)
    ensures var data := Checked(body); Unsigned(data[|data| - 4..]) == Checksum(body)
  {
    hide Unsigned;
    var data := Checked(body);
    assert data[|data| - 4..] == Digits(Checksum(body), 4);
    UnsignedOfDigits(Checksum(body), 4);
    hide Checksum, Digits;
  }

  lemma NoSlots()
    ensures DecodeInt(4, true, Digits(0, 4)) == Some((0, []))
  {
    IntegerBounds();
    var s := Digits(0, 4);
    assert s == SignedDigits(0, 4) && s + [] == s;
    hide Pow256, Digits;
    IntCodec(4, true, s, 0, []);
  }

  lemma SealedCheckpoint(v: seq<Value>, m: Metadata, man: Manifest)
    requires AllFit(CHECKPOINT_HEAD, v) && CheckpointHeadOk(v, m, man) && v[6].n == v[7].n == v[8].n == 0
    requires var body := Encode(CHECKPOINT_HEAD, v) + Digits(0, 4);
             man.checkpointBytes == |body| + 4 == 56 && man.checkpointChecksum == Checksum(body)
    ensures InspectCheckpoint(Checked(Encode(CHECKPOINT_HEAD, v) + Digits(0, 4)), m, man).Some?
  {
    hide Encode, Decode, Checksum, CheckpointHeadOk, Digits, Unsigned, DecodeInt, AllFit;
    var body := Encode(CHECKPOINT_HEAD, v) + Digits(0, 4);
    NoSlots();
    LayoutEncodes(CHECKPOINT_HEAD, v, Digits(0, 4));
    StoredChecksum(body);
    CheckedCodec(Checked(body), 56, body);
  }

  lemma CheckpointAccepted()
    ensures InspectCheckpoint(CheckpointBytes(), EXAMPLE_METADATA, ExampleManifest()).Some?
  {
    CheckpointValuesFit();
    CheckpointLength();
    CheckpointHeadAccepted();
    hide Encode, Checksum, AllFit, CheckpointHeadOk, Digits, CheckpointName, InspectCheckpoint;
    SealedCheckpoint(CHECKPOINT_VALUES, EXAMPLE_METADATA, ExampleManifest());
  }

  // ---- the generations: headers only, all from sequence 5 on ----

  function Generation(g: nat): seq<byte>
    requires g < 3
  {
    IntegerBounds();
    WalHeader(EXAMPLE_METADATA, g, 5)
  }

  function EmptyReport(g: nat): WalReport { WalReport(g, 5, [], 4, WAL_HEADER_BYTES, NoTail, WAL_HEADER_BYTES) }

  lemma EmptyWal(m: Metadata, data: seq<byte>, generation: int, first: int)
    requires |data| == WAL_HEADER_BYTES && WalHeaderOk(data, m, generation, first)
    ensures FirstField(data) == first
    ensures InspectWal(data, m, generation, first)
            == Some(WalReport(generation, first, [], first - 1, WAL_HEADER_BYTES, NoTail, WAL_HEADER_BYTES))
  {
    hide Scan, WalHeaderOk, FirstField;
    FirstFieldOf(m, data, generation, first);
    EmptyScan(m, data, first);
  }

  lemma GenerationAccepted(g: nat)
    requires g < 3
    ensures |Generation(g)| == WAL_HEADER_BYTES && FirstField(Generation(g)) == 5
    ensures InspectWal(Generation(g), EXAMPLE_METADATA, g, 5) == Some(EmptyReport(g))
  {
    IntegerBounds();
    var data := Generation(g);
    assert data == WalHeader(EXAMPLE_METADATA, g, 5) && data + [] == data;
    hide InspectWal, FirstField, WalHeader, WalHeaderOk, Generation, Pow256;
    WalHeaderEncodes(EXAMPLE_METADATA, g, 5, []);
    EmptyWal(EXAMPLE_METADATA, data, g, 5);
  }

  lemma FirstFieldOf(m: Metadata, data: seq<byte>, generation: int, first: int)
    requires |data| >= WAL_HEADER_BYTES && WalHeaderOk(data, m, generation, first)
    ensures FirstField(data) == first
  {
    hide Checksum, Unsigned, Signed;
  }

  lemma EmptyScan(m: Metadata, data: seq<byte>, expected: int)
    requires |data| == WAL_HEADER_BYTES
    ensures Scan(m, data, WAL_HEADER_BYTES, expected) == Some(Frames([], WAL_HEADER_BYTES, NoTail))
  {
    hide FrameAt;
  }

  function ExampleDirectory(): Directory {
    map[MetadataFile := MetadataBytes(), ManifestFile := ManifestBytes(),
      CheckpointFile(CheckpointName()) := CheckpointBytes(),
        Wal(0) := Generation(0), Wal(1) := Generation(1), Wal(2) := Generation(2)]
  }

  lemma ExampleLink(g: nat, previous: Option<(nat, int)>)
    requires g < 3 && LinkOk(Some(ExampleManifest()), previous, g, 5)
    ensures InspectLink(EXAMPLE_METADATA, Some(ExampleManifest()), Generation(g), g, previous) == Some(EmptyReport(g))
  {
    GenerationAccepted(g);
    hide InspectWal, FirstField, ExampleManifest, LinkOk, Generation;
  }

  lemma ChainHead(m: Metadata, manifest: Option<Manifest>, dir: Directory, gens: seq<nat>, previous: Option<(nat, int)>,
                  r: WalReport, rest: seq<WalReport>)
    requires gens != [] && forall n :: n in gens ==> Wal(n) in dir
    requires InspectLink(m, manifest, dir[Wal(gens[0])], gens[0], previous) == Some(r)
    requires InspectChain(m, manifest, dir, gens[1..], Some((gens[0], r.lastSequence + 1))) == Some(rest)
    ensures InspectChain(m, manifest, dir, gens, previous) == Some([r] + rest)
  {
    hide InspectLink;
  }

  function Reports(): seq<WalReport> { [EmptyReport(0), EmptyReport(1), EmptyReport(2)] }

  lemma ExampleChain()
    ensures forall g :: g in [0, 1, 2] ==> Wal(g) in ExampleDirectory()
    ensures InspectChain(EXAMPLE_METADATA, Some(ExampleManifest()), ExampleDirectory(), [0, 1, 2], None)
            == Some(Reports())
  {
    ExampleLinks();
    ExampleFiles();
    hide InspectLink, InspectChain, ExampleDirectory, ExampleManifest, Generation, MetadataBytes, ManifestBytes;
    hide CheckpointBytes;
    ThreeChain(EXAMPLE_METADATA, Some(ExampleManifest()), ExampleDirectory(), [0, 1, 2], EmptyReport(0),
      EmptyReport(1), EmptyReport(2));
  }

  lemma ThreeChain(m: Metadata, manifest: Option<Manifest>, dir: Directory, gens: seq<nat>, a: WalReport, b: WalReport,
      c: WalReport)
    requires gens == [0, 1, 2] && Wal(0) in dir && Wal(1) in dir && Wal(2) in dir
    requires InspectLink(m, manifest, dir[Wal(0)], 0, None) == Some(a)
    requires InspectLink(m, manifest, dir[Wal(1)], 1, Some((0, a.lastSequence + 1))) == Some(b)
    requires InspectLink(m, manifest, dir[Wal(2)], 2, Some((1, b.lastSequence + 1))) == Some(c)
    ensures forall g :: g in gens ==> Wal(g) in dir
    ensures InspectChain(m, manifest, dir, gens, None) == Some([a, b, c])
  {
    hide InspectChain, InspectLink;
    var later, last := gens[1..], gens[1..][1..];
    assert later == [1, 2] && last == [2] && last[1..] == [];
    assert [c] + [] == [c] && [b] + [c] == [b, c] && [a] + [b, c] == [a, b, c];
    EmptyChain(m, manifest, dir, last[1..], Some((2, c.lastSequence + 1)));
    ChainHead(m, manifest, dir, last, Some((1, b.lastSequence + 1)), c, []);
    ChainHead(m, manifest, dir, later, Some((0, a.lastSequence + 1)), b, [c]);
    ChainHead(m, manifest, dir, gens, None, a, [b, c]);
  }

  lemma EmptyChain(m: Metadata, manifest: Option<Manifest>, dir: Directory, gens: seq<nat>,
      previous: Option<(nat, int)>)
    requires gens == []
    ensures InspectChain(m, manifest, dir, gens, previous) == Some([])
  {
  }

  lemma ExampleLinks()
    ensures var manifest := Some(ExampleManifest());
            && InspectLink(EXAMPLE_METADATA, manifest, Generation(0), 0, None) == Some(EmptyReport(0))
            && InspectLink(EXAMPLE_METADATA, manifest, Generation(1), 1, Some((0, 5))) == Some(EmptyReport(1))
            && InspectLink(EXAMPLE_METADATA, manifest, Generation(2), 2, Some((1, 5))) == Some(EmptyReport(2))
  {
    hide InspectLink, Generation, Checksum, CheckpointBody, CheckpointName;
    ExampleLink(0, None);
    ExampleLink(1, Some((0, 5)));
    ExampleLink(2, Some((1, 5)));
  }

  lemma ExampleFiles()
    ensures var dir := ExampleDirectory();
            && MetadataFile in dir && dir[MetadataFile] == MetadataBytes()
            && ManifestFile in dir && dir[ManifestFile] == ManifestBytes()
            && CheckpointFile(CheckpointName()) in dir && dir[CheckpointFile(CheckpointName())] == CheckpointBytes()
            && Wal(0) in dir && dir[Wal(0)] == Generation(0) && Wal(1) in dir && dir[Wal(1)] == Generation(1)
            && Wal(2) in dir && dir[Wal(2)] == Generation(2)
            && !(exists n :: n in dir && n.Unknown?) && Generations(dir) == {0, 1, 2}
  {
    hide MetadataBytes, ManifestBytes, CheckpointBytes, CheckpointName, Generation;
    var dir := ExampleDirectory();
    forall g: nat ensures g in Generations(dir) <==> g in {0, 1, 2} {
      assert g in Generations(dir) <==> Wal(g) in dir;
    }
  }

  lemma ExampleOrder()
    ensures Sorted({0, 1, 2}) == [0, 1, 2]
  {
    SortedInterval({0, 1, 2}, 0, 3);
    assert Interval(0, 3) == [0, 1, 2];
  }

  /** The directory is accepted, and its durable sequence is the checkpoint's. */
  lemma ExampleAccepted()
    ensures InspectDirectory(ExampleDirectory()).Some?
    ensures var r := InspectDirectory(ExampleDirectory()).value;
            r.durableSequence == 4 && r.wals == Reports() && r.manifest == Some(ExampleManifest())
  {
    ExampleFiles();
    ExampleChain();
    ExampleOrder();
    ExampleAuthority();
    MetadataAccepted();
    BoundaryIsThere();
    var dir := ExampleDirectory();
    var (manifest, checkpoint) := InspectAuthority(dir, EXAMPLE_METADATA).value;
    hide ExampleDirectory, InspectMetadata, InspectAuthority, InspectChain, MetadataBytes, Generations, Sorted;
    hide BoundaryOk, InspectDirectory, ExampleManifest;
    InspectFromParts(dir, Inspection(EXAMPLE_METADATA, manifest, checkpoint, [], 0), Some(Reports()));
    DurableHistory(dir);
  }

  lemma ExampleAuthority()
    ensures InspectAuthority(ExampleDirectory(), EXAMPLE_METADATA).Some?
    ensures InspectAuthority(ExampleDirectory(), EXAMPLE_METADATA).value.0 == Some(ExampleManifest())
  {
    ExampleFiles();
    ManifestAccepted();
    CheckpointAccepted();
    hide ExampleDirectory, InspectManifest, InspectCheckpoint, ManifestBytes, CheckpointBytes, CheckpointName, Checksum;
  }

  lemma BoundaryIsThere()
    ensures BoundaryOk(ExampleManifest(), Reports())
  {
    hide Checksum, CheckpointBody, CheckpointName;
    assert Reports()[2].generation == 2;
  }

  /** Deleting generation 0, far below the manifest's boundary, makes this accepted directory
      rejected; deleting generation 1 with it does not. */
  lemma LeadingZeroMayNotBeDeleted()
    ensures InspectDirectory(ExampleDirectory()).Some?
    ensures InspectDirectory(ExampleDirectory() - {Wal(0)}).None?
    ensures InspectDirectory(ExampleDirectory() - {Wal(0), Wal(1)}).Some?
  {
    ExampleAccepted();
    ExampleFiles();
    var dir := ExampleDirectory();
    var r := InspectDirectory(dir).value;
    hide InspectDirectory;
    FirstCleanup(dir, r);
    SafeCleanup(dir, 1, {Wal(0)});
    SafeCleanup(dir, 2, {Wal(0), Wal(1)});
    hide ExampleDirectory, CleanupUpTo, CleanupCovered;
  }

  lemma FirstCleanup(dir: Directory, r: Inspection)
    requires Generations(dir) == {0, 1, 2} && r.wals == Reports() && r.manifest == Some(ExampleManifest())
    ensures CleanupUpTo(dir, r, 1, {Wal(0)}) && !CleanupCovered(r, 1)
    ensures CleanupUpTo(dir, r, 2, {Wal(0), Wal(1)}) && CleanupCovered(r, 2)
  {
    hide Checksum, CheckpointBody, CheckpointName;
  }
}
