/**
 The metadata, checkpoint manifest and checkpoint files of the durable store, format (1,0).
 Each inspector is written twice: a function over the bytes, and the cursor-driven method,
 proved to return what the function says.
 */
module StorageFiles {
  import opened Bytes
  import opened Options
  import opened Crc32c
  import opened Layouts
  import opened StorageParts
  import opened Orders

  const MANIFEST_MAGIC := 0x4753_454D_414E_3130

  const INDEX_SHAPE := IndexShape(true, 1, 1024, 1024)

  datatype Metadata = Metadata(
    historyMost: int, historyLeast: int,
    storageIdentity: seq<byte>, schemaIdentity: seq<byte>, codecId: seq<byte>, codecVersion: int,
    maxKeyBytes: int, maxDocumentBytes: int, maxBulkElements: int, maxDocuments: int,
    checkpointWalBytes: int, maxRetainedBytes: int,
    indexes: seq<Index>)

  // magic, major, minor, history (2), family, storage, schema, codec, codec version, six limits, index count
  const METADATA_HEAD: Layout := [
    U64, S16, S16, U64, U64, Text(1, 1024), Text(1, 1024), Text(1, 1024), Text(1, 1024), S32,
    S32, S32, S32, S32, S64, S64, S32]

  predicate MetadataHeadOk(h: seq<Value>)
    requires AllFit(METADATA_HEAD, h)
  {
    && h[0].n == METADATA_MAGIC && h[1].n == 1 && h[2].n == 0
    && h[5].s == Ascii("gse-durable")
    && h[9].n >= 0
    && 0 < h[10].n <= 64 * 1024 * 1024
    && 0 < h[11].n <= 256 * 1024 * 1024
    && 0 < h[12].n <= 1_000_000
    && 0 < h[13].n <= 100_000_000
    && 0 < h[14].n <= 1024 * 1024 * 1024 * 1024
    && 0 < h[15].n <= 16 * 1024 * 1024 * 1024 * 1024
    && h[15].n > h[14].n
    && 0 <= h[16].n <= 100_000
  }

  function MetadataOf(h: seq<Value>, indexes: seq<Index>): Metadata
    requires AllFit(METADATA_HEAD, h)
  {
    Metadata(h[3].n, h[4].n, h[6].s, h[7].s, h[8].s, h[9].n,
             h[10].n, h[11].n, h[12].n, h[13].n, h[14].n, h[15].n, indexes)
  }

  function InspectMetadata(data: seq<byte>): Option<Metadata> {
    match Unchecked(data, 4)
    case None => None
    case Some(body) =>
      match Decode(METADATA_HEAD, body)
      case None => None
      case Some((h, rest)) =>
        LayoutDecodes(METADATA_HEAD, body);
        if !MetadataHeadOk(h) then None
        else match DecodeIndexes(INDEX_SHAPE, true, h[16].n, rest)
          case None => None
          case Some((indexes, end)) => if end != [] then None else Some(MetadataOf(h, indexes))
  }

  lemma IndexCount(h: seq<Value>)
    requires AllFit(METADATA_HEAD, h) && MetadataHeadOk(h)
    ensures h[16].n >= 0
  {
  }

  method InspectMetadataFile(data: seq<byte>) returns (r: Option<Metadata>)
    ensures r == InspectMetadata(data)
  {
    hide MetadataOf, MetadataHeadOk, Checksum, Unsigned, Decode, DecodeIndexes;
    if |data| < 4 || Checksum(data[..|data| - 4]) != Unsigned(data[|data| - 4..]) { return None; }
    var cursor := new Cursor(data[..|data| - 4]);
    var h := cursor.ReadFields(METADATA_HEAD);
    if h.None? { return None; }
    LayoutDecodes(METADATA_HEAD, cursor.data);
    if !MetadataHeadOk(h.value) { return None; }
    IndexCount(h.value);
    var indexes := ReadIndexes(cursor, INDEX_SHAPE, true, h.value[16].n);
    if indexes.None? || cursor.offset != |cursor.data| { return None; }
    r := Some(MetadataOf(h.value, indexes.value));
  }

  // ---- the checkpoint manifest ----

  predicate Digit(b: byte) { '0' as int <= b as int <= '9' as int }

  predicate LowerHex(b: byte) { Digit(b) || 'a' as int <= b as int <= 'f' as int }

  /** `gse-checkpoint-<20 digits>-<32 lower-case hex digits>.chk` */
  predicate IsCheckpointName(s: seq<byte>) {
    && |s| == 72
    && s[..15] == Ascii("gse-checkpoint-")
    && (forall i :: 15 <= i < 35 ==> Digit(s[i]))
    && s[35] == '-' as int as byte
    && (forall i :: 36 <= i < 68 ==> LowerHex(s[i]))
    && s[68..] == Ascii(".chk")
  }

  datatype Manifest = Manifest(
    checkpointSequence: int, checkpointBytes: int, checkpointChecksum: int, checkpointFile: seq<byte>,
    walGeneration: int, walFirstSequence: int)

  // magic, major, minor, history (2), sequence, bytes, checksum, file name, WAL generation and first sequence
  const MANIFEST_LAYOUT: Layout := [U64, S16, S16, U64, U64, S64, S64, U32, Text(1, 1024), S64, S64]

  predicate ManifestOk(v: seq<Value>, m: Metadata)
    requires AllFit(MANIFEST_LAYOUT, v)
  {
    && v[0].n == MANIFEST_MAGIC && v[1].n == 1 && v[2].n == 0
    && v[3].n == m.historyMost && v[4].n == m.historyLeast
    && v[5].n >= 0
    && v[6].n >= 56
    && IsCheckpointName(v[8].s)
    && v[9].n > 1
    && v[10].n == v[5].n + 1
  }

  function InspectManifest(data: seq<byte>, m: Metadata): Option<Manifest> {
    if |data| > 16 * 1024 then None
    else match Unchecked(data, 72)
      case None => None
      case Some(body) =>
        match Decode(MANIFEST_LAYOUT, body)
        case None => None
        case Some((v, rest)) =>
          LayoutDecodes(MANIFEST_LAYOUT, body);
          if !ManifestOk(v, m) || rest != [] then None
          else Some(Manifest(v[5].n, v[6].n, v[7].n, v[8].s, v[9].n, v[10].n))
  }

  method InspectManifestFile(data: seq<byte>, m: Metadata) returns (r: Option<Manifest>)
    ensures r == InspectManifest(data, m)
  {
    hide Checksum, Unsigned, Decode, ManifestOk;
    if |data| < 72 || |data| > 16 * 1024 || Checksum(data[..|data| - 4]) != Unsigned(data[|data| - 4..]) {
      return None;
    }
    var cursor := new Cursor(data[..|data| - 4]);
    var fields := cursor.ReadFields(MANIFEST_LAYOUT);
    if fields.None? { return None; }
    var v := fields.value;
    LayoutDecodes(MANIFEST_LAYOUT, cursor.data);
    if !ManifestOk(v, m) || cursor.offset != |cursor.data| { return None; }
    r := Some(Manifest(v[5].n, v[6].n, v[7].n, v[8].s, v[9].n, v[10].n));
  }

  /** Any change of up to four consecutive checksummed manifest bytes is rejected. */
  lemma ManifestDetectsBurst(data: seq<byte>, changed: seq<byte>, m: Metadata, at: nat, width: nat)
    requires InspectManifest(data, m).Some?
    requires width <= 4 && at + width <= |data| - 4
    requires DifferWithin(data, changed, at, width) && data != changed
    ensures InspectManifest(changed, m).None?
  {
    CheckedFileDetectsBurst(data, changed, 72, at, width);
  }

  // ---- the checkpoint ----

  datatype Checkpoint = Checkpoint(sequence: int, nextDocId: int, liveDocuments: int, indexes: seq<Index>)

  // magic, major, minor, history (2), sequence, next document id, live documents, index count
  const CHECKPOINT_HEAD: Layout := [U64, S16, S16, U64, U64, S64, S32, S32, S32]

  predicate CheckpointHeadOk(h: seq<Value>, m: Metadata, man: Manifest)
    requires AllFit(CHECKPOINT_HEAD, h)
  {
    && h[0].n == CHECKPOINT_MAGIC && h[1].n == 1 && h[2].n == 0
    && h[3].n == m.historyMost && h[4].n == m.historyLeast
    && h[5].n == man.checkpointSequence
    && 0 <= h[6].n
    && 0 <= h[7].n <= h[6].n
    && h[7].n <= m.maxDocuments
    && 0 <= h[8].n <= 100_000
  }

  function InspectCheckpoint(data: seq<byte>, m: Metadata, man: Manifest): Option<Checkpoint> {
    if |data| != man.checkpointBytes then None
    else match Unchecked(data, 56)
      case None => None
      case Some(body) =>
        if Unsigned(data[|data| - 4..]) != man.checkpointChecksum then None
        else match Decode(CHECKPOINT_HEAD, body)
          case None => None
          case Some((h, s)) =>
            LayoutDecodes(CHECKPOINT_HEAD, body);
            if !CheckpointHeadOk(h, m, man) then None
            else match DecodeIndexes(INDEX_SHAPE, true, h[8].n, s)
              case None => None
              case Some((indexes, s1)) =>
                if !Distinct(indexes) then None
                else match DecodeInt(4, true, s1)
                  case None => None
                  case Some((slotCount, s2)) =>
                    if slotCount != h[6].n then None
                    else match DecodeSlots(SlotBounds(m.maxKeyBytes, m.maxDocumentBytes), slotCount, s2)
                      case None => None
                      case Some((slots, end)) =>
                        if CountLive(slots) != h[7].n || end != [] then None
                        else Some(Checkpoint(h[5].n, h[6].n, h[7].n, indexes))
  }

  method InspectCheckpointFile(data: seq<byte>, m: Metadata, man: Manifest) returns (r: Option<Checkpoint>)
    ensures r == InspectCheckpoint(data, m, man)
  {
    hide Checksum, Unsigned, Decode, DecodeIndexes, DecodeInt, DecodeSlots, Distinct;
    if |data| != man.checkpointBytes || |data| < 56 { return None; }
    var stored := Unsigned(data[|data| - 4..]);
    if Checksum(data[..|data| - 4]) != stored || stored != man.checkpointChecksum { return None; }
    var cursor := new Cursor(data[..|data| - 4]);
    var head := cursor.ReadFields(CHECKPOINT_HEAD);
    if head.None? { return None; }
    var h := head.value;
    LayoutDecodes(CHECKPOINT_HEAD, cursor.data);
    if !CheckpointHeadOk(h, m, man) { return None; }
    var indexes := ReadIndexes(cursor, INDEX_SHAPE, true, h[8].n);
    if indexes.None? || !Distinct(indexes.value) { return None; }
    var slotCount := cursor.ReadInt(4, true);
    if slotCount.None? || slotCount.value != h[6].n { return None; }
    var ok, live := ReadSlots(cursor, SlotBounds(m.maxKeyBytes, m.maxDocumentBytes), slotCount.value);
    if !ok || live != h[7].n || cursor.offset != |cursor.data| { return None; }
    r := Some(Checkpoint(h[5].n, h[6].n, h[7].n, indexes.value));
  }
}
