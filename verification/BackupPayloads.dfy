/**
 The two payloads of a (1,0) backup, source metadata and source checkpoint, and their
 canonical encodings, for any number of indexes and slots.
 */
module BackupPayloads {
  import opened Bytes
  import opened Options
  import opened Crc32c
  import opened Layouts
  import opened StorageParts
  import opened BackupFormat
  import opened Orders

  const INDEX_SHAPE := IndexShape(false, 0, 1024, 128)

  // ---- metadata ----

  datatype Limits = Limits(
    codecVersion: int, maxKey: int, maxDocument: int, maxBulk: int, maxDocuments: int, checkpointWal: int,
      maxRetained: int)

  datatype Metadata = Metadata(
    historyMost: int, historyLeast: int, storageIdentity: seq<byte>, schemaIdentity: seq<byte>,
      codecIdentity: seq<byte>,
    limits: Limits, indexes: seq<Index>)

  const METADATA_HEAD: Layout := [U64, S16, S16, U64, U64, NAME, NAME, NAME, NAME]
  const LIMITS_LAYOUT: Layout := [S32, S32, S32, S32, S32, S64, S64, S32]

  function HeadValues(m: Metadata): seq<Value> {
    [Number(METADATA_MAGIC), Number(1), Number(0), Number(m.historyMost), Number(m.historyLeast),
     Blob(SOURCE_FAMILY), Blob(m.storageIdentity), Blob(m.schemaIdentity), Blob(m.codecIdentity)]
  }

  function LimitValues(x: Limits, indexCount: int): seq<Value> {
    [Number(x.codecVersion), Number(x.maxKey), Number(x.maxDocument), Number(x.maxBulk), Number(x.maxDocuments),
     Number(x.checkpointWal), Number(x.maxRetained), Number(indexCount)]
  }

  predicate HeadOk(h: seq<Value>)
    requires AllFit(METADATA_HEAD, h)
  {
    h[0].n == METADATA_MAGIC && h[1].n == 1 && h[2].n == 0 && h[5].s == SOURCE_FAMILY
  }

  function MetadataOf(h: seq<Value>, limits: Limits, indexes: seq<Index>): Metadata
    requires AllFit(METADATA_HEAD, h)
  {
    Metadata(h[3].n, h[4].n, h[6].s, h[7].s, h[8].s, limits, indexes)
  }

  predicate LimitsOk(x: Limits) {
    && x.codecVersion >= 0 && x.maxKey > 0 && x.maxDocument > 0 && x.maxBulk > 0 && x.maxDocuments > 0
    && x.checkpointWal > 0 && x.maxRetained > x.checkpointWal
  }

  function LimitsOf(v: seq<Value>): Limits
    requires AllFit(LIMITS_LAYOUT, v)
  {
    Limits(v[0].n, v[1].n, v[2].n, v[3].n, v[4].n, v[5].n, v[6].n)
  }

  predicate IndexListOk(indexes: seq<Index>) {
    |indexes| <= 100_000 && IndexesFit(INDEX_SHAPE, true, indexes) && Distinct(indexes)
  }

  predicate MetadataFits(m: Metadata) {
    && AllFit(METADATA_HEAD, HeadValues(m)) && AllFit(LIMITS_LAYOUT, LimitValues(m.limits, |m.indexes|))
    && LimitsOk(m.limits) && IndexListOk(m.indexes)
  }

  function LimitsBytes(limits: Limits, indexes: seq<Index>): seq<byte>
    requires AllFit(LIMITS_LAYOUT, LimitValues(limits, |indexes|)) && IndexListOk(indexes)
  {
    Encode(LIMITS_LAYOUT, LimitValues(limits, |indexes|)) + EncodeIndexes(INDEX_SHAPE, indexes)
  }

  function EncodeMetadata(m: Metadata): seq<byte>
    requires MetadataFits(m)
  {
    Checked(Encode(METADATA_HEAD, HeadValues(m)) + LimitsBytes(m.limits, m.indexes))
  }

  function ParseLimits(s: seq<byte>): Option<(Limits, seq<Index>)> {
    match Decode(LIMITS_LAYOUT, s)
    case None => None
    case Some((v, rest)) =>
      LayoutDecodes(LIMITS_LAYOUT, s);
      if !LimitsOk(LimitsOf(v)) || !(0 <= v[7].n <= 100_000) then None
      else match DecodeIndexes(INDEX_SHAPE, true, v[7].n, rest)
        case None => None
        case Some((indexes, end)) => if end != [] || !Distinct(indexes) then None else Some((LimitsOf(v), indexes))
  }

  function ParseMetadata(data: seq<byte>): Option<Metadata> {
    match Unchecked(data, 64)
    case None => None
    case Some(body) =>
      match Decode(METADATA_HEAD, body)
      case None => None
      case Some((h, s)) =>
        LayoutDecodes(METADATA_HEAD, body);
        if !HeadOk(h) then None
        else match ParseLimits(s)
          case None => None
          case Some((limits, indexes)) => Some(MetadataOf(h, limits, indexes))
  }

  method ReadLimits(cursor: Cursor) returns (r: Option<(Limits, seq<Index>)>)
    requires cursor.Valid()
    modifies cursor
    ensures cursor.Valid() && r == ParseLimits(old(cursor.Rest()))
  {
    hide Decode, DecodeIndexes;
    ghost var s := cursor.Rest();
    var limits := cursor.ReadFields(LIMITS_LAYOUT);
    if limits.None? { return None; }
    LayoutDecodes(LIMITS_LAYOUT, s);
    var v := limits.value;
    if !LimitsOk(LimitsOf(v)) || !(0 <= v[7].n <= 100_000) { return None; }
    var indexes := ReadIndexes(cursor, INDEX_SHAPE, true, v[7].n);
    if indexes.None? || cursor.offset != |cursor.data| || !Distinct(indexes.value) { return None; }
    assert cursor.Rest() == [];
    r := Some((LimitsOf(v), indexes.value));
  }

  method ParseMetadataFile(data: seq<byte>) returns (r: Option<Metadata>)
    ensures r == ParseMetadata(data)
  {
    hide Decode, ParseLimits, Unsigned, Checksum, HeadOk;
    if |data| < 64 || Checksum(data[..|data| - 4]) != Unsigned(data[|data| - 4..]) { return None; }
    var cursor := new Cursor(data[..|data| - 4]);
    var h := cursor.ReadFields(METADATA_HEAD);
    if h.None? { return None; }
    LayoutDecodes(METADATA_HEAD, cursor.data);
    if !HeadOk(h.value) { return None; }
    var limits := ReadLimits(cursor);
    if limits.None? { return None; }
    r := Some(MetadataOf(h.value, limits.value.0, limits.value.1));
  }

  lemma LimitsDecode(s: seq<byte>)
    requires ParseLimits(s).Some?
    ensures var (limits, indexes) := ParseLimits(s).value;
            && AllFit(LIMITS_LAYOUT, LimitValues(limits, |indexes|)) && LimitsOk(limits) && IndexListOk(indexes)
            && s == LimitsBytes(limits, indexes)
  {
    LayoutDecodes(LIMITS_LAYOUT, s);
    var (v, rest) := Decode(LIMITS_LAYOUT, s).value;
    IndexesDecode(INDEX_SHAPE, true, v[7].n, rest);
    var indexes := ParseLimits(s).value.1;
    LimitsRoundTrip(v);
    assert EncodeIndexes(INDEX_SHAPE, indexes) + [] == EncodeIndexes(INDEX_SHAPE, indexes);
  }

  lemma LimitsRoundTrip(v: seq<Value>)
    requires AllFit(LIMITS_LAYOUT, v)
    ensures LimitValues(LimitsOf(v), v[7].n) == v
  {
    assert forall i :: 0 <= i < 8 ==> Fits(LIMITS_LAYOUT[i], v[i]);
  }

  lemma LimitsEncode(limits: Limits, indexes: seq<Index>)
    requires AllFit(LIMITS_LAYOUT, LimitValues(limits, |indexes|)) && LimitsOk(limits) && IndexListOk(indexes)
    ensures ParseLimits(LimitsBytes(limits, indexes)) == Some((limits, indexes))
  {
    var e := EncodeIndexes(INDEX_SHAPE, indexes);
    IndexesEncode(INDEX_SHAPE, true, indexes, []);
    assert e + [] == e;
    LayoutEncodes(LIMITS_LAYOUT, LimitValues(limits, |indexes|), e);
  }

  lemma HeadRoundTrip(h: seq<Value>, limits: Limits, indexes: seq<Index>)
    requires AllFit(METADATA_HEAD, h) && HeadOk(h)
    ensures HeadValues(MetadataOf(h, limits, indexes)) == h
  {
    hide Utf8, Pow256, Ascii;
    assert forall i :: 0 <= i < 9 ==> Fits(METADATA_HEAD[i], h[i]);
  }

  lemma LimitsSize(limits: Limits, indexes: seq<Index>)
    requires AllFit(LIMITS_LAYOUT, LimitValues(limits, |indexes|))
    ensures |Encode(LIMITS_LAYOUT, LimitValues(limits, |indexes|))| >= 40
  {
    var l, v := LIMITS_LAYOUT, LimitValues(limits, |indexes|);
    EncodeSize(l, v, 0);
    EncodeSize(l, v, 1);
    EncodeSize(l, v, 2);
    EncodeSize(l, v, 3);
    EncodeSize(l, v, 4);
    EncodeSize(l, v, 5);
    EncodeSize(l, v, 6);
    EncodeSize(l, v, 7);
    assert l[0..] == l && v[0..] == v;
  }

  lemma HeadSize(m: Metadata)
    requires AllFit(METADATA_HEAD, HeadValues(m))
    ensures |Encode(METADATA_HEAD, HeadValues(m))| >= 28
  {
    var l, v := METADATA_HEAD, HeadValues(m);
    EncodeSize(l, v, 0);
    EncodeSize(l, v, 1);
    EncodeSize(l, v, 2);
    EncodeSize(l, v, 3);
    EncodeSize(l, v, 4);
    assert l[0..] == l && v[0..] == v;
  }

  lemma MetadataDecodes(data: seq<byte>)
    requires ParseMetadata(data).Some?
    ensures MetadataFits(ParseMetadata(data).value) && data == EncodeMetadata(ParseMetadata(data).value)
  {
    hide ParseLimits, LimitsBytes, LimitsOk, IndexListOk;
    var body := Unchecked(data, 64).value;
    CheckedCodec(data, 64, body);
    LayoutDecodes(METADATA_HEAD, body);
    var (h, s) := Decode(METADATA_HEAD, body).value;
    LimitsDecode(s);
    HeadRoundTrip(h, ParseLimits(s).value.0, ParseLimits(s).value.1);
  }

  lemma HeadIsOk(m: Metadata)
    requires AllFit(METADATA_HEAD, HeadValues(m))
    ensures HeadOk(HeadValues(m)) && MetadataOf(HeadValues(m), m.limits, m.indexes) == m
  {
  }

  lemma MetadataEncodes(m: Metadata)
    requires MetadataFits(m)
    ensures ParseMetadata(EncodeMetadata(m)) == Some(m)
  {
    LimitsEncode(m.limits, m.indexes);
    LimitsSize(m.limits, m.indexes);
    HeadSize(m);
    var s := LimitsBytes(m.limits, m.indexes);
    assert |s| >= 40;
    HeadIsOk(m);
    hide ParseLimits, LimitsBytes, LimitsOk, IndexListOk, AllFit, Encode, Decode, Checksum, HeadOk;
    var body := Encode(METADATA_HEAD, HeadValues(m)) + s;
    CheckedCodec(EncodeMetadata(m), 64, body);
    LayoutEncodes(METADATA_HEAD, HeadValues(m), s);
  }

  /** The parser accepts exactly the encodings of in-bound metadata. */
  lemma MetadataCanonical(data: seq<byte>, m: Metadata)
    ensures ParseMetadata(data) == Some(m) <==> MetadataFits(m) && data == EncodeMetadata(m)
  {
    if ParseMetadata(data) == Some(m) {
      MetadataDecodes(data);
    } else if MetadataFits(m) && data == EncodeMetadata(m) {
      MetadataEncodes(m);
    }
  }

  // ---- checkpoint ----

  datatype Checkpoint = Checkpoint(sequence: int, slots: seq<Slot>)

  // magic, version, history, sequence, next document id, live documents, index count
  const CHECKPOINT_HEAD: Layout := [U64, S16, S16, U64, U64, S64, S32, S32, S32]

  function Bounds(m: Metadata): SlotBounds { SlotBounds(m.limits.maxKey, m.limits.maxDocument) }

  function CheckpointValues(m: Metadata, sequence: int, nextDocId: int, live: int): seq<Value> {
    [Number(CHECKPOINT_MAGIC), Number(1), Number(0), Number(m.historyMost), Number(m.historyLeast),
     Number(sequence), Number(nextDocId), Number(live), Number(|m.indexes|)]
  }

  predicate CheckpointFits(m: Metadata, c: Checkpoint) {
    && AllFit(CHECKPOINT_HEAD, CheckpointValues(m, c.sequence, |c.slots|, CountLive(c.slots)))
    && c.sequence >= 0 && CountLive(c.slots) <= m.limits.maxDocuments
    && IndexesFit(INDEX_SHAPE, true, m.indexes) && |m.indexes| <= 100_000
    && InSigned(|c.slots|, 4) && SlotsFit(Bounds(m), c.slots)
  }

  function SlotBytes(m: Metadata, slots: seq<Slot>): seq<byte>
    requires InSigned(|slots|, 4) && SlotsFit(Bounds(m), slots)
  {
    SignedDigits(|slots|, 4) + EncodeSlots(Bounds(m), slots)
  }

  function EncodeCheckpoint(m: Metadata, c: Checkpoint): seq<byte>
    requires CheckpointFits(m, c)
  {
    Checked(Encode(CHECKPOINT_HEAD, CheckpointValues(m, c.sequence, |c.slots|, CountLive(c.slots)))
            + (EncodeIndexes(INDEX_SHAPE, m.indexes) + SlotBytes(m, c.slots)))
  }

  predicate CheckpointHeadOk(h: seq<Value>, m: Metadata)
    requires AllFit(CHECKPOINT_HEAD, h)
  {
    && h[0].n == CHECKPOINT_MAGIC && h[1].n == 1 && h[2].n == 0
    && h[3].n == m.historyMost && h[4].n == m.historyLeast
    && h[5].n >= 0 && h[6].n >= 0 && 0 <= h[7].n <= h[6].n && h[7].n <= m.limits.maxDocuments
    && 0 <= h[8].n <= 100_000
  }

  /** The slot count, the slots, and nothing more. */
  function ParseSlots(m: Metadata, nextDocId: int, live: int, s: seq<byte>): Option<seq<Slot>> {
    match DecodeInt(4, true, s)
    case None => None
    case Some((slotCount, more)) =>
      if slotCount != nextDocId || slotCount < 0 then None
      else match DecodeSlots(Bounds(m), slotCount, more)
        case None => None
        case Some((slots, end)) => if CountLive(slots) != live || end != [] then None else Some(slots)
  }

  function ParseCheckpoint(data: seq<byte>, m: Metadata): Option<Checkpoint> {
    match Unchecked(data, 56)
    case None => None
    case Some(body) =>
      match Decode(CHECKPOINT_HEAD, body)
      case None => None
      case Some((h, s)) =>
        LayoutDecodes(CHECKPOINT_HEAD, body);
        if !CheckpointHeadOk(h, m) then None
        else match DecodeIndexes(INDEX_SHAPE, true, h[8].n, s)
          case None => None
          case Some((indexes, s1)) =>
            if indexes != m.indexes then None
            else match ParseSlots(m, h[6].n, h[7].n, s1)
              case None => None
              case Some(slots) => Some(Checkpoint(h[5].n, slots))
  }

  method CountSlots(cursor: Cursor, m: Metadata, nextDocId: int, live: int) returns (ok: bool)
    requires cursor.Valid()
    modifies cursor
    ensures cursor.Valid() && (ok <==> ParseSlots(m, nextDocId, live, old(cursor.Rest())).Some?)
  {
    hide DecodeSlots, DecodeInt;
    var slotCount := cursor.ReadInt(4, true);
    if slotCount.None? || slotCount.value != nextDocId || slotCount.value < 0 { return false; }
    var decoded, counted := ReadSlots(cursor, Bounds(m), slotCount.value);
    if !decoded { return false; }
    ok := counted == live && cursor.offset == |cursor.data|;
  }

  /** The cursor-driven parser keeps only the sequence number and the two counts. */
  method ParseCheckpointFile(data: seq<byte>, m: Metadata) returns (r: Option<(int, int, int)>)
    ensures r.Some? <==> ParseCheckpoint(data, m).Some?
    ensures r.Some? ==> var c := ParseCheckpoint(data, m).value; r.value == (c.sequence, |c.slots|, CountLive(c.slots))
  {
    hide Decode, DecodeIndexes, ParseSlots, Unsigned, Checksum;
    if |data| < 56 || Checksum(data[..|data| - 4]) != Unsigned(data[|data| - 4..]) { return None; }
    var cursor := new Cursor(data[..|data| - 4]);
    var head := cursor.ReadFields(CHECKPOINT_HEAD);
    if head.None? { return None; }
    LayoutDecodes(CHECKPOINT_HEAD, cursor.data);
    var h := head.value;
    if !CheckpointHeadOk(h, m) { return None; }
    var indexes := ReadIndexes(cursor, INDEX_SHAPE, true, h[8].n);
    if indexes.None? || indexes.value != m.indexes { return None; }
    ghost var s := cursor.Rest();
    var ok := CountSlots(cursor, m, h[6].n, h[7].n);
    if !ok { return None; }
    SlotsBytesDecode(m, h[6].n, h[7].n, s);
    r := Some((h[5].n, h[6].n, h[7].n));
  }

  lemma SlotsBytesDecode(m: Metadata, nextDocId: int, live: int, s: seq<byte>)
    requires ParseSlots(m, nextDocId, live, s).Some?
    ensures var slots := ParseSlots(m, nextDocId, live, s).value;
            && |slots| == nextDocId && CountLive(slots) == live && InSigned(|slots|, 4) && SlotsFit(Bounds(m), slots)
            && s == SlotBytes(m, slots)
  {
    var (slotCount, more) := DecodeInt(4, true, s).value;
    IntCodec(4, true, s, slotCount, more);
    SlotsDecode(Bounds(m), slotCount, more);
    var slots := ParseSlots(m, nextDocId, live, s).value;
    assert EncodeSlots(Bounds(m), slots) + [] == EncodeSlots(Bounds(m), slots);
  }

  lemma SlotsBytesEncode(m: Metadata, slots: seq<Slot>)
    requires InSigned(|slots|, 4) && SlotsFit(Bounds(m), slots)
    ensures ParseSlots(m, |slots|, CountLive(slots), SlotBytes(m, slots)) == Some(slots)
  {
    var e := EncodeSlots(Bounds(m), slots);
    SlotsEncode(Bounds(m), slots, []);
    assert e + [] == e;
    IntCodec(4, true, SlotBytes(m, slots), |slots|, e);
  }

  lemma CheckpointHeadRoundTrip(h: seq<Value>, m: Metadata)
    requires AllFit(CHECKPOINT_HEAD, h) && CheckpointHeadOk(h, m) && h[8].n == |m.indexes|
    ensures CheckpointValues(m, h[5].n, h[6].n, h[7].n) == h
  {
    assert forall i :: 0 <= i < 9 ==> Fits(CHECKPOINT_HEAD[i], h[i]);
  }

  lemma CheckpointDecodes(data: seq<byte>, m: Metadata)
    requires ParseCheckpoint(data, m).Some?
    ensures CheckpointFits(m, ParseCheckpoint(data, m).value)
            && data == EncodeCheckpoint(m, ParseCheckpoint(data, m).value)
  {
    hide ParseSlots, SlotBytes, Encode, Decode, Checksum, EncodeIndexes, DecodeIndexes;
    var body := Unchecked(data, 56).value;
    CheckedCodec(data, 56, body);
    LayoutDecodes(CHECKPOINT_HEAD, body);
    var (h, s) := Decode(CHECKPOINT_HEAD, body).value;
    IndexesDecode(INDEX_SHAPE, true, h[8].n, s);
    var s1 := DecodeIndexes(INDEX_SHAPE, true, h[8].n, s).value.1;
    SlotsBytesDecode(m, h[6].n, h[7].n, s1);
    CheckpointHeadRoundTrip(h, m);
  }

  lemma CheckpointTailSize(v: seq<Value>)
    requires AllFit(CHECKPOINT_HEAD, v)
    ensures AllFit(CHECKPOINT_HEAD[5..], v[5..]) && |Encode(CHECKPOINT_HEAD[5..], v[5..])| == 20
  {
    EncodeSize(CHECKPOINT_HEAD, v, 5);
    EncodeSize(CHECKPOINT_HEAD, v, 6);
    EncodeSize(CHECKPOINT_HEAD, v, 7);
    EncodeSize(CHECKPOINT_HEAD, v, 8);
  }

  lemma CheckpointHeadSize(v: seq<Value>)
    requires AllFit(CHECKPOINT_HEAD, v)
    ensures |Encode(CHECKPOINT_HEAD, v)| == 48
  {
    hide Encode;
    CheckpointTailSize(v);
    var l := CHECKPOINT_HEAD;
    EncodeSize(l, v, 0);
    EncodeSize(l, v, 1);
    EncodeSize(l, v, 2);
    EncodeSize(l, v, 3);
    EncodeSize(l, v, 4);
    assert l[0..] == l && v[0..] == v;
  }

  lemma CheckpointHeadFits(m: Metadata, c: Checkpoint)
    requires CheckpointFits(m, c)
    ensures CheckpointHeadOk(CheckpointValues(m, c.sequence, |c.slots|, CountLive(c.slots)), m)
  {
  }

  lemma CheckpointEncodes(m: Metadata, c: Checkpoint)
    requires CheckpointFits(m, c)
    ensures ParseCheckpoint(EncodeCheckpoint(m, c), m) == Some(c)
  {
    var v := CheckpointValues(m, c.sequence, |c.slots|, CountLive(c.slots));
    SlotsBytesEncode(m, c.slots);
    CheckpointHeadSize(v);
    CheckpointHeadFits(m, c);
    assert |SlotBytes(m, c.slots)| >= 4;
    hide ParseSlots, SlotBytes, AllFit, CheckpointHeadOk, IndexesFit, SlotsFit, Encode, Decode, Checksum;
    var s := EncodeIndexes(INDEX_SHAPE, m.indexes) + SlotBytes(m, c.slots);
    CheckedCodec(EncodeCheckpoint(m, c), 56, Encode(CHECKPOINT_HEAD, v) + s);
    LayoutEncodes(CHECKPOINT_HEAD, v, s);
    IndexesEncode(INDEX_SHAPE, true, m.indexes, SlotBytes(m, c.slots));
  }

  /** The parser accepts exactly the encodings of in-bound checkpoints of the store `m`. */
  lemma CheckpointCanonical(data: seq<byte>, m: Metadata, c: Checkpoint)
    ensures ParseCheckpoint(data, m) == Some(c) <==> CheckpointFits(m, c) && data == EncodeCheckpoint(m, c)
  {
    if ParseCheckpoint(data, m) == Some(c) {
      CheckpointDecodes(data, m);
    } else if CheckpointFits(m, c) && data == EncodeCheckpoint(m, c) {
      CheckpointEncodes(m, c);
    }
  }
}
