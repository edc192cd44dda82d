/**
 Write-ahead-log generations of the durable store, format (1,0): payloads, frames, and the
 inspector's loop over them.
 */
module WriteAheadLog {
  import opened Bytes
  import opened Options
  import opened Crc32c
  import opened Layouts
  import opened StorageParts
  import opened StorageFiles

  const WAL_MAGIC := 0x4753_4557_414C_3130
  const FRAME_MAGIC := 0x4753_4546
  const WAL_HEADER_BYTES: nat := 48
  const FRAME_HEADER_BYTES: nat := 28
  const FRAME_TRAILER_BYTES: nat := 4
  const MAX_FRAME_BYTES := 256 * 1024 * 1024

  // ---- payloads ----

  /** What follows one mutation at the front of `s`. */
  function SkipMutation(m: Metadata, s: seq<byte>): Option<seq<byte>> {
    match DecodeInt(1, true, s)
    case None => None
    case Some((operation, s1)) =>
      if !(1 <= operation <= 3) then None
      else match DecodeBlob(m.maxKeyBytes, s1)
        case None => None
        case Some((_, s2)) =>
          if operation == 3 then
            match DecodeInt(4, true, s2)
            case None => None
            case Some((length, s3)) => if length != -1 then None else Some(s3)
          else
            match DecodeBlob(m.maxDocumentBytes, s2)
            case None => None
            case Some((_, s3)) => Some(s3)
  }

  function SkipMutations(m: Metadata, n: nat, s: seq<byte>): Option<seq<byte>>
    decreases n
  {
    if n == 0 then Some(s)
    else match SkipMutation(m, s)
      case None => None
      case Some(more) => SkipMutations(m, n - 1, more)
  }

  function SkipBulk(m: Metadata, s: seq<byte>): Option<seq<byte>> {
    match DecodeInt(4, true, s)
    case None => None
    case Some((count, rest)) =>
      if count <= 0 || count > m.maxBulkElements then None else SkipMutations(m, count, rest)
  }

  function SkipIndex(s: seq<byte>): Option<seq<byte>> {
    match DecodeIndex(INDEX_SHAPE, s)
    case None => None
    case Some((ix, rest)) => if IndexOk(ix) then Some(rest) else None
  }

  function SkipText(s: seq<byte>): Option<seq<byte>> {
    match DecodeText(1, 1024, s)
    case None => None
    case Some((_, rest)) => Some(rest)
  }

  function SkipUnit(m: Metadata, kind: int, s: seq<byte>): Option<seq<byte>> {
    if kind == 1 then SkipMutation(m, s)
    else if kind == 2 then SkipBulk(m, s)
    else if kind == 3 then SkipIndex(s)
    else SkipText(s)
  }

  /** The payload is one unit of the given type and nothing more. */
  predicate PayloadOk(m: Metadata, kind: int, payload: seq<byte>) { SkipUnit(m, kind, payload) == Some([]) }

  method InspectMutation(cursor: Cursor, m: Metadata) returns (ok: bool)
    requires cursor.Valid()
    modifies cursor
    ensures cursor.Valid()
    ensures ok <==> SkipMutation(m, old(cursor.Rest())).Some?
    ensures ok ==> SkipMutation(m, old(cursor.Rest())) == Some(cursor.Rest())
  {
    var operation := cursor.ReadInt(1, true);
    if operation.None? || !(1 <= operation.value <= 3) { return false; }
    var key := ReadBlob(cursor, m.maxKeyBytes);
    if key.None? { return false; }
    if operation.value == 3 {
      var length := cursor.ReadInt(4, true);
      return length == Some(-1);
    }
    var body := ReadBlob(cursor, m.maxDocumentBytes);
    return body.Some?;
  }

  lemma SkipMutationsStep(m: Metadata, n: nat, s: seq<byte>)
    requires n > 0
    ensures SkipMutation(m, s).None? ==> SkipMutations(m, n, s).None?
    ensures SkipMutation(m, s).Some? ==> SkipMutations(m, n, s) == SkipMutations(m, n - 1, SkipMutation(m, s).value)
  {
  }

  method InspectBulk(cursor: Cursor, m: Metadata) returns (ok: bool)
    requires cursor.Valid()
    modifies cursor
    ensures cursor.Valid()
    ensures ok <==> SkipBulk(m, old(cursor.Rest())).Some?
    ensures ok ==> SkipBulk(m, old(cursor.Rest())) == Some(cursor.Rest())
  {
    var count := cursor.ReadInt(4, true);
    if count.None? || count.value <= 0 || count.value > m.maxBulkElements { return false; }
    ghost var all := SkipMutations(m, count.value, cursor.Rest());
    for k := 0 to count.value
      invariant cursor.Valid()
      invariant SkipMutations(m, count.value - k, cursor.Rest()) == all
    {
      ghost var before := cursor.Rest();
      ok := InspectMutation(cursor, m);
      SkipMutationsStep(m, count.value - k, before);
      if !ok { return; }
    }
    ok := true;
  }

  method InspectIndexUnit(cursor: Cursor) returns (ok: bool)
    requires cursor.Valid()
    modifies cursor
    ensures cursor.Valid()
    ensures ok <==> SkipIndex(old(cursor.Rest())).Some?
    ensures ok ==> SkipIndex(old(cursor.Rest())) == Some(cursor.Rest())
  {
    ghost var before := cursor.Rest();
    var vs := cursor.ReadFields(INDEX_SHAPE.Layout());
    if vs.None? { return false; }
    LayoutDecodes(INDEX_SHAPE.Layout(), before);
    ok := IndexOk(Index(vs.value[0].n, vs.value[1].s, vs.value[2].s));
  }

  method InspectUnit(cursor: Cursor, m: Metadata, kind: int) returns (ok: bool)
    requires cursor.Valid()
    modifies cursor
    ensures cursor.Valid()
    ensures ok <==> SkipUnit(m, kind, old(cursor.Rest())).Some?
    ensures ok ==> SkipUnit(m, kind, old(cursor.Rest())) == Some(cursor.Rest())
  {
    if kind == 1 {
      ok := InspectMutation(cursor, m);
    } else if kind == 2 {
      ok := InspectBulk(cursor, m);
    } else if kind == 3 {
      ok := InspectIndexUnit(cursor);
    } else {
      var text := cursor.ReadText(1, 1024);
      ok := text.Some?;
    }
  }

  method InspectPayload(m: Metadata, kind: int, payload: seq<byte>) returns (ok: bool)
    ensures ok <==> PayloadOk(m, kind, payload)
  {
    var cursor := new Cursor(payload);
    ok := InspectUnit(cursor, m, kind);
    assert cursor.Rest() == [] <==> cursor.offset == |cursor.data|;
    ok := ok && cursor.offset == |cursor.data|;
  }

  // ---- frames ----

  datatype FrameHeader = FrameHeader(
    magic: int, major: int, minor: int, length: int, sequence: int,
    kind: int, flags: int, reserved: int, payloadLength: int)

  function ReadFrameHeader(h: seq<byte>): FrameHeader
    requires |h| == FRAME_HEADER_BYTES
  {
    FrameHeader(Unsigned(h[0..4]), Signed(h[4..6]), Signed(h[6..8]), Unsigned(h[8..12]), Signed(h[12..20]),
                Signed(h[20..21]), Signed(h[21..22]), Signed(h[22..24]), Signed(h[24..28]))
  }

  /** Everything the loop checks in a complete header, except the sequence. */
  predicate HeaderOk(h: FrameHeader) {
    && h.magic == FRAME_MAGIC && h.major == 1 && h.minor == 0
    && 1 <= h.kind <= 4 && h.flags == 0 && h.reserved == 0
    && h.payloadLength >= 0
    && h.length == FRAME_HEADER_BYTES + h.payloadLength + FRAME_TRAILER_BYTES
    && h.length <= MAX_FRAME_BYTES
  }

  const FRAME_IDENTITY: seq<byte> := [0x47, 0x53, 0x45, 0x46, 0, 1, 0, 0]

  /** What `validate_incomplete_header` accepts: fewer than 28 bytes that could begin the
      frame with the expected sequence. */
  predicate IncompleteHeaderOk(s: seq<byte>, expected: int) {
    && (forall i :: 0 <= i < |s| && i < 8 ==> s[i] == FRAME_IDENTITY[i])
    && (|s| >= 12 ==> FRAME_HEADER_BYTES + FRAME_TRAILER_BYTES <= Signed(s[8..12]) <= MAX_FRAME_BYTES)
    && (|s| >= 20 ==> Signed(s[12..20]) == expected)
    && (|s| >= 21 ==> 1 <= s[20] <= 4)
    && (|s| >= 22 ==> s[21] == 0)
    && (|s| >= 24 ==> s[22] == 0 && s[23] == 0)
  }

  datatype FrameInfo = FrameInfo(sequence: int, kind: int, payloadBytes: int, offset: nat, frameBytes: nat) {
    function End(): nat { offset + frameBytes }
  }

  datatype Tail = NoTail | IncompleteHeader | IncompleteFrame

  /** What the frame loop found: the complete frames, where they end, and what follows. */
  datatype Frames = Frames(frames: seq<FrameInfo>, end: nat, tail: Tail)

  function Prefixed(f: FrameInfo, r: Option<Frames>): Option<Frames> {
    match r
    case None => None
    case Some(fs) => Some(fs.(frames := [f] + fs.frames))
  }

  /** The checks on a frame whose bytes are all present. */
  predicate CompleteFrameOk(m: Metadata, h: FrameHeader, frame: seq<byte>, expected: int)
    requires |frame| >= FRAME_HEADER_BYTES + FRAME_TRAILER_BYTES
  {
    && Checksum(frame[..|frame| - 4]) == Unsigned(frame[|frame| - 4..])
    && h.sequence == expected
    && PayloadOk(m, h.kind, frame[28..|frame| - 4])
  }

  /** One turn of the loop: reject the log, stop before a torn tail, or pass a complete frame. */
  datatype Step = Reject | Stop(tail: Tail) | Next(frame: FrameInfo)

  function FrameAt(m: Metadata, data: seq<byte>, offset: nat, expected: int): (step: Step)
    requires offset < |data|
    ensures step.Next? ==> step.frame.offset == offset && step.frame.sequence == expected
    ensures step.Next? ==>
              step.frame.frameBytes >= FRAME_HEADER_BYTES + FRAME_TRAILER_BYTES && step.frame.End() <= |data|
    ensures step.Stop? ==> step.tail != NoTail
  {
    if |data| - offset < FRAME_HEADER_BYTES then
      if IncompleteHeaderOk(data[offset..], expected) then Stop(IncompleteHeader) else Reject
    else
      var h := ReadFrameHeader(data[offset..offset + 28]);
      if !HeaderOk(h) then Reject
      else if h.length > |data| - offset then Stop(IncompleteFrame)
      else if !CompleteFrameOk(m, h, data[offset..offset + h.length], expected) then Reject
      else Next(FrameInfo(h.sequence, h.kind, h.payloadLength, offset, h.length))
  }

  /** The frame loop from `offset` on, with `expected` the next sequence. */
  function Scan(m: Metadata, data: seq<byte>, offset: nat, expected: int): Option<Frames>
    requires offset <= |data|
    decreases |data| - offset
  {
    if offset == |data| then Some(Frames([], offset, NoTail))
    else
      match FrameAt(m, data, offset, expected)
      case Reject => None
      case Stop(tail) => Some(Frames([], offset, tail))
      case Next(f) => Prefixed(f, Scan(m, data, f.End(), expected + 1))
  }

  datatype WalReport = WalReport(
    generation: int, firstSequence: int, frames: seq<FrameInfo>, lastSequence: int, lastValidOffset: nat, tail: Tail,
      bytes: nat)

  predicate WalHeaderOk(data: seq<byte>, m: Metadata, generation: int, first: int)
    requires |data| >= WAL_HEADER_BYTES
  {
    && Unsigned(data[0..8]) == WAL_MAGIC && Signed(data[8..10]) == 1 && Signed(data[10..12]) == 0
    && Unsigned(data[28..36]) == generation && Unsigned(data[36..44]) == first
    && Checksum(data[..44]) == Unsigned(data[44..48])
    && Unsigned(data[12..20]) == m.historyMost && Unsigned(data[20..28]) == m.historyLeast
  }

  function Report(data: seq<byte>, generation: int, first: int, r: Option<Frames>): Option<WalReport> {
    match r
    case None => None
    case Some(fs) => Some(WalReport(generation, first, fs.frames, first + |fs.frames| - 1, fs.end, fs.tail, |data|))
  }

  function InspectWal(data: seq<byte>, m: Metadata, generation: int, first: int): Option<WalReport> {
    if |data| < WAL_HEADER_BYTES || !WalHeaderOk(data, m, generation, first) then None
    else Report(data, generation, first, Scan(m, data, WAL_HEADER_BYTES, first))
  }

  ghost function PrefixedAll(fs: seq<FrameInfo>, r: Option<Frames>): Option<Frames> {
    match r
    case None => None
    case Some(more) => Some(more.(frames := fs + more.frames))
  }

  lemma PrefixedAllStep(fs: seq<FrameInfo>, f: FrameInfo, r: Option<Frames>)
    ensures PrefixedAll(fs + [f], r) == PrefixedAll(fs, Prefixed(f, r))
  {
    if r.Some? {
      assert fs + [f] + r.value.frames == fs + ([f] + r.value.frames);
    }
  }

  lemma PrefixedAllNothing(r: Option<Frames>)
    ensures PrefixedAll([], r) == r
  {
    if r.Some? {
      assert [] + r.value.frames == r.value.frames;
    }
  }

  method InspectFrame(m: Metadata, h: FrameHeader, frame: seq<byte>, expected: int) returns (ok: bool)
    requires |frame| >= FRAME_HEADER_BYTES + FRAME_TRAILER_BYTES
    ensures ok <==> CompleteFrameOk(m, h, frame, expected)
  {
    var checksum := BitwiseCrc(frame[..|frame| - 4]);
    if NatOf(checksum) != Unsigned(frame[|frame| - 4..]) || h.sequence != expected { return false; }
    ok := InspectPayload(m, h.kind, frame[28..|frame| - 4]);
  }

  method InspectFrameAt(m: Metadata, data: seq<byte>, offset: nat, expected: int) returns (step: Step)
    requires offset < |data|
    ensures step == FrameAt(m, data, offset, expected)
  {
    hide CompleteFrameOk, ReadFrameHeader, IncompleteHeaderOk;
    var remaining := |data| - offset;
    if remaining < FRAME_HEADER_BYTES {
      return if IncompleteHeaderOk(data[offset..], expected) then Stop(IncompleteHeader) else Reject;
    }
    var h := ReadFrameHeader(data[offset..offset + 28]);
    if !HeaderOk(h) { return Reject; }
    if h.length > remaining { return Stop(IncompleteFrame); }
    var ok := InspectFrame(m, h, data[offset..offset + h.length], expected);
    if !ok { return Reject; }
    step := Next(FrameInfo(h.sequence, h.kind, h.payloadLength, offset, h.length));
  }

  /** The frame loop. */
  method ScanFrames(m: Metadata, data: seq<byte>, first: int) returns (r: Option<Frames>)
    requires |data| >= WAL_HEADER_BYTES
    ensures r == Scan(m, data, WAL_HEADER_BYTES, first)
  {
    var frames: seq<FrameInfo> := [];
    var offset, expected := WAL_HEADER_BYTES, first;
    ghost var whole := Scan(m, data, WAL_HEADER_BYTES, first);
    PrefixedAllNothing(whole);
    while offset < |data|
      invariant offset <= |data| && expected == first + |frames|
      invariant whole == PrefixedAll(frames, Scan(m, data, offset, expected))
    {
      assert frames + [] == frames;
      var step := InspectFrameAt(m, data, offset, expected);
      match step {
        case Reject => return None;
        case Stop(tail) => return Some(Frames(frames, offset, tail));
        case Next(f) =>
          PrefixedAllStep(frames, f, Scan(m, data, f.End(), expected + 1));
          frames := frames + [f];
          expected := expected + 1;
          offset := f.End();
      }
    }
    assert frames + [] == frames;
    r := Some(Frames(frames, offset, NoTail));
  }

  /** The inspector of one generation. */
  method InspectWalFile(data: seq<byte>, m: Metadata, generation: int, first: int) returns (r: Option<WalReport>)
    ensures r == InspectWal(data, m, generation, first)
  {
    if |data| < WAL_HEADER_BYTES || !WalHeaderOk(data, m, generation, first) { return None; }
    var scanned := ScanFrames(m, data, first);
    r := Report(data, generation, first, scanned);
  }
}
