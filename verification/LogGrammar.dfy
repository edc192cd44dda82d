/**
 The declarative grammar of a log and the theorem that the frame loop accepts exactly the
 logs of the grammar: a clean log is the concatenation of the frames of consecutive units.
 */
module LogGrammar {
  import opened Bytes
  import opened Options
  import opened Crc32c
  import opened StorageFiles
  import opened WriteAheadLog
  import opened LogDurability
  import opened LogUnits

  /** One logged unit: its type and payload. */
  datatype Unit = Unit(kind: int, payload: seq<byte>)

  ghost predicate UnitOk(m: Metadata, u: Unit) {
    && 1 <= u.kind <= 4
    && IsPayload(m, u.kind, u.payload)
    && FRAME_HEADER_BYTES + |u.payload| + FRAME_TRAILER_BYTES <= MAX_FRAME_BYTES
  }

  predicate HeaderFits(h: FrameHeader) {
    && InUnsigned(h.magic, 4) && InSigned(h.major, 2) && InSigned(h.minor, 2) && InUnsigned(h.length, 4)
    && InSigned(h.sequence, 8) && InSigned(h.kind, 1) && InSigned(h.flags, 1) && InSigned(h.reserved, 2)
    && InSigned(h.payloadLength, 4)
  }

  function PackHeader(h: FrameHeader): (s: seq<byte>)
    requires HeaderFits(h)
    ensures |s| == FRAME_HEADER_BYTES
  {
    Digits(h.magic, 4) + SignedDigits(h.major, 2) + SignedDigits(h.minor, 2) + Digits(h.length, 4)
    + SignedDigits(h.sequence, 8) + SignedDigits(h.kind, 1) + SignedDigits(h.flags, 1)
    + SignedDigits(h.reserved, 2) + SignedDigits(h.payloadLength, 4)
  }

  function HeaderFor(sequence: int, u: Unit): FrameHeader {
    FrameHeader(FRAME_MAGIC, 1, 0, FRAME_HEADER_BYTES + |u.payload| + FRAME_TRAILER_BYTES, sequence, u.kind, 0, 0,
      |u.payload|)
  }

  lemma UnitHeaderFits(m: Metadata, sequence: int, u: Unit)
    requires UnitOk(m, u) && InSigned(sequence, 8)
    ensures HeaderFits(HeaderFor(sequence, u)) && HeaderOk(HeaderFor(sequence, u))
  {
    assert Pow256(1) == 256 && Pow256(2) == 65536 && Pow256(4) == 0x1_0000_0000;
  }

  function EncodeFrame(m: Metadata, sequence: int, u: Unit): (s: seq<byte>)
    requires UnitOk(m, u) && InSigned(sequence, 8)
    ensures |s| == FRAME_HEADER_BYTES + |u.payload| + FRAME_TRAILER_BYTES
  {
    UnitHeaderFits(m, sequence, u);
    Checked(PackHeader(HeaderFor(sequence, u)) + u.payload)
  }

  /** Consecutive sequences that all fit their field. */
  ghost predicate UnitsOk(m: Metadata, first: int, us: seq<Unit>) {
    forall i :: 0 <= i < |us| ==> UnitOk(m, us[i]) && InSigned(first + i, 8)
  }

  lemma UnitsOkTail(m: Metadata, first: int, us: seq<Unit>)
    requires us != [] && UnitsOk(m, first, us)
    ensures UnitsOk(m, first + 1, us[1..])
  {
    forall i | 0 <= i < |us| - 1 ensures UnitOk(m, us[1..][i]) && InSigned(first + 1 + i, 8) {
      assert us[1..][i] == us[i + 1] && first + (i + 1) == first + 1 + i;
    }
  }

  function EncodeLog(m: Metadata, first: int, us: seq<Unit>): seq<byte>
    requires UnitsOk(m, first, us)
    decreases |us|
  {
    if us == [] then []
    else
      UnitsOkTail(m, first, us);
      assert UnitOk(m, us[0]) && InSigned(first + 0, 8);
      EncodeFrame(m, first, us[0]) + EncodeLog(m, first + 1, us[1..])
  }

  lemma UnpackHeader(h: FrameHeader)
    requires HeaderFits(h)
    ensures ReadFrameHeader(PackHeader(h)) == h
  {
    var s := PackHeader(h);
    HeaderParts(h);
    UnsignedOfDigits(h.magic, 4);
    SignedOfDigits(h.major, 2);
    SignedOfDigits(h.minor, 2);
    UnsignedOfDigits(h.length, 4);
    SignedOfDigits(h.sequence, 8);
    SignedOfDigits(h.kind, 1);
    SignedOfDigits(h.flags, 1);
    SignedOfDigits(h.reserved, 2);
    SignedOfDigits(h.payloadLength, 4);
  }

  lemma HeaderParts(h: FrameHeader)
    requires HeaderFits(h)
    ensures var s := PackHeader(h);
            && s[0..4] == Digits(h.magic, 4) && s[4..6] == SignedDigits(h.major, 2)
            && s[6..8] == SignedDigits(h.minor, 2)
            && s[8..12] == Digits(h.length, 4) && s[12..20] == SignedDigits(h.sequence, 8)
            && s[20..21] == SignedDigits(h.kind, 1) && s[21..22] == SignedDigits(h.flags, 1)
            && s[22..24] == SignedDigits(h.reserved, 2) && s[24..28] == SignedDigits(h.payloadLength, 4)
  {
    hide Digits, SignedDigits;
  }

  lemma RepackHeader(s: seq<byte>)
    requires |s| == FRAME_HEADER_BYTES
    ensures HeaderFits(ReadFrameHeader(s)) && PackHeader(ReadFrameHeader(s)) == s
  {
    hide Digits, SignedDigits, Pow256, Unsigned, Signed;
    DigitsOfUnsigned(s[0..4]);
    DigitsOfSigned(s[4..6]);
    DigitsOfSigned(s[6..8]);
    DigitsOfUnsigned(s[8..12]);
    DigitsOfSigned(s[12..20]);
    DigitsOfSigned(s[20..21]);
    DigitsOfSigned(s[21..22]);
    DigitsOfSigned(s[22..24]);
    DigitsOfSigned(s[24..28]);
    assert s == s[0..4] + s[4..6] + s[6..8] + s[8..12] + s[12..20] + s[20..21] + s[21..22] + s[22..24] + s[24..28];
  }

  /** The unit a complete frame carries. */
  function UnitAt(data: seq<byte>, f: FrameInfo): Unit
    requires f.frameBytes >= FRAME_HEADER_BYTES + FRAME_TRAILER_BYTES && f.End() <= |data|
  {
    Unit(f.kind, data[f.offset + FRAME_HEADER_BYTES..f.End() - FRAME_TRAILER_BYTES])
  }

  lemma FrameParts(m: Metadata, data: seq<byte>, offset: nat, expected: int)
    requires offset < |data| && FrameAt(m, data, offset, expected).Next?
    ensures var f := FrameAt(m, data, offset, expected).frame;
            var h := ReadFrameHeader(data[offset..offset + 28]);
            && HeaderOk(h) && CompleteFrameOk(m, h, data[offset..f.End()], expected)
            && f == FrameInfo(h.sequence, h.kind, h.payloadLength, offset, h.length)
  {
    hide ReadFrameHeader, CompleteFrameOk, HeaderOk, IncompleteHeaderOk;
    assert HeaderOk(ReadFrameHeader(data[offset..offset + 28]));
  }

  lemma FrameFromParts(m: Metadata, data: seq<byte>, offset: nat, expected: int, h: FrameHeader)
    requires offset + FRAME_HEADER_BYTES <= |data| && ReadFrameHeader(data[offset..offset + 28]) == h && HeaderOk(h)
    requires offset + h.length <= |data| && CompleteFrameOk(m, h, data[offset..offset + h.length], expected)
    ensures FrameAt(m, data, offset, expected) == Next(FrameInfo(h.sequence, h.kind, h.payloadLength, offset, h.length))
  {
    hide CompleteFrameOk, ReadFrameHeader, IncompleteHeaderOk;
  }

  lemma CheckedParts(x: seq<byte>)
    requires |x| >= FRAME_HEADER_BYTES + FRAME_TRAILER_BYTES && Checksum(x[..|x| - 4]) == Unsigned(x[|x| - 4..])
    ensures x == Checked(x[0..28] + x[28..|x| - 4])
  {
    hide Checksum;
    assert x[..|x| - 4] == x[0..28] + x[28..|x| - 4];
    CheckedCodec(x, 4, x[..|x| - 4]);
  }

  lemma FrameDecodes(m: Metadata, data: seq<byte>, offset: nat, expected: int)
    requires offset < |data| && FrameAt(m, data, offset, expected).Next?
    ensures var f := FrameAt(m, data, offset, expected).frame;
            && UnitOk(m, UnitAt(data, f)) && InSigned(expected, 8)
            && data[offset..f.End()] == EncodeFrame(m, expected, UnitAt(data, f))
  {
    hide FrameAt, ReadFrameHeader, PackHeader, PayloadOk, IsPayload, Checked, Checksum;
    FrameParts(m, data, offset, expected);
    var f := FrameAt(m, data, offset, expected).frame;
    var hb, x := data[offset..offset + 28], data[offset..f.End()];
    RepackHeader(hb);
    SubSlice(data, offset, f.frameBytes, FRAME_HEADER_BYTES, f.frameBytes - FRAME_TRAILER_BYTES);
    SubSlice(data, offset, f.frameBytes, 0, FRAME_HEADER_BYTES);
    assert ReadFrameHeader(hb) == HeaderFor(expected, UnitAt(data, f));
    PayloadsExactly(m, f.kind, UnitAt(data, f).payload);
    CheckedParts(x);
  }

  lemma EncodedParts(m: Metadata, sequence: int, u: Unit)
    requires UnitOk(m, u) && InSigned(sequence, 8)
    ensures var e := EncodeFrame(m, sequence, u);
            && HeaderFits(HeaderFor(sequence, u)) && e[0..28] == PackHeader(HeaderFor(sequence, u))
            && e[28..|e| - 4] == u.payload
            && Checksum(e[..|e| - 4]) == Unsigned(e[|e| - 4..])
  {
    hide PackHeader, Checksum;
    UnitHeaderFits(m, sequence, u);
    var body := PackHeader(HeaderFor(sequence, u)) + u.payload;
    CheckedCodec(EncodeFrame(m, sequence, u), 4, body);
    assert body[0..28] == PackHeader(HeaderFor(sequence, u)) && body[28..] == u.payload;
  }

  lemma FrameEncodes(m: Metadata, data: seq<byte>, offset: nat, expected: int, u: Unit)
    requires UnitOk(m, u) && InSigned(expected, 8)
    requires var e := EncodeFrame(m, expected, u); offset + |e| <= |data| && data[offset..offset + |e|] == e
    ensures FrameAt(m, data, offset, expected)
            == Next(FrameInfo(expected, u.kind, |u.payload|, offset,
              FRAME_HEADER_BYTES + |u.payload| + FRAME_TRAILER_BYTES))
  {
    hide FrameAt, ReadFrameHeader, PackHeader, PayloadOk, IsPayload, Checked, Checksum;
    UnitHeaderFits(m, expected, u);
    EncodedParts(m, expected, u);
    UnpackHeader(HeaderFor(expected, u));
    SubSlice(data, offset, |EncodeFrame(m, expected, u)|, 0, 28);
    PayloadsExactly(m, u.kind, u.payload);
    FrameFromParts(m, data, offset, expected, HeaderFor(expected, u));
  }

  /** The units of a scanned log, in order. */
  function Contents(data: seq<byte>, frames: seq<FrameInfo>): (us: seq<Unit>)
    requires forall i :: 0 <= i < |frames| ==>
             frames[i].frameBytes >= FRAME_HEADER_BYTES + FRAME_TRAILER_BYTES && frames[i].End() <= |data|
    ensures |us| == |frames|
    ensures forall i :: 0 <= i < |us| ==> us[i] == UnitAt(data, frames[i])
  {
    if frames == [] then [] else [UnitAt(data, frames[0])] + Contents(data, frames[1..])
  }

  lemma {:induction false} FramesAreComplete(m: Metadata, data: seq<byte>, offset: nat, expected: int)
    requires offset <= |data| && Scan(m, data, offset, expected).Some?
    ensures forall f :: f in Scan(m, data, offset, expected).value.frames ==>
                          f.frameBytes >= FRAME_HEADER_BYTES + FRAME_TRAILER_BYTES && f.End() <= |data|
    decreases |data| - offset
  {
    hide ReadFrameHeader, CompleteFrameOk, HeaderOk, IncompleteHeaderOk;
    if offset < |data| && FrameAt(m, data, offset, expected).Next? {
      FramesAreComplete(m, data, FrameAt(m, data, offset, expected).frame.End(), expected + 1);
    }
  }

  function UnitsOf(m: Metadata, data: seq<byte>, offset: nat, expected: int): (us: seq<Unit>)
    requires offset <= |data| && Scan(m, data, offset, expected).Some?
  {
    FramesAreComplete(m, data, offset, expected);
    Contents(data, Scan(m, data, offset, expected).value.frames)
  }

  /** A log the loop accepts with a clean tail is in the grammar. */
  lemma {:induction false} ScanSound(m: Metadata, data: seq<byte>, offset: nat, expected: int)
    requires offset <= |data| && Scan(m, data, offset, expected).Some?
    requires Scan(m, data, offset, expected).value.tail == NoTail
    ensures var us := UnitsOf(m, data, offset, expected);
            UnitsOk(m, expected, us) && data[offset..] == EncodeLog(m, expected, us)
    decreases |data| - offset
  {
    hide FrameAt, EncodeFrame;
    if offset < |data| {
      var f := FrameAt(m, data, offset, expected).frame;
      FrameDecodes(m, data, offset, expected);
      ScanSound(m, data, f.End(), expected + 1);
      ContentsStep(m, data, offset, expected);
      var us := UnitsOf(m, data, offset, expected);
      assert us[1..] == UnitsOf(m, data, f.End(), expected + 1);
      UnitsOkCons(m, expected, us);
      assert data[offset..] == data[offset..f.End()] + data[f.End()..];
    }
  }

  lemma UnitsOkCons(m: Metadata, first: int, us: seq<Unit>)
    requires us != [] && UnitOk(m, us[0]) && InSigned(first, 8) && UnitsOk(m, first + 1, us[1..])
    ensures UnitsOk(m, first, us)
  {
    forall i | 0 <= i < |us| ensures UnitOk(m, us[i]) && InSigned(first + i, 8) {
      if i > 0 {
        assert us[i] == us[1..][i - 1] && first + 1 + (i - 1) == first + i;
      }
    }
  }

  lemma NoUnits(m: Metadata, data: seq<byte>, offset: nat, expected: int)
    requires offset == |data|
    ensures UnitsOf(m, data, offset, expected) == []
  {
  }

  lemma SplitAt(data: seq<byte>, offset: nat, e: seq<byte>, rest: seq<byte>)
    requires offset <= |data| && data[offset..] == e + rest
    ensures offset + |e| <= |data|
    ensures data[offset..offset + |e|] == e && data[offset + |e|..] == rest
  {
    assert data[offset..][..|e|] == e && data[offset..][|e|..] == rest;
  }

  lemma LogSplits(m: Metadata, data: seq<byte>, offset: nat, expected: int, us: seq<Unit>) returns (end: nat)
    requires offset <= |data| && us != [] && UnitsOk(m, expected, us) && data[offset..] == EncodeLog(m, expected, us)
    ensures UnitOk(m, us[0]) && InSigned(expected, 8) && UnitsOk(m, expected + 1, us[1..])
    ensures end == offset + |EncodeFrame(m, expected, us[0])| <= |data|
    ensures data[offset..end] == EncodeFrame(m, expected, us[0])
    ensures data[end..] == EncodeLog(m, expected + 1, us[1..])
  {
    assert UnitOk(m, us[0]) && InSigned(expected + 0, 8);
    UnitsOkTail(m, expected, us);
    hide EncodeFrame, UnitOk, UnitsOk;
    end := offset + |EncodeFrame(m, expected, us[0])|;
    SplitAt(data, offset, EncodeFrame(m, expected, us[0]), EncodeLog(m, expected + 1, us[1..]));
  }

  lemma FrameReadsBack(m: Metadata, data: seq<byte>, offset: nat, expected: int, u: Unit)
    requires UnitOk(m, u) && InSigned(expected, 8)
    requires var e := EncodeFrame(m, expected, u); offset + |e| <= |data| && data[offset..offset + |e|] == e
    ensures FrameAt(m, data, offset, expected).Next?
    ensures var f := FrameAt(m, data, offset, expected).frame;
            f.End() == offset + |EncodeFrame(m, expected, u)| && UnitAt(data, f) == u
  {
    hide FrameAt, EncodeFrame, UnitOk, UnitAt;
    FrameEncodes(m, data, offset, expected, u);
    EncodedParts(m, expected, u);
    PayloadReadsBack(data, FrameAt(m, data, offset, expected).frame, u, EncodeFrame(m, expected, u));
  }

  /** The first unit of an encoded log is its first frame. */
  lemma FirstFrame(m: Metadata, data: seq<byte>, offset: nat, expected: int, us: seq<Unit>)
    requires offset <= |data| && us != [] && UnitsOk(m, expected, us) && data[offset..] == EncodeLog(m, expected, us)
    ensures offset < |data| && FrameAt(m, data, offset, expected).Next?
    ensures UnitsOk(m, expected + 1, us[1..])
    ensures var f := FrameAt(m, data, offset, expected).frame;
            UnitAt(data, f) == us[0] && data[f.End()..] == EncodeLog(m, expected + 1, us[1..])
  {
    hide FrameAt, EncodeFrame, EncodeLog, UnitOk, UnitsOk, UnitAt;
    var end := LogSplits(m, data, offset, expected, us);
    FrameReadsBack(m, data, offset, expected, us[0]);
  }

  /** Every log of the grammar is accepted, with a clean tail and its units read back. */
  lemma {:induction false} ScanComplete(m: Metadata, data: seq<byte>, offset: nat, expected: int, us: seq<Unit>)
    requires offset <= |data| && UnitsOk(m, expected, us) && data[offset..] == EncodeLog(m, expected, us)
    ensures Scan(m, data, offset, expected).Some? && Scan(m, data, offset, expected).value.tail == NoTail
    ensures UnitsOf(m, data, offset, expected) == us
    decreases |us|
  {
    hide FrameAt, EncodeFrame, UnitsOf, UnitAt, UnitOk;
    if us == [] {
      NoUnits(m, data, offset, expected);
    } else {
      FirstFrame(m, data, offset, expected, us);
      ScanComplete(m, data, FrameAt(m, data, offset, expected).frame.End(), expected + 1, us[1..]);
      ContentsStep(m, data, offset, expected);
    }
  }

  lemma ContentsStep(m: Metadata, data: seq<byte>, offset: nat, expected: int)
    requires offset < |data| && FrameAt(m, data, offset, expected).Next? && Scan(m, data, offset, expected).Some?
    ensures var f := FrameAt(m, data, offset, expected).frame;
            UnitsOf(m, data, offset, expected) == [UnitAt(data, f)] + UnitsOf(m, data, f.End(), expected + 1)
  {
    hide FrameAt;
    var f := FrameAt(m, data, offset, expected).frame;
    FramesAreComplete(m, data, offset, expected);
    var frames, more := Scan(m, data, offset, expected).value.frames, Scan(m, data, f.End(), expected + 1).value.frames;
    assert frames == [f] + more && frames[1..] == more;
  }

  lemma PayloadReadsBack(data: seq<byte>, f: FrameInfo, u: Unit, e: seq<byte>)
    requires f == FrameInfo(f.sequence, u.kind, |u.payload|, f.offset,
             FRAME_HEADER_BYTES + |u.payload| + FRAME_TRAILER_BYTES)
    requires f.End() <= |data| && data[f.offset..f.End()] == e
    requires |e| == f.frameBytes && e[FRAME_HEADER_BYTES..|e| - FRAME_TRAILER_BYTES] == u.payload
    ensures UnitAt(data, f) == u
  {
    SubSlice(data, f.offset, f.frameBytes, FRAME_HEADER_BYTES, f.frameBytes - FRAME_TRAILER_BYTES);
  }

  /** The clean logs are exactly the generation header followed by the frames of consecutive
      units, and the units can be read in one way only. */
  lemma CleanLogs(data: seq<byte>, m: Metadata, generation: int, first: int)
    requires |data| >= WAL_HEADER_BYTES && WalHeaderOk(data, m, generation, first)
    ensures InspectWal(data, m, generation, first).Some? && InspectWal(data, m, generation, first).value.tail == NoTail
            <==> exists us :: UnitsOk(m, first, us) && data[WAL_HEADER_BYTES..] == EncodeLog(m, first, us)
    ensures forall us, vs | UnitsOk(m, first, us) && UnitsOk(m, first, vs) ::
              EncodeLog(m, first, us) == data[WAL_HEADER_BYTES..] == EncodeLog(m, first, vs) ==> us == vs
  {
    hide Scan, EncodeLog, WalHeaderOk;
    var r := Scan(m, data, WAL_HEADER_BYTES, first);
    if r.Some? && r.value.tail == NoTail {
      ScanSound(m, data, WAL_HEADER_BYTES, first);
      assert UnitsOk(m, first, UnitsOf(m, data, WAL_HEADER_BYTES, first));
    }
    forall us | UnitsOk(m, first, us) && data[WAL_HEADER_BYTES..] == EncodeLog(m, first, us)
      ensures r.Some? && r.value.tail == NoTail && UnitsOf(m, data, WAL_HEADER_BYTES, first) == us
    {
      ScanComplete(m, data, WAL_HEADER_BYTES, first, us);
    }
  }

  // ---- a torn frame whose sequence nobody checked ----

  predicate HistoryFits(m: Metadata) { InUnsigned(m.historyMost, 8) && InUnsigned(m.historyLeast, 8) }

  function WalHeader(m: Metadata, generation: nat, first: nat): (s: seq<byte>)
    requires HistoryFits(m) && InUnsigned(generation, 8) && InUnsigned(first, 8)
    ensures |s| == WAL_HEADER_BYTES
  {
    Checked(Digits(WAL_MAGIC, 8) + SignedOne() + [0, 0] + Digits(m.historyMost, 8) + Digits(m.historyLeast, 8)
            + Digits(generation, 8) + Digits(first, 8))
  }

  function SignedOne(): seq<byte> { [0, 1] }

  lemma ShortIntegers()
    ensures Signed(SignedOne()) == 1 && Signed([0, 0]) == 0
  {
    Unsigned2([0, 1]);
    Unsigned2([0, 0]);
    assert Pow256(2) == 65536;
  }

  lemma WalHeaderEncodes(m: Metadata, generation: nat, first: nat, rest: seq<byte>)
    requires HistoryFits(m) && InUnsigned(generation, 8) && InUnsigned(first, 8)
    ensures WalHeaderOk(WalHeader(m, generation, first) + rest, m, generation, first)
  {
    hide Checksum, Unsigned, Signed, Digits;
    var h := WalHeader(m, generation, first);
    var data := h + rest;
    ShortIntegers();
    UnsignedOfDigits(WAL_MAGIC, 8) by { assert Pow256(8) == 0x1_0000_0000_0000_0000; }
    UnsignedOfDigits(m.historyMost, 8);
    UnsignedOfDigits(m.historyLeast, 8);
    UnsignedOfDigits(generation, 8);
    UnsignedOfDigits(first, 8);
    CheckedCodec(h, 4, h[..44]);
    WalHeaderSlices(m, generation, first, rest);
  }

  lemma WalHeaderSlices(m: Metadata, generation: nat, first: nat, rest: seq<byte>)
    requires HistoryFits(m) && InUnsigned(generation, 8) && InUnsigned(first, 8)
    ensures var h := WalHeader(m, generation, first);
            var data := h + rest;
            && data[0..8] == Digits(WAL_MAGIC, 8) && data[8..10] == SignedOne() && data[10..12] == [0, 0]
            && data[12..20] == Digits(m.historyMost, 8) && data[20..28] == Digits(m.historyLeast, 8)
            && data[28..36] == Digits(generation, 8) && data[36..44] == Digits(first, 8)
            && data[..44] == h[..44] && data[44..48] == h[44..] && h == Checked(h[..44])
  {
    hide Checksum, Digits;
  }

  /** A log that ends in a frame header carrying sequence 2 where 1 was due. */
  function TornLog(m: Metadata): seq<byte>
    requires HistoryFits(m)
  {
    TornHeaderFits();
    WalHeader(m, 1, 1) + PackHeader(HeaderFor(2, Unit(4, [])))
  }

  lemma TornHeaderFits()
    ensures HeaderFits(HeaderFor(2, Unit(4, []))) && HeaderOk(HeaderFor(2, Unit(4, [])))
    ensures InUnsigned(1, 8)
  {
    assert Pow256(1) == 256 && Pow256(2) == 65536 && Pow256(4) == 0x1_0000_0000 && Pow256(8) == 0x1_0000_0000_0000_0000;
  }

  /** Truncation closure fails for arbitrary accepted logs: this one is accepted with an
      incomplete frame, and its first 68 bytes are rejected. */
  lemma TornLogExample(m: Metadata)
    requires HistoryFits(m)
    ensures var data := TornLog(m);
            && |data| == 76
            && InspectWal(data, m, 1, 1).Some? && InspectWal(data, m, 1, 1).value.tail == IncompleteFrame
            && InspectWal(data[..68], m, 1, 1).None?
  {
    hide WalHeaderOk, PackHeader, ReadFrameHeader, CompleteFrameOk, IncompleteHeaderOk, Checked;
    TornHeaderFits();
    var h := HeaderFor(2, Unit(4, []));
    var data := TornLog(m);
    WalHeaderEncodes(m, 1, 1, PackHeader(h));
    UnpackHeader(h);
    assert data[48..76] == PackHeader(h);
    SequenceField(data, 48);
    assert FrameAt(m, data, 48, 1) == Stop(IncompleteFrame);
    TruncatedLog(data, m, 1, 1, 68);
  }

  lemma SequenceField(data: seq<byte>, offset: nat)
    requires offset + 28 <= |data|
    ensures SequenceAt(data, offset) == ReadFrameHeader(data[offset..offset + 28]).sequence
  {
    SubSlice(data, offset, 28, 12, 20);
  }
}
