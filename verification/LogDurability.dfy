/**
 What a crash or a bad disk can do to an accepted log: cut it anywhere, or change a few
 consecutive bytes.
 */
module LogDurability {
  import opened Bytes
  import opened Options
  import opened Crc32c
  import opened StorageFiles
  import opened WriteAheadLog

  // ---- reading short integers ----

  lemma Unsigned1(s: seq<byte>)
    requires |s| == 1
    ensures Unsigned(s) == s[0] as int
  {
    assert s[..0] == [];
    assert Unsigned(s[..0]) == 0;
  }

  lemma Unsigned2(s: seq<byte>)
    requires |s| == 2
    ensures Unsigned(s) == s[0] as int * 256 + s[1] as int
  {
    Unsigned1(s[..1]);
  }

  lemma Unsigned4(s: seq<byte>)
    requires |s| == 4
    ensures Unsigned(s) == ((s[0] as int * 256 + s[1] as int) * 256 + s[2] as int) * 256 + s[3] as int
  {
    assert s[..3][..2] == s[..2];
    Unsigned2(s[..2]);
    assert Unsigned(s[..3]) == Unsigned(s[..2]) * 256 + s[2] as int;
  }

  // ---- prefixes of a frame header ----

  lemma MagicBytes(s: seq<byte>)
    requires |s| == 4 && Unsigned(s) == FRAME_MAGIC
    ensures s == [0x47, 0x53, 0x45, 0x46]
  {
    Unsigned4(s);
  }

  lemma VersionBytes(s: seq<byte>, v: byte)
    requires |s| == 2 && Signed(s) == v as int && v < 128
    ensures s == [0, v]
  {
    Unsigned2(s);
    assert Pow256(2) == 65536;
  }

  lemma HeaderIdentity(h: seq<byte>)
    requires |h| == 28 && HeaderOk(ReadFrameHeader(h))
    ensures forall i :: 0 <= i < 8 ==> h[i] == FRAME_IDENTITY[i]
  {
    MagicBytes(h[0..4]);
    VersionBytes(h[4..6], 1);
    VersionBytes(h[6..8], 0);
    assert h[..8] == h[0..4] + h[4..6] + h[6..8] == FRAME_IDENTITY;
  }

  lemma HeaderUnit(h: seq<byte>)
    requires |h| == 28 && HeaderOk(ReadFrameHeader(h))
    ensures 1 <= h[20] <= 4 && h[21] == 0 && h[22] == 0 && h[23] == 0
    ensures Signed(h[8..12]) == Unsigned(h[8..12])
  {
    Unsigned1(h[20..21]);
    Unsigned1(h[21..22]);
    Unsigned2(h[22..24]);
    assert Pow256(1) == 256 && Pow256(2) == 65536 && Pow256(4) == 0x1_0000_0000;
  }

  /** A proper prefix of a well-formed header is accepted as an incomplete header, except that
      from byte 20 on its sequence must be the expected one. */
  lemma HeaderPrefix(h: seq<byte>, k: nat, expected: int)
    requires |h| == 28 && HeaderOk(ReadFrameHeader(h)) && k < 28
    ensures IncompleteHeaderOk(h[..k], expected) <==> (k < 20 || ReadFrameHeader(h).sequence == expected)
  {
    HeaderIdentity(h);
    HeaderUnit(h);
    if k >= 12 {
      assert h[..k][8..12] == h[8..12];
    }
    if k >= 20 {
      assert h[..k][12..20] == h[12..20];
    }
  }

  lemma IncompleteHeaderPrefix(s: seq<byte>, k: nat, expected: int)
    requires k <= |s| && IncompleteHeaderOk(s, expected)
    ensures IncompleteHeaderOk(s[..k], expected)
  {
    if k >= 12 {
      assert s[..k][8..12] == s[8..12];
    }
    if k >= 20 {
      assert s[..k][12..20] == s[12..20];
    }
  }

  lemma SubSlice(data: seq<byte>, at: nat, n: nat, i: nat, j: nat)
    requires i <= j <= n && at + n <= |data|
    ensures data[at..at + n][i..j] == data[at + i..at + j]
  {
    var x, y := data[at..at + n][i..j], data[at + i..at + j];
    forall k | 0 <= k < |x| ensures x[k] == y[k] {
      assert data[at..at + n][i + k] == data[at + i + k];
    }
  }

  // ---- one turn of the loop depends only on the bytes of its frame ----

  lemma FrameIsLocal(m: Metadata, data: seq<byte>, other: seq<byte>, offset: nat, expected: int)
    requires offset < |data| && FrameAt(m, data, offset, expected).Next?
    requires var end := FrameAt(m, data, offset, expected).frame.End();
             end <= |other| && data[offset..end] == other[offset..end]
    ensures FrameAt(m, other, offset, expected) == FrameAt(m, data, offset, expected)
  {
    hide CompleteFrameOk, ReadFrameHeader;
    var f := FrameAt(m, data, offset, expected).frame;
    SubSlice(data, offset, f.frameBytes, 0, 28);
    SubSlice(other, offset, f.frameBytes, 0, 28);
  }

  /** The sequence field of the frame header at `offset`. */
  function SequenceAt(data: seq<byte>, offset: nat): int
    requires offset + 20 <= |data|
  {
    Signed(data[offset + 12..offset + 20])
  }

  lemma FrameSequence(m: Metadata, data: seq<byte>, offset: nat, expected: int)
    requires offset < |data| && FrameAt(m, data, offset, expected).Next?
    ensures SequenceAt(data, offset) == expected
  {
    SubSlice(data, offset, 28, 12, 20);
  }

  /** A cut inside a frame whose header is well formed. */
  lemma CutInsideFrame(m: Metadata, data: seq<byte>, offset: nat, expected: int, cut: nat)
    requires offset + FRAME_HEADER_BYTES <= |data| && offset < cut <= |data|
    requires var h := ReadFrameHeader(data[offset..offset + 28]); HeaderOk(h) && cut < offset + h.length
    ensures FrameAt(m, data[..cut], offset, expected)
            == if cut - offset >= FRAME_HEADER_BYTES then Stop(IncompleteFrame)
               else if cut - offset < 20 || SequenceAt(data, offset) == expected then Stop(IncompleteHeader)
               else Reject
  {
    var h := data[offset..offset + 28];
    SubSlice(data, offset, 28, 12, 20);
    if cut - offset < FRAME_HEADER_BYTES {
      assert data[..cut][offset..] == h[..cut - offset];
      HeaderPrefix(h, cut - offset, expected);
    } else {
      assert data[..cut][offset..offset + 28] == h;
    }
  }

  lemma CutIncompleteHeader(m: Metadata, data: seq<byte>, offset: nat, expected: int, cut: nat)
    requires offset < cut <= |data| && FrameAt(m, data, offset, expected) == Stop(IncompleteHeader)
    ensures FrameAt(m, data[..cut], offset, expected) == Stop(IncompleteHeader)
  {
    assert data[..cut][offset..] == data[offset..][..cut - offset];
    IncompleteHeaderPrefix(data[offset..], cut - offset, expected);
  }

  // ---- truncation ----

  /** The frames lying wholly before the cut. */
  function FramesBefore(frames: seq<FrameInfo>, cut: nat): seq<FrameInfo> {
    if frames == [] then []
    else (if frames[0].End() <= cut then [frames[0]] else []) + FramesBefore(frames[1..], cut)
  }

  ghost predicate IsBoundary(start: nat, frames: seq<FrameInfo>, cut: nat) {
    cut == start || exists i :: 0 <= i < |frames| && frames[i].End() == cut
  }

  /** The torn frame at the end carries a sequence other than the expected one, and the cut
      leaves just enough of its header to see that. */
  predicate ExposesBadSequence(data: seq<byte>, first: int, r: Frames, cut: nat) {
    && r.tail == IncompleteFrame
    && r.end + 20 <= |data|
    && SequenceAt(data, r.end) != first + |r.frames|
    && r.end + 20 <= cut < r.end + FRAME_HEADER_BYTES
  }

  lemma {:induction false} ScanShape(m: Metadata, data: seq<byte>, offset: nat, expected: int)
    requires offset <= |data| && Scan(m, data, offset, expected).Some?
    ensures var r := Scan(m, data, offset, expected).value;
            && offset <= r.end <= |data|
            && (r.tail == NoTail <==> r.end == |data|)
            && (r.tail == IncompleteFrame ==> r.end + FRAME_HEADER_BYTES <= |data|)
            && (forall i :: 0 <= i < |r.frames| ==>
                  r.frames[i].sequence == expected + i && offset < r.frames[i].End() <= r.end
                    && offset <= r.frames[i].offset)
    decreases |data| - offset
  {
    hide CompleteFrameOk, ReadFrameHeader, IncompleteHeaderOk;
    if offset < |data| && FrameAt(m, data, offset, expected).Next? {
      ScanShape(m, data, FrameAt(m, data, offset, expected).frame.End(), expected + 1);
    }
  }

  lemma {:induction false} NoneBefore(frames: seq<FrameInfo>, cut: nat)
    requires forall i :: 0 <= i < |frames| ==> frames[i].End() > cut
    ensures FramesBefore(frames, cut) == []
  {
    if frames != [] {
      NoneBefore(frames[1..], cut);
    }
  }

  lemma FramesAfter(m: Metadata, data: seq<byte>, offset: nat, expected: int)
    requires offset < |data| && Scan(m, data, offset, expected).Some? && FrameAt(m, data, offset, expected).Next?
    ensures var f := FrameAt(m, data, offset, expected).frame;
            var frames := Scan(m, data, offset, expected).value.frames;
            |frames| > 0 && frames[0] == f && forall i :: 0 <= i < |frames| ==> f.End() <= frames[i].End()
  {
    hide FrameAt;
    var f := FrameAt(m, data, offset, expected).frame;
    ScanShape(m, data, f.End(), expected + 1);
    var frames, more := Scan(m, data, offset, expected).value.frames, Scan(m, data, f.End(), expected + 1).value.frames;
    forall i | 0 <= i < |frames| ensures f.End() <= frames[i].End() {
      assert i > 0 ==> frames[i] == more[i - 1];
    }
  }

  /** Truncation, frame by frame. */
  lemma {:induction false} TruncatedScan(m: Metadata, data: seq<byte>, offset: nat, expected: int, cut: nat)
    requires offset <= cut <= |data| && Scan(m, data, offset, expected).Some?
    ensures TruncationHolds(m, data, offset, expected, cut)
    decreases |data| - offset
  {
    hide CompleteFrameOk, ReadFrameHeader, IncompleteHeaderOk;
    ScanShape(m, data, offset, expected);
    if cut == offset {
      NoneBefore(Scan(m, data, offset, expected).value.frames, cut);
    } else {
      match FrameAt(m, data, offset, expected)
      case Stop(tail) =>
        if tail == IncompleteHeader {
          CutIncompleteHeader(m, data, offset, expected, cut);
        } else {
          CutInsideFrame(m, data, offset, expected, cut);
        }
      case Next(f) =>
        if cut < f.End() {
          CutInsideFrame(m, data, offset, expected, cut);
          FramesAfter(m, data, offset, expected);
          FrameSequence(m, data, offset, expected);
          NoneBefore(Scan(m, data, offset, expected).value.frames, cut);
        } else {
          TruncatedScan(m, data, f.End(), expected + 1, cut);
          TruncatedStep(m, data, offset, expected, cut);
        }
    }
  }

  ghost predicate TruncationHolds(m: Metadata, data: seq<byte>, offset: nat, expected: int, cut: nat)
    requires offset <= cut <= |data| && Scan(m, data, offset, expected).Some?
  {
    var r := Scan(m, data, offset, expected).value;
    var t := Scan(m, data[..cut], offset, expected);
    && (t.Some? <==> !ExposesBadSequence(data, expected, r, cut))
    && (t.Some? ==>
          && t.value.frames == FramesBefore(r.frames, cut)
          && (t.value.tail == NoTail <==> IsBoundary(offset, r.frames, cut)))
  }

  lemma TruncatedStep(m: Metadata, data: seq<byte>, offset: nat, expected: int, cut: nat)
    requires offset < |data| && Scan(m, data, offset, expected).Some? && FrameAt(m, data, offset, expected).Next?
    requires FrameAt(m, data, offset, expected).frame.End() <= cut <= |data|
    requires TruncationHolds(m, data, FrameAt(m, data, offset, expected).frame.End(), expected + 1, cut)
    ensures TruncationHolds(m, data, offset, expected, cut)
  {
    hide FrameAt;
    var f := FrameAt(m, data, offset, expected).frame;
    var more := Scan(m, data, f.End(), expected + 1).value;
    TruncatedFrame(m, data, offset, expected, cut);
    BoundaryStep(offset, f, more.frames, cut);
    assert ([f] + more.frames)[1..] == more.frames;
  }

  lemma TruncatedFrame(m: Metadata, data: seq<byte>, offset: nat, expected: int, cut: nat)
    requires offset < |data| && FrameAt(m, data, offset, expected).Next?
    requires FrameAt(m, data, offset, expected).frame.End() <= cut <= |data|
    ensures FrameAt(m, data[..cut], offset, expected) == FrameAt(m, data, offset, expected)
  {
    hide CompleteFrameOk, ReadFrameHeader;
    var end := FrameAt(m, data, offset, expected).frame.End();
    assert data[..cut][offset..end] == data[offset..end];
    FrameIsLocal(m, data, data[..cut], offset, expected);
  }

  lemma BoundaryStep(offset: nat, f: FrameInfo, more: seq<FrameInfo>, cut: nat)
    requires offset < f.End() <= cut
    ensures IsBoundary(offset, [f] + more, cut) <==> IsBoundary(f.End(), more, cut)
  {
    if IsBoundary(f.End(), more, cut) {
      if cut == f.End() {
        assert ([f] + more)[0].End() == cut;
      } else {
        var i :| 0 <= i < |more| && more[i].End() == cut;
        assert ([f] + more)[i + 1].End() == cut;
      }
    } else {
      forall i | 0 <= i < |[f] + more| ensures ([f] + more)[i].End() != cut {
        assert i > 0 ==> ([f] + more)[i] == more[i - 1];
      }
    }
  }

  /** A crash that leaves the first `cut` bytes of an accepted log. The shorter log is accepted
      unless the cut exposes a torn frame's wrong sequence; its frames are those lying wholly
      before the cut; its tail is clean exactly at frame boundaries. */
  lemma TruncatedLog(data: seq<byte>, m: Metadata, generation: int, first: int, cut: nat)
    requires InspectWal(data, m, generation, first).Some? && WAL_HEADER_BYTES <= cut <= |data|
    ensures var r := InspectWal(data, m, generation, first).value;
            var t := InspectWal(data[..cut], m, generation, first);
            && (t.Some? <==> !ExposesBadSequence(data, first, Frames(r.frames, r.lastValidOffset, r.tail), cut))
            && (t.Some? ==>
                  && t.value.frames == FramesBefore(r.frames, cut)
                  && t.value.lastSequence == first + |FramesBefore(r.frames, cut)| - 1
                  && (t.value.tail == NoTail <==> IsBoundary(WAL_HEADER_BYTES, r.frames, cut)))
  {
    hide Scan;
    SameHeader(data, data[..cut], m, generation, first);
    TruncatedScan(m, data, WAL_HEADER_BYTES, first, cut);
  }

  lemma SameHeader(data: seq<byte>, other: seq<byte>, m: Metadata, generation: int, first: int)
    requires |data| >= WAL_HEADER_BYTES && |other| >= WAL_HEADER_BYTES
    requires data[..WAL_HEADER_BYTES] == other[..WAL_HEADER_BYTES]
    ensures WalHeaderOk(data, m, generation, first) <==> WalHeaderOk(other, m, generation, first)
  {
    HeaderSlices(data);
    HeaderSlices(other);
  }

  lemma HeaderSlices(data: seq<byte>)
    requires |data| >= WAL_HEADER_BYTES
    ensures var h := data[..WAL_HEADER_BYTES];
            && data[0..8] == h[0..8] && data[8..10] == h[8..10] && data[10..12] == h[10..12]
            && data[12..20] == h[12..20] && data[20..28] == h[20..28] && data[28..36] == h[28..36]
            && data[36..44] == h[36..44] && data[44..48] == h[44..48] && data[..44] == h[..44]
  {
  }

  /** Exactly which accepted logs stay accepted whatever the cut: those whose torn frame, if
      there is one, carries the expected sequence. A log with a clean tail always qualifies. */
  lemma TruncationClosed(data: seq<byte>, m: Metadata, generation: int, first: int)
    requires InspectWal(data, m, generation, first).Some?
    ensures var r := InspectWal(data, m, generation, first).value;
            (r.tail == IncompleteFrame ==> r.lastValidOffset + FRAME_HEADER_BYTES <= |data|)
            && ((forall cut :: WAL_HEADER_BYTES <= cut <= |data| ==>
               InspectWal(data[..cut], m, generation, first).Some?)
                <==> (r.tail == IncompleteFrame ==> SequenceAt(data, r.lastValidOffset) == r.lastSequence + 1))
  {
    hide Scan;
    var r := InspectWal(data, m, generation, first).value;
    ScanShape(m, data, WAL_HEADER_BYTES, first);
    forall cut | WAL_HEADER_BYTES <= cut <= |data|
      ensures InspectWal(data[..cut], m, generation, first).Some?
              <==> !ExposesBadSequence(data, first, Frames(r.frames, r.lastValidOffset, r.tail), cut)
    {
      TruncatedLog(data, m, generation, first, cut);
    }
    if r.tail == IncompleteFrame && SequenceAt(data, r.lastValidOffset) != r.lastSequence + 1 {
      assert InspectWal(data[..r.lastValidOffset + 20], m, generation, first).None?;
    }
  }

  // ---- corruption ----

  lemma FrameDetectsBurst(m: Metadata, data: seq<byte>, changed: seq<byte>, offset: nat, expected: int, at: nat,
      width: nat)
    requires offset < |data| && FrameAt(m, data, offset, expected).Next?
    requires width <= 4 && offset <= at
             && at + width <= FrameAt(m, data, offset, expected).frame.End() - FRAME_TRAILER_BYTES
    requires DifferWithin(data, changed, at, width) && data != changed
    ensures FrameAt(m, changed, offset, expected) == Reject
  {
    hide PayloadOk, Checksum;
    var end := FrameAt(m, data, offset, expected).frame.End();
    var g := ReadFrameHeader(changed[offset..offset + 28]);
    if HeaderOk(g) {
      SameLength(data, changed, offset, at, width);
      FrameChecksum(data, changed, offset, end, at, width);
      assert !CompleteFrameOk(m, g, changed[offset..end], expected);
    }
  }

  lemma FrameChecksum(data: seq<byte>, changed: seq<byte>, offset: nat, end: nat, at: nat, width: nat)
    requires offset + FRAME_TRAILER_BYTES <= end <= |data|
    requires width <= 4 && offset <= at && at + width <= end - FRAME_TRAILER_BYTES
    requires DifferWithin(data, changed, at, width) && data != changed
    ensures var x, y := data[offset..end], changed[offset..end];
            x[|x| - 4..] == y[|y| - 4..] && Checksum(x[..|x| - 4]) != Checksum(y[..|y| - 4])
  {
    hide Fold;
    ChecksummedParts(data, offset, end);
    ChecksummedParts(changed, offset, end);
    SliceAgrees(data, changed, at, width, end - 4, end);
    SliceDiffers(data, changed, at, width, offset, end - 4);
    BurstIsDetected(data[offset..end - 4], changed[offset..end - 4], at - offset);
  }

  lemma ChecksummedParts(data: seq<byte>, start: nat, end: nat)
    requires start + FRAME_TRAILER_BYTES <= end <= |data|
    ensures var x := data[start..end]; x[..|x| - 4] == data[start..end - 4] && x[|x| - 4..] == data[end - 4..end]
  {
  }

  lemma SliceAgrees(x: seq<byte>, y: seq<byte>, at: nat, width: nat, i: nat, j: nat)
    requires DifferWithin(x, y, at, width) && i <= j <= |x|
    requires at + width <= i || j <= at
    ensures x[i..j] == y[i..j]
  {
  }

  lemma SliceDiffers(x: seq<byte>, y: seq<byte>, at: nat, width: nat, i: nat, j: nat)
    requires DifferWithin(x, y, at, width) && x != y && i <= at && at + width <= j <= |x|
    ensures x[i..j] != y[i..j] && DifferWithin(x[i..j], y[i..j], at - i, width)
  {
    var k :| 0 <= k < |x| && x[k] != y[k];
    assert x[i..j][k - i] == x[k] && y[i..j][k - i] == y[k];
  }

  /** The length is stored twice, too far apart for one burst to change both. */
  lemma SameLength(data: seq<byte>, changed: seq<byte>, offset: nat, at: nat, width: nat)
    requires offset + FRAME_HEADER_BYTES <= |data| && width <= 4 && DifferWithin(data, changed, at, width)
    requires HeaderOk(ReadFrameHeader(data[offset..offset + 28]))
             && HeaderOk(ReadFrameHeader(changed[offset..offset + 28]))
    ensures ReadFrameHeader(data[offset..offset + 28]).length == ReadFrameHeader(changed[offset..offset + 28]).length
  {
    var h, g := data[offset..offset + 28], changed[offset..offset + 28];
    if at + width <= offset + 8 || offset + 12 <= at {
      SubSlice(data, offset, 28, 8, 12);
      SubSlice(changed, offset, 28, 8, 12);
      SliceAgrees(data, changed, at, width, offset + 8, offset + 12);
    } else {
      SubSlice(data, offset, 28, 24, 28);
      SubSlice(changed, offset, 28, 24, 28);
      SliceAgrees(data, changed, at, width, offset + 24, offset + 28);
    }
  }

  lemma {:induction false} ScanDetectsBurst(m: Metadata, data: seq<byte>, changed: seq<byte>, offset: nat,
      expected: int, i: nat, at: nat, width: nat)
    requires offset <= |data| && Scan(m, data, offset, expected).Some?
    requires i < |Scan(m, data, offset, expected).value.frames|
    requires var f := Scan(m, data, offset, expected).value.frames[i];
             width <= 4 && f.offset <= at && at + width <= f.End() - FRAME_TRAILER_BYTES
    requires DifferWithin(data, changed, at, width) && data != changed
    ensures Scan(m, changed, offset, expected).None?
    decreases i
  {
    hide CompleteFrameOk, ReadFrameHeader, IncompleteHeaderOk, HeaderOk;
    var f := FrameAt(m, data, offset, expected).frame;
    if i == 0 {
      FrameDetectsBurst(m, data, changed, offset, expected, at, width);
    } else {
      ScanShape(m, data, f.End(), expected + 1);
      assert Scan(m, data, offset, expected).value.frames[i]
        == Scan(m, data, f.End(), expected + 1).value.frames[i - 1];
      assert data[offset..f.End()] == changed[offset..f.End()];
      FrameIsLocal(m, data, changed, offset, expected);
      ScanDetectsBurst(m, data, changed, f.End(), expected + 1, i - 1, at, width);
    }
  }

  /** Changing up to four consecutive checksummed bytes of any complete frame makes the
      inspector reject the log. */
  lemma FrameCorruptionIsDetected(data: seq<byte>, changed: seq<byte>, m: Metadata, generation: int, first: int,
      i: nat, at: nat, width: nat)
    requires InspectWal(data, m, generation, first).Some?
    requires i < |InspectWal(data, m, generation, first).value.frames|
    requires var f := InspectWal(data, m, generation, first).value.frames[i];
             width <= 4 && f.offset <= at && at + width <= f.End() - FRAME_TRAILER_BYTES
    requires DifferWithin(data, changed, at, width) && data != changed
    ensures InspectWal(changed, m, generation, first).None?
  {
    ScanDetectsBurst(m, data, changed, WAL_HEADER_BYTES, first, i, at, width);
  }

  /** The same for the generation header. */
  lemma HeaderCorruptionIsDetected(data: seq<byte>, changed: seq<byte>, m: Metadata, generation: int, first: int,
      at: nat, width: nat)
    requires InspectWal(data, m, generation, first).Some?
    requires width <= 4 && at + width <= WAL_HEADER_BYTES - 4
    requires DifferWithin(data, changed, at, width) && data != changed
    ensures InspectWal(changed, m, generation, first).None?
  {
    hide Scan;
    SliceAgrees(data, changed, at, width, 44, 48);
    SliceDiffers(data, changed, at, width, 0, 44);
    BurstIsDetected(data[0..44], changed[0..44], at);
    assert data[0..44] == data[..44] && changed[0..44] == changed[..44];
  }
}
