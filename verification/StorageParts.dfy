/**
 What the metadata and checkpoint files of every format share: their magic numbers and the two
 repeated parts they are built from, index descriptors and document slots. Each is a canonical
 encoding, for any number of repetitions.
 */
module StorageParts {
  import opened Bytes
  import opened Options
  import opened Layouts

  const METADATA_MAGIC := 0x4753_454D_4554_4131
  const CHECKPOINT_MAGIC := 0x4753_4543_484B_3130

  // ---- index descriptors ----

  datatype Index = Index(kind: int, field: seq<byte>, analyzer: seq<byte>)

  /** How one format packs an index: the kind byte and the two string bounds. */
  datatype IndexShape = IndexShape(signedKind: bool, minField: nat, maxField: nat, maxAnalyzer: nat)
  {
    function Layout(): Layout { [Int(1, signedKind), Text(minField, maxField), Text(0, maxAnalyzer)] }
  }

  const SIMPLE_ANALYZER: seq<byte> := Ascii("gse-simple-v1")

  predicate IndexOk(ix: Index) {
    1 <= ix.kind <= 4 && ((ix.kind == 4) <==> (ix.analyzer == SIMPLE_ANALYZER))
  }

  function IndexValues(ix: Index): seq<Value> { [Number(ix.kind), Blob(ix.field), Blob(ix.analyzer)] }

  predicate IndexFits(shape: IndexShape, ix: Index) { AllFit(shape.Layout(), IndexValues(ix)) }

  function DecodeIndex(shape: IndexShape, s: seq<byte>): Option<(Index, seq<byte>)> {
    match Decode(shape.Layout(), s)
    case None => None
    case Some((vs, rest)) =>
      LayoutDecodes(shape.Layout(), s);
      Some((Index(vs[0].n, vs[1].s, vs[2].s), rest))
  }

  /** `n` descriptors at the front of `s`; with `checked`, each must pass `IndexOk`. */
  function DecodeIndexes(shape: IndexShape, checked: bool, n: nat, s: seq<byte>): Option<(seq<Index>, seq<byte>)>
    decreases n
  {
    if n == 0 then Some(([], s))
    else match DecodeIndex(shape, s)
      case None => None
      case Some((ix, more)) =>
        if checked && !IndexOk(ix) then None
        else match DecodeIndexes(shape, checked, n - 1, more)
          case None => None
          case Some((ixs, rest)) => Some(([ix] + ixs, rest))
  }

  predicate IndexesFit(shape: IndexShape, checked: bool, ixs: seq<Index>) {
    forall i :: 0 <= i < |ixs| ==> IndexFits(shape, ixs[i]) && (checked ==> IndexOk(ixs[i]))
  }

  function EncodeIndex(shape: IndexShape, ix: Index): seq<byte>
    requires IndexFits(shape, ix)
  {
    Encode(shape.Layout(), IndexValues(ix))
  }

  function EncodeIndexes(shape: IndexShape, ixs: seq<Index>): seq<byte>
    requires IndexesFit(shape, false, ixs)
  {
    if ixs == [] then [] else EncodeIndex(shape, ixs[0]) + EncodeIndexes(shape, ixs[1..])
  }

  lemma IndexDecodes(shape: IndexShape, s: seq<byte>)
    requires DecodeIndex(shape, s).Some?
    ensures var (ix, rest) := DecodeIndex(shape, s).value; IndexFits(shape, ix) && s == EncodeIndex(shape, ix) + rest
  {
    LayoutDecodes(shape.Layout(), s);
    var (vs, rest) := Decode(shape.Layout(), s).value;
    assert vs == IndexValues(DecodeIndex(shape, s).value.0);
  }

  lemma IndexEncodes(shape: IndexShape, ix: Index, rest: seq<byte>)
    requires IndexFits(shape, ix)
    ensures DecodeIndex(shape, EncodeIndex(shape, ix) + rest) == Some((ix, rest))
  {
    LayoutEncodes(shape.Layout(), IndexValues(ix), rest);
  }

  lemma EncodeIndexesCons(shape: IndexShape, checked: bool, ix: Index, ixs: seq<Index>)
    requires IndexFits(shape, ix) && (checked ==> IndexOk(ix)) && IndexesFit(shape, checked, ixs)
    ensures IndexesFit(shape, checked, [ix] + ixs)
    ensures EncodeIndexes(shape, [ix] + ixs) == EncodeIndex(shape, ix) + EncodeIndexes(shape, ixs)
  {
    assert ([ix] + ixs)[1..] == ixs;
  }

  lemma {:induction false} IndexesDecode(shape: IndexShape, checked: bool, n: nat, s: seq<byte>)
    requires DecodeIndexes(shape, checked, n, s).Some?
    ensures var (ixs, rest) := DecodeIndexes(shape, checked, n, s).value;
            |ixs| == n && IndexesFit(shape, checked, ixs) && s == EncodeIndexes(shape, ixs) + rest
    decreases n
  {
    if n > 0 {
      var (ix, more) := DecodeIndex(shape, s).value;
      IndexDecodes(shape, s);
      IndexesDecode(shape, checked, n - 1, more);
      var (ixs, rest) := DecodeIndexes(shape, checked, n - 1, more).value;
      EncodeIndexesCons(shape, checked, ix, ixs);
      Associates(EncodeIndex(shape, ix), EncodeIndexes(shape, ixs), rest);
    }
  }

  lemma {:induction false} IndexesEncode(shape: IndexShape, checked: bool, ixs: seq<Index>, rest: seq<byte>)
    requires IndexesFit(shape, checked, ixs)
    ensures DecodeIndexes(shape, checked, |ixs|, EncodeIndexes(shape, ixs) + rest) == Some((ixs, rest))
    decreases |ixs|
  {
    if ixs == [] {
      assert [] + rest == rest;
    } else {
      var head, tail := EncodeIndex(shape, ixs[0]), EncodeIndexes(shape, ixs[1..]);
      Associates(head, tail, rest);
      IndexEncodes(shape, ixs[0], tail + rest);
      IndexesEncode(shape, checked, ixs[1..], rest);
      assert [ixs[0]] + ixs[1..] == ixs;
    }
  }

  /** The descriptor list is read back exactly, and nothing else encodes it. */
  lemma IndexesCodec(shape: IndexShape, checked: bool, s: seq<byte>, ixs: seq<Index>, rest: seq<byte>)
    ensures DecodeIndexes(shape, checked, |ixs|, s) == Some((ixs, rest))
            <==> IndexesFit(shape, checked, ixs) && s == EncodeIndexes(shape, ixs) + rest
  {
    if DecodeIndexes(shape, checked, |ixs|, s) == Some((ixs, rest)) {
      IndexesDecode(shape, checked, |ixs|, s);
    } else if IndexesFit(shape, checked, ixs) && s == EncodeIndexes(shape, ixs) + rest {
      IndexesEncode(shape, checked, ixs, rest);
    }
  }

  /** The loop that reads the descriptors. */
  method ReadIndexes(cursor: Cursor, shape: IndexShape, checked: bool, n: nat) returns (r: Option<seq<Index>>)
    requires cursor.Valid()
    modifies cursor
    ensures cursor.Valid()
    ensures r.Some? <==> DecodeIndexes(shape, checked, n, old(cursor.Rest())).Some?
    ensures r.Some? ==> DecodeIndexes(shape, checked, n, old(cursor.Rest())) == Some((r.value, cursor.Rest()))
  {
    var indexes: seq<Index> := [];
    ghost var whole := DecodeIndexes(shape, checked, n, cursor.Rest());
    PrependNothing(whole);
    for k := 0 to n
      invariant cursor.Valid()
      invariant whole == Prepend(indexes, DecodeIndexes(shape, checked, n - k, cursor.Rest()))
    {
      ghost var before := cursor.Rest();
      var vs := cursor.ReadFields(shape.Layout());
      if vs.None? { return None; }
      LayoutDecodes(shape.Layout(), before);
      var ix := Index(vs.value[0].n, vs.value[1].s, vs.value[2].s);
      if checked && !IndexOk(ix) { return None; }
      PrependStep(indexes, ix, DecodeIndexes(shape, checked, n - k - 1, cursor.Rest()));
      indexes := indexes + [ix];
    }
    assert indexes + [] == indexes;
    r := Some(indexes);
  }

  // ---- document slots ----

  /** A four-byte signed length within its bound, then that many bytes. */
  function DecodeBlob(max: int, s: seq<byte>): Option<(seq<byte>, seq<byte>)> {
    match DecodeInt(4, true, s)
    case None => None
    case Some((size, more)) =>
      if size < 0 || size > max || size > |more| then None else Some((more[..size], more[size..]))
  }

  predicate BlobFits(max: int, b: seq<byte>) { |b| <= max && InSigned(|b|, 4) }

  function EncodeBlob(b: seq<byte>): seq<byte>
    requires InSigned(|b|, 4)
  {
    SignedDigits(|b|, 4) + b
  }

  lemma IntCodec(width: nat, signed: bool, s: seq<byte>, n: int, rest: seq<byte>)
    ensures DecodeInt(width, signed, s) == Some((n, rest))
            <==> Fits(Int(width, signed), Number(n)) && s == EncodeField(Int(width, signed), Number(n)) + rest
  {
    var f := Int(width, signed);
    if DecodeField(f, s).Some? {
      FieldDecodes(f, s);
    }
    if Fits(f, Number(n)) {
      FieldEncodes(f, Number(n), rest);
    }
  }

  lemma BlobDecodes(max: int, s: seq<byte>)
    requires DecodeBlob(max, s).Some?
    ensures var (b, rest) := DecodeBlob(max, s).value; BlobFits(max, b) && s == EncodeBlob(b) + rest
  {
    var (b, rest) := DecodeBlob(max, s).value;
    var (size, more) := DecodeInt(4, true, s).value;
    IntCodec(4, true, s, size, more);
    Associates(SignedDigits(|b|, 4), b, rest);
  }

  lemma BlobEncodes(max: int, b: seq<byte>, rest: seq<byte>)
    requires BlobFits(max, b)
    ensures DecodeBlob(max, EncodeBlob(b) + rest) == Some((b, rest))
  {
    Associates(SignedDigits(|b|, 4), b, rest);
    IntCodec(4, true, EncodeBlob(b) + rest, |b|, b + rest);
    assert (b + rest)[..|b|] == b && (b + rest)[|b|..] == rest;
  }

  datatype Slot = Empty | Document(key: seq<byte>, body: seq<byte>)

  datatype SlotBounds = SlotBounds(maxKey: int, maxDocument: int)

  function DecodeSlot(bounds: SlotBounds, s: seq<byte>): Option<(Slot, seq<byte>)> {
    if s == [] then None
    else if s[0] == 0 then Some((Empty, s[1..]))
    else if s[0] != 1 then None
    else match DecodeBlob(bounds.maxKey, s[1..])
      case None => None
      case Some((key, more)) =>
        match DecodeBlob(bounds.maxDocument, more)
        case None => None
        case Some((body, rest)) => Some((Document(key, body), rest))
  }

  predicate SlotFits(bounds: SlotBounds, slot: Slot) {
    slot.Document? ==> BlobFits(bounds.maxKey, slot.key) && BlobFits(bounds.maxDocument, slot.body)
  }

  function EncodeSlot(bounds: SlotBounds, slot: Slot): seq<byte>
    requires SlotFits(bounds, slot)
  {
    match slot
    case Empty => [0]
    case Document(key, body) => [1] + EncodeBlob(key) + EncodeBlob(body)
  }

  lemma DocumentBytes(key: seq<byte>, body: seq<byte>, rest: seq<byte>)
    ensures [1] + (key + (body + rest)) == ([1] + key + body) + rest
  {
  }

  lemma SlotDecodes(bounds: SlotBounds, s: seq<byte>)
    requires DecodeSlot(bounds, s).Some?
    ensures var (slot, rest) := DecodeSlot(bounds, s).value;
            SlotFits(bounds, slot) && s == EncodeSlot(bounds, slot) + rest
  {
    assert s == [s[0]] + s[1..];
    if s[0] == 1 {
      var (key, more) := DecodeBlob(bounds.maxKey, s[1..]).value;
      var (body, rest) := DecodeBlob(bounds.maxDocument, more).value;
      BlobDecodes(bounds.maxKey, s[1..]);
      BlobDecodes(bounds.maxDocument, more);
      DocumentBytes(EncodeBlob(key), EncodeBlob(body), rest);
    }
  }

  lemma DocumentDecodes(bounds: SlotBounds, slot: Slot, key: seq<byte>, body: seq<byte>, rest: seq<byte>)
    requires slot.Document?
    requires DecodeBlob(bounds.maxKey, key + (body + rest)) == Some((slot.key, body + rest))
    requires DecodeBlob(bounds.maxDocument, body + rest) == Some((slot.body, rest))
    ensures DecodeSlot(bounds, [1] + key + body + rest) == Some((slot, rest))
  {
    hide DecodeBlob;
    DocumentBytes(key, body, rest);
    assert ([1] + (key + (body + rest)))[1..] == key + (body + rest);
  }

  lemma EmptyDecodes(bounds: SlotBounds, rest: seq<byte>)
    ensures DecodeSlot(bounds, [0] + rest) == Some((Empty, rest))
  {
    assert ([0] + rest)[1..] == rest;
  }

  lemma SlotEncodes(bounds: SlotBounds, slot: Slot, rest: seq<byte>)
    requires SlotFits(bounds, slot)
    ensures DecodeSlot(bounds, EncodeSlot(bounds, slot) + rest) == Some((slot, rest))
  {
    hide DecodeBlob, DecodeSlot, EncodeBlob;
    match slot
    case Empty =>
      EmptyDecodes(bounds, rest);
    case Document(key, body) =>
      BlobEncodes(bounds.maxDocument, body, rest);
      BlobEncodes(bounds.maxKey, key, EncodeBlob(body) + rest);
      DocumentDecodes(bounds, slot, EncodeBlob(key), EncodeBlob(body), rest);
  }

  lemma EncodeSlotsCons(bounds: SlotBounds, slot: Slot, slots: seq<Slot>)
    requires SlotFits(bounds, slot) && SlotsFit(bounds, slots)
    ensures SlotsFit(bounds, [slot] + slots)
    ensures EncodeSlots(bounds, [slot] + slots) == EncodeSlot(bounds, slot) + EncodeSlots(bounds, slots)
  {
    assert ([slot] + slots)[1..] == slots;
  }

  function DecodeSlots(bounds: SlotBounds, n: nat, s: seq<byte>): Option<(seq<Slot>, seq<byte>)>
    decreases n
  {
    if n == 0 then Some(([], s))
    else match DecodeSlot(bounds, s)
      case None => None
      case Some((slot, more)) =>
        match DecodeSlots(bounds, n - 1, more)
        case None => None
        case Some((slots, rest)) => Some(([slot] + slots, rest))
  }

  predicate SlotsFit(bounds: SlotBounds, slots: seq<Slot>) {
    forall i :: 0 <= i < |slots| ==> SlotFits(bounds, slots[i])
  }

  function EncodeSlots(bounds: SlotBounds, slots: seq<Slot>): seq<byte>
    requires SlotsFit(bounds, slots)
  {
    if slots == [] then [] else EncodeSlot(bounds, slots[0]) + EncodeSlots(bounds, slots[1..])
  }

  function CountLive(slots: seq<Slot>): (n: nat)
    ensures n <= |slots|
  {
    if slots == [] then 0 else (if slots[0].Document? then 1 else 0) + CountLive(slots[1..])
  }

  lemma {:induction false} SlotsDecode(bounds: SlotBounds, n: nat, s: seq<byte>)
    requires DecodeSlots(bounds, n, s).Some?
    ensures var (slots, rest) := DecodeSlots(bounds, n, s).value;
            |slots| == n && SlotsFit(bounds, slots) && s == EncodeSlots(bounds, slots) + rest
    decreases n
  {
    if n > 0 {
      var (slot, more) := DecodeSlot(bounds, s).value;
      SlotDecodes(bounds, s);
      SlotsDecode(bounds, n - 1, more);
      var (slots, rest) := DecodeSlots(bounds, n - 1, more).value;
      EncodeSlotsCons(bounds, slot, slots);
      Associates(EncodeSlot(bounds, slot), EncodeSlots(bounds, slots), rest);
    }
  }

  lemma {:induction false} SlotsEncode(bounds: SlotBounds, slots: seq<Slot>, rest: seq<byte>)
    requires SlotsFit(bounds, slots)
    ensures DecodeSlots(bounds, |slots|, EncodeSlots(bounds, slots) + rest) == Some((slots, rest))
    decreases |slots|
  {
    if slots == [] {
      assert [] + rest == rest;
    } else {
      var head, tail := EncodeSlot(bounds, slots[0]), EncodeSlots(bounds, slots[1..]);
      Associates(head, tail, rest);
      SlotEncodes(bounds, slots[0], tail + rest);
      SlotsEncode(bounds, slots[1..], rest);
      assert [slots[0]] + slots[1..] == slots;
    }
  }

  /** The slot list is read back exactly, and nothing else encodes it. */
  lemma SlotsCodec(bounds: SlotBounds, s: seq<byte>, slots: seq<Slot>, rest: seq<byte>)
    ensures DecodeSlots(bounds, |slots|, s) == Some((slots, rest))
            <==> SlotsFit(bounds, slots) && s == EncodeSlots(bounds, slots) + rest
  {
    if DecodeSlots(bounds, |slots|, s) == Some((slots, rest)) {
      SlotsDecode(bounds, |slots|, s);
    } else if SlotsFit(bounds, slots) && s == EncodeSlots(bounds, slots) + rest {
      SlotsEncode(bounds, slots, rest);
    }
  }

  /** Reads one bounded blob. */
  method ReadBlob(cursor: Cursor, max: int) returns (r: Option<seq<byte>>)
    requires cursor.Valid()
    modifies cursor
    ensures cursor.Valid()
    ensures r.Some? <==> DecodeBlob(max, old(cursor.Rest())).Some?
    ensures r.Some? ==> DecodeBlob(max, old(cursor.Rest())) == Some((r.value, cursor.Rest()))
  {
    var size := cursor.ReadInt(4, true);
    if size.None? || size.value < 0 || size.value > max {
      return None;
    }
    r := cursor.Read(size.value);
  }

  lemma OneByte(s: seq<byte>)
    requires s != []
    ensures DecodeInt(1, false, s) == Some((s[0] as int, s[1..]))
  {
    var t := s[..1];
    assert t[..|t| - 1] == [] && Unsigned(t[..|t| - 1]) == 0 && t[0] == s[0];
    assert Unsigned(t) == s[0] as int;
  }

  /** The loop that walks the slots and counts the live ones. */
  method ReadSlots(cursor: Cursor, bounds: SlotBounds, n: nat) returns (ok: bool, live: nat)
    requires cursor.Valid()
    modifies cursor
    ensures cursor.Valid()
    ensures ok <==> DecodeSlots(bounds, n, old(cursor.Rest())).Some?
    ensures ok ==> var (slots, rest) := DecodeSlots(bounds, n, old(cursor.Rest())).value;
                   live == CountLive(slots) && cursor.Rest() == rest
  {
    live := 0;
    ghost var whole := DecodeSlots(bounds, n, cursor.Rest());
    for k := 0 to n
      invariant cursor.Valid()
      invariant match DecodeSlots(bounds, n - k, cursor.Rest())
                case None => whole.None?
                case Some((more, rest)) =>
                  whole.Some? && whole.value.1 == rest && CountLive(whole.value.0) == live + CountLive(more)
    {
      ghost var before := cursor.Rest();
      var state := cursor.ReadInt(1, false);
      if state.None? { return false, live; }
      OneByte(before);
      if state.value == 0 { continue; }
      if state.value != 1 { return false, live; }
      var key := ReadBlob(cursor, bounds.maxKey);
      if key.None? { return false, live; }
      var body := ReadBlob(cursor, bounds.maxDocument);
      if body.None? { return false, live; }
      live := live + 1;
    }
    ok := true;
  }
}
