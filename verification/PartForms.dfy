/**
 The repeated parts of the binary files byte by byte: bounded strings and blobs, index descriptors
 and document slots, with what their decoders have to accept.
 */
module PartForms {
  import opened Bytes
  import opened Options
  import opened Crc32c
  import opened Layouts
  import opened ByteForms
  import opened StorageParts

  // ---- bounded strings and blobs ----

  predicate Bounded(s: seq<byte>, max: int) { |s| <= max && |s| < 0x8000_0000 }

  predicate TextOk(s: seq<byte>, min: nat, max: nat) { min <= |s| <= max && Utf8(s) }

  lemma BoundedFits(s: seq<byte>, max: int)
    ensures Bounded(s, max) <==> BlobFits(max, s)
    ensures Bounded(s, max) ==> EncodeBlob(s) == Sized(s)
  {
    FourByteBound();
  }

  lemma TextField(min: nat, max: nat, s: seq<byte>)
    requires max < 0x1_0000_0000
    ensures TextOk(s, min, max) <==> Fits(Text(min, max), Blob(s))
    ensures TextOk(s, min, max) ==> EncodeField(Text(min, max), Blob(s)) == Sized(s)
  {
    hide Utf8;
    FourByteBound();
  }

  lemma CountFollows(n: nat, rest: seq<byte>)
    requires n < 0x8000_0000
    ensures DecodeInt(4, true, Digits(n, 4) + rest) == Some((n, rest))
  {
    FourByteBound();
    IntCodec(4, true, Digits(n, 4) + rest, n, rest);
  }

  lemma CountIs(s: seq<byte>)
    requires DecodeInt(4, true, s).Some? && DecodeInt(4, true, s).value.0 >= 0
    ensures var (n, rest) := DecodeInt(4, true, s).value; n < 0x8000_0000 && s == Digits(n, 4) + rest
  {
    FourByteBound();
    IntCodec(4, true, s, DecodeInt(4, true, s).value.0, DecodeInt(4, true, s).value.1);
  }

  // ---- numbers ----

  lemma NumberField(n: int)
    ensures 0 <= n < 0x1_0000_0000_0000_0000 <==> Fits(U64, Number(n))
    ensures Fits(U64, Number(n)) ==> EncodeField(U64, Number(n)) == Digits(n, 8)
    ensures 0 <= n < 0x1_0000_0000 <==> Fits(U32, Number(n))
    ensures Fits(U32, Number(n)) ==> EncodeField(U32, Number(n)) == Digits(n, 4)
  {
    IntegerBounds();
  }

  /** Signed fields that hold no negative number. */
  lemma CountField(n: int)
    requires n >= 0
    ensures n < 0x8000_0000 <==> Fits(S32, Number(n))
    ensures Fits(S32, Number(n)) ==> EncodeField(S32, Number(n)) == Digits(n, 4)
    ensures n < 0x8000_0000_0000_0000 <==> Fits(S64, Number(n))
    ensures Fits(S64, Number(n)) ==> EncodeField(S64, Number(n)) == Digits(n, 8)
  {
    IntegerBounds();
  }

  lemma VersionField(n: int)
    requires 0 <= n < 0x80
    ensures Fits(S16, Number(n)) && EncodeField(S16, Number(n)) == [0, n as byte]
  {
    IntegerBounds();
    var s: seq<byte> := [0, n as byte];
    UnsignedByPlace([0], [n as byte]);
    assert s == [0] + [n as byte];
    DigitsOfUnsigned(s);
  }

  /** Eight bytes as the number they are. */
  lemma EightBytes(s: seq<byte>)
    requires |s| == 8
    ensures Unsigned(s) == 0x1_0000_0000 * Unsigned(s[..4]) + Unsigned(s[4..])
    ensures Unsigned(s) < 0x1_0000_0000_0000_0000 && Digits(Unsigned(s), 8) == s
  {
    UnsignedByPlace(s[..4], s[4..]);
    assert s == s[..4] + s[4..];
    FourByteBound();
    IntegerBounds();
    DigitsOfUnsigned(s);
  }

  /** The number that four characters spell. */
  function Four(t: string): nat
    requires |t| == 4
  {
    0x100_0000 * t[0] as int + 0x1_0000 * t[1] as int + 0x100 * t[2] as int + t[3] as int
  }

  lemma MagicField(t: string, n: int)
    requires |t| == 8 && forall i :: 0 <= i < 8 ==> t[i] < 128 as char
    requires n == 0x1_0000_0000 * Four(t[..4]) + Four(t[4..])
    ensures Fits(U64, Number(n)) && EncodeField(U64, Number(n)) == Ascii(t)
  {
    var s := Ascii(t);
    UnsignedOfFour(s[..4]);
    UnsignedOfFour(s[4..]);
    EightBytes(s);
    NumberField(n);
  }

  lemma SequenceField(n: int)
    ensures -0x8000_0000_0000_0000 <= n < 0x8000_0000_0000_0000 <==> InSigned(n, 8)
  {
    IntegerBounds();
  }

  lemma SequenceWritten(n: int)
    requires InSigned(n, 8)
    ensures Fits(S64, Number(n)) && EncodeField(S64, Number(n)) == SignedDigits(n, 8)
  {
  }

  lemma SequenceRead(n: int)
    requires Fits(S64, Number(n))
    ensures -0x8000_0000_0000_0000 <= n < 0x8000_0000_0000_0000
  {
    IntegerBounds();
  }

  lemma ConcatSize(p: seq<seq<byte>>, i: nat)
    requires i < |p|
    ensures |Concat(p[i..])| == |p[i]| + |Concat(p[i + 1..])|
  {
    assert p[i..][1..] == p[i + 1..];
  }

  lemma ConcatThree(parts: seq<seq<byte>>)
    requires |parts| == 3
    ensures Concat(parts) == parts[0] + parts[1] + parts[2]
  {
    assert parts[1..][1..] == parts[2..] && parts[2..][1..] == [];
    assert Concat(parts[2..]) == parts[2] + [] == parts[2];
  }

  // ---- index descriptors ----

  /** The three bounds in which the formats differ. */
  datatype TextBounds = TextBounds(minField: nat, maxField: nat, maxAnalyzer: nat)

  predicate DescriptorOk(b: TextBounds, ix: Index) {
    && 1 <= ix.kind <= 4 && TextOk(ix.field, b.minField, b.maxField) && TextOk(ix.analyzer, 0, b.maxAnalyzer)
    && (ix.kind == 4 <==> ix.analyzer == Ascii("gse-simple-v1"))
  }

  predicate DescriptorsOk(b: TextBounds, ixs: seq<Index>) { forall i :: 0 <= i < |ixs| ==> DescriptorOk(b, ixs[i]) }

  predicate Kinds(ixs: seq<Index>) { forall i :: 0 <= i < |ixs| ==> 0 <= ixs[i].kind <= 255 }

  function DescriptorBytes(ix: Index): seq<byte>
    requires 0 <= ix.kind <= 255
  {
    [ix.kind as byte] + Sized(ix.field) + Sized(ix.analyzer)
  }

  function DescriptorsBytes(ixs: seq<Index>): seq<byte>
    requires Kinds(ixs)
  {
    if ixs == [] then [] else DescriptorBytes(ixs[0]) + DescriptorsBytes(ixs[1..])
  }

  function ShapeOf(b: TextBounds, signed: bool): IndexShape {
    IndexShape(signed, b.minField, b.maxField, b.maxAnalyzer)
  }

  predicate Narrow(b: TextBounds) { b.maxField < 0x1_0000_0000 && b.maxAnalyzer < 0x1_0000_0000 }

  lemma KindField(kind: int, signed: bool)
    requires 0 <= kind <= if signed then 127 else 255
    ensures Fits(Int(1, signed), Number(kind)) && EncodeField(Int(1, signed), Number(kind)) == [kind as byte]
  {
    assert Pow256(1) == 256;
    UnsignedByte(kind as byte);
    DigitsOfUnsigned([kind as byte]);
  }

  lemma KindBounds(kind: int)
    ensures Fits(Int(1, false), Number(kind)) <==> 0 <= kind <= 255
  {
    assert Pow256(1) == 256;
  }

  lemma DescriptorFits(b: TextBounds, signed: bool, ix: Index)
    requires 0 <= ix.kind <= (if signed then 127 else 255) && Narrow(b)
    ensures IndexFits(ShapeOf(b, signed), ix) <==>
            TextOk(ix.field, b.minField, b.maxField) && TextOk(ix.analyzer, 0, b.maxAnalyzer)
    ensures IndexFits(ShapeOf(b, signed), ix) ==> EncodeIndex(ShapeOf(b, signed), ix) == DescriptorBytes(ix)
  {
    hide TextOk, Sized;
    TextField(b.minField, b.maxField, ix.field);
    TextField(0, b.maxAnalyzer, ix.analyzer);
    KindField(ix.kind, signed);
    hide Fits, EncodeField;
    var l, vs := ShapeOf(b, signed).Layout(), IndexValues(ix);
    assert AllFit(l, vs) <==> Fits(l[0], vs[0]) && Fits(l[1], vs[1]) && Fits(l[2], vs[2]);
    if AllFit(l, vs) {
      var parts := [[ix.kind as byte], Sized(ix.field), Sized(ix.analyzer)];
      EncodeIsConcat(l, vs, parts);
      ConcatThree(parts);
    }
  }

  lemma DescriptorExactly(b: TextBounds, signed: bool, ix: Index)
    requires Narrow(b)
    ensures DescriptorOk(b, ix) <==> IndexFits(ShapeOf(b, signed), ix) && IndexOk(ix)
    ensures DescriptorOk(b, ix) ==> EncodeIndex(ShapeOf(b, signed), ix) == DescriptorBytes(ix)
  {
    hide IndexFits, TextOk, EncodeIndex, DescriptorBytes;
    if 1 <= ix.kind <= 4 {
      DescriptorFits(b, signed, ix);
    }
  }

  lemma KindsOf(b: TextBounds, ixs: seq<Index>)
    requires DescriptorsOk(b, ixs)
    ensures Kinds(ixs)
  {
    hide TextOk;
    forall i | 0 <= i < |ixs| ensures 0 <= ixs[i].kind <= 255 {
      assert DescriptorOk(b, ixs[i]);
    }
  }

  lemma {:induction false} DescriptorsExactly(b: TextBounds, signed: bool, ixs: seq<Index>)
    requires Narrow(b)
    ensures DescriptorsOk(b, ixs) <==> IndexesFit(ShapeOf(b, signed), true, ixs)
    ensures DescriptorsOk(b, ixs) ==>
            && IndexesFit(ShapeOf(b, signed), false, ixs) && Kinds(ixs)
            && EncodeIndexes(ShapeOf(b, signed), ixs) == DescriptorsBytes(ixs)
    decreases |ixs|
  {
    hide DescriptorOk, IndexFits, IndexOk, EncodeIndex, DescriptorBytes;
    forall i | 0 <= i < |ixs|
      ensures DescriptorOk(b, ixs[i]) <==> IndexFits(ShapeOf(b, signed), ixs[i]) && IndexOk(ixs[i])
    {
      DescriptorExactly(b, signed, ixs[i]);
    }
    if DescriptorsOk(b, ixs) {
      KindsOf(b, ixs);
      if ixs != [] {
        DescriptorsExactly(b, signed, ixs[1..]);
        DescriptorExactly(b, signed, ixs[0]);
      }
    }
  }

  /** A descriptor of which only the lengths are checked. */
  predicate LooseOk(b: TextBounds, ix: Index) {
    0 <= ix.kind <= 255 && TextOk(ix.field, b.minField, b.maxField) && TextOk(ix.analyzer, 0, b.maxAnalyzer)
  }

  predicate AllLoose(b: TextBounds, ixs: seq<Index>) { forall i :: 0 <= i < |ixs| ==> LooseOk(b, ixs[i]) }

  lemma LooseExactly(b: TextBounds, ix: Index)
    requires Narrow(b)
    ensures LooseOk(b, ix) <==> IndexFits(ShapeOf(b, false), ix)
    ensures LooseOk(b, ix) ==> EncodeIndex(ShapeOf(b, false), ix) == DescriptorBytes(ix)
  {
    hide TextOk, EncodeIndex, DescriptorBytes, Fits;
    KindBounds(ix.kind);
    assert IndexFits(ShapeOf(b, false), ix) ==> Fits(Int(1, false), IndexValues(ix)[0]);
    hide IndexFits;
    if 0 <= ix.kind <= 255 {
      DescriptorFits(b, false, ix);
    }
  }

  lemma {:induction false} LooseListExactly(b: TextBounds, ixs: seq<Index>)
    requires Narrow(b)
    ensures AllLoose(b, ixs) <==> IndexesFit(ShapeOf(b, false), false, ixs)
    ensures AllLoose(b, ixs) ==> Kinds(ixs) && EncodeIndexes(ShapeOf(b, false), ixs) == DescriptorsBytes(ixs)
    decreases |ixs|
  {
    hide IndexFits, EncodeIndex, DescriptorBytes, TextOk;
    forall i | 0 <= i < |ixs| ensures LooseOk(b, ixs[i]) <==> IndexFits(ShapeOf(b, false), ixs[i]) {
      LooseExactly(b, ixs[i]);
    }
    if ixs != [] && AllLoose(b, ixs) {
      LooseListExactly(b, ixs[1..]);
      LooseExactly(b, ixs[0]);
    }
  }

  // ---- document slots ----

  /** What `CountLive` counts. */
  lemma {:induction false} LiveAreDocuments(slots: seq<Slot>)
    ensures CountLive(slots) == |set i | 0 <= i < |slots| && slots[i].Document?|
    decreases |slots|
  {
    if slots != [] {
      var n := |slots| - 1;
      var init := slots[..n];
      LiveAreDocuments(init);
      CountAppend(init, slots[n]);
      assert slots == init + [slots[n]];
      var before, all := set i | 0 <= i < |init| && init[i].Document?, set i | 0 <= i < |slots| && slots[i].Document?;
      assert all == if slots[n].Document? then before + {n} else before;
    }
  }

  lemma {:induction false} CountAppend(slots: seq<Slot>, slot: Slot)
    ensures CountLive(slots + [slot]) == CountLive(slots) + (if slot.Document? then 1 else 0)
  {
    if slots == [] {
      assert slots + [slot] == [slot] && [slot][1..] == [];
    } else {
      assert (slots + [slot])[1..] == slots[1..] + [slot];
      CountAppend(slots[1..], slot);
    }
  }

  lemma LiveFits(slots: seq<Slot>)
    ensures |set i | 0 <= i < |slots| && slots[i].Document?| <= |slots|
  {
    LiveAreDocuments(slots);
  }

  predicate SlotOk(b: SlotBounds, slot: Slot) {
    slot.Document? ==> Bounded(slot.key, b.maxKey) && Bounded(slot.body, b.maxDocument)
  }

  predicate SlotsOk(b: SlotBounds, slots: seq<Slot>) { forall i :: 0 <= i < |slots| ==> SlotOk(b, slots[i]) }

  function SlotsBytes(slots: seq<Slot>): seq<byte> {
    if slots == [] then []
    else (match slots[0] case Empty => [0] case Document(key, body) => [1] + Sized(key) + Sized(body))
         + SlotsBytes(slots[1..])
  }

  lemma SlotExactly(b: SlotBounds, slot: Slot)
    ensures SlotOk(b, slot) <==> SlotFits(b, slot)
    ensures SlotOk(b, slot) ==>
            EncodeSlot(b, slot) ==
              match slot case Empty => [0] case Document(key, body) => [1] + Sized(key) + Sized(body)
  {
    hide Bounded, Sized, EncodeBlob;
    if slot.Document? {
      BoundedFits(slot.key, b.maxKey);
      BoundedFits(slot.body, b.maxDocument);
    }
  }

  lemma {:induction false} SlotsExactly(b: SlotBounds, slots: seq<Slot>)
    ensures (SlotsOk(b, slots) <==> SlotsFit(b, slots))
            && (SlotsOk(b, slots) ==> EncodeSlots(b, slots) == SlotsBytes(slots))
    decreases |slots|
  {
    hide SlotOk, SlotFits, EncodeSlot, Sized;
    forall i | 0 <= i < |slots| ensures SlotOk(b, slots[i]) <==> SlotFits(b, slots[i]) {
      SlotExactly(b, slots[i]);
    }
    if slots != [] && SlotsOk(b, slots) {
      SlotsExactly(b, slots[1..]);
      SlotExactly(b, slots[0]);
    }
  }
}
