/**
  * Records that a reader does not know: whatever the encoder writes for a field is one that a reader can
  * skip, so a reader with other fields gets exactly what it shares with the writer.
  */
module UnknownFields {
  import opened Wire
  import Varint
  import opened Descriptor
  import opened FieldIter
  import opened EncodeSpec
  import opened DecodeSpec
  import opened RoundTrip

  // ---------- One value ----------

  lemma {:induction false} EncodedVarintSkipped(v: nat, rest: seq<byte>)
    ensures SkipVarint(Varint.Encode(v) + rest) == Some(rest)
  {
    var all := Varint.Encode(v) + rest;
    if v < 128 {
      assert all[1..] == rest;
    } else {
      EncodedVarintSkipped(v / 128, rest);
      assert all[1..] == Varint.Encode(v / 128) + rest;
    }
  }

  lemma PrefixedSkipped(b: seq<byte>, rest: seq<byte>)
    requires |b| < TWO_32
    ensures SkipField(Prefixed(b) + rest, 2) == Some(rest)
  {
    hide Varint.Encode, Varint.Decode32, Prefixed;
    PrefixRoundTrip(b, rest);
  }

  /** The body of a record is what its wire type says, so a reader can skip it without knowing the field. */
  lemma ValueSkipped(f: FieldDesc, v: Value, rest: seq<byte>)
    requires WellFormedField(f) && ValidValue(f, v) && ShapedValue(f, v)
    requires EncodeValue(f, v).Ok? && ValueLengthsFit(f, v)
    ensures SkipField(EncodeValue(f, v).value + rest, WireType(f.kind)) == Some(rest)
  {
    hide Varint.Encode, Varint.Decode32, Varint.FixedBytes, SkipVarint, Prefixed, ValidValue;
    match f.kind
    case VarintKind => EncodedVarintSkipped(ToUnsigned64(v.n), rest);
    case UVarintKind => EncodedVarintSkipped(v.n, rest);
    case SVarintKind => EncodedVarintSkipped(Varint.ZigZag(v.n), rest);
    case Fixed32Kind => FixedWordRoundTrip32(v.n, rest);
    case Fixed64Kind => FixedWordRoundTrip64(v.n, rest);
    case BytesKind => PrefixedSkipped(v.b, rest);
    case StringKind => PrefixedSkipped(v.b, rest);
    case SubmessageKind(sub) => PrefixedSkipped(EncodeMessage(sub, v.slots).value, rest);
    case FixedBytesKind => PrefixedSkipped(v.b, rest);
  }

  lemma FixedWordRoundTrip32(n: nat, rest: seq<byte>)
    requires n < TWO_32
    ensures Skip(Varint.FixedBytes(n, 4) + rest, 4) == Some(rest)
  {
  }

  lemma FixedWordRoundTrip64(n: nat, rest: seq<byte>)
    requires n < TWO_64
    ensures Skip(Varint.FixedBytes(n, 8) + rest, 8) == Some(rest)
  {
  }

  /** The number in the key that says how the body ends. */
  lemma KeyOfField(f: FieldDesc, v: Value, rest: seq<byte>)
    requires WellFormedField(f) && ShapedValue(f, v) && EncodeField(f, v).Ok?
    ensures Varint.Decode32(EncodeField(f, v).value + rest).Ok?
    ensures var (word, body) := Varint.Decode32(EncodeField(f, v).value + rest).value;
      && word / 8 == f.tag && body == EncodeValue(f, v).value + rest
      && (word % 8 == 0 <==> f.kind.VarintKind? || f.kind.UVarintKind? || f.kind.SVarintKind?)
      && (word % 8 == 1 <==> f.kind.Fixed64Kind?)
      && (word % 8 == 5 <==> f.kind.Fixed32Kind?)
      && (word % 8 == 2 <==> f.kind.BytesKind? || f.kind.StringKind? || f.kind.SubmessageKind? || f.kind.FixedBytesKind?)
  {
    hide Varint.Encode, Varint.Decode32, EncodeValue;
    var key, body := f.tag * 8 + WireType(f.kind), EncodeValue(f, v).value;
    Varint.RoundTrip32(key, body + rest);
    assert EncodeField(f, v).value + rest == Varint.Encode(key) + (body + rest);
  }

  /** Arrays of numbers are one record with a length; all others have one record for each element. */
  lemma KeyOfArray(f: FieldDesc, items: seq<Value>, rest: seq<byte>)
    requires WellFormedField(f) && items != [] && forall j :: 0 <= j < |items| ==> ShapedValue(f, items[j])
    requires EncodeArray(f, items).Ok?
    ensures f.kind.BytesKind? || f.kind.StringKind? || f.kind.SubmessageKind? || f.kind.FixedBytesKind? ==>
      EncodeArray(f, items) == EncodeUnpacked(f, items, 0)
    ensures !(f.kind.BytesKind? || f.kind.StringKind? || f.kind.SubmessageKind? || f.kind.FixedBytesKind?) ==>
      && EncodeItems(f, items, 0).Ok?
      && Varint.Decode32(EncodeArray(f, items).value + rest)
         == Ok((f.tag * 8 + 2, Prefixed(EncodeItems(f, items, 0).value) + rest))
  {
    hide Varint.Encode, Varint.Decode32, EncodeItems, EncodeUnpacked, ShapedValue;
    if Packable(f.kind) {
      var key, body := f.tag * 8 + 2, Prefixed(EncodeItems(f, items, 0).value);
      Varint.RoundTrip32(key, body + rest);
      assert EncodeArray(f, items).value + rest == Varint.Encode(key) + (body + rest);
    }
  }

  // ---------- Records of a field the reader does not know ----------

  /** A reader without that tag goes on behind a record whose body it can skip. */
  lemma RecordSkipped(reader: seq<FieldDesc>, slots: seq<Slot>, seen: set<nat>, tag: nat, wireType: nat, body: seq<byte>, rest: seq<byte>)
    requires WellFormed(reader) && Valid(reader, slots)
    requires 0 < tag < TAG_LIMIT && wireType < 8 && IndexOf(reader, tag).None?
    requires SkipField(body + rest, wireType) == Some(rest)
    ensures DecodeLoop(reader, slots, seen, Tag(tag, wireType) + body + rest) == DecodeLoop(reader, slots, seen, rest)
  {
    hide Varint.Encode, Varint.Decode32, SkipField, DecodeField, Valid, WellFormed;
    var key := tag * 8 + wireType;
    Varint.RoundTrip32(key, body + rest);
    assert Tag(tag, wireType) + body + rest == Varint.Encode(key) + (body + rest);
    assert key / 8 == tag && key % 8 == wireType;
  }

  lemma FieldSkipped(reader: seq<FieldDesc>, slots: seq<Slot>, seen: set<nat>, f: FieldDesc, v: Value, rest: seq<byte>)
    requires WellFormed(reader) && Valid(reader, slots) && IndexOf(reader, f.tag).None?
    requires WellFormedField(f) && ValidValue(f, v) && ShapedValue(f, v)
    requires EncodeField(f, v).Ok? && ValueLengthsFit(f, v)
    ensures DecodeLoop(reader, slots, seen, EncodeField(f, v).value + rest) == DecodeLoop(reader, slots, seen, rest)
  {
    hide EncodeValue, SkipField, DecodeLoop, ValidValue, ShapedValue, ValueLengthsFit, Valid, WellFormed;
    ValueSkipped(f, v, rest);
    RecordSkipped(reader, slots, seen, f.tag, WireType(f.kind), EncodeValue(f, v).value, rest);
  }

  lemma {:induction false} UnpackedSkipped(
    reader: seq<FieldDesc>, slots: seq<Slot>, seen: set<nat>, f: FieldDesc, items: seq<Value>, from: nat, rest: seq<byte>)
    requires WellFormed(reader) && Valid(reader, slots) && IndexOf(reader, f.tag).None?
    requires WellFormedField(f) && from <= |items|
    requires forall j :: 0 <= j < |items| ==> ValidValue(f, items[j]) && ShapedValue(f, items[j]) && ValueLengthsFit(f, items[j])
    requires EncodeUnpacked(f, items, from).Ok?
    ensures DecodeLoop(reader, slots, seen, EncodeUnpacked(f, items, from).value + rest) == DecodeLoop(reader, slots, seen, rest)
    decreases |items| - from
  {
    hide EncodeField, DecodeLoop, ValidValue, ShapedValue, ValueLengthsFit, Valid, WellFormed, WellFormedField;
    if from == |items| {
      assert [] + rest == rest;
    } else {
      var head, tail := EncodeField(f, items[from]).value, EncodeUnpacked(f, items, from + 1).value;
      assert head + tail + rest == head + (tail + rest);
      FieldSkipped(reader, slots, seen, f, items[from], tail + rest);
      UnpackedSkipped(reader, slots, seen, f, items, from + 1, rest);
    }
  }

  /** All records that a slot is encoded to. */
  lemma SlotSkipped(reader: seq<FieldDesc>, slots: seq<Slot>, seen: set<nat>, f: FieldDesc, s: Slot, rest: seq<byte>)
    requires WellFormed(reader) && Valid(reader, slots) && IndexOf(reader, f.tag).None?
    requires WellFormedField(f) && ValidSlot(f, s) && ShapedSlot(f, s) && EncodeSlot(f, s).Ok? && SlotLengthsFit(f, s)
    ensures DecodeLoop(reader, slots, seen, EncodeSlot(f, s).value + rest) == DecodeLoop(reader, slots, seen, rest)
  {
    hide EncodeField, EncodeItems, EncodeUnpacked, DecodeLoop, ValidValue, ShapedValue, ValueLengthsFit, IsZero, Valid, WellFormed;
    if IsZeroSlot(f, s) {
      assert EncodeSlot(f, s).value + rest == rest;
    } else if f.rule.Repeated? {
      if Packable(f.kind) {
        var payload := EncodeItems(f, s.items, 0).value;
        PrefixedSkipped(payload, rest);
        RecordSkipped(reader, slots, seen, f.tag, WT_STRING, Prefixed(payload), rest);
      } else {
        UnpackedSkipped(reader, slots, seen, f, s.items, 0, rest);
      }
    } else {
      FieldSkipped(reader, slots, seen, f, Content(s).value, rest);
    }
  }

  // ---------- A reader with other fields ----------

  /**
    * Each of the reader's fields is the writer's field at some index, in the same order, or has a tag that
    * the writer does not know.
    */
  ghost predicate Picks(fields: seq<FieldDesc>, reader: seq<FieldDesc>, at: seq<Option<nat>>) {
    && |at| == |reader|
    && (forall j :: 0 <= j < |at| && at[j].Some? ==> at[j].value < |fields| && reader[j] == fields[at[j].value])
    && (forall j, k :: 0 <= j < k < |at| && at[j].Some? && at[k].Some? ==> at[j].value < at[k].value)
    && (forall j, i :: 0 <= j < |at| && at[j].None? && 0 <= i < |fields| ==> reader[j].tag != fields[i].tag)
  }

  /** What the reader has room for; a field of its own is at its default. */
  function Picked(fields: seq<FieldDesc>, slots: seq<Slot>, reader: seq<FieldDesc>, at: seq<Option<nat>>): (r: seq<Slot>)
    requires |slots| == |fields| && Picks(fields, reader, at)
    ensures |r| == |reader|
  {
    seq(|reader|, j requires 0 <= j < |reader| => if at[j].Some? then slots[at[j].value] else DefaultSlot(reader[j]))
  }

  lemma {:induction false} DefaultsSettled(fields: seq<FieldDesc>)
    requires WellFormed(fields)
    ensures Shaped(fields, Defaults(fields)) && Settled(fields, Defaults(fields))
    decreases fields, 2
  {
    DefaultsValid(fields);
    ValidIsShaped(fields, Defaults(fields));
    forall i | 0 <= i < |fields|
      ensures SettledSlot(fields[i], Defaults(fields)[i])
    {
      InitialSettled(fields[i]);
      hide ShapedValue, SettledValue, InitialValue, IsZero;
      assert Defaults(fields)[i] == DefaultSlot(fields[i]);
    }
  }

  lemma {:induction false} InitialSettled(f: FieldDesc)
    requires WellFormedField(f)
    ensures ShapedValue(f, InitialValue(f)) && SettledValue(f, InitialValue(f))
    decreases f, 0
  {
    InitialValid(f);
    ValidValueIsShaped(f, InitialValue(f));
    if f.kind.SubmessageKind? {
      DefaultsSettled(f.kind.fields);
    }
  }

  /** A default reads back as itself. */
  lemma DefaultIsNormal(f: FieldDesc)
    requires WellFormedField(f)
    ensures ValidSlot(f, DefaultSlot(f)) && ShapedSlot(f, DefaultSlot(f)) && NormalSlot(f, DefaultSlot(f)) == DefaultSlot(f)
  {
    hide WellFormedField, ValidSlot, ShapedSlot, SettledSlot, NormalSlot;
    DefaultsValid([f]);
    ValidIsShaped([f], Defaults([f]));
    DefaultsSettled([f]);
    assert Defaults([f])[0] == DefaultSlot(f);
    SettledSlotKept(f, DefaultSlot(f));
  }

  lemma PickedValid(fields: seq<FieldDesc>, slots: seq<Slot>, reader: seq<FieldDesc>, at: seq<Option<nat>>)
    requires WellFormed(reader) && Valid(fields, slots) && Shaped(fields, slots) && Picks(fields, reader, at)
    ensures Valid(reader, Picked(fields, slots, reader, at)) && Shaped(reader, Picked(fields, slots, reader, at))
  {
    hide WellFormedField, ValidSlot, ShapedSlot, DefaultSlot;
    var kept := Picked(fields, slots, reader, at);
    forall j | 0 <= j < |reader|
      ensures ValidSlot(reader[j], kept[j]) && ShapedSlot(reader[j], kept[j])
    {
      DefaultIsNormal(reader[j]);
    }
    forall j | 0 <= j < |reader| && at[j].None?
      ensures Unselected(kept[j])
    {
      DefaultUnselected(reader[j]);
    }
  }

  lemma DefaultUnselected(f: FieldDesc)
    ensures Unselected(DefaultSlot(f))
  {
  }

  lemma NotPicked(fields: seq<FieldDesc>, reader: seq<FieldDesc>, at: seq<Option<nat>>, i: nat)
    requires DistinctTags(fields) && Picks(fields, reader, at) && i < |fields| && Some(i) !in at
    ensures IndexOf(reader, fields[i].tag).None?
  {
  }

  /** The required fields from index j on that the writer knows. */
  function KnownRequired(reader: seq<FieldDesc>, at: seq<Option<nat>>, j: nat): set<nat>
    requires |at| == |reader|
  {
    set k: nat | k < |reader| && j <= k && reader[k].rule.Required? && at[k].Some?
  }

  lemma KnownRequiredStep(reader: seq<FieldDesc>, at: seq<Option<nat>>, seen: set<nat>, j: nat)
    requires |at| == |reader| && j < |reader|
    ensures if at[j].Some? then Met(reader, seen, j) + KnownRequired(reader, at, j + 1) == seen + KnownRequired(reader, at, j)
            else KnownRequired(reader, at, j + 1) == KnownRequired(reader, at, j)
    ensures seen + KnownRequired(reader, at, |reader|) == seen
  {
  }

  lemma OwnField(reader: seq<FieldDesc>, kept: seq<Slot>, j: nat)
    requires WellFormed(reader) && Shaped(reader, kept) && j < |reader| && kept[j] == DefaultSlot(reader[j])
    ensures Mixed(reader, kept, j) == Mixed(reader, kept, j + 1)
  {
    hide ShapedSlot, NormalSlot, DefaultSlot, WellFormedField;
    DefaultIsNormal(reader[j]);
  }

  /** From the writer's field i and the reader's field j on. */
  lemma {:induction false} PickedFrom(
    fields: seq<FieldDesc>, slots: seq<Slot>, reader: seq<FieldDesc>, at: seq<Option<nat>>, kept: seq<Slot>,
    seen: set<nat>, i: nat, j: nat)
    requires WellFormed(fields) && Valid(fields, slots) && Shaped(fields, slots) && Picks(fields, reader, at)
    requires WellFormed(reader) && LengthsFit(fields, slots) && i <= |fields| && j <= |reader|
    requires kept == Picked(fields, slots, reader, at) && Valid(reader, kept) && Shaped(reader, kept)
    requires forall k :: 0 <= k < |at| && at[k].Some? ==> (at[k].value < i <==> k < j)
    requires EncodeFrom(fields, slots, i).Ok?
    ensures Valid(reader, Mixed(reader, kept, j))
    ensures DecodeLoop(reader, Mixed(reader, kept, j), seen, EncodeFrom(fields, slots, i).value)
         == Some(Progress(Normal(reader, kept), seen + KnownRequired(reader, at, j), []))
    decreases |fields| - i + |reader| - j
  {
    hide EncodeSlot, ValidSlot, ShapedSlot, NormalSlot, DefaultSlot, WellFormedField, SlotLengthsFit, IndexOf, Mixed, Normal;
    hide KnownRequired, Met, OneChoice, DistinctTags;
    MixedValid(reader, kept, j);
    if j < |reader| {
      KnownRequiredStep(reader, at, seen, j);
    }
    if j < |reader| && at[j].None? {
      OwnField(reader, kept, j);
      PickedFrom(fields, slots, reader, at, kept, seen, i, j + 1);
    } else if i == |fields| {
      AllMixed(reader, kept, at, seen);
    } else {
      var head, tail := EncodeSlot(fields[i], slots[i]).value, EncodeFrom(fields, slots, i + 1).value;
      assert EncodeFrom(fields, slots, i).value == head + tail;
      if j < |reader| && at[j] == Some(i) {
        SlotRoundTrip(reader, kept, seen, j, tail);
        PickedFrom(fields, slots, reader, at, kept, Met(reader, seen, j), i + 1, j + 1);
      } else {
        NotPicked(fields, reader, at, i);
        SlotSkipped(reader, Mixed(reader, kept, j), seen, fields[i], slots[i], tail);
        PickedFrom(fields, slots, reader, at, kept, seen, i + 1, j);
      }
    }
  }

  lemma AllMixed(reader: seq<FieldDesc>, kept: seq<Slot>, at: seq<Option<nat>>, seen: set<nat>)
    requires Shaped(reader, kept) && |at| == |reader|
    ensures Mixed(reader, kept, |reader|) == Normal(reader, kept) && Mixed(reader, kept, 0) == Defaults(reader)
    ensures seen + KnownRequired(reader, at, |reader|) == seen
  {
  }

  /**
    * A reader whose descriptor lacks some of the writer's fields and has others of its own: it gets what the
    * writer wrote for those they share, skips the rest, leaves its own at their defaults, and ends at the last
    * byte. It fails exactly if one of its own fields is required (and among the first 64 required ones).
    */
  lemma OtherReader(fields: seq<FieldDesc>, slots: seq<Slot>, reader: seq<FieldDesc>, at: seq<Option<nat>>)
    requires WellFormed(fields) && Valid(fields, slots) && WellFormed(reader) && Picks(fields, reader, at)
    requires Shaped(fields, slots) && LengthsFit(fields, slots)
    ensures EncodeMessage(fields, slots).Ok? && |slots| == |fields| && Shaped(reader, Picked(fields, slots, reader, at))
    ensures Decode(reader, EncodeMessage(fields, slots).value) ==
      if forall k :: 0 <= k < |reader| && reader[k].rule.Required? && RequiredBefore(reader, k) < 64 ==> at[k].Some?
      then Some((Normal(reader, Picked(fields, slots, reader, at)), []))
      else None
  {
    hide ValidSlot, ShapedSlot, WellFormedField, SlotLengthsFit, EncodeFrom, DecodeLoop, Picked, Mixed, Normal, RequiredBefore;
    var kept := Picked(fields, slots, reader, at);
    MessageEncodes(fields, slots, 0);
    PickedValid(fields, slots, reader, at);
    PickedFrom(fields, slots, reader, at, kept, {}, 0, 0);
    AllMixed(reader, kept, at, {});
  }
}
