/** Which structs cannot be encoded, and which fields are not written. */
module EncodeLimits {
  import opened Wire
  import opened Descriptor
  import opened EncodeSpec
  import opened RoundTrip

  // ---------- What cannot be encoded ----------

  /** A byte array fits its storage, an integer has a width the encoder knows, at every depth. */
  ghost predicate Within(f: FieldDesc, v: Value)
    requires ShapedValue(f, v)
    decreases f, 0
  {
    match f.kind
    case BytesKind => |v.b| + 4 <= f.dataSize
    case SubmessageKind(sub) => AllWithin(sub, v.slots, 0)
    case VarintKind => f.dataSize == 1 || f.dataSize == 2 || f.dataSize == 4 || f.dataSize == 8
    case UVarintKind => f.dataSize == 1 || f.dataSize == 2 || f.dataSize == 4 || f.dataSize == 8
    case SVarintKind => f.dataSize == 1 || f.dataSize == 2 || f.dataSize == 4 || f.dataSize == 8
    case _ => true
  }

  /** What is not written has no limit. */
  ghost predicate SlotWithin(f: FieldDesc, s: Slot)
    requires ShapedSlot(f, s)
    decreases f, 1
  {
    if s.Many? then s.items == [] || (|s.items| <= f.arraySize && forall i :: 0 <= i < |s.items| ==> Within(f, s.items[i]))
    else IsZeroSlot(f, s) || Within(f, Content(s).value)
  }

  ghost predicate AllWithin(fields: seq<FieldDesc>, slots: seq<Slot>, from: nat)
    requires Shaped(fields, slots) && from <= |fields|
    decreases fields, 2
  {
    forall i :: from <= i < |fields| ==> SlotWithin(fields[i], slots[i])
  }

  lemma {:induction false} ValueEncodesExactly(f: FieldDesc, v: Value)
    requires ShapedValue(f, v)
    ensures EncodeValue(f, v).Ok? <==> Within(f, v)
    decreases f, 0
  {
    if f.kind.SubmessageKind? {
      MessageEncodesExactly(f.kind.fields, v.slots, 0);
    }
  }

  lemma {:induction false} ItemsEncodeExactly(f: FieldDesc, items: seq<Value>, from: nat)
    requires from <= |items| && forall i :: 0 <= i < |items| ==> ShapedValue(f, items[i])
    ensures EncodeItems(f, items, from).Ok? <==> forall i :: from <= i < |items| ==> Within(f, items[i])
    ensures EncodeUnpacked(f, items, from).Ok? <==> forall i :: from <= i < |items| ==> Within(f, items[i])
    decreases f, 1, |items| - from
  {
    hide EncodeValue, Within, ShapedValue;
    if from < |items| {
      ValueEncodesExactly(f, items[from]);
      ItemsEncodeExactly(f, items, from + 1);
    }
  }

  lemma {:induction false} SlotEncodesExactly(f: FieldDesc, s: Slot)
    requires ShapedSlot(f, s)
    ensures EncodeSlot(f, s).Ok? <==> SlotWithin(f, s)
    decreases f, 2
  {
    hide EncodeValue, EncodeItems, EncodeUnpacked, Within, ShapedValue, IsZero;
    if s.Many? {
      ItemsEncodeExactly(f, s.items, 0);
    } else if Content(s).Some? {
      ValueEncodesExactly(f, Content(s).value);
    }
  }

  /**
    * A struct can be encoded exactly if every array that is written is no longer than its field has room
    * for, and every value written is within its limits, at every depth.
    */
  lemma {:induction false} MessageEncodesExactly(fields: seq<FieldDesc>, slots: seq<Slot>, from: nat)
    requires Shaped(fields, slots) && from <= |fields|
    ensures EncodeFrom(fields, slots, from).Ok? <==> AllWithin(fields, slots, from)
    decreases fields, 3, |fields| - from
  {
    hide EncodeSlot, SlotWithin, ShapedSlot;
    if from < |fields| {
      SlotEncodesExactly(fields[from], slots[from]);
      MessageEncodesExactly(fields, slots, from + 1);
    }
  }

  // ---------- What is not written ----------

  /** A slot is written as no bytes exactly if it counts as zero. */
  lemma UnwrittenSlot(f: FieldDesc, s: Slot)
    requires ShapedSlot(f, s)
    ensures EncodeSlot(f, s) == Ok([]) <==> IsZeroSlot(f, s)
  {
    hide EncodeValue, EncodeItems, EncodeUnpacked, EncodeField, ShapedValue, IsZero, Prefixed, Tag;
    if s.Many? && s.items != [] {
      UnpackedNotEmpty(f, s.items);
      KeyNotEmpty(f, 2);
    } else if Content(s).Some? {
      FieldNotEmpty(f, Content(s).value);
    }
  }

  lemma KeyNotEmpty(f: FieldDesc, wireType: nat)
    requires wireType < 8
    ensures |Tag(f.tag, wireType)| > 0
  {
  }

  lemma FieldNotEmpty(f: FieldDesc, v: Value)
    requires ShapedValue(f, v)
    ensures EncodeField(f, v) != Ok([])
  {
    hide EncodeValue, Tag;
    KeyNotEmpty(f, WireType(f.kind));
  }

  lemma UnpackedNotEmpty(f: FieldDesc, items: seq<Value>)
    requires items != [] && forall i :: 0 <= i < |items| ==> ShapedValue(f, items[i])
    ensures EncodeUnpacked(f, items, 0) != Ok([])
  {
    hide EncodeField, ShapedValue;
    FieldNotEmpty(f, items[0]);
  }

  /** The converse of ZeroEncodesEmpty: a message of no bytes counts as zero. */
  lemma {:induction false} EmptyMeansZero(fields: seq<FieldDesc>, slots: seq<Slot>, from: nat)
    requires Shaped(fields, slots) && from <= |fields|
    ensures EncodeFrom(fields, slots, from) == Ok([]) <==> AllZeroFrom(fields, slots, from)
    decreases |fields| - from
  {
    hide EncodeSlot, ShapedSlot, IsZeroSlot;
    if from < |fields| {
      UnwrittenSlot(fields[from], slots[from]);
      var head, tail := EncodeSlot(fields[from], slots[from]), EncodeFrom(fields, slots, from + 1);
      assert head.Ok? && tail.Ok? ==> (head.value + tail.value == [] <==> head.value == [] && tail.value == []);
      EmptyMeansZero(fields, slots, from + 1);
    }
  }

  /** Zero, empty, or a message that would be written as no bytes. */
  predicate Blank(f: FieldDesc, v: Value)
    requires ShapedValue(f, v)
  {
    match f.kind
    case BytesKind => v.b == []
    case StringKind => v.b == []
    case FixedBytesKind => f.dataSize == 0
    case SubmessageKind(sub) => EncodeMessage(sub, v.slots) == Ok([])
    case _ => v.n == 0
  }

  /** A field is left out exactly if it is absent, or has no presence and is blank. */
  lemma LeftOutExactly(f: FieldDesc, s: Slot)
    requires ShapedSlot(f, s)
    ensures EncodeSlot(f, s) == Ok([]) <==>
      match f.rule
      case Required => false
      case Optional => !s.has
      case Repeated => s.items == []
      case Oneof(_) => s.choice.None?
      case Singular => Blank(f, s.v)
  {
    hide EncodeSlot, EncodeFrom;
    UnwrittenSlot(f, s);
    if f.rule.Singular? && f.kind.SubmessageKind? {
      EmptyMeansZero(f.kind.fields, s.v.slots, 0);
    }
  }
}
