/**
  * Message descriptors (pb_field_t arrays) and the structs they describe. A struct is one slot per
  * field; the slots of one union share storage, so at most one of them is occupied.
  */
module Descriptor {
  import opened Wire

  /** Offset of the data inside pb_bytes_array_t when pb_size_t has 32 bits. */
  const BYTES_HEADER: nat := 4

  /** PB_SIZE_MAX in that configuration; as a data offset it marks a later member of a union. */
  const SIZE_MAX: nat := 0xFFFF_FFFF

  const TAG_LIMIT: nat := 0x2000_0000

  datatype Rule = Required | Optional | Singular | Repeated | Oneof(union: nat)

  datatype Kind =
    | VarintKind
    | UVarintKind
    | SVarintKind
    | Fixed32Kind
    | Fixed64Kind
    | BytesKind
    | StringKind
    | SubmessageKind(fields: seq<FieldDesc>)
    | FixedBytesKind

  datatype FieldDesc = FieldDesc(
    tag: nat, rule: Rule, kind: Kind,
    dataOffset: nat, sizeOffset: int, dataSize: nat, arraySize: nat,
    initial: Option<Value>)

  datatype Value = Int(n: int) | Blob(b: seq<byte>) | Struct(slots: seq<Slot>)

  datatype Slot =
    | One(v: Value)
    | Opt(has: bool, v: Value)
    | Many(items: seq<Value>)
    | Member(choice: Option<Value>)

  /** The first value above the positive range of a signed integer of that many bytes; 0 for a bad size. */
  function Half(dataSize: nat): int {
    if dataSize == 1 then 0x80
    else if dataSize == 2 then 0x8000
    else if dataSize == 4 then TWO_31
    else if dataSize == 8 then TWO_63
    else 0
  }

  /** The cast to a signed integer of that many bytes. */
  function ToSigned(v: int, dataSize: nat): (n: int)
    requires Half(dataSize) != 0
    ensures -Half(dataSize) <= n < Half(dataSize)
  {
    var m := v % (2 * Half(dataSize));
    if m < Half(dataSize) then m else m - 2 * Half(dataSize)
  }

  predicate Packable(kind: Kind) {
    kind.VarintKind? || kind.UVarintKind? || kind.SVarintKind? || kind.Fixed32Kind? || kind.Fixed64Kind?
  }

  // ---------- Well-formed descriptors ----------

  ghost predicate WellFormedKind(f: FieldDesc)
    decreases f, 0
  {
    match f.kind
    case VarintKind => Half(f.dataSize) != 0
    case UVarintKind => Half(f.dataSize) != 0
    case SVarintKind => Half(f.dataSize) != 0
    case Fixed32Kind => f.dataSize == 4
    case Fixed64Kind => f.dataSize == 8
    case BytesKind => BYTES_HEADER <= f.dataSize
    case StringKind => 1 <= f.dataSize
    case SubmessageKind(sub) => WellFormed(sub) && f.initial.None?
    case FixedBytesKind => true
  }

  ghost predicate WellFormedField(f: FieldDesc)
    decreases f, 1
  {
    && 0 < f.tag < TAG_LIMIT
    && f.dataSize <= SIZE_MAX && f.arraySize <= SIZE_MAX
    && WellFormedKind(f)
    && (f.initial.Some? ==> ValidValue(f, f.initial.value))
  }

  ghost predicate WellFormed(fields: seq<FieldDesc>)
    decreases fields, 0
  {
    && DistinctTags(fields)
    && forall i :: 0 <= i < |fields| ==> WellFormedField(fields[i])
  }

  ghost predicate DistinctTags(fields: seq<FieldDesc>) {
    forall i, j :: 0 <= i < j < |fields| ==> fields[i].tag != fields[j].tag
  }

  // ---------- Structs that match a descriptor ----------

  /** What the C types alone guarantee: the kind of value, integer ranges and array lengths. */
  ghost predicate ShapedValue(f: FieldDesc, v: Value)
    decreases f, 0
  {
    match f.kind
    case VarintKind => v.Int? && (Half(f.dataSize) != 0 ==> -Half(f.dataSize) <= v.n < Half(f.dataSize))
    case UVarintKind => v.Int? && (Half(f.dataSize) != 0 ==> 0 <= v.n < 2 * Half(f.dataSize))
    case SVarintKind => v.Int? && (Half(f.dataSize) != 0 ==> -Half(f.dataSize) <= v.n < Half(f.dataSize))
    case Fixed32Kind => v.Int? && 0 <= v.n < TWO_32
    case Fixed64Kind => v.Int? && 0 <= v.n < TWO_64
    case BytesKind => v.Blob? && |v.b| < TWO_32
    case StringKind => v.Blob? && |v.b| <= f.dataSize && 0 !in v.b
    case SubmessageKind(sub) => v.Struct? && Shaped(sub, v.slots)
    case FixedBytesKind => v.Blob? && |v.b| == f.dataSize
  }

  ghost predicate ShapedSlot(f: FieldDesc, s: Slot)
    decreases f, 1
  {
    match f.rule
    case Required => s.One? && ShapedValue(f, s.v)
    case Optional => s.Opt? && ShapedValue(f, s.v)
    case Singular => s.One? && ShapedValue(f, s.v)
    case Repeated => s.Many? && forall i :: 0 <= i < |s.items| ==> ShapedValue(f, s.items[i])
    case Oneof(_) => s.Member? && (s.choice.Some? ==> ShapedValue(f, s.choice.value))
  }

  ghost predicate Shaped(fields: seq<FieldDesc>, slots: seq<Slot>)
    decreases fields, 2
  {
    && |slots| == |fields|
    && (forall i :: 0 <= i < |fields| ==> ShapedSlot(fields[i], slots[i]))
    && OneChoice(fields, slots)
  }

  predicate SameUnion(f: FieldDesc, g: FieldDesc) {
    f.rule.Oneof? && f.rule == g.rule
  }

  /** At most one member of each union is selected. */
  ghost predicate OneChoice(fields: seq<FieldDesc>, slots: seq<Slot>)
    requires |slots| == |fields|
  {
    forall i, j :: 0 <= i < j < |fields| && SameUnion(fields[i], fields[j]) ==> Unselected(slots[i]) || Unselected(slots[j])
  }

  predicate Unselected(s: Slot) {
    s.Member? ==> s.choice.None?
  }

  /** In addition, counts and sizes stay inside the storage and strings are terminated. */
  ghost predicate ValidValue(f: FieldDesc, v: Value)
    decreases f, 0
  {
    && ShapedValue(f, v)
    && match f.kind
       case BytesKind => |v.b| + BYTES_HEADER <= f.dataSize
       case StringKind => |v.b| + 1 <= f.dataSize
       case SubmessageKind(sub) => Valid(sub, v.slots)
       case _ => true
  }

  ghost predicate ValidSlot(f: FieldDesc, s: Slot)
    decreases f, 1
  {
    match f.rule
    case Required => s.One? && ValidValue(f, s.v)
    case Optional => s.Opt? && ValidValue(f, s.v)
    case Singular => s.One? && ValidValue(f, s.v)
    case Repeated =>
      s.Many? && |s.items| <= f.arraySize && forall i :: 0 <= i < |s.items| ==> ValidValue(f, s.items[i])
    case Oneof(_) => s.Member? && (s.choice.Some? ==> ValidValue(f, s.choice.value))
  }

  ghost predicate Valid(fields: seq<FieldDesc>, slots: seq<Slot>)
    decreases fields, 2
  {
    && |slots| == |fields|
    && (forall i :: 0 <= i < |fields| ==> ValidSlot(fields[i], slots[i]))
    && OneChoice(fields, slots)
  }

  lemma ValidIsShaped(fields: seq<FieldDesc>, slots: seq<Slot>)
    requires Valid(fields, slots)
    ensures Shaped(fields, slots)
  {
    forall i | 0 <= i < |fields|
      ensures ShapedSlot(fields[i], slots[i])
    {
      ValidSlotIsShaped(fields[i], slots[i]);
    }
  }

  lemma ValidSlotIsShaped(f: FieldDesc, s: Slot)
    requires ValidSlot(f, s)
    ensures ShapedSlot(f, s)
  {
    hide ValidValue, ShapedValue;
    match f.rule
    case Repeated =>
      forall i | 0 <= i < |s.items|
        ensures ShapedValue(f, s.items[i])
      {
        ValidValueIsShaped(f, s.items[i]);
      }
    case Oneof(_) =>
      if s.choice.Some? {
        ValidValueIsShaped(f, s.choice.value);
      }
    case _ =>
      ValidValueIsShaped(f, s.v);
  }

  lemma ValidValueIsShaped(f: FieldDesc, v: Value)
    requires ValidValue(f, v)
    ensures ShapedValue(f, v)
  {
  }

  lemma FieldAt(fields: seq<FieldDesc>, slots: seq<Slot>, i: nat)
    requires WellFormed(fields) && Valid(fields, slots) && i < |fields|
    ensures |slots| == |fields| && DistinctTags(fields) && WellFormedField(fields[i]) && ValidSlot(fields[i], slots[i])
  {
  }

  // ---------- Defaults ----------

  /** memset to zero. */
  function ZeroValue(f: FieldDesc): Value {
    match f.kind
    case BytesKind => Blob([])
    case StringKind => Blob([])
    case FixedBytesKind => Blob(seq(f.dataSize, _ => 0))
    case _ => Int(0)
  }

  function InitialValue(f: FieldDesc): Value
    decreases f, 0
  {
    match f.kind
    case SubmessageKind(sub) => Struct(Defaults(sub))
    case _ => if f.initial.Some? then f.initial.value else ZeroValue(f)
  }

  function DefaultSlot(f: FieldDesc): Slot
    decreases f, 1
  {
    match f.rule
    case Required => One(InitialValue(f))
    case Optional => Opt(false, InitialValue(f))
    case Singular => One(InitialValue(f))
    case Repeated => Many([])
    case Oneof(_) => Member(None)
  }

  /** The struct after pb_message_set_to_defaults. */
  function Defaults(fields: seq<FieldDesc>): (slots: seq<Slot>)
    ensures |slots| == |fields|
    decreases fields, 2
  {
    seq(|fields|, i requires 0 <= i < |fields| => DefaultSlot(fields[i]))
  }

  lemma {:induction false} DefaultsValid(fields: seq<FieldDesc>)
    requires WellFormed(fields)
    ensures Valid(fields, Defaults(fields))
    decreases fields, 2
  {
    var slots := Defaults(fields);
    forall i | 0 <= i < |fields|
      ensures ValidSlot(fields[i], slots[i])
    {
      InitialValid(fields[i]);
      hide ValidValue, InitialValue, WellFormedField;
      assert slots[i] == DefaultSlot(fields[i]);
    }
  }

  lemma {:induction false} InitialValid(f: FieldDesc)
    requires WellFormedField(f)
    ensures ValidValue(f, InitialValue(f))
    decreases f, 0
  {
    if f.kind.SubmessageKind? {
      DefaultsValid(f.kind.fields);
      ValidIsShaped(f.kind.fields, Defaults(f.kind.fields));
    }
  }

  // ---------- Field lookup ----------

  /** The first field with that tag, searching from index `from` on. */
  function IndexFrom(fields: seq<FieldDesc>, tag: nat, from: nat): (r: Option<nat>)
    requires from <= |fields|
    ensures r.Some? ==> from <= r.value < |fields| && fields[r.value].tag == tag
    ensures r.None? ==> forall i :: from <= i < |fields| ==> fields[i].tag != tag
    decreases |fields| - from
  {
    if from == |fields| then None
    else if fields[from].tag == tag then Some(from)
    else IndexFrom(fields, tag, from + 1)
  }

  function IndexOf(fields: seq<FieldDesc>, tag: nat): (r: Option<nat>)
    ensures r.Some? ==> r.value < |fields| && fields[r.value].tag == tag
    ensures r.None? ==> forall i :: 0 <= i < |fields| ==> fields[i].tag != tag
  {
    IndexFrom(fields, tag, 0)
  }

  lemma IndexOfField(fields: seq<FieldDesc>, i: nat)
    requires DistinctTags(fields) && i < |fields|
    ensures IndexOf(fields, fields[i].tag) == Some(i)
  {
    var r := IndexOf(fields, fields[i].tag);
  }
}
