/** What the encoder writes, as a function of the descriptor and the struct. */
module EncodeSpec {
  import opened Wire
  import Varint
  import opened Descriptor

  const WT_VARINT := 0
  const WT_64BIT := 1
  const WT_STRING := 2
  const WT_32BIT := 5

  function WireType(kind: Kind): (wt: nat)
    ensures wt < 8
  {
    match kind
    case Fixed32Kind => WT_32BIT
    case Fixed64Kind => WT_64BIT
    case BytesKind => WT_STRING
    case StringKind => WT_STRING
    case SubmessageKind(_) => WT_STRING
    case FixedBytesKind => WT_STRING
    case _ => WT_VARINT
  }

  function Tag(tag: nat, wireType: nat): seq<byte>
    requires wireType < 8
  {
    Varint.Encode(tag * 8 + wireType)
  }

  /** Length prefix and contents. */
  function Prefixed(b: seq<byte>): seq<byte> {
    Varint.Encode(|b|) + b
  }

  /** The cast to uint64_t. */
  function ToUnsigned64(n: int): (v: nat)
    requires -TWO_63 <= n < TWO_64
    ensures v < TWO_64
  {
    if n < 0 then n + TWO_64 else n
  }

  lemma ShapedRange(f: FieldDesc, v: Value)
    requires ShapedValue(f, v) && Packable(f.kind)
    requires Half(f.dataSize) != 0 || f.kind.Fixed32Kind? || f.kind.Fixed64Kind?
    ensures -TWO_63 <= v.n < TWO_64
    ensures f.kind.SVarintKind? ==> v.n < TWO_63
  {
  }

  // ---------- Values, slots, messages ----------

  function EncodeValue(f: FieldDesc, v: Value): Result<seq<byte>>
    requires ShapedValue(f, v)
    decreases f, 0
  {
    match f.kind
    case VarintKind =>
      if Half(f.dataSize) == 0 then Err(InvalidDataSize) else Ok(Varint.Encode(ToUnsigned64(v.n)))
    case UVarintKind =>
      if Half(f.dataSize) == 0 then Err(InvalidDataSize) else Ok(Varint.Encode(v.n))
    case SVarintKind =>
      if Half(f.dataSize) == 0 then Err(InvalidDataSize) else Ok(Varint.Encode(Varint.ZigZag(v.n)))
    case Fixed32Kind => Ok(Varint.FixedBytes(v.n, 4))
    case Fixed64Kind => Ok(Varint.FixedBytes(v.n, 8))
    case BytesKind => if |v.b| + BYTES_HEADER > f.dataSize then Err(BytesSizeExceeded) else Ok(Prefixed(v.b))
    case StringKind => Ok(Prefixed(v.b))
    case SubmessageKind(sub) =>
      var body :- EncodeFrom(sub, v.slots, 0);
      Ok(Prefixed(body))
    case FixedBytesKind => Ok(Prefixed(v.b))
  }

  /** The elements of a packed array, one after the other. */
  function EncodeItems(f: FieldDesc, items: seq<Value>, from: nat): Result<seq<byte>>
    requires from <= |items| && forall i :: 0 <= i < |items| ==> ShapedValue(f, items[i])
    decreases f, 1, |items| - from
  {
    if from == |items| then Ok([])
    else
      var head :- EncodeValue(f, items[from]);
      var tail :- EncodeItems(f, items, from + 1);
      Ok(head + tail)
  }

  function EncodeField(f: FieldDesc, v: Value): Result<seq<byte>>
    requires ShapedValue(f, v)
    decreases f, 1
  {
    var body :- EncodeValue(f, v);
    Ok(Tag(f.tag, WireType(f.kind)) + body)
  }

  /** The elements of an unpacked array, each with its own tag. */
  function EncodeUnpacked(f: FieldDesc, items: seq<Value>, from: nat): Result<seq<byte>>
    requires from <= |items| && forall i :: 0 <= i < |items| ==> ShapedValue(f, items[i])
    decreases f, 2, |items| - from
  {
    if from == |items| then Ok([])
    else
      var head :- EncodeField(f, items[from]);
      var tail :- EncodeUnpacked(f, items, from + 1);
      Ok(head + tail)
  }

  function EncodeArray(f: FieldDesc, items: seq<Value>): Result<seq<byte>>
    requires forall i :: 0 <= i < |items| ==> ShapedValue(f, items[i])
    decreases f, 3
  {
    if items == [] then Ok([])
    else if |items| > f.arraySize then Err(ArrayMaxSizeExceeded)
    else if Packable(f.kind) then
      var payload :- EncodeItems(f, items, 0);
      Ok(Tag(f.tag, WT_STRING) + Prefixed(payload))
    else EncodeUnpacked(f, items, 0)
  }

  function EncodeSlot(f: FieldDesc, s: Slot): Result<seq<byte>>
    requires ShapedSlot(f, s)
    decreases f, 4
  {
    match f.rule
    case Required => EncodeField(f, s.v)
    case Optional => if s.has then EncodeField(f, s.v) else Ok([])
    case Singular => if IsZero(f, s.v) then Ok([]) else EncodeField(f, s.v)
    case Repeated => EncodeArray(f, s.items)
    case Oneof(_) => if s.choice.Some? then EncodeField(f, s.choice.value) else Ok([])
  }

  /** The fields of a message from index `from` on, in descriptor order. */
  function EncodeFrom(fields: seq<FieldDesc>, slots: seq<Slot>, from: nat): Result<seq<byte>>
    requires Shaped(fields, slots) && from <= |fields|
    decreases fields, 5, |fields| - from
  {
    if from == |fields| then Ok([])
    else
      var head :- EncodeSlot(fields[from], slots[from]);
      var tail :- EncodeFrom(fields, slots, from + 1);
      Ok(head + tail)
  }

  function EncodeMessage(fields: seq<FieldDesc>, slots: seq<Slot>): Result<seq<byte>>
    requires Shaped(fields, slots)
  {
    EncodeFrom(fields, slots, 0)
  }

  // ---------- The proto3 zero test ----------

  predicate IsZero(f: FieldDesc, v: Value)
    requires ShapedValue(f, v)
    decreases f, 0
  {
    match f.kind
    case BytesKind => v.b == []
    case StringKind => v.b == []
    case FixedBytesKind => f.dataSize == 0
    case SubmessageKind(sub) => AllZeroFrom(sub, v.slots, 0)
    case _ => v.n == 0
  }

  predicate IsZeroSlot(f: FieldDesc, s: Slot)
    requires ShapedSlot(f, s)
    decreases f, 1
  {
    match f.rule
    case Required => false
    case Optional => !s.has
    case Singular => IsZero(f, s.v)
    case Repeated => s.items == []
    case Oneof(_) => s.choice.None?
  }

  predicate AllZeroFrom(fields: seq<FieldDesc>, slots: seq<Slot>, from: nat)
    requires Shaped(fields, slots) && from <= |fields|
    decreases fields, 2, |fields| - from
  {
    from == |fields| || (IsZeroSlot(fields[from], slots[from]) && AllZeroFrom(fields, slots, from + 1))
  }

  /** A message that counts as zero is encoded as no bytes at all. */
  lemma {:induction false} ZeroEncodesEmpty(fields: seq<FieldDesc>, slots: seq<Slot>, from: nat)
    requires Shaped(fields, slots) && from <= |fields| && AllZeroFrom(fields, slots, from)
    ensures EncodeFrom(fields, slots, from) == Ok([])
    decreases |fields| - from
  {
    if from < |fields| {
      ZeroEncodesEmpty(fields, slots, from + 1);
      assert EncodeSlot(fields[from], slots[from]) == Ok([]);
      var none: seq<byte> := [];
      assert none + none == none;
    }
  }

  // ---------- What size_t and pb_size_t can count ----------

  ghost predicate FitsSizeT(fields: seq<FieldDesc>, slots: seq<Slot>)
    requires Shaped(fields, slots)
    decreases fields, 2
  {
    forall i :: 0 <= i < |fields| ==> SlotFitsSizeT(fields[i], slots[i])
  }

  ghost predicate SlotFitsSizeT(f: FieldDesc, s: Slot)
    requires ShapedSlot(f, s)
    decreases f, 1
  {
    && f.tag <= SIZE_MAX && f.dataSize <= SIZE_MAX && f.arraySize <= SIZE_MAX
    && match s
       case One(v) => ValueFitsSizeT(f, v)
       case Opt(_, v) => ValueFitsSizeT(f, v)
       case Many(items) => forall i :: 0 <= i < |items| ==> ValueFitsSizeT(f, items[i])
       case Member(choice) => choice.Some? ==> ValueFitsSizeT(f, choice.value)
  }

  ghost predicate ValueFitsSizeT(f: FieldDesc, v: Value)
    requires ShapedValue(f, v)
    decreases f, 0
  {
    f.kind.SubmessageKind? ==>
      var body := EncodeMessage(f.kind.fields, v.slots);
      FitsSizeT(f.kind.fields, v.slots) && (body.Ok? ==> |body.value| < TWO_64)
  }

  /** A scalar takes at most ten bytes, so packed arrays never outgrow size_t. */
  lemma {:induction false} ScalarAtMostTen(f: FieldDesc, v: Value)
    requires ShapedValue(f, v) && Packable(f.kind)
    ensures EncodeValue(f, v).Ok? ==> |EncodeValue(f, v).value| <= 10
    ensures f.kind.Fixed32Kind? ==> EncodeValue(f, v).Ok? && |EncodeValue(f, v).value| == 4
    ensures f.kind.Fixed64Kind? ==> EncodeValue(f, v).Ok? && |EncodeValue(f, v).value| == 8
  {
    if EncodeValue(f, v).Ok? {
      ShapedRange(f, v);
      match f.kind
      case VarintKind => Varint.AtMostTenBytes(ToUnsigned64(v.n));
      case UVarintKind => Varint.AtMostTenBytes(v.n);
      case SVarintKind => Varint.AtMostTenBytes(Varint.ZigZag(v.n));
      case _ =>
    }
  }

  lemma {:induction false} PackedSize(f: FieldDesc, items: seq<Value>, from: nat)
    requires from <= |items| && Packable(f.kind)
    requires forall i :: 0 <= i < |items| ==> ShapedValue(f, items[i])
    ensures EncodeItems(f, items, from).Ok? ==> |EncodeItems(f, items, from).value| <= 10 * (|items| - from)
    ensures f.kind.Fixed32Kind? ==>
      EncodeItems(f, items, from).Ok? && |EncodeItems(f, items, from).value| == 4 * (|items| - from)
    ensures f.kind.Fixed64Kind? ==>
      EncodeItems(f, items, from).Ok? && |EncodeItems(f, items, from).value| == 8 * (|items| - from)
    decreases |items| - from
  {
    if from < |items| {
      ScalarAtMostTen(f, items[from]);
      PackedSize(f, items, from + 1);
    }
  }
}
