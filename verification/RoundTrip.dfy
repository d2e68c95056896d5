/** Decoding what the encoder wrote gives the struct back. */
module RoundTrip {
  import opened Wire
  import Varint
  import opened Descriptor
  import opened FieldIter
  import opened EncodeSpec
  import opened DecodeSpec

  // ---------- The struct a reader gets: absent fields at their defaults ----------

  function NormalValue(f: FieldDesc, v: Value): Value
    requires ShapedValue(f, v)
    decreases f, 0
  {
    match f.kind
    case SubmessageKind(sub) => Struct(Normal(sub, v.slots))
    case _ => v
  }

  function NormalItems(f: FieldDesc, items: seq<Value>): (r: seq<Value>)
    requires forall i :: 0 <= i < |items| ==> ShapedValue(f, items[i])
    ensures |r| == |items|
    decreases f, 1
  {
    seq(|items|, i requires 0 <= i < |items| => NormalValue(f, items[i]))
  }

  function NormalSlot(f: FieldDesc, s: Slot): Slot
    requires ShapedSlot(f, s)
    decreases f, 2
  {
    match s
    case One(v) => if f.rule.Singular? && IsZero(f, v) then One(InitialValue(f)) else One(NormalValue(f, v))
    case Opt(has, v) => if has then Opt(true, NormalValue(f, v)) else Opt(false, InitialValue(f))
    case Many(items) => Many(NormalItems(f, items))
    case Member(choice) => if choice.Some? then Member(Some(NormalValue(f, choice.value))) else s
  }

  function Normal(fields: seq<FieldDesc>, slots: seq<Slot>): (r: seq<Slot>)
    requires Shaped(fields, slots)
    ensures |r| == |fields|
    decreases fields, 3
  {
    seq(|fields|, i requires 0 <= i < |fields| => NormalSlot(fields[i], slots[i]))
  }

  /** Every length prefix that is written has at most 32 bits, which is all the decoder reads. */
  ghost predicate LengthsFit(fields: seq<FieldDesc>, slots: seq<Slot>)
    requires Shaped(fields, slots)
    decreases fields, 2
  {
    forall i :: 0 <= i < |fields| ==> SlotLengthsFit(fields[i], slots[i])
  }

  ghost predicate SlotLengthsFit(f: FieldDesc, s: Slot)
    requires ShapedSlot(f, s)
    decreases f, 1
  {
    if !s.Many? then IsZeroSlot(f, s) || ValueLengthsFit(f, Content(s).value)
    else if Packable(f.kind) then
      var payload := EncodeItems(f, s.items, 0);
      payload.Ok? ==> |payload.value| < TWO_32
    else forall i :: 0 <= i < |s.items| ==> ValueLengthsFit(f, s.items[i])
  }

  ghost predicate ValueLengthsFit(f: FieldDesc, v: Value)
    requires ShapedValue(f, v)
    decreases f, 0
  {
    f.kind.SubmessageKind? ==>
      var body := EncodeMessage(f.kind.fields, v.slots);
      LengthsFit(f.kind.fields, v.slots) && (body.Ok? ==> |body.value| < TWO_32)
  }

  // ---------- When the reader gets exactly the struct that was written ----------

  /** Whatever is not written already holds its default. */
  ghost predicate Settled(fields: seq<FieldDesc>, slots: seq<Slot>)
    requires Shaped(fields, slots)
    decreases fields, 3
  {
    forall i :: 0 <= i < |fields| ==> SettledSlot(fields[i], slots[i])
  }

  ghost predicate SettledSlot(f: FieldDesc, s: Slot)
    requires ShapedSlot(f, s)
    decreases f, 2
  {
    if s.Many? then forall i :: 0 <= i < |s.items| ==> SettledValue(f, s.items[i])
    else if IsZeroSlot(f, s) then s == DefaultSlot(f)
    else SettledValue(f, Content(s).value)
  }

  ghost predicate SettledValue(f: FieldDesc, v: Value)
    requires ShapedValue(f, v)
    decreases f, 0
  {
    f.kind.SubmessageKind? ==> Settled(f.kind.fields, v.slots)
  }

  lemma {:induction false} SettledValueKept(f: FieldDesc, v: Value)
    requires ShapedValue(f, v)
    ensures NormalValue(f, v) == v <==> SettledValue(f, v)
    decreases f, 0
  {
    if f.kind.SubmessageKind? {
      SettledKept(f.kind.fields, v.slots);
    }
  }

  lemma {:induction false} SettledSlotKept(f: FieldDesc, s: Slot)
    requires ShapedSlot(f, s)
    ensures NormalSlot(f, s) == s <==> SettledSlot(f, s)
    decreases f, 2
  {
    hide NormalValue, SettledValue, ShapedValue, IsZero, InitialValue;
    match s
    case One(v) => SettledValueKept(f, v);
    case Opt(has, v) => SettledValueKept(f, v);
    case Many(items) =>
      forall i | 0 <= i < |items|
        ensures NormalItems(f, items)[i] == items[i] <==> SettledValue(f, items[i])
      {
        SettledValueKept(f, items[i]);
      }
      if SettledSlot(f, s) {
        assert NormalItems(f, items) == items;
      }
    case Member(choice) =>
      if choice.Some? {
        SettledValueKept(f, choice.value);
      }
  }

  /** Reading back gives the very same struct if and only if everything that is not written holds its default. */
  lemma {:induction false} SettledKept(fields: seq<FieldDesc>, slots: seq<Slot>)
    requires Shaped(fields, slots)
    ensures Normal(fields, slots) == slots <==> Settled(fields, slots)
    decreases fields, 3
  {
    hide NormalSlot, SettledSlot, ShapedSlot;
    forall i | 0 <= i < |fields|
      ensures Normal(fields, slots)[i] == slots[i] <==> SettledSlot(fields[i], slots[i])
    {
      SettledSlotKept(fields[i], slots[i]);
    }
    if Settled(fields, slots) {
      assert Normal(fields, slots) == slots;
    }
  }

  /** A field without presence whose default is not zero: a zero is not written and reads back as the default. */
  lemma ZeroLost()
    ensures var f := FieldDesc(1, Singular, VarintKind, 0, 0, 4, 0, Some(Int(5)));
      && WellFormed([f]) && Valid([f], [One(Int(0))]) && Shaped([f], [One(Int(0))])
      && EncodeMessage([f], [One(Int(0))]) == Ok([])
      && Decode([f], []) == Some(([One(Int(5))], []))
  {
    var f := FieldDesc(1, Singular, VarintKind, 0, 0, 4, 0, Some(Int(5)));
    var slots := [One(Int(0))];
    assert ValidSlot(f, slots[0]);
    assert AllZeroFrom([f], slots, 0) by {
      assert AllZeroFrom([f], slots, 1);
    }
    ZeroEncodesEmpty([f], slots, 0);
    DecodeEncode([f], slots);
    assert Normal([f], slots) == [One(Int(5))];
  }

  // ---------- Scalars ----------

  lemma WrapNegative(n: int, h: int)
    requires 0 < h && -h <= n < h
    ensures n % (2 * h) == if n < 0 then n + 2 * h else n
  {
    if n < 0 {
      ModUnique(n, 2 * h, -1, n + 2 * h);
    } else {
      ModUnique(n, 2 * h, 0, n);
    }
  }

  /** Sign extension to 64 bits and the cast back to the field's width cancel. */
  lemma SignedCasts(dataSize: nat, n: int)
    requires Half(dataSize) != 0 && -Half(dataSize) <= n < Half(dataSize)
    ensures ToSigned(ToUnsigned64(n), if dataSize == 8 then 8 else 4) == n
    ensures ToSigned(n, dataSize) == n
  {
    WrapNegative(n, Half(dataSize));
    if dataSize == 8 {
      ModUnique(ToUnsigned64(n), TWO_64, 0, ToUnsigned64(n));
    } else {
      var u := ToUnsigned64(n);
      ModUnique(u, TWO_32, if n < 0 then TWO_32 - 1 else 0, if n < 0 then n + TWO_32 else n);
    }
  }

  lemma VarintRoundTrip(dataSize: nat, n: int, rest: seq<byte>)
    requires Half(dataSize) != 0 && -Half(dataSize) <= n < Half(dataSize)
    ensures DecodeVarint(dataSize, Varint.Encode(ToUnsigned64(n)) + rest) == Some((n, rest))
  {
    hide Varint.Encode, Varint.Decode64, ToSigned, ToUnsigned64;
    Varint.RoundTrip64(ToUnsigned64(n), rest);
    SignedCasts(dataSize, n);
  }

  lemma UVarintRoundTrip(dataSize: nat, n: nat, rest: seq<byte>)
    requires Half(dataSize) != 0 && n < 2 * Half(dataSize)
    ensures DecodeUVarint(dataSize, Varint.Encode(n) + rest) == Some((n, rest))
  {
    hide Varint.Encode, Varint.Decode64;
    Varint.RoundTrip64(n, rest);
  }

  lemma SVarintRoundTrip(dataSize: nat, n: int, rest: seq<byte>)
    requires Half(dataSize) != 0 && -Half(dataSize) <= n < Half(dataSize)
    ensures DecodeSVarint(dataSize, Varint.Encode(Varint.ZigZag(n)) + rest) == Some((n, rest))
  {
    hide Varint.Encode, Varint.Decode64, Varint.ZigZag, Varint.UnZigZag, ToSigned;
    SignedCasts(dataSize, n);
    Varint.RoundTrip64(Varint.ZigZag(n), rest);
    Varint.ZigZagBijection(n, 0);
  }

  lemma PrefixRoundTrip(b: seq<byte>, rest: seq<byte>)
    requires |b| < TWO_32
    ensures Varint.Decode32(Prefixed(b) + rest) == Ok((|b|, b + rest))
    ensures (b + rest)[..|b|] == b && (b + rest)[|b|..] == rest
    ensures Substream(Prefixed(b) + rest) == Some((b, rest))
  {
    hide Varint.Encode, Varint.Decode32;
    Varint.RoundTrip32(|b|, b + rest);
    assert Prefixed(b) + rest == Varint.Encode(|b|) + (b + rest);
  }

  lemma ScalarRoundTrip(f: FieldDesc, v: Value, rest: seq<byte>)
    requires WellFormedField(f) && !f.kind.SubmessageKind? && ValidValue(f, v)
    ensures EncodeValue(f, v).Ok?
    ensures DecodeScalar(f, EncodeValue(f, v).value + rest) == Some((v, rest))
  {
    hide Varint.Encode, Varint.Decode32, Varint.Decode64, Varint.ZigZag, Varint.FixedBytes, Varint.FixedValue, Pow2;
    hide DecodeVarint, DecodeUVarint, DecodeSVarint, Prefixed;
    Pow2Constants();
    match f.kind
    case VarintKind => VarintRoundTrip(f.dataSize, v.n, rest);
    case UVarintKind => UVarintRoundTrip(f.dataSize, v.n, rest);
    case SVarintKind => SVarintRoundTrip(f.dataSize, v.n, rest);
    case Fixed32Kind => FixedWordRoundTrip(v.n, 4, rest);
    case Fixed64Kind => FixedWordRoundTrip(v.n, 8, rest);
    case BytesKind => PrefixRoundTrip(v.b, rest);
    case StringKind => StringRoundTrip(f, v, rest);
    case FixedBytesKind => FixedBytesRoundTrip(f, v, rest);
  }

  lemma FixedWordRoundTrip(n: nat, width: nat, rest: seq<byte>)
    requires n < Pow2(8 * width)
    ensures Read(Varint.FixedBytes(n, width) + rest, width) == Some((Varint.FixedBytes(n, width), rest))
    ensures Varint.FixedValue(Varint.FixedBytes(n, width)) == n
  {
    Varint.FixedRoundTrip(n, width);
  }

  lemma StringRoundTrip(f: FieldDesc, v: Value, rest: seq<byte>)
    requires f.kind.StringKind? && ValidValue(f, v) && f.dataSize <= SIZE_MAX
    ensures DecodeString(f.dataSize, Prefixed(v.b) + rest) == Some((v.b, rest))
  {
    hide Varint.Decode32, Prefixed;
    PrefixRoundTrip(v.b, rest);
  }

  lemma FixedBytesRoundTrip(f: FieldDesc, v: Value, rest: seq<byte>)
    requires f.kind.FixedBytesKind? && ValidValue(f, v) && f.dataSize <= SIZE_MAX
    ensures DecodeFixedBytes(f.dataSize, Prefixed(v.b) + rest) == Some((v.b, rest))
  {
    hide Varint.Decode32, Prefixed;
    PrefixRoundTrip(v.b, rest);
    if v.b == [] {
      assert seq(f.dataSize, _ => 0) == v.b;
      assert [] + rest == rest;
    }
  }

  // ---------- Normal structs are valid ----------

  lemma {:induction false} NormalValueValid(f: FieldDesc, v: Value)
    requires WellFormedField(f) && ValidValue(f, v)
    ensures ShapedValue(f, v) && ValidValue(f, NormalValue(f, v))
    decreases f, 0
  {
    if f.kind.SubmessageKind? {
      ValidIsShaped(f.kind.fields, v.slots);
      NormalValid(f.kind.fields, v.slots);
      StructValid(f, Normal(f.kind.fields, v.slots));
    }
  }

  lemma {:induction false} NormalSlotValid(f: FieldDesc, s: Slot)
    requires WellFormedField(f) && ValidSlot(f, s)
    ensures ShapedSlot(f, s) && ValidSlot(f, NormalSlot(f, s))
    decreases f, 1
  {
    ValidSlotIsShaped(f, s);
    match s
    case One(v) =>
      NormalValueValid(f, v);
      InitialValid(f);
    case Opt(has, v) =>
      NormalValueValid(f, v);
      InitialValid(f);
    case Many(items) =>
      forall i | 0 <= i < |items|
        ensures ValidValue(f, NormalItems(f, items)[i])
      {
        NormalValueValid(f, items[i]);
      }
    case Member(choice) =>
      if choice.Some? {
        NormalValueValid(f, choice.value);
      }
  }

  lemma {:induction false} NormalValid(fields: seq<FieldDesc>, slots: seq<Slot>)
    requires WellFormed(fields) && Valid(fields, slots)
    ensures Shaped(fields, slots) && Valid(fields, Normal(fields, slots))
    decreases fields, 2
  {
    ValidIsShaped(fields, slots);
    MixedValid(fields, slots, |fields|);
    assert Mixed(fields, slots, |fields|) == Normal(fields, slots);
  }

  /** The struct while decoding: the first i fields are in place, the others at their defaults. */
  function Mixed(fields: seq<FieldDesc>, slots: seq<Slot>, i: nat): (r: seq<Slot>)
    requires Shaped(fields, slots)
    ensures |r| == |fields|
  {
    seq(|fields|, j requires 0 <= j < |fields| =>
      if j < i then NormalSlot(fields[j], slots[j]) else DefaultSlot(fields[j]))
  }

  lemma {:induction false} MixedValid(fields: seq<FieldDesc>, slots: seq<Slot>, i: nat)
    requires WellFormed(fields) && Shaped(fields, slots)
    requires Valid(fields, slots)
    ensures Valid(fields, Mixed(fields, slots, i))
    decreases fields, 1
  {
    hide ValidValue, NormalValue, ShapedValue, InitialValue, WellFormedField;
    var r := Mixed(fields, slots, i);
    DefaultsValid(fields);
    forall j | 0 <= j < |fields|
      ensures ValidSlot(fields[j], r[j])
    {
      NormalSlotValid(fields[j], slots[j]);
      assert DefaultSlot(fields[j]) == Defaults(fields)[j];
    }
    forall j, k | 0 <= j < k < |fields| && SameUnion(fields[j], fields[k])
      ensures Unselected(r[j]) || Unselected(r[k])
    {
      assert Unselected(slots[j]) || Unselected(slots[k]);
      assert ValidSlot(fields[j], slots[j]) && ValidSlot(fields[k], slots[k]);
    }
  }

  // ---------- Absent fields ----------

  /** A slot that counts as zero reads back as the default. */
  lemma AbsentIsDefault(f: FieldDesc, s: Slot)
    requires ShapedSlot(f, s) && IsZeroSlot(f, s)
    ensures NormalSlot(f, s) == DefaultSlot(f)
  {
  }

  // ---------- One record ----------

  /** Reading a tag and a body that one field accepts stores that field and moves on. */
  lemma OneRecord(
    fields: seq<FieldDesc>, slots: seq<Slot>, seen: set<nat>, i: nat, wireType: nat,
    body: seq<byte>, slot: Slot, rest: seq<byte>)
    requires WellFormed(fields) && Valid(fields, slots) && i < |fields| && wireType < 8
    requires DecodeField(fields[i], slots[i], wireType, body + rest) == Some((slot, rest))
    ensures Valid(fields, Store(fields, slots, i, slot))
    ensures DecodeLoop(fields, slots, seen, Tag(fields[i].tag, wireType) + body + rest)
         == DecodeLoop(fields, Store(fields, slots, i, slot), Met(fields, seen, i), rest)
  {
    hide Varint.Encode, Varint.Decode32, DecodeField, Valid, ValidSlot;
    var word := fields[i].tag * 8 + wireType;
    var s := Tag(fields[i].tag, wireType) + body + rest;
    Varint.RoundTrip32(word, body + rest);
    assert s == Varint.Encode(word) + (body + rest);
    assert word / 8 == fields[i].tag && word % 8 == wireType;
    IndexOfField(fields, i);
    StoreIsValid(fields, slots, i, slot, wireType, body + rest);
  }

  lemma StoreIsValid(fields: seq<FieldDesc>, slots: seq<Slot>, i: nat, slot: Slot, wireType: nat, s: seq<byte>)
    requires WellFormed(fields) && Valid(fields, slots) && i < |fields|
    requires var r := DecodeField(fields[i], slots[i], wireType, s); r.Some? && r.value.0 == slot
    ensures Valid(fields, Store(fields, slots, i, slot))
  {
    StoreValid(fields, slots, i, slot);
  }

  function Met(fields: seq<FieldDesc>, seen: set<nat>, i: nat): set<nat>
    requires i < |fields|
  {
    if fields[i].rule.Required? then seen + {i} else seen
  }

  /** Storing field i's value takes the partly decoded struct one field further. */
  lemma StoreMixed(fields: seq<FieldDesc>, slots: seq<Slot>, i: nat)
    requires WellFormed(fields) && Valid(fields, slots) && Shaped(fields, slots) && i < |fields|
    requires fields[i].rule.Oneof? ==> slots[i].Member? && slots[i].choice.Some?
    ensures Store(fields, Mixed(fields, slots, i), i, NormalSlot(fields[i], slots[i])) == Mixed(fields, slots, i + 1)
  {
    hide ValidValue, NormalValue, ShapedValue, InitialValue, WellFormedField;
    var r := Store(fields, Mixed(fields, slots, i), i, NormalSlot(fields[i], slots[i]));
    var m := Mixed(fields, slots, i + 1);
    forall j | 0 <= j < |fields|
      ensures r[j] == m[j]
    {
      if j != i && SameUnion(fields[i], fields[j]) {
        assert ValidSlot(fields[j], slots[j]) && ShapedSlot(fields[j], slots[j]);
        assert Unselected(slots[if i < j then i else j]) || Unselected(slots[if i < j then j else i]);
      }
    }
  }

  // ---------- Valid structs can be encoded ----------

  lemma {:induction false} ValueEncodes(f: FieldDesc, v: Value)
    requires WellFormedField(f) && ValidValue(f, v)
    ensures ShapedValue(f, v) && EncodeValue(f, v).Ok?
    decreases f, 0
  {
    if f.kind.SubmessageKind? {
      SubmessageParts(f, v);
      MessageEncodes(f.kind.fields, v.slots, 0);
    }
  }

  lemma {:induction false} ArrayEncodes(f: FieldDesc, items: seq<Value>, k: nat)
    requires WellFormedField(f) && k <= |items|
    requires forall i :: 0 <= i < |items| ==> ValidValue(f, items[i])
    ensures forall i :: 0 <= i < |items| ==> ShapedValue(f, items[i])
    ensures EncodeItems(f, items, k).Ok? && EncodeUnpacked(f, items, k).Ok?
    decreases f, 1, |items| - k
  {
    forall i | 0 <= i < |items|
      ensures ShapedValue(f, items[i])
    {
      ValidValueIsShaped(f, items[i]);
    }
    hide ValidValue, ShapedValue, EncodeValue, WellFormedField;
    if k < |items| {
      ValueEncodes(f, items[k]);
      ArrayEncodes(f, items, k + 1);
    }
  }

  lemma {:induction false} SlotEncodes(f: FieldDesc, s: Slot)
    requires WellFormedField(f) && ValidSlot(f, s)
    ensures ShapedSlot(f, s) && EncodeSlot(f, s).Ok?
    decreases f, 2
  {
    hide ValidValue, ShapedValue, EncodeValue, WellFormedField, EncodeItems, EncodeUnpacked;
    ValidSlotIsShaped(f, s);
    match s
    case One(v) => ValueEncodes(f, v);
    case Opt(has, v) => ValueEncodes(f, v);
    case Many(items) => ArrayEncodes(f, items, 0);
    case Member(choice) =>
      if choice.Some? {
        ValueEncodes(f, choice.value);
      }
  }

  lemma {:induction false} MessageEncodes(fields: seq<FieldDesc>, slots: seq<Slot>, from: nat)
    requires WellFormed(fields) && Valid(fields, slots) && from <= |fields|
    ensures Shaped(fields, slots) && EncodeFrom(fields, slots, from).Ok?
    decreases fields, 3, |fields| - from
  {
    hide ValidSlot, ShapedSlot, EncodeSlot, WellFormedField;
    ValidIsShaped(fields, slots);
    if from < |fields| {
      SlotEncodes(fields[from], slots[from]);
      MessageEncodes(fields, slots, from + 1);
    }
  }

  // ---------- The main induction ----------

  lemma {:induction false} ValueRoundTrip(f: FieldDesc, v: Value, rest: seq<byte>)
    requires WellFormedField(f) && ValidValue(f, v)
    requires ShapedValue(f, v) && EncodeValue(f, v).Ok? && ValueLengthsFit(f, v)
    ensures ValidValue(f, InitialValue(f))
    ensures DecodeValue(f, InitialValue(f), EncodeValue(f, v).value + rest) == Some((NormalValue(f, v), rest))
    decreases f, 0
  {
    InitialValid(f);
    if f.kind.SubmessageKind? {
      var sub := f.kind.fields;
      SubmessageParts(f, v);
      DefaultsValid(sub);
      var body := EncodeMessage(sub, v.slots);
      assert |body.value| <= |Prefixed(body.value)|;
      MessageRoundTrip(sub, v.slots);
      PrefixRoundTrip(body.value, rest);
    } else {
      ScalarRoundTrip(f, v, rest);
    }
  }

  lemma {:induction false} PackedRoundTrip(f: FieldDesc, items: seq<Value>, k: nat)
    requires WellFormedField(f) && Packable(f.kind) && k <= |items| <= f.arraySize
    requires forall i :: 0 <= i < |items| ==> ValidValue(f, items[i]) && ShapedValue(f, items[i])
    ensures EncodeItems(f, items, k).Ok?
    ensures DecodePacked(f, items[..k], EncodeItems(f, items, k).value) == Some(items)
    decreases |items| - k
  {
    if k == |items| {
      assert items[..k] == items;
    } else {
      PackedRoundTrip(f, items, k + 1);
      var tail := EncodeItems(f, items, k + 1).value;
      ScalarRoundTrip(f, items[k], tail);
      InitialValid(f);
      assert items[..k] + [items[k]] == items[..k + 1];
      hide WellFormedField, ValidValue, ShapedValue, EncodeValue, DecodeScalar;
      ScalarNotEmpty(f, items[k]);
    }
  }

  lemma ScalarNotEmpty(f: FieldDesc, v: Value)
    requires ShapedValue(f, v) && Packable(f.kind) && EncodeValue(f, v).Ok?
    ensures EncodeValue(f, v).value != []
  {
  }

  lemma NormalScalars(f: FieldDesc, items: seq<Value>)
    requires Packable(f.kind) && forall i :: 0 <= i < |items| ==> ShapedValue(f, items[i])
    ensures NormalItems(f, items) == items
  {
    assert forall i :: 0 <= i < |items| ==> NormalValue(f, items[i]) == items[i];
  }

  /** The contents of a present field that is not an array. */
  function Content(s: Slot): Option<Value> {
    match s
    case One(v) => Some(v)
    case Opt(has, v) => if has then Some(v) else None
    case Many(_) => None
    case Member(choice) => choice
  }

  lemma {:induction false} SingleField(f: FieldDesc, s: Slot, rest: seq<byte>)
    requires WellFormedField(f) && ValidSlot(f, s) && ShapedSlot(f, s) && !IsZeroSlot(f, s)
    requires Content(s).Some? && ShapedValue(f, Content(s).value)
    requires EncodeValue(f, Content(s).value).Ok? && ValueLengthsFit(f, Content(s).value)
    ensures ValidSlot(f, DefaultSlot(f))
    ensures DecodeField(f, DefaultSlot(f), WireType(f.kind), EncodeValue(f, Content(s).value).value + rest)
         == Some((NormalSlot(f, s), rest))
    decreases f, 1
  {
    hide EncodeValue, DecodeValue, ValidValue, NormalValue, InitialValue, ShapedValue, WellFormedField;
    ValueRoundTrip(f, Content(s).value, rest);
  }

  /** One element of an unpacked array is appended to those before it. */
  lemma {:induction false} ElementField(f: FieldDesc, items: seq<Value>, k: nat, rest: seq<byte>)
    requires WellFormedField(f) && f.rule.Repeated? && !Packable(f.kind)
    requires k < |items| <= f.arraySize
    requires forall j :: 0 <= j < |items| ==> ValidValue(f, items[j]) && ShapedValue(f, items[j])
    requires EncodeValue(f, items[k]).Ok? && ValueLengthsFit(f, items[k])
    ensures ValidSlot(f, Many(NormalItems(f, items)[..k]))
    ensures DecodeField(f, Many(NormalItems(f, items)[..k]), WireType(f.kind), EncodeValue(f, items[k]).value + rest)
         == Some((Many(NormalItems(f, items)[..k + 1]), rest))
    decreases f, 1
  {
    hide EncodeValue, DecodeValue, ValidValue, NormalValue, InitialValue, ShapedValue, WellFormedField;
    var norm := NormalItems(f, items);
    forall j | 0 <= j < |items|
      ensures ValidValue(f, norm[j])
    {
      NormalValueValid(f, items[j]);
    }
    ValueRoundTrip(f, items[k], rest);
    assert norm[..k] + [NormalValue(f, items[k])] == norm[..k + 1];
  }

  /** The elements before k are already in the slot; the remaining records append the others. */
  lemma {:induction false} UnpackedRoundTrip(
    fields: seq<FieldDesc>, slots: seq<Slot>, seen: set<nat>, i: nat, items: seq<Value>, k: nat, rest: seq<byte>)
    requires WellFormed(fields) && Valid(fields, slots) && |slots| == |fields|
    requires i < |fields| && k <= |items| <= fields[i].arraySize
    requires fields[i].rule.Repeated? && !Packable(fields[i].kind)
    requires forall j :: 0 <= j < |items| ==> ValidValue(fields[i], items[j]) && ShapedValue(fields[i], items[j])
    requires forall j :: 0 <= j < |items| ==> ValueLengthsFit(fields[i], items[j])
    requires slots[i] == Many(NormalItems(fields[i], items)[..k])
    requires EncodeUnpacked(fields[i], items, k).Ok?
    ensures Valid(fields, slots[i := Many(NormalItems(fields[i], items))])
    ensures DecodeLoop(fields, slots, seen, EncodeUnpacked(fields[i], items, k).value + rest)
         == DecodeLoop(fields, slots[i := Many(NormalItems(fields[i], items))], seen, rest)
    decreases fields, 2, |items| - k
  {
    hide EncodeValue, DecodeField, DecodeLoop, ValidValue, ValidSlot, NormalValue, ShapedValue, Valid;
    var f := fields[i];
    var norm := NormalItems(f, items);
    if k == |items| {
      assert norm[..k] == norm;
      assert slots[i := Many(norm)] == slots;
      assert [] + rest == rest;
    } else {
      var tail := EncodeUnpacked(f, items, k + 1).value;
      var body := EncodeValue(f, items[k]).value;
      var tag := Tag(f.tag, WireType(f.kind));
      assert EncodeUnpacked(f, items, k).value == tag + body + tail;
      ElementField(f, items, k, tail + rest);
      OneRecord(fields, slots, seen, i, WireType(f.kind), body, Many(norm[..k + 1]), tail + rest);
      var next := Store(fields, slots, i, Many(norm[..k + 1]));
      assert next == slots[i := Many(norm[..k + 1])];
      UnpackedRoundTrip(fields, next, seen, i, items, k + 1, rest);
      assert next[i := Many(norm)] == slots[i := Many(norm)];
      assert tag + body + tail + rest == tag + body + (tail + rest);
    }
  }

  /** All records of one slot take the partly decoded struct one field further. */
  lemma {:induction false} SlotRoundTrip(
    fields: seq<FieldDesc>, slots: seq<Slot>, seen: set<nat>, i: nat, rest: seq<byte>)
    requires WellFormed(fields) && Valid(fields, slots) && Shaped(fields, slots)
    requires i < |fields| && ShapedSlot(fields[i], slots[i])
    requires EncodeSlot(fields[i], slots[i]).Ok? && SlotLengthsFit(fields[i], slots[i])
    ensures Valid(fields, Mixed(fields, slots, i)) && Valid(fields, Mixed(fields, slots, i + 1))
    ensures DecodeLoop(fields, Mixed(fields, slots, i), seen, EncodeSlot(fields[i], slots[i]).value + rest)
         == DecodeLoop(fields, Mixed(fields, slots, i + 1), Met(fields, seen, i), rest)
    decreases fields, 4
  {
    var f, s := fields[i], slots[i];
    var cur := Mixed(fields, slots, i);
    MixedValid(fields, slots, i);
    MixedValid(fields, slots, i + 1);
    var all := EncodeSlot(f, s).value;
    if IsZeroSlot(f, s) {
      AbsentIsDefault(f, s);
      assert cur == Mixed(fields, slots, i + 1);
      assert all + rest == rest;
    } else if f.rule.Repeated? {
      ArraySlot(fields, slots, seen, i, rest);
    } else {
      PresentSlot(fields, slots, seen, i, rest);
    }
  }

  lemma {:induction false} PresentSlot(
    fields: seq<FieldDesc>, slots: seq<Slot>, seen: set<nat>, i: nat, rest: seq<byte>)
    requires WellFormed(fields) && Valid(fields, slots) && Shaped(fields, slots)
    requires i < |fields| && ShapedSlot(fields[i], slots[i]) && !IsZeroSlot(fields[i], slots[i])
    requires !fields[i].rule.Repeated?
    requires EncodeSlot(fields[i], slots[i]).Ok? && SlotLengthsFit(fields[i], slots[i])
    requires Valid(fields, Mixed(fields, slots, i)) && Valid(fields, Mixed(fields, slots, i + 1))
    ensures DecodeLoop(fields, Mixed(fields, slots, i), seen, EncodeSlot(fields[i], slots[i]).value + rest)
         == DecodeLoop(fields, Mixed(fields, slots, i + 1), Met(fields, seen, i), rest)
    decreases fields, 3
  {
    hide EncodeValue, DecodeField, DecodeLoop, ValidValue, NormalValue, NormalSlot, InitialValue, ShapedValue, IsZero;
    var f, s := fields[i], slots[i];
    assert ValidSlot(f, s) && WellFormedField(f);
    var cur := Mixed(fields, slots, i);
    var body := EncodeValue(f, Content(s).value).value;
    assert EncodeSlot(f, s).value == Tag(f.tag, WireType(f.kind)) + body;
    SingleField(f, s, rest);
    assert cur[i] == DefaultSlot(f);
    OneRecord(fields, cur, seen, i, WireType(f.kind), body, NormalSlot(f, s), rest);
    StoreMixed(fields, slots, i);
  }

  lemma {:induction false} ArraySlot(
    fields: seq<FieldDesc>, slots: seq<Slot>, seen: set<nat>, i: nat, rest: seq<byte>)
    requires WellFormed(fields) && Valid(fields, slots) && Shaped(fields, slots)
    requires i < |fields| && ShapedSlot(fields[i], slots[i]) && !IsZeroSlot(fields[i], slots[i])
    requires fields[i].rule.Repeated?
    requires EncodeSlot(fields[i], slots[i]).Ok? && SlotLengthsFit(fields[i], slots[i])
    requires Valid(fields, Mixed(fields, slots, i)) && Valid(fields, Mixed(fields, slots, i + 1))
    ensures DecodeLoop(fields, Mixed(fields, slots, i), seen, EncodeSlot(fields[i], slots[i]).value + rest)
         == DecodeLoop(fields, Mixed(fields, slots, i + 1), Met(fields, seen, i), rest)
    decreases fields, 3
  {
    hide EncodeValue, EncodeItems, EncodeUnpacked, DecodeLoop, ValidValue, NormalValue, InitialValue, ShapedValue;
    var f, s := fields[i], slots[i];
    assert ValidSlot(f, s) && WellFormedField(f);
    var cur := Mixed(fields, slots, i);
    var items := s.items;
    var norm := NormalItems(f, items);
    assert cur[i] == Many([]);
    StoreMixed(fields, slots, i);
    var next := Store(fields, cur, i, Many(norm));
    assert next == cur[i := Many(norm)];
    if Packable(f.kind) {
      PackedSlot(f, items, rest);
      var payload := EncodeItems(f, items, 0).value;
      OneRecord(fields, cur, seen, i, WT_STRING, Prefixed(payload), Many(norm), rest);
    } else {
      assert norm[..0] == [];
      UnpackedRoundTrip(fields, cur, seen, i, items, 0, rest);
    }
  }

  lemma {:induction false} PackedSlot(f: FieldDesc, items: seq<Value>, rest: seq<byte>)
    requires WellFormedField(f) && f.rule.Repeated? && Packable(f.kind) && |items| <= f.arraySize
    requires forall j :: 0 <= j < |items| ==> ValidValue(f, items[j]) && ShapedValue(f, items[j])
    requires var all := EncodeItems(f, items, 0); all.Ok? && |all.value| < TWO_32
    ensures DecodeField(f, Many([]), WT_STRING, Prefixed(EncodeItems(f, items, 0).value) + rest)
         == Some((Many(NormalItems(f, items)), rest))
  {
    hide EncodeItems, DecodePacked, ValidValue, ShapedValue, WellFormedField, Prefixed;
    PackedRoundTrip(f, items, 0);
    assert items[..0] == [];
    NormalScalars(f, items);
    PrefixRoundTrip(EncodeItems(f, items, 0).value, rest);
  }

  ghost predicate RequiredBelow(fields: seq<FieldDesc>, seen: set<nat>, i: nat) {
    forall j :: 0 <= j < |fields| && j < i && fields[j].rule.Required? ==> j in seen
  }

  lemma {:induction false} FieldsRoundTrip(fields: seq<FieldDesc>, slots: seq<Slot>, seen: set<nat>, i: nat)
    requires WellFormed(fields) && Valid(fields, slots) && Shaped(fields, slots)
    requires i <= |fields| && RequiredBelow(fields, seen, i)
    requires EncodeFrom(fields, slots, i).Ok? && LengthsFit(fields, slots)
    ensures Valid(fields, Mixed(fields, slots, i))
    ensures var p := DecodeLoop(fields, Mixed(fields, slots, i), seen, EncodeFrom(fields, slots, i).value);
      p.Some? && p.value.slots == Normal(fields, slots) && p.value.rest == [] && RequiredSeen(fields, p.value.seen)
    decreases fields, 5, |fields| - i
  {
    hide EncodeSlot, ValidSlot, ShapedSlot, NormalSlot, DefaultSlot, WellFormedField;
    MixedValid(fields, slots, i);
    if i == |fields| {
      assert Mixed(fields, slots, i) == Normal(fields, slots);
    } else {
      var head, tail := EncodeSlot(fields[i], slots[i]).value, EncodeFrom(fields, slots, i + 1).value;
      assert EncodeFrom(fields, slots, i).value == head + tail;
      SlotRoundTrip(fields, slots, seen, i, tail);
      FieldsRoundTrip(fields, slots, Met(fields, seen, i), i + 1);
    }
  }

  lemma {:induction false} MessageRoundTrip(fields: seq<FieldDesc>, slots: seq<Slot>)
    requires WellFormed(fields) && Valid(fields, slots) && Shaped(fields, slots)
    requires EncodeMessage(fields, slots).Ok? && LengthsFit(fields, slots)
    ensures Valid(fields, Defaults(fields))
    ensures DecodeMessage(fields, Defaults(fields), EncodeMessage(fields, slots).value)
         == Some((Normal(fields, slots), []))
    decreases fields, 6
  {
    FieldsRoundTrip(fields, slots, {}, 0);
    assert Mixed(fields, slots, 0) == Defaults(fields);
  }

  // ---------- Length prefixes that do not fit ----------

  /** Whatever does not fit, at any depth, makes the encodings around it as long as that. */
  lemma {:induction false} LargeValue(f: FieldDesc, v: Value)
    requires ShapedValue(f, v) && !ValueLengthsFit(f, v) && EncodeValue(f, v).Ok?
    ensures f.kind.SubmessageKind? && v.Struct? && Shaped(f.kind.fields, v.slots)
    ensures var body := EncodeMessage(f.kind.fields, v.slots);
      body.Ok? && |body.value| >= TWO_32 && EncodeValue(f, v).value == Prefixed(body.value)
    decreases f, 0
  {
    var sub := f.kind.fields;
    if !LengthsFit(sub, v.slots) {
      var i :| 0 <= i < |sub| && !SlotLengthsFit(sub[i], v.slots[i]);
      LargeFrom(sub, v.slots, 0, i);
    }
  }

  lemma {:induction false} LargeUnpacked(f: FieldDesc, items: seq<Value>, from: nat, k: nat)
    requires from <= k < |items| && forall i :: 0 <= i < |items| ==> ShapedValue(f, items[i])
    requires !ValueLengthsFit(f, items[k]) && EncodeUnpacked(f, items, from).Ok?
    ensures |EncodeUnpacked(f, items, from).value| >= TWO_32
    decreases f, 1, k - from
  {
    hide ShapedValue, EncodeValue, ValueLengthsFit, Tag;
    if from < k {
      LargeUnpacked(f, items, from + 1, k);
    } else {
      LargeValue(f, items[k]);
    }
  }

  lemma {:induction false} LargeSlot(f: FieldDesc, s: Slot)
    requires ShapedSlot(f, s) && !SlotLengthsFit(f, s) && EncodeSlot(f, s).Ok?
    ensures |EncodeSlot(f, s).value| >= TWO_32
    decreases f, 2
  {
    hide ShapedValue, EncodeValue, ValueLengthsFit, Tag, EncodeItems, EncodeUnpacked, IsZero;
    if !s.Many? {
      LargeValue(f, Content(s).value);
    } else if !Packable(f.kind) {
      var k :| 0 <= k < |s.items| && !ValueLengthsFit(f, s.items[k]);
      LargeUnpacked(f, s.items, 0, k);
    } else {
      assert s.items != [] by { NoItems(f, s.items); }
    }
  }

  lemma NoItems(f: FieldDesc, items: seq<Value>)
    requires forall i :: 0 <= i < |items| ==> ShapedValue(f, items[i])
    ensures items == [] ==> EncodeItems(f, items, 0) == Ok([])
  {
  }

  lemma {:induction false} LargeFrom(fields: seq<FieldDesc>, slots: seq<Slot>, from: nat, i: nat)
    requires Shaped(fields, slots) && from <= i < |fields| && ShapedSlot(fields[i], slots[i])
    requires !SlotLengthsFit(fields[i], slots[i]) && EncodeFrom(fields, slots, from).Ok?
    ensures |EncodeFrom(fields, slots, from).value| >= TWO_32
    decreases fields, 3, i - from
  {
    hide ShapedSlot, EncodeSlot, SlotLengthsFit;
    if from < i {
      LargeFrom(fields, slots, from + 1, i);
    } else {
      LargeSlot(fields[i], slots[i]);
    }
  }

  /** The decoder refuses such a prefix, however long the value behind it. */
  lemma PrefixRefused(b: seq<byte>, rest: seq<byte>)
    requires TWO_32 <= |b| < TWO_63
    ensures Substream(Prefixed(b) + rest).None?
  {
    hide Varint.Encode, Varint.Decode32;
    Varint.LargeRefused(|b|, b + rest);
    assert Prefixed(b) + rest == Varint.Encode(|b|) + (b + rest);
  }

  /** One record whose body the field refuses. */
  lemma RecordRefused(fields: seq<FieldDesc>, slots: seq<Slot>, seen: set<nat>, i: nat, wireType: nat, body: seq<byte>, rest: seq<byte>)
    requires WellFormed(fields) && Valid(fields, slots) && i < |fields| && wireType < 8
    requires DecodeField(fields[i], slots[i], wireType, body + rest).None?
    ensures DecodeLoop(fields, slots, seen, Tag(fields[i].tag, wireType) + body + rest).None?
  {
    hide Varint.Encode, Varint.Decode32, DecodeField, Valid, ValidSlot;
    var word := fields[i].tag * 8 + wireType;
    Varint.RoundTrip32(word, body + rest);
    assert Tag(fields[i].tag, wireType) + body + rest == Varint.Encode(word) + (body + rest);
    assert word / 8 == fields[i].tag && word % 8 == wireType;
    IndexOfField(fields, i);
  }

  lemma ValueRefused(f: FieldDesc, slot: Slot, v: Value, wireType: nat, rest: seq<byte>)
    requires WellFormedField(f) && ValidSlot(f, slot) && !(f.rule.Repeated? && |slot.items| >= f.arraySize)
    requires ShapedValue(f, v) && !ValueLengthsFit(f, v) && EncodeValue(f, v).Ok? && |EncodeValue(f, v).value| < TWO_63
    ensures DecodeField(f, slot, wireType, EncodeValue(f, v).value + rest).None?
  {
    hide DecodeMessage, ValidValue, WellFormedField, ShapedValue, ValueLengthsFit, EncodeValue, Prefixed, DecodePacked;
    LargeValue(f, v);
    var body := EncodeMessage(f.kind.fields, v.slots).value;
    assert |body| <= |Prefixed(body)| by { PrefixedLonger(body); }
    PrefixRefused(body, rest);
  }

  lemma PrefixedLonger(b: seq<byte>)
    ensures |b| <= |Prefixed(b)|
  {
  }

  /** The elements before the first one that does not fit are decoded, and that one is refused. */
  lemma {:induction false} UnpackedRefused(
    fields: seq<FieldDesc>, slots: seq<Slot>, seen: set<nat>, i: nat, items: seq<Value>, k: nat, rest: seq<byte>)
    requires WellFormed(fields) && Valid(fields, slots) && |slots| == |fields|
    requires i < |fields| && k <= |items| <= fields[i].arraySize
    requires fields[i].rule.Repeated? && !Packable(fields[i].kind)
    requires forall j :: 0 <= j < |items| ==> ValidValue(fields[i], items[j]) && ShapedValue(fields[i], items[j])
    requires exists j :: k <= j < |items| && !ValueLengthsFit(fields[i], items[j])
    requires slots[i] == Many(NormalItems(fields[i], items)[..k])
    requires EncodeUnpacked(fields[i], items, k).Ok? && |EncodeUnpacked(fields[i], items, k).value| < TWO_63
    ensures DecodeLoop(fields, slots, seen, EncodeUnpacked(fields[i], items, k).value + rest).None?
    decreases |items| - k
  {
    hide EncodeValue, DecodeField, DecodeLoop, ValidValue, ValidSlot, NormalValue, ShapedValue, Valid, ValueLengthsFit;
    var f := fields[i];
    var norm := NormalItems(f, items);
    var tail := EncodeUnpacked(f, items, k + 1).value;
    var body := EncodeValue(f, items[k]).value;
    var tag := Tag(f.tag, WireType(f.kind));
    assert EncodeUnpacked(f, items, k).value == tag + body + tail;
    assert tag + body + tail + rest == tag + body + (tail + rest);
    FieldAt(fields, slots, i);
    if ValueLengthsFit(f, items[k]) {
      ElementField(f, items, k, tail + rest);
      OneRecord(fields, slots, seen, i, WireType(f.kind), body, Many(norm[..k + 1]), tail + rest);
      var next := Store(fields, slots, i, Many(norm[..k + 1]));
      assert next == slots[i := Many(norm[..k + 1])];
      UnpackedRefused(fields, next, seen, i, items, k + 1, rest);
    } else {
      ValueRefused(f, slots[i], items[k], WireType(f.kind), tail + rest);
      RecordRefused(fields, slots, seen, i, WireType(f.kind), body, tail + rest);
    }
  }

  lemma PackedRefused(f: FieldDesc, items: seq<Value>, rest: seq<byte>)
    requires WellFormedField(f) && f.rule.Repeated? && Packable(f.kind)
    requires forall j :: 0 <= j < |items| ==> ShapedValue(f, items[j])
    requires var all := EncodeItems(f, items, 0); all.Ok? && TWO_32 <= |all.value| < TWO_63
    ensures DecodeField(f, Many([]), WT_STRING, Prefixed(EncodeItems(f, items, 0).value) + rest).None?
  {
    hide EncodeItems, DecodePacked, ValidValue, ShapedValue, WellFormedField, Prefixed;
    PrefixRefused(EncodeItems(f, items, 0).value, rest);
  }

  /** A slot that does not fit is refused where the decoder gets to it. */
  lemma SlotRefused(fields: seq<FieldDesc>, slots: seq<Slot>, seen: set<nat>, i: nat, rest: seq<byte>)
    requires WellFormed(fields) && Valid(fields, slots) && Shaped(fields, slots)
    requires i < |fields| && ShapedSlot(fields[i], slots[i]) && !SlotLengthsFit(fields[i], slots[i])
    requires EncodeSlot(fields[i], slots[i]).Ok? && |EncodeSlot(fields[i], slots[i]).value| < TWO_63
    requires Valid(fields, Mixed(fields, slots, i))
    ensures DecodeLoop(fields, Mixed(fields, slots, i), seen, EncodeSlot(fields[i], slots[i]).value + rest).None?
  {
    hide EncodeValue, EncodeItems, EncodeUnpacked, DecodeField, DecodeLoop, ValidValue, NormalValue, InitialValue, ShapedValue, IsZero, ValueLengthsFit;
    var f, s, cur := fields[i], slots[i], Mixed(fields, slots, i);
    assert ValidSlot(f, s) && WellFormedField(f) && ValidSlot(f, cur[i]);
    assert cur[i] == DefaultSlot(f);
    if !s.Many? {
      var v := Content(s).value;
      assert EncodeSlot(f, s).value == Tag(f.tag, WireType(f.kind)) + EncodeValue(f, v).value;
      ValueRefused(f, cur[i], v, WireType(f.kind), rest);
      RecordRefused(fields, cur, seen, i, WireType(f.kind), EncodeValue(f, v).value, rest);
    } else if Packable(f.kind) {
      NoItems(f, s.items);
      var payload := EncodeItems(f, s.items, 0).value;
      PrefixedLonger(payload);
      PackedRefused(f, s.items, rest);
      RecordRefused(fields, cur, seen, i, WT_STRING, Prefixed(payload), rest);
    } else {
      assert NormalItems(f, s.items)[..0] == [];
      UnpackedRefused(fields, cur, seen, i, s.items, 0, rest);
    }
  }

  /** The slots before the first one that does not fit are decoded, and that one is refused. */
  lemma {:induction false} FieldsRefused(fields: seq<FieldDesc>, slots: seq<Slot>, seen: set<nat>, i: nat)
    requires WellFormed(fields) && Valid(fields, slots) && Shaped(fields, slots) && i <= |fields|
    requires forall j :: 0 <= j < |fields| ==> ShapedSlot(fields[j], slots[j])
    requires exists j :: i <= j < |fields| && !SlotLengthsFit(fields[j], slots[j])
    requires EncodeFrom(fields, slots, i).Ok? && |EncodeFrom(fields, slots, i).value| < TWO_63
    ensures Valid(fields, Mixed(fields, slots, i))
    ensures DecodeLoop(fields, Mixed(fields, slots, i), seen, EncodeFrom(fields, slots, i).value).None?
    decreases |fields| - i
  {
    hide EncodeSlot, ValidSlot, ShapedSlot, NormalSlot, DefaultSlot, WellFormedField, SlotLengthsFit, DecodeLoop;
    MixedValid(fields, slots, i);
    var head, tail := EncodeSlot(fields[i], slots[i]).value, EncodeFrom(fields, slots, i + 1).value;
    assert EncodeFrom(fields, slots, i).value == head + tail;
    if SlotLengthsFit(fields[i], slots[i]) {
      SlotRoundTrip(fields, slots, seen, i, tail);
      FieldsRefused(fields, slots, Met(fields, seen, i), i + 1);
    } else {
      SlotRefused(fields, slots, seen, i, tail);
    }
  }

  lemma MessageRefused(fields: seq<FieldDesc>, slots: seq<Slot>)
    requires WellFormed(fields) && Valid(fields, slots) && Shaped(fields, slots)
    requires var all := EncodeMessage(fields, slots); all.Ok? && |all.value| < TWO_63 && !LengthsFit(fields, slots)
    ensures Decode(fields, EncodeMessage(fields, slots).value).None?
  {
    hide ShapedSlot, SlotLengthsFit, EncodeSlot, DecodeLoop, Valid, WellFormed;
    FieldsRefused(fields, slots, {}, 0);
    assert Mixed(fields, slots, 0) == Defaults(fields);
  }

  /**
    * Every valid struct can be encoded. Decoding an encoding of less than 2^63 bytes succeeds exactly if
    * every length prefix in it has at most 32 bits; it then gives the struct with absent fields at their
    * defaults, and that is the very same struct exactly if everything that is not written already holds
    * its default.
    */
  lemma {:induction false} DecodeEncode(fields: seq<FieldDesc>, slots: seq<Slot>)
    requires WellFormed(fields) && Valid(fields, slots)
    ensures Shaped(fields, slots) && EncodeMessage(fields, slots).Ok?
    ensures var bytes := EncodeMessage(fields, slots).value; var r := Decode(fields, bytes);
      && (LengthsFit(fields, slots) ==> r == Some((Normal(fields, slots), [])))
      && (|bytes| < TWO_63 ==> (r.Some? <==> LengthsFit(fields, slots)))
      && (|bytes| < TWO_63 ==> (r == Some((slots, [])) <==> LengthsFit(fields, slots) && Settled(fields, slots)))
  {
    hide Valid, WellFormed, LengthsFit, Settled, Decode;
    MessageEncodes(fields, slots, 0);
    if LengthsFit(fields, slots) {
      DecodeFits(fields, slots);
      SettledKept(fields, slots);
    } else if |EncodeMessage(fields, slots).value| < TWO_63 {
      MessageRefused(fields, slots);
    }
  }

  lemma DecodeFits(fields: seq<FieldDesc>, slots: seq<Slot>)
    requires WellFormed(fields) && Valid(fields, slots) && Shaped(fields, slots)
    requires EncodeMessage(fields, slots).Ok? && LengthsFit(fields, slots)
    ensures Decode(fields, EncodeMessage(fields, slots).value) == Some((Normal(fields, slots), []))
  {
    hide Valid, WellFormed, LengthsFit;
    MessageRoundTrip(fields, slots);
  }
}
