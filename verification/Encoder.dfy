/** The recursive writer: a sizing pass and a writing pass over the same descriptor. */
module Encoder {
  import opened Wire
  import Varint
  import opened Descriptor
  import FieldIter
  import opened EncodeSpec
  import opened OStream

  /** PB_RETURN_ERROR. */
  method Refuse(s: Stream, e: Error)
    requires s.Valid() && e != SubmsgSizeChanged
    modifies s`errmsg
    ensures s.Valid() && Wrote(old(s.View()), s.View(), Err(e), false)
  {
    s.SetError(e);
  }

  /** PB_ENCODERS: one writer per kind of value. */
  method WriteValue(s: Stream, f: FieldDesc, v: Value) returns (ok: bool)
    requires s.Valid() && ShapedValue(f, v) && ValueFitsSizeT(f, v)
    requires f.dataSize <= SIZE_MAX
    modifies s, s.buf
    ensures s.Valid() && Wrote(old(s.View()), s.View(), EncodeValue(f, v), ok)
    decreases f, 0
  {
    hide Wrote, Varint.Encode, Varint.FixedBytes;
    match f.kind
    case VarintKind =>
      if Half(f.dataSize) == 0 {
        Refuse(s, InvalidDataSize);
        return false;
      }
      ok := EncodeVarint(s, ToUnsigned64(v.n));
    case UVarintKind =>
      if Half(f.dataSize) == 0 {
        Refuse(s, InvalidDataSize);
        return false;
      }
      ok := EncodeVarint(s, v.n);
    case SVarintKind =>
      if Half(f.dataSize) == 0 {
        Refuse(s, InvalidDataSize);
        return false;
      }
      ok := EncodeVarint(s, Varint.ZigZag(v.n));
    case Fixed32Kind =>
      ok := Write(s, Varint.FixedBytes(v.n, 4));
    case Fixed64Kind =>
      ok := Write(s, Varint.FixedBytes(v.n, 8));
    case BytesKind =>
      if |v.b| + BYTES_HEADER > f.dataSize {
        Refuse(s, BytesSizeExceeded);
        return false;
      }
      ok := EncodeString(s, v.b);
    case StringKind =>
      ok := EncodeString(s, v.b);
    case SubmessageKind(sub) =>
      ok := EncodeSubmessage(s, sub, v.slots);
    case FixedBytesKind =>
      ok := EncodeString(s, v.b);
  }

  /** The size is computed first, written, and then enforced on the substream of the second pass. */
  method EncodeSubmessage(s: Stream, fields: seq<FieldDesc>, slots: seq<Slot>) returns (ok: bool)
    requires s.Valid() && Shaped(fields, slots) && FitsSizeT(fields, slots)
    requires var body := EncodeMessage(fields, slots); body.Ok? ==> |body.value| < TWO_64
    modifies s, s.buf
    ensures s.Valid()
    ensures var body := EncodeMessage(fields, slots);
      Wrote(old(s.View()), s.View(), if body.Ok? then Ok(Prefixed(body.value)) else body, ok)
    decreases fields, 6
  {
    hide EncodeMessage, Shaped, FitsSizeT;
    ghost var body := EncodeMessage(fields, slots);
    var sizer := new Stream.Sizing();
    ok := Encode(sizer, fields, slots);
    if !ok {
      s.errmsg := sizer.errmsg;
      return false;
    }
    var size := sizer.bytesWritten;
    ghost var a := s.View();
    ok := EncodeVarint(s, size);
    ghost var b := s.View();
    if !ok {
      Abandon(a, b, Ok(Varint.Encode(size)), body);
      return false;
    }
    if s.sizing {
      Count(s, size);
      Chain(a, b, s.View(), Varint.Encode(size), body, true);
      return true;
    }
    if s.bytesWritten + size > s.maxSize {
      s.SetError(StreamFull);
      Chain(a, b, s.View(), Varint.Encode(size), body, false);
      return false;
    }
    var sub := new Stream.Limited(s, size);
    var status := Encode(sub, fields, slots);
    s.bytesWritten := s.bytesWritten + sub.bytesWritten;
    s.at := sub.at;
    var changed := sub.bytesWritten != size;
    s.errmsg := if sub.errmsg.None? && changed then Some(SubmsgSizeChanged) else sub.errmsg;
    ok := if changed then false else status;
    assert !changed;
    Chain(a, b, s.View(), Varint.Encode(size), body, ok);
  }

  method WriteField(s: Stream, f: FieldDesc, v: Value) returns (ok: bool)
    requires s.Valid() && ShapedValue(f, v) && ValueFitsSizeT(f, v)
    requires f.tag <= SIZE_MAX && f.dataSize <= SIZE_MAX
    modifies s, s.buf
    ensures s.Valid() && Wrote(old(s.View()), s.View(), EncodeField(f, v), ok)
    decreases f, 1
  {
    ghost var a := s.View();
    ghost var tag := Tag(f.tag, WireType(f.kind));
    ok := EncodeTag(s, WireType(f.kind), f.tag);
    ghost var b := s.View();
    if !ok {
      Abandon(a, b, Ok(tag), EncodeValue(f, v));
      return false;
    }
    ok := WriteValue(s, f, v);
    Chain(a, b, s.View(), tag, EncodeValue(f, v), ok);
  }

  /** One turn of an array loop, for the contract of the whole loop. */
  lemma NextItem(a: State, b: State, c: State, done: seq<byte>, head: Result<seq<byte>>, tail: Result<seq<byte>>, ok: bool)
    requires Wrote(a, b, Ok(done), true) && Wrote(b, c, head, ok)
    ensures ok ==> head.Ok? && Wrote(a, c, Ok(done + head.value), true)
    ensures ok ==> Prepend(done, Prepend(head.value, tail)) == Prepend(done + head.value, tail)
    ensures !ok && head.Ok? ==> Wrote(a, c, Prepend(done, Prepend(head.value, tail)), false)
    ensures !ok && head.Err? ==> Prepend(done, head) == head && Wrote(a, c, head, false)
  {
    Chain(a, b, c, done, head, ok);
    if head.Ok? && tail.Ok? {
      assert done + (head.value + tail.value) == done + head.value + tail.value;
    }
  }

  lemma NothingWritten(s: Stream)
    requires s.Valid()
    ensures Wrote(s.View(), s.View(), Ok([]), true)
  {
  }

  lemma PrependNothing(done: seq<byte>, r: Result<seq<byte>>)
    ensures Prepend([], r) == r
    ensures Prepend(done, Ok([])) == Ok(done)
  {
    assert done + [] == done;
    if r.Ok? {
      assert [] + r.value == r.value;
    }
  }

  /** Arrays one element at a time. */
  lemma ItemsAt(f: FieldDesc, items: seq<Value>, i: nat)
    requires i <= |items| && forall k :: 0 <= k < |items| ==> ShapedValue(f, items[k])
    ensures i == |items| ==> EncodeItems(f, items, i) == EncodeUnpacked(f, items, i) == Ok([])
    ensures i < |items| ==>
      var head, field := EncodeValue(f, items[i]), EncodeField(f, items[i]);
      && EncodeItems(f, items, i) == (if head.Ok? then Prepend(head.value, EncodeItems(f, items, i + 1)) else head)
      && EncodeUnpacked(f, items, i)
         == (if field.Ok? then Prepend(field.value, EncodeUnpacked(f, items, i + 1)) else field)
  {
  }

  method WriteItems(s: Stream, f: FieldDesc, items: seq<Value>) returns (ok: bool)
    requires s.Valid() && forall i :: 0 <= i < |items| ==> ShapedValue(f, items[i]) && ValueFitsSizeT(f, items[i])
    requires f.dataSize <= SIZE_MAX
    modifies s, s.buf
    ensures s.Valid() && Wrote(old(s.View()), s.View(), EncodeItems(f, items, 0), ok)
    decreases f, 2
  {
    hide EncodeValue, EncodeField, EncodeItems, EncodeUnpacked, ShapedValue, ValueFitsSizeT, Wrote, Prepend, Stream.View, Stream.Valid;
    ghost var a := s.View();
    ghost var done: seq<byte> := [];
    PrependNothing(done, EncodeItems(f, items, 0));
    NothingWritten(s);
    for i := 0 to |items|
      invariant s.Valid() && Wrote(a, s.View(), Ok(done), true)
      invariant EncodeItems(f, items, 0) == Prepend(done, EncodeItems(f, items, i))
    {
      ghost var b := s.View();
      ItemsAt(f, items, i);
      ok := WriteValue(s, f, items[i]);
      ghost var head := EncodeValue(f, items[i]);
      NextItem(a, b, s.View(), done, head, EncodeItems(f, items, i + 1), ok);
      if !ok {
        return false;
      }
      done := done + head.value;
    }
    PrependNothing(done, Ok([]));
    ItemsAt(f, items, |items|);
    return true;
  }

  method WriteUnpacked(s: Stream, f: FieldDesc, items: seq<Value>) returns (ok: bool)
    requires s.Valid() && forall i :: 0 <= i < |items| ==> ShapedValue(f, items[i]) && ValueFitsSizeT(f, items[i])
    requires f.tag <= SIZE_MAX && f.dataSize <= SIZE_MAX
    modifies s, s.buf
    ensures s.Valid() && Wrote(old(s.View()), s.View(), EncodeUnpacked(f, items, 0), ok)
    decreases f, 2
  {
    hide EncodeValue, EncodeField, EncodeItems, EncodeUnpacked, ShapedValue, ValueFitsSizeT, Wrote, Prepend, Stream.View, Stream.Valid;
    ghost var a := s.View();
    ghost var done: seq<byte> := [];
    PrependNothing(done, EncodeUnpacked(f, items, 0));
    NothingWritten(s);
    for i := 0 to |items|
      invariant s.Valid() && Wrote(a, s.View(), Ok(done), true)
      invariant EncodeUnpacked(f, items, 0) == Prepend(done, EncodeUnpacked(f, items, i))
    {
      ghost var b := s.View();
      ItemsAt(f, items, i);
      ok := WriteField(s, f, items[i]);
      ghost var head := EncodeField(f, items[i]);
      NextItem(a, b, s.View(), done, head, EncodeUnpacked(f, items, i + 1), ok);
      if !ok {
        return false;
      }
      done := done + head.value;
    }
    PrependNothing(done, Ok([]));
    ItemsAt(f, items, |items|);
    return true;
  }

  /** The packed payload's size, known in advance for fixed-size words and measured otherwise. */
  method PackedPayloadSize(f: FieldDesc, items: seq<Value>) returns (ok: bool, size: nat, error: Option<Error>)
    requires Packable(f.kind) && f.dataSize <= SIZE_MAX
    requires forall i :: 0 <= i < |items| ==> ShapedValue(f, items[i]) && ValueFitsSizeT(f, items[i])
    ensures ok == EncodeItems(f, items, 0).Ok?
    ensures ok ==> size == |EncodeItems(f, items, 0).value|
    ensures !ok ==> error.Some? && error != Some(SubmsgSizeChanged)
    decreases f, 3
  {
    PackedSize(f, items, 0);
    if f.kind.Fixed32Kind? {
      return true, 4 * |items|, None;
    } else if f.kind.Fixed64Kind? {
      return true, 8 * |items|, None;
    }
    var sizer := new Stream.Sizing();
    ok := WriteItems(sizer, f, items);
    return ok, sizer.bytesWritten, sizer.errmsg;
  }

  method WritePacked(s: Stream, f: FieldDesc, items: seq<Value>) returns (ok: bool)
    requires s.Valid() && forall i :: 0 <= i < |items| ==> ShapedValue(f, items[i]) && ValueFitsSizeT(f, items[i])
    requires Packable(f.kind) && |items| <= f.arraySize
    requires f.tag <= SIZE_MAX && f.dataSize <= SIZE_MAX && f.arraySize <= SIZE_MAX
    modifies s, s.buf
    ensures s.Valid()
    ensures var payload := EncodeItems(f, items, 0);
      Wrote(old(s.View()), s.View(),
            if payload.Ok? then Ok(Tag(f.tag, WT_STRING) + Prefixed(payload.value)) else payload, ok)
    decreases f, 4
  {
    hide EncodeValue, EncodeItems, ShapedValue, ValueFitsSizeT;
    ghost var a := s.View();
    ghost var payload := EncodeItems(f, items, 0);
    ghost var tag := Tag(f.tag, WT_STRING);
    ok := EncodeTag(s, WT_STRING, f.tag);
    ghost var b := s.View();
    if !ok {
      Abandon(a, b, Ok(tag), if payload.Ok? then Ok(Prefixed(payload.value)) else payload);
      return false;
    }
    var size, error;
    ok, size, error := PackedPayloadSize(f, items);
    if !ok {
      s.errmsg := if s.errmsg.Some? then s.errmsg else error;
      Chain(a, b, s.View(), tag, payload, false);
      return false;
    }
    PackedSize(f, items, 0);
    ghost var length := Varint.Encode(size);
    ok := EncodeVarint(s, size);
    ghost var c := s.View();
    NextItem(a, b, c, tag, Ok(length), payload, ok);
    if !ok {
      return false;
    }
    assert tag + length + payload.value == tag + (length + payload.value);
    if s.sizing {
      Count(s, size);
      Chain(a, c, s.View(), tag + length, payload, true);
      return true;
    }
    ok := WriteItems(s, f, items);
    Chain(a, c, s.View(), tag + length, payload, ok);
  }

  /** encode_array: always packed when the kind of value allows it. */
  method WriteArray(s: Stream, f: FieldDesc, items: seq<Value>) returns (ok: bool)
    requires s.Valid() && forall i :: 0 <= i < |items| ==> ShapedValue(f, items[i]) && ValueFitsSizeT(f, items[i])
    requires f.tag <= SIZE_MAX && f.dataSize <= SIZE_MAX && f.arraySize <= SIZE_MAX
    modifies s, s.buf
    ensures s.Valid() && Wrote(old(s.View()), s.View(), EncodeArray(f, items), ok)
    decreases f, 5
  {
    hide EncodeItems, EncodeUnpacked, ShapedValue, ValueFitsSizeT;
    if |items| == 0 {
      return true;
    }
    if |items| > f.arraySize {
      Refuse(s, ArrayMaxSizeExceeded);
      return false;
    }
    if Packable(f.kind) {
      ok := WritePacked(s, f, items);
    } else {
      ok := WriteUnpacked(s, f, items);
    }
  }

  /** encode_basic_field. */
  method WriteSlot(s: Stream, f: FieldDesc, slot: Slot) returns (ok: bool)
    requires s.Valid() && ShapedSlot(f, slot) && SlotFitsSizeT(f, slot)
    modifies s, s.buf
    ensures s.Valid() && Wrote(old(s.View()), s.View(), EncodeSlot(f, slot), ok)
    decreases f, 6
  {
    ok := true;
    match f.rule
    case Required =>
      ok := WriteField(s, f, slot.v);
    case Optional =>
      if slot.has {
        ok := WriteField(s, f, slot.v);
      }
    case Singular =>
      if !IsZero(f, slot.v) {
        ok := WriteField(s, f, slot.v);
      }
    case Repeated =>
      ok := WriteArray(s, f, slot.items);
    case Oneof(_) =>
      if slot.choice.Some? {
        ok := WriteField(s, f, slot.choice.value);
      }
  }

  lemma FieldsAt(fields: seq<FieldDesc>, slots: seq<Slot>, i: nat)
    requires Shaped(fields, slots) && i <= |fields|
    ensures i == |fields| ==> EncodeFrom(fields, slots, i) == Ok([])
    ensures i < |fields| ==>
      var head := EncodeSlot(fields[i], slots[i]);
      EncodeFrom(fields, slots, i) == (if head.Ok? then Prepend(head.value, EncodeFrom(fields, slots, i + 1)) else head)
  {
  }

  /** pb_encode: walks the fields with the iterator. */
  method Encode(s: Stream, fields: seq<FieldDesc>, slots: seq<Slot>) returns (ok: bool)
    requires s.Valid() && Shaped(fields, slots) && FitsSizeT(fields, slots)
    modifies s, s.buf
    ensures s.Valid() && Wrote(old(s.View()), s.View(), EncodeMessage(fields, slots), ok)
    decreases fields, 5
  {
    hide EncodeSlot, EncodeFrom, ShapedSlot, SlotFitsSizeT, OneChoice, Wrote, Prepend, Stream.View, Stream.Valid;
    var iter := new FieldIter.Iterator(fields);
    var more := fields != [];
    ghost var a := s.View();
    ghost var done: seq<byte> := [];
    ghost var i: nat := 0;
    PrependNothing(done, EncodeFrom(fields, slots, 0));
    NothingWritten(s);
    while more
      invariant iter.Valid() && fresh(iter) && iter.start == fields
      invariant i <= |fields| && more == (i < |fields|) && (more ==> iter.pos == i)
      invariant s.Valid() && Wrote(a, s.View(), Ok(done), true)
      invariant EncodeMessage(fields, slots) == Prepend(done, EncodeFrom(fields, slots, i))
      decreases |fields| - i
    {
      ghost var b := s.View();
      FieldsAt(fields, slots, i);
      ok := WriteSlot(s, fields[iter.pos], slots[iter.pos]);
      ghost var head := EncodeSlot(fields[i], slots[i]);
      NextItem(a, b, s.View(), done, head, EncodeFrom(fields, slots, i + 1), ok);
      if !ok {
        return false;
      }
      done := done + head.value;
      more := iter.Next();
      i := i + 1;
    }
    PrependNothing(done, Ok([]));
    FieldsAt(fields, slots, |fields|);
    return true;
  }

  // ---------- Sizing and writing ----------

  /** pb_get_encoded_size: the sizing pass succeeds and counts exactly what there is to write. */
  method EncodedSize(fields: seq<FieldDesc>, slots: seq<Slot>) returns (ok: bool, size: nat)
    requires Shaped(fields, slots) && FitsSizeT(fields, slots)
    ensures ok == EncodeMessage(fields, slots).Ok?
    ensures ok ==> size == |EncodeMessage(fields, slots).value|
  {
    var sizer := new Stream.Sizing();
    ok := Encode(sizer, fields, slots);
    size := sizer.bytesWritten;
  }

  /** Encoding into a buffer succeeds exactly if the sizing pass does and its size fits. */
  method EncodeIntoBuffer(buffer: array<byte>, fields: seq<FieldDesc>, slots: seq<Slot>) returns (ok: bool, written: nat)
    requires Shaped(fields, slots) && FitsSizeT(fields, slots)
    modifies buffer
    ensures var bytes := EncodeMessage(fields, slots);
      && ok == (bytes.Ok? && |bytes.value| <= buffer.Length)
      && (ok ==> written == |bytes.value| && buffer[..written] == bytes.value)
  {
    var s := new Stream.FromBuffer(buffer);
    ok := Encode(s, fields, slots);
    written := s.bytesWritten;
    if ok {
      assert s.View().output == EncodeMessage(fields, slots).value;
    }
  }
}
