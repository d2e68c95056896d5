/** The recursive reader, storing into the struct as it goes. */
module Decoder {
  import opened Wire
  import Varint
  import opened Descriptor
  import opened EncodeSpec
  import opened FieldIter
  import D = DecodeSpec
  import opened IStream
  import opened RequiredMask

  /** A struct that is filled in place. */
  class Message {
    const fields: seq<FieldDesc>
    var slots: seq<Slot>

    ghost predicate Valid()
      reads this
    {
      WellFormed(fields) && Descriptor.Valid(fields, slots)
    }

    constructor (fields: seq<FieldDesc>, slots: seq<Slot>)
      requires WellFormed(fields) && Descriptor.Valid(fields, slots)
      ensures Valid() && this.fields == fields && this.slots == slots
    {
      this.fields, this.slots := fields, slots;
    }
  }

  // ---------- Scalars ----------

  method ReadVarint(s: Stream, dataSize: nat) returns (ok: bool, n: int)
    requires s.Valid()
    modifies s
    ensures Kept(s, ok) && ok == D.DecodeVarint(dataSize, old(s.Rest())).Some?
    ensures ok ==> (n, s.Rest()) == D.DecodeVarint(dataSize, old(s.Rest())).value
  {
    hide Varint.Decode64, ToSigned;
    var value;
    ok, value := DecodeVarint64(s);
    if !ok {
      return false, 0;
    }
    var svalue := ToSigned(value, if dataSize == 8 then 8 else 4);
    if Half(dataSize) == 0 {
      return false, 0;
    }
    var clamped := ToSigned(svalue, dataSize);
    return clamped == svalue, svalue;
  }

  method ReadUVarint(s: Stream, dataSize: nat) returns (ok: bool, n: int)
    requires s.Valid()
    modifies s
    ensures Kept(s, ok) && ok == D.DecodeUVarint(dataSize, old(s.Rest())).Some?
    ensures ok ==> (n, s.Rest()) == D.DecodeUVarint(dataSize, old(s.Rest())).value
  {
    hide Varint.Decode64;
    var value;
    ok, value := DecodeVarint64(s);
    if !ok || Half(dataSize) == 0 {
      return false, 0;
    }
    var clamped := value % (2 * Half(dataSize));
    return clamped == value, value;
  }

  method ReadSVarint(s: Stream, dataSize: nat) returns (ok: bool, n: int)
    requires s.Valid()
    modifies s
    ensures Kept(s, ok) && ok == D.DecodeSVarint(dataSize, old(s.Rest())).Some?
    ensures ok ==> (n, s.Rest()) == D.DecodeSVarint(dataSize, old(s.Rest())).value
  {
    hide Varint.Decode64, ToSigned;
    var value;
    ok, value := DecodeVarint64(s);
    if !ok || Half(dataSize) == 0 {
      return false, 0;
    }
    var svalue := Varint.UnZigZag(value);
    var clamped := ToSigned(svalue, dataSize);
    return clamped == svalue, svalue;
  }

  method ReadBytes(s: Stream, dataSize: nat) returns (ok: bool, b: seq<byte>)
    requires s.Valid()
    modifies s
    ensures Kept(s, ok) && ok == D.DecodeBytes(dataSize, old(s.Rest())).Some?
    ensures ok ==> (b, s.Rest()) == D.DecodeBytes(dataSize, old(s.Rest())).value
  {
    hide Varint.Decode32;
    var size;
    ok, size := DecodeVarint32(s);
    if !ok || size > SIZE_MAX || size + BYTES_HEADER > dataSize {
      return false, [];
    }
    ok, b := Read(s, size);
  }

  method ReadString(s: Stream, dataSize: nat) returns (ok: bool, b: seq<byte>)
    requires s.Valid()
    modifies s
    ensures Kept(s, ok) && ok == D.DecodeString(dataSize, old(s.Rest())).Some?
    ensures ok ==> (b, s.Rest()) == D.DecodeString(dataSize, old(s.Rest())).value
  {
    hide Varint.Decode32, D.UpToNul;
    var size;
    ok, size := DecodeVarint32(s);
    if !ok {
      return false, [];
    }
    var allocSize := (size + 1) % TWO_32;
    if allocSize < size || allocSize > dataSize {
      return false, [];
    }
    ok, b := Read(s, size);
    if ok {
      b := D.UpToNul(b);
    }
  }

  method ReadFixedBytes(s: Stream, dataSize: nat) returns (ok: bool, b: seq<byte>)
    requires s.Valid()
    modifies s
    ensures Kept(s, ok) && ok == D.DecodeFixedBytes(dataSize, old(s.Rest())).Some?
    ensures ok ==> (b, s.Rest()) == D.DecodeFixedBytes(dataSize, old(s.Rest())).value
  {
    hide Varint.Decode32;
    var size;
    ok, size := DecodeVarint32(s);
    if !ok || size > SIZE_MAX {
      return false, [];
    }
    if size == 0 {
      return true, seq(dataSize, _ => 0);
    }
    if size != dataSize {
      return false, [];
    }
    ok, b := Read(s, dataSize);
  }

  method ReadScalar(s: Stream, f: FieldDesc) returns (ok: bool, v: Value)
    requires s.Valid() && !f.kind.SubmessageKind?
    modifies s
    ensures Kept(s, ok) && ok == D.DecodeScalar(f, old(s.Rest())).Some?
    ensures ok ==> (v, s.Rest()) == D.DecodeScalar(f, old(s.Rest())).value
  {
    hide D.DecodeVarint, D.DecodeUVarint, D.DecodeSVarint, D.DecodeBytes, D.DecodeString, D.DecodeFixedBytes;
    hide Varint.FixedValue;
    var n: int, b: seq<byte>;
    match f.kind
    case VarintKind =>
      ok, n := ReadVarint(s, f.dataSize);
      v := Int(n);
    case UVarintKind =>
      ok, n := ReadUVarint(s, f.dataSize);
      v := Int(n);
    case SVarintKind =>
      ok, n := ReadSVarint(s, f.dataSize);
      v := Int(n);
    case Fixed32Kind =>
      ok, b := Read(s, 4);
      v := Int(Varint.FixedValue(b));
    case Fixed64Kind =>
      ok, b := Read(s, 8);
      v := Int(Varint.FixedValue(b));
    case BytesKind =>
      ok, b := ReadBytes(s, f.dataSize);
      v := Blob(b);
    case StringKind =>
      ok, b := ReadString(s, f.dataSize);
      v := Blob(b);
    case FixedBytesKind =>
      ok, b := ReadFixedBytes(s, f.dataSize);
      v := Blob(b);
  }

  // ---------- Values and fields ----------

  /** PB_DECODERS: one reader per kind of value. */
  method ReadValue(s: Stream, f: FieldDesc, prior: Value) returns (ok: bool, v: Value)
    requires s.Valid() && WellFormedField(f) && ValidValue(f, prior)
    modifies s
    ensures Kept(s, ok) && ok == D.DecodeValue(f, prior, old(s.Rest())).Some?
    ensures ok ==> (v, s.Rest()) == D.DecodeValue(f, prior, old(s.Rest())).value
    decreases f, 0
  {
    hide D.DecodeScalar, ValidValue, WellFormedField, D.Substream;
    if f.kind.SubmessageKind? {
      D.SubmessageParts(f, prior);
      var sub;
      ok, sub := MakeSubstream(s);
      if !ok {
        return false, prior;
      }
      var inner := new Message(f.kind.fields, prior.slots);
      var status := DecodeNoinit(sub, inner);
      CloseSubstream(s, sub);
      return status, Struct(inner.slots);
    } else {
      ok, v := ReadScalar(s, f);
    }
  }

  /** The packed branch of decode_static_field. */
  method ReadPacked(s: Stream, f: FieldDesc, items: seq<Value>) returns (ok: bool, r: seq<Value>)
    requires s.Valid() && WellFormedField(f) && Packable(f.kind)
    requires |items| <= f.arraySize && forall i :: 0 <= i < |items| ==> ValidValue(f, items[i])
    modifies s
    ensures Kept(s, ok)
    ensures ok == D.DecodePacked(f, items, old(s.Rest())).Some?
    ensures ok ==> r == D.DecodePacked(f, items, old(s.Rest())).value && s.bytesLeft == 0
    decreases f, 1
  {
    hide D.DecodeValue, ValidValue, WellFormedField;
    r := items;
    ghost var all := s.Rest();
    while s.bytesLeft > 0 && |r| < f.arraySize
      invariant Kept(s, true)
      invariant |r| <= f.arraySize && forall i :: 0 <= i < |r| ==> ValidValue(f, r[i])
      invariant D.DecodePacked(f, items, all) == D.DecodePacked(f, r, s.Rest())
      decreases f.arraySize - |r|
    {
      var v;
      ok, v := ReadValue(s, f, D.InitialOf(f));
      if !ok {
        return false, r;
      }
      r := r + [v];
    }
    return s.bytesLeft == 0, r;
  }

  /** decode_static_field: the new contents of the field's slot. */
  method ReadField(s: Stream, f: FieldDesc, slot: Slot, wireType: nat) returns (ok: bool, r: Slot)
    requires s.Valid() && WellFormedField(f) && ValidSlot(f, slot)
    modifies s
    ensures Kept(s, ok) && ok == D.DecodeField(f, slot, wireType, old(s.Rest())).Some?
    ensures ok ==> (r, s.Rest()) == D.DecodeField(f, slot, wireType, old(s.Rest())).value
    decreases f, 2
  {
    hide D.DecodeValue, D.DecodePacked, D.Substream, ValidValue, WellFormedField;
    var v;
    match f.rule
    case Required =>
      ok, v := ReadValue(s, f, slot.v);
      r := One(v);
    case Singular =>
      ok, v := ReadValue(s, f, slot.v);
      r := One(v);
    case Optional =>
      ok, v := ReadValue(s, f, slot.v);
      r := Opt(true, v);
    case Repeated =>
      if wireType == WT_STRING && Packable(f.kind) {
        var sub, items;
        ok, sub := MakeSubstream(s);
        if !ok {
          return false, slot;
        }
        ok, items := ReadPacked(sub, f, slot.items);
        if !ok {
          return false, slot;
        }
        CloseSubstream(s, sub);
        r := Many(items);
      } else {
        if |slot.items| >= f.arraySize {
          return false, slot;
        }
        ok, v := ReadValue(s, f, D.InitialOf(f));
        r := Many(slot.items + [v]);
      }
    case Oneof(_) =>
      ok, v := ReadValue(s, f, D.InitialOf(f));
      r := Member(Some(v));
  }

  // ---------- The field loop ----------

  /** The mask holds exactly the indices of the required fields met so far, up to the 64th. */
  ghost predicate MaskMatches(fields: seq<FieldDesc>, seen: set<nat>, mask: FieldsSeen)
    requires mask.Valid()
    reads mask, mask.words
  {
    && (forall i :: 0 <= i < |fields| && fields[i].rule.Required? && RequiredBefore(fields, i) < 64 ==>
          (mask.Has(RequiredBefore(fields, i)) <==> i in seen))
    && (forall r: nat :: r < 64 && mask.Has(r) ==> r < RequiredBefore(fields, |fields|))
  }

  /** Every required index below the count belongs to some required field. */
  lemma {:induction false} RequiredIndexed(fields: seq<FieldDesc>, n: nat, r: nat) returns (i: nat)
    requires n <= |fields| && r < RequiredBefore(fields, n)
    ensures i < n && fields[i].rule.Required? && RequiredBefore(fields, i) == r
  {
    if RequiredBefore(fields, n - 1) <= r {
      i := n - 1;
    } else {
      i := RequiredIndexed(fields, n - 1, r);
    }
  }

  lemma RequiredInjective(fields: seq<FieldDesc>, i: nat, j: nat)
    requires i < |fields| && j < |fields| && fields[i].rule.Required? && fields[j].rule.Required?
    requires RequiredBefore(fields, i) == RequiredBefore(fields, j)
    ensures i == j
  {
    var (a, b) := if i < j then (i, j) else (j, i);
    if a < b {
      RequiredBeforeMonotone(fields, a + 1, b);
    }
  }

  /** Notes a required field; those beyond the 64th are not tracked. */
  method MarkField(mask: FieldsSeen, fields: seq<FieldDesc>, i: nat, requiredIndex: nat, ghost seen: set<nat>)
    requires mask.Valid() && i < |fields| && MaskMatches(fields, seen, mask)
    requires requiredIndex == RequiredBefore(fields, i)
    modifies mask.words
    ensures mask.Valid() && MaskMatches(fields, if fields[i].rule.Required? then seen + {i} else seen, mask)
  {
    if fields[i].rule.Required? && requiredIndex < D.MAX_REQUIRED_FIELDS {
      mask.Mark(requiredIndex);
      RequiredBeforeMonotone(fields, i + 1, |fields|);
      forall j | 0 <= j < |fields| && fields[j].rule.Required? && RequiredBefore(fields, j) < 64
        ensures mask.Has(RequiredBefore(fields, j)) <==> j in seen + {i}
      {
        if RequiredBefore(fields, j) == requiredIndex {
          RequiredInjective(fields, i, j);
        }
      }
    }
  }

  /** The final mask test is the test that each of the first 64 required fields was met. */
  method CheckRequired(mask: FieldsSeen, iter: Iterator, ghost seen: set<nat>) returns (ok: bool)
    requires mask.Valid() && iter.Valid() && MaskMatches(iter.start, seen, mask)
    requires forall i :: 0 <= i < |iter.start| ==> iter.start[i].tag != 0
    modifies iter
    ensures ok == D.RequiredSeen(iter.start, seen)
  {
    var count := iter.CountRequired();
    if count > D.MAX_REQUIRED_FIELDS {
      count := D.MAX_REQUIRED_FIELDS;
    }
    ok := true;
    if count > 0 {
      ok := mask.Complete(count);
    }
    if ok {
      forall i | 0 <= i < |iter.start| && iter.start[i].rule.Required? && RequiredBefore(iter.start, i) < 64
        ensures i in seen
      {
        RequiredBeforeMonotone(iter.start, i + 1, |iter.start|);
        assert mask.Has(RequiredBefore(iter.start, i));
      }
    } else {
      ghost var r: nat :| r < count && !mask.Has(r);
      ghost var i := RequiredIndexed(iter.start, |iter.start|, r);
      assert i !in seen;
    }
  }

  lemma TagsNonZero(fields: seq<FieldDesc>)
    requires WellFormed(fields)
    ensures DistinctTags(fields) && forall i :: 0 <= i < |fields| ==> fields[i].tag != 0
  {
  }

  /** The body of the field loop after the tag was read. */
  method DecodeOne(s: Stream, dest: Message, iter: Iterator, mask: FieldsSeen, tag: nat, wireType: nat, ghost seen: set<nat>)
    returns (ok: bool, ghost next: set<nat>)
    requires s.Valid() && dest.Valid() && iter.Valid() && mask.Valid()
    requires iter.start == dest.fields && MaskMatches(dest.fields, seen, mask)
    modifies s, dest, iter, mask.words
    ensures Kept(s, ok) && dest.Valid() && iter.Valid() && mask.Valid()
    ensures var p := D.DecodeRecord(dest.fields, old(dest.slots), seen, tag, wireType, old(s.Rest()));
      && ok == p.Some?
      && (ok ==> p.value == D.Progress(dest.slots, next, s.Rest()) && MaskMatches(dest.fields, next, mask))
    decreases dest.fields, 3
  {
    hide D.DecodeField, D.SkipField, Descriptor.Valid, WellFormed, MaskMatches, RequiredBefore, DataOffset, SizeOffset;
    var fields := dest.fields;
    next := seen;
    TagsNonZero(fields);
    var found := iter.Find(tag);
    if !found {
      ok := SkipField(s, wireType);
      return;
    }
    if fields == [] {
      return false, seen;
    }
    var i := iter.pos;
    ghost var bytes := s.Rest();
    MarkField(mask, fields, i, iter.requiredFieldIndex, seen);
    FieldAt(fields, dest.slots, i);
    var slot;
    ok, slot := ReadField(s, fields[i], dest.slots[i], wireType);
    if ok {
      D.StoreValid(fields, dest.slots, i, slot);
      next := if fields[i].rule.Required? then seen + {i} else seen;
      dest.slots := D.Store(fields, dest.slots, i, slot);
    }
  }

  /** pb_decode_noinit. */
  method DecodeNoinit(s: Stream, dest: Message) returns (ok: bool)
    requires s.Valid() && dest.Valid()
    modifies s, dest
    ensures Kept(s, ok) && dest.Valid()
    ensures ok == D.DecodeMessage(dest.fields, old(dest.slots), old(s.Rest())).Some?
    ensures ok ==> (dest.slots, s.Rest()) == D.DecodeMessage(dest.fields, old(dest.slots), old(s.Rest())).value
    decreases dest.fields, 4
  {
    hide D.DecodeRecord, Varint.Decode32, Descriptor.Valid, WellFormed, D.RequiredSeen, MaskMatches;
    var mask := new FieldsSeen();
    var iter := new Iterator(dest.fields);
    var fields := dest.fields;
    ghost var seen: set<nat> := {};
    ghost var all, before := s.Rest(), dest.slots;
    TagsNonZero(fields);
    NothingMet(fields, mask);
    while s.bytesLeft > 0
      invariant Kept(s, true) && dest.Valid() && iter.Valid() && mask.Valid()
      invariant fresh(mask) && fresh(mask.words) && fresh(iter) && iter.start == fields
      invariant MaskMatches(fields, seen, mask)
      invariant D.DecodeLoop(fields, before, {}, all) == D.DecodeLoop(fields, dest.slots, seen, s.Rest())
      decreases s.bytesLeft
    {
      var word, eof;
      ok, word, eof := DecodeVarint32Eof(s);
      if !ok {
        return false;
      }
      if word == 0 {
        ok := CheckRequired(mask, iter, seen);
        return;
      }
      ok, seen := DecodeOne(s, dest, iter, mask, word / 8, word % 8, seen);
      if !ok {
        return false;
      }
    }
    ok := CheckRequired(mask, iter, seen);
  }

  lemma NothingMet(fields: seq<FieldDesc>, mask: FieldsSeen)
    requires mask.Valid() && forall r: nat :: r < 64 ==> !mask.Has(r)
    ensures MaskMatches(fields, {}, mask)
  {
  }

  /** pb_decode. */
  method Decode(s: Stream, fields: seq<FieldDesc>) returns (ok: bool, dest: Message)
    requires s.Valid() && WellFormed(fields)
    modifies s
    ensures Kept(s, ok) && fresh(dest) && dest.fields == fields && dest.Valid()
    ensures ok == D.Decode(fields, old(s.Rest())).Some?
    ensures ok ==> (dest.slots, s.Rest()) == D.Decode(fields, old(s.Rest())).value
  {
    DefaultsValid(fields);
    dest := new Message(fields, Defaults(fields));
    ok := DecodeNoinit(s, dest);
  }
}
