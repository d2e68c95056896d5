/**
  * What the decoder computes from the bytes of a stream. A stream is the sequence of bytes it may
  * still read; every reader returns its value and the bytes it left. None stands for a failed call.
  */
module DecodeSpec {
  import opened Wire
  import Varint
  import opened Descriptor
  import opened EncodeSpec
  import opened FieldIter

  const MAX_REQUIRED_FIELDS := 64

  function Read(s: seq<byte>, count: nat): (r: Option<(seq<byte>, seq<byte>)>)
    ensures r.Some? ==> |r.value.1| <= |s|
  {
    if |s| < count then None else Some((s[..count], s[count..]))
  }

  function SkipVarint(s: seq<byte>): (r: Option<seq<byte>>)
    ensures r.Some? ==> |r.value| < |s|
  {
    if s == [] then None
    else if s[0] >= 128 then SkipVarint(s[1..])
    else Some(s[1..])
  }

  function Skip(s: seq<byte>, count: nat): (r: Option<seq<byte>>)
    ensures r.Some? ==> |r.value| <= |s|
  {
    if |s| < count then None else Some(s[count..])
  }

  function SkipField(s: seq<byte>, wireType: nat): (r: Option<seq<byte>>)
    ensures r.Some? ==> |r.value| <= |s|
  {
    if wireType == WT_VARINT then SkipVarint(s)
    else if wireType == WT_64BIT then Skip(s, 8)
    else if wireType == WT_STRING then
      var (size, rest) :- Varint.Decode32(s).ToOption();
      Skip(rest, size)
    else if wireType == WT_32BIT then Skip(s, 4)
    else None
  }

  /** A length prefix splits the stream into a substream and what follows it. */
  function Substream(s: seq<byte>): (r: Option<(seq<byte>, seq<byte>)>)
    ensures r.Some? ==> |r.value.0| < |s| && |r.value.1| < |s|
  {
    var (size, rest) :- Varint.Decode32(s).ToOption();
    if |rest| < size then None else Some((rest[..size], rest[size..]))
  }

  /** The varint at the start ends with its first byte below 128. */
  predicate EndsAt(s: seq<byte>, n: nat) {
    n < |s| && s[n] < 128 && forall j :: 0 <= j < n ==> s[j] >= 128
  }

  /** What is left behind a field body, by the number of bytes each wire type stands for. */
  ghost predicate Skips(s: seq<byte>, wireType: nat, rest: seq<byte>) {
    match wireType
    case 0 => exists n: nat :: EndsAt(s, n) && rest == s[n + 1..]
    case 1 => |s| >= 8 && rest == s[8..]
    case 2 => Substream(s).Some? && rest == Substream(s).value.1
    case 5 => |s| >= 4 && rest == s[4..]
    case _ => false
  }

  lemma {:induction false} SkipVarintExactly(s: seq<byte>, rest: seq<byte>)
    ensures SkipVarint(s) == Some(rest) <==> exists n: nat :: EndsAt(s, n) && rest == s[n + 1..]
  {
    if s != [] && s[0] >= 128 {
      SkipVarintExactly(s[1..], rest);
      if SkipVarint(s) == Some(rest) {
        var n: nat :| EndsAt(s[1..], n) && rest == s[1..][n + 1..];
        assert EndsAt(s, n + 1) && rest == s[n + 2..];
      }
      if n: nat :| EndsAt(s, n) && rest == s[n + 1..] {
        assert EndsAt(s[1..], n - 1) && rest == s[1..][n..];
      }
    } else if s != [] {
      assert EndsAt(s, 0);
    }
  }

  /** Skipping a field succeeds exactly if the body is complete, and leaves what is behind it. */
  lemma SkipExactly(s: seq<byte>, wireType: nat, rest: seq<byte>)
    ensures SkipField(s, wireType) == Some(rest) <==> Skips(s, wireType, rest)
  {
    hide Varint.Decode32, SkipVarint;
    if wireType == 0 {
      SkipVarintExactly(s, rest);
    }
  }

  // ---------- Scalars ----------

  function NarrowSigned(svalue: int, dataSize: nat): Option<int> {
    if Half(dataSize) == 0 then None
    else if ToSigned(svalue, dataSize) != svalue then None
    else Some(svalue)
  }

  function NarrowUnsigned(value: int, dataSize: nat): Option<int> {
    if Half(dataSize) == 0 then None
    else if value % (2 * Half(dataSize)) != value then None
    else Some(value)
  }

  /** Varints of fields of at most 32 bits are cast to int32 before the range check. */
  function DecodeVarint(dataSize: nat, s: seq<byte>): (r: Option<(int, seq<byte>)>)
    ensures r.Some? ==> |r.value.1| < |s|
  {
    var (value, rest) :- Varint.Decode64(s).ToOption();
    var n :- NarrowSigned(ToSigned(value, if dataSize == 8 then 8 else 4), dataSize);
    Some((n, rest))
  }

  function DecodeUVarint(dataSize: nat, s: seq<byte>): (r: Option<(int, seq<byte>)>)
    ensures r.Some? ==> |r.value.1| < |s|
  {
    var (value, rest) :- Varint.Decode64(s).ToOption();
    var n :- NarrowUnsigned(value, dataSize);
    Some((n, rest))
  }

  function DecodeSVarint(dataSize: nat, s: seq<byte>): (r: Option<(int, seq<byte>)>)
    ensures r.Some? ==> |r.value.1| < |s|
  {
    var (value, rest) :- Varint.Decode64(s).ToOption();
    var n :- NarrowSigned(Varint.UnZigZag(value), dataSize);
    Some((n, rest))
  }

  /** The C string in a buffer that holds these bytes and a terminator. */
  function UpToNul(b: seq<byte>): (r: seq<byte>)
    ensures |r| <= |b| && 0 !in r
    ensures 0 !in b ==> r == b
  {
    if b == [] || b[0] == 0 then [] else [b[0]] + UpToNul(b[1..])
  }

  function DecodeBytes(dataSize: nat, s: seq<byte>): (r: Option<(seq<byte>, seq<byte>)>)
    ensures r.Some? ==> |r.value.1| < |s| && |r.value.0| <= SIZE_MAX && |r.value.0| + BYTES_HEADER <= dataSize
  {
    var (size, rest) :- Varint.Decode32(s).ToOption();
    if size > SIZE_MAX || size + BYTES_HEADER > dataSize then None else Read(rest, size)
  }

  /** The allocation size is computed in 32 bits, so the largest length wraps and is refused first. */
  function DecodeString(dataSize: nat, s: seq<byte>): (r: Option<(seq<byte>, seq<byte>)>)
    ensures r.Some? ==> |r.value.1| < |s| && |r.value.0| + 1 <= dataSize && 0 !in r.value.0
  {
    var (size, rest) :- Varint.Decode32(s).ToOption();
    var allocSize := (size + 1) % TWO_32;
    if allocSize < size || allocSize > dataSize then None
    else
      var (b, rest') :- Read(rest, size);
      Some((UpToNul(b), rest'))
  }

  /** An empty string stands for all zeros. */
  function DecodeFixedBytes(dataSize: nat, s: seq<byte>): (r: Option<(seq<byte>, seq<byte>)>)
    ensures r.Some? ==> |r.value.1| < |s| && |r.value.0| == dataSize
  {
    var (size, rest) :- Varint.Decode32(s).ToOption();
    if size > SIZE_MAX then None
    else if size == 0 then Some((seq(dataSize, _ => 0), rest))
    else if size != dataSize then None
    else Read(rest, dataSize)
  }

  /** The readers that do not recurse into a message. */
  function DecodeScalar(f: FieldDesc, s: seq<byte>): (r: Option<(Value, seq<byte>)>)
    requires !f.kind.SubmessageKind?
    ensures r.Some? ==> |r.value.1| < |s|
  {
    match f.kind
    case VarintKind =>
      var (n, rest) :- DecodeVarint(f.dataSize, s);
      Some((Int(n), rest))
    case UVarintKind =>
      var (n, rest) :- DecodeUVarint(f.dataSize, s);
      Some((Int(n), rest))
    case SVarintKind =>
      var (n, rest) :- DecodeSVarint(f.dataSize, s);
      Some((Int(n), rest))
    case Fixed32Kind =>
      var (b, rest) :- Read(s, 4);
      Some((Int(Varint.FixedValue(b)), rest))
    case Fixed64Kind =>
      var (b, rest) :- Read(s, 8);
      Some((Int(Varint.FixedValue(b)), rest))
    case BytesKind =>
      var (b, rest) :- DecodeBytes(f.dataSize, s);
      Some((Blob(b), rest))
    case StringKind =>
      var (b, rest) :- DecodeString(f.dataSize, s);
      Some((Blob(b), rest))
    case FixedBytesKind =>
      var (b, rest) :- DecodeFixedBytes(f.dataSize, s);
      Some((Blob(b), rest))
  }

  lemma VarintValid(f: FieldDesc, s: seq<byte>)
    requires f.kind.VarintKind? || f.kind.UVarintKind? || f.kind.SVarintKind?
    requires WellFormedKind(f) && DecodeScalar(f, s).Some?
    ensures ValidValue(f, DecodeScalar(f, s).value.0)
  {
  }

  lemma FixedValid(f: FieldDesc, s: seq<byte>)
    requires f.kind.Fixed32Kind? || f.kind.Fixed64Kind?
    requires WellFormedKind(f) && DecodeScalar(f, s).Some?
    ensures ValidValue(f, DecodeScalar(f, s).value.0)
  {
    Pow2Constants();
    Varint.FixedValueBound(Read(s, f.dataSize).value.0);
  }

  lemma BlobValid(f: FieldDesc, s: seq<byte>)
    requires f.kind.BytesKind? || f.kind.StringKind? || f.kind.FixedBytesKind?
    requires WellFormedKind(f) && DecodeScalar(f, s).Some?
    ensures ValidValue(f, DecodeScalar(f, s).value.0)
  {
    hide DecodeBytes, DecodeString, DecodeFixedBytes;
  }

  lemma {:induction false} ScalarValid(f: FieldDesc, s: seq<byte>)
    requires !f.kind.SubmessageKind? && WellFormedKind(f) && DecodeScalar(f, s).Some?
    ensures ValidValue(f, DecodeScalar(f, s).value.0)
  {
    hide DecodeScalar, ValidValue, WellFormedKind;
    if f.kind.Fixed32Kind? || f.kind.Fixed64Kind? {
      FixedValid(f, s);
    } else if f.kind.BytesKind? || f.kind.StringKind? || f.kind.FixedBytesKind? {
      BlobValid(f, s);
    } else {
      VarintValid(f, s);
    }
  }

  // ---------- Fields, records, messages ----------

  /** Storing into a union member deselects the others. */
  function Store(fields: seq<FieldDesc>, slots: seq<Slot>, i: nat, slot: Slot): (r: seq<Slot>)
    requires |slots| == |fields| && i < |fields|
    ensures |r| == |fields|
  {
    seq(|fields|, j requires 0 <= j < |fields| =>
      if j == i then slot else if SameUnion(fields[i], fields[j]) then Member(None) else slots[j])
  }

  lemma StoreValid(fields: seq<FieldDesc>, slots: seq<Slot>, i: nat, slot: Slot)
    requires Valid(fields, slots) && i < |fields| && ValidSlot(fields[i], slot)
    ensures Valid(fields, Store(fields, slots, i, slot))
  {
    hide ValidValue;
    var r := Store(fields, slots, i, slot);
    forall j | 0 <= j < |fields|
      ensures ValidSlot(fields[j], r[j])
    {
    }
  }

  lemma SubmessageParts(f: FieldDesc, v: Value)
    requires WellFormedField(f) && f.kind.SubmessageKind? && ValidValue(f, v)
    ensures WellFormed(f.kind.fields) && v.Struct? && Valid(f.kind.fields, v.slots)
  {
  }

  lemma StructValid(f: FieldDesc, slots: seq<Slot>)
    requires f.kind.SubmessageKind? && Valid(f.kind.fields, slots)
    ensures ValidValue(f, Struct(slots))
  {
    ValidIsShaped(f.kind.fields, slots);
  }

  /** A value of field `f`; `prior` is what its storage holds, and only messages are merged into it. */
  function DecodeValue(f: FieldDesc, prior: Value, s: seq<byte>): (r: Option<(Value, seq<byte>)>)
    requires WellFormedField(f) && ValidValue(f, prior)
    ensures r.Some? ==> |r.value.1| < |s| && ValidValue(f, r.value.0)
    decreases f, 0, |s|
  {
    if f.kind.SubmessageKind? then
      SubmessageParts(f, prior);
      var (sub, rest) :- Substream(s);
      var (slots, _) :- DecodeMessage(f.kind.fields, prior.slots, sub);
      StructValid(f, slots);
      Some((Struct(slots), rest))
    else
      if DecodeScalar(f, s).Some? then ScalarValid(f, s); DecodeScalar(f, s) else None
  }

  /** The elements of a packed array up to the end of its substream, which must be reached. */
  function DecodePacked(f: FieldDesc, items: seq<Value>, s: seq<byte>): (r: Option<seq<Value>>)
    requires WellFormedField(f) && Packable(f.kind)
    requires |items| <= f.arraySize && forall i :: 0 <= i < |items| ==> ValidValue(f, items[i])
    ensures r.Some? ==> |r.value| <= f.arraySize && forall i :: 0 <= i < |r.value| ==> ValidValue(f, r.value[i])
    decreases f, 1, |s|
  {
    if s == [] then Some(items)
    else if |items| >= f.arraySize then None
    else
      var (v, rest) :- DecodeValue(f, InitialOf(f), s);
      DecodePacked(f, items + [v], rest)
  }

  function InitialOf(f: FieldDesc): (v: Value)
    requires WellFormedField(f)
    ensures ValidValue(f, v) && v == InitialValue(f)
  {
    InitialValid(f);
    InitialValue(f)
  }

  /** decode_static_field. */
  function DecodeField(f: FieldDesc, slot: Slot, wireType: nat, s: seq<byte>): (r: Option<(Slot, seq<byte>)>)
    requires WellFormedField(f) && ValidSlot(f, slot)
    ensures r.Some? ==> |r.value.1| < |s| && ValidSlot(f, r.value.0)
    decreases f, 2, |s|
  {
    match f.rule
    case Required =>
      var (v, rest) :- DecodeValue(f, slot.v, s);
      Some((One(v), rest))
    case Singular =>
      var (v, rest) :- DecodeValue(f, slot.v, s);
      Some((One(v), rest))
    case Optional =>
      var (v, rest) :- DecodeValue(f, slot.v, s);
      Some((Opt(true, v), rest))
    case Repeated =>
      if wireType == WT_STRING && Packable(f.kind) then
        var (sub, rest) :- Substream(s);
        var items :- DecodePacked(f, slot.items, sub);
        Some((Many(items), rest))
      else if |slot.items| >= f.arraySize then None
      else
        var (v, rest) :- DecodeValue(f, InitialOf(f), s);
        Some((Many(slot.items + [v]), rest))
    case Oneof(_) =>
      var (v, rest) :- DecodeValue(f, InitialOf(f), s);
      Some((Member(Some(v)), rest))
  }

  /** The struct so far, the required fields met, and the bytes not yet read. */
  datatype Progress = Progress(slots: seq<Slot>, seen: set<nat>, rest: seq<byte>)

  /**
    * One record after its tag. An unknown tag is skipped; but the search in an empty message stops at
    * its terminator for tag 0, whose data size of zero makes the varint reader fail.
    */
  function DecodeRecord(fields: seq<FieldDesc>, slots: seq<Slot>, seen: set<nat>, tag: nat, wireType: nat, s: seq<byte>)
    : (r: Option<Progress>)
    requires WellFormed(fields) && Valid(fields, slots)
    ensures r.Some? ==> |r.value.rest| <= |s| && Valid(fields, r.value.slots) && seen <= r.value.seen
    decreases fields, 3, |s|
  {
    match IndexOf(fields, tag)
    case None =>
      if fields == [] && tag == 0 then None
      else
        var rest :- SkipField(s, wireType);
        Some(Progress(slots, seen, rest))
    case Some(i) =>
      var f := fields[i];
      var (slot, rest) :- DecodeField(f, slots[i], wireType, s);
      StoreValid(fields, slots, i, slot);
      Some(Progress(Store(fields, slots, i, slot), if f.rule.Required? then seen + {i} else seen, rest))
  }

  /** The field loop: it ends with the stream or at a zero tag. */
  function DecodeLoop(fields: seq<FieldDesc>, slots: seq<Slot>, seen: set<nat>, s: seq<byte>): (r: Option<Progress>)
    requires WellFormed(fields) && Valid(fields, slots)
    ensures r.Some? ==> |r.value.rest| <= |s| && Valid(fields, r.value.slots) && seen <= r.value.seen
    decreases fields, 4, |s|
  {
    if s == [] then Some(Progress(slots, seen, []))
    else
      var (word, rest) :- Varint.Decode32(s).ToOption();
      if word == 0 then Some(Progress(slots, seen, rest))
      else
        var p :- DecodeRecord(fields, slots, seen, word / 8, word % 8, rest);
        DecodeLoop(fields, p.slots, p.seen, p.rest)
  }

  /** Each of the first 64 required fields was met. */
  predicate RequiredSeen(fields: seq<FieldDesc>, seen: set<nat>) {
    forall i :: 0 <= i < |fields| && fields[i].rule.Required? && RequiredBefore(fields, i) < MAX_REQUIRED_FIELDS ==> i in seen
  }

  /** pb_decode_noinit: the new struct and the bytes behind a zero tag, if one ended the message. */
  function DecodeMessage(fields: seq<FieldDesc>, slots: seq<Slot>, s: seq<byte>): (r: Option<(seq<Slot>, seq<byte>)>)
    requires WellFormed(fields) && Valid(fields, slots)
    ensures r.Some? ==> |r.value.1| <= |s| && Valid(fields, r.value.0)
    decreases fields, 5, |s|
  {
    var p :- DecodeLoop(fields, slots, {}, s);
    if RequiredSeen(fields, p.seen) then Some((p.slots, p.rest)) else None
  }

  /** pb_decode starts from the defaults. */
  function Decode(fields: seq<FieldDesc>, s: seq<byte>): (r: Option<(seq<Slot>, seq<byte>)>)
    requires WellFormed(fields)
    ensures r.Some? ==> |r.value.1| <= |s| && Valid(fields, r.value.0)
  {
    DefaultsValid(fields);
    DecodeMessage(fields, Defaults(fields), s)
  }
}
