/**
  * Decoding as an action of records on structs: concatenation is composition, records of unrelated
  * fields commute, and unknown records do nothing.
  */
module RecordAlgebra {
  import opened Wire
  import Varint
  import opened Descriptor
  import opened FieldIter
  import opened EncodeSpec
  import opened DecodeSpec
  import RoundTrip

  // ---------- More input after what a reader consumes makes no difference ----------

  lemma {:induction false} Decode64Extends(s: seq<byte>, bitpos: nat, result: nat, t: seq<byte>)
    requires Varint.Decode64From(s, bitpos, result).Ok?
    ensures var (v, rest) := Varint.Decode64From(s, bitpos, result).value;
      Varint.Decode64From(s + t, bitpos, result) == Ok((v, rest + t))
    decreases |s|
  {
    hide BitOr, Pow2;
    assert (s + t)[1..] == s[1..] + t;
    if s[0] >= 128 {
      Decode64Extends(s[1..], bitpos + 7, BitOr(result, (s[0] % 128 * Pow2(bitpos)) % TWO_64), t);
    }
  }

  lemma {:induction false} Decode32FromExtends(s: seq<byte>, bitpos: nat, result: nat, t: seq<byte>)
    requires Varint.Decode32From(s, bitpos, result).Ok?
    ensures var (v, rest) := Varint.Decode32From(s, bitpos, result).value;
      Varint.Decode32From(s + t, bitpos, result) == Ok((v, rest + t))
    decreases |s|
  {
    hide BitOr, Pow2;
    assert (s + t)[1..] == s[1..] + t;
    if s[0] >= 128 {
      var next := if bitpos >= 32 then result else BitOr(result, (s[0] % 128 * Pow2(bitpos)) % TWO_32);
      Decode32FromExtends(s[1..], (bitpos + 7) % 256, next, t);
    }
  }

  lemma Decode32Extends(s: seq<byte>, t: seq<byte>)
    requires Varint.Decode32(s).Ok?
    ensures var (v, rest) := Varint.Decode32(s).value; Varint.Decode32(s + t) == Ok((v, rest + t))
  {
    hide Varint.Decode32From;
    assert (s + t)[1..] == s[1..] + t;
    if s[0] >= 128 {
      Decode32FromExtends(s[1..], 7, s[0] % 128, t);
    }
  }

  lemma ReadExtends(s: seq<byte>, count: nat, t: seq<byte>)
    requires count <= |s|
    ensures (s + t)[..count] == s[..count] && (s + t)[count..] == s[count..] + t
  {
  }

  lemma {:induction false} SkipVarintExtends(s: seq<byte>, t: seq<byte>)
    requires SkipVarint(s).Some?
    ensures SkipVarint(s + t) == Some(SkipVarint(s).value + t)
  {
    assert (s + t)[1..] == s[1..] + t;
    if s[0] >= 128 {
      SkipVarintExtends(s[1..], t);
    }
  }

  lemma SkipFieldExtends(s: seq<byte>, wireType: nat, t: seq<byte>)
    requires SkipField(s, wireType).Some?
    ensures SkipField(s + t, wireType) == Some(SkipField(s, wireType).value + t)
  {
    hide SkipVarint, Varint.Decode32;
    if wireType == WT_VARINT {
      SkipVarintExtends(s, t);
    } else if wireType == WT_STRING {
      var (size, rest) := Varint.Decode32(s).value;
      Decode32Extends(s, t);
      ReadExtends(rest, size, t);
    } else {
      ReadExtends(s, if wireType == WT_64BIT then 8 else 4, t);
    }
  }

  lemma SubstreamExtends(s: seq<byte>, t: seq<byte>)
    requires Substream(s).Some?
    ensures var (inside, after) := Substream(s).value; Substream(s + t) == Some((inside, after + t))
  {
    hide Varint.Decode32;
    var (size, rest) := Varint.Decode32(s).value;
    Decode32Extends(s, t);
    ReadExtends(rest, size, t);
  }

  lemma ScalarExtends(f: FieldDesc, s: seq<byte>, t: seq<byte>)
    requires !f.kind.SubmessageKind? && DecodeScalar(f, s).Some?
    ensures var (v, rest) := DecodeScalar(f, s).value; DecodeScalar(f, s + t) == Some((v, rest + t))
  {
    hide Varint.Decode32, Varint.Decode64From, Varint.FixedValue, ToSigned, Half, UpToNul, Pow2;
    match f.kind
    case Fixed32Kind => ReadExtends(s, 4, t);
    case Fixed64Kind => ReadExtends(s, 8, t);
    case VarintKind => Decode64Extends(s, 0, 0, t);
    case UVarintKind => Decode64Extends(s, 0, 0, t);
    case SVarintKind => Decode64Extends(s, 0, 0, t);
    case BytesKind => PrefixedExtends(s, t);
    case StringKind => PrefixedExtends(s, t);
    case FixedBytesKind => PrefixedExtends(s, t);
  }

  lemma PrefixedExtends(s: seq<byte>, t: seq<byte>)
    requires Varint.Decode32(s).Ok?
    ensures var (size, rest) := Varint.Decode32(s).value;
      && Varint.Decode32(s + t) == Ok((size, rest + t))
      && (Read(rest, size).Some? ==>
            Read(rest + t, size) == Some((Read(rest, size).value.0, Read(rest, size).value.1 + t)))
  {
    var (size, rest) := Varint.Decode32(s).value;
    Decode32Extends(s, t);
    if size <= |rest| {
      ReadExtends(rest, size, t);
    }
  }

  lemma ValueExtends(f: FieldDesc, prior: Value, s: seq<byte>, t: seq<byte>)
    requires WellFormedField(f) && ValidValue(f, prior) && DecodeValue(f, prior, s).Some?
    ensures var (v, rest) := DecodeValue(f, prior, s).value; DecodeValue(f, prior, s + t) == Some((v, rest + t))
  {
    hide Substream, DecodeScalar, DecodeMessage, WellFormedField, ValidValue;
    if f.kind.SubmessageKind? {
      SubstreamExtends(s, t);
    } else {
      ScalarExtends(f, s, t);
    }
  }

  lemma FieldExtends(f: FieldDesc, slot: Slot, wireType: nat, s: seq<byte>, t: seq<byte>)
    requires WellFormedField(f) && ValidSlot(f, slot) && DecodeField(f, slot, wireType, s).Some?
    ensures var (r, rest) := DecodeField(f, slot, wireType, s).value;
      DecodeField(f, slot, wireType, s + t) == Some((r, rest + t))
  {
    hide Substream, DecodeValue, DecodePacked, WellFormedField, ValidValue;
    match f.rule
    case Repeated =>
      if wireType == WT_STRING && Packable(f.kind) {
        SubstreamExtends(s, t);
      } else {
        ValueExtends(f, InitialOf(f), s, t);
      }
    case Oneof(_) => ValueExtends(f, InitialOf(f), s, t);
    case _ => ValueExtends(f, slot.v, s, t);
  }

  lemma RecordExtends(
    fields: seq<FieldDesc>, slots: seq<Slot>, seen: set<nat>, tag: nat, wireType: nat, s: seq<byte>, t: seq<byte>)
    requires WellFormed(fields) && Valid(fields, slots)
    requires DecodeRecord(fields, slots, seen, tag, wireType, s).Some?
    ensures var p := DecodeRecord(fields, slots, seen, tag, wireType, s).value;
      DecodeRecord(fields, slots, seen, tag, wireType, s + t) == Some(p.(rest := p.rest + t))
  {
    hide SkipField, DecodeField, ValidSlot, WellFormedField;
    match IndexOf(fields, tag)
    case None => SkipFieldExtends(s, wireType, t);
    case Some(i) => FieldExtends(fields[i], slots[i], wireType, s, t);
  }

  // ---------- Concatenation is composition ----------

  /** The stream is a sequence of records that this struct accepts, none of them a zero tag. */
  ghost predicate AreRecords(fields: seq<FieldDesc>, slots: seq<Slot>, seen: set<nat>, s: seq<byte>)
    requires WellFormed(fields) && Valid(fields, slots)
    decreases |s|
  {
    s == [] ||
    (Varint.Decode32(s).Ok? &&
     var (word, rest) := Varint.Decode32(s).value;
     word != 0 &&
     var p := DecodeRecord(fields, slots, seen, word / 8, word % 8, rest);
     p.Some? && AreRecords(fields, p.value.slots, p.value.seen, p.value.rest))
  }

  lemma {:induction false} LoopComposes(fields: seq<FieldDesc>, slots: seq<Slot>, seen: set<nat>, a: seq<byte>, b: seq<byte>)
    requires WellFormed(fields) && Valid(fields, slots) && AreRecords(fields, slots, seen, a)
    ensures DecodeLoop(fields, slots, seen, a).Some?
    ensures var p := DecodeLoop(fields, slots, seen, a).value;
      p.rest == [] && DecodeLoop(fields, slots, seen, a + b) == DecodeLoop(fields, p.slots, p.seen, b)
    decreases |a|
  {
    hide DecodeRecord, Varint.Decode32, Valid, WellFormed;
    if a == [] {
      assert a + b == b;
    } else {
      var (word, rest) := Varint.Decode32(a).value;
      var p := DecodeRecord(fields, slots, seen, word / 8, word % 8, rest).value;
      Decode32Extends(a, b);
      RecordExtends(fields, slots, seen, word / 8, word % 8, rest, b);
      LoopComposes(fields, p.slots, p.seen, p.rest, b);
    }
  }

  /** The required fields met so far do not influence the struct. */
  lemma {:induction false} SeenIrrelevant(fields: seq<FieldDesc>, slots: seq<Slot>, x: set<nat>, y: set<nat>, s: seq<byte>)
    requires WellFormed(fields) && Valid(fields, slots)
    ensures var p, q := DecodeLoop(fields, slots, x, s), DecodeLoop(fields, slots, y, s);
      p.Some? == q.Some? && (p.Some? ==> p.value.slots == q.value.slots && p.value.rest == q.value.rest)
    decreases |s|
  {
    hide DecodeField, SkipField, Varint.Decode32, Valid, WellFormed, ValidSlot, WellFormedField, Store;
    if s != [] && Varint.Decode32(s).Ok? {
      var (word, rest) := Varint.Decode32(s).value;
      var p := DecodeRecord(fields, slots, x, word / 8, word % 8, rest);
      var q := DecodeRecord(fields, slots, y, word / 8, word % 8, rest);
      assert p.Some? == q.Some?;
      if word != 0 && p.Some? {
        SeenIrrelevant(fields, p.value.slots, p.value.seen, q.value.seen, p.value.rest);
      }
    }
  }

  ghost predicate NoRequired(fields: seq<FieldDesc>) {
    forall i :: 0 <= i < |fields| ==> !fields[i].rule.Required?
  }

  /** Decoding a ++ b into a struct is decoding a and then b into the same struct. */
  lemma DecodeConcatenation(fields: seq<FieldDesc>, slots: seq<Slot>, a: seq<byte>, b: seq<byte>)
    requires WellFormed(fields) && Valid(fields, slots) && NoRequired(fields) && AreRecords(fields, slots, {}, a)
    ensures DecodeMessage(fields, slots, a).Some?
    ensures DecodeMessage(fields, slots, a + b) == DecodeMessage(fields, DecodeMessage(fields, slots, a).value.0, b)
  {
    hide DecodeRecord, Varint.Decode32, Valid, WellFormed;
    LoopComposes(fields, slots, {}, a, b);
    var p := DecodeLoop(fields, slots, {}, a).value;
    SeenIrrelevant(fields, p.slots, p.seen, {}, b);
  }

  // ---------- Single records ----------

  /** The bytes are exactly one record of field i, and the struct accepts it. */
  ghost predicate IsRecordOf(fields: seq<FieldDesc>, slots: seq<Slot>, i: nat, r: seq<byte>)
    requires WellFormed(fields) && Valid(fields, slots) && i < |fields|
  {
    && Varint.Decode32(r).Ok?
    && var (word, body) := Varint.Decode32(r).value;
    && word / 8 == fields[i].tag
    && var d := DecodeField(fields[i], slots[i], word % 8, body);
    && d.Some? && d.value.1 == []
  }

  /** What that record stores. */
  ghost function Stored(fields: seq<FieldDesc>, slots: seq<Slot>, i: nat, r: seq<byte>): (slot: Slot)
    requires WellFormed(fields) && Valid(fields, slots) && i < |fields| && IsRecordOf(fields, slots, i, r)
    ensures ValidSlot(fields[i], slot)
  {
    var (word, body) := Varint.Decode32(r).value;
    DecodeField(fields[i], slots[i], word % 8, body).value.0
  }

  lemma RecordStep(fields: seq<FieldDesc>, slots: seq<Slot>, seen: set<nat>, i: nat, r: seq<byte>, t: seq<byte>)
    requires WellFormed(fields) && Valid(fields, slots) && i < |fields| && IsRecordOf(fields, slots, i, r)
    ensures Valid(fields, Store(fields, slots, i, Stored(fields, slots, i, r)))
    ensures DecodeLoop(fields, slots, seen, r + t)
         == DecodeLoop(fields, Store(fields, slots, i, Stored(fields, slots, i, r)), RoundTrip.Met(fields, seen, i), t)
  {
    hide DecodeField, Varint.Decode32, Valid, ValidSlot, WellFormedField;
    var (word, body) := Varint.Decode32(r).value;
    FieldAt(fields, slots, i);
    Decode32Extends(r, t);
    FieldExtends(fields[i], slots[i], word % 8, body, t);
    assert [] + t == t;
    IndexOfField(fields, i);
    StoreValid(fields, slots, i, Stored(fields, slots, i, r));
  }

  lemma StoresCommute(fields: seq<FieldDesc>, slots: seq<Slot>, i: nat, x: Slot, j: nat, y: Slot)
    requires |slots| == |fields| && i < |fields| && j < |fields| && i != j && !SameUnion(fields[i], fields[j])
    ensures Store(fields, Store(fields, slots, i, x), j, y) == Store(fields, Store(fields, slots, j, y), i, x)
    ensures Store(fields, slots, i, x)[j] == slots[j] && Store(fields, slots, j, y)[i] == slots[i]
  {
  }

  /** Adjacent records of fields that share no union may be swapped. */
  lemma RecordsCommute(
    fields: seq<FieldDesc>, slots: seq<Slot>, seen: set<nat>, i: nat, r: seq<byte>, j: nat, q: seq<byte>, t: seq<byte>)
    requires WellFormed(fields) && Valid(fields, slots) && i < |fields| && j < |fields| && i != j
    requires !SameUnion(fields[i], fields[j])
    requires IsRecordOf(fields, slots, i, r) && IsRecordOf(fields, slots, j, q)
    ensures DecodeLoop(fields, slots, seen, r + q + t) == DecodeLoop(fields, slots, seen, q + r + t)
  {
    hide DecodeField, DecodeLoop, Varint.Decode32, Valid, ValidSlot, WellFormed, Store;
    FieldAt(fields, slots, i);
    var x, y := Stored(fields, slots, i, r), Stored(fields, slots, j, q);
    StoresCommute(fields, slots, i, x, j, y);
    RecordStep(fields, slots, seen, i, r, q + t);
    RecordStep(fields, slots, seen, j, q, r + t);
    var afterR, afterQ := Store(fields, slots, i, x), Store(fields, slots, j, y);
    RecordStep(fields, afterR, RoundTrip.Met(fields, seen, i), j, q, t);
    RecordStep(fields, afterQ, RoundTrip.Met(fields, seen, j), i, r, t);
    assert r + q + t == r + (q + t) && q + r + t == q + (r + t);
    assert RoundTrip.Met(fields, RoundTrip.Met(fields, seen, i), j) == RoundTrip.Met(fields, RoundTrip.Met(fields, seen, j), i);
  }

  /** The bytes start a record of field i that the struct refuses, whatever follows. */
  ghost predicate IsRefused(fields: seq<FieldDesc>, slots: seq<Slot>, i: nat, r: seq<byte>)
    requires WellFormed(fields) && Valid(fields, slots) && i < |fields|
  {
    && Varint.Decode32(r).Ok?
    && var (word, body) := Varint.Decode32(r).value;
    && word / 8 == fields[i].tag
    && forall t :: DecodeField(fields[i], slots[i], word % 8, body + t).None?
  }

  lemma RefusedStep(fields: seq<FieldDesc>, slots: seq<Slot>, seen: set<nat>, i: nat, r: seq<byte>, t: seq<byte>)
    requires WellFormed(fields) && Valid(fields, slots) && i < |fields| && IsRefused(fields, slots, i, r)
    ensures DecodeLoop(fields, slots, seen, r + t).None?
  {
    hide DecodeField, Varint.Decode32, Valid, ValidSlot, WellFormedField;
    var (word, body) := Varint.Decode32(r).value;
    FieldAt(fields, slots, i);
    Decode32Extends(r, t);
    IndexOfField(fields, i);
    assert DecodeField(fields[i], slots[i], word % 8, body + t).None?;
  }

  /** A refused record is refused on either side of an accepted one of a field in no common union. */
  lemma RefusedEitherWay(
    fields: seq<FieldDesc>, slots: seq<Slot>, seen: set<nat>, i: nat, r: seq<byte>, j: nat, q: seq<byte>, t: seq<byte>)
    requires WellFormed(fields) && Valid(fields, slots) && i < |fields| && j < |fields| && i != j
    requires !SameUnion(fields[i], fields[j])
    requires IsRefused(fields, slots, i, r) && IsRecordOf(fields, slots, j, q)
    ensures DecodeLoop(fields, slots, seen, r + q + t).None? && DecodeLoop(fields, slots, seen, q + r + t).None?
  {
    hide DecodeField, DecodeLoop, Varint.Decode32, Valid, ValidSlot, WellFormed;
    FieldAt(fields, slots, i);
    var y := Stored(fields, slots, j, q);
    RefusedStep(fields, slots, seen, i, r, q + t);
    RecordStep(fields, slots, seen, j, q, r + t);
    var afterQ := Store(fields, slots, j, y);
    assert afterQ[i] == slots[i];
    RefusedStep(fields, afterQ, RoundTrip.Met(fields, seen, j), i, r, t);
    assert r + q + t == r + (q + t) && q + r + t == q + (r + t);
  }

  /** Fields whose storage is overwritten, not merged or appended to. */
  predicate Overwritten(f: FieldDesc) {
    f.rule.Oneof? || (!f.rule.Repeated? && !f.kind.SubmessageKind?)
  }

  lemma OverwrittenForgets(f: FieldDesc, x: Slot, y: Slot, wireType: nat, s: seq<byte>)
    requires WellFormedField(f) && ValidSlot(f, x) && ValidSlot(f, y) && Overwritten(f)
    ensures DecodeField(f, x, wireType, s) == DecodeField(f, y, wireType, s)
  {
    hide DecodeScalar, WellFormedField, ValidValue;
  }

  /** For a single scalar field or a union member the last record wins. */
  lemma LastOneWins(fields: seq<FieldDesc>, slots: seq<Slot>, seen: set<nat>, i: nat, r: seq<byte>, q: seq<byte>, t: seq<byte>)
    requires WellFormed(fields) && Valid(fields, slots) && i < |fields|
    requires Overwritten(fields[i])
    requires IsRecordOf(fields, slots, i, r) && IsRecordOf(fields, slots, i, q)
    ensures DecodeLoop(fields, slots, seen, r + q + t) == DecodeLoop(fields, slots, RoundTrip.Met(fields, seen, i), q + t)
  {
    hide DecodeLoop, DecodeField, Varint.Decode32, Valid, ValidSlot, WellFormedField;
    FieldAt(fields, slots, i);
    var x, y := Stored(fields, slots, i, r), Stored(fields, slots, i, q);
    var met := RoundTrip.Met(fields, seen, i);
    RecordStep(fields, slots, seen, i, r, q + t);
    RecordStep(fields, slots, met, i, q, t);
    var afterR := Store(fields, slots, i, x);
    assert Store(fields, afterR, i, y) == Store(fields, slots, i, y);
    var (word, body) := Varint.Decode32(q).value;
    OverwrittenForgets(fields[i], slots[i], x, word % 8, body);
    RecordStep(fields, afterR, met, i, q, t);
    assert r + q + t == r + (q + t);
    assert RoundTrip.Met(fields, met, i) == met;
  }

  // ---------- Unknown records ----------

  /** A complete record whose tag belongs to no field (nor to the terminator of an empty message). */
  ghost predicate IsUnknown(fields: seq<FieldDesc>, u: seq<byte>) {
    && Varint.Decode32(u).Ok?
    && var (word, body) := Varint.Decode32(u).value;
    && word != 0 && IndexOf(fields, word / 8).None? && (fields != [] || word / 8 != 0)
    && SkipField(body, word % 8) == Some([])
  }

  /** An unknown record at a record boundary changes nothing. */
  lemma UnknownIgnored(fields: seq<FieldDesc>, slots: seq<Slot>, seen: set<nat>, a: seq<byte>, u: seq<byte>, b: seq<byte>)
    requires WellFormed(fields) && Valid(fields, slots) && AreRecords(fields, slots, seen, a) && IsUnknown(fields, u)
    ensures DecodeLoop(fields, slots, seen, a + u + b) == DecodeLoop(fields, slots, seen, a + b)
  {
    hide SkipField, DecodeField, Varint.Decode32, Valid, WellFormed, AreRecords;
    LoopComposes(fields, slots, seen, a, u + b);
    LoopComposes(fields, slots, seen, a, b);
    assert a + u + b == a + (u + b);
    var (word, body) := Varint.Decode32(u).value;
    Decode32Extends(u, b);
    SkipFieldExtends(body, word % 8, b);
    assert [] + b == b;
  }

  /** In an empty message whatever starts with tag 0 is not skipped but refused. */
  lemma TerminatorRefused(s: seq<byte>)
    requires Varint.Decode32(s).Ok? && 0 < Varint.Decode32(s).value.0 < 8
    ensures DecodeMessage([], [], s).None?
  {
    hide Varint.Decode32;
    var (word, rest) := Varint.Decode32(s).value;
    var none: seq<FieldDesc> := [];
    assert IndexOf(none, 0) == None;
    assert DecodeRecord(none, [], {}, 0, word % 8, rest) == None;
    assert DecodeLoop(none, [], {}, s) == None;
  }

  /** So a complete record with an unknown tag is ignored in every context exactly outside that case. */
  lemma UnknownExactly(fields: seq<FieldDesc>, slots: seq<Slot>, seen: set<nat>, u: seq<byte>)
    requires WellFormed(fields) && Valid(fields, slots) && Varint.Decode32(u).Ok?
    requires var (word, body) := Varint.Decode32(u).value;
      word != 0 && IndexOf(fields, word / 8).None? && SkipField(body, word % 8) == Some([])
    ensures (forall b :: DecodeLoop(fields, slots, seen, u + b) == DecodeLoop(fields, slots, seen, b))
      <==> fields != [] || Varint.Decode32(u).value.0 / 8 != 0
  {
    hide SkipField, Varint.Decode32, Valid, WellFormed;
    var (word, body) := Varint.Decode32(u).value;
    if fields != [] || word / 8 != 0 {
      forall b
        ensures DecodeLoop(fields, slots, seen, u + b) == DecodeLoop(fields, slots, seen, b)
      {
        UnknownIgnored(fields, slots, seen, [], u, b);
        assert [] + u + b == u + b && [] + b == b;
      }
    } else {
      var none: seq<byte> := [];
      assert u + none == u;
      assert DecodeRecord(fields, slots, seen, 0, word % 8, body) == None;
      assert DecodeLoop(fields, slots, seen, u + none) == None;
      assert DecodeLoop(fields, slots, seen, none).Some?;
    }
  }

  /**
    * A submessage is confined to its declared length: whatever the inner bytes do, even if they stop
    * early at a zero tag, the reader continues right behind them.
    */
  lemma SubmessageConfined(f: FieldDesc, prior: Value, inner: seq<byte>, after: seq<byte>)
    requires WellFormedField(f) && f.kind.SubmessageKind? && ValidValue(f, prior) && |inner| < TWO_32
    ensures WellFormed(f.kind.fields) && prior.Struct? && Valid(f.kind.fields, prior.slots)
    ensures var m := DecodeMessage(f.kind.fields, prior.slots, inner);
      DecodeValue(f, prior, Prefixed(inner) + after)
      == if m.Some? then Some((Struct(m.value.0), after)) else None
  {
    SubmessageParts(f, prior);
    RoundTrip.PrefixRoundTrip(inner, after);
  }

  // ---------- Merging ----------

  /** A record of a field, from its tag on. */
  lemma TaggedStep(fields: seq<FieldDesc>, slots: seq<Slot>, seen: set<nat>, i: nat, wireType: nat, s: seq<byte>)
    requires WellFormed(fields) && Valid(fields, slots) && i < |fields| && wireType < 8
    ensures |slots| == |fields| && WellFormedField(fields[i]) && ValidSlot(fields[i], slots[i])
    ensures var d := DecodeField(fields[i], slots[i], wireType, s);
      && (d.Some? ==> Valid(fields, Store(fields, slots, i, d.value.0)))
      && DecodeLoop(fields, slots, seen, Tag(fields[i].tag, wireType) + s)
         == if d.None? then None
            else DecodeLoop(fields, Store(fields, slots, i, d.value.0), RoundTrip.Met(fields, seen, i), d.value.1)
  {
    hide DecodeField, Varint.Encode, Varint.Decode32, Valid, ValidSlot;
    FieldAt(fields, slots, i);
    var word := fields[i].tag * 8 + wireType;
    Varint.RoundTrip32(word, s);
    assert word / 8 == fields[i].tag && word % 8 == wireType;
    IndexOfField(fields, i);
    var d := DecodeField(fields[i], slots[i], wireType, s);
    if d.Some? {
      StoreValid(fields, slots, i, d.value.0);
    }
  }

  /** A submessage field whose records are merged: not an array, and not a member of a union. */
  predicate Merged(f: FieldDesc) {
    f.kind.SubmessageKind? && !f.rule.Repeated? && !f.rule.Oneof?
  }

  /** What a record with that payload makes of the field's slot. */
  lemma MergedField(f: FieldDesc, slot: Slot, wireType: nat, inner: seq<byte>, t: seq<byte>)
    requires WellFormedField(f) && ValidSlot(f, slot) && Merged(f) && |inner| < TWO_32
    ensures WellFormed(f.kind.fields) && (slot.One? || slot.Opt?) && slot.v.Struct? && Valid(f.kind.fields, slot.v.slots)
    ensures var m := DecodeMessage(f.kind.fields, slot.v.slots, inner);
      DecodeField(f, slot, wireType, Prefixed(inner) + t)
      == if m.None? then None
         else Some((if f.rule.Optional? then Opt(true, Struct(m.value.0)) else One(Struct(m.value.0)), t))
  {
    hide DecodeMessage, Prefixed, Valid, WellFormed;
    SubmessageParts(f, slot.v);
    SubmessageConfined(f, slot.v, inner, t);
  }

  /**
    * Two records of one submessage field decode like one record with the two payloads in a row, if
    * the first payload is complete records and the message has no required fields.
    */
  lemma SubmessagesMerge(
    fields: seq<FieldDesc>, slots: seq<Slot>, seen: set<nat>, i: nat, wireType: nat, a: seq<byte>, b: seq<byte>, t: seq<byte>)
    requires WellFormed(fields) && Valid(fields, slots) && i < |fields| && wireType < 8
    requires var f := fields[i]; Merged(f) && WellFormed(f.kind.fields) && NoRequired(f.kind.fields)
    requires |slots| == |fields| && (slots[i].One? || slots[i].Opt?)
    requires slots[i].v.Struct? && Valid(fields[i].kind.fields, slots[i].v.slots)
    requires AreRecords(fields[i].kind.fields, slots[i].v.slots, {}, a) && |a + b| < TWO_32
    ensures var tag := Tag(fields[i].tag, wireType);
      DecodeLoop(fields, slots, seen, tag + Prefixed(a) + (tag + Prefixed(b)) + t)
      == DecodeLoop(fields, slots, seen, tag + Prefixed(a + b) + t)
  {
    hide DecodeField, DecodeLoop, DecodeMessage, Prefixed, Tag, Valid, ValidSlot, WellFormed, AreRecords;
    var f, tag, sub := fields[i], Tag(fields[i].tag, wireType), slots[i].v.slots;
    var met := RoundTrip.Met(fields, seen, i);
    TaggedStep(fields, slots, seen, i, wireType, Prefixed(a) + (tag + Prefixed(b) + t));
    TaggedStep(fields, slots, seen, i, wireType, Prefixed(a + b) + t);
    MergedField(f, slots[i], wireType, a, tag + Prefixed(b) + t);
    MergedField(f, slots[i], wireType, a + b, t);
    DecodeConcatenation(f.kind.fields, sub, a, b);
    assert tag + Prefixed(a) + (tag + Prefixed(b)) + t == tag + (Prefixed(a) + (tag + Prefixed(b) + t));
    assert tag + Prefixed(a + b) + t == tag + (Prefixed(a + b) + t);
    var first := DecodeField(f, slots[i], wireType, Prefixed(a) + (tag + Prefixed(b) + t)).value.0;
    var afterFirst := Store(fields, slots, i, first);
    TaggedStep(fields, afterFirst, met, i, wireType, Prefixed(b) + t);
    MergedField(f, first, wireType, b, t);
    assert tag + Prefixed(b) + t == tag + (Prefixed(b) + t);
    var second := DecodeField(f, first, wireType, Prefixed(b) + t);
    if second.Some? {
      assert Store(fields, afterFirst, i, second.value.0) == Store(fields, slots, i, second.value.0);
      assert RoundTrip.Met(fields, met, i) == met;
    }
  }
}
