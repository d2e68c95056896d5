/** Packed arrays: what the reader makes of a payload, and that packing makes no difference to it. */
module Packing {
  import opened Wire
  import opened Descriptor
  import opened FieldIter
  import opened EncodeSpec
  import opened DecodeSpec
  import opened RoundTrip

  /** The payload is those elements, one after the other, up to its last byte. */
  ghost predicate Elements(f: FieldDesc, items: seq<Value>, s: seq<byte>)
    requires WellFormedField(f)
    decreases items
  {
    if items == [] then s == []
    else
      var first := DecodeValue(f, InitialOf(f), s);
      first.Some? && first.value.0 == items[0] && Elements(f, items[1..], first.value.1)
  }

  /** A payload is accepted exactly if it is a whole number of elements for which the array has room. */
  lemma {:induction false} PayloadExactly(f: FieldDesc, prior: seq<Value>, s: seq<byte>, items: seq<Value>)
    requires WellFormedField(f) && Packable(f.kind)
    requires |prior| <= f.arraySize && forall i :: 0 <= i < |prior| ==> ValidValue(f, prior[i])
    ensures DecodePacked(f, prior, s) == Some(prior + items) <==> |prior| + |items| <= f.arraySize && Elements(f, items, s)
    decreases |s|
  {
    hide DecodeValue, ValidValue, WellFormedField;
    if s == [] {
      Nothing(f, items);
      assert |prior + items| == |prior| <==> items == [];
      assert items == [] ==> prior + items == prior;
    } else if |prior| < f.arraySize && DecodeValue(f, InitialOf(f), s).Some? {
      var (v, rest) := DecodeValue(f, InitialOf(f), s).value;
      Longer(f, prior + [v], rest);
      if items != [] {
        PayloadExactly(f, prior + [v], rest, items[1..]);
        Shifted(f, prior, v, rest, items);
      }
    }
  }

  lemma Nothing(f: FieldDesc, items: seq<Value>)
    requires WellFormedField(f)
    ensures Elements(f, items, []) ==> items == []
  {
    hide WellFormedField;
  }

  lemma Shifted(f: FieldDesc, prior: seq<Value>, v: Value, rest: seq<byte>, items: seq<Value>)
    requires items != []
    ensures prior + items == prior + [v] + items[1..] <==> v == items[0]
    ensures prior + [v] <= prior + items <==> v == items[0]
  {
    assert (prior + items)[|prior|] == items[0] && (prior + [v] + items[1..])[|prior|] == v;
    if v == items[0] {
      assert items == [v] + items[1..];
      assert prior + items == prior + [v] + items[1..];
    }
  }

  /** The elements before stay where they are. */
  lemma {:induction false} Longer(f: FieldDesc, prior: seq<Value>, s: seq<byte>)
    requires WellFormedField(f) && Packable(f.kind)
    requires |prior| <= f.arraySize && forall i :: 0 <= i < |prior| ==> ValidValue(f, prior[i])
    ensures var r := DecodePacked(f, prior, s); r.Some? ==> prior <= r.value
    decreases |s|
  {
    hide DecodeValue, ValidValue, WellFormedField;
    if s != [] && |prior| < f.arraySize && DecodeValue(f, InitialOf(f), s).Some? {
      var (v, rest) := DecodeValue(f, InitialOf(f), s).value;
      Longer(f, prior + [v], rest);
    }
  }

  // ---------- Packed or not ----------

  /** One element with its own tag is appended, whatever the array's encoding. */
  lemma ElementAppended(f: FieldDesc, items: seq<Value>, k: nat, rest: seq<byte>)
    requires WellFormedField(f) && f.rule.Repeated? && Packable(f.kind) && k < |items| <= f.arraySize
    requires forall j :: 0 <= j < |items| ==> ValidValue(f, items[j]) && ShapedValue(f, items[j])
    ensures EncodeValue(f, items[k]).Ok? && ValidSlot(f, Many(items[..k]))
    ensures DecodeField(f, Many(items[..k]), WireType(f.kind), EncodeValue(f, items[k]).value + rest)
         == Some((Many(items[..k + 1]), rest))
  {
    hide EncodeValue, DecodeScalar, ValidValue, ShapedValue, InitialValue, WellFormedField;
    ScalarRoundTrip(f, items[k], rest);
    InitialValid(f);
    assert items[..k] + [items[k]] == items[..k + 1];
  }

  lemma {:induction false} SeparateRecords(
    fields: seq<FieldDesc>, slots: seq<Slot>, seen: set<nat>, i: nat, items: seq<Value>, k: nat, rest: seq<byte>)
    requires WellFormed(fields) && Valid(fields, slots) && i < |fields| && k <= |items| <= fields[i].arraySize
    requires |slots| == |fields| && fields[i].rule.Repeated? && Packable(fields[i].kind) && slots[i] == Many(items[..k])
    requires forall j :: 0 <= j < |items| ==> ValidValue(fields[i], items[j]) && ShapedValue(fields[i], items[j])
    ensures Valid(fields, slots[i := Many(items)]) && EncodeUnpacked(fields[i], items, k).Ok?
    ensures DecodeLoop(fields, slots, seen, EncodeUnpacked(fields[i], items, k).value + rest)
         == DecodeLoop(fields, slots[i := Many(items)], seen, rest)
    decreases |items| - k
  {
    hide EncodeValue, DecodeField, DecodeLoop, ValidValue, ValidSlot, ShapedValue, Valid, WellFormed;
    var f := fields[i];
    if k == |items| {
      assert items[..k] == items && slots[i := Many(items)] == slots;
      assert [] + rest == rest;
    } else {
      FieldAt(fields, slots, i);
      ElementAppended(f, items, k, []);
      var tag, body := Tag(f.tag, WireType(f.kind)), EncodeValue(f, items[k]).value;
      var next := Store(fields, slots, i, Many(items[..k + 1]));
      assert next == slots[i := Many(items[..k + 1])];
      StoredValid(fields, slots, i, items, k);
      SeparateRecords(fields, next, seen, i, items, k + 1, rest);
      var tail := EncodeUnpacked(f, items, k + 1).value;
      ElementAppended(f, items, k, tail + rest);
      OneRecord(fields, slots, seen, i, WireType(f.kind), body, Many(items[..k + 1]), tail + rest);
      assert next[i := Many(items)] == slots[i := Many(items)];
      assert EncodeField(f, items[k]) == Ok(tag + body);
      assert EncodeUnpacked(f, items, k) == Ok(tag + body + tail);
      assert EncodeUnpacked(f, items, k).value + rest == tag + body + (tail + rest);
    }
  }

  lemma StoredValid(fields: seq<FieldDesc>, slots: seq<Slot>, i: nat, items: seq<Value>, k: nat)
    requires WellFormed(fields) && Valid(fields, slots) && i < |fields| && k < |items| <= fields[i].arraySize
    requires fields[i].rule.Repeated? && forall j :: 0 <= j < |items| ==> ValidValue(fields[i], items[j])
    ensures Valid(fields, Store(fields, slots, i, Many(items[..k + 1])))
  {
    hide ValidValue, WellFormedField;
    StoreValid(fields, slots, i, Many(items[..k + 1]));
  }

  /**
    * The reader appends the same elements whether they come in one packed record or each with its own tag,
    * behind whatever the array already holds.
    */
  lemma PackedOrNot(
    fields: seq<FieldDesc>, slots: seq<Slot>, seen: set<nat>, i: nat, items: seq<Value>, k: nat, rest: seq<byte>)
    requires WellFormed(fields) && Valid(fields, slots) && i < |fields| && k <= |items| <= fields[i].arraySize
    requires |slots| == |fields| && fields[i].rule.Repeated? && Packable(fields[i].kind) && slots[i] == Many(items[..k])
    requires forall j :: 0 <= j < |items| ==> ValidValue(fields[i], items[j]) && ShapedValue(fields[i], items[j])
    requires var payload := EncodeItems(fields[i], items, k); payload.Ok? ==> |payload.value| < TWO_32
    ensures Valid(fields, slots[i := Many(items)])
    ensures EncodeItems(fields[i], items, k).Ok? && EncodeUnpacked(fields[i], items, k).Ok?
    ensures var after := DecodeLoop(fields, slots[i := Many(items)], seen, rest);
      && DecodeLoop(fields, slots, seen, Tag(fields[i].tag, 2) + Prefixed(EncodeItems(fields[i], items, k).value) + rest) == after
      && DecodeLoop(fields, slots, seen, EncodeUnpacked(fields[i], items, k).value + rest) == after
  {
    hide EncodeItems, DecodePacked, DecodeLoop, ValidValue, ShapedValue, Valid, WellFormed, WellFormedField, Prefixed, Tag;
    var f := fields[i];
    FieldAt(fields, slots, i);
    SeparateRecords(fields, slots, seen, i, items, k, rest);
    PackedRoundTrip(f, items, k);
    var payload := EncodeItems(f, items, k).value;
    PrefixRoundTrip(payload, rest);
    OneRecord(fields, slots, seen, i, 2, Prefixed(payload), Many(items), rest);
    assert Store(fields, slots, i, Many(items)) == slots[i := Many(items)];
  }
}
