/** The circular field iterator over a descriptor, and the struct offsets it computes. */
module FieldIter {
  import opened Wire
  import opened Descriptor

  /** The bytes a field occupies in the struct. */
  function StorageSize(f: FieldDesc): nat {
    if f.rule.Repeated? then f.dataSize * f.arraySize else f.dataSize
  }

  /** A later member of a union starts where the member before it starts. */
  predicate SharesStorage(fields: seq<FieldDesc>, i: nat)
    requires 0 < i < |fields|
  {
    fields[i - 1].rule.Oneof? && fields[i].rule.Oneof? && fields[i].dataOffset == SIZE_MAX
  }

  function DataOffset(fields: seq<FieldDesc>, i: nat): int
    requires i < |fields|
  {
    if i == 0 then fields[0].dataOffset
    else if SharesStorage(fields, i) then DataOffset(fields, i - 1)
    else DataOffset(fields, i - 1) + StorageSize(fields[i - 1]) + fields[i].dataOffset
  }

  function SizeOffset(fields: seq<FieldDesc>, i: nat): int
    requires i < |fields|
  {
    if i > 0 && SharesStorage(fields, i) then SizeOffset(fields, i - 1)
    else DataOffset(fields, i) + fields[i].sizeOffset
  }

  /** The number of required fields before field i. */
  function RequiredBefore(fields: seq<FieldDesc>, i: nat): (n: nat)
    requires i <= |fields|
    ensures n <= i
  {
    if i == 0 then 0 else RequiredBefore(fields, i - 1) + (if fields[i - 1].rule.Required? then 1 else 0)
  }

  lemma {:induction false} RequiredBeforeMonotone(fields: seq<FieldDesc>, i: nat, j: nat)
    requires i <= j <= |fields|
    ensures RequiredBefore(fields, i) <= RequiredBefore(fields, j)
    decreases j
  {
    if i < j {
      RequiredBeforeMonotone(fields, i, j - 1);
    }
  }

  // ---------- Storage ----------

  /** The bytes of the has-flag, count or which-field beside the data; 0 if there is none. */
  function SizeWidth(f: FieldDesc): nat {
    match f.rule
    case Optional => 1
    case Repeated => 4
    case Oneof(_) => 4
    case _ => 0
  }

  /** Where the storage of a field starts, with its size field if it has one. */
  function SpanStart(fields: seq<FieldDesc>, i: nat): int
    requires i < |fields|
  {
    if SizeWidth(fields[i]) > 0 then SizeOffset(fields, i) else DataOffset(fields, i)
  }

  function SpanEnd(fields: seq<FieldDesc>, i: nat): int
    requires i < |fields|
  {
    DataOffset(fields, i) + StorageSize(fields[i])
  }

  /** Fields i to j are members of one union, laid over each other. */
  predicate Overlaid(fields: seq<FieldDesc>, i: nat, j: nat)
    requires i <= j < |fields|
  {
    forall k :: i < k <= j ==> SharesStorage(fields, k)
  }

  /** The distance from the end of the field before to the start of a field that is not overlaid on it. */
  function Gap(f: FieldDesc): int {
    f.dataOffset + if SizeWidth(f) > 0 then f.sizeOffset else 0
  }

  /**
    * What a compiler makes of a struct: size fields end before the data they belong to, and a field
    * starts after the end of the one before, or of the largest member if that is a union.
    */
  ghost predicate LaidOut(fields: seq<FieldDesc>) {
    && (forall i :: 0 <= i < |fields| ==> SizeWidth(fields[i]) > 0 ==> fields[i].sizeOffset + SizeWidth(fields[i]) <= 0)
    && (forall i, e :: 0 <= i <= e < |fields| - 1 && Overlaid(fields, i, e) && !SharesStorage(fields, e + 1) ==>
          StorageSize(fields[i]) <= StorageSize(fields[e]) + Gap(fields[e + 1]))
  }

  /** All members of a union have the same data and the same which-field. */
  lemma {:induction false} OverlaidTogether(fields: seq<FieldDesc>, i: nat, j: nat)
    requires i <= j < |fields| && Overlaid(fields, i, j)
    ensures DataOffset(fields, i) == DataOffset(fields, j) && SizeOffset(fields, i) == SizeOffset(fields, j)
    decreases j
  {
    if i < j {
      OverlaidTogether(fields, i, j - 1);
    }
  }

  /** The which-field of a union is outside its members, as for the first member. */
  lemma {:induction false} SizeBeforeData(fields: seq<FieldDesc>, i: nat)
    requires i < |fields| && LaidOut(fields) && SizeWidth(fields[i]) > 0
    ensures SizeOffset(fields, i) + SizeWidth(fields[i]) <= DataOffset(fields, i)
  {
    if i > 0 && SharesStorage(fields, i) {
      SizeBeforeData(fields, i - 1);
    }
  }

  lemma SpanForward(fields: seq<FieldDesc>, i: nat)
    requires i < |fields| && LaidOut(fields)
    ensures SpanStart(fields, i) <= SpanEnd(fields, i)
  {
    if SizeWidth(fields[i]) > 0 {
      SizeBeforeData(fields, i);
    }
  }

  /** A field that is not overlaid on a union starts behind each of the union's members. */
  lemma BehindUnion(fields: seq<FieldDesc>, i: nat, e: nat)
    requires i <= e < |fields| - 1 && Overlaid(fields, i, e) && !SharesStorage(fields, e + 1)
    ensures SpanEnd(fields, i) <= SpanStart(fields, e + 1) <==> StorageSize(fields[i]) <= StorageSize(fields[e]) + Gap(fields[e + 1])
  {
    OverlaidTogether(fields, i, e);
  }

  /**
    * Fields that are not overlaid occupy disjoint storage, size fields included, so slots can be
    * treated separately.
    */
  lemma {:induction false} StorageDisjoint(fields: seq<FieldDesc>, i: nat, j: nat)
    requires i < j < |fields| && LaidOut(fields) && !Overlaid(fields, i, j)
    ensures SpanEnd(fields, i) <= SpanStart(fields, j)
    decreases j
  {
    hide LaidOut;
    if SharesStorage(fields, j) {
      StorageDisjoint(fields, i, j - 1);
      OverlaidTogether(fields, j - 1, j);
    } else if Overlaid(fields, i, j - 1) {
      LaidOutAt(fields, i, j - 1);
      BehindUnion(fields, i, j - 1);
    } else {
      StorageDisjoint(fields, i, j - 1);
      SpanForward(fields, j - 1);
      LaidOutAt(fields, j - 1, j - 1);
      BehindUnion(fields, j - 1, j - 1);
    }
  }

  /** The unions of the descriptor are the ones that are laid over each other. */
  ghost predicate UnionsOverlaid(fields: seq<FieldDesc>) {
    forall i, j :: 0 <= i < j < |fields| ==> (Overlaid(fields, i, j) <==> SameUnion(fields[i], fields[j]))
  }

  /** So fields that share no union are apart. */
  lemma SlotsApart(fields: seq<FieldDesc>, i: nat, j: nat)
    requires i < j < |fields| && LaidOut(fields) && UnionsOverlaid(fields)
    ensures if SameUnion(fields[i], fields[j]) then DataOffset(fields, i) == DataOffset(fields, j)
            else SpanEnd(fields, i) <= SpanStart(fields, j)
  {
    hide LaidOut, Overlaid, DataOffset, SpanEnd, SpanStart;
    if SameUnion(fields[i], fields[j]) {
      OverlaidTogether(fields, i, j);
    } else {
      StorageDisjoint(fields, i, j);
    }
  }

  lemma LaidOutAt(fields: seq<FieldDesc>, i: nat, e: nat)
    requires LaidOut(fields) && i <= e < |fields| - 1 && Overlaid(fields, i, e) && !SharesStorage(fields, e + 1)
    ensures StorageSize(fields[i]) <= StorageSize(fields[e]) + Gap(fields[e + 1])
  {
  }

  /** Bytes written over one part of a struct. */
  function Patched(memory: seq<byte>, at: nat, bytes: seq<byte>): seq<byte>
    requires at + |bytes| <= |memory|
  {
    memory[..at] + bytes + memory[at + |bytes|..]
  }

  /** Writing anywhere inside one field's storage changes no byte of a field that is not overlaid on it. */
  lemma WriteKeepsOthers(fields: seq<FieldDesc>, i: nat, j: nat, memory: seq<byte>, at: nat, bytes: seq<byte>)
    requires i < j < |fields| && LaidOut(fields) && !Overlaid(fields, i, j)
    requires 0 <= SpanStart(fields, i) && SpanEnd(fields, j) <= |memory|
    requires at + |bytes| <= |memory|
    ensures 0 <= SpanStart(fields, j) <= SpanEnd(fields, j) && SpanStart(fields, i) <= SpanEnd(fields, i) <= |memory|
    ensures SpanStart(fields, i) <= at && at + |bytes| <= SpanEnd(fields, i) ==>
      Patched(memory, at, bytes)[SpanStart(fields, j)..SpanEnd(fields, j)] == memory[SpanStart(fields, j)..SpanEnd(fields, j)]
    ensures SpanStart(fields, j) <= at && at + |bytes| <= SpanEnd(fields, j) ==>
      Patched(memory, at, bytes)[SpanStart(fields, i)..SpanEnd(fields, i)] == memory[SpanStart(fields, i)..SpanEnd(fields, i)]
  {
    hide LaidOut, SpanStart, SpanEnd;
    StorageDisjoint(fields, i, j);
    SpanForward(fields, i);
    SpanForward(fields, j);
  }

  class Iterator {
    const start: seq<FieldDesc>
    var pos: nat
    var requiredFieldIndex: nat
    var pData: int
    var pSize: int

    /** The position is a field, or the terminator of an empty message; the rest follows from it. */
    ghost predicate Valid()
      reads this
    {
      if start == [] then pos == 0 && requiredFieldIndex == 0 && pData == 0 && pSize == 0
      else
        && pos < |start|
        && requiredFieldIndex == RequiredBefore(start, pos)
        && pData == DataOffset(start, pos)
        && pSize == SizeOffset(start, pos)
    }

    constructor (fields: seq<FieldDesc>)
      ensures Valid() && start == fields && pos == 0
    {
      start := fields;
      pos, requiredFieldIndex := 0, 0;
      pData := if fields == [] then 0 else fields[0].dataOffset;
      pSize := if fields == [] then 0 else fields[0].dataOffset + fields[0].sizeOffset;
    }

    method Begin() returns (nonEmpty: bool)
      modifies this
      ensures Valid() && pos == 0
      ensures nonEmpty <==> start != []
    {
      pos, requiredFieldIndex := 0, 0;
      pData := if start == [] then 0 else start[0].dataOffset;
      pSize := if start == [] then 0 else pData + start[0].sizeOffset;
      nonEmpty := start != [];
    }

    /** The tag at the current position; the terminator has tag 0. */
    function Tag(): nat
      requires Valid()
      reads this
    {
      if start == [] then 0 else start[pos].tag
    }

    /** Steps to the next field, or back to the first one with the result false. */
    method Next() returns (more: bool)
      requires Valid()
      modifies this
      ensures Valid()
      ensures more <==> old(pos) + 1 < |start|
      ensures pos == if more then old(pos) + 1 else 0
    {
      if start == [] {
        return false;
      }
      var prev := start[pos];
      pos := pos + 1;
      if pos == |start| {
        var _ := Begin();
        return false;
      }
      var prevSize := prev.dataSize;
      if prev.rule.Oneof? && start[pos].rule.Oneof? && start[pos].dataOffset == SIZE_MAX {
        return true;
      } else if prev.rule.Repeated? {
        prevSize := prevSize * prev.arraySize;
      }
      if prev.rule.Required? {
        requiredFieldIndex := requiredFieldIndex + 1;
      }
      pData := pData + prevSize + start[pos].dataOffset;
      pSize := pData + start[pos].sizeOffset;
      return true;
    }

    /**
      * Searches forward from the current position, around the end. The search succeeds exactly for
      * the tags of fields, except that the terminator of an empty message answers to tag 0; by
      * Valid() it leaves the offsets and the required index of a walk from the first field.
      */
    method Find(tag: nat) returns (found: bool)
      requires Valid() && DistinctTags(start)
      requires forall i :: 0 <= i < |start| ==> start[i].tag != 0
      modifies this
      ensures Valid()
      ensures found <==> IndexOf(start, tag).Some? || (start == [] && tag == 0)
      ensures found && start != [] ==> IndexOf(start, tag) == Some(pos)
      ensures !found ==> pos == old(pos)
    {
      var begin := pos;
      ghost var wrapped := false;
      while true
        invariant Valid()
        invariant if wrapped then pos < begin else begin <= pos
        invariant !wrapped ==> forall i :: begin <= i < pos ==> start[i].tag != tag
        invariant wrapped ==> forall i :: 0 <= i < |start| && (i < pos || begin <= i) ==> start[i].tag != tag
        decreases if wrapped then 0 else 1, if wrapped then begin - pos else |start| - pos
      {
        if Tag() == tag {
          if start != [] {
            IndexOfField(start, pos);
          }
          return true;
        }
        var more := Next();
        if pos == begin {
          return false;
        }
        if !more {
          wrapped := true;
        }
      }
    }

    /** The count of required fields, taken by walking from the current position to the end. */
    method CountRequired() returns (count: nat)
      requires Valid()
      requires forall i :: 0 <= i < |start| ==> start[i].tag != 0
      modifies this
      ensures Valid()
      ensures count == RequiredBefore(start, |start|)
    {
      count := requiredFieldIndex;
      ghost var last: nat := pos;
      var lastRequired := start == [] || start[pos].rule.Required?;
      var more := Next();
      while more
        invariant Valid()
        invariant start != [] ==> last < |start| && count == RequiredBefore(start, last)
        invariant start != [] ==> lastRequired == start[last].rule.Required?
        invariant start == [] ==> count == 0 && !more
        invariant more ==> pos == last + 1
        invariant start != [] && !more ==> last + 1 == |start|
        decreases if more then |start| - pos else 0
      {
        count := requiredFieldIndex;
        last := pos;
        lastRequired := start[pos].rule.Required?;
        more := Next();
      }
      if lastRequired && Tag() != 0 {
        count := count + 1;
      }
    }
  }
}
