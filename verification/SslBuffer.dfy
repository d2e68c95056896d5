/** The byte buffer between the record layer and the transport. */
module SslBuffer {
  import opened Wire

  const U16: nat := 0x1_0000
  const ALIGN_PAYLOAD: nat := 8

  /** The largest capacity whose 16-bit offset cannot wrap while data remains. */
  const MAX_SAFE_CAP: nat := 0xFFF9

  /** The capacities that are accepted although the offset can wrap. */
  predicate MayWrap(cap: nat) {
    MAX_SAFE_CAP < cap < U16
  }

  /** `offset`, `size` and `cap` are 16-bit fields. */
  class Buffer {
    var buf: array?<byte>
    var offset: nat
    var size: nat
    var cap: nat

    predicate Valid()
      reads this
    {
      && size <= cap < U16 && offset < U16
      && if buf == null then offset == 0 && cap == 0 else offset + cap <= buf.Length
    }

    /** The offset cannot wrap before the data is used up. */
    predicate Sound()
      reads this
    {
      offset + cap <= U16
    }

    ghost function Contents(): (s: seq<byte>)
      requires Valid()
      reads this, buf
      ensures |s| == size
    {
      if buf == null then [] else buf[offset..offset + size]
    }

    constructor ()
      ensures Valid() && Sound() && Contents() == [] && buf == null && cap == 0
    {
      buf, offset, size, cap := null, 0, 0, 0;
    }

    method Clear()
      modifies this
      ensures Valid() && Sound() && Contents() == [] && buf == null && cap == 0
    {
      buf, offset, size, cap := null, 0, 0, 0;
    }

    /** `address` stands for where the allocator placed the new memory. */
    method EnsureCap(headerLen: nat, newCap: nat, address: nat) returns (ok: bool)
      requires Valid()
      modifies this
      ensures Valid() && Contents() == old(Contents()) && size == old(size)
      ensures ok <==> newCap < U16
      ensures ok ==> newCap <= cap && (newCap > 0 ==> buf != null)
      ensures old(Sound()) && !MayWrap(newCap) ==> Sound()
      ensures ok && newCap > old(cap) ==> offset == (0 - headerLen - address) % ALIGN_PAYLOAD && cap == newCap
      ensures ok && newCap > old(cap) ==> offset < ALIGN_PAYLOAD && (address + offset + headerLen) % ALIGN_PAYLOAD == 0
      ensures ok && newCap > old(cap) ==> buf != null && buf.Length == newCap + ALIGN_PAYLOAD - 1
      ensures buf == old(buf) || fresh(buf)
    {
      if newCap > 0xFFFF {
        return false;
      }
      if cap >= newCap {
        return true;
      }
      var newBuf := new byte[newCap + ALIGN_PAYLOAD - 1];
      var newOffset := (0 - headerLen - address) % ALIGN_PAYLOAD;
      if buf != null {
        forall i | 0 <= i < size {
          newBuf[newOffset + i] := buf[offset + i];
        }
      }
      assert newBuf[newOffset..newOffset + size] == Contents();
      buf, offset, cap := newBuf, newOffset, newCap;
      return true;
    }

    /** Copying into the remaining space and DidWrite. */
    method Append(data: seq<byte>)
      requires Valid() && |data| <= cap - size
      modifies this`size, buf
      ensures Valid() && Contents() == old(Contents()) + data
      ensures buf != null && offset > 0 ==> buf[0] == old(buf[0])
    {
      if buf != null {
        ghost var before := Contents();
        forall i | 0 <= i < |data| {
          buf[offset + size + i] := data[i];
        }
        size := size + |data|;
        assert Contents()[..|before|] == before;
        assert Contents()[|before|..] == data;
      }
    }

    /** What remains is where the offset points afterwards: the rest of the contents, unless it wrapped. */
    method Consume(len: nat)
      requires Valid() && len <= size
      modifies this`offset, this`size, this`cap
      ensures Valid() && size == old(size) - len
      ensures buf != null ==> Contents() == Left(buf[..], old(offset), old(size), len)
      ensures old(Sound()) ==> Sound() && Contents() == old(Contents())[len..]
    {
      assert offset + len < U16 ==> Advanced(offset, len) == offset + len;
      assert offset + len == U16 ==> Advanced(offset, len) == 0;
      offset := Advanced(offset, len);
      size := size - len;
      cap := cap - len;
    }
  }

  /** offset_ += len */
  function Advanced(offset: nat, consumed: nat): (r: nat)
    ensures r <= offset + consumed
  {
    (offset + consumed) % U16
  }

  /** What a buffer holds after some of its bytes were consumed. */
  function Left(memory: seq<byte>, offset: nat, size: nat, consumed: nat): seq<byte>
    requires consumed <= size && offset + size <= |memory|
  {
    var at := Advanced(offset, consumed);
    memory[at..at + size - consumed]
  }

  /**
    * Whether consuming leaves the rest of the contents, for every alignment, every amount of data in
    * a buffer of that capacity, and every part of it that was consumed.
    */
  ghost predicate KeepsRest(cap: nat) {
    forall memory: seq<byte>, offset: nat, size: nat, consumed: nat
      | offset < ALIGN_PAYLOAD && consumed <= size <= cap && |memory| == cap + ALIGN_PAYLOAD - 1 ::
      Left(memory, offset, size, consumed) == memory[offset..offset + size][consumed..]
  }

  /** Of the capacities that are accepted, those from 0xFFFA on can lose the contents. */
  lemma SafeCapacity(cap: nat)
    requires cap < U16
    ensures KeepsRest(cap) <==> !MayWrap(cap)
  {
    if MayWrap(cap) {
      WrapLosesRest(cap);
    }
  }

  lemma WrapLosesRest(cap: nat)
    requires MayWrap(cap)
    ensures !KeepsRest(cap)
  {
    var memory: seq<byte> := seq(cap + ALIGN_PAYLOAD - 1, i => if i == U16 then 1 else 0);
    var offset := ALIGN_PAYLOAD - 1;
    assert memory[offset..offset + cap][MAX_SAFE_CAP..][0] == memory[U16] == 1;
    assert Left(memory, offset, cap, MAX_SAFE_CAP)[0] == memory[0] == 0;
  }

  /** A buffer of each such capacity that holds other bytes than the rest after a part was consumed. */
  method WrapExample(newCap: nat) returns (b: Buffer, before: seq<byte>)
    requires MayWrap(newCap)
    ensures fresh(b) && b.Valid() && |before| == newCap
    ensures b.Contents() != before[MAX_SAFE_CAP..] && b.size == newCap - MAX_SAFE_CAP
  {
    hide KeepsRest, Left;
    b := new Buffer();
    var ok := b.EnsureCap(1, newCap, 0);
    var junk := b.buf[0];
    var other: byte := if junk == 0 then 1 else 0;
    before := seq(newCap, i => if i == MAX_SAFE_CAP then other else 0);
    b.Append(before);
    StartDiffers(b.buf[..], before);
    b.Consume(MAX_SAFE_CAP);
  }

  lemma StartDiffers(memory: seq<byte>, before: seq<byte>)
    requires MayWrap(|before|) && |memory| == |before| + ALIGN_PAYLOAD - 1 && memory[0] != before[MAX_SAFE_CAP]
    ensures Left(memory, ALIGN_PAYLOAD - 1, |before|, MAX_SAFE_CAP) != before[MAX_SAFE_CAP..]
  {
    assert Left(memory, ALIGN_PAYLOAD - 1, |before|, MAX_SAFE_CAP)[0] == memory[0];
    assert before[MAX_SAFE_CAP..][0] == before[MAX_SAFE_CAP];
  }
}
