/** Input streams over a memory buffer and the scalar readers. */
module IStream {
  import opened Wire
  import Varint
  import opened Descriptor
  import opened EncodeSpec
  import D = DecodeSpec

  /** pb_istream_t: `at` is the read position kept in `state`. */
  class Stream {
    const data: seq<byte>
    var at: nat
    var bytesLeft: nat

    ghost predicate Valid()
      reads this
    {
      at + bytesLeft <= |data|
    }

    /** The bytes that may still be read. */
    ghost function Rest(): seq<byte>
      requires Valid()
      reads this
    {
      data[at..at + bytesLeft]
    }

    /** Where the bytes this stream may read end. */
    ghost function End(): nat
      reads this
    {
      at + bytesLeft
    }

    constructor FromBuffer(buffer: seq<byte>)
      ensures Valid() && data == buffer && Rest() == buffer
    {
      data, at, bytesLeft := buffer, 0, |buffer|;
    }

    constructor Limited(parent: Stream, size: nat)
      requires parent.Valid() && size <= parent.bytesLeft
      ensures Valid() && data == parent.data && at == parent.at && bytesLeft == size
    {
      data, at, bytesLeft := parent.data, parent.at, size;
    }
  }

  /** Readers never move the end of their stream forward, and on success they keep it. */
  twostate predicate Kept(s: Stream, ok: bool)
    reads s
  {
    s.Valid() && s.End() <= old(s.End()) && (ok ==> s.End() == old(s.End()))
  }

  method ReadByte(s: Stream) returns (ok: bool, b: byte)
    requires s.Valid()
    modifies s
    ensures Kept(s, ok)
    ensures ok == (old(s.Rest()) != [])
    ensures ok ==> b == old(s.Rest())[0] && s.Rest() == old(s.Rest())[1..]
    ensures !ok ==> s.bytesLeft == old(s.bytesLeft)
  {
    if s.bytesLeft == 0 {
      return false, 0;
    }
    b := s.data[s.at];
    s.at, s.bytesLeft := s.at + 1, s.bytesLeft - 1;
    return true, b;
  }

  method Read(s: Stream, count: nat) returns (ok: bool, b: seq<byte>)
    requires s.Valid()
    modifies s
    ensures Kept(s, ok) && ok == D.Read(old(s.Rest()), count).Some?
    ensures ok ==> (b, s.Rest()) == D.Read(old(s.Rest()), count).value
    ensures ok ==> s.at == old(s.at) + count
  {
    if s.bytesLeft < count {
      return false, [];
    }
    b := s.data[s.at..s.at + count];
    s.at, s.bytesLeft := s.at + count, s.bytesLeft - count;
    assert b == old(s.Rest())[..count] && s.Rest() == old(s.Rest())[count..];
    return true, b;
  }

  // ---------- Varints ----------

  method DecodeVarint64(s: Stream) returns (ok: bool, dest: nat)
    requires s.Valid()
    modifies s
    ensures Kept(s, ok) && ok == Varint.Decode64(old(s.Rest())).Ok?
    ensures ok ==> (dest, s.Rest()) == Varint.Decode64(old(s.Rest())).value
  {
    hide BitOr, Pow2;
    var bitpos: nat, result: nat := 0, 0;
    ghost var all := s.Rest();
    while true
      invariant Kept(s, true)
      invariant bitpos <= 70
      invariant Varint.Decode64(all) == Varint.Decode64From(s.Rest(), bitpos, result)
      decreases s.bytesLeft
    {
      if bitpos >= 64 {
        return false, 0;
      }
      var more, b := ReadByte(s);
      if !more {
        return false, 0;
      }
      result := BitOr(result, (b % 128 * Pow2(bitpos)) % TWO_64);
      bitpos := (bitpos + 7) % 256;
      if b < 128 {
        return true, result;
      }
    }
  }

  /** `eof` is set if the stream was already at its end. */
  method DecodeVarint32Eof(s: Stream) returns (ok: bool, dest: nat, eof: bool)
    requires s.Valid()
    modifies s
    ensures Kept(s, ok) && ok == Varint.Decode32(old(s.Rest())).Ok?
    ensures ok ==> (dest, s.Rest()) == Varint.Decode32(old(s.Rest())).value
    ensures eof <==> old(s.Rest()) == []
  {
    hide BitOr, Pow2;
    ghost var all := s.Rest();
    var more, b := ReadByte(s);
    if !more {
      return false, 0, s.bytesLeft == 0;
    }
    if b < 128 {
      return true, b, false;
    }
    var bitpos: nat, result: nat := 7, b % 128;
    while true
      invariant Kept(s, true) && all != []
      invariant bitpos < 256
      invariant Varint.Decode32(all) == Varint.Decode32From(s.Rest(), bitpos, result)
      decreases s.bytesLeft
    {
      more, b := ReadByte(s);
      if !more {
        return false, 0, false;
      }
      if bitpos >= 32 {
        if b % 128 != 0 && (result / TWO_31 == 0 || b != Varint.SignExtension(bitpos)) {
          return false, 0, false;
        }
      } else {
        result := BitOr(result, (b % 128 * Pow2(bitpos)) % TWO_32);
      }
      bitpos := (bitpos + 7) % 256;
      if b < 128 {
        break;
      }
    }
    if bitpos == 35 && b / 16 % 8 != 0 {
      return false, 0, false;
    }
    return true, result, false;
  }

  method DecodeVarint32(s: Stream) returns (ok: bool, dest: nat)
    requires s.Valid()
    modifies s
    ensures Kept(s, ok) && ok == Varint.Decode32(old(s.Rest())).Ok?
    ensures ok ==> (dest, s.Rest()) == Varint.Decode32(old(s.Rest())).value
  {
    var eof;
    ok, dest, eof := DecodeVarint32Eof(s);
  }

  // ---------- Skipping ----------

  method SkipVarint(s: Stream) returns (ok: bool)
    requires s.Valid()
    modifies s
    ensures Kept(s, ok) && ok == D.SkipVarint(old(s.Rest())).Some?
    ensures ok ==> s.Rest() == D.SkipVarint(old(s.Rest())).value
  {
    ghost var all := s.Rest();
    while true
      invariant Kept(s, true) && D.SkipVarint(all) == D.SkipVarint(s.Rest())
      decreases s.bytesLeft
    {
      var more, b := ReadByte(s);
      if !more {
        return false;
      }
      if b < 128 {
        return true;
      }
    }
  }

  method SkipField(s: Stream, wireType: nat) returns (ok: bool)
    requires s.Valid()
    modifies s
    ensures Kept(s, ok) && ok == D.SkipField(old(s.Rest()), wireType).Some?
    ensures ok ==> s.Rest() == D.SkipField(old(s.Rest()), wireType).value
    ensures if ok then D.Skips(old(s.Rest()), wireType, s.Rest()) else forall rest :: !D.Skips(old(s.Rest()), wireType, rest)
  {
    hide D.SkipVarint, Varint.Decode32, D.Skips;
    forall rest
      ensures D.SkipField(s.Rest(), wireType) == Some(rest) <==> D.Skips(s.Rest(), wireType, rest)
    {
      D.SkipExactly(s.Rest(), wireType, rest);
    }
    var b, size;
    if wireType == WT_VARINT {
      ok := SkipVarint(s);
    } else if wireType == WT_64BIT {
      ok, b := Read(s, 8);
    } else if wireType == WT_STRING {
      ok, size := DecodeVarint32(s);
      if ok {
        ok, b := Read(s, size);
      }
    } else if wireType == WT_32BIT {
      ok, b := Read(s, 4);
    } else {
      ok := false;
    }
  }

  // ---------- Substreams ----------

  /**
    * The parent gives up the substream's bytes but keeps its position: until the substream is closed,
    * the bytes that follow it start `size` further on.
    */
  method MakeSubstream(s: Stream) returns (ok: bool, sub: Stream)
    requires s.Valid()
    modifies s
    ensures fresh(sub) && sub.Valid() && s.Valid() && s.End() <= old(s.End())
    ensures ok == D.Substream(old(s.Rest())).Some?
    ensures ok ==> var (inside, after) := D.Substream(old(s.Rest())).value;
      sub.Rest() == inside && sub.data == s.data && sub.at == s.at
      && s.at + |inside| + s.bytesLeft == old(s.End()) && sub.End() == s.at + |inside|
      && s.data[s.at + |inside|..s.at + |inside| + s.bytesLeft] == after
  {
    hide Varint.Decode32;
    var size;
    ok, size := DecodeVarint32(s);
    if !ok {
      sub := new Stream.FromBuffer([]);
      return false, sub;
    }
    if s.bytesLeft < size {
      sub := new Stream.FromBuffer([]);
      return false, sub;
    }
    sub := new Stream.Limited(s, size);
    s.bytesLeft := s.bytesLeft - size;
    return true, sub;
  }

  /** Skips what is left of the substream and moves the parent right behind it. */
  method CloseSubstream(s: Stream, sub: Stream)
    requires sub.Valid() && sub.data == s.data && s != sub
    requires sub.End() + s.bytesLeft <= |s.data|
    modifies s`at, sub
    ensures s.Valid() && s.at == old(sub.End())
  {
    if sub.bytesLeft > 0 {
      var _, _ := Read(sub, sub.bytesLeft);
    }
    s.at := sub.at;
  }
}
