/** Incoming DTLS handshake messages, reassembled from fragments (section 4.2.3 of RFC 6347). */
module Reassembly {
  import opened Wire
  import opened Bits

  const HM_HEADER_LENGTH: nat := 12

  /** Whether position 8i + k exists and was received. */
  predicate At(marked: seq<bool>, i: nat, k: nat) {
    8 * i + k < |marked| && marked[8 * i + k]
  }

  /** Positions from start, inclusive, to end, exclusive, are received as well. */
  function WithRange(marked: seq<bool>, start: nat, end: nat): (r: seq<bool>)
    ensures |r| == |marked|
    ensures forall i :: 0 <= i < |r| ==> (r[i] <==> marked[i] || start <= i < end)
  {
    seq(|marked|, i requires 0 <= i < |marked| => marked[i] || start <= i < end)
  }

  predicate AllMarked(marked: seq<bool>) {
    forall i :: 0 <= i < |marked| ==> marked[i]
  }

  /** bit_range, in 32-bit unsigned arithmetic cut down to a byte. */
  function BitRange(start: nat, end: nat): (b: byte)
    requires start <= 8 && end <= 8
  {
    Pow2Monotone(start, 32);
    BitAnd(Complement(Ones(start), 32), Ones(end)) % 256
  }

  function ByteOr(a: byte, b: byte): (c: byte) {
    assert Pow2(8) == 256;
    OrBound(a, b, 8);
    BitOr(a, b)
  }

  lemma BitRangeBits(start: nat, end: nat, k: nat)
    requires start <= 8 && end <= 8
    ensures Bit(BitRange(start, end), k) <==> start <= k < end
  {
    assert Pow2(8) == 256;
    hide Pow2, Bit, BitAnd, Complement, Ones;
    Pow2Monotone(start, 32);
    OnesBit(start, k);
    OnesBit(end, k);
    SmallOnes(start);
    ComplementBit(Ones(start), 32, k);
    AndBit(Complement(Ones(start), 32), Ones(end), k);
    TruncateBit(BitAnd(Complement(Ones(start), 32), Ones(end)), 8, k);
  }

  lemma SmallOnes(n: nat)
    requires n <= 32
    ensures Ones(n) < Pow2(32)
  {
    Pow2Monotone(n, 32);
  }

  // ---------- One byte of the mask ----------

  /** The eight bits of mask byte i say which of positions 8i to 8i + 7 were received. */
  ghost predicate Shows(b: byte, i: nat, marked: seq<bool>) {
    forall k: nat :: k < 8 ==> (Bit(b, k) <==> At(marked, i, k))
  }

  /** Setting a range of bits in one byte, when that is the part of the range in its positions. */
  lemma OrShows(b: byte, i: nat, marked: seq<bool>, start: nat, end: nat, lo: nat, hi: nat)
    requires lo <= 8 && hi <= 8 && Shows(b, i, marked) && end <= |marked|
    requires if start <= 8 * i then lo == 0 else lo == start - 8 * i
    requires if 8 * i + 8 <= end then hi == 8 else hi == end - 8 * i
    ensures Shows(ByteOr(b, BitRange(lo, hi)), i, WithRange(marked, start, end))
  {
    hide Bit, BitRange;
    forall k: nat | k < 8
      ensures Bit(ByteOr(b, BitRange(lo, hi)), k) <==> At(WithRange(marked, start, end), i, k)
    {
      BitRangeBits(lo, hi, k);
      OrBit(b, BitRange(lo, hi), k);
      assert Bit(b, k) <==> At(marked, i, k);
    }
  }

  /** A byte wholly inside the range. */
  lemma FullShows(i: nat, marked: seq<bool>, start: nat, end: nat)
    requires start <= 8 * i && 8 * i + 8 <= end <= |marked|
    ensures Shows(0xff, i, WithRange(marked, start, end))
  {
    FullByte();
    hide Bit, BitRange;
    forall k: nat | k < 8
      ensures Bit(0xff, k) <==> At(WithRange(marked, start, end), i, k)
    {
      BitRangeBits(0, 8, k);
    }
  }

  /** A byte outside the range. */
  lemma SameShows(b: byte, i: nat, marked: seq<bool>, start: nat, end: nat)
    requires Shows(b, i, marked)
    requires 8 * i + 8 <= start || end <= 8 * i
    ensures Shows(b, i, WithRange(marked, start, end))
  {
    hide Bit;
    forall k: nat | k < 8
      ensures Bit(b, k) <==> At(WithRange(marked, start, end), i, k)
    {
      assert Bit(b, k) <==> At(marked, i, k);
    }
  }

  /** A mask byte has exactly its lowest r bits if all of its r positions were received. */
  lemma LowBits(b: byte, i: nat, marked: seq<bool>, r: nat)
    requires r <= 8 && Shows(b, i, marked)
    requires 8 * i + r == |marked| || (r == 8 && 8 * i + 8 <= |marked|)
    ensures b == BitRange(0, r) <==> forall k: nat :: k < r ==> At(marked, i, k)
  {
    assert Pow2(8) == 256;
    hide Bit, BitRange, Pow2;
    forall k: nat
      ensures Bit(BitRange(0, r), k) <==> k < r
    {
      BitRangeBits(0, r, k);
    }
    if b == BitRange(0, r) {
      forall k: nat | k < r
        ensures At(marked, i, k)
      {
        assert Bit(b, k);
      }
    } else if forall k: nat :: k < r ==> At(marked, i, k) {
      forall k: nat | k < 8
        ensures Bit(b, k) <==> Bit(BitRange(0, r), k)
      {
        assert Bit(b, k) <==> At(marked, i, k);
      }
      SameBits(b, BitRange(0, r), 8);
    }
  }

  lemma FullByte()
    ensures BitRange(0, 8) == 0xff
  {
    assert Pow2(8) == 256;
    hide Bit, BitRange, Pow2;
    forall k: nat | k < 8
      ensures Bit(BitRange(0, 8), k) <==> Bit(255, k)
    {
      BitRangeBits(0, 8, k);
      OnesBit(8, k);
    }
    SameBits(BitRange(0, 8), 255, 8);
  }

  // ---------- Message headers ----------

  const MAX_U16: nat := 0xFFFF
  const MAX_U24: nat := 0xFF_FFFF

  /** type, 24-bit message length, 16-bit sequence number, 24-bit fragment offset and length */
  datatype Header = Header(msgType: byte, msgLen: nat, seqNum: nat, fragOff: nat, fragLen: nat) {
    predicate Fits() {
      msgLen <= MAX_U24 && seqNum <= MAX_U16 && fragOff <= MAX_U24 && fragLen <= MAX_U24
    }
  }

  function U16Bytes(n: nat): (b: seq<byte>)
    requires n <= MAX_U16
    ensures |b| == 2
  {
    [n / 0x100, n % 0x100]
  }

  function U24Bytes(n: nat): (b: seq<byte>)
    requires n <= MAX_U24
    ensures |b| == 3
  {
    [n / 0x1_0000, n / 0x100 % 0x100, n % 0x100]
  }

  function HeaderBytes(h: Header): (b: seq<byte>)
    requires h.Fits()
    ensures |b| == HM_HEADER_LENGTH
  {
    [h.msgType] + U24Bytes(h.msgLen) + U16Bytes(h.seqNum) + U24Bytes(h.fragOff) + U24Bytes(h.fragLen)
  }

  function U16Value(b: seq<byte>): (n: nat)
    requires |b| == 2
    ensures n <= MAX_U16
  {
    (b[0] as int) * 0x100 + b[1]
  }

  function U24Value(b: seq<byte>): (n: nat)
    requires |b| == 3
    ensures n <= MAX_U24
  {
    (b[0] as int) * 0x1_0000 + (b[1] as int) * 0x100 + b[2]
  }

  /** dtls1_parse_fragment: the header, the fragment's body and what follows. */
  function ParseFragment(bytes: seq<byte>): (r: Option<(Header, seq<byte>, seq<byte>)>)
    ensures r.Some? ==> r.value.0.Fits() && |r.value.1| == r.value.0.fragLen && |r.value.2| < |bytes|
  {
    if |bytes| < HM_HEADER_LENGTH then None
    else
      var h := Header(bytes[0], U24Value(bytes[1..4]), U16Value(bytes[4..6]), U24Value(bytes[6..9]), U24Value(bytes[9..12]));
      if |bytes| < HM_HEADER_LENGTH + h.fragLen then None
      else Some((h, bytes[12..12 + h.fragLen], bytes[12 + h.fragLen..]))
  }

  lemma U24RoundTrip(n: nat)
    requires n <= MAX_U24
    ensures U24Value(U24Bytes(n)) == n
  {
  }

  lemma FragmentRoundTrip(h: Header, body: seq<byte>, rest: seq<byte>)
    requires h.Fits() && h.fragLen == |body|
    ensures ParseFragment(HeaderBytes(h) + body + rest) == Some((h, body, rest))
  {
    var bytes := HeaderBytes(h) + body + rest;
    assert bytes[1..4] == U24Bytes(h.msgLen);
    assert bytes[4..6] == U16Bytes(h.seqNum);
    assert bytes[6..9] == U24Bytes(h.fragOff);
    assert bytes[9..12] == U24Bytes(h.fragLen);
    U24RoundTrip(h.msgLen);
    U24RoundTrip(h.fragOff);
    U24RoundTrip(h.fragLen);
  }

  // ---------- Fragments ----------

  /** What a partly received message looks like: its header, which bytes arrived, and header and body. */
  datatype Partial = Partial(msgType: byte, seqNum: nat, marked: seq<bool>, data: seq<byte>) {
    predicate Complete() {
      AllMarked(marked)
    }
  }

  /** What newly allocated memory holds, for every message and position. */
  type Junk = (Header, nat) -> byte

  function FreshPartial(h: Header, junk: Junk): Partial
    requires h.Fits()
  {
    Partial(h.msgType, h.seqNum, seq(h.msgLen, _ => false), WholeHeader(h) + seq(h.msgLen, i requires 0 <= i < h.msgLen => junk(h, i)))
  }

  /** The header of the whole message in a single fragment. */
  function WholeHeader(h: Header): (b: seq<byte>)
    requires h.Fits()
    ensures |b| == HM_HEADER_LENGTH
  {
    HeaderBytes(Header(h.msgType, h.msgLen, h.seqNum, 0, h.msgLen))
  }

  /** The body of one fragment is copied into place and its range marked. */
  function Received(p: Partial, off: nat, body: seq<byte>): Partial
    requires |p.data| == HM_HEADER_LENGTH + |p.marked| && off + |body| <= |p.marked|
  {
    if p.Complete() then p
    else
      p.(marked := WithRange(p.marked, off, off + |body|),
         data := p.data[..HM_HEADER_LENGTH + off] + body + p.data[HM_HEADER_LENGTH + off + |body|..])
  }

  ghost predicate MaskShows(mask: seq<byte>, marked: seq<bool>) {
    |mask| == (|marked| + 7) / 8 && forall i :: 0 <= i < |mask| ==> Shows(mask[i], i, marked)
  }

  /** hm_fragment */
  class Fragment {
    const msgType: byte
    const seqNum: nat
    const msgLen: nat
    const data: array<byte>
    /** A bit for every byte of the message, or null once all were received. */
    var reassembly: array?<byte>
    ghost var marked: seq<bool>

    ghost predicate Valid()
      reads this, Repr()
    {
      && |marked| == msgLen && data.Length == HM_HEADER_LENGTH + msgLen && data != reassembly
      && if reassembly == null then AllMarked(marked) else !AllMarked(marked) && MaskShows(reassembly[..], marked)
    }

    ghost function Repr(): set<object>
      reads this
    {
      {this, data} + if reassembly == null then {} else {reassembly}
    }

    ghost function Now(): Partial
      reads this, data
    {
      Partial(msgType, seqNum, marked, data[..])
    }

    /** dtls1_hm_fragment_new: an empty message is complete at once. */
    constructor (h: Header, junk: Junk)
      requires h.Fits()
      ensures Valid() && fresh(Repr())
      ensures Now() == FreshPartial(h, junk)
    {
      msgType, seqNum, msgLen := h.msgType, h.seqNum, h.msgLen;
      var bytes := WholeHeader(h);
      data := new byte[HM_HEADER_LENGTH + h.msgLen](i => if 0 <= i < HM_HEADER_LENGTH then bytes[i] else if i < HM_HEADER_LENGTH then 0 else junk(h, i - HM_HEADER_LENGTH));
      reassembly := null;
      marked := seq(h.msgLen, _ => false);
      new;
      hide HeaderBytes;
      assert data[..HM_HEADER_LENGTH] == bytes;
      assert data[HM_HEADER_LENGTH..] == seq(h.msgLen, i requires 0 <= i < h.msgLen => junk(h, i));
      assert data[..] == data[..HM_HEADER_LENGTH] + data[HM_HEADER_LENGTH..];
      if msgLen > 0 {
        assert !marked[0];
        reassembly := new byte[(msgLen + 7) / 8](_ => 0);
        forall i | 0 <= i < reassembly.Length
          ensures Shows(0, i, marked)
        {
          forall k: nat { ZeroBit(k); }
        }
      }
    }

    /** The three cases of dtls1_hm_fragment_mark that set bits. */
    method SetBits(start: nat, end: nat)
      requires reassembly != null && start < end <= |marked| && MaskShows(reassembly[..], marked)
      modifies reassembly
      ensures MaskShows(reassembly[..], WithRange(marked, start, end))
    {
      hide Shows, BitRange, ByteOr, WithRange;
      var first, last := start / 8, end / 8;
      ghost var before, after := reassembly[..], WithRange(marked, start, end);
      forall i | 0 <= i < |before| && (i < first || i > last || (i == last && end % 8 == 0))
        ensures Shows(before[i], i, after)
      {
        SameShows(before[i], i, marked, start, end);
      }
      if first == last {
        OrShows(before[first], first, marked, start, end, start % 8, end % 8);
        reassembly[first] := ByteOr(reassembly[first], BitRange(start % 8, end % 8));
        assert reassembly[..] == before[first := reassembly[first]];
      } else {
        OrShows(before[first], first, marked, start, end, start % 8, 8);
        reassembly[first] := ByteOr(reassembly[first], BitRange(start % 8, 8));
        for i := first + 1 to last
          invariant reassembly[..first] == before[..first] && reassembly[i..] == before[i..]
          invariant forall j :: first <= j < i ==> Shows(reassembly[j], j, after)
        {
          FullShows(i, marked, start, end);
          reassembly[i] := 0xff;
        }
        assert forall j :: last < j < |before| ==> reassembly[j] == before[last..][j - last];
        if end % 8 != 0 {
          assert reassembly[last] == before[last..][0];
          OrShows(before[last], last, marked, start, end, 0, end % 8);
          reassembly[last] := ByteOr(reassembly[last], BitRange(0, end % 8));
        } else if last < |before| {
          assert reassembly[last] == before[last..][0];
        }
        assert forall j :: 0 <= j < first ==> reassembly[j] == before[..first][j];
      }
    }

    /** The check at the end of dtls1_hm_fragment_mark. */
    method IsComplete() returns (complete: bool)
      requires reassembly != null && |marked| == msgLen && MaskShows(reassembly[..], marked)
      ensures complete <==> AllMarked(marked)
    {
      hide Shows, BitRange;
      FullByte();
      var full := msgLen / 8;
      for i := 0 to full
        invariant forall j :: 0 <= j < 8 * i ==> marked[j]
      {
        assert Shows(reassembly[..][i], i, marked);
        LowBits(reassembly[i], i, marked, 8);
        if reassembly[i] != 0xff {
          return false;
        }
        EightMore(marked, i, 8);
      }
      if msgLen % 8 != 0 {
        assert Shows(reassembly[..][full], full, marked);
        LowBits(reassembly[full], full, marked, msgLen % 8);
        if reassembly[full] != BitRange(0, msgLen % 8) {
          return false;
        }
        EightMore(marked, full, msgLen % 8);
      }
      return true;
    }

    /** dtls1_hm_fragment_mark: the mask disappears exactly when every byte has arrived. */
    method Mark(start: nat, end: nat)
      requires Valid() && reassembly != null && start <= end <= msgLen
      modifies this, reassembly
      ensures Valid() && marked == WithRange(old(marked), start, end)
      ensures reassembly == null <==> AllMarked(marked)
      ensures reassembly == null || reassembly == old(reassembly)
    {
      hide MaskShows;
      if start == end {
        assert WithRange(marked, start, end) == marked;
        return;
      }
      SetBits(start, end);
      marked := WithRange(marked, start, end);
      var complete := IsComplete();
      if complete {
        reassembly := null;
      }
    }

    /** What dtls1_open_handshake does with one fragment of this message. */
    method Receive(off: nat, body: seq<byte>)
      requires Valid() && off + |body| <= msgLen
      modifies Repr()
      ensures Valid() && Repr() <= old(Repr())
      ensures Now() == Received(old(Now()), off, body)
    {
      hide MaskShows;
      if reassembly == null {
        return;
      }
      ghost var before, mask := data[..], reassembly[..];
      var at := HM_HEADER_LENGTH + off;
      forall i | 0 <= i < |body| {
        data[at + i] := body[i];
      }
      assert data[..] == before[..at] + body + before[at + |body|..];
      assert reassembly[..] == mask;
      Mark(off, off + |body|);
    }
  }

  lemma EightMore(marked: seq<bool>, i: nat, r: nat)
    requires 8 * i + r <= |marked| && forall k: nat :: k < r ==> At(marked, i, k)
    ensures forall j :: 8 * i <= j < 8 * i + r ==> marked[j]
  {
    forall j | 8 * i <= j < 8 * i + r
      ensures marked[j]
    {
      assert At(marked, i, j - 8 * i);
    }
  }

  // ---------- Any sequence of marks ----------

  /** What is marked after the given ranges, from nothing. */
  function MarkedBy(len: nat, ranges: seq<(nat, nat)>): (r: seq<bool>)
    ensures |r| == len
  {
    if ranges == [] then seq(len, _ => false)
    else
      var last := ranges[|ranges| - 1];
      WithRange(MarkedBy(len, ranges[..|ranges| - 1]), last.0, last.1)
  }

  predicate Covered(ranges: seq<(nat, nat)>, i: nat) {
    exists r | r in ranges :: r.0 <= i < r.1
  }

  lemma {:induction false} MarkedIffCovered(len: nat, ranges: seq<(nat, nat)>, i: nat)
    requires i < len
    ensures MarkedBy(len, ranges)[i] <==> Covered(ranges, i)
  {
    if ranges != [] {
      var n := |ranges| - 1;
      MarkedIffCovered(len, ranges[..n], i);
      assert ranges == ranges[..n] + [ranges[n]];
      if Covered(ranges, i) {
        var r :| r in ranges && r.0 <= i < r.1;
        assert r in ranges[..n] || r == ranges[n];
      }
    }
  }

  /** The mask disappears exactly when the ranges received so far cover the whole message. */
  method MarkAll(f: Fragment, ranges: seq<(nat, nat)>)
    requires f.Valid() && forall i :: 0 <= i < f.msgLen ==> !f.marked[i]
    requires forall r :: r in ranges ==> r.0 <= r.1 <= f.msgLen
    modifies f.Repr()
    ensures f.Valid()
    ensures f.reassembly == null <==> forall i: nat :: i < f.msgLen ==> Covered(ranges, i)
    ensures f.reassembly != null ==> forall i: nat :: i < f.msgLen ==> (f.marked[i] <==> Covered(ranges, i))
  {
    hide MaskShows, Covered;
    assert f.marked == MarkedBy(f.msgLen, []);
    for n := 0 to |ranges|
      invariant f.Valid() && f.Repr() <= old(f.Repr())
      invariant f.marked == MarkedBy(f.msgLen, ranges[..n])
    {
      assert ranges[..n + 1][..n] == ranges[..n];
      if f.reassembly != null {
        assert ranges[n] in ranges;
        f.Mark(ranges[n].0, ranges[n].1);
      } else {
        assert WithRange(f.marked, ranges[n].0, ranges[n].1) == f.marked;
      }
    }
    assert ranges[..|ranges|] == ranges;
    forall i: nat | i < f.msgLen
      ensures f.marked[i] <==> Covered(ranges, i)
    {
      MarkedIffCovered(f.msgLen, ranges, i);
    }
  }
}
