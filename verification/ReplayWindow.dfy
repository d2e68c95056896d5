/** Replay protection of DTLS records (section 4.1.2.6 of RFC 6347). */
module ReplayWindow {
  import opened Wire
  import opened Bits

  const WINDOW: nat := 64

  ghost predicate Distinct(s: seq<(nat, nat)>) {
    forall i, j :: 0 <= i < j < |s| ==> s[i] != s[j]
  }

  lemma DistinctAdd(s: seq<(nat, nat)>, x: (nat, nat))
    ensures Distinct(s + [x]) <==> Distinct(s) && x !in s
  {
    var t := s + [x];
    assert forall i :: 0 <= i < |s| ==> t[i] == s[i];
    assert t[|s|] == x;
    if Distinct(t) {
      assert Distinct(s);
    } else {
      var i, j :| 0 <= i < j < |t| && t[i] == t[j];
      assert t[i] == s[i];
    }
  }

  function BigEndian(bytes: seq<byte>): nat {
    if bytes == [] then 0 else 256 * BigEndian(bytes[..|bytes| - 1]) + bytes[|bytes| - 1]
  }

  lemma {:induction false} BigEndianBound(bytes: seq<byte>)
    ensures BigEndian(bytes) < Pow2(8 * |bytes|)
  {
    if bytes != [] {
      BigEndianBound(bytes[..|bytes| - 1]);
      Pow2Add(8 * (|bytes| - 1), 8);
      assert Pow2(8) == 256;
    }
  }

  lemma BigEndianStep(bytes: seq<byte>, i: nat)
    requires i < |bytes|
    ensures BigEndian(bytes[..i + 1]) == 256 * BigEndian(bytes[..i]) + bytes[i]
  {
    assert bytes[..i + 1][..i] == bytes[..i];
  }

  /** Byte strings of one length are determined by their number. */
  lemma {:induction false} BigEndianInjective(a: seq<byte>, b: seq<byte>)
    requires |a| == |b| && BigEndian(a) == BigEndian(b)
    ensures a == b
  {
    if a != [] {
      var n := |a| - 1;
      assert a[n] == BigEndian(a) % 256 && b[n] == BigEndian(b) % 256;
      BigEndianInjective(a[..n], b[..n]);
      assert a == a[..n] + [a[n]] && b == b[..n] + [b[n]];
    }
  }

  lemma OrLowByte(high: nat, low: byte)
    ensures BitOr(256 * high, low) == 256 * high + low
  {
    assert Pow2(8) == 256;
    BitOrIsAdd(low, high, 8);
    BitOrCommutes(256 * high, low);
  }

  lemma {:induction false} BitOrCommutes(a: nat, b: nat)
    ensures BitOr(a, b) == BitOr(b, a)
    decreases a + b
  {
    if a != 0 || b != 0 {
      BitOrCommutes(a / 2, b / 2);
    }
  }

  /** to_u64_be */
  method ToU64Be(bytes: seq<byte>) returns (ret: nat)
    requires |bytes| == 8
    ensures ret == BigEndian(bytes) < Pow2(64)
  {
    ret := 0;
    for i := 0 to 8
      invariant ret == BigEndian(bytes[..i])
    {
      BigEndianBound(bytes[..i]);
      ShiftByte(ret, i);
      ret := ShiftLeft(ret, 8, 64);
      OrLowByte(BigEndian(bytes[..i]), bytes[i]);
      ret := BitOr(ret, bytes[i]);
      BigEndianStep(bytes, i);
    }
    BigEndianBound(bytes);
    assert bytes[..8] == bytes;
  }

  lemma ShiftByte(w: nat, i: nat)
    requires i < 8 && w < Pow2(8 * i)
    ensures ShiftLeft(w, 8, 64) == 256 * w
  {
    assert Pow2(8) == 256;
    hide Pow2;
    Pow2Add(8 * i, 8);
    Pow2Monotone(8 * i + 8, 64);
    ShiftLeftFits(w, 8, 64);
  }

  /** Bit i of the mask says whether the number max - i was recorded. */
  ghost predicate Window(mask: nat, max: nat, seen: set<nat>) {
    && mask < Pow2(WINDOW)
    && (forall n :: n in seen ==> n <= max)
    && forall i: nat :: i < WINDOW ==> (Bit(mask, i) <==> max - i in seen)
  }

  lemma EmptyWindow()
    ensures Window(0, 0, {})
  {
    forall i: nat ensures !Bit(0, i) { ZeroBit(i); }
  }

  /** Sliding the window moves every bit, and drops those that leave it. */
  lemma SlideWindow(mask: nat, max: nat, seen: set<nat>, shift: nat)
    requires Window(mask, max, seen) && shift > 0
    ensures Window(if shift >= WINDOW then 0 else ShiftLeft(mask, shift, 64), max + shift, seen)
  {
    hide Pow2, Bit;
    var slid := if shift >= WINDOW then 0 else ShiftLeft(mask, shift, 64);
    forall i: nat | i < WINDOW
      ensures Bit(slid, i) <==> max + shift - i in seen
    {
      ZeroBit(i);
      ShiftLeftBit(mask, shift, 64, i);
      if i >= shift {
        assert Bit(mask, i - shift) <==> max - (i - shift) in seen;
      }
    }
  }

  lemma MarkWindow(mask: nat, max: nat, seen: set<nat>, n: nat)
    requires Window(mask, max, seen) && n <= max
    ensures Window(if max - n < WINDOW then BitOr(mask, ShiftLeft(1, max - n, 64)) else mask, max, seen + {n})
  {
    hide Pow2, Bit;
    if max - n < WINDOW {
      SmallShift(max - n);
      SetBit(mask, max - n, WINDOW);
    }
  }

  lemma SmallShift(idx: nat)
    requires idx < WINDOW
    ensures ShiftLeft(1, idx, 64) == Pow2(idx)
  {
    assert Pow2(idx + 1) == 2 * Pow2(idx);
    hide Pow2;
    Pow2Monotone(idx + 1, 64);
    ShiftLeftFits(1, idx, 64);
  }

  /** A sliding window over the last 64 sequence numbers of an epoch. */
  class Bitmap {
    var mask: nat
    var maxSeqNum: nat
    /** The numbers recorded since the bitmap was zeroed. */
    ghost var seen: set<nat>

    ghost predicate Valid()
      reads this
    {
      && (seen == {} ==> maxSeqNum == 0)
      && (seen != {} ==> maxSeqNum in seen)
      && Window(mask, maxSeqNum, seen)
    }

    constructor ()
      ensures Valid() && seen == {}
    {
      mask, maxSeqNum, seen := 0, 0, {};
      EmptyWindow();
    }

    /** memset(&bitmap, 0, sizeof(bitmap)) */
    method Zero()
      modifies this
      ensures Valid() && seen == {}
    {
      mask, maxSeqNum, seen := 0, 0, {};
      EmptyWindow();
    }

    /** dtls1_bitmap_should_discard: the number was seen, or it is left of the window. */
    method ShouldDiscard(seqNum: seq<byte>) returns (discard: bool)
      requires Valid() && |seqNum| == 8
      ensures discard <==> BigEndian(seqNum) in seen || BigEndian(seqNum) + WINDOW <= maxSeqNum
    {
      var n := ToU64Be(seqNum);
      if n > maxSeqNum {
        return false;
      }
      var idx := maxSeqNum - n;
      if idx >= WINDOW {
        return true;
      }
      SmallShift(idx);
      TestBit(mask, idx);
      return BitAnd(mask, ShiftLeft(1, idx, 64)) != 0;
    }

    /** dtls1_bitmap_record */
    method Record(seqNum: seq<byte>)
      requires Valid() && |seqNum| == 8
      modifies this
      ensures Valid()
      ensures seen == old(seen) + {BigEndian(seqNum)}
      ensures maxSeqNum == if BigEndian(seqNum) > old(maxSeqNum) then BigEndian(seqNum) else old(maxSeqNum)
    {
      hide Window, ShiftLeft, BitOr, BigEndian, Pow2;
      var n := ToU64Be(seqNum);
      if n > maxSeqNum {
        var shift := n - maxSeqNum;
        SlideWindow(mask, maxSeqNum, seen, shift);
        mask := if shift >= WINDOW then 0 else ShiftLeft(mask, shift, 64);
        maxSeqNum := n;
      }
      MarkWindow(mask, maxSeqNum, seen, n);
      var idx := maxSeqNum - n;
      if idx < WINDOW {
        mask := BitOr(mask, ShiftLeft(1, idx, 64));
      }
      seen := seen + {n};
    }
  }
}
