/** The bit mask in which the decoder notes the required fields it has met. */
module RequiredMask {
  import opened Wire
  import opened Bits

  const ALL_BITS: int := 0xFFFF_FFFF

  class FieldsSeen {
    const words: array<nat>

    ghost predicate Valid()
      reads this, words
    {
      words.Length == 2 && words[0] < TWO_32 && words[1] < TWO_32
    }

    constructor ()
      ensures Valid() && fresh(words)
      ensures forall r: nat :: r < 64 ==> !Has(r)
    {
      words := new nat[2](_ => 0);
      new;
      forall r: nat | r < 64
        ensures !Has(r)
      {
        ZeroBit(r % 32);
      }
    }

    /** Whether the required field with that index was met. */
    ghost predicate Has(r: nat)
      requires Valid() && r < 64
      reads this, words
    {
      Bit(words[r / 32], r % 32)
    }

    method Mark(r: nat)
      requires Valid() && r < 64
      modifies words
      ensures Valid()
      ensures forall q: nat :: q < 64 ==> (Has(q) <==> q == r || old(Has(q)))
    {
      hide Bit, BitOr, Pow2;
      Pow2Constants();
      SetBit(words[r / 32], r % 32, 32);
      words[r / 32] := BitOr(words[r / 32], Pow2(r % 32));
    }

    /** The final test: whole words first, then the low bits of the last one. */
    method Complete(count: nat) returns (ok: bool)
      requires Valid() && count <= 64
      requires forall r: nat :: r < 64 && Has(r) ==> r < count
      ensures ok <==> forall r: nat :: r < count ==> Has(r)
    {
      hide Bit, Pow2;
      for i := 0 to count / 32
        invariant forall r: nat :: r < 32 * i ==> Has(r)
      {
        FullWord(words[i], 32);
        if words[i] != ALL_BITS {
          ghost var k: nat :| k < 32 && !Bit(words[i], k);
          assert !Has(32 * i + k);
          return false;
        }
        assert forall r: nat :: 32 * i <= r < 32 * i + 32 ==> Bit(words[i], r % 32);
      }
      var n := count % 32;
      if n != 0 {
        var w := words[count / 32];
        ShiftedOnes(n);
        forall k: nat | k < 32 && Bit(w, k)
          ensures k < n
        {
          assert Has(32 * (count / 32) + k);
        }
        FullWord(w, n);
        if w != ShiftRight(ALL_BITS, 32 - n) {
          ghost var k: nat :| k < n && !Bit(w, k);
          assert !Has(32 * (count / 32) + k);
          return false;
        }
        assert forall r: nat :: 32 * (count / 32) <= r < count ==> Bit(w, r % 32);
      }
      return true;
    }
  }

  /** allbits >> (32 - n) is (1 << n) - 1. */
  lemma ShiftedOnes(n: nat)
    requires n <= 32
    ensures ShiftRight(ALL_BITS, 32 - n) == Ones(n)
  {
    OnesShifted(32, 32 - n);
    Pow2Constants();
  }

  lemma {:induction false} OnesShifted(n: nat, s: nat)
    requires s <= n
    ensures ShiftRight(Ones(n), s) == Ones(n - s)
    decreases s
  {
    if s > 0 {
      OnesShifted(n - 1, s - 1);
    }
  }

  ghost predicate LowBitsSet(w: nat, n: nat) {
    forall k: nat :: k < n ==> Bit(w, k)
  }

  /** A word whose bits all lie below n is full exactly if it equals (1 << n) - 1. */
  lemma FullWord(w: nat, n: nat)
    requires n <= 32 && w < TWO_32
    requires forall k: nat :: n <= k < 32 ==> !Bit(w, k)
    ensures w == Ones(n) <==> LowBitsSet(w, n)
    ensures n == 32 ==> Ones(n) == ALL_BITS
  {
    Pow2Constants();
    hide Pow2;
    Pow2Monotone(n, 32);
    forall k: nat | k < 32
      ensures Bit(Ones(n), k) <==> k < n
    {
      OnesBit(n, k);
    }
    if LowBitsSet(w, n) {
      SameBits(w, Ones(n), 32);
    }
  }
}
