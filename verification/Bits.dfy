/** Machine words as naturals: their bits, and how the C operators act on them. */
module Bits {
  import opened Wire

  /** Bit k of a word, counted from the least significant one. */
  predicate Bit(w: nat, k: nat) {
    if k == 0 then w % 2 == 1 else Bit(w / 2, k - 1)
  }

  /** w & v */
  function BitAnd(a: nat, b: nat): nat {
    if a == 0 then 0
    else (if a % 2 == 1 && b % 2 == 1 then 1 else 0) + 2 * BitAnd(a / 2, b / 2)
  }

  /** ~w in a word of n bits. */
  function Complement(w: nat, n: nat): nat
    requires w < Pow2(n)
  {
    Pow2(n) - 1 - w
  }

  /** (1 << n) - 1 */
  function Ones(n: nat): nat {
    Pow2(n) - 1
  }

  /** w << s, truncated to n bits. */
  function ShiftLeft(w: nat, s: nat, n: nat): nat {
    w * Pow2(s) % Pow2(n)
  }

  /** w >> s */
  function ShiftRight(w: nat, s: nat): nat {
    if s == 0 then w else ShiftRight(w / 2, s - 1)
  }

  lemma {:induction false} ZeroBit(k: nat)
    ensures !Bit(0, k)
  {
    if k > 0 {
      ZeroBit(k - 1);
    }
  }

  lemma {:induction false} OrBit(a: nat, b: nat, k: nat)
    ensures Bit(BitOr(a, b), k) <==> Bit(a, k) || Bit(b, k)
  {
    ZeroBit(k);
    if k > 0 && (a != 0 || b != 0) {
      OrBit(a / 2, b / 2, k - 1);
    }
  }

  lemma {:induction false} AndBit(a: nat, b: nat, k: nat)
    ensures Bit(BitAnd(a, b), k) <==> Bit(a, k) && Bit(b, k)
  {
    ZeroBit(k);
    if k > 0 && a != 0 {
      AndBit(a / 2, b / 2, k - 1);
    }
  }

  lemma {:induction false} TimesPow2Bit(w: nat, s: nat, k: nat)
    ensures Bit(w * Pow2(s), k) <==> s <= k && Bit(w, k - s)
    decreases s
  {
    if s > 0 {
      var v := w * Pow2(s - 1);
      assert w * Pow2(s) == 2 * v;
      if k > 0 {
        TimesPow2Bit(w, s - 1, k - 1);
      }
    }
  }

  lemma {:induction false} TruncateBit(w: nat, n: nat, k: nat)
    ensures Bit(w % Pow2(n), k) <==> k < n && Bit(w, k)
    decreases n
  {
    var m := w % Pow2(n);
    if n == 0 {
      assert m == 0;
      ZeroBit(k);
    } else {
      HalveModulus(w, Pow2(n - 1));
      if k > 0 {
        TruncateBit(w / 2, n - 1, k - 1);
      }
    }
  }

  lemma HalveModulus(w: nat, m: nat)
    requires m > 0
    ensures w % (2 * m) % 2 == w % 2
    ensures w % (2 * m) / 2 == w / 2 % m
  {
    var h, b := w / 2, w % 2;
    var d, r := h / m, h % m;
    var md := m * d;
    assert h == md + r && w == 2 * h + b;
    DoubleProduct(m, d);
    ModUnique(w, 2 * m, d, 2 * r + b);
  }

  lemma DoubleProduct(m: nat, d: nat)
    ensures 2 * m * d == 2 * (m * d)
  {
  }

  lemma ShiftLeftBit(w: nat, s: nat, n: nat, k: nat)
    ensures Bit(ShiftLeft(w, s, n), k) <==> s <= k < n && Bit(w, k - s)
  {
    TruncateBit(w * Pow2(s), n, k);
    TimesPow2Bit(w, s, k);
  }

  /** Nothing is lost when the result fits the word. */
  lemma ShiftLeftFits(w: nat, s: nat, n: nat)
    requires w * Pow2(s) < Pow2(n)
    ensures ShiftLeft(w, s, n) == w * Pow2(s)
  {
    SmallMod(w * Pow2(s), Pow2(n));
  }

  lemma SmallMod(x: nat, m: nat)
    requires x < m
    ensures x % m == x
  {
  }

  lemma {:induction false} ShiftRightBit(w: nat, s: nat, k: nat)
    ensures Bit(ShiftRight(w, s), k) <==> Bit(w, k + s)
    decreases s
  {
    if s > 0 {
      ShiftRightBit(w / 2, s - 1, k);
    }
  }

  /** (1 << n) - 1 has exactly the lowest n bits. */
  lemma {:induction false} OnesBit(n: nat, k: nat)
    ensures Bit(Ones(n), k) <==> k < n
    decreases n
  {
    if n == 0 {
      ZeroBit(k);
    } else {
      assert Ones(n) / 2 == Ones(n - 1) && Ones(n) % 2 == 1;
      if k > 0 {
        OnesBit(n - 1, k - 1);
      }
    }
  }

  lemma {:induction false} ComplementBit(w: nat, n: nat, k: nat)
    requires w < Pow2(n)
    ensures Bit(Complement(w, n), k) <==> k < n && !Bit(w, k)
    decreases n
  {
    if n == 0 {
      ZeroBit(k);
    } else {
      var c := Complement(w, n);
      assert c / 2 == Complement(w / 2, n - 1) && c % 2 == 1 - w % 2;
      if k > 0 {
        ComplementBit(w / 2, n - 1, k - 1);
      }
    }
  }

  /** Words of n bits with the same bits are equal. */
  lemma {:induction false} SameBits(v: nat, w: nat, n: nat)
    requires v < Pow2(n) && w < Pow2(n)
    requires forall k: nat :: k < n ==> (Bit(v, k) <==> Bit(w, k))
    ensures v == w
    decreases n
  {
    if n > 0 {
      assert Bit(v, 0) <==> Bit(w, 0);
      forall k: nat | k < n - 1
        ensures Bit(v / 2, k) <==> Bit(w / 2, k)
      {
        assert Bit(v, k + 1) <==> Bit(w, k + 1);
      }
      SameBits(v / 2, w / 2, n - 1);
    }
  }

  lemma {:induction false} OrBound(a: nat, b: nat, n: nat)
    requires a < Pow2(n) && b < Pow2(n)
    ensures BitOr(a, b) < Pow2(n)
    decreases n
  {
    if n > 0 && (a != 0 || b != 0) {
      OrBound(a / 2, b / 2, n - 1);
    }
  }

  lemma {:induction false} AndBound(a: nat, b: nat)
    ensures BitAnd(a, b) <= a
    ensures BitAnd(a, b) <= b
    decreases a
  {
    if a != 0 {
      AndBound(a / 2, b / 2);
    }
  }

  /** Setting one bit of a word of n bits. */
  lemma SetBit(w: nat, j: nat, n: nat)
    requires w < Pow2(n) && j < n
    ensures BitOr(w, Pow2(j)) < Pow2(n)
    ensures forall k: nat :: Bit(BitOr(w, Pow2(j)), k) <==> k == j || Bit(w, k)
  {
    Pow2Monotone(j + 1, n);
    OrBound(w, Pow2(j), n);
    forall k: nat
      ensures Bit(BitOr(w, Pow2(j)), k) <==> k == j || Bit(w, k)
    {
      OrBit(w, Pow2(j), k);
      TimesPow2Bit(1, j, k);
      if k > j {
        OneOnlyBitZero(k - j);
      }
    }
  }

  lemma OneOnlyBitZero(k: nat)
    requires k > 0
    ensures !Bit(1, k)
  {
    ZeroBit(k - 1);
  }

  /** Testing one bit of a word. */
  lemma TestBit(w: nat, j: nat)
    ensures BitAnd(w, Pow2(j)) != 0 <==> Bit(w, j)
  {
    var a := BitAnd(w, Pow2(j));
    AndBit(w, Pow2(j), j);
    TimesPow2Bit(1, j, j);
    if !Bit(w, j) {
      forall k: nat | k < j + 1
        ensures Bit(a, k) <==> Bit(0, k)
      {
        AndBit(w, Pow2(j), k);
        TimesPow2Bit(1, j, k);
        ZeroBit(k);
      }
      AndBound(w, Pow2(j));
      SameBits(a, 0, j + 1);
    } else {
      ZeroBit(j);
    }
  }
}
