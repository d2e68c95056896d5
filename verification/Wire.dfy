/** Bytes, error codes and powers of two shared by the protocol buffer modules. */
module Wire {

  type byte = x: int | 0 <= x < 256

  const TWO_31: int := 0x8000_0000
  const TWO_32: int := 0x1_0000_0000
  const TWO_63: int := 0x8000_0000_0000_0000
  const TWO_64: int := 0x1_0000_0000_0000_0000

  /** One constructor for each error message the codec can set. */
  datatype Error =
    | EndOfStream
    | VarintOverflow
    | InvalidWireType
    | ParentStreamTooShort
    | ArrayOverflow
    | IntegerTooLarge
    | InvalidDataSize
    | BytesOverflow
    | StringOverflow
    | SizeTooLarge
    | IncorrectFixedLength
    | MissingRequiredField
    | StreamFull
    | ArrayMaxSizeExceeded
    | BytesSizeExceeded
    | SubmsgSizeChanged

  datatype Option<+T> = None | Some(value: T) {
    predicate IsFailure() {
      None?
    }

    function PropagateFailure<U>(): Option<U>
      requires None?
    {
      None
    }

    function Extract(): T
      requires Some?
    {
      value
    }
  }

  datatype Result<+T> = Ok(value: T) | Err(error: Error) {
    predicate IsFailure() {
      Err?
    }

    function PropagateFailure<U>(): Result<U>
      requires Err?
    {
      Err(error)
    }

    function Extract(): T
      requires Ok?
    {
      value
    }

    function ToOption(): Option<T> {
      if Ok? then Some(value) else None
    }
  }

  /** What a cipher makes of the k-th plaintext it is given, or None if it fails. */
  type Cipher = (nat, seq<byte>) -> Option<seq<byte>>

  function Pow2(k: nat): (p: nat)
    ensures p > 0
  {
    if k == 0 then 1 else 2 * Pow2(k - 1)
  }

  lemma {:induction false} Pow2Add(j: nat, k: nat)
    ensures Pow2(j + k) == Pow2(j) * Pow2(k)
  {
    if j > 0 {
      Pow2Add(j - 1, k);
      assert 2 * Pow2(j - 1) * Pow2(k) == 2 * (Pow2(j - 1) * Pow2(k));
    }
  }

  lemma Pow2Monotone(j: nat, k: nat)
    requires j <= k
    ensures Pow2(j) <= Pow2(k)
  {
    if j < k {
      Pow2Monotone(j, k - 1);
    }
  }

  lemma Pow2Constants()
    ensures Pow2(7) == 128 && Pow2(28) == 0x1000_0000 && Pow2(31) == TWO_31 && Pow2(32) == TWO_32
    ensures Pow2(63) == TWO_63 && Pow2(64) == TWO_64
  {
    assert Pow2(7) == 128 && Pow2(4) == 16 && Pow2(3) == 8;
    hide Pow2;
    Pow2Add(7, 7);
    Pow2Add(14, 14);
    Pow2Add(28, 4);
    Pow2Add(28, 3);
    Pow2Add(32, 32);
    Pow2Add(32, 31);
  }

  /** Bitwise OR of two unsigned integers of any width. */
  function BitOr(a: nat, b: nat): (r: nat)
    decreases a + b
  {
    if a == 0 && b == 0 then 0
    else (if a % 2 == 1 || b % 2 == 1 then 1 else 0) + 2 * BitOr(a / 2, b / 2)
  }

  lemma {:induction false} BitOrZero(b: nat)
    ensures BitOr(0, b) == b
  {
    if b > 0 {
      BitOrZero(b / 2);
    }
  }

  /** OR is addition when the operands share no bit. */
  lemma {:induction false} BitOrIsAdd(a: nat, m: nat, k: nat)
    requires a < Pow2(k)
    ensures BitOr(a, m * Pow2(k)) == a + m * Pow2(k)
  {
    var b := m * Pow2(k);
    if k == 0 {
      BitOrZero(b);
    } else if a != 0 || b != 0 {
      assert b == 2 * (m * Pow2(k - 1));
      BitOrIsAdd(a / 2, m, k - 1);
    }
  }

  lemma MulMonotone(n: nat, a: int, b: int)
    requires a <= b
    ensures n * a <= n * b
  {
  }

  /** Quotient and remainder are unique. */
  lemma ModUnique(x: int, n: nat, d: int, r: int)
    requires 0 <= r < n && x == n * d + r
    ensures x % n == r && x / n == d
  {
    var d', r' := x / n, x % n;
    assert n * (d + 1) == n * d + n;
    assert n * (d' + 1) == n * d' + n;
    if d < d' {
      MulMonotone(n, d + 1, d');
    } else if d' < d {
      MulMonotone(n, d' + 1, d);
    }
  }

  /** Shifting left inside a wider word: multiplying commutes with the truncation. */
  lemma ShiftTruncate(x: nat, j: nat, k: nat)
    requires j <= k
    ensures (x * Pow2(j)) % Pow2(k) == (x % Pow2(k - j)) * Pow2(j)
  {
    var p, q := Pow2(j), Pow2(k - j);
    Pow2Add(j, k - j);
    Scale(x, p, q);
  }

  lemma Scale(x: nat, p: nat, q: nat)
    requires p > 0 && q > 0
    ensures p * q > 0
    ensures (x * p) % (p * q) == (x % q) * p
  {
    var d, r := x / q, x % q;
    MulMonotone(p, r + 1, q);
    assert p * (r + 1) == p * r + p;
    assert x * p == (q * d + r) * p;
    assert (q * d + r) * p == (q * d) * p + r * p;
    assert (q * d) * p == (p * q) * d;
    ModUnique(x * p, p * q, d, r * p);
  }

  lemma BelowProduct(r: nat, p: nat, m: nat, q: nat)
    requires r < p && m < q
    ensures r + m * p < p * q
  {
    MulMonotone(p, m + 1, q);
    assert p * (m + 1) == m * p + p;
  }

  /** OR-ing a left-shifted value into a k-bit word whose lower j bits are in use. */
  lemma OrShifted(r: nat, j: nat, k: nat, g: nat)
    requires j <= k && r < Pow2(j)
    ensures BitOr(r, (g * Pow2(j)) % Pow2(k)) == r + (g % Pow2(k - j)) * Pow2(j) < Pow2(k)
  {
    var m := g % Pow2(k - j);
    ShiftTruncate(g, j, k);
    BitOrIsAdd(r, m, j);
    Pow2Add(j, k - j);
    BelowProduct(r, Pow2(j), m, Pow2(k - j));
  }
}
