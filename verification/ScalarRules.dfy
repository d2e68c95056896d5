/** What exactly the readers of scalars accept, by the values and bytes rather than by how they are read. */
module ScalarRules {
  import opened Wire
  import Varint
  import opened Descriptor
  import opened DecodeSpec

  predicate Width(dataSize: nat) {
    dataSize == 1 || dataSize == 2 || dataSize == 4 || dataSize == 8
  }

  /** The integers of that many bytes. */
  predicate InSigned(n: int, dataSize: nat) {
    Width(dataSize) && 0 - Pow2(8 * dataSize - 1) <= n < Pow2(8 * dataSize - 1)
  }

  predicate InUnsigned(n: int, dataSize: nat) {
    Width(dataSize) && 0 <= n < Pow2(8 * dataSize)
  }

  /** A length prefix, that many bytes, and the rest. */
  predicate Delimits(s: seq<byte>, contents: seq<byte>, rest: seq<byte>) {
    Varint.Decode32(s) == Ok((|contents|, contents + rest))
  }

  /** The bytes up to the first NUL. */
  predicate CString(raw: seq<byte>, b: seq<byte>) {
    0 !in b && b <= raw && (b == raw || raw[|b|] == 0)
  }

  /**
    * The stream starts with a value of the field. Signed varints count modulo 2^64, or modulo 2^32 for
    * fields of at most four bytes; nothing out of range is accepted, and no blob that is too long.
    */
  ghost predicate Holds(f: FieldDesc, s: seq<byte>, v: Value, rest: seq<byte>) {
    match f.kind
    case VarintKind =>
      && v.Int? && InSigned(v.n, f.dataSize) && Varint.Decode64(s).Ok? && Varint.Decode64(s).value.1 == rest
      && (Varint.Decode64(s).value.0 - v.n) % (if f.dataSize == 8 then TWO_64 else TWO_32) == 0
    case UVarintKind => v.Int? && InUnsigned(v.n, f.dataSize) && Varint.Decode64(s).Ok? && Varint.Decode64(s).value == (v.n, rest)
    case SVarintKind =>
      && v.Int? && InSigned(v.n, f.dataSize) && Varint.Decode64(s).Ok?
      && Varint.Decode64(s).value == (if v.n < 0 then -2 * v.n - 1 else 2 * v.n, rest)
    case Fixed32Kind => v.Int? && 0 <= v.n < TWO_32 && s == Varint.FixedBytes(v.n, 4) + rest
    case Fixed64Kind => v.Int? && 0 <= v.n < TWO_64 && s == Varint.FixedBytes(v.n, 8) + rest
    case BytesKind => v.Blob? && Delimits(s, v.b, rest) && |v.b| + 4 <= f.dataSize
    case StringKind => v.Blob? && exists raw :: Delimits(s, raw, rest) && |raw| + 1 <= f.dataSize && CString(raw, v.b)
    case FixedBytesKind =>
      && v.Blob? && |v.b| == f.dataSize
      && (Delimits(s, v.b, rest) || (Delimits(s, [], rest) && forall i :: 0 <= i < |v.b| ==> v.b[i] == 0))
    case SubmessageKind(_) => false
  }

  lemma Sizes(dataSize: nat)
    ensures Pow2(15) == 0x8000 && Pow2(16) == 0x1_0000
    ensures Half(dataSize) != 0 <==> Width(dataSize)
    ensures Width(dataSize) ==> Half(dataSize) == Pow2(8 * dataSize - 1) && 2 * Half(dataSize) == Pow2(8 * dataSize)
  {
    Pow2Constants();
    assert Pow2(8) == 256;
    Pow2Add(8, 8);
    Pow2Add(8, 7);
  }

  lemma SignedExactly(dataSize: nat, s: seq<byte>, n: int, rest: seq<byte>)
    ensures DecodeVarint(dataSize, s) == Some((n, rest)) <==>
      && InSigned(n, dataSize) && Varint.Decode64(s).Ok? && Varint.Decode64(s).value.1 == rest
      && (Varint.Decode64(s).value.0 - n) % (if dataSize == 8 then TWO_64 else TWO_32) == 0
  {
    hide Pow2, Varint.Decode64, NarrowSigned, InSigned, ToSigned, Half;
    if Varint.Decode64(s).Ok? {
      var width := if dataSize == 8 then 8 else 4;
      assert Half(width) != 0 by { Sizes(width); }
      NarrowExactly(ToSigned(Varint.Decode64(s).value.0, width), dataSize, n);
      CastExactly(Varint.Decode64(s).value.0, width, n);
      InSignedFits(dataSize, n);
    }
  }

  lemma InSignedFits(dataSize: nat, n: int)
    ensures InSigned(n, dataSize) ==> if dataSize == 8 then -TWO_63 <= n < TWO_63 else -TWO_31 <= n < TWO_31
  {
    hide Pow2;
    Sizes(dataSize);
  }

  lemma NarrowExactly(x: int, dataSize: nat, n: int)
    ensures NarrowSigned(x, dataSize) == Some(n) <==> InSigned(n, dataSize) && x == n
  {
    hide Pow2;
    Sizes(dataSize);
  }

  lemma UnsignedExactly(dataSize: nat, s: seq<byte>, n: int, rest: seq<byte>)
    ensures DecodeUVarint(dataSize, s) == Some((n, rest)) <==>
      InUnsigned(n, dataSize) && Varint.Decode64(s).Ok? && Varint.Decode64(s).value == (n, rest)
  {
    hide Pow2, Varint.Decode64;
    Sizes(dataSize);
  }

  lemma ZigZagExactly(dataSize: nat, s: seq<byte>, n: int, rest: seq<byte>)
    ensures DecodeSVarint(dataSize, s) == Some((n, rest)) <==>
      InSigned(n, dataSize) && Varint.Decode64(s).Ok? && Varint.Decode64(s).value == (if n < 0 then -2 * n - 1 else 2 * n, rest)
  {
    hide Pow2, Varint.Decode64, NarrowSigned, InSigned;
    if Varint.Decode64(s).Ok? {
      NarrowExactly(Varint.UnZigZag(Varint.Decode64(s).value.0), dataSize, n);
    }
  }

  lemma CastExactly(u: nat, width: nat, n: int)
    requires width == 4 || width == 8
    ensures var m: int := if width == 8 then TWO_64 else TWO_32;
      ToSigned(u, width) == n <==> -m / 2 <= n < m / 2 && (u - n) % m == 0
  {
  }

  lemma ReadExactly(s: seq<byte>, contents: seq<byte>, rest: seq<byte>)
    ensures Read(s, |contents|) == Some((contents, rest)) <==> s == contents + rest
  {
  }

  lemma {:induction false} UpToNulExactly(raw: seq<byte>, b: seq<byte>)
    ensures UpToNul(raw) == b <==> CString(raw, b)
  {
    if raw != [] && raw[0] != 0 && b != [] && b[0] == raw[0] {
      UpToNulExactly(raw[1..], b[1..]);
      assert raw == [raw[0]] + raw[1..] && b == [b[0]] + b[1..];
      assert b <= raw <==> b[1..] <= raw[1..];
      assert 0 in b <==> 0 in b[1..];
    }
  }

  lemma FixedExactly(s: seq<byte>, width: nat, n: int, rest: seq<byte>)
    requires width == 4 || width == 8
    ensures Read(s, width).Some? && Varint.FixedValue(s[..width]) == n && s[width..] == rest
      <==> 0 <= n < Pow2(8 * width) && s == Varint.FixedBytes(n, width) + rest
  {
    hide Pow2;
    if |s| >= width {
      Varint.FixedValueBound(s[..width]);
      FixedBytesOfValue(s[..width]);
      assert s == s[..width] + s[width..];
    }
    if 0 <= n < Pow2(8 * width) {
      Varint.FixedRoundTrip(n, width);
    }
  }

  lemma {:induction false} FixedBytesOfValue(s: seq<byte>)
    ensures Varint.FixedBytes(Varint.FixedValue(s), |s|) == s
  {
    if s != [] {
      FixedBytesOfValue(s[1..]);
    }
  }

  lemma BytesExactly(dataSize: nat, s: seq<byte>, b: seq<byte>, rest: seq<byte>)
    requires dataSize <= SIZE_MAX
    ensures DecodeBytes(dataSize, s) == Some((b, rest)) <==> Delimits(s, b, rest) && |b| + 4 <= dataSize
  {
    hide Varint.Decode32;
    if Varint.Decode32(s).Ok? {
      ReadExactly(Varint.Decode32(s).value.1, b, rest);
    }
  }

  lemma StringExactly(dataSize: nat, s: seq<byte>, b: seq<byte>, rest: seq<byte>)
    requires dataSize <= SIZE_MAX
    ensures DecodeString(dataSize, s) == Some((b, rest))
      <==> exists raw :: Delimits(s, raw, rest) && |raw| + 1 <= dataSize && CString(raw, b)
  {
    hide Varint.Decode32, UpToNul;
    if Varint.Decode32(s).Ok? {
      var (size, after) := Varint.Decode32(s).value;
      if size <= |after| {
        UpToNulExactly(after[..size], b);
        assert after == after[..size] + after[size..];
      }
    }
  }

  lemma FixedBytesExactly(dataSize: nat, s: seq<byte>, b: seq<byte>, rest: seq<byte>)
    requires dataSize <= SIZE_MAX
    ensures DecodeFixedBytes(dataSize, s) == Some((b, rest)) <==>
      && |b| == dataSize
      && (Delimits(s, b, rest) || (Delimits(s, [], rest) && forall i :: 0 <= i < |b| ==> b[i] == 0))
  {
    hide Varint.Decode32;
    assert [] + rest == rest;
    if Varint.Decode32(s).Ok? {
      ReadExactly(Varint.Decode32(s).value.1, b, rest);
    }
    assert (forall i :: 0 <= i < |b| ==> b[i] == 0) <==> b == seq(|b|, _ => 0);
  }

  /** The scalar readers accept exactly those streams, and no other value. */
  lemma ScalarExactly(f: FieldDesc, s: seq<byte>, v: Value, rest: seq<byte>)
    requires WellFormedField(f) && !f.kind.SubmessageKind?
    ensures DecodeScalar(f, s) == Some((v, rest)) <==> Holds(f, s, v, rest)
  {
    hide Pow2, Varint.Decode64, Varint.Decode32, Varint.FixedBytes, Varint.FixedValue, Delimits, CString, InSigned, InUnsigned;
    hide DecodeVarint, DecodeUVarint, DecodeSVarint, DecodeBytes, DecodeString, DecodeFixedBytes, Half;
    Pow2Constants();
    match f.kind
    case VarintKind => SignedExactly(f.dataSize, s, if v.Int? then v.n else 0, rest);
    case UVarintKind => UnsignedExactly(f.dataSize, s, if v.Int? then v.n else 0, rest);
    case SVarintKind => ZigZagExactly(f.dataSize, s, if v.Int? then v.n else 0, rest);
    case Fixed32Kind => FixedExactly(s, 4, if v.Int? then v.n else 0, rest);
    case Fixed64Kind => FixedExactly(s, 8, if v.Int? then v.n else 0, rest);
    case BytesKind => BytesExactly(f.dataSize, s, if v.Blob? then v.b else [], rest);
    case StringKind => StringExactly(f.dataSize, s, if v.Blob? then v.b else [], rest);
    case FixedBytesKind => FixedBytesExactly(f.dataSize, s, if v.Blob? then v.b else [], rest);
  }

  /** As many zero bytes as the shortest value of that kind takes. */
  function ZeroBytes(kind: Kind): seq<byte> {
    seq(if kind.Fixed32Kind? then 4 else if kind.Fixed64Kind? then 8 else 1, _ => 0)
  }

  /** Zero bytes stand for the default of a field that declares none. */
  lemma ZeroIsDefault(f: FieldDesc, rest: seq<byte>)
    requires WellFormedField(f) && !f.kind.SubmessageKind? && f.initial.None?
    ensures DecodeScalar(f, ZeroBytes(f.kind) + rest) == Some((InitialValue(f), rest))
  {
    hide Pow2, Varint.Decode64, Varint.Decode32, DecodeScalar;
    var s := ZeroBytes(f.kind) + rest;
    Sizes(f.dataSize);
    if f.kind.Fixed32Kind? || f.kind.Fixed64Kind? {
      var width := if f.kind.Fixed32Kind? then 4 else 8;
      FixedZero(width);
      assert ZeroBytes(f.kind) == Varint.FixedBytes(0, width);
    } else {
      Varint.RoundTrip64(0, rest);
      Varint.RoundTrip32(0, rest);
      assert s == Varint.Encode(0) + rest && [] + rest == rest;
    }
    InSignedZero(f.dataSize);
    ScalarExactly(f, s, InitialValue(f), rest);
  }

  lemma InSignedZero(dataSize: nat)
    ensures Width(dataSize) ==> InSigned(0, dataSize) && InUnsigned(0, dataSize)
  {
    hide Pow2;
  }

  lemma {:induction false} FixedZero(width: nat)
    ensures Varint.FixedBytes(0, width) == seq(width, _ => 0)
  {
    if width > 0 {
      FixedZero(width - 1);
      assert seq(width, _ => 0) == [0] + seq(width - 1, _ => 0);
    }
  }
}
