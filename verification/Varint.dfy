/** Base 128 varints, zigzag and little-endian words: the scalar layer of the codec. */
module Varint {
  import opened Wire

  // ---------- Encoding ----------

  /** Least significant group first; every byte but the last has bit 7 set. */
  function Encode(v: nat): (s: seq<byte>)
    ensures |s| >= 1
  {
    if v < 128 then [v] else [v % 128 + 128] + Encode(v / 128)
  }

  lemma {:induction false} EncodeLength(v: nat, n: nat)
    requires n >= 1 && v < Pow2(7 * n)
    ensures |Encode(v)| <= n
  {
    if v >= 128 {
      assert n > 1 by { Pow2Constants(); }
      Pow2Constants();
      Pow2Add(7, 7 * (n - 1));
      EncodeLength(v / 128, n - 1);
    }
  }

  /** The ten-byte buffer loop of the encoder produces Encode(value). */
  method EncodeToBuffer(value: nat) returns (buffer: seq<byte>)
    requires value < TWO_64
    ensures buffer == Encode(value) && |buffer| <= 10
  {
    if value <= 0x7F {
      return [value];
    }
    hide Pow2;
    AtMostTenBytes(value);
    var b := new byte[10];
    var i: nat, v: nat := 0, value;
    while v != 0
      invariant i <= 10
      invariant i == 0 ==> v == value
      invariant v != 0 ==> b[..i] + Encode(v) == Encode(value)
      invariant v == 0 ==> 2 <= i && b[i - 1] >= 128 && b[..i - 1] + [b[i - 1] - 128] == Encode(value)
      decreases v
    {
      ghost var done := b[..i];
      assert i + |Encode(v)| == |Encode(value)|;
      b[i] := v % 128 + 128;
      assert b[..i] == done;
      assert b[..i + 1] == done + [v % 128 + 128];
      v := v / 128;
      i := i + 1;
    }
    b[i - 1] := b[i - 1] - 128;
    return b[..i];
  }

  lemma AtMostTenBytes(v: nat)
    requires v < TWO_64
    ensures |Encode(v)| <= 10
  {
    Pow2Constants();
    Pow2Monotone(64, 70);
    EncodeLength(v, 10);
  }

  // ---------- Decoding, 64 bits ----------

  /** The decoding loop, entered with the given bit position and partial result. */
  function Decode64From(s: seq<byte>, bitpos: nat, result: nat): (r: Result<(nat, seq<byte>)>)
    decreases |s|
  {
    if bitpos >= 64 then Err(VarintOverflow)
    else if s == [] then Err(EndOfStream)
    else
      var next := BitOr(result, (s[0] % 128 * Pow2(bitpos)) % TWO_64);
      if s[0] >= 128 then Decode64From(s[1..], bitpos + 7, next) else Ok((next, s[1..]))
  }

  function Decode64(s: seq<byte>): (r: Result<(nat, seq<byte>)>)
    ensures r.Ok? ==> r.value.0 < TWO_64 && |r.value.1| < |s|
  {
    Decode64Bound(s, 0, 0);
    Decode64From(s, 0, 0)
  }

  lemma {:induction false} Decode64Bound(s: seq<byte>, bitpos: nat, result: nat)
    requires result < TWO_64 && result < Pow2(bitpos)
    ensures var r := Decode64From(s, bitpos, result); r.Ok? ==> r.value.0 < TWO_64 && |r.value.1| < |s|
    decreases |s|
  {
    if bitpos < 64 && s != [] {
      AddGroup64(result, bitpos, s[0] % 128);
      Decode64Bound(s[1..], bitpos + 7, BitOr(result, (s[0] % 128 * Pow2(bitpos)) % TWO_64));
    }
  }

  /** One accepted group: the partial result grows by the group's bits and nothing else. */
  lemma AddGroup64(result: nat, bitpos: nat, group: nat)
    requires bitpos < 64 && result < Pow2(bitpos) && group < 128
    ensures BitOr(result, (group * Pow2(bitpos)) % TWO_64)
         == result + (group % Pow2(64 - bitpos)) * Pow2(bitpos) < TWO_64
    ensures result + (group % Pow2(64 - bitpos)) * Pow2(bitpos) < Pow2(bitpos + 7)
  {
    hide Pow2, BitOr;
    Pow2Constants();
    OrShifted(result, bitpos, 64, group);
    Pow2Add(bitpos, 7);
    ModBelow(group, Pow2(64 - bitpos));
    BelowProduct(result, Pow2(bitpos), group % Pow2(64 - bitpos), 128);
  }

  lemma ModBelow(g: nat, n: nat)
    requires n > 0
    ensures 0 <= g % n <= g
    ensures g < n ==> g % n == g
  {
    if g < n {
      ModUnique(g, n, 0, g);
    } else {
      assert g % n < n;
    }
  }

  /** A value is its lowest seven bits plus the rest, at any scale. */
  lemma SplitGroup(v: nat, p: nat)
    ensures v % 128 * p + v / 128 * (128 * p) == v * p
  {
    assert v / 128 * (128 * p) == v / 128 * 128 * p;
    assert (v % 128 + v / 128 * 128) * p == v % 128 * p + v / 128 * 128 * p;
  }

  /** One turn of the decoding loop, in plain arithmetic. */
  lemma Turn64(s: seq<byte>, bitpos: nat, result: nat)
    requires bitpos < 64 && result < Pow2(bitpos) && s != []
    ensures var next := result + (s[0] % 128 % Pow2(64 - bitpos)) * Pow2(bitpos);
      && next < Pow2(bitpos + 7)
      && Decode64From(s, bitpos, result)
         == if s[0] >= 128 then Decode64From(s[1..], bitpos + 7, next) else Ok((next, s[1..]))
  {
    hide Pow2, BitOr;
    AddGroup64(result, bitpos, s[0] % 128);
  }

  /** Every 64-bit value survives encoding and decoding, whatever follows it in the stream. */
  lemma {:induction false} RoundTrip64From(v: nat, rest: seq<byte>, bitpos: nat, result: nat)
    requires bitpos < 64 && v < Pow2(64 - bitpos) && result < Pow2(bitpos)
    ensures Decode64From(Encode(v) + rest, bitpos, result) == Ok((result + v * Pow2(bitpos), rest))
    decreases v
  {
    hide Pow2, BitOr, Decode64From;
    var s := Encode(v) + rest;
    var g := v % 128;
    Turn64(s, bitpos, result);
    ModBelow(g, Pow2(64 - bitpos));
    if v < 128 {
      assert s[1..] == rest;
    } else {
      NextGroup(v, 64 - bitpos);
      assert s[1..] == Encode(v / 128) + rest;
      RoundTrip64From(v / 128, rest, bitpos + 7, result + g * Pow2(bitpos));
      Pow2Step(bitpos);
      SplitGroup(v, Pow2(bitpos));
    }
  }

  lemma Pow2Step(bitpos: nat)
    ensures Pow2(bitpos + 7) == 128 * Pow2(bitpos)
  {
    hide Pow2;
    Pow2Constants();
    Pow2Add(7, bitpos);
  }

  /** A value of several groups that fits n bits leaves a quotient that fits n - 7 bits. */
  lemma NextGroup(v: nat, n: nat)
    requires 128 <= v < Pow2(n)
    ensures n > 7 && v / 128 < Pow2(n - 7)
  {
    hide Pow2;
    Pow2Constants();
    if n <= 7 {
      Pow2Monotone(n, 7);
    } else {
      Pow2Add(7, n - 7);
    }
  }

  lemma RoundTrip64(v: nat, rest: seq<byte>)
    requires v < TWO_64
    ensures Decode64(Encode(v) + rest) == Ok((v, rest))
  {
    Pow2Constants();
    RoundTrip64From(v, rest, 0, 0);
  }

  // ---------- Decoding, 32 bits ----------

  /** The byte that continues a negative number at this bit position. */
  function SignExtension(bitpos: nat): byte {
    if bitpos < 63 then 0xFF else 0x01
  }

  /** The multi-byte loop of the 32-bit decoder. `bitpos` is an eight-bit counter and wraps. */
  function Decode32From(s: seq<byte>, bitpos: nat, result: nat): (r: Result<(nat, seq<byte>)>)
    ensures r.Ok? ==> |r.value.1| < |s|
    decreases |s|
  {
    if s == [] then Err(EndOfStream)
    else
      var b := s[0];
      if bitpos >= 32 && b % 128 != 0 && (result / TWO_31 == 0 || b != SignExtension(bitpos)) then
        Err(VarintOverflow)
      else
        var next := if bitpos >= 32 then result else BitOr(result, (b % 128 * Pow2(bitpos)) % TWO_32);
        var bitpos' := (bitpos + 7) % 256;
        if b >= 128 then Decode32From(s[1..], bitpos', next)
        else if bitpos' == 35 && b / 16 % 8 != 0 then Err(VarintOverflow)
        else Ok((next, s[1..]))
  }

  function Decode32(s: seq<byte>): (r: Result<(nat, seq<byte>)>)
    ensures r.Ok? ==> |r.value.1| < |s|
  {
    if s == [] then Err(EndOfStream)
    else if s[0] < 128 then Ok((s[0], s[1..]))
    else Decode32From(s[1..], 7, s[0] % 128)
  }

  /** The 32-bit counterpart of AddGroup64. */
  lemma AddGroup32(result: nat, bitpos: nat, group: nat)
    requires bitpos < 32 && result < Pow2(bitpos)
    ensures BitOr(result, (group * Pow2(bitpos)) % TWO_32)
         == result + (group % Pow2(32 - bitpos)) * Pow2(bitpos) < TWO_32
  {
    hide Pow2, BitOr;
    Pow2Constants();
    OrShifted(result, bitpos, 32, group);
  }

  lemma LastGroup32(s: seq<byte>, bitpos: nat, result: nat)
    requires 0 < bitpos < 32 && bitpos % 7 == 0 && result < Pow2(bitpos)
    requires s != [] && s[0] < 128 && s[0] < Pow2(32 - bitpos)
    ensures Decode32From(s, bitpos, result) == Ok((result + s[0] * Pow2(bitpos), s[1..]))
  {
    hide BitOr, Pow2;
    var b := s[0];
    AddGroup32(result, bitpos, b);
    ModBelow(b, Pow2(32 - bitpos));
    assert b % 128 == b && (bitpos + 7) % 256 == bitpos + 7;
    if bitpos == 28 {
      assert Pow2(4) == 16 by { SmallPowers(); }
      assert b / 16 == 0;
    }
    assert BitOr(result, (b % 128 * Pow2(bitpos)) % TWO_32) == result + b * Pow2(bitpos);
  }

  lemma SmallPowers()
    ensures Pow2(0) == 1 && Pow2(4) == 16 && Pow2(7) == 128 && Pow2(14) == 0x4000
    ensures Pow2(21) == 0x20_0000 && Pow2(28) == 0x1000_0000
  {
  }

  lemma NextGroup32(s: seq<byte>, bitpos: nat, result: nat)
    requires 0 < bitpos < 25 && result < Pow2(bitpos)
    requires s != [] && s[0] >= 128
    ensures Decode32From(s, bitpos, result)
         == Decode32From(s[1..], bitpos + 7, result + s[0] % 128 * Pow2(bitpos))
    ensures result + s[0] % 128 * Pow2(bitpos) < Pow2(bitpos + 7)
  {
    hide Pow2, BitOr;
    var g := s[0] % 128;
    AddGroup32(result, bitpos, g);
    Pow2Constants();
    Pow2Monotone(7, 32 - bitpos);
    ModBelow(g, Pow2(32 - bitpos));
    Pow2Step(bitpos);
    BelowProduct(result, Pow2(bitpos), g, 128);
  }

  lemma {:induction false} RoundTrip32From(v: nat, rest: seq<byte>, bitpos: nat, result: nat)
    requires 0 < bitpos < 32 && bitpos % 7 == 0 && v < Pow2(32 - bitpos) && result < Pow2(bitpos)
    ensures Decode32From(Encode(v) + rest, bitpos, result) == Ok((result + v * Pow2(bitpos), rest))
    decreases v
  {
    hide Pow2, BitOr, Decode32From;
    var s := Encode(v) + rest;
    if v < 128 {
      LastGroup32(s, bitpos, result);
      assert s[1..] == rest;
    } else {
      NextGroup(v, 32 - bitpos);
      NextGroup32(s, bitpos, result);
      var next := result + s[0] % 128 * Pow2(bitpos);
      assert s[0] % 128 == v % 128;
      calc {
        Decode32From(s, bitpos, result);
        Decode32From(s[1..], bitpos + 7, next);
        { assert s[1..] == Encode(v / 128) + rest; }
        Decode32From(Encode(v / 128) + rest, bitpos + 7, next);
        { RoundTrip32From(v / 128, rest, bitpos + 7, next); }
        Ok((next + v / 128 * Pow2(bitpos + 7), rest));
        { Pow2Step(bitpos); SplitGroup(v, Pow2(bitpos)); }
        Ok((result + v * Pow2(bitpos), rest));
      }
    }
  }

  /** Lengths and tags below 2^32 survive the 32-bit decoder. */
  lemma RoundTrip32(v: nat, rest: seq<byte>)
    requires v < TWO_32
    ensures Decode32(Encode(v) + rest) == Ok((v, rest))
  {
    hide Pow2, BitOr, Decode32From;
    var s := Encode(v) + rest;
    if v < 128 {
      assert s[1..] == rest;
    } else {
      Pow2Constants();
      Pow2Add(7, 25);
      assert s[1..] == Encode(v / 128) + rest;
      RoundTrip32From(v / 128, rest, 7, v % 128);
    }
  }

  // ---------- The two decoders side by side ----------

  /** One group keeps the 32-bit partial result equal to the 64-bit one modulo 2^32. */
  lemma GroupsAgreeHigh(r64: nat, bitpos: nat, g: nat)
    requires 32 <= bitpos < 64 && r64 < Pow2(bitpos) && g < 128
    ensures BitOr(r64, (g * Pow2(bitpos)) % TWO_64) % TWO_32 == r64 % TWO_32
  {
    hide Pow2, BitOr;
    AddGroup64(r64, bitpos, g);
    Pow2Constants();
    Pow2Add(32, bitpos - 32);
    AddMultiple(r64, g % Pow2(64 - bitpos), Pow2(bitpos), Pow2(bitpos - 32));
  }

  lemma AddMultiple(r: nat, m: nat, p: nat, h: nat)
    requires p == TWO_32 * h
    ensures (r + m * p) % TWO_32 == r % TWO_32
  {
    assert m * p == TWO_32 * (m * h);
    ModUnique(r + m * p, TWO_32, r / TWO_32 + m * h, r % TWO_32);
  }

  lemma GroupsAgreeLow(r64: nat, bitpos: nat, g: nat)
    requires bitpos < 32 && r64 < Pow2(bitpos) && g < 128
    ensures BitOr(r64, (g * Pow2(bitpos)) % TWO_64) % TWO_32 == BitOr(r64, (g * Pow2(bitpos)) % TWO_32)
  {
    hide Pow2, BitOr;
    AddGroup64(r64, bitpos, g);
    AddGroup32(r64, bitpos, g);
    Pow2Constants();
    Pow2Monotone(7, 64 - bitpos);
    ModBelow(g, Pow2(64 - bitpos));
    var p, q := Pow2(bitpos), Pow2(32 - bitpos);
    Pow2Add(bitpos, 32 - bitpos);
    RegroupHigh(g, p, q);
    ModUnique(r64 + g * p, TWO_32, g / q, r64 + g % q * p);
  }

  lemma RegroupHigh(g: nat, p: nat, q: nat)
    requires q > 0
    ensures g * p == p * q * (g / q) + g % q * p
  {
    var d, m := g / q, g % q;
    assert g == q * d + m;
    assert (q * d + m) * p == q * d * p + m * p;
    assert q * d * p == p * q * d;
  }

  lemma {:induction false} DecodersAgreeFrom(s: seq<byte>, bitpos: nat, r64: nat)
    requires 0 < bitpos && r64 < Pow2(bitpos)
    requires Decode64From(s, bitpos, r64).Ok? && Decode32From(s, bitpos, r64 % TWO_32).Ok?
    ensures var (v64, rest64) := Decode64From(s, bitpos, r64).value;
            var (v32, rest32) := Decode32From(s, bitpos, r64 % TWO_32).value;
            rest32 == rest64 && v32 == v64 % TWO_32
    decreases |s|
  {
    hide Pow2, BitOr;
    var g := s[0] % 128;
    AddGroup64(r64, bitpos, g);
    if bitpos < 32 {
      Pow2Constants();
      Pow2Monotone(bitpos, 32);
      ModBelow(r64, TWO_32);
      GroupsAgreeLow(r64, bitpos, g);
    } else {
      GroupsAgreeHigh(r64, bitpos, g);
    }
    if s[0] >= 128 {
      DecodersAgreeFrom(s[1..], bitpos + 7, BitOr(r64, (g * Pow2(bitpos)) % TWO_64));
    }
  }

  lemma FirstGroup64(s: seq<byte>)
    requires s != []
    ensures Decode64(s) == if s[0] >= 128 then Decode64From(s[1..], 7, s[0] % 128) else Ok((s[0] % 128, s[1..]))
  {
    assert Pow2(0) == 1;
    hide Pow2, BitOr;
    BitOrZero(s[0] % 128);
    ModBelow(s[0] % 128, TWO_64);
  }

  /** Where both decoders accept, they stop at the same byte and agree modulo 2^32. */
  lemma DecodersAgree(s: seq<byte>)
    requires Decode64(s).Ok? && Decode32(s).Ok?
    ensures Decode32(s).value.1 == Decode64(s).value.1
    ensures Decode32(s).value.0 == Decode64(s).value.0 % TWO_32
  {
    hide Pow2, BitOr, Decode32From, Decode64From, Decode64;
    var g := s[0] % 128;
    FirstGroup64(s);
    ModBelow(g, TWO_32);
    Pow2Constants();
    if s[0] >= 128 {
      DecodersAgreeFrom(s[1..], 7, g);
    }
  }

  /** The 32-bit decoder accepts the ten-byte encoding of a negative int32. */
  lemma SignExtendedAccepted(low: nat, rest: seq<byte>)
    requires TWO_31 <= low < TWO_32
    ensures Decode32(Encode(low + (TWO_64 - TWO_32)) + rest) == Ok((low, rest))
  {
    hide Encode, Decode32From, Pow2;
    var v0: nat := low + (TWO_64 - TWO_32);
    var v1, v2, v3, v4 := v0 / 128, v0 / 128 / 128, v0 / 128 / 128 / 128, v0 / 128 / 128 / 128 / 128;
    var r1 := v0 % 128;
    var r2 := r1 + v1 % 128 * 0x80;
    var r3 := r2 + v2 % 128 * 0x4000;
    var r4 := r3 + v3 % 128 * 0x20_0000;
    LowBits(low, v0);
    FirstBytes(v0, rest);
    FifthByte(low, v4, rest);
  }

  lemma FirstBytes(v: nat, rest: seq<byte>)
    requires v / 128 / 128 / 128 >= 128
    ensures var v1, v2, v3 := v / 128, v / 128 / 128, v / 128 / 128 / 128;
      Decode32(Encode(v) + rest)
      == Decode32From(Encode(v3 / 128) + rest, 28,
                      v % 128 + v1 % 128 * 0x80 + v2 % 128 * 0x4000 + v3 % 128 * 0x20_0000)
  {
    hide Encode, Decode32From, Pow2;
    var v1, v2, v3 := v / 128, v / 128 / 128, v / 128 / 128 / 128;
    SuffixStep(v, rest);
    SuffixStep(v1, rest);
    SuffixStep(v2, rest);
    SuffixStep(v3, rest);
    SmallPowers();
    var r1 := v % 128;
    var r2 := r1 + v1 % 128 * 0x80;
    var r3 := r2 + v2 % 128 * 0x4000;
    NextGroup32(Encode(v1) + rest, 7, r1);
    NextGroup32(Encode(v2) + rest, 14, r2);
    NextGroup32(Encode(v3) + rest, 21, r3);
  }

  lemma LowBits(low: nat, v0: nat)
    requires TWO_31 <= low < TWO_32 && v0 == low + (TWO_64 - TWO_32)
    ensures v0 % 128 + v0 / 128 % 128 * 0x80 + v0 / 128 / 128 % 128 * 0x4000
          + v0 / 128 / 128 / 128 % 128 * 0x20_0000 == low % 0x1000_0000
    ensures v0 / 128 / 128 / 128 / 128 == low / 0x1000_0000 + 0xF_FFFF_FFF0
  {
    var v1, v2, v3, v4 := v0 / 128, v0 / 128 / 128, v0 / 128 / 128 / 128, v0 / 128 / 128 / 128 / 128;
    assert v0 == 128 * v1 + v0 % 128 && v1 == 128 * v2 + v1 % 128;
    assert v2 == 128 * v3 + v2 % 128 && v3 == 128 * v4 + v3 % 128;
  }

  lemma SuffixStep(v: nat, rest: seq<byte>)
    requires v >= 128
    ensures var s := Encode(v) + rest; s[0] >= 128 && s[0] % 128 == v % 128 && s[1..] == Encode(v / 128) + rest
  {
    var head, tail := [v % 128 + 128], Encode(v / 128);
    assert Encode(v) == head + tail;
    assert head + tail + rest == head + (tail + rest);
  }

  lemma FifthByte(low: nat, v4: nat, rest: seq<byte>)
    requires TWO_31 <= low < TWO_32 && v4 == low / 0x1000_0000 + 0xF_FFFF_FFF0
    ensures Decode32From(Encode(v4) + rest, 28, low % 0x1000_0000) == Ok((low, rest))
  {
    hide Encode, BitOr, Pow2;
    SuffixStep(v4, rest);
    SmallPowers();
    AddGroup32(low % 0x1000_0000, 28, v4 % 128);
    assert v4 / 128 == 0x1FFF_FFFF && v4 % 128 % 16 == low / 0x1000_0000;
    NegativeTail();
    SignExtensionTail(low, rest);
    var s := Encode(v4) + rest;
    assert Decode32From(s, 28, low % 0x1000_0000) == Decode32From(s[1..], 35, low);
  }

  lemma NegativeTail()
    ensures Encode(0x1FFF_FFFF) == [0xFF, 0xFF, 0xFF, 0xFF, 0x01]
  {
  }

  lemma SignExtensionTail(low: nat, rest: seq<byte>)
    requires TWO_31 <= low < TWO_32
    ensures Decode32From([0xFF, 0xFF, 0xFF, 0xFF, 0x01] + rest, 35, low) == Ok((low, rest))
  {
    var t4: seq<byte> := [0xFF, 0xFF, 0xFF, 0xFF, 0x01] + rest;
    var t3: seq<byte> := [0xFF, 0xFF, 0xFF, 0x01] + rest;
    var t2: seq<byte> := [0xFF, 0xFF, 0x01] + rest;
    var t1: seq<byte> := [0xFF, 0x01] + rest;
    var t0: seq<byte> := [0x01] + rest;
    assert t4[1..] == t3 && t3[1..] == t2 && t2[1..] == t1 && t1[1..] == t0 && t0[1..] == rest;
    assert Decode32From(t4, 35, low) == Decode32From(t3, 42, low);
    assert Decode32From(t3, 42, low) == Decode32From(t2, 49, low);
    assert Decode32From(t2, 49, low) == Decode32From(t1, 56, low);
    assert Decode32From(t1, 56, low) == Decode32From(t0, 63, low);
  }

  /**
    * The 32-bit decoder is not a range check: a sixth byte hides bits 32 to 34 of the fifth, and
    * both decoders accept with different values.
    */
  lemma HighBitsDropped()
    ensures Decode64([0x80, 0x80, 0x80, 0x80, 0xF0, 0x00]) == Ok((0x7_0000_0000, []))
    ensures Decode32([0x80, 0x80, 0x80, 0x80, 0xF0, 0x00]) == Ok((0, []))
  {
    hide Decode32, Decode64;
    FifthGroup();
    FourZeroGroups([0xF0, 0x00]);
    assert [0x80, 0x80, 0x80, 0x80] + [0xF0, 0x00] == [0x80, 0x80, 0x80, 0x80, 0xF0, 0x00];
  }

  /** Of the bytes of a varint, none has a group bit at position 32 or above. */
  predicate NoHighBits(s: seq<byte>, bitpos: nat) {
    && s != []
    && (bitpos >= 32 ==> s[0] % 128 == 0) && (bitpos == 28 ==> s[0] % 128 < 16)
    && (s[0] >= 128 ==> NoHighBits(s[1..], bitpos + 7))
  }

  /** Where both decoders accept, the values are equal exactly if there is no such bit. */
  lemma SameValueExactly(s: seq<byte>)
    requires Decode64(s).Ok? && Decode32(s).Ok?
    ensures Decode32(s).value.0 == Decode64(s).value.0 <==> NoHighBits(s, 0)
  {
    hide Pow2, BitOr, Decode32From, Decode64From, Decode64;
    var g := s[0] % 128;
    DecodersAgree(s);
    FirstGroup64(s);
    SmallPowers();
    if s[0] >= 128 {
      HighBitsFrom(s[1..], 7, g, g);
    }
  }

  /** The partial result after one more group. */
  function Gathered(result: nat, bitpos: nat, group: nat): nat
    requires bitpos < 64
  {
    result + group % Pow2(64 - bitpos) * Pow2(bitpos)
  }

  lemma TurnGathered(s: seq<byte>, bitpos: nat, result: nat)
    requires bitpos < 64 && result < Pow2(bitpos) && s != []
    ensures var next := Gathered(result, bitpos, s[0] % 128);
      && result <= next < Pow2(bitpos + 7)
      && Decode64From(s, bitpos, result)
         == if s[0] >= 128 then Decode64From(s[1..], bitpos + 7, next) else Ok((next, s[1..]))
  {
    hide Decode64From;
    Turn64(s, bitpos, result);
  }

  lemma {:induction false} ValueGrows(s: seq<byte>, bitpos: nat, result: nat)
    requires bitpos < 64 && result < Pow2(bitpos) && Decode64From(s, bitpos, result).Ok?
    ensures result <= Decode64From(s, bitpos, result).value.0
    decreases |s|
  {
    hide Pow2, BitOr, Gathered;
    TurnGathered(s, bitpos, result);
    if s[0] >= 128 && bitpos + 7 < 64 {
      ValueGrows(s[1..], bitpos + 7, Gathered(result, bitpos, s[0] % 128));
    }
  }

  /** What the 32-bit decoder accepts goes on being accepted; its last position allows only one bit. */
  lemma Accepted32(s: seq<byte>, bitpos: nat, low: nat) returns (next: nat)
    requires bitpos < 64 && Decode32From(s, bitpos, low).Ok?
    ensures s != [] && (s[0] >= 128 ==> Decode32From(s[1..], bitpos + 7, next).Ok?)
    ensures bitpos == 63 ==> s[0] % 128 <= 1
  {
    next := if bitpos >= 32 then low else BitOr(low, (s[0] % 128 * Pow2(bitpos)) % TWO_32);
  }

  /** The groups from a bit position on, given that the other decoder accepts them as well. */
  lemma {:induction false} HighBitsFrom(s: seq<byte>, bitpos: nat, result: nat, low: nat)
    requires 0 < bitpos < 64 && bitpos % 7 == 0 && result < Pow2(bitpos) && result < TWO_32
    requires Decode64From(s, bitpos, result).Ok? && Decode32From(s, bitpos, low).Ok?
    ensures Decode64From(s, bitpos, result).value.0 < TWO_32 <==> NoHighBits(s, bitpos)
    decreases |s|
  {
    hide Pow2, BitOr, Gathered, Decode32From, Decode64From;
    var nextLow := Accepted32(s, bitpos, low);
    var g := s[0] % 128;
    var next := Gathered(result, bitpos, g);
    TurnGathered(s, bitpos, result);
    HighGroup(g, bitpos, result);
    if s[0] >= 128 {
      PastTheEnd(s[1..], bitpos + 7, next);
      if next >= TWO_32 {
        ValueGrows(s[1..], bitpos + 7, next);
      } else {
        HighBitsFrom(s[1..], bitpos + 7, next, nextLow);
      }
    }
  }

  lemma PastTheEnd(s: seq<byte>, bitpos: nat, result: nat)
    requires Decode64From(s, bitpos, result).Ok?
    ensures bitpos < 64
  {
  }

  /** Whether one group lifts a small value to 2^32; at bit 63 only its lowest bit counts. */
  lemma HighGroup(g: nat, bitpos: nat, result: nat)
    requires 0 < bitpos < 64 && bitpos % 7 == 0 && g < 128 && result < Pow2(bitpos) && result < TWO_32
    ensures var next := Gathered(result, bitpos, g);
      && (bitpos < 28 ==> next < TWO_32)
      && (bitpos == 28 ==> (next < TWO_32 <==> g < 16))
      && (32 <= bitpos < 63 ==> (next < TWO_32 <==> g == 0))
      && (bitpos == 63 ==> (next < TWO_32 <==> g % 2 == 0))
  {
    hide Pow2;
    SmallPowers();
    Pow2Constants();
    var h := g % Pow2(64 - bitpos);
    if bitpos < 63 {
      Pow2Monotone(8, 64 - bitpos);
      ModBelow(g, Pow2(64 - bitpos));
      EightBits();
    } else {
      OneBit();
    }
    if bitpos >= 32 {
      Pow2Monotone(32, bitpos);
      if h > 0 {
        MulMonotone(Pow2(bitpos), 1, h);
      }
    } else if bitpos < 28 {
      Pow2Monotone(bitpos, 21);
      MulMonotone(Pow2(bitpos), h, 127);
    }
  }

  lemma EightBits()
    ensures Pow2(8) == 256
  {
  }

  lemma OneBit()
    ensures Pow2(1) == 2
  {
  }

  // ---------- Values that do not fit 32 bits ----------

  /** From bit 35 on a positive rest ends in a group that is no sign extension. */
  lemma {:induction false} TailRefused(v: nat, rest: seq<byte>, bitpos: nat, result: nat)
    requires 32 <= bitpos < 63 && 1 <= v < Pow2(63 - bitpos)
    ensures Decode32From(Encode(v) + rest, bitpos, result).Err?
    decreases v
  {
    hide Pow2, BitOr;
    if v >= 128 {
      SuffixStep(v, rest);
      NextGroup(v, 63 - bitpos);
      TailRefused(v / 128, rest, bitpos + 7, result);
    } else {
      assert (Encode(v) + rest)[0] == v;
    }
  }

  /** A value from 2^32 to 2^63 is written, but the 32-bit decoder refuses it. */
  lemma LargeRefused(v: nat, rest: seq<byte>)
    requires TWO_32 <= v < TWO_63
    ensures Decode32(Encode(v) + rest).Err?
  {
    hide Encode, Decode32From, Pow2, BitOr;
    var v3 := v / 128 / 128 / 128;
    FirstBytes(v, rest);
    FifthRefused(v3 / 128, rest, v % 128 + v / 128 % 128 * 0x80 + v / 128 / 128 % 128 * 0x4000 + v3 % 128 * 0x20_0000);
  }

  lemma FifthRefused(v: nat, rest: seq<byte>, result: nat)
    requires 16 <= v < 0x8_0000_0000
    ensures Decode32From(Encode(v) + rest, 28, result).Err?
  {
    hide Pow2, BitOr;
    var s := Encode(v) + rest;
    if v >= 128 {
      SuffixStep(v, rest);
      TwentyEightBits();
      TailRefused(v / 128, rest, 35, BitOr(result, (v % 128 * Pow2(28)) % TWO_32));
    } else {
      assert s[0] == v;
    }
  }

  lemma TwentyEightBits()
    ensures Pow2(28) == 0x1000_0000
  {
    SmallPowers();
  }

  lemma FourZeroGroups(t: seq<byte>)
    ensures Decode64([0x80, 0x80, 0x80, 0x80] + t) == Decode64From(t, 28, 0)
    ensures Decode32([0x80, 0x80, 0x80, 0x80] + t) == Decode32From(t, 28, 0)
  {
    hide Decode32From, Decode64From;
    var t1, t2, t3 := [0x80] + t, [0x80, 0x80] + t, [0x80, 0x80, 0x80] + t;
    var t4 := [0x80, 0x80, 0x80, 0x80] + t;
    assert t2 == [0x80] + t1 && t3 == [0x80] + t2 && t4 == [0x80] + t3 && t4[1..] == t3;
    ZeroGroup(t, 21);
    ZeroGroup(t1, 14);
    ZeroGroup(t2, 7);
    ZeroGroup(t3, 0);
  }

  lemma FifthGroup()
    ensures Decode64From([0xF0, 0x00], 28, 0) == Ok((0x7_0000_0000, []))
    ensures Decode32From([0xF0, 0x00], 28, 0) == Ok((0, []))
  {
    hide Pow2, BitOr;
    var t: seq<byte> := [0xF0, 0x00];
    assert t[1..] == [0x00] && t[1..][1..] == [];
    SmallPowers();
    BitOrZero(0x7_0000_0000);
    BitOrZero(0);
    Pow2Step(28);
    AddGroup64(0x7_0000_0000, 35, 0);
    ModBelow(0, Pow2(29));
    assert Decode64From(t, 28, 0) == Decode64From([0x00], 35, 0x7_0000_0000);
    assert Decode32From(t, 28, 0) == Decode32From([0x00], 35, 0);
  }

  /** A continued zero group only moves the bit position. */
  lemma ZeroGroup(rest: seq<byte>, bitpos: nat)
    requires bitpos < 28
    ensures Decode64From([0x80] + rest, bitpos, 0) == Decode64From(rest, bitpos + 7, 0)
    ensures Decode32From([0x80] + rest, bitpos, 0) == Decode32From(rest, bitpos + 7, 0)
  {
    hide Pow2, BitOr;
    var s: seq<byte> := [0x80] + rest;
    assert s[1..] == rest;
    BitOrZero(0);
    assert 0 * Pow2(bitpos) == 0;
  }

  // ---------- Zigzag ----------

  /** (uint64_t)value << 1, complemented for negative values. */
  function ZigZag(n: int): (v: nat)
    requires -TWO_63 <= n < TWO_63
    ensures v < TWO_64
  {
    if n < 0 then TWO_64 - 1 - (n + TWO_64) * 2 % TWO_64 else n * 2 % TWO_64
  }

  function UnZigZag(v: nat): (n: int)
    requires v < TWO_64
    ensures -TWO_63 <= n < TWO_63
  {
    if v % 2 == 1 then -1 - v / 2 else v / 2
  }

  /** Zigzag is a bijection between int64 and uint64 that keeps small magnitudes small. */
  lemma ZigZagBijection(n: int, v: nat)
    requires -TWO_63 <= n < TWO_63 && v < TWO_64
    ensures UnZigZag(ZigZag(n)) == n
    ensures ZigZag(UnZigZag(v)) == v
    ensures ZigZag(n) == if n < 0 then -2 * n - 1 else 2 * n
  {
  }

  // ---------- Fixed-size words ----------

  function FixedBytes(v: nat, width: nat): (s: seq<byte>)
    ensures |s| == width
  {
    if width == 0 then [] else [v % 256] + FixedBytes(v / 256, width - 1)
  }

  function FixedValue(s: seq<byte>): nat {
    if s == [] then 0 else s[0] + 256 * FixedValue(s[1..])
  }

  lemma {:induction false} FixedRoundTrip(v: nat, width: nat)
    requires v < Pow2(8 * width)
    ensures FixedValue(FixedBytes(v, width)) == v
  {
    if width > 0 {
      assert Pow2(8) == 256;
      Pow2Add(8, 8 * (width - 1));
      FixedRoundTrip(v / 256, width - 1);
      assert FixedBytes(v, width)[1..] == FixedBytes(v / 256, width - 1);
    }
  }

  lemma {:induction false} FixedValueBound(s: seq<byte>)
    ensures FixedValue(s) < Pow2(8 * |s|)
  {
    if s != [] {
      FixedValueBound(s[1..]);
      assert Pow2(8) == 256;
      Pow2Add(8, 8 * (|s| - 1));
    }
  }

  /** Byte i of a little-endian word is its i-th digit in base 256. */
  lemma {:induction false} FixedDigits(v: nat, width: nat, i: nat)
    requires i < width
    ensures FixedBytes(v, width)[i] == v / Pow2(8 * i) % 256
  {
    hide Pow2;
    if i == 0 {
      assert Pow2(0) == 1 by { SmallPowers(); }
    } else {
      FixedDigits(v / 256, width - 1, i - 1);
      assert Pow2(8) == 256 by { Pow2Constants(); Pow2Step(1); assert Pow2(1) == 2 by { OnePower(); } }
      Pow2Add(8, 8 * (i - 1));
      DivideTwice(v, 256, Pow2(8 * (i - 1)));
    }
  }

  /** Group i of a varint is its i-th digit in base 128; exactly the last byte has no bit 7, and is no padding. */
  lemma {:induction false} EncodedDigits(v: nat, i: nat)
    requires i < |Encode(v)|
    ensures Encode(v)[i] % 128 == v / Pow2(7 * i) % 128
    ensures Encode(v)[i] >= 128 <==> i < |Encode(v)| - 1
    ensures i > 0 && i == |Encode(v)| - 1 ==> Encode(v)[i] != 0
  {
    hide Pow2;
    if i == 0 {
      assert Pow2(0) == 1 by { SmallPowers(); }
    } else {
      EncodedDigits(v / 128, i - 1);
      Pow2Constants();
      Pow2Add(7, 7 * (i - 1));
      DivideTwice(v, 128, Pow2(7 * (i - 1)));
    }
  }

  lemma OnePower()
    ensures Pow2(1) == 2 && Pow2(0) == 1
  {
  }

  lemma DivideTwice(v: nat, a: nat, b: nat)
    requires a > 0 && b > 0
    ensures a * b > 0 && v / a / b == v / (a * b)
  {
    var q, r := v / a, v % a;
    var q', r' := q / b, q % b;
    assert a * b > 0;
    assert v == a * (b * q' + r') + r;
    assert a * (b * q' + r') == (a * b) * q' + a * r';
    MulMonotone(a, r' + 1, b);
    assert a * (r' + 1) == a * r' + a;
    ModUnique(v, a * b, q', a * r' + r);
  }
}
