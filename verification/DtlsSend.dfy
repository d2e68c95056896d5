/** Under which epoch and sequence number DTLS records are sealed (section 4.1 of RFC 6347). */
module DtlsSend {
  import opened Wire
  import opened ReplayWindow
  import DtlsReceive

  const HEADER_LENGTH: nat := 13
  const EPOCHS: nat := 0x1_0000
  const SEQUENCES: nat := 0x1_0000_0000_0000

  // ---------- Counting ----------

  /** ++b in eight bits. */
  function Successor(b: byte): byte {
    if b == 255 then 0 else b + 1
  }

  /** The carry has passed every byte from index k on. */
  predicate Carried(before: seq<byte>, after: seq<byte>, k: nat) {
    && k <= |before| == |after|
    && after[..k] == before[..k]
    && forall j :: k <= j < |before| ==> before[j] == 255 && after[j] == 0
  }

  lemma CarryOn(before: seq<byte>, after: seq<byte>, k: nat)
    requires Carried(before, after, k + 1) && before[k] == 255
    ensures Carried(before, after[k := 0], k)
  {
    assert after[k := 0][..k] == after[..k + 1][..k];
    assert before[..k] == before[..k + 1][..k];
  }

  lemma CarryEnds(before: seq<byte>, now: seq<byte>, k: nat)
    requires Carried(before, now, k + 1) && before[k] != 255
    ensures BigEndian(now[k := before[k] + 1]) == BigEndian(before) + 1
  {
    var after := now[k := before[k] + 1];
    assert after[..k] == now[..k + 1][..k];
    assert before[..k] == before[..k + 1][..k];
    CarryStop(before, after, k);
  }

  lemma {:induction false} CarryStop(before: seq<byte>, after: seq<byte>, k: nat)
    requires k < |before| == |after| && before[k] != 255
    requires after[..k] == before[..k] && after[k] == before[k] + 1
    requires forall j :: k < j < |before| ==> before[j] == 255 && after[j] == 0
    ensures BigEndian(after) == BigEndian(before) + 1
  {
    var n := |before| - 1;
    if k < n {
      assert before[n] == 255 && after[n] == 0;
      assert before[..n][..k] == before[..k] && after[..n][..k] == after[..k];
      CarryStop(before[..n], after[..n], k);
    } else {
      assert before[..n] == after[..n];
    }
  }

  lemma {:induction false} CarryOut(before: seq<byte>, after: seq<byte>)
    requires Carried(before, after, 0)
    ensures BigEndian(after) == 0 && BigEndian(before) == Pow2(8 * |before|) - 1
  {
    if before != [] {
      var n := |before| - 1;
      CarryOut(before[..n], after[..n]);
      Pow2Add(8 * n, 8);
      assert Pow2(8) == 256;
    }
  }

  /** The number after the largest one of that many bytes is zero. */
  function Next(n: nat, len: nat): nat {
    if n + 1 == Pow2(8 * len) then 0 else n + 1
  }

  /** ssl_record_sequence_update: increments in place, least significant byte last. */
  method SequenceUpdate(a: array<byte>, start: nat) returns (ok: bool)
    requires start < a.Length
    modifies a
    ensures a[..start] == old(a[..start])
    ensures BigEndian(a[start..]) == Next(old(BigEndian(a[start..])), a.Length - start)
    ensures ok <==> BigEndian(a[start..]) != 0
  {
    hide BigEndian, Pow2;
    var i: int := a.Length - 1;
    ghost var before := a[start..];
    while i >= start
      invariant start - 1 <= i < a.Length
      invariant a[..start] == old(a[..start])
      invariant Carried(before, a[start..], i + 1 - start)
    {
      ghost var k, now := i - start, a[start..];
      assert a[i] == now[k] == before[k];
      a[i] := Successor(a[i]);
      assert a[start..] == now[k := Successor(before[k])];
      if a[i] != 0 {
        CarryEnds(before, now, k);
        BigEndianBound(a[start..]);
        return true;
      }
      CarryOn(before, now, k);
      i := i - 1;
    }
    CarryOut(before, a[start..]);
    return false;
  }

  // ---------- Which numbers were used ----------

  /** The numbers sealed in generation g are the ones below its counter, or all once it ran out. */
  ghost predicate Used(sealed: seq<(nat, nat)>, g: int, counter: nat, exhausted: bool) {
    counter < SEQUENCES && forall n: nat :: (g, n) in sealed <==> n < SEQUENCES && (exhausted || n < counter)
  }

  lemma UsedAdd(sealed: seq<(nat, nat)>, g: nat, counter: nat, exhausted: bool)
    requires Used(sealed, g, counter, exhausted)
    ensures Used(sealed + [(g, counter)], g, Next(counter, 6), exhausted || Next(counter, 6) == 0)
    ensures (g, counter) in sealed <==> exhausted
  {
    SixBytes();
  }

  lemma UsedOther(sealed: seq<(nat, nat)>, s: (nat, nat), g: int, counter: nat, exhausted: bool)
    requires Used(sealed, g, counter, exhausted) && s.0 != g
    ensures Used(sealed + [s], g, counter, exhausted)
  {
  }

  lemma SixBytes()
    ensures Pow2(48) == SEQUENCES
  {
    assert Pow2(8) == 256;
    hide Pow2;
    Pow2Add(8, 8);
    Pow2Add(16, 16);
    Pow2Add(32, 16);
  }

  // ---------- Sealing ----------

  datatype Epoch = Previous | Current

  /** The cipher of one write state; `generation` says which one. */
  datatype Aead = Aead(generation: nat, nonceLen: nat, expansion: nat, version: nat) {
    /** SSLAEADContext::MaxOverhead */
    function Overhead(): nat {
      nonceLen + expansion
    }
  }

  function TwoBytes(n: nat): seq<byte>
    requires n < 0x1_0000
  {
    [n / 256, n % 256]
  }

  lemma TwoBytesValue(n: nat)
    requires n < 0x1_0000
    ensures BigEndian(TwoBytes(n)) == n
  {
    var b := TwoBytes(n);
    assert b[..1][..0] == [];
    assert BigEndian(b[..1]) == 256 * BigEndian(b[..1][..0]) + b[..1][0];
  }

  /** type, version, epoch, six bytes of sequence number, length, ciphertext */
  function RecordOf(contentType: byte, version: nat, epoch: nat, sequence: seq<byte>, ciphertext: seq<byte>): seq<byte>
    requires version < 0x1_0000 && epoch < 0x1_0000 && |sequence| == 6 && |ciphertext| < 0x1_0000
  {
    [contentType] + TwoBytes(version) + TwoBytes(epoch) + sequence + TwoBytes(|ciphertext|) + ciphertext
  }

  lemma RecordFields(contentType: byte, version: nat, epoch: nat, sequence: seq<byte>, ciphertext: seq<byte>)
    requires version < 0x1_0000 && epoch < 0x1_0000 && |sequence| == 6 && |ciphertext| < 0x1_0000
    ensures var out := RecordOf(contentType, version, epoch, sequence, ciphertext);
      && |out| == HEADER_LENGTH + |ciphertext|
      && out[0] == contentType && BigEndian(out[1..3]) == version && BigEndian(out[3..5]) == epoch
      && out[5..11] == sequence && BigEndian(out[11..13]) == |ciphertext|
  {
    var out := RecordOf(contentType, version, epoch, sequence, ciphertext);
    TwoBytesValue(version);
    TwoBytesValue(epoch);
    TwoBytesValue(|ciphertext|);
    hide BigEndian;
    assert out[1..3] == TwoBytes(version);
    assert out[3..5] == TwoBytes(epoch);
    assert out[5..11] == sequence;
    assert out[11..13] == TwoBytes(|ciphertext|);
  }

  /** One use of a cipher: what it was given, with the header it authenticates, and what it made of it. */
  datatype Use = Use(
    generation: nat, contentType: byte, version: nat, epoch: nat, sequence: seq<byte>, plain: seq<byte>, ciphertext: seq<byte>)
  {
    predicate Ok() {
      version < 0x1_0000 && epoch < 0x1_0000 && |sequence| == 6 && |ciphertext| < 0x1_0000
    }

    /** The record that carries the ciphertext. */
    function Bytes(): seq<byte>
      requires Ok()
    {
      RecordOf(contentType, version, epoch, sequence, ciphertext)
    }

    function Pair(): (nat, nat) {
      (generation, BigEndian(sequence))
    }
  }

  /** The log of the ciphers and the pairs that were used belong together. */
  ghost predicate Logged(uses: seq<Use>, sealed: seq<(nat, nat)>) {
    |uses| == |sealed| && forall i :: 0 <= i < |uses| ==> sealed[i] == uses[i].Pair()
  }

  lemma LoggedAdd(uses: seq<Use>, sealed: seq<(nat, nat)>, use: Use)
    requires Logged(uses, sealed)
    ensures Logged(uses + [use], sealed + [use.Pair()])
  {
  }

  /** The epoch before, unless the 16-bit epoch just wrapped. */
  lemma EpochBefore(generation: nat)
    requires generation % EPOCHS >= 1
    ensures (generation - 1) % EPOCHS == generation % EPOCHS - 1
  {
  }

  lemma NotLast(sealed: seq<(nat, nat)>, g: int, counter: nat, exhausted: bool)
    requires Used(sealed, g, counter, exhausted)
    ensures Next(counter, 6) != 0 <==> counter + 1 < SEQUENCES
  {
    SixBytes();
  }

  class Writer {
    const writeSequence: array<byte>
    const lastWriteSequence: array<byte>
    const cipher: Cipher
    var wEpoch: nat
    var aead: Aead
    var lastAead: Option<Aead>

    /** The cipher generation and sequence number of every record sealed, oldest first. */
    ghost var sealed: seq<(nat, nat)>
    /** What the ciphers were given and made, oldest first: all that a network can get hold of. */
    var uses: seq<Use>
    /** Whether the counter of the current and of the previous epoch went past its largest value. */
    ghost var exhausted: bool
    ghost var lastExhausted: bool
    /** Whether a record was sealed with a counter that had run out. */
    ghost var overrun: bool
    /** How many plaintexts the ciphers were given, and how many records a cipher or its counter failed on. */
    var tries: nat
    ghost var faults: nat

    ghost predicate Valid()
      reads this, writeSequence, lastWriteSequence
    {
      && Structure()
      && Used(sealed, aead.generation, Counter(), exhausted)
      && (lastAead.Some? ==> Used(sealed, aead.generation - 1, LastCounter(), lastExhausted))
      && (forall s :: s in sealed ==> s.0 <= aead.generation)
      && (Distinct(sealed) <==> !overrun)
      && Logged(uses, sealed)
    }

    predicate Structure()
      reads this`wEpoch, this`aead, this`lastAead
    {
      && writeSequence.Length == 8 && lastWriteSequence.Length == 8 && writeSequence != lastWriteSequence
      && wEpoch == aead.generation % EPOCHS
      && aead.version < 0x1_0000
      && (lastAead.Some? <==> aead.generation > 0)
      && (lastAead.Some? ==> lastAead.value.generation == aead.generation - 1)
    }

    ghost function Counter(): nat
      requires writeSequence.Length == 8
      reads this, writeSequence
    {
      BigEndian(writeSequence[2..])
    }

    ghost function LastCounter(): nat
      requires lastWriteSequence.Length == 8
      reads this, lastWriteSequence
    {
      BigEndian(lastWriteSequence[2..])
    }

    constructor (first: Aead, cipher: Cipher)
      requires first.generation == 0 && first.version < 0x1_0000
      ensures Valid() && fresh(writeSequence) && fresh(lastWriteSequence) && sealed == [] && uses == [] && !overrun
      ensures aead == first && Counter() == 0 && this.cipher == cipher && tries == 0 && faults == 0
    {
      writeSequence := new byte[8](_ => 0);
      lastWriteSequence := new byte[8](_ => 0);
      wEpoch, aead, lastAead, this.cipher := 0, first, None, cipher;
      sealed, uses, exhausted, lastExhausted, overrun, tries, faults := [], [], false, false, false, 0, 0;
      new;
      AllZero(writeSequence[2..]);
    }

    /** dtls1_set_write_state: the previous cipher and counter stay for retransmissions. */
    method SetWriteState(next: Aead)
      requires Valid() && next.generation == aead.generation + 1 && next.version < 0x1_0000
      modifies this`wEpoch, this`aead, this`lastAead, this`exhausted, this`lastExhausted
      modifies writeSequence, lastWriteSequence
      ensures Valid() && aead == next && lastAead == Some(old(aead))
      ensures Counter() == 0 && LastCounter() == old(Counter())
    {
      hide Distinct, BigEndian, Logged;
      wEpoch := (wEpoch + 1) % EPOCHS;
      forall i | 0 <= i < 8 {
        lastWriteSequence[i] := writeSequence[i];
      }
      forall i | 0 <= i < 8 {
        writeSequence[i] := 0;
      }
      assert lastWriteSequence[2..] == old(writeSequence[2..]);
      AllZero(writeSequence[2..]);
      lastAead := Some(aead);
      aead := next;
      lastExhausted, exhausted := exhausted, false;
    }

    /** The cipher, header epoch and counter that a record of that epoch uses. */
    function ChosenAead(epoch: Epoch): Aead
      requires Structure() && (epoch.Previous? ==> wEpoch >= 1)
      reads this`wEpoch, this`aead, this`lastAead
    {
      if epoch.Previous? then lastAead.value else aead
    }

    /** dtls_max_seal_overhead */
    function MaxSealOverhead(epoch: Epoch): nat
      requires Structure() && (epoch.Previous? ==> wEpoch >= 1)
      reads this`wEpoch, this`aead, this`lastAead
    {
      HEADER_LENGTH + ChosenAead(epoch).Overhead()
    }

    /** dtls_seal_prefix_len */
    function SealPrefixLen(epoch: Epoch): nat
      requires Structure() && (epoch.Previous? ==> wEpoch >= 1)
      reads this`wEpoch, this`aead, this`lastAead
    {
      HEADER_LENGTH + ChosenAead(epoch).nonceLen
    }

    ghost function ChosenCounter(epoch: Epoch): nat
      requires Structure()
      reads this, writeSequence, lastWriteSequence
    {
      if epoch.Previous? then LastCounter() else Counter()
    }

    /** The ghost record of one use of a cipher. */
    ghost method Note(epoch: Epoch, g: nat, counter: nat)
      requires Structure()
      requires Logged(uses, sealed + [(g, counter)])
      requires lastAead.Some? || epoch.Current?
      requires g == if epoch.Previous? then aead.generation - 1 else aead.generation
      requires Used(sealed, aead.generation, if epoch.Current? then counter else Counter(), exhausted)
      requires lastAead.Some? ==> Used(sealed, aead.generation - 1, if epoch.Previous? then counter else LastCounter(), lastExhausted)
      requires forall s :: s in sealed ==> s.0 <= aead.generation
      requires Distinct(sealed) <==> !overrun
      requires ChosenCounter(epoch) == Next(counter, 6)
      modifies this`sealed, this`exhausted, this`lastExhausted, this`overrun
      ensures Valid()
      ensures sealed == old(sealed) + [(g, counter)]
      ensures overrun == (old(overrun) || (if epoch.Previous? then old(lastExhausted) else old(exhausted)))
      ensures exhausted == (old(exhausted) || (epoch.Current? && Counter() == 0))
      ensures lastExhausted == (old(lastExhausted) || (epoch.Previous? && LastCounter() == 0))
    {
      hide Used, Distinct, BigEndian, Logged;
      DistinctAdd(sealed, (g, counter));
      if epoch.Previous? {
        UsedAdd(sealed, g, counter, lastExhausted);
        UsedOther(sealed, (g, counter), aead.generation, Counter(), exhausted);
        overrun := overrun || lastExhausted;
        lastExhausted := lastExhausted || LastCounter() == 0;
      } else {
        UsedAdd(sealed, g, counter, exhausted);
        if lastAead.Some? {
          UsedOther(sealed, (g, counter), g - 1, LastCounter(), lastExhausted);
        }
        overrun := overrun || exhausted;
        exhausted := exhausted || Counter() == 0;
      }
      sealed := sealed + [(g, counter)];
    }

    /** The cipher makes something of the plaintext that is no longer than it may be, and the counter goes on. */
    ghost predicate CipherWorks(plain: seq<byte>, epoch: Epoch)
      requires Structure() && (epoch.Previous? ==> wEpoch >= 1)
      reads this, writeSequence, lastWriteSequence
    {
      var made := cipher(tries, plain);
      && made.Some? && |made.value| <= |plain| + ChosenAead(epoch).Overhead() && |made.value| < 0x1_0000
      && ChosenCounter(epoch) + 1 < SEQUENCES
    }

    /** The overhead is exactly the room that the longest record needs behind its plaintext. */
    lemma OverheadIsTight(plain: seq<byte>, epoch: Epoch)
      requires Structure() && (epoch.Previous? ==> wEpoch >= 1)
      ensures CipherWorks(plain, epoch) <==>
        var made := cipher(tries, plain);
        && made.Some? && HEADER_LENGTH + |made.value| <= |plain| + MaxSealOverhead(epoch) && |made.value| < 0x1_0000
        && ChosenCounter(epoch) + 1 < SEQUENCES
    {
    }

    /** dtls_seal_record. When the cipher does not fail, the counter advances even if the record is then given up. */
    method SealRecord(contentType: byte, plain: seq<byte>, maxOut: nat, epoch: Epoch)
      returns (ok: bool, out: seq<byte>, ghost use: Use)
      requires Valid() && (epoch.Previous? ==> wEpoch >= 1)
      modifies this`sealed, this`uses, this`exhausted, this`lastExhausted, this`overrun, this`tries, this`faults
      modifies writeSequence, lastWriteSequence
      ensures Valid()
      ensures old(overrun) ==> overrun
      ensures sealed == old(sealed) || sealed == old(sealed) + [(ChosenAead(epoch).generation, old(ChosenCounter(epoch)))]
      ensures ok ==> sealed == old(sealed) + [(ChosenAead(epoch).generation, old(ChosenCounter(epoch)))]
      ensures uses == old(uses) || uses == old(uses) + [use]
      ensures use.contentType == contentType && use.plain == plain
      ensures use.generation == ChosenAead(epoch).generation && use.epoch == use.generation % EPOCHS
      ensures ok <==> old(CipherWorks(plain, epoch)) && HEADER_LENGTH + |cipher(old(tries), plain).value| <= maxOut
      ensures faults == old(faults) + if old(CipherWorks(plain, epoch)) then 0 else 1
      ensures tries == old(tries) + if maxOut < HEADER_LENGTH then 0 else 1
      ensures ok ==> uses == old(uses) + [use] && use.Ok() && out == use.Bytes() && use.ciphertext == cipher(old(tries), plain).value
      ensures ok ==> HEADER_LENGTH <= |out| <= maxOut && |out| <= |plain| + MaxSealOverhead(epoch)
      ensures ok ==> out[0] == contentType && BigEndian(out[1..3]) == aead.version
      ensures ok ==> BigEndian(out[3..5]) == ChosenAead(epoch).generation % EPOCHS
      ensures ok ==> BigEndian(out[5..11]) == old(ChosenCounter(epoch))
      ensures ok ==> BigEndian(out[11..13]) == |out| - HEADER_LENGTH
    {
      hide Used, Distinct, Logged, BigEndian, RecordOf, TwoBytes;
      ghost var works := CipherWorks(plain, epoch);
      ok, out, use := SealNext(contentType, plain, maxOut, epoch);
      if !works {
        faults := faults + 1;
      }
      if ok {
        RecordFields(use.contentType, use.version, use.epoch, use.sequence, use.ciphertext);
      }
    }

    /** The cipher is given the plaintext and the counter is updated. */
    method SealNext(contentType: byte, plain: seq<byte>, maxOut: nat, epoch: Epoch)
      returns (ok: bool, out: seq<byte>, ghost use: Use)
      requires Valid() && (epoch.Previous? ==> wEpoch >= 1)
      modifies this`sealed, this`uses, this`exhausted, this`lastExhausted, this`overrun, this`tries
      modifies writeSequence, lastWriteSequence
      ensures Valid()
      ensures old(overrun) ==> overrun
      ensures sealed == old(sealed) || sealed == old(sealed) + [(ChosenAead(epoch).generation, old(ChosenCounter(epoch)))]
      ensures ok ==> sealed == old(sealed) + [(ChosenAead(epoch).generation, old(ChosenCounter(epoch)))]
      ensures uses == old(uses) || uses == old(uses) + [use]
      ensures use.contentType == contentType && use.plain == plain
      ensures use.generation == ChosenAead(epoch).generation && use.epoch == use.generation % EPOCHS
      ensures ok <==> old(CipherWorks(plain, epoch)) && HEADER_LENGTH + |cipher(old(tries), plain).value| <= maxOut
      ensures tries == old(tries) + if maxOut < HEADER_LENGTH then 0 else 1
      ensures ok ==> uses == old(uses) + [use] && use.Ok() && out == use.Bytes() && use.ciphertext == cipher(old(tries), plain).value
      ensures ok ==> use.version == aead.version && BigEndian(use.sequence) == old(ChosenCounter(epoch))
    {
      hide Used, Distinct, BigEndian, RecordOf, TwoBytes, Logged;
      var headerEpoch := if epoch.Previous? then wEpoch - 1 else wEpoch;
      var sequence := if epoch.Previous? then lastWriteSequence else writeSequence;
      var number := sequence[2..];
      var chosen := ChosenAead(epoch);
      if epoch.Previous? {
        EpochBefore(aead.generation);
      }
      use := Use(chosen.generation, contentType, aead.version, headerEpoch, number, plain, []);
      ok, out := false, [];
      if maxOut < HEADER_LENGTH {
        return;
      }
      var sealedOk, ciphertext := Seal(chosen, contentType, aead.version, headerEpoch, number, maxOut - HEADER_LENGTH, plain);
      if !sealedOk {
        return;
      }
      use := use.(ciphertext := ciphertext);
      LoggedAdd(old(uses), sealed, use);
      ghost var counter := ChosenCounter(epoch);
      ghost var other := if epoch.Previous? then writeSequence else lastWriteSequence;
      ghost var kept := other[2..];
      var updated := SequenceUpdate(sequence, 2);
      assert other[2..] == kept;
      NotLast(sealed, ChosenAead(epoch).generation, counter, if epoch.Previous? then lastExhausted else exhausted);
      Note(epoch, ChosenAead(epoch).generation, counter);
      if !updated {
        return;
      }
      if |ciphertext| >= 0x1_0000 {
        return;
      }
      out := RecordOf(contentType, aead.version, headerEpoch, number, ciphertext);
      ok := true;
    }

    /** SSLAEADContext::Seal: what the cipher makes of it, at most the overhead more bytes than the plaintext, or an error. */
    method Seal(chosen: Aead, contentType: byte, version: nat, epoch: nat, sequence: seq<byte>, maxOut: nat, plain: seq<byte>)
      returns (ok: bool, ciphertext: seq<byte>)
      modifies this`uses, this`tries
      ensures var made := cipher(old(tries), plain);
        && (ok <==> made.Some? && |made.value| <= maxOut && |made.value| <= |plain| + chosen.Overhead())
        && (ok ==> ciphertext == made.value)
      ensures tries == old(tries) + 1
      ensures uses == if ok then old(uses) + [Use(chosen.generation, contentType, version, epoch, sequence, plain, ciphertext)] else old(uses)
    {
      var made := cipher(tries, plain);
      tries := tries + 1;
      if made.None? || |made.value| > maxOut || |made.value| > |plain| + chosen.Overhead() {
        return false, [];
      }
      ok, ciphertext := true, made.value;
      uses := uses + [Use(chosen.generation, contentType, version, epoch, sequence, plain, ciphertext)];
    }
  }

  lemma {:induction false} AllZero(bytes: seq<byte>)
    requires forall j :: 0 <= j < |bytes| ==> bytes[j] == 0
    ensures BigEndian(bytes) == 0
  {
    if bytes != [] {
      AllZero(bytes[..|bytes| - 1]);
    }
  }

  /** The receiver reads back the fields that were sealed, whatever follows in the datagram. */
  lemma HeaderRoundTrip(contentType: byte, version: nat, epoch: nat, sequence: seq<byte>, ciphertext: seq<byte>, rest: seq<byte>)
    requires version < 0x1_0000 && epoch < 0x1_0000 && |sequence| == 6
    requires |ciphertext| <= DtlsReceive.MAX_ENCRYPTED_LENGTH
    ensures DtlsReceive.ParseHeader(RecordOf(contentType, version, epoch, sequence, ciphertext) + rest) ==
      Some(DtlsReceive.Header(contentType, version, TwoBytes(epoch) + sequence, |ciphertext|))
  {
    RecordFields(contentType, version, epoch, sequence, ciphertext);
    var record := RecordOf(contentType, version, epoch, sequence, ciphertext);
    var out := record + rest;
    hide BigEndian, RecordOf;
    assert record[3..11] == TwoBytes(epoch) + sequence by { FirstEight(contentType, version, epoch, sequence, ciphertext); }
    assert out[0] == record[0] && out[1..3] == record[1..3] && out[3..11] == record[3..11] && out[11..13] == record[11..13];
  }

  lemma FirstEight(contentType: byte, version: nat, epoch: nat, sequence: seq<byte>, ciphertext: seq<byte>)
    requires version < 0x1_0000 && epoch < 0x1_0000 && |sequence| == 6 && |ciphertext| < 0x1_0000
    ensures RecordOf(contentType, version, epoch, sequence, ciphertext)[3..11] == TwoBytes(epoch) + sequence
  {
  }

  /**
    * A record that was sealed is one the receiver looks at exactly if it has the version and epoch of the
    * read state and a number that is new and not too old; the next record of the datagram is right behind it.
    */
  lemma SealedIsFresh(use: Use, rest: seq<byte>, reader: DtlsReceive.Reader)
    requires use.Ok() && |use.ciphertext| <= DtlsReceive.MAX_ENCRYPTED_LENGTH
    ensures var n := use.epoch * SEQUENCES + BigEndian(use.sequence);
      reader.Fresh(use.Bytes() + rest) <==>
        && (if reader.nullCipher then 0xfe00 <= use.version <= 0xfeff else use.version == reader.recordVersion)
        && use.epoch == reader.rEpoch && n !in reader.bitmap.seen && reader.bitmap.maxSeqNum < n + 64
    ensures DtlsReceive.ParseHeader(use.Bytes() + rest).Some?
    ensures (use.Bytes() + rest)[DtlsReceive.HEADER_LENGTH + DtlsReceive.ParseHeader(use.Bytes() + rest).value.length..] == rest
  {
    hide BigEndian, RecordOf, TwoBytes;
    HeaderRoundTrip(use.contentType, use.version, use.epoch, use.sequence, use.ciphertext, rest);
    RecordFields(use.contentType, use.version, use.epoch, use.sequence, use.ciphertext);
    TwoBytesValue(use.epoch);
    BigEndianConcat(TwoBytes(use.epoch), use.sequence);
    SixBytes();
    assert (TwoBytes(use.epoch) + use.sequence)[..2] == TwoBytes(use.epoch);
  }

  lemma {:induction false} BigEndianConcat(a: seq<byte>, b: seq<byte>)
    ensures BigEndian(a + b) == BigEndian(a) * Pow2(8 * |b|) + BigEndian(b)
  {
    if b == [] {
      assert a + b == a;
    } else {
      var n := |b| - 1;
      BigEndianConcat(a, b[..n]);
      assert (a + b)[..|a + b| - 1] == a + b[..n];
      Pow2Add(8 * n, 8);
      assert Pow2(8) == 256;
      assert BigEndian(a) * Pow2(8 * n) * 256 == BigEndian(a) * (Pow2(8 * n) * 256);
    }
  }

  // ---------- Whole runs ----------

  /** The epoch and sequence number in the header of a record. */
  function OnWire(s: (nat, nat)): (nat, nat) {
    (s.0 % EPOCHS, s.1)
  }

  ghost predicate WirePairsDistinct(sealed: seq<(nat, nat)>) {
    forall i, j :: 0 <= i < j < |sealed| ==> OnWire(sealed[i]) != OnWire(sealed[j])
  }

  ghost predicate UpTo(sealed: seq<(nat, nat)>, generation: nat) {
    forall s :: s in sealed ==> s.0 <= generation
  }

  /** With 65536 write states or more, records of different ciphers can carry the same pair. */
  lemma EpochLimit(generation: nat)
    ensures (forall sealed :: UpTo(sealed, generation) && Distinct(sealed) ==> WirePairsDistinct(sealed)) <==> generation < EPOCHS
  {
    if generation < EPOCHS {
      forall sealed | UpTo(sealed, generation) && Distinct(sealed)
        ensures WirePairsDistinct(sealed)
      {
        forall i, j | 0 <= i < j < |sealed|
          ensures OnWire(sealed[i]) != OnWire(sealed[j])
        {
          assert sealed[i] in sealed && sealed[j] in sealed;
        }
      }
    } else {
      var again := [(0, 0), (EPOCHS, 0)];
      assert OnWire(again[0]) == OnWire(again[1]);
      assert UpTo(again, generation) && Distinct(again);
    }
  }

  datatype Step =
    | Seal(contentType: byte, plain: seq<byte>, maxOut: nat, epoch: Epoch)
    | NewState(aead: Aead)

  /**
    * In any mix of records of both epochs and new write states, no epoch and sequence number is used
    * twice before the epoch wraps, exactly unless a record is sealed after its counter ran out.
    */
  method Run(w: Writer, steps: seq<Step>)
    requires w.Valid()
    modifies w, w.writeSequence, w.lastWriteSequence
    ensures w.Valid() && old(w.sealed) <= w.sealed && w.aead.generation <= old(w.aead.generation) + |steps|
    ensures Distinct(w.sealed) <==> !w.overrun
    ensures w.aead.generation < EPOCHS ==> (WirePairsDistinct(w.sealed) <==> !w.overrun)
  {
    for i := 0 to |steps|
      invariant w.Valid() && old(w.sealed) <= w.sealed && w.aead.generation <= old(w.aead.generation) + i
    {
      match steps[i]
      case Seal(contentType, plain, maxOut, epoch) =>
        if epoch.Current? || w.wEpoch >= 1 {
          var _, _, _ := w.SealRecord(contentType, plain, maxOut, epoch);
        }
      case NewState(aead) =>
        if aead.generation == w.aead.generation + 1 && aead.version < 0x1_0000 {
          w.SetWriteState(aead);
        }
    }
    EpochLimit(w.aead.generation);
    assert UpTo(w.sealed, w.aead.generation);
    if WirePairsDistinct(w.sealed) {
      assert Distinct(w.sealed);
    }
  }

  /** The wrap is reachable: after 65536 new write states the first pair is sealed again. */
  method EpochWrap(first: Aead, plain: seq<byte>, ciphertext: seq<byte>) returns (w: Writer)
    requires first.generation == 0 && first.version < 0x1_0000
    requires |ciphertext| <= |plain| + first.Overhead() && |ciphertext| < 0x1_0000
    ensures fresh(w) && w.Valid()
    ensures w.sealed == [(0, 0), (EPOCHS, 0)] && !WirePairsDistinct(w.sealed) && !w.overrun
  {
    hide Used, BigEndian;
    w := new Writer(first, (k, p) => Some(ciphertext));
    var maxOut := HEADER_LENGTH + |ciphertext|;
    var _, _, _ := w.SealRecord(0, plain, maxOut, Current);
    ghost var before := w.sealed;
    for i := 0 to EPOCHS
      invariant w.Valid() && w.sealed == before && w.aead == first.(generation := i)
      invariant fresh(w) && fresh(w.writeSequence) && fresh(w.lastWriteSequence)
      invariant i > 0 ==> w.Counter() == 0
    {
      w.SetWriteState(first.(generation := i + 1));
    }
    var _, _, _ := w.SealRecord(0, plain, maxOut, Current);
    assert w.sealed == [(0, 0)] + [(EPOCHS, 0)];
    assert OnWire(w.sealed[0]) == OnWire(w.sealed[1]);
    assert Distinct(w.sealed);
  }
}
