/** Which DTLS records are accepted. */
module DtlsReceive {
  import opened Wire
  import opened ReplayWindow

  const HEADER_LENGTH: nat := 13
  const MAX_PLAIN_LENGTH: nat := 16384
  const MAX_ENCRYPTED_LENGTH: nat := 16384 + 256 + 64
  const VERSION_MAJOR: nat := 0xfe
  const EPOCHS: nat := 0x1_0000

  const ALERT: byte := 21

  datatype OpenResult =
    | Success(contentType: byte, plain: seq<byte>)
    | AlertReceived(plain: seq<byte>)
    | Discard
    | Partial
    | CloseNotify
    | Failed

  /** The record header at the start of a packet, when it is complete and its length is allowed. */
  datatype Header = Header(contentType: byte, version: nat, sequence: seq<byte>, length: nat)

  function ParseHeader(input: seq<byte>): (h: Option<Header>)
    ensures h.Some? ==> |h.value.sequence| == 8 && HEADER_LENGTH + h.value.length <= |input|
  {
    if |input| < HEADER_LENGTH then None
    else
      var length := BigEndian(input[11..13]);
      if |input| < HEADER_LENGTH + length || length > MAX_ENCRYPTED_LENGTH then None
      else Some(Header(input[0], BigEndian(input[1..3]), input[3..11], length))
  }

  class Reader {
    const bitmap: Bitmap
    var rEpoch: nat
    var closeNotify: bool
    var nullCipher: bool
    var recordVersion: nat

    /** How many times the read state was set. */
    ghost var generation: nat
    /** The generation and 64-bit sequence number of every record accepted, oldest first. */
    ghost var accepted: seq<(nat, nat)>

    ghost predicate Valid()
      reads this, bitmap
    {
      && bitmap.Valid()
      && rEpoch == generation % EPOCHS
      && Accepted(accepted, generation, bitmap.seen)
    }

    constructor ()
      ensures Valid() && fresh(bitmap) && accepted == [] && generation == 0
    {
      bitmap := new Bitmap();
      rEpoch, closeNotify, nullCipher, recordVersion := 0, false, true, 0;
      generation, accepted := 0, [];
    }

    predicate VersionOk(version: nat)
      reads this
    {
      if nullCipher then version / 256 == VERSION_MAJOR else version == recordVersion
    }

    /** Where the next record of a datagram starts; one that cannot be parsed takes all of it. */
    function RecordEnd(input: seq<byte>): nat
      reads this
    {
      var header := ParseHeader(input);
      if header.Some? && VersionOk(header.value.version) then HEADER_LENGTH + header.value.length else |input|
    }

    /** A well-formed record of the current epoch that is neither a replay nor too old. */
    ghost predicate Fresh(input: seq<byte>)
      reads this, bitmap
    {
      var header := ParseHeader(input);
      && header.Some? && VersionOk(header.value.version)
      && BigEndian(header.value.sequence[..2]) == rEpoch
      && var n := BigEndian(header.value.sequence);
         n !in bitmap.seen && bitmap.maxSeqNum < n + WINDOW
    }

    /** dtls_open_record; `decrypted` is what the AEAD makes of the record's body. */
    method OpenRecord(input: seq<byte>, decrypted: Option<seq<byte>>) returns (result: OpenResult, consumed: nat)
      requires Valid()
      modifies this`accepted, bitmap
      ensures Valid()
      ensures consumed <= |input| && (consumed == 0 <==> result.Partial? || result.CloseNotify?)
      ensures !closeNotify ==> consumed == RecordEnd(input)
      ensures result.CloseNotify? <==> closeNotify
      ensures result.Partial? <==> !closeNotify && input == []
      ensures result.Failed? <==> !closeNotify && old(Fresh(input)) && decrypted.Some? && |decrypted.value| > MAX_PLAIN_LENGTH
      ensures (result.Success? || result.AlertReceived?) <==>
        !closeNotify && old(Fresh(input)) && decrypted.Some? && |decrypted.value| <= MAX_PLAIN_LENGTH
      ensures result.Success? || result.AlertReceived? ==> result.plain == decrypted.value
      ensures if result.Success? || result.AlertReceived?
              then accepted == old(accepted) + [(generation, BigEndian(input[3..11]))]
              else accepted == old(accepted) && bitmap.seen == old(bitmap.seen)
      ensures result.Success? ==> result.contentType == input[0] != ALERT
      ensures result.AlertReceived? ==> input[0] == ALERT
    {
      hide Accepted, BigEndian;
      if closeNotify {
        return CloseNotify, 0;
      }
      if input == [] {
        return Partial, 0;
      }
      var header := ParseHeader(input);
      if header.None? || !VersionOk(header.value.version) {
        return Discard, |input|;
      }
      consumed := HEADER_LENGTH + header.value.length;
      var epoch := BigEndian(header.value.sequence[..2]);
      if epoch != rEpoch {
        return Discard, consumed;
      }
      var discard := bitmap.ShouldDiscard(header.value.sequence);
      if discard {
        return Discard, consumed;
      }
      if decrypted.None? {
        return Discard, consumed;
      }
      if |decrypted.value| > MAX_PLAIN_LENGTH {
        return Failed, consumed;
      }
      AcceptedAdd(accepted, generation, bitmap.seen, BigEndian(header.value.sequence));
      bitmap.Record(header.value.sequence);
      accepted := accepted + [(generation, BigEndian(header.value.sequence))];
      if header.value.contentType == ALERT {
        return AlertReceived(decrypted.value), consumed;
      }
      return Success(header.value.contentType, decrypted.value), consumed;
    }

    /** dtls1_set_read_state; refused while handshake data of the current epoch is left over. */
    method SetReadState(unprocessed: bool, version: nat) returns (ok: bool)
      requires Valid()
      modifies this`rEpoch, this`nullCipher, this`recordVersion, this`generation, bitmap
      ensures Valid()
      ensures ok == !unprocessed
      ensures generation == old(generation) + if ok then 1 else 0
      ensures ok ==> bitmap.seen == {} && !nullCipher && recordVersion == version
      ensures !ok ==> bitmap.seen == old(bitmap.seen) && nullCipher == old(nullCipher) && recordVersion == old(recordVersion)
    {
      if unprocessed {
        return false;
      }
      rEpoch := (rEpoch + 1) % EPOCHS;
      AcceptedNext(accepted, generation, bitmap.seen);
      generation := generation + 1;
      bitmap.Zero();
      nullCipher, recordVersion := false, version;
      return true;
    }
  }

  /** Everything accepted is distinct, and the current generation is exactly what the bitmap saw. */
  ghost predicate Accepted(accepted: seq<(nat, nat)>, generation: nat, seen: set<nat>) {
    && Distinct(accepted)
    && (forall a :: a in accepted ==> a.0 <= generation)
    && (forall n :: n in seen <==> (generation, n) in accepted)
  }

  lemma AcceptedAdd(accepted: seq<(nat, nat)>, generation: nat, seen: set<nat>, n: nat)
    requires Accepted(accepted, generation, seen) && n !in seen
    ensures Accepted(accepted + [(generation, n)], generation, seen + {n})
  {
    DistinctAdd(accepted, (generation, n));
  }

  lemma AcceptedNext(accepted: seq<(nat, nat)>, generation: nat, seen: set<nat>)
    requires Accepted(accepted, generation, seen)
    ensures Accepted(accepted, generation + 1, {})
  {
  }

  datatype Step = Open(input: seq<byte>, decrypted: Option<seq<byte>>) | NewState(unprocessed: bool, version: nat)

  /** Whatever arrives, in whatever order and however often, no number of a read state is accepted twice. */
  method Run(r: Reader, steps: seq<Step>)
    requires r.Valid()
    modifies r, r.bitmap
    ensures r.Valid() && old(r.accepted) <= r.accepted && Distinct(r.accepted)
  {
    for i := 0 to |steps|
      invariant r.Valid() && old(r.accepted) <= r.accepted
    {
      match steps[i]
      case Open(input, decrypted) =>
        var _, _ := r.OpenRecord(input, decrypted);
      case NewState(unprocessed, version) =>
        var _ := r.SetReadState(unprocessed, version);
    }
  }
}
