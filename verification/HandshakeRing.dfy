/** The ring of incoming DTLS handshake messages (section 4.2.6 of RFC 6347). */
module HandshakeRing {
  import opened Wire
  import opened Reassembly

  const FLIGHT: nat := 7
  const SEQUENCE_NUMBERS: nat := 0x1_0000

  const CHANGE_CIPHER_SPEC: byte := 20
  const HANDSHAKE: byte := 22
  const APPLICATION_DATA: byte := 23

  datatype HandshakeResult = Success | Discard | Failed

  type Slots = s: seq<Option<Partial>> | |s| == FLIGHT witness [None, None, None, None, None, None, None]

  /** A slot holds the only number of the window that belongs to it. */
  predicate SlotOk(p: Partial, i: nat, readSeq: nat) {
    && PartialOk(p)
    && p.seqNum % FLIGHT == i && readSeq <= p.seqNum < readSeq + FLIGHT
  }

  /** The stored header is the one of the whole message in a single fragment. */
  predicate PartialOk(p: Partial) {
    && |p.marked| <= MAX_U24 && p.seqNum <= MAX_U16
    && |p.data| == HM_HEADER_LENGTH + |p.marked|
    && p.data[..HM_HEADER_LENGTH] == HeaderBytes(Header(p.msgType, |p.marked|, p.seqNum, 0, |p.marked|))
  }

  predicate WindowOk(slots: Slots, readSeq: nat) {
    forall i :: 0 <= i < FLIGHT ==> slots[i].Some? ==> SlotOk(slots[i].value, i, readSeq)
  }

  predicate Empty(slots: Slots) {
    forall i :: 0 <= i < FLIGHT ==> slots[i].None?
  }

  lemma SameResidue(a: nat, b: nat, start: nat)
    requires start <= a < start + FLIGHT && start <= b < start + FLIGHT && a % FLIGHT == b % FLIGHT
    ensures a == b
  {
  }

  /** The numbers of the next window, also when the 16-bit counter wraps to an empty ring. */
  lemma WindowMoves(slots: Slots, readSeq: nat)
    requires WindowOk(slots, readSeq) && readSeq <= MAX_U16
    ensures WindowOk(slots[readSeq % FLIGHT := None], (readSeq + 1) % SEQUENCE_NUMBERS)
    ensures readSeq == MAX_U16 ==> Empty(slots[readSeq % FLIGHT := None])
  {
    hide HeaderBytes;
    var moved: Slots := slots[readSeq % FLIGHT := None];
    forall i | 0 <= i < FLIGHT && moved[i].Some?
      ensures readSeq < MAX_U16 && SlotOk(moved[i].value, i, readSeq + 1)
    {
      assert SlotOk(slots[i].value, i, readSeq);
      assert slots[i].value.seqNum != readSeq;
    }
  }

  // ---------- What a fragment does to the ring ----------

  /** The reader's position, the epoch records are read in and the largest message allowed. */
  datatype Reading = Reading(readSeq: nat, rEpoch: nat, maxLen: nat, junk: Junk)

  /** The message a header talks about has the type and length announced by its first fragment. */
  predicate Matches(p: Partial, h: Header) {
    p.msgType == h.msgType && |p.marked| == h.msgLen
  }

  /** dtls1_get_incoming_message: the ring with a slot for the message, unless it does not fit. */
  function Lookup(slots: Slots, c: Reading, h: Header): Option<Slots>
    requires h.Fits()
  {
    var i := h.seqNum % FLIGHT;
    if !(c.readSeq <= h.seqNum < c.readSeq + FLIGHT) then None
    else if slots[i].None? then Some(slots[i := Some(FreshPartial(h, c.junk))])
    else if Matches(slots[i].value, h) then Some(slots)
    else None
  }

  /** The fragment lies in its message, which is not too long. */
  predicate Bounded(h: Header, maxLen: nat) {
    h.fragOff + h.fragLen <= h.msgLen <= maxLen
  }

  /** What one fragment does, and whether the record goes on. */
  function AddFragment(slots: Slots, c: Reading, h: Header, body: seq<byte>): (Slots, bool)
    requires h.Fits() && |body| == h.fragLen && WindowOk(slots, c.readSeq)
  {
    if !Bounded(h, c.maxLen) || (c.rEpoch == 1 && h.seqNum != c.readSeq) then (slots, false)
    else if h.seqNum < c.readSeq || h.seqNum > c.readSeq + FLIGHT then (slots, true)
    else
      match Lookup(slots, c, h)
      case None => (slots, false)
      case Some(found) =>
        LookupKeeps(slots, c, h);
        var i := h.seqNum % FLIGHT;
        (found[i := Some(Received(found[i].value, h.fragOff, body))], true)
  }

  /** What the fragments of one record do. */
  function AddFragments(slots: Slots, c: Reading, record: seq<byte>): (Slots, bool)
    requires WindowOk(slots, c.readSeq)
    decreases |record|
  {
    if record == [] then (slots, true)
    else
      match ParseFragment(record)
      case None => (slots, false)
      case Some((h, body, rest)) =>
        AddFragmentKeeps(slots, c, h, body);
        var (after, ok) := AddFragment(slots, c, h, body);
        if ok then AddFragments(after, c, rest) else (after, false)
  }

  lemma LookupKeeps(slots: Slots, c: Reading, h: Header)
    requires h.Fits() && WindowOk(slots, c.readSeq) && Lookup(slots, c, h).Some?
    ensures var found := Lookup(slots, c, h).value;
      && WindowOk(found, c.readSeq) && found[h.seqNum % FLIGHT].Some?
      && Matches(found[h.seqNum % FLIGHT].value, h) && found[h.seqNum % FLIGHT].value.seqNum == h.seqNum
      && PartialOk(found[h.seqNum % FLIGHT].value)
      && found[h.seqNum % FLIGHT].value.msgType == h.msgType && |found[h.seqNum % FLIGHT].value.marked| == h.msgLen
  {
    hide HeaderBytes;
    var i := h.seqNum % FLIGHT;
    if slots[i].Some? {
      SameResidue(slots[i].value.seqNum, h.seqNum, c.readSeq);
    } else {
      var p := FreshPartial(h, c.junk);
      assert p.data[..HM_HEADER_LENGTH] == WholeHeader(h);
    }
  }

  lemma ReceivedOk(p: Partial, off: nat, body: seq<byte>)
    requires PartialOk(p) && off + |body| <= |p.marked|
    ensures PartialOk(Received(p, off, body))
  {
    hide HeaderBytes;
    assert Received(p, off, body).data[..HM_HEADER_LENGTH] == p.data[..HM_HEADER_LENGTH];
  }

  /** The window stays in order whatever the fragment. */
  lemma AddFragmentKeeps(slots: Slots, c: Reading, h: Header, body: seq<byte>)
    requires h.Fits() && |body| == h.fragLen && WindowOk(slots, c.readSeq)
    ensures WindowOk(AddFragment(slots, c, h, body).0, c.readSeq)
  {
    hide HeaderBytes;
    if Lookup(slots, c, h).Some? && Bounded(h, c.maxLen) {
      LookupKeeps(slots, c, h);
      ReceivedOk(Lookup(slots, c, h).value[h.seqNum % FLIGHT].value, h.fragOff, body);
    }
  }

  /** Pointers to the incoming messages, with the number of the message to be read next. */
  class Incoming {
    const slots: array<Fragment?>
    const junk: Junk
    var readSeq: nat
    var hasMessage: bool
    var hasChangeCipherSpec: bool
    /** What the slots hold. */
    ghost var view: Slots
    ghost var footprint: set<object>

    ghost predicate Valid()
      reads this, footprint
    {
      && Structure() && readSeq <= MAX_U16 && WindowOk(view, readSeq)
    }

    ghost predicate Structure()
      reads `view, `footprint, footprint
    {
      && this !in footprint && slots in footprint && slots.Length == FLIGHT
      && (forall i :: 0 <= i < FLIGHT ==> SlotValid(i))
      && (forall i, j :: 0 <= i < j < FLIGHT ==> Apart(i, j))
    }

    ghost predicate SlotValid(i: nat)
      requires slots.Length == FLIGHT && i < FLIGHT && slots in footprint
      reads `view, `footprint, footprint
    {
      if slots[i] == null then view[i] == None
      else
        && slots[i] in footprint && slots[i].Repr() <= footprint
        && slots !in slots[i].Repr()
        && slots[i].Valid() && view[i] == Some(slots[i].Now())
    }

    ghost predicate Apart(i: nat, j: nat)
      requires slots.Length == FLIGHT && i < j < FLIGHT && slots in footprint
      reads `view, `footprint, footprint
    {
      slots[i] != null && slots[j] != null && slots[i] in footprint && slots[j] in footprint ==> slots[i].Repr() !! slots[j].Repr()
    }

    constructor (junk: Junk)
      ensures Valid() && fresh(footprint) && readSeq == 0 && !hasMessage && !hasChangeCipherSpec
      ensures Empty(view) && this.junk == junk
    {
      slots := new Fragment?[FLIGHT](_ => null);
      this.junk := junk;
      readSeq, hasMessage, hasChangeCipherSpec := 0, false, false;
      view := [None, None, None, None, None, None, None];
      new;
      footprint := {slots};
    }

    /** A new message takes an empty slot. */
    method Create(i: nat, h: Header)
      requires Structure() && h.Fits() && i < FLIGHT && slots[i] == null
      modifies this`view, this`footprint, slots
      ensures Structure() && fresh(footprint - old(footprint))
      ensures view == old(view)[i := Some(FreshPartial(h, junk))]
    {
      hide HeaderBytes, FreshPartial, MaskShows;
      var frag := new Fragment(h, junk);
      slots[i] := frag;
      footprint := footprint + frag.Repr();
      view := view[i := Some(frag.Now())];
      assert frag.Repr() !! old(footprint);
      forall j | 0 <= j < FLIGHT
        ensures SlotValid(j)
        ensures j != i && slots[j] != null ==> slots[j].Repr() <= old(footprint)
      {
        assert old(SlotValid(j));
      }
      forall j, k | 0 <= j < k < FLIGHT
        ensures Apart(j, k)
      {
        assert old(Apart(j, k));
      }
    }

    ghost function Config(rEpoch: nat, maxLen: nat): Reading
      reads this
    {
      Reading(readSeq, rEpoch, maxLen, junk)
    }

    /** dtls1_get_incoming_message: null if the number or the announced message does not fit. */
    method GetIncoming(h: Header) returns (frag: Fragment?)
      requires Valid() && h.Fits()
      modifies this`view, this`footprint, slots
      ensures Valid() && fresh(footprint - old(footprint))
      ensures match Lookup(old(view), Config(0, 0), h)
              case None => frag == null && view == old(view)
              case Some(found) => view == found && frag != null && frag == slots[h.seqNum % FLIGHT]
    {
      hide WindowOk, HeaderBytes, FreshPartial, MaskShows;
      ghost var c := Config(0, 0);
      if h.seqNum < readSeq || h.seqNum - readSeq >= FLIGHT {
        return null;
      }
      var i := h.seqNum % FLIGHT;
      frag := slots[i];
      assert SlotValid(i);
      if Lookup(view, c, h).Some? {
        LookupKeeps(view, c, h);
      }
      if frag != null {
        if frag.msgType != h.msgType || frag.msgLen != h.msgLen {
          return null;
        }
        assert frag.seqNum == h.seqNum;
        return;
      }
      Create(i, h);
      assert SlotValid(i);
      frag := slots[i];
    }

    /** Copying and marking one fragment in its slot. */
    method Store(i: nat, off: nat, body: seq<byte>)
      requires Structure() && i < FLIGHT && slots[i] != null && view[i].Some?
      requires |view[i].value.data| == HM_HEADER_LENGTH + |view[i].value.marked| && off + |body| <= |view[i].value.marked|
      modifies this`view, slots[i].Repr()
      ensures Structure()
      ensures view == old(view)[i := Some(Received(old(view)[i].value, off, body))]
    {
      hide Received, MaskShows;
      assert SlotValid(i);
      slots[i].Receive(off, body);
      view := view[i := Some(slots[i].Now())];
      forall j | 0 <= j < FLIGHT
        ensures SlotValid(j)
      {
        assert old(SlotValid(j));
        if j != i {
          assert if j < i then old(Apart(j, i)) else old(Apart(i, j));
        }
      }
      forall j, k | 0 <= j < k < FLIGHT
        ensures Apart(j, k)
      {
        assert old(Apart(j, k));
      }
    }

    /** One turn of the loop in dtls1_open_handshake. */
    method OpenFragment(h: Header, body: seq<byte>, rEpoch: nat, maxLen: nat) returns (ok: bool)
      requires Valid() && h.Fits() && |body| == h.fragLen
      modifies footprint, this`view, this`footprint
      ensures Valid() && fresh(footprint - old(footprint))
      ensures (view, ok) == AddFragment(old(view), Config(rEpoch, maxLen), h, body)
    {
      hide WindowOk, HeaderBytes, FreshPartial, Received, PartialOk;
      ghost var c := Config(rEpoch, maxLen);
      AddFragmentKeeps(view, c, h, body);
      if h.fragOff > h.msgLen || h.fragOff + h.fragLen > h.msgLen || h.msgLen > maxLen {
        return false;
      }
      if rEpoch == 1 && h.seqNum != readSeq {
        return false;
      }
      if h.seqNum < readSeq || h.seqNum > readSeq + FLIGHT {
        return true;
      }
      if Lookup(view, c, h).Some? {
        LookupKeeps(view, c, h);
      }
      assert Lookup(view, c, h) == Lookup(view, Config(0, 0), h);
      var frag := GetIncoming(h);
      if frag == null {
        return false;
      }
      ghost var found := view;
      PartialSizes(found[h.seqNum % FLIGHT].value);
      assert SlotValid(h.seqNum % FLIGHT);
      Store(h.seqNum % FLIGHT, h.fragOff, body);
      return true;
    }

    /** The fragments of a handshake record, in order, up to the first error. */
    method OpenFragments(record: seq<byte>, rEpoch: nat, maxLen: nat) returns (ok: bool)
      requires Valid()
      modifies footprint, this`view, this`footprint
      ensures Valid() && fresh(footprint - old(footprint))
      ensures (view, ok) == AddFragments(old(view), Config(rEpoch, maxLen), record)
    {
      hide WindowOk, AddFragment, ParseFragment;
      var rest := record;
      ghost var c := Config(rEpoch, maxLen);
      while rest != []
        invariant Valid() && fresh(footprint - old(footprint))
        invariant AddFragments(view, c, rest) == AddFragments(old(view), c, record)
        decreases |rest|
      {
        var parsed := ParseFragment(rest);
        if parsed.None? {
          return false;
        }
        var (h, body, next) := parsed.value;
        ok := OpenFragment(h, body, rEpoch, maxLen);
        if !ok {
          return false;
        }
        rest := next;
      }
      return true;
    }

    /** dtls1_open_handshake, once the record was opened. */
    method OpenHandshake(contentType: byte, record: seq<byte>, nullCipher: bool, rEpoch: nat, maxLen: nat)
      returns (result: HandshakeResult)
      requires Valid()
      modifies footprint, this`view, this`footprint, this`hasChangeCipherSpec
      ensures Valid() && fresh(footprint - old(footprint)) && readSeq == old(readSeq)
      ensures contentType == HANDSHAKE ==>
        && (view, result == Success) == AddFragments(old(view), old(Config(rEpoch, maxLen)), record)
        && !result.Discard? && hasChangeCipherSpec == old(hasChangeCipherSpec)
      ensures contentType != HANDSHAKE ==> view == old(view)
      ensures contentType == CHANGE_CIPHER_SPEC ==>
        && (result == Success <==> nullCipher && record == [1]) && !result.Discard?
        && hasChangeCipherSpec == (old(hasChangeCipherSpec) || result == Success)
      ensures contentType == APPLICATION_DATA ==> result == if nullCipher then Failed else Discard
      ensures contentType !in [HANDSHAKE, CHANGE_CIPHER_SPEC, APPLICATION_DATA] ==> result == Failed
    {
      hide WindowOk, AddFragments;
      if contentType == APPLICATION_DATA {
        return if nullCipher then Failed else Discard;
      } else if contentType == CHANGE_CIPHER_SPEC {
        if !nullCipher || |record| != 1 || record[0] != 1 {
          return Failed;
        }
        hasChangeCipherSpec := true;
        return Success;
      } else if contentType != HANDSHAKE {
        return Failed;
      }
      var ok := OpenFragments(record, rEpoch, maxLen);
      return if ok then Success else Failed;
    }

    /** dtls1_is_current_message_complete */
    method IsCurrentMessageComplete() returns (complete: bool)
      requires Valid()
      ensures complete <==> Current(view, readSeq).Some? && Current(view, readSeq).value.Complete()
    {
      hide WindowOk, MaskShows;
      assert SlotValid(readSeq % FLIGHT);
      var frag := slots[readSeq % FLIGHT];
      return frag != null && frag.reassembly == null;
    }

    /** dtls1_get_message: the whole message, header included, once complete. */
    method GetMessage() returns (raw: Option<seq<byte>>)
      requires Valid()
      modifies this`hasMessage
      ensures Valid()
      ensures raw == match Current(view, readSeq)
                     case Some(p) => if p.Complete() then Some(p.data) else None
                     case None => None
      ensures hasMessage == (old(hasMessage) || raw.Some?)
    {
      hide WindowOk, MaskShows;
      var complete := IsCurrentMessageComplete();
      if !complete {
        return None;
      }
      assert SlotValid(readSeq % FLIGHT);
      hasMessage := true;
      return Some(slots[readSeq % FLIGHT].data[..]);
    }

    /** dtls1_next_message: its slot is freed and the 16-bit read position moves on. */
    method NextMessage()
      requires Valid() && hasMessage && Current(view, readSeq).Some? && Current(view, readSeq).value.Complete()
      modifies this`view, this`readSeq, this`hasMessage, slots
      ensures Valid() && !hasMessage
      ensures readSeq == (old(readSeq) + 1) % SEQUENCE_NUMBERS
      ensures view == old(view)[old(readSeq) % FLIGHT := None]
    {
      hide WindowOk, MaskShows;
      WindowMoves(view, readSeq);
      var index := readSeq % FLIGHT;
      readSeq := (readSeq + 1) % SEQUENCE_NUMBERS;
      hasMessage := false;
      slots[index] := null;
      view := view[index := None];
      forall j | 0 <= j < FLIGHT
        ensures SlotValid(j)
      {
        assert old(SlotValid(j));
      }
      forall j, k | 0 <= j < k < FLIGHT
        ensures Apart(j, k)
      {
        assert old(Apart(j, k));
      }
    }

    /** dtls_has_unprocessed_handshake_data */
    method HasUnprocessedData() returns (unprocessed: bool)
      requires Valid()
      ensures unprocessed <==> hasChangeCipherSpec ||
                               exists i | 0 <= i < FLIGHT :: view[i].Some? && !(hasMessage && i == readSeq % FLIGHT)
    {
      hide WindowOk, MaskShows;
      if hasChangeCipherSpec {
        return true;
      }
      var current := readSeq % FLIGHT;
      for i := 0 to FLIGHT
        invariant forall j :: 0 <= j < i ==> view[j].None? || (hasMessage && j == current)
      {
        assert SlotValid(i);
        if hasMessage && i == current {
          continue;
        }
        if slots[i] != null {
          return true;
        }
      }
      return false;
    }
  }

  lemma PartialSizes(p: Partial)
    requires PartialOk(p)
    ensures |p.data| == HM_HEADER_LENGTH + |p.marked|
  {
  }

  /** The slot of the message to be read next. */
  function Current(slots: Slots, readSeq: nat): Option<Partial> {
    slots[readSeq % FLIGHT]
  }
}
