/**
  * What the answers of cryptography, parsers and callbacks do to a handshake: a state goes on only if what
  * it asks accepts, and a peer that is done went through the events at which chain and signature were accepted.
  */
module HandshakeChecks {
  import opened Wire
  import opened Handshake
  import opened HandshakeSafety
  import opened HandshakeSteps

  // ---------- One state ----------

  /** The states that ask something although they read nothing. */
  predicate Asks(m: Machine) {
    var hello := m.flags.hello;
    match m.state
    case SendServerHello | SendServerCertificate | SendServerHelloDone | SendServerFinished => true
    case StartConnect | SendClientKeyExchange | SendClientFinished => true
    case ProcessClientChangeCipherSpec | ProcessServerChangeCipherSpec => true
    case SendServerKeyExchange => m.flags.skePending
    case VerifyClientCertificate => m.flags.peerKey
    case VerifyServerCertificate => hello.certAuth
    case SendClientCertificate => m.flags.certRequest
    case SendClientCertificateVerify => m.flags.certRequest && m.config.hasCert
    case FinishFlight => !hello.resumed
    case _ => false
  }

  /** A state that reads asks as soon as the message it wants is there. */
  predicate Consults(m: Machine) {
    match Wanted(m)
    case Nothing => Asks(m)
    case Look(kind) => Waiting(m, kind)
    case Must(kind) => Waiting(m, kind)
    case May(kind) => Waiting(m, kind)
  }

  /** The states that can be entered again when an answer is not there yet. */
  predicate MayRetry(m: Machine) {
    match m.state
    case ReadClientHello | SelectCertificate | SelectParameters | ReadClientKeyExchange => true
    case VerifyClientCertificate | VerifyServerCertificate => true
    case SendClientCertificate | SendClientCertificateVerify => true
    case SendServerKeyExchange => m.flags.hello.certAuth
    case SendClientFinished => m.flags.hello.channelId
    case _ => false
  }

  /** What the contents of a message must be. */
  predicate Acceptable(m: Machine, server: bool, mac: Mac)
    requires Consults(m)
  {
    match m.state
    case ReadClientCertificate => m.io.inbox[0].msg.certs > 0 || !m.config.requireCert
    case ReadServerCertificate => m.io.inbox[0].msg.certs > 0
    case ReadServerKeyExchange => m.flags.hello.requiresSke || m.flags.hello.psk
    case ReadClientFinished => m.io.inbox[0].msg.mac == mac(m.io.transcript, !server)
    case ReadServerFinished => m.io.inbox[0].msg.mac == mac(m.io.transcript, !server)
    case _ => true
  }

  /** A state that asks nothing goes on, unless it insists on a message, or waits to see whether one comes. */
  predicate PassesBy(m: Machine) {
    match Wanted(m)
    case Nothing => true
    case Look(_) => false
    case Must(_) => false
    case May(_) => Next(m).Some? && (m.state.ReadCertificateRequest? ==> Waiting(m, KHelloDone))
  }

  /**
    * A state is left exactly if what it asks accepts. A failure is an error, an answer that is not there
    * yet leaves everything as it is, and a state that asks nothing ignores the answers.
    */
  predicate Decided(m: Machine, after: Machine, passing: Machine, server: bool, mac: Mac, outcome: Outcome) {
    if Consults(m) then
      if outcome.Fail? || !Acceptable(m, server, mac) then after == Paused(m, WaitError)
      else if outcome.Retry? && MayRetry(m) then after == Paused(m, WaitCallback)
      else after.state != m.state && after == passing
    else
      after == passing && (after.state != m.state <==> PassesBy(m))
  }

  /** The first half of the server's states, and the second. */
  predicate ServerNegotiates(s: State) {
    || s.StartAccept? || s.ReadClientHello? || s.SelectCertificate? || s.SelectParameters? || s.SendServerHello?
    || s.SendServerCertificate? || s.SendServerKeyExchange? || s.SendServerHelloDone? || s.ReadClientCertificate?
  }

  lemma ServerDecidesFirst(m: Machine, mac: Mac, o: Oracle)
    requires Safe(m, true, mac) && m.wait.WaitOk? && ServerNegotiates(m.state)
    ensures Decided(m, ServerStep(m, mac, o), ServerStep(m, mac, o.(outcome := Proceed)), true, mac, o.outcome)
  {
    hide FlushesFirst, FinishedAccepted, FinishedSent, ServerHelloOf;
  }

  lemma ServerDecidesLast(m: Machine, mac: Mac, o: Oracle)
    requires Safe(m, true, mac) && m.wait.WaitOk? && IsServer(m.state) && !ServerNegotiates(m.state)
    ensures Decided(m, ServerStep(m, mac, o), ServerStep(m, mac, o.(outcome := Proceed)), true, mac, o.outcome)
  {
    hide FlushesFirst, FinishedAccepted, FinishedSent;
  }

  lemma ClientDecidesFirst(m: Machine, mac: Mac, o: Oracle)
    requires m.wait.WaitOk? && (ClientReadsFirst(m.state) || m.state.StartConnect?)
    ensures Decided(m, ClientStep(m, mac, o), ClientStep(m, mac, o.(outcome := Proceed)), false, mac, o.outcome)
  {
  }

  lemma ClientDecidesLast(m: Machine, mac: Mac, o: Oracle)
    requires m.wait.WaitOk? && ClientReadsLast(m.state) && !m.state.ReadServerFinished?
    requires !m.state.ReadCertificateRequest? && !m.state.ReadSessionTicket?
    ensures Decided(m, ClientStep(m, mac, o), ClientStep(m, mac, o.(outcome := Proceed)), false, mac, o.outcome)
  {
  }

  lemma OptionalDecides(m: Machine, mac: Mac, o: Oracle)
    requires m.wait.WaitOk? && (m.state.ReadCertificateRequest? || m.state.ReadSessionTicket?)
    ensures Decided(m, ClientStep(m, mac, o), ClientStep(m, mac, o.(outcome := Proceed)), false, mac, o.outcome)
  {
  }

  lemma FinishedDecides(m: Machine, mac: Mac, o: Oracle)
    requires m.wait.WaitOk? && m.state.ReadServerFinished?
    ensures Decided(m, ClientStep(m, mac, o), ClientStep(m, mac, o.(outcome := Proceed)), false, mac, o.outcome)
  {
  }

  lemma ClientDecidesSending(m: Machine, mac: Mac, o: Oracle)
    requires m.wait.WaitOk? && !IsServer(m.state) && !m.state.Done? && !m.state.StartConnect?
    requires !ClientReadsFirst(m.state) && !ClientReadsLast(m.state)
    ensures Decided(m, ClientStep(m, mac, o), ClientStep(m, mac, o.(outcome := Proceed)), false, mac, o.outcome)
  {
  }

  lemma EveryStateDecides(m: Machine, server: bool, mac: Mac, o: Oracle)
    requires Safe(m, server, mac) && m.wait.WaitOk? && !m.state.Done?
    ensures Decided(m, Turn(m, server, mac, o), Turn(m, server, mac, o.(outcome := Proceed)), server, mac, o.outcome)
  {
    hide Safe, Decided, ServerStep, ClientStep;
    SafeSide(m, server, mac);
    if server {
      if ServerNegotiates(m.state) {
        ServerDecidesFirst(m, mac, o);
      } else {
        ServerDecidesLast(m, mac, o);
      }
    } else if ClientReadsFirst(m.state) || m.state.StartConnect? {
      ClientDecidesFirst(m, mac, o);
    } else if m.state.ReadServerFinished? {
      FinishedDecides(m, mac, o);
    } else if m.state.ReadCertificateRequest? || m.state.ReadSessionTicket? {
      OptionalDecides(m, mac, o);
    } else if ClientReadsLast(m.state) {
      ClientDecidesLast(m, mac, o);
    } else {
      ClientDecidesSending(m, mac, o);
    }
  }

  /** A session ticket is kept exactly if it is not empty; an empty one leaves things as if none was announced. */
  lemma TicketKept(m: Machine, o: Oracle)
    requires m.state.ReadSessionTicket? && m.flags.hello.ticket && !o.outcome.Fail?
    requires Next(m).Some? && Next(m).value.NewSessionTicket?
    ensures var after := DoReadSessionTicket(m, o);
      && (after.flags.hello.ticket <==> !Next(m).value.empty)
      && after.flags == m.flags.(hello := m.flags.hello.(ticket := after.flags.hello.ticket))
  {
  }

  // ---------- Whole runs ----------

  /** The verifier accepted the peer's chain. */
  predicate AcceptsChain(m: Machine, e: Event, after: Machine, server: bool) {
    && !m.facts.chainVerified && after.facts.chainVerified
    && m.state == (if server then VerifyClientCertificate else VerifyServerCertificate)
    && m.wait.WaitOk? && e.Run? && e.o.outcome.Proceed?
  }

  /** The message with the peer's signature was taken and not found wrong. */
  predicate AcceptsSignature(m: Machine, e: Event, after: Machine, server: bool) {
    && !m.facts.signatureVerified && after.facts.signatureVerified
    && m.state == (if server then ReadClientCertificateVerify else ReadServerKeyExchange)
    && Waiting(m, if server then KCertVerify else KServerKeyExchange) && TookOne(m, after)
    && m.wait.WaitOk? && e.Run? && !e.o.outcome.Fail?
  }

  /** The chain was accepted before the signature is looked at. */
  lemma EventChecks(m: Machine, e: Event, server: bool, mac: Mac)
    requires Safe(m, server, mac)
    ensures var after := After(m, e, server, mac);
      && (after.facts.chainVerified == m.facts.chainVerified || AcceptsChain(m, e, after, server))
      && (after.facts.signatureVerified == m.facts.signatureVerified || (AcceptsSignature(m, e, after, server) && m.facts.chainVerified))
  {
    hide FlushesFirst, FinishedSent, FinishedAccepted, ChangedBeforeFinished;
    match e
    case Arrive(_) =>
    case Run(o) =>
      if m.wait.WaitOk? && !m.state.Done? {
        if server {
          ServerChecks(m, mac, o);
        } else {
          ClientChecks(m, mac, o);
        }
      }
  }

  lemma ServerChecks(m: Machine, mac: Mac, o: Oracle)
    requires Safe(m, true, mac) && m.wait.WaitOk? && !m.state.Done?
    ensures var after := ServerStep(m, mac, o);
      && (after.facts.chainVerified == m.facts.chainVerified || AcceptsChain(m, Run(o), after, true))
      && (after.facts.signatureVerified == m.facts.signatureVerified || (AcceptsSignature(m, Run(o), after, true) && m.facts.chainVerified))
  {
    hide FlushesFirst, FinishedSent, FinishedAccepted, ChangedBeforeFinished;
    if !Checking(m.state) {
      ServerLeavesChecks(m, mac, o);
    }
  }

  lemma ClientChecks(m: Machine, mac: Mac, o: Oracle)
    requires Safe(m, false, mac) && m.wait.WaitOk? && !m.state.Done?
    ensures var after := ClientStep(m, mac, o);
      && (after.facts.chainVerified == m.facts.chainVerified || AcceptsChain(m, Run(o), after, false))
      && (after.facts.signatureVerified == m.facts.signatureVerified || (AcceptsSignature(m, Run(o), after, false) && m.facts.chainVerified))
  {
    hide FlushesFirst, FinishedSent, FinishedAccepted, ChangedBeforeFinished;
    if !Checking(m.state) {
      ClientLeavesChecks(m, mac, o);
    }
  }

  lemma ServerLeavesChecks(m: Machine, mac: Mac, o: Oracle)
    requires !Checking(m.state)
    ensures SameChecks(m, ServerStep(m, mac, o))
  {
    hide AddedIf, ServerHelloOf, WithParameters;
    if m.state.SendServerCertificate? {
      CertificateLeavesChecks(m, o);
    } else if m.state.SendServerFinished? {
      AddedGrows(m, m.flags.hello.ticket, NewSessionTicket(o.emptyTicket, o.data));
    } else if m.state.SelectParameters? && Next(m).Some? {
      ParametersLeaveChecks(m);
    } else if m.state.SendServerHelloDone? {
      AddedGrows(m, m.flags.certRequest, CertificateRequest(o.data));
    }
  }

  lemma CertificateLeavesChecks(m: Machine, o: Oracle)
    ensures SameChecks(m, DoSendServerCertificate(m, o))
  {
  }

  lemma ParametersLeaveChecks(m: Machine)
    requires Next(m).Some?
    ensures SameChecks(m, WithParameters(m))
  {
  }

  predicate SameChecks(m: Machine, after: Machine) {
    after.facts.chainVerified == m.facts.chainVerified && after.facts.signatureVerified == m.facts.signatureVerified
  }

  lemma ClientLeavesChecks(m: Machine, mac: Mac, o: Oracle)
    requires !Checking(m.state)
    ensures SameChecks(m, ClientStep(m, mac, o))
  {
    hide DoSendClientFinished, ReadOne, WithHello;
    ReadLeavesChecks(m, mac, o);
    if m.state.SendClientFinished? {
      FinishedLeavesChecks(m, mac, o);
    }
  }

  lemma ReadLeavesChecks(m: Machine, mac: Mac, o: Oracle)
    ensures forall isKind, retryable, next :: SameChecks(m, ReadOne(m, isKind, o.outcome, retryable, next))
    ensures forall n: Machine, hello :: SameChecks(n, WithHello(n, hello))
  {
  }

  lemma FinishedLeavesChecks(m: Machine, mac: Mac, o: Oracle)
    ensures SameChecks(m, DoSendClientFinished(m, mac, o))
  {
    hide AddedIf;
    var n := AddedChangeCipherSpec(m);
    AddedGrows(n, m.flags.hello.npn, NextProto(o.data));
    AddedGrows(AddedIf(n, m.flags.hello.npn, NextProto(o.data)), m.flags.hello.channelId, ChannelId(o.data));
  }

  /** The states in which chain and signature are checked. */
  predicate Checking(s: State) {
    s.VerifyClientCertificate? || s.VerifyServerCertificate? || s.ReadClientCertificateVerify? || s.ReadServerKeyExchange?
  }

  /** The event at which the chain was accepted. */
  lemma {:induction false} ChainEvent(config: Config, events: seq<Event>, k: nat, server: bool, mac: Mac) returns (v: nat)
    requires k <= |events| && At(config, events, k, server, mac).facts.chainVerified
    ensures v < k && AcceptsChain(At(config, events, v, server, mac), events[v], At(config, events, v + 1, server, mac), server)
  {
    hide Safe, After, At, AcceptsChain;
    if k == 0 {
      AtStart(config, events, server, mac);
      assert false;
    } else {
      AtNext(config, events, k - 1, server, mac);
      EventChecks(At(config, events, k - 1, server, mac), events[k - 1], server, mac);
      if At(config, events, k - 1, server, mac).facts.chainVerified {
        v := ChainEvent(config, events, k - 1, server, mac);
      } else {
        v := k - 1;
      }
    }
  }

  /** The event at which the signature was accepted; the chain was accepted before. */
  lemma {:induction false} SignatureEvent(config: Config, events: seq<Event>, k: nat, server: bool, mac: Mac) returns (s: nat)
    requires k <= |events| && At(config, events, k, server, mac).facts.signatureVerified
    ensures s < k && AcceptsSignature(At(config, events, s, server, mac), events[s], At(config, events, s + 1, server, mac), server)
    ensures At(config, events, s, server, mac).facts.chainVerified
  {
    hide Safe, After, At, AcceptsSignature;
    if k == 0 {
      AtStart(config, events, server, mac);
      assert false;
    } else {
      AtNext(config, events, k - 1, server, mac);
      EventChecks(At(config, events, k - 1, server, mac), events[k - 1], server, mac);
      if At(config, events, k - 1, server, mac).facts.signatureVerified {
        s := SignatureEvent(config, events, k - 1, server, mac);
      } else {
        s := k - 1;
      }
    }
  }

  /** A state with a higher rank is an earlier one. */
  lemma {:induction false} RankFalls(config: Config, events: seq<Event>, a: nat, b: nat, server: bool, mac: Mac)
    requires a <= b <= |events|
    ensures RankOf(At(config, events, a, server, mac)) >= RankOf(At(config, events, b, server, mac))
    decreases b - a
  {
    hide Safe, After, At, RankOf;
    if a < b {
      AtNext(config, events, b - 1, server, mac);
      EventOk(At(config, events, b - 1, server, mac), events[b - 1], server, mac);
      RankFalls(config, events, a, b - 1, server, mac);
    }
  }

  lemma Earlier(config: Config, events: seq<Event>, a: nat, b: nat, server: bool, mac: Mac)
    requires a < |events| && b < |events|
    requires RankOf(At(config, events, a, server, mac)) > RankOf(At(config, events, b, server, mac))
    ensures a < b
  {
    hide At, RankOf;
    if b <= a {
      RankFalls(config, events, b, a, server, mac);
    }
  }

  /**
    * In every run that gets done: if the facts say that the chain was verified, the verifier accepted it, and
    * if they say that the signature was verified, it was accepted behind that; both before the peer took
    * ChangeCipherSpec, changed the read cipher and accepted the Finished.
    */
  lemma CheckedInOrder(config: Config, events: seq<Event>, server: bool, mac: Mac)
    returns (v: nat, s: nat, h: nat, j: nat, i: nat)
    requires AfterAll(Start(config, server), events, server, mac).state.Done?
    ensures h < j < i < |events|
    ensures TakesChangeCipherSpec(At(config, events, h, server, mac), At(config, events, h + 1, server, mac))
    ensures ChangesCipher(At(config, events, j, server, mac), At(config, events, j + 1, server, mac))
    ensures AcceptsFinished(At(config, events, i, server, mac), At(config, events, i + 1, server, mac), server, mac)
    ensures var facts := AfterAll(Start(config, server), events, server, mac).facts;
      && (facts.chainVerified || facts.signatureVerified ==>
            v < h && AcceptsChain(At(config, events, v, server, mac), events[v], At(config, events, v + 1, server, mac), server))
      && (facts.signatureVerified ==>
            v < s < h && AcceptsSignature(At(config, events, s, server, mac), events[s], At(config, events, s + 1, server, mac), server))
  {
    hide AfterAll, After, At, ChangesCipher, AcceptsFinished;
    h, j, i := DoneInOrder(config, events, server, mac);
    v, s := 0, 0;
    var m := AfterAll(Start(config, server), events, server, mac);
    AtEnd(config, events, server, mac);
    if m.facts.signatureVerified {
      s := SignatureEvent(config, events, |events|, server, mac);
      v := ChainEvent(config, events, s, server, mac);
      ChecksBefore(config, events, s, h, server, mac);
    } else if m.facts.chainVerified {
      v := ChainEvent(config, events, |events|, server, mac);
      ChecksBefore(config, events, v, h, server, mac);
    }
  }

  /** A check comes before ChangeCipherSpec is taken. */
  lemma ChecksBefore(config: Config, events: seq<Event>, c: nat, h: nat, server: bool, mac: Mac)
    requires c < |events| && h < |events| && Checking(At(config, events, c, server, mac).state)
    requires Changing(At(config, events, h, server, mac).state)
    ensures c < h
  {
    hide At;
    Earlier(config, events, c, h, server, mac);
  }

  lemma AtEnd(config: Config, events: seq<Event>, server: bool, mac: Mac)
    ensures At(config, events, |events|, server, mac) == AfterAll(Start(config, server), events, server, mac)
  {
    assert events[..|events|] == events;
  }
}
