/**
  * One peer against anything: whatever the other side sends and however callbacks are retried, the
  * handshake completes only after the checks it stands for, and no step is repeated.
  */
module HandshakeSafety {
  import opened Wire
  import opened Handshake

  /** How far a peer is from the end; the order of the final states depends on resumption. */
  function Rank(s: State, resumed: bool): nat {
    match s
    case StartAccept | StartConnect => 40
    case ReadClientHello | EnterEarlyData => 39
    case SelectCertificate | ReadServerHello => 38
    case SelectParameters | ReadServerCertificate => 37
    case SendServerHello | ReadCertificateStatus => 36
    case SendServerCertificate | VerifyServerCertificate => 35
    case SendServerKeyExchange | ReadServerKeyExchange => 34
    case SendServerHelloDone | ReadCertificateRequest => 33
    case ReadClientCertificate | ReadServerHelloDone => 32
    case VerifyClientCertificate | SendClientCertificate => 31
    case ReadClientKeyExchange | SendClientKeyExchange => 30
    case ReadClientCertificateVerify | SendClientCertificateVerify => 29
    case SendClientFinished => if resumed then 8 else 28
    case FinishFlight => if resumed then 7 else 27
    case SendServerFinished => if resumed then 25 else 10
    case ReadClientChangeCipherSpec | ReadSessionTicket => 20
    case ProcessClientChangeCipherSpec | ProcessServerChangeCipherSpec => 19
    case ReadNextProto | ReadServerFinished => 18
    case ReadChannelId => 17
    case ReadClientFinished => 16
    case FinishServerHandshake | FinishClientHandshake => 5
    case Done => 0
  }

  function RankOf(m: Machine): nat {
    Rank(m.state, m.flags.hello.resumed)
  }

  /** What a server has established by the time it is in a state. */
  predicate ServerSafe(m: Machine, mac: Mac) {
    var rank := RankOf(m);
    && (IsServer(m.state) || m.state.Done?)
    && (rank > 31 || m.flags.hello.resumed ==> !m.flags.peerKey)
    && (29 <= rank <= 35 ==> !m.flags.hello.resumed)
    && (m.flags.peerKey && rank <= 30 ==> m.facts.chainVerified)
    && (m.flags.peerKey && rank <= 20 ==> m.facts.signatureVerified)
    && (rank <= 18 ==> m.facts.readCipher)
    && ChangedBeforeFinished(m)
    && (m.state.SelectCertificate? || m.state.SelectParameters? ==> Next(m).Some? && Next(m).value.ClientHello?)
    && (rank <= 15 ==> FinishedAccepted(m, mac, false))
    && (rank <= 5 || (m.flags.hello.resumed && rank <= 20) ==> FinishedSent(m, mac, true))
  }

  /** What a client has established by the time it is in a state. */
  predicate ClientSafe(m: Machine, mac: Mac) {
    var rank := RankOf(m);
    && !IsServer(m.state)
    && (29 <= rank <= 37 ==> !m.flags.hello.resumed)
    && (m.flags.hello.certAuth && !m.flags.hello.resumed && rank <= 34 ==> m.facts.chainVerified)
    && (m.flags.hello.certAuth && m.flags.hello.requiresSke && !m.flags.hello.resumed && rank <= 33 ==> m.facts.signatureVerified)
    && (rank <= 18 ==> m.facts.readCipher)
    && ChangedBeforeFinished(m)
    && (rank <= 15 ==> FinishedAccepted(m, mac, true))
    && (rank <= 7 || (!m.flags.hello.resumed && rank <= 27) ==> FinishedSent(m, mac, false))
  }

  /** A Finished is taken only with the new read cipher, and not before the state that checks it is left. */
  predicate ChangedBeforeFinished(m: Machine) {
    && (m.facts.peerFinished.Some? ==> m.facts.readCipher)
    && (RankOf(m) > 15 ==> m.facts.peerFinished.None?)
  }

  /** The read cipher was changed, and a Finished that matches the transcript before it was taken. */
  predicate FinishedAccepted(m: Machine, mac: Mac, fromServer: bool) {
    && m.facts.readCipher && m.facts.peerFinished.Some?
    && m.facts.peerFinished.value + [Finished(mac(m.facts.peerFinished.value, fromServer))] <= m.io.transcript
  }

  predicate FinishedSent(m: Machine, mac: Mac, server: bool) {
    && m.facts.writeCipher && m.facts.ownFinished.Some?
    && m.facts.ownFinished.value + [Finished(mac(m.facts.ownFinished.value, server))] <= m.io.transcript
  }

  /** The states in the middle of a flight. */
  predicate Sending(s: State) {
    || s.SendServerCertificate? || s.SendServerKeyExchange? || s.SendServerHelloDone? || s.SendServerFinished?
    || s.SendClientKeyExchange? || s.SendClientCertificateVerify? || s.SendClientFinished?
  }

  /** A peer never waits for the other one before its own flight is flushed. */
  predicate FlushesFirst(m: Machine) {
    && (m.io.flight == [] || m.wait.WaitFlush? || Sending(m.state))
    && (m.wait.WaitMessage? || m.wait.WaitChangeCipherSpec? ==> !Sending(m.state))
  }

  predicate Safe(m: Machine, server: bool, mac: Mac) {
    (if server then ServerSafe(m, mac) else ClientSafe(m, mac)) && FlushesFirst(m)
  }

  /** A step that cannot finish changes nothing but what it waits for. */
  predicate Unchanged(m: Machine, after: Machine) {
    && after == Paused(m, after.wait)
    && (after.wait.WaitMessage? || after.wait.WaitCallback? || after.wait.WaitError?)
    && (after.wait.WaitMessage? ==> !Sending(m.state))
  }

  /** A step that finishes goes on to a later state, hashing and sending in the order it was done. */
  predicate Advanced(m: Machine, after: Machine, server: bool, mac: Mac) {
    && RankOf(after) < RankOf(m) && !after.wait.WaitError?
    && (Safe(m, server, mac) ==> Safe(after, server, mac))
    && m.io.transcript <= after.io.transcript && m.io.flight <= after.io.flight
    && (after.io.inbox == m.io.inbox || (m.io.inbox != [] && after.io.inbox == m.io.inbox[1..]))
  }

  predicate StepOk(m: Machine, after: Machine, server: bool, mac: Mac) {
    Unchanged(m, after) || Advanced(m, after, server, mac)
  }

  lemma AddedGrows(m: Machine, cond: bool, msg: Message)
    ensures m.io.transcript <= AddedIf(m, cond, msg).io.transcript && m.io.flight <= AddedIf(m, cond, msg).io.flight
    ensures AddedIf(m, cond, msg).(io := m.io) == m && AddedIf(m, cond, msg).io.inbox == m.io.inbox
  {
  }

  lemma HelloSteps(m: Machine, mac: Mac, o: Oracle)
    requires m.state.StartAccept? || m.state.ReadClientHello? || m.state.SelectCertificate? || m.state.SelectParameters? || m.state.SendServerHello?
    requires m.wait.WaitOk?
    ensures StepOk(m, ServerStep(m, mac, o), true, mac)
  {
  }

  lemma ServerSendSteps(m: Machine, mac: Mac, o: Oracle)
    requires m.state.SendServerCertificate? || m.state.SendServerKeyExchange? || m.state.SendServerHelloDone?
    requires m.wait.WaitOk?
    ensures StepOk(m, ServerStep(m, mac, o), true, mac)
  {
  }

  lemma ClientCertificateSteps(m: Machine, mac: Mac, o: Oracle)
    requires m.state.ReadClientCertificate? || m.state.VerifyClientCertificate?
    requires m.wait.WaitOk?
    ensures StepOk(m, ServerStep(m, mac, o), true, mac)
  {
  }

  lemma KeyExchangeSteps(m: Machine, mac: Mac, o: Oracle)
    requires m.state.ReadClientKeyExchange? || m.state.ReadClientCertificateVerify? || m.state.ReadClientChangeCipherSpec?
    requires m.wait.WaitOk?
    ensures StepOk(m, ServerStep(m, mac, o), true, mac)
  {
  }

  lemma CipherChangeSteps(m: Machine, mac: Mac, o: Oracle)
    requires m.state.ProcessClientChangeCipherSpec? || m.state.ReadNextProto? || m.state.ReadChannelId?
    requires m.wait.WaitOk?
    ensures StepOk(m, ServerStep(m, mac, o), true, mac)
  {
  }

  lemma ReadClientFinishedStep(m: Machine, mac: Mac, o: Oracle)
    requires m.state.ReadClientFinished?
    requires m.wait.WaitOk?
    ensures StepOk(m, DoReadClientFinished(m, mac, o), true, mac)
  {
  }

  lemma FinishServerStep(m: Machine, mac: Mac)
    requires m.state.FinishServerHandshake?
    requires m.wait.WaitOk?
    ensures StepOk(m, DoFinishServerHandshake(m), true, mac)
  {
  }

  lemma ServerFinishedStep(m: Machine, mac: Mac, o: Oracle)
    requires m.state.SendServerFinished?
    requires m.wait.WaitOk?
    ensures StepOk(m, DoSendServerFinished(m, mac, o), true, mac)
  {
    hide AddedIf;
    AddedGrows(m, m.flags.hello.ticket, NewSessionTicket(o.emptyTicket, o.data));
  }

  lemma ConnectSteps(m: Machine, mac: Mac, o: Oracle)
    requires m.state.StartConnect? || m.state.EnterEarlyData? || m.state.ReadServerHello?
    requires m.wait.WaitOk?
    ensures StepOk(m, ClientStep(m, mac, o), false, mac)
  {
  }

  lemma ServerCertificateSteps(m: Machine, mac: Mac, o: Oracle)
    requires m.state.ReadServerCertificate? || m.state.VerifyServerCertificate?
    requires m.wait.WaitOk?
    ensures StepOk(m, ClientStep(m, mac, o), false, mac)
  {
  }

  lemma CertificateStatusStep(m: Machine, mac: Mac, o: Oracle)
    requires m.state.ReadCertificateStatus?
    requires m.wait.WaitOk?
    ensures StepOk(m, ClientStep(m, mac, o), false, mac)
  {
  }

  lemma ServerKeyStep(m: Machine, mac: Mac, o: Oracle)
    requires m.state.ReadServerKeyExchange?
    requires m.wait.WaitOk?
    ensures StepOk(m, ClientStep(m, mac, o), false, mac)
  {
  }

  lemma CertificateRequestStep(m: Machine, mac: Mac, o: Oracle)
    requires m.state.ReadCertificateRequest?
    requires m.wait.WaitOk?
    ensures StepOk(m, ClientStep(m, mac, o), false, mac)
  {
  }

  lemma ServerHelloDoneStep(m: Machine, mac: Mac, o: Oracle)
    requires m.state.ReadServerHelloDone?
    requires m.wait.WaitOk?
    ensures StepOk(m, ClientStep(m, mac, o), false, mac)
  {
  }

  lemma SendCertificateStep(m: Machine, mac: Mac, o: Oracle)
    requires m.state.SendClientCertificate?
    requires m.wait.WaitOk?
    ensures StepOk(m, DoSendClientCertificate(m, o), false, mac)
  {
  }

  lemma SendKeyExchangeSteps(m: Machine, mac: Mac, o: Oracle)
    requires m.state.SendClientKeyExchange? || m.state.SendClientCertificateVerify?
    requires m.wait.WaitOk?
    ensures StepOk(m, ClientStep(m, mac, o), false, mac)
  {
  }

  lemma FinishFlightStep(m: Machine, mac: Mac, o: Oracle)
    requires m.state.FinishFlight?
    requires m.wait.WaitOk?
    ensures StepOk(m, ClientStep(m, mac, o), false, mac)
  {
  }

  lemma ClientFinishedStep(m: Machine, mac: Mac, o: Oracle)
    requires m.state.SendClientFinished?
    requires m.wait.WaitOk?
    ensures StepOk(m, DoSendClientFinished(m, mac, o), false, mac)
  {
    hide AddedIf;
    var n := AddedChangeCipherSpec(m);
    var n' := AddedIf(n, m.flags.hello.npn, NextProto(o.data));
    AddedGrows(n, m.flags.hello.npn, NextProto(o.data));
    AddedGrows(n', m.flags.hello.channelId, ChannelId(o.data));
  }

  lemma TicketStep(m: Machine, mac: Mac, o: Oracle)
    requires m.state.ReadSessionTicket?
    requires m.wait.WaitOk?
    ensures StepOk(m, DoReadSessionTicket(m, o), false, mac)
  {
  }

  lemma ServerCipherChangeStep(m: Machine, mac: Mac, o: Oracle)
    requires m.state.ProcessServerChangeCipherSpec?
    requires m.wait.WaitOk?
    ensures StepOk(m, ClientStep(m, mac, o), false, mac)
  {
  }

  lemma ReadServerFinishedStep(m: Machine, mac: Mac, o: Oracle)
    requires m.state.ReadServerFinished?
    requires m.wait.WaitOk?
    ensures StepOk(m, DoReadServerFinished(m, mac, o), false, mac)
  {
  }

  lemma FinishClientStep(m: Machine, mac: Mac)
    requires m.state.FinishClientHandshake?
    requires m.wait.WaitOk?
    ensures StepOk(m, DoFinishClientHandshake(m), false, mac)
  {
  }

  lemma ServerStepIsOk(m: Machine, mac: Mac, o: Oracle)
    requires IsServer(m.state)
    requires m.wait.WaitOk?
    ensures StepOk(m, ServerStep(m, mac, o), true, mac)
  {
    hide StepOk;
    match m.state
    case StartAccept | ReadClientHello | SelectCertificate | SelectParameters | SendServerHello => HelloSteps(m, mac, o);
    case SendServerCertificate | SendServerKeyExchange | SendServerHelloDone => ServerSendSteps(m, mac, o);
    case ReadClientCertificate | VerifyClientCertificate => ClientCertificateSteps(m, mac, o);
    case ReadClientKeyExchange | ReadClientCertificateVerify | ReadClientChangeCipherSpec => KeyExchangeSteps(m, mac, o);
    case ProcessClientChangeCipherSpec | ReadNextProto | ReadChannelId => CipherChangeSteps(m, mac, o);
    case ReadClientFinished => ReadClientFinishedStep(m, mac, o);
    case FinishServerHandshake => FinishServerStep(m, mac);
    case SendServerFinished => ServerFinishedStep(m, mac, o);
  }

  lemma ClientStepIsOk(m: Machine, mac: Mac, o: Oracle)
    requires !IsServer(m.state) && !m.state.Done?
    requires m.wait.WaitOk?
    ensures StepOk(m, ClientStep(m, mac, o), false, mac)
  {
    hide StepOk;
    match m.state
    case StartConnect | EnterEarlyData | ReadServerHello => ConnectSteps(m, mac, o);
    case ReadServerCertificate | VerifyServerCertificate => ServerCertificateSteps(m, mac, o);
    case ReadCertificateStatus => CertificateStatusStep(m, mac, o);
    case ReadServerKeyExchange => ServerKeyStep(m, mac, o);
    case ReadCertificateRequest => CertificateRequestStep(m, mac, o);
    case ReadServerHelloDone => ServerHelloDoneStep(m, mac, o);
    case SendClientCertificate => SendCertificateStep(m, mac, o);
    case SendClientKeyExchange | SendClientCertificateVerify => SendKeyExchangeSteps(m, mac, o);
    case FinishFlight => FinishFlightStep(m, mac, o);
    case SendClientFinished => ClientFinishedStep(m, mac, o);
    case ReadSessionTicket => TicketStep(m, mac, o);
    case ProcessServerChangeCipherSpec => ServerCipherChangeStep(m, mac, o);
    case ReadServerFinished => ReadServerFinishedStep(m, mac, o);
    case FinishClientHandshake => FinishClientStep(m, mac);
  }

  // ---------- Whole runs against an arbitrary peer ----------

  datatype Event = Arrive(items: seq<Item>) | Run(o: Oracle)

  function After(m: Machine, e: Event, server: bool, mac: Mac): Machine {
    match e
    case Arrive(items) => m.(io := m.io.(inbox := m.io.inbox + items))
    case Run(o) => Turn(m, server, mac, o)
  }

  function AfterAll(m: Machine, events: seq<Event>, server: bool, mac: Mac): Machine {
    if events == [] then m
    else After(AfterAll(m, events[..|events| - 1], server, mac), events[|events| - 1], server, mac)
  }

  /**
    * What was established stays so, the transcript only grows, and it grows, or something new is
    * added to the flight, only on the way to a later state.
    */
  predicate Onward(m: Machine, after: Machine, server: bool, mac: Mac) {
    && Safe(after, server, mac)
    && m.io.transcript <= after.io.transcript
    && RankOf(after) <= RankOf(m)
    && (after.state != m.state ==> RankOf(after) < RankOf(m))
    && (after.io.transcript != m.io.transcript || !(after.io.flight <= m.io.flight) ==> RankOf(after) < RankOf(m))
  }

  lemma UnchangedOnward(m: Machine, after: Machine, server: bool, mac: Mac)
    requires Safe(m, server, mac) && Unchanged(m, after) && m.wait.WaitOk?
    ensures Onward(m, after, server, mac)
  {
    hide ServerSafe, ClientSafe, Onward, Sending;
    SameOnward(m, after, server, mac);
  }

  lemma AdvancedOnward(m: Machine, after: Machine, server: bool, mac: Mac)
    requires Safe(m, server, mac) && Advanced(m, after, server, mac)
    ensures Onward(m, after, server, mac)
  {
    hide RankOf, Safe;
  }

  lemma SameOnward(m: Machine, after: Machine, server: bool, mac: Mac)
    requires Safe(m, server, mac) && FlushesFirst(after)
    requires after.state == m.state && after.flags == m.flags && after.facts == m.facts
    requires after.io.transcript == m.io.transcript && after.io.flight <= m.io.flight
    requires m.io.inbox != [] && m.io.inbox[0].Msg? ==> after.io.inbox != [] && after.io.inbox[0] == m.io.inbox[0]
    ensures Onward(m, after, server, mac)
  {
    hide Rank, FlushesFirst, IsServer;
  }

  lemma WaitOnward(m: Machine, server: bool, mac: Mac, o: Oracle)
    requires Safe(m, server, mac) && (!m.wait.WaitOk? || m.state.Done?)
    ensures Onward(m, Turn(m, server, mac, o), server, mac)
  {
    hide ServerSafe, ClientSafe, Onward, Sending, ServerStep, ClientStep;
    SameOnward(m, Turn(m, server, mac, o), server, mac);
  }

  /** One event, whatever it is. */
  lemma EventOk(m: Machine, e: Event, server: bool, mac: Mac)
    requires Safe(m, server, mac)
    ensures Onward(m, After(m, e, server, mac), server, mac)
  {
    hide ServerStep, ClientStep, Rank, Onward, Safe, Unchanged, Advanced;
    match e
    case Arrive(items) => ArriveOnward(m, items, server, mac);
    case Run(o) =>
      if m.wait.WaitOk? && !m.state.Done? {
        var after := Turn(m, server, mac, o);
        SafeSide(m, server, mac);
        if server {
          ServerStepIsOk(m, mac, o);
        } else {
          ClientStepIsOk(m, mac, o);
        }
        if Unchanged(m, after) {
          UnchangedOnward(m, after, server, mac);
        } else {
          AdvancedOnward(m, after, server, mac);
        }
      } else {
        WaitOnward(m, server, mac, o);
      }
  }

  lemma SafeSide(m: Machine, server: bool, mac: Mac)
    requires Safe(m, server, mac) && !m.state.Done?
    ensures IsServer(m.state) == server
  {
  }

  lemma ArriveOnward(m: Machine, items: seq<Item>, server: bool, mac: Mac)
    requires Safe(m, server, mac)
    ensures Onward(m, After(m, Arrive(items), server, mac), server, mac)
  {
    hide ServerSafe, ClientSafe, Onward, Sending;
    SameOnward(m, After(m, Arrive(items), server, mac), server, mac);
  }

  lemma StartSafe(config: Config, server: bool, mac: Mac)
    ensures Safe(Start(config, server), server, mac)
  {
  }

  lemma {:induction false} RunSafe(config: Config, events: seq<Event>, server: bool, mac: Mac)
    ensures Safe(AfterAll(Start(config, server), events, server, mac), server, mac)
  {
    hide Safe, After, Start;
    if events == [] {
      StartSafe(config, server, mac);
    } else {
      RunSafe(config, events[..|events| - 1], server, mac);
      EventOk(AfterAll(Start(config, server), events[..|events| - 1], server, mac), events[|events| - 1], server, mac);
    }
  }

  // ---------- In which order ----------

  /** ChangeCipherSpec is taken when, and only when, the peer waits for it before it changes the cipher. */
  predicate TakesChangeCipherSpec(m: Machine, after: Machine) {
    && Changing(m.state) && m.wait.WaitChangeCipherSpec? && after.wait.WaitOk?
    && m.io.inbox != [] && m.io.inbox[0].ChangeCipherSpec? && after.io.inbox == m.io.inbox[1..]
  }

  predicate ChangesCipher(m: Machine, after: Machine) {
    !m.facts.readCipher && after.facts.readCipher
  }

  /** A Finished is taken, and its verify data is that of the transcript before it. */
  predicate AcceptsFinished(m: Machine, after: Machine, server: bool, mac: Mac) {
    && m.facts.readCipher && m.facts.peerFinished.None? && after.facts.peerFinished == Some(m.io.transcript)
    && m.io.inbox != [] && m.io.inbox[0] == Msg(Finished(mac(m.io.transcript, !server)))
    && after.io.transcript == m.io.transcript + [Finished(mac(m.io.transcript, !server))]
  }

  /** The states between ChangeCipherSpec and the change of the read cipher. */
  predicate Changing(s: State) {
    s.ProcessClientChangeCipherSpec? || s.ProcessServerChangeCipherSpec?
  }

  /** What one event does to the read cipher and to the peer's Finished. */
  lemma EventInOrder(m: Machine, e: Event, server: bool, mac: Mac)
    requires Safe(m, server, mac)
    ensures var after := After(m, e, server, mac);
      && (after.facts.readCipher == m.facts.readCipher || (ChangesCipher(m, after) && Changing(m.state) && m.wait.WaitOk?))
      && (after.facts.peerFinished == m.facts.peerFinished || AcceptsFinished(m, after, server, mac))
  {
    hide FlushesFirst, FinishedSent;
    match e
    case Arrive(_) =>
    case Run(o) =>
      if m.wait.WaitOk? && !m.state.Done? {
        if server {
          ServerInOrder(m, mac, o);
        } else {
          ClientInOrder(m, mac, o);
        }
      }
  }

  lemma ServerInOrder(m: Machine, mac: Mac, o: Oracle)
    requires Safe(m, true, mac) && m.wait.WaitOk? && !m.state.Done?
    ensures var after := ServerStep(m, mac, o);
      && (after.facts.readCipher == m.facts.readCipher || (ChangesCipher(m, after) && Changing(m.state)))
      && (after.facts.peerFinished == m.facts.peerFinished || AcceptsFinished(m, after, true, mac))
  {
    hide FlushesFirst, FinishedSent, FinishedAccepted;
  }

  lemma ClientInOrder(m: Machine, mac: Mac, o: Oracle)
    requires Safe(m, false, mac) && m.wait.WaitOk? && !m.state.Done?
    ensures var after := ClientStep(m, mac, o);
      && (after.facts.readCipher == m.facts.readCipher || (ChangesCipher(m, after) && Changing(m.state)))
      && (after.facts.peerFinished == m.facts.peerFinished || AcceptsFinished(m, after, false, mac))
  {
    hide FlushesFirst, FinishedSent, FinishedAccepted;
  }

  /** The peer after the first k events. */
  function At(config: Config, events: seq<Event>, k: nat, server: bool, mac: Mac): Machine
    requires k <= |events|
  {
    AfterAll(Start(config, server), events[..k], server, mac)
  }

  lemma AtNext(config: Config, events: seq<Event>, k: nat, server: bool, mac: Mac)
    requires k < |events|
    ensures Safe(At(config, events, k, server, mac), server, mac)
    ensures At(config, events, k + 1, server, mac) == After(At(config, events, k, server, mac), events[k], server, mac)
  {
    hide Safe, After;
    RunSafe(config, events[..k], server, mac);
    assert events[..k + 1][..k] == events[..k];
  }

  /** The event that changed the read cipher. */
  lemma {:induction false} CipherEvent(config: Config, events: seq<Event>, k: nat, server: bool, mac: Mac) returns (j: nat)
    requires k <= |events| && At(config, events, k, server, mac).facts.readCipher
    ensures j < k && ChangesCipher(At(config, events, j, server, mac), At(config, events, j + 1, server, mac))
    ensures Changing(At(config, events, j, server, mac).state) && At(config, events, j, server, mac).wait.WaitOk?
  {
    hide Safe, After, At;
    if k == 0 {
      AtStart(config, events, server, mac);
      assert false;
    } else {
      AtNext(config, events, k - 1, server, mac);
      EventInOrder(At(config, events, k - 1, server, mac), events[k - 1], server, mac);
      if At(config, events, k - 1, server, mac).facts.readCipher {
        j := CipherEvent(config, events, k - 1, server, mac);
      } else {
        j := k - 1;
      }
    }
  }

  lemma AtStart(config: Config, events: seq<Event>, server: bool, mac: Mac)
    ensures At(config, events, 0, server, mac) == Start(config, server)
  {
  }

  /** The event that accepted the Finished. */
  lemma {:induction false} FinishedEvent(config: Config, events: seq<Event>, k: nat, server: bool, mac: Mac) returns (i: nat)
    requires k <= |events| && At(config, events, k, server, mac).facts.peerFinished.Some?
    ensures i < k && AcceptsFinished(At(config, events, i, server, mac), At(config, events, i + 1, server, mac), server, mac)
  {
    hide Safe, After, At, AcceptsFinished;
    if k == 0 {
      AtStart(config, events, server, mac);
      assert false;
    } else {
      AtNext(config, events, k - 1, server, mac);
      EventInOrder(At(config, events, k - 1, server, mac), events[k - 1], server, mac);
      if At(config, events, k - 1, server, mac).facts.peerFinished.Some? {
        i := FinishedEvent(config, events, k - 1, server, mac);
        if At(config, events, k, server, mac).facts.peerFinished != At(config, events, k - 1, server, mac).facts.peerFinished {
          i := k - 1;
        }
      } else {
        i := k - 1;
      }
    }
  }

  /** A peer gets into those states waiting for ChangeCipherSpec. */
  lemma IntoChanging(m: Machine, e: Event, server: bool, mac: Mac)
    requires Safe(m, server, mac) && Changing(After(m, e, server, mac).state)
    ensures var after := After(m, e, server, mac); m.state != after.state ==> after.wait.WaitChangeCipherSpec?
  {
    hide FlushesFirst, FinishedSent, FinishedAccepted, ChangedBeforeFinished;
    if e.Run? && m.wait.WaitOk? && !m.state.Done? {
      SafeSide(m, server, mac);
    }
  }

  /** What one event can do to the wait while a peer stays in one of them. */
  lemma WithinChanging(m: Machine, e: Event, server: bool, mac: Mac)
    requires Changing(m.state) && IsServer(m.state) == server && After(m, e, server, mac).state == m.state
    ensures var after := After(m, e, server, mac);
      && (m.wait.WaitOk? ==> after.wait.WaitOk? || after.wait.WaitError?)
      && (m.wait.WaitError? ==> after.wait.WaitError?)
      && (m.wait.WaitChangeCipherSpec? ==> after.wait.WaitChangeCipherSpec? || after.wait.WaitError? || TakesChangeCipherSpec(m, after))
  {
  }

  /** In those states a peer waits for ChangeCipherSpec until it was taken. */
  lemma {:induction false} ChangeCipherSpecEvent(config: Config, events: seq<Event>, k: nat, server: bool, mac: Mac) returns (h: nat)
    requires k <= |events| && Changing(At(config, events, k, server, mac).state)
    ensures var m := At(config, events, k, server, mac);
      && (m.wait.WaitOk? || m.wait.WaitChangeCipherSpec? || m.wait.WaitError?)
      && (m.wait.WaitOk? ==> h < k && TakesChangeCipherSpec(At(config, events, h, server, mac), At(config, events, h + 1, server, mac)))
  {
    hide Safe, After, At;
    h := 0;
    if k == 0 {
      AtStart(config, events, server, mac);
      assert false;
    } else {
      AtNext(config, events, k - 1, server, mac);
      var before := At(config, events, k - 1, server, mac);
      IntoChanging(before, events[k - 1], server, mac);
      if before.state == At(config, events, k, server, mac).state {
        h := ChangeCipherSpecEvent(config, events, k - 1, server, mac);
        SafeSide(before, server, mac);
        WithinChanging(before, events[k - 1], server, mac);
        if !before.wait.WaitOk? {
          h := k - 1;
        }
      }
    }
  }

  /**
    * In every run of a server or a client that gets done, ChangeCipherSpec was taken first, then the read
    * cipher was changed, and then a Finished matching the transcript before it was accepted.
    */
  lemma DoneInOrder(config: Config, events: seq<Event>, server: bool, mac: Mac) returns (h: nat, j: nat, i: nat)
    requires AfterAll(Start(config, server), events, server, mac).state.Done?
    ensures h < j < i < |events|
    ensures TakesChangeCipherSpec(At(config, events, h, server, mac), At(config, events, h + 1, server, mac))
    ensures ChangesCipher(At(config, events, j, server, mac), At(config, events, j + 1, server, mac))
    ensures AcceptsFinished(At(config, events, i, server, mac), At(config, events, i + 1, server, mac), server, mac)
  {
    hide AfterAll, TakesChangeCipherSpec;
    assert events[..|events|] == events;
    RunSafe(config, events, server, mac);
    i := FinishedEvent(config, events, |events|, server, mac);
    j := CipherEvent(config, events, i, server, mac);
    h := ChangeCipherSpecEvent(config, events, j, server, mac);
  }

  // ---------- What a peer that is done has checked ----------

  /**
    * A server is done only with the new read cipher and a Finished that matched its transcript, and
    * with a client certificate only after the chain and CertificateVerify were accepted.
    */
  lemma ServerDone(config: Config, events: seq<Event>, mac: Mac)
    ensures var m := AfterAll(Start(config, true), events, true, mac);
      m.state.Done? ==>
        && FinishedAccepted(m, mac, false) && FinishedSent(m, mac, true)
        && (m.flags.peerKey ==> m.facts.chainVerified && m.facts.signatureVerified)
  {
    hide AfterAll;
    RunSafe(config, events, true, mac);
  }

  /** A client likewise; in a full handshake the server's chain and key exchange were accepted. */
  lemma ClientDone(config: Config, events: seq<Event>, mac: Mac)
    ensures var m := AfterAll(Start(config, false), events, false, mac);
      m.state.Done? ==>
        && FinishedAccepted(m, mac, true) && FinishedSent(m, mac, false)
        && (m.flags.hello.certAuth && !m.flags.hello.resumed ==>
              m.facts.chainVerified && (m.flags.hello.requiresSke ==> m.facts.signatureVerified))
  {
    hide AfterAll;
    RunSafe(config, events, false, mac);
  }
}
