/**
  * The TLS 1.0 to 1.2 handshake of one peer (sections 7.3 and 7.4.9 of RFC 5246): messages, the
  * handshake object, and what each state of the client and of the server does to it.
  */
module Handshake {
  import opened Wire

  /** What a ServerHello tells the client: resumption, extensions, and the kind of cipher. */
  datatype Hello = Hello(resumed: bool, ticket: bool, status: bool, npn: bool, channelId: bool,
                         certAuth: bool, requiresSke: bool, psk: bool)

  /** `data` stands for whatever else a message contains. */
  datatype Message =
    | ClientHello(data: nat)
    | ServerHello(hello: Hello, data: nat)
    | Certificate(certs: nat, data: nat)
    | CertificateStatus(data: nat)
    | ServerKeyExchange(data: nat)
    | CertificateRequest(data: nat)
    | ServerHelloDone
    | ClientKeyExchange(data: nat)
    | CertificateVerify(data: nat)
    | NextProto(data: nat)
    | ChannelId(data: nat)
    | NewSessionTicket(empty: bool, data: nat)
    | Finished(mac: nat)
    | OtherMessage(data: nat)

  datatype Item = Msg(msg: Message) | ChangeCipherSpec

  /** The verify data of a transcript; the flag says whether the server computed it. */
  type Mac = (seq<Message>, bool) -> nat

  datatype State =
    | StartAccept | ReadClientHello | SelectCertificate | SelectParameters | SendServerHello
    | SendServerCertificate | SendServerKeyExchange | SendServerHelloDone | ReadClientCertificate
    | VerifyClientCertificate | ReadClientKeyExchange | ReadClientCertificateVerify
    | ReadClientChangeCipherSpec | ProcessClientChangeCipherSpec | ReadNextProto | ReadChannelId
    | ReadClientFinished | SendServerFinished | FinishServerHandshake
    | StartConnect | EnterEarlyData | ReadServerHello | ReadServerCertificate | ReadCertificateStatus
    | VerifyServerCertificate | ReadServerKeyExchange | ReadCertificateRequest | ReadServerHelloDone
    | SendClientCertificate | SendClientKeyExchange | SendClientCertificateVerify | SendClientFinished
    | FinishFlight | ReadSessionTicket | ProcessServerChangeCipherSpec | ReadServerFinished
    | FinishClientHandshake
    | Done

  datatype Wait = WaitOk | WaitFlush | WaitMessage | WaitChangeCipherSpec | WaitCallback | WaitError

  /** How this peer is set up; all but the last are a server's. */
  datatype Config = Config(
    sessionFound: bool, sessionHasHash: bool, ticket: bool, status: bool, npn: bool, channelId: bool,
    certAuth: bool, requiresSke: bool, psk: bool, pskHint: bool, ecdhe: bool,
    verifyPeer: bool, verifyIfNoChannelId: bool, requireCert: bool, hasCert: bool)

  datatype Outcome = Proceed | Retry | Fail

  /** What cryptography, callbacks and parsers answer in one step, and what goes into new messages. */
  datatype Oracle = Oracle(outcome: Outcome, data: nat, emptyTicket: bool)

  /** What the handshake object remembers of the negotiation. */
  datatype Flags = Flags(hello: Hello, certRequest: bool, skePending: bool, peerKey: bool)

  /** The messages hashed, the items received and not yet taken, and those added and not yet flushed. */
  datatype Io = Io(transcript: seq<Message>, inbox: seq<Item>, flight: seq<Item>)

  /**
    * What was verified: the read and write ciphers changed, the peer's chain and its signature
    * accepted, and the transcripts over which Finished was checked and sent.
    */
  datatype Facts = Facts(readCipher: bool, writeCipher: bool, chainVerified: bool, signatureVerified: bool,
                         peerFinished: Option<seq<Message>>, ownFinished: Option<seq<Message>>)

  /** SSL_HANDSHAKE with the buffers around it. */
  datatype Machine = Machine(config: Config, state: State, wait: Wait, flags: Flags, io: Io, facts: Facts)

  const NO_HELLO := Hello(false, false, false, false, false, false, false, false)

  function Start(config: Config, server: bool): Machine {
    Machine(config, if server then StartAccept else StartConnect, WaitOk, Flags(NO_HELLO, false, false, false),
            Io([], [], []), Facts(false, false, false, false, None, None))
  }

  function WithHello(m: Machine, hello: Hello): Machine {
    m.(flags := m.flags.(hello := hello))
  }

  // ---------- What the helpers of all states do ----------

  /** get_message, when the next thing received is a handshake message. */
  function Next(m: Machine): Option<Message> {
    if m.io.inbox != [] && m.io.inbox[0].Msg? then Some(m.io.inbox[0].msg) else None
  }

  /** ssl_hash_message and next_message */
  function Taken(m: Machine): Machine
    requires Next(m).Some?
  {
    m.(io := m.io.(transcript := m.io.transcript + [m.io.inbox[0].msg], inbox := m.io.inbox[1..]))
  }

  function Added(m: Machine, msg: Message): Machine {
    m.(io := m.io.(transcript := m.io.transcript + [msg], flight := m.io.flight + [Msg(msg)]))
  }

  function AddedIf(m: Machine, cond: bool, msg: Message): Machine {
    if cond then Added(m, msg) else m
  }

  function AddedChangeCipherSpec(m: Machine): Machine {
    m.(io := m.io.(flight := m.io.flight + [ChangeCipherSpec]), facts := m.facts.(writeCipher := true))
  }

  /** ssl_send_finished */
  function AddedFinished(m: Machine, mac: Mac, server: bool): Machine {
    Added(m.(facts := m.facts.(ownFinished := Some(m.io.transcript))), Finished(mac(m.io.transcript, server)))
  }

  function To(m: Machine, state: State): Machine {
    m.(state := state, wait := WaitOk)
  }

  function Paused(m: Machine, wait: Wait): Machine {
    m.(wait := wait)
  }

  /** A state that reads one message it insists on. */
  function ReadOne(m: Machine, isKind: bool, outcome: Outcome, retryable: bool, next: State): Machine {
    if Next(m).None? then Paused(m, WaitMessage)
    else if !isKind || outcome.Fail? then Paused(m, WaitError)
    else if outcome.Retry? && retryable then Paused(m, WaitCallback)
    else To(Taken(m), next)
  }

  /** ssl_get_finished: the peer's verify data must be that of the transcript so far. */
  function ReadFinished(m: Machine, mac: Mac, server: bool, o: Oracle, next: State): Machine {
    var isFinished := Next(m).Some? && Next(m).value.Finished? && Next(m).value.mac == mac(m.io.transcript, !server);
    var read := ReadOne(m, isFinished, o.outcome, false, next);
    if read.wait.WaitOk? then read.(facts := read.facts.(peerFinished := Some(m.io.transcript))) else read
  }

  // ---------- The server ----------

  function ServerHelloOf(m: Machine): Hello {
    m.flags.hello.(channelId := m.flags.hello.channelId && m.config.ecdhe && (m.flags.hello.resumed ==> m.config.sessionHasHash),
             status := m.config.status && m.flags.hello.certAuth && !m.flags.hello.resumed)
  }

  /** do_select_parameters, once everything succeeds. */
  function WithParameters(m: Machine): Machine
    requires Next(m).Some?
  {
    var hello := m.flags.hello.(resumed := m.config.sessionFound, ticket := m.config.ticket);
    var certRequest := !hello.resumed && m.config.verifyPeer && !(m.config.verifyIfNoChannelId && hello.channelId) && hello.certAuth;
    To(Taken(m.(flags := m.flags.(hello := hello, certRequest := certRequest))), SendServerHello)
  }

  function DoStartAccept(m: Machine): Machine {
    To(m, ReadClientHello)
  }

  function DoReadClientHello(m: Machine, o: Oracle): Machine {
    if Next(m).None? then Paused(m, WaitMessage)
    else if !Next(m).value.ClientHello? || o.outcome.Fail? then Paused(m, WaitError)
    else if o.outcome.Retry? then Paused(m, WaitCallback)
    else To(WithHello(m, m.flags.hello.(npn := m.config.npn, channelId := m.config.channelId)), SelectCertificate)
  }

  function DoSelectCertificate(m: Machine, o: Oracle): Machine {
    if Next(m).None? then Paused(m, WaitMessage)
    else if o.outcome.Fail? then Paused(m, WaitError)
    else if o.outcome.Retry? then Paused(m, WaitCallback)
    else To(WithHello(m, m.flags.hello.(certAuth := m.config.certAuth, requiresSke := m.config.requiresSke, psk := m.config.psk)), SelectParameters)
  }

  function DoSelectParameters(m: Machine, o: Oracle): Machine {
    if Next(m).None? then Paused(m, WaitMessage)
    else if o.outcome.Fail? then Paused(m, WaitError)
    else if o.outcome.Retry? then Paused(m, WaitCallback)
    else WithParameters(m)
  }

  function DoSendServerHello(m: Machine, o: Oracle): Machine {
    if o.outcome.Fail? then Paused(m, WaitError)
    else
      var n := WithHello(m, ServerHelloOf(m));
      To(Added(n, ServerHello(n.flags.hello, o.data)), if n.flags.hello.resumed then SendServerFinished else SendServerCertificate)
  }

  function DoSendServerCertificate(m: Machine, o: Oracle): Machine {
    if o.outcome.Fail? then Paused(m, WaitError)
    else
      var n := AddedIf(m, m.flags.hello.certAuth, Certificate(1 + o.data, o.data));
      var n' := AddedIf(n, m.flags.hello.certAuth && m.flags.hello.status, CertificateStatus(o.data));
      To(n'.(flags := n'.flags.(skePending := m.flags.hello.requiresSke || (m.flags.hello.psk && m.config.pskHint))), SendServerKeyExchange)
  }

  function DoSendServerKeyExchange(m: Machine, o: Oracle): Machine {
    if !m.flags.skePending then To(m, SendServerHelloDone)
    else if o.outcome.Fail? then Paused(m, WaitError)
    else if o.outcome.Retry? && m.flags.hello.certAuth then Paused(m, WaitCallback)
    else To(Added(m, ServerKeyExchange(o.data)).(flags := m.flags.(skePending := false)), SendServerHelloDone)
  }

  function DoSendServerHelloDone(m: Machine, o: Oracle): Machine {
    if o.outcome.Fail? then Paused(m, WaitError)
    else
      Paused(To(Added(AddedIf(m, m.flags.certRequest, CertificateRequest(o.data)), ServerHelloDone), ReadClientCertificate), WaitFlush)
  }

  function DoReadClientCertificate(m: Machine, o: Oracle): Machine {
    if !m.flags.certRequest then To(m, VerifyClientCertificate)
    else
      var read := ReadOne(m, Next(m).Some? && Next(m).value.Certificate? && (Next(m).value.certs == 0 ==> !m.config.requireCert), o.outcome, false, VerifyClientCertificate);
      if read.wait.WaitOk? then read.(flags := read.flags.(peerKey := Next(m).value.certs > 0)) else read
  }

  function DoVerifyClientCertificate(m: Machine, o: Oracle): Machine {
    if !m.flags.peerKey then To(m, ReadClientKeyExchange)
    else if o.outcome.Fail? then Paused(m, WaitError)
    else if o.outcome.Retry? then Paused(m, WaitCallback)
    else To(m.(facts := m.facts.(chainVerified := true)), ReadClientKeyExchange)
  }

  function DoReadClientKeyExchange(m: Machine, o: Oracle): Machine {
    ReadOne(m, Next(m).Some? && Next(m).value.ClientKeyExchange?, o.outcome, true, ReadClientCertificateVerify)
  }

  function DoReadClientCertificateVerify(m: Machine, o: Oracle): Machine {
    if !m.flags.peerKey then To(m, ReadClientChangeCipherSpec)
    else
      var read := ReadOne(m, Next(m).Some? && Next(m).value.CertificateVerify?, o.outcome, false, ReadClientChangeCipherSpec);
      if read.wait.WaitOk? then read.(facts := read.facts.(signatureVerified := true)) else read
  }

  function DoReadClientChangeCipherSpec(m: Machine): Machine {
    Paused(To(m, ProcessClientChangeCipherSpec), WaitChangeCipherSpec)
  }

  function DoProcessClientChangeCipherSpec(m: Machine, o: Oracle): Machine {
    if o.outcome.Fail? then Paused(m, WaitError) else To(m.(facts := m.facts.(readCipher := true)), ReadNextProto)
  }

  function DoReadNextProto(m: Machine, o: Oracle): Machine {
    if !m.flags.hello.npn then To(m, ReadChannelId)
    else ReadOne(m, Next(m).Some? && Next(m).value.NextProto?, o.outcome, false, ReadChannelId)
  }

  function DoReadChannelId(m: Machine, o: Oracle): Machine {
    if !m.flags.hello.channelId then To(m, ReadClientFinished)
    else ReadOne(m, Next(m).Some? && Next(m).value.ChannelId?, o.outcome, false, ReadClientFinished)
  }

  function DoReadClientFinished(m: Machine, mac: Mac, o: Oracle): Machine {
    ReadFinished(m, mac, true, o, if m.flags.hello.resumed then FinishServerHandshake else SendServerFinished)
  }

  function DoSendServerFinished(m: Machine, mac: Mac, o: Oracle): Machine {
    if o.outcome.Fail? then Paused(m, WaitError)
    else
      var n := AddedFinished(AddedChangeCipherSpec(AddedIf(m, m.flags.hello.ticket, NewSessionTicket(o.emptyTicket, o.data))), mac, true);
      Paused(To(n, if m.flags.hello.resumed then ReadClientChangeCipherSpec else FinishServerHandshake), WaitFlush)
  }

  function DoFinishServerHandshake(m: Machine): Machine {
    To(m, Done)
  }

  function ServerStep(m: Machine, mac: Mac, o: Oracle): Machine {
    match m.state
    case StartAccept => DoStartAccept(m)
    case ReadClientHello => DoReadClientHello(m, o)
    case SelectCertificate => DoSelectCertificate(m, o)
    case SelectParameters => DoSelectParameters(m, o)
    case SendServerHello => DoSendServerHello(m, o)
    case SendServerCertificate => DoSendServerCertificate(m, o)
    case SendServerKeyExchange => DoSendServerKeyExchange(m, o)
    case SendServerHelloDone => DoSendServerHelloDone(m, o)
    case ReadClientCertificate => DoReadClientCertificate(m, o)
    case VerifyClientCertificate => DoVerifyClientCertificate(m, o)
    case ReadClientKeyExchange => DoReadClientKeyExchange(m, o)
    case ReadClientCertificateVerify => DoReadClientCertificateVerify(m, o)
    case ReadClientChangeCipherSpec => DoReadClientChangeCipherSpec(m)
    case ProcessClientChangeCipherSpec => DoProcessClientChangeCipherSpec(m, o)
    case ReadNextProto => DoReadNextProto(m, o)
    case ReadChannelId => DoReadChannelId(m, o)
    case ReadClientFinished => DoReadClientFinished(m, mac, o)
    case SendServerFinished => DoSendServerFinished(m, mac, o)
    case FinishServerHandshake => DoFinishServerHandshake(m)
    case _ => m
  }

  // ---------- The client ----------

  function DoStartConnect(m: Machine, o: Oracle): Machine {
    if o.outcome.Fail? then Paused(m, WaitError) else Paused(To(Added(m, ClientHello(o.data)), EnterEarlyData), WaitFlush)
  }

  function DoEnterEarlyData(m: Machine): Machine {
    To(m, ReadServerHello)
  }

  function DoReadServerHello(m: Machine, o: Oracle): Machine {
    var read := ReadOne(m, Next(m).Some? && Next(m).value.ServerHello?, o.outcome, false, ReadServerCertificate);
    if !read.wait.WaitOk? then read
    else
      var hello := Next(m).value.hello;
      WithHello(read, hello).(state := if hello.resumed then ReadSessionTicket else ReadServerCertificate)
  }

  function DoReadServerCertificate(m: Machine, o: Oracle): Machine {
    if !m.flags.hello.certAuth then To(m, ReadCertificateStatus)
    else ReadOne(m, Next(m).Some? && Next(m).value.Certificate? && Next(m).value.certs > 0, o.outcome, false, ReadCertificateStatus)
  }

  function DoReadCertificateStatus(m: Machine, o: Oracle): Machine {
    if !m.flags.hello.status then To(m, VerifyServerCertificate)
    else if Next(m).Some? && !Next(m).value.CertificateStatus? then To(m, VerifyServerCertificate)
    else ReadOne(m, true, o.outcome, false, VerifyServerCertificate)
  }

  function DoVerifyServerCertificate(m: Machine, o: Oracle): Machine {
    if !m.flags.hello.certAuth then To(m, ReadServerKeyExchange)
    else if o.outcome.Fail? then Paused(m, WaitError)
    else if o.outcome.Retry? then Paused(m, WaitCallback)
    else To(m.(facts := m.facts.(chainVerified := true)), ReadServerKeyExchange)
  }

  function DoReadServerKeyExchange(m: Machine, o: Oracle): Machine {
    if Next(m).Some? && !Next(m).value.ServerKeyExchange? then
      if m.flags.hello.requiresSke then Paused(m, WaitError) else To(m, ReadCertificateRequest)
    else
      var read := ReadOne(m, m.flags.hello.requiresSke || m.flags.hello.psk, o.outcome, false, ReadCertificateRequest);
      if read.wait.WaitOk? && m.flags.hello.certAuth then read.(facts := read.facts.(signatureVerified := true)) else read
  }

  function DoReadCertificateRequest(m: Machine, o: Oracle): Machine {
    if !m.flags.hello.certAuth then To(m, ReadServerHelloDone)
    else if Next(m).Some? && Next(m).value.ServerHelloDone? then To(m, ReadServerHelloDone)
    else
      var read := ReadOne(m, Next(m).Some? && Next(m).value.CertificateRequest?, o.outcome, false, ReadServerHelloDone);
      if read.wait.WaitOk? then read.(flags := read.flags.(certRequest := true)) else read
  }

  function DoReadServerHelloDone(m: Machine, o: Oracle): Machine {
    ReadOne(m, Next(m).Some? && Next(m).value.ServerHelloDone?, o.outcome, false, SendClientCertificate)
  }

  function DoSendClientCertificate(m: Machine, o: Oracle): Machine {
    if !m.flags.certRequest then To(m, SendClientKeyExchange)
    else if o.outcome.Fail? then Paused(m, WaitError)
    else if o.outcome.Retry? then Paused(m, WaitCallback)
    else To(Added(m, Certificate(if m.config.hasCert then 1 + o.data else 0, o.data)), SendClientKeyExchange)
  }

  function DoSendClientKeyExchange(m: Machine, o: Oracle): Machine {
    if o.outcome.Fail? then Paused(m, WaitError) else To(Added(m, ClientKeyExchange(o.data)), SendClientCertificateVerify)
  }

  function DoSendClientCertificateVerify(m: Machine, o: Oracle): Machine {
    if !m.flags.certRequest || !m.config.hasCert then To(m, SendClientFinished)
    else if o.outcome.Fail? then Paused(m, WaitError)
    else if o.outcome.Retry? then Paused(m, WaitCallback)
    else To(Added(m, CertificateVerify(o.data)), SendClientFinished)
  }

  /** The optional messages between ChangeCipherSpec and Finished. */
  function WithExtras(m: Machine, data: nat): Machine {
    var n := AddedIf(m, m.flags.hello.npn, NextProto(data));
    AddedIf(n, m.flags.hello.channelId, ChannelId(data))
  }

  function DoSendClientFinished(m: Machine, mac: Mac, o: Oracle): Machine {
    if o.outcome.Fail? then Paused(m, WaitError)
    else if o.outcome.Retry? && m.flags.hello.channelId then Paused(m, WaitCallback)
    else Paused(To(AddedFinished(WithExtras(AddedChangeCipherSpec(m), o.data), mac, false), FinishFlight), WaitFlush)
  }

  function DoFinishFlight(m: Machine, o: Oracle): Machine {
    if m.flags.hello.resumed then To(m, FinishClientHandshake)
    else if o.outcome.Fail? then Paused(m, WaitError)
    else To(m, ReadSessionTicket)
  }

  /** An empty ticket means that the server changed its mind. */
  function AfterTicket(hello: Hello, empty: bool): Hello {
    hello.(ticket := !empty)
  }

  function DoReadSessionTicket(m: Machine, o: Oracle): Machine {
    if !m.flags.hello.ticket then Paused(To(m, ProcessServerChangeCipherSpec), WaitChangeCipherSpec)
    else if Next(m).None? then Paused(m, WaitMessage)
    else if !Next(m).value.NewSessionTicket? || o.outcome.Fail? then Paused(m, WaitError)
    else
      var n := WithHello(Taken(m), AfterTicket(m.flags.hello, Next(m).value.empty));
      Paused(To(n, ProcessServerChangeCipherSpec), WaitChangeCipherSpec)
  }

  function DoProcessServerChangeCipherSpec(m: Machine, o: Oracle): Machine {
    if o.outcome.Fail? then Paused(m, WaitError) else To(m.(facts := m.facts.(readCipher := true)), ReadServerFinished)
  }

  function DoReadServerFinished(m: Machine, mac: Mac, o: Oracle): Machine {
    ReadFinished(m, mac, false, o, if m.flags.hello.resumed then SendClientFinished else FinishClientHandshake)
  }

  function DoFinishClientHandshake(m: Machine): Machine {
    To(m, Done)
  }

  function ClientStep(m: Machine, mac: Mac, o: Oracle): Machine {
    match m.state
    case StartConnect => DoStartConnect(m, o)
    case EnterEarlyData => DoEnterEarlyData(m)
    case ReadServerHello => DoReadServerHello(m, o)
    case ReadServerCertificate => DoReadServerCertificate(m, o)
    case ReadCertificateStatus => DoReadCertificateStatus(m, o)
    case VerifyServerCertificate => DoVerifyServerCertificate(m, o)
    case ReadServerKeyExchange => DoReadServerKeyExchange(m, o)
    case ReadCertificateRequest => DoReadCertificateRequest(m, o)
    case ReadServerHelloDone => DoReadServerHelloDone(m, o)
    case SendClientCertificate => DoSendClientCertificate(m, o)
    case SendClientKeyExchange => DoSendClientKeyExchange(m, o)
    case SendClientCertificateVerify => DoSendClientCertificateVerify(m, o)
    case SendClientFinished => DoSendClientFinished(m, mac, o)
    case FinishFlight => DoFinishFlight(m, o)
    case ReadSessionTicket => DoReadSessionTicket(m, o)
    case ProcessServerChangeCipherSpec => DoProcessServerChangeCipherSpec(m, o)
    case ReadServerFinished => DoReadServerFinished(m, mac, o)
    case FinishClientHandshake => DoFinishClientHandshake(m)
    case _ => m
  }

  predicate IsServer(s: State) {
    || s.StartAccept? || s.ReadClientHello? || s.SelectCertificate? || s.SelectParameters? || s.SendServerHello?
    || s.SendServerCertificate? || s.SendServerKeyExchange? || s.SendServerHelloDone? || s.ReadClientCertificate?
    || s.VerifyClientCertificate? || s.ReadClientKeyExchange? || s.ReadClientCertificateVerify?
    || s.ReadClientChangeCipherSpec? || s.ProcessClientChangeCipherSpec? || s.ReadNextProto? || s.ReadChannelId?
    || s.ReadClientFinished? || s.SendServerFinished? || s.FinishServerHandshake?
  }

  // ---------- One turn of ssl_run_handshake ----------

  /**
    * Resolving what the handshake waits for, or one state of the machine. A flush that succeeds
    * leaves the flight to the caller, who hands it to the transport.
    */
  function Turn(m: Machine, server: bool, mac: Mac, o: Oracle): Machine {
    match m.wait
    case WaitError => m
    case WaitFlush => if o.outcome.Proceed? then m.(wait := WaitOk, io := m.io.(flight := [])) else m
    case WaitMessage =>
      if m.io.inbox == [] then m else Paused(m, if m.io.inbox[0].Msg? then WaitOk else WaitError)
    case WaitChangeCipherSpec =>
      if m.io.inbox == [] then m
      else if m.io.inbox[0].ChangeCipherSpec? then m.(wait := WaitOk, io := m.io.(inbox := m.io.inbox[1..]))
      else Paused(m, WaitError)
    case WaitCallback => Paused(m, WaitOk)
    case WaitOk =>
      if m.state.Done? then m else if server then ServerStep(m, mac, o) else ClientStep(m, mac, o)
  }

  /** What a turn hands to the transport. */
  function Flushed(m: Machine, o: Oracle): seq<Item> {
    if m.wait.WaitFlush? && o.outcome.Proceed? then m.io.flight else []
  }
}
