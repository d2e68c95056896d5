/**
  * Client and server together: for every combination of resumption, client certificate and optional
  * messages, both follow the same script, so neither ever meets a message it does not expect.
  */
module HandshakeAgreement {
  import opened Wire
  import opened Handshake

  /** What the two peers end up with: the contents of ServerHello and which optional messages follow. */
  datatype Params = Params(hello: Hello, certRequest: bool, clientCert: bool, ske: bool)

  function Negotiated(s: Config, clientCert: bool): Params {
    var channelId := s.channelId && s.ecdhe && (s.sessionFound ==> s.sessionHasHash);
    var hello := Hello(s.sessionFound, s.ticket, s.status && s.certAuth && !s.sessionFound, s.npn, channelId,
                       s.certAuth, s.requiresSke, s.psk);
    Params(hello, !s.sessionFound && s.verifyPeer && !(s.verifyIfNoChannelId && s.channelId) && s.certAuth,
           clientCert, s.requiresSke || (s.psk && s.pskHint))
  }

  /** A server that insists on a client certificate meets a client that has one. */
  predicate Compatible(server: Config, client: Config) {
    Negotiated(server, client.hasCert).certRequest && server.requireCert ==> client.hasCert
  }

  // ---------- The script ----------

  /** The places a message can have in a handshake. */
  datatype Point =
    | PClientHello | PServerHello | PCertificate | PStatus | PServerKeyExchange | PCertRequest | PHelloDone
    | PClientCert | PClientKeyExchange | PCertVerify | PClientCcs | PNextProto | PChannelId | PClientFinished
    | PTicket | PServerCcs | PServerFinished | PEnd

  predicate FromServer(p: Point) {
    || p.PServerHello? || p.PCertificate? || p.PStatus? || p.PServerKeyExchange? || p.PCertRequest? || p.PHelloDone?
    || p.PTicket? || p.PServerCcs? || p.PServerFinished?
  }

  predicate IsCcs(p: Point) {
    p.PClientCcs? || p.PServerCcs?
  }

  /** Whether the message is part of this handshake. */
  predicate Present(p: Point, params: Params) {
    match p
    case PCertificate => params.hello.certAuth
    case PStatus => params.hello.certAuth && params.hello.status
    case PServerKeyExchange => params.ske
    case PCertRequest => params.certRequest
    case PClientCert => params.certRequest
    case PCertVerify => params.certRequest && params.clientCert
    case PNextProto => params.hello.npn
    case PChannelId => params.hello.channelId
    case PTicket => params.hello.ticket
    case PEnd => false
    case _ => true
  }

  function NextPoint(p: Point, resumed: bool): Point {
    match p
    case PClientHello => PServerHello
    case PServerHello => if resumed then PTicket else PCertificate
    case PCertificate => PStatus
    case PStatus => PServerKeyExchange
    case PServerKeyExchange => PCertRequest
    case PCertRequest => PHelloDone
    case PHelloDone => PClientCert
    case PClientCert => PClientKeyExchange
    case PClientKeyExchange => PCertVerify
    case PCertVerify => PClientCcs
    case PClientCcs => PNextProto
    case PNextProto => PChannelId
    case PChannelId => PClientFinished
    case PClientFinished => if resumed then PEnd else PTicket
    case PTicket => PServerCcs
    case PServerCcs => PServerFinished
    case PServerFinished => if resumed then PClientCcs else PEnd
    case PEnd => PEnd
  }

  function Left(p: Point, resumed: bool): nat {
    match p
    case PClientHello => 30
    case PServerHello => 29
    case PCertificate => 28
    case PStatus => 27
    case PServerKeyExchange => 26
    case PCertRequest => 25
    case PHelloDone => 24
    case PClientCert => 23
    case PClientKeyExchange => 22
    case PCertVerify => 21
    case PClientCcs => 14
    case PNextProto => 13
    case PChannelId => 12
    case PClientFinished => 11
    case PTicket => if resumed then 20 else 10
    case PServerCcs => if resumed then 19 else 9
    case PServerFinished => if resumed then 18 else 8
    case PEnd => 0
  }

  /** The messages still to come from a point on, in order. */
  function Script(p: Point, params: Params): seq<Point>
    decreases Left(p, params.hello.resumed)
  {
    if p.PEnd? then []
    else (if Present(p, params) then [p] else []) + Script(NextPoint(p, params.hello.resumed), params)
  }

  lemma ScriptStep(p: Point, params: Params)
    requires !p.PEnd?
    ensures Script(p, params) == (if Present(p, params) then [p] else []) + Script(NextPoint(p, params.hello.resumed), params)
  {
  }

  /** Where in the script a peer is. */
  function PointOf(m: Machine): Point {
    match m.state
    case StartAccept | ReadClientHello | SelectCertificate | SelectParameters | StartConnect => PClientHello
    case SendServerHello | EnterEarlyData | ReadServerHello => PServerHello
    case SendServerCertificate | ReadServerCertificate => PCertificate
    case ReadCertificateStatus => PStatus
    case SendServerKeyExchange | VerifyServerCertificate | ReadServerKeyExchange => PServerKeyExchange
    case SendServerHelloDone | ReadCertificateRequest => PCertRequest
    case ReadServerHelloDone => PHelloDone
    case ReadClientCertificate | SendClientCertificate => PClientCert
    case VerifyClientCertificate | ReadClientKeyExchange | SendClientKeyExchange => PClientKeyExchange
    case ReadClientCertificateVerify | SendClientCertificateVerify => PCertVerify
    case ReadClientChangeCipherSpec | SendClientFinished => PClientCcs
    case ProcessClientChangeCipherSpec => if m.wait.WaitChangeCipherSpec? then PClientCcs else PNextProto
    case ReadNextProto => PNextProto
    case ReadChannelId => PChannelId
    case ReadClientFinished => PClientFinished
    case SendServerFinished | ReadSessionTicket => PTicket
    case FinishFlight => if m.flags.hello.resumed then PEnd else PTicket
    case ProcessServerChangeCipherSpec => if m.wait.WaitChangeCipherSpec? then PServerCcs else PServerFinished
    case ReadServerFinished => PServerFinished
    case FinishServerHandshake | FinishClientHandshake | Done => PEnd
  }

  function Rest(m: Machine, params: Params): seq<Point> {
    Script(PointOf(m), params)
  }

  // ---------- Messages in transit ----------

  /** An item that is what the script has there, computed over the transcript before it. */
  predicate Honest(item: Item, p: Point, params: Params, mac: Mac, before: seq<Message>) {
    if IsCcs(p) then item.ChangeCipherSpec?
    else
      item.Msg? &&
      match p
      case PClientHello => item.msg.ClientHello?
      case PServerHello => item.msg.ServerHello? && item.msg.hello == params.hello
      case PCertificate => item.msg.Certificate? && item.msg.certs > 0
      case PStatus => item.msg.CertificateStatus?
      case PServerKeyExchange => item.msg.ServerKeyExchange?
      case PCertRequest => item.msg.CertificateRequest?
      case PHelloDone => item.msg.ServerHelloDone?
      case PClientCert => item.msg.Certificate? && (item.msg.certs > 0 <==> params.clientCert)
      case PClientKeyExchange => item.msg.ClientKeyExchange?
      case PCertVerify => item.msg.CertificateVerify?
      case PNextProto => item.msg.NextProto?
      case PChannelId => item.msg.ChannelId?
      case PClientFinished => item.msg == Finished(mac(before, false))
      case PTicket => item.msg.NewSessionTicket?
      case PServerFinished => item.msg == Finished(mac(before, true))
      case _ => false
  }

  /** A transcript with an item hashed into it; ChangeCipherSpec is not. */
  function Hashed(transcript: seq<Message>, item: Item): seq<Message> {
    if item.Msg? then transcript + [item.msg] else transcript
  }

  function AllHashed(transcript: seq<Message>, items: seq<Item>): seq<Message>
    decreases items
  {
    if items == [] then transcript else AllHashed(Hashed(transcript, items[0]), items[1..])
  }

  /** Items that are honest one after the other. */
  predicate Transit(items: seq<Item>, points: seq<Point>, params: Params, mac: Mac, before: seq<Message>)
    decreases items
  {
    && |items| == |points|
    && (items == [] ||
        (Honest(items[0], points[0], params, mac, before) && Transit(items[1..], points[1..], params, mac, Hashed(before, items[0]))))
  }

  lemma {:induction false} TransitConcat(a: seq<Item>, pa: seq<Point>, b: seq<Item>, pb: seq<Point>, params: Params, mac: Mac, before: seq<Message>)
    requires Transit(a, pa, params, mac, before) && Transit(b, pb, params, mac, AllHashed(before, a))
    ensures Transit(a + b, pa + pb, params, mac, before)
    ensures AllHashed(before, a + b) == AllHashed(AllHashed(before, a), b)
  {
    hide Honest, Hashed;
    if a == [] {
      assert a + b == b && pa + pb == pb;
    } else {
      TransitConcat(a[1..], pa[1..], b, pb, params, mac, Hashed(before, a[0]));
      assert (a + b)[1..] == a[1..] + b && (pa + pb)[1..] == pa[1..] + pb;
    }
  }

  // ---------- A peer that follows the script ----------

  predicate ParamsOk(params: Params) {
    && (params.certRequest ==> params.hello.certAuth && !params.hello.resumed)
    && (params.hello.requiresSke ==> params.ske)
    && (params.ske ==> params.hello.requiresSke || params.hello.psk)
    && (params.hello.status ==> params.hello.certAuth)
  }

  function ServerStage(s: State): nat {
    match s
    case StartAccept | ReadClientHello => 0
    case SelectCertificate => 1
    case SelectParameters => 2
    case SendServerHello => 3
    case SendServerCertificate => 4
    case SendServerKeyExchange => 5
    case SendServerHelloDone | ReadClientCertificate => 6
    case _ => 7
  }

  predicate ServerOk(m: Machine, params: Params) {
    var stage := ServerStage(m.state);
    && (IsServer(m.state) || m.state.Done?)
    && params == Negotiated(m.config, params.clientCert) && (params.certRequest && m.config.requireCert ==> params.clientCert)
    && (stage >= 1 ==> m.flags.hello.npn == params.hello.npn)
    && (1 <= stage <= 3 ==> m.flags.hello.channelId == m.config.channelId)
    && (stage >= 2 ==> m.flags.hello.certAuth == m.config.certAuth && m.flags.hello.requiresSke == m.config.requiresSke && m.flags.hello.psk == m.config.psk)
    && (stage >= 3 ==> m.flags.hello.resumed == params.hello.resumed && m.flags.hello.ticket == params.hello.ticket && m.flags.certRequest == params.certRequest)
    && (stage >= 4 ==> m.flags.hello == params.hello)
    && (stage == 5 ==> m.flags.skePending == params.ske)
    && m.flags.peerKey == (stage >= 7 && !params.hello.resumed && params.certRequest && params.clientCert)
  }

  function ClientStage(s: State): nat {
    match s
    case StartConnect | EnterEarlyData | ReadServerHello => 0
    case ReadServerCertificate | ReadCertificateStatus | VerifyServerCertificate | ReadServerKeyExchange | ReadCertificateRequest => 1
    case ReadServerHelloDone | SendClientCertificate | SendClientKeyExchange | SendClientCertificateVerify => 2
    case _ => 3
  }

  /** A client forgets the ticket when the server sends an empty one. */
  predicate SameButTicket(a: Hello, b: Hello) {
    && a.resumed == b.resumed && a.status == b.status && a.npn == b.npn && a.channelId == b.channelId
    && a.certAuth == b.certAuth && a.requiresSke == b.requiresSke && a.psk == b.psk
  }

  predicate ClientOk(m: Machine, params: Params) {
    var stage := ClientStage(m.state);
    && !IsServer(m.state)
    && params.clientCert == m.config.hasCert && ParamsOk(params)
    && (stage >= 1 ==> SameButTicket(m.flags.hello, params.hello))
    && (stage == 1 ==> m.flags.hello == params.hello)
    && (stage == 2 || m.state.ReadSessionTicket? || (!params.hello.resumed && (m.state.SendClientFinished? || m.state.FinishFlight?)) ==>
          m.flags.hello == params.hello)
    && (stage <= 1 ==> !m.flags.certRequest)
    && (stage == 2 ==> m.flags.certRequest == params.certRequest)
  }

  /** A peer waits only for what the other one has to send next. */
  predicate WaitOkay(m: Machine, params: Params, server: bool) {
    match m.wait
    case WaitError => false
    case WaitMessage =>
      && Rest(m, params) != [] && FromServer(Rest(m, params)[0]) != server && !IsCcs(Rest(m, params)[0])
      && !m.state.ProcessClientChangeCipherSpec? && !m.state.ProcessServerChangeCipherSpec?
    case WaitChangeCipherSpec => m.state == if server then ProcessClientChangeCipherSpec else ProcessServerChangeCipherSpec
    case _ => true
  }

  predicate OnScript(m: Machine, params: Params, server: bool) {
    (if server then ServerOk(m, params) else ClientOk(m, params)) && WaitOkay(m, params, server)
  }

  // ---------- What a state of such a peer does ----------

  /** Sending items takes a transcript and the rest of the script from one point to another. */
  predicate Sent(before: seq<Message>, rest: seq<Point>, items: seq<Item>, after: seq<Message>, left: seq<Point>,
                 params: Params, server: bool, mac: Mac)
  {
    var n := |items|;
    && n <= |rest| && left == rest[n..]
    && (forall i :: 0 <= i < n ==> FromServer(rest[i]) == server)
    && Transit(items, rest[..n], params, mac, before)
    && after == AllHashed(before, items)
  }

  lemma SentNone(t: seq<Message>, rest: seq<Point>, params: Params, server: bool, mac: Mac)
    ensures Sent(t, rest, [], t, rest, params, server, mac)
  {
  }

  lemma SentOne(t: seq<Message>, p: Point, item: Item, left: seq<Point>, params: Params, server: bool, mac: Mac)
    requires FromServer(p) == server && Honest(item, p, params, mac, t)
    ensures Sent(t, [p] + left, [item], Hashed(t, item), left, params, server, mac)
  {
    hide Honest, Hashed, FromServer;
    var rest := [p] + left;
    assert rest[..1] == [p] && rest[1..] == left && rest[0] == p;
    assert [p][1..] == [] && [item][1..] == [];
    assert Transit([], [], params, mac, Hashed(t, item));
    assert AllHashed(Hashed(t, item), []) == Hashed(t, item);
  }

  lemma SentMore(t: seq<Message>, rest: seq<Point>, a: seq<Item>, t': seq<Message>, rest': seq<Point>, b: seq<Item>,
                 t'': seq<Message>, rest'': seq<Point>, params: Params, server: bool, mac: Mac)
    requires Sent(t, rest, a, t', rest', params, server, mac) && Sent(t', rest', b, t'', rest'', params, server, mac)
    ensures Sent(t, rest, a + b, t'', rest'', params, server, mac)
  {
    hide Honest, Transit, AllHashed;
    TransitConcat(a, rest[..|a|], b, rest'[..|b|], params, mac, t);
    assert rest[..|a| + |b|] == rest[..|a|] + rest'[..|b|];
  }

  /** The messages of the script from point p up to point q were sent. */
  predicate Emits(a: Io, b: Io, p: Point, q: Point, params: Params, server: bool, mac: Mac) {
    && b.inbox == a.inbox && a.flight <= b.flight
    && Sent(a.transcript, Script(p, params), b.flight[|a.flight|..], b.transcript, Script(q, params), params, server, mac)
  }

  lemma EmitsNothing(io: Io, p: Point, q: Point, params: Params, server: bool, mac: Mac)
    requires q == p || (!p.PEnd? && !Present(p, params) && q == NextPoint(p, params.hello.resumed))
    ensures Emits(io, io, p, q, params, server, mac)
  {
    hide Sent;
    if q != p {
      ScriptStep(p, params);
      assert [] + Script(q, params) == Script(q, params);
    }
    SentNone(io.transcript, Script(p, params), params, server, mac);
    assert io.flight[|io.flight|..] == [];
  }

  lemma EmitsItem(a: Io, b: Io, item: Item, p: Point, params: Params, server: bool, mac: Mac)
    requires b.inbox == a.inbox && b.flight == a.flight + [item] && b.transcript == Hashed(a.transcript, item)
    requires !p.PEnd? && Present(p, params) && FromServer(p) == server && Honest(item, p, params, mac, a.transcript)
    ensures Emits(a, b, p, NextPoint(p, params.hello.resumed), params, server, mac)
  {
    hide Sent, Honest, Hashed, Present;
    ScriptStep(p, params);
    SentOne(a.transcript, p, item, Script(NextPoint(p, params.hello.resumed), params), params, server, mac);
    assert b.flight[|a.flight|..] == [item];
  }

  /** The message of a point is sent if it is present. */
  lemma EmitsIf(m: Machine, msg: Message, p: Point, params: Params, server: bool, mac: Mac)
    requires !p.PEnd? && !IsCcs(p) && FromServer(p) == server && Honest(Msg(msg), p, params, mac, m.io.transcript)
    ensures Emits(m.io, AddedIf(m, Present(p, params), msg).io, p, NextPoint(p, params.hello.resumed), params, server, mac)
  {
    hide Emits, Honest, Present;
    if Present(p, params) {
      EmitsItem(m.io, Added(m, msg).io, Msg(msg), p, params, server, mac);
    } else {
      EmitsNothing(m.io, p, NextPoint(p, params.hello.resumed), params, server, mac);
    }
  }

  lemma EmitsMore(a: Io, b: Io, c: Io, p: Point, q: Point, r: Point, params: Params, server: bool, mac: Mac)
    requires Emits(a, b, p, q, params, server, mac) && Emits(b, c, q, r, params, server, mac)
    ensures Emits(a, c, p, r, params, server, mac)
  {
    hide Sent, Script;
    var x, y := b.flight[|a.flight|..], c.flight[|b.flight|..];
    assert c.flight[|a.flight|..] == x + y;
    SentMore(a.transcript, Script(p, params), x, b.transcript, Script(q, params), y, c.transcript, Script(r, params), params, server, mac);
  }

  /** One item was taken: the message of point p, which the other peer sends. */
  predicate Takes(a: Io, b: Io, p: Point, params: Params, server: bool) {
    && Present(p, params) && FromServer(p) != server
    && a.inbox != [] && b.inbox == a.inbox[1..] && b.flight == a.flight
    && b.transcript == Hashed(a.transcript, a.inbox[0])
  }

  /** What has arrived begins with the next item of the script. */
  predicate Expected(m: Machine, params: Params, server: bool, mac: Mac) {
    m.io.inbox != [] ==>
      && Rest(m, params) != [] && FromServer(Rest(m, params)[0]) != server
      && Honest(m.io.inbox[0], Rest(m, params)[0], params, mac, m.io.transcript)
  }

  /** It stayed on the script, and is ready for what comes next. */
  predicate Followed(m: Machine, after: Machine, params: Params, server: bool, mac: Mac) {
    && OnScript(after, params, server)
    && Moved(m.io, after.io, PointOf(m), PointOf(after), params, server, mac)
  }

  predicate Moved(a: Io, b: Io, p: Point, q: Point, params: Params, server: bool, mac: Mac) {
    || Emits(a, b, p, q, params, server, mac)
    || (Takes(a, b, p, params, server) && q == NextPoint(p, params.hello.resumed))
  }

  lemma RestHead(m: Machine, params: Params)
    requires !PointOf(m).PEnd? && Present(PointOf(m), params)
    ensures Rest(m, params) != [] && Rest(m, params)[0] == PointOf(m)
  {
    hide PointOf, Present;
    ScriptStep(PointOf(m), params);
  }

  /** Reading the message of point p: it is the expected one, or it has not arrived. */
  lemma ReadFollows(m: Machine, isKind: bool, outcome: Outcome, retryable: bool, next: State, p: Point, params: Params, server: bool, mac: Mac)
    requires Expected(m, params, server, mac) && m.wait.WaitOk? && !outcome.Fail?
    requires PointOf(m) == p && !p.PEnd? && Present(p, params) && FromServer(p) != server && !IsCcs(p)
    requires Next(m).Some? && Honest(m.io.inbox[0], p, params, mac, m.io.transcript) ==> isKind
    ensures var r := ReadOne(m, isKind, outcome, retryable, next);
      && Rest(m, params) != [] && Rest(m, params)[0] == p
      && (r == Paused(m, WaitMessage) || (retryable && r == Paused(m, WaitCallback))
          || (Next(m).Some? && r == To(Taken(m), next) && Takes(m.io, r.io, p, params, server)
              && Honest(m.io.inbox[0], p, params, mac, m.io.transcript)))
  {
    RestHead(m, params);
    if m.io.inbox != [] {
      assert Honest(m.io.inbox[0], p, params, mac, m.io.transcript);
    }
  }

  /** What the client finds when it looks for an optional ServerKeyExchange or CertificateRequest. */
  lemma OptionalHeads(params: Params)
    ensures var rest := Script(PServerKeyExchange, params);
      rest != [] && rest[0] == if params.ske then PServerKeyExchange else if params.certRequest then PCertRequest else PHelloDone
    ensures var rest := Script(PCertRequest, params);
      rest != [] && rest[0] == if params.certRequest then PCertRequest else PHelloDone
  {
    hide Script;
    ScriptStep(PServerKeyExchange, params);
    ScriptStep(PCertRequest, params);
    ScriptStep(PHelloDone, params);
  }

  lemma ServerStates(m: Machine)
    ensures m.state.StartAccept? ==> PointOf(m) == (PClientHello) && ServerStage(m.state) == 0 && IsServer(m.state)
    ensures m.state.ReadClientHello? ==> PointOf(m) == (PClientHello) && ServerStage(m.state) == 0 && IsServer(m.state)
    ensures m.state.SelectCertificate? ==> PointOf(m) == (PClientHello) && ServerStage(m.state) == 1 && IsServer(m.state)
    ensures m.state.SelectParameters? ==> PointOf(m) == (PClientHello) && ServerStage(m.state) == 2 && IsServer(m.state)
    ensures m.state.SendServerHello? ==> PointOf(m) == (PServerHello) && ServerStage(m.state) == 3 && IsServer(m.state)
    ensures m.state.SendServerCertificate? ==> PointOf(m) == (PCertificate) && ServerStage(m.state) == 4 && IsServer(m.state)
    ensures m.state.SendServerKeyExchange? ==> PointOf(m) == (PServerKeyExchange) && ServerStage(m.state) == 5 && IsServer(m.state)
    ensures m.state.SendServerHelloDone? ==> PointOf(m) == (PCertRequest) && ServerStage(m.state) == 6 && IsServer(m.state)
    ensures m.state.ReadClientCertificate? ==> PointOf(m) == (PClientCert) && ServerStage(m.state) == 6 && IsServer(m.state)
    ensures m.state.VerifyClientCertificate? ==> PointOf(m) == (PClientKeyExchange) && ServerStage(m.state) == 7 && IsServer(m.state)
    ensures m.state.ReadClientKeyExchange? ==> PointOf(m) == (PClientKeyExchange) && ServerStage(m.state) == 7 && IsServer(m.state)
    ensures m.state.ReadClientCertificateVerify? ==> PointOf(m) == (PCertVerify) && ServerStage(m.state) == 7 && IsServer(m.state)
    ensures m.state.ReadClientChangeCipherSpec? ==> PointOf(m) == (PClientCcs) && ServerStage(m.state) == 7 && IsServer(m.state)
    ensures m.state.ProcessClientChangeCipherSpec? ==> PointOf(m) == (if m.wait.WaitChangeCipherSpec? then PClientCcs else PNextProto) && ServerStage(m.state) == 7 && IsServer(m.state)
    ensures m.state.ReadNextProto? ==> PointOf(m) == (PNextProto) && ServerStage(m.state) == 7 && IsServer(m.state)
    ensures m.state.ReadChannelId? ==> PointOf(m) == (PChannelId) && ServerStage(m.state) == 7 && IsServer(m.state)
    ensures m.state.ReadClientFinished? ==> PointOf(m) == (PClientFinished) && ServerStage(m.state) == 7 && IsServer(m.state)
    ensures m.state.SendServerFinished? ==> PointOf(m) == (PTicket) && ServerStage(m.state) == 7 && IsServer(m.state)
    ensures m.state.FinishServerHandshake? ==> PointOf(m) == (PEnd) && ServerStage(m.state) == 7 && IsServer(m.state)
    ensures m.state.Done? ==> PointOf(m) == PEnd && ServerStage(m.state) == 7 && !IsServer(m.state)
  {
  }

  lemma ClientStates(m: Machine)
    ensures m.state.StartConnect? ==> PointOf(m) == (PClientHello) && ClientStage(m.state) == 0 && !IsServer(m.state)
    ensures m.state.EnterEarlyData? ==> PointOf(m) == (PServerHello) && ClientStage(m.state) == 0 && !IsServer(m.state)
    ensures m.state.ReadServerHello? ==> PointOf(m) == (PServerHello) && ClientStage(m.state) == 0 && !IsServer(m.state)
    ensures m.state.ReadServerCertificate? ==> PointOf(m) == (PCertificate) && ClientStage(m.state) == 1 && !IsServer(m.state)
    ensures m.state.ReadCertificateStatus? ==> PointOf(m) == (PStatus) && ClientStage(m.state) == 1 && !IsServer(m.state)
    ensures m.state.VerifyServerCertificate? ==> PointOf(m) == (PServerKeyExchange) && ClientStage(m.state) == 1 && !IsServer(m.state)
    ensures m.state.ReadServerKeyExchange? ==> PointOf(m) == (PServerKeyExchange) && ClientStage(m.state) == 1 && !IsServer(m.state)
    ensures m.state.ReadCertificateRequest? ==> PointOf(m) == (PCertRequest) && ClientStage(m.state) == 1 && !IsServer(m.state)
    ensures m.state.ReadServerHelloDone? ==> PointOf(m) == (PHelloDone) && ClientStage(m.state) == 2 && !IsServer(m.state)
    ensures m.state.SendClientCertificate? ==> PointOf(m) == (PClientCert) && ClientStage(m.state) == 2 && !IsServer(m.state)
    ensures m.state.SendClientKeyExchange? ==> PointOf(m) == (PClientKeyExchange) && ClientStage(m.state) == 2 && !IsServer(m.state)
    ensures m.state.SendClientCertificateVerify? ==> PointOf(m) == (PCertVerify) && ClientStage(m.state) == 2 && !IsServer(m.state)
    ensures m.state.SendClientFinished? ==> PointOf(m) == (PClientCcs) && ClientStage(m.state) == 3 && !IsServer(m.state)
    ensures m.state.FinishFlight? ==> PointOf(m) == (if m.flags.hello.resumed then PEnd else PTicket) && ClientStage(m.state) == 3 && !IsServer(m.state)
    ensures m.state.ReadSessionTicket? ==> PointOf(m) == (PTicket) && ClientStage(m.state) == 3 && !IsServer(m.state)
    ensures m.state.ProcessServerChangeCipherSpec? ==> PointOf(m) == (if m.wait.WaitChangeCipherSpec? then PServerCcs else PServerFinished) && ClientStage(m.state) == 3 && !IsServer(m.state)
    ensures m.state.ReadServerFinished? ==> PointOf(m) == (PServerFinished) && ClientStage(m.state) == 3 && !IsServer(m.state)
    ensures m.state.FinishClientHandshake? ==> PointOf(m) == (PEnd) && ClientStage(m.state) == 3 && !IsServer(m.state)
    ensures m.state.Done? ==> PointOf(m) == PEnd && ClientStage(m.state) == 3 && !IsServer(m.state)
  {
  }

  // ---------- The server follows the script ----------

  lemma StartAcceptFollows(m: Machine, params: Params, mac: Mac)
    requires OnScript(m, params, true)
    requires m.wait.WaitOk? && m.state.StartAccept?
    ensures Followed(m, DoStartAccept(m), params, true, mac)
  {
    hide Script, Emits, PointOf, ServerStage, ClientStage, IsServer;
    ServerStates(m);
    ServerStates(DoStartAccept(m));
    EmitsNothing(m.io, PClientHello, PClientHello, params, true, mac);
  }

  lemma ReadClientHelloFollows(m: Machine, params: Params, mac: Mac, o: Oracle)
    requires OnScript(m, params, true) && Expected(m, params, true, mac)
    requires m.wait.WaitOk? && m.state.ReadClientHello? && !o.outcome.Fail?
    ensures Followed(m, DoReadClientHello(m, o), params, true, mac)
  {
    hide Script, Emits, PointOf, ServerStage, ClientStage, IsServer;
    ServerStates(m);
    ServerStates(DoReadClientHello(m, o));
    RestHead(m, params);
    EmitsNothing(m.io, PClientHello, PClientHello, params, true, mac);
  }

  lemma SelectCertificateFollows(m: Machine, params: Params, mac: Mac, o: Oracle)
    requires OnScript(m, params, true) && Expected(m, params, true, mac)
    requires m.wait.WaitOk? && m.state.SelectCertificate? && !o.outcome.Fail?
    ensures Followed(m, DoSelectCertificate(m, o), params, true, mac)
  {
    hide Script, Emits, PointOf, ServerStage, ClientStage, IsServer;
    ServerStates(m);
    ServerStates(DoSelectCertificate(m, o));
    RestHead(m, params);
    EmitsNothing(m.io, PClientHello, PClientHello, params, true, mac);
  }

  lemma SelectParametersFollows(m: Machine, params: Params, mac: Mac, o: Oracle)
    requires OnScript(m, params, true) && Expected(m, params, true, mac)
    requires m.wait.WaitOk? && m.state.SelectParameters? && !o.outcome.Fail?
    ensures Followed(m, DoSelectParameters(m, o), params, true, mac)
  {
    hide Script, Emits, PointOf, ServerStage, ClientStage, IsServer;
    ServerStates(m);
    ServerStates(DoSelectParameters(m, o));
    RestHead(m, params);
    if Next(m).None? || o.outcome.Retry? {
      EmitsNothing(m.io, PClientHello, PClientHello, params, true, mac);
    }
  }

  lemma SendServerHelloFollows(m: Machine, params: Params, mac: Mac, o: Oracle)
    requires OnScript(m, params, true)
    requires m.wait.WaitOk? && m.state.SendServerHello? && !o.outcome.Fail?
    ensures Followed(m, DoSendServerHello(m, o), params, true, mac)
  {
    hide Script, Emits, PointOf, ServerStage, ClientStage, IsServer;
    ServerStates(m);
    ServerStates(DoSendServerHello(m, o));
    var after := DoSendServerHello(m, o);
    EmitsItem(m.io, after.io, Msg(ServerHello(after.flags.hello, o.data)), PServerHello, params, true, mac);
  }

  lemma SendServerCertificateFollows(m: Machine, params: Params, mac: Mac, o: Oracle)
    requires OnScript(m, params, true)
    requires m.wait.WaitOk? && m.state.SendServerCertificate? && !o.outcome.Fail?
    ensures Followed(m, DoSendServerCertificate(m, o), params, true, mac)
  {
    hide Script, Emits, PointOf, ServerStage, ClientStage, IsServer;
    ServerStates(m);
    ServerStates(DoSendServerCertificate(m, o));
    var cert, status := Certificate(1 + o.data, o.data), CertificateStatus(o.data);
    var n := AddedIf(m, m.flags.hello.certAuth, cert);
    var n' := AddedIf(n, m.flags.hello.certAuth && m.flags.hello.status, status);
    EmitsIf(m, cert, PCertificate, params, true, mac);
    EmitsIf(n, status, PStatus, params, true, mac);
    EmitsMore(m.io, n.io, n'.io, PCertificate, PStatus, PServerKeyExchange, params, true, mac);
  }

  lemma SendServerKeyExchangeFollows(m: Machine, params: Params, mac: Mac, o: Oracle)
    requires OnScript(m, params, true)
    requires m.wait.WaitOk? && m.state.SendServerKeyExchange? && !o.outcome.Fail?
    ensures Followed(m, DoSendServerKeyExchange(m, o), params, true, mac)
  {
    hide Script, Emits, PointOf, ServerStage, ClientStage, IsServer;
    ServerStates(m);
    ServerStates(DoSendServerKeyExchange(m, o));
    var after := DoSendServerKeyExchange(m, o);
    if after.wait.WaitCallback? {
      EmitsNothing(m.io, PServerKeyExchange, PServerKeyExchange, params, true, mac);
    } else if !m.flags.skePending {
      EmitsNothing(m.io, PServerKeyExchange, PCertRequest, params, true, mac);
    } else {
      EmitsItem(m.io, after.io, Msg(ServerKeyExchange(o.data)), PServerKeyExchange, params, true, mac);
    }
  }

  lemma SendServerHelloDoneFollows(m: Machine, params: Params, mac: Mac, o: Oracle)
    requires OnScript(m, params, true)
    requires m.wait.WaitOk? && m.state.SendServerHelloDone? && !o.outcome.Fail?
    ensures Followed(m, DoSendServerHelloDone(m, o), params, true, mac)
  {
    hide Script, Emits, PointOf, ServerStage, ClientStage, IsServer;
    ServerStates(m);
    ServerStates(DoSendServerHelloDone(m, o));
    var request := CertificateRequest(o.data);
    var n := AddedIf(m, m.flags.certRequest, request);
    var after := DoSendServerHelloDone(m, o);
    EmitsIf(m, request, PCertRequest, params, true, mac);
    EmitsItem(n.io, after.io, Msg(ServerHelloDone), PHelloDone, params, true, mac);
    EmitsMore(m.io, n.io, after.io, PCertRequest, PHelloDone, PClientCert, params, true, mac);
  }

  lemma ReadClientCertificateFollows(m: Machine, params: Params, mac: Mac, o: Oracle)
    requires OnScript(m, params, true) && Expected(m, params, true, mac)
    requires m.wait.WaitOk? && m.state.ReadClientCertificate? && !o.outcome.Fail?
    ensures Followed(m, DoReadClientCertificate(m, o), params, true, mac)
  {
    hide Script, Emits, PointOf, ServerStage, ClientStage, IsServer;
    ServerStates(m);
    ServerStates(DoReadClientCertificate(m, o));
    if !m.flags.certRequest {
      EmitsNothing(m.io, PClientCert, PClientKeyExchange, params, true, mac);
    } else {
      ReadFollows(m, Next(m).Some? && Next(m).value.Certificate? && (Next(m).value.certs == 0 ==> !m.config.requireCert), o.outcome, false, VerifyClientCertificate, PClientCert, params, true, mac);
      EmitsNothing(m.io, PClientCert, PClientCert, params, true, mac);
    }
  }

  lemma VerifyClientCertificateFollows(m: Machine, params: Params, mac: Mac, o: Oracle)
    requires OnScript(m, params, true)
    requires m.wait.WaitOk? && m.state.VerifyClientCertificate? && !o.outcome.Fail?
    ensures Followed(m, DoVerifyClientCertificate(m, o), params, true, mac)
  {
    hide Script, Emits, PointOf, ServerStage, ClientStage, IsServer;
    ServerStates(m);
    ServerStates(DoVerifyClientCertificate(m, o));
    EmitsNothing(m.io, PClientKeyExchange, PClientKeyExchange, params, true, mac);
  }

  lemma ReadClientKeyExchangeFollows(m: Machine, params: Params, mac: Mac, o: Oracle)
    requires OnScript(m, params, true) && Expected(m, params, true, mac)
    requires m.wait.WaitOk? && m.state.ReadClientKeyExchange? && !o.outcome.Fail?
    ensures Followed(m, DoReadClientKeyExchange(m, o), params, true, mac)
  {
    hide Script, Emits, PointOf, ServerStage, ClientStage, IsServer;
    ServerStates(m);
    ServerStates(DoReadClientKeyExchange(m, o));
    ReadFollows(m, Next(m).Some? && Next(m).value.ClientKeyExchange?, o.outcome, true, ReadClientCertificateVerify, PClientKeyExchange, params, true, mac);
    EmitsNothing(m.io, PClientKeyExchange, PClientKeyExchange, params, true, mac);
  }

  lemma ReadClientCertificateVerifyFollows(m: Machine, params: Params, mac: Mac, o: Oracle)
    requires OnScript(m, params, true) && Expected(m, params, true, mac)
    requires m.wait.WaitOk? && m.state.ReadClientCertificateVerify? && !o.outcome.Fail?
    ensures Followed(m, DoReadClientCertificateVerify(m, o), params, true, mac)
  {
    hide Script, Emits, PointOf, ServerStage, ClientStage, IsServer;
    ServerStates(m);
    ServerStates(DoReadClientCertificateVerify(m, o));
    if !m.flags.peerKey {
      EmitsNothing(m.io, PCertVerify, PClientCcs, params, true, mac);
    } else {
      ReadFollows(m, Next(m).Some? && Next(m).value.CertificateVerify?, o.outcome, false, ReadClientChangeCipherSpec, PCertVerify, params, true, mac);
      EmitsNothing(m.io, PCertVerify, PCertVerify, params, true, mac);
    }
  }

  lemma ReadClientChangeCipherSpecFollows(m: Machine, params: Params, mac: Mac)
    requires OnScript(m, params, true)
    requires m.wait.WaitOk? && m.state.ReadClientChangeCipherSpec?
    ensures Followed(m, DoReadClientChangeCipherSpec(m), params, true, mac)
  {
    hide Script, Emits, PointOf, ServerStage, ClientStage, IsServer;
    ServerStates(m);
    ServerStates(DoReadClientChangeCipherSpec(m));
    EmitsNothing(m.io, PClientCcs, PClientCcs, params, true, mac);
  }

  lemma ProcessClientChangeCipherSpecFollows(m: Machine, params: Params, mac: Mac, o: Oracle)
    requires OnScript(m, params, true)
    requires m.wait.WaitOk? && m.state.ProcessClientChangeCipherSpec? && !o.outcome.Fail?
    ensures Followed(m, DoProcessClientChangeCipherSpec(m, o), params, true, mac)
  {
    hide Script, Emits, PointOf, ServerStage, ClientStage, IsServer;
    ServerStates(m);
    ServerStates(DoProcessClientChangeCipherSpec(m, o));
    EmitsNothing(m.io, PNextProto, PNextProto, params, true, mac);
  }

  lemma ReadNextProtoFollows(m: Machine, params: Params, mac: Mac, o: Oracle)
    requires OnScript(m, params, true) && Expected(m, params, true, mac)
    requires m.wait.WaitOk? && m.state.ReadNextProto? && !o.outcome.Fail?
    ensures Followed(m, DoReadNextProto(m, o), params, true, mac)
  {
    hide Script, Emits, PointOf, ServerStage, ClientStage, IsServer;
    ServerStates(m);
    ServerStates(DoReadNextProto(m, o));
    if !m.flags.hello.npn {
      EmitsNothing(m.io, PNextProto, PChannelId, params, true, mac);
    } else {
      ReadFollows(m, Next(m).Some? && Next(m).value.NextProto?, o.outcome, false, ReadChannelId, PNextProto, params, true, mac);
      EmitsNothing(m.io, PNextProto, PNextProto, params, true, mac);
    }
  }

  lemma ReadChannelIdFollows(m: Machine, params: Params, mac: Mac, o: Oracle)
    requires OnScript(m, params, true) && Expected(m, params, true, mac)
    requires m.wait.WaitOk? && m.state.ReadChannelId? && !o.outcome.Fail?
    ensures Followed(m, DoReadChannelId(m, o), params, true, mac)
  {
    hide Script, Emits, PointOf, ServerStage, ClientStage, IsServer;
    ServerStates(m);
    ServerStates(DoReadChannelId(m, o));
    if !m.flags.hello.channelId {
      EmitsNothing(m.io, PChannelId, PClientFinished, params, true, mac);
    } else {
      ReadFollows(m, Next(m).Some? && Next(m).value.ChannelId?, o.outcome, false, ReadClientFinished, PChannelId, params, true, mac);
      EmitsNothing(m.io, PChannelId, PChannelId, params, true, mac);
    }
  }

  lemma ReadClientFinishedFollows(m: Machine, params: Params, mac: Mac, o: Oracle)
    requires OnScript(m, params, true) && Expected(m, params, true, mac)
    requires m.wait.WaitOk? && m.state.ReadClientFinished? && !o.outcome.Fail?
    ensures Followed(m, DoReadClientFinished(m, mac, o), params, true, mac)
  {
    hide Script, Emits, PointOf, ServerStage, ClientStage, IsServer;
    ServerStates(m);
    ServerStates(DoReadClientFinished(m, mac, o));
    ReadFollows(m, Next(m).Some? && Next(m).value.Finished? && Next(m).value.mac == mac(m.io.transcript, false), o.outcome, false, if m.flags.hello.resumed then FinishServerHandshake else SendServerFinished, PClientFinished, params, true, mac);
    EmitsNothing(m.io, PClientFinished, PClientFinished, params, true, mac);
  }

  lemma ServerFinalFlight(m: Machine, params: Params, mac: Mac, o: Oracle)
    requires m.flags.hello.ticket == params.hello.ticket && !o.outcome.Fail?
    ensures Emits(m.io, DoSendServerFinished(m, mac, o).io, PTicket, NextPoint(PServerFinished, params.hello.resumed), params, true, mac)
  {
    hide Script, Emits;
    var ticket := NewSessionTicket(o.emptyTicket, o.data);
    var n := AddedIf(m, m.flags.hello.ticket, ticket);
    var n' := AddedChangeCipherSpec(n);
    var n'' := AddedFinished(n', mac, true);
    EmitsIf(m, ticket, PTicket, params, true, mac);
    EmitsItem(n.io, n'.io, ChangeCipherSpec, PServerCcs, params, true, mac);
    EmitsMore(m.io, n.io, n'.io, PTicket, PServerCcs, PServerFinished, params, true, mac);
    EmitsItem(n'.io, n''.io, Msg(Finished(mac(n'.io.transcript, true))), PServerFinished, params, true, mac);
    EmitsMore(m.io, n'.io, n''.io, PTicket, PServerFinished, NextPoint(PServerFinished, params.hello.resumed), params, true, mac);
  }

  lemma SendServerFinishedFollows(m: Machine, params: Params, mac: Mac, o: Oracle)
    requires OnScript(m, params, true)
    requires m.wait.WaitOk? && m.state.SendServerFinished? && !o.outcome.Fail?
    ensures Followed(m, DoSendServerFinished(m, mac, o), params, true, mac)
  {
    hide Script, Emits, PointOf, ServerStage, ClientStage, IsServer, AddedFinished, AddedChangeCipherSpec, AddedIf;
    ServerStates(m);
    ServerFinalFlight(m, params, mac, o);
    FinalFlightFlags(m, mac, o);
    ServerStates(DoSendServerFinished(m, mac, o));
  }

  lemma FinalFlightFlags(m: Machine, mac: Mac, o: Oracle)
    ensures var after := DoSendServerFinished(m, mac, o);
      after.config == m.config && after.flags == m.flags
    ensures var after := DoSendClientFinished(m, mac, o);
      after.config == m.config && after.flags == m.flags
  {
  }

  lemma FinishServerHandshakeFollows(m: Machine, params: Params, mac: Mac)
    requires OnScript(m, params, true)
    requires m.wait.WaitOk? && m.state.FinishServerHandshake?
    ensures Followed(m, DoFinishServerHandshake(m), params, true, mac)
  {
    hide Script, Emits, PointOf, ServerStage, ClientStage, IsServer;
    ServerStates(m);
    ServerStates(DoFinishServerHandshake(m));
    EmitsNothing(m.io, PEnd, PEnd, params, true, mac);
  }

  // ---------- The client follows the script ----------

  lemma StartConnectFollows(m: Machine, params: Params, mac: Mac, o: Oracle)
    requires OnScript(m, params, false)
    requires m.wait.WaitOk? && m.state.StartConnect? && !o.outcome.Fail?
    ensures Followed(m, DoStartConnect(m, o), params, false, mac)
  {
    hide Script, Emits, PointOf, ServerStage, ClientStage, IsServer;
    ClientStates(m);
    ClientStates(DoStartConnect(m, o));
    var after := DoStartConnect(m, o);
    EmitsItem(m.io, after.io, Msg(ClientHello(o.data)), PClientHello, params, false, mac);
  }

  lemma EnterEarlyDataFollows(m: Machine, params: Params, mac: Mac)
    requires OnScript(m, params, false)
    requires m.wait.WaitOk? && m.state.EnterEarlyData?
    ensures Followed(m, DoEnterEarlyData(m), params, false, mac)
  {
    hide Script, Emits, PointOf, ServerStage, ClientStage, IsServer;
    ClientStates(m);
    ClientStates(DoEnterEarlyData(m));
    EmitsNothing(m.io, PServerHello, PServerHello, params, false, mac);
  }

  lemma ReadServerHelloFollows(m: Machine, params: Params, mac: Mac, o: Oracle)
    requires OnScript(m, params, false) && Expected(m, params, false, mac)
    requires m.wait.WaitOk? && m.state.ReadServerHello? && !o.outcome.Fail?
    ensures Followed(m, DoReadServerHello(m, o), params, false, mac)
  {
    hide Script, Emits, PointOf, ServerStage, ClientStage, IsServer;
    ClientStates(m);
    ClientStates(DoReadServerHello(m, o));
    ReadFollows(m, Next(m).Some? && Next(m).value.ServerHello?, o.outcome, false, ReadServerCertificate, PServerHello, params, false, mac);
    EmitsNothing(m.io, PServerHello, PServerHello, params, false, mac);
  }

  lemma ReadServerCertificateFollows(m: Machine, params: Params, mac: Mac, o: Oracle)
    requires OnScript(m, params, false) && Expected(m, params, false, mac)
    requires m.wait.WaitOk? && m.state.ReadServerCertificate? && !o.outcome.Fail?
    ensures Followed(m, DoReadServerCertificate(m, o), params, false, mac)
  {
    hide Script, Emits, PointOf, ServerStage, ClientStage, IsServer;
    ClientStates(m);
    ClientStates(DoReadServerCertificate(m, o));
    if !m.flags.hello.certAuth {
      EmitsNothing(m.io, PCertificate, PStatus, params, false, mac);
    } else {
      ReadFollows(m, Next(m).Some? && Next(m).value.Certificate? && Next(m).value.certs > 0, o.outcome, false, ReadCertificateStatus, PCertificate, params, false, mac);
      EmitsNothing(m.io, PCertificate, PCertificate, params, false, mac);
    }
  }

  lemma ReadCertificateStatusFollows(m: Machine, params: Params, mac: Mac, o: Oracle)
    requires OnScript(m, params, false) && Expected(m, params, false, mac)
    requires m.wait.WaitOk? && m.state.ReadCertificateStatus? && !o.outcome.Fail?
    ensures Followed(m, DoReadCertificateStatus(m, o), params, false, mac)
  {
    hide Script, Emits, PointOf, ServerStage, ClientStage, IsServer;
    ClientStates(m);
    ClientStates(DoReadCertificateStatus(m, o));
    if !m.flags.hello.status {
      EmitsNothing(m.io, PStatus, PServerKeyExchange, params, false, mac);
    } else {
      ReadFollows(m, true, o.outcome, false, VerifyServerCertificate, PStatus, params, false, mac);
      EmitsNothing(m.io, PStatus, PStatus, params, false, mac);
    }
  }

  lemma VerifyServerCertificateFollows(m: Machine, params: Params, mac: Mac, o: Oracle)
    requires OnScript(m, params, false)
    requires m.wait.WaitOk? && m.state.VerifyServerCertificate? && !o.outcome.Fail?
    ensures Followed(m, DoVerifyServerCertificate(m, o), params, false, mac)
  {
    hide Script, Emits, PointOf, ServerStage, ClientStage, IsServer;
    ClientStates(m);
    ClientStates(DoVerifyServerCertificate(m, o));
    EmitsNothing(m.io, PServerKeyExchange, PServerKeyExchange, params, false, mac);
  }

  lemma ReadServerKeyExchangeFollows(m: Machine, params: Params, mac: Mac, o: Oracle)
    requires OnScript(m, params, false) && Expected(m, params, false, mac)
    requires m.wait.WaitOk? && m.state.ReadServerKeyExchange? && !o.outcome.Fail?
    ensures Followed(m, DoReadServerKeyExchange(m, o), params, false, mac)
  {
    hide Script, Emits, PointOf, ServerStage, ClientStage, IsServer;
    ClientStates(m);
    ClientStates(DoReadServerKeyExchange(m, o));
    OptionalHeads(params);
    if params.ske {
      ReadFollows(m, m.flags.hello.requiresSke || m.flags.hello.psk, o.outcome, false, ReadCertificateRequest, PServerKeyExchange, params, false, mac);
      EmitsNothing(m.io, PServerKeyExchange, PServerKeyExchange, params, false, mac);
    } else {
      EmitsNothing(m.io, PServerKeyExchange, PServerKeyExchange, params, false, mac);
      EmitsNothing(m.io, PServerKeyExchange, PCertRequest, params, false, mac);
    }
  }

  lemma ReadCertificateRequestFollows(m: Machine, params: Params, mac: Mac, o: Oracle)
    requires OnScript(m, params, false) && Expected(m, params, false, mac)
    requires m.wait.WaitOk? && m.state.ReadCertificateRequest? && !o.outcome.Fail?
    ensures Followed(m, DoReadCertificateRequest(m, o), params, false, mac)
  {
    hide Script, Emits, PointOf, ServerStage, ClientStage, IsServer;
    ClientStates(m);
    ClientStates(DoReadCertificateRequest(m, o));
    OptionalHeads(params);
    if params.certRequest {
      ReadFollows(m, Next(m).Some? && Next(m).value.CertificateRequest?, o.outcome, false, ReadServerHelloDone, PCertRequest, params, false, mac);
      EmitsNothing(m.io, PCertRequest, PCertRequest, params, false, mac);
    } else {
      EmitsNothing(m.io, PCertRequest, PCertRequest, params, false, mac);
      EmitsNothing(m.io, PCertRequest, PHelloDone, params, false, mac);
    }
  }

  lemma ReadServerHelloDoneFollows(m: Machine, params: Params, mac: Mac, o: Oracle)
    requires OnScript(m, params, false) && Expected(m, params, false, mac)
    requires m.wait.WaitOk? && m.state.ReadServerHelloDone? && !o.outcome.Fail?
    ensures Followed(m, DoReadServerHelloDone(m, o), params, false, mac)
  {
    hide Script, Emits, PointOf, ServerStage, ClientStage, IsServer;
    ClientStates(m);
    ClientStates(DoReadServerHelloDone(m, o));
    ReadFollows(m, Next(m).Some? && Next(m).value.ServerHelloDone?, o.outcome, false, SendClientCertificate, PHelloDone, params, false, mac);
    EmitsNothing(m.io, PHelloDone, PHelloDone, params, false, mac);
  }

  lemma SendClientCertificateFollows(m: Machine, params: Params, mac: Mac, o: Oracle)
    requires OnScript(m, params, false)
    requires m.wait.WaitOk? && m.state.SendClientCertificate? && !o.outcome.Fail?
    ensures Followed(m, DoSendClientCertificate(m, o), params, false, mac)
  {
    hide Script, Emits, PointOf, ServerStage, ClientStage, IsServer;
    ClientStates(m);
    ClientStates(DoSendClientCertificate(m, o));
    var after := DoSendClientCertificate(m, o);
    if !m.flags.certRequest {
      EmitsNothing(m.io, PClientCert, PClientKeyExchange, params, false, mac);
    } else if after.wait.WaitCallback? {
      EmitsNothing(m.io, PClientCert, PClientCert, params, false, mac);
    } else {
      EmitsItem(m.io, after.io, Msg(Certificate(if m.config.hasCert then 1 + o.data else 0, o.data)), PClientCert, params, false, mac);
    }
  }

  lemma SendClientKeyExchangeFollows(m: Machine, params: Params, mac: Mac, o: Oracle)
    requires OnScript(m, params, false)
    requires m.wait.WaitOk? && m.state.SendClientKeyExchange? && !o.outcome.Fail?
    ensures Followed(m, DoSendClientKeyExchange(m, o), params, false, mac)
  {
    hide Script, Emits, PointOf, ServerStage, ClientStage, IsServer;
    ClientStates(m);
    ClientStates(DoSendClientKeyExchange(m, o));
    var after := DoSendClientKeyExchange(m, o);
    EmitsItem(m.io, after.io, Msg(ClientKeyExchange(o.data)), PClientKeyExchange, params, false, mac);
  }

  lemma SendClientCertificateVerifyFollows(m: Machine, params: Params, mac: Mac, o: Oracle)
    requires OnScript(m, params, false)
    requires m.wait.WaitOk? && m.state.SendClientCertificateVerify? && !o.outcome.Fail?
    ensures Followed(m, DoSendClientCertificateVerify(m, o), params, false, mac)
  {
    hide Script, Emits, PointOf, ServerStage, ClientStage, IsServer;
    ClientStates(m);
    ClientStates(DoSendClientCertificateVerify(m, o));
    var after := DoSendClientCertificateVerify(m, o);
    if !m.flags.certRequest || !m.config.hasCert {
      EmitsNothing(m.io, PCertVerify, PClientCcs, params, false, mac);
    } else if after.wait.WaitCallback? {
      EmitsNothing(m.io, PCertVerify, PCertVerify, params, false, mac);
    } else {
      EmitsItem(m.io, after.io, Msg(CertificateVerify(o.data)), PCertVerify, params, false, mac);
    }
  }

  lemma ClientExtrasEmits(m: Machine, params: Params, mac: Mac, data: nat)
    requires m.flags.hello.npn == params.hello.npn && m.flags.hello.channelId == params.hello.channelId
    ensures Emits(m.io, WithExtras(m, data).io, PNextProto, PClientFinished, params, false, mac)
  {
    hide Script, Emits;
    var n := AddedIf(m, m.flags.hello.npn, NextProto(data));
    var n' := AddedIf(n, m.flags.hello.channelId, ChannelId(data));
    EmitsIf(m, NextProto(data), PNextProto, params, false, mac);
    EmitsIf(n, ChannelId(data), PChannelId, params, false, mac);
    EmitsMore(m.io, n.io, n'.io, PNextProto, PChannelId, PClientFinished, params, false, mac);
  }

  lemma ClientFinalFlight(m: Machine, params: Params, mac: Mac, o: Oracle)
    requires m.flags.hello.npn == params.hello.npn && m.flags.hello.channelId == params.hello.channelId
    requires o.outcome.Proceed? || (o.outcome.Retry? && !m.flags.hello.channelId)
    ensures Emits(m.io, DoSendClientFinished(m, mac, o).io, PClientCcs, NextPoint(PClientFinished, params.hello.resumed), params, false, mac)
  {
    hide Script, Emits, WithExtras;
    var n := AddedChangeCipherSpec(m);
    var n' := WithExtras(n, o.data);
    var n'' := AddedFinished(n', mac, false);
    EmitsItem(m.io, n.io, ChangeCipherSpec, PClientCcs, params, false, mac);
    ClientExtrasEmits(n, params, mac, o.data);
    EmitsMore(m.io, n.io, n'.io, PClientCcs, PNextProto, PClientFinished, params, false, mac);
    EmitsItem(n'.io, n''.io, Msg(Finished(mac(n'.io.transcript, false))), PClientFinished, params, false, mac);
    EmitsMore(m.io, n'.io, n''.io, PClientCcs, PClientFinished, NextPoint(PClientFinished, params.hello.resumed), params, false, mac);
  }

  lemma SendClientFinishedFollows(m: Machine, params: Params, mac: Mac, o: Oracle)
    requires OnScript(m, params, false)
    requires m.wait.WaitOk? && m.state.SendClientFinished? && !o.outcome.Fail?
    ensures Followed(m, DoSendClientFinished(m, mac, o), params, false, mac)
  {
    hide Script, Emits, PointOf, ServerStage, ClientStage, IsServer, AddedFinished, AddedChangeCipherSpec, AddedIf;
    ClientStates(m);
    if o.outcome.Retry? && m.flags.hello.channelId {
      EmitsNothing(m.io, PClientCcs, PClientCcs, params, false, mac);
    } else {
      ClientFinalFlight(m, params, mac, o);
    }
    FinalFlightFlags(m, mac, o);
    ClientStates(DoSendClientFinished(m, mac, o));
  }

  lemma FinishFlightFollows(m: Machine, params: Params, mac: Mac, o: Oracle)
    requires OnScript(m, params, false)
    requires m.wait.WaitOk? && m.state.FinishFlight? && !o.outcome.Fail?
    ensures Followed(m, DoFinishFlight(m, o), params, false, mac)
  {
    hide Script, Emits, PointOf, ServerStage, ClientStage, IsServer;
    ClientStates(m);
    ClientStates(DoFinishFlight(m, o));
    EmitsNothing(m.io, PointOf(m), PointOf(m), params, false, mac);
  }

  lemma TicketForgotten(hello: Hello, empty: bool)
    ensures SameButTicket(AfterTicket(hello, empty), hello)
  {
  }

  lemma ReadSessionTicketFollows(m: Machine, params: Params, mac: Mac, o: Oracle)
    requires OnScript(m, params, false) && Expected(m, params, false, mac)
    requires m.wait.WaitOk? && m.state.ReadSessionTicket? && !o.outcome.Fail?
    ensures Followed(m, DoReadSessionTicket(m, o), params, false, mac)
  {
    hide Script, Emits, PointOf, ServerStage, ClientStage, IsServer, AfterTicket;
    var after := DoReadSessionTicket(m, o);
    ClientStates(m);
    ClientStates(after);
    TicketKnown(m, params);
    if !m.flags.hello.ticket {
      EmitsNothing(m.io, PTicket, PServerCcs, params, false, mac);
    } else {
      RestHead(m, params);
      if m.io.inbox == [] {
        EmitsNothing(m.io, PTicket, PTicket, params, false, mac);
      } else {
        TicketForgotten(m.flags.hello, Next(m).value.empty);
      }
    }
  }

  lemma TicketKnown(m: Machine, params: Params)
    requires ClientOk(m, params) && m.state.ReadSessionTicket?
    ensures m.flags.hello == params.hello
  {
  }

  lemma ProcessServerChangeCipherSpecFollows(m: Machine, params: Params, mac: Mac, o: Oracle)
    requires OnScript(m, params, false)
    requires m.wait.WaitOk? && m.state.ProcessServerChangeCipherSpec? && !o.outcome.Fail?
    ensures Followed(m, DoProcessServerChangeCipherSpec(m, o), params, false, mac)
  {
    hide Script, Emits, PointOf, ServerStage, ClientStage, IsServer;
    ClientStates(m);
    ClientStates(DoProcessServerChangeCipherSpec(m, o));
    EmitsNothing(m.io, PServerFinished, PServerFinished, params, false, mac);
  }

  lemma ReadServerFinishedFollows(m: Machine, params: Params, mac: Mac, o: Oracle)
    requires OnScript(m, params, false) && Expected(m, params, false, mac)
    requires m.wait.WaitOk? && m.state.ReadServerFinished? && !o.outcome.Fail?
    ensures Followed(m, DoReadServerFinished(m, mac, o), params, false, mac)
  {
    hide Script, Emits, PointOf, ServerStage, ClientStage, IsServer;
    ClientStates(m);
    ClientStates(DoReadServerFinished(m, mac, o));
    ReadFollows(m, Next(m).Some? && Next(m).value.Finished? && Next(m).value.mac == mac(m.io.transcript, true), o.outcome, false, if m.flags.hello.resumed then SendClientFinished else FinishClientHandshake, PServerFinished, params, false, mac);
    EmitsNothing(m.io, PServerFinished, PServerFinished, params, false, mac);
  }

  lemma FinishClientHandshakeFollows(m: Machine, params: Params, mac: Mac)
    requires OnScript(m, params, false)
    requires m.wait.WaitOk? && m.state.FinishClientHandshake?
    ensures Followed(m, DoFinishClientHandshake(m), params, false, mac)
  {
    hide Script, Emits, PointOf, ServerStage, ClientStage, IsServer, Takes, ParamsOk, NextPoint;
    ClientStates(m);
    ClientStates(DoFinishClientHandshake(m));
    EmitsNothing(m.io, PEnd, PEnd, params, false, mac);
  }
}
