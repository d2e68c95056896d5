/** Client and server running together over reliable channels. */
module HandshakeWorld {
  import opened Wire
  import opened Handshake
  import opened HandshakeAgreement
  import Safety = HandshakeSafety

  lemma ServerFollows(m: Machine, params: Params, mac: Mac, o: Oracle)
    requires OnScript(m, params, true) && Expected(m, params, true, mac) && m.wait.WaitOk? && !m.state.Done? && !o.outcome.Fail?
    ensures Followed(m, ServerStep(m, mac, o), params, true, mac)
  {
    hide Followed, Expected, WaitOkay, Negotiated;
    match m.state
    case StartAccept => StartAcceptFollows(m, params, mac);
    case ReadClientHello => ReadClientHelloFollows(m, params, mac, o);
    case SelectCertificate => SelectCertificateFollows(m, params, mac, o);
    case SelectParameters => SelectParametersFollows(m, params, mac, o);
    case SendServerHello => SendServerHelloFollows(m, params, mac, o);
    case SendServerCertificate => SendServerCertificateFollows(m, params, mac, o);
    case SendServerKeyExchange => SendServerKeyExchangeFollows(m, params, mac, o);
    case SendServerHelloDone => SendServerHelloDoneFollows(m, params, mac, o);
    case ReadClientCertificate => ReadClientCertificateFollows(m, params, mac, o);
    case VerifyClientCertificate => VerifyClientCertificateFollows(m, params, mac, o);
    case ReadClientKeyExchange => ReadClientKeyExchangeFollows(m, params, mac, o);
    case ReadClientCertificateVerify => ReadClientCertificateVerifyFollows(m, params, mac, o);
    case ReadClientChangeCipherSpec => ReadClientChangeCipherSpecFollows(m, params, mac);
    case ProcessClientChangeCipherSpec => ProcessClientChangeCipherSpecFollows(m, params, mac, o);
    case ReadNextProto => ReadNextProtoFollows(m, params, mac, o);
    case ReadChannelId => ReadChannelIdFollows(m, params, mac, o);
    case ReadClientFinished => ReadClientFinishedFollows(m, params, mac, o);
    case SendServerFinished => SendServerFinishedFollows(m, params, mac, o);
    case FinishServerHandshake => FinishServerHandshakeFollows(m, params, mac);
  }

  lemma ClientFollows(m: Machine, params: Params, mac: Mac, o: Oracle)
    requires OnScript(m, params, false) && Expected(m, params, false, mac) && m.wait.WaitOk? && !m.state.Done? && !o.outcome.Fail?
    ensures Followed(m, ClientStep(m, mac, o), params, false, mac)
  {
    hide Followed, Expected, WaitOkay, Negotiated;
    match m.state
    case StartConnect => StartConnectFollows(m, params, mac, o);
    case EnterEarlyData => EnterEarlyDataFollows(m, params, mac);
    case ReadServerHello => ReadServerHelloFollows(m, params, mac, o);
    case ReadServerCertificate => ReadServerCertificateFollows(m, params, mac, o);
    case ReadCertificateStatus => ReadCertificateStatusFollows(m, params, mac, o);
    case VerifyServerCertificate => VerifyServerCertificateFollows(m, params, mac, o);
    case ReadServerKeyExchange => ReadServerKeyExchangeFollows(m, params, mac, o);
    case ReadCertificateRequest => ReadCertificateRequestFollows(m, params, mac, o);
    case ReadServerHelloDone => ReadServerHelloDoneFollows(m, params, mac, o);
    case SendClientCertificate => SendClientCertificateFollows(m, params, mac, o);
    case SendClientKeyExchange => SendClientKeyExchangeFollows(m, params, mac, o);
    case SendClientCertificateVerify => SendClientCertificateVerifyFollows(m, params, mac, o);
    case SendClientFinished => SendClientFinishedFollows(m, params, mac, o);
    case FinishFlight => FinishFlightFollows(m, params, mac, o);
    case ReadSessionTicket => ReadSessionTicketFollows(m, params, mac, o);
    case ProcessServerChangeCipherSpec => ProcessServerChangeCipherSpecFollows(m, params, mac, o);
    case ReadServerFinished => ReadServerFinishedFollows(m, params, mac, o);
    case FinishClientHandshake => FinishClientHandshakeFollows(m, params, mac);
  }

  lemma RestHeadPoint(m: Machine, params: Params, p: Point)
    requires PointOf(m) == p && !p.PEnd? && Present(p, params)
    ensures Rest(m, params) == [p] + Script(NextPoint(p, params.hello.resumed), params)
  {
    ScriptStep(p, params);
  }

  /** Taking the other peer's ChangeCipherSpec. */
  lemma CipherChangeFollows(m: Machine, params: Params, server: bool, mac: Mac, o: Oracle)
    requires OnScript(m, params, server) && Expected(m, params, server, mac) && m.wait.WaitChangeCipherSpec? && m.io.inbox != []
    ensures Followed(m, Turn(m, server, mac, o), params, server, mac)
  {
    hide Script, ServerStep, ClientStep;
    RestHeadPoint(m, params, if server then PClientCcs else PServerCcs);
  }

  /** A turn that neither flushes nor takes ChangeCipherSpec. */
  lemma TurnFollows(m: Machine, params: Params, server: bool, mac: Mac, o: Oracle)
    requires OnScript(m, params, server) && Expected(m, params, server, mac) && !o.outcome.Fail?
    requires !m.wait.WaitFlush?
    ensures Followed(m, Turn(m, server, mac, o), params, server, mac)
  {
    hide Script, ServerStep, ClientStep, Emits, Takes, ServerOk, ClientOk, Expected;
    if m.wait.WaitOk? && !m.state.Done? {
      StateSide(m, params, server);
      if server {
        ServerFollows(m, params, mac, o);
      } else {
        ClientFollows(m, params, mac, o);
      }
    } else if m.wait.WaitChangeCipherSpec? && m.io.inbox != [] {
      CipherChangeFollows(m, params, server, mac, o);
    } else {
      var after := Turn(m, server, mac, o);
      WaitResolved(m, params, server, mac, o);
      EmitsNothing(m.io, PointOf(m), PointOf(m), params, server, mac);
    }
  }

  lemma StateSide(m: Machine, params: Params, server: bool)
    requires OnScript(m, params, server) && !m.state.Done?
    ensures IsServer(m.state) == server
  {
  }

  lemma WaitResolved(m: Machine, params: Params, server: bool, mac: Mac, o: Oracle)
    requires OnScript(m, params, server) && Expected(m, params, server, mac)
    requires !m.wait.WaitFlush? && (m.wait.WaitOk? ==> m.state.Done?) && (m.wait.WaitChangeCipherSpec? ==> m.io.inbox == [])
    ensures var after := Turn(m, server, mac, o);
      OnScript(after, params, server) && after == Paused(m, after.wait) && PointOf(after) == PointOf(m)
  {
    hide Script, ServerStep, ClientStep, ServerOk, ClientOk;
    SameFlags(m, params, server, Turn(m, server, mac, o).wait);
  }

  lemma SameFlags(m: Machine, params: Params, server: bool, wait: Wait)
    requires OnScript(m, params, server)
    ensures if server then ServerOk(Paused(m, wait), params) else ClientOk(Paused(m, wait), params)
  {
    hide WaitOkay, Negotiated, ServerStage, ClientStage, IsServer;
  }

  // ---------- Both peers ----------

  datatype World = World(client: Machine, server: Machine)

  /**
    * One peer is ahead of the other: what it has sent and the other not yet taken is the next part of
    * the script, and its transcript is the other's with those messages hashed.
    */
  predicate Ahead(sender: Machine, receiver: Machine, params: Params, fromServer: bool, mac: Mac) {
    && sender.io.inbox == [] && receiver.io.flight == []
    && Sent(receiver.io.transcript, Rest(receiver, params), receiver.io.inbox + sender.io.flight,
            sender.io.transcript, Rest(sender, params), params, fromServer, mac)
  }

  predicate Agreed(w: World, params: Params, mac: Mac) {
    && OnScript(w.client, params, false) && OnScript(w.server, params, true)
    && (Ahead(w.client, w.server, params, false, mac) || Ahead(w.server, w.client, params, true, mac))
  }

  /** A turn of the peer that is ahead, with what it flushes handed to the other one. */
  lemma SenderTurn(m: Machine, other: Machine, params: Params, server: bool, mac: Mac, o: Oracle)
    requires OnScript(m, params, server) && Ahead(m, other, params, server, mac) && !o.outcome.Fail?
    ensures var after := Turn(m, server, mac, o);
      OnScript(after, params, server) && Ahead(after, Delivered(other, Flushed(m, o)), params, server, mac)
  {
    hide Script, ServerStep, ClientStep, ServerOk, ClientOk, Sent;
    var after := Turn(m, server, mac, o);
    if m.wait.WaitFlush? {
      FlushResolved(m, params, server, mac, o);
      assert other.io.inbox + m.io.flight + [] == other.io.inbox + m.io.flight;
      assert other.io.inbox + [] == other.io.inbox;
    } else {
      TurnFollows(m, params, server, mac, o);
      var more := after.io.flight[|m.io.flight|..];
      SentMore(other.io.transcript, Rest(other, params), other.io.inbox + m.io.flight, m.io.transcript, Rest(m, params),
               more, after.io.transcript, Rest(after, params), params, server, mac);
      assert other.io.inbox + m.io.flight + more == other.io.inbox + after.io.flight;
      assert other.io.inbox + [] == other.io.inbox;
    }
  }

  function Delivered(m: Machine, items: seq<Item>): Machine {
    m.(io := m.io.(inbox := m.io.inbox + items))
  }

  lemma FlushResolved(m: Machine, params: Params, server: bool, mac: Mac, o: Oracle)
    requires OnScript(m, params, server) && m.wait.WaitFlush?
    ensures var after := Turn(m, server, mac, o);
      && OnScript(after, params, server) && PointOf(after) == PointOf(m)
      && after.io.inbox == m.io.inbox && after.io.transcript == m.io.transcript
      && Flushed(m, o) + after.io.flight == m.io.flight && (after.io.flight == m.io.flight || after.io.flight == [])
  {
    hide Script, ServerStep, ClientStep, Negotiated;
    assert m.io.flight + [] == m.io.flight;
    assert [] + m.io.flight == m.io.flight;
  }

  /** Items ahead of a receiver are what it expects. */
  lemma AheadExpected(sender: Machine, receiver: Machine, params: Params, fromServer: bool, mac: Mac)
    requires Ahead(sender, receiver, params, fromServer, mac)
    ensures Expected(receiver, params, !fromServer, mac)
  {
    hide Script, PointOf, Honest;
  }

  lemma SentTail(t: seq<Message>, rest: seq<Point>, items: seq<Item>, after: seq<Message>, left: seq<Point>, params: Params, server: bool, mac: Mac)
    requires Sent(t, rest, items, after, left, params, server, mac) && items != []
    ensures rest != [] && FromServer(rest[0]) == server
    ensures Sent(Hashed(t, items[0]), rest[1..], items[1..], after, left, params, server, mac)
  {
    hide Honest, Hashed;
    assert rest[..|items|][1..] == rest[1..][..|items| - 1];
  }

  /** A turn of the peer that is behind: it takes an item, or starts to send itself. */
  lemma ReceiverTurn(m: Machine, other: Machine, params: Params, server: bool, mac: Mac, o: Oracle)
    requires OnScript(m, params, server) && Ahead(other, m, params, !server, mac) && !o.outcome.Fail?
    ensures var after := Turn(m, server, mac, o);
      && OnScript(after, params, server)
      && (Ahead(other, after, params, !server, mac) || Ahead(after, other, params, server, mac))
      && Flushed(m, o) == []
  {
    hide Script, ServerStep, ClientStep, ServerOk, ClientOk, Sent;
    var after := Turn(m, server, mac, o);
    AheadExpected(other, m, params, !server, mac);
    if m.wait.WaitFlush? {
      FlushResolved(m, params, server, mac, o);
    } else {
      TurnFollows(m, params, server, mac, o);
      var items := m.io.inbox + other.io.flight;
      if Takes(m.io, after.io, PointOf(m), params, server) && PointOf(after) == NextPoint(PointOf(m), params.hello.resumed) {
        RestHeadPoint(m, params, PointOf(m));
        assert Rest(m, params)[1..] == Rest(after, params);
        SentTail(m.io.transcript, Rest(m, params), items, other.io.transcript, Rest(other, params), params, !server, mac);
        assert items[1..] == after.io.inbox + other.io.flight;
      } else {
        StartsSending(m, after, other, params, server, mac);
      }
    }
  }

  lemma StartsSending(m: Machine, after: Machine, other: Machine, params: Params, server: bool, mac: Mac)
    requires Ahead(other, m, params, !server, mac) && Emits(m.io, after.io, PointOf(m), PointOf(after), params, server, mac)
    ensures Ahead(other, after, params, !server, mac) || Ahead(after, other, params, server, mac)
  {
    hide Script, PointOf, Honest;
    var items, more := m.io.inbox + other.io.flight, after.io.flight;
    assert after.io.flight[|m.io.flight|..] == more;
    FirstFrom(m.io.transcript, Rest(m, params), items, other.io.transcript, Rest(other, params), params, !server, mac);
    FirstFrom(m.io.transcript, Rest(m, params), more, after.io.transcript, Rest(after, params), params, server, mac);
    if items == [] {
      assert Rest(other, params) == Rest(m, params);
      assert other.io.inbox + after.io.flight == more;
    }
  }

  lemma FirstFrom(t: seq<Message>, rest: seq<Point>, items: seq<Item>, after: seq<Message>, left: seq<Point>, params: Params, server: bool, mac: Mac)
    requires Sent(t, rest, items, after, left, params, server, mac)
    ensures items != [] ==> rest != [] && FromServer(rest[0]) == server
  {
  }

  // ---------- Whole runs ----------

  datatype Event = ClientTurn(o: Oracle) | ServerTurn(o: Oracle)

  function After(w: World, e: Event, mac: Mac): World {
    match e
    case ClientTurn(o) => World(Turn(w.client, false, mac, o), Delivered(w.server, Flushed(w.client, o)))
    case ServerTurn(o) => World(Delivered(w.client, Flushed(w.server, o)), Turn(w.server, true, mac, o))
  }

  function AfterAll(w: World, events: seq<Event>, mac: Mac): World {
    if events == [] then w
    else After(AfterAll(w, events[..|events| - 1], mac), events[|events| - 1], mac)
  }

  lemma NothingDelivered(m: Machine)
    ensures Delivered(m, []) == m
  {
    assert m.io.inbox + [] == m.io.inbox;
  }

  lemma EventAgrees(w: World, e: Event, params: Params, mac: Mac)
    requires Agreed(w, params, mac) && !e.o.outcome.Fail?
    ensures Agreed(After(w, e, mac), params, mac)
  {
    hide Turn, OnScript, Ahead, Delivered, Flushed;
    NothingDelivered(w.client);
    NothingDelivered(w.server);
    match e
    case ClientTurn(o) =>
      if Ahead(w.client, w.server, params, false, mac) {
        SenderTurn(w.client, w.server, params, false, mac, o);
        OnScriptDelivered(w.server, Flushed(w.client, o), params, true);
      } else {
        ReceiverTurn(w.client, w.server, params, false, mac, o);
      }
    case ServerTurn(o) =>
      if Ahead(w.server, w.client, params, true, mac) {
        SenderTurn(w.server, w.client, params, true, mac, o);
        OnScriptDelivered(w.client, Flushed(w.server, o), params, false);
      } else {
        ReceiverTurn(w.server, w.client, params, true, mac, o);
      }
  }

  lemma OnScriptDelivered(m: Machine, items: seq<Item>, params: Params, server: bool)
    requires OnScript(m, params, server)
    ensures OnScript(Delivered(m, items), params, server)
  {
    hide Script, Negotiated;
  }

  function StartWorld(client: Config, server: Config): World {
    World(Start(client, false), Start(server, true))
  }

  lemma ServerStarts(m: Machine, config: Config, params: Params)
    requires m == Start(config, true) && params == Negotiated(config, params.clientCert)
    requires params.certRequest && config.requireCert ==> params.clientCert
    ensures OnScript(m, params, true) && PointOf(m) == PClientHello
  {
    hide Negotiated, PointOf, ServerStage, IsServer;
    ServerStates(m);
  }

  lemma ClientStarts(m: Machine, config: Config, params: Params)
    requires m == Start(config, false) && ParamsOk(params) && params.clientCert == config.hasCert
    ensures OnScript(m, params, false) && PointOf(m) == PClientHello
  {
    hide PointOf, ClientStage, IsServer, ParamsOk;
    ClientStates(m);
  }

  lemma NegotiatedOk(server: Config, clientCert: bool)
    ensures ParamsOk(Negotiated(server, clientCert)) && Negotiated(server, clientCert).clientCert == clientCert
  {
  }

  lemma StartOnScript(client: Config, server: Config)
    requires Compatible(server, client)
    ensures var params := Negotiated(server, client.hasCert);
      && OnScript(Start(client, false), params, false) && OnScript(Start(server, true), params, true)
      && PointOf(Start(client, false)) == PClientHello && PointOf(Start(server, true)) == PClientHello
  {
    hide Start, OnScript, PointOf, Negotiated, ParamsOk;
    var params := Negotiated(server, client.hasCert);
    NegotiatedOk(server, client.hasCert);
    ServerStarts(Start(server, true), server, params);
    ClientStarts(Start(client, false), client, params);
  }

  lemma StartAgrees(client: Config, server: Config, mac: Mac)
    requires Compatible(server, client)
    ensures Agreed(StartWorld(client, server), Negotiated(server, client.hasCert), mac)
  {
    hide Script, OnScript, Negotiated, PointOf, Compatible, Sent;
    StartOnScript(client, server);
    var params := Negotiated(server, client.hasCert);
    SentNone([], Script(PClientHello, params), params, false, mac);
    var none: seq<Item> := [];
    assert none + none == none;
  }

  lemma {:induction false} RunAgrees(client: Config, server: Config, events: seq<Event>, mac: Mac)
    requires Compatible(server, client) && forall e :: e in events ==> !e.o.outcome.Fail?
    ensures Agreed(AfterAll(StartWorld(client, server), events, mac), Negotiated(server, client.hasCert), mac)
  {
    hide Agreed, After, Negotiated, Compatible;
    if events == [] {
      StartAgrees(client, server, mac);
    } else {
      var n := |events| - 1;
      RunAgrees(client, server, events[..n], mac);
      EventAgrees(AfterAll(StartWorld(client, server), events[..n], mac), events[n], Negotiated(server, client.hasCert), mac);
    }
  }

  /**
    * In every schedule, with callbacks retried and flushes blocked at will, neither peer ever fails;
    * and once both are done, everything sent was taken and both hashed the same messages.
    */
  lemma NeverUnexpected(client: Config, server: Config, events: seq<Event>, mac: Mac)
    requires Compatible(server, client) && forall e :: e in events ==> !e.o.outcome.Fail?
    ensures var w := AfterAll(StartWorld(client, server), events, mac);
      && !w.client.wait.WaitError? && !w.server.wait.WaitError?
      && (w.client.state.Done? && w.server.state.Done? ==>
            w.client.io.transcript == w.server.io.transcript && w.client.io.inbox == [] && w.server.io.inbox == [])
  {
    hide AfterAll, Negotiated, Compatible, ServerOk, ClientOk;
    RunAgrees(client, server, events, mac);
    var w := AfterAll(StartWorld(client, server), events, mac);
    var params := Negotiated(server, client.hasCert);
    if Ahead(w.client, w.server, params, false, mac) {
      DoneTranscripts(w.client, w.server, params, false, mac);
    } else {
      DoneTranscripts(w.server, w.client, params, true, mac);
    }
  }

  lemma DoneRest(m: Machine, params: Params)
    ensures m.state.Done? ==> Rest(m, params) == []
  {
  }

  lemma DoneTranscripts(sender: Machine, receiver: Machine, params: Params, fromServer: bool, mac: Mac)
    requires Ahead(sender, receiver, params, fromServer, mac)
    ensures receiver.state.Done? ==> receiver.io.inbox == [] && sender.io.transcript == receiver.io.transcript
  {
    hide Rest, Transit, FromServer;
    DoneRest(receiver, params);
  }

  lemma FirstHonest(t: seq<Message>, rest: seq<Point>, items: seq<Item>, after: seq<Message>, left: seq<Point>, params: Params, server: bool, mac: Mac)
    requires Sent(t, rest, items, after, left, params, server, mac) && items != []
    ensures rest != [] && Honest(items[0], rest[0], params, mac, t)
  {
    hide Honest, FromServer, Hashed;
  }

  lemma FinishedPoint(m: Machine, params: Params, p: Point)
    requires (m.state.ReadServerFinished? && p.PServerFinished?) || (m.state.ReadClientFinished? && p.PClientFinished?)
    ensures Rest(m, params) != [] && Rest(m, params)[0] == p
  {
    hide Script;
    RestHeadPoint(m, params, p);
  }

  /** When a Finished arrives, it was computed over exactly the transcript it is checked against. */
  lemma FinishedOverSame(sender: Machine, receiver: Machine, params: Params, fromServer: bool, mac: Mac)
    requires Ahead(sender, receiver, params, fromServer, mac) && receiver.io.inbox != []
    requires receiver.state == if fromServer then ReadServerFinished else ReadClientFinished
    ensures var t := receiver.io.transcript;
      && receiver.io.inbox[0] == Msg(Finished(mac(t, fromServer)))
      && t + [Finished(mac(t, fromServer))] <= sender.io.transcript
  {
    hide AllHashed, Sent, Rest, Honest;
    var t, items := receiver.io.transcript, receiver.io.inbox + sender.io.flight;
    var p := if fromServer then PServerFinished else PClientFinished;
    FinishedPoint(receiver, params, p);
    FirstHonest(t, Rest(receiver, params), items, sender.io.transcript, Rest(sender, params), params, fromServer, mac);
    FinishedHonest(items[0], params, mac, t, fromServer);
    SentTail(t, Rest(receiver, params), items, sender.io.transcript, Rest(sender, params), params, fromServer, mac);
    SentHashes(Hashed(t, items[0]), Rest(receiver, params)[1..], items[1..], sender.io.transcript, Rest(sender, params), params, fromServer, mac);
  }

  /** The peer's Finished, when it waits to be checked, is the one that the check computes. */
  predicate FinishedMatches(receiver: Machine, sender: Machine, fromServer: bool, mac: Mac) {
    receiver.io.inbox != [] && receiver.state == (if fromServer then ReadServerFinished else ReadClientFinished) ==>
      var t := receiver.io.transcript;
      && receiver.io.inbox[0] == Msg(Finished(mac(t, fromServer)))
      && t + [Finished(mac(t, fromServer))] <= sender.io.transcript
  }

  /** In every schedule, whenever a peer has a Finished to check, both hashed the same messages before it. */
  lemma FinishedAlwaysMatches(client: Config, server: Config, events: seq<Event>, mac: Mac)
    requires Compatible(server, client) && forall e :: e in events ==> !e.o.outcome.Fail?
    ensures var w := AfterAll(StartWorld(client, server), events, mac);
      FinishedMatches(w.client, w.server, true, mac) && FinishedMatches(w.server, w.client, false, mac)
  {
    hide AfterAll, Negotiated, Compatible, OnScript, Sent;
    RunAgrees(client, server, events, mac);
    var w := AfterAll(StartWorld(client, server), events, mac);
    var params := Negotiated(server, client.hasCert);
    if Ahead(w.client, w.server, params, false, mac) {
      if w.server.io.inbox != [] && w.server.state == ReadClientFinished {
        FinishedOverSame(w.client, w.server, params, false, mac);
      }
    } else if w.client.io.inbox != [] && w.client.state == ReadServerFinished {
      FinishedOverSame(w.server, w.client, params, true, mac);
    }
  }

  lemma FinishedHonest(item: Item, params: Params, mac: Mac, t: seq<Message>, fromServer: bool)
    requires Honest(item, if fromServer then PServerFinished else PClientFinished, params, mac, t)
    ensures item == Msg(Finished(mac(t, fromServer)))
  {
  }

  lemma SentHashes(t: seq<Message>, rest: seq<Point>, items: seq<Item>, after: seq<Message>, left: seq<Point>, params: Params, server: bool, mac: Mac)
    requires Sent(t, rest, items, after, left, params, server, mac)
    ensures t <= after
  {
    hide AllHashed, Transit;
    HashedGrows(t, items);
  }

  lemma {:induction false} HashedGrows(t: seq<Message>, items: seq<Item>)
    ensures t <= AllHashed(t, items)
    decreases items
  {
    if items != [] {
      HashedGrows(Hashed(t, items[0]), items[1..]);
    }
  }

  // ---------- Neither peer gets stuck ----------

  /** Waiting for something that has not arrived, or finished. */
  predicate Blocked(m: Machine) {
    || ((m.wait.WaitMessage? || m.wait.WaitChangeCipherSpec?) && m.io.inbox == [])
    || (m.wait.WaitOk? && m.state.Done?)
  }

  lemma EventSafe(w: World, e: Event, mac: Mac)
    requires Safety.Safe(w.client, false, mac) && Safety.Safe(w.server, true, mac)
    ensures Safety.Safe(After(w, e, mac).client, false, mac) && Safety.Safe(After(w, e, mac).server, true, mac)
  {
    hide Turn, Safety.Safe, Safety.RankOf, Flushed;
    match e
    case ClientTurn(o) =>
      Safety.EventOk(w.client, Safety.Run(o), false, mac);
      Safety.EventOk(w.server, Safety.Arrive(Flushed(w.client, o)), true, mac);
    case ServerTurn(o) =>
      Safety.EventOk(w.server, Safety.Run(o), true, mac);
      Safety.EventOk(w.client, Safety.Arrive(Flushed(w.server, o)), false, mac);
  }

  lemma {:induction false} RunSafe(client: Config, server: Config, events: seq<Event>, mac: Mac)
    ensures var w := AfterAll(StartWorld(client, server), events, mac);
      Safety.Safe(w.client, false, mac) && Safety.Safe(w.server, true, mac)
  {
    hide After, Safety.Safe, Start;
    if events == [] {
      Safety.StartSafe(client, false, mac);
      Safety.StartSafe(server, true, mac);
    } else {
      var n := |events| - 1;
      RunSafe(client, server, events[..n], mac);
      EventSafe(AfterAll(StartWorld(client, server), events[..n], mac), events[n], mac);
    }
  }

  /** A peer that waits has something of the other one's left to wait for. */
  lemma WaitsForOther(m: Machine, params: Params, server: bool)
    requires OnScript(m, params, server) && (m.wait.WaitMessage? || m.wait.WaitChangeCipherSpec?)
    ensures Rest(m, params) != [] && FromServer(Rest(m, params)[0]) != server
  {
    hide Script, ServerOk, ClientOk;
    if m.wait.WaitChangeCipherSpec? {
      RestHeadPoint(m, params, if server then PClientCcs else PServerCcs);
    }
  }

  lemma BlockedTogether(sender: Machine, receiver: Machine, params: Params, fromServer: bool, mac: Mac)
    requires OnScript(sender, params, fromServer) && OnScript(receiver, params, !fromServer)
    requires Ahead(sender, receiver, params, fromServer, mac)
    requires Blocked(sender) && Blocked(receiver) && sender.io.flight == []
    ensures sender.state.Done? && receiver.state.Done?
  {
    hide Rest, OnScript, Transit, FromServer;
    DoneRest(sender, params);
    DoneRest(receiver, params);
    DoneTranscripts(sender, receiver, params, fromServer, mac);
    assert Rest(sender, params) == Rest(receiver, params);
    if !receiver.wait.WaitOk? {
      WaitsForOther(receiver, params, !fromServer);
    }
    if !sender.wait.WaitOk? {
      WaitsForOther(sender, params, fromServer);
    }
  }

  /** In no schedule do both peers wait for each other: when nothing moves any more, both are done. */
  lemma NoDeadlock(client: Config, server: Config, events: seq<Event>, mac: Mac)
    requires Compatible(server, client) && forall e :: e in events ==> !e.o.outcome.Fail?
    ensures var w := AfterAll(StartWorld(client, server), events, mac);
      Blocked(w.client) && Blocked(w.server) ==> w.client.state.Done? && w.server.state.Done?
  {
    hide AfterAll, Negotiated, Compatible, OnScript, Ahead, Safety.ServerSafe, Safety.ClientSafe;
    RunAgrees(client, server, events, mac);
    RunSafe(client, server, events, mac);
    var w := AfterAll(StartWorld(client, server), events, mac);
    var params := Negotiated(server, client.hasCert);
    if Blocked(w.client) && Blocked(w.server) {
      if Ahead(w.client, w.server, params, false, mac) {
        BlockedTogether(w.client, w.server, params, false, mac);
      } else {
        BlockedTogether(w.server, w.client, params, true, mac);
      }
    }
  }
}
