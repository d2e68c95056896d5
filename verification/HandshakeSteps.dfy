/**
  * What the states of the handshake read, send and hash, seen from outside: one table for both peers,
  * and the account of all messages over whole runs.
  */
module HandshakeSteps {
  import opened Wire
  import opened Handshake
  import opened HandshakeSafety

  datatype Kind =
    | KClientHello | KServerHello | KCertificate | KStatus | KServerKeyExchange | KCertRequest | KHelloDone
    | KClientKeyExchange | KCertVerify | KNextProto | KChannelId | KTicket | KFinished | KOther | KChangeCipherSpec

  function KindOf(item: Item): Kind {
    match item
    case ChangeCipherSpec => KChangeCipherSpec
    case Msg(msg) =>
      match msg
      case ClientHello(_) => KClientHello
      case ServerHello(_, _) => KServerHello
      case Certificate(_, _) => KCertificate
      case CertificateStatus(_) => KStatus
      case ServerKeyExchange(_) => KServerKeyExchange
      case CertificateRequest(_) => KCertRequest
      case ServerHelloDone => KHelloDone
      case ClientKeyExchange(_) => KClientKeyExchange
      case CertificateVerify(_) => KCertVerify
      case NextProto(_) => KNextProto
      case ChannelId(_) => KChannelId
      case NewSessionTicket(_, _) => KTicket
      case Finished(_) => KFinished
      case OtherMessage(_) => KOther
  }

  /** What a state wants to read: nothing, a look at a message, a message, or a message that may be absent. */
  datatype Want = Nothing | Look(kind: Kind) | Must(kind: Kind) | May(kind: Kind)

  function WantIf(cond: bool, kind: Kind): Want {
    if cond then Must(kind) else Nothing
  }

  /** The messages each state reads (section 7.3 of RFC 5246 with the extensions that were agreed). */
  function Wanted(m: Machine): Want {
    var hello := m.flags.hello;
    match m.state
    case ReadClientHello => Look(KClientHello)
    case SelectCertificate => Look(KClientHello)
    case SelectParameters => Must(KClientHello)
    case ReadClientCertificate => WantIf(m.flags.certRequest, KCertificate)
    case ReadClientKeyExchange => Must(KClientKeyExchange)
    case ReadClientCertificateVerify => WantIf(m.flags.peerKey, KCertVerify)
    case ReadNextProto => WantIf(hello.npn, KNextProto)
    case ReadChannelId => WantIf(hello.channelId, KChannelId)
    case ReadClientFinished => Must(KFinished)
    case ReadServerHello => Must(KServerHello)
    case ReadServerCertificate => WantIf(hello.certAuth, KCertificate)
    case ReadCertificateStatus => if hello.status then May(KStatus) else Nothing
    case ReadServerKeyExchange => if hello.requiresSke then Must(KServerKeyExchange) else May(KServerKeyExchange)
    case ReadCertificateRequest => if hello.certAuth then May(KCertRequest) else Nothing
    case ReadServerHelloDone => Must(KHelloDone)
    case ReadSessionTicket => WantIf(hello.ticket, KTicket)
    case ReadServerFinished => Must(KFinished)
    case _ => Nothing
  }

  function SendIf(cond: bool, kind: Kind): seq<Kind> {
    if cond then [kind] else []
  }

  /** The messages each state sends when it finishes. */
  function Sends(m: Machine): seq<Kind> {
    var hello := m.flags.hello;
    match m.state
    case SendServerHello => [KServerHello]
    case SendServerCertificate => SendIf(hello.certAuth, KCertificate) + SendIf(hello.certAuth && hello.status, KStatus)
    case SendServerKeyExchange => SendIf(m.flags.skePending, KServerKeyExchange)
    case SendServerHelloDone => SendIf(m.flags.certRequest, KCertRequest) + [KHelloDone]
    case SendServerFinished => SendIf(hello.ticket, KTicket) + [KChangeCipherSpec, KFinished]
    case StartConnect => [KClientHello]
    case SendClientCertificate => SendIf(m.flags.certRequest, KCertificate)
    case SendClientKeyExchange => [KClientKeyExchange]
    case SendClientCertificateVerify => SendIf(m.flags.certRequest && m.config.hasCert, KCertVerify)
    case SendClientFinished =>
      [KChangeCipherSpec] + SendIf(hello.npn, KNextProto) + SendIf(hello.channelId, KChannelId) + [KFinished]
    case _ => []
  }

  function Kinds(items: seq<Item>): (kinds: seq<Kind>)
    ensures |kinds| == |items|
  {
    seq(|items|, i requires 0 <= i < |items| => KindOf(items[i]))
  }

  /** The handshake messages among the items. */
  function Messages(items: seq<Item>): seq<Message> {
    if items == [] then []
    else
      var last := items[|items| - 1];
      Messages(items[..|items| - 1]) + if last.Msg? then [last.msg] else []
  }

  // ---------- One state ----------

  /** The first message waiting is of that kind. */
  predicate Waiting(m: Machine, kind: Kind) {
    m.io.inbox != [] && KindOf(m.io.inbox[0]) == kind
  }

  predicate TookOne(m: Machine, after: Machine) {
    m.io.inbox != [] && after.io.inbox == m.io.inbox[1..]
  }

  /**
    * A state takes the message it wants and no other. It waits if there is none; a wrong message is an
    * error where one must come, and stays where it may come; nothing is taken unless the state is left.
    */
  predicate ReadsAsWanted(m: Machine, after: Machine) {
    var left := after.state != m.state;
    match Wanted(m)
    case Nothing => after.io.inbox == m.io.inbox
    case Look(kind) => after.io.inbox == m.io.inbox && (left ==> Waiting(m, kind)) && (Next(m).None? ==> after == Paused(m, WaitMessage))
    case Must(kind) =>
      && (Next(m).None? ==> after == Paused(m, WaitMessage))
      && (Next(m).Some? && !Waiting(m, kind) ==> after == Paused(m, WaitError))
      && (if left then Waiting(m, kind) && TookOne(m, after) else after.io.inbox == m.io.inbox)
    case May(kind) =>
      && (Next(m).None? ==> after == Paused(m, WaitMessage))
      && (if left && Waiting(m, kind) then TookOne(m, after) else after.io.inbox == m.io.inbox)
  }

  /** What a state adds to the flight is what it stands for, and is added only if the state is left. */
  predicate SendsAsListed(m: Machine, after: Machine) {
    && m.io.flight <= after.io.flight
    && Kinds(after.io.flight[|m.io.flight|..]) == if after.state != m.state then Sends(m) else []
  }

  function TakenItems(m: Machine, after: Machine): seq<Item>
    requires TookOne(m, after) || after.io.inbox == m.io.inbox
  {
    if after.io.inbox == m.io.inbox then [] else m.io.inbox[..1]
  }

  /** Exactly the messages taken and those added are hashed, each once. */
  predicate HashesOnce(m: Machine, after: Machine) {
    && m.io.flight <= after.io.flight
    && (TookOne(m, after) || after.io.inbox == m.io.inbox)
    && after.io.transcript == m.io.transcript + Messages(TakenItems(m, after)) + Messages(after.io.flight[|m.io.flight|..])
  }

  predicate AsListed(m: Machine, after: Machine) {
    ReadsAsWanted(m, after) && SendsAsListed(m, after) && HashesOnce(m, after)
  }

  // ---------- States that read ----------

  lemma NothingAdded(m: Machine, after: Machine)
    requires after.io.flight == m.io.flight
    ensures Kinds(after.io.flight[|m.io.flight|..]) == [] && Messages(after.io.flight[|m.io.flight|..]) == []
  {
  }

  /** A state that stays as it is, or goes on without reading or sending. */
  lemma UnchangedAsListed(m: Machine, after: Machine)
    requires after.io == m.io && (after.state != m.state ==> Sends(m) == []) && ReadsAsWanted(m, after)
    ensures AsListed(m, after)
  {
    hide Sends, Wanted;
    NothingAdded(m, after);
    assert m.io.transcript + [] + [] == m.io.transcript;
  }

  /** A state that takes one message and hashes it. */
  lemma TakenAsListed(m: Machine, after: Machine)
    requires Next(m).Some? && after.io == Taken(m).io && after.state != m.state && Sends(m) == []
    requires (Wanted(m).Must? || Wanted(m).May?) && Waiting(m, Wanted(m).kind)
    ensures AsListed(m, after)
  {
    hide Sends, Wanted;
    NothingAdded(m, after);
    assert m.io.inbox[..1] == [m.io.inbox[0]];
    assert Messages(m.io.inbox[..1]) == [m.io.inbox[0].msg];
    assert m.io.transcript + [m.io.inbox[0].msg] + [] == m.io.transcript + [m.io.inbox[0].msg];
  }

  /** A message that is waiting and one that a state can take or leave. */
  lemma ReadEither(m: Machine, after: Machine)
    requires if Next(m).Some? && after.io == Taken(m).io then after.state != m.state && (Wanted(m).Must? || Wanted(m).May?) && Waiting(m, Wanted(m).kind)
             else after.io == m.io && ReadsAsWanted(m, after)
    requires Sends(m) == []
    ensures AsListed(m, after)
  {
    hide Sends, Wanted, ReadsAsWanted, Waiting, AsListed;
    if Next(m).Some? && after.io == Taken(m).io {
      TakenAsListed(m, after);
    } else {
      UnchangedAsListed(m, after);
    }
  }

  /** The states of the server that read. */
  predicate ServerReads(s: State) {
    || s.StartAccept? || s.ReadClientHello? || s.SelectCertificate? || s.SelectParameters? || s.ReadClientCertificate?
    || s.VerifyClientCertificate? || s.ReadClientKeyExchange? || s.ReadClientCertificateVerify?
    || s.ReadClientChangeCipherSpec? || s.ProcessClientChangeCipherSpec? || s.ReadNextProto? || s.ReadChannelId?
    || s.ReadClientFinished? || s.FinishServerHandshake?
  }

  lemma ServerReadsAsListed(m: Machine, mac: Mac, o: Oracle)
    requires Safe(m, true, mac) && m.wait.WaitOk? && ServerReads(m.state)
    ensures AsListed(m, ServerStep(m, mac, o))
  {
    hide FlushesFirst, FinishedAccepted, FinishedSent, AsListed;
    ReadEither(m, ServerStep(m, mac, o));
  }

  /** The states of the client that read, up to ServerHelloDone and behind it. */
  predicate ClientReadsFirst(s: State) {
    || s.EnterEarlyData? || s.ReadServerHello? || s.ReadServerCertificate? || s.ReadCertificateStatus?
    || s.VerifyServerCertificate? || s.ReadServerKeyExchange?
  }

  predicate ClientReadsLast(s: State) {
    || s.ReadCertificateRequest? || s.ReadServerHelloDone? || s.FinishFlight? || s.ReadSessionTicket?
    || s.ProcessServerChangeCipherSpec? || s.ReadServerFinished? || s.FinishClientHandshake?
  }

  lemma ClientReadsFirstAsListed(m: Machine, mac: Mac, o: Oracle)
    requires m.wait.WaitOk? && ClientReadsFirst(m.state)
    ensures AsListed(m, ClientStep(m, mac, o))
  {
    hide AsListed;
    ReadEither(m, ClientStep(m, mac, o));
  }

  lemma ClientReadsLastAsListed(m: Machine, mac: Mac, o: Oracle)
    requires m.wait.WaitOk? && ClientReadsLast(m.state)
    ensures AsListed(m, ClientStep(m, mac, o))
  {
    hide AsListed;
    ReadEither(m, ClientStep(m, mac, o));
  }

  // ---------- States that send ----------

  /** Items of those kinds were added to the flight, and the messages among them hashed. */
  predicate Adds(io: Io, after: Io, kinds: seq<Kind>) {
    && io.flight <= after.flight && after.inbox == io.inbox
    && Kinds(after.flight[|io.flight|..]) == kinds
    && after.transcript == io.transcript + Messages(after.flight[|io.flight|..])
  }

  lemma AddsNothing(io: Io)
    ensures Adds(io, io, [])
  {
  }

  lemma AddsItem(io: Io, n: Io, kinds: seq<Kind>, item: Item, after: Io)
    requires Adds(io, n, kinds)
    requires after == n.(flight := n.flight + [item], transcript := n.transcript + if item.Msg? then [item.msg] else [])
    ensures Adds(io, after, kinds + [KindOf(item)])
  {
    hide KindOf;
    var more := n.flight[|io.flight|..];
    assert after.flight[|io.flight|..] == more + [item];
    assert (more + [item])[..|more|] == more;
    assert Kinds(more + [item]) == Kinds(more) + [KindOf(item)];
    assert Messages(more + [item]) == Messages(more) + if item.Msg? then [item.msg] else [];
  }

  lemma AddsMessage(io: Io, n: Machine, kinds: seq<Kind>, msg: Message)
    requires Adds(io, n.io, kinds)
    ensures Adds(io, Added(n, msg).io, kinds + [KindOf(Msg(msg))])
  {
    hide Adds, KindOf;
    AddsItem(io, n.io, kinds, Msg(msg), Added(n, msg).io);
  }

  lemma AddsIf(io: Io, n: Machine, kinds: seq<Kind>, cond: bool, msg: Message)
    requires Adds(io, n.io, kinds)
    ensures Adds(io, AddedIf(n, cond, msg).io, kinds + SendIf(cond, KindOf(Msg(msg))))
  {
    hide Adds, KindOf;
    if cond {
      AddsMessage(io, n, kinds, msg);
    } else {
      assert kinds + [] == kinds;
    }
  }

  lemma AddsChangeCipherSpec(io: Io, n: Machine, kinds: seq<Kind>)
    requires Adds(io, n.io, kinds)
    ensures Adds(io, AddedChangeCipherSpec(n).io, kinds + [KChangeCipherSpec])
  {
    hide Adds;
    assert n.io.transcript + [] == n.io.transcript;
    AddsItem(io, n.io, kinds, ChangeCipherSpec, AddedChangeCipherSpec(n).io);
  }

  lemma AddsFinished(io: Io, n: Machine, kinds: seq<Kind>, mac: Mac, server: bool)
    requires Adds(io, n.io, kinds)
    ensures Adds(io, AddedFinished(n, mac, server).io, kinds + [KFinished])
  {
    hide Adds;
    AddsMessage(io, n.(facts := n.facts.(ownFinished := Some(n.io.transcript))), kinds, Finished(mac(n.io.transcript, server)));
  }

  lemma AddsOne(m: Machine, msg: Message)
    ensures Adds(m.io, Added(m, msg).io, [KindOf(Msg(msg))])
  {
    hide Adds, KindOf, Added;
    AddsNothing(m.io);
    AddsMessage(m.io, m, [], msg);
    assert [] + [KindOf(Msg(msg))] == [KindOf(Msg(msg))];
  }

  lemma AddsOneIf(m: Machine, cond: bool, msg: Message)
    ensures Adds(m.io, AddedIf(m, cond, msg).io, SendIf(cond, KindOf(Msg(msg))))
  {
    hide Adds, KindOf, AddedIf;
    AddsNothing(m.io);
    AddsIf(m.io, m, [], cond, msg);
    assert [] + SendIf(cond, KindOf(Msg(msg))) == SendIf(cond, KindOf(Msg(msg)));
  }

  /** A sending state that stays, or that adds its list and is left. */
  lemma SentAsListed(m: Machine, after: Machine)
    requires Wanted(m).Nothing?
    requires if after.state == m.state then after.io == m.io else Adds(m.io, after.io, Sends(m))
    ensures AsListed(m, after)
  {
    hide Sends, Wanted;
    NothingAdded(m, m);
    if after.state == m.state {
      UnchangedAsListed(m, after);
    } else {
      assert m.io.transcript + [] == m.io.transcript;
    }
  }

  lemma SendServerHelloAsListed(m: Machine, o: Oracle)
    requires m.state.SendServerHello?
    ensures AsListed(m, DoSendServerHello(m, o))
  {
    hide Adds, AsListed;
    var n := WithHello(m, ServerHelloOf(m));
    AddsOne(n, ServerHello(n.flags.hello, o.data));
    SentAsListed(m, DoSendServerHello(m, o));
  }

  lemma SendServerCertificateAsListed(m: Machine, o: Oracle)
    requires m.state.SendServerCertificate?
    ensures AsListed(m, DoSendServerCertificate(m, o))
  {
    hide Adds, AsListed, AddedIf;
    var hello := m.flags.hello;
    var n := AddedIf(m, hello.certAuth, Certificate(1 + o.data, o.data));
    AddsOneIf(m, hello.certAuth, Certificate(1 + o.data, o.data));
    AddsIf(m.io, n, SendIf(hello.certAuth, KCertificate), hello.certAuth && hello.status, CertificateStatus(o.data));
    SentAsListed(m, DoSendServerCertificate(m, o));
  }

  lemma SendServerKeyExchangeAsListed(m: Machine, o: Oracle)
    requires m.state.SendServerKeyExchange?
    ensures AsListed(m, DoSendServerKeyExchange(m, o))
  {
    hide Adds, AsListed;
    AddsNothing(m.io);
    AddsOne(m, ServerKeyExchange(o.data));
    SentAsListed(m, DoSendServerKeyExchange(m, o));
  }

  lemma SendServerHelloDoneAsListed(m: Machine, o: Oracle)
    requires m.state.SendServerHelloDone?
    ensures AsListed(m, DoSendServerHelloDone(m, o))
  {
    hide Adds, AsListed, AddedIf, Added;
    var n := AddedIf(m, m.flags.certRequest, CertificateRequest(o.data));
    AddsOneIf(m, m.flags.certRequest, CertificateRequest(o.data));
    AddsMessage(m.io, n, SendIf(m.flags.certRequest, KCertRequest), ServerHelloDone);
    SentAsListed(m, DoSendServerHelloDone(m, o));
  }

  lemma SendServerFinishedAsListed(m: Machine, mac: Mac, o: Oracle)
    requires m.state.SendServerFinished?
    ensures AsListed(m, DoSendServerFinished(m, mac, o))
  {
    hide Adds, AsListed, AddedIf, AddedChangeCipherSpec, AddedFinished;
    var ticket := SendIf(m.flags.hello.ticket, KTicket);
    var n := AddedIf(m, m.flags.hello.ticket, NewSessionTicket(o.emptyTicket, o.data));
    AddsOneIf(m, m.flags.hello.ticket, NewSessionTicket(o.emptyTicket, o.data));
    AddsChangeCipherSpec(m.io, n, ticket);
    AddsFinished(m.io, AddedChangeCipherSpec(n), ticket + [KChangeCipherSpec], mac, true);
    assert ticket + [KChangeCipherSpec] + [KFinished] == ticket + [KChangeCipherSpec, KFinished];
    SentAsListed(m, DoSendServerFinished(m, mac, o));
  }

  lemma SendClientMessageAsListed(m: Machine, mac: Mac, o: Oracle)
    requires m.wait.WaitOk?
    requires m.state.StartConnect? || m.state.SendClientCertificate? || m.state.SendClientKeyExchange? || m.state.SendClientCertificateVerify?
    ensures AsListed(m, ClientStep(m, mac, o))
  {
    hide Adds, AsListed;
    AddsNothing(m.io);
    AddsOne(m, ClientHello(o.data));
    AddsOne(m, Certificate(if m.config.hasCert then 1 + o.data else 0, o.data));
    AddsOne(m, ClientKeyExchange(o.data));
    AddsOne(m, CertificateVerify(o.data));
    SentAsListed(m, ClientStep(m, mac, o));
  }

  lemma SendClientFinishedAsListed(m: Machine, mac: Mac, o: Oracle)
    requires m.state.SendClientFinished?
    ensures AsListed(m, DoSendClientFinished(m, mac, o))
  {
    hide Adds, AsListed, AddedIf, AddedChangeCipherSpec, AddedFinished;
    var n := AddedChangeCipherSpec(m);
    var n' := AddedIf(n, m.flags.hello.npn, NextProto(o.data));
    var npn, channelId := SendIf(m.flags.hello.npn, KNextProto), SendIf(m.flags.hello.channelId, KChannelId);
    ChangeCipherSpecFlags(m);
    AddedIfFlags(n, m.flags.hello.npn, NextProto(o.data));
    AddsNothing(m.io);
    AddsChangeCipherSpec(m.io, m, []);
    assert [] + [KChangeCipherSpec] == [KChangeCipherSpec];
    AddsIf(m.io, n, [KChangeCipherSpec], m.flags.hello.npn, NextProto(o.data));
    AddsIf(m.io, n', [KChangeCipherSpec] + npn, m.flags.hello.channelId, ChannelId(o.data));
    AddsFinished(m.io, WithExtras(n, o.data), [KChangeCipherSpec] + npn + channelId, mac, false);
    SentAsListed(m, DoSendClientFinished(m, mac, o));
  }

  lemma ChangeCipherSpecFlags(m: Machine)
    ensures AddedChangeCipherSpec(m).flags == m.flags
  {
  }

  lemma AddedIfFlags(m: Machine, cond: bool, msg: Message)
    ensures AddedIf(m, cond, msg).flags == m.flags
  {
  }

  // ---------- All states, whole runs ----------

  /** Every state of either peer, whatever the other one sent, reads, sends and hashes what is listed. */
  lemma EveryStateAsListed(m: Machine, server: bool, mac: Mac, o: Oracle)
    requires Safe(m, server, mac) && m.wait.WaitOk? && !m.state.Done?
    ensures AsListed(m, Turn(m, server, mac, o))
  {
    hide AsListed, Safe, ServerStep, ClientStep;
    SafeSide(m, server, mac);
    if server {
      ServerStateAsListed(m, mac, o);
    } else {
      ClientStateAsListed(m, mac, o);
    }
  }

  lemma ServerStateAsListed(m: Machine, mac: Mac, o: Oracle)
    requires Safe(m, true, mac) && m.wait.WaitOk? && IsServer(m.state)
    ensures AsListed(m, ServerStep(m, mac, o))
  {
    hide AsListed, Safe;
    match m.state
    case SendServerHello => SendServerHelloAsListed(m, o);
    case SendServerCertificate => SendServerCertificateAsListed(m, o);
    case SendServerKeyExchange => SendServerKeyExchangeAsListed(m, o);
    case SendServerHelloDone => SendServerHelloDoneAsListed(m, o);
    case SendServerFinished => SendServerFinishedAsListed(m, mac, o);
    case _ => ServerReadsAsListed(m, mac, o);
  }

  lemma ClientStateAsListed(m: Machine, mac: Mac, o: Oracle)
    requires m.wait.WaitOk? && !IsServer(m.state) && !m.state.Done?
    ensures AsListed(m, ClientStep(m, mac, o))
  {
    hide AsListed;
    match m.state
    case StartConnect | SendClientCertificate | SendClientKeyExchange | SendClientCertificateVerify => SendClientMessageAsListed(m, mac, o);
    case SendClientFinished => SendClientFinishedAsListed(m, mac, o);
    case _ =>
      if ClientReadsFirst(m.state) {
        ClientReadsFirstAsListed(m, mac, o);
      } else {
        ClientReadsLastAsListed(m, mac, o);
      }
  }

  /** The transcript is made of the two sequences, each in its order, and of nothing else. */
  predicate Merged(t: seq<Message>, a: seq<Message>, b: seq<Message>) {
    if t == [] then a == [] && b == []
    else
      var last := t[|t| - 1];
      || (a != [] && a[|a| - 1] == last && Merged(t[..|t| - 1], a[..|a| - 1], b))
      || (b != [] && b[|b| - 1] == last && Merged(t[..|t| - 1], a, b[..|b| - 1]))
  }

  lemma {:induction false} MergedLeft(t: seq<Message>, a: seq<Message>, b: seq<Message>, more: seq<Message>)
    requires Merged(t, a, b)
    ensures Merged(t + more, a + more, b)
  {
    if more == [] {
      assert t + more == t && a + more == a;
    } else {
      var n := |more| - 1;
      MergedLeft(t, a, b, more[..n]);
      assert (t + more)[..|t + more| - 1] == t + more[..n];
      assert (a + more)[..|a + more| - 1] == a + more[..n];
    }
  }

  lemma {:induction false} MergedRight(t: seq<Message>, a: seq<Message>, b: seq<Message>, more: seq<Message>)
    requires Merged(t, a, b)
    ensures Merged(t + more, a, b + more)
  {
    if more == [] {
      assert t + more == t && b + more == b;
    } else {
      var n := |more| - 1;
      MergedRight(t, a, b, more[..n]);
      assert (t + more)[..|t + more| - 1] == t + more[..n];
      assert (b + more)[..|b + more| - 1] == b + more[..n];
    }
  }

  lemma {:induction false} MessagesConcat(a: seq<Item>, b: seq<Item>)
    ensures Messages(a + b) == Messages(a) + Messages(b)
  {
    if b == [] {
      assert a + b == a;
    } else {
      MessagesConcat(a, b[..|b| - 1]);
      assert (a + b)[..|a + b| - 1] == a + b[..|b| - 1];
    }
  }

  /**
    * What arrived is what was taken and what still waits, and the transcript is made of the messages
    * taken and of those given to the transport or still in the flight.
    */
  predicate Ledger(io: Io, arrived: seq<Item>, given: seq<Item>) {
    && |io.inbox| <= |arrived|
    && io.inbox == arrived[|arrived| - |io.inbox|..]
    && Merged(io.transcript, Messages(arrived[..|arrived| - |io.inbox|]), Messages(given + io.flight))
  }

  lemma LedgerHashes(m: Machine, after: Machine, arrived: seq<Item>, given: seq<Item>)
    requires Ledger(m.io, arrived, given) && HashesOnce(m, after)
    ensures Ledger(after.io, arrived, given)
  {
    hide Merged, Messages;
    var n := |arrived| - |m.io.inbox|;
    var taken, added := TakenItems(m, after), after.io.flight[|m.io.flight|..];
    assert arrived[..n] + taken == arrived[..n + |taken|];
    MessagesConcat(arrived[..n], taken);
    MergedLeft(m.io.transcript, Messages(arrived[..n]), Messages(given + m.io.flight), Messages(taken));
    assert given + after.io.flight == given + m.io.flight + added;
    MessagesConcat(given + m.io.flight, added);
    MergedRight(m.io.transcript + Messages(taken), Messages(arrived[..n + |taken|]), Messages(given + m.io.flight), Messages(added));
  }

  lemma LedgerArrives(io: Io, arrived: seq<Item>, given: seq<Item>, items: seq<Item>)
    requires Ledger(io, arrived, given)
    ensures Ledger(io.(inbox := io.inbox + items), arrived + items, given)
  {
    hide Merged, Messages;
    var n := |arrived| - |io.inbox|;
    assert (arrived + items)[n..] == io.inbox + items;
    assert (arrived + items)[..n] == arrived[..n];
  }

  lemma LedgerFlushes(io: Io, arrived: seq<Item>, given: seq<Item>)
    requires Ledger(io, arrived, given)
    ensures Ledger(io.(flight := []), arrived, given + io.flight)
  {
    hide Merged, Messages;
    assert given + io.flight + [] == given + io.flight;
  }

  lemma LedgerChangeCipherSpec(io: Io, arrived: seq<Item>, given: seq<Item>)
    requires Ledger(io, arrived, given) && io.inbox != [] && io.inbox[0].ChangeCipherSpec?
    ensures Ledger(io.(inbox := io.inbox[1..]), arrived, given)
  {
    hide Merged;
    var n := |arrived| - |io.inbox|;
    assert arrived[..n + 1][..n] == arrived[..n] && arrived[n] == io.inbox[0];
    assert Messages(arrived[..n + 1]) == Messages(arrived[..n]) + [] == Messages(arrived[..n]);
    assert arrived[n + 1..] == arrived[n..][1..] == io.inbox[1..];
  }

  /** What an event hands to the peer, and what it makes the peer hand to the transport. */
  function ArrivedBy(e: Event): seq<Item> {
    if e.Arrive? then e.items else []
  }

  function GivenBy(m: Machine, e: Event): seq<Item> {
    if e.Run? then Flushed(m, e.o) else []
  }

  lemma LedgerEvent(m: Machine, e: Event, server: bool, mac: Mac, arrived: seq<Item>, given: seq<Item>)
    requires Safe(m, server, mac) && Ledger(m.io, arrived, given)
    ensures Ledger(After(m, e, server, mac).io, arrived + ArrivedBy(e), given + GivenBy(m, e))
  {
    hide Safe, ServerStep, ClientStep, Ledger, ReadsAsWanted, SendsAsListed, HashesOnce;
    assert arrived + [] == arrived && given + [] == given;
    match e
    case Arrive(items) => LedgerArrives(m.io, arrived, given, items);
    case Run(o) =>
      if m.wait.WaitOk? && !m.state.Done? {
        EveryStateAsListed(m, server, mac, o);
        LedgerHashes(m, Turn(m, server, mac, o), arrived, given);
      } else if m.wait.WaitFlush? {
        LedgerFlushes(m.io, arrived, given);
      } else if m.wait.WaitChangeCipherSpec? && m.io.inbox != [] && m.io.inbox[0].ChangeCipherSpec? {
        LedgerChangeCipherSpec(m.io, arrived, given);
      }
  }

  function Arrived(events: seq<Event>): seq<Item> {
    if events == [] then [] else Arrived(events[..|events| - 1]) + ArrivedBy(events[|events| - 1])
  }

  function Given(config: Config, events: seq<Event>, server: bool, mac: Mac): seq<Item> {
    if events == [] then []
    else
      var n := |events| - 1;
      Given(config, events[..n], server, mac) + GivenBy(AfterAll(Start(config, server), events[..n], server, mac), events[n])
  }

  /**
    * Against any peer and with any retries: every message taken and every message sent is hashed exactly
    * once and in order, and nothing else is hashed.
    */
  lemma {:induction false} EachHashedOnce(config: Config, events: seq<Event>, server: bool, mac: Mac)
    ensures Ledger(AfterAll(Start(config, server), events, server, mac).io, Arrived(events), Given(config, events, server, mac))
  {
    hide Ledger, After, GivenBy, ArrivedBy, Safe;
    if events == [] {
      StartLedger(config, server);
    } else {
      var n := |events| - 1;
      EachHashedOnce(config, events[..n], server, mac);
      RunSafe(config, events[..n], server, mac);
      LedgerEvent(AfterAll(Start(config, server), events[..n], server, mac), events[n], server, mac,
                  Arrived(events[..n]), Given(config, events[..n], server, mac));
    }
  }

  lemma StartLedger(config: Config, server: bool)
    ensures Ledger(Start(config, server).io, [], [])
  {
    var none: seq<Item> := [];
    assert none + none == none;
  }
}
