/** The handshake object: its states work by assigning fields, and do what their functions say. */
module HandshakeObject {
  import opened Wire
  import opened Handshake
  import Spec = Handshake
  import Safety = HandshakeSafety
  import Steps = HandshakeSteps

  /** SSL_HANDSHAKE with the buffers around it; `sent` is what the transport was given. */
  class SslHandshake {
    const config: Config
    const server: bool
    const mac: Mac
    /** What cryptography, parsers and callbacks answer, one answer for each state run, and how many were used. */
    const answers: nat -> Oracle
    var used: nat
    var state: State
    var wait: Wait
    var hello: Hello
    var certRequest: bool
    var skePending: bool
    var peerKey: bool
    var transcript: seq<Message>
    var inbox: seq<Item>
    var flight: seq<Item>
    var sent: seq<Item>
    var readCipher: bool
    var writeCipher: bool
    var chainVerified: bool
    var signatureVerified: bool
    ghost var peerFinished: Option<seq<Message>>
    ghost var ownFinished: Option<seq<Message>>

    ghost function Now(): Machine
      reads this
    {
      Machine(config, state, wait, Flags(hello, certRequest, skePending, peerKey), Io(transcript, inbox, flight),
              Facts(readCipher, writeCipher, chainVerified, signatureVerified, peerFinished, ownFinished))
    }

    /** The state with the result of a step in place of the last wait. */
    ghost function WithWait(ret: Wait): Machine
      reads this
    {
      Paused(Now(), ret)
    }

    constructor (config: Config, server: bool, mac: Mac, answers: nat -> Oracle)
      ensures Now() == Start(config, server) && sent == []
      ensures this.server == server && this.mac == mac && this.answers == answers && used == 0
    {
      this.config, this.server, this.mac, this.answers, used := config, server, mac, answers, 0;
      state, wait := if server then StartAccept else StartConnect, WaitOk;
      hello, certRequest, skePending, peerKey := NO_HELLO, false, false, false;
      transcript, inbox, flight, sent := [], [], [], [];
      readCipher, writeCipher, chainVerified, signatureVerified := false, false, false, false;
      peerFinished, ownFinished := None, None;
    }

    // ---------- Helpers ----------

    method GetMessage() returns (msg: Option<Message>)
      ensures msg == Next(Now())
    {
      return if inbox != [] && inbox[0].Msg? then Some(inbox[0].msg) else None;
    }

    method HashMessage(msg: Message)
      modifies this`transcript
      ensures transcript == old(transcript) + [msg]
    {
      transcript := transcript + [msg];
    }

    method NextMessage()
      requires inbox != []
      modifies this`inbox
      ensures inbox == old(inbox)[1..]
    {
      inbox := inbox[1..];
    }

    /** ssl_hash_message, and next_message when the state is finished with it. */
    method TakeMessage()
      requires Next(Now()).Some?
      modifies this`transcript, this`inbox
      ensures Now() == Taken(old(Now()))
    {
      HashMessage(inbox[0].msg);
      NextMessage();
    }

    /** ssl_add_message_cbb */
    method AddMessage(msg: Message)
      modifies this`transcript, this`flight
      ensures Now() == Added(old(Now()), msg)
    {
      flight := flight + [Msg(msg)];
      transcript := transcript + [msg];
    }

    method AddMessageIf(cond: bool, msg: Message)
      modifies this`transcript, this`flight
      ensures Now() == AddedIf(old(Now()), cond, msg)
    {
      if cond {
        AddMessage(msg);
      }
    }

    /** add_change_cipher_spec and the change of the write cipher */
    method AddChangeCipherSpec()
      modifies this`flight, this`writeCipher
      ensures Now() == AddedChangeCipherSpec(old(Now()))
    {
      flight := flight + [ChangeCipherSpec];
      writeCipher := true;
    }

    /** ssl_send_finished */
    method SendFinished(fromServer: bool)
      modifies this`transcript, this`flight, this`ownFinished
      ensures Now() == AddedFinished(old(Now()), mac, fromServer)
      ensures ownFinished == Some(old(transcript)) && transcript == old(transcript) + [Finished(mac(old(transcript), fromServer))]
      ensures flight == old(flight) + [Msg(Finished(mac(old(transcript), fromServer)))]
    {
      var verifyData := mac(transcript, fromServer);
      ownFinished := Some(transcript);
      AddMessage(Finished(verifyData));
    }

    /** ssl_get_finished: the verify data is computed before the message is hashed. */
    method GetFinished(atServer: bool, o: Oracle) returns (ret: Wait)
      modifies this`transcript, this`inbox, this`peerFinished
      ensures ret == WaitOk ==>
        && old(inbox) != [] && old(inbox)[0] == Msg(Finished(mac(old(transcript), !atServer))) && !o.outcome.Fail?
        && inbox == old(inbox)[1..] && transcript == old(transcript) + [old(inbox)[0].msg] && peerFinished == Some(old(transcript))
      ensures ret != WaitOk ==> transcript == old(transcript) && inbox == old(inbox) && peerFinished == old(peerFinished)
      ensures ret == WaitMessage <==> Next(old(Now())).None?
      ensures ret in [WaitOk, WaitMessage, WaitError]
      ensures ret == WaitError <==> Next(old(Now())).Some? && (old(inbox)[0] != Msg(Finished(mac(old(transcript), !atServer))) || o.outcome.Fail?)
    {
      var msg := GetMessage();
      if msg.None? {
        return WaitMessage;
      }
      if !msg.value.Finished? || o.outcome.Fail? {
        return WaitError;
      }
      var verifyData := mac(transcript, !atServer);
      if msg.value.mac != verifyData {
        return WaitError;
      }
      peerFinished := Some(transcript);
      HashMessage(msg.value);
      NextMessage();
      return WaitOk;
    }

    // ---------- The server's states ----------

    /** The middle of do_select_parameters: resumption, tickets and the client certificate request. */
    method SelectSession()
      modifies this`hello, this`certRequest
      ensures hello == old(hello).(resumed := config.sessionFound, ticket := config.ticket)
      ensures certRequest == (!hello.resumed && config.verifyPeer && !(config.verifyIfNoChannelId && hello.channelId) && hello.certAuth)
    {
      hello := hello.(resumed := config.sessionFound, ticket := config.ticket);
      certRequest := false;
      if !hello.resumed {
        certRequest := config.verifyPeer;
        if config.verifyIfNoChannelId && hello.channelId {
          certRequest := false;
        }
        if !hello.certAuth {
          certRequest := false;
        }
      }
    }

    /** What do_send_server_hello decides before it writes the message. */
    method CompleteHello()
      modifies this`hello
      ensures hello == ServerHelloOf(old(Now()))
    {
      if hello.channelId && !config.ecdhe {
        hello := hello.(channelId := false);
      }
      if hello.resumed && !config.sessionHasHash {
        hello := hello.(channelId := false);
      }
      hello := hello.(status := config.status && hello.certAuth && !hello.resumed);
    }

    method DoStartAccept() returns (ret: Wait)
      requires state == StartAccept
      modifies this
      ensures sent == old(sent) && WithWait(ret) == Spec.DoStartAccept(old(Now()))
    {
      state := ReadClientHello;
      return WaitOk;
    }

    method DoReadClientHello(o: Oracle) returns (ret: Wait)
      requires state == ReadClientHello
      modifies this
      ensures sent == old(sent) && WithWait(ret) == Spec.DoReadClientHello(old(Now()), o)
    {
      var msg := GetMessage();
      if msg.None? {
        return WaitMessage;
      }
      if !msg.value.ClientHello? || o.outcome.Fail? {
        return WaitError;
      }
      if o.outcome.Retry? {
        return WaitCallback;
      }
      hello := hello.(npn := config.npn, channelId := config.channelId);
      state := SelectCertificate;
      return WaitOk;
    }

    method DoSelectCertificate(o: Oracle) returns (ret: Wait)
      requires state == SelectCertificate
      modifies this
      ensures sent == old(sent) && WithWait(ret) == Spec.DoSelectCertificate(old(Now()), o)
    {
      var msg := GetMessage();
      if msg.None? {
        return WaitMessage;
      }
      if o.outcome.Fail? {
        return WaitError;
      }
      if o.outcome.Retry? {
        return WaitCallback;
      }
      hello := hello.(certAuth := config.certAuth, requiresSke := config.requiresSke, psk := config.psk);
      state := SelectParameters;
      return WaitOk;
    }

    method DoSelectParameters(o: Oracle) returns (ret: Wait)
      requires state == SelectParameters
      modifies this
      ensures sent == old(sent) && WithWait(ret) == Spec.DoSelectParameters(old(Now()), o)
    {
      hide Taken;
      var msg := GetMessage();
      if msg.None? {
        return WaitMessage;
      }
      if o.outcome.Fail? {
        return WaitError;
      }
      if o.outcome.Retry? {
        return WaitCallback;
      }
      SelectSession();
      TakeMessage();
      state := SendServerHello;
      return WaitOk;
    }

    method DoSendServerHello(o: Oracle) returns (ret: Wait)
      requires state == SendServerHello
      modifies this
      ensures sent == old(sent) && WithWait(ret) == Spec.DoSendServerHello(old(Now()), o)
    {
      hide ServerHelloOf, Added;
      if o.outcome.Fail? {
        return WaitError;
      }
      CompleteHello();
      AddMessage(ServerHello(hello, o.data));
      state := if hello.resumed then SendServerFinished else SendServerCertificate;
      return WaitOk;
    }

    method DoSendServerCertificate(o: Oracle) returns (ret: Wait)
      requires state == SendServerCertificate
      modifies this
      ensures sent == old(sent) && WithWait(ret) == Spec.DoSendServerCertificate(old(Now()), o)
    {
      hide AddedIf;
      if o.outcome.Fail? {
        return WaitError;
      }
      AddMessageIf(hello.certAuth, Certificate(1 + o.data, o.data));
      AddMessageIf(hello.certAuth && hello.status, CertificateStatus(o.data));
      skePending := hello.requiresSke || (hello.psk && config.pskHint);
      state := SendServerKeyExchange;
      return WaitOk;
    }

    method DoSendServerKeyExchange(o: Oracle) returns (ret: Wait)
      requires state == SendServerKeyExchange
      modifies this
      ensures sent == old(sent) && WithWait(ret) == Spec.DoSendServerKeyExchange(old(Now()), o)
    {
      if !skePending {
        state := SendServerHelloDone;
        return WaitOk;
      }
      if o.outcome.Fail? {
        return WaitError;
      }
      if hello.certAuth && o.outcome.Retry? {
        return WaitCallback;
      }
      AddMessage(ServerKeyExchange(o.data));
      skePending := false;
      state := SendServerHelloDone;
      return WaitOk;
    }

    method DoSendServerHelloDone(o: Oracle) returns (ret: Wait)
      requires state == SendServerHelloDone
      modifies this
      ensures sent == old(sent) && WithWait(ret) == Spec.DoSendServerHelloDone(old(Now()), o)
    {
      hide AddedIf, Added;
      if o.outcome.Fail? {
        return WaitError;
      }
      AddMessageIf(certRequest, CertificateRequest(o.data));
      AddMessage(ServerHelloDone);
      state := ReadClientCertificate;
      return WaitFlush;
    }

    method DoReadClientCertificate(o: Oracle) returns (ret: Wait)
      requires state == ReadClientCertificate
      modifies this
      ensures sent == old(sent) && WithWait(ret) == Spec.DoReadClientCertificate(old(Now()), o)
    {
      hide Taken;
      if !certRequest {
        state := VerifyClientCertificate;
        return WaitOk;
      }
      var msg := GetMessage();
      if msg.None? {
        return WaitMessage;
      }
      if !msg.value.Certificate? || o.outcome.Fail? {
        return WaitError;
      }
      if msg.value.certs == 0 && config.requireCert {
        return WaitError;
      }
      TakeMessage();
      peerKey := msg.value.certs > 0;
      state := VerifyClientCertificate;
      return WaitOk;
    }

    method DoVerifyClientCertificate(o: Oracle) returns (ret: Wait)
      requires state == VerifyClientCertificate
      modifies this
      ensures sent == old(sent) && WithWait(ret) == Spec.DoVerifyClientCertificate(old(Now()), o)
    {
      if peerKey {
        if o.outcome.Fail? {
          return WaitError;
        }
        if o.outcome.Retry? {
          return WaitCallback;
        }
        chainVerified := true;
      }
      state := ReadClientKeyExchange;
      return WaitOk;
    }

    method DoReadClientKeyExchange(o: Oracle) returns (ret: Wait)
      requires state == ReadClientKeyExchange
      modifies this
      ensures sent == old(sent) && WithWait(ret) == Spec.DoReadClientKeyExchange(old(Now()), o)
    {
      hide Taken;
      var msg := GetMessage();
      if msg.None? {
        return WaitMessage;
      }
      if !msg.value.ClientKeyExchange? || o.outcome.Fail? {
        return WaitError;
      }
      if o.outcome.Retry? {
        return WaitCallback;
      }
      TakeMessage();
      state := ReadClientCertificateVerify;
      return WaitOk;
    }

    method DoReadClientCertificateVerify(o: Oracle) returns (ret: Wait)
      requires state == ReadClientCertificateVerify
      modifies this
      ensures sent == old(sent) && WithWait(ret) == Spec.DoReadClientCertificateVerify(old(Now()), o)
    {
      hide Taken;
      if !peerKey {
        state := ReadClientChangeCipherSpec;
        return WaitOk;
      }
      var msg := GetMessage();
      if msg.None? {
        return WaitMessage;
      }
      if !msg.value.CertificateVerify? || o.outcome.Fail? {
        return WaitError;
      }
      TakeMessage();
      signatureVerified := true;
      state := ReadClientChangeCipherSpec;
      return WaitOk;
    }

    method DoReadClientChangeCipherSpec() returns (ret: Wait)
      requires state == ReadClientChangeCipherSpec
      modifies this
      ensures sent == old(sent) && WithWait(ret) == Spec.DoReadClientChangeCipherSpec(old(Now()))
    {
      state := ProcessClientChangeCipherSpec;
      return WaitChangeCipherSpec;
    }

    method DoProcessClientChangeCipherSpec(o: Oracle) returns (ret: Wait)
      requires state == ProcessClientChangeCipherSpec
      modifies this
      ensures sent == old(sent) && WithWait(ret) == Spec.DoProcessClientChangeCipherSpec(old(Now()), o)
    {
      if o.outcome.Fail? {
        return WaitError;
      }
      readCipher := true;
      state := ReadNextProto;
      return WaitOk;
    }

    method DoReadNextProto(o: Oracle) returns (ret: Wait)
      requires state == ReadNextProto
      modifies this
      ensures sent == old(sent) && WithWait(ret) == Spec.DoReadNextProto(old(Now()), o)
    {
      hide Taken;
      if !hello.npn {
        state := ReadChannelId;
        return WaitOk;
      }
      var msg := GetMessage();
      if msg.None? {
        return WaitMessage;
      }
      if !msg.value.NextProto? || o.outcome.Fail? {
        return WaitError;
      }
      TakeMessage();
      state := ReadChannelId;
      return WaitOk;
    }

    method DoReadChannelId(o: Oracle) returns (ret: Wait)
      requires state == ReadChannelId
      modifies this
      ensures sent == old(sent) && WithWait(ret) == Spec.DoReadChannelId(old(Now()), o)
    {
      hide Taken;
      if !hello.channelId {
        state := ReadClientFinished;
        return WaitOk;
      }
      var msg := GetMessage();
      if msg.None? {
        return WaitMessage;
      }
      if !msg.value.ChannelId? || o.outcome.Fail? {
        return WaitError;
      }
      TakeMessage();
      state := ReadClientFinished;
      return WaitOk;
    }

    method DoReadClientFinished(o: Oracle) returns (ret: Wait)
      requires state == ReadClientFinished
      modifies this
      ensures sent == old(sent) && WithWait(ret) == Spec.DoReadClientFinished(old(Now()), mac, o)
    {
      ret := GetFinished(true, o);
      if ret != WaitOk {
        return;
      }
      state := if hello.resumed then FinishServerHandshake else SendServerFinished;
    }

    method DoSendServerFinished(o: Oracle) returns (ret: Wait)
      requires state == SendServerFinished
      modifies this
      ensures sent == old(sent) && WithWait(ret) == Spec.DoSendServerFinished(old(Now()), mac, o)
    {
      hide AddedIf, AddedChangeCipherSpec, AddedFinished;
      if o.outcome.Fail? {
        return WaitError;
      }
      AddMessageIf(hello.ticket, NewSessionTicket(o.emptyTicket, o.data));
      AddChangeCipherSpec();
      SendFinished(true);
      state := if hello.resumed then ReadClientChangeCipherSpec else FinishServerHandshake;
      return WaitFlush;
    }

    method DoFinishServerHandshake() returns (ret: Wait)
      requires state == FinishServerHandshake
      modifies this
      ensures sent == old(sent) && WithWait(ret) == Spec.DoFinishServerHandshake(old(Now()))
    {
      state := Done;
      return WaitOk;
    }

    // ---------- The client's states ----------

    method DoStartConnect(o: Oracle) returns (ret: Wait)
      requires state == StartConnect
      modifies this
      ensures sent == old(sent) && WithWait(ret) == Spec.DoStartConnect(old(Now()), o)
    {
      if o.outcome.Fail? {
        return WaitError;
      }
      AddMessage(ClientHello(o.data));
      state := EnterEarlyData;
      return WaitFlush;
    }

    method DoEnterEarlyData() returns (ret: Wait)
      requires state == EnterEarlyData
      modifies this
      ensures sent == old(sent) && WithWait(ret) == Spec.DoEnterEarlyData(old(Now()))
    {
      state := ReadServerHello;
      return WaitOk;
    }

    method DoReadServerHello(o: Oracle) returns (ret: Wait)
      requires state == ReadServerHello
      modifies this
      ensures sent == old(sent) && WithWait(ret) == Spec.DoReadServerHello(old(Now()), o)
    {
      hide Taken;
      var msg := GetMessage();
      if msg.None? {
        return WaitMessage;
      }
      if !msg.value.ServerHello? || o.outcome.Fail? {
        return WaitError;
      }
      TakeMessage();
      hello := msg.value.hello;
      state := if hello.resumed then ReadSessionTicket else ReadServerCertificate;
      return WaitOk;
    }

    method DoReadServerCertificate(o: Oracle) returns (ret: Wait)
      requires state == ReadServerCertificate
      modifies this
      ensures sent == old(sent) && WithWait(ret) == Spec.DoReadServerCertificate(old(Now()), o)
    {
      hide Taken;
      if !hello.certAuth {
        state := ReadCertificateStatus;
        return WaitOk;
      }
      var msg := GetMessage();
      if msg.None? {
        return WaitMessage;
      }
      if !msg.value.Certificate? || msg.value.certs == 0 || o.outcome.Fail? {
        return WaitError;
      }
      TakeMessage();
      state := ReadCertificateStatus;
      return WaitOk;
    }

    method DoReadCertificateStatus(o: Oracle) returns (ret: Wait)
      requires state == ReadCertificateStatus
      modifies this
      ensures sent == old(sent) && WithWait(ret) == Spec.DoReadCertificateStatus(old(Now()), o)
    {
      hide Taken;
      if !hello.status {
        state := VerifyServerCertificate;
        return WaitOk;
      }
      var msg := GetMessage();
      if msg.None? {
        return WaitMessage;
      }
      if !msg.value.CertificateStatus? {
        state := VerifyServerCertificate;
        return WaitOk;
      }
      if o.outcome.Fail? {
        return WaitError;
      }
      TakeMessage();
      state := VerifyServerCertificate;
      return WaitOk;
    }

    method DoVerifyServerCertificate(o: Oracle) returns (ret: Wait)
      requires state == VerifyServerCertificate
      modifies this
      ensures sent == old(sent) && WithWait(ret) == Spec.DoVerifyServerCertificate(old(Now()), o)
    {
      if !hello.certAuth {
        state := ReadServerKeyExchange;
        return WaitOk;
      }
      if o.outcome.Fail? {
        return WaitError;
      }
      if o.outcome.Retry? {
        return WaitCallback;
      }
      chainVerified := true;
      state := ReadServerKeyExchange;
      return WaitOk;
    }

    method DoReadServerKeyExchange(o: Oracle) returns (ret: Wait)
      requires state == ReadServerKeyExchange
      modifies this
      ensures sent == old(sent) && WithWait(ret) == Spec.DoReadServerKeyExchange(old(Now()), o)
    {
      hide Taken;
      var msg := GetMessage();
      if msg.None? {
        return WaitMessage;
      }
      if !msg.value.ServerKeyExchange? {
        if hello.requiresSke {
          return WaitError;
        }
        state := ReadCertificateRequest;
        return WaitOk;
      }
      if !(hello.requiresSke || hello.psk) || o.outcome.Fail? {
        return WaitError;
      }
      TakeMessage();
      if hello.certAuth {
        signatureVerified := true;
      }
      state := ReadCertificateRequest;
      return WaitOk;
    }

    method DoReadCertificateRequest(o: Oracle) returns (ret: Wait)
      requires state == ReadCertificateRequest
      modifies this
      ensures sent == old(sent) && WithWait(ret) == Spec.DoReadCertificateRequest(old(Now()), o)
    {
      hide Taken;
      if !hello.certAuth {
        state := ReadServerHelloDone;
        return WaitOk;
      }
      var msg := GetMessage();
      if msg.None? {
        return WaitMessage;
      }
      if msg.value.ServerHelloDone? {
        state := ReadServerHelloDone;
        return WaitOk;
      }
      if !msg.value.CertificateRequest? || o.outcome.Fail? {
        return WaitError;
      }
      TakeMessage();
      certRequest := true;
      state := ReadServerHelloDone;
      return WaitOk;
    }

    method DoReadServerHelloDone(o: Oracle) returns (ret: Wait)
      requires state == ReadServerHelloDone
      modifies this
      ensures sent == old(sent) && WithWait(ret) == Spec.DoReadServerHelloDone(old(Now()), o)
    {
      hide Taken;
      var msg := GetMessage();
      if msg.None? {
        return WaitMessage;
      }
      if !msg.value.ServerHelloDone? || o.outcome.Fail? {
        return WaitError;
      }
      TakeMessage();
      state := SendClientCertificate;
      return WaitOk;
    }

    method DoSendClientCertificate(o: Oracle) returns (ret: Wait)
      requires state == SendClientCertificate
      modifies this
      ensures sent == old(sent) && WithWait(ret) == Spec.DoSendClientCertificate(old(Now()), o)
    {
      if !certRequest {
        state := SendClientKeyExchange;
        return WaitOk;
      }
      if o.outcome.Fail? {
        return WaitError;
      }
      if o.outcome.Retry? {
        return WaitCallback;
      }
      AddMessage(Certificate(if config.hasCert then 1 + o.data else 0, o.data));
      state := SendClientKeyExchange;
      return WaitOk;
    }

    method DoSendClientKeyExchange(o: Oracle) returns (ret: Wait)
      requires state == SendClientKeyExchange
      modifies this
      ensures sent == old(sent) && WithWait(ret) == Spec.DoSendClientKeyExchange(old(Now()), o)
    {
      if o.outcome.Fail? {
        return WaitError;
      }
      AddMessage(ClientKeyExchange(o.data));
      state := SendClientCertificateVerify;
      return WaitOk;
    }

    method DoSendClientCertificateVerify(o: Oracle) returns (ret: Wait)
      requires state == SendClientCertificateVerify
      modifies this
      ensures sent == old(sent) && WithWait(ret) == Spec.DoSendClientCertificateVerify(old(Now()), o)
    {
      if !certRequest || !config.hasCert {
        state := SendClientFinished;
        return WaitOk;
      }
      if o.outcome.Fail? {
        return WaitError;
      }
      if o.outcome.Retry? {
        return WaitCallback;
      }
      AddMessage(CertificateVerify(o.data));
      state := SendClientFinished;
      return WaitOk;
    }

    method DoSendClientFinished(o: Oracle) returns (ret: Wait)
      requires state == SendClientFinished
      modifies this
      ensures sent == old(sent) && WithWait(ret) == Spec.DoSendClientFinished(old(Now()), mac, o)
    {
      hide AddedIf, AddedChangeCipherSpec, AddedFinished;
      if o.outcome.Fail? {
        return WaitError;
      }
      if hello.channelId && o.outcome.Retry? {
        return WaitCallback;
      }
      AddChangeCipherSpec();
      AddMessageIf(hello.npn, NextProto(o.data));
      AddMessageIf(hello.channelId, ChannelId(o.data));
      SendFinished(false);
      state := FinishFlight;
      return WaitFlush;
    }

    method DoFinishFlight(o: Oracle) returns (ret: Wait)
      requires state == FinishFlight
      modifies this
      ensures sent == old(sent) && WithWait(ret) == Spec.DoFinishFlight(old(Now()), o)
    {
      if hello.resumed {
        state := FinishClientHandshake;
        return WaitOk;
      }
      if o.outcome.Fail? {
        return WaitError;
      }
      state := ReadSessionTicket;
      return WaitOk;
    }

    method DoReadSessionTicket(o: Oracle) returns (ret: Wait)
      requires state == ReadSessionTicket
      modifies this
      ensures sent == old(sent) && WithWait(ret) == Spec.DoReadSessionTicket(old(Now()), o)
    {
      hide Taken;
      if !hello.ticket {
        state := ProcessServerChangeCipherSpec;
        return WaitChangeCipherSpec;
      }
      var msg := GetMessage();
      if msg.None? {
        return WaitMessage;
      }
      if !msg.value.NewSessionTicket? || o.outcome.Fail? {
        return WaitError;
      }
      TakeMessage();
      hello := hello.(ticket := !msg.value.empty);
      state := ProcessServerChangeCipherSpec;
      return WaitChangeCipherSpec;
    }

    method DoProcessServerChangeCipherSpec(o: Oracle) returns (ret: Wait)
      requires state == ProcessServerChangeCipherSpec
      modifies this
      ensures sent == old(sent) && WithWait(ret) == Spec.DoProcessServerChangeCipherSpec(old(Now()), o)
    {
      if o.outcome.Fail? {
        return WaitError;
      }
      readCipher := true;
      state := ReadServerFinished;
      return WaitOk;
    }

    method DoReadServerFinished(o: Oracle) returns (ret: Wait)
      requires state == ReadServerFinished
      modifies this
      ensures sent == old(sent) && WithWait(ret) == Spec.DoReadServerFinished(old(Now()), mac, o)
    {
      ret := GetFinished(false, o);
      if ret != WaitOk {
        return;
      }
      state := if hello.resumed then SendClientFinished else FinishClientHandshake;
    }

    method DoFinishClientHandshake() returns (ret: Wait)
      requires state == FinishClientHandshake
      modifies this
      ensures sent == old(sent) && WithWait(ret) == Spec.DoFinishClientHandshake(old(Now()))
    {
      state := Done;
      return WaitOk;
    }

    // ---------- The loops ----------

    /** One state of ssl_server_handshake: it reads, sends and hashes what is listed for it. */
    method DoServerState(o: Oracle) returns (ret: Wait)
      requires IsServer(state)
      modifies this
      ensures sent == old(sent) && WithWait(ret) == ServerStep(old(Now()), mac, o)
      ensures old(wait) == WaitOk && Safety.Safe(old(Now()), true, mac) ==> Steps.AsListed(old(Now()), WithWait(ret))
    {
      hide WithWait, Safety.Safe, Steps.AsListed;
      ghost var before := Now();
      if wait == WaitOk && Safety.Safe(before, true, mac) {
        Steps.ServerStateAsListed(before, mac, o);
      }
      match state
      case StartAccept => ret := DoStartAccept();
      case ReadClientHello => ret := DoReadClientHello(o);
      case SelectCertificate => ret := DoSelectCertificate(o);
      case SelectParameters => ret := DoSelectParameters(o);
      case SendServerHello => ret := DoSendServerHello(o);
      case SendServerCertificate => ret := DoSendServerCertificate(o);
      case SendServerKeyExchange => ret := DoSendServerKeyExchange(o);
      case SendServerHelloDone => ret := DoSendServerHelloDone(o);
      case ReadClientCertificate => ret := DoReadClientCertificate(o);
      case VerifyClientCertificate => ret := DoVerifyClientCertificate(o);
      case ReadClientKeyExchange => ret := DoReadClientKeyExchange(o);
      case ReadClientCertificateVerify => ret := DoReadClientCertificateVerify(o);
      case ReadClientChangeCipherSpec => ret := DoReadClientChangeCipherSpec();
      case ProcessClientChangeCipherSpec => ret := DoProcessClientChangeCipherSpec(o);
      case ReadNextProto => ret := DoReadNextProto(o);
      case ReadChannelId => ret := DoReadChannelId(o);
      case ReadClientFinished => ret := DoReadClientFinished(o);
      case SendServerFinished => ret := DoSendServerFinished(o);
      case FinishServerHandshake => ret := DoFinishServerHandshake();
    }

    /** One state of ssl_client_handshake, likewise. */
    method DoClientState(o: Oracle) returns (ret: Wait)
      requires !IsServer(state) && !state.Done?
      modifies this
      ensures sent == old(sent) && WithWait(ret) == ClientStep(old(Now()), mac, o)
      ensures old(wait) == WaitOk ==> Steps.AsListed(old(Now()), WithWait(ret))
    {
      hide WithWait, Steps.AsListed;
      ghost var before := Now();
      if wait == WaitOk {
        Steps.ClientStateAsListed(before, mac, o);
      }
      match state
      case StartConnect => ret := DoStartConnect(o);
      case EnterEarlyData => ret := DoEnterEarlyData();
      case ReadServerHello => ret := DoReadServerHello(o);
      case ReadServerCertificate => ret := DoReadServerCertificate(o);
      case ReadCertificateStatus => ret := DoReadCertificateStatus(o);
      case VerifyServerCertificate => ret := DoVerifyServerCertificate(o);
      case ReadServerKeyExchange => ret := DoReadServerKeyExchange(o);
      case ReadCertificateRequest => ret := DoReadCertificateRequest(o);
      case ReadServerHelloDone => ret := DoReadServerHelloDone(o);
      case SendClientCertificate => ret := DoSendClientCertificate(o);
      case SendClientKeyExchange => ret := DoSendClientKeyExchange(o);
      case SendClientCertificateVerify => ret := DoSendClientCertificateVerify(o);
      case SendClientFinished => ret := DoSendClientFinished(o);
      case FinishFlight => ret := DoFinishFlight(o);
      case ReadSessionTicket => ret := DoReadSessionTicket(o);
      case ProcessServerChangeCipherSpec => ret := DoProcessServerChangeCipherSpec(o);
      case ReadServerFinished => ret := DoReadServerFinished(o);
      case FinishClientHandshake => ret := DoFinishClientHandshake();
    }

    /** One turn of the dispatch loops. */
    method RunState(o: Oracle) returns (ret: Wait)
      requires wait == WaitOk && state != Done && Safety.Safe(Now(), server, mac)
      modifies this
      ensures sent == old(sent) && WithWait(ret) == Turn(old(Now()), server, mac, o)
      ensures Safety.Safe(WithWait(ret), server, mac)
      ensures ret == WaitOk ==> Safety.RankOf(WithWait(ret)) < old(Safety.RankOf(Now()))
    {
      hide ServerStep, ClientStep, Safety.Safe, Safety.Rank;
      ghost var before := Now();
      Safety.SafeSide(before, server, mac);
      Safety.EventOk(before, Safety.Run(o), server, mac);
      Later(before, server, mac, o);
      if server {
        ret := DoServerState(o);
      } else {
        ret := DoClientState(o);
      }
    }

    /** ssl_server_handshake and ssl_client_handshake: states until one has to wait, or all are done. */
    method Handshake() returns (ret: Wait, ghost os: seq<Oracle>)
      requires wait == WaitOk && Safety.Safe(Now(), server, mac)
      modifies this
      ensures sent == old(sent)
      ensures WithWait(ret) == Turns(old(Now()), server, mac, os) && Safety.Safe(WithWait(ret), server, mac)
      ensures ret == WaitOk ==> state.Done?
      ensures Answered(answers, old(used), used, os)
    {
      hide Turn, Safety.Safe, Safety.RankOf;
      os := [];
      ret := WaitOk;
      var count := used;
      while state != Done
        invariant wait == WaitOk && ret == WaitOk && sent == old(sent) && Answered(answers, old(used), count, os)
        invariant Now() == Turns(old(Now()), server, mac, os) && Safety.Safe(Now(), server, mac)
        decreases Safety.RankOf(Now())
      {
        var o := answers(count);
        count := count + 1;
        ret := RunState(o);
        TurnsAdd(old(Now()), server, mac, os, o);
        os := os + [o];
        wait := WaitOk;
        if ret != WaitOk {
          used := count;
          return;
        }
      }
      used := count;
    }

    /** The first cases of the switch of ssl_run_handshake; `resolved` when it goes on to the machine. */
    method ResolveRead() returns (resolved: bool)
      requires wait == WaitMessage || wait == WaitChangeCipherSpec
      modifies this`wait, this`inbox
      ensures Now() == Turn(old(Now()), server, mac, RESOLVE)
      ensures resolved <==> wait == WaitOk
    {
      hide ServerStep, ClientStep;
      if inbox == [] {
        return false;
      }
      if wait == WaitMessage {
        wait := if inbox[0].Msg? then WaitOk else WaitError;
      } else if inbox[0].ChangeCipherSpec? {
        inbox := inbox[1..];
        wait := WaitOk;
      } else {
        wait := WaitError;
      }
      return wait == WaitOk;
    }

    /**
      * The switch of ssl_run_handshake: what the handshake waits for is resolved, or the caller told.
      * `flushed` is what flushing the flight returns.
      */
    method Resolve(flushed: int) returns (ret: Option<int>)
      modifies this`wait, this`inbox, this`flight, this`sent
      ensures Now() == Resolved(old(Now()), server, mac, flushed)
      ensures ret == if Resolves(old(Now()), flushed) then None else Some(if old(wait) == WaitFlush then flushed else -1)
      ensures if old(wait) == WaitFlush && ret.None? then flight == [] && sent == old(sent) + old(flight)
              else sent == old(sent) && flight == old(flight)
    {
      hide ServerStep, ClientStep;
      if wait == WaitError {
        return Some(-1);
      } else if wait == WaitFlush {
        if flushed <= 0 {
          return Some(flushed);
        }
        sent := sent + flight;
        flight := [];
        wait := WaitOk;
      } else if wait == WaitMessage || wait == WaitChangeCipherSpec {
        var resolved := ResolveRead();
        if !resolved {
          return Some(-1);
        }
      } else if wait == WaitCallback {
        wait := WaitOk;
        return Some(-1);
      }
      return None;
    }

    /**
      * One turn of the loop in ssl_run_handshake. The states run only if what the handshake waits for is
      * there; None means that the loop goes around again.
      */
    method Round(flushed: int) returns (ret: Option<int>, ghost os: seq<Oracle>)
      requires Safety.Safe(Now(), server, mac)
      modifies this
      ensures Now() == Turns(Resolved(old(Now()), server, mac, flushed), server, mac, os) && Safety.Safe(Now(), server, mac)
      ensures Answered(answers, old(used), used, os)
      ensures !Resolves(old(Now()), flushed) ==> os == [] && ret == Some(if old(wait) == WaitFlush then flushed else -1)
      ensures Resolves(old(Now()), flushed) ==>
        ret == if wait == WaitOk then Some(1) else if wait == WaitError then Some(-1) else None
      ensures Resolves(old(Now()), flushed) && wait == WaitOk ==> state.Done?
      ensures sent == if old(wait) == WaitFlush && flushed > 0 then old(sent) + old(flight) else old(sent)
    {
      hide Turn, Safety.Safe;
      ghost var before := Now();
      ret := Resolve(flushed);
      os := [];
      ghost var middle := Now();
      ResolvedSafe(before, server, mac, flushed);
      if ret.Some? {
        return;
      }
      ResolvedOk(before, server, mac, flushed);
      var waitNow;
      waitNow, os := Handshake();
      wait := waitNow;
      assert Now() == Turns(middle, server, mac, os);
      if waitNow == WaitError {
        return Some(-1), os;
      }
      if waitNow == WaitOk {
        return Some(1), os;
      }
      return None, os;
    }
  }

  /** The states that were run used up those answers, in order. */
  ghost predicate Answered(answers: nat -> Oracle, before: nat, after: nat, os: seq<Oracle>) {
    before + |os| == after && forall i :: 0 <= i < |os| ==> os[i] == answers(before + i)
  }

  /** Whether the states are run: what the handshake waits for is there. */
  predicate Resolves(m: Machine, flushed: int) {
    match m.wait
    case WaitOk => true
    case WaitFlush => flushed > 0
    case WaitMessage => m.io.inbox != [] && m.io.inbox[0].Msg?
    case WaitChangeCipherSpec => m.io.inbox != [] && m.io.inbox[0].ChangeCipherSpec?
    case WaitCallback => false
    case WaitError => false
  }

  /** A failed flush and an error leave everything as it is. */
  function Resolved(m: Machine, server: bool, mac: Mac, flushed: int): Machine {
    if m.wait.WaitOk? || (m.wait.WaitFlush? && flushed <= 0) then m else Turn(m, server, mac, RESOLVE)
  }

  lemma ResolvedOk(m: Machine, server: bool, mac: Mac, flushed: int)
    requires Resolves(m, flushed)
    ensures Resolved(m, server, mac, flushed).wait.WaitOk?
  {
  }

  lemma ResolvedSafe(m: Machine, server: bool, mac: Mac, flushed: int)
    requires Safety.Safe(m, server, mac)
    ensures Safety.Safe(Resolved(m, server, mac, flushed), server, mac)
  {
    hide Turn, Safety.Safe;
    Safety.EventOk(m, Safety.Run(RESOLVE), server, mac);
  }

  const RESOLVE := Oracle(Proceed, 0, false)

  /** What a sequence of turns does. */
  function Turns(m: Machine, server: bool, mac: Mac, os: seq<Oracle>): Machine {
    if os == [] then m else Turn(Turns(m, server, mac, os[..|os| - 1]), server, mac, os[|os| - 1])
  }

  lemma TurnsAdd(m: Machine, server: bool, mac: Mac, os: seq<Oracle>, o: Oracle)
    ensures Turns(m, server, mac, os + [o]) == Turn(Turns(m, server, mac, os), server, mac, o)
  {
    assert (os + [o])[..|os|] == os;
  }

  /** A state that finishes is never entered again. */
  lemma Later(m: Machine, server: bool, mac: Mac, o: Oracle)
    requires Safety.Safe(m, server, mac) && m.wait.WaitOk? && !m.state.Done?
    ensures Turn(m, server, mac, o).wait.WaitOk? ==> Safety.RankOf(Turn(m, server, mac, o)) < Safety.RankOf(m)
  {
    hide ServerStep, ClientStep, Safety.Safe, Safety.Rank;
    Safety.SafeSide(m, server, mac);
    if server {
      Safety.ServerStepIsOk(m, mac, o);
    } else {
      Safety.ClientStepIsOk(m, mac, o);
    }
  }
}
