/** The server handshake of TLS 1.2 and below, as a state machine against an arbitrary client. */
module Server {
  import opened Bits
  import opened Handshake
  import opened ServerCourse

  class ServerHandshake {
    const conn: Connection
    const cfg: Config
    var state: State
    var wait: Wait
    var resumed: bool
    var tls13: bool
    var ssl3: bool
    var cipher: Cipher
    var keyShare: bool
    var certRequest: bool
    var peerKey: bool
    var serverParams: bool
    var channelId: bool
    var ticketExpected: bool
    var statusExpected: bool
    // The ClientHello, once it was read, and what the ServerHello said.
    ghost var hello: Message
    ghost var plan: Plan

    ghost predicate Valid()
      reads this, conn
    {
      Sound(wait)
    }

    /** The handshake is on course, or there is a reason for the error. */
    ghost predicate Sound(w: Wait)
      reads this, conn
    {
      if w.Error? then Broken() else OnCourse(w) && Held()
    }

    ghost function Look(): View
      reads this, conn`log
    {
      At(state, conn.log)
    }

    /** The same fields in this state, with this record. */
    ghost function At(s: State, log: seq<Event>): View
      reads this`resumed, this`tls13, this`ssl3, this`cipher, this`keyShare, this`certRequest, this`peerKey,
            this`serverParams, this`channelId, this`ticketExpected, this`statusExpected
    {
      View(s, resumed, tls13, ssl3, cipher, keyShare, certRequest, peerKey, serverParams, channelId, ticketExpected,
           statusExpected, log)
    }

    /** Nothing has failed, and the record is that of a handshake that came to this state. */
    ghost predicate OnCourse(w: Wait)
      reads this, conn`log, conn`failed, conn`chainOk, conn`signatureOk, conn`ccsSeen, conn`readSwitched, conn`finishedOk
    {
      conn.Valid() && !conn.failed && Course(cfg, hello, plan, Look(), w)
    }

    /** The ClientHello stays the current message until all parameters are chosen. */
    ghost predicate Held()
      reads this, conn`current
    {
      state.SelectCertificate? || state.SelectParameters? ==> conn.current == Some(hello)
    }

    /** A step of the handshake's own failed, or the message that came does not fit. */
    ghost predicate Broken()
      reads this, conn
    {
      && conn.Valid() && state != Done
      && (|| conn.failed || tls13
          || (state == ReadClientKeyExchange && !Exchanges())
          || (conn.current.Some? && !Fits(cfg, hello, plan, peerKey, state, conn.current.value)))
    }

    /** Only a CertificateVerify depends on whether there is a certificate. */
    lemma FitsAnyway(s: State, m: Message)
      ensures s != ReadClientCertificateVerify ==> (Fits(cfg, hello, plan, peerKey, s, m) <==> Fits(cfg, hello, plan, false, s, m))
    {}

    predicate Exchanges()
      reads this`cipher
    {
      cipher.kRsa || cipher.kEcdhe || cipher.kPsk
    }

    /** A full handshake in which the client gave a certificate. */
    predicate VerifiedPeer()
      reads this`resumed, this`tls13, this`peerKey
    {
      !resumed && !tls13 && peerKey
    }

    /** The flags that stand for events. */
    lemma Flags()
      ensures conn.Valid() ==>
                && (conn.chainOk <==> ChainVerified in conn.log) && (conn.signatureOk <==> SignatureVerified in conn.log)
                && (conn.ccsSeen <==> CcsReceived in conn.log) && (conn.readSwitched <==> ReadSwitched in conn.log)
                && (conn.finishedOk <==> FinishedMatched in conn.log)
    {}

    /** The record has only grown, a wait for a message means that none is there, and a wait for a callback that it
        asked to be called again. */
    twostate predicate Goes(r: Wait)
      reads this, conn
    {
      && old(conn.log) <= conn.log && old(conn.later) <= conn.later
      && (r.AwaitMessage? ==> tls13 || conn.current.None?)
      && (r.Callback? ==> tls13 || conn.later > old(conn.later))
    }

    constructor (cfg: Config)
      ensures Valid() && fresh(conn) && state == StartAccept && conn.log == [] && this.cfg == cfg
    {
      conn := new Connection();
      this.cfg := cfg;
      state, wait, resumed, tls13, ssl3 := StartAccept, Ok, false, false, false;
      cipher := Cipher(false, false, false, false, false);
      keyShare, certRequest, peerKey, serverParams := false, false, false, false;
      channelId, ticketExpected, statusExpected := cfg.channelId, false, false;
      hello, plan := *, *;
    }

    /** do_start_accept. */
    method DoStartAccept() returns (r: Wait)
      requires state == StartAccept && Sound(Ok)
      modifies this, conn
      ensures Sound(r) && Goes(r) && wait == old(wait) && (r.Ok?)
      ensures r.Ok? ==> Rank(state, resumed) < Rank(StartAccept, old(resumed))
      ensures r.Ok? && state == ReadClientHello
    {
      hide AllJustified, Connection.Valid, Course, Fits;
      assert Course(cfg, hello, plan, Look().(state := ReadClientHello), Ok) && !resumed by {
        FromStart(cfg, hello, plan, Look());
        KnowsBefore(cfg, hello, plan, Look());
      }
      state := ReadClientHello;
      return Ok;
    }

    /** The early callback, which may hold the handshake or refuse it. */
    method AskEarly() returns (r: Wait)
      requires state == ReadClientHello && OnCourse(Ok)
      modifies conn`failed, conn`later
      ensures (if r.Error? then Broken() else OnCourse(r)) && (r.Ok? || r.Callback? || r.Error?)
      ensures conn.later == old(conn.later) + if r.Callback? then 1 else 0
    {
      hide AllJustified, Connection.Valid, Course, Fits;
      var answer := conn.Ask();
      assert OnCourse(Ok) || answer.No?;
      assert OnCourse(Ok) ==> OnCourse(Callback) by { AnyWait(cfg, hello, plan, Look(), Ok, Callback); }
      r := if answer.No? then Error else if answer.Later? then Callback else Ok;
    }

    /** The current message is the ClientHello. */
    method OnClientHello(m: Message) returns (r: Wait)
      requires state == ReadClientHello && OnCourse(Ok) && conn.current == Some(m)
      modifies this`state, this`ssl3, this`hello, conn`failed, conn`later
      ensures (if r.Error? then Broken() else OnCourse(r)) && (r.Ok? || r.Callback? || r.Error?)
      ensures conn.later == old(conn.later) + if r.Callback? then 1 else 0
      ensures state == (if r.Ok? then SelectCertificate else ReadClientHello)
      ensures r.Ok? ==> hello == m && m.kind == 1 && Parses in m.passes
    {
      hide AllJustified, Connection.Valid, Course;
      if m.kind != MT_CLIENT_HELLO || Parses !in m.passes { return Error; }
      r := AskEarly();
      if !r.Ok? { return; }
      if Supported !in m.passes { return Error; }
      ssl3, state, hello := m.hello.ssl3, SelectCertificate, m;
      assert OnCourse(Ok) by { AfterClientHello(cfg, old(hello), plan, old(Look()), m); }
    }

    /** do_read_client_hello. */
    method DoReadClientHello() returns (r: Wait)
      requires state == ReadClientHello && Sound(Ok)
      modifies this, conn
      ensures Sound(r) && Goes(r) && wait == old(wait) && (r.Ok? || r.AwaitMessage? || r.Callback? || r.Error?)
      ensures r.Ok? ==> Rank(state, resumed) < Rank(ReadClientHello, old(resumed))
      ensures state == (if r.Ok? then SelectCertificate else ReadClientHello)
      ensures r.Ok? ==> conn.current == Some(hello) && hello.kind == 1 && Parses in hello.passes
    {
      hide AllJustified, Connection.Valid, Course, Fits;
      var m := conn.GetMessage();
      if m.None? {
        assert OnCourse(AwaitMessage) by { AnyWait(cfg, hello, plan, Look(), Ok, AwaitMessage); }
        return AwaitMessage;
      }
      r := OnClientHello(m.value);
    }

    /** The version of a ClientHello, once the certificate is settled, and the cipher (module CipherChoice). */
    method ChooseVersion(m: Message) returns (ok: bool)
      requires state == SelectCertificate && OnCourse(Ok) && m == hello
      modifies this`state, this`tls13, this`cipher, conn`log, conn`failed
      ensures conn.Valid() && old(conn.log) <= conn.log && conn.later == old(conn.later)
      ensures ok ==> OnCourse(Ok)
      ensures !ok ==> conn.failed || !Fits(cfg, hello, plan, false, SelectCertificate, m)
      ensures state == if ok then if tls13 then Tls13 else SelectParameters else SelectCertificate
      ensures ok ==> tls13 == m.hello.tls13 && (!tls13 ==> cipher == m.hello.cipher)
    {
      hide AllJustified, Connection.Valid, Course, Fits;
      assert !tls13 by { KnowsBefore(cfg, hello, plan, Look()); }
      ok := conn.Try(Selected);
      if ok {
        if m.hello.tls13 {
          tls13, state := true, Tls13;
          assert OnCourse(Ok) by { ToTls13(cfg, hello, plan, old(Look()), conn.log); }
        } else {
          ok := UseCipher(m, old(conn.log));
        }
      }
    }

    /** The cipher of a ClientHello below TLS 1.3. */
    method UseCipher(m: Message, ghost before: seq<Event>) returns (ok: bool)
      requires Course(cfg, hello, plan, At(SelectCertificate, before), Ok) && state == SelectCertificate
      requires conn.Valid() && !conn.failed && conn.log == before + [Passed(Selected)] && m == hello && !m.hello.tls13
      modifies this`state, this`cipher
      ensures if ok then OnCourse(Ok) else !Fits(cfg, hello, plan, false, SelectCertificate, m)
      ensures state == if ok then SelectParameters else SelectCertificate
      ensures ok ==> cipher == m.hello.cipher
    {
      hide AllJustified, Connection.Valid, Course;
      ok := Allowed in m.passes;
      if ok {
        cipher, state := m.hello.cipher, SelectParameters;
        assert OnCourse(Ok) by { AfterSelected(cfg, hello, plan, old(At(SelectCertificate, before))); }
      }
    }

    /** do_select_certificate, with the choice of cipher of module CipherChoice. */
    method DoSelectCertificate() returns (r: Wait)
      requires state == SelectCertificate && Sound(Ok)
      modifies this, conn
      ensures Sound(r) && Goes(r) && wait == old(wait) && (r.Ok? || r.Callback? || r.Error?)
      ensures r.Ok? ==> Rank(state, resumed) < Rank(SelectCertificate, old(resumed))
      ensures state == (if !r.Ok? then SelectCertificate else if tls13 then Tls13 else SelectParameters)
      ensures r.Ok? ==> tls13 == hello.hello.tls13 && (!tls13 ==> cipher == hello.hello.cipher)
    {
      hide AllJustified, Connection.Valid, Course, Fits;
      assert !resumed && !tls13 by { KnowsBefore(cfg, hello, plan, Look()); }
      var m := conn.GetMessage();
      if m.None? { assert false; }
      var answer := conn.Ask();
      if answer.No? { return Error; }
      if answer.Later? {
        assert OnCourse(Callback) by { AnyWait(cfg, hello, plan, Look(), Ok, Callback); }
        return Callback;
      }
      var chosen := ChooseVersion(m.value);
      FitsAnyway(SelectCertificate, m.value);
      return if chosen then Ok else Error;
    }

    /** do_tls13. */
    method DoTls13() returns (r: Wait)
      requires state == Tls13 && Sound(Ok)
      modifies this, conn
      ensures Sound(r) && Goes(r) && wait == old(wait)
      ensures r.Ok? ==> Rank(state, resumed) < Rank(Tls13, old(resumed))
      ensures state == (if r.Ok? then FinishServerHandshake else Tls13)
    {
      hide AllJustified, Connection.Valid;
      r := *;
      if r.Ok? { state := FinishServerHandshake; }
    }

    /** A certificate is asked for if the server is set up for it, unless there is a channel ID; only a full handshake
        with a certificate-based cipher asks. */
    method DecideRequest()
      modifies this`certRequest
      ensures certRequest && !old(certRequest) ==> cipher.certAuth && !resumed
      ensures !resumed && channelId == cfg.channelId ==> certRequest == Requests(cfg, resumed, cipher)
      ensures resumed ==> certRequest == old(certRequest)
    {
      if !resumed {
        certRequest := cfg.verifyPeer;
        if cfg.unlessChannelId && channelId { certRequest := false; }
        if !cipher.certAuth { certRequest := false; }
      }
    }

    /** The session is resumed, or there is a new one. */
    method SettleSession(m: Message) returns (ok: bool)
      requires conn.Valid() && !resumed && !conn.failed
      modifies this`resumed, this`ticketExpected, this`statusExpected, conn`log, conn`failed
      ensures conn.Valid() && old(conn.log) <= conn.log && (ok ==> !conn.failed && resumed == m.hello.sameId)
      ensures ok ==> m.hello.sameId ==> Consistent in m.passes
      ensures ok ==> conn.log == old(conn.log) + if resumed then [] else [Passed(NewSession)]
      ensures !ok ==> conn.failed || (m.hello.sameId && Consistent !in m.passes)
    {
      hide AllJustified, Connection.Valid;
      ok := m.hello.sameId ==> Consistent in m.passes;
      if ok {
        resumed := m.hello.sameId;
        ticketExpected := conn.Choose();
        statusExpected := conn.Choose();
        if !resumed { ok := conn.Try(NewSession); }
      }
    }

    /** The ClientHello is admitted, its extensions are negotiated, and it is hashed and taken. */
    method TakeClientHello(m: Message) returns (ok: bool)
      requires conn.Valid() && conn.current == Some(m) && !conn.failed
      modifies this`certRequest, conn`log, conn`failed, conn`current
      ensures conn.Valid() && old(conn.log) <= conn.log && (ok ==> !conn.failed && Extensions in m.passes)
      ensures ok ==> conn.log == old(conn.log) + [Passed(Admit), Hashed(m), Got(m)]
      ensures ok && !resumed && channelId == cfg.channelId ==> certRequest == Requests(cfg, resumed, cipher)
      ensures certRequest && !old(certRequest) ==> cipher.certAuth && !resumed
      ensures resumed ==> certRequest == old(certRequest)
      ensures !ok ==> conn.current == Some(m) && (conn.failed || Extensions !in m.passes)
    {
      hide AllJustified, Connection.Valid;
      hide Requests;
      ok := conn.Try(Admit);
      if ok {
        DecideRequest();
        ok := Extensions in m.passes;
      }
      if ok { ok := conn.HashMessage(); }
      if ok { conn.NextMessage(); }
    }

    /** The session, then the rest of the ClientHello. */
    method SettleHello(m: Message) returns (ok: bool)
      requires conn.Valid() && conn.current == Some(m) && !conn.failed && !resumed && !certRequest
               && channelId == cfg.channelId
      modifies this`resumed, this`certRequest, this`ticketExpected, this`statusExpected, conn`log, conn`failed, conn`current
      ensures conn.Valid() && old(conn.log) <= conn.log
      ensures ok ==> !conn.failed && Fits(cfg, m, plan, false, SelectParameters, m)
      ensures ok ==> resumed == m.hello.sameId && certRequest == Requests(cfg, resumed, cipher)
      ensures ok ==> conn.log == old(conn.log) + (if resumed then [] else [Passed(NewSession)]) + [Passed(Admit), Hashed(m), Got(m)]
      ensures !ok ==> conn.current == Some(m) && (conn.failed || !Fits(cfg, m, plan, false, SelectParameters, m))
      ensures certRequest ==> cipher.certAuth && !resumed
    {
      hide AllJustified, Connection.Valid;
      ok := SettleSession(m);
      if ok { ok := TakeClientHello(m); }
    }

    /** The parameters of the handshake. */
    method ChooseParameters(m: Message) returns (ok: bool)
      requires state == SelectParameters && OnCourse(Ok) && conn.current == Some(m) && m == hello
      modifies this`state, this`resumed, this`certRequest, this`ticketExpected, this`statusExpected, conn`log,
               conn`failed, conn`current
      ensures conn.Valid() && old(conn.log) <= conn.log && conn.later == old(conn.later)
      ensures ok ==> OnCourse(Ok)
      ensures !ok ==> conn.current == Some(m) && (conn.failed || !Fits(cfg, m, plan, false, SelectParameters, m))
      ensures state == if ok then SendServerHello else SelectParameters
      ensures certRequest && !old(certRequest) ==> cipher.certAuth && !resumed
    {
      hide AllJustified, Connection.Valid, Course, Requests, Fits;
      assert !resumed && !certRequest && channelId == cfg.channelId && cipher == m.hello.cipher by {
        KnowsBefore(cfg, hello, plan, Look());
      }
      ok := SettleHello(m);
      if ok {
        state := SendServerHello;
        assert OnCourse(Ok) by { AfterParameters(cfg, hello, plan, old(Look()), ticketExpected, statusExpected); }
      }
    }

    /** do_select_parameters. */
    method DoSelectParameters() returns (r: Wait)
      requires state == SelectParameters && Sound(Ok)
      modifies this, conn
      ensures Sound(r) && Goes(r) && wait == old(wait) && (r.Ok? || r.Callback? || r.Error?)
      ensures r.Ok? ==> Rank(state, resumed) < Rank(SelectParameters, old(resumed))
      ensures certRequest && !old(certRequest) ==> cipher.certAuth && !resumed
      ensures state == (if r.Ok? then SendServerHello else SelectParameters)
    {
      hide AllJustified, Connection.Valid, Course, Fits;
      assert !resumed && !tls13 && !certRequest by { KnowsBefore(cfg, hello, plan, Look()); }
      var m := conn.GetMessage();
      if m.None? { assert false; }
      var answer := conn.Ask();
      if answer.No? { return Error; }
      if answer.Later? {
        assert OnCourse(Callback) by { AnyWait(cfg, hello, plan, Look(), Ok, Callback); }
        return Callback;
      }
      var chosen := ChooseParameters(m.value);
      FitsAnyway(SelectParameters, m.value);
      return if chosen then Ok else Error;
    }

    /** Channel IDs go with ephemeral keys, and with a resumption only if the hashes of the first handshake were kept. */
    method SettleChannelId()
      requires state == SendServerHello && OnCourse(Ok)
      modifies this`channelId
      ensures OnCourse(Ok) && MayChannelId(cfg, resumed, cipher, channelId)
      ensures channelId ==> old(channelId) && cipher.kEcdhe
    {
      hide AllJustified, Connection.Valid, Course;
      assert MayChannelId(cfg, resumed, cipher, channelId) by { KnowsBefore(cfg, hello, plan, Look()); }
      var recorded := conn.Choose();
      channelId := channelId && cipher.kEcdhe && (recorded || !resumed);
      assert OnCourse(Ok) by { AnyChannelId(cfg, hello, plan, old(Look()), channelId); }
    }

    /** The ServerHello, with what was chosen. */
    method Greet() returns (ok: bool)
      requires state == SendServerHello && OnCourse(Ok)
      requires MayChannelId(cfg, resumed, cipher, channelId) && (channelId ==> cipher.kEcdhe)
      modifies this`state, this`plan, conn`log, conn`failed
      ensures (if ok then OnCourse(Ok) else Broken()) && old(conn.log) <= conn.log
      ensures state == if !ok then SendServerHello else if resumed then SendServerFinished else SendServerCertificate
      ensures ok ==> Answers(cfg, hello, plan) && conn.log == old(conn.log) + [SentHello(plan)]
    {
      hide AllJustified, Connection.Valid, Course, Fits;
      ghost var p := Plan(resumed, cipher, ticketExpected, statusExpected, certRequest, cfg.nextProto, channelId);
      assert Answers(cfg, hello, p) by { KnowsBefore(cfg, hello, plan, Look()); }
      ok := conn.SendHello(p);
      if ok {
        plan, state := p, if resumed then SendServerFinished else SendServerCertificate;
        assert OnCourse(Ok) by { AfterServerHello(cfg, hello, old(plan), old(Look()), p); }
      }
    }

    /** do_send_server_hello. */
    method DoSendServerHello() returns (r: Wait)
      requires state == SendServerHello && Sound(Ok)
      modifies this, conn
      ensures Sound(r) && Goes(r) && wait == old(wait) && (r.Ok? || r.Error?)
      ensures r.Ok? ==> Rank(state, resumed) < Rank(SendServerHello, old(resumed))
      ensures state == (if !r.Ok? then SendServerHello else if resumed then SendServerFinished else SendServerCertificate)
      ensures r.Ok? ==> SentHello(plan) in conn.log && Answers(cfg, hello, plan)
    {
      hide AllJustified, Connection.Valid, Course, Fits, Answers;
      SettleChannelId();
      var greeted := Greet();
      return if greeted then Ok else Error;
    }

    /** do_send_server_certificate. */
    method DoSendServerCertificate() returns (r: Wait)
      requires state == SendServerCertificate && Sound(Ok)
      modifies this, conn
      ensures Sound(r) && Goes(r) && wait == old(wait) && (r.Ok? || r.Error?)
      ensures r.Ok? ==> Rank(state, resumed) < Rank(SendServerCertificate, old(resumed))
      ensures state == (if r.Ok? then SendServerKeyExchange else SendServerCertificate)
    {
      hide AllJustified, Connection.Valid, Course, Fits, OwnEvents;
      assert !serverParams by { KnowsKeys(cfg, hello, plan, Look()); }
      var sent := SendOwn();
      if !sent { return Error; }
      state := SendServerKeyExchange;
      assert OnCourse(Ok) by { AfterOwn(cfg, hello, plan, old(Look())); }
      return Ok;
    }

    /** The server's certificate and its status. */
    method SendCertificate() returns (ok: bool)
      requires conn.Valid()
      modifies conn`log, conn`failed
      ensures conn.Valid() && old(conn.log) <= conn.log && (if ok then conn.failed == old(conn.failed) else conn.failed)
      ensures ok ==> conn.log == old(conn.log)
                     + if cipher.certAuth then [SentCertificate(false)] + (if statusExpected then [Sent(22)] else []) else []
    {
      hide AllJustified, Connection.Valid;
      ok := true;
      if cipher.certAuth {
        ok := conn.Send(SentCertificate(false));
        if ok && statusExpected { ok := conn.Send(Sent(22)); }
      }
    }

    /** Certificate, status, and the parameters of the ServerKeyExchange. */
    method SendOwn() returns (ok: bool)
      requires conn.Valid() && !serverParams
      modifies this`keyShare, this`serverParams, conn`log, conn`failed
      ensures conn.Valid() && old(conn.log) <= conn.log && (if ok then conn.failed == old(conn.failed) else conn.failed)
      ensures ok ==> conn.log == old(conn.log) + OwnEvents(cipher, statusExpected)
      ensures ok ==> keyShare == (old(keyShare) || cipher.kEcdhe) && serverParams == NeedsKeys(cfg, cipher)
    {
      hide AllJustified, Connection.Valid;
      ok := SendCertificate();
      if ok && cipher.kEcdhe {
        ok := conn.Try(Offer);
        if ok { keyShare := true; }
      }
      if ok && (cipher.kEcdhe || (cipher.pskAuth && cfg.hint)) { serverParams := true; }
    }

    /** do_send_server_key_exchange. */
    method DoSendServerKeyExchange() returns (r: Wait)
      requires state == SendServerKeyExchange && Sound(Ok)
      modifies this, conn
      ensures Sound(r) && Goes(r) && wait == old(wait) && (r.Ok? || r.Callback? || r.Error?)
      ensures r.Ok? ==> Rank(state, resumed) < Rank(SendServerKeyExchange, old(resumed))
      ensures state == (if r.Ok? then SendServerHelloDone else SendServerKeyExchange)
      ensures r.Callback? ==> cipher.certAuth
    {
      hide AllJustified, Connection.Valid, Course, Fits;
      if !serverParams {
        state := SendServerHelloDone;
        assert OnCourse(Ok) by { NoKeys(cfg, hello, plan, old(Look())); }
        return Ok;
      }
      if cipher.certAuth {
        var answer := conn.Ask();
        if answer.No? { return Error; }
        if answer.Later? {
          assert OnCourse(Callback) by { AnyWait(cfg, hello, plan, Look(), Ok, Callback); }
          return Callback;
        }
      }
      var sent := SendKeyExchange();
      return if sent then Ok else Error;
    }

    /** ServerKeyExchange. */
    method SendKeyExchange() returns (ok: bool)
      requires state == SendServerKeyExchange && OnCourse(Ok) && serverParams
      modifies this`state, this`serverParams, conn`log, conn`failed
      ensures (if ok then OnCourse(Ok) else Broken()) && old(conn.log) <= conn.log && conn.later == old(conn.later)
      ensures state == if ok then SendServerHelloDone else SendServerKeyExchange
    {
      hide AllJustified, Connection.Valid, Course, Fits;
      ok := conn.Send(Sent(12));
      if ok {
        serverParams, state := false, SendServerHelloDone;
        assert OnCourse(Ok) by { AfterKeys(cfg, hello, plan, old(Look())); }
      }
    }

    /** CertificateRequest, if a certificate is asked for, and ServerHelloDone. */
    method SendHelloDone() returns (ok: bool)
      requires conn.Valid()
      modifies conn`log, conn`failed
      ensures conn.Valid() && old(conn.log) <= conn.log && (if ok then conn.failed == old(conn.failed) else conn.failed)
      ensures ok ==> conn.log == old(conn.log) + HelloDoneEvents(certRequest)
    {
      hide AllJustified, Connection.Valid;
      ok := true;
      if certRequest { ok := conn.Send(Sent(13)); }
      if ok { ok := conn.Send(Sent(14)); }
    }

    /** do_send_server_hello_done. */
    method DoSendServerHelloDone() returns (r: Wait)
      requires state == SendServerHelloDone && Sound(Ok)
      modifies this, conn
      ensures Sound(r) && Goes(r) && wait == old(wait) && (r.Flush? || r.Error?)
      ensures r.Ok? ==> Rank(state, resumed) < Rank(SendServerHelloDone, old(resumed))
      ensures state == (if r.Flush? then ReadClientCertificate else SendServerHelloDone)
    {
      hide AllJustified, Connection.Valid, Course, Fits, HelloDoneEvents;
      var sent := SendHelloDone();
      if !sent { return Error; }
      state := ReadClientCertificate;
      assert OnCourse(Flush) by { AfterHelloDone(cfg, hello, plan, old(Look())); }
      return Flush;
    }

    /** A Certificate of the client's; whether it may be empty depends on the set-up. */
    method KeepCertificate(m: Message) returns (ok: bool)
      requires conn.Valid() && conn.current == Some(m)
      modifies conn`log, conn`failed, conn`current
      ensures conn.Valid() && old(conn.log) <= conn.log && (conn.failed ==> old(conn.failed) || !ok)
      ensures ok ==> Parses in m.passes && (m.empty ==> !ssl3 && !cfg.required)
      ensures ok ==> conn.log == old(conn.log) + TakenEvents([], m, [])
      ensures !ok ==> conn.current == Some(m)
      ensures !ok ==> conn.failed || Parses !in m.passes || (m.empty && (ssl3 || cfg.required))
    {
      hide AllJustified, Connection.Valid;
      ok := conn.HashMessage();
      if ok { ok := Parses in m.passes; }
      if ok { ok := m.empty ==> !ssl3 && !cfg.required; }
      if ok {
        conn.NextMessage();
        TakenPlainly(old(conn.log), m);
      }
    }

    /** On with the client's certificate, or without one. */
    method TakeCertificate(m: Message) returns (ok: bool)
      requires state == ReadClientCertificate && OnCourse(Ok) && conn.current == Some(m) && m.kind == 11 && certRequest
      modifies this`state, this`peerKey, conn
      ensures (if ok then OnCourse(Ok) else Broken()) && old(conn.log) <= conn.log && conn.later == old(conn.later)
      ensures state == if ok then VerifyClientCertificate else ReadClientCertificate
      ensures ok ==> peerKey == !m.empty && Got(m) in conn.log
    {
      hide AllJustified, Connection.Valid, Course, TakenEvents;
      assert ssl3 == hello.hello.ssl3 && certRequest == plan.request by { KnowsHello(cfg, hello, plan, Look()); }
      ok := KeepCertificate(m);
      if ok {
        peerKey, state := !m.empty, VerifyClientCertificate;
        assert Got(m) in conn.log by { TakenIn(old(conn.log), [], m, []); }
        assert OnCourse(Ok) by { AfterCertificate(cfg, hello, plan, old(Look()), m); }
      }
    }

    /** The current message is a certificate, or with SSL 3.0 perhaps the message behind it. */
    method OnCertificate(m: Message) returns (ok: bool)
      requires state == ReadClientCertificate && OnCourse(Ok) && conn.current == Some(m) && certRequest
      modifies this`state, this`peerKey, conn
      ensures (if ok then OnCourse(Ok) else Broken()) && old(conn.log) <= conn.log && conn.later == old(conn.later)
      ensures state == if ok then VerifyClientCertificate else ReadClientCertificate
      ensures ok ==> if m.kind == 11 then peerKey == !m.empty && Got(m) in conn.log else ssl3 && conn.current == Some(m)
    {
      hide AllJustified, Connection.Valid, Course;
      if m.kind == MT_CERTIFICATE {
        ok := TakeCertificate(m);
        return;
      }
      assert ssl3 == hello.hello.ssl3 && certRequest == plan.request by { KnowsHello(cfg, hello, plan, Look()); }
      ok := ssl3 && m.kind == MT_CLIENT_KEY_EXCHANGE && !cfg.required;
      if ok {
        state := VerifyClientCertificate;
        assert OnCourse(Ok) by { NoCertificate(cfg, hello, plan, old(Look())); }
      }
    }

    /** do_read_client_certificate. */
    method DoReadClientCertificate() returns (r: Wait)
      requires state == ReadClientCertificate && Sound(Ok)
      modifies this, conn
      ensures Sound(r) && Goes(r) && wait == old(wait) && (r.Ok? || r.AwaitMessage? || r.Error?)
      ensures r.Ok? ==> Rank(state, resumed) < Rank(ReadClientCertificate, old(resumed))
      ensures state == (if r.Ok? then VerifyClientCertificate else ReadClientCertificate)
    {
      hide AllJustified, Connection.Valid, Course, Fits;
      if !certRequest {
        state := VerifyClientCertificate;
        assert OnCourse(Ok) by { NoCertificate(cfg, hello, plan, old(Look())); }
        return Ok;
      }
      var m := conn.GetMessage();
      if m.None? {
        assert OnCourse(AwaitMessage) by { AnyWait(cfg, hello, plan, Look(), Ok, AwaitMessage); }
        return AwaitMessage;
      }
      var taken := OnCertificate(m.value);
      return if taken then Ok else Error;
    }

    /** do_verify_client_certificate. */
    method DoVerifyClientCertificate() returns (r: Wait)
      requires state == VerifyClientCertificate && Sound(Ok)
      modifies this, conn
      ensures Sound(r) && Goes(r) && wait == old(wait) && (r.Ok? || r.Callback? || r.Error?)
      ensures r.Ok? ==> Rank(state, resumed) < Rank(VerifyClientCertificate, old(resumed))
      ensures state == (if r.Ok? then ReadClientKeyExchange else VerifyClientCertificate)
      ensures r.Callback? ==> peerKey
    {
      hide AllJustified, Connection.Valid, Course, Fits;
      if !peerKey {
        state := ReadClientKeyExchange;
        assert OnCourse(Ok) by { NotVerified(cfg, hello, plan, old(Look())); }
        return Ok;
      }
      var v := conn.VerifyPeerCert();
      if v.VerifyInvalid? { return Error; }
      if v.VerifyRetry? {
        assert OnCourse(Callback) by { AnyWait(cfg, hello, plan, Look(), Ok, Callback); }
        return Callback;
      }
      state := ReadClientKeyExchange;
      assert OnCourse(Ok) by { AfterVerified(cfg, hello, plan, old(Look())); }
      return Ok;
    }

    /** The secret of the key exchange that the cipher names; decrypting may have to wait. */
    method AgreeKeys() returns (a: Answer)
      requires conn.Valid() && Exchanges() && (cipher.kEcdhe ==> keyShare)
      modifies this`keyShare, conn`log, conn`failed, conn`later
      ensures conn.Valid() && old(conn.log) <= conn.log && conn.later == old(conn.later) + (if a.Later? then 1 else 0)
      ensures if a.No? then conn.failed else conn.failed == old(conn.failed)
      ensures a.Later? ==> conn.log == old(conn.log) && keyShare == old(keyShare)
      ensures a.Yes? ==> conn.log == old(conn.log)
                         + if cipher.kRsa then [Passed(Decrypt)] else if cipher.kEcdhe then [Passed(Agree)] else []
    {
      hide AllJustified, Connection.Valid;
      a := Yes;
      if cipher.kRsa {
        a := conn.Ask();
        if a.Yes? {
          var decrypted := conn.Try(Decrypt);
          if !decrypted { a := No; }
        }
      } else if cipher.kEcdhe {
        var finished := conn.Try(Agree);
        if finished { keyShare := false; } else { a := No; }
      }
    }

    /** The key of a PSK identity, the hash of the message and the master secret. */
    method DeriveKeys(m: Message) returns (ok: bool)
      requires conn.Valid() && conn.current == Some(m)
      modifies conn`log, conn`failed, conn`current
      ensures conn.Valid() && old(conn.log) <= conn.log && (if ok then conn.failed == old(conn.failed) else conn.failed)
      ensures ok ==> conn.log == old(conn.log) + (if cipher.pskAuth then [Passed(Psk)] else []) + [Hashed(m), Passed(Derive), Got(m)]
    {
      hide AllJustified, Connection.Valid;
      ok := true;
      if cipher.pskAuth { ok := conn.Try(Psk); }
      if ok { ok := conn.HashMessage(); }
      if ok { ok := conn.Try(Derive); }
      if ok { conn.NextMessage(); }
    }

    /** A ClientKeyExchange. */
    method TakeKeyExchange(m: Message) returns (r: Wait)
      requires state == ReadClientKeyExchange && OnCourse(Ok) && conn.current == Some(m) && Exchanges()
      requires m.kind == 16 && Fits(cfg, hello, plan, peerKey, ReadClientKeyExchange, m)
      modifies this`state, this`keyShare, conn
      ensures (if r.Error? then Broken() else OnCourse(r)) && old(conn.log) <= conn.log
              && (r.Ok? || r.Callback? || r.Error?)
      ensures conn.later == old(conn.later) + if r.Callback? then 1 else 0
      ensures state == if r.Ok? then ReadClientCertificateVerify else ReadClientKeyExchange
    {
      hide AllJustified, Connection.Valid, Course, Fits, ExchangeEvents;
      assert cipher.kEcdhe ==> keyShare by { KnowsKeys(cfg, hello, plan, Look()); }
      var answer := AgreeKeys();
      if answer.No? { return Error; }
      if answer.Later? {
        assert OnCourse(Callback) by { AnyWait(cfg, hello, plan, Look(), Ok, Callback); }
        return Callback;
      }
      FitsAnyway(ReadClientKeyExchange, m);
      var derived := FollowKeyExchange(m, old(Look()));
      return if derived then Ok else Error;
    }

    /** The keys for the ClientKeyExchange m, which came when the handshake was at v, once its secret is known. */
    method FollowKeyExchange(m: Message, ghost v: View) returns (ok: bool)
      requires v.state == ReadClientKeyExchange && Course(cfg, hello, plan, v, Ok)
      requires conn.Valid() && !conn.failed && conn.current == Some(m)
      requires m.kind == 16 && Fits(cfg, hello, plan, false, ReadClientKeyExchange, m)
      requires Look() == v.(keyShare := keyShare, log := v.log
                            + if cipher.kRsa then [Passed(Decrypt)] else if cipher.kEcdhe then [Passed(Agree)] else [])
      modifies this`state, conn`log, conn`failed, conn`current
      ensures (if ok then OnCourse(Ok) else Broken()) && old(conn.log) <= conn.log
      ensures state == if ok then ReadClientCertificateVerify else ReadClientKeyExchange
    {
      hide AllJustified, Connection.Valid, Course, Fits, ExchangeEvents;
      ok := DeriveKeys(m);
      if ok {
        state := ReadClientCertificateVerify;
        ExchangeIs(v.log, cipher, m);
        assert OnCourse(Ok) by { AfterKeyExchange(cfg, hello, plan, v, m, keyShare); }
      }
    }

    /** do_read_client_key_exchange. */
    method DoReadClientKeyExchange() returns (r: Wait)
      requires state == ReadClientKeyExchange && Sound(Ok)
      modifies this, conn
      ensures Sound(r) && Goes(r) && wait == old(wait) && (r.Ok? || r.AwaitMessage? || r.Callback? || r.Error?)
      ensures r.Ok? ==> Rank(state, resumed) < Rank(ReadClientKeyExchange, old(resumed))
      ensures state == (if r.Ok? then ReadClientCertificateVerify else ReadClientKeyExchange)
    {
      hide AllJustified, Connection.Valid, Course;
      assert cipher == plan.cipher by { KnowsHello(cfg, hello, plan, Look()); }
      var m := conn.GetMessage();
      if m.None? {
        assert OnCourse(AwaitMessage) by { AnyWait(cfg, hello, plan, Look(), Ok, AwaitMessage); }
        return AwaitMessage;
      }
      if m.value.kind != MT_CLIENT_KEY_EXCHANGE { return Error; }
      if cipher.pskAuth && Identity !in m.value.passes { return Error; }
      if (cipher.kRsa || cipher.kEcdhe) && Parses !in m.value.passes { return Error; }
      if !cipher.kRsa && !cipher.kEcdhe && !cipher.kPsk { return Error; }
      r := TakeKeyExchange(m.value);
    }

    /** A CertificateVerify, with a good signature. */
    method TakeCertificateVerify(m: Message) returns (ok: bool)
      requires state == ReadClientCertificateVerify && OnCourse(Ok) && conn.current == Some(m) && peerKey
      modifies this`state, conn
      ensures (if ok then OnCourse(Ok) else Broken()) && old(conn.log) <= conn.log && conn.later == old(conn.later)
      ensures state == if ok then ReadChangeCipherSpec else ReadClientCertificateVerify
    {
      hide AllJustified, Connection.Valid, Course, TakenEvents;
      ok := m.kind == MT_CERTIFICATE_VERIFY && Algorithm in m.passes && Parses in m.passes;
      if ok { ok := CheckProof(m); }
      if ok {
        state := ReadChangeCipherSpec;
        assert OnCourse(Ok) by { AfterProof(cfg, hello, plan, old(Look()), m); }
      }
    }

    method CheckProof(m: Message) returns (ok: bool)
      requires conn.Valid() && conn.current == Some(m)
      modifies conn`log, conn`failed, conn`current, conn`signatureOk
      ensures conn.Valid() && old(conn.log) <= conn.log && (if ok then conn.failed == old(conn.failed) else conn.failed)
      ensures ok ==> conn.log == old(conn.log) + TakenEvents([SignatureVerified], m, [])
    {
      hide AllJustified, Connection.Valid;
      ok := conn.VerifySignature();
      if ok { ok := conn.HashMessage(); }
      if ok {
        conn.NextMessage();
        TakenIs(old(conn.log), [SignatureVerified], m, []);
      }
    }

    /** do_read_client_certificate_verify. */
    method DoReadClientCertificateVerify() returns (r: Wait)
      requires state == ReadClientCertificateVerify && Sound(Ok)
      modifies this, conn
      ensures Sound(r) && Goes(r) && wait == old(wait) && (r.Ok? || r.AwaitMessage? || r.Error?)
      ensures r.Ok? ==> Rank(state, resumed) < Rank(ReadClientCertificateVerify, old(resumed))
      ensures state == (if r.Ok? then ReadChangeCipherSpec else ReadClientCertificateVerify)
    {
      hide AllJustified, Connection.Valid, Course, Fits;
      if !peerKey {
        state := ReadChangeCipherSpec;
        assert OnCourse(Ok) by { NoProof(cfg, hello, plan, old(Look())); }
        return Ok;
      }
      var m := conn.GetMessage();
      if m.None? {
        assert OnCourse(AwaitMessage) by { AnyWait(cfg, hello, plan, Look(), Ok, AwaitMessage); }
        return AwaitMessage;
      }
      var taken := TakeCertificateVerify(m.value);
      return if taken then Ok else Error;
    }

    /** do_read_change_cipher_spec. */
    method DoReadChangeCipherSpec() returns (r: Wait)
      requires state == ReadChangeCipherSpec && Sound(Ok)
      modifies this, conn
      ensures Sound(r) && Goes(r) && wait == old(wait) && (r.AwaitCcs?)
      ensures r.Ok? ==> Rank(state, resumed) < Rank(ReadChangeCipherSpec, old(resumed))
      ensures r.AwaitCcs? && state == ProcessChangeCipherSpec
    {
      hide AllJustified, Connection.Valid, Course, Fits;
      state := ProcessChangeCipherSpec;
      assert OnCourse(AwaitCcs) by { ToCcs(cfg, hello, plan, old(Look())); }
      return AwaitCcs;
    }

    /** do_process_change_cipher_spec. */
    method DoProcessChangeCipherSpec() returns (r: Wait)
      requires state == ProcessChangeCipherSpec && Sound(Ok)
      modifies this, conn
      ensures Sound(r) && Goes(r) && wait == old(wait) && (r.Ok? || r.Error?)
      ensures r.Ok? ==> Rank(state, resumed) < Rank(ProcessChangeCipherSpec, old(resumed))
      ensures state == (if r.Ok? then ReadNextProto else ProcessChangeCipherSpec)
    {
      hide AllJustified, Connection.Valid, Course, Fits;
      assert conn.ccsSeen by {
        Flags();
        KnowsCcs(cfg, hello, plan, Look());
      }
      var switched := conn.SwitchRead();
      if !switched { return Error; }
      state := ReadNextProto;
      assert OnCourse(Ok) by { AfterSwitch(cfg, hello, plan, old(Look())); }
      return Ok;
    }

    /** A NextProtocol message. */
    method TakeNextProto(m: Message) returns (ok: bool)
      requires state == ReadNextProto && OnCourse(Ok) && conn.current == Some(m) && cfg.nextProto
      modifies this`state, conn
      ensures (if ok then OnCourse(Ok) else Broken()) && old(conn.log) <= conn.log && conn.later == old(conn.later)
      ensures state == if ok then ReadChannelId else ReadNextProto
    {
      hide AllJustified, Connection.Valid, Course, TakenEvents;
      assert plan.nextProto == cfg.nextProto by { KnowsHello(cfg, hello, plan, Look()); }
      ok := m.kind == MT_NEXT_PROTO;
      if ok { ok := KeepProto(m); }
      if ok {
        state := ReadChannelId;
        assert OnCourse(Ok) by { AfterNextProto(cfg, hello, plan, old(Look()), m); }
      }
    }

    method KeepProto(m: Message) returns (ok: bool)
      requires conn.Valid() && conn.current == Some(m)
      modifies conn`log, conn`failed, conn`current
      ensures conn.Valid() && old(conn.log) <= conn.log && (conn.failed ==> old(conn.failed) || !ok)
      ensures ok ==> Parses in m.passes && conn.log == old(conn.log) + TakenEvents([], m, [Passed(Store)])
      ensures !ok ==> conn.current == Some(m) && (conn.failed || Parses !in m.passes)
    {
      hide AllJustified, Connection.Valid;
      ok := conn.HashMessage();
      if ok { ok := Parses in m.passes; }
      if ok { ok := conn.Try(Store); }
      if ok {
        conn.NextMessage();
        TakenIs(old(conn.log), [], m, [Passed(Store)]);
      }
    }

    /** do_read_next_proto. */
    method DoReadNextProto() returns (r: Wait)
      requires state == ReadNextProto && Sound(Ok)
      modifies this, conn
      ensures Sound(r) && Goes(r) && wait == old(wait) && (r.Ok? || r.AwaitMessage? || r.Error?)
      ensures r.Ok? ==> Rank(state, resumed) < Rank(ReadNextProto, old(resumed))
      ensures state == (if r.Ok? then ReadChannelId else ReadNextProto)
    {
      hide AllJustified, Connection.Valid, Course, Fits;
      if !cfg.nextProto {
        state := ReadChannelId;
        assert OnCourse(Ok) by { NoNextProto(cfg, hello, plan, old(Look())); }
        return Ok;
      }
      var m := conn.GetMessage();
      if m.None? {
        assert OnCourse(AwaitMessage) by { AnyWait(cfg, hello, plan, Look(), Ok, AwaitMessage); }
        return AwaitMessage;
      }
      var taken := TakeNextProto(m.value);
      return if taken then Ok else Error;
    }

    /** A ChannelID message, with a good signature. */
    method TakeChannelId(m: Message) returns (ok: bool)
      requires state == ReadChannelId && OnCourse(Ok) && conn.current == Some(m) && channelId
      modifies this`state, conn
      ensures (if ok then OnCourse(Ok) else Broken()) && old(conn.log) <= conn.log && conn.later == old(conn.later)
      ensures state == if ok then ReadClientFinished else ReadChannelId
    {
      hide AllJustified, Connection.Valid, Course, TakenEvents;
      assert channelId == plan.channelId by { KnowsHello(cfg, hello, plan, Look()); }
      ok := m.kind == MT_CHANNEL_ID;
      if ok { ok := CheckChannelId(m); }
      if ok {
        state := ReadClientFinished;
        assert OnCourse(Ok) by { AfterChannelId(cfg, hello, plan, old(Look()), m); }
      }
    }

    method CheckChannelId(m: Message) returns (ok: bool)
      requires conn.Valid() && conn.current == Some(m)
      modifies conn`log, conn`failed, conn`current
      ensures conn.Valid() && old(conn.log) <= conn.log && (if ok then conn.failed == old(conn.failed) else conn.failed)
      ensures ok ==> conn.log == old(conn.log) + TakenEvents([Passed(ChannelIdProof)], m, [])
    {
      hide AllJustified, Connection.Valid;
      ok := conn.Try(ChannelIdProof);
      if ok { ok := conn.HashMessage(); }
      if ok {
        conn.NextMessage();
        TakenIs(old(conn.log), [Passed(ChannelIdProof)], m, []);
      }
    }

    /** do_read_channel_id. */
    method DoReadChannelId() returns (r: Wait)
      requires state == ReadChannelId && Sound(Ok)
      modifies this, conn
      ensures Sound(r) && Goes(r) && wait == old(wait) && (r.Ok? || r.AwaitMessage? || r.Error?)
      ensures r.Ok? ==> Rank(state, resumed) < Rank(ReadChannelId, old(resumed))
      ensures state == (if r.Ok? then ReadClientFinished else ReadChannelId)
    {
      hide AllJustified, Connection.Valid, Course, Fits;
      if !channelId {
        state := ReadClientFinished;
        assert OnCourse(Ok) by { NoChannelId(cfg, hello, plan, old(Look())); }
        return Ok;
      }
      var m := conn.GetMessage();
      if m.None? {
        assert OnCourse(AwaitMessage) by { AnyWait(cfg, hello, plan, Look(), Ok, AwaitMessage); }
        return AwaitMessage;
      }
      var taken := TakeChannelId(m.value);
      return if taken then Ok else Error;
    }

    /** The hashes of a full handshake with a channel ID are kept, so that a resumption can be signed. */
    method RecordHashes() returns (ok: bool)
      requires conn.Valid() && resumed == plan.resumed && channelId == plan.channelId
      modifies conn`log, conn`failed
      ensures conn.Valid() && old(conn.log) <= conn.log && (if ok then conn.failed == old(conn.failed) else conn.failed)
      ensures ok ==> conn.log == old(conn.log) + RecordEvents(plan)
    {
      hide AllJustified, Connection.Valid;
      ok := true;
      if !resumed && channelId { ok := conn.Try(Record); }
    }

    /** The client's Finished, if it has come. */
    method ReadFinished() returns (r: Wait)
      requires state == ReadClientFinished && OnCourse(Ok)
      modifies conn
      ensures r.Ok? || r.AwaitMessage? || r.Error?
      ensures conn.Valid() && old(conn.log) <= conn.log && conn.later == old(conn.later)
      ensures r.Ok? ==> !conn.failed && LastTaken(conn.log, 20).Some?
                        && Fits(cfg, hello, plan, false, ReadClientFinished, LastTaken(conn.log, 20).value)
                        && conn.log == old(conn.log) + FinishedEvents(LastTaken(conn.log, 20).value, ssl3)
      ensures r.AwaitMessage? ==> OnCourse(AwaitMessage) && conn.current.None?
      ensures r.Error? ==> Broken()
    {
      hide AllJustified, Connection.Valid, Course, FinishedEvents;
      assert conn.readSwitched by {
        Flags();
        KnowsCcs(cfg, hello, plan, Look());
      }
      r := conn.GetFinished(ssl3);
      if r.AwaitMessage? { assert OnCourse(AwaitMessage) by { AnyWait(cfg, hello, plan, Look(), Ok, AwaitMessage); } }
    }

    /** do_read_client_finished. */
    method DoReadClientFinished() returns (r: Wait)
      requires state == ReadClientFinished && Sound(Ok)
      modifies this, conn
      ensures Sound(r) && Goes(r) && wait == old(wait) && (r.Ok? || r.AwaitMessage? || r.Error?)
      ensures r.Ok? ==> Rank(state, resumed) < Rank(ReadClientFinished, old(resumed))
      ensures r.Ok? ==> state == (if resumed then FinishServerHandshake else SendServerFinished)
      ensures r.AwaitMessage? ==> state == ReadClientFinished
    {
      hide AllJustified, Connection.Valid, Course, Fits, FinishedEvents;
      assert ssl3 == hello.hello.ssl3 && resumed == plan.resumed && channelId == plan.channelId by {
        KnowsHello(cfg, hello, plan, Look());
      }
      r := ReadFinished();
      if !r.Ok? { return; }
      var recorded := FollowFinished(LastTaken(conn.log, 20).value, old(conn.log));
      return if recorded then Ok else Error;
    }

    /** On after the Finished m, which came when the record was this. */
    method FollowFinished(ghost m: Message, ghost before: seq<Event>) returns (ok: bool)
      requires Course(cfg, hello, plan, At(ReadClientFinished, before), Ok) && ssl3 == hello.hello.ssl3
      requires conn.Valid() && !conn.failed && resumed == plan.resumed && channelId == plan.channelId
      requires m.kind == 20 && Fits(cfg, hello, plan, false, ReadClientFinished, m)
      requires conn.log == before + FinishedEvents(m, ssl3)
      modifies this`state, conn`log, conn`failed
      ensures conn.Valid() && old(conn.log) <= conn.log
      ensures ok ==> OnCourse(Ok)
      ensures !ok ==> conn.failed
      ensures state == if resumed then FinishServerHandshake else SendServerFinished
    {
      hide AllJustified, Connection.Valid, Course, Fits, FinishedEvents, RecordEvents;
      state := if resumed then FinishServerHandshake else SendServerFinished;
      ok := RecordHashes();
      if ok {
        FinishedIs(before, m, ssl3, plan);
        assert OnCourse(Ok) by { AfterFinished(cfg, hello, plan, At(ReadClientFinished, before), m); }
      }
    }

    /** The ticket, ChangeCipherSpec, the new write cipher and the server's Finished. */
    method SendLastFlight() returns (ok: bool)
      requires conn.Valid()
      modifies conn`log, conn`failed
      ensures conn.Valid() && old(conn.log) <= conn.log && (if ok then conn.failed == old(conn.failed) else conn.failed)
      ensures ok ==> conn.log == old(conn.log) + LastFlight(ticketExpected)
    {
      hide AllJustified, Connection.Valid;
      ok := true;
      if ticketExpected { ok := conn.Send(Sent(4)); }
      if ok { ok := SwitchWrite(); }
      if ok { ok := conn.Send(Sent(20)); }
    }

    /** ChangeCipherSpec and the new write cipher. */
    method SwitchWrite() returns (ok: bool)
      requires conn.Valid()
      modifies conn`log, conn`failed
      ensures conn.Valid() && old(conn.log) <= conn.log && (if ok then conn.failed == old(conn.failed) else conn.failed)
      ensures ok ==> conn.log == old(conn.log) + [SentCcs] + [WriteSwitched]
    {
      hide AllJustified, Connection.Valid;
      ok := conn.Send(SentCcs);
      if ok { ok := conn.Send(WriteSwitched); }
    }

    /** do_send_server_finished. */
    method DoSendServerFinished() returns (r: Wait)
      requires state == SendServerFinished && Sound(Ok)
      modifies this, conn
      ensures Sound(r) && Goes(r) && wait == old(wait) && (r.Flush? || r.Error?)
      ensures r.Ok? ==> Rank(state, resumed) < Rank(SendServerFinished, old(resumed))
      ensures state == (if !r.Flush? then SendServerFinished else if resumed then ReadChangeCipherSpec else FinishServerHandshake)
    {
      hide AllJustified, Connection.Valid, Course, Fits, LastFlight;
      var sent := SendLastFlight();
      if !sent { return Error; }
      state := if resumed then ReadChangeCipherSpec else FinishServerHandshake;
      assert OnCourse(Flush) by { AfterLastFlight(cfg, hello, plan, old(Look())); }
      return Flush;
    }

    /** do_finish_server_handshake. */
    method DoFinishServerHandshake() returns (r: Wait)
      requires state == FinishServerHandshake && Sound(Ok)
      modifies this, conn
      ensures Sound(r) && Goes(r) && wait == old(wait) && (r.Ok?)
      ensures r.Ok? ==> Rank(state, resumed) < Rank(FinishServerHandshake, old(resumed))
      ensures r.Ok? && state == Done
    {
      hide AllJustified, Connection.Valid, Course, Fits, Broken;
      assert !tls13 ==> conn.finishedOk && (VerifiedPeer() ==> conn.chainOk && conn.signatureOk) by {
        Flags();
        KnowsEnd(cfg, hello, plan, Look());
      }
      conn.Establish(tls13, VerifiedPeer());
      state := Done;
      assert OnCourse(Ok) by { AfterEstablished(cfg, hello, plan, old(Look())); }
      return Ok;
    }

    /** The switch of ssl_server_handshake: the state's own function. */
    method RunState() returns (r: Wait)
      requires state != Done && Sound(Ok)
      modifies this, conn
      ensures Sound(r) && Goes(r) && wait == old(wait)
      ensures r.Ok? ==> Rank(state, resumed) < old(Rank(state, resumed))
    {
      hide AllJustified, Connection.Valid, OnCourse, Broken, Fits, Reached;
      match state {
      case StartAccept => r := DoStartAccept();
      case ReadClientHello => r := DoReadClientHello();
      case SelectCertificate => r := DoSelectCertificate();
      case Tls13 => r := DoTls13();
      case SelectParameters => r := DoSelectParameters();
      case SendServerHello => r := DoSendServerHello();
      case SendServerCertificate => r := DoSendServerCertificate();
      case SendServerKeyExchange => r := DoSendServerKeyExchange();
      case SendServerHelloDone => r := DoSendServerHelloDone();
      case ReadClientCertificate => r := DoReadClientCertificate();
      case VerifyClientCertificate => r := DoVerifyClientCertificate();
      case ReadClientKeyExchange => r := DoReadClientKeyExchange();
      case ReadClientCertificateVerify => r := DoReadClientCertificateVerify();
      case ReadChangeCipherSpec => r := DoReadChangeCipherSpec();
      case ProcessChangeCipherSpec => r := DoProcessChangeCipherSpec();
      case ReadNextProto => r := DoReadNextProto();
      case ReadChannelId => r := DoReadChannelId();
      case ReadClientFinished => r := DoReadClientFinished();
      case SendServerFinished => r := DoSendServerFinished();
      case FinishServerHandshake => r := DoFinishServerHandshake();
      }
    }

    /** ssl_server_handshake: states run until one has to wait. */
    method Handshake() returns (r: Wait)
      requires Sound(Ok)
      modifies this, conn
      ensures Sound(r) && wait == old(wait) && old(conn.log) <= conn.log
      ensures r.Ok? ==> state == Done && Established(tls13, VerifiedPeer()) in conn.log
      ensures r.Error? ==> Broken()
      ensures !tls13 && r.AwaitMessage? ==> conn.current.None?
      ensures !tls13 && r.Callback? ==> conn.later > old(conn.later)
    {
      hide AllJustified, Connection.Valid, Course, Broken;
      r := Ok;
      while state != Done
        invariant Sound(Ok) && wait == old(wait) && r == Ok
        invariant old(conn.log) <= conn.log && conn.later >= old(conn.later)
        decreases Rank(state, resumed)
      {
        r := RunState();
        if !r.Ok? { return; }
      }
      KnowsEnd(cfg, hello, plan, Look());
    }

    /** What was waited for has come, or the caller has to return first. */
    method ResolveWait() returns (run: bool)
      requires Valid()
      modifies this`wait, conn`log, conn`ccsSeen
      ensures Valid() && (run ==> Sound(Ok)) && old(conn.log) <= conn.log
      ensures old(wait).Error? ==> !run && wait == Error && conn.log == old(conn.log)
      ensures wait.Error? ==> old(wait).Error?
    {
      hide AllJustified, Connection.Valid, Course, Fits;
      if !wait.AwaitCcs? { AnyWait(cfg, hello, plan, Look(), wait, Ok); }
      run, wait := conn.Resolve(wait);
      if run && wait.AwaitCcs? {
        AfterCcs(cfg, hello, plan, old(Look()));
        wait := Ok;
      }
    }

    /** One round of ssl_run_handshake: resolve the wait, then run the states. True when the handshake is over. */
    method RunOnce() returns (finished: bool)
      requires Valid()
      modifies this, conn
      ensures Valid() && old(conn.log) <= conn.log
      ensures finished ==> state == Done && Established(tls13, VerifiedPeer()) in conn.log
      ensures old(wait).Error? ==> !finished && wait == Error && state == old(state) && conn.log == old(conn.log)
      ensures wait.Error? ==> Broken()
    {
      hide AllJustified, Connection.Valid, Course, Fits;
      var run := ResolveWait();
      if !run { return false; }
      wait := Handshake();
      finished := wait.Ok?;
    }

    /** A server that is done below TLS 1.3: the two hellos, and after them, in this order, the client's ChangeCipherSpec,
        the switch of the read cipher, the matching Finished and the session. Of every certificate that the client gave
        the chain and the signature were verified after it came and before the ChangeCipherSpec, and a server that
        insists on a certificate in a full handshake with a certificate cipher has got one. */
    lemma DoneIsSafe() returns (g: nat, ccs: nat, switch: nat, finished: nat, k: nat)
      requires Valid() && state == Done && !tls13
      ensures g + 1 < ccs < switch < finished < k < |conn.log|
      ensures conn.log[ccs] == CcsReceived && conn.log[switch] == ReadSwitched && conn.log[finished] == FinishedMatched
      ensures conn.log[k] == Established(false, VerifiedPeer())
      ensures conn.log[g] == Got(hello) && hello.kind == 1 && conn.log[g + 1] == SentHello(plan)
      ensures resumed == hello.hello.sameId && cipher == hello.hello.cipher
      ensures forall j :: 0 <= j < |conn.log| && conn.log[j].Got? && conn.log[j].m.kind == 11 && !conn.log[j].m.empty
                ==> VerifiedBetween(conn.log, ChainVerified, j, ccs) && VerifiedBetween(conn.log, SignatureVerified, j, ccs)
      ensures !resumed && cipher.certAuth && cfg.verifyPeer && cfg.required && !(cfg.unlessChannelId && cfg.channelId)
          ==> Presented(conn.log)
      ensures VerifiedPeer() <==> !resumed && Presented(conn.log)
      ensures !resumed && peerKey ==> ChainVerified in conn.log[..k] && SignatureVerified in conn.log[..k]
    {
      hide AllJustified, Connection.Valid, Course, Reached, Fits, Presented;
      var log := conn.log;
      KnowsDone(cfg, hello, plan, Look(), wait);
      g, ccs, finished := DoneMeans(cfg, hello, plan, log);
      switch, k := ccs + 1, |log| - 1;
      PresentedIsProven(log, ccs, k);
    }
  }
}
