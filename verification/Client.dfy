/** The client handshake of TLS 1.2 and below, as a state machine against an arbitrary server. */
module Client {
  import opened Bits
  import opened Handshake
  import opened ClientCourse

  class ClientHandshake {
    const conn: Connection
    const cfg: Config
    var state: State
    var wait: Wait
    var resumed: bool
    var tls13: bool
    var cipher: Cipher
    var given: Hello
    var keyShare: bool
    var certRequest: bool
    var certificate: bool
    var ticketExpected: bool
    // The ServerHello, once it was taken.
    ghost var hello: Message

    ghost predicate Valid()
      reads this, conn
    {
      Sound(wait)
    }

    /** The handshake is on course, or there is a reason for the error. */
    ghost predicate Sound(w: Wait)
      reads this, conn
    {
      if w.Error? then Broken() else OnCourse(w)
    }

    ghost function Look(): View
      reads this, conn`log
    {
      View(state, resumed, tls13, cipher, given, keyShare, certRequest, certificate, ticketExpected, conn.log)
    }

    /** Nothing has failed, and the record is that of a handshake that came to this state. */
    ghost predicate OnCourse(w: Wait)
      reads this, conn`log, conn`failed, conn`chainOk, conn`signatureOk, conn`ccsSeen, conn`readSwitched, conn`finishedOk
    {
      conn.Valid() && !conn.failed && Course(cfg, hello, Look(), w)
    }

    /** A step of the handshake's own failed, or the message that came does not fit. */
    ghost predicate Broken()
      reads this, conn
    {
      && conn.Valid() && state != Done
      && (|| conn.failed || tls13
          || (state == SendClientKeyExchange && !Exchanges())
          || (conn.current.Some? && !Fits(cfg, hello, state, conn.current.value)))
    }

    predicate Exchanges()
      reads this`cipher
    {
      cipher.kRsa || cipher.kEcdhe || cipher.kPsk
    }

    /** A full handshake whose cipher has the server prove possession of its certified key. */
    predicate VerifiedPeer()
      reads this`resumed, this`tls13, this`cipher
    {
      !resumed && !tls13 && cipher.certAuth && cipher.kEcdhe
    }

    /** The flags that stand for events. */
    lemma Flags()
      ensures conn.Valid() ==>
                && (conn.chainOk <==> ChainVerified in conn.log) && (conn.signatureOk <==> SignatureVerified in conn.log)
                && (conn.ccsSeen <==> CcsReceived in conn.log) && (conn.readSwitched <==> ReadSwitched in conn.log)
                && (conn.finishedOk <==> FinishedMatched in conn.log)
    {}

    /** The record has only grown, a wait for a message means that none is there, and a wait for a callback that it
        asked to be called again. */
    twostate predicate Goes(r: Wait)
      reads this, conn
    {
      && old(conn.log) <= conn.log && old(conn.later) <= conn.later
      && (r.AwaitMessage? || r.AwaitServerHello? ==> tls13 || conn.current.None?)
      && (r.Callback? ==> tls13 || conn.later > old(conn.later))
    }

    constructor (dtls: bool, offered: bool, early: bool)
      ensures Valid() && fresh(conn) && state == StartConnect && conn.log == []
      ensures cfg == Config(dtls, offered, early)
    {
      conn := new Connection();
      cfg := Config(dtls, offered, early);
      state, wait, resumed, tls13 := StartConnect, Ok, offered, false;
      cipher := Cipher(false, false, false, false, false);
      given := Hello(false, false, false, cipher, false, false, false, false);
      keyShare, certRequest, certificate, ticketExpected := false, false, false, false;
      hello := *;
    }

    /** do_start_connect. */
    method DoStartConnect() returns (r: Wait)
      requires state == StartConnect && Sound(Ok)
      modifies this, conn
      ensures Sound(r) && Goes(r) && wait == old(wait) && (r.Flush? || r.Error?)
      ensures r.Ok? ==> Rank(state, resumed) < Rank(StartConnect, old(resumed))
      ensures state == (if r.Flush? then EnterEarlyData else StartConnect)
    {
      hide AllJustified, Connection.Valid, Course, Fits;
      var ok := conn.Send(Sent(1));
      if !ok { return Error; }
      state := EnterEarlyData;
      assert OnCourse(Flush) by { FromStart(cfg, hello, old(Look())); }
      return Flush;
    }

    /** do_enter_early_data. */
    method DoEnterEarlyData() returns (r: Wait)
      requires state == EnterEarlyData && Sound(Ok)
      modifies this, conn
      ensures Sound(r) && Goes(r) && wait == old(wait) && (r.Ok? || r.EarlyReturn? || r.Error?)
      ensures r.Ok? ==> Rank(state, resumed) < Rank(EnterEarlyData, old(resumed))
      ensures state == (if r.Error? then EnterEarlyData else if cfg.dtls then ReadHelloVerifyRequest else ReadServerHello)
      ensures r.EarlyReturn? ==> !cfg.dtls && cfg.early
    {
      hide AllJustified, Connection.Valid, Course, Fits;
      FromEarlyData(cfg, hello, Look());
      if cfg.dtls {
        state := ReadHelloVerifyRequest;
        return Ok;
      }
      if !cfg.early {
        state := ReadServerHello;
        return Ok;
      }
      var keyed := conn.Try(EarlyKeys);
      if !keyed { return Error; }
      state := ReadServerHello;
      assert OnCourse(EarlyReturn) by { WithEarlyData(cfg, hello, old(Look())); }
      return EarlyReturn;
    }

    /** A HelloVerifyRequest: the transcript starts anew, and the ClientHello is sent again. */
    method TakeVerifyRequest(m: Message) returns (ok: bool)
      requires conn.Valid() && conn.current == Some(m) && !conn.failed
      modifies conn`log, conn`failed, conn`current
      ensures conn.Valid() && old(conn.log) <= conn.log
      ensures ok ==> Parses in m.passes && !conn.failed && conn.log == old(conn.log) + [Got(m), Passed(HashReset), Sent(1)]
      ensures !ok ==> conn.failed || (Parses !in m.passes && conn.current == Some(m))
    {
      hide AllJustified, Connection.Valid;
      ok := Parses in m.passes;
      if ok {
        conn.NextMessage();
        ok := conn.Try(HashReset);
        if ok { ok := conn.Send(Sent(1)); }
      }
    }

    /** On with the second ClientHello. */
    method FollowVerifyRequest(m: Message) returns (ok: bool)
      requires state == ReadHelloVerifyRequest && OnCourse(Ok) && conn.current == Some(m) && m.kind == 3
      modifies this`state, conn
      ensures (if ok then OnCourse(Flush) else Broken()) && old(conn.log) <= conn.log && conn.later == old(conn.later)
      ensures state == if ok then ReadServerHello else ReadHelloVerifyRequest
    {
      hide AllJustified, Connection.Valid, Course;
      ok := TakeVerifyRequest(m);
      if ok {
        state := ReadServerHello;
        assert OnCourse(Flush) by { AfterVerifyRequest(cfg, hello, old(Look()), m); }
      }
    }

    /** do_read_hello_verify_request. */
    method DoReadHelloVerifyRequest() returns (r: Wait)
      requires state == ReadHelloVerifyRequest && Sound(Ok)
      modifies this, conn
      ensures Sound(r) && Goes(r) && wait == old(wait) && (r.Ok? || r.Flush? || r.AwaitMessage? || r.Error?)
      ensures r.Ok? ==> Rank(state, resumed) < Rank(ReadHelloVerifyRequest, old(resumed))
      ensures state == (if r.Ok? || r.Flush? then ReadServerHello else ReadHelloVerifyRequest)
      ensures r.Ok? ==> conn.current.Some? && conn.current.value.kind != MT_HELLO_VERIFY_REQUEST
    {
      hide AllJustified, Connection.Valid, Course;
      KnowsOpening(cfg, hello, Look());
      var m := conn.GetMessage();
      if m.None? {
        assert OnCourse(AwaitMessage) by { AnyWait(cfg, hello, Look(), Ok, AwaitMessage); }
        return AwaitMessage;
      }
      if m.value.kind != MT_HELLO_VERIFY_REQUEST {
        state := ReadServerHello;
        assert OnCourse(Ok) by { NoVerifyRequest(cfg, hello, old(Look())); }
        return Ok;
      }
      var taken := FollowVerifyRequest(m.value);
      return if taken then Flush else Error;
    }

    /** The offered session is resumed, or there will be a new one. */
    method SettleSession(m: Message) returns (ok: bool)
      requires conn.Valid()
      modifies this`resumed, conn`log, conn`failed
      ensures conn.Valid() && old(conn.log) <= conn.log && conn.failed == (old(conn.failed) || (!ok && NoEcho in m.passes))
      ensures ok ==> resumed == (old(resumed) && m.hello.sameId) && (resumed || NoEcho in m.passes)
      ensures ok ==> conn.log == old(conn.log) + (if resumed then [] else [Passed(NewSession)])
      ensures !ok ==> resumed == old(resumed) && !(resumed && m.hello.sameId)
    {
      hide AllJustified, Connection.Valid;
      if resumed && m.hello.sameId { return true; }
      ok := NoEcho in m.passes;
      if ok { ok := conn.Try(NewSession); }
      if ok { resumed := false; }
    }

    /** The cipher suite and the extensions of a ServerHello. */
    method TakeParameters(m: Message) returns (ok: bool)
      requires conn.Valid() && conn.current == Some(m)
      modifies this`cipher, this`given, this`ticketExpected, conn`log, conn`failed
      ensures conn.Valid() && old(conn.log) <= conn.log && (conn.failed ==> old(conn.failed) || !ok)
      ensures ok ==> conn.log == old(conn.log) + [Hashed(m)] && AcceptsParameters(m)
      ensures ok ==> cipher == m.hello.cipher && given == m.hello && ticketExpected == m.hello.ticket
      ensures !ok ==> conn.failed || !AcceptsParameters(m)
    {
      hide AllJustified, Connection.Valid;
      ok := Allowed in m.passes;
      if ok {
        cipher := m.hello.cipher;
        ok := !resumed || Consistent in m.passes;
      }
      if ok { ok := conn.HashMessage(); }
      if ok { ok := Extensions in m.passes && NothingLeft in m.passes; }
      if ok { given, ticketExpected := m.hello, m.hello.ticket; }
    }

    predicate AcceptsParameters(m: Message)
      reads this`resumed
    {
      Allowed in m.passes && Extensions in m.passes && NothingLeft in m.passes && (resumed ==> Consistent in m.passes)
    }

    /** A ServerHello below TLS 1.3. */
    method TakeServerHello(m: Message) returns (ok: bool)
      requires conn.Valid() && conn.current == Some(m) && resumed == cfg.offered && !conn.failed
      requires m.kind == 2 && Parses in m.passes && Supported in m.passes && !m.hello.tls13
      modifies this`resumed, this`cipher, this`given, this`ticketExpected, conn`log, conn`failed, conn`current
      ensures conn.Valid() && old(conn.log) <= conn.log
      ensures ok ==> Fits(cfg, m, ReadServerHello, m) && !conn.failed && conn.current.None?
      ensures ok ==> conn.log == old(conn.log) + (if resumed then [] else [Passed(NewSession)]) + [Hashed(m)] + [Got(m)]
      ensures ok ==> resumed == Resumes(cfg, m) && cipher == m.hello.cipher && given == m.hello
                     && ticketExpected == m.hello.ticket
      ensures !ok ==> (conn.failed || !Fits(cfg, m, ReadServerHello, m)) && conn.current == Some(m)
                      && (resumed ==> old(resumed))
    {
      hide AllJustified, Connection.Valid;
      ok := !cfg.early;
      if ok { ok := SettleSession(m); }
      if ok { ok := TakeParameters(m); }
      if ok { conn.NextMessage(); }
    }

    /** On with the session that the ServerHello settled. */
    method FollowServerHello(m: Message) returns (ok: bool)
      requires state == ReadServerHello && OnCourse(Ok) && conn.current == Some(m)
      requires m.kind == 2 && Parses in m.passes && Supported in m.passes && !m.hello.tls13
      modifies this, conn
      ensures (if ok then OnCourse(Ok) else Broken()) && wait == old(wait) && old(conn.log) <= conn.log
      ensures conn.later == old(conn.later)
      ensures ok ==> state == (if resumed then ReadSessionTicket else ReadServerCertificate)
      ensures ok ==> resumed == Resumes(cfg, hello) && Got(hello) in conn.log
      ensures !ok ==> state == ReadServerHello
      ensures resumed ==> old(resumed)
    {
      hide AllJustified, Connection.Valid, Course;
      KnowsOpening(cfg, hello, Look());
      ok := TakeServerHello(m);
      if ok {
        hello := m;
        state := if resumed then ReadSessionTicket else ReadServerCertificate;
        assert OnCourse(Ok) by { AfterServerHello(cfg, old(hello), old(Look()), m); }
      }
    }

    /** The version that the ServerHello chooses decides who goes on. */
    method OnServerHello(m: Message) returns (ok: bool)
      requires state == ReadServerHello && OnCourse(Ok) && conn.current == Some(m)
      modifies this, conn
      ensures (if ok then OnCourse(Ok) else Broken()) && wait == old(wait) && old(conn.log) <= conn.log
      ensures conn.later == old(conn.later)
      ensures ok ==> state == Tls13 || state == (if resumed then ReadSessionTicket else ReadServerCertificate)
      ensures ok && state != Tls13 ==> resumed == Resumes(cfg, hello) && Got(hello) in conn.log
      ensures !ok ==> state == ReadServerHello
      ensures resumed ==> old(resumed)
    {
      hide AllJustified, Connection.Valid, Course;
      KnowsOpening(cfg, hello, Look());
      if m.kind != MT_SERVER_HELLO || Parses !in m.passes || Supported !in m.passes { return false; }
      if m.hello.tls13 {
        ToTls13(cfg, hello, Look());
        tls13, state := true, Tls13;
        return true;
      }
      ok := FollowServerHello(m);
    }

    /** do_read_server_hello; tls13_client_handshake takes over when TLS 1.3 was chosen. */
    method DoReadServerHello() returns (r: Wait)
      requires state == ReadServerHello && Sound(Ok)
      modifies this, conn
      ensures Sound(r) && Goes(r) && wait == old(wait) && (r.Ok? || r.AwaitServerHello? || r.Error?)
      ensures r.Ok? ==> Rank(state, resumed) < Rank(ReadServerHello, old(resumed))
      ensures r.Ok? ==> state == Tls13 || state == (if resumed then ReadSessionTicket else ReadServerCertificate)
      ensures r.Ok? && state != Tls13 ==> Got(hello) in conn.log && resumed == Resumes(cfg, hello)
      ensures resumed ==> old(resumed)
      ensures !r.Ok? ==> state == ReadServerHello
    {
      hide AllJustified, Connection.Valid, Course;
      KnowsOpening(cfg, hello, Look());
      var m := conn.GetMessage();
      if m.None? {
        assert OnCourse(AwaitServerHello) by { AnyWait(cfg, hello, Look(), Ok, AwaitServerHello); }
        return AwaitServerHello;
      }
      var taken := OnServerHello(m.value);
      return if taken then Ok else Error;
    }

    /** do_tls13. */
    method DoTls13() returns (r: Wait)
      requires state == Tls13 && Sound(Ok)
      modifies this, conn
      ensures Sound(r) && Goes(r) && wait == old(wait)
      ensures r.Ok? ==> Rank(state, resumed) < Rank(Tls13, old(resumed))
      ensures state == (if r.Ok? then FinishClientHandshake else Tls13)
    {
      hide AllJustified, Connection.Valid;
      r := *;
      if r.Ok? { state := FinishClientHandshake; }
    }

    /** A Certificate with a leaf that suits the cipher. */
    method TakeCertificate(m: Message) returns (ok: bool)
      requires state == ReadServerCertificate && OnCourse(Ok) && conn.current == Some(m) && cipher.certAuth
      modifies this`state, conn
      ensures (if ok then OnCourse(Ok) else Broken()) && old(conn.log) <= conn.log && conn.later == old(conn.later)
      ensures state == if ok then ReadCertificateStatus else ReadServerCertificate
    {
      hide AllJustified, Connection.Valid, Course;
      assert !tls13 && resumed == Resumes(cfg, hello) && cipher == hello.hello.cipher && given == hello.hello by {
        KnowsHello(cfg, hello, Look());
      }
      ok := m.kind == MT_CERTIFICATE;
      if ok { ok := conn.HashMessage(); }
      if ok { ok := Parses in m.passes && !m.empty && Leaf in m.passes; }
      if ok {
        conn.NextMessage();
        state := ReadCertificateStatus;
        assert OnCourse(Ok) by { AfterCertificate(cfg, hello, old(Look()), m); }
      }
    }

    /** do_read_server_certificate. */
    method DoReadServerCertificate() returns (r: Wait)
      requires state == ReadServerCertificate && Sound(Ok)
      modifies this, conn
      ensures Sound(r) && Goes(r) && wait == old(wait) && (r.Ok? || r.AwaitMessage? || r.Error?)
      ensures r.Ok? ==> Rank(state, resumed) < Rank(ReadServerCertificate, old(resumed))
      ensures state == (if r.Ok? then ReadCertificateStatus else ReadServerCertificate)
    {
      hide AllJustified, Connection.Valid, Course;
      assert !tls13 && resumed == Resumes(cfg, hello) && cipher == hello.hello.cipher && given == hello.hello by {
        KnowsHello(cfg, hello, Look());
      }
      if !cipher.certAuth {
        state := ReadCertificateStatus;
        assert OnCourse(Ok) by { NoCertificate(cfg, hello, old(Look())); }
        return Ok;
      }
      var m := conn.GetMessage();
      if m.None? {
        assert OnCourse(AwaitMessage) by { AnyWait(cfg, hello, Look(), Ok, AwaitMessage); }
        return AwaitMessage;
      }
      var taken := TakeCertificate(m.value);
      return if taken then Ok else Error;
    }

    /** A message is hashed, parsed, and what is in it kept. */
    method ParseAndStore(m: Message) returns (ok: bool)
      requires conn.Valid() && conn.current == Some(m)
      modifies conn`log, conn`failed
      ensures conn.Valid() && old(conn.log) <= conn.log && (conn.failed ==> old(conn.failed) || !ok)
      ensures ok ==> Parses in m.passes && conn.log == old(conn.log) + [Hashed(m)] + [Passed(Store)]
      ensures !ok ==> conn.failed || Parses !in m.passes
    {
      hide AllJustified, Connection.Valid;
      ok := conn.HashMessage();
      if ok { ok := Parses in m.passes; }
      if ok { ok := conn.Try(Store); }
    }

    /** A CertificateStatus with an OCSP response. */
    method TakeCertificateStatus(m: Message) returns (ok: bool)
      requires state == ReadCertificateStatus && OnCourse(Ok) && conn.current == Some(m) && given.status && m.kind == 22
      modifies this`state, conn
      ensures (if ok then OnCourse(Ok) else Broken()) && old(conn.log) <= conn.log && conn.later == old(conn.later)
      ensures state == if ok then VerifyServerCertificate else ReadCertificateStatus
    {
      hide AllJustified, Connection.Valid, Course;
      assert !tls13 && resumed == Resumes(cfg, hello) && cipher == hello.hello.cipher && given == hello.hello by {
        KnowsHello(cfg, hello, Look());
      }
      ok := ParseAndStore(m);
      if ok {
        conn.NextMessage();
        state := VerifyServerCertificate;
        assert OnCourse(Ok) by { AfterStatus(cfg, hello, old(Look()), m); }
      }
    }

    /** do_read_certificate_status. */
    method DoReadCertificateStatus() returns (r: Wait)
      requires state == ReadCertificateStatus && Sound(Ok)
      modifies this, conn
      ensures Sound(r) && Goes(r) && wait == old(wait) && (r.Ok? || r.AwaitMessage? || r.Error?)
      ensures r.Ok? ==> Rank(state, resumed) < Rank(ReadCertificateStatus, old(resumed))
      ensures state == (if r.Ok? then VerifyServerCertificate else ReadCertificateStatus)
    {
      hide AllJustified, Connection.Valid, Course;
      assert !tls13 && resumed == Resumes(cfg, hello) && cipher == hello.hello.cipher && given == hello.hello by {
        KnowsHello(cfg, hello, Look());
      }
      if !given.status {
        state := VerifyServerCertificate;
        assert OnCourse(Ok) by { NoStatus(cfg, hello, old(Look())); }
        return Ok;
      }
      var m := conn.GetMessage();
      if m.None? {
        assert OnCourse(AwaitMessage) by { AnyWait(cfg, hello, Look(), Ok, AwaitMessage); }
        return AwaitMessage;
      }
      if m.value.kind != MT_CERTIFICATE_STATUS {
        state := VerifyServerCertificate;
        assert OnCourse(Ok) by { NoStatus(cfg, hello, old(Look())); }
        return Ok;
      }
      var taken := TakeCertificateStatus(m.value);
      return if taken then Ok else Error;
    }

    /** do_verify_server_certificate. */
    method DoVerifyServerCertificate() returns (r: Wait)
      requires state == VerifyServerCertificate && Sound(Ok)
      modifies this, conn
      ensures Sound(r) && Goes(r) && wait == old(wait) && (r.Ok? || r.Callback? || r.Error?)
      ensures r.Ok? ==> Rank(state, resumed) < Rank(VerifyServerCertificate, old(resumed))
      ensures state == (if r.Ok? then ReadServerKeyExchange else VerifyServerCertificate)
      ensures r.Callback? ==> cipher.certAuth
    {
      hide AllJustified, Connection.Valid, Course, Fits;
      assert !tls13 && resumed == Resumes(cfg, hello) && cipher == hello.hello.cipher && given == hello.hello by {
        KnowsHello(cfg, hello, Look());
      }
      if !cipher.certAuth {
        state := ReadServerKeyExchange;
        assert OnCourse(Ok) by { NotVerified(cfg, hello, old(Look())); }
        return Ok;
      }
      var v := conn.VerifyPeerCert();
      if v.VerifyInvalid? { return Error; }
      if v.VerifyRetry? {
        assert OnCourse(Callback) by { AnyWait(cfg, hello, Look(), Ok, Callback); }
        return Callback;
      }
      state := ReadServerKeyExchange;
      assert OnCourse(Ok) by { AfterVerified(cfg, hello, old(Look())); }
      return Ok;
    }

    /** The identity hint and the group of a ServerKeyExchange. */
    method TakeKeyParameters(m: Message) returns (ok: bool)
      modifies this`keyShare
      ensures ok && cipher.kEcdhe ==> keyShare
      ensures ok ==> cipher.kEcdhe || cipher.kPsk
      ensures ok <==> (cipher.pskAuth ==> Identity in m.passes)
                                          && (if cipher.kEcdhe then Group in m.passes else cipher.kPsk)
    {
      if cipher.pskAuth && Identity !in m.passes { return false; }
      if cipher.kEcdhe {
        if Group !in m.passes { return false; }
        keyShare := true;
      } else if !cipher.kPsk {
        return false;
      }
      return true;
    }

    /** The signature of a ServerKeyExchange, or its end. */
    method CheckKeySignature(m: Message) returns (ok: bool)
      requires conn.Valid()
      modifies conn`log, conn`signatureOk, conn`failed
      ensures conn.Valid() && old(conn.log) <= conn.log && (conn.failed ==> old(conn.failed) || !ok)
      ensures ok ==> NothingLeft in m.passes && (cipher.certAuth ==> Algorithm in m.passes)
      ensures ok ==> conn.log == old(conn.log) + if cipher.certAuth then [SignatureVerified] else []
      ensures !ok ==> conn.failed || NothingLeft !in m.passes || (cipher.certAuth && Algorithm !in m.passes)
      ensures conn.signatureOk == (old(conn.signatureOk) || (ok && cipher.certAuth))
    {
      hide AllJustified, Connection.Valid;
      if cipher.certAuth {
        if Algorithm !in m.passes || NothingLeft !in m.passes { return false; }
        ok := conn.VerifySignature();
      } else {
        ok := NothingLeft in m.passes;
      }
    }

    /** The ServerKeyExchange has what the cipher needs. */
    predicate AcceptsKeys(m: Message)
      reads this`cipher
    {
      && (cipher.pskAuth ==> Identity in m.passes)
      && (if cipher.kEcdhe then Group in m.passes else cipher.kPsk)
      && (cipher.certAuth ==> Algorithm in m.passes) && NothingLeft in m.passes
    }

    method CheckKeyExchange(m: Message) returns (ok: bool)
      requires conn.Valid() && conn.current == Some(m)
      modifies this`keyShare, conn`log, conn`signatureOk, conn`failed
      ensures conn.Valid() && old(conn.log) <= conn.log && (conn.failed ==> old(conn.failed) || !ok)
      ensures ok ==> AcceptsKeys(m) && (cipher.kEcdhe ==> keyShare) && (cipher.certAuth ==> conn.signatureOk)
      ensures ok ==> conn.log == old(conn.log) + [Hashed(m)] + if cipher.certAuth then [SignatureVerified] else []
      ensures !ok ==> conn.failed || !AcceptsKeys(m)
    {
      hide AllJustified, Connection.Valid;
      ok := conn.HashMessage();
      if ok { ok := TakeKeyParameters(m); }
      if ok { ok := CheckKeySignature(m); }
    }

    /** A ServerKeyExchange, signed by the certified key if there is one. */
    method TakeServerKeyExchange(m: Message) returns (ok: bool)
      requires state == ReadServerKeyExchange && OnCourse(Ok) && conn.current == Some(m) && m.kind == 12
      modifies this`state, this`keyShare, conn
      ensures (if ok then OnCourse(Ok) else Broken()) && old(conn.log) <= conn.log && conn.later == old(conn.later)
      ensures state == if ok then ReadCertificateRequest else ReadServerKeyExchange
    {
      hide AllJustified, Connection.Valid, Course;
      assert !tls13 && resumed == Resumes(cfg, hello) && cipher == hello.hello.cipher && given == hello.hello by {
        KnowsHello(cfg, hello, Look());
      }
      ok := CheckKeyExchange(m);
      if ok {
        conn.NextMessage();
        state := ReadCertificateRequest;
        assert OnCourse(Ok) by { AfterKeyExchange(cfg, hello, old(Look()), m, keyShare); }
      }
    }

    /** do_read_server_key_exchange. */
    method DoReadServerKeyExchange() returns (r: Wait)
      requires state == ReadServerKeyExchange && Sound(Ok)
      modifies this, conn
      ensures Sound(r) && Goes(r) && wait == old(wait) && (r.Ok? || r.AwaitMessage? || r.Error?)
      ensures r.Ok? ==> Rank(state, resumed) < Rank(ReadServerKeyExchange, old(resumed))
      ensures state == (if r.Ok? then ReadCertificateRequest else ReadServerKeyExchange)
    {
      hide AllJustified, Connection.Valid, Course;
      assert !tls13 && resumed == Resumes(cfg, hello) && cipher == hello.hello.cipher && given == hello.hello by {
        KnowsHello(cfg, hello, Look());
      }
      var m := conn.GetMessage();
      if m.None? {
        assert OnCourse(AwaitMessage) by { AnyWait(cfg, hello, Look(), Ok, AwaitMessage); }
        return AwaitMessage;
      }
      if m.value.kind != MT_SERVER_KEY_EXCHANGE {
        if cipher.kEcdhe { return Error; }
        state := ReadCertificateRequest;
        assert OnCourse(Ok) by { NoKeyExchange(cfg, hello, old(Look())); }
        return Ok;
      }
      var taken := TakeServerKeyExchange(m.value);
      return if taken then Ok else Error;
    }

    /** A CertificateRequest. */
    method TakeCertificateRequest(m: Message) returns (ok: bool)
      requires state == ReadCertificateRequest && OnCourse(Ok) && conn.current == Some(m) && cipher.certAuth && m.kind != 14
      modifies this`state, this`certRequest, conn
      ensures (if ok then OnCourse(Ok) else Broken()) && old(conn.log) <= conn.log && conn.later == old(conn.later)
      ensures state == if ok then ReadServerHelloDone else ReadCertificateRequest
    {
      hide AllJustified, Connection.Valid, Course;
      assert !tls13 && resumed == Resumes(cfg, hello) && cipher == hello.hello.cipher && given == hello.hello by {
        KnowsHello(cfg, hello, Look());
      }
      ok := m.kind == MT_CERTIFICATE_REQUEST;
      if ok { ok := ParseAndStore(m); }
      if ok {
        conn.NextMessage();
        certRequest := true;
        state := ReadServerHelloDone;
        assert OnCourse(Ok) by { AfterRequest(cfg, hello, old(Look()), m); }
      }
    }

    /** do_read_certificate_request. */
    method DoReadCertificateRequest() returns (r: Wait)
      requires state == ReadCertificateRequest && Sound(Ok)
      modifies this, conn
      ensures Sound(r) && Goes(r) && wait == old(wait) && (r.Ok? || r.AwaitMessage? || r.Error?)
      ensures r.Ok? ==> Rank(state, resumed) < Rank(ReadCertificateRequest, old(resumed))
      ensures state == (if r.Ok? then ReadServerHelloDone else ReadCertificateRequest)
    {
      hide AllJustified, Connection.Valid, Course;
      assert !tls13 && resumed == Resumes(cfg, hello) && cipher == hello.hello.cipher && given == hello.hello by {
        KnowsHello(cfg, hello, Look());
      }
      if !cipher.certAuth {
        state := ReadServerHelloDone;
        assert OnCourse(Ok) by { NoRequest(cfg, hello, old(Look())); }
        return Ok;
      }
      var m := conn.GetMessage();
      if m.None? {
        assert OnCourse(AwaitMessage) by { AnyWait(cfg, hello, Look(), Ok, AwaitMessage); }
        return AwaitMessage;
      }
      if m.value.kind == MT_SERVER_HELLO_DONE {
        state := ReadServerHelloDone;
        assert OnCourse(Ok) by { NoRequest(cfg, hello, old(Look())); }
        return Ok;
      }
      var taken := TakeCertificateRequest(m.value);
      return if taken then Ok else Error;
    }

    /** A ServerHelloDone, which is empty. */
    method TakeServerHelloDone(m: Message) returns (ok: bool)
      requires state == ReadServerHelloDone && OnCourse(Ok) && conn.current == Some(m)
      modifies this`state, conn
      ensures (if ok then OnCourse(Ok) else Broken()) && old(conn.log) <= conn.log && conn.later == old(conn.later)
      ensures state == if ok then SendClientCertificate else ReadServerHelloDone
    {
      hide AllJustified, Connection.Valid, Course;
      assert !tls13 && resumed == Resumes(cfg, hello) && cipher == hello.hello.cipher && given == hello.hello by {
        KnowsHello(cfg, hello, Look());
      }
      ok := m.kind == MT_SERVER_HELLO_DONE;
      if ok { ok := conn.HashMessage(); }
      if ok { ok := Parses in m.passes; }
      if ok {
        conn.NextMessage();
        state := SendClientCertificate;
        assert OnCourse(Ok) by { AfterHelloDone(cfg, hello, old(Look()), m); }
      }
    }

    /** do_read_server_hello_done. */
    method DoReadServerHelloDone() returns (r: Wait)
      requires state == ReadServerHelloDone && Sound(Ok)
      modifies this, conn
      ensures Sound(r) && Goes(r) && wait == old(wait) && (r.Ok? || r.AwaitMessage? || r.Error?)
      ensures r.Ok? ==> Rank(state, resumed) < Rank(ReadServerHelloDone, old(resumed))
      ensures state == (if r.Ok? then SendClientCertificate else ReadServerHelloDone)
    {
      hide AllJustified, Connection.Valid, Course;
      assert !tls13 && resumed == Resumes(cfg, hello) && cipher == hello.hello.cipher && given == hello.hello by {
        KnowsHello(cfg, hello, Look());
      }
      var m := conn.GetMessage();
      if m.None? {
        assert OnCourse(AwaitMessage) by { AnyWait(cfg, hello, Look(), Ok, AwaitMessage); }
        return AwaitMessage;
      }
      var taken := TakeServerHelloDone(m.value);
      return if taken then Ok else Error;
    }

    /** The client's certificate, if it has one; SSL 3.0 has an alert instead of an empty Certificate. */
    method SendOwnCertificate() returns (ok: bool)
      requires state == SendClientCertificate && OnCourse(Ok) && certRequest
      modifies this`state, this`certificate, conn
      ensures (if ok then OnCourse(Ok) else Broken()) && old(conn.log) <= conn.log && conn.later == old(conn.later)
      ensures state == if ok then SendClientKeyExchange else SendClientCertificate
    {
      hide AllJustified, Connection.Valid, Course, Fits;
      assert !tls13 && resumed == Resumes(cfg, hello) && cipher == hello.hello.cipher && given == hello.hello by {
        KnowsHello(cfg, hello, Look());
      }
      certificate := conn.Choose();
      ok := conn.Send(if !certificate && given.ssl3 then SentNoCertificate else SentCertificate(!certificate));
      if ok {
        state := SendClientKeyExchange;
        assert OnCourse(Ok) by { AfterOwnCertificate(cfg, hello, old(Look()), certificate); }
      }
    }

    /** do_send_client_certificate. */
    method DoSendClientCertificate() returns (r: Wait)
      requires state == SendClientCertificate && Sound(Ok)
      modifies this, conn
      ensures Sound(r) && Goes(r) && wait == old(wait) && (r.Ok? || r.Callback? || r.Error?)
      ensures r.Ok? ==> Rank(state, resumed) < Rank(SendClientCertificate, old(resumed))
      ensures state == (if r.Ok? then SendClientKeyExchange else SendClientCertificate)
      ensures r.Callback? ==> certRequest
    {
      hide AllJustified, Connection.Valid, Course, Fits;
      assert !tls13 && resumed == Resumes(cfg, hello) && cipher == hello.hello.cipher && given == hello.hello by {
        KnowsHello(cfg, hello, Look());
      }
      if !certRequest {
        state := SendClientKeyExchange;
        assert OnCourse(Ok) by { NoOwnCertificate(cfg, hello, old(Look())); }
        return Ok;
      }
      var answer := conn.Ask();
      if answer.No? { return Error; }
      if answer.Later? {
        assert OnCourse(Callback) by { AnyWait(cfg, hello, Look(), Ok, Callback); }
        return Callback;
      }
      var sent := SendOwnCertificate();
      return if sent then Ok else Error;
    }

    /** A certificate cipher with an ephemeral key has had its chain and its signature verified. */
    ghost predicate Sealed()
      reads this`cipher, conn`chainOk, conn`signatureOk
    {
      cipher.certAuth && cipher.kEcdhe ==> conn.chainOk && conn.signatureOk
    }

    /** The secret of the key exchange that the cipher names. */
    method AgreeKeys() returns (ok: bool)
      requires conn.Valid() && (cipher.kEcdhe ==> keyShare)
      modifies this`keyShare, conn`log, conn`failed
      ensures conn.Valid() && old(conn.log) <= conn.log && (conn.failed ==> old(conn.failed) || !ok)
      ensures ok ==> Exchanges()
      ensures ok ==> conn.log == old(conn.log) + if cipher.kRsa then [Passed(Encrypt)] else if cipher.kEcdhe then [Passed(Agree)] else []
      ensures !ok ==> conn.failed || !Exchanges()
    {
      hide AllJustified, Connection.Valid;
      if cipher.kRsa {
        ok := conn.Try(Encrypt);
      } else if cipher.kEcdhe {
        ok := conn.Try(Agree);
        if ok { keyShare := false; }
      } else {
        ok := cipher.kPsk;
      }
    }

    /** The premaster secret, ClientKeyExchange and master secret. */
    method MakePremaster() returns (ok: bool)
      requires conn.Valid() && Sealed() && (cipher.kEcdhe ==> keyShare)
      modifies this`keyShare, conn`log, conn`failed
      ensures conn.Valid() && old(conn.log) <= conn.log && (conn.failed ==> old(conn.failed) || !ok)
      ensures ok ==> Exchanges() && conn.log == old(conn.log) + ExchangeEvents(cipher)
      ensures !ok ==> conn.failed || !Exchanges()
    {
      hide AllJustified, Connection.Valid;
      ok := true;
      if cipher.pskAuth { ok := conn.Try(Psk); }
      if ok { ok := AgreeKeys(); }
      if ok { ok := SendPremaster(); }
    }

    /** ClientKeyExchange and master secret. */
    method SendPremaster() returns (ok: bool)
      requires conn.Valid() && Sealed()
      modifies conn`log, conn`failed
      ensures conn.Valid() && old(conn.log) <= conn.log && (if ok then conn.failed == old(conn.failed) else conn.failed)
      ensures ok ==> conn.log == old(conn.log) + [Premaster(cipher.certAuth && cipher.kEcdhe), Sent(16), Passed(Derive)]
    {
      hide AllJustified, Connection.Valid;
      conn.ComputePremaster(cipher.certAuth && cipher.kEcdhe);
      ok := conn.Send(Sent(16));
      if ok { ok := conn.Try(Derive); }
    }

    /** do_send_client_key_exchange. */
    method DoSendClientKeyExchange() returns (r: Wait)
      requires state == SendClientKeyExchange && Sound(Ok)
      modifies this, conn
      ensures Sound(r) && Goes(r) && wait == old(wait) && (r.Ok? || r.Error?)
      ensures r.Ok? ==> Rank(state, resumed) < Rank(SendClientKeyExchange, old(resumed))
      ensures state == (if r.Ok? then SendClientCertificateVerify else SendClientKeyExchange)
    {
      hide AllJustified, Connection.Valid, Course, Fits, ExchangeEvents;
      Flags();
      assert !tls13 && resumed == Resumes(cfg, hello) && cipher == hello.hello.cipher && given == hello.hello by {
        KnowsHello(cfg, hello, Look());
      }
      KnowsKeys(cfg, hello, Look());
      var made := MakePremaster();
      if !made { return Error; }
      state := SendClientCertificateVerify;
      assert OnCourse(Ok) by { AfterOwnKeys(cfg, hello, old(Look()), keyShare); }
      return Ok;
    }

    /** do_send_client_certificate_verify. */
    method DoSendClientCertificateVerify() returns (r: Wait)
      requires state == SendClientCertificateVerify && Sound(Ok)
      modifies this, conn
      ensures Sound(r) && Goes(r) && wait == old(wait) && (r.Ok? || r.Callback? || r.Error?)
      ensures r.Ok? ==> Rank(state, resumed) < Rank(SendClientCertificateVerify, old(resumed))
      ensures state == (if r.Ok? then SendClientFinished else SendClientCertificateVerify)
      ensures r.Callback? ==> certRequest && certificate
    {
      hide AllJustified, Connection.Valid, Course, Fits;
      assert !tls13 && resumed == Resumes(cfg, hello) && cipher == hello.hello.cipher && given == hello.hello by {
        KnowsHello(cfg, hello, Look());
      }
      if !certRequest || !certificate {
        state := SendClientFinished;
        assert OnCourse(Ok) by { NoProof(cfg, hello, old(Look())); }
        return Ok;
      }
      var answer := conn.Ask();
      if answer.No? { return Error; }
      if answer.Later? {
        assert OnCourse(Callback) by { AnyWait(cfg, hello, Look(), Ok, Callback); }
        return Callback;
      }
      var sent := conn.Send(Sent(15));
      if !sent { return Error; }
      state := SendClientFinished;
      assert OnCourse(Ok) by { AfterProof(cfg, hello, old(Look())); }
      return Ok;
    }

    /** ChangeCipherSpec and the new write cipher. */
    method SwitchWrite() returns (ok: bool)
      requires conn.Valid()
      modifies conn`log, conn`failed
      ensures conn.Valid() && old(conn.log) <= conn.log && (if ok then conn.failed == old(conn.failed) else conn.failed)
      ensures ok ==> conn.log == old(conn.log) + [SentCcs] + [WriteSwitched]
    {
      hide AllJustified, Connection.Valid;
      ok := conn.Send(SentCcs);
      if ok { ok := conn.Send(WriteSwitched); }
    }

    /** The messages that extensions put before the Finished. */
    method SendExtras() returns (ok: bool)
      requires conn.Valid()
      modifies conn`log, conn`failed
      ensures conn.Valid() && old(conn.log) <= conn.log && (if ok then conn.failed == old(conn.failed) else conn.failed)
      ensures ok ==> conn.log == old(conn.log) + (if given.nextProto then [Sent(67)] else []) + if given.channelId then [Sent(203)] else []
    {
      hide AllJustified, Connection.Valid;
      ok := true;
      if given.nextProto { ok := conn.Send(Sent(67)); }
      if ok && given.channelId { ok := conn.Send(Sent(203)); }
    }

    /** ChangeCipherSpec, the new write cipher, and what is sent under it. */
    method SendSecondFlight() returns (ok: bool)
      requires conn.Valid()
      modifies conn`log, conn`failed
      ensures conn.Valid() && old(conn.log) <= conn.log && (if ok then conn.failed == old(conn.failed) else conn.failed)
      ensures ok ==> conn.log == old(conn.log) + SecondFlight(given)
    {
      hide AllJustified, Connection.Valid;
      ok := SwitchWrite();
      if ok { ok := SendExtras(); }
      if ok { ok := conn.Send(Sent(20)); }
    }

    /** do_send_client_finished. */
    method DoSendClientFinished() returns (r: Wait)
      requires state == SendClientFinished && Sound(Ok)
      modifies this, conn
      ensures Sound(r) && Goes(r) && wait == old(wait) && (r.Flush? || r.Callback? || r.Error?)
      ensures r.Ok? ==> Rank(state, resumed) < Rank(SendClientFinished, old(resumed))
      ensures state == (if r.Flush? then FinishFlight else SendClientFinished)
      ensures r.Callback? ==> given.channelId
    {
      hide AllJustified, Connection.Valid, Course, Fits, SecondFlight;
      assert !tls13 && resumed == Resumes(cfg, hello) && cipher == hello.hello.cipher && given == hello.hello by {
        KnowsHello(cfg, hello, Look());
      }
      if given.channelId {
        var answer := conn.Ask();
        if answer.No? { return Error; }
        if answer.Later? {
          assert OnCourse(Callback) by { AnyWait(cfg, hello, Look(), Ok, Callback); }
          return Callback;
        }
      }
      var sent := SendSecondFlight();
      if !sent { return Error; }
      state := FinishFlight;
      assert OnCourse(Flush) by { AfterSecondFlight(cfg, hello, old(Look())); }
      return Flush;
    }

    /** A full handshake records the hashes that a later resumption may need for a channel ID. */
    method FinishFull() returns (ok: bool)
      requires state == FinishFlight && OnCourse(Ok) && !resumed
      modifies this`state, conn
      ensures (if ok then OnCourse(Ok) else Broken()) && old(conn.log) <= conn.log && conn.later == old(conn.later)
      ensures state == if ok then ReadSessionTicket else FinishFlight
    {
      hide AllJustified, Connection.Valid, Course, Fits;
      ok := conn.Try(Record);
      if ok {
        state := ReadSessionTicket;
        assert OnCourse(Ok) by { AfterRecorded(cfg, hello, old(Look())); }
      }
    }

    /** do_finish_flight. */
    method DoFinishFlight() returns (r: Wait)
      requires state == FinishFlight && Sound(Ok)
      modifies this, conn
      ensures Sound(r) && Goes(r) && wait == old(wait) && (r.Ok? || r.EarlyReturn? || r.Error?)
      ensures r.Ok? ==> Rank(state, resumed) < Rank(FinishFlight, old(resumed))
      ensures state == (if r.Error? then FinishFlight else if resumed then FinishClientHandshake else ReadSessionTicket)
      ensures r.EarlyReturn? ==> !resumed
    {
      hide AllJustified, Connection.Valid, Course, Fits;
      if resumed {
        state := FinishClientHandshake;
        assert OnCourse(Ok) by { AfterResumption(cfg, hello, old(Look())); }
        return Ok;
      }
      var finished := FinishFull();
      if !finished { return Error; }
      var falseStart := conn.Choose();
      assert OnCourse(EarlyReturn) by { AnyWait(cfg, hello, Look(), Ok, EarlyReturn); }
      return if falseStart then EarlyReturn else Ok;
    }

    /** A NewSessionTicket; an empty one takes the promise of a ticket back. */
    method TakeTicket(m: Message) returns (ok: bool)
      requires state == ReadSessionTicket && OnCourse(Ok) && conn.current == Some(m) && ticketExpected
      modifies this`state, this`ticketExpected, conn
      ensures (if ok then OnCourse(AwaitCcs) else Broken()) && old(conn.log) <= conn.log && conn.later == old(conn.later)
      ensures state == if ok then ProcessChangeCipherSpec else ReadSessionTicket
      ensures ok ==> ticketExpected == !m.empty
    {
      hide AllJustified, Connection.Valid, Course;
      assert !tls13 && resumed == Resumes(cfg, hello) && cipher == hello.hello.cipher && given == hello.hello by {
        KnowsHello(cfg, hello, Look());
      }
      KnowsTicket(cfg, hello, Look());
      ok := m.kind == MT_NEW_SESSION_TICKET;
      if ok { ok := KeepTicket(m); }
      if ok {
        if m.empty { ticketExpected := false; }
        conn.NextMessage();
        state := ProcessChangeCipherSpec;
        assert OnCourse(AwaitCcs) by { AfterNewTicket(cfg, hello, old(Look()), m); }
      }
    }

    method KeepTicket(m: Message) returns (ok: bool)
      requires conn.Valid() && conn.current == Some(m)
      modifies conn`log, conn`failed
      ensures conn.Valid() && old(conn.log) <= conn.log && (conn.failed ==> old(conn.failed) || !ok)
      ensures ok ==> Parses in m.passes && conn.log == old(conn.log) + [Hashed(m)] + if m.empty then [] else [Passed(Store)]
      ensures !ok ==> conn.failed || Parses !in m.passes
    {
      hide AllJustified, Connection.Valid;
      ok := conn.HashMessage();
      if ok { ok := Parses in m.passes; }
      if ok && !m.empty { ok := conn.Try(Store); }
    }

    /** do_read_session_ticket. */
    method DoReadSessionTicket() returns (r: Wait)
      requires state == ReadSessionTicket && Sound(Ok)
      modifies this, conn
      ensures Sound(r) && Goes(r) && wait == old(wait) && (r.AwaitCcs? || r.AwaitMessage? || r.Error?)
      ensures r.Ok? ==> Rank(state, resumed) < Rank(ReadSessionTicket, old(resumed))
      ensures state == (if r.AwaitCcs? then ProcessChangeCipherSpec else ReadSessionTicket)
    {
      hide AllJustified, Connection.Valid, Course;
      assert !tls13 && resumed == Resumes(cfg, hello) && cipher == hello.hello.cipher && given == hello.hello by {
        KnowsHello(cfg, hello, Look());
      }
      KnowsTicket(cfg, hello, Look());
      if !ticketExpected {
        state := ProcessChangeCipherSpec;
        assert OnCourse(AwaitCcs) by { NoTicket(cfg, hello, old(Look())); }
        return AwaitCcs;
      }
      var m := conn.GetMessage();
      if m.None? {
        assert OnCourse(AwaitMessage) by { AnyWait(cfg, hello, Look(), Ok, AwaitMessage); }
        return AwaitMessage;
      }
      var taken := TakeTicket(m.value);
      return if taken then AwaitCcs else Error;
    }

    /** do_process_change_cipher_spec. */
    method DoProcessChangeCipherSpec() returns (r: Wait)
      requires state == ProcessChangeCipherSpec && Sound(Ok)
      modifies this, conn
      ensures Sound(r) && Goes(r) && wait == old(wait) && (r.Ok? || r.Error?)
      ensures r.Ok? ==> Rank(state, resumed) < Rank(ProcessChangeCipherSpec, old(resumed))
      ensures state == (if r.Ok? then ReadServerFinished else ProcessChangeCipherSpec)
    {
      hide AllJustified, Connection.Valid, Course, Fits;
      Flags();
      KnowsCcs(cfg, hello, Look());
      var switched := conn.SwitchRead();
      if !switched { return Error; }
      state := ReadServerFinished;
      assert OnCourse(Ok) by { AfterSwitch(cfg, hello, old(Look())); }
      return Ok;
    }

    /** do_read_server_finished. */
    method DoReadServerFinished() returns (r: Wait)
      requires state == ReadServerFinished && Sound(Ok)
      modifies this, conn
      ensures Sound(r) && Goes(r) && wait == old(wait) && (r.Ok? || r.AwaitMessage? || r.Error?)
      ensures r.Ok? ==> Rank(state, resumed) < Rank(ReadServerFinished, old(resumed))
      ensures state == (if !r.Ok? then ReadServerFinished else if resumed then SendClientFinished else FinishClientHandshake)
    {
      hide AllJustified, Connection.Valid, Course, FinishedEvents;
      Flags();
      assert !tls13 && resumed == Resumes(cfg, hello) && cipher == hello.hello.cipher && given == hello.hello by {
        KnowsHello(cfg, hello, Look());
      }
      KnowsCcs(cfg, hello, Look());
      r := conn.GetFinished(given.ssl3);
      if r.AwaitMessage? { assert OnCourse(AwaitMessage) by { AnyWait(cfg, hello, Look(), Ok, AwaitMessage); } }
      if !r.Ok? { return; }
      state := if resumed then SendClientFinished else FinishClientHandshake;
      assert OnCourse(Ok) by { AfterFinished(cfg, hello, old(Look()), LastTaken(conn.log, 20).value); }
    }

    /** do_finish_client_handshake. */
    method DoFinishClientHandshake() returns (r: Wait)
      requires state == FinishClientHandshake && Sound(Ok)
      modifies this, conn
      ensures Sound(r) && Goes(r) && wait == old(wait) && (r.Ok? || r.Error?)
      ensures r.Ok? ==> Rank(state, resumed) < Rank(FinishClientHandshake, old(resumed))
      ensures state == (if r.Ok? then Done else FinishClientHandshake)
    {
      hide AllJustified, Connection.Valid, Course, Fits;
      Flags();
      KnowsEnd(cfg, hello, Look());
      if !resumed {
        var copied := conn.Try(Copy);
        if !copied { return Error; }
      }
      conn.Establish(tls13, VerifiedPeer());
      assert old(conn.log) + [] == old(conn.log);
      state := Done;
      assert OnCourse(Ok) by { AfterEstablished(cfg, hello, old(Look())); }
      return Ok;
    }

    /** The switch of ssl_client_handshake: the state's own function. */
    method RunState() returns (r: Wait)
      requires state != Done && Sound(Ok)
      modifies this, conn
      ensures Sound(r) && Goes(r) && wait == old(wait)
      ensures r.Ok? ==> Rank(state, resumed) < old(Rank(state, resumed))
    {
      hide AllJustified, Connection.Valid, OnCourse, Broken, Fits, Reached;
      match state {
      case StartConnect => r := DoStartConnect();
      case EnterEarlyData => r := DoEnterEarlyData();
      case ReadHelloVerifyRequest => r := DoReadHelloVerifyRequest();
      case ReadServerHello => r := DoReadServerHello();
      case Tls13 => r := DoTls13();
      case ReadServerCertificate => r := DoReadServerCertificate();
      case ReadCertificateStatus => r := DoReadCertificateStatus();
      case VerifyServerCertificate => r := DoVerifyServerCertificate();
      case ReadServerKeyExchange => r := DoReadServerKeyExchange();
      case ReadCertificateRequest => r := DoReadCertificateRequest();
      case ReadServerHelloDone => r := DoReadServerHelloDone();
      case SendClientCertificate => r := DoSendClientCertificate();
      case SendClientKeyExchange => r := DoSendClientKeyExchange();
      case SendClientCertificateVerify => r := DoSendClientCertificateVerify();
      case SendClientFinished => r := DoSendClientFinished();
      case FinishFlight => r := DoFinishFlight();
      case ReadSessionTicket => r := DoReadSessionTicket();
      case ProcessChangeCipherSpec => r := DoProcessChangeCipherSpec();
      case ReadServerFinished => r := DoReadServerFinished();
      case FinishClientHandshake => r := DoFinishClientHandshake();
      }
    }

    /** ssl_client_handshake: states run until one has to wait. */
    method Handshake() returns (r: Wait)
      requires Sound(Ok)
      modifies this, conn
      ensures Sound(r) && wait == old(wait) && old(conn.log) <= conn.log
      ensures r.Ok? ==> state == Done && Established(tls13, VerifiedPeer()) in conn.log
      ensures r.Error? ==> Broken()
      ensures !tls13 && (r.AwaitMessage? || r.AwaitServerHello?) ==> conn.current.None?
      ensures !tls13 && r.Callback? ==> conn.later > old(conn.later)
    {
      hide AllJustified, Connection.Valid, Course, Broken;
      r := Ok;
      while state != Done
        invariant Sound(Ok) && wait == old(wait) && r == Ok
        invariant old(conn.log) <= conn.log && conn.later >= old(conn.later)
        decreases Rank(state, resumed)
      {
        r := RunState();
        if !r.Ok? { return; }
      }
      KnowsEnd(cfg, hello, Look());
    }

    /** What was waited for has come, or the caller has to return first. */
    method ResolveWait() returns (run: bool)
      requires Valid()
      modifies this`wait, conn`log, conn`ccsSeen
      ensures Valid() && (run ==> Sound(Ok)) && old(conn.log) <= conn.log
      ensures old(wait).Error? ==> !run && wait == Error && conn.log == old(conn.log)
      ensures wait.Error? ==> old(wait).Error?
    {
      hide AllJustified, Connection.Valid, Course, Fits;
      if !wait.AwaitCcs? { AnyWait(cfg, hello, Look(), wait, Ok); }
      run, wait := conn.Resolve(wait);
      if run && wait.AwaitCcs? {
        wait := Ok;
        assert OnCourse(Ok) by { AfterCcs(cfg, hello, old(Look())); }
      }
    }

    /** One round of ssl_run_handshake: resolve the wait, then run the states. True when the handshake is over. */
    method RunOnce() returns (finished: bool)
      requires Valid()
      modifies this, conn
      ensures Valid() && old(conn.log) <= conn.log
      ensures finished ==> state == Done && Established(tls13, VerifiedPeer()) in conn.log
      ensures old(wait).Error? ==> !finished && wait == Error && state == old(state) && conn.log == old(conn.log)
      ensures wait.Error? ==> Broken()
    {
      hide AllJustified, Connection.Valid, Course;
      var run := ResolveWait();
      if !run { return false; }
      wait := Handshake();
      finished := wait.Ok?;
    }

    /** A client that is done below TLS 1.3: the ServerHello it took, the only one, and after it, in this order, the
        server's ChangeCipherSpec, the switch of the read cipher, the matching Finished and the session. In a full
        handshake with a certificate cipher the chain was verified before, and with an ephemeral key the signature. */
    lemma DoneIsSafe() returns (g: nat, ccs: nat, switch: nat, finished: nat, k: nat)
      requires Valid() && state == Done && !tls13
      ensures g < ccs < switch < finished < k < |conn.log|
      ensures conn.log[ccs] == CcsReceived && conn.log[switch] == ReadSwitched && conn.log[finished] == FinishedMatched
      ensures conn.log[k] == Established(false, VerifiedPeer())
      ensures conn.log[g] == Got(hello) && hello.kind == 2
      ensures forall j :: 0 <= j < |conn.log| && conn.log[j].Got? && conn.log[j].m.kind == 2 ==> j == g
      ensures resumed <==> cfg.offered && hello.hello.sameId
      ensures !resumed && hello.hello.cipher.certAuth ==> VerifiedBetween(conn.log, ChainVerified, g, ccs)
      ensures !resumed && hello.hello.cipher.certAuth && hello.hello.cipher.kEcdhe
          ==> VerifiedBetween(conn.log, SignatureVerified, g, ccs)
      ensures !resumed && cipher.certAuth && cipher.kEcdhe ==> ChainVerified in conn.log[..k]
                                                               && SignatureVerified in conn.log[..k]
    {
      hide AllJustified, Connection.Valid, Course, Reached, Fits;
      var h, log := hello, conn.log;
      KnowsDone(cfg, h, Look(), wait);
      g, ccs, finished := DoneMeans(cfg, h, log);
      switch, k := ccs + 1, |log| - 1;
      BetweenIsIn(log, ChainVerified, g, ccs, k);
      BetweenIsIn(log, SignatureVerified, g, ccs, k);
    }
  }
}
