/** The course of a client handshake of TLS 1.2 and below: which messages and steps come in which order (RFC 5246,
    section 7.3), what each state of the state machine means in terms of this course, and what a finished one proves. */
module ClientCourse {
  import opened Bits
  import opened Handshake

  datatype State =
    | StartConnect
    | EnterEarlyData
    | ReadHelloVerifyRequest
    | ReadServerHello
    | Tls13
    | ReadServerCertificate
    | ReadCertificateStatus
    | VerifyServerCertificate
    | ReadServerKeyExchange
    | ReadCertificateRequest
    | ReadServerHelloDone
    | SendClientCertificate
    | SendClientKeyExchange
    | SendClientCertificateVerify
    | SendClientFinished
    | FinishFlight
    | ReadSessionTicket
    | ProcessChangeCipherSpec
    | ReadServerFinished
    | FinishClientHandshake
    | Done

  /** How far a state is from the end; the order of the last states depends on resumption. */
  function Rank(s: State, resumed: bool): (r: nat)
    ensures r <= 20
  {
    match s
    case StartConnect => 20
    case EnterEarlyData => 19
    case ReadHelloVerifyRequest => 18
    case ReadServerHello => 17
    case Tls13 => 16
    case ReadServerCertificate => 15
    case ReadCertificateStatus => 14
    case VerifyServerCertificate => 13
    case ReadServerKeyExchange => 12
    case ReadCertificateRequest => 11
    case ReadServerHelloDone => 10
    case SendClientCertificate => 9
    case SendClientKeyExchange => 8
    case SendClientCertificateVerify => 7
    case SendClientFinished => if resumed then 3 else 6
    case FinishFlight => if resumed then 2 else 5
    case ReadSessionTicket => if resumed then 6 else 4
    case ProcessChangeCipherSpec => if resumed then 5 else 3
    case ReadServerFinished => if resumed then 4 else 2
    case FinishClientHandshake => 1
    case Done => 0
  }

  // ---- The course of a handshake ----

  /** The transport, whether a session is offered for resumption, and whether early data is. */
  datatype Config = Config(dtls: bool, offered: bool, early: bool)

  /** The server resumes the session that was offered. */
  predicate Resumes(c: Config, h: Message) { c.offered && h.hello.sameId }

  /** A full handshake whose cipher has the server prove possession of its certified key. */
  predicate Proves(c: Config, h: Message) { !Resumes(c, h) && h.hello.cipher.certAuth && h.hello.cipher.kEcdhe }

  /** The message m is one that state s goes on with, after the ServerHello h: of the type that is due (RFC 5246,
      section 7.3, with the numbers of section 7.4) and with all tests passed that are made of it. */
  predicate Fits(c: Config, h: Message, s: State, m: Message)
  {
    var cipher := h.hello.cipher;
    match s
    case ReadHelloVerifyRequest => m.kind == 3 ==> Parses in m.passes
    case ReadServerHello =>
      && m.kind == 2 && Parses in m.passes && Supported in m.passes
      && (!m.hello.tls13 ==>
            && !c.early && Allowed in m.passes && Extensions in m.passes && NothingLeft in m.passes
            && if Resumes(c, m) then Consistent in m.passes else NoEcho in m.passes)
    case ReadServerCertificate => cipher.certAuth ==> m.kind == 11 && Parses in m.passes && Leaf in m.passes && !m.empty
    case ReadCertificateStatus => h.hello.status && m.kind == 22 ==> Parses in m.passes
    case ReadServerKeyExchange =>
      if m.kind != 12 then !cipher.kEcdhe
      else
        && (cipher.pskAuth ==> Identity in m.passes)
        && (if cipher.kEcdhe then Group in m.passes else cipher.kPsk)
        && (cipher.certAuth ==> Algorithm in m.passes) && NothingLeft in m.passes
    case ReadCertificateRequest => cipher.certAuth ==> m.kind == 14 || (m.kind == 13 && Parses in m.passes)
    case ReadServerHelloDone => m.kind == 14 && Parses in m.passes
    case ReadSessionTicket => h.hello.ticket ==> m.kind == 4 && Parses in m.passes
    case ReadServerFinished => m.kind == 20 && Matches in m.passes
    case _ => true
  }

  /** ClientHello, in DTLS perhaps a HelloVerifyRequest and a second ClientHello. */
  predicate Opening(c: Config, log: seq<Event>)
  {
    if !c.dtls then log == [Sent(1)] + if c.early then [Passed(EarlyKeys)] else []
    else
      || log == [Sent(1)]
      || (|log| == 4 && log[1].Got? && log[1].m.kind == 3 && Parses in log[1].m.passes
          && log == [Sent(1), log[1], Passed(HashReset), Sent(1)])
  }

  /** The opening and the ServerHello h. */
  predicate Greeted(c: Config, h: Message, log: seq<Event>)
  {
    var tail := (if Resumes(c, h) then [] else [Passed(NewSession)]) + [Hashed(h), Got(h)];
    Fits(c, h, ReadServerHello, h) && !h.hello.tls13 && Ends(log, tail) && Opening(c, Front(log, |tail|))
  }

  predicate Requested(log: seq<Event>) { exists k :: 0 <= k < |log| && log[k].Got? && log[k].m.kind == 13 }

  /** The client's ChangeCipherSpec and what it sends under the new cipher. */
  function SecondFlight(hello: Hello): seq<Event>
  {
    [SentCcs, WriteSwitched] + (if hello.nextProto then [Sent(67)] else [])
    + (if hello.channelId then [Sent(203)] else []) + [Sent(20)]
  }

  /** The steps of a client's key exchange. */
  function ExchangeEvents(cipher: Cipher): seq<Event>
  {
    (if cipher.pskAuth then [Passed(Psk)] else [])
    + (if cipher.kRsa then [Passed(Encrypt)] else if cipher.kEcdhe then [Passed(Agree)] else [])
    + [Premaster(cipher.certAuth && cipher.kEcdhe), Sent(16), Passed(Derive)]
  }

  /** What the record holds when a handshake below TLS 1.3 with the ServerHello h comes to state s: all that RFC 5246
      has come and go before, in this order and nothing else. */
  ghost predicate Reached(c: Config, h: Message, s: State, log: seq<Event>)
    decreases 21 - Rank(s, Resumes(c, h)), 0
  {
    var cipher := h.hello.cipher;
    match s
    case StartConnect => log == []
    case EnterEarlyData => log == [Sent(1)]
    case ReadHelloVerifyRequest => c.dtls && log == [Sent(1)]
    case ReadServerHello => Opening(c, log)
    case Tls13 => Opening(c, log)
    case ReadServerCertificate => !Resumes(c, h) && Greeted(c, h, log)
    case ReadCertificateStatus =>
      if cipher.certAuth then Took(c, h, ReadServerCertificate, log, 11, []) else Reached(c, h, ReadServerCertificate, log)
    case VerifyServerCertificate =>
      || Reached(c, h, ReadCertificateStatus, log)
      || (h.hello.status && Took(c, h, ReadCertificateStatus, log, 22, [Passed(Store)]))
    case ReadServerKeyExchange =>
      if cipher.certAuth then After(c, h, VerifyServerCertificate, log, [ChainVerified])
      else Reached(c, h, VerifyServerCertificate, log)
    case ReadCertificateRequest =>
      || (!cipher.kEcdhe && Reached(c, h, ReadServerKeyExchange, log))
      || Took(c, h, ReadServerKeyExchange, log, 12, if cipher.certAuth then [SignatureVerified] else [])
    case ReadServerHelloDone =>
      || Reached(c, h, ReadCertificateRequest, log)
      || (cipher.certAuth && Took(c, h, ReadCertificateRequest, log, 13, [Passed(Store)]))
    case SendClientCertificate => Took(c, h, ReadServerHelloDone, log, 14, [])
    case SendClientKeyExchange =>
      if !Requested(log) then Reached(c, h, SendClientCertificate, log)
      else
        || After(c, h, SendClientCertificate, log, [SentCertificate(false)])
        || After(c, h, SendClientCertificate, log, [if h.hello.ssl3 then SentNoCertificate else SentCertificate(true)])
    case SendClientCertificateVerify => After(c, h, SendClientKeyExchange, log, ExchangeEvents(cipher))
    case SendClientFinished =>
      if Resumes(c, h) then TookFinished(c, h, log)
      else if SentCertificate(false) in log then After(c, h, SendClientCertificateVerify, log, [Sent(15)])
      else Reached(c, h, SendClientCertificateVerify, log)
    case FinishFlight => After(c, h, SendClientFinished, log, SecondFlight(h.hello))
    case ReadSessionTicket =>
      if Resumes(c, h) then Greeted(c, h, log) else After(c, h, FinishFlight, log, [Passed(Record)])
    case ProcessChangeCipherSpec => Ends(log, [CcsReceived]) && Ticketed(c, h, Front(log, 1))
    case ReadServerFinished => After(c, h, ProcessChangeCipherSpec, log, [ReadSwitched])
    case FinishClientHandshake => if Resumes(c, h) then Reached(c, h, FinishFlight, log) else TookFinished(c, h, log)
    case Done =>
      After(c, h, FinishClientHandshake, log,
            (if Resumes(c, h) then [] else [Passed(Copy)]) + [Established(false, Proves(c, h))])
  }

  /** State s was reached, and then the events of the tail happened. */
  ghost predicate After(c: Config, h: Message, s: State, log: seq<Event>, tail: seq<Event>)
    decreases 21 - Rank(s, Resumes(c, h)), 1
  {
    Ends(log, tail) && Reached(c, h, s, Front(log, |tail|))
  }

  /** State s was reached and took a message of this type, hashing it first. */
  ghost predicate Took(c: Config, h: Message, s: State, log: seq<Event>, kind: Byte, steps: seq<Event>)
    decreases 21 - Rank(s, Resumes(c, h)), 2
  {
    var m := LastTaken(log, kind);
    m.Some? && Fits(c, h, s, m.value) && After(c, h, s, log, [Hashed(m.value)] + steps + [Got(m.value)])
  }

  ghost predicate TookFinished(c: Config, h: Message, log: seq<Event>)
    decreases 21 - Rank(ReadServerFinished, Resumes(c, h)), 2
  {
    var m := LastTaken(log, 20);
    m.Some? && Fits(c, h, ReadServerFinished, m.value)
    && After(c, h, ReadServerFinished, log, FinishedEvents(m.value, h.hello.ssl3))
  }

  /** The session ticket has come, if there is to be one; what follows is the server's ChangeCipherSpec. */
  ghost predicate Ticketed(c: Config, h: Message, log: seq<Event>)
    decreases 21 - Rank(ReadSessionTicket, Resumes(c, h)), 3
  {
    if !h.hello.ticket then Reached(c, h, ReadSessionTicket, log)
    else
      var m := LastTaken(log, 4);
      m.Some? && Took(c, h, ReadSessionTicket, log, 4, if m.value.empty then [] else [Passed(Store)])
  }

  // ---- One step further ----

  predicate Silent(tail: seq<Event>) { forall k :: 0 <= k < |tail| ==> !tail[k].Got? && !tail[k].SentCertificate? }

  lemma Step(c: Config, h: Message, s: State, log: seq<Event>, tail: seq<Event>)
    ensures Reached(c, h, s, log) ==> After(c, h, s, log + tail, tail)
    ensures Silent(tail) ==> (Requested(log + tail) <==> Requested(log))
    ensures Silent(tail) ==> (SentCertificate(false) in log + tail <==> SentCertificate(false) in log)
  {
    hide Reached;
    Grown(log, tail);
    if Silent(tail) { NotRequested(log, tail); }
  }

  lemma Take(c: Config, h: Message, s: State, log: seq<Event>, m: Message, steps: seq<Event>)
    ensures var log' := log + [Hashed(m)] + steps + [Got(m)];
            && (Reached(c, h, s, log) && Fits(c, h, s, m) ==> Took(c, h, s, log', m.kind, steps))
            && (Silent(steps) ==> (Requested(log') <==> Requested(log) || m.kind == 13))
            && (Silent(steps) ==> (SentCertificate(false) in log' <==> SentCertificate(false) in log))
  {
    hide Fits;
    var tail := [Hashed(m)] + steps + [Got(m)];
    assert log + [Hashed(m)] + steps + [Got(m)] == log + tail;
    Step(c, h, s, log, tail);
    if m.kind == 13 {
      assert (log + tail)[|log + tail| - 1] == Got(m);
    } else if Silent(steps) {
      NotRequested(log, tail);
    }
  }

  /** Events other than a CertificateRequest ask for nothing. */
  lemma NotRequested(log: seq<Event>, tail: seq<Event>)
    requires !Requested(tail)
    ensures Requested(log + tail) <==> Requested(log)
  {
    if Requested(log) {
      var k :| 0 <= k < |log| && log[k].Got? && log[k].m.kind == 13;
      assert (log + tail)[k] == log[k];
    }
    if Requested(log + tail) {
      var k :| 0 <= k < |log + tail| && (log + tail)[k].Got? && (log + tail)[k].m.kind == 13;
      assert k >= |log| ==> tail[k - |log|] == (log + tail)[k];
    }
  }

  /** The records before a ServerHello. */
  lemma Opens(c: Config, h: Message, log: seq<Event>)
    ensures Reached(c, h, StartConnect, log) ==> Reached(c, h, EnterEarlyData, log + [Sent(1)]) && log == []
    ensures Reached(c, h, EnterEarlyData, log) ==> log == [Sent(1)]
    ensures c.dtls && Reached(c, h, EnterEarlyData, log) ==> Reached(c, h, ReadHelloVerifyRequest, log)
    ensures !c.dtls && !c.early && Reached(c, h, EnterEarlyData, log) ==> Reached(c, h, ReadServerHello, log)
    ensures !c.dtls && c.early && Reached(c, h, EnterEarlyData, log)
        ==> Reached(c, h, ReadServerHello, log + [Passed(EarlyKeys)])
    ensures Reached(c, h, ReadHelloVerifyRequest, log) ==> Reached(c, h, ReadServerHello, log) && log == [Sent(1)] && c.dtls
    ensures Requested(log + [Sent(1)]) <==> Requested(log)
    ensures Requested(log + [Passed(EarlyKeys)]) <==> Requested(log)
  {
    NotRequested(log, [Sent(1)]);
    NotRequested(log, [Passed(EarlyKeys)]);
  }

  lemma AskedAgain(c: Config, h: Message, m: Message)
    ensures var log := [Sent(1)] + [Got(m), Passed(HashReset), Sent(1)];
            c.dtls && m.kind == 3 && Parses in m.passes
            ==> Reached(c, h, ReadServerHello, log) && !Requested(log) && SentCertificate(false) !in log
    ensures !Requested([Sent(1)])
  {
    var log := [Sent(1), Got(m), Passed(HashReset), Sent(1)];
    assert log == [Sent(1)] + [Got(m), Passed(HashReset), Sent(1)];
    assert c.dtls && m.kind == 3 && Parses in m.passes ==> Opening(c, log);
  }

  /** Nothing was asked for in between, and no certificate of the client's own was sent. */
  predicate Quiet(log: seq<Event>, log': seq<Event>)
  {
    (Requested(log') <==> Requested(log)) && (SentCertificate(false) in log' <==> SentCertificate(false) in log)
  }

  /** The client's own Certificate, or the alert that SSL 3.0 has instead of an empty one. */
  lemma OnOwnCertificate(c: Config, h: Message, log: seq<Event>, empty: bool)
    ensures var e := if empty && h.hello.ssl3 then SentNoCertificate else SentCertificate(empty);
            var log' := log + [e];
            && (Requested(log') <==> Requested(log))
            && (SentCertificate(false) in log' <==> SentCertificate(false) in log || !empty)
            && (Requested(log) && Reached(c, h, SendClientCertificate, log) ==> Reached(c, h, SendClientKeyExchange, log'))
  {
    var e := if empty && h.hello.ssl3 then SentNoCertificate else SentCertificate(empty);
    NotRequested(log, [e]);
    Step(c, h, SendClientCertificate, log, [e]);
  }

  lemma OnOwnKeys(c: Config, h: Message, log: seq<Event>)
    ensures var log' := log + ExchangeEvents(h.hello.cipher);
            && Quiet(log, log')
            && (Reached(c, h, SendClientKeyExchange, log) ==> Reached(c, h, SendClientCertificateVerify, log'))
  {
    Step(c, h, SendClientKeyExchange, log, ExchangeEvents(h.hello.cipher));
  }

  lemma OnProof(c: Config, h: Message, log: seq<Event>)
    ensures Quiet(log, log + [Sent(15)])
    ensures !Resumes(c, h) && SentCertificate(false) in log && Reached(c, h, SendClientCertificateVerify, log)
        ==> Reached(c, h, SendClientFinished, log + [Sent(15)])
  {
    Step(c, h, SendClientCertificateVerify, log, [Sent(15)]);
  }

  lemma OnSecondFlight(c: Config, h: Message, log: seq<Event>)
    ensures var log' := log + SecondFlight(h.hello);
            && Quiet(log, log')
            && (Reached(c, h, SendClientFinished, log) ==> Reached(c, h, FinishFlight, log'))
  {
    Step(c, h, SendClientFinished, log, SecondFlight(h.hello));
  }

  lemma OnCcs(c: Config, h: Message, log: seq<Event>)
    ensures Quiet(log, log + [CcsReceived]) && Quiet(log, log + [ReadSwitched])
    ensures Ticketed(c, h, log) ==> Reached(c, h, ProcessChangeCipherSpec, log + [CcsReceived])
    ensures Reached(c, h, ProcessChangeCipherSpec, log) ==> Reached(c, h, ReadServerFinished, log + [ReadSwitched])
  {
    Grown(log, [CcsReceived]);
    NotRequested(log, [CcsReceived]);
    Step(c, h, ProcessChangeCipherSpec, log, [ReadSwitched]);
  }

  lemma OnFinished(c: Config, h: Message, log: seq<Event>, m: Message)
    requires m.kind == 20
    ensures var log' := log + FinishedEvents(m, h.hello.ssl3);
            && Quiet(log, log')
            && (Reached(c, h, ReadServerFinished, log) && Fits(c, h, ReadServerFinished, m) ==>
                  if Resumes(c, h) then Reached(c, h, SendClientFinished, log') else Reached(c, h, FinishClientHandshake, log'))
  {
    var tail := FinishedEvents(m, h.hello.ssl3);
    NotRequested(log, tail);
    Step(c, h, ReadServerFinished, log, tail);
    assert (log + tail)[|log + tail| - 1] == Got(m);
  }

  lemma OnDone(c: Config, h: Message, log: seq<Event>)
    ensures var log' := log + (if Resumes(c, h) then [] else [Passed(Copy)]) + [Established(false, Proves(c, h))];
            && Quiet(log, log')
            && (Reached(c, h, FinishClientHandshake, log) ==> Reached(c, h, Done, log'))
  {
    var tail := (if Resumes(c, h) then [] else [Passed(Copy)]) + [Established(false, Proves(c, h))];
    assert log + (if Resumes(c, h) then [] else [Passed(Copy)]) + [Established(false, Proves(c, h))] == log + tail;
    Step(c, h, FinishClientHandshake, log, tail);
  }

  lemma TakeHello(c: Config, m: Message, before: seq<Event>)
    ensures var log := before + (if Resumes(c, m) then [] else [Passed(NewSession)]) + [Hashed(m)] + [Got(m)];
            && Got(m) in log
            && (Opening(c, before) && Fits(c, m, ReadServerHello, m) && !m.hello.tls13 ==>
                  if Resumes(c, m) then Reached(c, m, ReadSessionTicket, log) else Reached(c, m, ReadServerCertificate, log))
            && (m.kind != 13 ==> (Requested(log) <==> Requested(before)))
            && (SentCertificate(false) in log <==> SentCertificate(false) in before)
  {
    var tail := (if Resumes(c, m) then [] else [Passed(NewSession)]) + [Hashed(m), Got(m)];
    Grown(before, tail);
    if m.kind != 13 { NotRequested(before, tail); }
    assert before + (if Resumes(c, m) then [] else [Passed(NewSession)]) + [Hashed(m)] + [Got(m)] == before + tail;
  }

  // ---- Groups of states ----

  predicate BeforeHello(s: State)
  {
    s.StartConnect? || s.EnterEarlyData? || s.ReadHelloVerifyRequest? || s.ReadServerHello?
  }

  predicate BeforeCertificate(s: State)
  {
    BeforeHello(s) || s.ReadServerCertificate? || s.ReadCertificateStatus? || s.VerifyServerCertificate?
    || s.ReadServerKeyExchange? || s.ReadCertificateRequest? || s.ReadServerHelloDone? || s.SendClientCertificate?
  }

  predicate BeforeProof(s: State) { s.SendClientKeyExchange? || s.SendClientCertificateVerify? }

  predicate AfterTicket(s: State, resumed: bool)
  {
    s.ProcessChangeCipherSpec? || s.ReadServerFinished? || s.FinishClientHandshake? || s.Done?
    || (resumed && (s.SendClientFinished? || s.FinishFlight?))
  }

  // ---- What the fields of a handshake agree with ----

  /** The fields of a client handshake and the record of its connection. */
  datatype View = View(
    state: State, resumed: bool, tls13: bool, cipher: Cipher, given: Hello, keyShare: bool, certRequest: bool,
    certificate: bool, ticketExpected: bool, log: seq<Event>)

  /** A full handshake below TLS 1.3. */
  predicate Full(v: View) { !v.resumed && !v.tls13 }

  /** The server's certificate chain, and its signature of an ephemeral key, have been verified. */
  predicate Authenticated(v: View)
  {
    && (v.cipher.certAuth ==> ChainVerified in v.log)
    && (v.cipher.certAuth && v.cipher.kEcdhe ==> SignatureVerified in v.log)
  }

  predicate HasKeyShare(v: View) { v.cipher.kEcdhe ==> v.keyShare }

  /** What each state may rely on, given what has happened so far and that the handshake waits for `w`. */
  predicate Relies(v: View, w: Wait)
  {
    match v.state
    case StartConnect => !v.tls13
    case EnterEarlyData => !v.tls13
    case ReadHelloVerifyRequest => !v.tls13
    case ReadServerHello => !v.tls13
    case Tls13 => v.tls13
    case ReadServerCertificate => Full(v)
    case ReadCertificateStatus => Full(v)
    case VerifyServerCertificate => Full(v)
    case ReadServerKeyExchange => Full(v) && (v.cipher.certAuth ==> ChainVerified in v.log)
    case ReadCertificateRequest => Full(v) && Authenticated(v) && HasKeyShare(v)
    case ReadServerHelloDone => Full(v) && Authenticated(v) && HasKeyShare(v)
    case SendClientCertificate => Full(v) && Authenticated(v) && HasKeyShare(v)
    case SendClientKeyExchange => Full(v) && Authenticated(v) && HasKeyShare(v)
    case SendClientCertificateVerify => Full(v) && Authenticated(v)
    case SendClientFinished => !v.tls13 && (if v.resumed then FinishedMatched in v.log else Authenticated(v))
    case FinishFlight => !v.tls13 && (if v.resumed then FinishedMatched in v.log else Authenticated(v))
    case ReadSessionTicket => !v.tls13 && (v.resumed || Authenticated(v))
    case ProcessChangeCipherSpec => !v.tls13 && (v.resumed || Authenticated(v)) && (w.AwaitCcs? || CcsReceived in v.log)
    case ReadServerFinished => !v.tls13 && (v.resumed || Authenticated(v)) && ReadSwitched in v.log
    case FinishClientHandshake => v.tls13 || (FinishedMatched in v.log && (v.resumed || Authenticated(v)))
    case Done => Established(v.tls13, Full(v) && v.cipher.certAuth && v.cipher.kEcdhe) in v.log
  }

  /** The record is the course of a handshake up to this state. */
  ghost predicate Follows(c: Config, h: Message, v: View, w: Wait)
  {
    if v.state == ProcessChangeCipherSpec && w.AwaitCcs? then Ticketed(c, h, v.log) else Reached(c, h, v.state, v.log)
  }

  /** The fields say what the messages in the record say. */
  predicate Agrees(c: Config, h: Message, v: View)
  {
    && (v.certRequest <==> Requested(v.log))
    && (if BeforeHello(v.state) then v.resumed == c.offered
        else v.resumed == Resumes(c, h) && v.cipher == h.hello.cipher && v.given == h.hello)
    && (!BeforeHello(v.state) && !AfterTicket(v.state, v.resumed) ==> v.ticketExpected == h.hello.ticket)
    && (BeforeCertificate(v.state) ==> SentCertificate(false) !in v.log)
    && (BeforeProof(v.state) && !v.resumed ==> (SentCertificate(false) in v.log <==> v.certRequest && v.certificate))
  }

  /** The handshake is on course: each state has what it relies on, and below TLS 1.3 the record is that of RFC 5246. */
  ghost predicate Course(c: Config, h: Message, v: View, w: Wait)
  {
    && Relies(v, w)
    && (v.tls13 || (Follows(c, h, v, w) && Agrees(c, h, v) && (w.AwaitCcs? ==> v.state == ProcessChangeCipherSpec)))
  }

  // ---- From state to state ----

  lemma FromStart(c: Config, h: Message, v: View)
    ensures Course(c, h, v, Ok) && v.state == StartConnect
        ==> Course(c, h, v.(state := EnterEarlyData, log := v.log + [Sent(1)]), Flush)
  {
    hide Reached, Fits, Opening, Requested;
    Opens(c, h, v.log);
  }

  lemma FromEarlyData(c: Config, h: Message, v: View)
    ensures Course(c, h, v, Ok) && v.state == EnterEarlyData && !(!c.dtls && c.early)
        ==> Course(c, h, v.(state := if c.dtls then ReadHelloVerifyRequest else ReadServerHello), Ok)
  {
    hide Reached, Fits, Opening, Requested;
    Opens(c, h, v.log);
  }

  lemma WithEarlyData(c: Config, h: Message, v: View)
    ensures Course(c, h, v, Ok) && v.state == EnterEarlyData && !c.dtls && c.early
        ==> Course(c, h, v.(state := ReadServerHello, log := v.log + [Passed(EarlyKeys)]), EarlyReturn)
  {
    hide Reached, Fits, Opening, Requested;
    Opens(c, h, v.log);
  }

  lemma NoVerifyRequest(c: Config, h: Message, v: View)
    ensures Course(c, h, v, Ok) && v.state == ReadHelloVerifyRequest
        ==> Course(c, h, v.(state := ReadServerHello), Ok)
  {
    hide Reached, Fits, Opening, Requested;
    Opens(c, h, v.log);
  }

  lemma AfterVerifyRequest(c: Config, h: Message, v: View, m: Message)
    ensures Course(c, h, v, Ok) && v.state == ReadHelloVerifyRequest && m.kind == 3 && Parses in m.passes
        ==> Course(c, h, v.(state := ReadServerHello, log := v.log + [Got(m), Passed(HashReset), Sent(1)]), Flush)
  {
    hide Reached, Fits, Opening, Requested;
    Opens(c, h, v.log);
    AskedAgain(c, h, m);
  }

  /** The ServerHello m takes the place of whatever h was. */
  lemma AfterServerHello(c: Config, h: Message, v: View, m: Message)
    ensures Course(c, h, v, Ok) && v.state == ReadServerHello && Fits(c, m, ReadServerHello, m) && !m.hello.tls13
        ==> var log := v.log + (if Resumes(c, m) then [] else [Passed(NewSession)]) + [Hashed(m)] + [Got(m)];
            Course(c, m, v.(state := if Resumes(c, m) then ReadSessionTicket else ReadServerCertificate,
                            resumed := Resumes(c, m), cipher := m.hello.cipher, given := m.hello,
                            ticketExpected := m.hello.ticket, log := log), Ok)
  {
    IsOpening(c, h, v.log);
    TakeHello(c, m, v.log);
    hide Reached, Opening, Requested;
  }

  lemma IsOpening(c: Config, h: Message, log: seq<Event>)
    ensures Reached(c, h, ReadServerHello, log) ==> Opening(c, log)
  {}

  lemma NoCertificate(c: Config, h: Message, v: View)
    ensures Course(c, h, v, Ok) && v.state == ReadServerCertificate && !v.cipher.certAuth
        ==> Course(c, h, v.(state := ReadCertificateStatus), Ok)
  {
    hide Fits, Opening, Requested;
  }

  lemma AfterCertificate(c: Config, h: Message, v: View, m: Message)
    requires m.kind == 11
    ensures Course(c, h, v, Ok) && v.state == ReadServerCertificate && v.cipher.certAuth
            && Fits(c, h, ReadServerCertificate, m)
        ==> Course(c, h, v.(state := ReadCertificateStatus, log := v.log + [Hashed(m)] + [Got(m)]), Ok)
  {
    hide Fits, Opening, Requested;
    Take(c, h, ReadServerCertificate, v.log, m, []);
    assert v.log + [Hashed(m)] + [] == v.log + [Hashed(m)];
  }

  lemma NoStatus(c: Config, h: Message, v: View)
    ensures Course(c, h, v, Ok) && v.state == ReadCertificateStatus
        ==> Course(c, h, v.(state := VerifyServerCertificate), Ok)
  {
    hide Fits, Opening, Requested;
  }

  lemma AfterStatus(c: Config, h: Message, v: View, m: Message)
    requires m.kind == 22
    ensures Course(c, h, v, Ok) && v.state == ReadCertificateStatus && v.given.status
            && Fits(c, h, ReadCertificateStatus, m)
        ==> Course(c, h, v.(state := VerifyServerCertificate, log := v.log + [Hashed(m)] + [Passed(Store)] + [Got(m)]), Ok)
  {
    hide Fits, Opening, Requested;
    Take(c, h, ReadCertificateStatus, v.log, m, [Passed(Store)]);
  }

  lemma NotVerified(c: Config, h: Message, v: View)
    ensures Course(c, h, v, Ok) && v.state == VerifyServerCertificate && !v.cipher.certAuth
        ==> Course(c, h, v.(state := ReadServerKeyExchange), Ok)
  {
    hide Fits, Opening, Requested;
  }

  lemma AfterVerified(c: Config, h: Message, v: View)
    ensures Course(c, h, v, Ok) && v.state == VerifyServerCertificate && v.cipher.certAuth
        ==> Course(c, h, v.(state := ReadServerKeyExchange, log := v.log + [ChainVerified]), Ok)
  {
    hide Fits, Opening, Requested;
    Step(c, h, VerifyServerCertificate, v.log, [ChainVerified]);
  }

  lemma NoKeyExchange(c: Config, h: Message, v: View)
    ensures Course(c, h, v, Ok) && v.state == ReadServerKeyExchange && !v.cipher.kEcdhe
        ==> Course(c, h, v.(state := ReadCertificateRequest), Ok)
  {
    hide Fits, Opening, Requested;
  }

  lemma AfterKeyExchange(c: Config, h: Message, v: View, m: Message, share: bool)
    requires m.kind == 12
    ensures Course(c, h, v, Ok) && v.state == ReadServerKeyExchange && Fits(c, h, ReadServerKeyExchange, m) && (v.cipher.kEcdhe ==> share)
        ==> Course(c, h, v.(state := ReadCertificateRequest, keyShare := share,
                         log := v.log + [Hashed(m)] + (if v.cipher.certAuth then [SignatureVerified] else []) + [Got(m)]), Ok)
  {
    hide Fits, Opening, Requested;
    Take(c, h, ReadServerKeyExchange, v.log, m, if h.hello.cipher.certAuth then [SignatureVerified] else []);
  }

  lemma NoRequest(c: Config, h: Message, v: View)
    ensures Course(c, h, v, Ok) && v.state == ReadCertificateRequest
        ==> Course(c, h, v.(state := ReadServerHelloDone), Ok)
  {
    hide Fits, Opening, Requested;
  }

  lemma AfterRequest(c: Config, h: Message, v: View, m: Message)
    requires m.kind == 13
    ensures Course(c, h, v, Ok) && v.state == ReadCertificateRequest && v.cipher.certAuth
            && Fits(c, h, ReadCertificateRequest, m)
        ==> Course(c, h, v.(state := ReadServerHelloDone, certRequest := true, log := v.log + [Hashed(m)] + [Passed(Store)] + [Got(m)]), Ok)
  {
    hide Fits, Opening, Requested;
    Take(c, h, ReadCertificateRequest, v.log, m, [Passed(Store)]);
  }

  lemma AfterHelloDone(c: Config, h: Message, v: View, m: Message)
    requires m.kind == 14
    ensures Course(c, h, v, Ok) && v.state == ReadServerHelloDone && Fits(c, h, ReadServerHelloDone, m)
        ==> Course(c, h, v.(state := SendClientCertificate, log := v.log + [Hashed(m)] + [Got(m)]), Ok)
  {
    hide Fits, Opening, Requested;
    Take(c, h, ReadServerHelloDone, v.log, m, []);
    assert v.log + [Hashed(m)] + [] == v.log + [Hashed(m)];
  }

  lemma NoOwnCertificate(c: Config, h: Message, v: View)
    ensures Course(c, h, v, Ok) && v.state == SendClientCertificate && !v.certRequest
        ==> Course(c, h, v.(state := SendClientKeyExchange), Ok)
  {
    hide Fits, Opening, Requested;
  }

  lemma AfterOwnCertificate(c: Config, h: Message, v: View, has: bool)
    ensures Course(c, h, v, Ok) && v.state == SendClientCertificate && v.certRequest
        ==> Course(c, h, v.(state := SendClientKeyExchange, certificate := has,
                         log := v.log + [if !has && v.given.ssl3 then SentNoCertificate else SentCertificate(!has)]), Ok)
  {
    hide Reached, Fits, Opening, Requested;
    OnOwnCertificate(c, h, v.log, !has);
  }

  lemma AfterOwnKeys(c: Config, h: Message, v: View, share: bool)
    ensures Course(c, h, v, Ok) && v.state == SendClientKeyExchange
        ==> Course(c, h, v.(state := SendClientCertificateVerify, keyShare := share, log := v.log + ExchangeEvents(v.cipher)), Ok)
  {
    hide Reached, Requested, ExchangeEvents;
    OnOwnKeys(c, h, v.log);
  }

  lemma NoProof(c: Config, h: Message, v: View)
    ensures Course(c, h, v, Ok) && v.state == SendClientCertificateVerify && !(v.certRequest && v.certificate)
        ==> Course(c, h, v.(state := SendClientFinished), Ok)
  {
    hide Fits, Opening, Requested;
  }

  lemma AfterProof(c: Config, h: Message, v: View)
    ensures Course(c, h, v, Ok) && v.state == SendClientCertificateVerify && v.certRequest && v.certificate
        ==> Course(c, h, v.(state := SendClientFinished, log := v.log + [Sent(15)]), Ok)
  {
    hide Reached, Requested;
    OnProof(c, h, v.log);
  }

  lemma AfterSecondFlight(c: Config, h: Message, v: View)
    ensures Course(c, h, v, Ok) && v.state == SendClientFinished
        ==> Course(c, h, v.(state := FinishFlight, log := v.log + SecondFlight(v.given)), Flush)
  {
    hide Reached, Fits, Opening, Requested;
    OnSecondFlight(c, h, v.log);
  }

  lemma AfterResumption(c: Config, h: Message, v: View)
    ensures Course(c, h, v, Ok) && v.state == FinishFlight && v.resumed
        ==> Course(c, h, v.(state := FinishClientHandshake), Ok)
  {
    hide Fits, Opening, Requested;
  }

  lemma AfterRecorded(c: Config, h: Message, v: View)
    ensures Course(c, h, v, Ok) && v.state == FinishFlight && !v.resumed
        ==> Course(c, h, v.(state := ReadSessionTicket, log := v.log + [Passed(Record)]), Ok)
  {
    hide Fits, Opening, Requested;
    Step(c, h, FinishFlight, v.log, [Passed(Record)]);
  }

  lemma NoTicket(c: Config, h: Message, v: View)
    ensures Course(c, h, v, Ok) && v.state == ReadSessionTicket && !v.ticketExpected
        ==> Course(c, h, v.(state := ProcessChangeCipherSpec), AwaitCcs)
  {
    hide Fits, Opening, Requested;
  }

  lemma AfterNewTicket(c: Config, h: Message, v: View, m: Message)
    requires m.kind == 4
    ensures Course(c, h, v, Ok) && v.state == ReadSessionTicket && v.ticketExpected && Fits(c, h, ReadSessionTicket, m)
        ==> Course(c, h, v.(state := ProcessChangeCipherSpec, ticketExpected := !m.empty,
                         log := v.log + [Hashed(m)] + (if m.empty then [] else [Passed(Store)]) + [Got(m)]), AwaitCcs)
  {
    hide Fits, Opening, Requested;
    Take(c, h, ReadSessionTicket, v.log, m, if m.empty then [] else [Passed(Store)]);
  }

  lemma AfterCcs(c: Config, h: Message, v: View)
    ensures Course(c, h, v, AwaitCcs) ==> Course(c, h, v.(log := v.log + [CcsReceived]), Ok)
  {
    hide Reached, Ticketed, Requested;
    OnCcs(c, h, v.log);
  }

  lemma AfterSwitch(c: Config, h: Message, v: View)
    ensures Course(c, h, v, Ok) && v.state == ProcessChangeCipherSpec
        ==> Course(c, h, v.(state := ReadServerFinished, log := v.log + [ReadSwitched]), Ok)
  {
    hide Reached, Fits, Opening, Requested;
    OnCcs(c, h, v.log);
  }

  lemma AfterFinished(c: Config, h: Message, v: View, m: Message)
    requires m.kind == 20
    ensures Course(c, h, v, Ok) && v.state == ReadServerFinished && Fits(c, h, ReadServerFinished, m)
        ==> Course(c, h, v.(state := if v.resumed then SendClientFinished else FinishClientHandshake,
                         log := v.log + FinishedEvents(m, v.given.ssl3)), Ok)
  {
    hide Reached, Fits, Opening, Requested;
    OnFinished(c, h, v.log, m);
    assert FinishedMatched in FinishedEvents(m, v.given.ssl3);
  }

  lemma AfterEstablished(c: Config, h: Message, v: View)
    ensures Course(c, h, v, Ok) && v.state == FinishClientHandshake
        ==> var peer := Full(v) && v.cipher.certAuth && v.cipher.kEcdhe;
            Course(c, h, v.(state := Done, log := v.log + (if v.resumed then [] else [Passed(Copy)]) + [Established(v.tls13, peer)]), Ok)
  {
    hide Reached, Requested;
    OnDone(c, h, v.log);
  }

  lemma ToTls13(c: Config, h: Message, v: View)
    ensures Course(c, h, v, Ok) ==> Course(c, h, v.(state := Tls13, tls13 := true), Ok)
    ensures v.tls13 ==> Course(c, h, v.(state := FinishClientHandshake), Ok)
  {}

  /** Which wait it is makes no difference, but for a ChangeCipherSpec. */
  lemma AnyWait(c: Config, h: Message, v: View, w: Wait, w': Wait)
    requires !w.AwaitCcs? && !w'.AwaitCcs?
    ensures Course(c, h, v, w) ==> Course(c, h, v, w')
  {}

  // ---- What a handshake on course knows of its own fields ----

  lemma KnowsOpening(c: Config, h: Message, v: View)
    ensures Course(c, h, v, Ok) && BeforeHello(v.state) ==> !v.tls13 && v.resumed == c.offered
    ensures Course(c, h, v, Ok) && v.state == ReadHelloVerifyRequest ==> c.dtls
  {}

  predicate AfterHello(s: State)
  {
    !BeforeHello(s) && !s.Tls13? && !s.FinishClientHandshake? && !s.Done?
  }

  lemma KnowsHello(c: Config, h: Message, v: View)
    ensures Course(c, h, v, Ok) && AfterHello(v.state)
        ==> !v.tls13 && v.resumed == Resumes(c, h) && v.cipher == h.hello.cipher && v.given == h.hello
  {}

  lemma KnowsTicket(c: Config, h: Message, v: View)
    ensures Course(c, h, v, Ok) && v.state == ReadSessionTicket ==> v.ticketExpected == h.hello.ticket
  {}

  lemma KnowsKeys(c: Config, h: Message, v: View)
    ensures Course(c, h, v, Ok) && v.state == SendClientKeyExchange ==> Authenticated(v) && HasKeyShare(v)
  {}

  lemma KnowsCcs(c: Config, h: Message, v: View)
    ensures Course(c, h, v, Ok) && v.state == ProcessChangeCipherSpec ==> CcsReceived in v.log
    ensures Course(c, h, v, Ok) && v.state == ReadServerFinished ==> ReadSwitched in v.log
  {}

  lemma KnowsEnd(c: Config, h: Message, v: View)
    ensures Course(c, h, v, Ok) && v.state == FinishClientHandshake
        ==> v.tls13 || (FinishedMatched in v.log && (v.resumed || Authenticated(v)))
    ensures Course(c, h, v, Ok) && v.state == Done
        ==> Established(v.tls13, Full(v) && v.cipher.certAuth && v.cipher.kEcdhe) in v.log
  {}

  lemma KnowsDone(c: Config, h: Message, v: View, w: Wait)
    ensures Course(c, h, v, w) && v.state == Done && !v.tls13
        ==> Reached(c, h, Done, v.log) && v.resumed == Resumes(c, h) && v.cipher == h.hello.cipher
  {}

  // ---- What a record means ----

  /** No ServerHello was taken from this position on. */
  predicate NoHello(log: seq<Event>, from: nat)
  {
    forall j :: from <= j < |log| && log[j].Got? ==> log[j].m.kind != 2
  }

  lemma OfAfter(c: Config, h: Message, s: State, log: seq<Event>, tail: seq<Event>)
    ensures After(c, h, s, log, tail) ==>
              && |tail| <= |log| && Reached(c, h, s, log[..|log| - |tail|])
              && (NoHello(tail, 0) ==> NoHello(log, |log| - |tail|))
              && forall j :: 0 <= j < |tail| ==> log[|log| - |tail| + j] == tail[j]
  {
    hide Reached;
  }

  lemma OfTook(c: Config, h: Message, s: State, log: seq<Event>, kind: Byte, steps: seq<Event>)
    requires kind != 2 && NoHello(steps, 0)
    ensures Took(c, h, s, log, kind, steps) ==>
              var k := |log| - 2 - |steps|;
              && 0 <= k && Reached(c, h, s, log[..k]) && NoHello(log, k)
              && log[|log| - 1].Got? && log[|log| - 1].m.kind == kind && Fits(c, h, s, log[|log| - 1].m)
              && forall j :: 0 <= j < |steps| ==> log[k + 1 + j] == steps[j]
  {
    hide Reached, Fits;
    var m := LastTaken(log, kind);
    if m.Some? {
      var tail := [Hashed(m.value)] + steps + [Got(m.value)];
      OfAfter(c, h, s, log, tail);
      assert forall j :: 0 <= j < |steps| ==> tail[1 + j] == steps[j];
      assert NoHello(tail, 0);
    }
  }

  // ---- What came just before a state ----

  lemma FlightSteps(c: Config, h: Message, log: seq<Event>)
    ensures var cipher := h.hello.cipher;
            && (Reached(c, h, ReadCertificateStatus, log) ==>
                  if cipher.certAuth then Took(c, h, ReadServerCertificate, log, 11, [])
                  else Reached(c, h, ReadServerCertificate, log))
            && (Reached(c, h, VerifyServerCertificate, log) ==>
                  || Reached(c, h, ReadCertificateStatus, log)
                  || Took(c, h, ReadCertificateStatus, log, 22, [Passed(Store)]))
            && (Reached(c, h, ReadServerKeyExchange, log) ==>
                  if cipher.certAuth then After(c, h, VerifyServerCertificate, log, [ChainVerified])
                  else Reached(c, h, VerifyServerCertificate, log))
            && (Reached(c, h, ReadCertificateRequest, log) ==>
                  || (!cipher.kEcdhe && Reached(c, h, ReadServerKeyExchange, log))
                  || Took(c, h, ReadServerKeyExchange, log, 12, if cipher.certAuth then [SignatureVerified] else []))
            && (Reached(c, h, ReadServerHelloDone, log) ==>
                  || Reached(c, h, ReadCertificateRequest, log)
                  || Took(c, h, ReadCertificateRequest, log, 13, [Passed(Store)]))
            && (Reached(c, h, SendClientCertificate, log) ==> Took(c, h, ReadServerHelloDone, log, 14, []))
  {}

  lemma OwnSteps(c: Config, h: Message, log: seq<Event>)
    ensures Reached(c, h, SendClientKeyExchange, log) ==>
              || (!Requested(log) && Reached(c, h, SendClientCertificate, log))
              || After(c, h, SendClientCertificate, log, [SentCertificate(false)])
              || After(c, h, SendClientCertificate, log, [if h.hello.ssl3 then SentNoCertificate else SentCertificate(true)])
    ensures Reached(c, h, SendClientCertificateVerify, log)
        ==> After(c, h, SendClientKeyExchange, log, ExchangeEvents(h.hello.cipher))
    ensures !Resumes(c, h) && Reached(c, h, SendClientFinished, log) ==>
              || Reached(c, h, SendClientCertificateVerify, log)
              || After(c, h, SendClientCertificateVerify, log, [Sent(15)])
    ensures Reached(c, h, FinishFlight, log) ==> After(c, h, SendClientFinished, log, SecondFlight(h.hello))
  {
    hide After, Requested, Resumes;
  }

  lemma LastSteps(c: Config, h: Message, log: seq<Event>)
    ensures !Resumes(c, h) && Reached(c, h, ReadSessionTicket, log) ==> After(c, h, FinishFlight, log, [Passed(Record)])
    ensures Reached(c, h, ReadServerFinished, log) ==> After(c, h, ProcessChangeCipherSpec, log, [ReadSwitched])
    ensures Reached(c, h, Done, log) ==>
              After(c, h, FinishClientHandshake, log,
                    (if Resumes(c, h) then [] else [Passed(Copy)]) + [Established(false, Proves(c, h))])
  {}

  lemma FinishedSteps(c: Config, h: Message, log: seq<Event>)
    ensures Resumes(c, h) && Reached(c, h, SendClientFinished, log) ==> TookFinished(c, h, log)
    ensures Reached(c, h, FinishClientHandshake, log) ==>
              if Resumes(c, h) then Reached(c, h, FinishFlight, log) else TookFinished(c, h, log)
  {}

  /** The state before this one, of the server's flight in a full handshake. */
  lemma PriorOfFlight(c: Config, h: Message, t: State, log: seq<Event>) returns (p: State, k: nat)
    requires Reached(c, h, t, log) && !Resumes(c, h) && 9 <= Rank(t, false) < 15
    ensures Rank(p, false) == Rank(t, false) + 1
    ensures k <= |log| && Reached(c, h, p, log[..k]) && NoHello(log, k)
  {
    FlightSteps(c, h, log);
    hide Reached, After, Took, Fits;
    assert log[..|log|] == log;
    k := |log|;
    match t {
      case ReadCertificateStatus =>
        p := ReadServerCertificate;
        OfTook(c, h, p, log, 11, []);
        if h.hello.cipher.certAuth { k := |log| - 2; }
      case VerifyServerCertificate =>
        p := ReadCertificateStatus;
        OfTook(c, h, p, log, 22, [Passed(Store)]);
        if !Reached(c, h, p, log) { k := |log| - 3; }
      case ReadServerKeyExchange =>
        p := VerifyServerCertificate;
        OfAfter(c, h, p, log, [ChainVerified]);
        if h.hello.cipher.certAuth { k := |log| - 1; }
      case ReadCertificateRequest =>
        p := ReadServerKeyExchange;
        var steps := if h.hello.cipher.certAuth then [SignatureVerified] else [];
        OfTook(c, h, p, log, 12, steps);
        if Took(c, h, p, log, 12, steps) { k := |log| - 2 - |steps|; }
      case ReadServerHelloDone =>
        p := ReadCertificateRequest;
        OfTook(c, h, p, log, 13, [Passed(Store)]);
        if !Reached(c, h, p, log) { k := |log| - 3; }
      case SendClientCertificate =>
        p := ReadServerHelloDone;
        OfTook(c, h, p, log, 14, []);
        k := |log| - 2;
    }
  }

  lemma OfTicketed(c: Config, h: Message, log: seq<Event>) returns (k: nat)
    requires Ticketed(c, h, log)
    ensures k <= |log| && Reached(c, h, ReadSessionTicket, log[..k]) && NoHello(log, k)
  {
    hide Reached, Took;
    assert log[..|log|] == log;
    k := |log|;
    if h.hello.ticket {
      var steps := if LastTaken(log, 4).value.empty then [] else [Passed(Store)];
      OfTook(c, h, ReadSessionTicket, log, 4, steps);
      k := |log| - 2 - |steps|;
    }
  }

  lemma OfCcs(c: Config, h: Message, log: seq<Event>) returns (k: nat)
    requires Reached(c, h, ProcessChangeCipherSpec, log)
    ensures k < |log| && Reached(c, h, ReadSessionTicket, log[..k]) && NoHello(log, k) && log[|log| - 1] == CcsReceived
  {
    assert Ends(log, [CcsReceived]) && Ticketed(c, h, Front(log, 1));
    hide Reached, Ticketed;
    k := OfTicketed(c, h, Front(log, 1));
    assert Front(log, 1)[..k] == log[..k];
    assert log[|log| - 1] == log[|log| - 1..][0] == CcsReceived;
    forall j | k <= j < |log| && log[j].Got? ensures log[j].m.kind != 2 {
      if j < |log| - 1 { assert Front(log, 1)[j] == log[j]; }
    }
  }

  lemma OfFinished(c: Config, h: Message, log: seq<Event>) returns (k: nat)
    requires TookFinished(c, h, log)
    ensures k <= |log| - 3 && Reached(c, h, ReadServerFinished, log[..k]) && NoHello(log, k)
    ensures log[|log| - 2] == FinishedMatched && log[|log| - 1].Got?
    ensures log[|log| - 1].m.kind == 20 && Matches in log[|log| - 1].m.passes
  {
    hide Reached;
    var m := LastTaken(log, 20).value;
    var tail := FinishedEvents(m, h.hello.ssl3);
    OfAfter(c, h, ReadServerFinished, log, tail);
    k := |log| - |tail|;
    assert tail[|tail| - 2] == FinishedMatched;
    assert NoHello(tail, 0);
  }

  /** The state before this one, of the client's flight in a full handshake. */
  lemma PriorOfOwnFlight(c: Config, h: Message, t: State, log: seq<Event>) returns (p: State, k: nat)
    requires Reached(c, h, t, log) && !Resumes(c, h) && 5 <= Rank(t, false) < 9
    ensures Rank(p, false) == Rank(t, false) + 1
    ensures k <= |log| && Reached(c, h, p, log[..k]) && NoHello(log, k)
  {
    OwnSteps(c, h, log);
    hide Reached, After, Requested;
    assert log[..|log|] == log;
    k := |log|;
    match t {
      case SendClientKeyExchange =>
        p := SendClientCertificate;
        OfAfter(c, h, p, log, [SentCertificate(false)]);
        OfAfter(c, h, p, log, [if h.hello.ssl3 then SentNoCertificate else SentCertificate(true)]);
        if !Reached(c, h, p, log) { k := |log| - 1; }
      case SendClientCertificateVerify =>
        p := SendClientKeyExchange;
        OfAfter(c, h, p, log, ExchangeEvents(h.hello.cipher));
        k := |log| - |ExchangeEvents(h.hello.cipher)|;
      case SendClientFinished =>
        p := SendClientCertificateVerify;
        OfAfter(c, h, p, log, [Sent(15)]);
        if !Reached(c, h, p, log) { k := |log| - 1; }
      case FinishFlight =>
        p := SendClientFinished;
        OfAfter(c, h, p, log, SecondFlight(h.hello));
        k := |log| - |SecondFlight(h.hello)|;
    }
  }

  /** The state before this one, from the end of the client's flight in a full handshake, or after the ServerHello of
      a resumption. */
  lemma PriorOfEnd(c: Config, h: Message, t: State, log: seq<Event>) returns (p: State, k: nat)
    requires Reached(c, h, t, log) && Rank(t, Resumes(c, h)) < if Resumes(c, h) then 6 else 5
    ensures Rank(p, Resumes(c, h)) == Rank(t, Resumes(c, h)) + 1
    ensures k <= |log| && Reached(c, h, p, log[..k]) && NoHello(log, k)
  {
    OwnSteps(c, h, log);
    LastSteps(c, h, log);
    FinishedSteps(c, h, log);
    hide Reached, After, TookFinished, Requested;
    assert log[..|log|] == log;
    k := |log|;
    match t {
      case ReadSessionTicket =>
        p := FinishFlight;
        OfAfter(c, h, p, log, [Passed(Record)]);
        k := |log| - 1;
      case ProcessChangeCipherSpec =>
        p := ReadSessionTicket;
        k := OfCcs(c, h, log);
      case ReadServerFinished =>
        p := ProcessChangeCipherSpec;
        OfAfter(c, h, p, log, [ReadSwitched]);
        k := |log| - 1;
      case SendClientFinished =>
        p := ReadServerFinished;
        k := OfFinished(c, h, log);
      case FinishFlight =>
        p := SendClientFinished;
        OfAfter(c, h, p, log, SecondFlight(h.hello));
        k := |log| - |SecondFlight(h.hello)|;
      case FinishClientHandshake =>
        if Resumes(c, h) {
          p := FinishFlight;
        } else {
          p := ReadServerFinished;
          k := OfFinished(c, h, log);
        }
      case Done =>
        p := FinishClientHandshake;
        var tail := (if Resumes(c, h) then [] else [Passed(Copy)]) + [Established(false, Proves(c, h))];
        OfAfter(c, h, p, log, tail);
        k := |log| - |tail|;
    }
  }

  /** A course came through every state between its first and its last. */
  lemma {:induction false} Comes(c: Config, h: Message, s: State, t: State, log: seq<Event>) returns (n: nat)
    requires Reached(c, h, t, log) && OnPath(c, h, s) && OnPath(c, h, t)
    requires Rank(t, Resumes(c, h)) <= Rank(s, Resumes(c, h))
    ensures n <= |log| && Reached(c, h, s, log[..n]) && NoHello(log, n)
    decreases Rank(s, Resumes(c, h)) - Rank(t, Resumes(c, h))
  {
    hide Reached;
    if Rank(t, Resumes(c, h)) == Rank(s, Resumes(c, h)) {
      SameRank(c, h, s, t);
      assert log[..|log|] == log;
      n := |log|;
    } else {
      var p, k;
      if Rank(t, Resumes(c, h)) < if Resumes(c, h) then 6 else 5 {
        p, k := PriorOfEnd(c, h, t, log);
      } else if Rank(t, false) < 9 {
        p, k := PriorOfOwnFlight(c, h, t, log);
      } else {
        p, k := PriorOfFlight(c, h, t, log);
      }
      n := Comes(c, h, s, p, log[..k]);
      assert log[..k][..n] == log[..n];
      assert forall j :: n <= j < k ==> log[..k][j] == log[j];
    }
  }

  /** The states after the ServerHello. */
  predicate OnPath(c: Config, h: Message, s: State)
  {
    Rank(s, Resumes(c, h)) <= if Resumes(c, h) then 6 else 15
  }

  lemma SameRank(c: Config, h: Message, s: State, t: State)
    requires OnPath(c, h, s) && OnPath(c, h, t) && Rank(s, Resumes(c, h)) == Rank(t, Resumes(c, h))
    ensures s == t
  {}

  /** Where the ServerHello is: there is no other. */
  lemma HelloOf(c: Config, h: Message, log: seq<Event>)
    requires Greeted(c, h, log)
    ensures |log| > 0 && log[|log| - 1] == Got(h) && h.kind == 2
    ensures forall j :: 0 <= j < |log| - 1 && log[j].Got? ==> log[j].m.kind != 2
  {
    var tail := (if Resumes(c, h) then [] else [Passed(NewSession)]) + [Hashed(h), Got(h)];
    var front := Front(log, |tail|);
    assert log == front + tail;
    assert NoHello(front, 0);
    assert tail[|tail| - 1] == Got(h);
  }

  /** The end of every handshake: the server's ChangeCipherSpec, the switch of the read cipher, its Finished. */
  lemma EndOf(c: Config, h: Message, log: seq<Event>) returns (n: nat)
    requires TookFinished(c, h, log)
    ensures 0 < n < |log| - 2 && Reached(c, h, ProcessChangeCipherSpec, log[..n])
    ensures log[n - 1] == CcsReceived && log[n] == ReadSwitched && n < |log| - 2 && log[|log| - 2] == FinishedMatched
    ensures log[|log| - 1].Got? && log[|log| - 1].m.kind == 20 && Matches in log[|log| - 1].m.passes
  {
    var k := OfFinished(c, h, log);
    var front := log[..k];
    assert After(c, h, ProcessChangeCipherSpec, front, [ReadSwitched]);
    hide Reached, Fits;
    OfAfter(c, h, ProcessChangeCipherSpec, front, [ReadSwitched]);
    n := k - 1;
    assert front[..n] == log[..n] && front[n] == log[n];
    var j := OfCcs(c, h, log[..n]);
    assert log[..n][n - 1] == log[n - 1];
  }

  /** The ServerHello of a finished handshake, the only one in its record. */
  lemma HelloIn(c: Config, h: Message, log: seq<Event>) returns (g: nat)
    requires Reached(c, h, Done, log)
    ensures g < |log| && log[g] == Got(h) && h.kind == 2
    ensures forall j :: 0 <= j < |log| && log[j].Got? && log[j].m.kind == 2 ==> j == g
  {
    var first := if Resumes(c, h) then ReadSessionTicket else ReadServerCertificate;
    var n := Comes(c, h, first, Done, log);
    assert Greeted(c, h, log[..n]);
    hide Reached, Greeted;
    HelloOf(c, h, log[..n]);
    g := n - 1;
    assert log[..n][g] == log[g];
    assert forall j :: 0 <= j < n ==> log[..n][j] == log[j];
  }

  /** Before the key exchange message: the ServerHello, a certificate, and its chain verified. */
  lemma ChainOf(c: Config, h: Message, log: seq<Event>) returns (g: nat, certificate: nat)
    requires Reached(c, h, ReadServerKeyExchange, log) && !Resumes(c, h) && h.hello.cipher.certAuth
    ensures g < certificate < |log| - 1 && log[g] == Got(h) && h.kind == 2 && log[|log| - 1] == ChainVerified
    ensures log[certificate].Got? && log[certificate].m.kind == 11 && !log[certificate].m.empty
  {
    assert After(c, h, VerifyServerCertificate, log, [ChainVerified]);
    OfAfter(c, h, VerifyServerCertificate, log, [ChainVerified]);
    var front := log[..|log| - 1];
    var n := Comes(c, h, ReadCertificateStatus, VerifyServerCertificate, front);
    assert Took(c, h, ReadServerCertificate, front[..n], 11, []);
    OfTook(c, h, ReadServerCertificate, front[..n], 11, []);
    var greeting := front[..n][..n - 2];
    assert Greeted(c, h, greeting);
    hide Reached, Greeted, Took;
    HelloOf(c, h, greeting);
    g, certificate := n - 3, n - 1;
    assert greeting[g] == front[..n][g] == front[g] == log[g];
    assert front[..n][certificate] == front[certificate] == log[certificate];
  }

  /** A server with a certificate and an ephemeral key: its key exchange message was signed and the signature verified
      after its chain. */
  lemma SignatureOf(c: Config, h: Message, log: seq<Event>) returns (g: nat, certificate: nat, chain: nat)
    requires Reached(c, h, ReadCertificateRequest, log) && Proves(c, h)
    ensures g < certificate < chain < |log| - 2 && log[g] == Got(h) && h.kind == 2
    ensures log[certificate].Got? && log[certificate].m.kind == 11 && !log[certificate].m.empty
    ensures log[chain] == ChainVerified && log[|log| - 2] == SignatureVerified
    ensures log[|log| - 1].Got? && log[|log| - 1].m.kind == 12
  {
    assert Took(c, h, ReadServerKeyExchange, log, 12, [SignatureVerified]);
    hide Reached, Took;
    OfTook(c, h, ReadServerKeyExchange, log, 12, [SignatureVerified]);
    assert [SignatureVerified][0] == log[|log| - 2];
    var front := log[..|log| - 3];
    g, certificate := ChainOf(c, h, front);
    chain := |front| - 1;
    assert front[g] == log[g] && front[certificate] == log[certificate] && front[chain] == log[chain];
  }

  /** A client's key exchange comes after everything that proves the server. */
  lemma PremasterOf(c: Config, h: Message, log: seq<Event>)
    returns (g: nat, certificate: nat, chain: nat, signature: nat, premaster: nat)
    requires Reached(c, h, SendClientCertificateVerify, log) && Proves(c, h)
    ensures g < certificate < chain < signature < premaster < |log| - 1 && log[g] == Got(h) && h.kind == 2
    ensures log[certificate].Got? && log[certificate].m.kind == 11 && !log[certificate].m.empty
    ensures log[chain] == ChainVerified && log[signature] == SignatureVerified
    ensures log[premaster] == Premaster(true) && log[premaster + 1] == Sent(16)
  {
    var tail := ExchangeEvents(h.hello.cipher);
    assert After(c, h, SendClientKeyExchange, log, tail);
    hide Reached;
    OfAfter(c, h, SendClientKeyExchange, log, tail);
    var front := log[..|log| - |tail|];
    var n := Comes(c, h, ReadCertificateRequest, SendClientKeyExchange, front);
    g, certificate, chain := SignatureOf(c, h, front[..n]);
    signature, premaster := n - 2, |log| - 3;
    assert tail[|tail| - 3] == Premaster(true) && tail[|tail| - 2] == Sent(16);
    assert front[..n][g] == log[g] && front[..n][certificate] == log[certificate];
    assert front[..n][chain] == log[chain] && front[..n][signature] == log[signature];
  }

  lemma EstablishedLast(c: Config, h: Message, log: seq<Event>)
    requires Reached(c, h, Done, log)
    ensures |log| > 0 && log[|log| - 1] == Established(false, Proves(c, h))
  {
    var tail := (if Resumes(c, h) then [] else [Passed(Copy)]) + [Established(false, Proves(c, h))];
    assert After(c, h, FinishClientHandshake, log, tail);
    hide Reached;
    OfAfter(c, h, FinishClientHandshake, log, tail);
    assert tail[|tail| - 1] == Established(false, Proves(c, h));
  }

  /** The end of a finished handshake. */
  lemma EndsWell(c: Config, h: Message, log: seq<Event>) returns (ccs: nat, finished: nat)
    requires Reached(c, h, Done, log)
    ensures ccs + 1 < finished < |log| - 2 && Reached(c, h, ProcessChangeCipherSpec, log[..ccs + 1])
    ensures log[ccs] == CcsReceived && log[ccs + 1] == ReadSwitched && log[finished] == FinishedMatched
    ensures log[finished + 1].Got? && log[finished + 1].m.kind == 20 && Matches in log[finished + 1].m.passes
    ensures log[|log| - 1] == Established(false, Proves(c, h))
  {
    var s := if Resumes(c, h) then SendClientFinished else FinishClientHandshake;
    var n := Comes(c, h, s, Done, log);
    assert TookFinished(c, h, log[..n]);
    hide Reached, TookFinished;
    EstablishedLast(c, h, log);
    var k := EndOf(c, h, log[..n]);
    ccs, finished := k - 1, n - 2;
    assert log[..n][..k] == log[..k];
    assert log[..n][ccs] == log[ccs] && log[..n][k] == log[k] && log[..n][finished] == log[finished];
    assert log[..n][finished + 1] == log[finished + 1];
  }

  /** Up to the server's ChangeCipherSpec, in a full handshake with a certificate cipher. */
  lemma ChainBefore(c: Config, h: Message, log: seq<Event>) returns (g: nat)
    requires Reached(c, h, ProcessChangeCipherSpec, log) && log[|log| - 1] == CcsReceived
    requires !Resumes(c, h) && h.hello.cipher.certAuth
    ensures g < |log| - 1 && log[g] == Got(h) && VerifiedBetween(log, ChainVerified, g, |log| - 1)
  {
    hide Reached;
    var i := Comes(c, h, ReadServerKeyExchange, ProcessChangeCipherSpec, log);
    var certificate;
    g, certificate := ChainOf(c, h, log[..i]);
    assert log[..i][g] == log[g] && log[..i][i - 1] == log[i - 1];
  }

  /** The same with an ephemeral key. */
  lemma SignatureBefore(c: Config, h: Message, log: seq<Event>) returns (g: nat)
    requires Reached(c, h, ProcessChangeCipherSpec, log) && Proves(c, h)
    ensures g < |log| - 1 && log[g] == Got(h) && VerifiedBetween(log, SignatureVerified, g, |log| - 1)
  {
    hide Reached;
    var k := Comes(c, h, ReadCertificateRequest, ProcessChangeCipherSpec, log);
    var certificate, chain;
    g, certificate, chain := SignatureOf(c, h, log[..k]);
    assert log[..k][g] == log[g] && log[..k][k - 2] == log[k - 2];
  }

  lemma BetweenIsIn(log: seq<Event>, e: Event, from: nat, to: nat, k: nat)
    requires to <= k <= |log|
    ensures VerifiedBetween(log, e, from, to) ==> e in log[..k]
  {
    if j :| from < j < to && j < |log| && log[j] == e { assert log[..k][j] == e; }
  }

  lemma HelloBefore(c: Config, h: Message, log: seq<Event>) returns (g: nat)
    requires Reached(c, h, ProcessChangeCipherSpec, log) && |log| > 0 && log[|log| - 1] == CcsReceived
    ensures g < |log| - 1 && log[g] == Got(h) && h.kind == 2
  {
    var first := if Resumes(c, h) then ReadSessionTicket else ReadServerCertificate;
    var n := Comes(c, h, first, ProcessChangeCipherSpec, log);
    assert Greeted(c, h, log[..n]);
    hide Reached, Greeted;
    HelloOf(c, h, log[..n]);
    g := n - 1;
    assert log[..n][g] == log[g];
  }

  /** A full handshake with a server that proves its certified key: every step is in the record, in this order. */
  lemma ServerIsProven(c: Config, h: Message, log: seq<Event>)
    returns (g: nat, certificate: nat, chain: nat, signature: nat, premaster: nat, ccs: nat, finished: nat)
    requires Reached(c, h, Done, log) && Proves(c, h)
    ensures g < certificate < chain < signature < premaster < ccs < ccs + 1 < finished < |log| - 2
    ensures log[g] == Got(h) && log[certificate].Got? && log[certificate].m.kind == 11 && !log[certificate].m.empty
    ensures log[chain] == ChainVerified && log[signature] == SignatureVerified
    ensures log[premaster] == Premaster(true) && log[premaster + 1] == Sent(16)
    ensures log[ccs] == CcsReceived && log[ccs + 1] == ReadSwitched && log[finished] == FinishedMatched
    ensures log[finished + 1].Got? && log[finished + 1].m.kind == 20 && Matches in log[finished + 1].m.passes
    ensures log[|log| - 1] == Established(false, true)
  {
    hide Reached;
    ccs, finished := EndsWell(c, h, log);
    var front := log[..ccs + 1];
    var n := Comes(c, h, SendClientCertificateVerify, ProcessChangeCipherSpec, front);
    g, certificate, chain, signature, premaster := PremasterOf(c, h, front[..n]);
    assert front[..n][g] == log[g] && front[..n][certificate] == log[certificate] && front[..n][chain] == log[chain];
    assert front[..n][signature] == log[signature] && front[..n][premaster] == log[premaster];
    assert front[..n][premaster + 1] == log[premaster + 1];
  }

  /** What the record of a finished handshake holds: the ServerHello h, the only one, and after it, in this order, the
      server's ChangeCipherSpec, the switch of the read cipher, the matching Finished and the session; before the
      ChangeCipherSpec of a full handshake with a certificate cipher the chain was verified, and with an ephemeral
      key the signature. */
  lemma DoneMeans(c: Config, h: Message, log: seq<Event>) returns (g: nat, ccs: nat, finished: nat)
    requires Reached(c, h, Done, log)
    ensures g < ccs < ccs + 1 < finished < |log| - 2
    ensures log[g] == Got(h) && h.kind == 2
    ensures forall j :: 0 <= j < |log| && log[j].Got? && log[j].m.kind == 2 ==> j == g
    ensures log[ccs] == CcsReceived && log[ccs + 1] == ReadSwitched && log[finished] == FinishedMatched
    ensures log[finished + 1].Got? && log[finished + 1].m.kind == 20 && Matches in log[finished + 1].m.passes
    ensures log[|log| - 1] == Established(false, Proves(c, h))
    ensures !Resumes(c, h) && h.hello.cipher.certAuth ==> VerifiedBetween(log, ChainVerified, g, ccs)
    ensures Proves(c, h) ==> VerifiedBetween(log, SignatureVerified, g, ccs)
  {
    hide Reached;
    ccs, finished := EndsWell(c, h, log);
    g := HelloIn(c, h, log);
    var front := log[..ccs + 1];
    assert forall j :: 0 <= j <= ccs ==> front[j] == log[j];
    var i := HelloBefore(c, h, front);
    if !Resumes(c, h) && h.hello.cipher.certAuth { i := ChainBefore(c, h, front); }
    if Proves(c, h) { i := SignatureBefore(c, h, front); }
  }
}
