/** The course of a server handshake of TLS 1.2 and below: which messages and steps come in which order (RFC 5246,
    section 7.3), what each state of the state machine means in terms of this course, and what a finished one proves. */
module ServerCourse {
  import opened Bits
  import opened Handshake

  datatype State =
    | StartAccept
    | ReadClientHello
    | SelectCertificate
    | Tls13
    | SelectParameters
    | SendServerHello
    | SendServerCertificate
    | SendServerKeyExchange
    | SendServerHelloDone
    | ReadClientCertificate
    | VerifyClientCertificate
    | ReadClientKeyExchange
    | ReadClientCertificateVerify
    | ReadChangeCipherSpec
    | ProcessChangeCipherSpec
    | ReadNextProto
    | ReadChannelId
    | ReadClientFinished
    | SendServerFinished
    | FinishServerHandshake
    | Done

  /** How far a state is from the end; a resumption sends the server's Finished first. */
  function Rank(s: State, resumed: bool): (r: nat)
    ensures r <= 20
  {
    match s
    case StartAccept => 20
    case ReadClientHello => 19
    case SelectCertificate => 18
    case Tls13 => 17
    case SelectParameters => 16
    case SendServerHello => 15
    case SendServerCertificate => 14
    case SendServerKeyExchange => 13
    case SendServerHelloDone => 12
    case ReadClientCertificate => 11
    case VerifyClientCertificate => 10
    case ReadClientKeyExchange => 9
    case ReadClientCertificateVerify => 8
    case ReadChangeCipherSpec => if resumed then 6 else 7
    case ProcessChangeCipherSpec => if resumed then 5 else 6
    case ReadNextProto => if resumed then 4 else 5
    case ReadChannelId => if resumed then 3 else 4
    case ReadClientFinished => if resumed then 2 else 3
    case SendServerFinished => if resumed then 7 else 2
    case FinishServerHandshake => 1
    case Done => 0
  }

  // ---- The course of a handshake ----

  /** What the server is set up for: to ask for a certificate, to insist on one, not to ask when there is a channel ID;
      which extensions were negotiated; and whether it has a PSK identity hint. */
  datatype Config = Config(verifyPeer: bool, required: bool, unlessChannelId: bool, nextProto: bool, channelId: bool, hint: bool)

  /** A certificate is asked for in a full handshake with a certificate cipher, if the server is set up for it. */
  predicate Requests(c: Config, resumed: bool, cipher: Cipher)
  {
    !resumed && c.verifyPeer && !(c.unlessChannelId && c.channelId) && cipher.certAuth
  }

  /** The ServerHello p that the ClientHello h is to be answered with. */
  predicate Answers(c: Config, h: Message, p: Plan)
  {
    && p.resumed == h.hello.sameId && p.cipher == h.hello.cipher
    && p.request == Requests(c, p.resumed, p.cipher) && p.nextProto == c.nextProto
    && (p.channelId ==> c.channelId && p.cipher.kEcdhe)
    && (c.channelId && p.cipher.kEcdhe && !p.resumed ==> p.channelId)
  }

  /** The message m is one that state s goes on with, after the ClientHello h and the ServerHello p: of the type that is
      due (RFC 5246, section 7.3, with the numbers of section 7.4) and with all tests passed that are made of it.
      `presented` says that the client gave a certificate. */
  predicate Fits(c: Config, h: Message, p: Plan, presented: bool, s: State, m: Message)
  {
    match s
    case ReadClientHello => m.kind == 1 && Parses in m.passes && Supported in m.passes
    case SelectCertificate => m.hello.tls13 || Allowed in m.passes
    case SelectParameters => Extensions in m.passes && (m.hello.sameId ==> Consistent in m.passes)
    case ReadClientCertificate =>
      p.request ==>
        if m.kind == 11 then Parses in m.passes && (m.empty ==> !h.hello.ssl3 && !c.required)
        else m.kind == 16 && h.hello.ssl3 && !c.required
    case ReadClientKeyExchange =>
      && m.kind == 16 && (p.cipher.pskAuth ==> Identity in m.passes)
      && (p.cipher.kRsa || p.cipher.kEcdhe ==> Parses in m.passes)
    case ReadClientCertificateVerify => presented ==> m.kind == 15 && Algorithm in m.passes && Parses in m.passes
    case ReadNextProto => p.nextProto ==> m.kind == 67 && Parses in m.passes
    case ReadChannelId => p.channelId ==> m.kind == 203
    case ReadClientFinished => m.kind == 20 && Matches in m.passes
    case _ => true
  }

  /** The ClientHello h was taken: its session is resumed, or there is a new one. */
  predicate Begun(c: Config, h: Message, p: Plan, log: seq<Event>)
  {
    && log == [Passed(Selected)] + (if h.hello.sameId then [] else [Passed(NewSession)]) + [Passed(Admit), Hashed(h), Got(h)]
    && !h.hello.tls13 && Fits(c, h, p, false, ReadClientHello, h) && Fits(c, h, p, false, SelectCertificate, h)
    && Fits(c, h, p, false, SelectParameters, h)
  }

  /** The ServerHello p was sent. */
  predicate Greeted(c: Config, h: Message, p: Plan, log: seq<Event>)
  {
    Answers(c, h, p) && Ends(log, [SentHello(p)]) && Begun(c, h, p, Front(log, 1))
  }

  /** The client gave a certificate. */
  predicate Presented(log: seq<Event>)
  {
    exists k :: 0 <= k < |log| && log[k].Got? && log[k].m.kind == 11 && !log[k].m.empty
  }

  /** A ServerKeyExchange is sent for an ephemeral key or a PSK hint. */
  predicate NeedsKeys(c: Config, cipher: Cipher) { cipher.kEcdhe || (cipher.pskAuth && c.hint) }

  /** The server's certificate, with its status if that was asked for, and its ephemeral key. */
  function OwnEvents(cipher: Cipher, status: bool): seq<Event>
  {
    (if cipher.certAuth then [SentCertificate(false)] + (if status then [Sent(22)] else []) else [])
    + (if cipher.kEcdhe then [Passed(Offer)] else [])
  }

  function HelloDoneEvents(request: bool): seq<Event> { (if request then [Sent(13)] else []) + [Sent(14)] }

  /** The steps of a server's part in the key exchange. */
  function ExchangeEvents(cipher: Cipher, m: Message): seq<Event>
  {
    (if cipher.kRsa then [Passed(Decrypt)] else if cipher.kEcdhe then [Passed(Agree)] else [])
    + (if cipher.pskAuth then [Passed(Psk)] else []) + [Hashed(m), Passed(Derive), Got(m)]
  }

  /** A ticket if there is to be one, the server's ChangeCipherSpec and its Finished. */
  function LastFlight(ticket: bool): seq<Event>
  {
    (if ticket then [Sent(4)] else []) + [SentCcs, WriteSwitched, Sent(20)]
  }

  /** What the record holds when a handshake below TLS 1.3 with the ClientHello h and the ServerHello p comes to state s:
      all that RFC 5246 has come and go before, in this order and nothing else. */
  ghost predicate Reached(c: Config, h: Message, p: Plan, s: State, log: seq<Event>)
    decreases 21 - Rank(s, p.resumed), 0
  {
    match s
    case StartAccept => log == []
    case ReadClientHello => log == []
    case SelectCertificate => log == []
    case Tls13 => log == [Passed(Selected)]
    case SelectParameters => log == [Passed(Selected)]
    case SendServerHello => Begun(c, h, p, log)
    case SendServerCertificate => !p.resumed && Greeted(c, h, p, log)
    case SendServerKeyExchange => After(c, h, p, SendServerCertificate, log, OwnEvents(p.cipher, p.status))
    case SendServerHelloDone =>
      if NeedsKeys(c, p.cipher) then After(c, h, p, SendServerKeyExchange, log, [Sent(12)])
      else Reached(c, h, p, SendServerKeyExchange, log)
    case ReadClientCertificate => After(c, h, p, SendServerHelloDone, log, HelloDoneEvents(p.request))
    case VerifyClientCertificate =>
      || (p.request && Took(c, h, p, ReadClientCertificate, log, 11, [], []))
      || ((!p.request || (h.hello.ssl3 && !c.required)) && Reached(c, h, p, ReadClientCertificate, log))
    case ReadClientKeyExchange =>
      if Presented(log) then After(c, h, p, VerifyClientCertificate, log, [ChainVerified])
      else Reached(c, h, p, VerifyClientCertificate, log)
    case ReadClientCertificateVerify => TookKeys(c, h, p, log)
    case ReadChangeCipherSpec =>
      if p.resumed then After(c, h, p, SendServerFinished, log, LastFlight(p.ticket))
      else if Presented(log) then Took(c, h, p, ReadClientCertificateVerify, log, 15, [SignatureVerified], [])
      else Reached(c, h, p, ReadClientCertificateVerify, log)
    case ProcessChangeCipherSpec => After(c, h, p, ReadChangeCipherSpec, log, [CcsReceived])
    case ReadNextProto => After(c, h, p, ProcessChangeCipherSpec, log, [ReadSwitched])
    case ReadChannelId =>
      if p.nextProto then Took(c, h, p, ReadNextProto, log, 67, [], [Passed(Store)]) else Reached(c, h, p, ReadNextProto, log)
    case ReadClientFinished =>
      if p.channelId then Took(c, h, p, ReadChannelId, log, 203, [Passed(ChannelIdProof)], [])
      else Reached(c, h, p, ReadChannelId, log)
    case SendServerFinished => if p.resumed then Greeted(c, h, p, log) else TookFinished(c, h, p, log)
    case FinishServerHandshake =>
      if p.resumed then TookFinished(c, h, p, log) else After(c, h, p, SendServerFinished, log, LastFlight(p.ticket))
    case Done => After(c, h, p, FinishServerHandshake, log, [Established(false, !p.resumed && Presented(log))])
  }

  /** State s was reached, and then the events of the tail happened. */
  ghost predicate After(c: Config, h: Message, p: Plan, s: State, log: seq<Event>, tail: seq<Event>)
    decreases 21 - Rank(s, p.resumed), 1
  {
    Ends(log, tail) && Reached(c, h, p, s, Front(log, |tail|))
  }

  /** State s was reached and took a message of this type, with steps before and after hashing it. */
  ghost predicate Took(c: Config, h: Message, p: Plan, s: State, log: seq<Event>, kind: Byte, first: seq<Event>,
                       then_: seq<Event>)
    decreases 21 - Rank(s, p.resumed), 2
  {
    var m := LastTaken(log, kind);
    m.Some? && Fits(c, h, p, Presented(log), s, m.value)
    && After(c, h, p, s, log, first + [Hashed(m.value)] + then_ + [Got(m.value)])
  }

  ghost predicate TookKeys(c: Config, h: Message, p: Plan, log: seq<Event>)
    decreases 21 - Rank(ReadClientKeyExchange, p.resumed), 2
  {
    var m := LastTaken(log, 16);
    m.Some? && Fits(c, h, p, Presented(log), ReadClientKeyExchange, m.value)
    && After(c, h, p, ReadClientKeyExchange, log, ExchangeEvents(p.cipher, m.value))
  }

  /** What follows a matching Finished: in a full handshake with a channel ID its hashes are recorded. */
  function RecordEvents(p: Plan): seq<Event> { if !p.resumed && p.channelId then [Passed(Record)] else [] }

  ghost predicate TookFinished(c: Config, h: Message, p: Plan, log: seq<Event>)
    decreases 21 - Rank(ReadClientFinished, p.resumed), 2
  {
    var m := LastTaken(Front(log, |RecordEvents(p)|), 20);
    m.Some? && Fits(c, h, p, false, ReadClientFinished, m.value)
    && After(c, h, p, ReadClientFinished, log, FinishedEvents(m.value, h.hello.ssl3) + RecordEvents(p))
  }

  // ---- Each state by the one before ----

  lemma OwnCourse(c: Config, h: Message, p: Plan, log: seq<Event>)
    ensures Reached(c, h, p, SendServerCertificate, log) <==> !p.resumed && Greeted(c, h, p, log)
    ensures Reached(c, h, p, SendServerKeyExchange, log)
       <==> After(c, h, p, SendServerCertificate, log, OwnEvents(p.cipher, p.status))
    ensures Reached(c, h, p, SendServerHelloDone, log)
       <==> if NeedsKeys(c, p.cipher) then After(c, h, p, SendServerKeyExchange, log, [Sent(12)])
            else Reached(c, h, p, SendServerKeyExchange, log)
    ensures Reached(c, h, p, ReadClientCertificate, log)
       <==> After(c, h, p, SendServerHelloDone, log, HelloDoneEvents(p.request))
  {
    hide After, Greeted;
  }

  lemma ClientCourse(c: Config, h: Message, p: Plan, log: seq<Event>)
    ensures Reached(c, h, p, VerifyClientCertificate, log)
       <==> || (p.request && Took(c, h, p, ReadClientCertificate, log, 11, [], []))
            || ((!p.request || (h.hello.ssl3 && !c.required)) && Reached(c, h, p, ReadClientCertificate, log))
    ensures Reached(c, h, p, ReadClientKeyExchange, log)
       <==> if Presented(log) then After(c, h, p, VerifyClientCertificate, log, [ChainVerified])
            else Reached(c, h, p, VerifyClientCertificate, log)
    ensures Reached(c, h, p, ReadClientCertificateVerify, log) <==> TookKeys(c, h, p, log)
    ensures Reached(c, h, p, ReadChangeCipherSpec, log)
       <==> if p.resumed then After(c, h, p, SendServerFinished, log, LastFlight(p.ticket))
            else if Presented(log) then Took(c, h, p, ReadClientCertificateVerify, log, 15, [SignatureVerified], [])
            else Reached(c, h, p, ReadClientCertificateVerify, log)
  {
    hide After, Took, TookKeys, Presented;
  }

  lemma CipherCourse(c: Config, h: Message, p: Plan, log: seq<Event>)
    ensures Reached(c, h, p, ProcessChangeCipherSpec, log) <==> After(c, h, p, ReadChangeCipherSpec, log, [CcsReceived])
    ensures Reached(c, h, p, ReadNextProto, log) <==> After(c, h, p, ProcessChangeCipherSpec, log, [ReadSwitched])
    ensures Reached(c, h, p, ReadChannelId, log)
       <==> if p.nextProto then Took(c, h, p, ReadNextProto, log, 67, [], [Passed(Store)])
            else Reached(c, h, p, ReadNextProto, log)
    ensures Reached(c, h, p, ReadClientFinished, log)
       <==> if p.channelId then Took(c, h, p, ReadChannelId, log, 203, [Passed(ChannelIdProof)], [])
            else Reached(c, h, p, ReadChannelId, log)
  {
    hide After, Took, Presented;
  }

  lemma LastCourse(c: Config, h: Message, p: Plan, log: seq<Event>)
    ensures Reached(c, h, p, SendServerFinished, log)
       <==> if p.resumed then Greeted(c, h, p, log) else TookFinished(c, h, p, log)
    ensures Reached(c, h, p, FinishServerHandshake, log)
       <==> if p.resumed then TookFinished(c, h, p, log)
            else After(c, h, p, SendServerFinished, log, LastFlight(p.ticket))
  {
    hide After, TookFinished, Greeted, Presented;
  }

  lemma DoneCourse(c: Config, h: Message, p: Plan, log: seq<Event>)
    ensures Reached(c, h, p, Done, log)
       <==> After(c, h, p, FinishServerHandshake, log, [Established(false, !p.resumed && Presented(log))])
  {
    hide After, Presented;
  }

  // ---- One step further ----

  /** Events other than a certificate of the client's present nothing. */
  lemma NotPresented(log: seq<Event>, tail: seq<Event>)
    ensures Presented(log + tail) <==> Presented(log) || Presented(tail)
  {
    if Presented(log) {
      var k :| 0 <= k < |log| && log[k].Got? && log[k].m.kind == 11 && !log[k].m.empty;
      assert (log + tail)[k] == log[k];
    }
    if Presented(tail) {
      var k :| 0 <= k < |tail| && tail[k].Got? && tail[k].m.kind == 11 && !tail[k].m.empty;
      assert (log + tail)[|log| + k] == tail[k];
    }
    if Presented(log + tail) {
      var k :| 0 <= k < |log + tail| && (log + tail)[k].Got? && (log + tail)[k].m.kind == 11 && !(log + tail)[k].m.empty;
      assert k >= |log| ==> tail[k - |log|] == (log + tail)[k];
    }
  }

  lemma Step(c: Config, h: Message, p: Plan, s: State, log: seq<Event>, tail: seq<Event>)
    ensures Reached(c, h, p, s, log) ==> After(c, h, p, s, log + tail, tail)
    ensures Presented(log + tail) <==> Presented(log) || Presented(tail)
  {
    hide Reached;
    Grown(log, tail);
    NotPresented(log, tail);
  }

  /** What the server sends and does itself presents nothing. */
  lemma OwnPresents(cipher: Cipher, yes: bool, m: Message)
    ensures !Presented(OwnEvents(cipher, yes)) && !Presented(HelloDoneEvents(yes)) && !Presented(LastFlight(yes))
    ensures m.kind != 11 ==> !Presented(ExchangeEvents(cipher, m))
    ensures m.kind != 11 ==> !Presented(FinishedEvents(m, yes))
  {}

  lemma EventPresents(e: Event)
    ensures !e.Got? ==> !Presented([e])
  {}

  /** The events of a message that was taken. */
  function TakenEvents(first: seq<Event>, m: Message, then_: seq<Event>): seq<Event>
  {
    first + [Hashed(m)] + then_ + [Got(m)]
  }

  lemma TakenIs(log: seq<Event>, first: seq<Event>, m: Message, then_: seq<Event>)
    ensures log + first + [Hashed(m)] + then_ + [Got(m)] == log + TakenEvents(first, m, then_)
    ensures first == [] ==> log + [Hashed(m)] + then_ + [Got(m)] == log + TakenEvents(first, m, then_)
    ensures then_ == [] ==> log + first + [Hashed(m)] + [Got(m)] == log + TakenEvents(first, m, then_)
  {}

  lemma TakenIn(log: seq<Event>, first: seq<Event>, m: Message, then_: seq<Event>)
    ensures Got(m) in log + TakenEvents(first, m, then_)
  {
    var tail := TakenEvents(first, m, then_);
    assert (log + tail)[|log + tail| - 1] == Got(m);
  }

  lemma TakenPlainly(log: seq<Event>, m: Message)
    ensures log + [Hashed(m)] + [Got(m)] == log + TakenEvents([], m, [])
  {}

  /** The record of a key exchange, step by step. */
  lemma ExchangeIs(log: seq<Event>, cipher: Cipher, m: Message)
    ensures var agreed := log + if cipher.kRsa then [Passed(Decrypt)] else if cipher.kEcdhe then [Passed(Agree)] else [];
            agreed + (if cipher.pskAuth then [Passed(Psk)] else []) + [Hashed(m), Passed(Derive), Got(m)]
            == log + ExchangeEvents(cipher, m)
  {}

  lemma FinishedIs(log: seq<Event>, m: Message, ssl3: bool, p: Plan)
    ensures log + FinishedEvents(m, ssl3) + RecordEvents(p) == log + (FinishedEvents(m, ssl3) + RecordEvents(p))
  {
    hide FinishedEvents, RecordEvents;
  }

  lemma TakenPresents(first: seq<Event>, m: Message, then_: seq<Event>)
    requires forall k :: 0 <= k < |first| ==> !first[k].Got?
    requires forall k :: 0 <= k < |then_| ==> !then_[k].Got?
    ensures Presented(TakenEvents(first, m, then_)) <==> m.kind == 11 && !m.empty
  {
    var tail := TakenEvents(first, m, then_);
    assert tail[|tail| - 1] == Got(m);
  }

  lemma Take(c: Config, h: Message, p: Plan, s: State, log: seq<Event>, m: Message, first: seq<Event>, then_: seq<Event>)
    requires forall k :: 0 <= k < |first| ==> !first[k].Got?
    requires forall k :: 0 <= k < |then_| ==> !then_[k].Got?
    ensures var log' := log + TakenEvents(first, m, then_);
            && (Presented(log') <==> Presented(log) || (m.kind == 11 && !m.empty))
            && (Reached(c, h, p, s, log) && Fits(c, h, p, Presented(log'), s, m)
                ==> Took(c, h, p, s, log', m.kind, first, then_))
  {
    hide Fits, Reached, Presented;
    var tail := TakenEvents(first, m, then_);
    TakenPresents(first, m, then_);
    NotPresented(log, tail);
    Step(c, h, p, s, log, tail);
    assert (log + tail)[|log + tail| - 1] == Got(m);
  }

  /** What states rely on stays in the record. */
  predicate Keeps(log: seq<Event>, log': seq<Event>)
  {
    && (ChainVerified in log ==> ChainVerified in log') && (SignatureVerified in log ==> SignatureVerified in log')
    && (CcsReceived in log ==> CcsReceived in log') && (ReadSwitched in log ==> ReadSwitched in log')
    && (FinishedMatched in log ==> FinishedMatched in log')
  }

  lemma TakenKeeps(log: seq<Event>, first: seq<Event>, m: Message, then_: seq<Event>)
    ensures Keeps(log, log + TakenEvents(first, m, then_))
    ensures first == [SignatureVerified] ==> SignatureVerified in log + TakenEvents(first, m, then_)
  {
    if first == [SignatureVerified] { assert (log + TakenEvents(first, m, then_))[|log|] == SignatureVerified; }
  }

  /** Only a CertificateVerify depends on whether there is a certificate. */
  lemma AnyFit(c: Config, h: Message, p: Plan, s: State, m: Message)
    ensures s != ReadClientCertificateVerify ==> (Fits(c, h, p, true, s, m) <==> Fits(c, h, p, false, s, m))
  {}

  lemma KeysTaken(c: Config, h: Message, p: Plan, log: seq<Event>, m: Message)
    requires m.kind == 16
    ensures var log' := log + ExchangeEvents(p.cipher, m);
            && (Presented(log') <==> Presented(log))
            && Keeps(log, log')
            && (Reached(c, h, p, ReadClientKeyExchange, log) && Fits(c, h, p, false, ReadClientKeyExchange, m)
                ==> TookKeys(c, h, p, log'))
  {
    var tail := ExchangeEvents(p.cipher, m);
    assert tail[|tail| - 1] == Got(m) && (log + tail)[|log + tail| - 1] == Got(m);
    hide Reached, Fits, Presented, ExchangeEvents;
    OwnPresents(p.cipher, false, m);
    AnyFit(c, h, p, ReadClientKeyExchange, m);
    Step(c, h, p, ReadClientKeyExchange, log, tail);
  }

  lemma FinishedIn(p: Plan, log: seq<Event>, m: Message, ssl3: bool)
    ensures var tail := FinishedEvents(m, ssl3) + RecordEvents(p);
            && FinishedMatched in log + tail && Keeps(log, log + tail)
            && Front(log + tail, |RecordEvents(p)|) == log + FinishedEvents(m, ssl3)
  {
    var tail, front := FinishedEvents(m, ssl3) + RecordEvents(p), log + FinishedEvents(m, ssl3);
    var k := |FinishedEvents(m, ssl3)| - 2;
    assert FinishedEvents(m, ssl3)[k] == FinishedMatched;
    hide FinishedEvents, RecordEvents;
    assert (log + tail)[|log| + k] == FinishedMatched;
    assert log + tail == front + RecordEvents(p);
    Grown(front, RecordEvents(p));
  }

  lemma FinishedTaken(c: Config, h: Message, p: Plan, log: seq<Event>, m: Message)
    requires m.kind == 20
    ensures var log' := log + (FinishedEvents(m, h.hello.ssl3) + RecordEvents(p));
            && (Presented(log') <==> Presented(log))
            && FinishedMatched in log' && Keeps(log, log')
            && (Reached(c, h, p, ReadClientFinished, log) && Fits(c, h, p, false, ReadClientFinished, m)
                ==> TookFinished(c, h, p, log'))
  {
    var finished := FinishedEvents(m, h.hello.ssl3);
    assert (log + finished)[|log + finished| - 1] == Got(m);
    assert !Presented(RecordEvents(p));
    hide Reached, Fits, Presented, FinishedEvents, RecordEvents, After, Keeps;
    FinishedIn(p, log, m, h.hello.ssl3);
    OwnPresents(p.cipher, h.hello.ssl3, m);
    NotPresented(finished, RecordEvents(p));
    Step(c, h, p, ReadClientFinished, log, finished + RecordEvents(p));
  }

  // ---- What the fields of a handshake agree with ----

  /** The fields of a server handshake and the record of its connection. */
  datatype View = View(
    state: State, resumed: bool, tls13: bool, ssl3: bool, cipher: Cipher, keyShare: bool, certRequest: bool,
    peerKey: bool, serverParams: bool, channelId: bool, ticketExpected: bool, statusExpected: bool, log: seq<Event>)

  /** A full handshake below TLS 1.3. */
  predicate Full(v: View) { !v.resumed && !v.tls13 }

  /** A client that gave a certificate had its chain and its CertificateVerify signature verified. */
  predicate Proven(v: View) { v.peerKey ==> ChainVerified in v.log && SignatureVerified in v.log }

  predicate HasKeyShare(v: View) { v.cipher.kEcdhe ==> v.keyShare }

  /** What each state may rely on, given what has happened so far and that the handshake waits for `w`. */
  predicate Relies(v: View, w: Wait)
  {
    match v.state
    case StartAccept => !v.tls13
    case ReadClientHello => !v.tls13
    case SelectCertificate => !v.tls13
    case Tls13 => v.tls13
    case SelectParameters => !v.tls13
    case SendServerHello => !v.tls13
    case SendServerCertificate => Full(v)
    case SendServerKeyExchange => Full(v) && HasKeyShare(v)
    case SendServerHelloDone => Full(v) && HasKeyShare(v)
    case ReadClientCertificate => Full(v) && HasKeyShare(v)
    case VerifyClientCertificate => Full(v) && HasKeyShare(v)
    case ReadClientKeyExchange => Full(v) && HasKeyShare(v) && (v.peerKey ==> ChainVerified in v.log)
    case ReadClientCertificateVerify => Full(v) && (v.peerKey ==> ChainVerified in v.log)
    case ReadChangeCipherSpec => !v.tls13 && (v.resumed || Proven(v))
    case ProcessChangeCipherSpec => !v.tls13 && (v.resumed || Proven(v)) && (w.AwaitCcs? || CcsReceived in v.log)
    case ReadNextProto => !v.tls13 && (v.resumed || Proven(v)) && ReadSwitched in v.log
    case ReadChannelId => !v.tls13 && (v.resumed || Proven(v)) && ReadSwitched in v.log
    case ReadClientFinished => !v.tls13 && (v.resumed || Proven(v)) && ReadSwitched in v.log
    case SendServerFinished => !v.tls13 && (v.resumed || (Proven(v) && FinishedMatched in v.log))
    case FinishServerHandshake => v.tls13 || (FinishedMatched in v.log && (v.resumed || Proven(v)))
    case Done => Established(v.tls13, Full(v) && v.peerKey) in v.log
  }

  /** The record is the course of a handshake up to this state. */
  ghost predicate Follows(c: Config, h: Message, p: Plan, v: View, w: Wait)
  {
    if v.state == ProcessChangeCipherSpec && w.AwaitCcs? then Reached(c, h, p, ReadChangeCipherSpec, v.log)
    else Reached(c, h, p, v.state, v.log)
  }

  predicate BeforeHello(s: State) { s.StartAccept? || s.ReadClientHello? || s.SelectCertificate? || s.SelectParameters? }

  predicate BeforeCertificate(s: State)
  {
    BeforeHello(s) || s.SendServerHello? || s.SendServerCertificate? || s.SendServerKeyExchange?
    || s.SendServerHelloDone? || s.ReadClientCertificate?
  }

  /** An offered channel ID is used in every full handshake with an ephemeral key. */
  predicate MayChannelId(c: Config, resumed: bool, cipher: Cipher, yes: bool)
  {
    (yes ==> c.channelId) && (c.channelId && cipher.kEcdhe && !resumed ==> yes)
  }

  /** The fields say what the two hellos and the client's certificate say. */
  predicate Agrees(c: Config, h: Message, p: Plan, v: View)
  {
    && (v.peerKey <==> Presented(v.log))
    && (BeforeCertificate(v.state) ==> !v.peerKey)
    && (BeforeHello(v.state) ==> !v.resumed && !v.certRequest && !v.serverParams && v.channelId == c.channelId)
    && (v.state == SelectCertificate || v.state == SelectParameters ==>
          v.ssl3 == h.hello.ssl3 && Fits(c, h, p, false, ReadClientHello, h))
    && (v.state == SelectParameters ==>
          v.cipher == h.hello.cipher && !h.hello.tls13 && Fits(c, h, p, false, SelectCertificate, h))
    && (v.state == SendServerHello ==>
          && v.ssl3 == h.hello.ssl3 && v.resumed == h.hello.sameId && v.cipher == h.hello.cipher
          && v.certRequest == Requests(c, v.resumed, v.cipher) && !v.serverParams
          && MayChannelId(c, v.resumed, v.cipher, v.channelId))
    && (!BeforeHello(v.state) && v.state != SendServerHello ==>
          && Answers(c, h, p) && v.ssl3 == h.hello.ssl3 && v.resumed == p.resumed && v.cipher == p.cipher
          && v.certRequest == p.request && v.channelId == p.channelId
          && v.ticketExpected == p.ticket && v.statusExpected == p.status)
    && (v.state == SendServerCertificate ==> !v.serverParams)
    && (v.state == SendServerKeyExchange ==> v.serverParams == NeedsKeys(c, v.cipher))
  }

  /** The handshake is on course: each state has what it relies on, and below TLS 1.3 the record is that of RFC 5246. */
  ghost predicate Course(c: Config, h: Message, p: Plan, v: View, w: Wait)
  {
    && Relies(v, w)
    && (v.tls13 || (Follows(c, h, p, v, w) && Agrees(c, h, p, v) && (w.AwaitCcs? ==> v.state == ProcessChangeCipherSpec)))
  }


  // ---- From state to state ----

  lemma FromStart(c: Config, h: Message, p: Plan, v: View)
    ensures Course(c, h, p, v, Ok) && v.state == StartAccept ==> Course(c, h, p, v.(state := ReadClientHello), Ok)
  {}

  /** The ClientHello m takes the place of whatever h was. */
  lemma AfterClientHello(c: Config, h: Message, p: Plan, v: View, m: Message)
    ensures Course(c, h, p, v, Ok) && v.state == ReadClientHello && Fits(c, m, p, false, ReadClientHello, m)
        ==> Course(c, m, p, v.(state := SelectCertificate, ssl3 := m.hello.ssl3), Ok)
  {}

  lemma AfterSelected(c: Config, h: Message, p: Plan, v: View)
    ensures Course(c, h, p, v, Ok) && v.state == SelectCertificate && !h.hello.tls13
            && Fits(c, h, p, false, SelectCertificate, h)
        ==> Course(c, h, p, v.(state := SelectParameters, cipher := h.hello.cipher, log := v.log + [Passed(Selected)]), Ok)
  {
    NotPresented(v.log, [Passed(Selected)]);
  }

  lemma ToTls13(c: Config, h: Message, p: Plan, v: View, log: seq<Event>)
    ensures Course(c, h, p, v, Ok) ==> Course(c, h, p, v.(state := Tls13, tls13 := true, log := log), Ok)
    ensures v.tls13 ==> Course(c, h, p, v.(state := FinishServerHandshake), Ok)
  {}

  lemma AfterParameters(c: Config, h: Message, p: Plan, v: View, ticket: bool, status: bool)
    ensures Course(c, h, p, v, Ok) && v.state == SelectParameters && Fits(c, h, p, false, SelectParameters, h)
        ==> var log := v.log + (if h.hello.sameId then [] else [Passed(NewSession)]) + [Passed(Admit), Hashed(h), Got(h)];
            Course(c, h, p, v.(state := SendServerHello, resumed := h.hello.sameId, ticketExpected := ticket,
                               statusExpected := status, certRequest := Requests(c, h.hello.sameId, v.cipher), log := log), Ok)
  {
    var tail := (if h.hello.sameId then [] else [Passed(NewSession)]) + [Passed(Admit), Hashed(h), Got(h)];
    assert v.log + (if h.hello.sameId then [] else [Passed(NewSession)]) + [Passed(Admit), Hashed(h), Got(h)] == v.log + tail;
    NotPresented(v.log, tail);
  }

  lemma AnyChannelId(c: Config, h: Message, p: Plan, v: View, yes: bool)
    ensures Course(c, h, p, v, Ok) && v.state == SendServerHello && MayChannelId(c, v.resumed, v.cipher, yes)
        ==> Course(c, h, p, v.(channelId := yes), Ok)
  {}

  /** The ServerHello p' takes the place of whatever p was. */
  lemma AfterServerHello(c: Config, h: Message, p: Plan, v: View, p': Plan)
    ensures Course(c, h, p, v, Ok) && v.state == SendServerHello && Answers(c, h, p')
            && v.channelId == p'.channelId && v.ticketExpected == p'.ticket && v.statusExpected == p'.status
        ==> Course(c, h, p', v.(state := if p'.resumed then SendServerFinished else SendServerCertificate,
                                log := v.log + [SentHello(p')]), Ok)
  {
    NotPresented(v.log, [SentHello(p')]);
    EventPresents(SentHello(p'));
    Grown(v.log, [SentHello(p')]);
  }

  lemma AfterOwn(c: Config, h: Message, p: Plan, v: View)
    ensures Course(c, h, p, v, Ok) && v.state == SendServerCertificate
        ==> Course(c, h, p, v.(state := SendServerKeyExchange, keyShare := v.keyShare || v.cipher.kEcdhe,
                            serverParams := NeedsKeys(c, v.cipher), log := v.log + OwnEvents(v.cipher, v.statusExpected)), Ok)
  {
    hide Reached, Fits, Presented, After, Took, TookKeys, TookFinished, Greeted, OwnEvents;
    OwnPresents(p.cipher, p.status, h);
    Step(c, h, p, SendServerCertificate, v.log, OwnEvents(p.cipher, p.status));
    OwnCourse(c, h, p, v.log + OwnEvents(p.cipher, p.status));
  }

  lemma NoKeys(c: Config, h: Message, p: Plan, v: View)
    ensures Course(c, h, p, v, Ok) && v.state == SendServerKeyExchange && !v.serverParams
        ==> Course(c, h, p, v.(state := SendServerHelloDone), Ok)
  {
    hide Reached, Fits, Presented, After, Took, TookKeys, TookFinished, Greeted;
    OwnCourse(c, h, p, v.log);
  }

  lemma AfterKeys(c: Config, h: Message, p: Plan, v: View)
    ensures Course(c, h, p, v, Ok) && v.state == SendServerKeyExchange && v.serverParams
        ==> Course(c, h, p, v.(state := SendServerHelloDone, serverParams := false, log := v.log + [Sent(12)]), Ok)
  {
    hide Reached, Fits, Presented, After, Took, TookKeys, TookFinished, Greeted;
    EventPresents(Sent(12));
    Step(c, h, p, SendServerKeyExchange, v.log, [Sent(12)]);
    OwnCourse(c, h, p, v.log + [Sent(12)]);
  }

  lemma AfterHelloDone(c: Config, h: Message, p: Plan, v: View)
    ensures Course(c, h, p, v, Ok) && v.state == SendServerHelloDone
        ==> Course(c, h, p, v.(state := ReadClientCertificate, log := v.log + HelloDoneEvents(v.certRequest)), Flush)
  {
    hide Reached, Fits, Presented, After, Took, TookKeys, TookFinished, Greeted, HelloDoneEvents;
    OwnPresents(p.cipher, p.request, h);
    Step(c, h, p, SendServerHelloDone, v.log, HelloDoneEvents(p.request));
    OwnCourse(c, h, p, v.log + HelloDoneEvents(p.request));
  }

  lemma NoCertificate(c: Config, h: Message, p: Plan, v: View)
    ensures Course(c, h, p, v, Ok) && v.state == ReadClientCertificate && (!v.certRequest || (v.ssl3 && !c.required))
        ==> Course(c, h, p, v.(state := VerifyClientCertificate), Ok)
  {
    hide Reached, Fits, Presented, After, Took, TookKeys, TookFinished, Greeted;
    ClientCourse(c, h, p, v.log);
  }

  lemma AfterCertificate(c: Config, h: Message, p: Plan, v: View, m: Message)
    requires m.kind == 11
    ensures Course(c, h, p, v, Ok) && v.state == ReadClientCertificate && v.certRequest
            && Fits(c, h, p, false, ReadClientCertificate, m)
        ==> Course(c, h, p, v.(state := VerifyClientCertificate, peerKey := !m.empty, log := v.log + TakenEvents([], m, [])), Ok)
  {
    hide Reached, Fits, Presented, After, Took, TookKeys, TookFinished, Greeted, TakenEvents;
    Take(c, h, p, ReadClientCertificate, v.log, m, [], []);
    TakenKeeps(v.log, [], m, []);
    ClientCourse(c, h, p, v.log + TakenEvents([], m, []));
    AnyFit(c, h, p, ReadClientCertificate, m);
  }

  lemma NotVerified(c: Config, h: Message, p: Plan, v: View)
    ensures Course(c, h, p, v, Ok) && v.state == VerifyClientCertificate && !v.peerKey
        ==> Course(c, h, p, v.(state := ReadClientKeyExchange), Ok)
  {
    hide Reached, Fits, Presented, After, Took, TookKeys, TookFinished, Greeted;
    ClientCourse(c, h, p, v.log);
  }

  lemma AfterVerified(c: Config, h: Message, p: Plan, v: View)
    ensures Course(c, h, p, v, Ok) && v.state == VerifyClientCertificate && v.peerKey
        ==> Course(c, h, p, v.(state := ReadClientKeyExchange, log := v.log + [ChainVerified]), Ok)
  {
    hide Reached, Fits, Presented, After, Took, TookKeys, TookFinished, Greeted;
    EventPresents(ChainVerified);
    Step(c, h, p, VerifyClientCertificate, v.log, [ChainVerified]);
    ClientCourse(c, h, p, v.log + [ChainVerified]);
  }

  lemma AfterKeyExchange(c: Config, h: Message, p: Plan, v: View, m: Message, share: bool)
    requires m.kind == 16
    ensures Course(c, h, p, v, Ok) && v.state == ReadClientKeyExchange && Fits(c, h, p, false, ReadClientKeyExchange, m)
        ==> Course(c, h, p, v.(state := ReadClientCertificateVerify, keyShare := share, log := v.log + ExchangeEvents(v.cipher, m)), Ok)
  {
    hide Reached, Fits, Presented, After, Took, TookKeys, TookFinished, Greeted, ExchangeEvents;
    OwnPresents(p.cipher, false, m);
    KeysTaken(c, h, p, v.log, m);
    ClientCourse(c, h, p, v.log + ExchangeEvents(p.cipher, m));
  }

  lemma NoProof(c: Config, h: Message, p: Plan, v: View)
    ensures Course(c, h, p, v, Ok) && v.state == ReadClientCertificateVerify && !v.peerKey
        ==> Course(c, h, p, v.(state := ReadChangeCipherSpec), Ok)
  {
    hide Reached, Fits, Presented, After, Took, TookKeys, TookFinished, Greeted;
    ClientCourse(c, h, p, v.log);
  }

  lemma AfterProof(c: Config, h: Message, p: Plan, v: View, m: Message)
    requires m.kind == 15
    ensures Course(c, h, p, v, Ok) && v.state == ReadClientCertificateVerify && v.peerKey
            && Fits(c, h, p, true, ReadClientCertificateVerify, m)
        ==> Course(c, h, p, v.(state := ReadChangeCipherSpec, log := v.log + TakenEvents([SignatureVerified], m, [])), Ok)
  {
    hide Reached, Fits, Presented, After, Took, TookKeys, TookFinished, Greeted, TakenEvents;
    Take(c, h, p, ReadClientCertificateVerify, v.log, m, [SignatureVerified], []);
    TakenKeeps(v.log, [SignatureVerified], m, []);
    ClientCourse(c, h, p, v.log + TakenEvents([SignatureVerified], m, []));
  }

  lemma ToCcs(c: Config, h: Message, p: Plan, v: View)
    ensures Course(c, h, p, v, Ok) && v.state == ReadChangeCipherSpec
        ==> Course(c, h, p, v.(state := ProcessChangeCipherSpec), AwaitCcs)
  {
    hide Reached, Fits, Presented, After, Took, TookKeys, TookFinished, Greeted;
  }

  lemma AfterCcs(c: Config, h: Message, p: Plan, v: View)
    ensures Course(c, h, p, v, AwaitCcs) ==> Course(c, h, p, v.(log := v.log + [CcsReceived]), Ok)
  {
    hide Reached, Fits, Presented, After, Took, TookKeys, TookFinished, Greeted;
    EventPresents(CcsReceived);
    Step(c, h, p, ReadChangeCipherSpec, v.log, [CcsReceived]);
    CipherCourse(c, h, p, v.log + [CcsReceived]);
  }

  lemma AfterSwitch(c: Config, h: Message, p: Plan, v: View)
    ensures Course(c, h, p, v, Ok) && v.state == ProcessChangeCipherSpec
        ==> Course(c, h, p, v.(state := ReadNextProto, log := v.log + [ReadSwitched]), Ok)
  {
    hide Reached, Fits, Presented, After, Took, TookKeys, TookFinished, Greeted;
    EventPresents(ReadSwitched);
    Step(c, h, p, ProcessChangeCipherSpec, v.log, [ReadSwitched]);
    CipherCourse(c, h, p, v.log + [ReadSwitched]);
  }

  lemma NoNextProto(c: Config, h: Message, p: Plan, v: View)
    ensures Course(c, h, p, v, Ok) && v.state == ReadNextProto && !c.nextProto
        ==> Course(c, h, p, v.(state := ReadChannelId), Ok)
  {
    hide Reached, Fits, Presented, After, Took, TookKeys, TookFinished, Greeted;
    CipherCourse(c, h, p, v.log);
  }

  lemma AfterNextProto(c: Config, h: Message, p: Plan, v: View, m: Message)
    requires m.kind == 67
    ensures Course(c, h, p, v, Ok) && v.state == ReadNextProto && c.nextProto && Fits(c, h, p, false, ReadNextProto, m)
        ==> Course(c, h, p, v.(state := ReadChannelId, log := v.log + TakenEvents([], m, [Passed(Store)])), Ok)
  {
    hide Reached, Fits, Presented, After, Took, TookKeys, TookFinished, Greeted, TakenEvents;
    Take(c, h, p, ReadNextProto, v.log, m, [], [Passed(Store)]);
    TakenKeeps(v.log, [], m, [Passed(Store)]);
    CipherCourse(c, h, p, v.log + TakenEvents([], m, [Passed(Store)]));
    AnyFit(c, h, p, ReadNextProto, m);
  }

  lemma NoChannelId(c: Config, h: Message, p: Plan, v: View)
    ensures Course(c, h, p, v, Ok) && v.state == ReadChannelId && !v.channelId
        ==> Course(c, h, p, v.(state := ReadClientFinished), Ok)
  {
    hide Reached, Fits, Presented, After, Took, TookKeys, TookFinished, Greeted;
    CipherCourse(c, h, p, v.log);
  }

  lemma AfterChannelId(c: Config, h: Message, p: Plan, v: View, m: Message)
    requires m.kind == 203
    ensures Course(c, h, p, v, Ok) && v.state == ReadChannelId && v.channelId && Fits(c, h, p, false, ReadChannelId, m)
        ==> Course(c, h, p, v.(state := ReadClientFinished, log := v.log + TakenEvents([Passed(ChannelIdProof)], m, [])), Ok)
  {
    hide Reached, Fits, Presented, After, Took, TookKeys, TookFinished, Greeted, TakenEvents;
    Take(c, h, p, ReadChannelId, v.log, m, [Passed(ChannelIdProof)], []);
    TakenKeeps(v.log, [Passed(ChannelIdProof)], m, []);
    CipherCourse(c, h, p, v.log + TakenEvents([Passed(ChannelIdProof)], m, []));
    AnyFit(c, h, p, ReadChannelId, m);
  }

  lemma AfterFinished(c: Config, h: Message, p: Plan, v: View, m: Message)
    requires m.kind == 20
    ensures Course(c, h, p, v, Ok) && v.state == ReadClientFinished && Fits(c, h, p, false, ReadClientFinished, m)
        ==> Course(c, h, p, v.(state := if v.resumed then FinishServerHandshake else SendServerFinished,
                            log := v.log + (FinishedEvents(m, v.ssl3) + RecordEvents(p))), Ok)
  {
    hide Reached, Fits, Presented, After, Took, TookKeys, TookFinished, Greeted, FinishedEvents, RecordEvents;
    FinishedTaken(c, h, p, v.log, m);
    LastCourse(c, h, p, v.log + (FinishedEvents(m, h.hello.ssl3) + RecordEvents(p)));
  }

  lemma AfterLastFlight(c: Config, h: Message, p: Plan, v: View)
    ensures Course(c, h, p, v, Ok) && v.state == SendServerFinished
        ==> Course(c, h, p, v.(state := if v.resumed then ReadChangeCipherSpec else FinishServerHandshake,
                               log := v.log + LastFlight(v.ticketExpected)), Flush)
  {
    hide Reached, Fits, Presented, After, Took, TookKeys, TookFinished, Greeted, LastFlight;
    OwnPresents(p.cipher, p.ticket, h);
    Step(c, h, p, SendServerFinished, v.log, LastFlight(p.ticket));
    ClientCourse(c, h, p, v.log + LastFlight(p.ticket));
    LastCourse(c, h, p, v.log + LastFlight(p.ticket));
  }

  lemma AfterEstablished(c: Config, h: Message, p: Plan, v: View)
    ensures Course(c, h, p, v, Ok) && v.state == FinishServerHandshake
        ==> Course(c, h, p, v.(state := Done, log := v.log + [Established(v.tls13, Full(v) && v.peerKey)]), Ok)
  {
    hide Reached, Fits, Presented, After, Took, TookKeys, TookFinished, Greeted;
    var e := Established(v.tls13, Full(v) && v.peerKey);
    EventPresents(e);
    Step(c, h, p, FinishServerHandshake, v.log, [e]);
    DoneCourse(c, h, p, v.log + [e]);
  }

  /** Which wait it is makes no difference, but for a ChangeCipherSpec. */
  lemma AnyWait(c: Config, h: Message, p: Plan, v: View, w: Wait, w': Wait)
    requires !w.AwaitCcs? && !w'.AwaitCcs?
    ensures Course(c, h, p, v, w) ==> Course(c, h, p, v, w')
  {
    hide Reached, Fits, Presented, After, Took, TookKeys, TookFinished, Greeted, Answers;
  }

  // ---- What a handshake on course knows of its own fields ----

  lemma KnowsBefore(c: Config, h: Message, p: Plan, v: View)
    ensures Course(c, h, p, v, Ok) && BeforeHello(v.state)
        ==> !v.tls13 && !v.resumed && !v.certRequest && !v.serverParams && v.channelId == c.channelId
    ensures Course(c, h, p, v, Ok) && v.state == SelectParameters ==> v.cipher == h.hello.cipher
    ensures Course(c, h, p, v, Ok) && v.state == SendServerHello
        ==> && !v.tls13 && v.ssl3 == h.hello.ssl3 && v.resumed == h.hello.sameId && v.cipher == h.hello.cipher
            && v.certRequest == Requests(c, v.resumed, v.cipher) && MayChannelId(c, v.resumed, v.cipher, v.channelId)
  {}

  predicate AfterHello(s: State)
  {
    !BeforeHello(s) && !s.SendServerHello? && !s.Tls13? && !s.FinishServerHandshake? && !s.Done?
  }

  lemma KnowsHello(c: Config, h: Message, p: Plan, v: View)
    ensures Course(c, h, p, v, Ok) && AfterHello(v.state)
        ==> && !v.tls13 && v.ssl3 == h.hello.ssl3 && v.resumed == p.resumed && v.cipher == p.cipher
            && v.certRequest == p.request && v.channelId == p.channelId && p.nextProto == c.nextProto
  {}

  lemma KnowsKeys(c: Config, h: Message, p: Plan, v: View)
    ensures Course(c, h, p, v, Ok) && v.state == SendServerCertificate ==> !v.serverParams && !v.resumed
    ensures Course(c, h, p, v, Ok) && v.state == ReadClientKeyExchange ==> HasKeyShare(v)
  {}

  lemma KnowsCcs(c: Config, h: Message, p: Plan, v: View)
    ensures Course(c, h, p, v, Ok) && v.state == ProcessChangeCipherSpec ==> CcsReceived in v.log
    ensures Course(c, h, p, v, Ok) && v.state == ReadClientFinished ==> ReadSwitched in v.log
  {}

  lemma KnowsEnd(c: Config, h: Message, p: Plan, v: View)
    ensures Course(c, h, p, v, Ok) && v.state == FinishServerHandshake
        ==> v.tls13 || (FinishedMatched in v.log && (v.resumed || Proven(v)))
    ensures Course(c, h, p, v, Ok) && v.state == Done ==> Established(v.tls13, Full(v) && v.peerKey) in v.log
  {}

  lemma KnowsDone(c: Config, h: Message, p: Plan, v: View, w: Wait)
    ensures Course(c, h, p, v, w) && v.state == Done && !v.tls13
        ==> && Reached(c, h, p, Done, v.log) && Answers(c, h, p)
            && v.resumed == p.resumed && v.cipher == p.cipher && (v.peerKey <==> Presented(v.log))
  {}

  // ---- What a record means ----

  /** No Certificate was taken from this position on. */
  predicate NoCert(log: seq<Event>, from: nat)
  {
    forall j :: from <= j < |log| && log[j].Got? ==> log[j].m.kind != 11
  }

  lemma OfAfter(c: Config, h: Message, p: Plan, s: State, log: seq<Event>, tail: seq<Event>)
    ensures After(c, h, p, s, log, tail) ==>
              && |tail| <= |log| && Reached(c, h, p, s, log[..|log| - |tail|])
              && (NoCert(tail, 0) ==> NoCert(log, |log| - |tail|))
              && forall j :: 0 <= j < |tail| ==> log[|log| - |tail| + j] == tail[j]
  {
    hide Reached;
  }

  lemma OfTook(c: Config, h: Message, p: Plan, s: State, log: seq<Event>, kind: Byte, first: seq<Event>, then_: seq<Event>)
    requires NoCert(first, 0) && NoCert(then_, 0)
    ensures Took(c, h, p, s, log, kind, first, then_) ==>
              var k := |log| - 2 - |first| - |then_|;
              && 0 <= k && Reached(c, h, p, s, log[..k]) && (kind != 11 ==> NoCert(log, k))
              && log[|log| - 1].Got? && log[|log| - 1].m.kind == kind && Fits(c, h, p, Presented(log), s, log[|log| - 1].m)
              && log[k + |first|].Hashed? && (forall j :: 0 <= j < |first| ==> log[k + j] == first[j])
  {
    hide Reached, Fits, Presented;
    var m := LastTaken(log, kind);
    if m.Some? {
      var tail := first + [Hashed(m.value)] + then_ + [Got(m.value)];
      OfAfter(c, h, p, s, log, tail);
      assert tail[|first|] == Hashed(m.value) && forall j :: 0 <= j < |first| ==> tail[j] == first[j];
      assert kind != 11 ==> NoCert(tail, 0);
    }
  }

  lemma OfKeys(c: Config, h: Message, p: Plan, log: seq<Event>) returns (k: nat)
    requires TookKeys(c, h, p, log)
    ensures k < |log| && Reached(c, h, p, ReadClientKeyExchange, log[..k]) && NoCert(log, k)
    ensures log[|log| - 1].Got? && log[|log| - 1].m.kind == 16
  {
    hide Reached, Fits, Presented;
    var tail := ExchangeEvents(p.cipher, LastTaken(log, 16).value);
    assert NoCert(tail, 0);
    OfAfter(c, h, p, ReadClientKeyExchange, log, tail);
    k := |log| - |tail|;
  }

  lemma OfFinished(c: Config, h: Message, p: Plan, log: seq<Event>) returns (k: nat, finished: nat)
    requires TookFinished(c, h, p, log)
    ensures k < finished < |log| - 1 && Reached(c, h, p, ReadClientFinished, log[..k]) && NoCert(log, k)
    ensures log[finished] == FinishedMatched && log[finished + 1].Got?
    ensures log[finished + 1].m.kind == 20 && Matches in log[finished + 1].m.passes
  {
    hide Reached, Presented;
    var m := LastTaken(Front(log, |RecordEvents(p)|), 20).value;
    assert m.kind == 20 && Matches in m.passes;
    var finishing := FinishedEvents(m, h.hello.ssl3);
    var tail := finishing + RecordEvents(p);
    assert finishing[|finishing| - 2] == FinishedMatched && finishing[|finishing| - 1] == Got(m) && NoCert(tail, 0);
    hide FinishedEvents, RecordEvents, After, Fits;
    assert tail[|finishing| - 2] == FinishedMatched && tail[|finishing| - 1] == Got(m);
    OfAfter(c, h, p, ReadClientFinished, log, tail);
    k := |log| - |tail|;
    finished := k + |finishing| - 2;
  }

  /** The state before this one, up to the client's certificate. */
  lemma PriorOfFlight(c: Config, h: Message, p: Plan, t: State, log: seq<Event>) returns (q: State, k: nat)
    requires Reached(c, h, p, t, log) && !p.resumed && 11 <= Rank(t, false) < 14
    ensures Rank(q, false) == Rank(t, false) + 1
    ensures k <= |log| && Reached(c, h, p, q, log[..k]) && NoCert(log, k)
  {
    OwnCourse(c, h, p, log);
    hide Reached, After, Presented;
    assert log[..|log|] == log;
    match t {
      case SendServerKeyExchange =>
        q := SendServerCertificate;
        OfAfter(c, h, p, q, log, OwnEvents(p.cipher, p.status));
        k := |log| - |OwnEvents(p.cipher, p.status)|;
      case SendServerHelloDone =>
        q := SendServerKeyExchange;
        OfAfter(c, h, p, q, log, [Sent(12)]);
        k := if NeedsKeys(c, p.cipher) then |log| - 1 else |log|;
      case ReadClientCertificate =>
        q := SendServerHelloDone;
        OfAfter(c, h, p, q, log, HelloDoneEvents(p.request));
        k := |log| - |HelloDoneEvents(p.request)|;
    }
  }

  /** The state before this one, of the client's answer. */
  lemma PriorOfAnswer(c: Config, h: Message, p: Plan, t: State, log: seq<Event>) returns (q: State, k: nat)
    requires Reached(c, h, p, t, log) && !p.resumed && 7 <= Rank(t, false) < 11
    ensures Rank(q, false) == Rank(t, false) + 1
    ensures k <= |log| && Reached(c, h, p, q, log[..k]) && (t != VerifyClientCertificate ==> NoCert(log, k))
  {
    ClientCourse(c, h, p, log);
    hide Reached, After, Took, TookKeys, Presented;
    assert log[..|log|] == log;
    k := |log|;
    match t {
      case VerifyClientCertificate =>
        q := ReadClientCertificate;
        OfTook(c, h, p, q, log, 11, [], []);
        if !Reached(c, h, p, q, log) { k := |log| - 2; }
      case ReadClientKeyExchange =>
        q := VerifyClientCertificate;
        OfAfter(c, h, p, q, log, [ChainVerified]);
        if Presented(log) { k := |log| - 1; }
      case ReadClientCertificateVerify =>
        q := ReadClientKeyExchange;
        k := OfKeys(c, h, p, log);
      case ReadChangeCipherSpec =>
        q := ReadClientCertificateVerify;
        OfTook(c, h, p, q, log, 15, [SignatureVerified], []);
        if Presented(log) { k := |log| - 3; }
    }
  }

  /** The state before this one, from the client's ChangeCipherSpec to its Finished. */
  lemma PriorOfCipher(c: Config, h: Message, p: Plan, t: State, log: seq<Event>) returns (q: State, k: nat)
    requires Reached(c, h, p, t, log)
    requires t.ProcessChangeCipherSpec? || t.ReadNextProto? || t.ReadChannelId? || t.ReadClientFinished?
    ensures Rank(q, p.resumed) == Rank(t, p.resumed) + 1
    ensures k <= |log| && Reached(c, h, p, q, log[..k]) && NoCert(log, k)
  {
    CipherCourse(c, h, p, log);
    hide Reached, After, Took, Presented;
    assert log[..|log|] == log;
    k := |log|;
    match t {
      case ProcessChangeCipherSpec =>
        q := ReadChangeCipherSpec;
        OfAfter(c, h, p, q, log, [CcsReceived]);
        k := |log| - 1;
      case ReadNextProto =>
        q := ProcessChangeCipherSpec;
        OfAfter(c, h, p, q, log, [ReadSwitched]);
        k := |log| - 1;
      case ReadChannelId =>
        q := ReadNextProto;
        OfTook(c, h, p, q, log, 67, [], [Passed(Store)]);
        if p.nextProto { k := |log| - 3; }
      case ReadClientFinished =>
        q := ReadChannelId;
        OfTook(c, h, p, q, log, 203, [Passed(ChannelIdProof)], []);
        if p.channelId { k := |log| - 3; }
    }
  }

  /** The state before this one, at the end. */
  lemma PriorOfEnd(c: Config, h: Message, p: Plan, t: State, log: seq<Event>) returns (q: State, k: nat)
    requires Reached(c, h, p, t, log)
    requires t.FinishServerHandshake? || t.Done? || (if p.resumed then t.ReadChangeCipherSpec? else t.SendServerFinished?)
    ensures Rank(q, p.resumed) == Rank(t, p.resumed) + 1
    ensures k <= |log| && Reached(c, h, p, q, log[..k]) && NoCert(log, k)
  {
    LastCourse(c, h, p, log);
    DoneCourse(c, h, p, log);
    ClientCourse(c, h, p, log);
    hide Reached, After, Took, TookKeys, TookFinished, Presented;
    var finished;
    match t {
      case ReadChangeCipherSpec =>
        q := SendServerFinished;
        OfAfter(c, h, p, q, log, LastFlight(p.ticket));
        k := |log| - |LastFlight(p.ticket)|;
      case SendServerFinished =>
        q := ReadClientFinished;
        k, finished := OfFinished(c, h, p, log);
      case FinishServerHandshake =>
        if p.resumed {
          q := ReadClientFinished;
          k, finished := OfFinished(c, h, p, log);
        } else {
          q := SendServerFinished;
          OfAfter(c, h, p, q, log, LastFlight(p.ticket));
          k := |log| - |LastFlight(p.ticket)|;
        }
      case Done =>
        q := FinishServerHandshake;
        OfAfter(c, h, p, q, log, [Established(false, !p.resumed && Presented(log))]);
        k := |log| - 1;
    }
  }

  /** The states after the ServerHello. */
  predicate OnPath(p: Plan, s: State)
  {
    Rank(s, p.resumed) <= if p.resumed then 7 else 14
  }

  lemma SameRank(p: Plan, s: State, t: State)
    requires OnPath(p, s) && OnPath(p, t) && Rank(s, p.resumed) == Rank(t, p.resumed)
    ensures s == t
  {}

  /** A certificate can only come where one is read. */
  predicate PastCertificate(p: Plan, s: State, t: State)
  {
    p.resumed || Rank(s, false) <= 10 || 11 <= Rank(t, false)
  }

  lemma Prior(c: Config, h: Message, p: Plan, t: State, log: seq<Event>) returns (q: State, k: nat)
    requires Reached(c, h, p, t, log) && Rank(t, p.resumed) < if p.resumed then 7 else 14
    ensures Rank(q, p.resumed) == Rank(t, p.resumed) + 1
    ensures k <= |log| && Reached(c, h, p, q, log[..k]) && (PastCertificate(p, q, t) ==> NoCert(log, k))
  {
    hide Reached;
    if t.FinishServerHandshake? || t.Done? || (if p.resumed then t.ReadChangeCipherSpec? else t.SendServerFinished?) {
      q, k := PriorOfEnd(c, h, p, t, log);
    } else if t.ProcessChangeCipherSpec? || t.ReadNextProto? || t.ReadChannelId? || t.ReadClientFinished? {
      q, k := PriorOfCipher(c, h, p, t, log);
    } else if Rank(t, false) < 11 {
      q, k := PriorOfAnswer(c, h, p, t, log);
    } else {
      q, k := PriorOfFlight(c, h, p, t, log);
    }
  }

  /** A course came through every state between its first and its last. */
  lemma {:induction false} Comes(c: Config, h: Message, p: Plan, s: State, t: State, log: seq<Event>) returns (n: nat)
    requires Reached(c, h, p, t, log) && OnPath(p, s) && OnPath(p, t) && Rank(t, p.resumed) <= Rank(s, p.resumed)
    ensures n <= |log| && Reached(c, h, p, s, log[..n]) && (PastCertificate(p, s, t) ==> NoCert(log, n))
    decreases Rank(s, p.resumed) - Rank(t, p.resumed)
  {
    hide Reached;
    if Rank(t, p.resumed) == Rank(s, p.resumed) {
      SameRank(p, s, t);
      assert log[..|log|] == log;
      n := |log|;
    } else {
      var q, k := Prior(c, h, p, t, log);
      n := Comes(c, h, p, s, q, log[..k]);
      assert log[..k][..n] == log[..n];
      assert forall j :: n <= j < k ==> log[..k][j] == log[j];
    }
  }

  lemma GreetedMeans(c: Config, h: Message, p: Plan, log: seq<Event>)
    requires Greeted(c, h, p, log)
    ensures |log| >= 2 && log[|log| - 1] == SentHello(p) && log[|log| - 2] == Got(h) && h.kind == 1
    ensures Answers(c, h, p) && NoCert(log, 0)
  {
    var front := Front(log, 1);
    assert log == front + [SentHello(p)] && front[|front| - 1] == Got(h);
  }

  /** Before a certificate is read, none has come. */
  lemma NoneYet(c: Config, h: Message, p: Plan, log: seq<Event>)
    requires Reached(c, h, p, ReadClientCertificate, log) && !p.resumed
    ensures NoCert(log, 0) && !Presented(log)
  {
    var n := Comes(c, h, p, SendServerCertificate, ReadClientCertificate, log);
    assert Greeted(c, h, p, log[..n]);
    hide Reached, Greeted;
    GreetedMeans(c, h, p, log[..n]);
    assert forall j :: 0 <= j < n ==> log[..n][j] == log[j];
  }

  /** A certificate of the client's is the last that came before it is verified, and the only one. */
  lemma CertificateOf(c: Config, h: Message, p: Plan, log: seq<Event>)
    requires Reached(c, h, p, VerifyClientCertificate, log) && !p.resumed && Presented(log)
    ensures |log| > 0 && log[|log| - 1].Got? && log[|log| - 1].m.kind == 11
    ensures NoCert(log[..|log| - 1], 0)
  {
    ClientCourse(c, h, p, log);
    hide Reached, Took;
    if Reached(c, h, p, ReadClientCertificate, log) { NoneYet(c, h, p, log); }
    OfTook(c, h, p, ReadClientCertificate, log, 11, [], []);
    var front := log[..|log| - 2];
    NoneYet(c, h, p, front);
    assert forall j :: 0 <= j < |front| ==> front[j] == log[j];
  }

  /** A server that insists on a certificate and asked for one has got one. */
  lemma RequiredCame(c: Config, h: Message, p: Plan, log: seq<Event>)
    requires Reached(c, h, p, VerifyClientCertificate, log) && p.request && c.required
    ensures Presented(log)
  {
    ClientCourse(c, h, p, log);
    hide Reached, Took;
    OfTook(c, h, p, ReadClientCertificate, log, 11, [], []);
    assert log[|log| - 1].Got?;
  }

  /** A client that gave a certificate proved it. */
  lemma PresentedIsProven(log: seq<Event>, ccs: nat, k: nat)
    requires ccs <= k <= |log|
    requires forall j :: 0 <= j < |log| && log[j].Got? && log[j].m.kind == 11 && !log[j].m.empty
              ==> VerifiedBetween(log, ChainVerified, j, ccs) && VerifiedBetween(log, SignatureVerified, j, ccs)
    ensures Presented(log) ==> ChainVerified in log[..k] && SignatureVerified in log[..k]
  {
    if Presented(log) {
      var j :| 0 <= j < |log| && log[j].Got? && log[j].m.kind == 11 && !log[j].m.empty;
      var chain :| j < chain < ccs && chain < |log| && log[chain] == ChainVerified;
      var signature :| j < signature < ccs && signature < |log| && log[signature] == SignatureVerified;
      assert log[..k][chain] == ChainVerified && log[..k][signature] == SignatureVerified;
    }
  }

  lemma NotPresentedBefore(log: seq<Event>, k: nat)
    requires k <= |log| && NoCert(log, k)
    ensures Presented(log[..k]) <==> Presented(log)
  {
    assert log == log[..k] + log[k..];
    NotPresented(log[..k], log[k..]);
    assert !Presented(log[k..]);
  }

  /** The client's certificate, the verification of its chain and that of the CertificateVerify, in this order. */
  lemma ProvenOf(c: Config, h: Message, p: Plan, log: seq<Event>) returns (certificate: nat, chain: nat, signature: nat)
    requires Reached(c, h, p, ReadChangeCipherSpec, log) && !p.resumed && Presented(log)
    ensures certificate < chain < signature < |log| && log[chain] == ChainVerified && log[signature] == SignatureVerified
    ensures forall j :: 0 <= j < |log| && log[j].Got? && log[j].m.kind == 11 ==> j == certificate
  {
    ClientCourse(c, h, p, log);
    hide Reached, Took, Presented;
    OfTook(c, h, p, ReadClientCertificateVerify, log, 15, [SignatureVerified], []);
    signature := |log| - 3;
    assert [SignatureVerified][0] == log[signature];
    var n := Comes(c, h, p, ReadClientKeyExchange, ReadClientCertificateVerify, log[..signature]);
    assert log[..signature][..n] == log[..n];
    NotCert(log, signature, n);
    NotPresentedBefore(log, n);
    certificate, chain := ChainOf(c, h, p, log[..n]);
    assert log[..n][chain] == log[chain];
    assert forall j :: 0 <= j < n ==> log[..n][j] == log[j];
  }

  lemma NotCert(log: seq<Event>, k: nat, n: nat)
    requires n <= k <= |log| && NoCert(log, k) && NoCert(log[..k], n)
    ensures NoCert(log, n)
  {
    assert forall j :: n <= j < k ==> log[..k][j] == log[j];
  }

  lemma ChainOf(c: Config, h: Message, p: Plan, log: seq<Event>) returns (certificate: nat, chain: nat)
    requires Reached(c, h, p, ReadClientKeyExchange, log) && !p.resumed && Presented(log)
    ensures certificate < chain < |log| && log[chain] == ChainVerified
    ensures forall j :: 0 <= j < |log| && log[j].Got? && log[j].m.kind == 11 ==> j == certificate
  {
    ClientCourse(c, h, p, log);
    hide Reached, After, Presented;
    OfAfter(c, h, p, VerifyClientCertificate, log, [ChainVerified]);
    chain := |log| - 1;
    assert [ChainVerified][0] == log[chain];
    NotPresentedBefore(log, chain);
    CertificateOf(c, h, p, log[..chain]);
    certificate := chain - 1;
    assert forall j :: 0 <= j < certificate ==> log[..chain][..certificate][j] == log[j];
  }

  /** Up to the client's ChangeCipherSpec: whatever certificate came was verified, chain and signature. */
  lemma ProvenBefore(c: Config, h: Message, p: Plan, log: seq<Event>)
    requires Reached(c, h, p, ReadChangeCipherSpec, log)
    ensures forall j :: 0 <= j < |log| && log[j].Got? && log[j].m.kind == 11 && !log[j].m.empty
              ==> VerifiedBetween(log, ChainVerified, j, |log|) && VerifiedBetween(log, SignatureVerified, j, |log|)
    ensures p.resumed ==> NoCert(log, 0)
    ensures p.request && c.required ==> Presented(log)
  {
    hide Reached;
    if p.resumed {
      var n := Comes(c, h, p, SendServerFinished, ReadChangeCipherSpec, log);
      assert Greeted(c, h, p, log[..n]) by { LastCourse(c, h, p, log[..n]); }
      hide Greeted;
      GreetedMeans(c, h, p, log[..n]);
      assert forall j :: 0 <= j < n ==> log[..n][j] == log[j];
    } else {
      if Presented(log) { var certificate, chain, signature := ProvenOf(c, h, p, log); }
      if p.request && c.required {
        var n := Comes(c, h, p, VerifyClientCertificate, ReadChangeCipherSpec, log);
        RequiredCame(c, h, p, log[..n]);
        NotPresentedBefore(log, n);
      }
    }
  }

  /** The two hellos of a handshake. */
  lemma HelloIn(c: Config, h: Message, p: Plan, log: seq<Event>) returns (g: nat)
    requires Reached(c, h, p, ReadChangeCipherSpec, log)
    ensures g + 1 < |log| && log[g] == Got(h) && h.kind == 1 && log[g + 1] == SentHello(p) && Answers(c, h, p)
  {
    hide Reached;
    var first := if p.resumed then SendServerFinished else SendServerCertificate;
    var n := Comes(c, h, p, first, ReadChangeCipherSpec, log);
    assert Greeted(c, h, p, log[..n]) by {
      LastCourse(c, h, p, log[..n]);
      OwnCourse(c, h, p, log[..n]);
    }
    hide Greeted;
    GreetedMeans(c, h, p, log[..n]);
    g := n - 2;
    assert log[..n][g] == log[g] && log[..n][g + 1] == log[g + 1];
  }

  /** The client's ChangeCipherSpec and the switch of the read cipher. */
  lemma SwitchOf(c: Config, h: Message, p: Plan, log: seq<Event>)
    requires Reached(c, h, p, ReadNextProto, log)
    ensures |log| >= 2 && log[|log| - 2] == CcsReceived && log[|log| - 1] == ReadSwitched
    ensures Reached(c, h, p, ReadChangeCipherSpec, log[..|log| - 2]) && NoCert(log, |log| - 2)
  {
    CipherCourse(c, h, p, log);
    hide Reached, After;
    OfAfter(c, h, p, ProcessChangeCipherSpec, log, [ReadSwitched]);
    assert [ReadSwitched][0] == log[|log| - 1];
    var received := log[..|log| - 1];
    CipherCourse(c, h, p, received);
    OfAfter(c, h, p, ReadChangeCipherSpec, received, [CcsReceived]);
    assert [CcsReceived][0] == received[|received| - 1] == log[|log| - 2];
    assert received[..|log| - 2] == log[..|log| - 2];
  }

  /** The client's ChangeCipherSpec, the switch of the read cipher and its Finished. */
  lemma EndOf(c: Config, h: Message, p: Plan, log: seq<Event>) returns (ccs: nat, finished: nat)
    requires TookFinished(c, h, p, log)
    ensures ccs + 1 < finished < |log| - 1 && Reached(c, h, p, ReadChangeCipherSpec, log[..ccs]) && NoCert(log, ccs)
    ensures log[ccs] == CcsReceived && log[ccs + 1] == ReadSwitched && log[finished] == FinishedMatched
    ensures log[finished + 1].Got? && log[finished + 1].m.kind == 20 && Matches in log[finished + 1].m.passes
  {
    var k;
    k, finished := OfFinished(c, h, p, log);
    hide Reached, TookFinished;
    var front := log[..k];
    var n := Comes(c, h, p, ReadNextProto, ReadClientFinished, front);
    SwitchOf(c, h, p, front[..n]);
    ccs := n - 2;
    assert front[..n][..ccs] == log[..ccs];
    assert front[..n][ccs] == front[ccs] == log[ccs] && front[..n][ccs + 1] == front[ccs + 1] == log[ccs + 1];
    NotCert(front, n, ccs);
    NotCert(log, k, ccs);
  }

  /** The Finished of a handshake that is done. */
  lemma FinishedOf(c: Config, h: Message, p: Plan, log: seq<Event>) returns (n: nat)
    requires Reached(c, h, p, Done, log)
    ensures n < |log| && TookFinished(c, h, p, log[..n]) && NoCert(log, n)
    ensures log[|log| - 1] == Established(false, !p.resumed && Presented(log))
  {
    DoneCourse(c, h, p, log);
    hide Reached, Presented;
    var tail := [Established(false, !p.resumed && Presented(log))];
    OfAfter(c, h, p, FinishServerHandshake, log, tail);
    assert tail[0] == log[|log| - 1];
    var front := log[..|log| - 1];
    var s := if p.resumed then FinishServerHandshake else SendServerFinished;
    n := Comes(c, h, p, s, FinishServerHandshake, front);
    assert front[..n] == log[..n];
    LastCourse(c, h, p, log[..n]);
    NotCert(log, |log| - 1, n);
  }

  /** What the record of a finished handshake holds: the two hellos, and after them, in this order, the client's
      ChangeCipherSpec, the switch of the read cipher, the matching Finished and the session. Of every certificate
      that the client gave the chain and the signature were verified after it came and before the ChangeCipherSpec;
      and a server that insists on a certificate and asked for one has got one. */
  lemma DoneMeans(c: Config, h: Message, p: Plan, log: seq<Event>) returns (g: nat, ccs: nat, finished: nat)
    requires Reached(c, h, p, Done, log)
    ensures g + 1 < ccs < ccs + 1 < finished < |log| - 2
    ensures log[g] == Got(h) && h.kind == 1 && log[g + 1] == SentHello(p) && Answers(c, h, p)
    ensures log[ccs] == CcsReceived && log[ccs + 1] == ReadSwitched && log[finished] == FinishedMatched
    ensures log[finished + 1].Got? && log[finished + 1].m.kind == 20 && Matches in log[finished + 1].m.passes
    ensures log[|log| - 1] == Established(false, !p.resumed && Presented(log))
    ensures forall j :: 0 <= j < |log| && log[j].Got? && log[j].m.kind == 11 && !log[j].m.empty
              ==> VerifiedBetween(log, ChainVerified, j, ccs) && VerifiedBetween(log, SignatureVerified, j, ccs)
    ensures p.resumed ==> NoCert(log, 0)
    ensures p.request && c.required ==> Presented(log)
  {
    hide Reached, TookFinished, Answers;
    var n := FinishedOf(c, h, p, log);
    ccs, finished := EndOf(c, h, p, log[..n]);
    var front := log[..ccs];
    assert log[..n][..ccs] == front;
    g := HelloIn(c, h, p, front);
    ProvenBefore(c, h, p, front);
    NotCert(log, n, ccs);
    NotPresentedBefore(log, ccs);
    assert forall j :: 0 <= j < ccs ==> front[j] == log[j];
    assert forall j :: 0 <= j < n ==> log[..n][j] == log[j];
  }
}
