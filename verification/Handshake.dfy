/** What the TLS 1.2 client and server handshakes share: the peer's messages, the checks and their record. */
module Handshake {
  import opened Bits

  const MT_SERVER_HELLO: Byte := 2
  const MT_NEW_SESSION_TICKET: Byte := 4
  const MT_CERTIFICATE: Byte := 11
  const MT_SERVER_KEY_EXCHANGE: Byte := 12
  const MT_CERTIFICATE_REQUEST: Byte := 13
  const MT_SERVER_HELLO_DONE: Byte := 14
  const MT_CERTIFICATE_VERIFY: Byte := 15
  const MT_CLIENT_KEY_EXCHANGE: Byte := 16
  const MT_FINISHED: Byte := 20
  const MT_CERTIFICATE_STATUS: Byte := 22
  const MT_CLIENT_HELLO: Byte := 1
  const MT_HELLO_VERIFY_REQUEST: Byte := 3
  const MT_NEXT_PROTO: Byte := 67
  const MT_CHANNEL_ID: Byte := 203

  /** ssl_hs_wait_t, the waits of the application's own callbacks taken together. */
  datatype Wait = Ok | Error | Flush | AwaitMessage | AwaitServerHello | AwaitCcs | EarlyReturn | Callback

  /** The parts of an SSL_CIPHER the handshakes branch on. */
  datatype Cipher = Cipher(kRsa: bool, kEcdhe: bool, kPsk: bool, certAuth: bool, pskAuth: bool)

  // ---- Messages ----

  /** What a handshake tests a message for: its syntax, its version, that its session id is no echo, its cipher
      suite, that it agrees with the session resumed, its extensions, the leaf certificate, a PSK identity or hint,
      the group, the signature algorithm, that nothing is left over, and the value of a Finished. */
  datatype Test = Parses | Supported | NoEcho | Allowed | Consistent | Extensions | Leaf | Identity | Group | Algorithm
                | NothingLeft | Matches

  /** What a hello settles. In a ClientHello: the suite to be chosen for it, and whether its session is resumed. */
  datatype Hello = Hello(tls13: bool, ssl3: bool, sameId: bool, cipher: Cipher, status: bool, ticket: bool,
                         nextProto: bool, channelId: bool)

  /** A message of the peer: its type, the tests it passes, whether the list or the ticket in it is empty, and for a
      hello its parameters. */
  datatype Message = Message(kind: Byte, passes: set<Test>, empty: bool, hello: Hello)

  /** Steps of the handshake's own that may fail. */
  datatype Task = EarlyKeys | HashReset | NewSession | Store | Psk | Encrypt | Agree | Derive | Record | Length | Copy
                | Selected | Admit | Offer | Decrypt | ChannelIdProof

  // ---- The record ----

  /** What a ServerHello says of the handshake that follows. */
  datatype Plan = Plan(resumed: bool, cipher: Cipher, ticket: bool, status: bool, request: bool, nextProto: bool,
                       channelId: bool)

  /** What happened, in order: steps of the protocol, and messages hashed, taken and sent. `strict` marks a premaster
      of a full certificate-authenticated ECDHE handshake. */
  datatype Event =
    | ChainVerified
    | SignatureVerified
    | Premaster(strict: bool)
    | CcsReceived
    | ReadSwitched
    | FinishedMatched
    | Established(tls13: bool, peerCert: bool)
    | Hashed(m: Message)
    | Got(m: Message)
    | Passed(task: Task)
    | Sent(kind: Byte)
    | SentHello(plan: Plan)
    | SentCertificate(empty: bool)
    | SentNoCertificate
    | SentCcs
    | WriteSwitched

  /** The event had what it needs before it. */
  predicate Justified(before: seq<Event>, e: Event)
  {
    match e
    case ReadSwitched => CcsReceived in before
    case FinishedMatched => ReadSwitched in before
    case Premaster(strict) => strict ==> ChainVerified in before && SignatureVerified in before
    case Established(tls13, peerCert) =>
      !tls13 ==> FinishedMatched in before && (peerCert ==> ChainVerified in before && SignatureVerified in before)
    case _ => true
  }

  ghost predicate AllJustified(log: seq<Event>)
  {
    forall j :: 0 <= j < |log| ==> Justified(log[..j], log[j])
  }

  lemma JustifiedAppend(log: seq<Event>, e: Event)
    requires AllJustified(log) && Justified(log, e)
    ensures AllJustified(log + [e])
  {
    var more := log + [e];
    forall j | 0 <= j < |more| ensures Justified(more[..j], more[j]) {
      if j < |log| {
        assert more[..j] == log[..j] && Justified(log[..j], log[j]);
      } else {
        assert more[..j] == log;
      }
    }
  }

  /**
   * A connection established below TLS 1.3: the peer's ChangeCipherSpec, then the switch of the read
   * cipher, then the peer's matching Finished, then the session.
   */
  lemma EstablishedMeans(log: seq<Event>, k: nat) returns (ccs: nat, switch: nat, finished: nat)
    requires AllJustified(log) && k < |log| && log[k].Established? && !log[k].tls13
    ensures ccs < switch < finished < k
    ensures log[ccs] == CcsReceived && log[switch] == ReadSwitched && log[finished] == FinishedMatched
    ensures log[k].peerCert ==> ChainVerified in log[..k] && SignatureVerified in log[..k]
  {
    assert Justified(log[..k], log[k]);
    finished :| 0 <= finished < k && log[..k][finished] == FinishedMatched;
    assert Justified(log[..finished], log[finished]);
    switch :| 0 <= switch < finished && log[..finished][switch] == ReadSwitched;
    assert Justified(log[..switch], log[switch]);
    ccs :| 0 <= ccs < switch && log[..switch][ccs] == CcsReceived;
  }

  /** A session in the log that was established below TLS 1.3: everything that must have come before, in order. */
  lemma EstablishedIsSafe(log: seq<Event>, peerCert: bool) returns (ccs: nat, switch: nat, finished: nat, k: nat)
    requires AllJustified(log) && Established(false, peerCert) in log
    ensures ccs < switch < finished < k < |log|
    ensures log[ccs] == CcsReceived && log[switch] == ReadSwitched && log[finished] == FinishedMatched
    ensures log[k] == Established(false, peerCert)
    ensures peerCert ==> ChainVerified in log[..k] && SignatureVerified in log[..k]
  {
    k :| 0 <= k < |log| && log[k] == Established(false, peerCert);
    ccs, switch, finished := EstablishedMeans(log, k);
  }

  /** Before such a premaster, the certificate chain and the key exchange signature were both verified. */
  lemma PremasterMeans(log: seq<Event>, k: nat)
    requires AllJustified(log) && k < |log| && log[k] == Premaster(true)
    ensures ChainVerified in log[..k] && SignatureVerified in log[..k]
  {
    assert Justified(log[..k], log[k]);
  }

  // ---- The end of the record ----

  predicate Ends(log: seq<Event>, tail: seq<Event>)
  {
    |tail| <= |log| && log[|log| - |tail|..] == tail
  }

  /** The record without its last n events. */
  function Front(log: seq<Event>, n: nat): seq<Event> { if n <= |log| then log[..|log| - n] else [] }

  predicate VerifiedBetween(log: seq<Event>, e: Event, from: nat, to: nat)
  {
    exists j :: from < j < to && j < |log| && log[j] == e
  }

  /** The message that was taken last, if the record ends with one of this type. */
  function LastTaken(log: seq<Event>, kind: Byte): Option<Message>
  {
    if log != [] && log[|log| - 1].Got? && log[|log| - 1].m.kind == kind then Some(log[|log| - 1].m) else None
  }

  lemma Grown(log: seq<Event>, tail: seq<Event>)
    ensures Ends(log + tail, tail) && Front(log + tail, |tail|) == log
  {}

  /** The events of a matching Finished. */
  function FinishedEvents(m: Message, ssl3: bool): seq<Event>
  {
    [Hashed(m)] + (if ssl3 then [] else [Passed(Length)]) + [FinishedMatched, Got(m)]
  }

  /** Why a message is not a matching Finished: it is of another type; it could not be hashed; its value is another;
      or it is too long to be kept. */
  predicate FinishedFails(m: Message, ssl3: bool, before: seq<Event>, after: seq<Event>, failed: bool, fails: bool)
  {
    || (m.kind != 20 && after == before && fails == failed)
    || (m.kind == 20 && after == before && fails)
    || (m.kind == 20 && after == before + [Hashed(m)]
        && if Matches in m.passes then fails && !ssl3 else fails == failed)
  }

  datatype Verify = VerifyOk | VerifyInvalid | VerifyRetry

  /** The answer of a callback of the application. */
  datatype Answer = Yes | Later | No

  /**
   * The connection as the handshake sees it. The peer is arbitrary: any message may arrive at any time, and
   * any parse, hash or cryptographic check may succeed or fail.
   */
  class Connection {
    var current: Option<Message>
    ghost var log: seq<Event>
    // Whether an event of each kind has happened.
    ghost var chainOk: bool
    ghost var signatureOk: bool
    ghost var ccsSeen: bool
    ghost var readSwitched: bool
    ghost var finishedOk: bool
    // A step of the handshake's own failed; how often a callback asked to be called again.
    ghost var failed: bool
    ghost var later: nat

    ghost predicate Valid()
      reads this`log, this`chainOk, this`signatureOk, this`ccsSeen, this`readSwitched, this`finishedOk
    {
      && AllJustified(log)
      && (chainOk <==> ChainVerified in log)
      && (signatureOk <==> SignatureVerified in log)
      && (ccsSeen <==> CcsReceived in log)
      && (readSwitched <==> ReadSwitched in log)
      && (finishedOk <==> FinishedMatched in log)
    }

    constructor ()
      ensures Valid() && log == [] && current == None && !failed && later == 0
    {
      current, log, failed, later := None, [], false, 0;
      chainOk, signatureOk, ccsSeen, readSwitched, finishedOk := false, false, false, false, false;
    }

    /** Events that need nothing before them and that no flag stands for. */
    predicate Plain(e: Event)
    {
      e.Hashed? || e.Got? || e.Passed? || e.Sent? || e.SentHello? || e.SentCertificate? || e.SentNoCertificate?
      || e.SentCcs? || e.WriteSwitched?
    }

    ghost method Note(e: Event)
      requires Valid() && Plain(e)
      modifies this`log
      ensures Valid() && log == old(log) + [e]
    {
      JustifiedAppend(log, e);
      log := log + [e];
    }

    /** get_message: the current message, when one has come. */
    method GetMessage() returns (m: Option<Message>)
      modifies this`current
      ensures m == current && (old(current).Some? ==> current == old(current))
    {
      if current.None? {
        var arrives: bool := *;
        if arrives {
          var next: Message := *;
          current := Some(next);
        }
      }
      m := current;
    }

    /** next_message: the current message has been taken. */
    method NextMessage()
      requires Valid() && current.Some?
      modifies this`current, this`log
      ensures Valid() && current == None && log == old(log) + [Got(old(current).value)]
    {
      Note(Got(current.value));
      current := None;
    }

    /** ssl_hash_message: the current message goes into the transcript. */
    method HashMessage() returns (ok: bool)
      requires Valid() && current.Some?
      modifies this`log, this`failed
      ensures Valid() && failed == (old(failed) || !ok)
      ensures log == if ok then old(log) + [Hashed(current.value)] else old(log)
    {
      ok := *;
      if ok { Note(Hashed(current.value)); }
      failed := failed || !ok;
    }

    /** A step whose outcome depends on keys, memory or the application. */
    method Try(task: Task) returns (ok: bool)
      requires Valid()
      modifies this`log, this`failed
      ensures Valid() && failed == (old(failed) || !ok)
      ensures log == if ok then old(log) + [Passed(task)] else old(log)
    {
      ok := *;
      if ok { Note(Passed(task)); }
      failed := failed || !ok;
    }

    /** Writing a message, or another record of the handshake, into the flight. */
    method Send(e: Event) returns (ok: bool)
      requires Valid() && Plain(e)
      modifies this`log, this`failed
      ensures Valid() && failed == (old(failed) || !ok)
      ensures log == if ok then old(log) + [e] else old(log)
    {
      ok := *;
      if ok { Note(e); }
      failed := failed || !ok;
    }

    /** Writing the ServerHello. */
    method SendHello(ghost plan: Plan) returns (ok: bool)
      requires Valid()
      modifies this`log, this`failed
      ensures Valid() && failed == (old(failed) || !ok)
      ensures log == if ok then old(log) + [SentHello(plan)] else old(log)
    {
      ok := *;
      if ok { Note(SentHello(plan)); }
      failed := failed || !ok;
    }

    /** A callback of the application, which may ask to be called again. */
    method Ask() returns (a: Answer)
      modifies this`failed, this`later
      ensures failed == (old(failed) || a.No?)
      ensures later == old(later) + if a.Later? then 1 else 0
    {
      a := *;
      failed := failed || a.No?;
      if a.Later? { later := later + 1; }
    }

    /** A decision that is left to the configuration. */
    method Choose() returns (b: bool)
    {
      b := *;
    }

    /** ssl_verify_peer_cert. */
    method VerifyPeerCert() returns (v: Verify)
      requires Valid()
      modifies this`log, this`chainOk, this`failed, this`later
      ensures Valid() && log == (if v.VerifyOk? then old(log) + [ChainVerified] else old(log))
      ensures chainOk == (old(chainOk) || v.VerifyOk?)
      ensures failed == (old(failed) || v.VerifyInvalid?)
      ensures later == old(later) + if v.VerifyRetry? then 1 else 0
    {
      v := *;
      if v.VerifyOk? {
        JustifiedAppend(log, ChainVerified);
        log, chainOk := log + [ChainVerified], true;
      }
      failed := failed || v.VerifyInvalid?;
      if v.VerifyRetry? { later := later + 1; }
    }

    /** ssl_public_key_verify with the peer's certified key. */
    method VerifySignature() returns (ok: bool)
      requires Valid()
      modifies this`log, this`signatureOk, this`failed
      ensures Valid() && log == (if ok then old(log) + [SignatureVerified] else old(log))
      ensures signatureOk == (old(signatureOk) || ok)
      ensures failed == (old(failed) || !ok)
    {
      ok := *;
      if ok {
        JustifiedAppend(log, SignatureVerified);
        log, signatureOk := log + [SignatureVerified], true;
      }
      failed := failed || !ok;
    }

    /** Deriving the premaster secret of a client. */
    method ComputePremaster(strict: bool)
      requires Valid()
      requires strict ==> chainOk && signatureOk
      modifies this`log
      ensures Valid() && log == old(log) + [Premaster(strict)]
    {
      JustifiedAppend(log, Premaster(strict));
      log := log + [Premaster(strict)];
    }

    /** open_change_cipher_spec, when it succeeds. */
    method ReceiveCcs() returns (ok: bool)
      requires Valid()
      modifies this`log, this`ccsSeen
      ensures Valid() && log == (if ok then old(log) + [CcsReceived] else old(log))
      ensures ccsSeen == (old(ccsSeen) || ok)
    {
      ok := *;
      if ok {
        JustifiedAppend(log, CcsReceived);
        log, ccsSeen := log + [CcsReceived], true;
      }
    }

    /** tls1_change_cipher_state for reading. */
    method SwitchRead() returns (ok: bool)
      requires Valid() && ccsSeen
      modifies this`log, this`readSwitched, this`failed
      ensures Valid() && log == (if ok then old(log) + [ReadSwitched] else old(log))
      ensures readSwitched == (old(readSwitched) || ok)
      ensures failed == (old(failed) || !ok)
    {
      ok := *;
      if ok {
        JustifiedAppend(log, ReadSwitched);
        log, readSwitched := log + [ReadSwitched], true;
      }
      failed := failed || !ok;
    }

    /** ssl_get_finished: the message must be a Finished, it is hashed, its value must be the expected one, and
        but for SSL 3.0 it must not be longer than what is kept for renegotiation. */
    method GetFinished(ssl3: bool) returns (wait: Wait)
      requires Valid() && readSwitched
      modifies this`current, this`log, this`finishedOk, this`failed
      ensures Valid() && finishedOk == (old(finishedOk) || wait.Ok?)
      ensures wait.Ok? || wait.Error? || wait.AwaitMessage?
      ensures old(current).Some? ==> !wait.AwaitMessage? && (wait.Error? ==> current == old(current))
      ensures wait.AwaitMessage? ==> current.None? && log == old(log) && failed == old(failed)
      ensures wait.Ok? ==>
                && current.None? && failed == old(failed)
                && LastTaken(log, 20).Some? && Matches in LastTaken(log, 20).value.passes
                && (old(current).Some? ==> LastTaken(log, 20) == old(current))
                && log == old(log) + FinishedEvents(LastTaken(log, 20).value, ssl3)
      ensures wait.Error? ==> current.Some? && FinishedFails(current.value, ssl3, old(log), log, old(failed), failed)
    {
      hide AllJustified, Connection.Valid;
      var m := GetMessage();
      if m.None? { return AwaitMessage; }
      if m.value.kind != MT_FINISHED { return Error; }
      var checked := CheckFinished(ssl3);
      if !checked { return Error; }
      NoteFinished();
      NextMessage();
      assert log == old(log) + FinishedEvents(m.value, ssl3);
      return Ok;
    }

    method CheckFinished(ssl3: bool) returns (ok: bool)
      requires Valid() && current.Some? && current.value.kind == 20
      modifies this`log, this`failed
      ensures Valid()
      ensures ok ==> failed == old(failed) && Matches in current.value.passes
      ensures ok ==> log == old(log) + [Hashed(current.value)] + if ssl3 then [] else [Passed(Length)]
      ensures !ok ==> FinishedFails(current.value, ssl3, old(log), log, old(failed), failed)
    {
      hide AllJustified, Connection.Valid;
      ok := HashMessage();
      if !ok { return; }
      if Matches !in current.value.passes { return false; }
      if !ssl3 { ok := Try(Length); }
    }

    ghost method NoteFinished()
      requires Valid() && readSwitched
      modifies this`log, this`finishedOk
      ensures Valid() && log == old(log) + [FinishedMatched] && finishedOk
    {
      JustifiedAppend(log, FinishedMatched);
      log, finishedOk := log + [FinishedMatched], true;
    }

    /** Setting established_session. */
    method Establish(tls13: bool, peerCert: bool)
      requires Valid()
      requires !tls13 ==> finishedOk && (peerCert ==> chainOk && signatureOk)
      modifies this`log
      ensures Valid() && log == old(log) + [Established(tls13, peerCert)]
    {
      JustifiedAppend(log, Established(tls13, peerCert));
      log := log + [Established(tls13, peerCert)];
    }

    /** The switch of ssl_run_handshake: what the handshake waited for is resolved, or the caller has to return. */
    method Resolve(wait: Wait) returns (run: bool, next: Wait)
      requires Valid()
      modifies this`log, this`ccsSeen
      ensures Valid()
      ensures run ==> !wait.Error? && !wait.EarlyReturn? && !wait.Callback?
      ensures wait.Ok? ==> run
      ensures next == if wait.EarlyReturn? || wait.Callback? then Ok else wait
      ensures ccsSeen == (old(ccsSeen) || (run && wait.AwaitCcs?))
      ensures log == if run && wait.AwaitCcs? then old(log) + [CcsReceived] else old(log)
    {
      next := wait;
      match wait {
      case Error => run := false;
      case Flush => run := Choose();
      case AwaitMessage => run := Choose();
      case AwaitServerHello => run := Choose();
      case AwaitCcs => run := ReceiveCcs();
      case EarlyReturn => run, next := false, Ok;
      case Callback => run, next := false, Ok;
      case Ok => run := true;
      }
    }
  }
}
