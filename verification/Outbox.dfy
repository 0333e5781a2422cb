/** What the sending end of the DTLS handshake transport has added, keeps as its flight and has sealed so far. */
module Outbox {
  import opened Bits
  import opened Wire
  import opened DtlsRecord
  import opened Flight

  /**
   * A handshake record that was sealed: under the cipher of which turn, as which of the records of that turn,
   * and with a fragment of which message. Messages are counted without end; a fragment has its number in 16 bits.
   */
  datatype Rec = Rec(turn: nat, count: nat, msg: nat, frag: Fragment)

  /**
   * Every message added with the turn it was added in, the flight and whether it has been flushed, the turn, how
   * many numbers this turn and the one before have taken, and every handshake record ever sealed.
   */
  datatype Outbox = Outbox(
    added: seq<seq<Byte>>,
    turnOf: seq<nat>,
    flight: seq<Outgoing>,
    complete: bool,
    turn: nat,
    next: nat,
    last: nat,
    sent: set<Rec>)

  const EMPTY := Outbox([], [], [], false, 0, 0, 0, {})

  /** How many of them are handshake messages. */
  function Messages(flight: seq<Outgoing>): (n: nat)
    ensures n <= |flight|
  {
    if flight == [] then 0 else (if flight[0].isCcs then 0 else 1) + Messages(flight[1..])
  }

  lemma {:induction false} MessagesOfOneMore(flight: seq<Outgoing>, m: Outgoing)
    ensures Messages(flight + [m]) == Messages(flight) + (if m.isCcs then 0 else 1)
  {
    if flight == [] {
      assert flight + [m] == [m];
    } else {
      MessagesOfOneMore(flight[1..], m);
      assert (flight + [m])[1..] == flight[1..] + [m];
    }
  }

  lemma {:induction false} MessagesFrom(flight: seq<Outgoing>, i: nat)
    requires i < |flight|
    ensures Messages(flight[i..]) == (if flight[i].isCcs then 0 else 1) + Messages(flight[i + 1..])
    ensures Messages(flight[i..]) <= Messages(flight) && Messages(flight[i..]) <= |flight| - i
  {
    assert flight[i..][1..] == flight[i + 1..];
    if i > 0 {
      MessagesFrom(flight, i - 1);
    } else {
      assert flight[0..] == flight;
    }
  }

  /** Which of the messages added the i-th of the flight is: the flight ends with the last one. */
  function MessageOf(o: Outbox, i: nat): int
    requires i < |o.flight|
  {
    |o.added| - Messages(o.flight[i..])
  }

  function MessageBytes(kind: Byte, n: nat, body: seq<Byte>): seq<Byte>
  {
    Serialize(Fragment(kind, |body|, n % SEQUENCES, 0, body))
  }

  /** Message k as the sender builds it: whole, and with the low 16 bits of its number. */
  predicate Numbered(data: seq<Byte>, k: nat)
  {
    && Whole(data) && Unfragmented(data).seqNo == k % SEQUENCES
    && data == Serialize(Unfragmented(data)) && Fits(Unfragmented(data))
  }

  lemma MessageIsNumbered(kind: Byte, k: nat, body: seq<Byte>)
    requires |body| < 0x100_0000
    ensures Numbered(MessageBytes(kind, k, body), k)
    ensures Unfragmented(MessageBytes(kind, k, body)) == Fragment(kind, |body|, k % SEQUENCES, 0, body)
  {
    hide Serialize;
    var f := Fragment(kind, |body|, k % SEQUENCES, 0, body);
    ParseOfSerialize(f, []);
    assert Serialize(f) + [] == Serialize(f);
  }

  // ---- The steps, for a flight of at most n entries ----

  predicate Adds(n: nat, o: Outbox, kind: Byte, body: seq<Byte>, o': Outbox)
  {
    && |body| < 0x100_0000 && |o.flight| < n && !o.complete
    && var data := MessageBytes(kind, |o.added|, body);
       o' == o.(added := o.added + [data], turnOf := o.turnOf + [o.turn],
                flight := o.flight + [Outgoing(false, o.turn % EPOCHS, data)])
  }

  predicate AddsCcs(n: nat, o: Outbox, o': Outbox)
  {
    |o.flight| < n && !o.complete && o' == o.(flight := o.flight + [Outgoing(true, o.turn % EPOCHS, [])])
  }

  /** dtls_clear_outgoing_messages, for a flight that has been flushed. */
  predicate Drops(o: Outbox, o': Outbox)
  {
    o.complete && o' == Dropped(o)
  }

  function Dropped(o: Outbox): Outbox { o.(flight := [], complete := false) }

  /** The cipher and its counter are kept for retransmissions, and the new counter starts at zero. */
  predicate Turns(o: Outbox, o': Outbox)
  {
    o' == o.(turn := o.turn + 1, last := o.next, next := 0)
  }

  /** The record holds a fragment of the flight, of a message with this epoch. */
  predicate FromFlight(o: Outbox, r: Rec)
  {
    exists i :: 0 <= i < |o.flight| && !o.flight[i].isCcs && MessageOf(o, i) == r.msg
      && CutOf(r.frag, o.flight[i].data) && o.flight[i].epoch == r.turn % EPOCHS
  }

  /** The record took a number of this turn or of the one before between o and o'. */
  predicate TookNumber(o: Outbox, r: Rec, o': Outbox)
  {
    (r.turn == o.turn && o.next <= r.count < o'.next) || (r.turn + 1 == o.turn && o.last <= r.count < o'.last)
  }

  /** Any records are sealed and any numbers taken: a flush or a retransmission, completed or not. */
  predicate Sends(o: Outbox, o': Outbox)
  {
    && o' == o.(next := o'.next, last := o'.last, sent := o'.sent, complete := o'.complete)
    && (o.complete ==> o'.complete)
    && o.next <= o'.next && o.last <= o'.last && o.sent <= o'.sent
    && forall r :: r in o'.sent && r !in o.sent ==> FromFlight(o, r) && TookNumber(o, r, o')
  }

  lemma SendsNothing(o: Outbox)
    ensures Sends(o, o) && Sends(o, o.(complete := true))
  {}

  lemma SendsOn(o: Outbox, o': Outbox, o'': Outbox)
    requires Sends(o, o') && Sends(o', o'')
    ensures Sends(o, o'')
  {
    hide CutOf, Messages;
    forall r | r in o''.sent && r !in o.sent ensures FromFlight(o, r) && TookNumber(o, r, o'') {
      if r in o'.sent {
        assert TookNumber(o, r, o');
      } else {
        assert FromFlight(o', r) && TookNumber(o', r, o'');
        var i :| 0 <= i < |o'.flight| && !o'.flight[i].isCcs && MessageOf(o', i) == r.msg
                 && CutOf(r.frag, o'.flight[i].data) && o'.flight[i].epoch == r.turn % EPOCHS;
        assert MessageOf(o, i) == r.msg;
      }
    }
  }

  /** One number is taken, for one handshake record or for something else. */
  lemma SendsOne(o: Outbox, o': Outbox, i: nat, r: Rec)
    requires i < |o.flight| && !o.flight[i].isCcs && MessageOf(o, i) == r.msg
    requires CutOf(r.frag, o.flight[i].data) && o.flight[i].epoch == r.turn % EPOCHS
    requires (r.turn == o.turn && r.count == o.next && o' == o.(next := o.next + 1, sent := o.sent + {r}))
             || (r.turn + 1 == o.turn && r.count == o.last && o' == o.(last := o.last + 1, sent := o.sent + {r}))
    ensures Sends(o, o')
  {
    hide CutOf, Messages;
  }

  // ---- What every step keeps ----

  ghost predicate InOrder(n: nat, sent: set<Rec>)
  {
    forall r, r' :: r in sent && r' in sent && r.msg + n <= r'.msg && r.turn == r'.turn ==> r.count < r'.count
  }

  ghost predicate AddedOk(o: Outbox)
  {
    && |o.turnOf| == |o.added|
    && (forall k :: 0 <= k < |o.added| ==> Numbered(o.added[k], k))
    && (forall k :: 0 <= k < |o.turnOf| ==> o.turnOf[k] <= o.turn)
    && (forall j, k :: 0 <= j < k < |o.turnOf| ==> o.turnOf[j] <= o.turnOf[k])
  }

  ghost predicate FlightOk(n: nat, o: Outbox)
    requires |o.turnOf| == |o.added|
  {
    && |o.flight| <= n && Messages(o.flight) <= |o.added|
    && (forall i :: 0 <= i < |o.flight| && !o.flight[i].isCcs ==> EntryOk(o, i))
  }

  ghost predicate EntryOk(o: Outbox, i: nat)
    requires |o.turnOf| == |o.added| && i < |o.flight|
  {
    && 0 <= MessageOf(o, i) < |o.added|
    && o.flight[i].data == o.added[MessageOf(o, i)]
    && o.flight[i].epoch == o.turnOf[MessageOf(o, i)] % EPOCHS
  }

  /** A record is a cut of its message, sealed in the turn of the message or later, and before later flights. */
  ghost predicate RecOk(n: nat, o: Outbox, r: Rec)
    requires |o.turnOf| == |o.added|
  {
    && r.msg < |o.added| && CutOf(r.frag, o.added[r.msg])
    && o.turnOf[r.msg] <= r.turn <= o.turn
    && (forall j :: r.msg + n <= j < |o.added| ==> r.turn <= o.turnOf[j])
    && (r.turn == o.turn ==> r.count < o.next)
    && (r.turn + 1 == o.turn ==> r.count < o.last)
  }

  /**
   * The messages are numbered; the flight is the last of them; and of two records of one turn, the one whose
   * message is n or more later was sealed later.
   */
  ghost predicate OutboxOk(n: nat, o: Outbox)
  {
    && AddedOk(o) && FlightOk(n, o)
    && (forall r :: r in o.sent ==> RecOk(n, o, r))
    && InOrder(n, o.sent)
  }

  lemma EmptyOk(n: nat)
    ensures OutboxOk(n, EMPTY)
  {}

  lemma AddsKeeps(n: nat, o: Outbox, kind: Byte, body: seq<Byte>, o': Outbox)
    requires OutboxOk(n, o) && Adds(n, o, kind, body, o')
    ensures OutboxOk(n, o')
  {
    hide MessageBytes, Numbered, CutOf, InOrder, Messages, RecOk, EntryOk;
    MessageIsNumbered(kind, |o.added|, body);
    var m := o'.flight[|o.flight|];
    MessagesOfOneMore(o.flight, m);
    forall i | 0 <= i < |o'.flight| && !o'.flight[i].isCcs ensures EntryOk(o', i) {
      if i < |o.flight| { assert EntryOk(o, i); }
      AddedEntry(o, o', i);
    }
    forall r | r in o'.sent ensures RecOk(n, o', r) {
      assert RecOk(n, o, r);
      AddedRec(n, o, o', r);
    }
  }

  /** The entries of a longer flight are of the same messages, and the last one of the last. */
  lemma AddedEntry(o: Outbox, o': Outbox, i: nat)
    requires |o.turnOf| == |o.added| && i <= |o.flight|
    requires |o'.added| == |o.added| + 1 && o'.added[..|o.added|] == o.added && o'.turnOf == o.turnOf + [o.turn]
    requires o'.flight == o.flight + [Outgoing(false, o.turn % EPOCHS, o'.added[|o.added|])]
    requires i < |o.flight| && !o.flight[i].isCcs ==> EntryOk(o, i)
    ensures !o'.flight[i].isCcs ==> EntryOk(o', i)
  {
    hide Messages;
    var m := o'.flight[|o.flight|];
    MessagesOfOneMore(o.flight[i..], m);
    assert o'.flight[i..] == o.flight[i..] + [m];
    if i == |o.flight| {
      assert o.flight[i..] == [];
      NoMessages();
    }
  }

  lemma AddedRec(n: nat, o: Outbox, o': Outbox, r: Rec)
    requires |o.turnOf| == |o.added| && RecOk(n, o, r)
    requires o' == o.(added := o'.added, turnOf := o.turnOf + [o.turn], flight := o'.flight)
    requires |o'.added| == |o.added| + 1 && o'.added[..|o.added|] == o.added
    ensures RecOk(n, o', r)
  {
    hide CutOf;
  }

  lemma NoMessages()
    ensures Messages([]) == 0
  {}

  lemma AddsCcsKeeps(n: nat, o: Outbox, o': Outbox)
    requires OutboxOk(n, o) && AddsCcs(n, o, o')
    ensures OutboxOk(n, o')
  {
    hide Numbered, CutOf, InOrder, Messages;
    var m := o'.flight[|o.flight|];
    MessagesOfOneMore(o.flight, m);
    forall i | 0 <= i < |o'.flight| && !o'.flight[i].isCcs ensures EntryOk(o', i) {
      MessagesOfOneMore(o.flight[i..], m);
      assert o'.flight[i..] == o.flight[i..] + [m];
      assert EntryOk(o, i);
    }
    forall r | r in o'.sent ensures RecOk(n, o', r) { assert RecOk(n, o, r); }
  }

  lemma DropsKeeps(n: nat, o: Outbox, o': Outbox)
    requires OutboxOk(n, o) && Drops(o, o')
    ensures OutboxOk(n, o')
  {
    hide Numbered, CutOf, InOrder;
    forall r | r in o'.sent ensures RecOk(n, o', r) { assert RecOk(n, o, r); }
  }

  lemma TurnsKeeps(n: nat, o: Outbox, o': Outbox)
    requires OutboxOk(n, o) && Turns(o, o')
    ensures OutboxOk(n, o')
  {
    hide Numbered, CutOf, InOrder, Messages;
    forall i | 0 <= i < |o'.flight| && !o'.flight[i].isCcs ensures EntryOk(o', i) { assert EntryOk(o, i); }
    forall r | r in o'.sent ensures RecOk(n, o', r) { assert RecOk(n, o, r); }
  }

  /** A new record is in order: its message is among the last n, and its turn is that of the message or the next. */
  lemma NewRecOk(n: nat, o: Outbox, r: Rec, o': Outbox)
    requires OutboxOk(n, o) && Sends(o, o') && r in o'.sent && r !in o.sent
    ensures RecOk(n, o', r) && r.msg + n >= |o.added|
  {
    hide Numbered, CutOf, InOrder, Messages, RecOk;
    var i :| 0 <= i < |o.flight| && !o.flight[i].isCcs && MessageOf(o, i) == r.msg
             && CutOf(r.frag, o.flight[i].data) && o.flight[i].epoch == r.turn % EPOCHS;
    assert EntryOk(o, i);
    MessagesFrom(o.flight, i);
    TurnNotBefore(o.turnOf[r.msg], r.turn, o.turn);
    assert TookNumber(o, r, o');
    NewRecFacts(n, o, r, o');
  }

  lemma NewRecFacts(n: nat, o: Outbox, r: Rec, o': Outbox)
    requires |o.turnOf| == |o.added| && o' == o.(next := o'.next, last := o'.last, sent := o'.sent, complete := o'.complete)
    requires r.msg < |o.added| && r.msg + n >= |o.added| && CutOf(r.frag, o.added[r.msg]) && TookNumber(o, r, o')
    requires o.turnOf[r.msg] <= r.turn
    ensures RecOk(n, o', r)
  {
    hide CutOf;
  }

  lemma TurnNotBefore(t: nat, r: nat, turn: nat)
    requires t <= turn && (r == turn || r + 1 == turn) && t % EPOCHS == r % EPOCHS
    ensures t <= r
  {}

  lemma SendsKeeps(n: nat, o: Outbox, o': Outbox)
    requires 0 < n && OutboxOk(n, o) && Sends(o, o')
    ensures OutboxOk(n, o')
  {
    hide Numbered, CutOf, Messages, FromFlight;
    forall i | 0 <= i < |o'.flight| && !o'.flight[i].isCcs ensures EntryOk(o', i) { assert EntryOk(o, i); }
    forall r | r in o'.sent ensures RecOk(n, o', r) {
      if r in o.sent { assert RecOk(n, o, r); } else { NewRecOk(n, o, r, o'); }
    }
    forall r, r' | r in o'.sent && r' in o'.sent && r.msg + n <= r'.msg && r.turn == r'.turn ensures r.count < r'.count {
      assert RecOk(n, o', r) && RecOk(n, o', r');
      if r !in o.sent { NewRecOk(n, o, r, o'); }
      else if r' !in o.sent { assert TookNumber(o, r', o'); assert RecOk(n, o, r); }
    }
  }
}
