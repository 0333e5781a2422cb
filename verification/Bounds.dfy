/** Runs that show why the end-to-end theorems bound how far the sender is ahead and how many numbers an epoch takes. */
module Bounds {
  import opened Bits
  import opened Wire
  import opened ReplayWindow
  import opened DtlsRecord
  import opened Reassembly
  import opened Inbox
  import opened Flight
  import opened Outbox
  import opened EndToEnd

  /** The first message has a body of one byte, all others none. */
  function Body(k: nat): seq<Byte> { if k == 0 then [1] else [] }

  function Data(k: nat): seq<Byte> { MessageBytes(0, k, Body(k)) }

  function AllData(m: nat): (list: seq<seq<Byte>>)
    ensures |list| == m && forall k :: 0 <= k < m ==> list[k] == Data(k)
  {
    seq(m, (k: nat) => Data(k))
  }

  function FragmentOf(k: nat): Fragment { Fragment(0, |Body(k)|, k % SEQUENCES, 0, Body(k)) }

  function FlightOf(k: nat): seq<Outgoing> { [Outgoing(false, 0, Data(k))] }

  /** The record of message k, sealed as number c + k. */
  function RecOf(k: nat, c: nat): Rec { Rec(0, c + k, k, FragmentOf(k)) }

  /** The sender after m flights of one message each, all flushed and dropped; `first` was sealed besides. */
  ghost function After(m: nat, c: nat, first: set<Rec>): Outbox
  {
    EMPTY.(added := AllData(m), turnOf := seq(m, _ => 0), next := c + m,
           sent := first + set k: nat | k < m :: RecOf(k, c))
  }

  /** The same with the last flight still there. */
  ghost function Flushed(m: nat, c: nat, first: set<Rec>): Outbox
    requires m > 0
  {
    After(m, c, first).(flight := FlightOf(m - 1), complete := true)
  }

  lemma WholeRecord(k: nat)
    ensures Numbered(Data(k), k) && CutOf(FragmentOf(k), Data(k)) && Fits(FragmentOf(k))
    ensures Data(k) == Serialize(FragmentOf(k))
  {
    hide Serialize, ParseFragment;
    MessageIsNumbered(0, k, Body(k));
  }

  lemma OneMessage(k: nat)
    ensures Messages(FlightOf(k)) == 1
  {
    assert FlightOf(k)[1..] == [];
  }

  /** Adding message m, for a sender that has no flight. */
  lemma AddNext(n: nat, o: Outbox, m: nat) returns (o': Outbox)
    requires n > 0 && o.added == AllData(m) && o.turnOf == seq(m, _ => 0)
    requires o.flight == [] && !o.complete && o.turn == 0
    ensures Adds(n, o, 0, Body(m), o')
    ensures o' == o.(added := AllData(m + 1), turnOf := seq(m + 1, _ => 0), flight := FlightOf(m))
  {
    hide MessageBytes;
    o' := o.(added := AllData(m + 1), turnOf := seq(m + 1, _ => 0), flight := FlightOf(m));
    assert AllData(m + 1) == AllData(m) + [Data(m)];
    assert seq(m + 1, _ => 0) == seq(m, _ => 0) + [0];
    assert [] + FlightOf(m) == FlightOf(m);
  }

  /** Flushing the flight of message m with these records of it. */
  lemma FlushWith(o: Outbox, m: nat, records: set<Rec>, next: nat)
    requires o.flight == FlightOf(m) && o.turn == 0 && |o.added| == m + 1 && o.next <= next
    requires forall r :: r in records ==> r == Rec(0, r.count, m, FragmentOf(m)) && o.next <= r.count < next
    ensures Sends(o, o.(next := next, sent := o.sent + records, complete := true))
  {
    hide CutOf, MessageBytes, Messages;
    WholeRecord(m);
    OneMessage(m);
    assert o.flight[0..] == o.flight;
    var o' := o.(next := next, sent := o.sent + records, complete := true);
    forall r | r in o'.sent && r !in o.sent ensures FromFlight(o, r) && TookNumber(o, r, o') {
      assert MessageOf(o, 0) == m && o.flight[0].epoch == 0;
    }
  }

  // ---- One round, as a run ----

  /** Message m is added and its flight flushed. */
  lemma SendOne(n: nat, events: seq<Event>, states: seq<System>, m: nat, c: nat, first: set<Rec>)
    returns (es: seq<Event>, ss: seq<System>)
    requires n > 0 && Run(n, events, states) && |states| == |events| + 1 && states[|events|].out == After(m, c, first)
    ensures Run(n, es, ss) && |ss| == |es| + 1
    ensures ss[|es|] == states[|events|].(out := Flushed(m + 1, c, first)) && states <= ss
    ensures forall i :: |states| <= i < |ss| ==>
              ss[i].delivered == states[|events|].delivered && |ss[i].out.added| == m + 1
  {
    hide Run, MessageBytes, Data, AllData, Messages;
    var s := states[|events|];
    var o1 := AddNext(n, s.out, m);
    ExtendLast(n, events, states, AddMessage(0, Body(m)), s.(out := o1));
    var es1, ss1 := events + [AddMessage(0, Body(m))], states + [s.(out := o1)];
    FlushWith(o1, m, {RecOf(m, c)}, c + m + 1);
    var o2 := o1.(next := c + m + 1, sent := o1.sent + {RecOf(m, c)}, complete := true);
    assert o2 == Flushed(m + 1, c, first);
    ExtendLast(n, es1, ss1, Send, s.(out := o2));
    es, ss := es1 + [Send], ss1 + [s.(out := o2)];
  }

  /** The flight is dropped. */
  lemma DropOne(n: nat, events: seq<Event>, states: seq<System>, m: nat, c: nat, first: set<Rec>)
    returns (es: seq<Event>, ss: seq<System>)
    requires m > 0 && Run(n, events, states) && |states| == |events| + 1 && states[|events|].out == Flushed(m, c, first)
    ensures Run(n, es, ss) && |ss| == |es| + 1
    ensures ss == states + [states[|events|].(out := After(m, c, first))]
  {
    hide Run;
    var s := states[|events|];
    DropStep(n, s);
    ExtendLast(n, events, states, NewFlight, s.(out := Dropped(s.out)));
    es, ss := events + [NewFlight], states + [s.(out := Dropped(s.out))];
  }

  /** The message of the record is complete at once. */
  lemma WholeArrives(n: nat, s: System, k: nat, r: Rec)
    requires n > 0 && r.frag == FragmentOf(k) && s.inbox == Inbox(k % SEQUENCES, map[]) && s.rTurn == 0
    ensures InWindow(s.inbox, n)
    ensures var s' := Arrived(n, s, 1, r);
            Ready(s'.inbox) && s'.inbox.readSeq == k % SEQUENCES && s'.inbox.msgs.Keys == {k % SEQUENCES}
            && s'.inbox.msgs[k % SEQUENCES].data == Data(k)
  {
    hide HeaderBytes, ParseFragment, Serialize, TakeRecord;
    WholeRecord(k);
    OneFragment(s.inbox, ConfigOf(n, s, 1), r.frag);
    WholeIsData(k);
    assert TakeFragment(s.inbox, ConfigOf(n, s, 1), r.frag).inbox.msgs.Keys == {k % SEQUENCES};
  }

  lemma WholeIsData(k: nat)
    ensures var f := FragmentOf(k);
            var a := Merge(Blank(f.kind, f.seqNo, f.msgLen), f);
            Complete(a) && a.data == Serialize(f)
  {
    hide BigEndian;
    var f := FragmentOf(k);
    var a := Blank(f.kind, f.seqNo, f.msgLen);
    if k == 0 {
      assert Overwrite(a.data, HM_HEADER, f.body) == Serialize(f);
      assert Span(0, 1) == {0};
    } else {
      assert a.data == Serialize(f);
    }
  }

  /** A record that the window lets through arrives at a receiver that waits for its message and is empty. */
  lemma TakeOne(n: nat, events: seq<Event>, states: seq<System>, k: nat, r: Rec) returns (es: seq<Event>, ss: seq<System>)
    requires n > 0 && Run(n, events, states) && |states| == |events| + 1
    requires var s := states[|events|];
             && r.frag == FragmentOf(k) && s.inbox == Inbox(k % SEQUENCES, map[]) && s.rTurn == 0 && Opens(s, r)
    ensures Run(n, es, ss) && |ss| == |es| + 1 && states <= ss
    ensures var s := states[|events|];
            ss[|es|] == s.(recorded := s.recorded + {Full(r)}, inbox := Inbox((k + 1) % SEQUENCES, map[]),
                           delivered := s.delivered + [Data(k)])
    ensures forall i :: |states| <= i < |ss| ==>
              |ss[i].delivered| >= |states[|events|].delivered| && ss[i].out == states[|events|].out
  {
    hide Run, Data, Opens, Full, TakeRecord, Ready, InWindow;
    var s := states[|events|];
    WholeArrives(n, s, k, r);
    ArriveStep(n, s, 1, r);
    var s1 := Arrived(n, s, 1, r);
    ExtendLast(n, events, states, Arrive(1, r), s1);
    var es1, ss1 := events + [Arrive(1, r)], states + [s1];
    DeliverStep(n, s1);
    var s2 := Delivered(s1);
    ExtendLast(n, es1, ss1, Deliver, s2);
    es, ss := es1 + [Deliver], ss1 + [s2];
    NextIndex(k);
    assert s2.inbox.msgs == map[];
  }

  // ---- A sender that laps its receiver ----

  lemma {:induction false} RunAhead(n: nat, m: nat) returns (es: seq<Event>, ss: seq<System>)
    requires n > 0
    ensures Run(n, es, ss) && |ss| == |es| + 1 && ss[|es|] == INIT.(out := After(m, 0, {}))
  {
    hide Run;
    if m == 0 {
      es, ss := [], [INIT];
      EmptyRun(n);
      assert After(0, 0, {}) == EMPTY;
    } else {
      es, ss := RunAhead(n, m - 1);
      es, ss := SendOne(n, es, ss, m - 1, 0, {});
      es, ss := DropOne(n, es, ss, m, 0, {});
    }
  }

  /**
   * A sender 2^16 + 1 messages ahead of a receiver that has got none of them, all of them sent and lost but the
   * last: it has the number of the first and is delivered in its place, and the record layer lets it through.
   */
  lemma Laps(n: nat) returns (es: seq<Event>, ss: seq<System>)
    requires n > 0
    ensures Run(n, es, ss) && |ss[|es|].out.added| == SEQUENCES + 1
    ensures |ss[|es|].delivered| == 1 && !(ss[|es|].delivered <= ss[|es|].out.added)
    ensures forall k :: 0 <= k <= SEQUENCES ==> RecOf(k, 0) in ss[|es|].out.sent
    ensures forall r :: r in ss[|es|].out.sent ==> r.count <= SEQUENCES
  {
    hide Run, Data, Opens;
    es, ss := RunAhead(n, SEQUENCES);
    es, ss := SendOne(n, es, ss, SEQUENCES, 0, {});
    var r := RecOf(SEQUENCES, 0);
    assert Opens(ss[|es|], r) by { FirstOpens(ss[|es|], r); }
    es, ss := TakeOne(n, es, ss, SEQUENCES, r);
    FirstIsNotLast();
    assert ss[|es|].delivered[0] == Data(SEQUENCES) && ss[|es|].out.added[0] == Data(0);
  }

  lemma FirstOpens(s: System, r: Rec)
    requires r in s.out.sent && r.turn == s.rTurn && s.recorded == {}
    ensures Opens(s, r)
  {}

  lemma FirstIsNotLast()
    ensures Data(0) != Data(SEQUENCES)
  {
    hide HeaderBytes;
  }

  // ---- A counter that comes round ----

  /** Message 0 sealed under every number but the last. */
  ghost function Everywhere(): set<Rec>
  {
    set c: nat | c < NUMBERS - 1 :: Rec(0, c, 0, FragmentOf(0))
  }

  /** The sender was never more than one message ahead. */
  predicate Close(states: seq<System>)
  {
    forall i :: 0 <= i < |states| ==> |states[i].out.added| <= |states[i].delivered| + 1
  }

  /** m messages were delivered, each as soon as it was sent under a number of the second round. */
  ghost predicate Recycled(n: nat, events: seq<Event>, states: seq<System>, m: nat)
  {
    && Run(n, events, states) && |states| == |events| + 1 && Close(states)
    && var s := states[|events|];
       && s == System(After(m, NUMBERS, Everywhere()), 0, s.recorded, Inbox(m % SEQUENCES, map[]), AllData(m))
       && forall x :: x in s.recorded ==> x < m
  }

  /** A record of the second round has the number of its message. */
  lemma SecondRound(m: nat)
    requires m < NUMBERS
    ensures Full(RecOf(m, NUMBERS)) == m
  {}

  lemma NextPasses(s: System, m: nat)
    requires RecOf(m, NUMBERS) in s.out.sent && s.rTurn == 0 && m < NUMBERS && forall x :: x in s.recorded ==> x < m
    ensures Opens(s, RecOf(m, NUMBERS))
  {
    SecondRound(m);
  }

  /** A message that has been flushed arrives, is delivered, and its flight is dropped. */
  lemma FinishRound(n: nat, events: seq<Event>, states: seq<System>, m: nat) returns (es: seq<Event>, ss: seq<System>)
    requires n > 0 && m < SEQUENCES && Run(n, events, states) && |states| == |events| + 1 && Close(states)
    requires var s := states[|events|];
             && s == System(Flushed(m + 1, NUMBERS, Everywhere()), 0, s.recorded, Inbox(m % SEQUENCES, map[]), AllData(m))
             && forall x :: x in s.recorded ==> x < m
    ensures Recycled(n, es, ss, m + 1)
  {
    hide Run, Data, Opens, Full, Everywhere;
    var s := states[|events|];
    NextPasses(s, m);
    es, ss := TakeOne(n, events, states, m, RecOf(m, NUMBERS));
    SecondRound(m);
    assert AllData(m + 1) == AllData(m) + [Data(m)];
    es, ss := DropOne(n, es, ss, m + 1, NUMBERS, Everywhere());
  }

  lemma FlushAround(o: Outbox) returns (o': Outbox)
    requires o == EMPTY.(added := AllData(1), turnOf := seq(1, _ => 0), flight := FlightOf(0))
    ensures Sends(o, o') && o' == Flushed(1, NUMBERS, Everywhere())
  {
    hide Data, Everywhere, Sends;
    var records := Everywhere() + {RecOf(0, NUMBERS)};
    EverywhereIs();
    FlushWith(o, 0, records, NUMBERS + 1);
    o' := o.(next := NUMBERS + 1, sent := o.sent + records, complete := true);
    assert o'.sent == Flushed(1, NUMBERS, Everywhere()).sent;
  }

  /** The first message is flushed again and again until the counter has come round. */
  lemma FirstRound(n: nat) returns (es: seq<Event>, ss: seq<System>)
    requires n > 0
    ensures Recycled(n, es, ss, 1)
  {
    hide Run, Data, Everywhere, Sends, Recycled;
    EmptyRun(n);
    assert AllData(0) == [];
    var o1 := AddNext(n, EMPTY, 0);
    ExtendLast(n, [], [INIT], AddMessage(0, Body(0)), INIT.(out := o1));
    es, ss := [] + [AddMessage(0, Body(0))], [INIT] + [INIT.(out := o1)];
    var o2 := FlushAround(o1);
    ExtendLast(n, es, ss, Send, INIT.(out := o2));
    es, ss := es + [Send], ss + [INIT.(out := o2)];
    es, ss := FinishRound(n, es, ss, 0);
  }

  lemma EverywhereIs()
    ensures forall r :: r in Everywhere() ==> r == Rec(0, r.count, 0, FragmentOf(0)) && r.count < NUMBERS - 1
    ensures Rec(0, NUMBERS - 2, 0, FragmentOf(0)) in Everywhere()
  {}

  lemma {:induction false} RunOn(n: nat, m: nat) returns (es: seq<Event>, ss: seq<System>)
    requires n > 0 && 0 < m <= SEQUENCES
    ensures Recycled(n, es, ss, m)
  {
    hide Run, Everywhere;
    if m == 1 {
      es, ss := FirstRound(n);
    } else {
      es, ss := RunOn(n, m - 1);
      var es1, ss1 := SendOne(n, es, ss, m - 1, NUMBERS, Everywhere());
      es, ss := FinishRound(n, es1, ss1, m - 1);
    }
  }

  /**
   * A sender that is never more than one message ahead but takes more than 2^48 numbers in one epoch: a record of
   * the first message, sealed under one of the last numbers and held back, is let through when the 16-bit message
   * number has come round, and the first message is delivered a second time.
   */
  lemma ComesRound(n: nat) returns (es: seq<Event>, ss: seq<System>)
    requires n > 0
    ensures Run(n, es, ss) && Close(ss)
    ensures |ss[|es|].delivered| == SEQUENCES + 1 && !(ss[|es|].delivered <= ss[|es|].out.added)
  {
    hide Run, Data, Opens, Everywhere;
    es, ss := RunOn(n, SEQUENCES);
    var r := Rec(0, NUMBERS - 2, 0, FragmentOf(0));
    EverywhereIs();
    OldPasses(ss[|es|]);
    es, ss := TakeOne(n, es, ss, 0, r);
  }

  lemma OldPasses(s: System)
    requires s.out.sent >= Everywhere() && s.rTurn == 0 && forall x :: x in s.recorded ==> x < SEQUENCES
    ensures Opens(s, Rec(0, NUMBERS - 2, 0, FragmentOf(0)))
  {}
}
