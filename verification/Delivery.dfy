/** When everything arrives: a flight whose records were opened is delivered, across a change of cipher. */
module Delivery {
  import opened Bits
  import opened Wire
  import opened ReplayWindow
  import opened DtlsRecord
  import opened Reassembly
  import opened Inbox
  import opened Flight
  import opened Outbox
  import opened EndToEnd

  /** The receiver has room for every message not yet delivered, and accepts their lengths. */
  predicate Receptive(n: nat, s: System, maxLen: nat)
  {
    && |s.out.added| <= |s.delivered| + n
    && forall k :: 0 <= k < |s.out.added| ==> |s.out.added[k]| <= HM_HEADER + maxLen
  }

  /** In the encrypted epoch only the next message may come. */
  predicate Expected(s: System, r: Rec)
  {
    s.rTurn % EPOCHS == 1 ==> r.msg == |s.delivered|
  }

  /** The 16-bit number of message k is not past its wrap for a receiver that has not wrapped yet. */
  predicate InReach(s: System, k: nat)
  {
    s.inbox.readSeq + k < |s.delivered| + SEQUENCES
  }

  /** Everything the record holds has been received, unless its number has wrapped. */
  ghost predicate Holds(s: System, r: Rec)
  {
    || r.msg < |s.delivered| || !InReach(s, r.msg)
    || (r.frag.seqNo in s.inbox.msgs
        && Span(r.frag.fragOff, r.frag.fragOff + |r.frag.body|) <= s.inbox.msgs[r.frag.seqNo].got)
  }

  ghost predicate Extends(st: Inbox, st': Inbox)
  {
    st'.readSeq == st.readSeq
    && forall t :: t in st.msgs ==> t in st'.msgs && st.msgs[t].got <= st'.msgs[t].got
  }

  lemma LiveTakes(n: nat, s: System, c: Config, r: Rec)
    requires Invariant(n, s) && Tame(s) && c.flight == n && InWindow(s.inbox, n)
    requires |s.delivered| <= r.msg < |s.out.added| <= |s.delivered| + n && |s.out.added[r.msg]| <= HM_HEADER + c.maxLen
    requires c.encryptedEpoch ==> r.msg == |s.delivered|
    requires Numbered(s.out.added[r.msg], r.msg) && CutOf(r.frag, s.out.added[r.msg])
    ensures var o := TakeFragment(s.inbox, c, r.frag);
            o.alert.None? && Extends(s.inbox, o.inbox)
            && (InReach(s, r.msg) ==>
                  r.frag.seqNo in o.inbox.msgs
                  && Span(r.frag.fragOff, r.frag.fragOff + |r.frag.body|) <= o.inbox.msgs[r.frag.seqNo].got)
  {
    hide HeaderBytes, ParseFragment, InWindow, Numbered, OutboxOk, Witnessed;
    var f, data := r.frag, s.out.added[r.msg];
    FragmentFits(f, data, r.msg);
    Reach(s, r.msg);
    if f.seqNo in s.inbox.msgs && f.seqNo >= s.inbox.readSeq {
      assert Holding(s, f.seqNo);
      WindowIndex(s, r.msg, f.seqNo);
    }
  }

  /** A number in reach is in the window, and one that is not has wrapped to before it. */
  lemma Reach(s: System, k: nat)
    requires s.inbox.readSeq == |s.delivered| % SEQUENCES && |s.delivered| <= k < |s.delivered| + SEQUENCES
    ensures InReach(s, k) ==> k % SEQUENCES == s.inbox.readSeq + (k - |s.delivered|)
    ensures !InReach(s, k) ==> k % SEQUENCES < s.inbox.readSeq
  {}

  lemma NoAlert(n: nat, s: System, maxLen: nat, r: Rec)
    requires 0 < n < 256 && Invariant(n, s) && Tame(s) && Receptive(n, s, maxLen) && Opens(s, r) && Expected(s, r)
    ensures InWindow(s.inbox, n) && Fits(r.frag)
    ensures TakeRecord(s.inbox, ConfigOf(n, s, maxLen), Serialize(r.frag)).alert.None?
    ensures var s' := Arrived(n, s, maxLen, r);
            Extends(s.inbox, s'.inbox) && Holds(s', r) && Invariant(n, s') && Tame(s') && Receptive(n, s', maxLen)
  {
    hide HeaderBytes, ParseFragment, InWindow, Numbered, CutOf, OutboxOk, Witnessed, TakeFragment, Serialize, Opens,
         TakeRecord, Fits;
    var c := ConfigOf(n, s, maxLen);
    OpenIsSent(n, s, r);
    FragmentFits(r.frag, s.out.added[r.msg], r.msg);
    OneFragment(s.inbox, c, r.frag);
    ArriveKeeps(n, s, maxLen, r);
    if r.msg < |s.delivered| {
      OldIsIgnored(n, s, c, r);
      OldNoAlert(n, s, c, r);
    } else {
      LiveTakes(n, s, c, r);
    }
  }

  lemma OldNoAlert(n: nat, s: System, c: Config, r: Rec)
    requires InWindow(s.inbox, n) && c.flight == n && !c.encryptedEpoch && Ignorable(s.inbox.readSeq, n, r.frag.seqNo)
    requires r.msg < |s.out.added| && CutOf(r.frag, s.out.added[r.msg]) && Numbered(s.out.added[r.msg], r.msg)
    requires |s.out.added[r.msg]| <= HM_HEADER + c.maxLen
    ensures TakeFragment(s.inbox, c, r.frag).alert.None?
  {
    FragmentFits(r.frag, s.out.added[r.msg], r.msg);
  }

  // ---- Records one after another ----

  ghost function ArriveAll(n: nat, s: System, maxLen: nat, rs: seq<Rec>): System
    requires InWindow(s.inbox, n)
    decreases |rs|
  {
    if rs == [] then s
    else
      RecordKeepsWindow(s.inbox, ConfigOf(n, s, maxLen), Serialize(rs[0].frag));
      ArriveAll(n, Arrived(n, s, maxLen, rs[0]), maxLen, rs[1..])
  }

  /** Each of the records is opened when its turn comes; those that are dropped change nothing and are not listed. */
  ghost predicate AllOpen(n: nat, s: System, maxLen: nat, rs: seq<Rec>)
    requires InWindow(s.inbox, n)
    decreases |rs|
  {
    if rs == [] then true
    else
      RecordKeepsWindow(s.inbox, ConfigOf(n, s, maxLen), Serialize(rs[0].frag));
      Opens(s, rs[0]) && AllOpen(n, Arrived(n, s, maxLen, rs[0]), maxLen, rs[1..])
  }

  /** Only the window and the ring change. */
  predicate SameBut(s: System, s': System)
  {
    s' == s.(recorded := s'.recorded, inbox := s'.inbox) && s'.inbox.readSeq == s.inbox.readSeq
  }

  lemma HoldsOn(s: System, s': System, r: Rec)
    requires Holds(s, r) && SameBut(s, s') && Extends(s.inbox, s'.inbox)
    ensures Holds(s', r)
  {}

  lemma ExtendsOn(a: Inbox, b: Inbox, c: Inbox)
    requires Extends(a, b) && Extends(b, c)
    ensures Extends(a, c)
  {}

  lemma WindowOf(n: nat, s: System)
    requires Invariant(n, s)
    ensures InWindow(s.inbox, n)
  {}

  /** Opened records raise no alert, and everything in them is held afterwards. */
  lemma {:induction false} EachHeld(n: nat, s: System, maxLen: nat, rs: seq<Rec>)
    requires 0 < n < 256 && Invariant(n, s) && Tame(s) && Receptive(n, s, maxLen) && InWindow(s.inbox, n)
    requires AllOpen(n, s, maxLen, rs) && forall r :: r in rs ==> Expected(s, r)
    ensures var s' := ArriveAll(n, s, maxLen, rs);
            SameBut(s, s') && Extends(s.inbox, s'.inbox) && Invariant(n, s') && Tame(s')
            && forall r :: r in rs ==> Holds(s', r)
    decreases |rs|
  {
    hide Invariant, Tame, Receptive, Holds, Opens, InWindow, Serialize, TakeRecord;
    if rs != [] {
      var s1 := Arrived(n, s, maxLen, rs[0]);
      NoAlert(n, s, maxLen, rs[0]);
      WindowOf(n, s1);
      forall r | r in rs[1..] ensures Expected(s1, r) {
        assert r in rs;
        assert Expected(s, r);
      }
      EachHeld(n, s1, maxLen, rs[1..]);
      var s' := ArriveAll(n, s1, maxLen, rs[1..]);
      ExtendsOn(s.inbox, s1.inbox, s'.inbox);
      forall r | r in rs ensures Holds(s', r) {
        if r == rs[0] { HoldsOn(s1, s', r); }
      }
    }
  }

  // ---- A pass whose records were opened is enough ----

  /** Message k is complete in the ring, and is what was added. */
  ghost predicate HasMessage(s: System, k: nat)
  {
    var t := k % SEQUENCES;
    && k < |s.out.added| && t in s.inbox.msgs && IndexOf(s, t) == k
    && Complete(s.inbox.msgs[t]) && s.inbox.msgs[t].data == s.out.added[k]
  }

  /** Among the records are all those of the pass that belong to entry i of the flight. */
  predicate Carried(o: Outbox, pass: seq<Sent>, i: nat, rs: seq<Rec>)
    requires FollowAll(o.flight, START, pass).Some? && i < |o.flight|
  {
    forall l :: 0 <= l < |pass| && CursorAt(o.flight, pass, l).written == i ==>
      exists r :: r in rs && r.msg == MessageOf(o, i) && pass[l] == SentFragment(r.frag)
  }

  /** All the bytes of a message are among the records held. */
  lemma AllBytesHeld(s: System, pass: seq<Sent>, i: nat, rs: seq<Rec>, k: nat)
    requires FollowAll(s.out.flight, START, pass).Some? && FollowAll(s.out.flight, START, pass).value.written > i
    requires i < |s.out.flight| && !s.out.flight[i].isCcs && Numbered(s.out.flight[i].data, k)
    requires Carried(s.out, pass, i, rs) && MessageOf(s.out, i) == k
    requires forall r :: r in rs ==> Holds(s, r)
    requires |s.delivered| <= k && InReach(s, k)
    ensures var t := k % SEQUENCES;
            t in s.inbox.msgs && Span(0, |Unfragmented(s.out.flight[i].data).body|) <= s.inbox.msgs[t].got
  {
    hide FollowAll, ParseFragment, CursorAt, Serialize;
    var flight := s.out.flight;
    var g := Unfragmented(flight[i].data);
    var t := k % SEQUENCES;
    var first := EachMessageStarts(flight, pass, i);
    HeldAt(s, pass, i, rs, k, first);
    forall b | b in Span(0, |g.body|) ensures b in s.inbox.msgs[t].got {
      var l := EachByteOnce(flight, pass, i, b);
      HeldAt(s, pass, i, rs, k, l);
      assert b in Span(pass[l].frag.fragOff, pass[l].frag.fragOff + |pass[l].frag.body|);
    }
  }

  lemma HeldAt(s: System, pass: seq<Sent>, i: nat, rs: seq<Rec>, k: nat, l: nat)
    requires FollowAll(s.out.flight, START, pass).Some? && l < |pass| && CursorAt(s.out.flight, pass, l).written == i
    requires i < |s.out.flight| && !s.out.flight[i].isCcs && Numbered(s.out.flight[i].data, k)
    requires Carried(s.out, pass, i, rs) && MessageOf(s.out, i) == k
    requires forall r :: r in rs ==> Holds(s, r)
    requires |s.delivered| <= k && InReach(s, k)
    ensures pass[l].SentFragment? && pass[l].frag.fragOff == CursorAt(s.out.flight, pass, l).offset
    ensures var t := k % SEQUENCES;
            t in s.inbox.msgs
            && Span(pass[l].frag.fragOff, pass[l].frag.fragOff + |pass[l].frag.body|) <= s.inbox.msgs[t].got
  {
    hide FollowAll, ParseFragment, CursorAt, Serialize;
    StepAt(s.out.flight, pass, l);
    var r :| r in rs && r.msg == MessageOf(s.out, i) && pass[l] == SentFragment(r.frag);
    assert Holds(s, r);
  }

  /**
   * If every record a pass made of an entry of the flight has been opened, in whatever order and whatever else
   * came in between, its message is delivered or complete and correct, unless its number has wrapped.
   */
  lemma FullPassCompletes(n: nat, s: System, maxLen: nat, pass: seq<Sent>, rs: seq<Rec>, i: nat)
    requires 0 < n < 256 && Invariant(n, s) && Tame(s) && Receptive(n, s, maxLen) && InWindow(s.inbox, n)
    requires AllOpen(n, s, maxLen, rs) && forall r :: r in rs ==> Expected(s, r)
    requires FollowAll(s.out.flight, START, pass).Some? && FollowAll(s.out.flight, START, pass).value.written > i
    requires i < |s.out.flight| && !s.out.flight[i].isCcs && Carried(s.out, pass, i, rs)
    ensures var k := MessageOf(s.out, i);
            0 <= k < |s.out.added| && s.out.added[k] == s.out.flight[i].data
            && (k < |s.delivered| || !InReach(s, k) || HasMessage(ArriveAll(n, s, maxLen, rs), k))
  {
    hide FollowAll, Receptive, Opens, InWindow, Numbered, Whole, ArriveAll, AllOpen, Messages, Tame, Invariant,
         Holds, HasMessage;
    EachHeld(n, s, maxLen, rs);
    var s' := ArriveAll(n, s, maxLen, rs);
    EntryIsAdded(n, s, i);
    var k := MessageOf(s.out, i);
    if k >= |s.delivered| && InReach(s, k) {
      assert s'.out == s.out;
      AllBytesHeld(s', pass, i, rs, k);
      ReceivedIsComplete(n, s', k);
    }
  }

  lemma EntryIsAdded(n: nat, s: System, i: nat)
    requires Invariant(n, s) && i < |s.out.flight| && !s.out.flight[i].isCcs
    ensures var k := MessageOf(s.out, i);
            0 <= k < |s.out.added| && s.out.added[k] == s.out.flight[i].data
            && Numbered(s.out.added[k], k) && Whole(s.out.added[k])
  {
    hide CutOf, InOrder, Messages, Receiving, Witnessed, ParseFragment, Serialize;
    assert EntryOk(s.out, i);
  }

  lemma ReceivedIsComplete(n: nat, s: System, k: nat)
    requires Invariant(n, s) && |s.delivered| <= k < |s.out.added| && InReach(s, k)
    requires Whole(s.out.added[k]) && k % SEQUENCES in s.inbox.msgs
    requires Span(0, |Unfragmented(s.out.added[k]).body|) <= s.inbox.msgs[k % SEQUENCES].got
    ensures HasMessage(s, k)
  {
    hide ParseFragment, Numbered, OutboxOk, Witnessed, InWindow;
    var t := k % SEQUENCES;
    assert s.inbox.readSeq <= t by { assert InWindow(s.inbox, n); WindowStart(n, s.inbox, t); }
    assert Holding(s, t);
    IndexInReach(s, k, t);
    CompleteIsEqual(s.inbox.msgs[t], s.out.added[k]);
  }

  lemma WindowStart(n: nat, st: Inbox, t: nat)
    requires InWindow(st, n) && t in st.msgs
    ensures st.readSeq <= t
  {}

  lemma IndexInReach(s: System, k: nat, t: nat)
    requires s.inbox.readSeq == |s.delivered| % SEQUENCES && |s.delivered| <= k && InReach(s, k) && t == k % SEQUENCES
    ensures IndexOf(s, t) == k
  {}

  // ---- A whole flight, across a change of cipher ----

  lemma {:induction false} ArriveMany(n: nat, events: seq<Event>, states: seq<System>, maxLen: nat, rs: seq<Rec>)
    returns (es: seq<Event>, ss: seq<System>)
    requires Run(n, events, states) && |states| == |events| + 1 && InWindow(states[|events|].inbox, n)
    requires AllOpen(n, states[|events|], maxLen, rs)
    ensures Run(n, es, ss) && |ss| == |es| + 1 && ss[|es|] == ArriveAll(n, states[|events|], maxLen, rs)
    decreases |rs|
  {
    hide Run, Step, Opens, InWindow, TakeRecord, Serialize;
    if rs == [] {
      es, ss := events, states;
    } else {
      var s := states[|events|];
      RecordKeepsWindow(s.inbox, ConfigOf(n, s, maxLen), Serialize(rs[0].frag));
      ArriveStep(n, s, maxLen, rs[0]);
      var s' := Arrived(n, s, maxLen, rs[0]);
      ExtendLast(n, events, states, Arrive(maxLen, rs[0]), s');
      es, ss := ArriveMany(n, events + [Arrive(maxLen, rs[0])], states + [s'], maxLen, rs[1..]);
    }
  }

  /** The next message is ready, and delivering it leaves the others where they are. */
  lemma DeliverOne(n: nat, s: System)
    requires Invariant(n, s) && HasMessage(s, |s.delivered|)
    ensures Ready(s.inbox) && Invariant(n, Delivered(s)) && |Delivered(s).delivered| == |s.delivered| + 1
    ensures Delivered(s) == s.(inbox := Advance(s.inbox), delivered := s.out.added[..|s.delivered| + 1])
    ensures forall k :: k > |s.delivered| && HasMessage(s, k) ==> HasMessage(Delivered(s), k)
    ensures Delivered(s).inbox.msgs.Keys == s.inbox.msgs.Keys - {s.inbox.readSeq}
  {
    hide OutboxOk, SameShape, Agrees, Witnessed, WellSized, Complete;
    DeliverKeeps(n, s);
    NextIndex(|s.delivered|);
    assert s.out.added[..|s.delivered| + 1] == s.out.added[..|s.delivered|] + [s.out.added[|s.delivered|]];
    var s' := Delivered(s);
    forall k | k > |s.delivered| && HasMessage(s, k) ensures HasMessage(s', k) {
      var t := k % SEQUENCES;
      assert t > s.inbox.readSeq;
      assert t in s'.inbox.msgs;
    }
  }

  lemma {:induction false} DeliverMany(n: nat, events: seq<Event>, states: seq<System>, hi: nat)
    returns (es: seq<Event>, ss: seq<System>)
    requires Run(n, events, states) && |states| == |events| + 1 && Invariant(n, states[|events|])
    requires var s := states[|events|];
             |s.delivered| <= hi <= |s.out.added| && forall k :: |s.delivered| <= k < hi ==> HasMessage(s, k)
    ensures Run(n, es, ss) && |ss| == |es| + 1
    ensures var s, s' := states[|events|], ss[|es|];
            && s' == s.(inbox := s'.inbox, delivered := s.out.added[..hi]) && Invariant(n, s')
            && s'.inbox.msgs.Keys <= s.inbox.msgs.Keys
    decreases hi - |states[|events|].delivered|
  {
    hide Run, Step, HasMessage, OutboxOk, InWindow, Holding, Witnessed, Ready;
    var s := states[|events|];
    if |s.delivered| == hi {
      es, ss := events, states;
    } else {
      DeliverOne(n, s);
      DeliverStep(n, s);
      var s' := Delivered(s);
      ExtendLast(n, events, states, Deliver, s');
      es, ss := DeliverMany(n, events + [Deliver], states + [s'], hi);
    }
  }

  /** A message of a later turn is not in the ring: no record of it can have been opened. */
  lemma NotBefore(n: nat, s: System, t: nat)
    requires Invariant(n, s) && t in s.inbox.msgs && InWindow(s.inbox, n)
    ensures |s.delivered| <= IndexOf(s, t) < |s.out.added| && s.out.turnOf[IndexOf(s, t)] <= s.rTurn
  {
    hide CutOf, Numbered, InOrder, FlightOk, WellSized, SameShape, Agrees;
    assert Holding(s, t);
    var r :| r in s.out.sent && r.msg == IndexOf(s, t) && Seen(s, r);
    assert RecOk(n, s.out, r);
  }

  /** After the messages of the old epoch are delivered, the ring is empty and the cipher may change. */
  lemma RingIsEmpty(n: nat, s: System)
    requires Invariant(n, s) && |s.delivered| + 1 == |s.out.added| && s.out.turnOf[|s.delivered|] > s.rTurn
    ensures s.inbox == Inbox(|s.delivered| % SEQUENCES, map[])
  {
    hide OutboxOk, InWindow, Holding, Witnessed;
    if t :| t in s.inbox.msgs {
      NotBefore(n, s, t);
      assert false;
    }
  }

  /** The state after the messages of the old epoch were delivered and the read cipher was changed. */
  function AfterChange(s: System): System
    requires s.out.added != []
  {
    var d := |s.out.added| - 1;
    System(s.out, s.rTurn + 1, {}, Inbox(d % SEQUENCES, map[]), s.out.added[..d])
  }

  /** The flight ends with the one message of the next turn, and holds whatever has not been delivered. */
  predicate EndsWithNext(s: System)
  {
    && |s.out.turnOf| == |s.out.added| > 0 && s.out.turnOf[|s.out.added| - 1] == s.rTurn + 1
    && |s.delivered| < |s.out.added| <= |s.delivered| + Messages(s.out.flight)
    && s.out.flight != [] && !s.out.flight[|s.out.flight| - 1].isCcs
  }

  /** Which entry of the flight message k is. */
  lemma {:induction false} EntryOf(o: Outbox, k: nat, from: nat) returns (i: nat)
    requires from <= |o.flight| && |o.added| - Messages(o.flight[from..]) <= k < |o.added|
    ensures from <= i < |o.flight| && !o.flight[i].isCcs && MessageOf(o, i) == k
    decreases |o.flight| - from
  {
    hide Messages;
    if from == |o.flight| {
      assert false;
    } else {
      MessagesFrom(o.flight, from);
      if !o.flight[from].isCcs && MessageOf(o, from) == k {
        i := from;
      } else {
        i := EntryOf(o, k, from + 1);
      }
    }
  }

  lemma LastEntry(o: Outbox)
    requires o.flight != [] && !o.flight[|o.flight| - 1].isCcs
    ensures MessageOf(o, |o.flight| - 1) == |o.added| - 1
  {
    var j := |o.flight| - 1;
    assert o.flight[j..] == [o.flight[j]];
    MessagesOfOneMore([], o.flight[j]);
    NoMessages();
    assert [] + [o.flight[j]] == [o.flight[j]];
  }

  /** First part: the records of the old epoch, and the messages they complete. */
  lemma OldEpoch(n: nat, events: seq<Event>, states: seq<System>, maxLen: nat, pass: seq<Sent>, rs: seq<Rec>)
    returns (es: seq<Event>, ss: seq<System>)
    requires 0 < n < 256 && Run(n, events, states) && |states| == |events| + 1
    requires var s := states[|events|];
             && Invariant(n, s) && Tame(s) && Receptive(n, s, maxLen) && InWindow(s.inbox, n)
             && EndsWithNext(s) && InReach(s, |s.out.added| - 1) && s.rTurn % EPOCHS != 1
             && FollowAll(s.out.flight, START, pass) == Some(Cursor(|s.out.flight|, 0))
             && AllOpen(n, s, maxLen, rs)
             && forall i :: 0 <= i < |s.out.flight| - 1 && !s.out.flight[i].isCcs ==> Carried(s.out, pass, i, rs)
    ensures Run(n, es, ss) && |ss| == |es| + 1 && ss[|es|] == AfterChange(states[|events|])
    ensures Invariant(n, ss[|es|])
  {
    hide Run, Step, InWindow, AllOpen, ArriveAll, OutboxOk, Witnessed, Holding, HasMessage, FollowAll, Carried, Tame,
         Receptive, Messages, Opens;
    var s := states[|events|];
    EachHeld(n, s, maxLen, rs);
    es, ss := ArriveMany(n, events, states, maxLen, rs);
    var s1 := ss[|es|];
    var d := |s.out.added| - 1;
    forall k | |s1.delivered| <= k < d ensures HasMessage(s1, k) {
      assert s.out.flight[0..] == s.out.flight;
      var i := EntryOf(s.out, k, 0);
      LastEntry(s.out);
      FullPassCompletes(n, s, maxLen, pass, rs, i);
    }
    es, ss := DeliverMany(n, es, ss, d);
    var s2 := ss[|es|];
    RingIsEmpty(n, s2);
    ReadTurnKeeps(n, s2);
    var s3 := s2.(rTurn := s2.rTurn + 1, recorded := {});
    assert s3 == AfterChange(s);
    assert Step(n, s2, NextReadTurn, s3) by { ReadTurnStep(n, s2); }
    ExtendLast(n, es, ss, NextReadTurn, s3);
    es, ss := es + [NextReadTurn], ss + [s3];
  }

  lemma ReadTurnStep(n: nat, s: System)
    requires s.inbox.msgs == map[]
    ensures Step(n, s, NextReadTurn, s.(rTurn := s.rTurn + 1, recorded := {}))
  {}

  /**
   * A flight that ends with one message of the next epoch, the Finished: once the records of the old epoch have
   * been opened, the messages before it are delivered and the read cipher changes; once its own records have
   * been opened under the new cipher, it is delivered too, and then everything added has been.
   */
  lemma FlightDelivered(n: nat, events: seq<Event>, states: seq<System>, maxLen: nat, pass: seq<Sent>,
                        rs: seq<Rec>, rs': seq<Rec>) returns (es: seq<Event>, ss: seq<System>)
    requires 0 < n < 256 && Run(n, events, states) && |states| == |events| + 1
    requires var s := states[|events|];
             && Invariant(n, s) && Tame(s) && Receptive(n, s, maxLen) && InWindow(s.inbox, n)
             && EndsWithNext(s) && InReach(s, |s.out.added| - 1) && s.rTurn % EPOCHS != 1
             && FollowAll(s.out.flight, START, pass) == Some(Cursor(|s.out.flight|, 0))
             && AllOpen(n, s, maxLen, rs)
             && (forall i :: 0 <= i < |s.out.flight| - 1 && !s.out.flight[i].isCcs ==> Carried(s.out, pass, i, rs))
             && InWindow(AfterChange(s).inbox, n) && AllOpen(n, AfterChange(s), maxLen, rs')
             && Carried(s.out, pass, |s.out.flight| - 1, rs')
             && forall r :: r in rs' ==> r.msg == |s.out.added| - 1
    ensures Run(n, es, ss) && |ss| == |es| + 1
    ensures ss[|es|].out == states[|events|].out && ss[|es|].delivered == states[|events|].out.added
  {
    hide Run, Step, InWindow, AllOpen, ArriveAll, OutboxOk, Witnessed, Holding, HasMessage, FollowAll, Carried,
         Messages, Opens;
    var s := states[|events|];
    es, ss := OldEpoch(n, events, states, maxLen, pass, rs);
    var s1 := ss[|es|];
    var d, j := |s.out.added| - 1, |s.out.flight| - 1;
    EachHeld(n, s1, maxLen, rs');
    es, ss := ArriveMany(n, es, ss, maxLen, rs');
    LastEntry(s.out);
    FullPassCompletes(n, s1, maxLen, pass, rs', j);
    es, ss := DeliverMany(n, es, ss, d + 1);
    assert s.out.added[..d + 1] == s.out.added;
  }
}
