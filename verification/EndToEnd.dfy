/**
 * A sender and a receiver of DTLS handshake messages, each with its record layer, joined by a channel that loses,
 * repeats and reorders records.
 */
module EndToEnd {
  import opened Bits
  import opened Wire
  import opened ReplayWindow
  import opened DtlsRecord
  import opened Reassembly
  import opened Inbox
  import opened Flight
  import opened Outbox

  /**
   * The channel is every record the outbox ever sealed. `recorded` is what the replay window of the current read
   * turn has recorded, and `delivered` the messages returned by dtls1_get_message, header included.
   */
  datatype System = System(
    out: Outbox,
    rTurn: nat,
    recorded: set<nat>,
    inbox: Inbox,
    delivered: seq<seq<Byte>>)

  datatype Event =
    | AddMessage(kind: Byte, body: seq<Byte>)
    | AddCcs
    | NewFlight
    | Send
    | NextWriteTurn
    | Arrive(maxLen: nat, r: Rec)
    | ArriveOther(number: nat)
    | NextReadTurn
    | Deliver

  const INIT := System(EMPTY, 0, {}, Inbox(0, map[]), [])

  /** The number on the wire: the epoch in 16 bits and the count in 48. */
  function Full(r: Rec): nat
  {
    r.turn % EPOCHS * NUMBERS + r.count % NUMBERS
  }

  /** The window lets a number pass that it has not recorded and that is not 64 or more below the largest. */
  predicate Passes(recorded: set<nat>, number: nat)
  {
    number !in recorded && forall m :: m in recorded ==> m < number + WINDOW
  }

  /** dtls_open_record gives its text: a cipher opens what was sealed under it, and the window lets it pass. */
  predicate Opens(s: System, r: Rec)
  {
    r in s.out.sent && r.turn == s.rTurn && Passes(s.recorded, Full(r))
  }

  function ConfigOf(n: nat, s: System, maxLen: nat): Config
  {
    Config(n, maxLen, s.rTurn % EPOCHS == 1)
  }

  /** dtls1_open_handshake on such a record. */
  ghost function Arrived(n: nat, s: System, maxLen: nat, r: Rec): System
    requires InWindow(s.inbox, n)
  {
    s.(recorded := s.recorded + {Full(r)},
       inbox := TakeRecord(s.inbox, ConfigOf(n, s, maxLen), Serialize(r.frag)).inbox)
  }

  ghost function Delivered(s: System): System
    requires Ready(s.inbox)
  {
    s.(inbox := Advance(s.inbox), delivered := s.delivered + [s.inbox.msgs[s.inbox.readSeq].data])
  }

  /** One step of the system, with a receive ring of n slots and flights of at most n entries. */
  ghost predicate Step(n: nat, s: System, e: Event, s': System)
  {
    match e
    case AddMessage(kind, body) => Adds(n, s.out, kind, body, s'.out) && s' == s.(out := s'.out)
    case AddCcs => AddsCcs(n, s.out, s'.out) && s' == s.(out := s'.out)
    case NewFlight => Drops(s.out, s'.out) && s' == s.(out := s'.out)
    case Send => Sends(s.out, s'.out) && s' == s.(out := s'.out)
    case NextWriteTurn => Turns(s.out, s'.out) && s' == s.(out := s'.out)
    case Arrive(maxLen, r) => InWindow(s.inbox, n) && Opens(s, r) && s' == Arrived(n, s, maxLen, r)
    case ArriveOther(number) => s' == s.(recorded := s.recorded + {number})
    case NextReadTurn => s.inbox.msgs.Keys <= {s.inbox.readSeq} && s' == s.(rTurn := s.rTurn + 1, recorded := {})
    case Deliver => Ready(s.inbox) && s' == Delivered(s)
  }

  /** A run from the initial state: the states between the events. */
  ghost predicate Run(n: nat, events: seq<Event>, states: seq<System>)
  {
    && |states| == |events| + 1
    && states[0] == INIT
    && forall i :: 0 <= i < |events| ==> Step(n, states[i], events[i], states[i + 1])
  }

  // ---- The invariant ----

  /** What has been reassembled agrees with the message that was sent. */
  ghost predicate Agrees(a: Assembly, data: seq<Byte>)
  {
    && |a.data| == |data| == HM_HEADER + a.msgLen
    && a.data[..HM_HEADER] == data[..HM_HEADER]
    && a.got <= Span(0, a.msgLen)
    && forall i :: i in a.got ==> a.data[HM_HEADER + i] == data[HM_HEADER + i]
  }

  ghost predicate SameShape(a: Assembly, data: seq<Byte>)
  {
    Whole(data) && a.kind == Unfragmented(data).kind && a.msgLen == |Unfragmented(data).body|
  }

  /** Which message the window of the receiver takes a number of it for. */
  function IndexOf(s: System, t: nat): int
  {
    |s.delivered| + t - s.inbox.readSeq
  }

  ghost predicate Holding(s: System, t: nat)
    requires t in s.inbox.msgs
  {
    && 0 <= IndexOf(s, t) < |s.out.added|
    && SameShape(s.inbox.msgs[t], s.out.added[IndexOf(s, t)])
    && Agrees(s.inbox.msgs[t], s.out.added[IndexOf(s, t)])
  }

  /** The receiver holds parts of the messages that were added, and has delivered a prefix of them. */
  ghost predicate Receiving(n: nat, s: System)
  {
    && InWindow(s.inbox, n)
    && s.inbox.readSeq == |s.delivered| % SEQUENCES
    && |s.delivered| <= |s.out.added| && s.delivered == s.out.added[..|s.delivered|]
    && forall t :: t in s.inbox.msgs ==> Holding(s, t)
  }

  /** The record was opened: in an earlier turn, or in this one, whose window has it. */
  predicate Seen(s: System, r: Rec)
  {
    r.turn < s.rTurn || (r.turn == s.rTurn && Full(r) in s.recorded)
  }

  predicate Witnessed(s: System, k: int)
  {
    exists r :: r in s.out.sent && r.msg == k && Seen(s, r)
  }

  /** Nothing is held or delivered of which no record was opened. */
  ghost predicate Invariant(n: nat, s: System)
  {
    && OutboxOk(n, s.out) && Receiving(n, s)
    && (forall k :: 0 <= k < |s.delivered| ==> Witnessed(s, k))
    && (forall t :: t in s.inbox.msgs ==> Witnessed(s, IndexOf(s, t)))
  }

  /** The sender is at most 2^16 messages ahead of the receiver, and no turn has used more than 2^48 numbers. */
  predicate Tame(s: System)
  {
    |s.out.added| <= |s.delivered| + SEQUENCES && forall r :: r in s.out.sent ==> r.count < NUMBERS
  }

  // ---- Why no old record is taken for a new one ----

  /**
   * From a record of this turn whose message was delivered, a chain of opened records of messages n apart leads
   * upwards, and each step has a larger number.
   */
  lemma {:induction false} Chain(n: nat, s: System, r: Rec, m: nat, at: nat) returns (q: Rec)
    requires 0 < n && Invariant(n, s) && r in s.out.sent && r.turn == s.rTurn
    requires at == r.msg + m * n && (m > 0 ==> at < |s.delivered|)
    ensures q in s.out.sent && q.msg == at && q.turn == r.turn && q.count >= r.count + m
    ensures m > 0 ==> Full(q) in s.recorded
    decreases m
  {
    hide RecOk, AddedOk, FlightOk, InOrder, Receiving;
    if m == 0 {
      q := r;
    } else {
      assert at - n == r.msg + (m - 1) * n >= r.msg;
      var p := Chain(n, s, r, m - 1, at - n);
      assert Witnessed(s, at);
      q :| q in s.out.sent && q.msg == at && Seen(s, q);
      NotBefore(n, s, r, q);
      Ordered(n, s, p, q);
    }
  }

  lemma NotBefore(n: nat, s: System, r: Rec, q: Rec)
    requires OutboxOk(n, s.out) && r in s.out.sent && q in s.out.sent && r.msg + n <= q.msg
    ensures r.turn <= q.turn
  {
    hide CutOf, Numbered, InOrder, FlightOk;
    assert RecOk(n, s.out, r) && RecOk(n, s.out, q);
  }

  lemma Ordered(n: nat, s: System, p: Rec, q: Rec)
    requires OutboxOk(n, s.out) && p in s.out.sent && q in s.out.sent && p.msg + n <= q.msg && p.turn == q.turn
    ensures p.count < q.count
  {
    hide RecOk, AddedOk, FlightOk;
  }

  lemma FarBehind(d: nat, k: nat, n: nat)
    requires k < d && d % SEQUENCES <= k % SEQUENCES <= d % SEQUENCES + n
    ensures k + SEQUENCES <= d + n
  {}

  lemma FullIsLarger(r: Rec, q: Rec)
    requires q.turn == r.turn && r.count + WINDOW <= q.count < NUMBERS
    ensures Full(r) + WINDOW <= Full(q)
  {
    assert r.count % NUMBERS == r.count && q.count % NUMBERS == q.count;
  }

  /** A record of a delivered message whose number is in the window of the ring again is not let through. */
  lemma OldIsStale(n: nat, s: System, r: Rec)
    requires 0 < n < 256 && Invariant(n, s) && Tame(s)
    requires r in s.out.sent && r.msg < |s.delivered| && r.turn == s.rTurn
    requires s.inbox.readSeq <= r.frag.seqNo <= s.inbox.readSeq + n
    ensures !Opens(s, r)
  {
    hide Numbered, CutOf, InWindow, Holding, Messages, InOrder, FlightOk, Full, Witnessed;
    assert RecOk(n, s.out, r);
    RecNumber(s.out.added[r.msg], r);
    FarBehind(|s.delivered|, r.msg, n);
    var q := Chain(n, s, r, WINDOW, r.msg + WINDOW * n);
    FullIsLarger(r, q);
  }

  lemma RecNumber(data: seq<Byte>, r: Rec)
    requires Numbered(data, r.msg) && CutOf(r.frag, data)
    ensures r.frag.seqNo == r.msg % SEQUENCES
  {}

  // ---- Fragments ----

  /** Merging a cut of the message keeps the agreement. */
  lemma MergeAgrees(a: Assembly, f: Fragment, data: seq<Byte>, k: nat)
    requires Numbered(data, k) && CutOf(f, data) && SameShape(a, data) && Agrees(a, data)
    ensures Agrees(Merge(a, f), data) && SameShape(Merge(a, f), data)
  {
    hide HeaderBytes, ParseFragment;
    var g := Unfragmented(data);
    var r := Merge(a, f);
    forall i | i in r.got ensures i < a.msgLen && r.data[HM_HEADER + i] == data[HM_HEADER + i] {
      if !Complete(a) && f.fragOff <= i < f.fragOff + |f.body| {
        assert r.data[HM_HEADER + i] == f.body[i - f.fragOff] == g.body[i];
      }
    }
    assert r.data[..HM_HEADER] == a.data[..HM_HEADER];
  }

  lemma BlankAgrees(f: Fragment, data: seq<Byte>, k: nat)
    requires Numbered(data, k) && CutOf(f, data)
    ensures var a := Blank(f.kind, f.seqNo, f.msgLen); SameShape(a, data) && Agrees(a, data)
  {
    hide HeaderBytes, ParseFragment;
    var g := Unfragmented(data);
    assert data[..HM_HEADER] == HeaderBytes(g.kind, g.msgLen, g.seqNo, 0, g.msgLen);
    assert Blank(f.kind, f.seqNo, f.msgLen).data[..HM_HEADER] == data[..HM_HEADER];
  }

  /** A complete message that agrees with what was sent is what was sent. */
  lemma CompleteIsEqual(a: Assembly, data: seq<Byte>)
    requires Agrees(a, data) && Complete(a)
    ensures a.data == data
  {
    forall j | 0 <= j < |data| ensures a.data[j] == data[j] {
      if j < HM_HEADER {
        assert a.data[j] == a.data[..HM_HEADER][j] == data[..HM_HEADER][j];
      } else {
        assert j - HM_HEADER in Span(0, a.msgLen);
      }
    }
  }

  lemma FragmentFits(f: Fragment, data: seq<Byte>, k: nat)
    requires Numbered(data, k) && CutOf(f, data)
    ensures Fits(f) && f.seqNo == k % SEQUENCES && f.fragOff + |f.body| <= f.msgLen == |data| - HM_HEADER
  {}

  /** A number of the window stands for the only message it can: the sender is not a whole round ahead. */
  lemma WindowIndex(s: System, k: nat, t: nat)
    requires s.inbox.readSeq == |s.delivered| % SEQUENCES && |s.delivered| <= k < |s.delivered| + SEQUENCES
    requires t == k % SEQUENCES >= s.inbox.readSeq
    ensures IndexOf(s, t) == k
  {}

  /** The fragment is cut from a message not yet delivered. */
  predicate Live(s: System, f: Fragment, k: nat)
  {
    |s.delivered| <= k < |s.out.added| && Numbered(s.out.added[k], k) && CutOf(f, s.out.added[k])
  }

  /** A live fragment: whatever is held afterwards was held before or is of its message. */
  lemma TakeOneKeeps(n: nat, s: System, c: Config, f: Fragment, k: nat)
    requires Receiving(n, s) && Tame(s) && c.flight == n && Live(s, f, k)
    ensures var s' := s.(inbox := TakeFragment(s.inbox, c, f).inbox);
            Receiving(n, s') && s'.inbox.readSeq == s.inbox.readSeq
            && forall t :: t in s'.inbox.msgs ==> t in s.inbox.msgs || IndexOf(s, t) == k
  {
    hide HeaderBytes, ParseFragment, Merge, Blank, CutOf, Numbered, Agrees, SameShape, WellSized;
    var data := s.out.added[k];
    FragmentFits(f, data, k);
    FragmentKeepsWindow(s.inbox, c, f);
    BlankAgrees(f, data, k);
    var o := TakeFragment(s.inbox, c, f);
    if o.alert.None? && !Ignorable(s.inbox.readSeq, n, f.seqNo) {
      WindowIndex(s, k, f.seqNo);
      if f.seqNo in s.inbox.msgs { assert Holding(s, f.seqNo); }
      var a := Incoming(s.inbox, n, f).inbox.msgs[f.seqNo];
      MergeAgrees(a, f, data, k);
    }
    var s' := s.(inbox := o.inbox);
    forall t | t in s'.inbox.msgs ensures Holding(s', t) {
      if t in s.inbox.msgs { assert Holding(s, t); }
    }
  }

  function SerializeAll(fs: seq<Fragment>): seq<Byte>
  {
    if fs == [] then [] else Serialize(fs[0]) + SerializeAll(fs[1..])
  }

  /** The fragments that the receive loop reads from a record, one after another. */
  function ParseAll(record: seq<Byte>): Option<seq<Fragment>>
    decreases |record|
  {
    if record == [] then Some([])
    else
      var p := ParseFragment(record);
      if p.None? || |p.value.rest| >= |record| then None
      else
        var rest := ParseAll(p.value.rest);
        if rest.None? then None else Some([p.value.frag] + rest.value)
  }

  /** Any fragments, in any number and order, can be put into one record and are read back from it. */
  lemma {:induction false} AnyFragments(fs: seq<Fragment>)
    requires forall f :: f in fs ==> Fits(f)
    ensures ParseAll(SerializeAll(fs)) == Some(fs)
  {
    hide ParseFragment, Serialize, Fits;
    if fs != [] {
      assert fs[0] in fs;
      AnyFragments(fs[1..]);
      ParseOfSerialize(fs[0], SerializeAll(fs[1..]));
      assert |Serialize(fs[0])| > 0 by { SerializeLength(fs[0]); }
      assert fs == [fs[0]] + fs[1..];
    }
  }

  lemma SerializeLength(f: Fragment)
    ensures |Serialize(f)| == HM_HEADER + |f.body|
  {}

  /** Fragments taken one after another. */
  ghost function TakeEach(st: Inbox, c: Config, fs: seq<Fragment>): Outcome
    requires InWindow(st, c.flight) && forall f :: f in fs ==> Fits(f)
    decreases |fs|
  {
    if fs == [] then Outcome(st, None)
    else
      FragmentKeepsWindow(st, c, fs[0]);
      var o := TakeFragment(st, c, fs[0]);
      if o.alert.Some? then o else TakeEach(o.inbox, c, fs[1..])
  }

  /** A record of several fragments has the effect of taking them one by one. */
  lemma {:induction false} RecordIsList(st: Inbox, c: Config, fs: seq<Fragment>)
    requires InWindow(st, c.flight) && forall f :: f in fs ==> Fits(f)
    ensures TakeRecord(st, c, SerializeAll(fs)) == TakeEach(st, c, fs)
    decreases |fs|
  {
    hide TakeFragment, Serialize, ParseFragment, Fits;
    if fs != [] {
      assert fs[0] in fs;
      ParseOfSerialize(fs[0], SerializeAll(fs[1..]));
      FragmentKeepsWindow(st, c, fs[0]);
      var o := TakeFragment(st, c, fs[0]);
      if o.alert.None? { RecordIsList(o.inbox, c, fs[1..]); }
    }
  }

  lemma OneFragment(st: Inbox, c: Config, f: Fragment)
    requires InWindow(st, c.flight) && Fits(f)
    ensures TakeRecord(st, c, Serialize(f)) == TakeFragment(st, c, f)
  {
    hide TakeFragment, Serialize, TakeRecord, Fits;
    RecordIsList(st, c, [f]);
    assert SerializeAll([f]) == Serialize(f) by { assert Serialize(f) + [] == Serialize(f); }
    FragmentKeepsWindow(st, c, f);
    assert TakeEach(st, c, [f]) == TakeFragment(st, c, f);
  }

  /** Live fragments in one record, in any number and order: what the ring makes of them agrees with the messages. */
  lemma {:induction false} TakeRecordKeeps(n: nat, s: System, c: Config, fs: seq<Fragment>)
    requires Receiving(n, s) && Tame(s) && c.flight == n
    requires forall f :: f in fs ==> Fits(f) && exists k :: Live(s, f, k)
    ensures Receiving(n, s.(inbox := TakeRecord(s.inbox, c, SerializeAll(fs)).inbox))
    decreases |fs|
  {
    hide TakeFragment, ParseFragment, Serialize, TakeRecord, Fits, Holding, InWindow, SerializeAll, Numbered, CutOf;
    RecordIsList(s.inbox, c, fs);
    if fs == [] {
      assert s.(inbox := s.inbox) == s;
    } else {
      assert fs[0] in fs;
      var k: nat :| Live(s, fs[0], k);
      TakeOneKeeps(n, s, c, fs[0], k);
      var o := TakeFragment(s.inbox, c, fs[0]);
      if o.alert.None? {
        var s' := s.(inbox := o.inbox);
        forall f | f in fs[1..] ensures exists k :: Live(s', f, k) {
          assert f in fs;
          var l: nat :| Live(s, f, l);
          assert Live(s', f, l);
        }
        TakeRecordKeeps(n, s', c, fs[1..]);
        RecordIsList(o.inbox, c, fs[1..]);
        assert s'.(inbox := TakeRecord(o.inbox, c, SerializeAll(fs[1..])).inbox)
               == s.(inbox := TakeRecord(s.inbox, c, SerializeAll(fs)).inbox);
      }
    }
  }

  // ---- Each step keeps the invariant ----

  /** Records are only added and opened, turns only go up. */
  predicate Later(s: System, s': System)
  {
    && s.out.sent <= s'.out.sent && s.rTurn <= s'.rTurn
    && (s'.rTurn == s.rTurn ==> s.recorded <= s'.recorded)
  }

  lemma StillWitnessed(s: System, s': System, k: int)
    requires Witnessed(s, k) && Later(s, s')
    ensures Witnessed(s', k)
  {
    hide Full;
    var r :| r in s.out.sent && r.msg == k && Seen(s, r);
    assert Seen(s', r);
  }

  /** A step of the sender: nothing changes for the receiver but what it has been sent. */
  lemma SenderKeeps(n: nat, s: System, out: Outbox)
    requires Invariant(n, s) && OutboxOk(n, out) && s.out.added <= out.added && s.out.sent <= out.sent
    ensures Invariant(n, s.(out := out))
  {
    hide OutboxOk, InWindow, SameShape, Agrees, Witnessed;
    var s' := s.(out := out);
    forall k | 0 <= k < |s'.delivered| ensures Witnessed(s', k) { StillWitnessed(s, s', k); }
    forall t | t in s'.inbox.msgs ensures Holding(s', t) && Witnessed(s', IndexOf(s', t)) {
      assert Holding(s, t);
      StillWitnessed(s, s', IndexOf(s, t));
    }
  }

  /** An opened record: a live one is merged, and one of a delivered message changes nothing. */
  lemma ArriveTakes(n: nat, s: System, maxLen: nat, r: Rec)
    requires 0 < n < 256 && Invariant(n, s) && Tame(s) && Opens(s, r)
    ensures var s' := Arrived(n, s, maxLen, r);
            Receiving(n, s') && s'.inbox.readSeq == s.inbox.readSeq
            && forall t :: t in s'.inbox.msgs ==> t in s.inbox.msgs || IndexOf(s, t) == r.msg
    ensures Fits(r.frag) && Arrived(n, s, maxLen, r).inbox == TakeFragment(s.inbox, ConfigOf(n, s, maxLen), r.frag).inbox
  {
    hide Numbered, CutOf, InWindow, Holding, Messages, InOrder, FlightOk, Opens, Serialize, TakeRecord, TakeFragment;
    var c := ConfigOf(n, s, maxLen);
    var s' := Arrived(n, s, maxLen, r);
    OpenIsSent(n, s, r);
    FragmentFits(r.frag, s.out.added[r.msg], r.msg);
    OneFragment(s.inbox, c, r.frag);
    if r.msg < |s.delivered| {
      OldIsIgnored(n, s, c, r);
      SameReceiving(n, s, s');
    } else {
      TakeOneKeeps(n, s, c, r.frag, r.msg);
      SameReceiving(n, s.(inbox := s'.inbox), s');
    }
  }

  lemma OpenIsSent(n: nat, s: System, r: Rec)
    requires OutboxOk(n, s.out) && Opens(s, r)
    ensures r in s.out.sent && r.turn == s.rTurn && r.msg < |s.out.added|
    ensures Numbered(s.out.added[r.msg], r.msg) && CutOf(r.frag, s.out.added[r.msg])
  {
    hide Numbered, CutOf, InOrder, FlightOk;
    assert RecOk(n, s.out, r);
  }

  lemma SameReceiving(n: nat, s: System, s': System)
    requires Receiving(n, s) && s' == s.(recorded := s'.recorded)
    ensures Receiving(n, s')
  {
    hide InWindow, SameShape, Agrees;
    forall t | t in s'.inbox.msgs ensures Holding(s', t) { assert Holding(s, t); }
  }

  lemma OldIsIgnored(n: nat, s: System, c: Config, r: Rec)
    requires 0 < n < 256 && Invariant(n, s) && Tame(s) && Opens(s, r) && r.msg < |s.delivered|
    requires InWindow(s.inbox, n) && c.flight == n && Fits(r.frag)
    ensures TakeFragment(s.inbox, c, r.frag).inbox == s.inbox
    ensures Ignorable(s.inbox.readSeq, n, r.frag.seqNo)
  {
    hide Invariant, Opens, InWindow, Fits, Merge;
    if !Ignorable(s.inbox.readSeq, n, r.frag.seqNo) {
      assert r in s.out.sent && r.turn == s.rTurn by { OpenedIsSent(s, r); }
      OldIsStale(n, s, r);
      assert false;
    }
  }

  lemma OpenedIsSent(s: System, r: Rec)
    requires Opens(s, r)
    ensures r in s.out.sent && r.turn == s.rTurn
  {}

  lemma ArriveKeeps(n: nat, s: System, maxLen: nat, r: Rec)
    requires 0 < n < 256 && Invariant(n, s) && Tame(s) && Opens(s, r)
    ensures Invariant(n, Arrived(n, s, maxLen, r))
  {
    hide OutboxOk, InWindow, Holding, Witnessed, Full, TakeRecord, Serialize;
    ArriveTakes(n, s, maxLen, r);
    var s' := Arrived(n, s, maxLen, r);
    forall k | 0 <= k < |s'.delivered| ensures Witnessed(s', k) { StillWitnessed(s, s', k); }
    WitnessOf(s', r);
    forall t | t in s'.inbox.msgs ensures Witnessed(s', IndexOf(s', t)) {
      if t in s.inbox.msgs { StillWitnessed(s, s', IndexOf(s, t)); }
    }
  }

  lemma WitnessOf(s: System, r: Rec)
    requires r in s.out.sent && Seen(s, r)
    ensures Witnessed(s, r.msg)
  {}

  /** What is about to be delivered is the next message that was added; delivering it keeps the invariant. */
  lemma DeliverKeeps(n: nat, s: System)
    requires Invariant(n, s) && Ready(s.inbox)
    ensures |s.delivered| < |s.out.added| && s.inbox.msgs[s.inbox.readSeq].data == s.out.added[|s.delivered|]
    ensures Invariant(n, Delivered(s))
  {
    hide OutboxOk, SameShape, Agrees, Witnessed, WellSized;
    var t, d := s.inbox.readSeq, |s.delivered|;
    assert Holding(s, t);
    CompleteIsEqual(s.inbox.msgs[t], s.out.added[d]);
    AdvanceKeepsWindow(s.inbox, n);
    NextIndex(d);
    assert s.out.added[..d + 1] == s.out.added[..d] + [s.out.added[d]];
    var s' := Delivered(s);
    forall k | 0 <= k < |s'.delivered| ensures Witnessed(s', k) {
      if k == d { assert IndexOf(s, t) == d; }
      StillWitnessed(s, s', k);
    }
    forall u | u in s'.inbox.msgs ensures Holding(s', u) && Witnessed(s', IndexOf(s', u)) {
      assert u in s.inbox.msgs && u > t;
      assert Holding(s, u);
      assert IndexOf(s', u) == IndexOf(s, u);
      StillWitnessed(s, s', IndexOf(s, u));
    }
  }

  lemma NextIndex(d: nat)
    ensures (d + 1) % SEQUENCES == (d % SEQUENCES + 1) % SEQUENCES
    ensures d % SEQUENCES + 1 < SEQUENCES ==> (d + 1) % SEQUENCES == d % SEQUENCES + 1
  {}

  lemma OtherKeeps(n: nat, s: System, number: nat)
    requires Invariant(n, s)
    ensures Invariant(n, s.(recorded := s.recorded + {number}))
  {
    hide OutboxOk, InWindow, Holding, Witnessed;
    var s' := s.(recorded := s.recorded + {number});
    SameReceiving(n, s, s');
    forall k | 0 <= k < |s'.delivered| ensures Witnessed(s', k) { StillWitnessed(s, s', k); }
    forall t | t in s'.inbox.msgs ensures Witnessed(s', IndexOf(s', t)) { StillWitnessed(s, s', IndexOf(s, t)); }
  }

  lemma ReadTurnKeeps(n: nat, s: System)
    requires Invariant(n, s)
    ensures Invariant(n, s.(rTurn := s.rTurn + 1, recorded := {}))
  {
    hide OutboxOk, InWindow, SameShape, Agrees, Witnessed;
    var s' := s.(rTurn := s.rTurn + 1, recorded := {});
    forall k | 0 <= k < |s'.delivered| ensures Witnessed(s', k) { StillWitnessed(s, s', k); }
    forall t | t in s'.inbox.msgs ensures Holding(s', t) && Witnessed(s', IndexOf(s', t)) {
      assert Holding(s, t);
      StillWitnessed(s, s', IndexOf(s, t));
    }
  }

  lemma StepKeeps(n: nat, s: System, e: Event, s': System)
    requires 0 < n < 256 && Invariant(n, s) && Tame(s) && Step(n, s, e, s')
    ensures Invariant(n, s')
  {
    hide OutboxOk, Receiving, Witnessed, Numbered, MessageBytes, Serialize, TakeRecord, InWindow, Passes, FromFlight;
    assert OutboxOk(n, s.out);
    match e
    case AddMessage(kind, body) => { AddsKeeps(n, s.out, kind, body, s'.out); SenderKeeps(n, s, s'.out); }
    case AddCcs => { AddsCcsKeeps(n, s.out, s'.out); SenderKeeps(n, s, s'.out); }
    case NewFlight => { DropsKeeps(n, s.out, s'.out); SenderKeeps(n, s, s'.out); }
    case Send => { SendsKeeps(n, s.out, s'.out); SenderKeeps(n, s, s'.out); }
    case NextWriteTurn => { TurnsKeeps(n, s.out, s'.out); SenderKeeps(n, s, s'.out); }
    case Arrive(maxLen, r) => { ArriveKeeps(n, s, maxLen, r); }
    case ArriveOther(number) => { OtherKeeps(n, s, number); }
    case NextReadTurn => { ReadTurnKeeps(n, s); }
    case Deliver => { DeliverKeeps(n, s); }
  }

  /** Every state of the run is tame. */
  predicate AllTame(states: seq<System>)
  {
    forall i :: 0 <= i < |states| ==> Tame(states[i])
  }

  lemma {:induction false} RunKeeps(n: nat, events: seq<Event>, states: seq<System>)
    requires 0 < n < 256 && Run(n, events, states) && AllTame(states[..|events|])
    ensures Invariant(n, states[|events|])
  {
    hide Invariant, Step, Tame;
    if events == [] {
      InitialInvariant(n);
    } else {
      var k := |events| - 1;
      assert Step(n, states[k], events[k], states[k + 1]);
      assert states[..k] == states[..|events|][..k];
      assert states[..k + 1][..k] == states[..k];
      RunKeeps(n, events[..k], states[..k + 1]);
      assert Tame(states[..|events|][k]);
      StepKeeps(n, states[k], events[k], states[k + 1]);
    }
  }

  lemma InitialInvariant(n: nat)
    ensures Invariant(n, INIT)
  {
    EmptyOk(n);
  }

  /**
   * Over every run, of any number of messages, in which the sender is never more than 2^16 messages ahead and no
   * turn uses up its 2^48 numbers: what has been delivered is, byte for byte and header included, a prefix of
   * what was added.
   */
  lemma DeliveredIsPrefix(n: nat, events: seq<Event>, states: seq<System>)
    requires 0 < n < 256 && Run(n, events, states) && AllTame(states[..|events|])
    ensures states[|events|].delivered <= states[|events|].out.added
  {
    RunKeeps(n, events, states);
  }

  /** The message about to be returned is, over every such run, the next one that was added. */
  lemma ReturnedIsAdded(n: nat, events: seq<Event>, states: seq<System>)
    requires 0 < n < 256 && Run(n, events, states) && AllTame(states[..|events|])
    ensures var s := states[|events|];
            Ready(s.inbox) ==>
              |s.delivered| < |s.out.added| && s.inbox.msgs[s.inbox.readSeq].data == s.out.added[|s.delivered|]
  {
    RunKeeps(n, events, states);
    var s := states[|events|];
    if Ready(s.inbox) { DeliverKeeps(n, s); }
  }

  // ---- When the sender cannot run ahead ----

  lemma {:induction false} SentGrows(n: nat, events: seq<Event>, states: seq<System>, i: nat)
    requires Run(n, events, states) && i <= |events|
    ensures states[i].out.sent <= states[|events|].out.sent
    decreases |events| - i
  {
    hide Step;
    if i < |events| {
      assert Step(n, states[i], events[i], states[i + 1]);
      SentStep(n, states[i], events[i], states[i + 1]);
      SentGrows(n, events, states, i + 1);
    }
  }

  lemma SentStep(n: nat, s: System, e: Event, s': System)
    requires Step(n, s, e, s')
    ensures s.out.sent <= s'.out.sent
  {
    hide TakeRecord, FromFlight, MessageBytes;
  }

  /** A flight is dropped only when everything in it has been delivered: a new one answers the peer's reply. */
  predicate InLockStep(events: seq<Event>, states: seq<System>)
    requires |states| == |events| + 1
  {
    forall i :: 0 <= i < |events| && events[i].NewFlight? ==> |states[i].delivered| == |states[i].out.added|
  }

  predicate InFlight(s: System)
  {
    |s.out.added| <= |s.delivered| + Messages(s.out.flight)
  }

  lemma FlightStep(n: nat, s: System, e: Event, s': System)
    requires Step(n, s, e, s') && InFlight(s) && (e.NewFlight? ==> |s.delivered| == |s.out.added|)
    requires |s.out.flight| <= n
    ensures InFlight(s') && |s'.out.flight| <= n
  {
    hide TakeRecord, FromFlight, MessageBytes, Messages;
    if e.AddMessage? || e.AddCcs? {
      MessagesOfOneMore(s.out.flight, s'.out.flight[|s.out.flight|]);
    }
  }

  lemma {:induction false} LagIsFlight(n: nat, events: seq<Event>, states: seq<System>, i: nat)
    requires Run(n, events, states) && InLockStep(events, states) && i <= |events|
    ensures InFlight(states[i]) && |states[i].out.flight| <= n
  {
    hide Step, InFlight;
    if i == 0 {
      assert InFlight(INIT) by { StartsInFlight(); }
    } else {
      LagIsFlight(n, events, states, i - 1);
      assert Step(n, states[i - 1], events[i - 1], states[i]);
      FlightStep(n, states[i - 1], events[i - 1], states[i]);
    }
  }

  lemma StartsInFlight()
    ensures InFlight(INIT)
  {}

  /** In lock step the sender is never more than a flight ahead, so the prefix holds for any number of messages. */
  lemma LockStep(n: nat, events: seq<Event>, states: seq<System>)
    requires 0 < n < 256 && Run(n, events, states) && InLockStep(events, states)
    requires forall r :: r in states[|events|].out.sent ==> r.count < NUMBERS
    ensures var s := states[|events|]; s.delivered <= s.out.added && |s.out.added| <= |s.delivered| + n
  {
    hide Step, Messages;
    forall i | 0 <= i <= |events| ensures Tame(states[i]) && |states[i].out.added| <= |states[i].delivered| + n {
      SentGrows(n, events, states, i);
      LagIsFlight(n, events, states, i);
    }
    DeliveredIsPrefix(n, events, states);
  }

  // ---- Building runs ----

  lemma Extend(n: nat, events: seq<Event>, states: seq<System>, e: Event, s: System)
    requires Run(n, events, states) && Step(n, states[|events|], e, s)
    ensures Run(n, events + [e], states + [s])
  {
    hide Step;
    var es, ss := events + [e], states + [s];
    forall i | 0 <= i < |es| ensures Step(n, ss[i], es[i], ss[i + 1]) {
      if i < |events| { assert Step(n, states[i], events[i], states[i + 1]); }
    }
  }

  lemma ExtendLast(n: nat, events: seq<Event>, states: seq<System>, e: Event, s: System)
    requires Run(n, events, states) && Step(n, states[|events|], e, s)
    ensures Run(n, events + [e], states + [s]) && |states + [s]| == |events + [e]| + 1
    ensures (states + [s])[|events + [e]|] == s
  {
    Extend(n, events, states, e, s);
  }

  lemma EmptyRun(n: nat)
    ensures Run(n, [], [INIT])
  {}

  lemma DropStep(n: nat, s: System)
    requires s.out.complete
    ensures Step(n, s, NewFlight, s.(out := Dropped(s.out)))
  {}

  lemma ArriveStep(n: nat, s: System, maxLen: nat, r: Rec)
    requires InWindow(s.inbox, n) && Opens(s, r)
    ensures Step(n, s, Arrive(maxLen, r), Arrived(n, s, maxLen, r))
    ensures Arrived(n, s, maxLen, r).out == s.out && Arrived(n, s, maxLen, r).delivered == s.delivered
    ensures Arrived(n, s, maxLen, r).rTurn == s.rTurn
  {
    hide TakeRecord, InWindow;
  }

  lemma DeliverStep(n: nat, s: System)
    requires Ready(s.inbox)
    ensures Step(n, s, Deliver, Delivered(s))
  {}
}
