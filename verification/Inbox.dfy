/** What the receiving end of the DTLS handshake transport holds, and what each fragment does to it. */
module Inbox {
  import opened Bits
  import opened Wire
  import opened Reassembly

  /** The number of the next message to deliver, and the messages being reassembled, by number. */
  datatype Inbox = Inbox(readSeq: nat, msgs: map<nat, Assembly>)

  /** The limits of one connection: ring size, longest message, and whether the read epoch is 1. */
  datatype Config = Config(flight: nat, maxLen: nat, encryptedEpoch: bool)

  datatype AlertDesc = DecodeError | IllegalParameter | UnexpectedMessage | InternalError

  datatype Outcome = Outcome(inbox: Inbox, alert: Option<AlertDesc>)

  /** The number is before the window, or more than one past its end. */
  predicate Ignorable(readSeq: nat, flight: nat, seqNo: nat)
  {
    seqNo < readSeq || seqNo > readSeq + flight
  }

  predicate WellSized(a: Assembly, seqNo: nat)
  {
    && a.seqNo == seqNo
    && |a.data| == HM_HEADER + a.msgLen
    && a.data[..HM_HEADER] == HeaderBytes(a.kind, a.msgLen, a.seqNo, 0, a.msgLen)
  }

  /** Every message held has a number in the window of `flight` numbers from readSeq on. */
  ghost predicate InWindow(st: Inbox, flight: nat)
  {
    && st.readSeq < SEQUENCES
    && forall s :: s in st.msgs ==>
         st.readSeq <= s < st.readSeq + flight && s < SEQUENCES && WellSized(st.msgs[s], s)
  }

  function Put(st: Inbox, s: nat, a: Assembly): Inbox
  {
    st.(msgs := st.msgs[s := a])
  }

  /** dtls1_get_incoming_message: the message of a fragment is found or made, or the fragment is refused. */
  function Incoming(st: Inbox, flight: nat, f: Fragment): Outcome
  {
    if f.seqNo < st.readSeq || f.seqNo >= st.readSeq + flight then Outcome(st, Some(InternalError))
    else if f.seqNo !in st.msgs then Outcome(Put(st, f.seqNo, Blank(f.kind, f.seqNo, f.msgLen)), None)
    else if st.msgs[f.seqNo].kind != f.kind || st.msgs[f.seqNo].msgLen != f.msgLen then Outcome(st, Some(IllegalParameter))
    else Outcome(st, None)
  }

  /** One round of the loop of dtls1_open_handshake, after the fragment is parsed. */
  ghost function TakeFragment(st: Inbox, c: Config, f: Fragment): Outcome
    requires InWindow(st, c.flight)
  {
    if f.fragOff + |f.body| > f.msgLen || f.msgLen > c.maxLen then Outcome(st, Some(IllegalParameter))
    else if c.encryptedEpoch && f.seqNo != st.readSeq then Outcome(st, Some(UnexpectedMessage))
    else if Ignorable(st.readSeq, c.flight, f.seqNo) then Outcome(st, None)
    else
      var o := Incoming(st, c.flight, f);
      if o.alert.Some? then o
      else o.(inbox := Put(o.inbox, f.seqNo, Merge(o.inbox.msgs[f.seqNo], f)))
  }

  /** A handshake record: fragments one after another, up to the first that is refused. */
  ghost function TakeRecord(st: Inbox, c: Config, record: seq<Byte>): Outcome
    requires InWindow(st, c.flight)
    decreases |record|
  {
    if record == [] then Outcome(st, None)
    else
      var p := ParseFragment(record);
      if p.None? then Outcome(st, Some(DecodeError))
      else
        TakeKeepsWindow(st, c, record);
        var o := TakeFragment(st, c, p.value.frag);
        if o.alert.Some? then o else TakeRecord(o.inbox, c, p.value.rest)
  }

  lemma TakeKeepsWindow(st: Inbox, c: Config, record: seq<Byte>)
    requires InWindow(st, c.flight) && ParseFragment(record).Some?
    ensures InWindow(TakeFragment(st, c, ParseFragment(record).value.frag).inbox, c.flight)
    ensures |ParseFragment(record).value.rest| < |record|
  {
    hide BigEndian, FromBigEndian;
    SerializeOfParse(record);
    FragmentKeepsWindow(st, c, ParseFragment(record).value.frag);
  }

  lemma FragmentKeepsWindow(st: Inbox, c: Config, f: Fragment)
    requires InWindow(st, c.flight) && Fits(f)
    ensures InWindow(TakeFragment(st, c, f).inbox, c.flight)
  {
    hide HeaderBytes;
    var o := TakeFragment(st, c, f);
    if o.alert.None? && !Ignorable(st.readSeq, c.flight, f.seqNo) {
      var a := if f.seqNo in st.msgs then st.msgs[f.seqNo] else Blank(f.kind, f.seqNo, f.msgLen);
      assert WellSized(a, f.seqNo);
      assert Merge(a, f).data[..HM_HEADER] == a.data[..HM_HEADER];
    }
  }

  /**
   * The test for fragments too far ahead lets one number too many through: behind the window, a fragment with
   * lengths in order is ignored except for the very first number, which breaks off with an internal error.
   */
  lemma BehindTheWindow(st: Inbox, c: Config, f: Fragment)
    requires InWindow(st, c.flight) && !c.encryptedEpoch && f.seqNo >= st.readSeq + c.flight
    requires f.fragOff + |f.body| <= f.msgLen <= c.maxLen
    ensures TakeFragment(st, c, f) == Outcome(st, None) <==> f.seqNo != st.readSeq + c.flight
    ensures f.seqNo == st.readSeq + c.flight ==> TakeFragment(st, c, f) == Outcome(st, Some(InternalError))
  {}

  /** A fragment that lies within its message and its message within the limits, of the message that is due once the
      epoch is encrypted and of one in the window before, and that agrees with what is held of that message. */
  predicate Welcome(st: Inbox, c: Config, f: Fragment)
  {
    && f.fragOff + |f.body| <= f.msgLen <= c.maxLen
    && st.readSeq <= f.seqNo < st.readSeq + (if c.encryptedEpoch && c.flight > 0 then 1 else c.flight)
    && (f.seqNo in st.msgs ==> st.msgs[f.seqNo].kind == f.kind && st.msgs[f.seqNo].msgLen == f.msgLen)
  }

  /** Byte i of message s has come. */
  predicate Has(st: Inbox, s: nat, i: nat) { s in st.msgs && i in st.msgs[s].got }

  /** Byte i of message s, once it has come. */
  function ByteAt(st: Inbox, s: nat, i: nat): Option<Byte>
  {
    if Has(st, s, i) && HM_HEADER + i < |st.msgs[s].data| then Some(st.msgs[s].data[HM_HEADER + i]) else None
  }

  /** What a fragment does: if it is welcome, exactly the bytes in its range have come of its message besides those that
      had, new ones in their places, and outside its range nothing changes; if it is not, nothing changes at all. */
  lemma BytesOfFragment(st: Inbox, c: Config, f: Fragment, s: nat, i: nat)
    requires InWindow(st, c.flight)
    ensures var after, here := TakeFragment(st, c, f).inbox, s == f.seqNo && f.fragOff <= i < f.fragOff + |f.body|;
            && (Welcome(st, c, f) && i < f.msgLen ==> (Has(after, s, i) <==> Has(st, s, i) || here))
            && (Welcome(st, c, f) && here && !Has(st, s, i) ==> ByteAt(after, s, i) == Some(f.body[i - f.fragOff]))
            && (Has(st, s, i) && !here ==> ByteAt(after, s, i) == ByteAt(st, s, i))
            && (Welcome(st, c, f) ==>
                  && f.seqNo in after.msgs && after.msgs.Keys == st.msgs.Keys + {f.seqNo}
                  && after.msgs[f.seqNo].kind == f.kind && after.msgs[f.seqNo].msgLen == f.msgLen)
            && (!Welcome(st, c, f) ==> after == st)
  {
    hide HeaderBytes;
  }

  /** Which alert a fragment draws, if any. */
  lemma AlertOfFragment(st: Inbox, c: Config, f: Fragment)
    requires InWindow(st, c.flight) && 0 < c.flight
    ensures var o := TakeFragment(st, c, f).alert;
            var fits := f.fragOff + |f.body| <= f.msgLen <= c.maxLen;
            && (o.None? <==>
                  || Welcome(st, c, f)
                  || (fits && !c.encryptedEpoch && !(st.readSeq <= f.seqNo <= st.readSeq + c.flight)))
            && (o == Some(UnexpectedMessage) <==> fits && c.encryptedEpoch && f.seqNo != st.readSeq)
            && (o == Some(InternalError) <==> fits && !c.encryptedEpoch && f.seqNo == st.readSeq + c.flight)
            && o != Some(DecodeError)
  {}

  /** The next message, when all of it has come. */
  ghost predicate Ready(st: Inbox)
  {
    st.readSeq in st.msgs && Complete(st.msgs[st.readSeq])
  }

  /** The state after dtls1_next_message; the number is a uint16_t. */
  ghost function Advance(st: Inbox): Inbox
  {
    Inbox((st.readSeq + 1) % SEQUENCES, st.msgs - {st.readSeq})
  }

  lemma AdvanceKeepsWindow(st: Inbox, flight: nat)
    requires InWindow(st, flight)
    ensures InWindow(Advance(st), flight)
  {
    hide WellSized;
  }

  lemma {:induction false} RecordKeepsWindow(st: Inbox, c: Config, record: seq<Byte>)
    requires InWindow(st, c.flight)
    ensures InWindow(TakeRecord(st, c, record).inbox, c.flight)
    decreases |record|
  {
    if record != [] && ParseFragment(record).Some? {
      TakeKeepsWindow(st, c, record);
      var o := TakeFragment(st, c, ParseFragment(record).value.frag);
      if o.alert.None? { RecordKeepsWindow(o.inbox, c, ParseFragment(record).value.rest); }
    }
  }

  /** Once complete, a message keeps its bytes until it is delivered, whatever arrives. */
  lemma {:induction false} CompleteIsFinal(st: Inbox, c: Config, record: seq<Byte>, s: nat)
    requires InWindow(st, c.flight) && s in st.msgs && Complete(st.msgs[s])
    ensures var after := TakeRecord(st, c, record).inbox;
            after.readSeq == st.readSeq && s in after.msgs && after.msgs[s] == st.msgs[s]
    decreases |record|
  {
    if record != [] && ParseFragment(record).Some? {
      TakeKeepsWindow(st, c, record);
      var o := TakeFragment(st, c, ParseFragment(record).value.frag);
      if o.alert.None? { CompleteIsFinal(o.inbox, c, ParseFragment(record).value.rest, s); }
    }
  }
}
