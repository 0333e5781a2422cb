/** The receive ring of the DTLS handshake transport: hm_fragment slots indexed by message number. */
module Receiver {
  import opened Bits
  import opened Wire
  import opened Reassembly
  import opened Inbox

  /** Two numbers of one window of n consecutive numbers share a slot only if they are equal. */
  lemma OneSlot(a: nat, b: nat, n: nat)
    requires n > 0 && a % n == b % n && a <= b < a + n
    ensures a == b
  {
    DivMod(a, n);
    DivMod(b, n);
    if b / n > a / n {
      MulGe(b / n - a / n, n);
      Distribute(a / n, b / n - a / n, n);
      assert false;
    } else if b / n < a / n {
      MulGe(a / n - b / n, n);
      Distribute(b / n, a / n - b / n, n);
      assert false;
    }
  }

  lemma DivMod(a: nat, n: nat)
    requires n > 0
    ensures a == a / n * n + a % n && 0 <= a % n < n
  {}

  /** The slots of a ring as a table by number, for the window that starts at readSeq. */
  ghost function Table(readSeq: nat, values: seq<Option<Assembly>>): map<nat, Assembly>
    requires |values| > 0
  {
    map s: nat | readSeq <= s < readSeq + |values| && values[s % |values|].Some? :: values[s % |values|].value
  }

  /** Every message sits in the slot of its number. */
  ghost predicate Aligned(readSeq: nat, values: seq<Option<Assembly>>)
  {
    forall i :: 0 <= i < |values| && values[i].Some? ==>
      var a := values[i].value;
      a.seqNo % |values| == i && readSeq <= a.seqNo < readSeq + |values| && a.seqNo < SEQUENCES && WellSized(a, a.seqNo)
  }

  lemma AlignedAt(readSeq: nat, values: seq<Option<Assembly>>, i: nat)
    requires Aligned(readSeq, values) && i < |values| && values[i].Some?
    ensures readSeq <= values[i].value.seqNo < readSeq + |values|
    ensures values[i].value.seqNo % |values| == i && values[i].value.seqNo < SEQUENCES
  {}

  lemma TableInWindow(readSeq: nat, values: seq<Option<Assembly>>)
    requires |values| > 0 && readSeq < SEQUENCES && Aligned(readSeq, values)
    ensures InWindow(Inbox(readSeq, Table(readSeq, values)), |values|)
  {
    forall s | s in Table(readSeq, values) ensures s < SEQUENCES && WellSized(Table(readSeq, values)[s], s) {
      SlotHolds(readSeq, values, s);
    }
  }

  /** Writing the slot of s changes the table at s and nowhere else. */
  lemma TableUpdate(readSeq: nat, values: seq<Option<Assembly>>, s: nat, a: Assembly)
    requires |values| > 0 && readSeq <= s < readSeq + |values|
    ensures Table(readSeq, values[s % |values| := Some(a)]) == Table(readSeq, values)[s := a]
  {
    forall t | readSeq <= t < readSeq + |values| && t % |values| == s % |values| ensures t == s {
      if t <= s { OneSlot(t, s, |values|); } else { OneSlot(s, t, |values|); }
    }
  }

  /** Emptying the slot of readSeq and moving on one drops that number from the table. */
  lemma TableAdvance(readSeq: nat, values: seq<Option<Assembly>>)
    requires |values| > 0 && readSeq < SEQUENCES && Aligned(readSeq, values)
    ensures Table((readSeq + 1) % SEQUENCES, values[readSeq % |values| := None]) == Table(readSeq, values) - {readSeq}
    ensures Aligned((readSeq + 1) % SEQUENCES, values[readSeq % |values| := None])
  {
    hide WellSized, Aligned;
    var n := |values|;
    var after := values[readSeq % n := None];
    AdvanceAligned(readSeq, values, after);
    var t, t' := Table(readSeq, values), Table((readSeq + 1) % SEQUENCES, after);
    TableInWindow(readSeq, values);
    forall s | s in t && s != readSeq ensures s in t' && t'[s] == t[s] {
      if s % n == readSeq % n { OneSlot(readSeq, s, n); }
      assert after[s % n].Some?;
      AlignedAt((readSeq + 1) % SEQUENCES, after, s % n);
    }
    forall s | s in t' ensures s in t && s != readSeq {
      SlotHolds((readSeq + 1) % SEQUENCES, after, s);
      AlignedAt(readSeq, values, s % n);
    }
  }

  lemma SlotHolds(readSeq: nat, values: seq<Option<Assembly>>, s: nat)
    requires |values| > 0 && Aligned(readSeq, values) && readSeq <= s < readSeq + |values| && values[s % |values|].Some?
    ensures values[s % |values|].value.seqNo == s
  {
    hide WellSized;
    var a := values[s % |values|].value;
    if a.seqNo <= s { OneSlot(a.seqNo, s, |values|); } else { OneSlot(s, a.seqNo, |values|); }
  }

  lemma AdvanceAligned(readSeq: nat, values: seq<Option<Assembly>>, after: seq<Option<Assembly>>)
    requires |values| > 0 && readSeq < SEQUENCES && Aligned(readSeq, values)
    requires after == values[readSeq % |values| := None]
    ensures Aligned((readSeq + 1) % SEQUENCES, after)
    ensures readSeq == SEQUENCES - 1 ==> forall i :: 0 <= i < |after| ==> after[i].None?
    ensures forall i :: 0 <= i < |values| && i != readSeq % |values| && values[i].Some? ==> readSeq < values[i].value.seqNo
  {
    hide WellSized;
    forall i | 0 <= i < |values| && i != readSeq % |values| && values[i].Some? ensures readSeq < values[i].value.seqNo {
      assert values[i].value.seqNo != readSeq;
    }
  }

  lemma EmptyTable(readSeq: nat, values: seq<Option<Assembly>>)
    requires |values| > 0 && forall i :: 0 <= i < |values| ==> values[i].None?
    ensures Table(readSeq, values) == map[]
  {}

  datatype Message = Message(kind: Byte, body: seq<Byte>, raw: seq<Byte>)

  datatype Handled = Processed | Discarded | Refused(alert: AlertDesc)

  class HandshakeReceiver {
    const slots: array<HmFragment?>
    var readSeq: nat
    var hasMessage: bool
    var hasCcs: bool
    ghost var Repr: set<object>

    ghost predicate SlotOk(i: nat)
      requires i < slots.Length && slots[i] != null
      reads this, slots, slots[i], slots[i].reassembly, slots[i].data
    {
      var f := slots[i];
      && f.Valid()
      && this !in f.Own && slots !in f.Own
      && f.seqNo % slots.Length == i
      && readSeq <= f.seqNo < readSeq + slots.Length && f.seqNo < SEQUENCES
      && f.data[..HM_HEADER] == HeaderBytes(f.kind, f.msgLen, f.seqNo, 0, f.msgLen)
    }

    ghost predicate Valid()
      reads this, Repr
    {
      RingOk() && (hasMessage ==> CurrentComplete())
    }

    ghost predicate RingOk()
      reads this, Repr
    {
      && this in Repr && slots in Repr
      && 0 < slots.Length < 256 && readSeq < SEQUENCES
      && (forall i :: 0 <= i < slots.Length && slots[i] != null ==>
            slots[i] in Repr && slots[i].Own <= Repr && slots[i].data in Repr
            && (slots[i].reassembly != null ==> slots[i].reassembly in Repr)
            && SlotOk(i))
      && (forall i, j :: 0 <= i < j < slots.Length && slots[i] != null && slots[j] != null ==>
            slots[i].Own !! slots[j].Own)
    }

    /** dtls1_is_current_message_complete. */
    predicate CurrentComplete()
      requires slots.Length > 0
      reads this, slots, slots[readSeq % slots.Length]
    {
      var frag := slots[readSeq % slots.Length];
      frag != null && frag.reassembly == null
    }

    ghost function SlotValue(i: nat): Option<Assembly>
      requires RingOk() && i < slots.Length
      reads this, Repr
    {
      if slots[i] == null then None else Some(slots[i].Value())
    }

    ghost function Values(): (v: seq<Option<Assembly>>)
      requires RingOk()
      reads this, Repr
      ensures |v| == slots.Length
    {
      seq(slots.Length, i requires 0 <= i < slots.Length && RingOk() reads this, Repr => SlotValue(i))
    }

    lemma ValuesAligned()
      requires RingOk()
      ensures Aligned(readSeq, Values())
    {
      forall i | 0 <= i < slots.Length && Values()[i].Some?
        ensures Values()[i].value.seqNo % slots.Length == i
                && readSeq <= Values()[i].value.seqNo < readSeq + slots.Length && Values()[i].value.seqNo < SEQUENCES
                && WellSized(Values()[i].value, Values()[i].value.seqNo)
      {
        assert SlotOk(i);
      }
    }

    /** The ring read as a table of messages by number. */
    ghost function Contents(): (st: Inbox)
      requires RingOk()
      reads this, Repr
      ensures InWindow(st, slots.Length) && st.readSeq == readSeq
      ensures Ready(st) <==> CurrentComplete()
    {
      ValuesAligned();
      TableInWindow(readSeq, Values());
      assert Values()[readSeq % slots.Length] == SlotValue(readSeq % slots.Length);
      Inbox(readSeq, Table(readSeq, Values()))
    }

    constructor (flight: nat)
      requires 0 < flight < 256
      ensures Valid() && fresh(Repr) && slots.Length == flight
      ensures Contents() == Inbox(0, map[]) && !hasMessage && !hasCcs
    {
      slots := new HmFragment?[flight](_ => null);
      readSeq, hasMessage, hasCcs := 0, false, false;
      new;
      hide HeaderBytes, Table, NothingBeyond, BitAt;
      Repr := {this, slots};
      EmptyTable(readSeq, Values());
    }

    /** A new message in an empty slot. */
    method FillSlot(idx: nat, f: Fragment) returns (frag: HmFragment)
      requires Valid() && readSeq <= f.seqNo < readSeq + slots.Length && f.seqNo < SEQUENCES
      requires idx == f.seqNo % slots.Length && slots[idx] == null
      modifies this`Repr, slots
      ensures Valid() && fresh(Repr - old(Repr))
      ensures frag == slots[idx] && frag.seqNo == f.seqNo && frag.msgLen == f.msgLen
      ensures Values() == old(Values())[idx := Some(Blank(f.kind, f.seqNo, f.msgLen))]
    {
      hide HeaderBytes, NothingBeyond, BitAt;
      frag := new HmFragment(f.kind, f.seqNo, f.msgLen);
      assert frag.data[..] == frag.Value().data;
      slots[idx] := frag;
      Repr := Repr + frag.Own;
      assert forall i :: 0 <= i < slots.Length && slots[i] != null ==> SlotOk(i);
    }

    /** The tail of dtls1_get_incoming_message. */
    method Insert(f: Fragment) returns (frag: HmFragment)
      requires Valid() && readSeq <= f.seqNo < readSeq + slots.Length && f.seqNo < SEQUENCES
      requires slots[f.seqNo % slots.Length] == null
      modifies this`Repr, slots
      ensures Valid() && fresh(Repr - old(Repr))
      ensures frag == slots[f.seqNo % slots.Length] && frag.seqNo == f.seqNo && frag.msgLen == f.msgLen
      ensures Contents() == old(Contents()).(msgs := old(Contents()).msgs[f.seqNo := Blank(f.kind, f.seqNo, f.msgLen)])
    {
      hide HeaderBytes, Table;
      ghost var values := Values();
      frag := FillSlot(f.seqNo % slots.Length, f);
      TableUpdate(readSeq, values, f.seqNo, Blank(f.kind, f.seqNo, f.msgLen));
    }

    /** The memcpy and the mark, on the message in a slot. */
    method AddToSlot(idx: nat, f: Fragment)
      requires Valid() && idx < slots.Length && slots[idx] != null && f.fragOff + |f.body| <= slots[idx].msgLen
      modifies slots[idx].Own
      ensures Valid() && Values() == old(Values())[idx := Some(Merge(old(slots[idx].Value()), f))]
    {
      hide HeaderBytes, Table, NothingBeyond, BitAt;
      var frag := slots[idx];
      ghost var a := frag.Value();
      frag.Add(f);
      assert frag.data[..HM_HEADER] == old(frag.data[..HM_HEADER]) by {
        assert frag.Value().data == Merge(a, f).data;
      }
      assert forall i :: 0 <= i < slots.Length && slots[i] != null ==> SlotOk(i);
    }

    method Absorb(f: Fragment)
      requires Valid() && readSeq <= f.seqNo < readSeq + slots.Length
      requires f.seqNo in Contents().msgs && f.fragOff + |f.body| <= f.msgLen == Contents().msgs[f.seqNo].msgLen
      modifies Repr
      ensures Valid() && Repr == old(Repr)
      ensures readSeq == old(readSeq) && hasMessage == old(hasMessage) && hasCcs == old(hasCcs)
      ensures Contents() == Put(old(Contents()), f.seqNo, Merge(old(Contents()).msgs[f.seqNo], f))
    {
      hide HeaderBytes, Table, Merge;
      var idx := f.seqNo % slots.Length;
      SlotInTable(f.seqNo);
      ghost var values, a := Values(), slots[idx].Value();
      AddToSlot(idx, f);
      TableUpdate(readSeq, values, f.seqNo, Merge(a, f));
    }

    /** dtls1_get_incoming_message: find the message of a fragment, or make room for a new one. */
    method GetIncoming(f: Fragment) returns (alert: Option<AlertDesc>)
      requires Valid() && Fits(f)
      modifies this`Repr, slots
      ensures Valid() && fresh(Repr - old(Repr))
      ensures Outcome(Contents(), alert) == Incoming(old(Contents()), slots.Length, f)
    {
      hide HeaderBytes, Table, BigEndian, Merge;
      if f.seqNo < readSeq || f.seqNo - readSeq >= slots.Length { return Some(InternalError); }
      SlotInTable(f.seqNo);
      var frag := slots[f.seqNo % slots.Length];
      if frag != null {
        assert frag.seqNo == f.seqNo;
        if frag.kind != f.kind || frag.msgLen != f.msgLen { return Some(IllegalParameter); }
        return None;
      }
      var made := Insert(f);
      return None;
    }

    /** One round of the loop of dtls1_open_handshake. */
    method TakeOne(c: Config, f: Fragment) returns (alert: Option<AlertDesc>)
      requires Valid() && c.flight == slots.Length && Fits(f)
      modifies Repr
      ensures Valid() && fresh(Repr - old(Repr))
      ensures readSeq == old(readSeq) && hasMessage == old(hasMessage) && hasCcs == old(hasCcs)
      ensures Outcome(Contents(), alert) == TakeFragment(old(Contents()), c, f)
    {
      hide HeaderBytes, Table, BigEndian, Merge;
      if f.fragOff + |f.body| > f.msgLen || f.msgLen > c.maxLen { return Some(IllegalParameter); }
      if c.encryptedEpoch && f.seqNo != readSeq { return Some(UnexpectedMessage); }
      if f.seqNo < readSeq || f.seqNo > readSeq + slots.Length { return None; }
      alert := GetIncoming(f);
      if alert.None? { Absorb(f); }
    }

    /** The slot of a number in the window holds the message of that number, or none. */
    lemma SlotInTable(s: nat)
      requires RingOk() && readSeq <= s < readSeq + slots.Length
      ensures var f := slots[s % slots.Length];
              if f == null then s !in Contents().msgs
              else f.seqNo == s && s in Contents().msgs && Contents().msgs[s] == f.Value()
    {
      assert Values()[s % slots.Length] == SlotValue(s % slots.Length);
      var f := slots[s % slots.Length];
      if f != null {
        assert SlotOk(s % slots.Length);
        if f.seqNo <= s { OneSlot(f.seqNo, s, slots.Length); } else { OneSlot(s, f.seqNo, slots.Length); }
      }
    }

    /** The loop of dtls1_open_handshake over a handshake record. */
    method TakeAll(c: Config, record: seq<Byte>) returns (alert: Option<AlertDesc>)
      requires Valid() && c.flight == slots.Length
      modifies Repr
      ensures Valid() && fresh(Repr - old(Repr))
      ensures readSeq == old(readSeq) && hasMessage == old(hasMessage) && hasCcs == old(hasCcs)
      ensures Outcome(Contents(), alert) == TakeRecord(old(Contents()), c, record)
    {
      hide TakeFragment, ParseFragment;
      var cbs := record;
      while cbs != []
        invariant Valid() && fresh(Repr - old(Repr))
        invariant readSeq == old(readSeq) && hasMessage == old(hasMessage) && hasCcs == old(hasCcs)
        invariant TakeRecord(Contents(), c, cbs) == TakeRecord(old(Contents()), c, record)
        decreases |cbs|
      {
        var p := ParseFragment(cbs);
        if p.None? { return Some(DecodeError); }
        SerializeOfParse(cbs);
        TakeKeepsWindow(Contents(), c, cbs);
        alert := TakeOne(c, p.value.frag);
        if alert.Some? { return; }
        cbs := p.value.rest;
      }
      return None;
    }

    /** dtls1_open_handshake, on what dtls_open_record gives. */
    method OpenHandshake(c: Config, nullCipher: bool, kind: Byte, record: seq<Byte>) returns (r: Handled)
      requires Valid() && c.flight == slots.Length
      modifies Repr
      ensures Valid() && fresh(Repr - old(Repr)) && readSeq == old(readSeq) && hasMessage == old(hasMessage)
      ensures kind == RT_HANDSHAKE ==>
                var o := TakeRecord(old(Contents()), c, record);
                Contents() == o.inbox && hasCcs == old(hasCcs)
                && r == (if o.alert.None? then Processed else Refused(o.alert.value))
      ensures kind != RT_HANDSHAKE ==>
                Contents() == old(Contents())
                && hasCcs == (old(hasCcs) || (kind == RT_CCS && nullCipher && record == [1]))
                && (r.Processed? <==> kind == RT_CCS && nullCipher && record == [1])
                && (r.Discarded? <==> kind == RT_APPLICATION && !nullCipher)
                && (r.Refused? ==> r.alert == if kind == RT_CCS && nullCipher then IllegalParameter else UnexpectedMessage)
    {
      if kind == RT_APPLICATION {
        return if nullCipher then Refused(UnexpectedMessage) else Discarded;
      } else if kind == RT_CCS {
        if !nullCipher { return Refused(UnexpectedMessage); }
        if |record| != 1 || record[0] != 1 { return Refused(IllegalParameter); }
        ghost var before := Values();
        hasCcs := true;
        assert Values() == before;
        return Processed;
      } else if kind != RT_HANDSHAKE {
        return Refused(UnexpectedMessage);
      }
      var alert := TakeAll(c, record);
      r := if alert.None? then Processed else Refused(alert.value);
    }

    /** The flag is used up by dtls1_open_change_cipher_spec. */
    method ClearCcs()
      requires Valid()
      modifies this`hasCcs
      ensures Valid() && Contents() == old(Contents()) && !hasCcs
    {
      hide HeaderBytes;
      ghost var before := Values();
      hasCcs := false;
      assert Values() == before;
    }

    /** dtls1_get_message. */
    method GetMessage() returns (m: Option<Message>)
      requires Valid()
      modifies this`hasMessage
      ensures Valid() && Contents() == old(Contents()) && hasMessage == (old(hasMessage) || m.Some?)
      ensures m.Some? <==> Ready(Contents())
      ensures m.Some? ==>
                var a := Contents().msgs[readSeq];
                m.value.raw == a.data && |a.data| >= HM_HEADER && m.value.body == a.data[HM_HEADER..]
                  && m.value.kind == a.kind
    {
      hide HeaderBytes;
      var complete := CurrentComplete();
      if !complete { return None; }
      var frag := slots[readSeq % slots.Length];
      SlotInTable(readSeq);
      assert frag.data[..] == frag.Value().data;
      ghost var before := Values();
      hasMessage := true;
      assert Values() == before;
      return Some(Message(frag.kind, frag.data[HM_HEADER..], frag.data[..]));
    }

    /** Free the slot of the current message. */
    method ResetSlot(index: nat)
      requires RingOk() && index < slots.Length
      modifies slots
      ensures RingOk() && Values() == old(Values())[index := None]
    {
      hide HeaderBytes;
      slots[index] := null;
      assert forall i :: 0 <= i < slots.Length && slots[i] != null ==> SlotOk(i);
    }

    /** dtls1_next_message. */
    method NextMessage()
      requires Valid() && hasMessage
      modifies this, slots
      ensures Valid() && Repr == old(Repr) && !hasMessage && hasCcs == old(hasCcs)
      ensures Contents() == Advance(old(Contents()))
    {
      hide HeaderBytes, Table, Aligned;
      var index := readSeq % slots.Length;
      ghost var before := Values();
      ValuesAligned();
      ResetSlot(index);
      ghost var after := Values();
      AdvanceAligned(readSeq, before, after);
      TableAdvance(readSeq, before);
      MoveOn();
      hasMessage := false;
      assert Values() == after;
    }

    /** `handshake_read_seq++`, with nothing buffered outside the window that then starts. */
    method MoveOn()
      requires RingOk() && Aligned((readSeq + 1) % SEQUENCES, Values())
      modifies this`readSeq
      ensures RingOk() && Values() == old(Values()) && readSeq == (old(readSeq) + 1) % SEQUENCES
    {
      hide HeaderBytes, Aligned;
      ghost var values := Values();
      forall i | 0 <= i < slots.Length && slots[i] != null
        ensures values[i] == Some(slots[i].Value()) && (readSeq + 1) % SEQUENCES <= slots[i].seqNo < (readSeq + 1) % SEQUENCES + slots.Length
      {
        AlignedAt((readSeq + 1) % SEQUENCES, values, i);
      }
      readSeq := (readSeq + 1) % SEQUENCES;
      assert Values() == values;
    }

    /** Get the current message and move on to the next. */
    method Take() returns (m: Option<Message>)
      requires Valid()
      modifies this, slots
      ensures Valid() && Repr == old(Repr) && hasCcs == old(hasCcs)
      ensures m.Some? <==> Ready(old(Contents()))
      ensures m.None? ==> Contents() == old(Contents())
      ensures m.Some? ==>
                var a := old(Contents()).msgs[old(readSeq)];
                && Contents() == Advance(old(Contents())) && |m.value.raw| >= HM_HEADER
                && m.value.raw == a.data && m.value.body == a.data[HM_HEADER..] && m.value.kind == a.kind
    {
      hide RingOk, Contents;
      m := GetMessage();
      if m.Some? { NextMessage(); }
    }

    /** dtls_has_unprocessed_handshake_data. */
    method HasUnprocessed() returns (some: bool)
      requires Valid()
      ensures !some <==> !hasCcs && Contents().msgs.Keys <= (if hasMessage then {readSeq} else {})
    {
      hide HeaderBytes, Table, NothingBeyond, BitAt;
      if hasCcs { return true; }
      var current := readSeq % slots.Length;
      var i := 0;
      while i < slots.Length
        invariant 0 <= i <= slots.Length
        invariant forall k :: 0 <= k < i && slots[k] != null ==> hasMessage && k == current
      {
        if hasMessage && i == current {
        } else if slots[i] != null {
          assert SlotOk(i);
          SlotInTable(slots[i].seqNo);
          assert slots[i].seqNo in Contents().msgs.Keys;
          return true;
        }
        i := i + 1;
      }
      forall s | s in Contents().msgs ensures hasMessage && s == readSeq {
        SlotInTable(s);
        if readSeq <= s { OneSlot(readSeq, s, slots.Length); }
      }
      return false;
    }
  }
}
