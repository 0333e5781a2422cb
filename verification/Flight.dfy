/** A flight of DTLS handshake messages and the ways of cutting it into records. */
module Flight {
  import opened Bits
  import opened Wire

  /** DTLS_OUTGOING_MESSAGE. */
  datatype Outgoing = Outgoing(isCcs: bool, epoch: nat, data: seq<Byte>)

  /** The plaintext of one record: a ChangeCipherSpec or one fragment. */
  datatype Sent = SentCcs | SentFragment(frag: Fragment)

  /** outgoing_written and outgoing_offset. */
  datatype Cursor = Cursor(written: nat, offset: nat)

  const START := Cursor(0, 0)

  predicate Before(a: Cursor, b: Cursor)
  {
    a.written < b.written || (a.written == b.written && a.offset < b.offset)
  }

  /** The bytes are one handshake message in a single fragment. */
  predicate Whole(data: seq<Byte>)
  {
    var p := ParseFragment(data);
    p.Some? && p.value.rest == [] && p.value.frag.fragOff == 0 && p.value.frag.msgLen == |p.value.frag.body|
  }

  function Unfragmented(data: seq<Byte>): Fragment
    requires Whole(data)
  {
    ParseFragment(data).value.frag
  }

  /** The part of a message that starts at `off` and has `len` bytes. */
  function Cut(data: seq<Byte>, off: nat, len: nat): (f: Fragment)
    requires Whole(data) && off + len <= |Unfragmented(data).body|
    ensures |f.body| == len
  {
    var g := Unfragmented(data);
    Fragment(g.kind, g.msgLen, g.seqNo, off, g.body[off..off + len])
  }

  /** A record is some cut of the message. */
  predicate CutOf(f: Fragment, data: seq<Byte>)
  {
    Whole(data) && f.fragOff + |f.body| <= |Unfragmented(data).body| && f == Cut(data, f.fragOff, |f.body|)
  }

  /** Where the cursor goes after a record, if the record is one that may come next. */
  function Follow(flight: seq<Outgoing>, at: Cursor, s: Sent): Option<Cursor>
  {
    if at.written >= |flight| then None
    else
      var m := flight[at.written];
      if m.isCcs then
        if s.SentCcs? && at.offset == 0 then Some(Cursor(at.written + 1, 0)) else None
      else if s.SentFragment? && s.frag.fragOff == at.offset && CutOf(s.frag, m.data) then
        var next := at.offset + |s.frag.body|;
        if next == |Unfragmented(m.data).body| then Some(Cursor(at.written + 1, 0))
        else if s.frag.body != [] then Some(Cursor(at.written, next))
        else None
      else None
  }

  /** Where the cursor goes after a list of records. */
  function FollowAll(flight: seq<Outgoing>, at: Cursor, records: seq<Sent>): Option<Cursor>
  {
    if records == [] then Some(at)
    else
      var prior := FollowAll(flight, at, records[..|records| - 1]);
      if prior.None? then None else Follow(flight, prior.value, records[|records| - 1])
  }

  lemma FollowOneMore(flight: seq<Outgoing>, at: Cursor, records: seq<Sent>, s: Sent)
    requires FollowAll(flight, at, records).Some?
    ensures FollowAll(flight, at, records + [s]) == Follow(flight, FollowAll(flight, at, records).value, s)
  {
    assert (records + [s])[..|records|] == records;
  }

  function Flatten(lists: seq<seq<Sent>>): seq<Sent>
  {
    if lists == [] then [] else Flatten(lists[..|lists| - 1]) + lists[|lists| - 1]
  }

  lemma FlattenNothing()
    ensures Flatten([]) == []
  {}

  lemma FlattenOneMore(lists: seq<seq<Sent>>, list: seq<Sent>)
    ensures Flatten(lists + [list]) == Flatten(lists) + list
  {
    assert (lists + [list])[..|lists|] == lists;
  }

  /** A longer flight changes nothing about what was cut from the shorter one. */
  lemma {:induction false} FollowInLonger(flight: seq<Outgoing>, m: Outgoing, at: Cursor, records: seq<Sent>)
    requires FollowAll(flight, at, records).Some?
    ensures FollowAll(flight + [m], at, records) == FollowAll(flight, at, records)
  {
    if records != [] {
      FollowInLonger(flight, m, at, records[..|records| - 1]);
    }
  }

  lemma {:induction false} PrefixFollows(flight: seq<Outgoing>, at: Cursor, records: seq<Sent>, k: nat)
    requires FollowAll(flight, at, records).Some? && k <= |records|
    ensures FollowAll(flight, at, records[..k]).Some?
  {
    if k < |records| {
      PrefixFollows(flight, at, records[..|records| - 1], k);
      assert records[..|records| - 1][..k] == records[..k];
    } else {
      assert records[..k] == records;
    }
  }

  /** The cursor with which the k-th record of a pass was sealed. */
  function CursorAt(flight: seq<Outgoing>, records: seq<Sent>, k: nat): Cursor
    requires k <= |records|
    requires FollowAll(flight, START, records).Some?
  {
    PrefixFollows(flight, START, records, k);
    FollowAll(flight, START, records[..k]).value
  }

  lemma StepAt(flight: seq<Outgoing>, records: seq<Sent>, k: nat)
    requires k < |records| && FollowAll(flight, START, records).Some?
    ensures Follow(flight, CursorAt(flight, records, k), records[k]) == Some(CursorAt(flight, records, k + 1))
  {
    hide Follow, FollowAll;
    PrefixFollows(flight, START, records, k);
    PrefixFollows(flight, START, records, k + 1);
    assert records[..k + 1] == records[..k] + [records[k]];
    FollowOneMore(flight, START, records[..k], records[k]);
  }

  /** The cursor only moves forward. */
  lemma {:induction false} CursorsIncrease(flight: seq<Outgoing>, records: seq<Sent>, k: nat, l: nat)
    requires k < l <= |records| && FollowAll(flight, START, records).Some?
    ensures Before(CursorAt(flight, records, k), CursorAt(flight, records, l))
    decreases l - k
  {
    hide FollowAll;
    StepAt(flight, records, l - 1);
    if k + 1 < l {
      CursorsIncrease(flight, records, k, l - 1);
    }
  }

  /** The records with which byte b of message i was sealed: fragment k of the pass. */
  predicate Carries(flight: seq<Outgoing>, records: seq<Sent>, k: nat, i: nat, b: nat)
    requires k < |records| && FollowAll(flight, START, records).Some?
  {
    var at := CursorAt(flight, records, k);
    at.written == i && records[k].SentFragment? && at.offset <= b < at.offset + |records[k].frag.body|
  }

  /** Every byte behind the cursor was sealed in exactly one record of the pass. */
  lemma {:induction false} EachByteOnce(flight: seq<Outgoing>, records: seq<Sent>, i: nat, b: nat) returns (k: nat)
    requires FollowAll(flight, START, records).Some?
    requires i < |flight| && !flight[i].isCcs && Whole(flight[i].data) && b < |Unfragmented(flight[i].data).body|
    requires var end := FollowAll(flight, START, records).value; Before(Cursor(i, b), end)
    ensures k < |records| && Carries(flight, records, k, i, b)
    ensures forall l :: 0 <= l < |records| && Carries(flight, records, l, i, b) ==> l == k
  {
    k := SomeRecord(flight, records, i, b);
    forall l | 0 <= l < |records| && Carries(flight, records, l, i, b) ensures l == k {
      if l < k {
        RecordsDisjoint(flight, records, l, k);
      } else if k < l {
        RecordsDisjoint(flight, records, k, l);
      }
    }
  }

  /** Two records of one message in a pass: the later starts where or after the earlier ends. */
  lemma RecordsDisjoint(flight: seq<Outgoing>, records: seq<Sent>, k: nat, l: nat)
    requires k < l < |records| && FollowAll(flight, START, records).Some?
    requires CursorAt(flight, records, k).written == CursorAt(flight, records, l).written
    ensures records[k].SentFragment?
    ensures CursorAt(flight, records, k).offset + |records[k].frag.body| <= CursorAt(flight, records, l).offset
  {
    hide FollowAll;
    StepAt(flight, records, k);
    if k + 1 < l {
      CursorsIncrease(flight, records, k + 1, l);
    }
  }

  lemma {:induction false} SomeRecord(flight: seq<Outgoing>, records: seq<Sent>, i: nat, b: nat) returns (k: nat)
    requires FollowAll(flight, START, records).Some?
    requires i < |flight| && !flight[i].isCcs && Whole(flight[i].data) && b < |Unfragmented(flight[i].data).body|
    requires var end := FollowAll(flight, START, records).value; Before(Cursor(i, b), end)
    ensures k < |records| && Carries(flight, records, k, i, b)
  {
    hide ParseFragment;
    var n := |records|;
    assert records != [];
    var before := records[..n - 1];
    PrefixFollows(flight, START, records, n - 1);
    var at := FollowAll(flight, START, before).value;
    assert CursorAt(flight, records, n - 1) == at;
    if Before(Cursor(i, b), at) {
      k := SomeRecord(flight, before, i, b);
      assert before[..k] == records[..k];
    } else {
      k := n - 1;
    }
  }

  /** Every message behind the cursor was started, and one without a body took exactly one record. */
  lemma {:induction false} EachMessageStarts(flight: seq<Outgoing>, records: seq<Sent>, i: nat) returns (k: nat)
    requires FollowAll(flight, START, records).Some? && i < FollowAll(flight, START, records).value.written
    requires i < |flight|
    ensures k < |records| && CursorAt(flight, records, k) == Cursor(i, 0)
    ensures (flight[i].isCcs <==> records[k].SentCcs?)
    ensures flight[i].isCcs || (Whole(flight[i].data) && Unfragmented(flight[i].data).body == []) ==>
              forall l :: 0 <= l < |records| && CursorAt(flight, records, l).written == i ==> l == k
  {
    k := FirstRecord(flight, records, i);
    StepAt(flight, records, k);
    forall l | 0 <= l < |records| && CursorAt(flight, records, l).written == i
      && CursorAt(flight, records, k + 1).written == i + 1
      ensures l == k
    {
      if l < k { CursorsIncrease(flight, records, l, k); }
      else if k + 1 < l { CursorsIncrease(flight, records, k + 1, l); }
    }
  }

  lemma {:induction false} FirstRecord(flight: seq<Outgoing>, records: seq<Sent>, i: nat) returns (k: nat)
    requires FollowAll(flight, START, records).Some?
    requires i < |flight| && Before(Cursor(i, 0), FollowAll(flight, START, records).value)
    ensures k < |records| && CursorAt(flight, records, k) == Cursor(i, 0)
  {
    var n := |records|;
    assert records != [];
    var before := records[..n - 1];
    PrefixFollows(flight, START, records, n - 1);
    var at := FollowAll(flight, START, before).value;
    assert CursorAt(flight, records, n - 1) == at;
    if Before(Cursor(i, 0), at) {
      k := FirstRecord(flight, before, i);
      assert before[..k] == records[..k];
    } else {
      k := n - 1;
    }
  }
}
