/** Fields of which no record arrives: pb_decode refuses the message if one of the first 64 required fields is among
    them, and leaves the others at their defaults. */
module Missing {
  import opened Bits
  import opened Descriptor
  import opened EncodeSpec
  import opened DecodeSpec
  import opened WireFormat
  import opened Merge
  import RoundTrip
  import Spelling

  // ---- Required fields ----

  predicate Arrives(number: nat, rs: seq<RawRecord>) { exists k :: 0 <= k < |rs| && rs[k].number == number }

  /** What a record of the field notes: required fields are numbered, and the first 64 are kept track of. */
  function Noted(fields: seq<Field>, number: nat): set<nat>
  {
    var i := FindFrom(fields, 0, number);
    if i.Some? && fields[i.value].htype == Required && RequiredBefore(fields, i.value) < 64
    then {RequiredBefore(fields, i.value)} else {}
  }

  lemma PackedNotes(f: Field, i: nat, st: State, b: seq<Byte>)
    requires MergePacked(f, i, st, b).Some?
    ensures MergePacked(f, i, st, b).value.seen == st.seen
    decreases |b|
  {
    hide ReadPayload, IntegerOf;
    if b != [] {
      var p := ReadPayload(Spelling.Kind(f), b);
      PackedNotes(f, i, Append(f, i, st, Int(IntegerOf(f, p.value).value)), p.rest);
    }
  }

  lemma RecordNotes(fields: seq<Field>, st: State, r: RawRecord)
    requires MergeRecord(fields, st, r).Some?
    ensures MergeRecord(fields, st, r).value.seen == st.seen + Noted(fields, r.number)
  {
    hide EntryOf, MergePacked, RequiredBefore;
    var i := FindFrom(fields, 0, r.number);
    if i.Some? {
      var f, e := fields[i.value], Enter(fields, i.value, st).value;
      if f.htype == Repeated && Packable(f) && r.payload.Contents? { PackedNotes(f, i.value, e, r.payload.b); }
    }
  }

  lemma {:induction false} AllNotes(fields: seq<Field>, st: State, rs: seq<RawRecord>, n: nat)
    requires MergeAll(fields, st, rs).Some?
    ensures n in MergeAll(fields, st, rs).value.seen
        <==> n in st.seen || exists k :: 0 <= k < |rs| && n in Noted(fields, rs[k].number)
    decreases |rs|
  {
    hide MergeRecord, Noted;
    if rs != [] {
      var st' := MergeRecord(fields, st, rs[0]).value;
      RecordNotes(fields, st, rs[0]);
      AllNotes(fields, st', rs[1..], n);
      if k :| 0 <= k < |rs| - 1 && n in Noted(fields, rs[1..][k].number) { assert n in Noted(fields, rs[k + 1].number); }
      if k :| 0 <= k < |rs| && n in Noted(fields, rs[k].number) && k > 0 {
        assert n in Noted(fields, rs[1..][k - 1].number);
      }
    }
  }

  lemma {:induction false} RequiredGrows(fields: seq<Field>, i: nat, j: nat)
    requires i < j <= |fields|
    ensures RequiredBefore(fields, i) + (if fields[i].htype == Required then 1 else 0) <= RequiredBefore(fields, j)
    decreases j
  {
    if i < j - 1 { RequiredGrows(fields, i, j - 1); }
  }

  /** No required field counts as missing exactly when each of the first 64 has a record. */
  lemma RequiredArrive(fields: seq<Field>, m: Msg, rs: seq<RawRecord>)
    requires WellFormed(fields) && MergeAll(fields, State(m, {}, None, 0), rs).Some?
    ensures AllSeen(fields, MergeAll(fields, State(m, {}, None, 0), rs).value.seen)
        <==> forall j :: 0 <= j < |fields| && fields[j].htype == Required && RequiredBefore(fields, j) < 64
               ==> Arrives(fields[j].tag, rs)
  {
    hide MergeAll, RequiredBefore, WellFormed;
    var seen := MergeAll(fields, State(m, {}, None, 0), rs).value.seen;
    if AllSeen(fields, seen) {
      forall j | 0 <= j < |fields| && fields[j].htype == Required && RequiredBefore(fields, j) < 64
        ensures Arrives(fields[j].tag, rs)
      {
        RequiredGrows(fields, j, |fields|);
        AllNotes(fields, State(m, {}, None, 0), rs, RequiredBefore(fields, j));
        var k :| 0 <= k < |rs| && RequiredBefore(fields, j) in Noted(fields, rs[k].number);
        var i := FindFrom(fields, 0, rs[k].number).value;
        if i < j { RequiredGrows(fields, i, j); }
        if j < i { RequiredGrows(fields, j, i); }
        assert rs[k].number == fields[j].tag;
      }
    }
    if forall j :: 0 <= j < |fields| && fields[j].htype == Required && RequiredBefore(fields, j) < 64
         ==> Arrives(fields[j].tag, rs) {
      forall n | 0 <= n < RequiredBefore(fields, |fields|) && n < PB_MAX_REQUIRED_FIELDS ensures n in seen {
        var j := RoundTrip.RequiredAt(fields, |fields|, n);
        assert Arrives(fields[j].tag, rs);
        var k :| 0 <= k < |rs| && rs[k].number == fields[j].tag;
        RoundTrip.FindTag(fields, 0, j);
        assert n in Noted(fields, rs[k].number);
        AllNotes(fields, State(m, {}, None, 0), rs, n);
      }
    }
  }

  // ---- Fields without a record ----

  /** All bytes of the entry are zero. */
  predicate AllZero(f: Field, v: Value)
  {
    match v
    case Int(i) => i == 0
    case Bytes(b) => b == []
    case Chars(mem) => |mem| == f.dataSize && forall k :: 0 <= k < |mem| ==> mem[k] == 0
    case Inline(raw) => |raw| == f.dataSize && forall k :: 0 <= k < |raw| ==> raw[k] == 0
    case Sub(m) => false
  }

  /** The slot that was `was` holds the field's default: no has_ flag, and the value from the descriptor or else
      zero; an array is empty, and the memory of a union is as it was. */
  predicate HoldsDefault(f: Field, was: Slot, slot: Slot)
  {
    match f.htype
    case Oneof => slot == was
    case Repeated => !FixedCount(f) ==> slot == Slot(was.has, 0, was.items)
    case _ =>
      && !slot.has
      && if f.ptr.SubFields? then Item(slot, 0) == Sub(Defaults(f.ptr.fields, SubOf(Item(was, 0))))
         else if f.ptr.Default? then Item(slot, 0) == f.ptr.value else AllZero(f, Item(slot, 0))
  }

  lemma DefaultHolds(f: Field, was: Slot)
    requires WellFormedField(f) && ShapedSlot(f, was)
    ensures HoldsDefault(f, was, DefaultSlot(f, was))
  {
    hide Defaults, ClearItems;
  }

  lemma {:induction false} PackedKeeps(f: Field, i: nat, st: State, b: seq<Byte>, j: nat)
    requires MergePacked(f, i, st, b).Some? && i != j
    ensures SlotOf(MergePacked(f, i, st, b).value.m, j) == SlotOf(st.m, j)
    ensures MergePacked(f, i, st, b).value.m.which == st.m.which
    decreases |b|
  {
    hide ReadPayload, IntegerOf;
    if b != [] {
      var p := ReadPayload(Spelling.Kind(f), b);
      PackedKeeps(f, i, Append(f, i, st, Int(IntegerOf(f, p.value).value)), p.rest, j);
    }
  }

  /** A record of another field leaves field j alone and does not select it. */
  lemma RecordKeeps(fields: seq<Field>, st: State, r: RawRecord, j: nat)
    requires MergeRecord(fields, st, r).Some? && j < |fields| && r.number != fields[j].tag
    ensures var m := MergeRecord(fields, st, r).value.m;
            && SlotOf(m, j) == SlotOf(st.m, j)
            && Which(m, SizePos(fields, j)) in {Which(st.m, SizePos(fields, j)), r.number}
  {
    hide EntryOf, MergePacked, RequiredBefore, SizePos;
    var i := FindFrom(fields, 0, r.number);
    if i.Some? {
      var f, e := fields[i.value], Enter(fields, i.value, st).value;
      if f.htype == Repeated && Packable(f) && r.payload.Contents? { PackedKeeps(f, i.value, e, r.payload.b, j); }
    }
  }

  lemma {:induction false} AllKeep(fields: seq<Field>, st: State, rs: seq<RawRecord>, j: nat)
    requires MergeAll(fields, st, rs).Some? && j < |fields| && !Arrives(fields[j].tag, rs)
    requires Which(st.m, SizePos(fields, j)) != fields[j].tag
    ensures var m := MergeAll(fields, st, rs).value.m;
            SlotOf(m, j) == SlotOf(st.m, j) && Which(m, SizePos(fields, j)) != fields[j].tag
    decreases |rs|
  {
    hide MergeRecord, SizePos;
    if rs != [] {
      assert rs[0].number != fields[j].tag;
      assert !Arrives(fields[j].tag, rs[1..]) by {
        assert forall k :: 0 <= k < |rs| - 1 ==> rs[1..][k] == rs[k + 1];
      }
      RecordKeeps(fields, st, rs[0], j);
      AllKeep(fields, MergeRecord(fields, st, rs[0]).value, rs[1..], j);
    }
  }

  /** A field of which no record arrives holds its default, and no union selects it. */
  lemma AbsentIsDefault(fields: seq<Field>, dest: Msg, s: seq<Byte>, j: nat)
    requires WellFormed(fields) && Shaped(fields, dest) && Parse(s).Some? && Matched(fields, Parse(s).value)
    requires j < |fields| && !Arrives(fields[j].tag, Parse(s).value) && Decode(fields, dest, s).Ok?
    ensures HoldsDefault(fields[j], dest.slots[j], SlotOf(Decode(fields, dest, s).value, j))
    ensures fields[j].htype == Oneof ==> Which(Decode(fields, dest, s).value, SizePos(fields, j)) != fields[j].tag
  {
    var d, rs := Defaults(fields, dest), Parse(s).value;
    DefaultHolds(fields[j], dest.slots[j]) by { assert ShapedSlot(fields[j], dest.slots[j]) && WellFormedField(fields[j]); }
    assert fields[j].tag > 0 by { assert WellFormedField(fields[j]); }
    hide MergeAll, Arrives, SizePos, HoldsDefault, DefaultSlot, Loop, Parse, Matched, WellFormed, Shaped;
    MessageReads(fields, d, s);
    AllKeep(fields, State(d, {}, None, 0), rs, j);
    assert SlotOf(d, j) == DefaultSlot(fields[j], dest.slots[j]);
  }
}
