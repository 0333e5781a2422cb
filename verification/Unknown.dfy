/** Fields the descriptor does not have: pb_decode reads over their records, whatever is in them. */
module Unknown {
  import opened Bits
  import opened Descriptor
  import opened Varint
  import opened EncodeSpec
  import opened DecodeSpec
  import opened Equality
  import opened WireFormat
  import opened Overlong
  import opened Merge
  import RoundTrip

  predicate Declared(fields: seq<Field>, number: nat)
  {
    exists i :: 0 <= i < |fields| && fields[i].tag == number
  }

  // ---- Reading over one payload ----

  /** p is a varint: its last byte and no other is below 0x80. */
  predicate IsVarint(p: seq<Byte>)
  {
    p != [] && p[|p| - 1] < 0x80 && forall k :: 0 <= k < |p| - 1 ==> p[k] >= 0x80
  }

  /** p is a whole payload of the wire type: a varint of any length, eight or four bytes, or contents of less than
      2^32 bytes behind their length. */
  predicate Complete(wireType: nat, p: seq<Byte>)
  {
    match wireType
    case 0 => IsVarint(p)
    case 1 => |p| == 8
    case 2 =>
      var n := ReadVarint(p, 10);
      n.Ok? && n.value == |n.rest| < 0x1_0000_0000
    case 5 => |p| == 4
    case _ => false
  }

  lemma {:induction false} SkipsVarint(p: seq<Byte>, rest: seq<Byte>)
    requires IsVarint(p)
    ensures SkipVarint(p + rest) == Ok((), rest)
    decreases |p|
  {
    assert (p + rest)[1..] == p[1..] + rest;
    if p[0] >= 0x80 {
      SkipsVarint(p[1..], rest);
    } else {
      assert p[1..] + rest == rest;
    }
  }

  lemma CompleteSkips(wireType: nat, p: seq<Byte>, rest: seq<Byte>)
    requires Complete(wireType, p)
    ensures SkipField(wireType, p + rest) == Ok((), rest)
  {
    hide SkipVarint, ReadVarint, Decode32, IsVarint;
    if wireType == 0 {
      SkipsVarint(p, rest);
    } else if wireType == 2 {
      MoreVarint(p, 10, rest);
      Decode32Any(p + rest);
      var c := ReadVarint(p, 10).rest;
      assert (c + rest)[|c|..] == rest;
    } else {
      assert (p + rest)[|p|..] == rest;
    }
  }

  /** A record of a field the descriptor does not have is read over: the key in any form, then the payload. */
  lemma SkipLaw(fields: seq<Field>, st: State, key: seq<Byte>, number: nat, wireType: nat, p: seq<Byte>, rest: seq<Byte>)
    requires 0 < number < 0x2000_0000 && !Declared(fields, number)
    requires ReadVarint(key, 10) == Ok(8 * number + wireType, []) && Complete(wireType, p)
    ensures Loop(fields, st, key + p + rest) == Loop(fields, st, rest)
  {
    hide ReadVarint, Decode32, SkipField, Complete, Declared;
    assert wireType < 8 by { WireTypes(wireType, p); }
    assert key + p + rest == key + (p + rest);
    assert [] + (p + rest) == p + rest;
    MoreVarint(key, 10, p + rest);
    Decode32Any(key + (p + rest));
    CompleteSkips(wireType, p, rest);
    NotFound(fields, number);
    assert key != [] by { NoKey(8 * number + wireType); }
  }

  lemma WireTypes(wireType: nat, p: seq<Byte>)
    requires Complete(wireType, p)
    ensures wireType < 8
  {}

  lemma NoKey(v: nat)
    ensures ReadVarint([], 10) != Ok(v, [])
  {}

  lemma NotFound(fields: seq<Field>, number: nat)
    requires !Declared(fields, number)
    ensures FindFrom(fields, 0, number).None?
  {
    assert forall i :: 0 <= i < |fields| ==> fields[i].tag != number;
  }

  /** No byte of s ends a varint. */
  predicate Endless(s: seq<Byte>) { forall k :: 0 <= k < |s| ==> s[k] >= 0x80 }

  lemma {:induction false} SkipVarintExactly(s: seq<Byte>)
    ensures var r := SkipVarint(s);
            if r.Ok? then IsVarint(s[..|s| - |r.rest|]) && s[|s| - |r.rest|..] == r.rest else Endless(s)
  {
    if s != [] && s[0] >= 0x80 {
      SkipVarintExactly(s[1..]);
      var r := SkipVarint(s[1..]);
      if r.Ok? {
        var n := |s| - |r.rest|;
        assert s[..n] == [s[0]] + s[1..][..n - 1] && s[n..] == s[1..][n - 1..];
      }
    }
  }

  /** pb_skip_field succeeds exactly on a payload that is all there, and stops behind it; its length is read as the
      32-bit reader reads it. */
  lemma SkipExactly(wireType: nat, s: seq<Byte>)
    ensures var r := SkipField(wireType, s);
            if r.Ok? then
              var n := |s| - |r.rest|;
              && s[n..] == r.rest && wireType in {0, 1, 2, 5}
              && (wireType == 0 ==> IsVarint(s[..n])) && (wireType == 1 ==> n == 8) && (wireType == 5 ==> n == 4)
              && (wireType == 2 ==> Decode32(s).Ok? && |Decode32(s).rest| - |r.rest| == Decode32(s).value)
            else
              && (wireType == 0 ==> Endless(s)) && (wireType == 1 ==> |s| < 8) && (wireType == 5 ==> |s| < 4)
              && (wireType == 2 ==> Decode32(s).Fail? || |Decode32(s).rest| < Decode32(s).value)
  {
    hide IsVarint, Endless, SkipVarint, Decode32From;
    SkipVarintExactly(s);
    if wireType == 2 { Decode32Leaves(s); }
  }

  lemma {:induction false} Decode32FromLeaves(s: seq<Byte>, bitpos: nat, acc: nat)
    requires Decode32From(s, bitpos, acc).Ok?
    ensures var r := Decode32From(s, bitpos, acc).rest; |r| <= |s| && s[|s| - |r|..] == r
    decreases |s|
  {
    hide Or32, Overflows32;
    if s[0] >= 0x80 { Decode32FromLeaves(s[1..], NextBitpos(bitpos), Or32(s[0], bitpos, acc)); }
  }

  lemma Decode32Leaves(s: seq<Byte>)
    ensures Decode32(s).Ok? ==> s[|s| - |Decode32(s).rest|..] == Decode32(s).rest
  {
    hide Decode32From;
    if s != [] && s[0] >= 0x80 && Decode32(s).Ok? { Decode32FromLeaves(s[1..], 7, s[0] % 0x80); }
  }

  // ---- Records of unknown fields anywhere in a message ----

  /** The records whose fields the descriptor has. */
  function Known(fields: seq<Field>, rs: seq<RawRecord>): seq<RawRecord>
  {
    if rs == [] then []
    else if Declared(fields, rs[0].number) then [rs[0]] + Known(fields, rs[1..])
    else Known(fields, rs[1..])
  }

  lemma {:induction false} MergeKnown(fields: seq<Field>, st: State, rs: seq<RawRecord>)
    ensures MergeAll(fields, st, rs) == MergeAll(fields, st, Known(fields, rs))
    decreases |rs|
  {
    hide MergeRecord, Declared;
    if rs != [] {
      if Declared(fields, rs[0].number) {
        var st' := MergeRecord(fields, st, rs[0]);
        assert ([rs[0]] + Known(fields, rs[1..]))[1..] == Known(fields, rs[1..]);
        if st'.Some? { MergeKnown(fields, st'.value, rs[1..]); }
      } else {
        UnknownRecord(fields, st, rs[0]);
        MergeKnown(fields, st, rs[1..]);
      }
    }
  }

  lemma UnknownRecord(fields: seq<Field>, st: State, r: RawRecord)
    requires !Declared(fields, r.number)
    ensures MergeRecord(fields, st, r) == Some(st)
  {
    NotFound(fields, r.number);
  }

  /** Two inputs with the same records of known fields, in the same order, are decoded to the same message or
      both refused. */
  lemma UnknownIgnored(fields: seq<Field>, dest: Msg, s: seq<Byte>, s': seq<Byte>)
    requires WellFormed(fields) && Parse(s).Some? && Parse(s').Some?
    requires Matched(fields, Parse(s).value) && Matched(fields, Parse(s').value)
    requires Known(fields, Parse(s).value) == Known(fields, Parse(s').value)
    ensures Decode(fields, dest, s) == Decode(fields, dest, s')
  {
    hide Known, Loop, Matched, Defaults, Parse, MergeAll;
    var m := Defaults(fields, dest);
    MessageReads(fields, m, s);
    MessageReads(fields, m, s');
    MergeKnown(fields, State(m, {}, None, 0), Parse(s).value);
    MergeKnown(fields, State(m, {}, None, 0), Parse(s').value);
  }

  // ---- Unknown fields between the fields of an encoding ----

  /** u is records of fields that the descriptor does not have. */
  predicate Unlisted(fields: seq<Field>, u: seq<Byte>)
  {
    Parse(u).Some? && forall k :: 0 <= k < |Parse(u).value| ==> Foreign(fields, Parse(u).value[k])
  }

  predicate Foreign(fields: seq<Field>, r: RawRecord)
  {
    !Declared(fields, r.number) && (r.payload.Contents? ==> |r.payload.b| < 0x1_0000_0000)
  }

  lemma {:induction false} SkipsUnlisted(fields: seq<Field>, st: State, u: seq<Byte>, rest: seq<Byte>)
    requires WellFormed(fields) && Unlisted(fields, u)
    ensures Loop(fields, st, u + rest) == Loop(fields, st, rest)
    decreases |u|
  {
    hide ReadRecord, MergeRecord, Loop, Declared, WellFormed;
    if u == [] {
      assert u + rest == rest;
    } else {
      var r, rs := ReadRecord(u), Parse(u).value;
      assert rs[0] == r.value && rs[1..] == Parse(r.rest).value;
      MoreRecord(u, rest);
      assert Foreign(fields, rs[0]);
      assert Matches(fields, r.value) by { ForeignMatches(fields, r.value); }
      RecordReads(fields, st, u + rest);
      UnknownRecord(fields, st, r.value);
      forall k | 0 <= k < |rs| - 1 ensures Foreign(fields, rs[1..][k]) { assert Foreign(fields, rs[k + 1]); }
      SkipsUnlisted(fields, st, r.rest, rest);
    }
  }

  lemma ForeignMatches(fields: seq<Field>, r: RawRecord)
    requires Foreign(fields, r)
    ensures Matches(fields, r)
  {}

  /** The encoding of m from field i on, with us[j] before field j and the last of us behind all fields. */
  function Strewn(fields: seq<Field>, i: nat, m: Msg, us: seq<seq<Byte>>): seq<Byte>
    requires i <= |fields| && |us| == |fields| + 1
    decreases |fields| - i
  {
    if i == |fields| then us[i]
    else
      var e := EncodeField(fields, i, m);
      us[i] + ((if e.Some? then e.value else []) + Strewn(fields, i + 1, m, us))
  }

  lemma {:induction false} StrewnRoundTrip(fields: seq<Field>, i: nat, m: Msg, d: Msg, st: State, us: seq<seq<Byte>>)
    returns (st': State)
    requires WellFormed(fields) && Shaped(fields, m) && Fresh(fields, d) && i <= |fields|
    requires RoundTrip.Inv(fields, i, 0, m, d, st)
    requires EncodeFrom(fields, i, m).Some? && |EncodeFrom(fields, i, m).value| < TWO_63
    requires |us| == |fields| + 1 && forall j :: 0 <= j < |us| ==> Unlisted(fields, us[j])
    ensures var r := Loop(fields, st, Strewn(fields, i, m, us));
            if RoundTrip.DecodableTail(fields, i, m) then
              r == Ok(st', []) && RoundTrip.Inv(fields, |fields|, 0, m, d, st')
            else r.Fail?
    decreases |fields| - i
  {
    hide Unlisted, RoundTrip.Inv, EncodeField, DecodableField, WellFormed, Shaped, Fresh;
    if i == |fields| {
      SkipsUnlisted(fields, st, us[i], []);
      assert us[i] + [] == us[i];
      st' := st;
    } else {
      var rest := Strewn(fields, i + 1, m, us);
      SkipsUnlisted(fields, st, us[i], EncodeField(fields, i, m).value + rest);
      hide Loop;
      st' := RoundTrip.FieldRoundTrip(fields, i, m, d, st, rest);
      if DecodableField(fields, i, m) {
        st' := StrewnRoundTrip(fields, i + 1, m, d, st', us);
      }
    }
  }

  /** Unknown fields anywhere between the fields of an encoding do not change what is decoded. */
  lemma DecodeAmongUnknown(fields: seq<Field>, m: Msg, dest: Msg, us: seq<seq<Byte>>)
    requires WellFormed(fields) && Shaped(fields, m) && Shaped(fields, dest)
    requires EncodeMessage(fields, m).Some? && |EncodeMessage(fields, m).value| < TWO_63
    requires |us| == |fields| + 1 && forall j :: 0 <= j < |us| ==> Unlisted(fields, us[j])
    ensures var r := Decode(fields, dest, Strewn(fields, 0, m, us));
            if Decodable(fields, m) then r.Ok? && Same(fields, m, r.value) && r.rest == [] else r.Fail?
  {
    hide Unlisted, Strewn, Loop, WellFormed, Shaped, DecodableField;
    DefaultsFresh(fields, dest);
    var d := Defaults(fields, dest);
    var st := State(d, {}, None, 0);
    RoundTrip.InvStart(fields, m, d);
    var st' := StrewnRoundTrip(fields, 0, m, d, st, us);
    assert RoundTrip.DecodableTail(fields, 0, m) <==> Decodable(fields, m);
    if Decodable(fields, m) { RoundTrip.SeenAll(fields, st'); }
  }

  // ---- Known fields with another wire type ----

  const NUMBER_FIELD: Field := Field(1, LVarint, Optional, Static, 4, -4, 4, 0, Null)

  lemma NumberRecord(st: State, wireType: nat, n: Byte, rest: seq<Byte>)
    requires |st.m.slots| == 1 && |st.m.slots[0].items| == 1 && wireType < 8 && n < 0x80
    ensures Loop([NUMBER_FIELD], st, [8 + wireType, n] + rest)
         == Loop([NUMBER_FIELD], st.(m := st.m.(slots := [Slot(true, st.m.slots[0].count, [Int(n)])])), rest)
  {
    hide Loop, RequiredBefore;
    var fields := [NUMBER_FIELD];
    assert WellFormedField(NUMBER_FIELD);
    assert [8 + wireType, n] + rest == Tag(wireType, 1) + ([n] + rest);
    RoundTrip.LoopRecord(fields, 0, wireType, st, [n] + rest);
    assert ([n] + rest)[1..] == rest;
    NumberReads(n, rest);
    assert SlotOf(st.m, 0) == st.m.slots[0];
    RoundTrip.SingleField(fields, 0, wireType, st, [n] + rest);
    var slot := Slot(true, st.m.slots[0].count, [Int(n)]);
    assert st.m.slots[0].items[0 := Int(n)] == [Int(n)];
    assert st.m.slots[0 := slot] == [slot];
    assert RoundTrip.StoreSingle(fields, 0, st, Int(n)) == st.(m := st.m.(slots := [slot]));
  }

  lemma NumberReads(n: Byte, rest: seq<Byte>)
    requires n < 0x80
    ensures Integer(NUMBER_FIELD, [n] + rest) == Ok(Int(n), rest)
  {
    hide Decode64;
    assert EncodeVarint(n) == [n];
    RoundTrip64(n, rest);
  }

  lemma NumberEnds(st: State)
    requires st.fixed.None?
    ensures Finish([NUMBER_FIELD], Loop([NUMBER_FIELD], st, [])) == Ok(st.m, [])
  {
    assert RequiredBefore([NUMBER_FIELD], 1) == RequiredBefore([NUMBER_FIELD], 0) == 0;
  }

  lemma StringParses()
    ensures Parse([0x0A, 2, 8, 5]) == Some([RawRecord(1, Contents([8, 5]))])
  {
    var s: seq<Byte>, c: seq<Byte> := [0x0A, 2, 8, 5], [8, 5];
    assert s[1..][1..] == c && c[..2] == c && c[2..] == [];
    assert ReadRecord(s) == Ok(RawRecord(1, Contents(c)), []);
    assert Parse([]) == Some([]);
    assert [RawRecord(1, Contents(c))] + [] == [RawRecord(1, Contents(c))];
  }

  /** The wire type of a known field is not looked at: the length of a string of two bytes is taken for the value 2,
      and the string itself for one more record, here with the value 5. */
  lemma WrongType(dest: Msg)
    requires Shaped([NUMBER_FIELD], dest)
    ensures WellFormed([NUMBER_FIELD])
    ensures Parse([0x0A, 2, 8, 5]) == Some([RawRecord(1, Contents([8, 5]))])
    ensures var r := Decode([NUMBER_FIELD], dest, [0x0A, 2, 8, 5]);
            r.Ok? && r.value.slots == [Slot(true, dest.slots[0].count, [Int(5)])] && r.rest == []
  {
    hide Parse, Loop, Finish;
    var fields := [NUMBER_FIELD];
    assert WellFormedField(NUMBER_FIELD) && ShapedSlot(NUMBER_FIELD, dest.slots[0]);
    StringParses();
    var d := Defaults(fields, dest);
    assert d.slots[0] == DefaultSlot(NUMBER_FIELD, SlotOf(dest, 0)) == Slot(false, dest.slots[0].count, [Int(0)]);
    var st := State(d, {}, None, 0);
    var st1 := st.(m := d.(slots := [Slot(true, dest.slots[0].count, [Int(2)])]));
    NumberRecord(st, 2, 2, [8, 5]);
    NumberRecord(st1, 0, 5, []);
    NumberEnds(st1.(m := d.(slots := [Slot(true, dest.slots[0].count, [Int(5)])])));
    assert [8 + 2, 2] + [8, 5] == [0x0A, 2, 8, 5];
    assert [8 + 0, 5] + [] == [8, 5];
  }
}
