/** Decoding what was encoded rebuilds the message: pb_decode after pb_encode. */
module RoundTrip {
  import opened Bits
  import opened Descriptor
  import opened Varint
  import opened EncodeSpec
  import opened DecodeSpec
  import opened ScalarRoundTrip
  import opened Equality

  // ---- Length-delimited data ----

  lemma SubstreamOfDelimited(s: seq<Byte>, rest: seq<Byte>)
    requires |s| < TWO_63
    ensures Substream(Delimited(s) + rest) == if |s| < TWO_32 then Ok(s, rest) else Fail
  {
    hide EncodeVarint;
    assert Delimited(s) + rest == EncodeVarint(|s|) + (s + rest);
    RoundTrip32(|s|, s + rest);
    assert (s + rest)[..|s|] == s && (s + rest)[|s|..] == rest;
  }

  lemma {:induction false} CStringOfTerminated(b: seq<Byte>, tail: seq<Byte>)
    requires forall k :: 0 <= k < |b| ==> b[k] != 0
    ensures CString(b + [0] + tail) == b
  {
    var mem := b + [0] + tail;
    if b != [] {
      assert mem[1..] == b[1..] + [0] + tail;
      CStringOfTerminated(b[1..], tail);
    }
  }

  predicate IsBlob(f: Field) { f.ltype == LBytes || f.ltype == LString || f.ltype == LInline }

  lemma ReadDelimited(b: seq<Byte>, rest: seq<Byte>)
    requires |b| < TWO_32
    ensures Decode32(Delimited(b) + rest) == Ok(|b|, b + rest)
    ensures Take(b + rest, |b|) == Ok(b, rest)
  {
    hide EncodeVarint, Decode32;
    assert Delimited(b) + rest == EncodeVarint(|b|) + (b + rest);
    RoundTrip32(|b|, b + rest);
    assert (b + rest)[..|b|] == b && (b + rest)[|b|..] == rest;
  }

  lemma StringRoundTrip(f: Field, mem: seq<Byte>, old_: Value, rest: seq<Byte>)
    requires WellFormedField(f) && f.ltype == LString && |mem| == f.dataSize
    ensures var r := Blob(f, old_, Delimited(CString(mem)) + rest);
            if |CString(mem)| < |mem| then r.Ok? && r.rest == rest && SameValue(f, Chars(mem), r.value) else r.Fail?
  {
    hide Decode32, Delimited, Take, StoreString, CString;
    var b := CString(mem);
    ReadDelimited(b, rest);
    StoredString(old_, b);
    AllocSize(|b|, f.dataSize);
  }

  lemma StoredString(old_: Value, b: seq<Byte>)
    requires forall k :: 0 <= k < |b| ==> b[k] != 0
    ensures CString(StoreString(old_, b)) == b
  {
    var mem := if old_.Chars? then old_.mem else [];
    CStringOfTerminated(b, if |b| + 1 <= |mem| then mem[|b| + 1..] else []);
  }

  lemma AllocSize(n: nat, dataSize: nat)
    requires n <= dataSize <= PB_SIZE_MAX
    ensures n < dataSize <==> (n + 1) % TWO_32 >= n && (n + 1) % TWO_32 <= dataSize
  {}

  /** Bytes, strings and inline arrays: the contents come back, except that the decoder refuses
      a string that fills its array without a NUL. */
  lemma BlobRoundTrip(f: Field, v: Value, old_: Value, rest: seq<Byte>)
    requires WellFormedField(f) && IsBlob(f) && ShapedValue(f, v) && EncodeValue(f, v).Some?
    ensures var r := Blob(f, old_, EncodeValue(f, v).value + rest);
            if DecodableValue(f, v) then r.Ok? && r.rest == rest && SameValue(f, v, r.value) else r.Fail?
  {
    if f.ltype == LString {
      StringRoundTrip(f, v.mem, old_, rest);
    } else {
      ReadDelimited(if f.ltype == LBytes then v.b else v.raw, rest);
    }
  }

  // ---- One record of the decode loop ----

  lemma NoExtension(fields: seq<Field>, i: nat)
    requires WellFormed(fields) && i < |fields|
    ensures fields[i].ltype != LExtension
  {
    assert WellFormedField(fields[i]);
  }

  lemma {:induction false} FindTag(fields: seq<Field>, k: nat, i: nat)
    requires WellFormed(fields) && k <= i < |fields|
    ensures FindFrom(fields, k, fields[i].tag) == Some(i)
    decreases i - k
  {
    hide WellFormed;
    if k < i {
      DistinctTags(fields, k, i);
      FindTag(fields, k + 1, i);
    } else {
      NoExtension(fields, i);
    }
  }

  /** Reading a tag that the encoder wrote dispatches to the field it belongs to. */
  lemma LoopRecord(fields: seq<Field>, i: nat, wireType: nat, st: State, s: seq<Byte>)
    requires WellFormed(fields) && i < |fields| && wireType < 8
    ensures Loop(fields, st, Tag(wireType, fields[i].tag) + s)
         == var next := DecodeField(fields, i, wireType, st, s);
            if next.Ok? then Loop(fields, next.value, next.rest) else Fail
  {
    var key := fields[i].tag * 8 + wireType;
    RoundTrip32(key, s);
    FindTag(fields, 0, i);
    assert key / 8 == fields[i].tag && key % 8 == wireType;
    var input := Tag(wireType, fields[i].tag) + s;
    assert Decode32(input) == Ok(key, s);
    assert Record(fields, key, st, s) == DecodeField(fields, i, wireType, st, s);
  }

  // ---- The state after i fields and k entries of field i ----

  /** The bookkeeping of fixed-count arrays. */
  predicate FixedOk(fields: seq<Field>, i: nat, k: nat, st: State)
  {
    if k > 0 && i < |fields| && FixedCount(fields[i]) then st.fixed == Some(i) && st.fixedCount == k
    else FixedComplete(fields, st) && (st.fixed.Some? ==> st.fixed.value < i)
  }

  /** Unions hold what m selects, as far as it was decoded. */
  predicate UnionsOk(fields: seq<Field>, i: nat, m: Msg, st: State)
  {
    forall j :: 0 <= j < |fields| && fields[j].htype == Oneof ==>
      && Which(st.m, SizePos(fields, j)) in {0, Which(m, SizePos(fields, j))}
      && (j < i && Selected(fields, j, m) ==> Selected(fields, j, st.m))
  }

  predicate SeenOk(fields: seq<Field>, i: nat, st: State)
  {
    forall j :: 0 <= j < i && j < |fields| && fields[j].htype == Required
      && RequiredBefore(fields, j) < PB_MAX_REQUIRED_FIELDS
      ==> RequiredBefore(fields, j) in st.seen
  }

  /** Array slot t holds the first k entries of s and the old entries of d behind them. */
  predicate PartialArray(f: Field, k: nat, s: Slot, d: Slot, t: Slot)
  {
    && |t.items| == |d.items|
    && (!FixedCount(f) ==> t.count == k)
    && (forall j :: 0 <= j < k ==> SameValue(f, Item(s, j), Item(t, j)))
    && (forall j :: k <= j < |d.items| ==> t.items[j] == d.items[j])
  }

  predicate SlotsOk(fields: seq<Field>, i: nat, k: nat, m: Msg, d: Msg, st: State)
  {
    && |st.m.slots| == |fields| == |d.slots|
    && (forall j :: 0 <= j < i && j < |fields| ==> SameField(fields, j, m, st.m))
    && (forall j :: i < j < |fields| ==> st.m.slots[j] == d.slots[j])
    && (i < |fields| ==>
          if fields[i].htype == Repeated then PartialArray(fields[i], k, SlotOf(m, i), d.slots[i], st.m.slots[i])
          else st.m.slots[i] == d.slots[i])
  }

  predicate Inv(fields: seq<Field>, i: nat, k: nat, m: Msg, d: Msg, st: State)
  {
    SlotsOk(fields, i, k, m, d, st) && FixedOk(fields, i, k, st) && UnionsOk(fields, i, m, st) && SeenOk(fields, i, st)
  }

  predicate Ready(fields: seq<Field>, i: nat, m: Msg, d: Msg)
  {
    WellFormed(fields) && Shaped(fields, m) && Fresh(fields, d) && i < |fields|
  }

  lemma InvStart(fields: seq<Field>, m: Msg, d: Msg)
    requires Fresh(fields, d)
    ensures Inv(fields, 0, 0, m, d, State(d, {}, None, 0))
  {
    if fields != [] {
      assert FreshSlot(fields[0], d.slots[0]);
    }
  }

  lemma NextArrayStart(fields: seq<Field>, i: nat, m: Msg, d: Msg, st: State)
    requires Fresh(fields, d) && i <= |fields| && |st.m.slots| == |fields|
    requires forall j :: 0 <= j < i ==> SameField(fields, j, m, st.m)
    requires forall j :: i <= j < |fields| ==> st.m.slots[j] == d.slots[j]
    ensures SlotsOk(fields, i, 0, m, d, st)
  {
    if i < |fields| {
      assert FreshSlot(fields[i], d.slots[i]);
    }
  }

  // ---- A field that is not written ----

  lemma AbsentSame(fields: seq<Field>, i: nat, m: Msg, d: Msg, st: State)
    requires Ready(fields, i, m, d) && Inv(fields, i, 0, m, d, st) && !Present(fields, i, m)
    ensures SameField(fields, i, m, st.m)
  {
    hide SameValue, IsZero, Shaped, ShapedSlot, FixedOk, SeenOk, SizePos, WellFormedField;
    var f := fields[i];
    AbsentIsFresh(fields, i, m, d);
    if f.htype == Oneof {
      assert WellFormedField(f);
      TagNotZero(f);
    }
  }

  lemma TagNotZero(f: Field)
    requires WellFormedField(f)
    ensures f.tag != 0
  {}

  lemma SkipAbsent(fields: seq<Field>, i: nat, m: Msg, d: Msg, st: State)
    requires Ready(fields, i, m, d) && Inv(fields, i, 0, m, d, st) && !Present(fields, i, m)
    ensures Inv(fields, i + 1, 0, m, d, st)
  {
    hide SameField, IsZero, Shaped, Fresh, WellFormed;
    AbsentSame(fields, i, m, d, st);
    NextArrayStart(fields, i + 1, m, d, st);
  }

  // ---- A field with one entry ----

  /** The state after the only entry of field i was decoded to v. */
  function StoreSingle(fields: seq<Field>, i: nat, st: State, v: Value): State
    requires i < |fields|
  {
    var f, slot := fields[i], SlotOf(st.m, i);
    match f.htype
    case Required => st.(m := SetFieldItem(st.m, i, 0, v))
    case Optional => st.(m := SetSlot(st.m, i, SetItem(slot.(has := slot.has || f.sizeOffset != 0), 0, v)))
    case Oneof => st.(m := SetFieldItem(st.m.(which := st.m.which[SizePos(fields, i) := f.tag]), i, 0, v))
    case Repeated => st
  }

  /** The memory that a field with one entry is decoded into. */
  function SingleTarget(f: Field, slot: Slot): Value
  {
    if f.htype == Oneof && f.ltype == LSubmessage then DefaultValue(f, ZeroValue(f)) else Item(slot, 0)
  }

  /** The state after a record of field i was read as v. */
  function Stored(fields: seq<Field>, i: nat, st: State, v: Value): State
    requires i < |fields|
  {
    if fields[i].htype == Repeated then Append(fields[i], i, st, v) else StoreSingle(fields, i, st, v)
  }

  /** The memory that the next value of field i is decoded into. */
  function Destination(fields: seq<Field>, i: nat, st: State): Value
    requires i < |fields|
  {
    var f, slot := fields[i], SlotOf(st.m, i);
    if f.htype == Repeated then Item(slot, NextIndex(f, i, st)) else SingleTarget(f, slot)
  }

  /** The struct a nested message is decoded into: entries of arrays are set to defaults first. */
  function Start(f: Field, old_: Value): Msg
    requires f.ptr.SubFields?
  {
    if f.htype == Repeated then Defaults(f.ptr.fields, SubOf(old_)) else SubOf(old_)
  }

  lemma SingleField(fields: seq<Field>, i: nat, wireType: nat, st: State, s: seq<Byte>)
    requires i < |fields| && fields[i].htype != Repeated && fields[i].atype == Static
    ensures DecodeField(fields, i, wireType, st, s)
         == var st1 := Enter(fields, i, st).value;
            var v := DecodeValue(fields[i], SingleTarget(fields[i], SlotOf(st.m, i)), s);
            if v.Ok? then Ok(StoreSingle(fields, i, st1, v.value), v.rest) else Fail
  {}

  lemma OthersUnchanged(fields: seq<Field>, i: nat, m: Msg, d: Msg, st: State, v: Value)
    requires Ready(fields, i, m, d) && Inv(fields, i, 0, m, d, st) && Present(fields, i, m)
    requires fields[i].htype != Repeated
    ensures UnionsOk(fields, i + 1, m, StoreSingle(fields, i, st, v))
    ensures forall j :: 0 <= j < i ==> SameField(fields, j, m, StoreSingle(fields, i, st, v).m)
  {
    var st' := StoreSingle(fields, i, st, v);
    forall j | 0 <= j < |fields| && fields[j].htype == Oneof
      ensures Which(st'.m, SizePos(fields, j)) in {0, Which(m, SizePos(fields, j))}
      ensures j <= i && Selected(fields, j, m) ==> Selected(fields, j, st'.m)
    {
      if j != i { assert fields[j].tag != fields[i].tag by { DistinctTags(fields, i, j); } }
    }
    forall j | 0 <= j < i ensures SameField(fields, j, m, st'.m) {
      assert SameField(fields, j, m, st.m);
      assert SlotOf(st'.m, j) == SlotOf(st.m, j);
      assert fields[j].tag != fields[i].tag by { DistinctTags(fields, i, j); }
      assert WellFormedField(fields[j]);
    }
  }

  lemma DistinctTags(fields: seq<Field>, i: nat, j: nat)
    requires WellFormed(fields) && i < |fields| && j < |fields| && i != j
    ensures fields[i].tag != fields[j].tag
  {
    hide WellFormedField;
    if i < j {} else { assert fields[j].tag != fields[i].tag; }
  }

  lemma StoreKeepsInv(fields: seq<Field>, i: nat, m: Msg, d: Msg, st: State, v: Value)
    requires Ready(fields, i, m, d) && Inv(fields, i, 0, m, d, st) && Present(fields, i, m)
    requires fields[i].htype != Repeated && SameValue(fields[i], Item(SlotOf(m, i), 0), v)
    ensures Inv(fields, i + 1, 0, m, d, StoreSingle(fields, i, Enter(fields, i, st).value, v))
  {
    var st1 := Enter(fields, i, st).value;
    var st' := StoreSingle(fields, i, st1, v);
    assert st'.m == StoreSingle(fields, i, st, v).m;
    OthersUnchanged(fields, i, m, d, st, v);
    assert FreshSlot(fields[i], d.slots[i]);
    assert SameField(fields, i, m, st'.m);
    NextArrayStart(fields, i + 1, m, d, st');
    assert SeenOk(fields, i + 1, st') by {
      forall j | 0 <= j <= i && fields[j].htype == Required && RequiredBefore(fields, j) < PB_MAX_REQUIRED_FIELDS
        ensures RequiredBefore(fields, j) in st'.seen {
        assert st.seen <= st'.seen;
      }
    }
  }

  // ---- Arrays ----

  /** The state when the entries of array field i from number k on are about to be decoded. */
  predicate InArray(fields: seq<Field>, i: nat, k: nat, m: Msg, d: Msg, st: State)
  {
    && Ready(fields, i, m, d) && fields[i].htype == Repeated
    && k <= Count(fields[i], SlotOf(m, i)) <= fields[i].arraySize
    && SlotsOk(fields, i, k, m, d, st) && UnionsOk(fields, i, m, st) && SeenOk(fields, i, st)
    && (if FixedCount(fields[i]) then st.fixed == Some(i) && st.fixedCount == k
        else FixedComplete(fields, st) && (st.fixed.Some? ==> st.fixed.value < i))
  }

  lemma EnterArray(fields: seq<Field>, i: nat, k: nat, m: Msg, d: Msg, st: State)
    requires Ready(fields, i, m, d) && fields[i].htype == Repeated
    requires k <= Count(fields[i], SlotOf(m, i)) <= fields[i].arraySize
    requires Inv(fields, i, k, m, d, st)
    ensures Enter(fields, i, st).Some? && InArray(fields, i, k, m, d, Enter(fields, i, st).value)
    ensures k > 0 || !FixedCount(fields[i]) ==> Enter(fields, i, st).value == st
  {}

  lemma InArrayInv(fields: seq<Field>, i: nat, k: nat, m: Msg, d: Msg, st: State)
    requires InArray(fields, i, k, m, d, st) && k > 0
    ensures Inv(fields, i, k, m, d, st)
  {}

  /** The next entry goes to position k, whose old memory is untouched. */
  lemma NextEntry(fields: seq<Field>, i: nat, k: nat, m: Msg, d: Msg, st: State)
    requires InArray(fields, i, k, m, d, st) && k < Count(fields[i], SlotOf(m, i))
    ensures NextIndex(fields[i], i, st) == k < fields[i].arraySize
    ensures Item(SlotOf(st.m, i), k) == Item(d.slots[i], k)
    ensures ShapedValue(fields[i], Item(d.slots[i], k))
  {
    assert FreshSlot(fields[i], d.slots[i]);
  }

  /** Decoding one more entry that agrees with the encoded one. */
  lemma AppendStep(fields: seq<Field>, i: nat, k: nat, m: Msg, d: Msg, st: State, v: Value)
    requires InArray(fields, i, k, m, d, st) && k < Count(fields[i], SlotOf(m, i))
    requires SameValue(fields[i], Item(SlotOf(m, i), k), v)
    ensures InArray(fields, i, k + 1, m, d, Append(fields[i], i, st, v))
  {
    var f := fields[i];
    var st' := Append(f, i, st, v);
    assert FreshSlot(f, d.slots[i]);
    assert |d.slots[i].items| == f.arraySize;
    forall j | 0 <= j < i ensures SameField(fields, j, m, st'.m) {
      assert SameField(fields, j, m, st.m);
      assert SlotOf(st'.m, j) == SlotOf(st.m, j);
    }
    assert PartialArray(f, k + 1, SlotOf(m, i), d.slots[i], st'.m.slots[i]);
  }

  /** All entries are there: the field is done. */
  lemma ArrayDone(fields: seq<Field>, i: nat, m: Msg, d: Msg, st: State)
    requires i < |fields| && InArray(fields, i, Count(fields[i], SlotOf(m, i)), m, d, st)
    ensures Inv(fields, i + 1, 0, m, d, st)
  {
    var f := fields[i];
    assert PartialArray(f, Count(f, SlotOf(m, i)), SlotOf(m, i), d.slots[i], st.m.slots[i]);
    assert SameField(fields, i, m, st.m);
    NextArrayStart(fields, i + 1, m, d, st);
  }

  /** The entries of an array from number k on. */
  function Entries(f: Field, s: Slot, k: nat): seq<Value>
  {
    if k <= Count(f, s) <= |s.items| then s.items[k..Count(f, s)] else []
  }

  lemma EntriesStep(f: Field, s: Slot, k: nat)
    requires ShapedSlot(f, s) && k < Count(f, s) <= |s.items|
    ensures Entries(f, s, k) != [] && Entries(f, s, k)[0] == s.items[k] == Item(s, k)
    ensures Entries(f, s, k)[1..] == Entries(f, s, k + 1)
    ensures ShapedValue(f, s.items[k])
  {}

  lemma PackedLoopStep(f: Field, i: nat, st: State, v: Value, tail: seq<Byte>)
    requires WellFormedField(f) && Packable(f) && ShapedValue(f, v) && NextIndex(f, i, st) < f.arraySize
    ensures EncodeValue(f, v).Some?
    ensures PackedLoop(f, i, st, EncodeValue(f, v).value + tail) == PackedLoop(f, i, Append(f, i, st, v), tail)
  {
    IntegerRoundTrip(f, v, tail);
    var s := EncodeValue(f, v).value + tail;
    assert DecodeValue(f, Item(SlotOf(st.m, i), NextIndex(f, i, st)), s) == Integer(f, s);
    assert s != [];
  }

  /** The substream of a packed array is read entry by entry. */
  lemma {:induction false} PackedRoundTrip(fields: seq<Field>, i: nat, k: nat, m: Msg, d: Msg, st: State)
    returns (st': State)
    requires InArray(fields, i, k, m, d, st) && Packable(fields[i])
    ensures var e := EncodePacked(fields[i], Entries(fields[i], SlotOf(m, i), k));
            e.Some? && PackedLoop(fields[i], i, st, e.value) == Some(st')
    ensures InArray(fields, i, Count(fields[i], SlotOf(m, i)), m, d, st')
    decreases Count(fields[i], SlotOf(m, i)) - k
  {
    var f, s := fields[i], m.slots[i];
    assert ShapedSlot(f, s) && WellFormedField(f);
    hide Append, EncodeValue, SlotsOk, UnionsOk, SeenOk, SameValue, WellFormedField, ShapedValue;
    if k == Count(f, s) {
      st' := st;
    } else {
      EntriesStep(f, s, k);
      NextEntry(fields, i, k, m, d, st);
      AppendStep(fields, i, k, m, d, st, s.items[k]) by { IntegerSame(f, s.items[k]); }
      st' := PackedRoundTrip(fields, i, k + 1, m, d, Append(f, i, st, s.items[k]));
      PackedLoopStep(f, i, st, s.items[k], EncodePacked(f, Entries(f, s, k + 1)).value);
    }
  }

  lemma IntegerSame(f: Field, v: Value)
    requires Packable(f)
    ensures SameValue(f, v, v)
  {}

  /** Whether the entries k..n of an unpacked array can be read back. */
  predicate DecodableFrom(f: Field, k: nat, n: nat, s: Slot)
  {
    forall j :: k <= j < n ==> DecodableValue(f, Item(s, j))
  }

  // ---- Entries, fields, messages ----

  /** The memory that a nested struct is decoded into has been initialized; an array entry will be. */
  predicate Target(f: Field, old_: Value)
  {
    f.ltype == LSubmessage ==> if f.htype == Repeated then ShapedValue(f, old_) else FreshValue(f, old_)
  }

  lemma {:induction false} ValueRoundTrip(f: Field, v: Value, old_: Value, rest: seq<Byte>)
    requires WellFormedField(f) && ShapedValue(f, v) && Target(f, old_)
    requires EncodeValue(f, v).Some? && |EncodeValue(f, v).value| < TWO_63
    ensures var r := DecodeValue(f, old_, EncodeValue(f, v).value + rest);
            if DecodableValue(f, v) then r.Ok? && r.rest == rest && SameValue(f, v, r.value) else r.Fail?
    decreases f, 0
  {
    if IsBlob(f) {
      BlobRoundTrip(f, v, old_, rest);
    } else if f.ltype == LSubmessage {
      var fs := f.ptr.fields;
      var e := EncodeMessage(fs, v.m).value;
      SubstreamOfDelimited(e, rest);
      if |e| < TWO_32 {
        var start := if f.htype == Repeated then Defaults(fs, SubOf(old_)) else SubOf(old_);
        if f.htype == Repeated { DefaultsFresh(fs, SubOf(old_)); }
        MessageRoundTrip(fs, v.m, start, []);
        assert e + [] == e;
      }
    } else {
      IntegerRoundTrip(f, v, rest);
    }
  }

  lemma DecodableSplit(f: Field, k: nat, n: nat, s: Slot)
    requires k < n
    ensures DecodableFrom(f, k, n, s) <==> DecodableValue(f, Item(s, k)) && DecodableFrom(f, k + 1, n, s)
  {}

  lemma UnpackedSplit(f: Field, s: Slot, k: nat, rest: seq<Byte>)
    requires ShapedSlot(f, s) && k < Count(f, s) <= |s.items| && EncodeUnpacked(f, Entries(f, s, k)).Some?
    ensures EncodeTagged(f, Item(s, k)).Some? && EncodeUnpacked(f, Entries(f, s, k + 1)).Some?
    ensures EncodeUnpacked(f, Entries(f, s, k)).value == EncodeTagged(f, Item(s, k)).value + EncodeUnpacked(f, Entries(f, s, k + 1)).value
    ensures EncodeUnpacked(f, Entries(f, s, k)).value + rest
         == EncodeTagged(f, Item(s, k)).value + (EncodeUnpacked(f, Entries(f, s, k + 1)).value + rest)
  {
    EntriesStep(f, s, k);
  }

  lemma LastEntry(fields: seq<Field>, i: nat, m: Msg, d: Msg, st: State)
    requires Ready(fields, i, m, d) && fields[i].htype == Repeated
    requires 0 < Count(fields[i], SlotOf(m, i)) <= fields[i].arraySize
    requires Inv(fields, i, Count(fields[i], SlotOf(m, i)), m, d, st)
    ensures Inv(fields, i + 1, 0, m, d, st)
  {
    EnterArray(fields, i, Count(fields[i], SlotOf(m, i)), m, d, st);
    ArrayDone(fields, i, m, d, st);
  }

  /** One entry of an unpacked array: its record is consumed and appended, or refused. */
  lemma {:induction false} EntryRoundTrip(fields: seq<Field>, i: nat, k: nat, m: Msg, d: Msg, st: State, rest: seq<Byte>)
    returns (st': State)
    requires Ready(fields, i, m, d) && fields[i].htype == Repeated && !Packable(fields[i])
    requires k < Count(fields[i], SlotOf(m, i)) <= fields[i].arraySize && Inv(fields, i, k, m, d, st)
    requires EncodeTagged(fields[i], Item(SlotOf(m, i), k)).Some?
    requires |EncodeTagged(fields[i], Item(SlotOf(m, i), k)).value| < TWO_63
    ensures var e := EncodeTagged(fields[i], Item(SlotOf(m, i), k)).value;
            if DecodableValue(fields[i], Item(SlotOf(m, i), k)) then
              Loop(fields, st, e + rest) == Loop(fields, st', rest) && InArray(fields, i, k + 1, m, d, st')
            else Loop(fields, st, e + rest).Fail?
    decreases fields, 1, 0
  {
    var f, v := fields[i], Item(SlotOf(m, i), k);
    assert ShapedSlot(f, m.slots[i]) && WellFormedField(f);
    EnterArray(fields, i, k, m, d, st);
    var st1 := Enter(fields, i, st).value;
    NextEntry(fields, i, k, m, d, st1);
    var body := EncodeValue(f, v).value;
    assert Tag(WireType(f), f.tag) + body + rest == Tag(WireType(f), f.tag) + (body + rest);
    LoopRecord(fields, i, WireType(f), st, body + rest);
    ValueRoundTrip(f, v, Item(d.slots[i], k), rest);
    if DecodableValue(f, v) {
      var r := DecodeValue(f, Item(d.slots[i], k), body + rest).value;
      AppendStep(fields, i, k, m, d, st1, r);
      st' := Append(f, i, st1, r);
    } else {
      st' := st;
    }
  }

  lemma {:induction false} UnpackedRoundTrip(fields: seq<Field>, i: nat, k: nat, m: Msg, d: Msg, st: State, rest: seq<Byte>)
    returns (st': State)
    requires Ready(fields, i, m, d) && fields[i].htype == Repeated && !Packable(fields[i])
    requires k <= Count(fields[i], SlotOf(m, i)) <= fields[i].arraySize && 0 < Count(fields[i], SlotOf(m, i))
    requires Inv(fields, i, k, m, d, st)
    requires EncodeUnpacked(fields[i], Entries(fields[i], SlotOf(m, i), k)).Some?
    requires |EncodeUnpacked(fields[i], Entries(fields[i], SlotOf(m, i), k)).value| < TWO_63
    ensures var e := EncodeUnpacked(fields[i], Entries(fields[i], SlotOf(m, i), k)).value;
            if DecodableFrom(fields[i], k, Count(fields[i], SlotOf(m, i)), SlotOf(m, i)) then
              Loop(fields, st, e + rest) == Loop(fields, st', rest) && Inv(fields, i + 1, 0, m, d, st')
            else Loop(fields, st, e + rest).Fail?
    decreases fields, 1, 1, Count(fields[i], SlotOf(m, i)) - k
  {
    var f, s := fields[i], m.slots[i];
    assert ShapedSlot(f, s);
    if k == Count(f, s) {
      LastEntry(fields, i, m, d, st);
      assert [] + rest == rest;
      st' := st;
    } else {
      UnpackedSplit(f, s, k, rest);
      DecodableSplit(f, k, Count(f, s), s);
      var tail := EncodeUnpacked(f, Entries(f, s, k + 1)).value;
      st' := EntryRoundTrip(fields, i, k, m, d, st, tail + rest);
      if DecodableValue(f, Item(s, k)) {
        InArrayInv(fields, i, k + 1, m, d, st');
        st' := UnpackedRoundTrip(fields, i, k + 1, m, d, st', rest);
      }
    }
  }

  lemma {:induction false} FieldRoundTrip(fields: seq<Field>, i: nat, m: Msg, d: Msg, st: State, rest: seq<Byte>)
    returns (st': State)
    requires Ready(fields, i, m, d) && Inv(fields, i, 0, m, d, st)
    requires EncodeField(fields, i, m).Some? && |EncodeField(fields, i, m).value| < TWO_63
    ensures var e := EncodeField(fields, i, m).value;
            if DecodableField(fields, i, m) then
              Loop(fields, st, e + rest) == Loop(fields, st', rest) && Inv(fields, i + 1, 0, m, d, st')
            else Loop(fields, st, e + rest).Fail?
    decreases fields, 2
  {
    var f, s := fields[i], m.slots[i];
    assert ShapedSlot(f, s) && WellFormedField(f) && FreshSlot(f, d.slots[i]);
    if !Present(fields, i, m) {
      SkipAbsent(fields, i, m, d, st);
      assert [] + rest == rest;
      st' := st;
    } else if f.htype != Repeated {
      var v := s.items[0];
      var body := EncodeValue(f, v).value;
      assert Tag(WireType(f), f.tag) + body + rest == Tag(WireType(f), f.tag) + (body + rest);
      LoopRecord(fields, i, WireType(f), st, body + rest);
      SingleField(fields, i, WireType(f), st, body + rest);
      var target := SingleTarget(f, SlotOf(st.m, i));
      SingleTargetReady(f, d.slots[i]);
      ValueRoundTrip(f, v, target, rest);
      if DecodableValue(f, v) {
        var r := DecodeValue(f, target, body + rest).value;
        StoreKeepsInv(fields, i, m, d, st, r);
        st' := StoreSingle(fields, i, Enter(fields, i, st).value, r);
      } else {
        st' := st;
      }
    } else if Packable(f) {
      st' := PackedField(fields, i, m, d, st, rest);
    } else {
      assert Entries(f, s, 0) == s.items[..Count(f, s)];
      st' := UnpackedRoundTrip(fields, i, 0, m, d, st, rest);
    }
  }

  lemma SingleTargetReady(f: Field, slot: Slot)
    requires WellFormedField(f) && f.htype != Repeated && FreshSlot(f, slot)
    ensures Target(f, SingleTarget(f, slot))
  {
    if f.htype == Oneof && f.ltype == LSubmessage {
      ZeroValueShaped(f);
      DefaultValueFresh(f, ZeroValue(f));
    }
  }

  lemma PackedField(fields: seq<Field>, i: nat, m: Msg, d: Msg, st: State, rest: seq<Byte>)
    returns (st': State)
    requires Ready(fields, i, m, d) && Inv(fields, i, 0, m, d, st)
    requires fields[i].htype == Repeated && Packable(fields[i]) && Present(fields, i, m)
    requires EncodeField(fields, i, m).Some? && |EncodeField(fields, i, m).value| < TWO_63
    ensures var e := EncodeField(fields, i, m).value;
            if DecodableField(fields, i, m) then
              Loop(fields, st, e + rest) == Loop(fields, st', rest) && Inv(fields, i + 1, 0, m, d, st')
            else Loop(fields, st, e + rest).Fail?
  {
    hide PackedLoop, EncodePacked, Loop, Substream, Inv, InArray;
    var f, s := fields[i], m.slots[i];
    assert ShapedSlot(f, s) && WellFormedField(f);
    EnterArray(fields, i, 0, m, d, st);
    var st1 := Enter(fields, i, st).value;
    st' := PackedRoundTrip(fields, i, 0, m, d, st1);
    ArrayDone(fields, i, m, d, st');
    assert Entries(f, s, 0) == s.items[..Count(f, s)];
    var p := EncodePacked(f, Entries(f, s, 0)).value;
    assert Tag(WT_STRING, f.tag) + Delimited(p) + rest == Tag(WT_STRING, f.tag) + (Delimited(p) + rest);
    LoopRecord(fields, i, WT_STRING, st, Delimited(p) + rest);
    SubstreamOfDelimited(p, rest);
  }

  predicate DecodableTail(fields: seq<Field>, i: nat, m: Msg)
  {
    forall j :: i <= j < |fields| ==> DecodableField(fields, j, m)
  }

  lemma {:induction false} TailRoundTrip(fields: seq<Field>, i: nat, m: Msg, d: Msg, st: State, tail: seq<Byte>)
    returns (st': State)
    requires WellFormed(fields) && Shaped(fields, m) && Fresh(fields, d) && i <= |fields|
    requires Inv(fields, i, 0, m, d, st) && (tail == [] || tail[0] == 0)
    requires EncodeFrom(fields, i, m).Some? && |EncodeFrom(fields, i, m).value| < TWO_63
    ensures var r := Loop(fields, st, EncodeFrom(fields, i, m).value + tail);
            if DecodableTail(fields, i, m) then
              r == Ok(st', if tail == [] then [] else tail[1..]) && Inv(fields, |fields|, 0, m, d, st')
            else r.Fail?
    decreases fields, 3, |fields| - i
  {
    if i == |fields| {
      assert [] + tail == tail;
      st' := st;
    } else {
      var e, rest := EncodeField(fields, i, m).value, EncodeFrom(fields, i + 1, m).value;
      assert e + rest + tail == e + (rest + tail);
      st' := FieldRoundTrip(fields, i, m, d, st, rest + tail);
      if DecodableField(fields, i, m) {
        st' := TailRoundTrip(fields, i + 1, m, d, st', tail);
      }
    }
  }

  /** Every required index below the count belongs to a required field. */
  lemma {:induction false} RequiredAt(fields: seq<Field>, n: nat, k: nat) returns (j: nat)
    requires n <= |fields| && k < RequiredBefore(fields, n)
    ensures j < n && fields[j].htype == Required && RequiredBefore(fields, j) == k
  {
    if k < RequiredBefore(fields, n - 1) {
      j := RequiredAt(fields, n - 1, k);
    } else {
      j := n - 1;
    }
  }

  lemma SeenAll(fields: seq<Field>, st: State)
    requires SeenOk(fields, |fields|, st)
    ensures AllSeen(fields, st.seen)
  {
    forall k | 0 <= k < RequiredBefore(fields, |fields|) && k < PB_MAX_REQUIRED_FIELDS ensures k in st.seen {
      var j := RequiredAt(fields, |fields|, k);
    }
  }

  /** Decoding the encoding of m into an initialized struct, at the end of the input or before a
      zero byte, rebuilds m exactly when m is decodable; otherwise the decoder refuses. */
  lemma {:induction false} MessageRoundTrip(fields: seq<Field>, m: Msg, d: Msg, tail: seq<Byte>)
    requires WellFormed(fields) && Shaped(fields, m) && Fresh(fields, d) && (tail == [] || tail[0] == 0)
    requires EncodeMessage(fields, m).Some? && |EncodeMessage(fields, m).value| < TWO_63
    ensures var r := DecodeNoInit(fields, d, EncodeMessage(fields, m).value + tail);
            if Decodable(fields, m) then
              r.Ok? && Same(fields, m, r.value) && r.rest == (if tail == [] then [] else tail[1..])
            else r.Fail?
    decreases fields, 4
  {
    InvStart(fields, m, d);
    var st := State(d, {}, None, 0);
    var st' := TailRoundTrip(fields, 0, m, d, st, tail);
    assert DecodableTail(fields, 0, m) <==> Decodable(fields, m);
    if Decodable(fields, m) {
      SeenAll(fields, st');
    }
  }

  /** pb_decode after pb_encode, whatever the destination struct held before. */
  lemma DecodeOfEncode(fields: seq<Field>, m: Msg, dest: Msg, tail: seq<Byte>)
    requires WellFormed(fields) && Shaped(fields, m) && Shaped(fields, dest) && (tail == [] || tail[0] == 0)
    requires EncodeMessage(fields, m).Some? && |EncodeMessage(fields, m).value| < TWO_63
    ensures var r := Decode(fields, dest, EncodeMessage(fields, m).value + tail);
            if Decodable(fields, m) then
              r.Ok? && Same(fields, m, r.value) && r.rest == (if tail == [] then [] else tail[1..])
            else r.Fail?
  {
    DefaultsFresh(fields, dest);
    MessageRoundTrip(fields, m, Defaults(fields, dest), tail);
  }

  /** The delimited form leaves the stream exactly at the bytes that follow. */
  lemma DelimitedRoundTrip(fields: seq<Field>, m: Msg, dest: Msg, rest: seq<Byte>)
    requires WellFormed(fields) && Shaped(fields, m) && Shaped(fields, dest)
    requires EncodeMessage(fields, m).Some? && |EncodeMessage(fields, m).value| < TWO_63
    ensures var e := EncodeMessage(fields, m).value;
            var r := DecodeDelimited(fields, dest, Delimited(e) + rest);
            if Decodable(fields, m) && |e| < TWO_32 then r.Ok? && Same(fields, m, r.value) && r.rest == rest
            else r.Fail?
  {
    var e := EncodeMessage(fields, m).value;
    SubstreamOfDelimited(e, rest);
    DecodeOfEncode(fields, m, dest, []);
    assert e + [] == e;
  }
}
