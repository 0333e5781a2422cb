/** What memory must be before pb_decode (necessary conditions): if it is not clean, some input is accepted that
    brings what was left there into the data that counts. */
module Leftovers {
  import opened Bits
  import opened Descriptor
  import opened Varint
  import opened EncodeSpec
  import opened DecodeSpec
  import opened Equality
  import opened Soundness
  import ScalarRoundTrip
  import RoundTrip

  // ---- The shortest input a message accepts ----

  /** Zero, the empty string, or the shortest nested message. */
  function LeastValue(f: Field): seq<Byte>
    decreases f, 0
  {
    if Packable(f) then (if EncodeValue(f, Int(0)).Some? then EncodeValue(f, Int(0)).value else [])
    else Delimited(if f.ltype == LSubmessage && f.ptr.SubFields? then Least(f.ptr.fields) else [])
  }

  /** A record for each required field from number j on, but none for field `skip`. */
  function LeastFrom(fields: seq<Field>, j: nat, skip: nat): seq<Byte>
    requires j <= |fields|
    decreases fields, |fields| - j
  {
    if j == |fields| then [] else LeastRecord(fields, j, skip) + LeastFrom(fields, j + 1, skip)
  }

  function LeastRecord(fields: seq<Field>, j: nat, skip: nat): seq<Byte>
    requires j < |fields|
    decreases fields, |fields| - j, 0
  {
    var f := fields[j];
    if f.htype == Required && j != skip then Tag(WireType(f), f.tag) + LeastValue(f) else []
  }

  function Least(fields: seq<Field>): seq<Byte>
    decreases fields, |fields| + 1
  {
    LeastFrom(fields, 0, |fields|)
  }

  /** Room for a record of every required field and of every nested struct. */
  function EntryWeight(f: Field): nat
    decreases f, 0
  {
    20 + if f.ptr.SubFields? then WeightFrom(f.ptr.fields, 0) else 0
  }

  function FieldWeight(f: Field): nat
    decreases f, 1
  {
    if f.htype == Repeated && f.ltype != LSubmessage then 0 else Capacity(f) * EntryWeight(f)
  }

  function WeightFrom(fields: seq<Field>, j: nat): nat
    requires j <= |fields|
    decreases fields, |fields| - j
  {
    if j == |fields| then 0 else FieldWeight(fields[j]) + WeightFrom(fields, j + 1)
  }

  predicate CompactField(f: Field)
    decreases f, 0
  {
    f.ptr.SubFields? ==> WeightFrom(f.ptr.fields, 0) < TWO_32 && Compact(f.ptr.fields)
  }

  /** Every nested struct can be visited by a message whose length fits in 32 bits. */
  predicate Compact(fields: seq<Field>)
    decreases fields, 1
  {
    forall i :: 0 <= i < |fields| ==> CompactField(fields[i])
  }

  lemma VarintAtMostTen(v: nat)
    requires v < TWO_64
    ensures |EncodeVarint(v)| <= 10
  {
    RoundTrip64(v, []);
  }

  lemma TagAtMostTen(f: Field)
    requires WellFormedField(f)
    ensures |Tag(WireType(f), f.tag)| <= 10
  {
    VarintAtMostTen(f.tag * 8 + WireType(f));
  }

  lemma {:induction false} LeastValueLength(f: Field)
    requires WellFormedField(f) && CompactField(f)
    ensures |LeastValue(f)| <= EntryWeight(f) - 10
    decreases f, 0
  {
    if Packable(f) {
      ZeroBytes(f, []);
    } else if f.ltype == LSubmessage {
      LeastLength(f.ptr.fields, 0, |f.ptr.fields|);
      VarintAtMostTen(|Least(f.ptr.fields)|);
    } else {
      VarintAtMostTen(0);
    }
  }

  /** An integer field of value zero. */
  lemma ZeroBytes(f: Field, rest: seq<Byte>)
    requires WellFormedField(f) && Packable(f)
    ensures Integer(f, LeastValue(f) + rest) == Ok(Int(0), rest) && |LeastValue(f)| <= 10
  {
    ScalarRoundTrip.IntegerRoundTrip(f, Int(0), rest);
    VarintAtMostTen(0);
  }

  /** The records stay within the weight, and leave the weight of a field that is skipped. */
  lemma {:induction false} LeastLength(fields: seq<Field>, j: nat, skip: nat)
    requires WellFormed(fields) && Compact(fields) && j <= |fields|
    ensures |LeastFrom(fields, j, skip)| + (if j <= skip < |fields| then FieldWeight(fields[skip]) else 0)
         <= WeightFrom(fields, j)
    decreases fields, |fields| - j
  {
    if j < |fields| {
      var f := fields[j];
      assert WellFormedField(f) && CompactField(f);
      LeastLength(fields, j + 1, skip);
      if f.htype == Required && j != skip {
        LeastValueLength(f);
        TagAtMostTen(f);
      }
    }
  }

  lemma LeastWithin(fields: seq<Field>)
    requires WellFormed(fields) && Compact(fields)
    ensures |Least(fields)| <= WeightFrom(fields, 0)
  {
    LeastLength(fields, 0, |fields|);
  }

  // ---- Feeding records to the decode loop ----

  /** The loop reads s and goes on with what follows. */
  ghost predicate Feeds(fields: seq<Field>, st: State, s: seq<Byte>, st': State)
  {
    forall rest: seq<Byte> :: Loop(fields, st, s + rest) == Loop(fields, st', rest)
  }

  lemma FeedsNothing(fields: seq<Field>, st: State)
    ensures Feeds(fields, st, [], st)
  {
    hide Loop;
    forall rest: seq<Byte> ensures Loop(fields, st, [] + rest) == Loop(fields, st, rest) { assert [] + rest == rest; }
  }

  lemma FeedsBoth(fields: seq<Field>, st: State, s: seq<Byte>, st1: State, s': seq<Byte>, st2: State)
    requires Feeds(fields, st, s, st1) && Feeds(fields, st1, s', st2)
    ensures Feeds(fields, st, s + s', st2)
  {
    hide Loop;
    forall rest: seq<Byte> ensures Loop(fields, st, s + s' + rest) == Loop(fields, st2, rest) {
      assert s + s' + rest == s + (s' + rest);
    }
  }

  /** The field's decoder reads b as v. */
  ghost predicate Reads(f: Field, old_: Value, b: seq<Byte>, v: Value)
  {
    forall rest: seq<Byte> :: DecodeValue(f, old_, b + rest) == Ok(v, rest)
  }

  lemma RecordFeeds(fields: seq<Field>, i: nat, st: State, b: seq<Byte>, v: Value)
    requires WellFormed(fields) && i < |fields| && Enter(fields, i, st).Some?
    requires Reads(fields[i], RoundTrip.Destination(fields, i, Enter(fields, i, st).value), b, v)
    requires fields[i].htype == Repeated ==>
               !Packable(fields[i]) && NextIndex(fields[i], i, Enter(fields, i, st).value) < fields[i].arraySize
    ensures var f := fields[i];
            Feeds(fields, st, Tag(WireType(f), f.tag) + b, RoundTrip.Stored(fields, i, Enter(fields, i, st).value, v))
  {
    hide Loop, DecodeValue, Append;
    var f, e := fields[i], Enter(fields, i, st).value;
    assert WellFormedField(f);
    forall rest: seq<Byte>
      ensures Loop(fields, st, Tag(WireType(f), f.tag) + b + rest) == Loop(fields, RoundTrip.Stored(fields, i, e, v), rest)
    {
      assert Tag(WireType(f), f.tag) + b + rest == Tag(WireType(f), f.tag) + (b + rest);
      assert DecodeValue(f, RoundTrip.Destination(fields, i, e), b + rest) == Ok(v, rest);
      RoundTrip.LoopRecord(fields, i, WireType(f), st, b + rest);
    }
  }

  lemma SubReads(f: Field, old_: Value, c: seq<Byte>)
    requires f.ltype == LSubmessage && f.ptr.SubFields? && |c| < TWO_32
    requires DecodeNoInit(f.ptr.fields, RoundTrip.Start(f, old_), c).Ok?
    ensures Reads(f, old_, Delimited(c), Sub(DecodeNoInit(f.ptr.fields, RoundTrip.Start(f, old_), c).value))
  {
    hide Delimited, Substream, DecodeNoInit, Defaults;
    var m := DecodeNoInit(f.ptr.fields, RoundTrip.Start(f, old_), c).value;
    forall rest: seq<Byte> ensures DecodeValue(f, old_, Delimited(c) + rest) == Ok(Sub(m), rest)
    {
      RoundTrip.SubstreamOfDelimited(c, rest);
    }
  }

  // ---- The shortest input is accepted, into any memory ----

  /** Only required fields from number j on were written, but not field `skip`. */
  predicate Apart(fields: seq<Field>, j: nat, skip: nat, st: State, st': State)
  {
    && st'.fixed == st.fixed && st'.fixedCount == st.fixedCount && st.seen <= st'.seen
    && st'.m.which == st.m.which && |st'.m.slots| == |st.m.slots|
    && forall k :: 0 <= k < |fields| && (k < j || k == skip || fields[k].htype != Required) ==>
         SlotOf(st'.m, k) == SlotOf(st.m, k)
  }

  /** If the decoder keeps account of field k, it has seen it. */
  predicate Noted(fields: seq<Field>, k: nat, st: State)
    requires k < |fields|
  {
    fields[k].htype == Required && RequiredBefore(fields, k) < PB_MAX_REQUIRED_FIELDS ==>
      RequiredBefore(fields, k) in st.seen
  }

  predicate SeenFrom(fields: seq<Field>, j: nat, skip: nat, st: State)
  {
    forall k :: j <= k < |fields| && k != skip ==> Noted(fields, k, st)
  }

  lemma {:induction false} LeastValueReads(f: Field, old_: Value) returns (v: Value)
    requires WellFormedField(f) && CompactField(f) && f.htype == Required
    ensures Reads(f, old_, LeastValue(f), v)
    decreases f, 0
  {
    if Packable(f) {
      v := Int(0);
      forall rest: seq<Byte> ensures DecodeValue(f, old_, LeastValue(f) + rest) == Ok(v, rest) { ZeroBytes(f, rest); }
    } else if f.ltype == LSubmessage {
      var fs := f.ptr.fields;
      LeastDecodes(fs, SubOf(old_));
      LeastLength(fs, 0, |fs|);
      SubReads(f, old_, Least(fs));
      v := Sub(DecodeNoInit(fs, SubOf(old_), Least(fs)).value);
    } else {
      v := EmptyBlob(f, old_);
      forall rest: seq<Byte> ensures DecodeValue(f, old_, LeastValue(f) + rest) == Ok(v, rest) {
        EmptyReads(f, old_, rest);
      }
    }
  }

  function EmptyBlob(f: Field, old_: Value): Value
  {
    if f.ltype == LBytes then Bytes([])
    else if f.ltype == LString then Chars(StoreString(old_, []))
    else Inline(Zeros(f.dataSize))
  }

  lemma EmptyReads(f: Field, old_: Value, rest: seq<Byte>)
    requires WellFormedField(f) && RoundTrip.IsBlob(f)
    ensures Blob(f, old_, Delimited([]) + rest) == Ok(EmptyBlob(f, old_), rest)
  {
    RoundTrip.ReadDelimited([], rest);
    assert [] + rest == rest;
  }

  lemma {:induction false} LeastFeeds(fields: seq<Field>, j: nat, skip: nat, st: State) returns (st': State)
    requires WellFormed(fields) && Compact(fields) && j <= |fields|
    ensures Feeds(fields, st, LeastFrom(fields, j, skip), st')
    ensures Apart(fields, j, skip, st, st') && SeenFrom(fields, j, skip, st')
    decreases fields, |fields| - j
  {
    hide Feeds, WellFormed, Compact, LeastRecord, Noted;
    if j == |fields| {
      FeedsNothing(fields, st);
      st' := st;
    } else {
      var st1 := LeastRecordFeeds(fields, j, skip, st);
      st' := LeastFeeds(fields, j + 1, skip, st1);
      FeedsBoth(fields, st, LeastRecord(fields, j, skip), st1, LeastFrom(fields, j + 1, skip), st');
      ApartBoth(fields, j, skip, st, st1, st');
      NotedStays(fields, j, st1, st');
    }
  }

  lemma NotedStays(fields: seq<Field>, j: nat, st: State, st': State)
    requires j < |fields| && st.seen <= st'.seen
    ensures Noted(fields, j, st) ==> Noted(fields, j, st')
  {}

  lemma ApartBoth(fields: seq<Field>, j: nat, skip: nat, st: State, st1: State, st': State)
    requires j < |fields| && Apart(fields, j, skip, st, st1) && Apart(fields, j + 1, skip, st1, st')
    ensures Apart(fields, j, skip, st, st')
  {}

  lemma {:induction false} LeastRecordFeeds(fields: seq<Field>, j: nat, skip: nat, st: State) returns (st': State)
    requires WellFormed(fields) && Compact(fields) && j < |fields|
    ensures Feeds(fields, st, LeastRecord(fields, j, skip), st')
    ensures Apart(fields, j, skip, st, st')
    ensures j != skip ==> Noted(fields, j, st')
    decreases fields, |fields| - j, 0
  {
    var f := fields[j];
    if f.htype == Required && j != skip {
      assert WellFormedField(f) && CompactField(f);
      var e := Enter(fields, j, st).value;
      var v := LeastValueReads(f, Item(SlotOf(st.m, j), 0));
      RecordFeeds(fields, j, st, LeastValue(f), v);
      st' := RoundTrip.Stored(fields, j, e, v);
    } else {
      FeedsNothing(fields, st);
      st' := st;
    }
  }

  lemma AllNoted(fields: seq<Field>, skip: nat, st: State)
    requires SeenFrom(fields, 0, skip, st) && (skip < |fields| ==> Noted(fields, skip, st))
    ensures RoundTrip.SeenOk(fields, |fields|, st)
  {
    forall k | 0 <= k < |fields| && fields[k].htype == Required && RequiredBefore(fields, k) < PB_MAX_REQUIRED_FIELDS
      ensures RequiredBefore(fields, k) in st.seen
    {
      assert Noted(fields, k, st);
    }
  }

  /** The loop ends well after all records. */
  lemma Accepted(fields: seq<Field>, m: Msg, s: seq<Byte>, st: State)
    requires Feeds(fields, State(m, {}, None, 0), s, st)
    requires FixedComplete(fields, st) && RoundTrip.SeenOk(fields, |fields|, st)
    ensures DecodeNoInit(fields, m, s) == Ok(st.m, [])
  {
    assert s + [] == s;
    assert Loop(fields, State(m, {}, None, 0), s + []) == Loop(fields, st, []);
    RoundTrip.SeenAll(fields, st);
  }

  lemma {:induction false} LeastDecodes(fields: seq<Field>, m: Msg)
    requires WellFormed(fields) && Compact(fields)
    ensures DecodeNoInit(fields, m, Least(fields)).Ok?
    decreases fields, |fields| + 1
  {
    var st := LeastFeeds(fields, 0, |fields|, State(m, {}, None, 0));
    AllNoted(fields, |fields|, st);
    Accepted(fields, m, Least(fields), st);
  }

  // ---- Filling an array of nested messages ----

  /** Only slot i was written. */
  predicate Beside(fields: seq<Field>, i: nat, st: State, st': State)
  {
    && st'.seen == st.seen && st'.m.which == st.m.which && |st'.m.slots| == |st.m.slots|
    && (forall k :: 0 <= k < |fields| && k != i ==> SlotOf(st'.m, k) == SlotOf(st.m, k))
    && |SlotOf(st'.m, i).items| == |SlotOf(st.m, i).items|
  }

  /** The entries of array i below n are there. */
  predicate Filled(fields: seq<Field>, i: nat, n: nat, st: State)
    requires i < |fields|
  {
    NextIndex(fields[i], i, st) == n && if FixedCount(fields[i]) then st.fixed == Some(i) else st.fixed == None
  }

  predicate Entered(fields: seq<Field>, i: nat, j: nat, st: State)
    requires i < |fields|
  {
    Enter(fields, i, st).Some? && Filled(fields, i, j, Enter(fields, i, st).value)
  }

  /** One more entry, from the content c. */
  lemma EntryFeeds(fields: seq<Field>, i: nat, j: nat, c: seq<Byte>, st: State) returns (st': State)
    requires WellFormed(fields) && i < |fields| == |st.m.slots|
    requires fields[i].htype == Repeated && fields[i].ltype == LSubmessage && fields[i].ptr.SubFields?
    requires Entered(fields, i, j, st) && j < fields[i].arraySize == |st.m.slots[i].items|
    requires |c| < TWO_32 && Decode(fields[i].ptr.fields, SubOf(st.m.slots[i].items[j]), c).Ok?
    ensures Feeds(fields, st, Tag(WT_STRING, fields[i].tag) + Delimited(c), st')
    ensures Filled(fields, i, j + 1, st') && Entered(fields, i, j + 1, st') && Beside(fields, i, st, st')
    ensures st'.m.slots[i].items == st.m.slots[i].items[j :=
              Sub(Decode(fields[i].ptr.fields, SubOf(st.m.slots[i].items[j]), c).value)]
  {
    hide Feeds, DecodeNoInit, Defaults, Delimited, WellFormed;
    var f, e := fields[i], Enter(fields, i, st).value;
    var old_ := st.m.slots[i].items[j];
    SubReads(f, old_, c);
    var v := Sub(Decode(f.ptr.fields, SubOf(old_), c).value);
    RecordFeeds(fields, i, st, Delimited(c), v);
    st' := RoundTrip.Stored(fields, i, e, v);
  }

  /** Entries up to n: number k from the content c, the others from the shortest message. */
  lemma {:induction false} Fill(fields: seq<Field>, i: nat, j: nat, n: nat, k: nat, c: seq<Byte>, st: State)
    returns (s: seq<Byte>, st': State)
    requires WellFormed(fields) && Compact(fields) && i < |fields| == |st.m.slots|
    requires fields[i].htype == Repeated && fields[i].ltype == LSubmessage && fields[i].ptr.SubFields?
    requires Entered(fields, i, j, st) && j <= n <= fields[i].arraySize == |st.m.slots[i].items| && k < n
    requires |c| <= WeightFrom(fields[i].ptr.fields, 0)
    requires j <= k ==> Decode(fields[i].ptr.fields, SubOf(st.m.slots[i].items[k]), c).Ok?
    ensures Feeds(fields, st, s, st') && |s| <= (n - j) * EntryWeight(fields[i])
    ensures Entered(fields, i, n, st') && Beside(fields, i, st, st')
    ensures if j < n then Filled(fields, i, n, st') else st' == st
    ensures j <= k ==>
              st'.m.slots[i].items[k] == Sub(Decode(fields[i].ptr.fields, SubOf(st.m.slots[i].items[k]), c).value)
    ensures k < j ==> st'.m.slots[i].items[k] == st.m.slots[i].items[k]
    decreases n - j
  {
    hide Feeds, DecodeNoInit, Defaults, Delimited, WellFormed, Least, Filled, Enter;
    if j == n {
      FeedsNothing(fields, st);
      s, st' := [], st;
    } else {
      var f := fields[i];
      var content := if j == k then c else Least(f.ptr.fields);
      EntryContent(fields, i, st.m.slots[i].items[j], content, c);
      var st1 := EntryFeeds(fields, i, j, content, st);
      var s1;
      s1, st' := Fill(fields, i, j + 1, n, k, c, st1);
      s := Tag(WT_STRING, f.tag) + Delimited(content) + s1;
      FeedsBoth(fields, st, Tag(WT_STRING, f.tag) + Delimited(content), st1, s1, st');
      assert (n - j) * EntryWeight(f) == EntryWeight(f) + (n - j - 1) * EntryWeight(f);
    }
  }

  lemma EntryContent(fields: seq<Field>, i: nat, old_: Value, content: seq<Byte>, c: seq<Byte>)
    requires WellFormed(fields) && Compact(fields) && i < |fields|
    requires fields[i].ltype == LSubmessage && fields[i].ptr.SubFields? && |c| <= WeightFrom(fields[i].ptr.fields, 0)
    requires content == c || content == Least(fields[i].ptr.fields)
    ensures |content| < TWO_32
    ensures content == Least(fields[i].ptr.fields) ==> Decode(fields[i].ptr.fields, SubOf(old_), content).Ok?
    ensures |Tag(WT_STRING, fields[i].tag) + Delimited(content)| <= EntryWeight(fields[i])
  {
    var f := fields[i];
    assert WellFormedField(f) && CompactField(f);
    hide Decode, Least, WellFormed, Compact, Tag, Delimited;
    LeastWithin(f.ptr.fields);
    LeastAccepted(f.ptr.fields, SubOf(old_));
    RecordLength(f, content);
  }

  lemma LeastAccepted(fields: seq<Field>, m: Msg)
    requires WellFormed(fields) && Compact(fields)
    ensures Decode(fields, m, Least(fields)).Ok?
  {
    hide DecodeNoInit, Least, Defaults, WellFormed, Compact;
    LeastDecodes(fields, Defaults(fields, m));
  }

  lemma RecordLength(f: Field, c: seq<Byte>)
    requires WellFormedField(f) && f.ltype == LSubmessage && f.ptr.SubFields?
    requires |c| <= WeightFrom(f.ptr.fields, 0) < TWO_32
    ensures |Tag(WT_STRING, f.tag) + Delimited(c)| <= EntryWeight(f)
  {
    hide Tag, EncodeVarint, WeightFrom, WellFormedField;
    TagAtMostTen(f);
    VarintAtMostTen(|c|);
  }

  // ---- Bringing leftovers into the data ----

  /** Field i holds unsound data that counts, and the input may end once the other required fields were seen. */
  predicate Spoilt(level: Level, fields: seq<Field>, i: nat, st: State)
    requires i < |fields|
  {
    && |st.m.slots| == |fields| && fields[i].htype != Oneof && !SoundSlot(level, false, fields[i], st.m.slots[i])
    && FixedComplete(fields, st) && Noted(fields, i, st)
  }

  lemma {:induction false} DefaultAt(fields: seq<Field>, m: Msg, i: nat)
    requires i < |fields| && AllDefaultFrom(fields, 0, m)
    ensures IsDefault(fields, i, m)
  {
    Equality.DefaultAt(fields, 0, i, m);
  }

  /** In a proto3 submessage that counts as zero no data counts. */
  lemma ZeroIsSound(level: Level, f: Field, v: Value)
    requires WellFormedField(f) && Singular(f) && f.ltype == LSubmessage && ShapedValue(f, v) && IsZero(f, v)
    requires level.Data? || level.Encodable?
    ensures SoundIn(level, f.ptr.fields, v.m)
  {
    var fs, m := f.ptr.fields, v.m;
    forall i | 0 <= i < |fs| ensures SoundSlot(level, Selected(fs, i, m), fs[i], m.slots[i]) {
      DefaultAt(fs, m, i);
      assert ShapedSlot(fs[i], m.slots[i]) && WellFormedField(fs[i]);
    }
  }

  /** A nested message that brings in leftovers is a value that counts. */
  lemma SpoiltValue(level: Level, f: Field, m: Msg, c: seq<Byte>)
    requires WellFormedField(f) && f.ltype == LSubmessage && Shaped(f.ptr.fields, m) && Decode(f.ptr.fields, m, c).Ok?
    requires (level.Data? || level.Encodable?) && !SoundIn(level, f.ptr.fields, Decode(f.ptr.fields, m, c).value)
    ensures var v := Sub(Decode(f.ptr.fields, m, c).value); !SoundValue(level, f, v) && (Singular(f) ==> !IsZero(f, v))
  {
    hide Decode, IsZero;
    var v := Sub(Decode(f.ptr.fields, m, c).value);
    DecodeShaped(f.ptr.fields, m, c);
    if Singular(f) && IsZero(f, v) { ZeroIsSound(level, f, v); }
  }

  /** c brings leftovers in v into the data of the nested struct. */
  predicate Spoils(level: Level, f: Field, v: Value, c: seq<Byte>)
  {
    && f.ltype == LSubmessage && f.ptr.SubFields? && |c| <= WeightFrom(f.ptr.fields, 0)
    && Decode(f.ptr.fields, SubOf(v), c).Ok? && !SoundIn(level, f.ptr.fields, Decode(f.ptr.fields, SubOf(v), c).value)
  }

  lemma SingleSpoilt(level: Level, fields: seq<Field>, i: nat, st: State, v: Value)
    requires i < |fields| == |st.m.slots| && (fields[i].htype == Required || fields[i].htype == Optional)
    requires FixedComplete(fields, st) && |st.m.slots[i].items| == 1
    requires !SoundValue(level, fields[i], v) && (Singular(fields[i]) ==> !IsZero(fields[i], v))
    ensures Enter(fields, i, st).Some? && Spoilt(level, fields, i, RoundTrip.Stored(fields, i, Enter(fields, i, st).value, v))
  {
    hide SoundValue, IsZero;
    var f, st' := fields[i], RoundTrip.Stored(fields, i, Enter(fields, i, st).value, v);
    assert st'.m.slots[i].items[0] == v && Counts(level, f, false, st'.m.slots[i], 0);
  }

  /** A record for the only entry of field i. */
  lemma SpoilSingle(level: Level, fields: seq<Field>, i: nat, dest: Msg, c: seq<Byte>) returns (s: seq<Byte>, st: State)
    requires WellFormed(fields) && Compact(fields) && Shaped(fields, dest) && i < |fields|
    requires level.Data? || level.Encodable?
    requires fields[i].htype == Required || fields[i].htype == Optional
    requires Spoils(level, fields[i], Item(dest.slots[i], 0), c)
    ensures Feeds(fields, State(Defaults(fields, dest), {}, None, 0), s, st) && Spoilt(level, fields, i, st)
    ensures |s| <= FieldWeight(fields[i])
  {
    hide WellFormed, WellFormedField, Compact, Decode, DecodeNoInit, Defaults, SoundIn, SoundValue;
    hide Spoilt, IsZero, Tag, Delimited, Feeds, Reads, RoundTrip.Stored, RoundTrip.Destination, Enter, ShapedSlot,
         WeightFrom, EntryWeight;
    var f, old_, st0 := fields[i], Item(dest.slots[i], 0), State(Defaults(fields, dest), {}, None, 0);
    SingleShape(fields, i, dest);
    DefaultTarget(fields, i, dest);
    SpoiltValue(level, f, SubOf(old_), c);
    SingleReads(f, old_, c);
    var v := Sub(Decode(f.ptr.fields, SubOf(old_), c).value);
    SingleSpoilt(level, fields, i, st0, v);
    RecordFeeds(fields, i, st0, Delimited(c), v);
    s, st := Tag(WireType(f), f.tag) + Delimited(c), RoundTrip.Stored(fields, i, Enter(fields, i, st0).value, v);
    RecordLength(f, c);
  }

  lemma SingleShape(fields: seq<Field>, i: nat, dest: Msg)
    requires WellFormed(fields) && Compact(fields) && Shaped(fields, dest) && i < |fields| && fields[i].htype != Repeated
    requires fields[i].ltype == LSubmessage
    ensures WellFormedField(fields[i]) && CompactField(fields[i])
    ensures |dest.slots[i].items| == 1 && Shaped(fields[i].ptr.fields, SubOf(Item(dest.slots[i], 0)))
  {
    assert ShapedSlot(fields[i], dest.slots[i]) && ShapedValue(fields[i], dest.slots[i].items[0]);
    assert WellFormedField(fields[i]) && CompactField(fields[i]);
  }

  lemma SingleReads(f: Field, old_: Value, c: seq<Byte>)
    requires f.ltype == LSubmessage && f.ptr.SubFields? && |c| < TWO_32 && f.htype != Repeated
    requires Decode(f.ptr.fields, SubOf(old_), c).Ok?
    ensures Reads(f, Sub(Defaults(f.ptr.fields, SubOf(old_))), Delimited(c), Sub(Decode(f.ptr.fields, SubOf(old_), c).value))
  {
    hide Reads, DecodeNoInit, Defaults;
    SubReads(f, Sub(Defaults(f.ptr.fields, SubOf(old_))), c);
  }

  /** A single submessage is decoded into its default value. */
  lemma DefaultTarget(fields: seq<Field>, i: nat, dest: Msg)
    requires i < |fields| && fields[i].ltype == LSubmessage && fields[i].ptr.SubFields?
    requires fields[i].htype == Required || fields[i].htype == Optional
    requires |dest.slots| == |fields| && |dest.slots[i].items| == 1
    ensures var st, f := State(Defaults(fields, dest), {}, None, 0), fields[i];
            && |st.m.slots[i].items| == 1 && Enter(fields, i, st).Some?
            && RoundTrip.Destination(fields, i, st) == RoundTrip.Destination(fields, i, Enter(fields, i, st).value)
               == Sub(Defaults(f.ptr.fields, SubOf(Item(dest.slots[i], 0))))
  {
    var st := State(Defaults(fields, dest), {}, None, 0);
    var f, old_ := fields[i], dest.slots[i].items[0];
    assert st.m.slots[i] == DefaultSlot(f, dest.slots[i]);
    assert DefaultValue(f, old_) == Sub(Defaults(f.ptr.fields, SubOf(old_)));
    assert st.m.slots[i].items == [DefaultValue(f, old_)];
    assert Enter(fields, i, st).value.m == st.m;
  }

  lemma ArraySpoilt(level: Level, fields: seq<Field>, i: nat, n: nat, k: nat, st: State)
    requires i < |fields| == |st.m.slots| && fields[i].htype == Repeated && k < n && k < |st.m.slots[i].items|
    requires Filled(fields, i, n, st) && (FixedCount(fields[i]) ==> n == fields[i].arraySize)
    requires !SoundValue(level, fields[i], st.m.slots[i].items[k])
    ensures Spoilt(level, fields, i, st)
  {
    hide SoundValue;
    assert Counts(level, fields[i], false, st.m.slots[i], k);
  }

  /** Records for the entries of array i up to number k, or for all of them if the array has no count. */
  lemma SpoilArray(level: Level, fields: seq<Field>, i: nat, k: nat, dest: Msg, c: seq<Byte>)
    returns (s: seq<Byte>, st: State)
    requires WellFormed(fields) && Compact(fields) && Shaped(fields, dest) && i < |fields|
    requires level.Data? || level.Encodable?
    requires fields[i].htype == Repeated && k < |dest.slots[i].items|
    requires Spoils(level, fields[i], Item(DefaultSlot(fields[i], dest.slots[i]), k), c)
    ensures Feeds(fields, State(Defaults(fields, dest), {}, None, 0), s, st) && Spoilt(level, fields, i, st)
    ensures |s| <= FieldWeight(fields[i])
  {
    var f, st0 := fields[i], State(Defaults(fields, dest), {}, None, 0);
    assert ShapedSlot(f, dest.slots[i]);
    assert st0.m.slots[i] == DefaultSlot(f, dest.slots[i]);
    var n := if FixedCount(f) then f.arraySize else k + 1;
    assert Entered(fields, i, 0, st0);
    hide *;
    s, st := Fill(fields, i, 0, n, k, c, st0);
    ArraySpoilt(level, fields, i, n, k, st);
    MoreWeight(n, f);
  }

  lemma MoreWeight(n: nat, f: Field)
    requires f.htype == Repeated && f.ltype == LSubmessage && n <= f.arraySize
    ensures n * EntryWeight(f) <= FieldWeight(f)
  {}

  /** Some input accepted up to the other required fields brings in what is wrong with slot i. */
  lemma {:induction false} SpoilField(level: Level, fields: seq<Field>, i: nat, dest: Msg)
    returns (s: seq<Byte>, st: State)
    requires WellFormed(fields) && Compact(fields) && Shaped(fields, dest) && i < |fields|
    requires level.Data? || level.Encodable?
    requires !CleanSlot(level, fields[i], dest.slots[i])
    ensures Feeds(fields, State(Defaults(fields, dest), {}, None, 0), s, st) && Spoilt(level, fields, i, st)
    ensures |s| <= FieldWeight(fields[i])
    decreases fields, 0
  {
    var f, slot := fields[i], dest.slots[i];
    assert ShapedSlot(f, slot) && WellFormedField(f) && CompactField(f);
    hide Feeds, DecodeNoInit, SoundValue, CleanValue, ShapedValue, WellFormed, Shaped, Compact;
    hide WellFormedField, ClearItems;
    var items := if FixedCount(f) then ClearItems(f, slot.items, SIZEOF_PB_SIZE) else slot.items;
    var k: nat :| k < |items|
      && !(CleanValue(level, f, items[k]) && (FixedCount(f) ==> SoundValue(level, f, items[k])));
    if FixedCount(f) && !SoundValue(level, f, items[k]) {
      var st0 := State(Defaults(fields, dest), {}, None, 0);
      FeedsNothing(fields, st0);
      s, st := [], st0;
      assert st0.m.slots[i] == DefaultSlot(f, slot);
      assert Counts(level, f, false, st.m.slots[i], k);
    } else {
      if FixedCount(f) { FixedShaped(f, slot); }
      assert ShapedValue(f, items[k]);
      var c := SpoilValue(level, f, items[k]);
      if f.htype == Repeated {
        s, st := SpoilArray(level, fields, i, k, dest, c);
      } else {
        s, st := SpoilSingle(level, fields, i, dest, c);
      }
    }
  }

  lemma {:induction false} SpoilValue(level: Level, f: Field, v: Value) returns (c: seq<Byte>)
    requires WellFormedField(f) && CompactField(f) && ShapedValue(f, v) && (level.Data? || level.Encodable?)
    requires !CleanValue(level, f, v)
    ensures Spoils(level, f, v, c)
    decreases f, 0
  {
    c := Spoil(level, f.ptr.fields, v.m);
  }

  /** If memory is not clean, some input is accepted and leaves data that is not sound. */
  lemma {:induction false} Spoil(level: Level, fields: seq<Field>, dest: Msg) returns (s: seq<Byte>)
    requires WellFormed(fields) && Compact(fields) && Shaped(fields, dest) && (level.Data? || level.Encodable?)
    requires !CleanIn(level, fields, dest)
    ensures Decode(fields, dest, s).Ok? && !SoundIn(level, fields, Decode(fields, dest, s).value)
    ensures |s| <= WeightFrom(fields, 0)
    decreases fields, 1
  {
    hide Feeds, SoundSlot, CleanSlot, DecodeNoInit;
    var i: nat :| i < |fields| && !CleanSlot(level, fields[i], dest.slots[i]);
    var s1, st1 := SpoilField(level, fields, i, dest);
    var st := LeastFeeds(fields, 0, i, st1);
    var m := Defaults(fields, dest);
    FeedsBoth(fields, State(m, {}, None, 0), s1, st1, LeastFrom(fields, 0, i), st);
    s := s1 + LeastFrom(fields, 0, i);
    LeastLength(fields, 0, i);
    AllNoted(fields, i, st);
    Accepted(fields, m, s, st);
    UnchosenSlot(level, Selected(fields, i, st.m), fields[i], st.m.slots[i]);
  }

  /** For a field that is not in a union it does not matter what is chosen. */
  lemma UnchosenSlot(level: Level, chosen: bool, f: Field, s: Slot)
    requires f.htype != Oneof
    ensures SoundSlot(level, chosen, f, s) <==> SoundSlot(level, false, f, s)
  {
    hide SoundValue;
  }

  /**
   * The data of whatever pb_decode accepts is sound exactly when the memory was clean: when every entry of every
   * array without a count, in nested structs too but not in union members, was sound before, behind the four bytes
   * that are cleared at the start of each such array.
   */
  lemma TidyExactly(fields: seq<Field>, dest: Msg)
    requires WellFormed(fields) && Compact(fields) && Shaped(fields, dest)
    ensures (forall s: seq<Byte> :: Decode(fields, dest, s).Ok? ==> Tidy(fields, Decode(fields, dest, s).value))
       <==> CleanIn(Data, fields, dest)
  {
    hide Decode, SoundIn, CleanIn, Shaped;
    if CleanIn(Data, fields, dest) {
      forall s: seq<Byte> | Decode(fields, dest, s).Ok? ensures Tidy(fields, Decode(fields, dest, s).value) {
        DecodeTidy(Data, fields, dest, s);
      }
    } else {
      var s := Spoil(Data, fields, dest);
    }
  }

  /** And it can always be encoded again exactly when every such entry can be encoded. */
  lemma EncodesExactly(fields: seq<Field>, dest: Msg)
    requires WellFormed(fields) && Compact(fields) && Shaped(fields, dest)
    ensures (forall s: seq<Byte> :: Decode(fields, dest, s).Ok? ==>
               EncodeMessage(fields, Decode(fields, dest, s).value).Some?)
       <==> CleanIn(Encodable, fields, dest)
  {
    hide Decode, SoundIn, CleanIn, Shaped, EncodeMessage;
    if CleanIn(Encodable, fields, dest) {
      forall s: seq<Byte> | Decode(fields, dest, s).Ok?
        ensures EncodeMessage(fields, Decode(fields, dest, s).value).Some?
      {
        DecodeTidy(Encodable, fields, dest, s);
        SoundEncodes(Encodable, fields, Decode(fields, dest, s).value);
      }
    } else {
      var s := Spoil(Encodable, fields, dest);
      DecodeShaped(fields, dest, s);
      if EncodeMessage(fields, Decode(fields, dest, s).value).Some? {
        EncodesSound(fields, Decode(fields, dest, s).value);
      }
    }
  }

  /** An array without a count, of two bytes arrays that hold up to four bytes. */
  const GARBAGE: Field := Field(2, LBytes, Repeated, Static, 0, 0, 8, 2, Null)

  /** The second has a length of five. */
  function Garbage(): Slot { Slot(false, 0, [Bytes([]), Bytes([7, 7, 7, 7, 7])]) }

  lemma GarbageNotClean()
    ensures WellFormedField(GARBAGE) && ShapedSlot(GARBAGE, Garbage()) && !CleanSlot(Encodable, GARBAGE, Garbage())
    ensures DefaultSlot(GARBAGE, Garbage()) == Garbage()
    ensures forall chosen :: !SoundSlot(Encodable, chosen, GARBAGE, Garbage())
  {
    var items := Garbage().items;
    assert ClearItems(GARBAGE, items, SIZEOF_PB_SIZE) == items;
    assert !SoundValue(Encodable, GARBAGE, ClearItems(GARBAGE, items, SIZEOF_PB_SIZE)[1]);
    forall chosen ensures !SoundSlot(Encodable, chosen, GARBAGE, Garbage()) {
      assert Counts(Encodable, GARBAGE, chosen, Garbage(), 1) && !SoundValue(Encodable, GARBAGE, items[1]);
    }
  }

  /**
   * Why memory must be clean: an array without a count that does not occur in the input is accepted as it is but for
   * its first four bytes, and a bytes array that claims more than its capacity cannot be encoded.
   */
  lemma UncountedGarbage() returns (fields: seq<Field>, dest: Msg)
    ensures WellFormed(fields) && Shaped(fields, dest) && Decode(fields, dest, []).Ok?
    ensures EncodeMessage(fields, Decode(fields, dest, []).value).None?
  {
    hide ShapedSlot, SoundSlot, CleanSlot, DefaultSlot, EncodeMessage, AllSeen;
    GarbageNotClean();
    fields, dest := [GARBAGE], Msg([Garbage()], map[]);
    assert Defaults(fields, dest).slots == dest.slots;
    var st := State(dest, {}, None, 0);
    assert Loop(fields, st, []) == Ok(st, []);
    RoundTrip.SeenAll(fields, st);
    assert !SoundSlot(Encodable, Selected(fields, 0, dest), fields[0], dest.slots[0]);
    if EncodeMessage(fields, dest).Some? { EncodesSound(fields, dest); }
  }
}
