/** pb_decode as a fold over the records of its input: what one record does to the struct, whatever form its
    numbers take, and that records of unknown fields do nothing. */
module Merge {
  import opened Bits
  import opened Descriptor
  import opened Varint
  import opened EncodeSpec
  import opened DecodeSpec
  import opened WireFormat
  import opened Spelling
  import opened Overlong
  import RoundTrip

  // ---- What a payload means for a field ----

  /** The low 32 or 64 bits of a number as a two's complement integer. */
  function TwosComplement(v: nat, wide: bool): int
  {
    var m := if wide then 0x1_0000_0000_0000_0000 else 0x1_0000_0000;
    if v % m < m / 2 then v % m else v % m - m
  }

  /** An even number is a non-negative integer, an odd one a negative integer. */
  function FromZigZag(v: nat): int { if v % 2 == 0 then v / 2 else 0 - (v + 1) / 2 }

  function FromLow(b: seq<Byte>): nat { if b == [] then 0 else b[0] + 0x100 * FromLow(b[1..]) }

  /** The integer that payload p spells for field f, if it fits in the field. */
  function IntegerOf(f: Field, p: Payload): Option<int>
  {
    match p
    case Number(v) =>
      var u := v % 0x1_0000_0000_0000_0000;
      if f.ltype == LUvarint then if InUnsigned(u, f.dataSize) then Some(u) else None
      else
        var i := if f.ltype == LVarint then TwosComplement(u, f.dataSize == 8) else FromZigZag(u);
        if InSigned(i, f.dataSize) then Some(i) else None
    case _ => Some(FromLow(p.b))
  }

  /** The entry that payload p spells for field f, put into the memory old_. */
  function EntryOf(f: Field, old_: Value, p: Payload): Option<Value>
    decreases f, 0
  {
    if Packable(f) then
      var i := IntegerOf(f, p);
      if i.Some? then Some(Int(i.value)) else None
    else if !p.Contents? then None
    else if f.ltype == LBytes then if |p.b| + SIZEOF_PB_SIZE <= f.dataSize then Some(Bytes(p.b)) else None
    else if f.ltype == LString then if |p.b| + 1 <= f.dataSize then Some(Chars(StoreString(old_, p.b))) else None
    else if f.ltype == LInline then
      if p.b == [] then Some(Inline(Zeros(f.dataSize)))
      else if |p.b| == f.dataSize then Some(Inline(p.b)) else None
    else if f.ltype == LSubmessage && f.ptr.SubFields? && Parse(p.b).Some? then
      var m := MergeInto(f.ptr.fields, RoundTrip.Start(f, old_), Parse(p.b).value);
      if m.Some? then Some(Sub(m.value)) else None
    else None
  }

  /** The entries of a packed array are appended until they or the array run out. */
  function MergePacked(f: Field, i: nat, st: State, b: seq<Byte>): Option<State>
    decreases |b|
  {
    if b == [] then Some(st)
    else if NextIndex(f, i, st) >= f.arraySize then None
    else
      var p := ReadPayload(Kind(f), b);
      if p.Fail? || |p.rest| >= |b| then None
      else
        var v := IntegerOf(f, p.value);
        if v.Some? then MergePacked(f, i, Append(f, i, st, Int(v.value)), p.rest) else None
  }

  function MergeField(fields: seq<Field>, i: nat, st: State, p: Payload): Option<State>
    requires i < |fields|
    decreases fields, 0
  {
    var f, e := fields[i], Enter(fields, i, st);
    if e.None? then None
    else if f.htype == Repeated && Packable(f) && p.Contents? then MergePacked(f, i, e.value, p.b)
    else if f.htype == Repeated && NextIndex(f, i, e.value) >= f.arraySize then None
    else
      var v := EntryOf(f, RoundTrip.Destination(fields, i, e.value), p);
      if v.Some? then Some(RoundTrip.Stored(fields, i, e.value, v.value)) else None
  }

  /** A record whose number no field has is ignored. */
  function MergeRecord(fields: seq<Field>, st: State, r: RawRecord): Option<State>
    decreases fields, 1
  {
    var i := FindFrom(fields, 0, r.number);
    if i.Some? then MergeField(fields, i.value, st, r.payload) else Some(st)
  }

  function MergeAll(fields: seq<Field>, st: State, rs: seq<RawRecord>): Option<State>
    decreases fields, 2, |rs|
  {
    if rs == [] then Some(st)
    else
      var st' := MergeRecord(fields, st, rs[0]);
      if st'.Some? then MergeAll(fields, st'.value, rs[1..]) else None
  }

  /** The struct after the records, if no array of fixed length is short and no required field is missing. */
  function MergeInto(fields: seq<Field>, m: Msg, rs: seq<RawRecord>): Option<Msg>
    decreases fields, 3
  {
    var st := MergeAll(fields, State(m, {}, None, 0), rs);
    if st.Some? && FixedComplete(fields, st.value) && AllSeen(fields, st.value.seen) then Some(st.value.m) else None
  }

  // ---- Records that have the form their fields ask for ----

  /** The payload has the wire type of the field, or that of a packed array; contents are below 2^32 bytes, and
      those of a message are records of the same kind. */
  predicate Suits(f: Field, p: Payload)
    decreases f, 0
  {
    if p.Contents? then
      && |p.b| < 0x1_0000_0000
      && (if Packable(f) then f.htype == Repeated
          else f.ltype == LSubmessage && f.ptr.SubFields? ==> Parse(p.b).Some? && Matched(f.ptr.fields, Parse(p.b).value))
    else Kind(f) == if p.Number? then 0 else if p.Eight? then 1 else 5
  }

  predicate Matched(fields: seq<Field>, rs: seq<RawRecord>)
    decreases fields, 1
  {
    forall k :: 0 <= k < |rs| ==> Matches(fields, rs[k])
  }

  predicate Matches(fields: seq<Field>, r: RawRecord)
    decreases fields, 0
  {
    && (r.payload.Contents? ==> |r.payload.b| < 0x1_0000_0000)
    && forall i :: 0 <= i < |fields| && fields[i].tag == r.number ==> Suits(fields[i], r.payload)
  }

  // ---- One payload ----

  lemma TwosComplementIs(v: nat, wide: bool)
    ensures ToSigned(v, if wide then 8 else 4) == TwosComplement(v, wide)
  {}

  lemma FitsSigned(i: int, n: nat)
    requires IntegerSize(n)
    ensures ToSigned(i, n) == i <==> InSigned(i, n)
  {
    if n == 1 {
    } else if n == 2 {
    } else if n == 4 {
    } else {
      assert n == 8;
    }
  }

  lemma FitsUnsigned(u: nat, n: nat)
    requires IntegerSize(n)
    ensures u % Modulus(n) == u <==> InUnsigned(u, n)
  {}

  lemma {:induction false} LowIs(b: seq<Byte>)
    ensures FromLittleEndian(b) == FromLow(b)
  {
    if b != [] { LowIs(b[1..]); }
  }

  /** A varint field reads every form of its number. */
  lemma VarintReads(f: Field, s: seq<Byte>, p: Payload, rest: seq<Byte>)
    requires WellFormedField(f) && f.ltype in {LVarint, LUvarint, LSvarint} && ReadPayload(0, s) == Ok(p, rest)
    ensures Integer(f, s) == if IntegerOf(f, p).Some? then Ok(Int(IntegerOf(f, p).value), rest) else Fail
  {
    hide ReadVarint, Decode64, ToSigned, TwosComplement, Modulus;
    Decode64Exactly(s);
    var u := p.v % TWO_64;
    TwosComplementIs(u, f.dataSize == 8);
    FitsSigned(TwosComplement(u, f.dataSize == 8), f.dataSize);
    FitsSigned(FromZigZag(u), f.dataSize);
    FitsUnsigned(u, f.dataSize);
    assert UnZigZag(u) == FromZigZag(u);
  }

  lemma IntegerReads(f: Field, s: seq<Byte>)
    requires WellFormedField(f) && Packable(f)
    ensures var p := ReadPayload(Kind(f), s);
            && Integer(f, s) == (if p.Ok? && IntegerOf(f, p.value).Some? then Ok(Int(IntegerOf(f, p.value).value), p.rest) else Fail)
            && (p.Ok? ==> |p.rest| < |s|)
  {
    hide ReadVarint, Decode64, FromLittleEndian, FromLow;
    var p := ReadPayload(Kind(f), s);
    if f.ltype == LFixed32 || f.ltype == LFixed64 {
      if p.Ok? { LowIs(p.value.b); }
    } else if p.Ok? {
      VarintReads(f, s, p.value, p.rest);
    } else {
      Decode64Exactly(s);
    }
  }

  /** A length in any form below 2^32, and the contents. */
  lemma LengthReads(s: seq<Byte>, b: seq<Byte>, rest: seq<Byte>)
    requires ReadPayload(2, s) == Ok(Contents(b), rest) && |b| < TWO_32
    ensures Decode32(s) == Ok(|b|, b + rest) && Take(b + rest, |b|) == Ok(b, rest) && Substream(s) == Ok(b, rest)
  {
    hide ReadVarint, Decode32;
    var n := ReadVarint(s, 10);
    Decode32Any(s);
    assert n.rest == b + rest;
    assert (b + rest)[..|b|] == b && (b + rest)[|b|..] == rest;
  }

  lemma BlobReads(f: Field, old_: Value, s: seq<Byte>, b: seq<Byte>, rest: seq<Byte>)
    requires WellFormedField(f) && RoundTrip.IsBlob(f) && ReadPayload(2, s) == Ok(Contents(b), rest) && |b| < TWO_32
    ensures Blob(f, old_, s) == if EntryOf(f, old_, Contents(b)).Some? then Ok(EntryOf(f, old_, Contents(b)).value, rest) else Fail
  {
    hide Decode32, ReadPayload;
    LengthReads(s, b, rest);
  }

  lemma PackedReads(f: Field, i: nat, st: State, b: seq<Byte>)
    requires WellFormedField(f) && Packable(f)
    ensures PackedLoop(f, i, st, b) == MergePacked(f, i, st, b)
    decreases |b|
  {
    hide Append, ReadPayload, IntegerOf, Integer;
    IntegerReads(f, b);
    var p := ReadPayload(Kind(f), b);
    if b != [] && p.Ok? && IntegerOf(f, p.value).Some? {
      PackedReads(f, i, Append(f, i, st, Int(IntegerOf(f, p.value).value)), p.rest);
    }
  }

  // ---- Unknown fields ----

  lemma {:induction false} SkipsNumber(s: seq<Byte>, most: nat)
    requires ReadVarint(s, most).Ok?
    ensures SkipVarint(s) == Ok((), ReadVarint(s, most).rest)
  {
    if s[0] >= 0x80 { SkipsNumber(s[1..], most - 1); }
  }

  lemma PayloadSkips(wireType: nat, s: seq<Byte>)
    requires ReadPayload(wireType, s).Ok?
    requires var p := ReadPayload(wireType, s).value; p.Contents? ==> |p.b| < TWO_32
    ensures SkipField(wireType, s) == Ok((), ReadPayload(wireType, s).rest)
  {
    hide ReadVarint, Decode32, SkipVarint;
    var p := ReadPayload(wireType, s);
    if wireType == 0 {
      SkipsNumber(s, 10);
    } else if wireType == 2 {
      LengthReads(s, p.value.b, p.rest);
      assert (p.value.b + p.rest)[|p.value.b|..] == p.rest;
    }
  }

  // ---- One record, and all of them ----

  lemma {:induction false} EntryReads(f: Field, old_: Value, s: seq<Byte>, p: Payload, rest: seq<Byte>)
    requires WellFormedField(f) && Suits(f, p) && !(Packable(f) && p.Contents?) && ReadPayload(Kind(f), s) == Ok(p, rest)
    ensures DecodeValue(f, old_, s) == if EntryOf(f, old_, p).Some? then Ok(EntryOf(f, old_, p).value, rest) else Fail
    decreases f, 1
  {
    hide ReadPayload, Integer, IntegerOf, Blob;
    if Packable(f) {
      IntegerReads(f, s);
    } else if RoundTrip.IsBlob(f) {
      BlobReads(f, old_, s, p.b, rest);
    } else {
      LengthReads(s, p.b, rest);
      MessageReads(f.ptr.fields, RoundTrip.Start(f, old_), p.b);
    }
  }

  lemma {:induction false} FieldReads(fields: seq<Field>, i: nat, wireType: nat, st: State, s: seq<Byte>, p: Payload,
                                      rest: seq<Byte>)
    requires WellFormed(fields) && i < |fields| && Suits(fields[i], p) && ReadPayload(wireType, s) == Ok(p, rest)
    ensures var st' := MergeField(fields, i, st, p);
            DecodeField(fields, i, wireType, st, s) == if st'.Some? then Ok(st'.value, rest) else Fail
    decreases fields, 2
  {
    hide DecodeValue, EntryOf, Append, Enter, Substream, PackedLoop, MergePacked;
    var f, e := fields[i], Enter(fields, i, st);
    assert WellFormedField(f);
    assert wireType == if p.Number? then 0 else if p.Eight? then 1 else if p.Four? then 5 else 2;
    hide ReadPayload;
    if e.None? {
    } else if Packable(f) && p.Contents? {
      LengthReads(s, p.b, rest);
      PackedReads(f, i, e.value, p.b);
    } else {
      EntryReads(f, RoundTrip.Destination(fields, i, e.value), s, p, rest);
      if f.htype != Repeated { RoundTrip.SingleField(fields, i, wireType, st, s); }
    }
  }

  lemma {:induction false} RecordReads(fields: seq<Field>, st: State, s: seq<Byte>)
    requires WellFormed(fields) && ReadRecord(s).Ok? && Matches(fields, ReadRecord(s).value)
    ensures var st' := MergeRecord(fields, st, ReadRecord(s).value);
            Loop(fields, st, s) == if st'.Some? then Loop(fields, st'.value, ReadRecord(s).rest) else Fail
    decreases fields, 3
  {
    hide ReadPayload, ReadVarint, Decode32, DecodeField, SkipField, MergeField;
    var key, r := ReadVarint(s, 10), ReadRecord(s);
    Decode32Any(s);
    var i := FindFrom(fields, 0, r.value.number);
    if i.Some? {
      FieldReads(fields, i.value, key.value % 8, st, key.rest, r.value.payload, r.rest);
    } else {
      PayloadSkips(key.value % 8, key.rest);
    }
  }

  lemma {:induction false} LoopReads(fields: seq<Field>, st: State, s: seq<Byte>)
    requires WellFormed(fields) && Parse(s).Some? && Matched(fields, Parse(s).value)
    ensures var st' := MergeAll(fields, st, Parse(s).value);
            Loop(fields, st, s) == if st'.Some? then Ok(st'.value, []) else Fail
    decreases fields, 4, |s|
  {
    hide ReadRecord, MergeRecord, Matches;
    if s != [] {
      var rs, r := Parse(s).value, ReadRecord(s);
      assert rs[0] == r.value && rs[1..] == Parse(r.rest).value;
      assert Matches(fields, rs[0]);
      forall k | 0 <= k < |rs| - 1 ensures Matches(fields, rs[1..][k]) { assert Matches(fields, rs[k + 1]); }
      RecordReads(fields, st, s);
      var st' := MergeRecord(fields, st, rs[0]);
      if st'.Some? { LoopReads(fields, st'.value, r.rest); }
    }
  }

  /** Decoding is merging the records of the input one by one. */
  lemma {:induction false} MessageReads(fields: seq<Field>, m: Msg, s: seq<Byte>)
    requires WellFormed(fields) && Parse(s).Some? && Matched(fields, Parse(s).value)
    ensures var m' := MergeInto(fields, m, Parse(s).value);
            DecodeNoInit(fields, m, s) == if m'.Some? then Ok(m'.value, []) else Fail
    decreases fields, 5
  {
    hide Parse, Loop, MergeAll, AllSeen, FixedComplete;
    LoopReads(fields, State(m, {}, None, 0), s);
  }
}
