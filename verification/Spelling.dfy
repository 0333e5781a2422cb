/** What pb_encode writes is the Protocol Buffers form of the message: read without a descriptor it is one record
    for each field that is written, in order, with the field's number, and a payload that spells its value. */
module Spelling {
  import opened Bits
  import opened Descriptor
  import opened Varint
  import opened EncodeSpec
  import opened WireFormat

  // ---- Payloads and the values they spell ----

  /** The wire type that the format gives a field's entries. */
  function Kind(f: Field): nat
  {
    match f.ltype
    case LVarint => 0
    case LUvarint => 0
    case LSvarint => 0
    case LFixed64 => 1
    case LFixed32 => 5
    case _ => 2
  }

  /** b is i in little-endian bytes. */
  predicate SpellsLow(i: int, b: seq<Byte>)
    decreases |b|
  {
    if b == [] then i == 0 else i % 0x100 == b[0] && SpellsLow(i / 0x100, b[1..])
  }

  /** The payload p spells the entry v: int and enum as 64-bit two's complement, sint in zig-zag order, fixed
      integers in little-endian bytes, strings without their terminator, and messages as their records. */
  predicate Spelled(f: Field, v: Value, p: Payload)
    decreases f, 0
  {
    match f.ltype
    case LVarint => p.Number? && v.Int? && p.v == if v.i < 0 then 0x1_0000_0000_0000_0000 + v.i else v.i
    case LUvarint => p.Number? && v.Int? && p.v == v.i
    case LSvarint => p.Number? && v.Int? && p.v == if v.i < 0 then -2 * v.i - 1 else 2 * v.i
    case LFixed32 => p.Four? && v.Int? && |p.b| == 4 && SpellsLow(v.i, p.b)
    case LFixed64 => p.Eight? && v.Int? && |p.b| == 8 && SpellsLow(v.i, p.b)
    case LBytes => p.Contents? && v.Bytes? && p.b == v.b
    case LString => p.Contents? && v.Chars? && p.b <= v.mem && 0 !in p.b && (p.b < v.mem ==> v.mem[|p.b|] == 0)
    case LInline => p.Contents? && v.Inline? && p.b == v.raw
    case LSubmessage =>
      && p.Contents? && v.Sub? && f.ptr.SubFields?
      && Parse(p.b).Some? && Spells(f.ptr.fields, v.m, Parse(p.b).value)
    case LExtension => false
  }

  /** The contents b of a packed array are its entries, one after the other, without keys. */
  predicate Packs(f: Field, items: seq<Value>, b: seq<Byte>)
    decreases f, 1, |items|
  {
    if items == [] then b == []
    else
      var p := ReadPayload(Kind(f), b);
      p.Ok? && Spelled(f, items[0], p.value) && Packs(f, items[1..], p.rest)
  }

  /** One record for each entry. */
  predicate SpelledEach(f: Field, items: seq<Value>, rs: seq<RawRecord>)
    decreases f, 1
  {
    && |rs| == |items|
    && forall k :: 0 <= k < |rs| ==> rs[k].number == f.tag && Spelled(f, items[k], rs[k].payload)
  }

  // ---- Which fields are written ----

  /** An array without a _count member is always full. */
  function Length(f: Field, s: Slot): nat { if f.sizeOffset == 0 then f.arraySize else s.count }

  /** Field i of m is written: a required field always, an array if it has entries, the member that its union
      selects, an optional field if it is there and, without a has_ member, if it is not blank. */
  predicate Written(fields: seq<Field>, i: nat, m: Msg)
    requires i < |fields|
    decreases fields, 0
  {
    var f, s := fields[i], SlotOf(m, i);
    match f.htype
    case Required => true
    case Repeated => Length(f, s) > 0
    case Oneof => Which(m, SizePos(fields, i)) == f.tag
    case Optional => if f.sizeOffset != 0 then s.has else !Blank(f, Item(s, 0))
  }

  /** Zero, the empty string, or a message of which nothing is written and whose unions select nothing. */
  predicate Blank(f: Field, v: Value)
    decreases f, 1
  {
    match f.ltype
    case LBytes => v == Bytes([])
    case LString => v.Chars? && v.mem != [] && v.mem[0] == 0
    case LInline => v == Inline([])
    case LSubmessage => v.Sub? && f.ptr.SubFields? && forall j :: 0 <= j < |f.ptr.fields| ==> Unset(f.ptr.fields, j, v.m)
    case _ => v == Int(0)
  }

  predicate Unset(fields: seq<Field>, i: nat, m: Msg)
    requires i < |fields|
    decreases fields, 1
  {
    !Written(fields, i, m) && (fields[i].htype == Oneof ==> Which(m, SizePos(fields, i)) == 0)
  }

  /** How many records field i of m takes: an array that is not packed has one for each entry. */
  function Records(fields: seq<Field>, i: nat, m: Msg): nat
    requires i < |fields|
  {
    var f := fields[i];
    if !Written(fields, i, m) then 0
    else if f.htype == Repeated && !Packable(f) then Length(f, SlotOf(m, i))
    else 1
  }

  predicate SpellsField(f: Field, s: Slot, rs: seq<RawRecord>)
    decreases f, 2
  {
    if f.htype != Repeated then |s.items| > 0 && SpelledEach(f, s.items[..1], rs)
    else
      var n := Length(f, s);
      && n <= |s.items|
      && if !Packable(f) then SpelledEach(f, s.items[..n], rs)
         else |rs| == 1 && rs[0].number == f.tag && rs[0].payload.Contents? && Packs(f, s.items[..n], rs[0].payload.b)
  }

  predicate SpellsFrom(fields: seq<Field>, i: nat, m: Msg, rs: seq<RawRecord>)
    requires i <= |fields|
    decreases fields, |fields| - i
  {
    if i == |fields| then rs == []
    else
      var n := Records(fields, i, m);
      && n <= |rs|
      && (Written(fields, i, m) ==> SpellsField(fields[i], SlotOf(m, i), rs[..n]))
      && SpellsFrom(fields, i + 1, m, rs[n..])
  }

  /** The records rs are those of the fields of m that are written, in the order of the descriptor. */
  predicate Spells(fields: seq<Field>, m: Msg, rs: seq<RawRecord>)
    decreases fields, |fields| + 1
  {
    SpellsFrom(fields, 0, m, rs)
  }

  // ---- The encoder writes exactly these fields ----

  lemma {:induction false} ZeroIsBlank(f: Field, v: Value)
    requires WellFormedField(f) && Singular(f) && ShapedValue(f, v)
    ensures IsZero(f, v) <==> Blank(f, v)
    decreases f, 1
  {
    if f.ltype == LSubmessage {
      var fs, m := f.ptr.fields, v.m;
      AllUnset(fs, 0, m);
      assert AllDefaultFrom(fs, 0, m) <==> forall j :: 0 <= j < |fs| ==> Unset(fs, j, m);
    }
  }

  lemma {:induction false} AllUnset(fields: seq<Field>, i: nat, m: Msg)
    requires WellFormed(fields) && Shaped(fields, m) && i <= |fields|
    requires forall j :: i <= j < |fields| ==> !FixedCount(fields[j])
    ensures AllDefaultFrom(fields, i, m) <==> forall j :: i <= j < |fields| ==> Unset(fields, j, m)
    decreases fields, 1, |fields| - i
  {
    if i < |fields| {
      DefaultIsUnset(fields, i, m);
      AllUnset(fields, i + 1, m);
      assert AllDefaultFrom(fields, i, m) <==> Unset(fields, i, m) && AllDefaultFrom(fields, i + 1, m);
    }
  }

  lemma {:induction false} DefaultIsUnset(fields: seq<Field>, i: nat, m: Msg)
    requires WellFormed(fields) && Shaped(fields, m) && i < |fields| && !FixedCount(fields[i])
    ensures IsDefault(fields, i, m) <==> Unset(fields, i, m)
    decreases fields, 0
  {
    var f := fields[i];
    assert WellFormedField(f) && ShapedSlot(f, m.slots[i]);
    if Singular(f) { ZeroIsBlank(f, m.slots[i].items[0]); }
  }

  /** The fields that the encoder writes; what it leaves out of a proto3 message is zero or empty. */
  lemma PresentIsWritten(fields: seq<Field>, i: nat, m: Msg)
    requires WellFormed(fields) && Shaped(fields, m) && i < |fields|
    ensures Present(fields, i, m) <==> Written(fields, i, m)
  {
    var f := fields[i];
    assert WellFormedField(f) && ShapedSlot(f, m.slots[i]);
    if Singular(f) { ZeroIsBlank(f, m.slots[i].items[0]); }
  }

  // ---- Keys, numbers and lengths ----

  lemma {:induction false} ReadEncoded(v: nat, most: nat, rest: seq<Byte>)
    requires |EncodeVarint(v)| <= most
    ensures ReadVarint(EncodeVarint(v) + rest, most) == Ok(v, rest)
    decreases most
  {
    EncodedFront(v, rest);
    if v >= 0x80 { ReadEncoded(v / 0x80, most - 1, rest); }
  }

  lemma ReadNumber(v: nat, rest: seq<Byte>)
    requires v < TWO_64
    ensures ReadVarint(EncodeVarint(v) + rest, 10) == Ok(v, rest)
  {
    SeventyBits();
    VarintLength(v, 10);
    ReadEncoded(v, 10, rest);
  }

  /** No form of a number is shorter than the one the encoder writes. */
  lemma {:induction false} Shortest(s: seq<Byte>, most: nat)
    requires ReadVarint(s, most).Ok?
    ensures |EncodeVarint(ReadVarint(s, most).value)| <= |s| - |ReadVarint(s, most).rest|
    decreases most
  {
    if s[0] >= 0x80 {
      var tail := ReadVarint(s[1..], most - 1).value;
      Shortest(s[1..], most - 1);
      assert ReadVarint(s, most).value / 0x80 == tail;
    }
  }

  lemma ReadContents(b: seq<Byte>, rest: seq<Byte>)
    requires |b| < TWO_64
    ensures ReadPayload(2, Delimited(b) + rest) == Ok(Contents(b), rest)
  {
    hide ReadVarint, EncodeVarint;
    ReadNumber(|b|, b + rest);
    assert Delimited(b) + rest == EncodeVarint(|b|) + (b + rest);
    assert (b + rest)[..|b|] == b && (b + rest)[|b|..] == rest;
  }

  lemma {:induction false} LowBytesSpell(v: nat, n: nat)
    requires n <= 8 && v < Pow2(8 * n)
    ensures SpellsLow(v, LittleEndian(v, n))
  {
    if n > 0 {
      Pow2Add(8, 8 * (n - 1));
      Eighth(v, Pow2(8 * (n - 1)));
      LowBytesSpell(v / 0x100, n - 1);
      assert LittleEndian(v, n)[1..] == LittleEndian(v / 0x100, n - 1);
    }
  }

  lemma Eighth(v: nat, p: nat)
    requires v < Pow2(8) * p
    ensures v / 0x100 < p
  {
    assert Pow2(8) == 0x100;
  }

  // ---- Entries ----

  lemma IntegerSpelled(f: Field, v: Value) returns (p: Payload)
    requires WellFormedField(f) && Packable(f) && ShapedValue(f, v)
    ensures Spelled(f, v, p) && EncodeValue(f, v).Some?
    ensures forall rest: seq<Byte> :: ReadPayload(Kind(f), EncodeValue(f, v).value + rest) == Ok(p, rest)
  {
    hide ReadPayload, EncodeVarint, LittleEndian, SpellsLow;
    if f.ltype == LFixed32 {
      WordSpelled(v.i, 4);
      p := Four(LittleEndian(v.i, 4));
      ReadFour(p.b);
    } else if f.ltype == LFixed64 {
      WordSpelled(v.i, 8);
      p := Eight(LittleEndian(v.i, 8));
      ReadEight(p.b);
    } else {
      var u := IntegerBits(f, v);
      p := Number(u);
      forall rest: seq<Byte> ensures ReadPayload(0, EncodeVarint(u) + rest) == Ok(p, rest) {
        ReadNumberPayload(u, rest);
      }
    }
  }

  lemma WordSpelled(i: nat, n: nat)
    requires (n == 4 && i < TWO_32) || (n == 8 && i < TWO_64)
    ensures i % Modulus(n) == i && SpellsLow(i, LittleEndian(i, n))
  {
    Pow2Words();
    LowBytesSpell(i, n);
  }

  lemma ReadNumberPayload(v: nat, rest: seq<Byte>)
    requires v < TWO_64
    ensures ReadPayload(0, EncodeVarint(v) + rest) == Ok(Number(v), rest)
  {
    ReadNumber(v, rest);
  }

  lemma ReadFour(b: seq<Byte>)
    requires |b| == 4
    ensures forall rest: seq<Byte> :: ReadPayload(5, b + rest) == Ok(Four(b), rest)
  {
    forall rest: seq<Byte> ensures ReadPayload(5, b + rest) == Ok(Four(b), rest) {
      assert (b + rest)[..4] == b && (b + rest)[4..] == rest;
    }
  }

  lemma ReadEight(b: seq<Byte>)
    requires |b| == 8
    ensures forall rest: seq<Byte> :: ReadPayload(1, b + rest) == Ok(Eight(b), rest)
  {
    forall rest: seq<Byte> ensures ReadPayload(1, b + rest) == Ok(Eight(b), rest) {
      assert (b + rest)[..8] == b && (b + rest)[8..] == rest;
    }
  }

  lemma IntegerBits(f: Field, v: Value) returns (u: nat)
    requires WellFormedField(f) && f.ltype in {LVarint, LUvarint, LSvarint} && ShapedValue(f, v)
    ensures u < TWO_64 && EncodeValue(f, v) == Some(EncodeVarint(u)) && Spelled(f, v, Number(u))
  {
    hide EncodeVarint, ToBits64, ZigZag, Modulus;
    SignedBits(v.i, f.dataSize);
    u := if f.ltype == LSvarint then ZigZag(v.i) else ToBits64(v.i);
  }

  lemma SignedBits(i: int, n: nat)
    requires IntegerSize(n)
    ensures InSigned(i, n) ==> ToBits64(i) == if i < 0 then TWO_64 + i else i
    ensures InSigned(i, n) ==> ZigZag(i) == if i < 0 then -2 * i - 1 else 2 * i
    ensures InSigned(i, n) ==> ToBits64(i) < TWO_64 && ZigZag(i) < TWO_64
    ensures InUnsigned(i, n) ==> ToBits64(i) == i && ToBits64(i) < TWO_64
  {
    assert Modulus(n) <= TWO_64;
  }

  /** What follows the length of an entry that is not an integer. */
  function Body(f: Field, v: Value): seq<Byte>
  {
    match v
    case Int(_) => []
    case Bytes(b) => b
    case Chars(mem) => CString(mem)
    case Inline(raw) => raw
    case Sub(m) =>
      var e := if f.ptr.SubFields? then EncodeMessage(f.ptr.fields, m) else None;
      if e.Some? then e.value else []
  }

  lemma {:induction false} ValueSpelled(f: Field, v: Value) returns (p: Payload)
    requires WellFormedField(f) && ShapedValue(f, v)
    requires EncodeValue(f, v).Some? && |EncodeValue(f, v).value| < TWO_64
    ensures Spelled(f, v, p)
    ensures forall rest: seq<Byte> :: ReadPayload(Kind(f), EncodeValue(f, v).value + rest) == Ok(p, rest)
    decreases f, 0
  {
    if Packable(f) {
      p := IntegerSpelled(f, v);
    } else {
      hide ReadPayload, EncodeVarint;
      var b := Body(f, v);
      if f.ltype == LSubmessage { MessageSpelled(f.ptr.fields, v.m); }
      assert EncodeValue(f, v) == Some(Delimited(b));
      p := Contents(b);
      forall rest: seq<Byte> ensures ReadPayload(2, Delimited(b) + rest) == Ok(p, rest) { ReadContents(b, rest); }
    }
  }

  lemma TaggedLeads(f: Field, wireType: nat, b: seq<Byte>, p: Payload)
    requires WellFormedField(f) && wireType < 8
    requires forall rest: seq<Byte> :: ReadPayload(wireType, b + rest) == Ok(p, rest)
    ensures Leads(Tag(wireType, f.tag) + b, [RawRecord(f.tag, p)])
  {
    hide ReadPayload, ReadVarint, EncodeVarint;
    var s := Tag(wireType, f.tag) + b;
    forall rest: seq<Byte> ensures ReadRecord(s + rest) == Ok(RawRecord(f.tag, p), rest) {
      assert s + rest == Tag(wireType, f.tag) + (b + rest);
      ReadNumber(f.tag * 8 + wireType, b + rest);
      assert ReadPayload(wireType, b + rest) == Ok(p, rest);
    }
    LeadsOne(s, RawRecord(f.tag, p));
  }

  lemma EntrySpelled(f: Field, v: Value) returns (r: RawRecord)
    requires WellFormedField(f) && ShapedValue(f, v)
    requires EncodeTagged(f, v).Some? && |EncodeTagged(f, v).value| < TWO_64
    ensures r.number == f.tag && Spelled(f, v, r.payload) && Leads(EncodeTagged(f, v).value, [r])
    decreases f, 1
  {
    var p := ValueSpelled(f, v);
    assert WireType(f) == Kind(f);
    TaggedLeads(f, Kind(f), EncodeValue(f, v).value, p);
    r := RawRecord(f.tag, p);
  }

  lemma {:induction false} UnpackedSpelled(f: Field, items: seq<Value>) returns (rs: seq<RawRecord>)
    requires WellFormedField(f) && forall k :: 0 <= k < |items| ==> ShapedValue(f, items[k])
    requires EncodeUnpacked(f, items).Some? && |EncodeUnpacked(f, items).value| < TWO_64
    ensures SpelledEach(f, items, rs) && Leads(EncodeUnpacked(f, items).value, rs)
    decreases f, 2, |items|
  {
    if items == [] {
      LeadsNothing();
      rs := [];
    } else {
      var r := EntrySpelled(f, items[0]);
      var tail := UnpackedSpelled(f, items[1..]);
      LeadsBoth(EncodeTagged(f, items[0]).value, [r], EncodeUnpacked(f, items[1..]).value, tail);
      rs := [r] + tail;
    }
  }

  lemma {:induction false} PackedSpelled(f: Field, items: seq<Value>)
    requires WellFormedField(f) && Packable(f) && forall k :: 0 <= k < |items| ==> ShapedValue(f, items[k])
    ensures EncodePacked(f, items).Some? && Packs(f, items, EncodePacked(f, items).value)
    decreases |items|
  {
    hide ReadPayload, EncodeValue, Spelled;
    if items != [] {
      PackedSpelled(f, items[1..]);
      var p := IntegerSpelled(f, items[0]);
      var e, tail := EncodeValue(f, items[0]).value, EncodePacked(f, items[1..]).value;
      assert ReadPayload(Kind(f), e + tail) == Ok(p, tail);
    }
  }

  // ---- Fields and messages ----

  lemma {:induction false} FieldSpelled(fields: seq<Field>, i: nat, m: Msg) returns (rs: seq<RawRecord>)
    requires WellFormed(fields) && Shaped(fields, m) && i < |fields|
    requires EncodeField(fields, i, m).Some? && |EncodeField(fields, i, m).value| < TWO_64
    ensures |rs| == Records(fields, i, m) && Leads(EncodeField(fields, i, m).value, rs)
    ensures Written(fields, i, m) ==> SpellsField(fields[i], m.slots[i], rs)
    decreases fields, 2
  {
    var f, s := fields[i], m.slots[i];
    assert WellFormedField(f) && ShapedSlot(f, s);
    PresentIsWritten(fields, i, m);
    if !Written(fields, i, m) {
      LeadsNothing();
      rs := [];
    } else if f.htype != Repeated {
      var r := EntrySpelled(f, s.items[0]);
      rs := [r];
    } else if !Packable(f) {
      rs := UnpackedSpelled(f, s.items[..Length(f, s)]);
    } else {
      var items := s.items[..Length(f, s)];
      PackedSpelled(f, items);
      var b := EncodePacked(f, items).value;
      forall rest: seq<Byte> ensures ReadPayload(2, Delimited(b) + rest) == Ok(Contents(b), rest) {
        ReadContents(b, rest);
      }
      TaggedLeads(f, 2, Delimited(b), Contents(b));
      rs := [RawRecord(f.tag, Contents(b))];
    }
  }

  lemma {:induction false} FieldsSpelled(fields: seq<Field>, i: nat, m: Msg) returns (rs: seq<RawRecord>)
    requires WellFormed(fields) && Shaped(fields, m) && i <= |fields|
    requires EncodeFrom(fields, i, m).Some? && |EncodeFrom(fields, i, m).value| < TWO_64
    ensures SpellsFrom(fields, i, m, rs) && Leads(EncodeFrom(fields, i, m).value, rs)
    decreases fields, 3, |fields| - i
  {
    if i == |fields| {
      LeadsNothing();
      rs := [];
    } else {
      var here := FieldSpelled(fields, i, m);
      var tail := FieldsSpelled(fields, i + 1, m);
      LeadsBoth(EncodeField(fields, i, m).value, here, EncodeFrom(fields, i + 1, m).value, tail);
      rs := here + tail;
      assert rs[..|here|] == here && rs[|here|..] == tail;
    }
  }

  /** An encoded message is the records of its written fields. */
  lemma {:induction false} MessageSpelled(fields: seq<Field>, m: Msg)
    requires WellFormed(fields) && Shaped(fields, m)
    requires EncodeMessage(fields, m).Some? && |EncodeMessage(fields, m).value| < TWO_64
    ensures Parse(EncodeMessage(fields, m).value).Some?
    ensures Spells(fields, m, Parse(EncodeMessage(fields, m).value).value)
    decreases fields, 4
  {
    var rs := FieldsSpelled(fields, 0, m);
    LeadsAlone(EncodeMessage(fields, m).value, rs);
  }
}
