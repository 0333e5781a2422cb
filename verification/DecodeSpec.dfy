/** What the nanopb decoder makes of a byte string (pb_decode.c), as functions of the bytes and
    of the memory it decodes into. */
module DecodeSpec {
  import opened Bits
  import opened Descriptor
  import opened Varint
  import opened EncodeSpec

  // ---- Defaults ----

  /** One entry after memset to zero. */
  function ZeroValue(f: Field): Value
    decreases f, 0
  {
    match f.ltype
    case LBytes => Bytes([])
    case LString => Chars(Zeros(f.dataSize))
    case LInline => Inline(Zeros(f.dataSize))
    case LSubmessage => if f.ptr.SubFields? then Sub(Msg(ZeroSlots(f.ptr.fields), map[])) else Sub(Msg([], map[]))
    case _ => Int(0)
  }

  function ZeroSlots(fields: seq<Field>): (r: seq<Slot>)
    ensures |r| == |fields|
    decreases fields, 1
  {
    seq(|fields|, i requires 0 <= i < |fields| => ZeroSlot(fields[i]))
  }

  function ZeroSlot(f: Field): Slot
    decreases f, 1
  {
    var z := ZeroValue(f);
    Slot(false, 0, seq(Capacity(f), k => z))
  }

  // ---- Clearing the first bytes of memory ----

  /** Of n bytes, those that lie behind the given offset. */
  function Behind(n: nat, offset: nat): nat { if offset < n then n - offset else 0 }

  /** 256 to the power n, for up to four bytes. */
  function LowBytes(n: nat): nat
  {
    if n == 0 then 1 else if n == 1 then 0x100 else if n == 2 then 0x1_0000 else if n == 3 then 0x100_0000 else TWO_32
  }

  /** An integer of the given size without its n low bytes, in two's complement. */
  function ClearInt(i: int, size: nat, n: nat): int { if n >= size then 0 else i - i % LowBytes(n) }

  function ClearBytes(b: seq<Byte>, n: nat): (r: seq<Byte>)
    ensures |r| == |b|
  {
    if n < |b| then Zeros(n) + b[n..] else Zeros(|b|)
  }

  /** One entry with its first n bytes cleared. */
  function ClearValue(f: Field, v: Value, n: nat): Value
    decreases f, 0
  {
    if n == 0 then v
    else
      match v
      case Int(i) => Int(ClearInt(i, f.dataSize, n))
      case Bytes(_) => Bytes([])
      case Chars(mem) => Chars(ClearBytes(mem, n))
      case Inline(raw) => Inline(ClearBytes(raw, n))
      case Sub(m) => if f.ptr.SubFields? then Sub(ClearStruct(f.ptr.fields, m, n)) else v
  }

  function ClearItems(f: Field, items: seq<Value>, n: nat): (r: seq<Value>)
    ensures |r| == |items|
    decreases f, 1
  {
    seq(|items|, k requires 0 <= k < |items| => ClearValue(f, items[k], Behind(n, k * f.dataSize)))
  }

  /** The has_, _count or which_ member of field i lies in the first n bytes. */
  predicate Covers(fields: seq<Field>, i: nat, n: nat)
    requires i < |fields|
  {
    fields[i].sizeOffset != 0 && 0 <= SizePos(fields, i) < n
  }

  function ClearSlot(fields: seq<Field>, i: nat, s: Slot, n: nat): Slot
    requires i < |fields|
    decreases fields, 1
  {
    var items := ClearItems(fields[i], s.items, Behind(n, DataPos(fields, i)));
    if Covers(fields, i, n) then Slot(false, 0, items) else s.(items := items)
  }

  /** A struct with its first n bytes cleared; its pb_size_t members are aligned, so they are cleared as a whole. */
  function ClearStruct(fields: seq<Field>, m: Msg, n: nat): Msg
    decreases fields, 2
  {
    Msg(seq(|fields|, i requires 0 <= i < |fields| => ClearSlot(fields, i, SlotOf(m, i), n)),
        map p | p in m.which && !(0 <= p < n) :: m.which[p])
  }

  /** pb_field_set_to_default. An array without a count gets a count all the same: as pSize is pData, it is
      written over the first bytes of the array. */
  function DefaultSlot(f: Field, s: Slot): Slot
    decreases f, 1
  {
    match f.htype
    case Repeated => if FixedCount(f) then Slot(s.has, 0, ClearItems(f, s.items, SIZEOF_PB_SIZE)) else s.(count := 0)
    case Oneof => s
    case _ => SetItem(s.(has := false), 0, DefaultValue(f, Item(s, 0)))
  }

  function DefaultValue(f: Field, v: Value): Value
    decreases f, 0
  {
    if f.ltype == LSubmessage then
      if f.ptr.SubFields? then Sub(Defaults(f.ptr.fields, SubOf(v))) else v
    else if f.ptr.Default? then f.ptr.value
    else ZeroValue(f)
  }

  /** pb_message_set_to_defaults: contents of arrays and unions are left as they are. */
  function Defaults(fields: seq<Field>, m: Msg): (r: Msg)
    ensures |r.slots| == |fields|
    decreases fields, 2
  {
    Msg(seq(|fields|, i requires 0 <= i < |fields| => DefaultSlot(fields[i], SlotOf(m, i))), map[])
  }

  // ---- Streams ----

  function Take(s: seq<Byte>, n: nat): (r: Parsed<seq<Byte>>)
    ensures r.Ok? ==> s == r.value + r.rest && |r.value| == n
  {
    if |s| < n then Fail else Ok(s[..n], s[n..])
  }

  /** pb_make_string_substream: the limited input and what follows it. */
  function Substream(s: seq<Byte>): (r: Parsed<seq<Byte>>)
    ensures r.Ok? ==> |r.value| + |r.rest| < |s|
  {
    var n := Decode32(s);
    if n.Fail? then Fail else Take(n.rest, n.value)
  }

  function SkipVarint(s: seq<Byte>): (r: Parsed<()>)
    ensures r.Ok? ==> |r.rest| < |s|
  {
    if s == [] then Fail else if s[0] >= 0x80 then SkipVarint(s[1..]) else Ok((), s[1..])
  }

  function Skip(s: seq<Byte>, n: nat): (r: Parsed<()>)
    ensures r.Ok? ==> |r.rest| <= |s|
  {
    if |s| < n then Fail else Ok((), s[n..])
  }

  function SkipField(wireType: nat, s: seq<Byte>): (r: Parsed<()>)
    ensures r.Ok? ==> |r.rest| <= |s|
  {
    if wireType == WT_VARINT then SkipVarint(s)
    else if wireType == WT_64BIT then Skip(s, 8)
    else if wireType == WT_32BIT then Skip(s, 4)
    else if wireType == WT_STRING then
      var n := Decode32(s);
      if n.Fail? then Fail else Skip(n.rest, n.value)
    else Fail
  }

  // ---- Integers ----

  /** The value of the low 8*n bits of v as a two's complement integer. */
  function ToSigned(v: int, n: nat): int
  {
    var u := v % Modulus(n);
    if u >= Modulus(n) / 2 then u - Modulus(n) else u
  }

  function UnZigZag(v: nat): int
  {
    if v % 2 == 1 then -(v / 2) - 1 else v / 2
  }

  /** Store a signed integer in an entry of the given size, refusing what does not fit. */
  function StoreSigned(i: int, dataSize: nat, rest: seq<Byte>): (r: Parsed<Value>)
    ensures r.Ok? ==> r.rest == rest
  {
    if IntegerSize(dataSize) && ToSigned(i, dataSize) == i then Ok(Int(i), rest) else Fail
  }

  function StoreUnsigned(v: nat, dataSize: nat, rest: seq<Byte>): (r: Parsed<Value>)
    ensures r.Ok? ==> r.rest == rest
  {
    if IntegerSize(dataSize) && v % Modulus(dataSize) == v then Ok(Int(v), rest) else Fail
  }

  function FromLittleEndian(s: seq<Byte>): nat
  {
    if s == [] then 0 else s[0] + 0x100 * FromLittleEndian(s[1..])
  }

  // ---- Entries ----

  function Integer(f: Field, s: seq<Byte>): (r: Parsed<Value>)
    ensures r.Ok? ==> |r.rest| < |s|
  {
    if f.ltype == LFixed32 || f.ltype == LFixed64 then
      var b := Take(s, if f.ltype == LFixed32 then 4 else 8);
      if b.Ok? then Ok(Int(FromLittleEndian(b.value)), b.rest) else Fail
    else
      var v := Decode64(s);
      if v.Fail? then Fail
      else if f.ltype == LVarint then StoreSigned(ToSigned(v.value, if f.dataSize == 8 then 8 else 4), f.dataSize, v.rest)
      else if f.ltype == LSvarint then StoreSigned(UnZigZag(v.value), f.dataSize, v.rest)
      else StoreUnsigned(v.value, f.dataSize, v.rest)
  }

  /** The bytes types: a length, a capacity check and the contents. */
  function Blob(f: Field, old_: Value, s: seq<Byte>): (r: Parsed<Value>)
    ensures r.Ok? ==> |r.rest| < |s|
  {
    var n := Decode32(s);
    if n.Fail? then Fail
    else
      var b := Take(n.rest, n.value);
      match f.ltype
      case LBytes =>
        if n.value > PB_SIZE_MAX || n.value + SIZEOF_PB_SIZE > f.dataSize || b.Fail? then Fail
        else Ok(Bytes(b.value), b.rest)
      case LString =>
        var allocSize := (n.value + 1) % TWO_32;
        if allocSize < n.value || allocSize > f.dataSize || b.Fail? then Fail
        else Ok(Chars(StoreString(old_, b.value)), b.rest)
      case _ =>
        if n.value > PB_SIZE_MAX then Fail
        else if n.value == 0 then Ok(Inline(Zeros(f.dataSize)), n.rest)
        else if n.value != f.dataSize || b.Fail? then Fail
        else Ok(Inline(b.value), b.rest)
  }

  /** A character array after b and a NUL are stored at its front. */
  function StoreString(old_: Value, b: seq<Byte>): seq<Byte>
  {
    var mem := if old_.Chars? then old_.mem else [];
    b + [0] + (if |b| + 1 <= |mem| then mem[|b| + 1..] else [])
  }

  /** The PB_DECODERS entry of the field, decoding into the memory `old_`. */
  function DecodeValue(f: Field, old_: Value, s: seq<Byte>): (r: Parsed<Value>)
    ensures r.Ok? ==> |r.rest| < |s|
    decreases |s|, 1
  {
    match f.ltype
    case LBytes => Blob(f, old_, s)
    case LString => Blob(f, old_, s)
    case LInline => Blob(f, old_, s)
    case LExtension => Fail
    case LSubmessage =>
      var sub := Substream(s);
      if sub.Fail? || !f.ptr.SubFields? then Fail
      else
        var start := if f.htype == Repeated then Defaults(f.ptr.fields, SubOf(old_)) else SubOf(old_);
        var m := DecodeNoInit(f.ptr.fields, start, sub.value);
        if m.Ok? then Ok(Sub(m.value), sub.rest) else Fail
    case _ => Integer(f, s)
  }

  // ---- Fields ----

  /** The locals of pb_decode_noinit: the struct, the required fields seen, and the fixed-count
      array being filled with its number of entries so far. */
  datatype State = State(m: Msg, seen: set<nat>, fixed: Option<nat>, fixedCount: nat)

  function SetFieldItem(m: Msg, i: nat, k: nat, v: Value): Msg { SetSlot(m, i, SetItem(SlotOf(m, i), k, v)) }

  /** Where the next entry of array field i goes. */
  function NextIndex(f: Field, i: nat, st: State): nat
  {
    if FixedCount(f) then st.fixedCount else SlotOf(st.m, i).count
  }

  /** Store entry v of array field i and count it. */
  function Append(f: Field, i: nat, st: State, v: Value): State
  {
    var k := NextIndex(f, i, st);
    var m := SetFieldItem(st.m, i, k, v);
    if FixedCount(f) then st.(m := m, fixedCount := k + 1)
    else st.(m := SetSlot(m, i, SlotOf(m, i).(count := k + 1)))
  }

  /** The loop over a packed array's substream. */
  function PackedLoop(f: Field, i: nat, st: State, s: seq<Byte>): Option<State>
    decreases |s|, 2
  {
    if s == [] then Some(st)
    else if NextIndex(f, i, st) >= f.arraySize then None
    else
      var v := DecodeValue(f, Item(SlotOf(st.m, i), NextIndex(f, i, st)), s);
      if v.Ok? then PackedLoop(f, i, Append(f, i, st, v.value), v.rest) else None
  }

  /** decode_static_field for field i. */
  function StaticField(fields: seq<Field>, i: nat, wireType: nat, st: State, s: seq<Byte>): (r: Parsed<State>)
    requires i < |fields|
    ensures r.Ok? ==> |r.rest| < |s|
    decreases |s|, 3
  {
    var f, slot := fields[i], SlotOf(st.m, i);
    match f.htype
    case Required =>
      var v := DecodeValue(f, Item(slot, 0), s);
      if v.Ok? then Ok(st.(m := SetFieldItem(st.m, i, 0, v.value)), v.rest) else Fail
    case Optional =>
      var v := DecodeValue(f, Item(slot, 0), s);
      if v.Ok? then
        Ok(st.(m := SetSlot(st.m, i, SetItem(slot.(has := slot.has || f.sizeOffset != 0), 0, v.value))), v.rest)
      else Fail
    case Oneof =>
      var v := DecodeValue(f, if f.ltype == LSubmessage then DefaultValue(f, ZeroValue(f)) else Item(slot, 0), s);
      if v.Ok? then
        Ok(st.(m := SetFieldItem(st.m.(which := st.m.which[SizePos(fields, i) := f.tag]), i, 0, v.value)), v.rest)
      else Fail
    case Repeated =>
      if wireType == WT_STRING && Packable(f) then
        var sub := Substream(s);
        if sub.Fail? then Fail
        else
          var st' := PackedLoop(f, i, st, sub.value);
          if st'.Some? then Ok(st'.value, sub.rest) else Fail
      else if NextIndex(f, i, st) >= f.arraySize then Fail
      else
        var v := DecodeValue(f, Item(slot, NextIndex(f, i, st)), s);
        if v.Ok? then Ok(Append(f, i, st, v.value), v.rest) else Fail
  }

  predicate FixedComplete(fields: seq<Field>, st: State)
  {
    st.fixed.Some? && st.fixed.value < |fields| ==> st.fixedCount == fields[st.fixed.value].arraySize
  }

  /** Bookkeeping before field i is decoded: fixed-count arrays and required fields. */
  function Enter(fields: seq<Field>, i: nat, st: State): Option<State>
    requires i < |fields|
  {
    if FixedCount(fields[i]) then
      if st.fixed == Some(i) then Some(st)
      else if FixedComplete(fields, st) then Some(st.(fixed := Some(i), fixedCount := 0))
      else None
    else if fields[i].htype == Required && RequiredBefore(fields, i) < PB_MAX_REQUIRED_FIELDS then
      Some(st.(seen := st.seen + {RequiredBefore(fields, i)}))
    else Some(st)
  }

  function DecodeField(fields: seq<Field>, i: nat, wireType: nat, st: State, s: seq<Byte>): (r: Parsed<State>)
    requires i < |fields|
    ensures r.Ok? ==> |r.rest| < |s|
    decreases |s|, 4
  {
    var st' := Enter(fields, i, st);
    if st'.None? || fields[i].atype != Static then Fail
    else StaticField(fields, i, wireType, st'.value, s)
  }

  /** The first field from position i on that has the tag. */
  function FindFrom(fields: seq<Field>, i: nat, tag: nat): (r: Option<nat>)
    requires i <= |fields|
    ensures r.Some? ==> i <= r.value < |fields| && fields[r.value].tag == tag && fields[r.value].ltype != LExtension
    ensures r.None? ==> forall k :: i <= k < |fields| && fields[k].tag == tag ==> fields[k].ltype == LExtension
    decreases |fields| - i
  {
    if i == |fields| then None
    else if fields[i].tag == tag && fields[i].ltype != LExtension then Some(i)
    else FindFrom(fields, i + 1, tag)
  }

  /** One iteration of the decode loop after the tag was read. */
  function Record(fields: seq<Field>, key: nat, st: State, s: seq<Byte>): (r: Parsed<State>)
    ensures r.Ok? ==> |r.rest| <= |s|
    decreases |s|, 5
  {
    var tag, wireType := key / 8, key % 8;
    var i := FindFrom(fields, 0, tag);
    if i.Some? then DecodeField(fields, i.value, wireType, st, s)
    else if fields == [] && tag == 0 then Fail
    else
      var skipped := SkipField(wireType, s);
      if skipped.Ok? then Ok(st, skipped.rest) else Fail
  }

  /** The decode loop: it ends at the end of the input or after a zero key. */
  function Loop(fields: seq<Field>, st: State, s: seq<Byte>): (r: Parsed<State>)
    ensures r.Ok? ==> |r.rest| <= |s|
    decreases |s|, 6
  {
    if s == [] then Ok(st, [])
    else
      var key := Decode32(s);
      if key.Fail? then Fail
      else if key.value == 0 then Ok(st, key.rest)
      else
        var next := Record(fields, key.value, st, key.rest);
        if next.Ok? then Loop(fields, next.value, next.rest) else Fail
  }

  /** Of the first 64 required fields none is missing. */
  predicate AllSeen(fields: seq<Field>, seen: set<nat>)
  {
    forall k :: 0 <= k < RequiredBefore(fields, |fields|) && k < PB_MAX_REQUIRED_FIELDS ==> k in seen
  }

  function Finish(fields: seq<Field>, r: Parsed<State>): (r': Parsed<Msg>)
    ensures r'.Ok? ==> r.Ok? && r'.rest == r.rest
  {
    if r.Ok? && FixedComplete(fields, r.value) && AllSeen(fields, r.value.seen) then Ok(r.value.m, r.rest) else Fail
  }

  /** pb_decode_noinit. */
  function DecodeNoInit(fields: seq<Field>, m: Msg, s: seq<Byte>): (r: Parsed<Msg>)
    ensures r.Ok? ==> |r.rest| <= |s|
    decreases |s|, 7
  {
    Finish(fields, Loop(fields, State(m, {}, None, 0), s))
  }

  /** pb_decode. */
  function Decode(fields: seq<Field>, m: Msg, s: seq<Byte>): (r: Parsed<Msg>)
    ensures r.Ok? ==> |r.rest| <= |s|
  {
    DecodeNoInit(fields, Defaults(fields, m), s)
  }

  /** pb_decode_delimited. */
  function DecodeDelimited(fields: seq<Field>, m: Msg, s: seq<Byte>): (r: Parsed<Msg>)
    ensures r.Ok? ==> |r.rest| < |s|
  {
    var sub := Substream(s);
    if sub.Fail? then Fail
    else
      var d := Decode(fields, m, sub.value);
      if d.Ok? then Ok(d.value, sub.rest) else Fail
  }
}
