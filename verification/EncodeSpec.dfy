/** What the nanopb encoder writes for a message (pb_encode.c), as functions of the struct. */
module EncodeSpec {
  import opened Bits
  import opened Descriptor
  import opened Varint

  const WT_VARINT: nat := 0
  const WT_64BIT: nat := 1
  const WT_STRING: nat := 2
  const WT_32BIT: nat := 5

  function WireType(f: Field): nat
  {
    match f.ltype
    case LFixed32 => WT_32BIT
    case LFixed64 => WT_64BIT
    case LVarint => WT_VARINT
    case LUvarint => WT_VARINT
    case LSvarint => WT_VARINT
    case _ => WT_STRING
  }

  function Tag(wireType: nat, number: nat): seq<Byte>
  {
    EncodeVarint(number * 8 + wireType)
  }

  /** The two's complement bits of a 64-bit signed integer. */
  function ToBits64(i: int): nat
  {
    i % TWO_64
  }

  function ZigZag(i: int): nat
  {
    if i < 0 then (TWO_64 - 1) - (ToBits64(i) * 2) % TWO_64 else (i * 2) % TWO_64
  }

  /** The n low bytes of v, least significant first. */
  function LittleEndian(v: nat, n: nat): (r: seq<Byte>)
    ensures |r| == n
  {
    if n == 0 then [] else [v % 0x100] + LittleEndian(v / 0x100, n - 1)
  }

  /** A length, cast to 64 bits, and the contents. */
  function Delimited(s: seq<Byte>): seq<Byte> { EncodeVarint(|s| % TWO_64) + s }

  function Join(a: Option<seq<Byte>>, b: Option<seq<Byte>>): Option<seq<Byte>>
  {
    if a.Some? && b.Some? then Some(a.value + b.value) else None
  }

  /** The PB_ENCODERS entry of the field applied to one entry. */
  function EncodeValue(f: Field, v: Value): Option<seq<Byte>>
    decreases f, 2
  {
    match f.ltype
    case LVarint =>
      if IntegerSize(f.dataSize) && v.Int? then Some(EncodeVarint(ToBits64(v.i))) else None
    case LUvarint =>
      if IntegerSize(f.dataSize) && v.Int? then Some(EncodeVarint(ToBits64(v.i))) else None
    case LSvarint =>
      if IntegerSize(f.dataSize) && v.Int? then Some(EncodeVarint(ZigZag(v.i))) else None
    case LFixed32 =>
      if v.Int? then Some(LittleEndian(v.i % TWO_32, 4)) else None
    case LFixed64 =>
      if v.Int? then Some(LittleEndian(v.i % TWO_64, 8)) else None
    case LBytes =>
      if v.Bytes? && |v.b| + SIZEOF_PB_SIZE <= f.dataSize then Some(Delimited(v.b)) else None
    case LString =>
      if v.Chars? then Some(Delimited(CString(v.mem))) else None
    case LInline =>
      if v.Inline? then Some(Delimited(v.raw)) else None
    case LSubmessage =>
      if f.ptr.SubFields? && v.Sub? then
        var e := EncodeMessage(f.ptr.fields, v.m);
        if e.Some? then Some(Delimited(e.value)) else None
      else None
    case LExtension => None
  }

  /** The entries of a packed array, one after the other. */
  function EncodePacked(f: Field, items: seq<Value>): Option<seq<Byte>>
    decreases f, 3, |items|
  {
    if items == [] then Some([]) else Join(EncodeValue(f, items[0]), EncodePacked(f, items[1..]))
  }

  function EncodeTagged(f: Field, v: Value): Option<seq<Byte>>
    decreases f, 3
  {
    Join(Some(Tag(WireType(f), f.tag)), EncodeValue(f, v))
  }

  /** The entries of an array that cannot be packed: a tag before each. */
  function EncodeUnpacked(f: Field, items: seq<Value>): Option<seq<Byte>>
    decreases f, 4, |items|
  {
    if items == [] then Some([]) else Join(EncodeTagged(f, items[0]), EncodeUnpacked(f, items[1..]))
  }

  function EncodeArray(f: Field, s: Slot, count: nat): Option<seq<Byte>>
    decreases f, 5
  {
    if count == 0 then Some([])
    else if count > f.arraySize || count > |s.items| then None
    else if Packable(f) then
      var p := EncodePacked(f, s.items[..count]);
      if p.Some? then Some(Tag(WT_STRING, f.tag) + Delimited(p.value)) else None
    else EncodeUnpacked(f, s.items[..count])
  }

  function Count(f: Field, s: Slot): nat { if FixedCount(f) then f.arraySize else s.count }

  /** pb_check_proto3_default_value for field i of m. */
  predicate IsDefault(fields: seq<Field>, i: nat, m: Msg)
    requires i < |fields|
    decreases fields, |fields| - i, 0
  {
    var f, s := fields[i], SlotOf(m, i);
    match f.htype
    case Required => false
    case Repeated => s.count == 0
    case Oneof => Which(m, SizePos(fields, i)) == 0
    case Optional => if f.sizeOffset != 0 then !s.has else IsZero(f, Item(s, 0))
  }

  predicate IsZero(f: Field, v: Value)
    decreases f, 1
  {
    match f.ltype
    case LBytes => v.Bytes? && v.b == []
    case LString => v.Chars? && v.mem != [] && v.mem[0] == 0
    case LInline => f.dataSize == 0
    case LSubmessage => f.ptr.SubFields? ==> AllDefaultFrom(f.ptr.fields, 0, SubOf(v))
    case _ => v == Int(0)
  }

  predicate AllDefaultFrom(fields: seq<Field>, i: nat, m: Msg)
    requires i <= |fields|
    decreases fields, |fields| - i, 1
  {
    i == |fields| || (IsDefault(fields, i, m) && AllDefaultFrom(fields, i + 1, m))
  }

  /** The field is written at all (for an array: its loop is entered). */
  predicate Present(fields: seq<Field>, i: nat, m: Msg)
    requires i < |fields|
  {
    var f, s := fields[i], SlotOf(m, i);
    match f.htype
    case Required => true
    case Repeated => Count(f, s) > 0
    case Oneof => Which(m, SizePos(fields, i)) == f.tag
    case Optional => if f.sizeOffset != 0 then s.has else !IsZero(f, Item(s, 0))
  }

  /** encode_field for field i of m. */
  function EncodeField(fields: seq<Field>, i: nat, m: Msg): Option<seq<Byte>>
    requires i < |fields|
    decreases fields, |fields| - i, 0
  {
    var f, s := fields[i], SlotOf(m, i);
    if f.atype != Static then None
    else if !Present(fields, i, m) then Some([])
    else if f.htype == Repeated then EncodeArray(f, s, Count(f, s))
    else EncodeTagged(f, Item(s, 0))
  }

  function EncodeFrom(fields: seq<Field>, i: nat, m: Msg): Option<seq<Byte>>
    requires i <= |fields|
    decreases fields, |fields| - i, 1
  {
    if i == |fields| then Some([])
    else Join(EncodeField(fields, i, m), EncodeFrom(fields, i + 1, m))
  }

  /** The bytes pb_encode produces for the struct m, or None if it refuses it. */
  function EncodeMessage(fields: seq<Field>, m: Msg): Option<seq<Byte>>
    decreases fields, |fields| + 1
  {
    EncodeFrom(fields, 0, m)
  }
}
