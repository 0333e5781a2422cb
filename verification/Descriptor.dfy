/** nanopb field descriptors and the memory of the structs they describe (pb.h). */
module Descriptor {
  import opened Bits

  /** PB_LTYPE_*: how one entry is stored and encoded. */
  datatype LType = LVarint | LUvarint | LSvarint | LFixed32 | LFixed64
                 | LBytes | LString | LSubmessage | LExtension | LInline

  /** PB_HTYPE_*: the repetition rule. */
  datatype HType = Required | Optional | Repeated | Oneof

  /** PB_ATYPE_*: where the data lives. */
  datatype AType = Static | Pointer | Callback

  /** The `ptr` member: the fields of a submessage, or a default value. */
  datatype Ptr = Null | SubFields(fields: seq<Field>) | Default(value: Value)

  /** pb_field_t; a message descriptor is the sequence of its fields without the terminator. */
  datatype Field = Field(
    tag: nat, ltype: LType, htype: HType, atype: AType,
    dataOffset: nat, sizeOffset: int, dataSize: nat, arraySize: nat, ptr: Ptr)

  /** The memory of one entry: an integer, a sized bytes array, a character array,
      an inline byte array or a nested struct. */
  datatype Value = Int(i: int) | Bytes(b: seq<Byte>) | Chars(mem: seq<Byte>) | Inline(raw: seq<Byte>) | Sub(m: Msg)

  /** The memory of one field: its has_ flag, its _count and its entries (one unless it is an array). */
  datatype Slot = Slot(has: bool, count: nat, items: seq<Value>)

  /** The memory of a struct. `which` holds the which_ members of its unions by their address
      relative to the struct; an address not in the map holds 0. */
  datatype Msg = Msg(slots: seq<Slot>, which: map<int, nat>)

  /** pb_size_t is 32 bits wide (PB_FIELD_32BIT). */
  const PB_SIZE_MAX: nat := 0xFFFF_FFFF
  const SIZEOF_PB_SIZE: nat := 4
  const SIZEOF_POINTER: nat := 8
  const PB_MAX_REQUIRED_FIELDS: nat := 64

  predicate Packable(f: Field) { f.ltype in {LVarint, LUvarint, LSvarint, LFixed32, LFixed64} }

  /** An array without a _count member: its number of entries is always array_size. */
  predicate FixedCount(f: Field) { f.htype == Repeated && f.sizeOffset == 0 }

  /** A proto3 singular field: optional without a has_ member. */
  predicate Singular(f: Field) { f.htype == Optional && f.sizeOffset == 0 }

  function Capacity(f: Field): nat { if f.htype == Repeated then f.arraySize else 1 }

  // ---- Positions within the struct, as the iterator computes them ----

  /** Bytes a field takes in the struct. */
  function EntrySize(f: Field): nat
  {
    if f.atype == Static && f.htype == Repeated then f.dataSize * f.arraySize
    else if f.atype == Pointer then SIZEOF_POINTER
    else f.dataSize
  }

  /** A further member of the union the previous field belongs to. */
  predicate SharesUnion(prev: Field, f: Field)
  {
    prev.htype == Oneof && f.htype == Oneof && f.dataOffset == PB_SIZE_MAX
  }

  /** The members of a union have one which_ member, at the same distance from the data (PB_ONEOF_STATIC). */
  predicate UnionsAgree(fields: seq<Field>)
  {
    forall i {:trigger fields[i]} :: 0 < i < |fields| && SharesUnion(fields[i - 1], fields[i]) ==>
      fields[i].sizeOffset == fields[i - 1].sizeOffset
  }

  /** The address of field i's data relative to the struct, accumulated along the descriptor. */
  function DataPos(fields: seq<Field>, i: nat): nat
    requires i < |fields|
  {
    if i == 0 then fields[0].dataOffset
    else if SharesUnion(fields[i - 1], fields[i]) then DataPos(fields, i - 1)
    else DataPos(fields, i - 1) + EntrySize(fields[i - 1]) + fields[i].dataOffset
  }

  /** The address of field i's has_, _count or which_ member. */
  function SizePos(fields: seq<Field>, i: nat): int
    requires i < |fields|
  {
    DataPos(fields, i) + fields[i].sizeOffset
  }

  /** How many of the first i fields are required. */
  function RequiredBefore(fields: seq<Field>, i: nat): (n: nat)
    requires i <= |fields|
    ensures n <= i
  {
    if i == 0 then 0
    else RequiredBefore(fields, i - 1) + if fields[i - 1].htype == Required then 1 else 0
  }

  // ---- Memory access ----

  function Which(m: Msg, pos: int): nat { if pos in m.which then m.which[pos] else 0 }

  function Item(s: Slot, k: nat): Value { if k < |s.items| then s.items[k] else Int(0) }

  function SetItem(s: Slot, k: nat, v: Value): Slot
  {
    if k < |s.items| then s.(items := s.items[k := v]) else s
  }

  function SlotOf(m: Msg, i: nat): Slot { if i < |m.slots| then m.slots[i] else Slot(false, 0, []) }

  function SetSlot(m: Msg, i: nat, s: Slot): Msg
  {
    if i < |m.slots| then m.(slots := m.slots[i := s]) else m
  }

  /** The C string in a character array: everything before the first NUL, or all of it. */
  function CString(mem: seq<Byte>): (s: seq<Byte>)
    ensures |s| <= |mem| && s == mem[..|s|]
    ensures forall k :: 0 <= k < |s| ==> s[k] != 0
    ensures |s| < |mem| ==> mem[|s|] == 0
  {
    if mem == [] || mem[0] == 0 then [] else [mem[0]] + CString(mem[1..])
  }

  function SubOf(v: Value): Msg { if v.Sub? then v.m else Msg([], map[]) }

  // ---- Shape of a struct ----

  predicate IntegerSize(n: nat) { n in {1, 2, 4, 8} }

  /** 256 to the power n for the integer sizes. */
  function Modulus(n: nat): nat { if n == 1 then 0x100 else if n == 2 then 0x1_0000 else if n == 4 then TWO_32 else TWO_64 }

  predicate InSigned(i: int, n: nat) { 0 - Modulus(n) / 2 <= i < Modulus(n) / 2 }

  predicate InUnsigned(i: int, n: nat) { 0 <= i < Modulus(n) }

  /** v is a value that the memory of one entry of f can hold. */
  predicate ShapedValue(f: Field, v: Value)
    decreases f, 2
  {
    match f.ltype
    case LVarint => v.Int? && InSigned(v.i, f.dataSize)
    case LSvarint => v.Int? && InSigned(v.i, f.dataSize)
    case LUvarint => v.Int? && InUnsigned(v.i, f.dataSize)
    case LFixed32 => v.Int? && 0 <= v.i < TWO_32
    case LFixed64 => v.Int? && 0 <= v.i < TWO_64
    case LBytes => v.Bytes?
    case LString => v.Chars? && |v.mem| == f.dataSize
    case LInline => v.Inline? && |v.raw| == f.dataSize
    case LSubmessage => v.Sub? && (f.ptr.SubFields? ==> Shaped(f.ptr.fields, v.m))
    case LExtension => true
  }

  predicate ShapedSlot(f: Field, s: Slot)
    decreases f, 3
  {
    |s.items| == Capacity(f) && forall k :: 0 <= k < |s.items| ==> ShapedValue(f, s.items[k])
  }

  predicate Shaped(fields: seq<Field>, m: Msg)
    decreases fields, 4
  {
    |m.slots| == |fields| && forall i :: 0 <= i < |fields| ==> ShapedSlot(fields[i], m.slots[i])
  }

  /** Besides having the right shape, a bytes array does not exceed its capacity and a character
      array is terminated. */
  predicate SoundEntry(f: Field, v: Value)
  {
    && ShapedValue(f, v)
    && (f.ltype == LBytes && v.Bytes? ==> |v.b| + SIZEOF_PB_SIZE <= f.dataSize)
    && (f.ltype == LString && v.Chars? ==> |CString(v.mem)| < |v.mem|)
  }

  // ---- Well-formed descriptors ----

  predicate SizeMatches(f: Field)
  {
    match f.ltype
    case LVarint => IntegerSize(f.dataSize)
    case LSvarint => IntegerSize(f.dataSize)
    case LUvarint => IntegerSize(f.dataSize)
    case LFixed32 => f.dataSize == 4
    case LFixed64 => f.dataSize == 8
    case LBytes => f.dataSize >= SIZEOF_PB_SIZE
    case LString => f.dataSize > 0
    case LInline => true
    case LSubmessage => f.ptr.SubFields?
    case LExtension => false
  }

  predicate WellFormedField(f: Field)
    decreases f, 2
  {
    && f.atype == Static && 0 < f.tag < 0x2000_0000
    && f.dataSize <= PB_SIZE_MAX && f.arraySize <= PB_SIZE_MAX
    && SizeMatches(f)
    && (f.htype == Required ==> f.sizeOffset == 0)
    && (f.htype == Oneof ==> f.sizeOffset != 0)
    && (f.ptr.Default? ==> !Singular(f) && SoundEntry(f, f.ptr.value))
    && (f.ptr.SubFields? ==> f.ltype == LSubmessage && WellFormed(f.ptr.fields))
    && (f.ltype == LSubmessage && Singular(f) ==> forall k :: 0 <= k < |f.ptr.fields| ==> !FixedCount(f.ptr.fields[k]))
  }

  /** What every generated static descriptor satisfies and the codec relies on. */
  predicate WellFormed(fields: seq<Field>)
    decreases fields, 3
  {
    && (forall i :: 0 <= i < |fields| ==> WellFormedField(fields[i]))
    && UnionsAgree(fields)
    && (forall i, j :: 0 <= i < j < |fields| ==> fields[i].tag != fields[j].tag)
  }

  predicate TagOk(f: Field)
    decreases f, 0
  {
    0 < f.tag <= PB_SIZE_MAX && (f.ptr.SubFields? ==> TagsOk(f.ptr.fields))
  }

  /** Tags are non-zero pb_size_t values and distinct, and unions agree, in nested descriptors too. */
  predicate TagsOk(fields: seq<Field>)
    decreases fields, 1
  {
    && (forall i :: 0 <= i < |fields| ==> TagOk(fields[i])) && UnionsAgree(fields)
    && (forall i, j :: 0 <= i < j < |fields| ==> fields[i].tag != fields[j].tag)
  }
}
