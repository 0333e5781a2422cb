/** Clearing the first bytes of memory, as pb_field_set_to_default does to arrays without a count. */
module Clearing {
  import opened Bits
  import opened Descriptor
  import opened EncodeSpec
  import opened DecodeSpec

  // ---- The shape stays ----

  lemma PositiveFactor(c: int, x: int)
    requires c > 0 && c * x > 0
    ensures x > 0
  {}

  lemma MultipleAbove(c: int, x: int, y: int)
    requires c > 0 && x >= y
    ensures c * x >= c * y
  {}

  /** Rounding down to a multiple of c does not pass another multiple of c. */
  lemma RoundDown(i: int, c: nat, q: int)
    requires c > 0 && i >= c * q
    ensures c * q <= i - i % c <= i
  {
    var x := i / c;
    assert i == c * x + i % c;
    assert c * (x - q + 1) == c * x - c * q + c;
    PositiveFactor(c, x - q + 1);
    MultipleAbove(c, x, q);
  }

  /** The least signed integer, in multiples of 256 to the power n. */
  function HalfRange(size: nat, n: nat): (q: int)
    requires IntegerSize(size) && n < size
    ensures LowBytes(n) * q == 0 - Modulus(size) / 2
  {
    0 - Modulus(size) / 2 / LowBytes(n)
  }

  lemma ClearIntShaped(i: int, size: nat, n: nat)
    requires IntegerSize(size)
    ensures InSigned(i, size) ==> InSigned(ClearInt(i, size, n), size)
    ensures InUnsigned(i, size) ==> InUnsigned(ClearInt(i, size, n), size)
  {
    if n < size {
      if InSigned(i, size) { RoundDown(i, LowBytes(n), HalfRange(size, n)); }
      if InUnsigned(i, size) { RoundDown(i, LowBytes(n), 0); }
    }
  }

  /** Clearing the first bytes of an entry leaves a value of the same shape. */
  lemma {:induction false} ClearShaped(f: Field, v: Value, n: nat)
    requires WellFormedField(f) && ShapedValue(f, v)
    ensures ShapedValue(f, ClearValue(f, v, n))
    decreases f, 0
  {
    if n > 0 && f.ltype == LSubmessage {
      var fs, m := f.ptr.fields, ClearStruct(f.ptr.fields, v.m, n);
      forall i | 0 <= i < |fs| ensures ShapedSlot(fs[i], m.slots[i]) {
        assert ShapedSlot(fs[i], v.m.slots[i]) && WellFormedField(fs[i]);
        ClearItemsShaped(fs[i], v.m.slots[i].items, Behind(n, DataPos(fs, i)));
        assert m.slots[i] == ClearSlot(fs, i, v.m.slots[i], n);
        assert m.slots[i].items == ClearItems(fs[i], v.m.slots[i].items, Behind(n, DataPos(fs, i)));
      }
    } else if v.Int? {
      ClearIntShaped(v.i, f.dataSize, n);
    }
  }

  lemma {:induction false} ClearItemsShaped(f: Field, items: seq<Value>, n: nat)
    requires WellFormedField(f) && forall k :: 0 <= k < |items| ==> ShapedValue(f, items[k])
    ensures forall k :: 0 <= k < |items| ==> ShapedValue(f, ClearItems(f, items, n)[k])
    decreases f, 1
  {
    forall k | 0 <= k < |items| ensures ShapedValue(f, ClearItems(f, items, n)[k]) {
      ClearShaped(f, items[k], Behind(n, k * f.dataSize));
    }
  }

  // ---- Clearing twice ----

  lemma SmallMultiple(d: int, x: int)
    requires 0 - d < d * x < d
    ensures x == 0
  {
    if x > 0 { MultipleAbove(d, x, 1); } else if x < 0 { MultipleAbove(d, 0 - 1, x); }
  }

  lemma RemainderIs(y: int, d: nat, q: int, w: nat)
    requires w < d && y == d * q + w
    ensures y % d == w
  {
    assert y == d * (y / d) + y % d;
    assert d * (y / d - q) == d * (y / d) - d * q;
    SmallMultiple(d, y / d - q);
  }

  lemma RegroupMultiple(c: nat, q: nat, x: int, y: int)
    ensures c * q * x + c * y == c * (q * x + y)
  {}

  lemma WithoutRemainder(r: int, c: nat)
    requires c > 0 && r >= 0
    ensures 0 <= r - r % c <= r && r == c * (r / c) + r % c
  {}

  /** Rounding down twice is rounding down to the coarser multiple. */
  lemma RoundTwice(i: int, c: nat, q: nat, d: nat)
    requires c > 0 && d == c * q && d > 0
    ensures (i - i % c) - (i - i % c) % d == i - i % d
  {
    var x, r := i / d, i % d;
    WithoutRemainder(r, c);
    var y, z := r / c, r % c;
    assert i == d * x + r;
    RegroupMultiple(c, q, x, y);
    RemainderIs(i, c, q * x + y, z);
    RemainderIs(i - z, d, x, r - z);
  }

  lemma ClearIntTwice(i: int, size: nat, a: nat, b: nat)
    requires a <= b
    ensures ClearInt(ClearInt(i, size, a), size, b) == ClearInt(i, size, b)
  {
    if b < size { RoundTwice(i, LowBytes(a), LowBytes(b) / LowBytes(a), LowBytes(b)); }
  }

  lemma ClearBytesTwice(s: seq<Byte>, a: nat, b: nat)
    requires a <= b
    ensures ClearBytes(ClearBytes(s, a), b) == ClearBytes(s, b)
  {}

  /** Clearing more bytes makes up for clearing fewer before. */
  lemma {:induction false} ClearTwice(f: Field, v: Value, a: nat, b: nat)
    requires a <= b
    ensures ClearValue(f, ClearValue(f, v, a), b) == ClearValue(f, v, b)
    decreases f, 0
  {
    if a > 0 {
      match v
      case Int(i) => ClearIntTwice(i, f.dataSize, a, b);
      case Bytes(_) =>
      case Chars(mem) => ClearBytesTwice(mem, a, b);
      case Inline(raw) => ClearBytesTwice(raw, a, b);
      case Sub(m) =>
        if f.ptr.SubFields? {
          var fs := f.ptr.fields;
          var m1, m2 := ClearStruct(fs, ClearStruct(fs, m, a), b), ClearStruct(fs, m, b);
          forall i | 0 <= i < |fs| ensures m1.slots[i] == m2.slots[i] {
            ClearItemsTwice(fs[i], SlotOf(m, i).items, Behind(a, DataPos(fs, i)), Behind(b, DataPos(fs, i)));
            assert ClearSlot(fs, i, ClearSlot(fs, i, SlotOf(m, i), a), b) == ClearSlot(fs, i, SlotOf(m, i), b);
          }
          assert m1.slots == m2.slots && m1.which == m2.which;
        }
    }
  }

  lemma {:induction false} ClearItemsTwice(f: Field, items: seq<Value>, a: nat, b: nat)
    requires a <= b
    ensures ClearItems(f, ClearItems(f, items, a), b) == ClearItems(f, items, b)
    decreases f, 1
  {
    forall k | 0 <= k < |items|
      ensures ClearItems(f, ClearItems(f, items, a), b)[k] == ClearItems(f, items, b)[k]
    {
      ClearTwice(f, items[k], Behind(a, k * f.dataSize), Behind(b, k * f.dataSize));
    }
  }

  /** What proto3 takes for zero stays so. */
  lemma {:induction false} ClearZero(f: Field, v: Value, n: nat)
    requires WellFormedField(f) && ShapedValue(f, v) && IsZero(f, v)
    ensures IsZero(f, ClearValue(f, v, n))
    decreases f, 2
  {
    if n > 0 && f.ltype == LSubmessage {
      ClearDefaults(f.ptr.fields, 0, v.m, n);
    }
  }

  lemma {:induction false} ClearDefaults(fields: seq<Field>, i: nat, m: Msg, n: nat)
    requires WellFormed(fields) && Shaped(fields, m) && i <= |fields| && AllDefaultFrom(fields, i, m)
    ensures AllDefaultFrom(fields, i, ClearStruct(fields, m, n))
    decreases fields, |fields| - i
  {
    if i < |fields| {
      var f, s := fields[i], m.slots[i];
      assert WellFormedField(f) && ShapedSlot(f, s);
      if Singular(f) {
        ClearZero(f, s.items[0], Behind(n, DataPos(fields, i)));
        assert ClearItems(f, s.items, Behind(n, DataPos(fields, i)))[0]
            == ClearValue(f, s.items[0], Behind(n, DataPos(fields, i)));
      }
      ClearDefaults(fields, i + 1, m, n);
    }
  }
}
