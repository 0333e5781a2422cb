/** What arbitrary input leaves in memory (sufficient conditions): whatever the decoder accepts, the data that
    counts is within its arrays, terminated, and can be encoded again, if memory was clean before. */
module Soundness {
  import opened Bits
  import opened Descriptor
  import opened Varint
  import opened EncodeSpec
  import opened DecodeSpec
  import opened Clearing
  import opened Equality
  import RoundTrip

  // ---- Sound data ----

  /** What is asked of memory: all of it within its arrays and terminated, or only the data that counts, or that
      this data can be encoded, for which strings need no terminator; or only the right shape. */
  datatype Level = Whole | Data | Encodable | Shape

  /** A bytes array does not exceed its capacity and a character array is terminated. */
  predicate SoundBlob(level: Level, f: Field, v: Value)
  {
    && (f.ltype == LBytes && !level.Shape? ==> v.Bytes? && |v.b| + SIZEOF_PB_SIZE <= f.dataSize)
    && (f.ltype == LString && (level.Whole? || level.Data?) ==> v.Chars? && |CString(v.mem)| < |v.mem|)
  }

  /** Entry k counts: it is below the count of its array, or the array has none, the field is there, or its union
      member is chosen. */
  predicate Counts(level: Level, f: Field, chosen: bool, s: Slot, k: nat)
  {
    level.Whole? ||
    match f.htype
    case Repeated => FixedCount(f) || k < s.count
    case Oneof => chosen
    case Required => true
    case Optional => if f.sizeOffset != 0 then s.has else !IsZero(f, Item(s, 0))
  }

  predicate SoundValue(level: Level, f: Field, v: Value)
    decreases f, 2
  {
    && ShapedValue(f, v) && SoundBlob(level, f, v)
    && (f.ltype == LSubmessage ==> v.Sub? && f.ptr.SubFields? && SoundIn(level, f.ptr.fields, v.m))
  }

  predicate SoundSlot(level: Level, chosen: bool, f: Field, s: Slot)
    decreases f, 4
  {
    && |s.items| == Capacity(f)
    && (f.htype == Repeated && !FixedCount(f) && !level.Shape? ==> s.count <= f.arraySize)
    && forall k :: 0 <= k < |s.items| && Counts(level, f, chosen, s, k) ==> SoundValue(level, f, s.items[k])
  }

  predicate SoundIn(level: Level, fields: seq<Field>, m: Msg)
    decreases fields, 5
  {
    && |m.slots| == |fields|
    && forall i :: 0 <= i < |fields| ==> SoundSlot(level, Selected(fields, i, m), fields[i], m.slots[i])
  }

  /** All memory is sound: array entries behind the count, absent fields and unselected union members too. */
  predicate Sound(fields: seq<Field>, m: Msg) { SoundIn(Whole, fields, m) }

  /** The data that counts is sound. */
  predicate Tidy(fields: seq<Field>, m: Msg) { SoundIn(Data, fields, m) }

  // ---- Clean memory ----

  predicate CleanValue(level: Level, f: Field, v: Value)
    decreases f, 2
  {
    f.ltype == LSubmessage ==> v.Sub? && f.ptr.SubFields? && CleanIn(level, f.ptr.fields, v.m)
  }

  predicate CleanSlot(level: Level, f: Field, s: Slot)
    decreases f, 4
  {
    && (level.Whole? ==> SoundSlot(level, true, f, s))
    && if FixedCount(f) then
         var kept := ClearItems(f, s.items, SIZEOF_PB_SIZE);
         forall k :: 0 <= k < |s.items| ==> CleanValue(level, f, kept[k]) && SoundValue(level, f, kept[k])
       else f.htype != Oneof ==> forall k :: 0 <= k < |s.items| ==> CleanValue(level, f, s.items[k])
  }

  /**
   * What memory must be before pb_decode: arrays without a count hold sound entries, in nested structs too, once
   * their first four bytes are cleared. Nothing is asked of union members, which are cleared when they are selected,
   * and nothing of any other data.
   */
  predicate CleanIn(level: Level, fields: seq<Field>, m: Msg)
    decreases fields, 5
  {
    |m.slots| == |fields| && forall i :: 0 <= i < |fields| ==> CleanSlot(level, fields[i], m.slots[i])
  }

  // ---- What the decode loop keeps ----

  /** Sound, and so is everything that a further record may be merged into. */
  predicate ReadyValue(level: Level, f: Field, v: Value)
    decreases f, 2
  {
    && ShapedValue(f, v) && SoundBlob(level, f, v)
    && (f.ltype == LSubmessage ==> v.Sub? && f.ptr.SubFields? && ReadyIn(level, f.ptr.fields, v.m))
  }

  predicate ReadySlot(level: Level, chosen: bool, f: Field, s: Slot)
    decreases f, 4
  {
    && ShapedSlot(f, s) && SoundSlot(level, chosen, f, s)
    && (f.htype != Oneof ==> forall k :: 0 <= k < |s.items| ==> CleanValue(level, f, s.items[k]))
    && (f.htype == Required || f.htype == Optional ==> ReadyValue(level, f, s.items[0]))
  }

  predicate ReadyIn(level: Level, fields: seq<Field>, m: Msg)
    decreases fields, 5
  {
    && |m.slots| == |fields|
    && forall i :: 0 <= i < |fields| ==> ReadySlot(level, Selected(fields, i, m), fields[i], m.slots[i])
  }

  // ---- Clearing the first bytes keeps all this ----

  /** Sound data stays sound: no data begins to count. */
  lemma {:induction false} ClearSound(level: Level, f: Field, v: Value, n: nat)
    requires WellFormedField(f) && SoundValue(level, f, v)
    ensures SoundValue(level, f, ClearValue(f, v, n))
    decreases f, 2
  {
    ClearShaped(f, v, n);
    if n > 0 && f.ltype == LSubmessage {
      var fs, m := f.ptr.fields, ClearStruct(f.ptr.fields, v.m, n);
      assert Shaped(fs, v.m);
      forall i | 0 <= i < |fs| ensures SoundSlot(level, Selected(fs, i, m), fs[i], m.slots[i]) {
        assert SoundSlot(level, Selected(fs, i, v.m), fs[i], v.m.slots[i]);
        ClearSlotSound(level, fs, i, v.m, n);
      }
    } else if n > 0 && f.ltype == LString && |v.mem| > 0 {
      assert ClearBytes(v.mem, n)[0] == 0;
    }
  }

  lemma {:induction false} ClearSlotSound(level: Level, fields: seq<Field>, i: nat, m: Msg, n: nat)
    requires WellFormed(fields) && Shaped(fields, m) && i < |fields|
    requires SoundSlot(level, Selected(fields, i, m), fields[i], m.slots[i])
    ensures var m' := ClearStruct(fields, m, n); SoundSlot(level, Selected(fields, i, m'), fields[i], m'.slots[i])
    decreases fields, 0
  {
    var f, s, m', b := fields[i], m.slots[i], ClearStruct(fields, m, n), Behind(n, DataPos(fields, i));
    var s' := m'.slots[i];
    assert WellFormedField(f) && ShapedSlot(f, s) && s' == ClearSlot(fields, i, s, n);
    forall k | 0 <= k < |s'.items| && Counts(level, f, Selected(fields, i, m'), s', k)
      ensures SoundValue(level, f, s'.items[k])
    {
      assert s'.items[k] == ClearValue(f, s.items[k], Behind(b, k * f.dataSize));
      if Singular(f) && IsZero(f, s.items[0]) { ClearZero(f, s.items[0], b); }
      assert Counts(level, f, Selected(fields, i, m), s, k);
      ClearSound(level, f, s.items[k], Behind(b, k * f.dataSize));
    }
  }

  /** Clean memory stays clean: arrays without a count are cleared further than that in any case. */
  lemma {:induction false} ClearClean(level: Level, f: Field, v: Value, n: nat)
    requires WellFormedField(f) && CleanValue(level, f, v) && ShapedValue(f, v) && n <= SIZEOF_PB_SIZE
    ensures CleanValue(level, f, ClearValue(f, v, n))
    decreases f, 2
  {
    if n > 0 && f.ltype == LSubmessage {
      var fs, m := f.ptr.fields, ClearStruct(f.ptr.fields, v.m, n);
      forall i | 0 <= i < |fs| ensures CleanSlot(level, fs[i], m.slots[i]) {
        ClearSlotClean(level, fs, i, v.m, n);
      }
    }
  }

  lemma {:induction false} ClearSlotClean(level: Level, fields: seq<Field>, i: nat, m: Msg, n: nat)
    requires WellFormed(fields) && Shaped(fields, m) && CleanIn(level, fields, m) && i < |fields| && n <= SIZEOF_PB_SIZE
    ensures CleanSlot(level, fields[i], ClearStruct(fields, m, n).slots[i])
    decreases fields, 0
  {
    var f, s, b := fields[i], m.slots[i], Behind(n, DataPos(fields, i));
    var s' := ClearStruct(fields, m, n).slots[i];
    assert WellFormedField(f) && ShapedSlot(f, s) && CleanSlot(level, f, s) && s' == ClearSlot(fields, i, s, n);
    if level.Whole? {
      forall k | 0 <= k < |s'.items| ensures SoundValue(level, f, s'.items[k]) {
        assert Counts(level, f, true, s, k);
        ClearSound(level, f, s.items[k], Behind(b, k * f.dataSize));
      }
    }
    if FixedCount(f) {
      ClearItemsTwice(f, s.items, b, SIZEOF_PB_SIZE);
    } else if f.htype != Oneof {
      forall k | 0 <= k < |s'.items| ensures CleanValue(level, f, s'.items[k]) {
        assert s'.items[k] == ClearValue(f, s.items[k], Behind(b, k * f.dataSize));
        ClearClean(level, f, s.items[k], Behind(b, k * f.dataSize));
      }
    }
  }

  lemma {:induction false} ReadyIsSound(level: Level, fields: seq<Field>, m: Msg)
    requires WellFormed(fields) && ReadyIn(level, fields, m)
    ensures Shaped(fields, m) && SoundIn(level, fields, m) && CleanIn(level, fields, m)
  {
    hide SoundSlot, CleanSlot, ShapedSlot;
    forall i | 0 <= i < |fields|
      ensures ShapedSlot(fields[i], m.slots[i]) && CleanSlot(level, fields[i], m.slots[i])
      ensures SoundSlot(level, Selected(fields, i, m), fields[i], m.slots[i])
    {
      assert ReadySlot(level, Selected(fields, i, m), fields[i], m.slots[i]) && WellFormedField(fields[i]);
      ReadySlotClean(level, Selected(fields, i, m), fields[i], m.slots[i]);
    }
  }

  lemma ReadySlotClean(level: Level, chosen: bool, f: Field, s: Slot)
    requires WellFormedField(f) && ReadySlot(level, chosen, f, s)
    ensures CleanSlot(level, f, s)
  {
    hide SoundValue, CleanValue, ShapedValue, ReadyValue;
    if FixedCount(f) {
      var kept := ClearItems(f, s.items, SIZEOF_PB_SIZE);
      forall k | 0 <= k < |s.items| ensures CleanValue(level, f, kept[k]) && SoundValue(level, f, kept[k]) {
        assert Counts(level, f, chosen, s, k);
        ClearClean(level, f, s.items[k], Behind(SIZEOF_PB_SIZE, k * f.dataSize));
        ClearSound(level, f, s.items[k], Behind(SIZEOF_PB_SIZE, k * f.dataSize));
      }
    }
  }

  lemma ReadyValueIsSound(level: Level, f: Field, v: Value)
    requires WellFormedField(f) && ReadyValue(level, f, v)
    ensures ShapedValue(f, v) && SoundValue(level, f, v) && CleanValue(level, f, v)
  {
    hide SoundIn, CleanIn, ReadyIn, ShapedValue;
    if f.ltype == LSubmessage { ReadyIsSound(level, f.ptr.fields, v.m); }
  }

  /** If all memory is sound, it is clean and ready. */
  lemma {:induction false} SoundIsReady(fields: seq<Field>, m: Msg)
    requires WellFormed(fields) && SoundIn(Whole, fields, m)
    ensures ReadyIn(Whole, fields, m)
    decreases fields, 1
  {
    forall i | 0 <= i < |fields| ensures ReadySlot(Whole, Selected(fields, i, m), fields[i], m.slots[i]) {
      var f, s := fields[i], m.slots[i];
      assert SoundSlot(Whole, Selected(fields, i, m), f, s) && WellFormedField(f);
      forall k | 0 <= k < |s.items| ensures ReadyValue(Whole, f, s.items[k]) && CleanValue(Whole, f, s.items[k]) {
        assert Counts(Whole, f, Selected(fields, i, m), s, k);
        SoundValueIsReady(f, s.items[k]);
        ReadyValueIsSound(Whole, f, s.items[k]);
      }
    }
  }

  lemma {:induction false} SoundValueIsReady(f: Field, v: Value)
    requires WellFormedField(f) && SoundValue(Whole, f, v)
    ensures ReadyValue(Whole, f, v)
    decreases f, 0
  {
    if f.ltype == LSubmessage { SoundIsReady(f.ptr.fields, v.m); }
  }

  /** The shape alone asks nothing of the values. */
  lemma {:induction false} ShapedIsReady(fields: seq<Field>, m: Msg)
    requires WellFormed(fields) && Shaped(fields, m)
    ensures ReadyIn(Shape, fields, m)
    decreases fields, 1
  {
    forall i | 0 <= i < |fields| ensures ReadySlot(Shape, Selected(fields, i, m), fields[i], m.slots[i]) {
      var f, s := fields[i], m.slots[i];
      assert ShapedSlot(f, s) && WellFormedField(f);
      forall k | 0 <= k < |s.items| ensures ReadyValue(Shape, f, s.items[k]) && CleanValue(Shape, f, s.items[k]) {
        ShapedValueIsReady(f, s.items[k]);
        ReadyValueIsSound(Shape, f, s.items[k]);
      }
      forall k | 0 <= k < |s.items| ensures SoundValue(Shape, f, s.items[k]) {
        ReadyValueIsSound(Shape, f, s.items[k]);
      }
    }
  }

  lemma {:induction false} ShapedValueIsReady(f: Field, v: Value)
    requires WellFormedField(f) && ShapedValue(f, v)
    ensures ReadyValue(Shape, f, v)
    decreases f, 0
  {
    if f.ltype == LSubmessage { ShapedIsReady(f.ptr.fields, v.m); }
  }

  /** No array without a count, in nested descriptors either. */
  predicate AllCounted(fields: seq<Field>)
    decreases fields, 1
  {
    forall i :: 0 <= i < |fields| ==> CountedField(fields[i])
  }

  predicate CountedField(f: Field)
    decreases f, 0
  {
    !FixedCount(f) && (f.ptr.SubFields? ==> AllCounted(f.ptr.fields))
  }

  /** Then all memory of the right shape is clean. */
  lemma {:induction false} CountedIsClean(level: Level, fields: seq<Field>, m: Msg)
    requires WellFormed(fields) && AllCounted(fields) && Shaped(fields, m) && !level.Whole?
    ensures CleanIn(level, fields, m)
    decreases fields, 1
  {
    forall i | 0 <= i < |fields| ensures CleanSlot(level, fields[i], m.slots[i]) {
      var s := m.slots[i];
      assert ShapedSlot(fields[i], s) && CountedField(fields[i]) && WellFormedField(fields[i]);
      forall k | 0 <= k < |s.items| ensures CleanValue(level, fields[i], s.items[k]) {
        CountedValueIsClean(level, fields[i], s.items[k]);
      }
    }
  }

  lemma {:induction false} CountedValueIsClean(level: Level, f: Field, v: Value)
    requires WellFormedField(f) && CountedField(f) && ShapedValue(f, v) && !level.Whole?
    ensures CleanValue(level, f, v)
    decreases f, 0
  {
    if f.ltype == LSubmessage { CountedIsClean(level, f.ptr.fields, v.m); }
  }

  // ---- Initialization ----

  lemma {:induction false} ZeroValueReady(level: Level, f: Field)
    requires WellFormedField(f)
    ensures ReadyValue(level, f, ZeroValue(f))
    decreases f, 0
  {
    ZeroValueShaped(f);
    if f.ltype == LString {
      assert Zeros(f.dataSize)[0] == 0;
    } else if f.ltype == LSubmessage {
      var fs := f.ptr.fields;
      var m := Msg(ZeroSlots(fs), map[]);
      forall i | 0 <= i < |fs| ensures ReadySlot(level, Selected(fs, i, m), fs[i], m.slots[i]) {
        assert m.slots[i] == ZeroSlot(fs[i]);
        ZeroValueReady(level, fs[i]);
        ZeroSlotReady(level, Selected(fs, i, m), fs[i]);
      }
    }
  }

  lemma ZeroSlotReady(level: Level, chosen: bool, f: Field)
    requires WellFormedField(f) && ReadyValue(level, f, ZeroValue(f))
    ensures ReadySlot(level, chosen, f, ZeroSlot(f))
  {
    hide ReadyValue, SoundValue, CleanValue, ShapedValue;
    ReadyValueIsSound(level, f, ZeroValue(f));
  }

  lemma {:induction false} DefaultValueReady(level: Level, f: Field, v: Value)
    requires WellFormedField(f) && ShapedValue(f, v) && CleanValue(level, f, v)
    ensures ReadyValue(level, f, DefaultValue(f, v))
    decreases f, 1
  {
    if f.ltype == LSubmessage {
      DefaultsReady(level, f.ptr.fields, v.m);
      ReadyIsSound(level, f.ptr.fields, Defaults(f.ptr.fields, v.m));
    } else {
      ZeroValueReady(level, f);
    }
  }

  lemma DefaultSlotReady(level: Level, f: Field, s: Slot)
    requires WellFormedField(f) && ShapedSlot(f, s) && CleanSlot(level, f, s)
    requires f.htype == Required || f.htype == Optional ==> ReadyValue(level, f, DefaultValue(f, s.items[0]))
    ensures ReadySlot(level, false, f, DefaultSlot(f, s))
  {
    hide ReadyValue, SoundValue, CleanValue, ShapedValue, DefaultValue;
    if f.htype == Required || f.htype == Optional {
      ReadyValueIsSound(level, f, DefaultValue(f, s.items[0]));
    } else if FixedCount(f) {
      assert ShapedSlot(f, DefaultSlot(f, s)) by { FixedShaped(f, s); }
    }
  }

  lemma FixedShaped(f: Field, s: Slot)
    requires WellFormedField(f) && ShapedSlot(f, s) && FixedCount(f)
    ensures ShapedSlot(f, DefaultSlot(f, s))
  {
    ClearItemsShaped(f, s.items, SIZEOF_PB_SIZE);
  }

  /** pb_message_set_to_defaults makes clean memory ready. */
  lemma {:induction false} DefaultsReady(level: Level, fields: seq<Field>, m: Msg)
    requires WellFormed(fields) && Shaped(fields, m) && CleanIn(level, fields, m)
    ensures ReadyIn(level, fields, Defaults(fields, m))
    decreases fields, 2
  {
    var d := Defaults(fields, m);
    forall i | 0 <= i < |fields| ensures ReadySlot(level, Selected(fields, i, d), fields[i], d.slots[i]) {
      var f, s := fields[i], m.slots[i];
      assert CleanSlot(level, f, s) && WellFormedField(f) && ShapedSlot(f, s);
      assert !Selected(fields, i, d);
      if f.htype == Required || f.htype == Optional { DefaultValueReady(level, f, s.items[0]); }
      DefaultSlotReady(level, f, s);
    }
  }

  // ---- Decoding ----

  lemma {:induction false} LittleEndianBound(s: seq<Byte>)
    requires |s| <= 8
    ensures FromLittleEndian(s) < Pow2(8 * |s|)
  {
    if s != [] {
      LittleEndianBound(s[1..]);
      Pow2Add(8, 8 * (|s| - 1));
      assert Pow2(8) == 0x100;
    }
  }

  lemma IntegerReady(level: Level, f: Field, s: seq<Byte>)
    requires WellFormedField(f) && Packable(f) && Integer(f, s).Ok?
    ensures ReadyValue(level, f, Integer(f, s).value)
  {
    hide Decode64, UnZigZag, FromLittleEndian;
    if f.ltype == LFixed32 || f.ltype == LFixed64 {
      var n := if f.ltype == LFixed32 then 4 else 8;
      LittleEndianBound(s[..n]);
      Pow2Words();
    } else {
      SignedBound(f, s);
    }
  }

  lemma ToSignedRange(v: int, n: nat)
    requires IntegerSize(n)
    ensures InSigned(ToSigned(v, n), n)
  {}

  lemma SignedBound(f: Field, s: seq<Byte>)
    requires WellFormedField(f) && f.ltype in {LVarint, LSvarint, LUvarint} && Integer(f, s).Ok?
    ensures ShapedValue(f, Integer(f, s).value)
  {
    hide Decode64, UnZigZag;
    var i := Integer(f, s).value.i;
    if f.ltype != LUvarint {
      ToSignedRange(i, f.dataSize);
    }
  }

  lemma {:induction false} NulIn(mem: seq<Byte>, k: nat)
    requires k < |mem| && mem[k] == 0
    ensures |CString(mem)| <= k
  {
    if |CString(mem)| > k { assert CString(mem)[k] == mem[k]; }
  }

  lemma BlobReady(level: Level, f: Field, old_: Value, s: seq<Byte>)
    requires WellFormedField(f) && f.ltype in {LBytes, LString, LInline} && ShapedValue(f, old_)
    requires Blob(f, old_, s).Ok?
    ensures ReadyValue(level, f, Blob(f, old_, s).value)
  {
    hide Decode32;
    if f.ltype == LString {
      var n := Decode32(s).value;
      var b := Take(Decode32(s).rest, n).value;
      assert |StoreString(old_, b)| == f.dataSize;
      NulIn(StoreString(old_, b), |b|);
    }
  }

  /** What an entry must be before a value is decoded into it: nested structs are decoded on top of what is there. */
  predicate Receives(level: Level, f: Field, v: Value)
  {
    && ShapedValue(f, v)
    && (f.htype == Repeated ==> CleanValue(level, f, v))
    && (f.htype != Repeated && f.ltype == LSubmessage ==> ReadyValue(level, f, v))
  }

  lemma {:induction false} DecodeValueReady(level: Level, f: Field, old_: Value, s: seq<Byte>)
    requires WellFormedField(f) && Receives(level, f, old_) && DecodeValue(f, old_, s).Ok?
    ensures ReadyValue(level, f, DecodeValue(f, old_, s).value)
    decreases |s|, 1
  {
    if f.ltype == LSubmessage {
      var fs := f.ptr.fields;
      var start := if f.htype == Repeated then Defaults(fs, SubOf(old_)) else SubOf(old_);
      if f.htype == Repeated { DefaultsReady(level, fs, SubOf(old_)); }
      var sub := Substream(s).value;
      DecodeReady(level, fs, start, sub);
      ReadyIsSound(level, fs, DecodeNoInit(fs, start, sub).value);
    } else if Packable(f) {
      IntegerReady(level, f, s);
    } else {
      BlobReady(level, f, old_, s);
    }
  }

  /** Replacing slot i by a ready one. */
  lemma StoreReady(level: Level, fields: seq<Field>, i: nat, m: Msg, s: Slot)
    requires ReadyIn(level, fields, m) && i < |fields| && ReadySlot(level, Selected(fields, i, m), fields[i], s)
    ensures ReadyIn(level, fields, SetSlot(m, i, s))
  {
    hide ReadySlot, SizePos;
    forall j | 0 <= j < |fields|
      ensures ReadySlot(level, Selected(fields, j, SetSlot(m, i, s)), fields[j], SetSlot(m, i, s).slots[j])
    {
      assert ReadySlot(level, Selected(fields, j, m), fields[j], m.slots[j]);
    }
  }

  lemma SlotWith(level: Level, chosen: bool, f: Field, s: Slot, k: nat, v: Value)
    requires WellFormedField(f) && ReadySlot(level, chosen, f, s) && ReadyValue(level, f, v)
    requires f.htype == Repeated && k < f.arraySize
    ensures ReadySlot(level, chosen, f, SetItem(s, k, v))
    ensures !FixedCount(f) && k == s.count ==> ReadySlot(level, chosen, f, SetItem(s, k, v).(count := k + 1))
  {
    hide SoundValue, CleanValue, ShapedValue, ReadyValue;
    ReadyValueIsSound(level, f, v);
  }

  lemma AppendReady(level: Level, fields: seq<Field>, i: nat, st: State, v: Value)
    requires WellFormed(fields) && ReadyIn(level, fields, st.m) && i < |fields|
    requires fields[i].htype == Repeated && ReadyValue(level, fields[i], v)
    requires NextIndex(fields[i], i, st) < fields[i].arraySize
    ensures ReadyIn(level, fields, Append(fields[i], i, st, v).m)
  {
    hide ReadyValue, ReadySlot, SizePos;
    var f, k := fields[i], NextIndex(fields[i], i, st);
    assert ReadySlot(level, Selected(fields, i, st.m), f, st.m.slots[i]) && WellFormedField(f);
    SlotWith(level, Selected(fields, i, st.m), f, st.m.slots[i], k, v);
    var s := SetItem(SlotOf(st.m, i), k, v);
    StoreReady(level, fields, i, st.m, s);
    if !FixedCount(f) { StoreReady(level, fields, i, SetSlot(st.m, i, s), s.(count := k + 1)); }
  }

  lemma {:induction false} PackedLoopReady(level: Level, fields: seq<Field>, i: nat, st: State, s: seq<Byte>)
    requires WellFormed(fields) && ReadyIn(level, fields, st.m) && i < |fields|
    requires fields[i].htype == Repeated && Packable(fields[i])
    requires PackedLoop(fields[i], i, st, s).Some?
    ensures ReadyIn(level, fields, PackedLoop(fields[i], i, st, s).value.m)
    decreases |s|
  {
    if s != [] {
      var f := fields[i];
      var old_ := Item(SlotOf(st.m, i), NextIndex(f, i, st));
      var v := DecodeValue(f, old_, s);
      IntegerReady(level, f, s);
      AppendReady(level, fields, i, st, v.value);
      PackedLoopReady(level, fields, i, Append(f, i, st, v.value), v.rest);
    }
  }

  /** Only a union member can be chosen or given up. */
  lemma ChosenSlot(level: Level, chosen: bool, chosen': bool, f: Field, s: Slot)
    requires ReadySlot(level, chosen, f, s) && (f.htype == Oneof && chosen' ==> chosen)
    ensures ReadySlot(level, chosen', f, s)
  {
    hide SoundValue, CleanValue, ShapedValue, ReadyValue;
  }

  lemma ChosenSlotWith(level: Level, chosen: bool, f: Field, s: Slot, v: Value)
    requires WellFormedField(f) && ReadySlot(level, chosen, f, s) && f.htype == Oneof && ReadyValue(level, f, v)
    ensures ReadySlot(level, true, f, SetItem(s, 0, v))
  {
    hide SoundValue, CleanValue, ShapedValue, ReadyValue;
    ReadyValueIsSound(level, f, v);
  }

  /** Choosing a union member: the others of that union no longer count. */
  lemma ChooseReady(level: Level, fields: seq<Field>, i: nat, m: Msg, v: Value)
    requires WellFormed(fields) && ReadyIn(level, fields, m) && i < |fields| && fields[i].htype == Oneof
    requires ReadyValue(level, fields[i], v)
    ensures ReadyIn(level, fields, SetFieldItem(m.(which := m.which[SizePos(fields, i) := fields[i].tag]), i, 0, v))
  {
    hide ReadySlot, ReadyValue, SizePos, WellFormedField;
    var m' := SetFieldItem(m.(which := m.which[SizePos(fields, i) := fields[i].tag]), i, 0, v);
    forall j | 0 <= j < |fields| ensures ReadySlot(level, Selected(fields, j, m'), fields[j], m'.slots[j]) {
      assert ReadySlot(level, Selected(fields, j, m), fields[j], m.slots[j]);
      if j == i {
        ChosenSlotWith(level, Selected(fields, j, m), fields[j], m.slots[j], v);
      } else {
        ChosenSlot(level, Selected(fields, j, m), Selected(fields, j, m'), fields[j], m.slots[j]);
      }
    }
  }

  lemma {:induction false} RepeatedReady(level: Level, fields: seq<Field>, i: nat, wireType: nat, st: State, s: seq<Byte>)
    requires WellFormed(fields) && ReadyIn(level, fields, st.m)
    requires i < |fields| && StaticField(fields, i, wireType, st, s).Ok?
    requires fields[i].htype == Repeated
    ensures ReadyIn(level, fields, StaticField(fields, i, wireType, st, s).value.m)
    decreases |s|, 2
  {
    hide SoundValue, CleanValue, ReadyValue, ShapedValue, SizePos;
    var f, slot := fields[i], SlotOf(st.m, i);
    assert ReadySlot(level, Selected(fields, i, st.m), f, slot) && WellFormedField(f);
    if wireType == WT_STRING && Packable(f) {
      PackedLoopReady(level, fields, i, st, Substream(s).value);
    } else {
      var old_ := Item(slot, NextIndex(f, i, st));
      DecodeValueReady(level, f, old_, s);
      AppendReady(level, fields, i, st, DecodeValue(f, old_, s).value);
    }
  }

  /** The memory of a union member is cleared when it is selected. */
  lemma OneofTarget(level: Level, f: Field, old_: Value)
    requires WellFormedField(f) && f.htype == Oneof && ShapedValue(f, old_)
    ensures Receives(level, f, if f.ltype == LSubmessage then DefaultValue(f, ZeroValue(f)) else old_)
  {
    ZeroValueReady(level, f);
    ReadyValueIsSound(level, f, ZeroValue(f));
    DefaultValueReady(level, f, ZeroValue(f));
  }

  lemma {:induction false} OneofReady(level: Level, fields: seq<Field>, i: nat, wireType: nat, st: State, s: seq<Byte>)
    requires WellFormed(fields) && ReadyIn(level, fields, st.m)
    requires i < |fields| && StaticField(fields, i, wireType, st, s).Ok?
    requires fields[i].htype == Oneof
    ensures ReadyIn(level, fields, StaticField(fields, i, wireType, st, s).value.m)
    decreases |s|, 2
  {
    hide SoundValue, CleanValue, ReadyValue, ShapedValue, SizePos, Receives;
    var f, slot := fields[i], SlotOf(st.m, i);
    assert ReadySlot(level, Selected(fields, i, st.m), f, slot) && WellFormedField(f);
    OneofTarget(level, f, Item(slot, 0));
    var target := if f.ltype == LSubmessage then DefaultValue(f, ZeroValue(f)) else Item(slot, 0);
    DecodeValueReady(level, f, target, s);
    ChooseReady(level, fields, i, st.m, DecodeValue(f, target, s).value);
  }

  lemma SlotWithFirst(level: Level, chosen: bool, f: Field, s: Slot, has: bool, v: Value)
    requires WellFormedField(f) && ReadySlot(level, chosen, f, s) && ReadyValue(level, f, v)
    requires f.htype == Required || f.htype == Optional
    ensures ReadySlot(level, chosen, f, SetItem(s.(has := has), 0, v))
  {
    hide SoundValue, CleanValue, ShapedValue, ReadyValue;
    ReadyValueIsSound(level, f, v);
  }

  lemma {:induction false} SingleReady(level: Level, fields: seq<Field>, i: nat, wireType: nat, st: State, s: seq<Byte>)
    requires WellFormed(fields) && ReadyIn(level, fields, st.m)
    requires i < |fields| && StaticField(fields, i, wireType, st, s).Ok?
    requires fields[i].htype == Required || fields[i].htype == Optional
    ensures ReadyIn(level, fields, StaticField(fields, i, wireType, st, s).value.m)
    decreases |s|, 2
  {
    hide SoundValue, CleanValue, ReadyValue, ShapedValue, SizePos;
    var f, slot, chosen := fields[i], SlotOf(st.m, i), Selected(fields, i, st.m);
    assert ReadySlot(level, chosen, f, slot) && WellFormedField(f);
    ReadyValueIsSound(level, f, slot.items[0]);
    DecodeValueReady(level, f, Item(slot, 0), s);
    var v := DecodeValue(f, Item(slot, 0), s).value;
    var has := slot.has || (f.htype == Optional && f.sizeOffset != 0);
    SlotWithFirst(level, chosen, f, slot, has, v);
    StoreReady(level, fields, i, st.m, SetItem(slot.(has := has), 0, v));
  }

  lemma {:induction false} StaticFieldReady(level: Level, fields: seq<Field>, i: nat, wireType: nat, st: State,
                                            s: seq<Byte>)
    requires WellFormed(fields) && ReadyIn(level, fields, st.m)
    requires i < |fields| && StaticField(fields, i, wireType, st, s).Ok?
    ensures ReadyIn(level, fields, StaticField(fields, i, wireType, st, s).value.m)
    decreases |s|, 3
  {
    hide ReadyIn, WellFormed, StaticField;
    match fields[i].htype
    case Repeated => RepeatedReady(level, fields, i, wireType, st, s);
    case Oneof => OneofReady(level, fields, i, wireType, st, s);
    case Required => SingleReady(level, fields, i, wireType, st, s);
    case Optional => SingleReady(level, fields, i, wireType, st, s);
  }

  lemma {:induction false} RecordReady(level: Level, fields: seq<Field>, key: nat, st: State, s: seq<Byte>)
    requires WellFormed(fields) && ReadyIn(level, fields, st.m) && Record(fields, key, st, s).Ok?
    ensures ReadyIn(level, fields, Record(fields, key, st, s).value.m)
    decreases |s|, 5
  {
    var i := FindFrom(fields, 0, key / 8);
    if i.Some? {
      assert Record(fields, key, st, s) == DecodeField(fields, i.value, key % 8, st, s);
      StaticFieldReady(level, fields, i.value, key % 8, Enter(fields, i.value, st).value, s);
    }
  }

  lemma {:induction false} LoopReady(level: Level, fields: seq<Field>, st: State, s: seq<Byte>)
    requires WellFormed(fields) && ReadyIn(level, fields, st.m) && Loop(fields, st, s).Ok?
    ensures ReadyIn(level, fields, Loop(fields, st, s).value.m)
    decreases |s|, 6
  {
    if s != [] && Decode32(s).value != 0 {
      var key, rest := Decode32(s).value, Decode32(s).rest;
      var next := Record(fields, key, st, rest);
      assert Loop(fields, st, s) == if next.Ok? then Loop(fields, next.value, next.rest) else Fail;
      RecordReady(level, fields, key, st, rest);
      LoopReady(level, fields, next.value, next.rest);
    }
  }

  lemma {:induction false} DecodeReady(level: Level, fields: seq<Field>, m: Msg, s: seq<Byte>)
    requires WellFormed(fields) && ReadyIn(level, fields, m) && DecodeNoInit(fields, m, s).Ok?
    ensures ReadyIn(level, fields, DecodeNoInit(fields, m, s).value)
    decreases |s|, 7
  {
    LoopReady(level, fields, State(m, {}, None, 0), s);
  }

  /**
   * For every byte string: a struct pb_decode_noinit returns is sound in all its memory if the memory it decoded
   * into was; and memory that is ready for decoding holds sound data and is ready again afterwards.
   */
  lemma DecodeSound(level: Level, fields: seq<Field>, m: Msg, s: seq<Byte>)
    requires WellFormed(fields) && DecodeNoInit(fields, m, s).Ok?
    ensures Sound(fields, m) ==> Sound(fields, DecodeNoInit(fields, m, s).value)
    ensures ReadyIn(level, fields, m) ==>
              var m' := DecodeNoInit(fields, m, s).value; ReadyIn(level, fields, m') && SoundIn(level, fields, m')
  {
    hide SoundIn, ReadyIn;
    if Sound(fields, m) {
      SoundIsReady(fields, m);
      DecodeReady(Whole, fields, m, s);
      ReadyIsSound(Whole, fields, DecodeNoInit(fields, m, s).value);
    }
    if ReadyIn(level, fields, m) {
      DecodeReady(level, fields, m, s);
      ReadyIsSound(level, fields, DecodeNoInit(fields, m, s).value);
    }
  }

  /** And what pb_decode returns has sound data if the memory was clean. */
  lemma DecodeTidy(level: Level, fields: seq<Field>, dest: Msg, s: seq<Byte>)
    requires WellFormed(fields) && Shaped(fields, dest) && CleanIn(level, fields, dest) && Decode(fields, dest, s).Ok?
    ensures SoundIn(level, fields, Decode(fields, dest, s).value) && Shaped(fields, Decode(fields, dest, s).value)
  {
    hide SoundIn, ReadyIn, Shaped, CleanIn;
    DefaultsReady(level, fields, dest);
    DecodeReady(level, fields, Defaults(fields, dest), s);
    ReadyIsSound(level, fields, Decode(fields, dest, s).value);
  }

  /** Whatever the memory held, it keeps its shape. */
  lemma DecodeShaped(fields: seq<Field>, dest: Msg, s: seq<Byte>)
    requires WellFormed(fields) && Shaped(fields, dest) && Decode(fields, dest, s).Ok?
    ensures Shaped(fields, Decode(fields, dest, s).value)
  {
    hide SoundIn, ReadyIn, Shaped, CleanIn;
    ShapedIsReady(fields, dest);
    ReadyIsSound(Shape, fields, dest);
    DecodeTidy(Shape, fields, dest, s);
  }

  // ---- Encoding what was decoded ----

  lemma {:induction false} SoundValueEncodes(level: Level, f: Field, v: Value)
    requires !level.Shape? && WellFormedField(f) && SoundValue(level, f, v)
    ensures EncodeValue(f, v).Some?
    ensures !level.Encodable? && |EncodeValue(f, v).value| < TWO_32 ==> DecodableValue(f, v)
    decreases f, 0
  {
    if f.ltype == LSubmessage {
      SoundEncodes(level, f.ptr.fields, v.m);
    }
  }

  /** Entries behind one another: each is no longer than all of them. */
  lemma {:induction false} UnpackedEncodes(level: Level, f: Field, items: seq<Value>)
    requires !level.Shape? && WellFormedField(f) && !Packable(f)
    requires forall k :: 0 <= k < |items| ==> SoundValue(level, f, items[k])
    ensures EncodeUnpacked(f, items).Some?
    ensures !level.Encodable? && |EncodeUnpacked(f, items).value| < TWO_32 ==>
              forall k :: 0 <= k < |items| ==> DecodableValue(f, items[k])
    decreases f, 1, |items|
  {
    if items != [] {
      assert SoundValue(level, f, items[0]);
      SoundValueEncodes(level, f, items[0]);
      UnpackedEncodes(level, f, items[1..]);
      assert EncodeUnpacked(f, items) == Join(EncodeTagged(f, items[0]), EncodeUnpacked(f, items[1..]));
      if !level.Encodable? && |EncodeUnpacked(f, items).value| < TWO_32 {
        forall k | 0 <= k < |items| ensures DecodableValue(f, items[k]) {
          if k > 0 { assert items[k] == items[1..][k - 1]; }
        }
      }
    }
  }

  lemma {:induction false} PackedEncodes(level: Level, f: Field, items: seq<Value>)
    requires !level.Shape? && WellFormedField(f) && Packable(f)
    requires forall k :: 0 <= k < |items| ==> SoundValue(level, f, items[k])
    ensures EncodePacked(f, items).Some?
  {
    if items != [] {
      assert SoundValue(level, f, items[0]);
      PackedEncodes(level, f, items[1..]);
    }
  }

  lemma {:induction false} FieldEncodes(level: Level, fields: seq<Field>, i: nat, m: Msg)
    requires !level.Shape? && WellFormed(fields) && SoundIn(level, fields, m) && i < |fields|
    ensures EncodeField(fields, i, m).Some?
    ensures !level.Encodable? && |EncodeField(fields, i, m).value| < TWO_32 ==> DecodableField(fields, i, m)
    decreases fields, 0
  {
    var f, s := fields[i], m.slots[i];
    assert SoundSlot(level, Selected(fields, i, m), f, s) && WellFormedField(f);
    if Present(fields, i, m) {
      if f.htype != Repeated {
        assert Counts(level, f, Selected(fields, i, m), s, 0);
        SoundValueEncodes(level, f, s.items[0]);
      } else {
        var n := Count(f, s);
        forall k | 0 <= k < n ensures SoundValue(level, f, s.items[k]) {
          assert Counts(level, f, Selected(fields, i, m), s, k);
        }
        if Packable(f) {
          PackedEncodes(level, f, s.items[..n]);
        } else {
          UnpackedEncodes(level, f, s.items[..n]);
          assert EncodeField(fields, i, m) == EncodeUnpacked(f, s.items[..n]);
          if !level.Encodable? && |EncodeField(fields, i, m).value| < TWO_32 {
            forall k | 0 <= k < n ensures DecodableValue(f, Item(s, k)) { assert Item(s, k) == s.items[..n][k]; }
          }
        }
      }
    }
  }

  lemma {:induction false} SoundEncodesFrom(level: Level, fields: seq<Field>, i: nat, m: Msg)
    requires !level.Shape? && WellFormed(fields) && SoundIn(level, fields, m) && i <= |fields|
    ensures EncodeFrom(fields, i, m).Some?
    ensures !level.Encodable? && |EncodeFrom(fields, i, m).value| < TWO_32 ==>
              forall j :: i <= j < |fields| ==> DecodableField(fields, j, m)
    decreases fields, 1, |fields| - i
  {
    if i < |fields| {
      FieldEncodes(level, fields, i, m);
      SoundEncodesFrom(level, fields, i + 1, m);
    }
  }

  /** A sound struct can be encoded, and if its strings are terminated and that takes less than 2^32 bytes it can
      be read back. */
  lemma {:induction false} SoundEncodes(level: Level, fields: seq<Field>, m: Msg)
    requires !level.Shape? && WellFormed(fields) && SoundIn(level, fields, m)
    ensures EncodeMessage(fields, m).Some?
    ensures !level.Encodable? && |EncodeMessage(fields, m).value| < TWO_32 ==> Decodable(fields, m)
    decreases fields, 2
  {
    SoundEncodesFrom(level, fields, 0, m);
  }

  lemma {:induction false} EncodesValueSound(f: Field, v: Value)
    requires WellFormedField(f) && ShapedValue(f, v) && EncodeValue(f, v).Some?
    ensures SoundValue(Encodable, f, v)
    decreases f, 0
  {
    if f.ltype == LSubmessage { EncodesSound(f.ptr.fields, v.m); }
  }

  lemma {:induction false} EncodesAt(fields: seq<Field>, i: nat, j: nat, m: Msg)
    requires i <= j < |fields| && EncodeFrom(fields, i, m).Some?
    ensures EncodeField(fields, j, m).Some?
    decreases j - i
  {
    if i < j { EncodesAt(fields, i + 1, j, m); }
  }

  lemma {:induction false} UnpackedAt(f: Field, items: seq<Value>, k: nat)
    requires k < |items| && EncodeUnpacked(f, items).Some?
    ensures EncodeValue(f, items[k]).Some?
    decreases k
  {
    if k > 0 {
      assert items[k] == items[1..][k - 1];
      UnpackedAt(f, items[1..], k - 1);
    }
  }

  lemma {:induction false} EncodesFieldSound(fields: seq<Field>, i: nat, m: Msg)
    requires WellFormed(fields) && Shaped(fields, m) && i < |fields| && EncodeField(fields, i, m).Some?
    ensures SoundSlot(Encodable, Selected(fields, i, m), fields[i], m.slots[i])
    decreases fields, 0
  {
    var f, s, chosen := fields[i], m.slots[i], Selected(fields, i, m);
    assert ShapedSlot(f, s) && WellFormedField(f);
    forall k | 0 <= k < |s.items| && Counts(Encodable, f, chosen, s, k) ensures SoundValue(Encodable, f, s.items[k]) {
      assert ShapedValue(f, s.items[k]);
      if !Packable(f) {
        if f.htype == Repeated {
          UnpackedAt(f, s.items[..Count(f, s)], k);
          assert s.items[k] == s.items[..Count(f, s)][k];
        }
        EncodesValueSound(f, s.items[k]);
      }
    }
  }

  /** Conversely, what can be encoded is sound in this sense. */
  lemma {:induction false} EncodesSound(fields: seq<Field>, m: Msg)
    requires WellFormed(fields) && Shaped(fields, m) && EncodeMessage(fields, m).Some?
    ensures SoundIn(Encodable, fields, m)
    decreases fields, 1
  {
    forall i | 0 <= i < |fields| ensures SoundSlot(Encodable, Selected(fields, i, m), fields[i], m.slots[i]) {
      EncodesAt(fields, 0, i, m);
      EncodesFieldSound(fields, i, m);
    }
  }

  /**
   * Whatever bytes the decoder accepts into clean memory, encoding the result and decoding again, into whatever
   * memory, gives an equal message: the re-encoding is a normal form of the input.
   */
  lemma Renormalizes(fields: seq<Field>, dest: Msg, dest': Msg, s: seq<Byte>)
    requires WellFormed(fields) && Shaped(fields, dest) && Shaped(fields, dest') && Decode(fields, dest, s).Ok?
    requires CleanIn(Data, fields, dest)
    ensures var m := Decode(fields, dest, s).value;
            && Tidy(fields, m) && (Sound(fields, dest) ==> Sound(fields, m))
            && EncodeMessage(fields, m).Some?
            && (|EncodeMessage(fields, m).value| < TWO_32 ==>
                  var r := Decode(fields, dest', EncodeMessage(fields, m).value);
                  r.Ok? && r.rest == [] && Same(fields, m, r.value))
  {
    hide SoundIn, Shaped, ReadyIn, CleanIn;
    DecodeTidy(Data, fields, dest, s);
    if Sound(fields, dest) {
      SoundIsReady(fields, dest);
      ReadyIsSound(Whole, fields, dest);
      DecodeTidy(Whole, fields, dest, s);
    }
    var m := Decode(fields, dest, s).value;
    SoundEncodes(Data, fields, m);
    var e := EncodeMessage(fields, m).value;
    if |e| < TWO_32 {
      RoundTrip.DecodeOfEncode(fields, m, dest', []);
      assert e + [] == e;
    }
  }
}
