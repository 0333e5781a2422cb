/** When two structs hold the same message, what the decoder can read back, and freshly
    initialized structs. */
module Equality {
  import opened Bits
  import opened Descriptor
  import opened EncodeSpec
  import opened DecodeSpec
  import Clearing

  // ---- Equal messages ----

  predicate Selected(fields: seq<Field>, i: nat, m: Msg)
    requires i < |fields|
  {
    Which(m, SizePos(fields, i)) == fields[i].tag
  }

  predicate SameValue(f: Field, a: Value, b: Value)
    decreases f, 2
  {
    if f.ltype == LString then a.Chars? && b.Chars? && CString(a.mem) == CString(b.mem)
    else if f.ltype == LSubmessage then f.ptr.SubFields? && Same(f.ptr.fields, SubOf(a), SubOf(b))
    else a == b
  }

  /** Field i agrees. The payload of an absent optional or an unselected oneof member does not
      matter, and neither do array entries beyond the count or bytes behind a string's NUL. */
  predicate SameField(fields: seq<Field>, i: nat, a: Msg, b: Msg)
    requires i < |fields|
    decreases fields, 0
  {
    var f, s, t := fields[i], SlotOf(a, i), SlotOf(b, i);
    match f.htype
    case Required => SameValue(f, Item(s, 0), Item(t, 0))
    case Optional =>
      if f.sizeOffset == 0 then SameValue(f, Item(s, 0), Item(t, 0))
      else s.has == t.has && (s.has ==> SameValue(f, Item(s, 0), Item(t, 0)))
    case Repeated =>
      Count(f, s) == Count(f, t) && forall k :: 0 <= k < Count(f, s) ==> SameValue(f, Item(s, k), Item(t, k))
    case Oneof =>
      Selected(fields, i, a) == Selected(fields, i, b)
      && (Selected(fields, i, a) ==> SameValue(f, Item(s, 0), Item(t, 0)))
  }

  predicate Same(fields: seq<Field>, a: Msg, b: Msg)
    decreases fields, 1
  {
    forall i :: 0 <= i < |fields| ==> SameField(fields, i, a, b)
  }

  // ---- Messages the decoder can read back ----

  /** Strings are terminated within their array, and every nested message takes less than 2^32 bytes. */
  predicate DecodableValue(f: Field, v: Value)
    decreases f, 2
  {
    if f.ltype == LString then v.Chars? && |CString(v.mem)| < |v.mem|
    else if f.ltype == LSubmessage then
      f.ptr.SubFields? && v.Sub? && Decodable(f.ptr.fields, v.m)
      && (EncodeMessage(f.ptr.fields, v.m).Some? ==> |EncodeMessage(f.ptr.fields, v.m).value| < TWO_32)
    else true
  }

  predicate DecodableField(fields: seq<Field>, i: nat, m: Msg)
    requires i < |fields|
    decreases fields, 0
  {
    var f, s := fields[i], SlotOf(m, i);
    Present(fields, i, m) ==>
      if f.htype != Repeated then DecodableValue(f, Item(s, 0))
      else if !Packable(f) then forall k :: 0 <= k < Count(f, s) ==> DecodableValue(f, Item(s, k))
      else PackedFits(f, s)
  }

  /** A packed array takes less than 2^32 bytes. */
  predicate PackedFits(f: Field, s: Slot)
  {
    Count(f, s) <= |s.items| && EncodePacked(f, s.items[..Count(f, s)]).Some?
    ==> |EncodePacked(f, s.items[..Count(f, s)]).value| < TWO_32
  }

  predicate Decodable(fields: seq<Field>, m: Msg)
    decreases fields, 1
  {
    forall i :: 0 <= i < |fields| ==> DecodableField(fields, i, m)
  }

  // ---- Freshly initialized structs ----

  predicate FreshValue(f: Field, v: Value)
    decreases f, 2
  {
    f.ltype == LSubmessage ==> v.Sub? && f.ptr.SubFields? && Fresh(f.ptr.fields, v.m)
  }

  /** An entry that is not a struct holds zero; an inline array never counts as zero for proto3. */
  predicate ZeroScalar(f: Field, v: Value)
  {
    f.ltype != LSubmessage && f.ltype != LInline ==> IsZero(f, v)
  }

  predicate FreshSlot(f: Field, s: Slot)
    decreases f, 3
  {
    && ShapedSlot(f, s)
    && match f.htype
       case Repeated => s.count == 0
       case Oneof => true
       case Required => FreshValue(f, s.items[0])
       case Optional =>
         FreshValue(f, s.items[0])
         && (if f.sizeOffset != 0 then !s.has else ZeroScalar(f, s.items[0]))
  }

  /** What pb_message_set_to_defaults leaves behind. */
  predicate Fresh(fields: seq<Field>, m: Msg)
    decreases fields, 4
  {
    |m.slots| == |fields| && m.which == map[] && forall i :: 0 <= i < |fields| ==> FreshSlot(fields[i], m.slots[i])
  }

  lemma {:induction false} ZeroValueShaped(f: Field)
    requires WellFormedField(f)
    ensures ShapedValue(f, ZeroValue(f)) && ZeroScalar(f, ZeroValue(f))
    decreases f, 0
  {
    if f.ltype == LSubmessage {
      var fs := f.ptr.fields;
      var slots := ZeroSlots(fs);
      forall i | 0 <= i < |fs| ensures ShapedSlot(fs[i], slots[i]) {
        assert slots[i] == ZeroSlot(fs[i]);
        ZeroValueShaped(fs[i]);
      }
    }
  }

  lemma {:induction false} DefaultValueFresh(f: Field, v: Value)
    requires WellFormedField(f) && ShapedValue(f, v)
    ensures ShapedValue(f, DefaultValue(f, v)) && FreshValue(f, DefaultValue(f, v))
    ensures Singular(f) ==> ZeroScalar(f, DefaultValue(f, v))
    decreases f, 1
  {
    if f.ltype == LSubmessage {
      DefaultsFresh(f.ptr.fields, v.m);
      FreshShaped(f.ptr.fields, Defaults(f.ptr.fields, v.m));
    } else {
      ZeroValueShaped(f);
    }
  }

  /** Setting a struct of the right shape to defaults makes it fresh, nested structs included. */
  lemma {:induction false} DefaultsFresh(fields: seq<Field>, m: Msg)
    requires WellFormed(fields) && Shaped(fields, m)
    ensures Fresh(fields, Defaults(fields, m))
    decreases fields, 2
  {
    var d := Defaults(fields, m);
    forall i | 0 <= i < |fields| ensures FreshSlot(fields[i], d.slots[i]) {
      var f, s := fields[i], m.slots[i];
      assert ShapedSlot(f, s);
      if f.htype == Required || f.htype == Optional {
        assert ShapedValue(f, s.items[0]);
        DefaultValueFresh(f, s.items[0]);
      } else if FixedCount(f) {
        Clearing.ClearItemsShaped(f, s.items, SIZEOF_PB_SIZE);
      }
    }
  }

  lemma FreshShaped(fields: seq<Field>, m: Msg)
    requires Fresh(fields, m)
    ensures Shaped(fields, m)
  {
    forall i | 0 <= i < |fields| ensures ShapedSlot(fields[i], m.slots[i]) {
      assert FreshSlot(fields[i], m.slots[i]);
    }
  }

  /** What proto3 leaves out of the encoding is what a fresh struct already holds. */
  lemma {:induction false} ZeroIsFresh(f: Field, v: Value, d: Value)
    requires WellFormedField(f) && Singular(f)
    requires ShapedValue(f, v) && IsZero(f, v)
    requires ShapedValue(f, d) && FreshValue(f, d) && ZeroScalar(f, d)
    ensures SameValue(f, v, d)
    decreases f, 0
  {
    if f.ltype == LSubmessage {
      var fs := f.ptr.fields;
      forall i | 0 <= i < |fs| ensures SameField(fs, i, v.m, d.m) {
        DefaultAt(fs, 0, i, v.m);
        DefaultFieldIsFresh(fs, i, v.m, d.m);
      }
    }
  }

  lemma {:induction false} DefaultAt(fields: seq<Field>, k: nat, i: nat, m: Msg)
    requires k <= i < |fields| && AllDefaultFrom(fields, k, m)
    ensures IsDefault(fields, i, m)
    decreases i - k
  {
    if k < i {
      DefaultAt(fields, k + 1, i, m);
    }
  }

  lemma {:induction false} DefaultFieldIsFresh(fields: seq<Field>, i: nat, m: Msg, d: Msg)
    requires i < |fields| && WellFormedField(fields[i]) && !FixedCount(fields[i])
    requires Shaped(fields, m) && Fresh(fields, d) && IsDefault(fields, i, m)
    ensures SameField(fields, i, m, d)
    decreases fields, 0
  {
    var f := fields[i];
    assert ShapedSlot(f, m.slots[i]) && FreshSlot(f, d.slots[i]);
    if Singular(f) {
      assert ShapedValue(f, m.slots[i].items[0]) && ShapedValue(f, d.slots[i].items[0]);
      ZeroIsFresh(f, m.slots[i].items[0], d.slots[i].items[0]);
    }
  }

  /** A field the encoder skips already agrees with a fresh struct. */
  lemma AbsentIsFresh(fields: seq<Field>, i: nat, m: Msg, d: Msg)
    requires i < |fields| && WellFormedField(fields[i])
    requires Shaped(fields, m) && Fresh(fields, d) && !Present(fields, i, m)
    ensures SameField(fields, i, m, d)
  {
    var f := fields[i];
    assert ShapedSlot(f, m.slots[i]) && FreshSlot(f, d.slots[i]);
    if Singular(f) {
      assert ShapedValue(f, m.slots[i].items[0]) && ShapedValue(f, d.slots[i].items[0]);
      ZeroIsFresh(f, m.slots[i].items[0], d.slots[i].items[0]);
    }
  }
}
