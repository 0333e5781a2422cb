/**
 * Why Leftovers asks that nested messages fit below 2^32 bytes: a struct smaller than that may be described so that
 * every message for it is longer, and then no garbage in it ever matters.
 */
module Reach {
  import opened Bits
  import opened Descriptor
  import opened Varint
  import opened EncodeSpec
  import opened DecodeSpec
  import opened Equality
  import opened Soundness
  import opened Leftovers

  // ---- The least that required fields take ----

  /** Every value of the field takes at least c bytes. */
  ghost predicate Takes(f: Field, c: nat)
  {
    forall old_: Value, s: seq<Byte> :: DecodeValue(f, old_, s).Ok? ==> |DecodeValue(f, old_, s).rest| + c <= |s|
  }

  /** Every required field does. */
  ghost predicate AllTake(fields: seq<Field>, c: nat)
  {
    forall i :: 0 <= i < |fields| && fields[i].htype == Required ==> Takes(fields[i], c)
  }

  /** One record notes at most one required field, for at least c bytes. */
  lemma RecordCost(fields: seq<Field>, c: nat, key: nat, st: State, s: seq<Byte>)
    requires AllTake(fields, c) && Record(fields, key, st, s).Ok?
    ensures var r := Record(fields, key, st, s);
            r.value.seen == st.seen || (|r.value.seen| <= |st.seen| + 1 && |r.rest| + c <= |s|)
  {
    hide PackedLoop, DecodeValue, Append, SkipField, Substream;
    var i := FindFrom(fields, 0, key / 8);
    if i.Some? {
      var f, old_ := fields[i.value], Item(SlotOf(st.m, i.value), 0);
      assert Record(fields, key, st, s) == DecodeField(fields, i.value, key % 8, st, s);
      if f.htype == Required { assert Takes(f, c); }
      PackedKeepsSeen(fields, i.value, key % 8, Enter(fields, i.value, st).value, s);
    }
  }

  lemma PackedKeepsSeen(fields: seq<Field>, i: nat, wireType: nat, st: State, s: seq<Byte>)
    requires i < |fields| && StaticField(fields, i, wireType, st, s).Ok?
    ensures StaticField(fields, i, wireType, st, s).value.seen == st.seen
  {
    hide DecodeValue, PackedLoop;
    var sub := Substream(s);
    if sub.Ok? && PackedLoop(fields[i], i, st, sub.value).Some? { PackedSeen(fields[i], i, st, sub.value); }
  }

  lemma {:induction false} PackedSeen(f: Field, i: nat, st: State, s: seq<Byte>)
    requires PackedLoop(f, i, st, s).Some?
    ensures PackedLoop(f, i, st, s).value.seen == st.seen
    decreases |s|
  {
    hide DecodeValue;
    if s != [] {
      var v := DecodeValue(f, Item(SlotOf(st.m, i), NextIndex(f, i, st)), s);
      PackedSeen(f, i, Append(f, i, st, v.value), v.rest);
    }
  }

  /** A whole message: c bytes and a key for each required field that was noted. */
  lemma {:induction false} LoopCost(fields: seq<Field>, c: nat, st: State, s: seq<Byte>)
    requires AllTake(fields, c) && Loop(fields, st, s).Ok?
    ensures |Loop(fields, st, s).value.seen| * (c + 1) <= |st.seen| * (c + 1) + |s|
    decreases |s|
  {
    hide Record, Decode32, AllTake;
    if s != [] && Decode32(s).value != 0 {
      var key, rest := Decode32(s).value, Decode32(s).rest;
      var next := Record(fields, key, st, rest);
      RecordCost(fields, c, key, st, rest);
      LoopCost(fields, c, next.value, next.rest);
      if next.value.seen != st.seen { OneMore(|next.value.seen|, |st.seen|, c); }
    }
  }

  lemma OneMore(m: nat, n: nat, c: nat)
    requires m <= n + 1
    ensures m * (c + 1) <= n * (c + 1) + c + 1
  {
    NoFewer(m, n + 1, c + 1);
    assert (n + 1) * (c + 1) == n * (c + 1) + (c + 1);
  }

  lemma NoFewer(n: nat, m: nat, d: nat)
    requires n <= m
    ensures n * d <= m * d
  {}

  lemma {:induction false} AtLeast(n: nat, s: set<nat>)
    requires forall k :: 0 <= k < n ==> k in s
    ensures |s| >= n
  {
    if n > 0 { AtLeast(n - 1, s - {n - 1}); }
  }

  lemma ContentCost(fields: seq<Field>, c: nat, m: Msg, s: seq<Byte>)
    requires AllTake(fields, c) && RequiredBefore(fields, |fields|) <= PB_MAX_REQUIRED_FIELDS
    requires DecodeNoInit(fields, m, s).Ok?
    ensures RequiredBefore(fields, |fields|) * (c + 1) <= |s|
  {
    hide Loop, AllTake, RequiredBefore;
    var st := State(m, {}, None, 0);
    LoopCost(fields, c, st, s);
    var n, seen := RequiredBefore(fields, |fields|), Loop(fields, st, s).value.seen;
    AtLeast(n, seen);
    NoFewer(n, |seen|, c + 1);
  }

  /** Every message for these fields takes at least d bytes. */
  ghost predicate Costs(fields: seq<Field>, d: nat)
  {
    forall m: Msg, s: seq<Byte> :: DecodeNoInit(fields, m, s).Ok? ==> d <= |s|
  }

  lemma {:induction false} Decode32Bound(s: seq<Byte>, bitpos: nat, result: nat)
    requires result < TWO_32 && Decode32From(s, bitpos, result).Ok?
    ensures Decode32From(s, bitpos, result).value < TWO_32
  {
    hide ShiftLeft, BitOr, Overflows32;
    Pow2Words();
    BitOfOrBound(result, ShiftLeft(s[0] % 0x80, bitpos) % TWO_32, 32);
    if s[0] >= 0x80 { Decode32Bound(s[1..], NextBitpos(bitpos), Or32(s[0], bitpos, result)); }
  }

  lemma SubstreamBound(s: seq<Byte>)
    requires Substream(s).Ok?
    ensures |Substream(s).value| < TWO_32
  {
    if s[0] >= 0x80 { Decode32Bound(s[1..], 7, s[0] % 0x80); }
  }

  /** A nested message whose content never fits below 2^32 bytes is never read. */
  lemma NestedTakes(f: Field, d: nat, c: nat)
    requires f.ltype == LSubmessage && f.htype == Required && f.ptr.SubFields? && Costs(f.ptr.fields, d)
    requires c <= d || d >= TWO_32
    ensures Takes(f, c)
  {
    hide DecodeNoInit, Substream;
    forall old_: Value, s: seq<Byte> | DecodeValue(f, old_, s).Ok?
      ensures |DecodeValue(f, old_, s).rest| + c <= |s|
    {
      SubstreamBound(s);
      assert DecodeNoInit(f.ptr.fields, SubOf(old_), Substream(s).value).Ok?;
    }
  }

  // ---- A small struct with long messages ----

  /** A required field, first in its struct or right behind the one before. */
  function Plain(tag: nat): Field { Field(tag, LVarint, Required, Static, 0, 0, 1, 0, Null) }

  function Nested(tag: nat, fields: seq<Field>, size: nat): Field
  {
    Field(tag, LSubmessage, Required, Static, 0, 0, size, 0, SubFields(fields))
  }

  /** 64 required bytes, and 64 such structs, and so on. */
  function Tower(k: nat): seq<Field>
  {
    seq(64, i requires 0 <= i < 64 => Floor(k, i + 1))
  }

  function Floor(k: nat, tag: nat): Field { if k == 0 then Plain(tag) else Nested(tag, Tower(k - 1), Size(k - 1)) }

  function Size(k: nat): nat { if k == 0 then 64 else 64 * Size(k - 1) }

  lemma {:induction false} AllRequired(fields: seq<Field>, n: nat)
    requires n <= |fields| && forall i :: 0 <= i < n ==> fields[i].htype == Required
    ensures RequiredBefore(fields, n) == n
  {
    if n > 0 { AllRequired(fields, n - 1); }
  }

  lemma {:induction false} TowerCost(k: nat)
    ensures Costs(Tower(k), 2 * Size(k))
  {
    var fields := Tower(k);
    var c := if k == 0 then 1 else 2 * Size(k - 1);
    forall i | 0 <= i < 64 ensures Takes(fields[i], c) && fields[i].htype == Required {
      assert fields[i] == Floor(k, i + 1);
      if k == 0 {
        PlainTakes(i + 1);
      } else {
        TowerCost(k - 1);
        NestedTakes(fields[i], c, c);
      }
    }
    AllRequired(fields, 64);
    forall m: Msg, s: seq<Byte> | DecodeNoInit(fields, m, s).Ok? ensures 2 * Size(k) <= |s| {
      ContentCost(fields, c, m, s);
    }
  }

  lemma PlainTakes(tag: nat)
    ensures Takes(Plain(tag), 1)
  {}

  lemma {:induction false} TowerWellFormed(k: nat)
    requires Size(k) <= PB_SIZE_MAX
    ensures WellFormed(Tower(k))
  {
    var fields := Tower(k);
    if k > 0 { TowerWellFormed(k - 1); }
    forall i | 0 <= i < 64 ensures WellFormedField(fields[i]) && fields[i].htype == Required && fields[i].tag == i + 1 {
      assert fields[i] == Floor(k, i + 1);
    }
  }

  /** Three towers of 2^30 bytes each. */
  function Wide(): seq<Field>
  {
    [Nested(1, Tower(4), Size(4)), Nested(2, Tower(4), Size(4)), Nested(3, Tower(4), Size(4))]
  }

  lemma WideNeverRead(c: nat)
    ensures Size(4) == 0x4000_0000 && WellFormed(Wide()) && Takes(Nested(1, Wide(), 3 * Size(4)), c)
  {
    assert Size(1) == 64 * 64 && Size(2) == 64 * Size(1) && Size(3) == 64 * Size(2);
    TowerWellFormed(4);
    TowerCost(4);
    var fields, d := Wide(), 2 * Size(4);
    forall i | 0 <= i < 3 ensures Takes(fields[i], d) { NestedTakes(fields[i], d, d); }
    AllRequired(fields, 3);
    forall m: Msg, s: seq<Byte> | DecodeNoInit(fields, m, s).Ok? ensures TWO_32 <= |s| { ContentCost(fields, d, m, s); }
    NestedTakes(Nested(1, fields, 3 * Size(4)), TWO_32, c);
  }

  /** The required submessage is never read, so no input is accepted, whatever the array behind it holds. */
  lemma OutOfReach() returns (fields: seq<Field>, dest: Msg)
    ensures WellFormed(fields) && Shaped(fields, dest) && !CleanIn(Encodable, fields, dest)
    ensures !Compact(fields) && forall s: seq<Byte> :: Decode(fields, dest, s).Fail?
  {
    hide Compact, Decode, DecodeNoInit, Tower, Size, Takes, CleanSlot, ShapedSlot, ShapedValue;
    WideNeverRead(0);
    GarbageNotClean();
    var sub := Nested(1, Wide(), 3 * Size(4));
    fields := [sub, GARBAGE];
    dest := Msg([Slot(false, 0, [ZeroValue(sub)]), Garbage()], map[]);
    assert WellFormedField(sub);
    ZeroShaped(sub);
    assert fields[1] == GARBAGE && dest.slots[1] == Garbage();
    NeverAccepted(fields, dest);
    if Compact(fields) { EncodesExactly(fields, dest); }
  }

  lemma ZeroShaped(f: Field)
    requires WellFormedField(f) && f.htype == Required
    ensures ShapedSlot(f, Slot(false, 0, [ZeroValue(f)]))
  {
    ZeroValueShaped(f);
  }

  lemma NeverAccepted(fields: seq<Field>, dest: Msg)
    requires fields == [Nested(1, Wide(), 3 * Size(4)), GARBAGE]
    ensures forall s: seq<Byte> :: Decode(fields, dest, s).Fail?
  {
    hide DecodeNoInit, Tower, Size, Takes, Defaults;
    assert RequiredBefore(fields, 2) == 1;
    forall s: seq<Byte> ensures Decode(fields, dest, s).Fail? {
      if Decode(fields, dest, s).Ok? {
        WideNeverRead(|s|);
        ContentCost(fields, |s|, Defaults(fields, dest), s);
        assert false;
      }
    }
  }
}
