/** The nanopb encoder over output streams (pb_encode.c). */
module Encoder {
  import opened Bits
  import opened Descriptor
  import opened Varint
  import opened EncodeSpec
  import opened OutputStream
  import opened FieldIter

  /** An encoder succeeds exactly when the message can be encoded and the stream has room for it. */
  ghost predicate Fits(e: Option<seq<Byte>>, writing: bool, written: nat, maxSize: nat)
  {
    e.Some? && (writing ==> written + |e.value| <= maxSize)
  }

  lemma JoinUnit(x: Option<seq<Byte>>)
    ensures Join(Some([]), x) == x
  {
    if x.Some? { assert [] + x.value == x.value; }
  }

  lemma JoinStep(done: seq<Byte>, x: Option<seq<Byte>>, y: Option<seq<Byte>>)
    ensures Join(Some(done), Join(x, y)) == if x.Some? then Join(Some(done + x.value), y) else None
  {
    if x.Some? && y.Some? { assert done + (x.value + y.value) == done + x.value + y.value; }
  }

  /** pb_enc_varint, pb_enc_uvarint, pb_enc_svarint. */
  method EncInteger(stream: OStream, f: Field, v: Value) returns (ok: bool)
    requires stream.Valid() && Packable(f) && ShapedValue(f, v)
    modifies stream, stream.buf
    ensures stream.Valid()
    ensures ok <==> Fits(EncodeValue(f, v), stream.writing, old(stream.bytesWritten), stream.maxSize)
    ensures ok ==> stream.Wrote(old(stream.bytesWritten), old(stream.Contents()), EncodeValue(f, v).value)
  {
    hide EncodeVarint, LittleEndian, ZigZag;
    assert ToBits64(v.i) < TWO_64 && (f.ltype == LFixed32 ==> v.i % TWO_32 == v.i)
                                                              && (f.ltype == LFixed64 ==> v.i % TWO_64 == v.i);
    hide ToBits64;
    if f.ltype == LFixed32 {
      ok := WriteFixed32(stream, v.i);
    } else if f.ltype == LFixed64 {
      ok := WriteFixed64(stream, v.i);
    } else if !IntegerSize(f.dataSize) {
      ok := false;
    } else if f.ltype == LSvarint {
      ok := WriteSvarint(stream, v.i);
    } else {
      ok := WriteVarint(stream, ToBits64(v.i));
    }
  }

  /** The length of a character array's string, by the loop of pb_enc_string. */
  method StringLength(mem: seq<Byte>, maxSize: nat) returns (size: nat)
    requires |mem| == maxSize
    ensures size == |CString(mem)|
  {
    size := 0;
    while size < maxSize && mem[size] != 0
      invariant 0 <= size <= maxSize
      invariant |CString(mem)| == size + |CString(mem[size..])|
    {
      assert mem[size..][1..] == mem[size + 1..];
      size := size + 1;
    }
  }

  /** pb_enc_bytes, pb_enc_string, pb_enc_fixed_length_bytes. */
  method EncBlob(stream: OStream, f: Field, v: Value) returns (ok: bool)
    requires stream.Valid() && f.ltype in {LBytes, LString, LInline} && ShapedValue(f, v)
    modifies stream, stream.buf
    ensures stream.Valid()
    ensures ok <==> Fits(EncodeValue(f, v), stream.writing, old(stream.bytesWritten), stream.maxSize)
    ensures ok ==> stream.Wrote(old(stream.bytesWritten), old(stream.Contents()), EncodeValue(f, v).value)
  {
    if f.ltype == LBytes {
      if |v.b| + SIZEOF_PB_SIZE > f.dataSize {
        return false;
      }
      ok := WriteString(stream, v.b);
    } else if f.ltype == LString {
      var size := StringLength(v.mem, f.dataSize);
      ok := WriteString(stream, v.mem[..size]);
    } else {
      ok := WriteString(stream, v.raw);
    }
  }

  /** The PB_ENCODERS table. */
  method EncValue(stream: OStream, f: Field, v: Value) returns (ok: bool)
    requires stream.Valid() && ShapedValue(f, v) && TagOk(f)
    modifies stream, stream.buf
    ensures stream.Valid()
    ensures ok <==> Fits(EncodeValue(f, v), stream.writing, old(stream.bytesWritten), stream.maxSize)
    ensures ok ==> stream.Wrote(old(stream.bytesWritten), old(stream.Contents()), EncodeValue(f, v).value)
    decreases f, 2
  {
    if Packable(f) {
      ok := EncInteger(stream, f, v);
    } else if f.ltype in {LBytes, LString, LInline} {
      ok := EncBlob(stream, f, v);
    } else if f.ltype == LExtension {
      ok := false;
    } else if !f.ptr.SubFields? {
      ok := false;
    } else {
      ok := PbEncodeSubmessage(stream, f.ptr.fields, v.m);
    }
  }

  /** The message through a substream limited to its size. */
  method EncLimited(stream: OStream, fields: seq<Field>, m: Msg, size: nat) returns (ok: bool)
    requires stream.Valid() && stream.writing && stream.Room(size) && Shaped(fields, m) && TagsOk(fields)
    requires EncodeMessage(fields, m).Some? && size == |EncodeMessage(fields, m).value|
    modifies stream, stream.buf
    ensures ok && stream.Wrote(old(stream.bytesWritten), old(stream.Contents()), EncodeMessage(fields, m).value)
    decreases fields, |fields| + 3
  {
    hide EncodeMessage, TagsOk, Shaped;
    var substream := new OStream.Limited(stream, size);
    ok := PbEncode(substream, fields, m);
    stream.bytesWritten := stream.bytesWritten + substream.bytesWritten;
    stream.state := substream.state;
    if substream.bytesWritten != size {
      // "submsg size changed" cannot happen.
      assert false;
    }
  }

  /** pb_encode_submessage: size the message without writing, write the length, then the message. */
  method PbEncodeSubmessage(stream: OStream, fields: seq<Field>, m: Msg) returns (ok: bool)
    requires stream.Valid() && Shaped(fields, m) && TagsOk(fields)
    modifies stream, stream.buf
    ensures stream.Valid()
    ensures ok <==> EncodeMessage(fields, m).Some?
                    && Fits(Some(Delimited(EncodeMessage(fields, m).value)), stream.writing, old(stream.bytesWritten), stream.maxSize)
    ensures ok ==> stream.Wrote(old(stream.bytesWritten), old(stream.Contents()), Delimited(EncodeMessage(fields, m).value))
    decreases fields, |fields| + 4
  {
    hide EncodeVarint, EncodeMessage, TagsOk, Shaped;
    ghost var n0, c0 := stream.bytesWritten, stream.Contents();
    var sizing := new OStream.Sizing();
    ok := PbEncode(sizing, fields, m);
    if !ok {
      return;
    }
    ghost var e := EncodeMessage(fields, m).value;
    var size := sizing.bytesWritten;
    ok := WriteVarint(stream, size % TWO_64);
    if !ok {
      return;
    }
    if !stream.writing {
      ok := stream.Write([], size);
      return;
    }
    if stream.bytesWritten + size > stream.maxSize {
      return false;
    }
    ghost var c1 := stream.Contents();
    ok := EncLimited(stream, fields, m, size);
    stream.Chain(n0, c0, c1, EncodeVarint(|e| % TWO_64), e);
  }

  /** The message up to a field is `done`; the fields from there on follow. */
  ghost predicate Split(fields: seq<Field>, m: Msg, done: seq<Byte>, i: nat)
  {
    i <= |fields| && EncodeMessage(fields, m) == Join(Some(done), EncodeFrom(fields, i, m))
  }

  lemma SplitStep(fields: seq<Field>, m: Msg, done: seq<Byte>, i: nat)
    requires Split(fields, m, done, i) && i < |fields|
    ensures var e := EncodeField(fields, i, m);
            if e.Some? then Split(fields, m, done + e.value, i + 1) else EncodeMessage(fields, m).None?
    ensures EncodeMessage(fields, m).Some? ==>
              (EncodeField(fields, i, m).Some?
               && |done| + |EncodeField(fields, i, m).value| <= |EncodeMessage(fields, m).value|)
  {
    hide EncodeField;
    JoinStep(done, EncodeField(fields, i, m), EncodeFrom(fields, i + 1, m));
  }

  lemma StartSplit(fields: seq<Field>, m: Msg)
    ensures Split(fields, m, [], 0)
  {
    hide EncodeFrom;
    JoinUnit(EncodeMessage(fields, m));
  }

  lemma SplitEnds(fields: seq<Field>, m: Msg, done: seq<Byte>)
    requires Split(fields, m, done, |fields|)
    ensures EncodeMessage(fields, m) == Some(done)
  {
    assert done + [] == done;
  }

  /** A field that cannot be written is the reason why the message cannot. */
  lemma SplitFits(fields: seq<Field>, m: Msg, done: seq<Byte>, i: nat, writing: bool, written: nat, maxSize: nat)
    requires Split(fields, m, done, i) && i < |fields|
    ensures if Fits(EncodeField(fields, i, m), writing, written + |done|, maxSize) then
              Split(fields, m, done + EncodeField(fields, i, m).value, i + 1)
            else !Fits(EncodeMessage(fields, m), writing, written, maxSize)
  {
    hide EncodeField, EncodeMessage, Split;
    SplitStep(fields, m, done, i);
  }

  /** pb_encode. */
  method PbEncode(stream: OStream, fields: seq<Field>, m: Msg) returns (ok: bool)
    requires stream.Valid() && Shaped(fields, m) && TagsOk(fields)
    modifies stream, stream.buf
    ensures stream.Valid()
    ensures ok <==> Fits(EncodeMessage(fields, m), stream.writing, old(stream.bytesWritten), stream.maxSize)
    ensures ok ==> stream.Wrote(old(stream.bytesWritten), old(stream.Contents()), EncodeMessage(fields, m).value)
    decreases fields, |fields| + 2
  {
    forall i | 0 <= i < |fields| ensures fields[i].tag > 0 { assert TagOk(fields[i]); }
    assert UnionsAgree(fields);
    hide EncodeField, EncodeFrom, SizePos, DataPos, RequiredBefore, Shaped, TagsOk, UnionsAgree, SharesUnion;
    StartSplit(fields, m);
    hide Split, EncodeMessage;
    ghost var n0, c0 := stream.bytesWritten, stream.Contents();
    var iter := new Iterator(fields, 0);
    ghost var done: seq<Byte> := [];
    var more := fields != [];
    while more
      invariant iter.Valid() && iter.start == fields && fresh(iter) && (more ==> fields != [])
      invariant stream.Wrote(n0, c0, done)
      invariant Split(fields, m, done, if more then iter.pos else |fields|)
      decreases if more then |fields| - iter.pos else 0
    {
      ghost var i, c1 := iter.pos, stream.Contents();
      SplitFits(fields, m, done, i, stream.writing, n0, stream.maxSize);
      ok := EncField(stream, fields, iter.pos, m);
      if !ok {
        return;
      }
      stream.Chain(n0, c0, c1, done, EncodeField(fields, i, m).value);
      done := done + EncodeField(fields, i, m).value;
      more := iter.Next();
    }
    SplitEnds(fields, m, done);
    ok := true;
  }

  /** encode_field and encode_basic_field for statically allocated fields. */
  method EncField(stream: OStream, fields: seq<Field>, i: nat, m: Msg) returns (ok: bool)
    requires stream.Valid() && Shaped(fields, m) && TagsOk(fields) && i < |fields|
    modifies stream, stream.buf
    ensures stream.Valid()
    ensures ok <==> Fits(EncodeField(fields, i, m), stream.writing, old(stream.bytesWritten), stream.maxSize)
    ensures ok ==> stream.Wrote(old(stream.bytesWritten), old(stream.Contents()), EncodeField(fields, i, m).value)
    decreases fields, |fields| + 1
  {
    var f, slot := fields[i], m.slots[i];
    assert ShapedSlot(f, slot) && TagOk(f);
    if f.atype != Static {
      return false;
    }
    var implicitHas := f.htype != Optional || !IsDefault(fields, i, m);
    match f.htype {
      case Required =>
        ok := EncTagged(stream, f, slot.items[0]);
      case Optional =>
        if if f.sizeOffset != 0 then slot.has else implicitHas {
          ok := EncTagged(stream, f, slot.items[0]);
        } else {
          ok := true;
        }
      case Repeated =>
        ok := EncArray(stream, f, slot, if f.sizeOffset != 0 then slot.count else f.arraySize);
      case Oneof =>
        if Which(m, SizePos(fields, i)) == f.tag {
          ok := EncTagged(stream, f, slot.items[0]);
        } else {
          ok := true;
        }
    }
  }

  /** pb_encode_tag_for_field and one entry. */
  method EncTagged(stream: OStream, f: Field, v: Value) returns (ok: bool)
    requires stream.Valid() && ShapedValue(f, v) && TagOk(f)
    modifies stream, stream.buf
    ensures stream.Valid()
    ensures ok <==> Fits(EncodeTagged(f, v), stream.writing, old(stream.bytesWritten), stream.maxSize)
    ensures ok ==> stream.Wrote(old(stream.bytesWritten), old(stream.Contents()), EncodeTagged(f, v).value)
    decreases f, 3
  {
    if f.ltype == LExtension {
      return false;
    }
    ok := WriteTag(stream, WireType(f), f.tag);
    if ok {
      ghost var c1 := stream.Contents();
      ok := EncValue(stream, f, v);
      if ok { stream.Chain(old(stream.bytesWritten), old(stream.Contents()), c1, Tag(WireType(f), f.tag), EncodeValue(f, v).value); }
    }
  }

  /** encode_array. */
  method EncArray(stream: OStream, f: Field, slot: Slot, count: nat) returns (ok: bool)
    requires stream.Valid() && ShapedSlot(f, slot) && f.htype == Repeated && TagOk(f)
    modifies stream, stream.buf
    ensures stream.Valid()
    ensures ok <==> Fits(EncodeArray(f, slot, count), stream.writing, old(stream.bytesWritten), stream.maxSize)
    ensures ok ==> stream.Wrote(old(stream.bytesWritten), old(stream.Contents()), EncodeArray(f, slot, count).value)
    decreases f, 5
  {
    if count == 0 {
      return true;
    }
    if count > f.arraySize {
      return false;
    }
    if Packable(f) {
      ok := EncPackedArray(stream, f, slot.items[..count]);
    } else {
      ok := EncUnpackedArray(stream, f, slot.items[..count]);
    }
  }

  /** Write the entries one after the other. */
  method EncEntries(stream: OStream, f: Field, items: seq<Value>) returns (ok: bool)
    requires stream.Valid() && Packable(f) && TagOk(f)
    requires forall k :: 0 <= k < |items| ==> ShapedValue(f, items[k])
    modifies stream, stream.buf
    ensures stream.Valid()
    ensures ok <==> Fits(EncodePacked(f, items), stream.writing, old(stream.bytesWritten), stream.maxSize)
    ensures ok ==> stream.Wrote(old(stream.bytesWritten), old(stream.Contents()), EncodePacked(f, items).value)
  {
    ghost var done: seq<Byte> := [];
    var i := 0;
    assert items[0..] == items;
    JoinUnit(EncodePacked(f, items));
    while i < |items|
      invariant 0 <= i <= |items| && stream.Valid()
      invariant stream.Wrote(old(stream.bytesWritten), old(stream.Contents()), done)
      invariant EncodePacked(f, items) == Join(Some(done), EncodePacked(f, items[i..]))
    {
      ghost var c1 := stream.Contents();
      assert items[i..][0] == items[i] && items[i..][1..] == items[i + 1..];
      JoinStep(done, EncodeValue(f, items[i]), EncodePacked(f, items[i + 1..]));
      ok := EncInteger(stream, f, items[i]);
      if !ok {
        return;
      }
      stream.Chain(old(stream.bytesWritten), old(stream.Contents()), c1, done, EncodeValue(f, items[i]).value);
      done := done + EncodeValue(f, items[i]).value;
      i := i + 1;
    }
    ok := true;
  }

  lemma {:induction false} FixedPackedSize(f: Field, items: seq<Value>)
    requires f.ltype == LFixed32 || f.ltype == LFixed64
    requires forall k :: 0 <= k < |items| ==> ShapedValue(f, items[k])
    ensures var p := EncodePacked(f, items);
            p.Some? && |p.value| == (if f.ltype == LFixed32 then 4 else 8) * |items|
  {
    if items != [] {
      assert ShapedValue(f, items[0]);
      FixedPackedSize(f, items[1..]);
    }
  }

  /** The total size of a packed array: known, or found by a sizing pass. */
  method PackedSize(f: Field, items: seq<Value>) returns (size: Option<nat>)
    requires Packable(f) && TagOk(f)
    requires forall k :: 0 <= k < |items| ==> ShapedValue(f, items[k])
    ensures size == if EncodePacked(f, items).Some? then Some(|EncodePacked(f, items).value|) else None
  {
    if f.ltype == LFixed32 {
      FixedPackedSize(f, items);
      return Some(4 * |items|);
    } else if f.ltype == LFixed64 {
      FixedPackedSize(f, items);
      return Some(8 * |items|);
    }
    var sizing := new OStream.Sizing();
    var ok := EncEntries(sizing, f, items);
    size := if ok then Some(sizing.bytesWritten) else None;
  }

  /** A length and then the data it announces, or for a sizing stream their total size. */
  method EncPackedBody(stream: OStream, f: Field, items: seq<Value>) returns (ok: bool)
    requires stream.Valid() && Packable(f) && TagOk(f)
    requires forall k :: 0 <= k < |items| ==> ShapedValue(f, items[k])
    modifies stream, stream.buf
    ensures stream.Valid()
    ensures ok <==> EncodePacked(f, items).Some?
                    && Fits(Some(Delimited(EncodePacked(f, items).value)), stream.writing, old(stream.bytesWritten), stream.maxSize)
    ensures ok ==> stream.Wrote(old(stream.bytesWritten), old(stream.Contents()), Delimited(EncodePacked(f, items).value))
  {
    var size := PackedSize(f, items);
    if size.None? {
      return false;
    }
    ok := WriteVarint(stream, size.value % TWO_64);
    if !ok {
      return;
    }
    ghost var p, c1 := EncodePacked(f, items).value, stream.Contents();
    if !stream.writing {
      ok := stream.Write([], size.value);
      return;
    }
    ok := EncEntries(stream, f, items);
    if ok { stream.Chain(old(stream.bytesWritten), old(stream.Contents()), c1, EncodeVarint(|p| % TWO_64), p); }
  }

  /** The packed branch of encode_array. */
  method EncPackedArray(stream: OStream, f: Field, items: seq<Value>) returns (ok: bool)
    requires stream.Valid() && Packable(f) && TagOk(f)
    requires forall k :: 0 <= k < |items| ==> ShapedValue(f, items[k])
    modifies stream, stream.buf
    ensures stream.Valid()
    ensures ok <==> EncodePacked(f, items).Some?
                    && Fits(Some(Tag(WT_STRING, f.tag) + Delimited(EncodePacked(f, items).value)), stream.writing, old(stream.bytesWritten), stream.maxSize)
    ensures ok ==> stream.Wrote(old(stream.bytesWritten), old(stream.Contents()), Tag(WT_STRING, f.tag) + Delimited(EncodePacked(f, items).value))
  {
    ok := WriteTag(stream, WT_STRING, f.tag);
    if ok {
      ghost var c1 := stream.Contents();
      ok := EncPackedBody(stream, f, items);
      if ok { stream.Chain(old(stream.bytesWritten), old(stream.Contents()), c1, Tag(WT_STRING, f.tag), Delimited(EncodePacked(f, items).value)); }
    }
  }

  /** The other branch of encode_array: a tag before each entry. */
  method EncUnpackedArray(stream: OStream, f: Field, items: seq<Value>) returns (ok: bool)
    requires stream.Valid() && !Packable(f) && TagOk(f)
    requires forall k :: 0 <= k < |items| ==> ShapedValue(f, items[k])
    modifies stream, stream.buf
    ensures stream.Valid()
    ensures ok <==> Fits(EncodeUnpacked(f, items), stream.writing, old(stream.bytesWritten), stream.maxSize)
    ensures ok ==> stream.Wrote(old(stream.bytesWritten), old(stream.Contents()), EncodeUnpacked(f, items).value)
    decreases f, 4
  {
    ghost var done: seq<Byte> := [];
    var i := 0;
    assert items[0..] == items;
    JoinUnit(EncodeUnpacked(f, items));
    while i < |items|
      invariant 0 <= i <= |items| && stream.Valid()
      invariant stream.Wrote(old(stream.bytesWritten), old(stream.Contents()), done)
      invariant EncodeUnpacked(f, items) == Join(Some(done), EncodeUnpacked(f, items[i..]))
    {
      ghost var c1 := stream.Contents();
      assert items[i..][0] == items[i] && items[i..][1..] == items[i + 1..];
      JoinStep(done, EncodeTagged(f, items[i]), EncodeUnpacked(f, items[i + 1..]));
      ok := EncTagged(stream, f, items[i]);
      if !ok {
        return;
      }
      stream.Chain(old(stream.bytesWritten), old(stream.Contents()), c1, done, EncodeTagged(f, items[i]).value);
      done := done + EncodeTagged(f, items[i]).value;
      i := i + 1;
    }
    ok := true;
  }

  /** pb_get_encoded_size is exact. */
  method PbGetEncodedSize(fields: seq<Field>, m: Msg) returns (size: Option<nat>)
    requires Shaped(fields, m) && TagsOk(fields)
    ensures size == if EncodeMessage(fields, m).Some? then Some(|EncodeMessage(fields, m).value|) else None
  {
    var stream := new OStream.Sizing();
    var ok := PbEncode(stream, fields, m);
    size := if ok then Some(stream.bytesWritten) else None;
  }

  /** pb_encode_delimited. */
  method PbEncodeDelimited(stream: OStream, fields: seq<Field>, m: Msg) returns (ok: bool)
    requires stream.Valid() && Shaped(fields, m) && TagsOk(fields)
    modifies stream, stream.buf
    ensures stream.Valid()
    ensures ok <==> EncodeMessage(fields, m).Some?
                    && Fits(Some(Delimited(EncodeMessage(fields, m).value)), stream.writing, old(stream.bytesWritten), stream.maxSize)
    ensures ok ==> stream.Wrote(old(stream.bytesWritten), old(stream.Contents()), Delimited(EncodeMessage(fields, m).value))
  {
    ok := PbEncodeSubmessage(stream, fields, m);
  }

  /** pb_encode_nullterminated. */
  method PbEncodeNullTerminated(stream: OStream, fields: seq<Field>, m: Msg) returns (ok: bool)
    requires stream.Valid() && Shaped(fields, m) && TagsOk(fields)
    modifies stream, stream.buf
    ensures stream.Valid()
    ensures ok <==> EncodeMessage(fields, m).Some?
                    && Fits(Some(EncodeMessage(fields, m).value + [0]), stream.writing, old(stream.bytesWritten), stream.maxSize)
    ensures ok ==> stream.Wrote(old(stream.bytesWritten), old(stream.Contents()), EncodeMessage(fields, m).value + [0])
  {
    ok := PbEncode(stream, fields, m);
    if ok {
      ok := stream.Write([0], 1);
    }
  }

  /** A buffer of the size that pb_get_encoded_size reports always suffices, and is filled completely. */
  method EncodeToExactBuffer(fields: seq<Field>, m: Msg) returns (buf: array<Byte>, ok: bool)
    requires Shaped(fields, m) && TagsOk(fields)
    ensures fresh(buf)
    ensures ok <==> EncodeMessage(fields, m).Some?
    ensures ok ==> buf[..] == EncodeMessage(fields, m).value
  {
    var size := PbGetEncodedSize(fields, m);
    if size.None? {
      buf, ok := new Byte[0], false;
      return;
    }
    buf := new Byte[size.value];
    var stream := new OStream.FromBuffer(buf, size.value);
    ok := PbEncode(stream, fields, m);
    assert buf[..] == stream.Contents();
  }
}
