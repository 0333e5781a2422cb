/** pb_istream_t and the primitive decoders (pb_decode.c). */
module InputStream {
  import opened Bits
  import opened Descriptor
  import opened Varint
  import opened EncodeSpec
  import opened DecodeSpec

  class IStream {
    /** The memory the state pointer walks over. */
    const buf: seq<Byte>
    var state: nat
    var bytesLeft: nat

    ghost predicate Valid()
      reads this
    {
      state + bytesLeft <= |buf|
    }

    /** The bytes the stream may still read. */
    ghost function Rest(): seq<Byte>
      reads this
      requires Valid()
    {
      buf[state..state + bytesLeft]
    }

    /** The stream has consumed exactly what precedes `rest`, and its limit has not moved. */
    ghost predicate At(rest: seq<Byte>, end: nat)
      reads this
    {
      Valid() && Rest() == rest && state + bytesLeft == end
    }

    /** pb_istream_from_buffer. */
    constructor FromBuffer(buf: seq<Byte>)
      ensures Valid() && this.buf == buf && state == 0 && bytesLeft == |buf| && Rest() == buf
    {
      this.buf, state, bytesLeft := buf, 0, |buf|;
    }

    /** A copy of a stream, limited to its first size bytes. */
    constructor Limited(parent: IStream, size: nat)
      requires parent.Valid() && size <= parent.bytesLeft
      ensures Valid() && buf == parent.buf && state == parent.state && bytesLeft == size && Rest() == parent.Rest()[..size]
    {
      buf, state, bytesLeft := parent.buf, parent.state, size;
    }

    /** pb_read. */
    method Read(count: nat) returns (ok: bool, data: seq<Byte>)
      requires Valid()
      modifies this
      ensures Valid() && (ok <==> old(bytesLeft) >= count)
      ensures ok ==> data == old(Rest())[..count] && At(old(Rest())[count..], old(state + bytesLeft))
      ensures !ok ==> state == old(state) && bytesLeft == old(bytesLeft)
    {
      if bytesLeft < count {
        return false, [];
      }
      data := buf[state..state + count];
      state := state + count;
      bytesLeft := bytesLeft - count;
      ok := true;
    }

    /** pb_readbyte. */
    method ReadByte() returns (ok: bool, b: Byte)
      requires Valid()
      modifies this
      ensures Valid() && (ok <==> old(bytesLeft) > 0)
      ensures ok ==> b == old(Rest())[0] && At(old(Rest())[1..], old(state + bytesLeft))
      ensures !ok ==> state == old(state) && bytesLeft == old(bytesLeft)
    {
      if bytesLeft == 0 {
        return false, 0;
      }
      b := buf[state];
      state := state + 1;
      bytesLeft := bytesLeft - 1;
      ok := true;
    }
  }

  /** pb_decode_varint. */
  method ReadVarint(stream: IStream) returns (ok: bool, value: nat)
    requires stream.Valid()
    modifies stream
    ensures stream.Valid()
    ensures ok <==> Decode64(old(stream.Rest())).Ok?
    ensures ok ==> value == Decode64(old(stream.Rest())).value
                   && stream.At(Decode64(old(stream.Rest())).rest, old(stream.state + stream.bytesLeft))
  {
    hide Or64;
    var bitpos: nat := 0;
    value := 0;
    var more := true;
    while more
      invariant stream.Valid() && stream.state + stream.bytesLeft == old(stream.state + stream.bytesLeft)
      invariant Decode64(old(stream.Rest()))
             == if more then Decode64From(stream.Rest(), bitpos, value) else Ok(value, stream.Rest())
      decreases stream.bytesLeft, more
    {
      if bitpos >= 64 {
        return false, 0;
      }
      var b;
      ok, b := stream.ReadByte();
      if !ok {
        return;
      }
      value := Or64(b, bitpos, value);
      bitpos := bitpos + 7;
      more := b >= 0x80;
    }
    ok := true;
  }

  /** pb_decode_varint32_eof; eof reports that there was nothing to read. */
  method ReadVarint32(stream: IStream) returns (ok: bool, value: nat, eof: bool)
    requires stream.Valid()
    modifies stream
    ensures stream.Valid()
    ensures ok <==> Decode32(old(stream.Rest())).Ok?
    ensures ok ==> value == Decode32(old(stream.Rest())).value
                   && stream.At(Decode32(old(stream.Rest())).rest, old(stream.state + stream.bytesLeft))
    ensures eof <==> old(stream.bytesLeft) == 0
  {
    hide BitOr, ShiftLeft;
    var b;
    ok, b := stream.ReadByte();
    if !ok {
      return false, 0, true;
    }
    eof := false;
    if b < 0x80 {
      return true, b, false;
    }
    var bitpos := 7;
    value := b % 0x80;
    var more := true;
    while more
      invariant stream.Valid() && stream.state + stream.bytesLeft == old(stream.state + stream.bytesLeft)
      invariant !more ==> b < 0x80
      invariant Decode32(old(stream.Rest()))
             == if more then Decode32From(stream.Rest(), bitpos, value)
                else if bitpos == 35 && b / 0x10 != 0 then Fail else Ok(value, stream.Rest())
      decreases stream.bytesLeft, more
    {
      ok, b := stream.ReadByte();
      if !ok {
        return;
      }
      if bitpos >= 32 {
        var signExtension := if bitpos < 63 then 0xFF else 0x01;
        if b % 0x80 != 0 && (value / TWO_31 == 0 || b != signExtension) {
          return false, 0, false;
        }
      } else {
        value := BitOr(value, ShiftLeft(b % 0x80, bitpos) % TWO_32);
      }
      bitpos := NextBitpos(bitpos);
      more := b >= 0x80;
    }
    if bitpos == 35 && b / 0x10 != 0 {
      return false, 0, false;
    }
    ok := true;
  }

  /** pb_skip_varint. */
  method ReadSkipVarint(stream: IStream) returns (ok: bool)
    requires stream.Valid()
    modifies stream
    ensures stream.Valid()
    ensures ok <==> SkipVarint(old(stream.Rest())).Ok?
    ensures ok ==> stream.At(SkipVarint(old(stream.Rest())).rest, old(stream.state + stream.bytesLeft))
  {
    var more := true;
    while more
      invariant stream.Valid() && stream.state + stream.bytesLeft == old(stream.state + stream.bytesLeft)
      invariant SkipVarint(old(stream.Rest())) == if more then SkipVarint(stream.Rest()) else Ok((), stream.Rest())
      decreases stream.bytesLeft, more
    {
      var b;
      ok, b := stream.ReadByte();
      if !ok {
        return;
      }
      more := b >= 0x80;
    }
    ok := true;
  }

  /** pb_skip_field. */
  method ReadSkipField(stream: IStream, wireType: nat) returns (ok: bool)
    requires stream.Valid()
    modifies stream
    ensures stream.Valid()
    ensures ok <==> SkipField(wireType, old(stream.Rest())).Ok?
    ensures ok ==> stream.At(SkipField(wireType, old(stream.Rest())).rest, old(stream.state + stream.bytesLeft))
  {
    var n: nat := 0;
    if wireType == WT_VARINT {
      ok := ReadSkipVarint(stream);
      return;
    } else if wireType == WT_64BIT {
      n := 8;
    } else if wireType == WT_32BIT {
      n := 4;
    } else if wireType == WT_STRING {
      var eof;
      ok, n, eof := ReadVarint32(stream);
      if !ok {
        return;
      }
    } else {
      return false;
    }
    var data;
    ok, data := stream.Read(n);
  }

  /** pb_decode_tag: eof is also set by a zero key. */
  method ReadTag(stream: IStream) returns (ok: bool, wireType: nat, tag: nat, eof: bool)
    requires stream.Valid() && stream.bytesLeft > 0
    modifies stream
    ensures stream.Valid()
    ensures var key := Decode32(old(stream.Rest()));
            && (ok <==> key.Ok? && key.value != 0)
            && (eof <==> key.Ok? && key.value == 0)
            && (key.Ok? ==> stream.At(key.rest, old(stream.state + stream.bytesLeft)))
            && (ok ==> key.value == 8 * tag + wireType && wireType < 8)
  {
    wireType, tag := 0, 0;
    var temp;
    ok, temp, eof := ReadVarint32(stream);
    if !ok {
      return;
    }
    if temp == 0 {
      eof := true;
      return false, 0, 0, true;
    }
    tag, wireType := temp / 8, temp % 8;
  }

  /** pb_make_string_substream: the parent's count shrinks at once, its position only on closing. */
  method OpenSubstream(stream: IStream) returns (ok: bool, substream: IStream)
    requires stream.Valid()
    modifies stream
    ensures stream.Valid() && substream.Valid() && (ok ==> fresh(substream))
    ensures ok <==> Substream(old(stream.Rest())).Ok?
    ensures ok ==> var r := Substream(old(stream.Rest()));
                   && substream.buf == stream.buf && substream.Rest() == r.value
                   && substream.bytesLeft < old(stream.bytesLeft)
                   && stream.state == substream.state
                   && substream.state + substream.bytesLeft + stream.bytesLeft == old(stream.state + stream.bytesLeft)
                   && stream.buf[substream.state + substream.bytesLeft..][..stream.bytesLeft] == r.rest
  {
    substream := stream;
    var size, eof;
    ok, size, eof := ReadVarint32(stream);
    if !ok {
      return;
    }
    if stream.bytesLeft < size {
      return false, stream;
    }
    substream := new IStream.Limited(stream, size);
    stream.bytesLeft := stream.bytesLeft - size;
    assert stream.buf[substream.state + size..][..stream.bytesLeft] == stream.buf[stream.state..][..size + stream.bytesLeft][size..];
  }

  /** pb_close_string_substream: skip what the nested decoder left and move the parent behind it. */
  method CloseSubstream(stream: IStream, substream: IStream, ghost end: nat)
    requires stream != substream && substream.Valid() && stream.buf == substream.buf
    requires end == substream.state + substream.bytesLeft && end + stream.bytesLeft <= |stream.buf|
    modifies stream, substream
    ensures stream.Valid() && stream.state == end && stream.bytesLeft == old(stream.bytesLeft)
  {
    if substream.bytesLeft > 0 {
      var ok, data := substream.Read(substream.bytesLeft);
    }
    stream.state := substream.state;
  }
}
