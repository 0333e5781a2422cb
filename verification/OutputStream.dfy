/** pb_ostream_t and the primitive encoders (pb_encode.c). */
module OutputStream {
  import opened Bits
  import opened Descriptor
  import opened Varint
  import opened EncodeSpec

  class OStream {
    /** Whether there is a callback: a sizing stream has none and only counts. */
    const writing: bool
    /** The memory the state pointer walks over. */
    const buf: array<Byte>
    const maxSize: nat
    var state: nat
    var bytesWritten: nat

    ghost predicate Valid()
      reads this
    {
      writing ==> bytesWritten <= maxSize && state + (maxSize - bytesWritten) <= buf.Length
    }

    /** Everything in the buffer up to the state pointer. */
    ghost function Contents(): seq<Byte>
      reads this, buf
    {
      if writing && state <= buf.Length then buf[..state] else []
    }

    ghost predicate Room(n: nat)
      reads this
    {
      writing ==> bytesWritten + n <= maxSize
    }

    /** Since the stream had written n0 bytes, with contents c0, exactly e was written. */
    ghost predicate Wrote(n0: nat, c0: seq<Byte>, e: seq<Byte>)
      reads this, buf
    {
      Valid() && bytesWritten == n0 + |e| && (writing ==> Contents() == c0 + e)
    }

    /** Writing a and then b writes a + b. */
    lemma Chain(n0: nat, c0: seq<Byte>, c1: seq<Byte>, a: seq<Byte>, b: seq<Byte>)
      requires Wrote(n0 + |a|, c1, b) && (writing ==> c1 == c0 + a)
      ensures Wrote(n0, c0, a + b)
    {
      assert c0 + a + b == c0 + (a + b);
    }

    /** pb_ostream_from_buffer. */
    constructor FromBuffer(buf: array<Byte>, size: nat)
      requires size <= buf.Length
      ensures Valid() && writing && this.buf == buf && maxSize == size && bytesWritten == 0 && Contents() == []
    {
      writing, this.buf, maxSize, state, bytesWritten := true, buf, size, 0, 0;
    }

    /** PB_OSTREAM_SIZING. */
    constructor Sizing()
      ensures Valid() && !writing && bytesWritten == 0 && fresh(buf)
    {
      writing, buf, maxSize, state, bytesWritten := false, new Byte[0], 0, 0, 0;
    }

    /** The substream of pb_encode_submessage: the same memory, limited to size bytes. */
    constructor Limited(parent: OStream, size: nat)
      requires parent.Valid() && parent.writing && parent.Room(size)
      ensures Valid() && writing && buf == parent.buf && maxSize == size && bytesWritten == 0
      ensures state == parent.state && Contents() == parent.Contents()
    {
      writing, buf, maxSize, state, bytesWritten := true, parent.buf, size, parent.state, 0;
    }

    /** buf_write: copy byte by byte and advance the state pointer. */
    method BufWrite(data: seq<Byte>)
      requires writing && state + |data| <= buf.Length
      modifies this`state, buf
      ensures state == old(state) + |data| && buf[..state] == old(buf[..state]) + data
    {
      var dest := state;
      state := dest + |data|;
      var i := 0;
      while i < |data|
        invariant 0 <= i <= |data| && state == dest + |data| && dest == old(state)
        invariant buf[..dest] == old(buf[..dest])
        invariant buf[dest..dest + i] == data[..i]
      {
        buf[dest + i] := data[i];
        i := i + 1;
      }
      assert buf[..state] == buf[..dest] + buf[dest..dest + |data|];
    }

    /** pb_write; a sizing stream is also given a count without data. */
    method Write(data: seq<Byte>, count: nat) returns (ok: bool)
      requires Valid() && (writing ==> |data| == count)
      modifies this, buf
      ensures Valid() && (ok <==> old(Room(count)))
      ensures ok ==> bytesWritten == old(bytesWritten) + count && (writing ==> Contents() == old(Contents()) + data)
    {
      if writing {
        if bytesWritten + count > maxSize {
          return false;
        }
        BufWrite(data);
      }
      bytesWritten := bytesWritten + count;
      return true;
    }
  }

  /** The digits of v, each with its continuation bit, as the encoding loop stores them. */
  function Continued(v: nat): seq<Byte>
  {
    if v == 0 then [] else [0x80 + v % 0x80] + Continued(v / 0x80)
  }

  /** Dropping the top bit of the last byte gives the canonical encoding. */
  lemma {:induction false} ContinuedIsVarint(v: nat)
    requires v > 0
    ensures var c := Continued(v); |c| > 0 && c[|c| - 1] >= 0x80 && EncodeVarint(v) == c[|c| - 1 := c[|c| - 1] - 0x80]
  {
    var c := Continued(v);
    if v < 0x80 {
      assert Continued(v / 0x80) == [];
    } else {
      ContinuedIsVarint(v / 0x80);
      var t := Continued(v / 0x80);
      assert c[|c| - 1 := c[|c| - 1] - 0x80] == [c[0]] + t[|t| - 1 := t[|t| - 1] - 0x80];
    }
  }

  /** The buffer of pb_encode_varint for a value of several bytes. */
  method FillVarint(value: nat) returns (buffer: array<Byte>, i: nat)
    requires 0 < value < TWO_64
    ensures fresh(buffer) && i <= buffer.Length && buffer[..i] == EncodeVarint(value)
  {
    buffer := new Byte[10];
    i := 0;
    var v: nat := value;
    while v > 0
      invariant 0 <= i <= 10
      invariant v > 0 ==> Position(7 * i) && ShiftLeft(v, 7 * i) < TWO_64
      invariant Continued(value) == buffer[..i] + Continued(v)
      decreases v
    {
      DigitBound(v, 7 * i);
      buffer[i] := v % 0x80 + 0x80;
      v := v / 0x80;
      i := i + 1;
      assert buffer[..i] == buffer[..i - 1] + [buffer[i - 1]];
    }
    ContinuedIsVarint(value);
    assert buffer[..i] == Continued(value);
    buffer[i - 1] := buffer[i - 1] % 0x80;
  }

  /** pb_encode_varint. */
  method WriteVarint(stream: OStream, value: nat) returns (ok: bool)
    requires stream.Valid() && value < TWO_64
    modifies stream, stream.buf
    ensures stream.Valid() && (ok <==> old(stream.Room(|EncodeVarint(value)|)))
    ensures ok ==> stream.Wrote(old(stream.bytesWritten), old(stream.Contents()), EncodeVarint(value))
  {
    if value <= 0x7F {
      ok := stream.Write([value], 1);
      return;
    }
    var buffer, i := FillVarint(value);
    ok := stream.Write(buffer[..i], i);
  }

  lemma DigitBound(v: nat, bitpos: nat)
    requires v > 0 && Position(bitpos) && ShiftLeft(v, bitpos) < TWO_64
    ensures ShiftLeft(v / 0x80, bitpos + 7) < TWO_64 && (v / 0x80 > 0 ==> Position(bitpos + 7))
  {
    ShiftDigit(v, bitpos);
    LastDigit(v, bitpos);
  }

  /** pb_encode_svarint. */
  method WriteSvarint(stream: OStream, value: int) returns (ok: bool)
    requires stream.Valid()
    modifies stream, stream.buf
    ensures stream.Valid() && (ok <==> old(stream.Room(|EncodeVarint(ZigZag(value))|)))
    ensures ok ==> stream.Wrote(old(stream.bytesWritten), old(stream.Contents()), EncodeVarint(ZigZag(value)))
  {
    var shifted := (ToBits64(value) * 2) % TWO_64;
    assert (value * 2) % TWO_64 == shifted by { DoubleMod(value); }
    ok := WriteVarint(stream, if value < 0 then TWO_64 - 1 - shifted else shifted);
  }

  lemma DoubleMod(i: int)
    ensures (i * 2) % TWO_64 == (i % TWO_64 * 2) % TWO_64
  {
    var q, r := i / TWO_64, i % TWO_64;
    assert i == TWO_64 * q + r;
    assert i * 2 == TWO_64 * (2 * q) + r * 2;
  }

  /** pb_encode_fixed32. */
  method WriteFixed32(stream: OStream, val: nat) returns (ok: bool)
    requires stream.Valid() && val < TWO_32
    modifies stream, stream.buf
    ensures stream.Valid() && (ok <==> old(stream.Room(4)))
    ensures ok ==> stream.Wrote(old(stream.bytesWritten), old(stream.Contents()), LittleEndian(val, 4))
  {
    var bytes := [val % 0x100, val / 0x100 % 0x100, val / 0x1_0000 % 0x100, val / 0x100_0000 % 0x100];
    LittleEndian4(val);
    ok := stream.Write(bytes, 4);
  }

  lemma LittleEndian4(v: nat)
    ensures LittleEndian(v, 4) == [v % 0x100, v / 0x100 % 0x100, v / 0x1_0000 % 0x100, v / 0x100_0000 % 0x100]
  {
    assert v / 0x100 / 0x100 == v / 0x1_0000 && v / 0x1_0000 / 0x100 == v / 0x100_0000;
    var v1, v2, v3 := v / 0x100, v / 0x1_0000, v / 0x100_0000;
    assert LittleEndian(v3, 1) == [v3 % 0x100] + LittleEndian(v3 / 0x100, 0);
    assert LittleEndian(v2, 2) == [v2 % 0x100] + LittleEndian(v3, 1);
    assert LittleEndian(v1, 3) == [v1 % 0x100] + LittleEndian(v2, 2);
  }

  /** pb_encode_fixed64. */
  method WriteFixed64(stream: OStream, val: nat) returns (ok: bool)
    requires stream.Valid() && val < TWO_64
    modifies stream, stream.buf
    ensures stream.Valid() && (ok <==> old(stream.Room(8)))
    ensures ok ==> stream.Wrote(old(stream.bytesWritten), old(stream.Contents()), LittleEndian(val, 8))
  {
    var high := val / TWO_32;
    var bytes := [val % 0x100, val / 0x100 % 0x100, val / 0x1_0000 % 0x100, val / 0x100_0000 % 0x100,
                  high % 0x100, high / 0x100 % 0x100, high / 0x1_0000 % 0x100, high / 0x100_0000 % 0x100];
    LittleEndian4(val);
    LittleEndian4(high);
    LittleEndianSplit(val, 4);
    ok := stream.Write(bytes, 8);
  }

  lemma LittleEndianSplit(v: nat, n: nat)
    requires n == 4
    ensures LittleEndian(v, 8) == LittleEndian(v, 4) + LittleEndian(v / TWO_32, 4)
  {
    var v1, v2, v3, v4 := v / 0x100, v / 0x1_0000, v / 0x100_0000, v / TWO_32;
    assert v1 / 0x100 == v2 && v2 / 0x100 == v3 && v3 / 0x100 == v4;
    LittleEndian4(v);
    assert LittleEndian(v3, 5) == [v3 % 0x100] + LittleEndian(v4, 4);
    assert LittleEndian(v2, 6) == [v2 % 0x100] + LittleEndian(v3, 5);
    assert LittleEndian(v1, 7) == [v1 % 0x100] + LittleEndian(v2, 6);
  }

  /** pb_encode_tag. */
  method WriteTag(stream: OStream, wireType: nat, number: nat) returns (ok: bool)
    requires stream.Valid() && wireType < 8 && number < TWO_32
    modifies stream, stream.buf
    ensures stream.Valid() && (ok <==> old(stream.Room(|Tag(wireType, number)|)))
    ensures ok ==> stream.Wrote(old(stream.bytesWritten), old(stream.Contents()), Tag(wireType, number))
  {
    ok := WriteVarint(stream, number * 8 + wireType);
  }

  /** pb_encode_string. */
  method WriteString(stream: OStream, buffer: seq<Byte>) returns (ok: bool)
    requires stream.Valid()
    modifies stream, stream.buf
    ensures stream.Valid() && (ok <==> old(stream.Room(|Delimited(buffer)|)))
    ensures ok ==> stream.Wrote(old(stream.bytesWritten), old(stream.Contents()), Delimited(buffer))
  {
    ok := WriteVarint(stream, |buffer| % TWO_64);
    if ok {
      ghost var c1 := stream.Contents();
      ok := stream.Write(buffer, |buffer|);
      if ok { stream.Chain(old(stream.bytesWritten), old(stream.Contents()), c1, EncodeVarint(|buffer| % TWO_64), buffer); }
    }
  }
}
