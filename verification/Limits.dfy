/** Encoder and decoder together, and messages that the encoder accepts but the decoder refuses. */
module Limits {
  import opened Bits
  import opened Descriptor
  import opened Varint
  import opened EncodeSpec
  import opened DecodeSpec
  import opened Equality
  import opened RoundTrip
  import Encoder
  import opened OutputStream
  import InputStream
  import Decoder

  lemma {:induction false} TagsOfWellFormed(fields: seq<Field>)
    requires WellFormed(fields)
    ensures TagsOk(fields)
    decreases fields, 1
  {
    forall i | 0 <= i < |fields| ensures TagOk(fields[i]) { TagOfWellFormed(fields[i]); }
  }

  lemma {:induction false} TagOfWellFormed(f: Field)
    requires WellFormedField(f)
    ensures TagOk(f)
    decreases f, 0
  {
    if f.ptr.SubFields? {
      TagsOfWellFormed(f.ptr.fields);
    }
  }

  /** Encode into a buffer of the reported size, then decode it into another struct: this works
      exactly when the message is encodable and decodable, and the two structs then agree. */
  method Transcode(fields: seq<Field>, m: Msg, dest: Msg) returns (ok: bool, m': Msg)
    requires WellFormed(fields) && Shaped(fields, m) && Shaped(fields, dest)
    requires EncodeMessage(fields, m).Some? ==> |EncodeMessage(fields, m).value| < TWO_63
    ensures ok <==> EncodeMessage(fields, m).Some? && Decodable(fields, m)
    ensures ok ==> Same(fields, m, m')
  {
    TagsOfWellFormed(fields);
    m' := dest;
    var buf;
    buf, ok := Encoder.EncodeToExactBuffer(fields, m);
    if ok {
      DecodeOfEncode(fields, m, dest, []);
      assert buf[..] + [] == buf[..];
      var stream := new InputStream.IStream.FromBuffer(buf[..]);
      ok, m' := Decoder.PbDecode(stream, fields, dest);
    }
  }

  /** A required string of one byte that is not a NUL. */
  const CHAR_FIELD: Field := Field(1, LString, Required, Static, 0, 0, 1, 0, Null)

  /** The encoder writes a full, unterminated character array; the decoder refuses it. */
  lemma UnterminatedString()
    ensures var fields, m := [CHAR_FIELD], Msg([Slot(false, 0, [Chars([0x41])])], map[]);
            && WellFormed(fields) && Shaped(fields, m)
            && EncodeMessage(fields, m).Some?
            && forall dest :: Shaped(fields, dest) ==> Decode(fields, dest, EncodeMessage(fields, m).value).Fail?
  {
    var fields, m := [CHAR_FIELD], Msg([Slot(false, 0, [Chars([0x41])])], map[]);
    var mem: seq<Byte> := [0x41];
    assert mem[1..] == [] && CString(mem) == [0x41];
    assert !DecodableField(fields, 0, m);
    assert EncodeFrom(fields, 1, m) == Some([]);
    assert EncodeValue(CHAR_FIELD, Chars(mem)) == Some(Delimited(mem));
    assert EncodeField(fields, 0, m) == EncodeTagged(CHAR_FIELD, Chars(mem)) == Some(Tag(2, 1) + Delimited(mem));
    assert EncodeMessage(fields, m) == EncodeFrom(fields, 0, m) == Join(EncodeField(fields, 0, m), EncodeFrom(fields, 1, m));
    var e := EncodeMessage(fields, m).value;
    assert e == Tag(2, 1) + Delimited([0x41]) + [];
    assert |e| < TWO_63;
    forall dest | Shaped(fields, dest) ensures Decode(fields, dest, e).Fail? {
      DecodeOfEncode(fields, m, dest, []);
      assert e + [] == e;
    }
  }

  /** An array of 2^29 eight-byte integers. */
  const WIDE_FIELD: Field := Field(1, LFixed64, Repeated, Static, 4, -4, 8, 0x2000_0000, Null)

  function WideMessage(): Msg { Msg([Slot(false, 0x2000_0000, seq(0x2000_0000, k => Int(0)))], map[]) }

  lemma WideShape()
    ensures WellFormed([WIDE_FIELD]) && Shaped([WIDE_FIELD], WideMessage())
  {
    assert WellFormedField(WIDE_FIELD);
    assert ShapedSlot(WIDE_FIELD, WideMessage().slots[0]);
  }

  /** A message with one field is encoded as that field. */
  lemma OneField(f: Field, m: Msg)
    ensures EncodeMessage([f], m) == EncodeField([f], 0, m)
  {
    var fields := [f];
    assert EncodeFrom(fields, 1, m) == Some([]);
    assert EncodeMessage(fields, m) == Join(EncodeField(fields, 0, m), EncodeFrom(fields, 1, m));
    var e := EncodeField(fields, 0, m);
    if e.Some? { assert e.value + [] == e.value; }
  }

  lemma WideBytes() returns (p: seq<Byte>)
    ensures |p| == TWO_32
    ensures EncodePacked(WIDE_FIELD, WideMessage().slots[0].items) == Some(p)
    ensures EncodeMessage([WIDE_FIELD], WideMessage()) == Some(Tag(WT_STRING, 1) + Delimited(p))
    ensures |Tag(WT_STRING, 1) + Delimited(p)| < TWO_63
  {
    hide EncodePacked, EncodeVarint;
    var items := WideMessage().slots[0].items;
    Encoder.FixedPackedSize(WIDE_FIELD, items);
    assert items[..0x2000_0000] == items;
    p := EncodePacked(WIDE_FIELD, items).value;
    OneField(WIDE_FIELD, WideMessage());
    ShiftConstants();
    ShiftSeven(1, 28);
    VarintLength(|p|, 5);
    VarintLength(1 * 8 + 2, 1);
  }

  /** Its packed form takes 2^32 bytes: the length is written as 64 bits but read as 32. */
  lemma WideArray()
    ensures WellFormed([WIDE_FIELD]) && Shaped([WIDE_FIELD], WideMessage())
    ensures var e := EncodeMessage([WIDE_FIELD], WideMessage());
            e.Some? && forall dest :: Shaped([WIDE_FIELD], dest) ==> Decode([WIDE_FIELD], dest, e.value).Fail?
  {
    var fields, m := [WIDE_FIELD], WideMessage();
    WideShape();
    var p := WideBytes();
    var e := EncodeMessage(fields, m).value;
    assert !DecodableField(fields, 0, m) by {
      assert m.slots[0].items[..0x2000_0000] == m.slots[0].items;
    }
    forall dest | Shaped(fields, dest) ensures Decode(fields, dest, e).Fail? {
      DecodeOfEncode(fields, m, dest, []);
      assert e + [] == e;
    }
  }
}
