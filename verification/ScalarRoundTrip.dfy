/** Every scalar entry survives being written and read back. */
module ScalarRoundTrip {
  import opened Bits
  import opened Descriptor
  import opened Varint
  import opened EncodeSpec
  import opened DecodeSpec

  lemma {:induction false} LittleEndianRoundTrip(v: nat, n: nat)
    requires n <= 8
    ensures FromLittleEndian(LittleEndian(v, n)) == v % Pow2(8 * n)
  {
    if n == 0 {
    } else {
      LittleEndianRoundTrip(v / 0x100, n - 1);
      var p := Pow2(8 * (n - 1));
      Pow2Add(8, 8 * (n - 1));
      assert Pow2(8) == 0x100;
      assert LittleEndian(v, n)[1..] == LittleEndian(v / 0x100, n - 1);
      ModSplit(v, p);
    }
  }

  lemma ModSplit(v: nat, p: nat)
    requires p > 0
    ensures v % (0x100 * p) == v % 0x100 + 0x100 * ((v / 0x100) % p)
  {
    var q, r := v / 0x100 / p, (v / 0x100) % p;
    assert v / 0x100 == p * q + r;
    assert v == 0x100 * (p * q + r) + v % 0x100;
    var w := v % 0x100 + 0x100 * r;
    assert v == q * (0x100 * p) + w by { Regroup3(p, q); }
    assert 0 <= w < 0x100 * p;
    DivUnique(v, 0x100 * p, q, w);
  }

  lemma Regroup3(p: nat, q: nat)
    ensures 0x100 * (p * q) == q * (0x100 * p)
  {}

  /** Zig-zag is undone on every 64-bit signed integer. */
  lemma ZigZagRoundTrip(i: int)
    requires InSigned(i, 8)
    ensures ZigZag(i) < TWO_64 && UnZigZag(ZigZag(i)) == i
  {
    if i < 0 {
      assert ToBits64(i) == TWO_64 + i;
      assert (ToBits64(i) * 2) % TWO_64 == TWO_64 + 2 * i;
      assert ZigZag(i) == -2 * i - 1;
    } else {
      assert ZigZag(i) == 2 * i;
    }
  }

  /** Adding the modulus to a negative integer is undone by reading it as two's complement. */
  lemma SignedMod(i: int, n: nat)
    requires IntegerSize(n) && InSigned(i, n)
    ensures i % Modulus(n) == if i < 0 then Modulus(n) + i else i
    ensures ToSigned(i, n) == i
  {
    if n == 1 {
    } else if n == 2 {
    } else if n == 4 {
    } else {
      assert n == 8;
    }
  }

  /** The two's complement bits give the integer back, read as 64 or, if it fits, as 32 bits. */
  lemma SignedBits(i: int, n: nat)
    requires IntegerSize(n) && InSigned(i, n)
    ensures ToBits64(i) < TWO_64
    ensures ToSigned(ToBits64(i), if n == 8 then 8 else 4) == i && ToSigned(i, n) == i
  {
    SignedMod(i, n);
    assert Modulus(n) <= TWO_64;
    SignedMod(i, 8);
    if n != 8 {
      SignedMod(i, 4);
      assert ToBits64(i) % TWO_32 == i % TWO_32;
    }
  }

  /** One-, two-, four- and eight-byte integers, signed, unsigned, zig-zag and fixed, all round-trip. */
  lemma IntegerRoundTrip(f: Field, v: Value, rest: seq<Byte>)
    requires Packable(f) && SizeMatches(f) && ShapedValue(f, v)
    ensures EncodeValue(f, v).Some?
    ensures Integer(f, EncodeValue(f, v).value + rest) == Ok(v, rest)
  {
    match f.ltype {
      case LFixed32 => FixedRoundTrip(v.i, 4, rest);
      case LFixed64 => FixedRoundTrip(v.i, 8, rest);
      case LVarint =>
        SignedBits(v.i, f.dataSize);
        RoundTrip64(ToBits64(v.i), rest);
      case LUvarint =>
        UnsignedBits(v.i, f.dataSize);
        RoundTrip64(v.i, rest);
      case LSvarint =>
        SignedMod(v.i, f.dataSize);
        ZigZagRoundTrip(v.i);
        RoundTrip64(ZigZag(v.i), rest);
    }
  }

  lemma UnsignedBits(i: nat, n: nat)
    requires IntegerSize(n) && InUnsigned(i, n)
    ensures ToBits64(i) == i && i < TWO_64 && i % Modulus(n) == i
  {}

  lemma FixedRoundTrip(i: nat, n: nat, rest: seq<Byte>)
    requires n == 4 || n == 8
    requires i < Modulus(n)
    ensures Take(LittleEndian(i, n) + rest, n) == Ok(LittleEndian(i, n), rest)
    ensures FromLittleEndian(LittleEndian(i, n)) == i
    ensures i % Modulus(n) == i
  {
    Pow2Words();
    hide LittleEndian, FromLittleEndian, Pow2;
    var e := LittleEndian(i, n);
    assert (e + rest)[..n] == e && (e + rest)[n..] == rest;
    LittleEndianRoundTrip(i, n);
  }
}
