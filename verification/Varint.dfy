/** Protocol Buffers variable-length integers (pb_encode.c, pb_decode.c). */
module Varint {
  import opened Bits

  /** What a reader makes of the front of its input: a value and the bytes left, or failure. */
  datatype Parsed<+T> = Fail | Ok(value: T, rest: seq<Byte>)

  /** The canonical encoding: seven bits a byte, least significant first, top bit set on all but the last. */
  function EncodeVarint(v: nat): (r: seq<Byte>)
    ensures |r| > 0
  {
    if v < 0x80 then [v] else [0x80 + v % 0x80] + EncodeVarint(v / 0x80)
  }

  /** `result | (uint64_t)(b & 0x7F) << bitpos`. */
  function Or64(b: Byte, bitpos: nat, result: nat): nat
  {
    BitOr(result, ShiftLeft(b % 0x80, bitpos) % TWO_64)
  }

  /** The loop of `pb_decode_varint` from its current `bitpos` and `result`. */
  function Decode64From(s: seq<Byte>, bitpos: nat, result: nat): (r: Parsed<nat>)
    ensures r.Ok? ==> |r.rest| < |s|
  {
    if bitpos >= 64 || s == [] then Fail
    else
      var acc := Or64(s[0], bitpos, result);
      if s[0] >= 0x80 then Decode64From(s[1..], bitpos + 7, acc) else Ok(acc, s[1..])
  }

  function Decode64(s: seq<Byte>): (r: Parsed<nat>)
    ensures r.Ok? ==> |r.rest| < |s|
  {
    Decode64From(s, 0, 0)
  }

  /** The next value of the 8-bit counter `bitpos` (uint_fast8_t). */
  function NextBitpos(bitpos: nat): nat { (bitpos + 7) % 0x100 }

  /** The byte `b` at bit position `bitpos` neither fits in 32 bits nor is part of a sign extension. */
  predicate Overflows32(b: Byte, bitpos: nat, result: nat)
  {
    bitpos >= 32 && b % 0x80 != 0 && (result / TWO_31 == 0 || b != if bitpos < 63 then 0xFF else 0x01)
  }

  function Or32(b: Byte, bitpos: nat, result: nat): nat
  {
    if bitpos >= 32 then result else BitOr(result, ShiftLeft(b % 0x80, bitpos) % TWO_32)
  }

  /** The multi-byte loop of `pb_decode_varint32_eof`. */
  function Decode32From(s: seq<Byte>, bitpos: nat, result: nat): (r: Parsed<nat>)
    ensures r.Ok? ==> |r.rest| < |s|
  {
    if s == [] || Overflows32(s[0], bitpos, result) then Fail
    else
      var acc := Or32(s[0], bitpos, result);
      if s[0] >= 0x80 then Decode32From(s[1..], NextBitpos(bitpos), acc)
      else if NextBitpos(bitpos) == 35 && s[0] / 0x10 != 0 then Fail
      else Ok(acc, s[1..])
  }

  function Decode32(s: seq<Byte>): (r: Parsed<nat>)
    ensures r.Ok? ==> |r.rest| < |s|
  {
    if s == [] then Fail
    else if s[0] < 0x80 then Ok(s[0], s[1..])
    else Decode32From(s[1..], 7, s[0] % 0x80)
  }

  // ---- Shifts by multiples of seven ----

  lemma ShiftSeven(x: nat, n: nat)
    ensures ShiftLeft(x, n + 7) == 0x80 * ShiftLeft(x, n)
  {
    assert ShiftLeft(x, n + 7) == 4 * ShiftLeft(x, n + 5);
    assert ShiftLeft(x, n + 5) == 4 * ShiftLeft(x, n + 3);
    assert ShiftLeft(x, n + 3) == 4 * ShiftLeft(x, n + 1);
  }

  /** One base-128 digit of v at its position and the rest of v at the next. */
  lemma {:induction false} ShiftDigit(v: nat, n: nat)
    ensures ShiftLeft(v, n) == ShiftLeft(v / 0x80, n + 7) + ShiftLeft(v % 0x80, n)
  {
    if n == 0 {
      ShiftSeven(v / 0x80, 0);
    } else {
      ShiftDigit(v, n - 1);
    }
  }

  lemma {:induction false} ShiftOfZero(n: nat)
    ensures ShiftLeft(0, n) == 0
  {
    if n > 0 {
      ShiftOfZero(n - 1);
    }
  }

  lemma {:induction false} DigitBelow(d: nat, n: nat)
    requires d < 0x80
    ensures ShiftLeft(d, n) <= 0x7F * ShiftLeft(1, n)
  {
    if n > 0 {
      DigitBelow(d, n - 1);
    }
  }

  lemma ShiftConstants()
    ensures ShiftLeft(1, 7) == 0x80 && ShiftLeft(1, 28) == 0x1000_0000 && ShiftLeft(1, 63) == TWO_63
  {
    ShiftSeven(1, 0);
    ShiftSeven(1, 7);
    ShiftSeven(1, 14);
    ShiftSeven(1, 21);
    ShiftSeven(1, 28);
    ShiftSeven(1, 35);
    ShiftSeven(1, 42);
    ShiftSeven(1, 49);
    ShiftSeven(1, 56);
  }

  lemma {:induction false} ShiftOf(x: nat, n: nat)
    ensures ShiftLeft(x, n) >= x && (x >= 2 ==> ShiftLeft(x, n) >= 2 * ShiftLeft(1, n))
  {
    if n > 0 {
      ShiftOf(x, n - 1);
    }
  }

  // ---- 64-bit round trip ----

  lemma EncodedFront(v: nat, rest: seq<Byte>)
    ensures var s := EncodeVarint(v) + rest;
            && s[0] == (if v < 0x80 then v else 0x80 + v % 0x80)
            && s[1..] == if v < 0x80 then rest else EncodeVarint(v / 0x80) + rest
  {
    if v < 0x80 {
      assert EncodeVarint(v) + rest == [v] + rest;
    } else {
      var e := EncodeVarint(v / 0x80);
      assert EncodeVarint(v) == [0x80 + v % 0x80] + e;
      assert EncodeVarint(v) + rest == [0x80 + v % 0x80] + (e + rest);
    }
  }

  /** A position at which the encoding of a 64-bit value has a digit. */
  predicate Position(bitpos: nat) { bitpos % 7 == 0 && bitpos <= 63 }

  lemma Small(x: nat, m: nat)
    requires x < m
    ensures x % m == x
  {}

  lemma Or64Sum(d: Byte, bitpos: nat, acc: nat)
    requires d < 0x80 && acc < ShiftLeft(1, bitpos) && ShiftLeft(d, bitpos) < TWO_64
    ensures Or64(d, bitpos, acc) == acc + ShiftLeft(d, bitpos)
  {
    Small(d, 0x80);
    Small(ShiftLeft(d, bitpos), TWO_64);
    BitOrDisjoint(acc, d, bitpos);
  }

  lemma Or32Sum(d: Byte, bitpos: nat, acc: nat)
    requires d < 0x80 && bitpos < 32 && acc < ShiftLeft(1, bitpos) && ShiftLeft(d, bitpos) < TWO_32
    ensures Or32(d, bitpos, acc) == acc + ShiftLeft(d, bitpos)
  {
    Small(d, 0x80);
    Small(ShiftLeft(d, bitpos), TWO_32);
    BitOrDisjoint(acc, d, bitpos);
  }

  /** An accumulator below its position stays below the next one. */
  lemma Accumulates(d: nat, bitpos: nat, acc: nat)
    requires d < 0x80 && acc < ShiftLeft(1, bitpos)
    ensures acc + ShiftLeft(d, bitpos) < ShiftLeft(1, bitpos + 7)
  {
    DigitBelow(d, bitpos);
    ShiftSeven(1, bitpos);
  }

  /** The bits of one decoded byte are added to the accumulator without truncation or overlap. */
  lemma DigitFits(v: nat, bitpos: nat, acc: nat)
    requires acc < ShiftLeft(1, bitpos) && ShiftLeft(v, bitpos) < TWO_64
    ensures Or64(v % 0x80, bitpos, acc) == acc + ShiftLeft(v % 0x80, bitpos)
    ensures acc + ShiftLeft(v % 0x80, bitpos) < ShiftLeft(1, bitpos + 7)
    ensures ShiftLeft(v / 0x80, bitpos + 7) < TWO_64
  {
    ShiftDigit(v, bitpos);
    Or64Sum(v % 0x80, bitpos, acc);
    Accumulates(v % 0x80, bitpos, acc);
  }

  /** A 64-bit value has at most ten digits. */
  lemma LastDigit(v: nat, bitpos: nat)
    requires Position(bitpos) && ShiftLeft(v, bitpos) < TWO_64
    ensures bitpos == 63 ==> v < 2
  {
    ShiftConstants();
    ShiftOf(v, bitpos);
  }

  lemma Unroll64(v: nat, bitpos: nat, acc: nat, rest: seq<Byte>)
    requires bitpos < 64
    ensures Decode64From(EncodeVarint(v) + rest, bitpos, acc)
         == if v < 0x80 then Ok(Or64(v % 0x80, bitpos, acc), rest)
            else Decode64From(EncodeVarint(v / 0x80) + rest, bitpos + 7, Or64(v % 0x80, bitpos, acc))
  {
    EncodedFront(v, rest);
  }

  lemma {:induction false} Decode64FromEncode(v: nat, bitpos: nat, acc: nat, rest: seq<Byte>)
    requires Position(bitpos) && acc < ShiftLeft(1, bitpos) && ShiftLeft(v, bitpos) < TWO_64
    ensures Decode64From(EncodeVarint(v) + rest, bitpos, acc) == Ok(acc + ShiftLeft(v, bitpos), rest)
    decreases v
  {
    hide ShiftLeft, Decode64From, EncodeVarint, Or64;
    DigitFits(v, bitpos, acc);
    ShiftDigit(v, bitpos);
    if v < 0x80 { Small(v, 0x80); ShiftOfZero(bitpos + 7); }
    Unroll64(v, bitpos, acc, rest);
    LastDigit(v, bitpos);
    if v >= 0x80 {
      Decode64FromEncode(v / 0x80, bitpos + 7, acc + ShiftLeft(v % 0x80, bitpos), rest);
    }
  }

  /** A value of 7 n bits takes at most n bytes. */
  lemma {:induction false} VarintLength(v: nat, n: nat)
    requires n > 0 && v < ShiftLeft(1, 7 * n)
    ensures |EncodeVarint(v)| <= n
    decreases n
  {
    ShiftSeven(1, 7 * (n - 1));
    if v >= 0x80 {
      VarintLength(v / 0x80, n - 1);
    }
  }

  lemma SeventyBits()
    ensures TWO_64 <= ShiftLeft(1, 7 * 10)
  {
    ShiftConstants();
    ShiftSeven(1, 63);
  }

  /** Decoding what was encoded in at most ten bytes gives back every 64-bit value and leaves the input just after it. */
  lemma RoundTrip64(v: nat, rest: seq<Byte>)
    requires v < TWO_64
    ensures |EncodeVarint(v)| <= 10 && Decode64(EncodeVarint(v) + rest) == Ok(v, rest)
  {
    SeventyBits();
    VarintLength(v, 10);
    Decode64FromEncode(v, 0, 0, rest);
  }

  // ---- 32-bit decoder on canonical encodings ----

  /** From the sixth byte on, every group is empty or all ones and the tenth byte is 1. */
  predicate SignTail(v: nat, bitpos: nat)
  {
    if v < 0x80 then bitpos == 63 && v == 1
    else (v % 0x80 == 0 || v % 0x80 == 0x7F) && SignTail(v / 0x80, bitpos + 7)
  }

  /** What the 32-bit decoder returns on the canonical encoding of v. */
  function Expect32(v: nat, rest: seq<Byte>): Parsed<nat>
  {
    if v < TWO_32 then Ok(v, rest)
    else if v % TWO_32 >= TWO_31 && SignTail(v / 0x8_0000_0000, 35) then Ok(v % TWO_32, rest)
    else Fail
  }

  lemma Unroll32(v: nat, bitpos: nat, acc: nat, rest: seq<Byte>)
    requires Position(bitpos)
    ensures var b := if v < 0x80 then v else 0x80 + v % 0x80;
            Decode32From(EncodeVarint(v) + rest, bitpos, acc)
            == if Overflows32(b, bitpos, acc) then Fail
               else if v >= 0x80 then Decode32From(EncodeVarint(v / 0x80) + rest, bitpos + 7, Or32(b, bitpos, acc))
               else if bitpos == 28 && v / 0x10 != 0 then Fail
               else Ok(Or32(b, bitpos, acc), rest)
  {
    hide BitOr, ShiftLeft;
    EncodedFront(v, rest);
  }

  /** Past bit 32 the decoder keeps its result and only checks that what follows is a sign extension. */
  lemma {:induction false} Decode32Tail(v: nat, bitpos: nat, acc: nat, rest: seq<Byte>)
    requires Position(bitpos) && bitpos >= 35 && 1 <= v && ShiftLeft(v, bitpos) < TWO_64
    ensures Decode32From(EncodeVarint(v) + rest, bitpos, acc)
         == if acc / TWO_31 != 0 && SignTail(v, bitpos) then Ok(acc, rest) else Fail
    decreases v
  {
    Unroll32(v, bitpos, acc, rest);
    LastDigit(v, bitpos);
    if v >= 0x80 {
      ShiftDigit(v, bitpos);
      Decode32Tail(v / 0x80, bitpos + 7, acc, rest);
    }
  }

  /** The fifth byte: four of its bits land in the result. */
  lemma FifthByte(d: nat, acc: nat)
    requires d < 0x80 && acc < 0x1000_0000
    ensures Or32(d, 28, acc) == acc + d % 0x10 * 0x1000_0000
  {
    hide BitOr, ShiftLeft;
    ShiftConstants();
    ShiftBy28(d);
    ShiftBy28(d % 0x10);
    Small(d, 0x80);
    DivUnique(d * 0x1000_0000, TWO_32, d / 0x10, d % 0x10 * 0x1000_0000);
    BitOrDisjoint(acc, d % 0x10, 28);
  }

  lemma ShiftBy28(x: nat)
    ensures ShiftLeft(x, 28) == x * 0x1000_0000
  {
    ShiftSeven(x, 0);
    ShiftSeven(x, 7);
    ShiftSeven(x, 14);
    ShiftSeven(x, 21);
  }

  lemma FifthArithmetic(v: nat, acc: nat)
    requires acc < 0x1000_0000
    ensures var w := acc + v * 0x1000_0000;
            && w / 0x8_0000_0000 == v / 0x80
            && (w < TWO_32 <==> v / 0x10 == 0)
            && w % TWO_32 == acc + v % 0x80 % 0x10 * 0x1000_0000
  {
    var q, r := v / 0x80, v % 0x80;
    FifthSplit(q, r, acc);
    Quotient(acc + v * 0x1000_0000, 0x8_0000_0000, q, acc + r * 0x1000_0000);
    DivUnique(acc + v * 0x1000_0000, TWO_32, q * 8 + r / 0x10, acc + r % 0x10 * 0x1000_0000);
  }

  lemma FifthSplit(q: nat, r: nat, acc: nat)
    requires acc < 0x1000_0000 && r < 0x80
    ensures var v, w := q * 0x80 + r, acc + (q * 0x80 + r) * 0x1000_0000;
            && w == q * 0x8_0000_0000 + (acc + r * 0x1000_0000)
            && acc + r * 0x1000_0000 < 0x8_0000_0000
            && w == (q * 8 + r / 0x10) * TWO_32 + (acc + r % 0x10 * 0x1000_0000)
            && (w < TWO_32 <==> v / 0x10 == 0)
  {}

  /** The other three bits of the fifth byte are lost or refused. */
  lemma Decode32Fifth(v: nat, acc: nat, rest: seq<Byte>)
    requires acc < 0x1000_0000 && ShiftLeft(v, 28) < TWO_64
    ensures Decode32From(EncodeVarint(v) + rest, 28, acc) == Expect32(acc + v * 0x1000_0000, rest)
  {
    hide ShiftLeft, Decode32From, EncodeVarint, Or32, SignTail;
    var b := if v < 0x80 then v else 0x80 + v % 0x80;
    assert Or32(b, 28, acc) == Or32(v % 0x80, 28, acc) by { SameDigit(b, v % 0x80, acc); }
    Unroll32(v, 28, acc, rest);
    FifthByte(v % 0x80, acc);
    FifthArithmetic(v, acc);
    if v < 0x80 {
      ShortTail();
    } else {
      ShiftDigit(v, 28);
      Decode32Tail(v / 0x80, 35, (acc + v * 0x1000_0000) % TWO_32, rest);
    }
  }

  lemma ShortTail()
    ensures !SignTail(0, 35)
  {}

  /** The continuation bit does not enter the result. */
  lemma SameDigit(b: Byte, d: Byte, acc: nat)
    requires b % 0x80 == d
    ensures Or32(b, 28, acc) == Or32(d, 28, acc)
  {
    hide BitOr, ShiftLeft;
    Small(d, 0x80);
  }

  lemma DigitFits32(v: nat, bitpos: nat, acc: nat)
    requires Position(bitpos) && bitpos < 28 && acc < ShiftLeft(1, bitpos)
    ensures Or32(v % 0x80, bitpos, acc) == acc + ShiftLeft(v % 0x80, bitpos)
    ensures acc + ShiftLeft(v % 0x80, bitpos) < ShiftLeft(1, bitpos + 7)
  {
    Accumulates(v % 0x80, bitpos, acc);
    ShiftBound(bitpos + 7);
    ShiftConstants();
    Or32Sum(v % 0x80, bitpos, acc);
  }

  lemma {:induction false} ShiftBound(n: nat)
    requires n <= 28
    ensures ShiftLeft(1, n) <= ShiftLeft(1, 28)
    decreases 28 - n
  {
    if n < 28 {
      ShiftBound(n + 1);
    }
  }

  /** Below the fifth byte every byte is taken. */
  lemma UnrollLow(v: nat, bitpos: nat, acc: nat, rest: seq<Byte>)
    requires Position(bitpos) && bitpos < 28 && acc < ShiftLeft(1, bitpos)
    ensures Decode32From(EncodeVarint(v) + rest, bitpos, acc)
         == var sum := acc + ShiftLeft(v % 0x80, bitpos);
            if v >= 0x80 then Decode32From(EncodeVarint(v / 0x80) + rest, bitpos + 7, sum) else Ok(sum, rest)
  {
    hide BitOr, ShiftLeft, Decode32From, EncodeVarint;
    Unroll32(v, bitpos, acc, rest);
    DigitFits32(v, bitpos, acc);
  }

  lemma ExpectSmall(v: nat, rest: seq<Byte>)
    requires v < 0x1000_0000
    ensures Expect32(v, rest) == Ok(v, rest)
  {}

  lemma {:induction false} Decode32FromEncode(v: nat, bitpos: nat, acc: nat, rest: seq<Byte>)
    requires Position(bitpos) && bitpos <= 28 && acc < ShiftLeft(1, bitpos) && ShiftLeft(v, bitpos) < TWO_64
    ensures Decode32From(EncodeVarint(v) + rest, bitpos, acc) == Expect32(acc + ShiftLeft(v, bitpos), rest)
    decreases v
  {
    hide Expect32, ShiftLeft, Decode32From, EncodeVarint, Or32;
    ShiftConstants();
    if bitpos == 28 {
      ShiftBy28(v);
      Decode32Fifth(v, acc, rest);
    } else {
      ShiftDigit(v, bitpos);
      UnrollLow(v, bitpos, acc, rest);
      DigitFits32(v, bitpos, acc);
      if v >= 0x80 {
        Decode32FromEncode(v / 0x80, bitpos + 7, acc + ShiftLeft(v % 0x80, bitpos), rest);
      } else {
        ShiftBound(bitpos + 7);
        ShiftOfZero(bitpos + 7);
        Small(v, 0x80);
        ExpectSmall(acc + ShiftLeft(v, bitpos), rest);
      }
    }
  }

  /** Exactly which canonical encodings the 32-bit decoder accepts, and with what result. */
  lemma Decode32OfEncode(v: nat, rest: seq<Byte>)
    requires v < TWO_64
    ensures Decode32(EncodeVarint(v) + rest) == Expect32(v, rest)
  {
    hide Expect32, Decode32From, EncodeVarint;
    EncodedFront(v, rest);
    if v >= 0x80 {
      ShiftDigit(v, 0);
      ShiftConstants();
      Decode32FromEncode(v / 0x80, 7, v % 0x80, rest);
    } else {
      ExpectSmall(v, rest);
    }
  }

  lemma {:induction false} SignTailIsLarge(v: nat, bitpos: nat)
    requires SignTail(v, bitpos)
    ensures ShiftLeft(v, bitpos) >= TWO_63
    decreases v
  {
    if v < 0x80 {
      ShiftConstants();
    } else {
      SignTailIsLarge(v / 0x80, bitpos + 7);
      ShiftDigit(v, bitpos);
    }
  }

  lemma ShiftBy35(x: nat)
    ensures ShiftLeft(x, 35) == x * 0x8_0000_0000
  {
    ShiftBy28(x);
    ShiftSeven(x, 28);
  }

  /** The identity below 2^32; a refusal in [2^32, 2^63). */
  lemma RoundTrip32(v: nat, rest: seq<Byte>)
    requires v < TWO_63
    ensures Decode32(EncodeVarint(v) + rest) == if v < TWO_32 then Ok(v, rest) else Fail
  {
    Decode32OfEncode(v, rest);
    if v >= TWO_32 && SignTail(v / 0x8_0000_0000, 35) {
      SignTailIsLarge(v / 0x8_0000_0000, 35);
      ShiftBy35(v / 0x8_0000_0000);
      assert false;
    }
  }

  /** A negative int32, sign-extended to ten bytes, decodes to its low 32 bits. */
  lemma Negative32(i: int, rest: seq<Byte>)
    requires 0 - TWO_31 <= i < 0
    ensures Decode32(EncodeVarint(TWO_64 + i) + rest) == Ok(TWO_32 + i, rest)
  {
    hide SignTail, Decode32, EncodeVarint;
    Decode32OfEncode(TWO_64 + i, rest);
    NegativeArithmetic(i);
    NegativeTail();
  }

  lemma NegativeArithmetic(i: int)
    requires 0 - TWO_31 <= i < 0
    ensures (TWO_64 + i) % TWO_32 == TWO_32 + i && (TWO_64 + i) / 0x8_0000_0000 == 0x1FFF_FFFF
  {}

  lemma NegativeTail()
    ensures SignTail(0x1FFF_FFFF, 35)
  {
    assert SignTail(1, 63);
    assert SignTail(0xFF, 56);
    assert SignTail(0x7FFF, 49);
    assert SignTail(0x3F_FFFF, 42);
  }
}
