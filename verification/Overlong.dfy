/** pb_decode_varint and pb_decode_varint32 on any form of a number, not only the shortest. */
module Overlong {
  import opened Bits
  import opened Varint
  import opened WireFormat

  /** How many bytes of a number of at most ten may follow at the position. */
  function Room(bitpos: nat): nat
    requires bitpos <= 70
  {
    (70 - bitpos) / 7
  }

  lemma ReadStep(s: seq<Byte>, most: nat)
    requires ReadVarint(s, most).Ok?
    ensures s != [] && most > 0
    ensures var v := ReadVarint(s, most).value;
            if s[0] < 0x80 then ReadVarint(s, most) == Ok(s[0], s[1..]) && v / 0x80 == 0 && v % 0x80 == s[0]
            else ReadVarint(s[1..], most - 1) == Ok(v / 0x80, ReadVarint(s, most).rest) && v % 0x80 == s[0] % 0x80
  {}

  // ---- 64 bits ----

  /** The tenth byte: only its lowest bit lands in the result. */
  lemma TenthByte(d: Byte, acc: nat)
    requires d < 0x80 && acc < TWO_63
    ensures Or64(d, 63, acc) == acc + d % 2 * TWO_63 == (acc + ShiftLeft(d, 63)) % TWO_64
  {
    hide BitOr, ShiftLeft;
    ShiftConstants();
    ShiftBy63(d);
    ShiftBy63(d % 2);
    Small(d, 0x80);
    DivUnique(d * TWO_63, TWO_64, d / 2, d % 2 * TWO_63);
    DivUnique(acc + d * TWO_63, TWO_64, d / 2, acc + d % 2 * TWO_63);
    BitOrDisjoint(acc, d % 2, 63);
  }

  lemma ShiftBy63(x: nat)
    ensures ShiftLeft(x, 63) == x * TWO_63
  {
    ShiftBy35(x);
    ShiftSeven(x, 35);
    ShiftSeven(x, 42);
    ShiftSeven(x, 49);
    ShiftSeven(x, 56);
  }

  /** Or64 sees the low seven bits of a byte. */
  lemma LowBits64(b: Byte, bitpos: nat, acc: nat)
    ensures Or64(b, bitpos, acc) == Or64(b % 0x80, bitpos, acc)
  {
    hide BitOr, ShiftLeft;
  }

  /** Before the tenth byte nothing is lost. */
  lemma EarlyByte(b: Byte, bitpos: nat, acc: nat)
    requires Position(bitpos) && bitpos < 63 && acc < ShiftLeft(1, bitpos)
    ensures Or64(b, bitpos, acc) == acc + ShiftLeft(b % 0x80, bitpos) < ShiftLeft(1, bitpos + 7) <= TWO_63
  {
    hide Or64, ShiftLeft;
    LowBits64(b, bitpos, acc);
    Accumulates(b % 0x80, bitpos, acc);
    ShiftBelow(bitpos + 7);
    ShiftConstants();
    Or64Sum(b % 0x80, bitpos, acc);
  }

  lemma {:induction false} ShiftBelow(n: nat)
    requires n <= 63
    ensures ShiftLeft(1, n) <= ShiftLeft(1, 63)
    decreases 63 - n
  {
    if n < 63 { ShiftBelow(n + 1); }
  }

  lemma {:induction false} Decode64Reads(s: seq<Byte>, bitpos: nat, acc: nat)
    requires Position(bitpos) && acc < ShiftLeft(1, bitpos)
    ensures Decode64From(s, bitpos, acc)
         == var r := ReadVarint(s, Room(bitpos));
            if r.Ok? then Ok((acc + ShiftLeft(r.value, bitpos)) % TWO_64, r.rest) else Fail
    decreases |s|
  {
    hide ShiftLeft, Or64;
    if s != [] {
      var r := ReadVarint(s, Room(bitpos));
      if r.Ok? { ReadStep(s, Room(bitpos)); ShiftDigit(r.value, bitpos); ShiftOfZero(bitpos + 7); }
      if bitpos == 63 {
        ShiftConstants();
        LowBits64(s[0], 63, acc);
        TenthByte(s[0] % 0x80, acc);
      } else {
        EarlyByte(s[0], bitpos, acc);
        if s[0] >= 0x80 {
          Decode64Reads(s[1..], bitpos + 7, acc + ShiftLeft(s[0] % 0x80, bitpos));
        } else if r.Ok? {
          Small(acc + ShiftLeft(s[0], bitpos), TWO_64);
        }
      }
    }
  }

  /** The 64-bit reader accepts every number of at most ten bytes, and no other input, and keeps its low 64 bits. */
  lemma Decode64Exactly(s: seq<Byte>)
    ensures Decode64(s)
         == var r := ReadVarint(s, 10);
            if r.Ok? then Ok(r.value % TWO_64, r.rest) else Fail
  {
    Decode64Reads(s, 0, 0);
  }

  // ---- 32 bits ----

  /** Bytes without bits of value change nothing. */
  lemma {:induction false} ZeroTail(s: seq<Byte>, bitpos: nat, acc: nat)
    requires bitpos % 7 == 0 && 35 <= bitpos <= 70 && ReadVarint(s, Room(bitpos)).Ok?
             && ReadVarint(s, Room(bitpos)).value == 0
    ensures Decode32From(s, bitpos, acc) == Ok(acc, ReadVarint(s, Room(bitpos)).rest)
    decreases |s|
  {
    ReadStep(s, Room(bitpos));
    assert !Overflows32(s[0], bitpos, acc);
    if s[0] >= 0x80 { ZeroTail(s[1..], bitpos + 7, acc); }
  }

  lemma LowBits32(b: Byte, bitpos: nat, acc: nat)
    ensures Or32(b, bitpos, acc) == Or32(b % 0x80, bitpos, acc)
  {
    hide BitOr, ShiftLeft;
  }

  lemma FifthReads(s: seq<Byte>, acc: nat)
    requires acc < 0x1000_0000 && ReadVarint(s, Room(28)).Ok? && ReadVarint(s, Room(28)).value < 0x10
    ensures Decode32From(s, 28, acc)
         == Ok(acc + ReadVarint(s, Room(28)).value * 0x1000_0000, ReadVarint(s, Room(28)).rest)
  {
    hide Or32, ReadVarint;
    ReadStep(s, Room(28));
    LowBits32(s[0], 28, acc);
    FifthByte(s[0] % 0x80, acc);
    if s[0] >= 0x80 { ZeroTail(s[1..], 35, acc + ReadVarint(s, Room(28)).value * 0x1000_0000); }
  }

  lemma EarlyByte32(b: Byte, bitpos: nat, acc: nat)
    requires Position(bitpos) && bitpos < 28 && acc < ShiftLeft(1, bitpos)
    ensures Or32(b, bitpos, acc) == acc + ShiftLeft(b % 0x80, bitpos) < ShiftLeft(1, bitpos + 7)
  {
    hide Or32, ShiftLeft;
    LowBits32(b, bitpos, acc);
    DigitFits32(b % 0x80, bitpos, acc);
    Small(b % 0x80, 0x80);
  }

  lemma {:induction false} Decode32Reads(s: seq<Byte>, bitpos: nat, acc: nat)
    requires Position(bitpos) && bitpos <= 28 && acc < ShiftLeft(1, bitpos)
    requires ReadVarint(s, Room(bitpos)).Ok? && acc + ShiftLeft(ReadVarint(s, Room(bitpos)).value, bitpos) < TWO_32
    ensures var r := ReadVarint(s, Room(bitpos)); Decode32From(s, bitpos, acc) == Ok(acc + ShiftLeft(r.value, bitpos), r.rest)
    decreases |s|
  {
    hide ShiftLeft, Or32, ReadVarint;
    var v := ReadVarint(s, Room(bitpos)).value;
    ReadStep(s, Room(bitpos));
    if bitpos == 28 {
      ShiftConstants();
      ShiftBy28(v);
      FifthReads(s, acc);
    } else {
      EarlyByte32(s[0], bitpos, acc);
      ShiftDigit(v, bitpos);
      ShiftOfZero(bitpos + 7);
      if s[0] >= 0x80 { Decode32Reads(s[1..], bitpos + 7, acc + ShiftLeft(s[0] % 0x80, bitpos)); }
    }
  }

  /** The 32-bit reader reads every form of a number below 2^32 in at most ten bytes. */
  lemma Decode32Any(s: seq<Byte>)
    requires ReadVarint(s, 10).Ok? && ReadVarint(s, 10).value < TWO_32
    ensures Decode32(s) == ReadVarint(s, 10)
  {
    hide Decode32From, ReadVarint, ShiftLeft;
    ReadStep(s, 10);
    var v := ReadVarint(s, 10).value;
    ShiftConstants();
    ShiftBySeven(v / 0x80);
    if s[0] >= 0x80 { Decode32Reads(s[1..], 7, s[0] % 0x80); }
  }

  lemma ShiftBySeven(x: nat)
    ensures ShiftLeft(x, 7) == x * 0x80
  {
    ShiftSeven(x, 0);
  }
}
