/** Big-endian integers and DTLS handshake fragments as bytes. */
module Wire {
  import opened Bits

  const HM_HEADER: nat := 12

  /** Handshake message numbers are of type uint16_t. */
  const SEQUENCES: nat := 0x1_0000

  // Record types.
  const RT_CCS: Byte := 20
  const RT_ALERT: Byte := 21
  const RT_HANDSHAKE: Byte := 22
  const RT_APPLICATION: Byte := 23

  // ---- Big-endian integers ----

  function Pow256(n: nat): (p: nat)
    ensures p > 0
  {
    if n == 0 then 1 else 256 * Pow256(n - 1)
  }

  /** The low n bytes of v, most significant first. */
  function BigEndian(v: nat, n: nat): (r: seq<Byte>)
    ensures |r| == n
  {
    if n == 0 then [] else BigEndian(v / 256, n - 1) + [v % 256]
  }

  function FromBigEndian(b: seq<Byte>): nat
  {
    if b == [] then 0 else 256 * FromBigEndian(b[..|b| - 1]) + b[|b| - 1]
  }

  lemma TwoBytes(v: nat)
    requires v < 0x1_0000
    ensures BigEndian(v, 2) == [v / 256, v % 256]
  {
    assert BigEndian(v / 256, 1) == BigEndian(v / 256 / 256, 0) + [v / 256 % 256];
  }

  lemma ThreeBytes(v: nat)
    requires v < 0x100_0000
    ensures BigEndian(v, 3) == [v / 0x1_0000, v / 256 % 256, v % 256]
  {
    TwoBytes(v / 256);
  }

  lemma ThreeMore(v: nat, n: nat)
    ensures BigEndian(v, n + 3) == BigEndian(v / 0x100_0000, n) + [v / 0x1_0000 % 256, v / 256 % 256, v % 256]
  {
    assert v / 256 / 256 == v / 0x1_0000 && v / 0x1_0000 / 256 == v / 0x100_0000;
    assert BigEndian(v, n + 3) == BigEndian(v / 256, n + 2) + [v % 256];
    assert BigEndian(v / 256, n + 2) == BigEndian(v / 0x1_0000, n + 1) + [v / 256 % 256];
    assert BigEndian(v / 0x1_0000, n + 1) == BigEndian(v / 0x100_0000, n) + [v / 0x1_0000 % 256];
  }

  lemma SixBytes(n: nat)
    requires n < 0x1_0000_0000_0000
    ensures BigEndian(n, 6) == [n / 0x100_0000_0000, n / 0x1_0000_0000 % 256, n / 0x100_0000 % 256, n / 0x1_0000 % 256,
                                n / 256 % 256, n % 256]
  {
    hide BigEndian;
    var high := n / 0x100_0000;
    assert high / 0x1_0000 == n / 0x100_0000_0000 && high / 256 == n / 0x1_0000_0000;
    ThreeMore(n, 3);
    ThreeBytes(high);
  }

  lemma {:induction false} BigEndianRoundTrip(v: nat, n: nat)
    requires v < Pow256(n)
    ensures FromBigEndian(BigEndian(v, n)) == v
  {
    if n > 0 {
      var b := BigEndian(v, n);
      assert b[..|b| - 1] == BigEndian(v / 256, n - 1);
      Digit(v, Pow256(n - 1));
      BigEndianRoundTrip(v / 256, n - 1);
    }
  }

  lemma Digit(v: nat, p: nat)
    requires v < 256 * p
    ensures v / 256 < p && 256 * (v / 256) + v % 256 == v
  {}

  lemma {:induction false} BigEndianOfBytes(b: seq<Byte>)
    ensures FromBigEndian(b) < Pow256(|b|)
    ensures BigEndian(FromBigEndian(b), |b|) == b
  {
    if b != [] {
      BigEndianOfBytes(b[..|b| - 1]);
      assert b == b[..|b| - 1] + [b[|b| - 1]];
    }
  }

  lemma LastByte(b: seq<Byte>)
    requires b != []
    ensures FromBigEndian(b) == 256 * FromBigEndian(b[..|b| - 1]) + b[|b| - 1]
  {}

  /** The number of a concatenation is the sum of the shifted front and the back. */
  lemma {:induction false} BigEndianSplit(a: seq<Byte>, b: seq<Byte>)
    ensures FromBigEndian(a + b) == FromBigEndian(a) * Pow256(|b|) + FromBigEndian(b)
  {
    if b == [] {
      assert a + b == a;
    } else {
      hide FromBigEndian;
      var ab := a + b;
      LastByte(ab);
      LastByte(b);
      assert ab[..|ab| - 1] == a + b[..|b| - 1];
      BigEndianSplit(a, b[..|b| - 1]);
      Regroup256(FromBigEndian(a), Pow256(|b| - 1));
    }
  }

  lemma Regroup256(a: nat, p: nat)
    ensures 256 * (a * p) == a * (256 * p)
  {}

  /** to_u64_be: eight rounds of shifting left and or-ing in the next byte. */
  method ToU64Be(b: seq<Byte>) returns (ret: nat)
    requires |b| == 8
    ensures ret == FromBigEndian(b)
  {
    hide BitOr;
    ret := 0;
    var i := 0;
    while i < 8
      invariant 0 <= i <= 8
      invariant ret == FromBigEndian(b[..i])
    {
      assert b[..i + 1][..i] == b[..i];
      BigEndianOfBytes(b[..i]);
      Pow256Bound(i);
      var shifted := Shl(ret, 8, 64);
      ShiftByte(ret);
      OrByte(ret, b[i]);
      ret := BitOr(shifted, b[i]);
      i := i + 1;
    }
    assert b[..8] == b;
  }

  lemma Pow256Bound(i: nat)
    requires i < 8
    ensures Pow256(i) <= 0x100_0000_0000_0000
  {
    assert Pow256(7) == 0x100_0000_0000_0000;
    Pow256Monotone(i, 7);
  }

  lemma {:induction false} Pow256Monotone(m: nat, n: nat)
    requires m <= n
    ensures Pow256(m) <= Pow256(n)
    decreases n - m
  {
    if m < n { Pow256Monotone(m + 1, n); }
  }

  lemma ShiftByte(n: nat)
    requires n < 0x100_0000_0000_0000
    ensures Shl(n, 8, 64) == 256 * n
  {
    assert Pow2(8) == 256;
    Pow2Words();
  }

  lemma OrByte(n: nat, b: Byte)
    ensures BitOr(256 * n, b) == 256 * n + b
  {
    assert Pow2(8) == 256;
    ShiftLeftIsProduct(1, 8);
    ShiftLeftIsProduct(n, 8);
    BitOrDisjoint(b, n, 8);
    BitOrCommutes(256 * n, b);
  }

  lemma {:induction false} BitOrCommutes(a: nat, b: nat)
    ensures BitOr(a, b) == BitOr(b, a)
  {
    if a != 0 || b != 0 { BitOrCommutes(a / 2, b / 2); }
  }

  // ---- Handshake fragments ----

  /** hm_header_st, less frag_len, which is the length of the body. */
  datatype Fragment = Fragment(kind: Byte, msgLen: nat, seqNo: nat, fragOff: nat, body: seq<Byte>)

  datatype ParsedFragment = ParsedFragment(frag: Fragment, rest: seq<Byte>)

  /** The fields fit the widths the header gives them. */
  predicate Fits(f: Fragment)
  {
    f.msgLen < 0x100_0000 && f.seqNo < 0x1_0000 && f.fragOff < 0x100_0000 && |f.body| < 0x100_0000
  }

  function HeaderBytes(kind: Byte, msgLen: nat, seqNo: nat, fragOff: nat, fragLen: nat): (r: seq<Byte>)
    ensures |r| == HM_HEADER
  {
    [kind] + BigEndian(msgLen, 3) + BigEndian(seqNo, 2) + BigEndian(fragOff, 3) + BigEndian(fragLen, 3)
  }

  /** The 12 bytes of the header, as section 4.2.2 of RFC 6347 has them. */
  lemma HeaderLayout(kind: Byte, msgLen: nat, seqNo: nat, fragOff: nat, fragLen: nat)
    requires msgLen < 0x100_0000 && seqNo < 0x1_0000 && fragOff < 0x100_0000 && fragLen < 0x100_0000
    ensures HeaderBytes(kind, msgLen, seqNo, fragOff, fragLen)
         == [kind, msgLen / 0x1_0000, msgLen / 256 % 256, msgLen % 256, seqNo / 256, seqNo % 256,
             fragOff / 0x1_0000, fragOff / 256 % 256, fragOff % 256, fragLen / 0x1_0000, fragLen / 256 % 256, fragLen % 256]
  {
    ThreeBytes(msgLen);
    TwoBytes(seqNo);
    ThreeBytes(fragOff);
    ThreeBytes(fragLen);
  }

  function Serialize(f: Fragment): (r: seq<Byte>)
    ensures |r| == HM_HEADER + |f.body|
  {
    HeaderBytes(f.kind, f.msgLen, f.seqNo, f.fragOff, |f.body|) + f.body
  }

  /** dtls1_parse_fragment. */
  function ParseFragment(cbs: seq<Byte>): Option<ParsedFragment>
  {
    if |cbs| < HM_HEADER then None
    else
      var fragLen := FromBigEndian(cbs[9..12]);
      if |cbs| - HM_HEADER < fragLen then None
      else
        Some(ParsedFragment(
          Fragment(cbs[0], FromBigEndian(cbs[1..4]), FromBigEndian(cbs[4..6]), FromBigEndian(cbs[6..9]),
                   cbs[HM_HEADER..HM_HEADER + fragLen]),
          cbs[HM_HEADER + fragLen..]))
  }

  lemma HeaderParts(kind: Byte, a: nat, b: nat, c: nat, d: nat)
    ensures var h := HeaderBytes(kind, a, b, c, d);
            h[0] == kind && h[1..4] == BigEndian(a, 3) && h[4..6] == BigEndian(b, 2)
            && h[6..9] == BigEndian(c, 3) && h[9..12] == BigEndian(d, 3)
  {
    hide BigEndian;
  }

  lemma ParseOfSerialize(f: Fragment, rest: seq<Byte>)
    requires Fits(f)
    ensures ParseFragment(Serialize(f) + rest) == Some(ParsedFragment(f, rest))
  {
    hide BigEndian, FromBigEndian;
    var cbs := Serialize(f) + rest;
    var h := HeaderBytes(f.kind, f.msgLen, f.seqNo, f.fragOff, |f.body|);
    HeaderParts(f.kind, f.msgLen, f.seqNo, f.fragOff, |f.body|);
    assert cbs[1..4] == h[1..4] && cbs[4..6] == h[4..6] && cbs[6..9] == h[6..9] && cbs[9..12] == h[9..12];
    Widths();
    BigEndianRoundTrip(f.msgLen, 3);
    BigEndianRoundTrip(f.seqNo, 2);
    BigEndianRoundTrip(f.fragOff, 3);
    BigEndianRoundTrip(|f.body|, 3);
    assert cbs[HM_HEADER..HM_HEADER + |f.body|] == f.body;
    assert cbs[HM_HEADER + |f.body|..] == rest;
  }

  lemma Widths()
    ensures Pow256(2) == 0x1_0000 && Pow256(3) == 0x100_0000
  {}

  lemma SerializeOfParse(cbs: seq<Byte>)
    requires ParseFragment(cbs).Some?
    ensures Fits(ParseFragment(cbs).value.frag)
    ensures Serialize(ParseFragment(cbs).value.frag) + ParseFragment(cbs).value.rest == cbs
  {
    hide BigEndian, FromBigEndian;
    var f := ParseFragment(cbs).value.frag;
    Widths();
    BigEndianOfBytes(cbs[1..4]);
    BigEndianOfBytes(cbs[4..6]);
    BigEndianOfBytes(cbs[6..9]);
    BigEndianOfBytes(cbs[9..12]);
    assert cbs == [cbs[0]] + cbs[1..4] + cbs[4..6] + cbs[6..9] + cbs[9..12] + f.body + ParseFragment(cbs).value.rest;
  }
}
