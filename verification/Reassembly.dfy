/** Reassembly of one DTLS handshake message from fragments, with a bit per received byte. */
module Reassembly {
  import opened Bits
  import opened Wire

  /** `x - 1` in a 32-bit unsigned type. */
  function Pred32(x: nat): (r: nat)
    ensures r < Pow2(32)
  {
    (x + Pow2(32) - 1) % Pow2(32)
  }

  /** bit_range: the bits from start up to, not including, end. */
  function BitRange(start: nat, end: nat): (r: Byte)
  {
    BitAnd(Complement(Pred32(Shl(1, start, 32)), 32), Pred32(Shl(1, end, 32))) % 256
  }

  lemma SmallPowers(k: nat)
    requires k <= 8
    ensures Pow2(k) <= 256 < Pow2(32)
  {
    assert Pow2(8) == 256 && Pow2(9) == 512;
    Pow2Monotone(k, 8);
    Pow2Monotone(9, 32);
  }

  lemma PredOfPower(k: nat)
    requires k <= 8
    ensures Pred32(Shl(1, k, 32)) == Pow2(k) - 1 < Pow2(32)
  {
    hide Pow2;
    SmallPowers(k);
    DivUnique(Pow2(k), Pow2(32), 0, Pow2(k));
    DivUnique(Pow2(k) - 1 + Pow2(32), Pow2(32), 1, Pow2(k) - 1);
  }

  lemma BitRangeBits(start: nat, end: nat, i: nat)
    requires start <= 8 && end <= 8
    ensures Bit(BitRange(start, end), i) <==> start <= i < end
  {
    hide BitAnd, Bit, Pow2;
    var low, high := Pow2(start) - 1, Pow2(end) - 1;
    PredOfPower(start);
    PredOfPower(end);
    var both := BitAnd(Complement(low, 32), high);
    BitOfAnd(Complement(low, 32), high, i);
    BitOfOnes(end, i);
    BitOfOnes(start, i);
    Pow2Words();
    if i < 8 {
      BitOfComplement(low, 32, i);
      BitOfRemainder(both, 8, i);
    } else {
      BitsAbove(both % 256, 8, i);
    }
  }

  /** Bits 0 to n - 1 are set. */
  ghost predicate HasBits(b: nat, n: nat) { forall j: nat :: j < n ==> Bit(b, j) }

  lemma FullByte(b: Byte)
    ensures b == 255 <==> HasBits(b, 8)
  {
    hide Pow2;
    Pow2Words();
    var ones := Pow2(8) - 1;
    forall j: nat | j < 8 ensures Bit(ones, j) { BitOfOnes(8, j); }
    if HasBits(b, 8) { SameBits(b, ones, 8); }
  }

  /** A byte with no bit at or above n is the range [0, n) exactly when it has all the bits below n. */
  lemma LowBits(b: Byte, n: nat)
    requires n <= 8
    requires forall j: nat :: n <= j < 8 ==> !Bit(b, j)
    ensures b == BitRange(0, n) <==> HasBits(b, n)
  {
    hide BitRange, Pow2;
    Pow2Words();
    forall j: nat | j < 8 ensures Bit(BitRange(0, n), j) <==> j < n { BitRangeBits(0, n, j); }
    if HasBits(b, n) { SameBits(b, BitRange(0, n), 8); }
  }

  lemma OrRange(b: Byte, s: nat, e: nat)
    requires s <= 8 && e <= 8
    ensures BitOr(b, BitRange(s, e)) < 256
    ensures forall j {:trigger Bit(BitOr(b, BitRange(s, e)), j)} :: 0 <= j < 8 ==>
              (Bit(BitOr(b, BitRange(s, e)), j) <==> Bit(b, j) || s <= j < e)
  {
    hide Bit, BitRange, BitOr, Pow2;
    Pow2Words();
    BitOfOrBound(b, BitRange(s, e), 8);
    forall j: nat | j < 8 ensures Bit(BitOr(b, BitRange(s, e)), j) <==> Bit(b, j) || s <= j < e {
      BitOfOr(b, BitRange(s, e), j);
      BitRangeBits(s, e, j);
    }
  }

  /** A message under reassembly: its bytes so far, header first, and which body bytes have come. */
  datatype Assembly = Assembly(kind: Byte, seqNo: nat, msgLen: nat, data: seq<Byte>, got: set<nat>)

  /** The positions from start up to, not including, end. */
  function Span(start: nat, end: nat): set<nat> { set i: nat | i < end && Between(start, i, end) }

  predicate Between(start: nat, i: nat, end: nat) { start <= i < end }

  /** A message of which nothing but its header is known; the allocated body is taken to be zeros. */
  function Blank(kind: Byte, seqNo: nat, msgLen: nat): Assembly
  {
    Assembly(kind, seqNo, msgLen, HeaderBytes(kind, msgLen, seqNo, 0, msgLen) + seq(msgLen, _ => 0), {})
  }

  /** A fragment's bytes put in their place, unless the message is complete already. */
  ghost function Merge(a: Assembly, f: Fragment): (r: Assembly)
    requires |a.data| == HM_HEADER + a.msgLen && f.fragOff + |f.body| <= a.msgLen
    ensures |r.data| == |a.data|
  {
    if Complete(a) then a
    else a.(data := Overwrite(a.data, HM_HEADER + f.fragOff, f.body),
            got := a.got + Span(f.fragOff, f.fragOff + |f.body|))
  }

  function Overwrite(data: seq<Byte>, at: nat, body: seq<Byte>): (r: seq<Byte>)
    requires at + |body| <= |data|
    ensures |r| == |data|
  {
    data[..at] + body + data[at + |body|..]
  }

  /** Every byte of the body has come. */
  ghost predicate Complete(a: Assembly) { Span(0, a.msgLen) <= a.got }

  ghost function OwnedBits(bits: array?<Byte>): set<object> { if bits == null then {} else {bits} }

  /** hm_fragment. */
  class HmFragment {
    const kind: Byte
    const seqNo: nat
    const msgLen: nat
    const data: array<Byte>
    var reassembly: array?<Byte>

    ghost const Own: set<object>

    ghost predicate Valid()
      reads this, reassembly
    {
      && data.Length == HM_HEADER + msgLen
      && Own >= {this, data} && (reassembly != null ==> reassembly in Own)
      && (reassembly != null ==>
            && (reassembly as object) != data
            && reassembly.Length == (msgLen + 7) / 8
            && NothingBeyond(reassembly[..], msgLen)
            && exists i :: 0 <= i < msgLen && !BitAt(reassembly[..], i))
    }

    /** Byte i of the body has been received. */
    ghost predicate Received(i: nat)
      reads this, reassembly
    {
      i < msgLen && (reassembly == null || BitAt(reassembly[..], i))
    }

    ghost function Value(): (a: Assembly)
      requires Valid()
      reads this, reassembly, data
      ensures a.got <= Span(0, msgLen)
      ensures reassembly == null <==> Complete(a)
    {
      var got := set i: nat | i < msgLen && Received(i);
      assert reassembly != null ==> exists i :: i in Span(0, msgLen) && i !in got by {
        if reassembly != null {
          var i :| 0 <= i < msgLen && !BitAt(reassembly[..], i);
          assert i in Span(0, msgLen);
        }
      }
      Assembly(kind, seqNo, msgLen, data[..], got)
    }

    /** dtls1_hm_fragment_new. */
    constructor (kind: Byte, seqNo: nat, msgLen: nat)
      ensures Valid() && fresh(Own)
      ensures this.kind == kind && this.seqNo == seqNo && this.msgLen == msgLen
      ensures Value() == Blank(kind, seqNo, msgLen)
    {
      var header := HeaderBytes(kind, msgLen, seqNo, 0, msgLen);
      var bytes := new Byte[HM_HEADER + msgLen](i => if 0 <= i < |header| then header[i] else 0);
      assert bytes[..] == Blank(kind, seqNo, msgLen).data;
      var bits: array?<Byte> := null;
      if msgLen > 0 {
        bits := new Byte[(msgLen + 7) / 8](_ => 0);
        NoBits(bits[..]);
      }
      this.kind, this.seqNo, this.msgLen := kind, seqNo, msgLen;
      this.data, this.reassembly := bytes, bits;
      Own := {this, bytes} + OwnedBits(bits);
      new;
      assert msgLen > 0 ==> !BitAt(reassembly[..], 0);
      assert data[..] == Blank(kind, seqNo, msgLen).data && Value().got == {};
    }

    /** `reassembly[k] |= bit_range(s, e)`. */
    method OrInto(k: nat, s: nat, e: nat)
      requires reassembly != null && k < reassembly.Length && s <= 8 && e <= 8
      modifies reassembly
      ensures forall i :: 0 <= i < reassembly.Length && i != k ==> reassembly[i] == old(reassembly[i])
      ensures forall j {:trigger Bit(reassembly[k], j)} :: 0 <= j < 8 ==>
                (Bit(reassembly[k], j) <==> Bit(old(reassembly[k]), j) || s <= j < e)
    {
      hide Bit, BitOr, BitRange;
      OrRange(reassembly[k], s, e);
      reassembly[k] := BitOr(reassembly[k], BitRange(s, e));
    }

    /** The first half of dtls1_hm_fragment_mark: set the bits from start up to, not including, end. */
    method SetBits(start: nat, end: nat)
      requires reassembly != null && start < end <= 8 * reassembly.Length
      modifies reassembly
      ensures forall i: nat :: BitAt(reassembly[..], i) <==> old(BitAt(reassembly[..], i)) || start <= i < end
    {
      hide Bit;
      ghost var before := reassembly[..];
      var first, last := start / 8, end / 8;
      if first == last {
        OrInto(first, start % 8, end % 8);
      } else {
        OrInto(first, start % 8, 8);
        var i := first + 1;
        while i < last
          invariant first < i <= last
          invariant forall k :: 0 <= k < reassembly.Length && !(first <= k < i) ==> reassembly[k] == before[k]
          invariant forall j {:trigger Bit(reassembly[first], j)} :: 0 <= j < 8 ==>
                      (Bit(reassembly[first], j) <==> Bit(before[first], j) || start % 8 <= j)
          invariant forall k :: first < k < i ==> reassembly[k] == 255
        {
          reassembly[i] := 255;
          i := i + 1;
        }
        if end % 8 != 0 {
          OrInto(last, 0, end % 8);
        }
      }
      FullByte(255);
      forall i: nat ensures BitAt(reassembly[..], i) <==> BitAt(before, i) || start <= i < end {
        if i < 8 * reassembly.Length {
          assert Bit(reassembly[i / 8], i % 8) <==> Bit(before[i / 8], i % 8) || start <= i < end;
        }
      }
    }

    /** The second half of dtls1_hm_fragment_mark: whether every bit below msgLen is set. */
    method AllSet() returns (all: bool)
      requires reassembly != null && reassembly.Length == (msgLen + 7) / 8 && NothingBeyond(reassembly[..], msgLen)
      ensures all <==> forall i: nat :: i < msgLen ==> BitAt(reassembly[..], i)
    {
      hide Bit, BitRange;
      var i := 0;
      while i < msgLen / 8
        invariant 0 <= i <= msgLen / 8
        invariant forall n: nat :: n < 8 * i ==> BitAt(reassembly[..], n)
      {
        FullByte(reassembly[i]);
        if reassembly[i] != 255 {
          ghost var j: nat :| j < 8 && !Bit(reassembly[i], j);
          assert !BitAt(reassembly[..], 8 * i + j);
          return false;
        }
        forall n: nat | n < 8 * (i + 1) ensures BitAt(reassembly[..], n) {
          if n >= 8 * i { assert Bit(reassembly[i], n - 8 * i); }
        }
        i := i + 1;
      }
      var r := msgLen % 8;
      if r != 0 {
        var last := reassembly[msgLen / 8];
        forall j: nat | r <= j < 8 ensures !Bit(last, j) {
          assert !BitAt(reassembly[..], msgLen / 8 * 8 + j);
        }
        LowBits(last, r);
        if last != BitRange(0, r) {
          ghost var j: nat :| j < r && !Bit(last, j);
          assert !BitAt(reassembly[..], msgLen / 8 * 8 + j);
          return false;
        }
      }
      forall n: nat | n < msgLen ensures BitAt(reassembly[..], n) {
        if n >= msgLen / 8 * 8 { assert Bit(reassembly[msgLen / 8], n - msgLen / 8 * 8); }
      }
      return true;
    }

    /** dtls1_hm_fragment_mark. A range out of bounds, or of a complete message, changes nothing. */
    method Mark(start: nat, end: nat)
      requires Valid()
      modifies this`reassembly, reassembly
      ensures Valid()
      ensures Value() == if start <= end <= msgLen then old(Value()).(got := old(Value()).got + Span(start, end)) else old(Value())
      ensures reassembly == null || reassembly == old(reassembly)
    {
      if reassembly == null || start > end || end > msgLen {
        assert start <= end <= msgLen ==> Value().got + Span(start, end) == Value().got;
        return;
      }
      if start == end {
        assert Value().got + Span(start, end) == Value().got;
        return;
      }
      ghost var was := reassembly[..];
      SetBits(start, end);
      ghost var bits := reassembly[..];
      var all := AllSet();
      assert reassembly[..] == bits;
      if all { reassembly := null; }
      ghost var before, after := old(Value()).got + Span(start, end), Value().got;
      forall i: nat ensures i in after <==> i in before {
        assert BitAt(bits, i) <==> BitAt(was, i) || start <= i < end;
        assert Received(i) <==> i < msgLen && BitAt(bits, i);
        assert i in old(Value()).got <==> i < msgLen && BitAt(was, i);
      }
      assert after == before;
    }

    /** The memcpy into the message and the mark that follows it. */
    method Add(f: Fragment)
      requires Valid() && f.fragOff + |f.body| <= msgLen
      modifies this`reassembly, reassembly, data
      ensures Valid() && Value() == Merge(old(Value()), f)
      ensures reassembly == null || reassembly == old(reassembly)
    {
      if reassembly == null { return; }
      var at := HM_HEADER + f.fragOff;
      forall i | 0 <= i < |f.body| { data[at + i] := f.body[i]; }
      assert data[..] == Overwrite(old(data[..]), at, f.body);
      Mark(f.fragOff, f.fragOff + |f.body|);
    }
  }

  /** Bit i of a byte string, eight to a byte, lowest first. */
  ghost predicate BitAt(bytes: seq<Byte>, i: nat)
  {
    i / 8 < |bytes| && Bit(bytes[i / 8], i % 8)
  }

  ghost predicate NothingBeyond(bytes: seq<Byte>, n: nat)
  {
    forall i: nat :: n <= i ==> !BitAt(bytes, i)
  }

  lemma NoBits(bytes: seq<Byte>)
    requires forall k :: 0 <= k < |bytes| ==> bytes[k] == 0
    ensures forall i: nat :: !BitAt(bytes, i)
  {
    forall i: nat ensures !BitAt(bytes, i) { BitOfZero(i % 8); }
  }
}
