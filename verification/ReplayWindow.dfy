/** The anti-replay window of a DTLS connection: a 64-bit map below a maximum. */
module ReplayWindow {
  import opened Bits
  import opened Wire

  const WINDOW: nat := 64

  /** DTLS1_BITMAP, with the set of numbers recorded since it was cleared. */
  class Bitmap {
    var bits: nat
    var maxSeqNum: nat
    ghost var recorded: set<nat>

    /** Bit i stands for maxSeqNum - i. */
    ghost predicate Valid()
      reads this
    {
      && bits < Pow2(WINDOW)
      && (forall s :: s in recorded ==> s <= maxSeqNum)
      && (maxSeqNum in recorded || maxSeqNum == 0)
      && (forall i {:trigger Bit(bits, i)} :: 0 <= i < WINDOW ==>
            (Bit(bits, i) <==> i <= maxSeqNum && maxSeqNum - i in recorded))
    }

    constructor ()
      ensures Valid() && recorded == {}
    {
      bits, maxSeqNum, recorded := 0, 0, {};
      new;
      Zero(this.bits);
    }

    /** The memset at an epoch change. */
    method Clear()
      modifies this
      ensures Valid() && recorded == {}
    {
      bits, maxSeqNum, recorded := 0, 0, {};
      Zero(bits);
    }

    /** dtls1_bitmap_should_discard. */
    method ShouldDiscard(seqNum: seq<Byte>) returns (discard: bool)
      requires Valid() && |seqNum| == 8
      ensures var n := FromBigEndian(seqNum);
              discard <==> n in recorded || n + 64 <= maxSeqNum
    {
      hide BitAnd, Pow2;
      var n := ToU64Be(seqNum);
      if n > maxSeqNum {
        return false;
      }
      var idx := maxSeqNum - n;
      if idx >= WINDOW { return true; }
      TestBit(bits, idx);
      discard := BitAnd(bits, Shl(1, idx, WINDOW)) != 0;
      assert Bit(bits, idx) <==> maxSeqNum - idx in recorded;
    }

    /** dtls1_bitmap_record. */
    method Record(seqNum: seq<Byte>)
      requires Valid() && |seqNum| == 8
      modifies this
      ensures Valid() && recorded == old(recorded) + {FromBigEndian(seqNum)}
      ensures maxSeqNum == if FromBigEndian(seqNum) > old(maxSeqNum) then FromBigEndian(seqNum) else old(maxSeqNum)
    {
      hide BitOr, Pow2, Bit, Shl;
      var n := ToU64Be(seqNum);
      if n > maxSeqNum {
        var shift := n - maxSeqNum;
        Slide(bits, shift);
        if shift >= WINDOW {
          bits := 0;
        } else {
          bits := Shl(bits, shift, WINDOW);
        }
        maxSeqNum := n;
      }
      var idx := maxSeqNum - n;
      if idx < WINDOW {
        SetBit(bits, idx);
        bits := BitOr(bits, Shl(1, idx, WINDOW));
      }
      recorded := recorded + {n};
    }
  }

  lemma Zero(z: nat)
    requires z == 0
    ensures z < Pow2(WINDOW) && forall i {:trigger Bit(z, i)} :: 0 <= i < WINDOW ==> !Bit(z, i)
  {
    forall i: nat ensures !Bit(z, i) { BitOfZero(i); }
  }

  lemma MaskFits(idx: nat)
    requires idx < WINDOW
    ensures Shl(1, idx, WINDOW) == Pow2(idx)
  {
    hide Pow2;
    Pow2Strict(idx, WINDOW);
  }

  lemma {:induction false} Pow2Strict(m: nat, n: nat)
    requires m < n
    ensures Pow2(m) < Pow2(n)
    decreases n - m
  {
    if m + 1 < n { Pow2Strict(m + 1, n); }
  }

  lemma TestBit(bits: nat, idx: nat)
    requires bits < Pow2(WINDOW) && idx < WINDOW
    ensures BitAnd(bits, Shl(1, idx, WINDOW)) != 0 <==> Bit(bits, idx)
  {
    hide BitAnd, Shl, Pow2, Bit;
    MaskFits(idx);
    var masked := BitAnd(bits, Pow2(idx));
    forall i: nat ensures Bit(masked, i) <==> Bit(bits, i) && i == idx {
      BitOfAnd(bits, Pow2(idx), i);
      BitOfMask(idx, i);
    }
    BitOfZero(idx);
    if masked != 0 { var i := SomeBit(masked); }
  }

  lemma {:induction false} SomeBit(n: nat) returns (i: nat)
    requires n != 0
    ensures Bit(n, i)
  {
    if n % 2 == 1 { i := 0; } else {
      var j := SomeBit(n / 2);
      i := j + 1;
    }
  }

  lemma SetBit(bits: nat, idx: nat)
    requires bits < Pow2(WINDOW) && idx < WINDOW
    ensures var r := BitOr(bits, Shl(1, idx, WINDOW));
            r < Pow2(WINDOW) && forall i {:trigger Bit(r, i)} :: 0 <= i < WINDOW ==> (Bit(r, i) <==> Bit(bits, i) || i == idx)
  {
    hide BitOr, Shl, Pow2, Bit;
    MaskFits(idx);
    Pow2Strict(idx, WINDOW);
    BitOfOrBound(bits, Pow2(idx), WINDOW);
    forall i: nat ensures Bit(BitOr(bits, Pow2(idx)), i) <==> Bit(bits, i) || i == idx {
      BitOfOr(bits, Pow2(idx), i);
      BitOfMask(idx, i);
    }
  }

  /** Sliding by `shift` moves the bit of a number to its distance from the new maximum. */
  lemma Slide(bits: nat, shift: nat)
    requires bits < Pow2(WINDOW)
    ensures var r := if shift >= WINDOW then 0 else Shl(bits, shift, WINDOW);
            r < Pow2(WINDOW)
            && forall i {:trigger Bit(r, i)} :: 0 <= i < WINDOW ==> (Bit(r, i) <==> shift <= i && Bit(bits, i - shift))
  {
    hide Shl, Pow2, Bit;
    forall i: nat | i < WINDOW ensures shift < WINDOW ==> (Bit(Shl(bits, shift, WINDOW), i) <==> shift <= i && Bit(bits, i - shift)) {
      if shift < WINDOW { BitOfShl(bits, shift, WINDOW, i); }
    }
    forall i: nat ensures !Bit(0, i) { BitOfZero(i); }
  }
}
