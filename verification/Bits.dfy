/** Bytes, options, and the bit operations of C unsigned integers on `nat`. */
module Bits {

  datatype Option<+T> = None | Some(value: T)

  type Byte = b: int | 0 <= b < 0x100

  /** n zero bytes. */
  function Zeros(n: nat): (r: seq<Byte>)
    ensures |r| == n && forall k :: 0 <= k < n ==> r[k] == 0
  {
    seq(n, k => 0)
  }

  const TWO_31: nat := 0x8000_0000
  const TWO_32: nat := 0x1_0000_0000
  const TWO_63: nat := 0x8000_0000_0000_0000
  const TWO_64: nat := 0x1_0000_0000_0000_0000

  /** 2 to the power n. */
  function Pow2(n: nat): (p: nat)
    ensures p > 0
  {
    if n == 0 then 1 else 2 * Pow2(n - 1)
  }

  /** x << n without loss of bits. */
  function ShiftLeft(x: nat, n: nat): nat
  {
    if n == 0 then x else 2 * ShiftLeft(x, n - 1)
  }

  lemma {:induction false} ShiftLeftIsProduct(x: nat, n: nat)
    ensures ShiftLeft(x, n) == x * Pow2(n)
  {
    if n > 0 {
      ShiftLeftIsProduct(x, n - 1);
      DoubleProduct(x, Pow2(n - 1));
    }
  }

  lemma DoubleProduct(x: nat, p: nat)
    ensures 2 * (x * p) == x * (2 * p)
  {}

  lemma {:induction false} Pow2Add(m: nat, n: nat)
    ensures Pow2(m + n) == Pow2(m) * Pow2(n)
  {
    if m > 0 {
      Pow2Add(m - 1, n);
      assert Pow2(m + n) == 2 * Pow2(m - 1 + n);
    }
  }

  lemma Pow2Words()
    ensures Pow2(8) == 0x100 && Pow2(16) == 0x1_0000 && Pow2(32) == TWO_32 && Pow2(64) == TWO_64
  {
    assert Pow2(8) == 0x100;
    {
      hide Pow2;
      Pow2Add(8, 8);
      Pow2Add(16, 16);
      Pow2Add(32, 32);
    }
  }

  lemma {:induction false} Pow2Monotone(m: nat, n: nat)
    requires m <= n
    ensures Pow2(m) <= Pow2(n)
    decreases n - m
  {
    if m < n {
      Pow2Monotone(m + 1, n);
    }
  }

  /** Bitwise or of two non-negative integers. */
  function BitOr(a: nat, b: nat): nat
  {
    if a == 0 && b == 0 then 0
    else 2 * BitOr(a / 2, b / 2) + (if a % 2 == 1 || b % 2 == 1 then 1 else 0)
  }

  /** The value of `a | (x << k)` when a has no bit at or above k: nothing overlaps, so it is a sum. */
  lemma {:induction false} BitOrDisjoint(a: nat, x: nat, k: nat)
    requires a < ShiftLeft(1, k)
    ensures BitOr(a, ShiftLeft(x, k)) == a + ShiftLeft(x, k)
  {
    if k == 0 {
      BitOrZero(x);
    } else {
      BitOrDisjoint(a / 2, x, k - 1);
    }
  }

  lemma {:induction false} BitOrZero(b: nat)
    ensures BitOr(0, b) == b
  {
    if b > 0 {
      BitOrZero(b / 2);
    }
  }

  // ---- Single bits ----

  /** Bit i of n. */
  predicate Bit(n: nat, i: nat)
  {
    if i == 0 then n % 2 == 1 else Bit(n / 2, i - 1)
  }

  /** Bitwise and of two non-negative integers. */
  function BitAnd(a: nat, b: nat): nat
  {
    if a == 0 || b == 0 then 0
    else 2 * BitAnd(a / 2, b / 2) + (if a % 2 == 1 && b % 2 == 1 then 1 else 0)
  }

  /** Complement in an unsigned type of the given width. */
  function Complement(n: nat, width: nat): nat
    requires n < Pow2(width)
  {
    Pow2(width) - 1 - n
  }

  /** `n << s`, keeping `width` bits. */
  function Shl(n: nat, s: nat, width: nat): (r: nat)
    ensures r < Pow2(width)
  {
    (n * Pow2(s)) % Pow2(width)
  }

  lemma {:induction false} BitOfZero(i: nat)
    ensures !Bit(0, i)
  {
    if i > 0 { BitOfZero(i - 1); }
  }

  lemma BitOrHalf(a: nat, b: nat)
    ensures BitOr(a, b) / 2 == BitOr(a / 2, b / 2)
    ensures BitOr(a, b) % 2 == 1 <==> a % 2 == 1 || b % 2 == 1
  {}

  lemma {:induction false} BitOfOr(a: nat, b: nat, i: nat)
    ensures Bit(BitOr(a, b), i) <==> Bit(a, i) || Bit(b, i)
  {
    hide BitOr;
    BitOrHalf(a, b);
    if i > 0 { BitOfOr(a / 2, b / 2, i - 1); }
  }

  lemma {:induction false} BitOfAnd(a: nat, b: nat, i: nat)
    ensures Bit(BitAnd(a, b), i) <==> Bit(a, i) && Bit(b, i)
  {
    if a == 0 || b == 0 {
      BitOfZero(i);
    } else if i > 0 {
      assert BitAnd(a, b) / 2 == BitAnd(a / 2, b / 2);
      BitOfAnd(a / 2, b / 2, i - 1);
    }
  }

  lemma {:induction false} BitOfMask(k: nat, i: nat)
    ensures Bit(Pow2(k), i) <==> i == k
  {
    if k == 0 {
      if i > 0 { BitOfZero(i - 1); }
    } else if i > 0 {
      assert Pow2(k) / 2 == Pow2(k - 1);
      BitOfMask(k - 1, i - 1);
    }
  }

  lemma {:induction false} BitsAbove(n: nat, width: nat, i: nat)
    requires n < Pow2(width) && width <= i
    ensures !Bit(n, i)
  {
    if i > 0 && width > 0 {
      BitsAbove(n / 2, width - 1, i - 1);
    } else {
      BitOfZero(i);
    }
  }

  lemma {:induction false} BitOfComplement(n: nat, width: nat, i: nat)
    requires n < Pow2(width) && i < width
    ensures Bit(Complement(n, width), i) <==> !Bit(n, i)
  {
    if i > 0 {
      assert Complement(n, width) / 2 == Complement(n / 2, width - 1);
      BitOfComplement(n / 2, width - 1, i - 1);
    }
  }

  /** Two integers of the same width with the same bits are equal. */
  lemma {:induction false} SameBits(a: nat, b: nat, width: nat)
    requires a < Pow2(width) && b < Pow2(width)
    requires forall i :: 0 <= i < width ==> (Bit(a, i) <==> Bit(b, i))
    ensures a == b
  {
    if width > 0 {
      assert Bit(a, 0) <==> Bit(b, 0);
      forall i | 0 <= i < width - 1 ensures Bit(a / 2, i) <==> Bit(b / 2, i) {
        assert Bit(a, i + 1) <==> Bit(b, i + 1);
      }
      SameBits(a / 2, b / 2, width - 1);
    }
  }

  /** The bits of 2^k - 1 are those below k. */
  lemma {:induction false} BitOfOnes(k: nat, i: nat)
    ensures Bit(Pow2(k) - 1, i) <==> i < k
  {
    if k == 0 {
      BitOfZero(i);
    } else if i > 0 {
      assert (Pow2(k) - 1) / 2 == Pow2(k - 1) - 1;
      BitOfOnes(k - 1, i - 1);
    }
  }

  lemma {:induction false} BitOfOrBound(a: nat, b: nat, width: nat)
    requires a < Pow2(width) && b < Pow2(width)
    ensures BitOr(a, b) < Pow2(width)
  {
    if width > 0 && (a > 0 || b > 0) {
      BitOfOrBound(a / 2, b / 2, width - 1);
    }
  }

  /** Multiplying by 2^s moves bit i to bit i + s. */
  lemma {:induction false} BitOfProduct(n: nat, s: nat, i: nat)
    ensures Bit(n * Pow2(s), i) <==> s <= i && Bit(n, i - s)
  {
    if s == 0 {
      assert n * Pow2(0) == n;
    } else {
      var h := n * Pow2(s - 1);
      assert n * Pow2(s) == 2 * h;
      if i > 0 { BitOfProduct(n, s - 1, i - 1); }
    }
  }

  lemma {:induction false} BitOfRemainder(n: nat, width: nat, i: nat)
    requires i < width
    ensures Bit(n % Pow2(width), i) <==> Bit(n, i)
  {
    HalfRemainder(n, Pow2(width - 1));
    if i > 0 {
      BitOfRemainder(n / 2, width - 1, i - 1);
    }
  }

  lemma HalfRemainder(n: nat, p: nat)
    requires p > 0
    ensures (n % (2 * p)) % 2 == n % 2 && n % (2 * p) / 2 == (n / 2) % p
  {
    var q, r := n / 2 / p, (n / 2) % p;
    assert n / 2 == p * q + r;
    var w := n % 2 + 2 * r;
    Regroup(p, q);
    assert n == q * (2 * p) + w;
    DivUnique(n, 2 * p, q, w);
  }

  lemma Regroup(p: nat, q: nat)
    ensures 2 * (p * q) == q * (2 * p)
  {}

  lemma Distribute(a: int, b: int, p: int)
    ensures (a + b) * p == a * p + b * p
  {}

  lemma MulGe(a: nat, d: nat)
    requires a >= 1
    ensures a * d >= d
  {}

  lemma DivUnique(v: nat, d: nat, q: nat, w: nat)
    requires d > 0 && w < d && v == q * d + w
    ensures v % d == w
  {
    var q', w' := v / d, v % d;
    assert v == q' * d + w' by { assert v == d * q' + w'; }
    if q' > q {
      MulGe(q' - q, d);
      Distribute(q, q' - q, d);
      assert false;
    } else if q' < q {
      MulGe(q - q', d);
      Distribute(q', q - q', d);
      assert false;
    }
  }

  lemma Quotient(v: nat, d: nat, q: nat, w: nat)
    requires d > 0 && w < d && v == q * d + w
    ensures v / d == q
  {
    DivUnique(v, d, q, w);
    var x := v / d;
    assert v == x * d + w by { assert v == d * x + v % d; }
    if x > q {
      MulGe(x - q, d);
      Distribute(q, x - q, d);
    } else if x < q {
      MulGe(q - x, d);
      Distribute(x, q - x, d);
    }
  }

  /** Bit i of `n << s`. */
  lemma BitOfShl(n: nat, s: nat, width: nat, i: nat)
    requires i < width
    ensures Bit(Shl(n, s, width), i) <==> s <= i && Bit(n, i - s)
  {
    BitOfRemainder(n * Pow2(s), width, i);
    BitOfProduct(n, s, i);
  }
}
