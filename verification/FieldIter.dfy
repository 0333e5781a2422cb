/** The incremental, cyclic field iterator (pb_common.c) and the set of required fields seen. */
module FieldIter {
  import opened Bits
  import opened Descriptor
  import opened DecodeSpec

  // ---- Absolute offsets ----

  /** data_offset was generated from the members' offsets by PB_DATAOFFSET_FIRST, _OTHER or _UNION. */
  predicate Generated(fields: seq<Field>, offsets: seq<nat>)
  {
    && |offsets| == |fields|
    && (fields != [] ==> fields[0].dataOffset == offsets[0])
    && forall i :: 0 < i < |fields| ==>
         if SharesUnion(fields[i - 1], fields[i]) then offsets[i] == offsets[i - 1]
         else fields[i].dataOffset == offsets[i] - offsets[i - 1] - EntrySize(fields[i - 1])
  }

  /** The accumulated position is the member's offset, through arrays, pointers and unions. */
  lemma {:induction false} DataPosIsOffset(fields: seq<Field>, offsets: seq<nat>, i: nat)
    requires Generated(fields, offsets) && i < |fields|
    ensures DataPos(fields, i) == offsets[i]
  {
    if i > 0 {
      DataPosIsOffset(fields, offsets, i - 1);
    }
  }

  predicate Matches(f: Field, tag: nat) { f.tag == tag && f.ltype != LExtension }

  /** pb_field_iter_t over a descriptor and a struct. */
  class Iterator {
    const start: seq<Field>
    const dest: int
    var pos: nat
    var pData: int
    var pSize: int
    var requiredIndex: nat

    /** The position agrees with the plain table; an empty message stays at its terminator. */
    ghost predicate Valid()
      reads this
    {
      && (forall i :: 0 <= i < |start| ==> start[i].tag > 0) && UnionsAgree(start)
      && (if start == [] then pos == 0 && requiredIndex == 0
          else
            && pos < |start|
            && pData == dest + DataPos(start, pos)
            && pSize == dest + SizePos(start, pos)
            && requiredIndex == RequiredBefore(start, pos))
    }

    function Tag(): nat
      reads this
    {
      if pos < |start| then start[pos].tag else 0
    }

    /** pb_field_iter_begin: the result says whether there is any field. */
    constructor (fields: seq<Field>, dest: int)
      requires (forall i :: 0 <= i < |fields| ==> fields[i].tag > 0) && UnionsAgree(fields)
      ensures Valid() && start == fields && this.dest == dest && pos == 0
    {
      start := fields;
      this.dest := dest;
      pos := 0;
      requiredIndex := 0;
      pData := dest + if fields == [] then 0 else fields[0].dataOffset;
      pSize := dest + if fields == [] then 0 else fields[0].dataOffset + fields[0].sizeOffset;
    }

    method Rewind()
      requires (forall i :: 0 <= i < |start| ==> start[i].tag > 0) && UnionsAgree(start)
      modifies this
      ensures Valid() && pos == 0
    {
      pos := 0;
      requiredIndex := 0;
      pData := dest + if start == [] then 0 else start[0].dataOffset;
      pSize := dest + if start == [] then 0 else start[0].dataOffset + start[0].sizeOffset;
    }

    /** pb_field_iter_next: step to the next field, or wrap around and return false. */
    method Next() returns (more: bool)
      requires Valid()
      modifies this
      ensures Valid()
      ensures more <==> old(pos) + 1 < |start|
      ensures pos == if more then old(pos) + 1 else 0
    {
      if Tag() == 0 {
        return false;
      }
      var prev := start[pos];
      pos := pos + 1;
      if Tag() == 0 {
        Rewind();
        return false;
      }
      if SharesUnion(prev, start[pos]) {
        return true;
      }
      var prevSize := prev.dataSize;
      if prev.atype == Static && prev.htype == Repeated {
        prevSize := prevSize * prev.arraySize;
      } else if prev.atype == Pointer {
        prevSize := SIZEOF_POINTER;
      }
      if prev.htype == Required {
        requiredIndex := requiredIndex + 1;
      }
      pData := pData + prevSize + start[pos].dataOffset;
      pSize := pData + start[pos].sizeOffset;
      return true;
    }

    /** pb_field_iter_find: search cyclically from the current field. */
    method Find(tag: nat) returns (found: bool)
      requires Valid()
      modifies this
      ensures Valid()
      ensures tag > 0 ==> (found <==> exists i :: 0 <= i < |start| && Matches(start[i], tag))
      ensures tag == 0 ==> (found <==> start == [])
      ensures found && tag > 0 ==> pos < |start| && Matches(start[pos], tag)
      ensures !found ==> pos == old(pos)
    {
      hide DataPos, SizePos, RequiredBefore, UnionsAgree;
      var first := pos;
      ghost var wrapped := false;
      while true
        invariant Valid() && (start == [] ==> first == 0) && (start != [] ==> first < |start|)
        invariant if wrapped then pos < first else first <= pos
        invariant forall k :: first <= k < |start| && (wrapped || k < pos) ==> !Matches(start[k], tag)
        invariant wrapped ==> forall k :: 0 <= k < pos ==> !Matches(start[k], tag)
        decreases if wrapped then first - pos else |start| - pos + first + 1
      {
        if Tag() == tag && (pos == |start| || start[pos].ltype != LExtension) {
          return true;
        }
        var more := Next();
        wrapped := wrapped || !more;
        if pos == first {
          break;
        }
      }
      return false;
    }
  }

  // ---- Required fields seen, packed into 32-bit words ----

  const WORDS: nat := PB_MAX_REQUIRED_FIELDS / 32

  /** The set held by the words: element k is bit k % 32 of word k / 32. */
  ghost predicate InWords(words: seq<nat>, k: nat) { k / 32 < |words| && Bit(words[k / 32], k % 32) }

  ghost predicate LowBits(w: nat, r: nat) { forall j: nat :: j < r ==> Bit(w, j) }

  lemma OnesAreAllBits(w: nat, r: nat)
    requires r <= 32 && w < TWO_32 && forall i: nat :: r <= i < 32 ==> !Bit(w, i)
    ensures w == Pow2(r) - 1 <==> LowBits(w, r)
  {
    Pow2Words();
    Pow2Monotone(r, 32);
    var ones := Pow2(r) - 1;
    forall i: nat ensures Bit(ones, i) <==> i < r { BitOfOnes(r, i); }
    if LowBits(w, r) {
      SameBits(w, ones, 32);
    }
  }

  /** allbits >> k has its 32 - k low bits set. */
  lemma ShiftedOnes(k: nat)
    requires k <= 32
    ensures (TWO_32 - 1) / Pow2(k) == Pow2(32 - k) - 1
  {
    Pow2Words();
    Pow2Add(k, 32 - k);
    OnesQuotient(Pow2(k), Pow2(32 - k));
  }

  lemma OnesQuotient(p: nat, q: nat)
    requires p > 0 && q > 0
    ensures (p * q - 1) / p == q - 1
  {
    Distribute(q, -1, p);
    assert p * q - 1 == (q - 1) * p + (p - 1);
    Quotient(p * q - 1, p, q - 1, p - 1);
  }

  /** The local `fields_seen` of pb_decode_noinit. */
  class FieldsSeen {
    const words: array<nat>

    ghost predicate Valid()
      reads this, words
    {
      words.Length == WORDS && forall i :: 0 <= i < WORDS ==> words[i] < TWO_32
    }

    /** Exactly the members of `seen` are in the words. */
    ghost predicate Holds(seen: set<nat>)
      reads this, words
      requires Valid()
    {
      (forall k: nat :: k in seen ==> k < PB_MAX_REQUIRED_FIELDS)
      && forall k: nat :: k < PB_MAX_REQUIRED_FIELDS ==> (InWords(words[..], k) <==> k in seen)
    }

    constructor ()
      ensures Valid() && fresh(words) && Holds({})
    {
      words := new nat[WORDS](i => 0);
      new;
      forall k: nat | k < PB_MAX_REQUIRED_FIELDS ensures !InWords(words[..], k) { BitOfZero(k % 32); }
    }

    method Mark(k: nat, ghost seen: set<nat>)
      requires Valid() && Holds(seen) && k < PB_MAX_REQUIRED_FIELDS
      modifies words
      ensures Valid() && Holds(seen + {k})
    {
      var tmp := Pow2(k % 32);
      Pow2Words();
      Pow2Monotone(k % 32 + 1, 32);
      BitOfOrBound(words[k / 32], tmp, 32);
      ghost var before := words[..];
      words[k / 32] := BitOr(words[k / 32], tmp);
      forall j: nat | j < PB_MAX_REQUIRED_FIELDS
        ensures InWords(words[..], j) <==> InWords(before, j) || j == k
      {
        if j / 32 == k / 32 {
          BitOfOr(before[k / 32], tmp, j % 32);
          BitOfMask(k % 32, j % 32);
        }
      }
    }

    /** The word-wise test that the first n required fields were all seen, given that no other was. */
    method Complete(n: nat, ghost seen: set<nat>) returns (ok: bool)
      requires Valid() && Holds(seen) && n <= PB_MAX_REQUIRED_FIELDS
      requires forall k :: k in seen ==> k < n
      ensures ok <==> forall k :: 0 <= k < n ==> k in seen
    {
      var i := 0;
      while i < n / 32
        invariant 0 <= i <= n / 32
        invariant forall k :: 0 <= k < 32 * i ==> k in seen
      {
        WordBits(i, 32, n, seen);
        if words[i] != TWO_32 - 1 {
          return false;
        }
        i := i + 1;
      }
      if n % 32 != 0 {
        WordBits(n / 32, n % 32, n, seen);
        ShiftedOnes(32 - n % 32);
        if words[n / 32] != (TWO_32 - 1) / Pow2(32 - n % 32) {
          return false;
        }
      }
      return true;
    }

    /** Word i is all ones in its r low bits exactly when elements 32 i to 32 i + r are in the set. */
    lemma WordBits(i: nat, r: nat, n: nat, seen: set<nat>)
      requires Valid() && Holds(seen) && 32 * i + r <= n <= PB_MAX_REQUIRED_FIELDS && 0 < r <= 32
      requires r == 32 || 32 * i + r == n
      requires forall k :: k in seen ==> k < n
      ensures words[i] == Pow2(r) - 1 <==> forall k :: 32 * i <= k < 32 * i + r ==> k in seen
      ensures r == 32 ==> Pow2(r) == TWO_32
    {
      hide Pow2;
      Pow2Words();
      var w := words[i];
      forall j: nat | j < 32 ensures Bit(w, j) <==> 32 * i + j in seen {
        assert InWords(words[..], 32 * i + j) <==> 32 * i + j in seen;
      }
      OnesAreAllBits(w, r);
      if LowBits(w, r) {
        forall k | 32 * i <= k < 32 * i + r ensures k in seen { assert Bit(w, k - 32 * i); }
      }
    }
  }
}
