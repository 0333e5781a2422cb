/** SSLBuffer: bytes waiting between an offset and a size in allocated memory, all counted in 16 bits. */
module SslBuffer {
  import opened Bits

  const ALIGN: nat := 8
  const WORD: nat := 0x1_0000

  /** `size` bytes of the memory from `offset` on. */
  function View(memory: seq<Byte>, offset: nat, size: nat): (r: seq<Byte>)
    requires offset + size <= |memory|
    ensures |r| == size
  {
    memory[offset..offset + size]
  }

  class SSLBuffer {
    var buf: array?<Byte>
    var offset: nat
    var size: nat
    var cap: nat

    ghost predicate Valid()
      reads this, buf
    {
      && size <= cap < WORD && offset < WORD
      && (buf == null ==> cap == 0)
      && (buf != null ==> offset + cap <= buf.Length)
    }

    /** No number of bytes consumed can carry the 16-bit offset round while bytes remain (see InOrderExactly). */
    predicate Straight()
      reads this`offset, this`size
    {
      offset + size <= WORD
    }

    ghost function Contents(): (s: seq<Byte>)
      requires Valid()
      reads this, buf
      ensures |s| == size
    {
      if buf == null then [] else View(buf[..], offset, size)
    }

    ghost function Memory(): seq<Byte>
      reads this`buf, buf
    {
      if buf == null then [] else buf[..]
    }

    constructor ()
      ensures Valid() && Straight() && buf == null && size == 0 && offset == 0
    {
      buf, offset, size, cap := null, 0, 0, 0;
    }

    method Clear()
      modifies this
      ensures Valid() && Straight() && buf == null && size == 0 && offset == 0
    {
      buf, offset, size, cap := null, 0, 0, 0;
    }

    /** Room for newCap bytes in all; `address` is where the allocator puts new memory. */
    method EnsureCap(headerLen: nat, newCap: nat, address: nat) returns (ok: bool)
      requires Valid()
      modifies this
      ensures Valid() && Contents() == old(Contents())
      ensures ok <==> newCap < 0x1_0000
      ensures ok ==> cap >= newCap && (newCap > 0 ==> buf != null)
      ensures size == old(size) && (buf == old(buf) || fresh(buf))
      ensures buf == old(buf) ==> offset == old(offset) && cap == old(cap)
      ensures !ok || old(cap) >= newCap ==> buf == old(buf)
      ensures ok && old(cap) < newCap ==> cap == newCap && offset < ALIGN && (offset + headerLen + address) % ALIGN == 0
                                          && forall i :: 0 <= i < offset ==> buf[i] == 0
    {
      if newCap > 0xffff { return false; }
      if cap >= newCap { return true; }
      var memory := new Byte[newCap + ALIGN - 1](_ => 0);
      var newOffset := (0 - headerLen - address) % ALIGN;
      if buf != null {
        forall i | 0 <= i < size { memory[newOffset + i] := buf[offset + i]; }
        forall i | 0 <= i < size ensures View(memory[..], newOffset, size)[i] == View(buf[..], offset, size)[i] {
          assert memory[newOffset + i] == buf[offset + i];
        }
      }
      buf, offset, cap := memory, newOffset, newCap;
      return true;
    }

    /** Bytes copied to remaining(), and the DidWrite that counts them. */
    method Append(bytes: seq<Byte>)
      requires Valid() && |bytes| <= cap - size
      requires bytes != [] ==> buf != null
      modifies this`size, buf
      ensures Valid() && size == old(size) + |bytes| && Contents() == old(Contents()) + bytes
      ensures buf != null ==> offset <= buf.Length && buf[..offset] == old(buf[..offset])
    {
      if bytes != [] {
        forall i | 0 <= i < |bytes| { buf[offset + size + i] := bytes[i]; }
        size := size + |bytes|;
        assert View(buf[..], offset, size) == old(Contents()) + bytes;
      }
    }

    /** Drop bytes from the front. The offset is a uint16_t. */
    method Consume(len: nat)
      requires Valid() && len <= size
      modifies this`offset, this`size, this`cap
      ensures Valid() && size == old(size) - len && cap == old(cap) - len && offset == (old(offset) + len) % WORD
      ensures buf != null ==> offset + size <= buf.Length && Contents() == View(buf[..], offset, size)
      ensures old(offset) + len < WORD || len == old(size) ==> Contents() == old(Contents())[len..]
      ensures old(Straight()) ==> Straight() && Contents() == old(Contents())[len..]
    {
      offset := (offset + len) % WORD;
      size := size - len;
      cap := cap - len;
    }
  }

  // ---- What is taken from the front, part by part ----

  function Sum(takes: seq<nat>): nat
  {
    if takes == [] then 0 else Sum(takes[..|takes| - 1]) + takes[|takes| - 1]
  }

  /** The bytes that come out when parts of these lengths are taken from the offset on. */
  function Drained(memory: seq<Byte>, offset: nat, takes: seq<nat>): seq<Byte>
  {
    if takes == [] then []
    else
      var before, last := takes[..|takes| - 1], takes[|takes| - 1];
      var at := (offset + Sum(before)) % WORD;
      Drained(memory, offset, before) + (if at + last <= |memory| then View(memory, at, last) else [])
  }

  /** The offset was carried past 2^16 at a moment when bytes were left. */
  predicate Carries(offset: nat, size: nat, takes: seq<nat>)
  {
    takes != []
    && (Carries(offset, size, takes[..|takes| - 1]) || (Sum(takes) < size && offset + Sum(takes) >= WORD))
  }

  lemma TakeOneMore(memory: seq<Byte>, offset: nat, size: nat, takes: seq<nat>, n: nat)
    ensures Sum(takes + [n]) == Sum(takes) + n
    ensures var at := (offset + Sum(takes)) % WORD;
            at + n <= |memory| ==> Drained(memory, offset, takes + [n]) == Drained(memory, offset, takes) + View(memory, at, n)
    ensures Carries(offset, size, takes + [n])
            <==> Carries(offset, size, takes) || (Sum(takes) + n < size && offset + Sum(takes) + n >= WORD)
  {
    assert (takes + [n])[..|takes|] == takes;
  }

  lemma TakeNothing(memory: seq<Byte>, offset: nat, size: nat)
    ensures Sum([]) == 0 && Drained(memory, offset, []) == [] && !Carries(offset, size, [])
  {}

  lemma LastTake(memory: seq<Byte>, offset: nat, size: nat, takes: seq<nat>)
    requires takes != []
    ensures var before, last := takes[..|takes| - 1], takes[|takes| - 1];
            && Sum(takes) == Sum(before) + last
            && (Carries(offset, size, before) ==> Carries(offset, size, takes))
            && (last == 0 ==> Drained(memory, offset, takes) == Drained(memory, offset, before))
            && (offset + Sum(before) < WORD && offset + Sum(before) + last <= |memory| ==>
                  Drained(memory, offset, takes) == Drained(memory, offset, before) + View(memory, offset + Sum(before), last))
  {
    hide View;
    var before := takes[..|takes| - 1];
    if offset + Sum(before) < WORD { BelowWord(offset + Sum(before)); }
  }

  lemma BelowWord(n: nat)
    requires n < WORD
    ensures n % WORD == n
  {}

  lemma ViewsJoin(memory: seq<Byte>, offset: nat, n: nat, more: nat)
    requires offset + n + more <= |memory|
    ensures View(memory, offset, n) + View(memory, offset + n, more) == View(memory, offset, n + more)
  {}

  /** Without a carry the parts are taken in order. */
  lemma {:induction false} NoCarryInOrder(memory: seq<Byte>, offset: nat, size: nat, takes: seq<nat>)
    requires offset < WORD && offset + size <= |memory| && Sum(takes) <= size && !Carries(offset, size, takes)
    ensures Drained(memory, offset, takes) == View(memory, offset, Sum(takes))
  {
    hide Drained, Sum, Carries, View;
    if takes == [] {
      TakeNothing(memory, offset, size);
    } else {
      var before, last := takes[..|takes| - 1], takes[|takes| - 1];
      LastTake(memory, offset, size, takes);
      NoCarryInOrder(memory, offset, size, before);
      if last > 0 {
        StaysBelow(offset, size, before);
        ViewsJoin(memory, offset, Sum(before), last);
      }
    }
  }

  lemma StaysBelow(offset: nat, size: nat, takes: seq<nat>)
    requires offset < WORD && Sum(takes) < size && !Carries(offset, size, takes)
    ensures offset + Sum(takes) < WORD
  {}

  lemma {:induction false} StraightNeverCarries(offset: nat, size: nat, takes: seq<nat>)
    requires offset + size <= WORD
    ensures !Carries(offset, size, takes)
  {
    if takes != [] { StraightNeverCarries(offset, size, takes[..|takes| - 1]); }
  }

  /** All of the memory from the offset on comes out in order, in whatever parts it is taken. */
  ghost predicate AlwaysInOrder(offset: nat, size: nat)
  {
    forall memory: seq<Byte>, takes: seq<nat> :: |memory| == offset + size && Sum(takes) == size ==>
      Drained(memory, offset, takes) == memory[offset..]
  }

  /**
   * The condition is on the offset and the number of bytes, whatever the capacity: with one byte more, taking
   * all but the last byte and then that one gives another byte.
   */
  lemma InOrderExactly(offset: nat, size: nat)
    requires offset < WORD && size < WORD
    ensures AlwaysInOrder(offset, size) <==> offset + size <= WORD
  {
    if offset + size <= WORD {
      forall memory: seq<Byte>, takes: seq<nat> | |memory| == offset + size && Sum(takes) == size
        ensures Drained(memory, offset, takes) == memory[offset..]
      {
        StraightNeverCarries(offset, size, takes);
        NoCarryInOrder(memory, offset, size, takes);
      }
    } else {
      var memory: seq<Byte> := seq(offset + size, i => if i == offset + size - 1 then 1 else 0);
      var takes: seq<nat> := [size - 1, 1];
      OutOfOrder(memory, offset, size);
      assert memory[offset..][size - 1] == 1;
      assert Sum(takes) == size && Drained(memory, offset, takes)[size - 1] == 0;
    }
  }

  lemma OutOfOrder(memory: seq<Byte>, offset: nat, size: nat)
    requires offset < WORD && 0 < size < WORD < offset + size <= |memory|
    ensures Sum([size - 1, 1]) == size
    ensures var d := Drained(memory, offset, [size - 1, 1]);
            |d| == size && d[size - 1] == memory[offset + size - 1 - WORD]
  {
    hide Drained, Sum, Carries, View;
    TakeNothing(memory, offset, size);
    BelowWord(offset);
    TakeOneMore(memory, offset, size, [], size - 1);
    assert [] + [size - 1] == [size - 1];
    TakeOneMore(memory, offset, size, [size - 1], 1);
    assert [size - 1] + [1] == [size - 1, 1];
    var at := offset + size - 1 - WORD;
    PastWord(at);
    ViewOfOne(memory, at);
  }

  lemma PastWord(n: nat)
    requires n < WORD
    ensures (n + WORD) % WORD == n
  {}

  lemma ViewOfOne(memory: seq<Byte>, at: nat)
    requires at < |memory|
    ensures View(memory, at, 1) == [memory[at]]
  {}
}
