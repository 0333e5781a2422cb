/** The write path of a TLS connection: a pending flight, a write buffer and a remembered pending write. */
module TlsWriter {
  import opened Bits
  import opened SslBuffer
  import opened Wire

  const MAX_PLAIN: nat := 16384
  const INT_MAX: nat := 0x7fff_ffff

  /** A record as it was sealed, with the number of the sealing call. */
  datatype SealedRecord = SealedRecord(n: nat, kind: Byte, text: seq<Byte>, bytes: seq<Byte>)

  /** The sealed bytes, in sealing order. */
  function Bytes(list: seq<SealedRecord>): seq<Byte>
  {
    if list == [] then [] else Bytes(list[..|list| - 1]) + list[|list| - 1].bytes
  }

  /** The plaintext sealed under one record type, in sealing order. */
  function TextOf(kind: Byte, list: seq<SealedRecord>): seq<Byte>
  {
    if list == [] then []
    else TextOf(kind, list[..|list| - 1]) + (if list[|list| - 1].kind == kind then list[|list| - 1].text else [])
  }

  lemma OneMore(list: seq<SealedRecord>, r: SealedRecord, kind: Byte)
    ensures Bytes(list + [r]) == Bytes(list) + r.bytes
    ensures TextOf(kind, list + [r]) == TextOf(kind, list) + (if r.kind == kind then r.text else [])
  {
    assert (list + [r])[..|list|] == list;
  }

  /** What is on the wire, then in the buffer, then left of the flight, is all that was sealed. */
  ghost predicate Fifo(out: seq<Byte>, buffered: seq<Byte>, flight: seq<Byte>, offset: nat, sealed: seq<SealedRecord>)
  {
    offset <= |flight| && out + buffered + flight[offset..] == Bytes(sealed)
  }

  lemma FifoAddToFlight(out: seq<Byte>, buffered: seq<Byte>, flight: seq<Byte>, offset: nat,
                        sealed: seq<SealedRecord>, r: SealedRecord)
    requires Fifo(out, buffered, flight, offset, sealed)
    ensures Fifo(out, buffered, flight + r.bytes, offset, sealed + [r])
  {
    OneMore(sealed, r, r.kind);
    assert (flight + r.bytes)[offset..] == flight[offset..] + r.bytes;
  }

  lemma FifoAddToBuffer(out: seq<Byte>, buffered: seq<Byte>, sealed: seq<SealedRecord>, r: SealedRecord)
    requires Fifo(out, buffered, [], 0, sealed)
    ensures Fifo(out, buffered + r.bytes, [], 0, sealed + [r])
  {
    OneMore(sealed, r, r.kind);
    assert out + buffered + [] == out + buffered;
  }

  lemma FifoWriteBuffer(out: seq<Byte>, buffered: seq<Byte>, flight: seq<Byte>, offset: nat,
                        sealed: seq<SealedRecord>, n: nat)
    requires Fifo(out, buffered, flight, offset, sealed) && n <= |buffered|
    ensures Fifo(out + buffered[..n], buffered[n..], flight, offset, sealed)
  {
    assert buffered == buffered[..n] + buffered[n..];
  }

  lemma FifoWriteFlight(out: seq<Byte>, flight: seq<Byte>, offset: nat, sealed: seq<SealedRecord>, n: nat)
    requires Fifo(out, [], flight, offset, sealed) && offset + n <= |flight|
    ensures Fifo(out + flight[offset..][..n], [], flight, offset + n, sealed)
  {
    assert flight[offset..] == flight[offset..][..n] + flight[offset + n..];
  }

  /** The rest of the flight becomes the head of an empty buffer. */
  lemma FifoMoveFlight(out: seq<Byte>, flight: seq<Byte>, offset: nat, sealed: seq<SealedRecord>)
    requires Fifo(out, [], flight, offset, sealed)
    ensures Fifo(out, flight[offset..], [], 0, sealed)
  {
    assert out + [] + flight[offset..] == out + flight[offset..] + [];
  }

  lemma FifoDone(out: seq<Byte>, flight: seq<Byte>, sealed: seq<SealedRecord>)
    requires Fifo(out, [], flight, |flight|, sealed)
    ensures out == Bytes(sealed) && Fifo(out, [], [], 0, sealed)
  {
    assert out + [] + flight[|flight|..] == out;
  }

  /**
   * From `size` bytes at `offset` of `memory` parts have been taken since, one after another, as the list of takes
   * has grown; the order is broken if it was or if the offset was carried with bytes left.
   */
  ghost predicate DrainedTo(out: seq<Byte>, takes: seq<nat>, wasBroken: bool, memory: seq<Byte>, offset: nat, size: nat,
                            nowOut: seq<Byte>, nowTakes: seq<nat>, left: nat, broken: bool)
  {
    && takes <= nowTakes
    && var t := nowTakes[|takes|..];
       && nowOut == out + Drained(memory, offset, t)
       && Sum(t) + left == size
       && (broken <==> wasBroken || Carries(offset, size, t))
  }

  /** The bytes taken so far, if they are. */
  function TakenSince(takes: seq<nat>, now: seq<nat>): nat
  {
    if takes <= now then Sum(now[|takes|..]) else 0
  }

  lemma DrainMore(out: seq<Byte>, takes: seq<nat>, wasBroken: bool, memory: seq<Byte>, offset: nat, size: nat,
                  nowOut: seq<Byte>, nowTakes: seq<nat>, left: nat, broken: bool, n: nat)
    requires DrainedTo(out, takes, wasBroken, memory, offset, size, nowOut, nowTakes, left, broken)
    requires offset < WORD && 0 < n <= left
    requires var at := (offset + TakenSince(takes, nowTakes)) % WORD; at + left <= |memory|
    ensures var at := (offset + TakenSince(takes, nowTakes)) % WORD;
            DrainedTo(out, takes, wasBroken, memory, offset, size, nowOut + View(memory, at, n), nowTakes + [n], left - n,
                      broken || (at + n >= WORD && n < left))
            && (offset + TakenSince(takes, nowTakes + [n])) % WORD == (at + n) % WORD
  {
    hide Drained, Sum, Carries, View;
    var t := nowTakes[|takes|..];
    var at := (offset + Sum(t)) % WORD;
    assert (nowTakes + [n])[|takes|..] == t + [n];
    TakeOneMore(memory, offset, size, t, n);
    CarriedNow(offset, size, t, n, at);
    assert out + Drained(memory, offset, t) + View(memory, at, n) == out + (Drained(memory, offset, t) + View(memory, at, n));
    AddMod(offset + Sum(t), n);
  }

  lemma AddMod(a: nat, n: nat)
    ensures (a % WORD + n) % WORD == (a + n) % WORD
  {}

  lemma ViewTakes(memory: seq<Byte>, offset: nat, size: nat, n: nat)
    requires offset + size <= |memory| && n <= size
    ensures View(memory, offset, size)[..n] == View(memory, offset, n)
  {}

  /** The offset is carried in this write for the first time, or was carried before. */
  lemma CarriedNow(offset: nat, size: nat, takes: seq<nat>, n: nat, at: nat)
    requires offset < WORD && at == (offset + Sum(takes)) % WORD && Sum(takes) + n <= size && n > 0
    ensures Carries(offset, size, takes) || (Sum(takes) + n < size && offset + Sum(takes) + n >= WORD)
            <==> Carries(offset, size, takes) || (at + n >= WORD && n < size - Sum(takes))
  {
    hide Sum;
    if !Carries(offset, size, takes) {
      StaysBelow(offset, size, takes);
      BelowWord(offset + Sum(takes));
    }
  }

  lemma StaysStraight(offset: nat, size: nat, takes: seq<nat>)
    requires offset < WORD && Sum(takes) <= size
    ensures offset + size <= WORD ==>
              !Carries(offset, size, takes)
              && (Sum(takes) < size ==> (offset + Sum(takes)) % WORD + (size - Sum(takes)) <= WORD)
  {
    hide Sum, Carries;
    if offset + size <= WORD {
      StraightNeverCarries(offset, size, takes);
      if Sum(takes) < size { BelowWord(offset + Sum(takes)); }
    }
  }

  /**
   * tls_seal_record: the number of the call, the type and the plaintext to the bytes of the record. Changes of
   * cipher between calls are part of it.
   */
  type Sealer = (nat, Byte, seq<Byte>) -> Option<seq<Byte>>

  ghost predicate Bounded(seal: Sealer, overhead: nat)
  {
    forall n, kind, text :: seal(n, kind, text).Some? ==> |seal(n, kind, text).value| <= |text| + overhead
  }

  /** The cipher never fails on records of this type. */
  ghost predicate Total(seal: Sealer, kind: Byte)
  {
    forall n, text :: seal(n, kind, text).Some?
  }

  /** The bytes of every record are what the cipher gave for it, and no call's number is used twice. */
  ghost predicate Genuine(seal: Sealer, list: seq<SealedRecord>, next: nat)
  {
    && (forall r :: r in list ==> r.n < next && seal(r.n, r.kind, r.text) == Some(r.bytes))
    && (forall i, j :: 0 <= i < j < |list| ==> list[i].n < list[j].n)
  }

  lemma GenuineNext(seal: Sealer, list: seq<SealedRecord>, next: nat)
    requires Genuine(seal, list, next)
    ensures Genuine(seal, list, next + 1)
  {}

  lemma GenuineOneMore(seal: Sealer, list: seq<SealedRecord>, r: SealedRecord, next: nat)
    requires Genuine(seal, list, r.n) && r.n < next && seal(r.n, r.kind, r.text) == Some(r.bytes)
    ensures Genuine(seal, list + [r], next)
  {
    forall i | 0 <= i < |list| ensures list[i].n < r.n { assert list[i] in list; }
  }

  /** The records sealed between the two are application data of 1 to max bytes each. */
  ghost predicate AppRecords(before: seq<SealedRecord>, after: seq<SealedRecord>, max: nat)
  {
    && before <= after
    && forall i :: |before| <= i < |after| ==> after[i].kind == RT_APPLICATION && 0 < |after[i].text| <= max
  }

  lemma AppRecordsJoin(a: seq<SealedRecord>, b: seq<SealedRecord>, c: seq<SealedRecord>, max: nat)
    requires AppRecords(a, b, max) && AppRecords(b, c, max)
    ensures AppRecords(a, c, max)
  {}

  lemma OneAppRecord(before: seq<SealedRecord>, after: seq<SealedRecord>, text: seq<Byte>, max: nat)
    requires |after| == |before| + 1 && after[..|before|] == before
    requires after[|before|].kind == RT_APPLICATION && after[|before|].text == text && 0 < |text| <= max
    ensures AppRecords(before, after, max) && TextOf(RT_APPLICATION, after) == TextOf(RT_APPLICATION, before) + text
  {
    assert after == before + [after[|before|]];
    OneMore(before, after[|before|], RT_APPLICATION);
  }

  lemma NoRecords(list: seq<SealedRecord>, max: nat)
    ensures AppRecords(list, list, max)
  {}

  /** How many records of at most max bytes a message of n bytes takes: at least one. */
  function RecordsFor(n: nat, max: nat): nat
    requires max > 0
  {
    if n <= max then 1 else 1 + RecordsFor(n - max, max)
  }

  /** A stream transport: a write takes any non-empty part of what it is given, or refuses. */
  class Stream {
    // It never refuses and takes all it is given.
    const eager: bool
    var out: seq<Byte>
    // How many bytes each write took.
    var takes: seq<nat>

    constructor (eager: bool)
      ensures out == [] && takes == [] && this.eager == eager
    {
      this.eager := eager;
      out, takes := [], [];
    }

    method Write(data: seq<Byte>) returns (r: int)
      modifies this
      ensures r <= |data|
      ensures out == if r > 0 then old(out) + data[..r] else old(out)
      ensures takes == if r > 0 then old(takes) + [r] else old(takes)
      ensures eager ==> r == |data|
    {
      r := *;
      if eager || r > |data| { r := |data|; }
      if r > 0 { out, takes := out + data[..r], takes + [r]; }
    }

    method Flush() returns (r: int)
      ensures eager ==> r > 0
    {
      r := *;
      if eager && r <= 0 { r := 1; }
    }
  }

  datatype Closing = Open | SentCloseNotify | SentError

  /** Where send_alert is kept: no caller's buffer. */
  const ALERT_ADDRESS: Address := 0

  /** A pointer into the caller's memory, compared but never followed. */
  type Address = nat

  class Writer {
    const wire: Stream
    const buffer: SSLBuffer
    var hasFlight: bool
    var flight: seq<Byte>
    var flightOffset: nat
    const seal: Sealer
    const overhead: nat
    var alignPrefix: nat
    var seqNo: nat
    var wnum: nat
    var wpendPending: bool
    var wpendTot: nat
    var wpendType: Byte
    var wpendRet: nat
    var wpendBuf: Address
    var maxSendFragment: nat
    var closing: Closing
    var alertDispatch: bool
    var sendAlert: (Byte, Byte)
    var movingBuffer: bool
    var partialWrite: bool
    const ticketMax: nat
    var earlyWritten: nat
    var canEarlyWrite: bool
    // Every record sealed; whether the buffer's offset was ever carried past 2^16 with bytes left; how much
    // application data was sealed and flushed; and how much of that precedes the current logical write.
    ghost var sealed: seq<SealedRecord>
    ghost var broken: bool
    ghost var done: nat
    ghost var base: nat
    // Early data reported as written.
    ghost var earlyTotal: nat

    /** What every operation keeps. */
    ghost predicate Valid()
      reads this, buffer, buffer.buf, wire
    {
      Core() && base + wnum == done
    }

    lemma NothingTaken(out: seq<Byte>, takes: seq<nat>, memory: seq<Byte>, offset: nat, size: nat)
      requires buffer.Valid() && out == wire.out && takes == wire.takes && offset == buffer.offset && size == buffer.size
      ensures Drains(out, takes, broken, memory, offset, size)
      ensures offset < WORD && size < WORD && buffer.offset == (offset + TakenSince(takes, wire.takes)) % WORD
    {
      TakeNothing(memory, offset, size);
      BelowWord(offset);
      assert wire.takes[|takes|..] == [];
    }

    /** The same without wnum, which is kept in a local while an application write runs. */
    ghost predicate Core()
      reads this`hasFlight, this`flight, this`flightOffset, this`seqNo, this`maxSendFragment
      reads this`wpendPending, this`wpendTot, this`wpendType, this`wpendRet
      reads this`sealed, this`broken, this`done, this`earlyWritten, this`earlyTotal, buffer, buffer.buf, wire
    {
      Kept() && Settled()
    }

    /** An empty buffer starts at an alignment offset. */
    predicate Settled()
      reads buffer`size, buffer`offset
    {
      buffer.size == 0 ==> buffer.offset < ALIGN
    }

    ghost predicate Kept()
      reads this`hasFlight, this`flight, this`flightOffset, this`seqNo, this`maxSendFragment
      reads this`wpendPending, this`wpendTot, this`wpendType, this`wpendRet
      reads this`sealed, this`broken, this`done, this`earlyWritten, this`earlyTotal, buffer, buffer.buf, wire
    {
      && buffer.Valid()
      && flightOffset <= |flight| && (!hasFlight ==> flight == [] && flightOffset == 0)
      && Bounded(seal, overhead) && Genuine(seal, sealed, seqNo)
      && maxSendFragment >= 1
      && (wpendPending ==> 0 < wpendRet == wpendTot <= MAX_PLAIN)
      && InOrder() && AppCounted() && EarlyCounted()
    }

    /** Unless the order was broken, no byte sealed is lost or out of place. */
    ghost predicate InOrder()
      requires buffer.Valid()
      reads this`flight, this`flightOffset, this`sealed, this`broken, buffer, buffer.buf, wire
    {
      broken || Fifo(wire.out, buffer.Contents(), flight, flightOffset, sealed)
    }

    ghost predicate AppCounted()
      reads this`sealed, this`done, this`wpendPending, this`wpendTot, this`wpendType
    {
      |TextOf(RT_APPLICATION, sealed)| == done + PendingApp()
    }

    ghost predicate EarlyCounted()
      reads this`earlyWritten, this`earlyTotal
    {
      earlyWritten == earlyTotal % WORD && (ticketMax < WORD ==> earlyTotal <= ticketMax)
    }

    /** Application data sealed but not yet reported as written. */
    function PendingApp(): nat
      reads this`wpendPending, this`wpendTot, this`wpendType
    {
      if wpendPending && wpendType == RT_APPLICATION then wpendTot else 0
    }

    constructor (seal: Sealer, overhead: nat, maxSendFragment: nat, ticketMax: nat, eager: bool)
      requires Bounded(seal, overhead) && maxSendFragment >= 1
      ensures Valid() && fresh(wire) && fresh(buffer) && sealed == [] && !broken && done == 0 && base == 0
      ensures this.seal == seal && this.overhead == overhead && this.maxSendFragment == maxSendFragment
      ensures this.ticketMax == ticketMax && earlyTotal == 0 && wnum == 0 && closing == Open && !wpendPending
              && !partialWrite
      ensures wire.out == [] && wire.takes == [] && wire.eager == eager && buffer.buf == null && buffer.size == 0
              && !hasFlight
      ensures flightOffset == 0 && earlyWritten == 0 && alignPrefix == 0 && flight == [] && seqNo == 0
    {
      wire := new Stream(eager);
      buffer := new SSLBuffer();
      hasFlight, flight, flightOffset := false, [], 0;
      this.seal, this.overhead, this.maxSendFragment := seal, overhead, maxSendFragment;
      alignPrefix, seqNo, wnum := 0, 0, 0;
      wpendPending, wpendTot, wpendType, wpendRet, wpendBuf := false, 0, 0, 0, 0;
      closing, alertDispatch, sendAlert, movingBuffer, partialWrite := Open, false, (0, 0), false, false;
      this.ticketMax, earlyWritten, canEarlyWrite, earlyTotal := ticketMax, 0, false, 0;
      sealed, broken, done, base := [], false, 0, 0;
    }

    /** tls_seal_record, with maxOut bytes of room. */
    method SealRecord(maxOut: nat, kind: Byte, text: seq<Byte>) returns (out: Option<seq<Byte>>)
      requires Core()
      modifies this`seqNo
      ensures Core() && seqNo == old(seqNo) + 1 && Genuine(seal, sealed, old(seqNo))
      ensures out == (if seal(old(seqNo), kind, text).Some? && |seal(old(seqNo), kind, text).value| <= maxOut
                      then seal(old(seqNo), kind, text) else None)
      ensures out.Some? ==> |out.value| <= maxOut && |out.value| <= |text| + overhead
      ensures maxOut >= |text| + overhead ==> out == seal(old(seqNo), kind, text)
    {
      hide Genuine, Fifo, Bytes, TextOf, InOrder, AppCounted, EarlyCounted;
      GenuineNext(seal, sealed, seqNo);
      out := seal(seqNo, kind, text);
      seqNo := seqNo + 1;
      if out.Some? && |out.value| > maxOut { out := None; }
    }

    /** add_record_to_flight. */
    method AddRecordToFlight(kind: Byte, text: seq<Byte>) returns (ok: bool)
      requires Core() && kind != RT_APPLICATION
      modifies this`hasFlight, this`flight, this`seqNo, this`sealed
      ensures Core()
      ensures ok <==> seal(old(seqNo), kind, text).Some?
      ensures hasFlight
      ensures ok ==> var bytes := seal(old(seqNo), kind, text).value;
                     sealed == old(sealed) + [SealedRecord(old(seqNo), kind, text, bytes)] && flight == old(flight) + bytes
      ensures !ok ==> sealed == old(sealed) && flight == old(flight)
    {
      hide Bytes, TextOf, Fifo, Genuine, EarlyCounted;
      hasFlight := true;
      var bytes := SealRecord(|text| + overhead, kind, text);
      if bytes.None? { return false; }
      ghost var r := SealedRecord(seqNo - 1, kind, text, bytes.value);
      GenuineOneMore(seal, sealed, r, seqNo);
      if !broken { FifoAddToFlight(wire.out, buffer.Contents(), flight, flightOffset, sealed, r); }
      OneMore(sealed, r, RT_APPLICATION);
      flight := flight + bytes.value;
      sealed := sealed + [r];
      return true;
    }

    /** ssl3_add_message: records of at most maxSendFragment bytes, and at least one. */
    method AddMessage(msg: seq<Byte>) returns (ok: bool)
      requires Core()
      modifies this`hasFlight, this`flight, this`seqNo, this`sealed
      ensures Core() && old(sealed) <= sealed
      ensures ok ==> TextOf(RT_HANDSHAKE, sealed) == old(TextOf(RT_HANDSHAKE, sealed)) + msg && |sealed| > |old(sealed)|
      ensures forall i :: |old(sealed)| <= i < |sealed| ==> sealed[i].kind == RT_HANDSHAKE
                                                            && |sealed[i].text| <= maxSendFragment
      ensures !ok ==> exists k :: 0 <= k <= |msg| && TextOf(RT_HANDSHAKE, sealed) == old(TextOf(RT_HANDSHAKE, sealed)) + msg[..k]
      ensures Total(seal, RT_HANDSHAKE) ==> ok
      ensures ok ==> |sealed| == |old(sealed)| + RecordsFor(|msg|, maxSendFragment)
      ensures ok ==> hasFlight
    {
      hide Bytes, TextOf, Bounded, Fifo, Genuine, InOrder, AppCounted, EarlyCounted;
      var rest := msg;
      var first := true;
      ghost var k := 0;
      assert msg[..0] == [];
      while first || rest != []
        invariant Core() && old(sealed) <= sealed
        invariant |sealed| + (if first || rest != [] then RecordsFor(|rest|, maxSendFragment) else 0)
                  == |old(sealed)| + RecordsFor(|msg|, maxSendFragment)
        invariant k <= |msg| && rest == msg[k..] && (!first ==> |sealed| > |old(sealed)| && hasFlight)
        invariant TextOf(RT_HANDSHAKE, sealed) == old(TextOf(RT_HANDSHAKE, sealed)) + msg[..k]
        invariant forall i :: |old(sealed)| <= i < |sealed| ==> sealed[i].kind == RT_HANDSHAKE
                                                                && |sealed[i].text| <= maxSendFragment
        decreases if first then 1 else 0, |rest|
      {
        first := false;
        var len := if |rest| > maxSendFragment then maxSendFragment else |rest|;
        var chunk := rest[..len];
        rest := rest[len..];
        ghost var before := sealed;
        var added := AddRecordToFlight(RT_HANDSHAKE, chunk);
        if !added { return false; }
        OneMore(before, sealed[|before|], RT_HANDSHAKE);
        assert msg[..k + len] == msg[..k] + chunk;
        k := k + len;
      }
      assert msg[..k] == msg;
      return true;
    }

    /** What the transport has taken since from a buffer of `size` bytes at `offset` of `memory`. */
    ghost predicate Drains(out: seq<Byte>, takes: seq<nat>, wasBroken: bool, memory: seq<Byte>, offset: nat, size: nat)
      reads wire, buffer`size, this`broken
    {
      DrainedTo(out, takes, wasBroken, memory, offset, size, wire.out, wire.takes, buffer.size, broken)
    }

    /** One write from the buffer. */
    method WriteBuffer(ghost out: seq<Byte>, ghost takes: seq<nat>, ghost wasBroken: bool, ghost offset: nat,
                       ghost size: nat)
      returns (r: int)
      requires Kept() && buffer.size > 0 && offset < WORD && size < WORD
      requires Drains(out, takes, wasBroken, buffer.Memory(), offset, size)
      requires buffer.offset == (offset + TakenSince(takes, wire.takes)) % WORD
      modifies this`broken, buffer`offset, buffer`size, buffer`cap, wire
      ensures Kept() && old(wire.out) <= wire.out && old(wire.takes) <= wire.takes
      ensures Drains(out, takes, wasBroken, buffer.Memory(), offset, size)
      ensures r > 0 ==> buffer.size < old(buffer.size) && |wire.takes| > |old(wire.takes)|
      ensures buffer.offset == (offset + TakenSince(takes, wire.takes)) % WORD
      ensures r <= 0 ==> buffer.size == old(buffer.size) && buffer.offset == old(buffer.offset)
                         && wire.takes == old(wire.takes)
                         && wire.out == old(wire.out) && broken == old(broken)
      ensures wire.eager ==> r == old(buffer.size) && broken == old(broken)
    {
      hide Bytes, TextOf, Bounded, Fifo, Genuine, DrainedTo, TakenSince, View, AppCounted, EarlyCounted;
      ghost var before := wire.out;
      var data := View(buffer.buf[..], buffer.offset, buffer.size);
      r := wire.Write(data);
      if r <= 0 { return; }
      ghost var memory := buffer.Memory();
      ViewTakes(memory, buffer.offset, buffer.size, r);
      DrainMore(out, takes, wasBroken, memory, offset, size, before, old(wire.takes), buffer.size, broken, r);
      broken := broken || (buffer.offset + r >= WORD && r < buffer.size);
      if !broken { FifoWriteBuffer(before, data, flight, flightOffset, sealed, r); }
      buffer.Consume(r);
    }

    /** tls_write_buffer_flush: 1 once the buffer is empty, or what the transport said. */
    method FlushBuffer() returns (r: int)
      requires Core()
      modifies this`broken, buffer, wire
      ensures Core()
      ensures r > 0 ==> r == 1 && buffer.size == 0
      ensures buffer.buf == old(buffer.buf) || buffer.buf == null
      ensures old(wire.out) <= wire.out && (old(broken) ==> broken)
      ensures Drains(old(wire.out), old(wire.takes), old(broken), old(buffer.Memory()), old(buffer.offset), old(buffer.size))
      ensures old(buffer.Straight()) ==> buffer.Straight() && broken == old(broken)
      ensures wire.takes == old(wire.takes) ==> wire.out == old(wire.out) && broken == old(broken)
      ensures wire.takes == old(wire.takes) && r <= 0 ==>
                buffer.buf == old(buffer.buf) && buffer.offset == old(buffer.offset) && buffer.size == old(buffer.size)
      ensures wire.eager ==> r == 1 && broken == old(broken)
    {
      hide Bytes, TextOf, Bounded, Fifo, Genuine, Drained, Sum, Carries, View, AppCounted, EarlyCounted;
      ghost var out, takes, wasBroken, offset, size := wire.out, wire.takes, broken, buffer.offset, buffer.size;
      NothingTaken(out, takes, buffer.Memory(), offset, size);
      while buffer.size > 0
        invariant Kept() && old(wire.out) <= wire.out
        invariant buffer.buf == old(buffer.buf)
        invariant Drains(out, takes, wasBroken, old(buffer.Memory()), offset, size)
        invariant buffer.offset == (offset + TakenSince(takes, wire.takes)) % WORD && takes <= wire.takes
        invariant wire.takes == takes ==> buffer.offset == offset && buffer.size == size
        invariant wire.takes == takes ==> wire.out == out && broken == wasBroken
        invariant wire.eager ==> broken == wasBroken
        decreases buffer.size
      {
        r := WriteBuffer(out, takes, wasBroken, offset, size);
        if r <= 0 {
          StaysStraight(offset, size, wire.takes[|takes|..]);
          return;
        }
      }
      StaysStraight(offset, size, wire.takes[|takes|..]);
      assert buffer.Contents() == [];
      buffer.Clear();
      return 1;
    }

    /** The loop of ssl3_flush_flight. */
    method WriteFlight() returns (r: int)
      requires Core() && hasFlight && buffer.size == 0
      modifies this`flightOffset, wire
      ensures Core() && old(wire.out) <= wire.out && flightOffset >= old(flightOffset)
      ensures r > 0 ==> flightOffset == |flight|
      ensures wire.eager ==> r > 0
    {
      hide Bytes, TextOf, Bounded, Fifo, Genuine, AppCounted, EarlyCounted;
      assert buffer.Contents() == [];
      while flightOffset < |flight|
        invariant Core() && old(wire.out) <= wire.out && flightOffset >= old(flightOffset)
      {
        label Round:
        var data := flight[flightOffset..];
        r := wire.Write(data);
        if r <= 0 { return; }
        if !broken { FifoWriteFlight(old@Round(wire.out), flight, flightOffset, sealed, r); }
        flightOffset := flightOffset + r;
      }
      return 1;
    }

    /** ssl3_flush_flight. */
    method FlushFlight() returns (r: int)
      requires Core()
      modifies this`hasFlight, this`flight, this`flightOffset, this`broken, buffer, wire
      ensures Core() && old(wire.out) <= wire.out && (old(broken) ==> broken)
      ensures old(buffer.Straight()) ==> buffer.Straight() && broken == old(broken)
      ensures r > 0 && old(hasFlight) ==> buffer.size == 0 && !hasFlight
      ensures r > 0 && old(hasFlight) && !broken ==> wire.out == Bytes(sealed)
      ensures r <= 0 ==> hasFlight == old(hasFlight) && flight == old(flight) && flightOffset >= old(flightOffset)
      ensures !old(hasFlight) ==> r == 1 && wire.out == old(wire.out)
      ensures old(hasFlight) && !closing.Open? ==> r == -1 && wire.out == old(wire.out) && buffer.size == old(buffer.size)
      ensures wire.eager && closing.Open? && |old(flight)| <= INT_MAX ==> r > 0 && broken == old(broken)
    {
      hide Bytes, TextOf, Bounded, Fifo, Genuine, InOrder, AppCounted, EarlyCounted;
      if !hasFlight { return 1; }
      if !closing.Open? { return -1; }
      if |flight| > INT_MAX { return -1; }
      if buffer.size > 0 {
        r := FlushBuffer();
        if r <= 0 { return; }
      }
      r := WriteFlight();
      if r <= 0 { return; }
      r := wire.Flush();
      if r <= 0 { return -1; }
      DropFlight();
      return 1;
    }

    /** The flight is written out: release it. */
    method DropFlight()
      requires Core() && buffer.size == 0 && flightOffset == |flight|
      modifies this`hasFlight, this`flight, this`flightOffset
      ensures Core() && !hasFlight && (!broken ==> wire.out == Bytes(sealed))
    {
      hide Bytes, TextOf, Bounded, Fifo, Genuine, View, AppCounted, EarlyCounted;
      assert buffer.Contents() == [];
      if !broken { FifoDone(wire.out, flight, sealed); }
      hasFlight, flight, flightOffset := false, [], 0;
    }

    /** The caller repeats the write that is pending. */
    predicate Matches(kind: Byte, at: Address, len: nat)
      reads this`wpendTot, this`wpendType, this`wpendBuf, this`movingBuffer
    {
      wpendTot <= len && (movingBuffer || wpendBuf == at) && wpendType == kind
    }

    /** ssl3_write_pending: finish the remembered write, if the caller repeats it. */
    method WritePending(kind: Byte, at: Address, len: nat) returns (r: int)
      requires Core() && wpendPending
      modifies this`wpendPending, this`done, this`broken, buffer, wire
      ensures Core() && old(wire.out) <= wire.out && (old(broken) ==> broken)
      ensures Drains(old(wire.out), old(wire.takes), old(broken), old(buffer.Memory()), old(buffer.offset), old(buffer.size))
      ensures old(buffer.Straight()) ==> buffer.Straight() && broken == old(broken)
      ensures wire.takes == old(wire.takes) ==> wire.out == old(wire.out) && broken == old(broken)
      ensures wire.takes == old(wire.takes) && r <= 0 ==>
                buffer.Memory() == old(buffer.Memory()) && buffer.offset == old(buffer.offset)
                  && buffer.size == old(buffer.size)
      ensures buffer.buf == old(buffer.buf) || buffer.buf == null
      ensures r <= 0 ==> wpendPending && done == old(done)
      ensures !Matches(kind, at, len) ==> r == -1 && wire.takes == old(wire.takes)
      ensures wire.eager && Matches(kind, at, len) ==> r > 0 && broken == old(broken)
      ensures r > 0 ==> r == wpendRet <= len && kind == wpendType && (movingBuffer || at == wpendBuf)
      ensures r > 0 ==> !wpendPending && buffer.size == 0 && done == old(done) + (if kind == RT_APPLICATION then r else 0)
    {
      assert buffer.Valid();
      hide Core, Drained, Sum, Carries, View, Drains, TakenSince, SSLBuffer.Memory, SSLBuffer.Straight;
      NothingTaken(wire.out, wire.takes, buffer.Memory(), buffer.offset, buffer.size);
      if wpendTot > len || (!movingBuffer && wpendBuf != at) || wpendType != kind { return -1; }
      r := FlushBuffer();
      if r <= 0 { return; }
      r := Finish();
    }

    /** The remembered write is over. */
    method Finish() returns (r: int)
      requires Core() && wpendPending
      modifies this`wpendPending, this`done
      ensures Core() && !wpendPending && r == wpendRet == wpendTot > 0
      ensures done == old(done) + (if wpendType == RT_APPLICATION then r else 0)
    {
      hide Bytes, TextOf, Bounded, Fifo, Genuine, View, InOrder, EarlyCounted;
      wpendPending := false;
      r := wpendRet;
      if wpendType == RT_APPLICATION { done := done + r; }
    }

    /** What is left of the flight. */
    function Unsent(): nat
      requires flightOffset <= |flight|
      reads this
    {
      |flight| - flightOffset
    }

    /** No request for the buffer with up to n bytes of plaintext can reach the end of its 16-bit offset. */
    predicate Narrow(n: nat)
      reads this`flight, this`flightOffset, buffer`offset, buffer`size
    {
      buffer.Straight() && flightOffset <= |flight| && n + overhead + (|flight| - flightOffset) < WORD - ALIGN + 2
    }

    /** The buffer was allocated for this many bytes of the flight and what is sealed behind them. */
    ghost predicate Aligned(flightLen: nat, address: nat)
      reads this`alignPrefix, buffer`buf, buffer`offset, buffer.buf
    {
      && buffer.buf != null && buffer.offset < ALIGN <= buffer.buf.Length
      && (buffer.offset + flightLen + alignPrefix + address) % ALIGN == 0
      && forall i :: 0 <= i < buffer.offset ==> buffer.buf[i] == 0
    }

    /** The middle of do_ssl3_write: make room and put the rest of the flight in front. */
    method MakeRoom(len: nat, address: nat) returns (ok: bool)
      requires Core() && buffer.size == 0 && len > 0
      modifies this`hasFlight, this`flight, this`flightOffset, buffer, buffer.buf
      ensures Core()
      ensures ok <==> len + overhead + old(Unsent()) <= 0xffff
      ensures ok ==> !hasFlight && buffer.size == old(Unsent()) && len + overhead <= buffer.cap - buffer.size
                     && buffer.buf != null
      ensures !ok ==> hasFlight == old(hasFlight) && flight == old(flight) && flightOffset == old(flightOffset)
      ensures !ok ==> buffer.size == 0
      ensures ok ==> flight == [] && flightOffset == 0
      ensures buffer.buf == old(buffer.buf) || fresh(buffer.buf)
      ensures buffer.offset < ALIGN
      ensures ok && old(buffer.buf) == null && len + overhead + old(Unsent()) >= ALIGN ==> Aligned(old(Unsent()), address)
    {
      hide Bytes, TextOf, Bounded, Fifo, Genuine, View, AppCounted, EarlyCounted;
      assert buffer.Contents() == [];
      var flightLen := if hasFlight then |flight| - flightOffset else 0;
      var maxOut := len + overhead + flightLen;
      ok := buffer.EnsureCap(flightLen + alignPrefix, maxOut, address);
      if !ok { return; }
      if hasFlight { MoveFlight(); }
    }

    /** The rest of the flight becomes the head of the buffer. */
    method MoveFlight()
      requires Core() && buffer.size == 0 && Unsent() <= buffer.cap && buffer.buf != null
      modifies this`hasFlight, this`flight, this`flightOffset, buffer`size, buffer.buf
      ensures Core() && !hasFlight && flight == [] && flightOffset == 0 && buffer.size == old(Unsent())
      ensures buffer.buf[..buffer.offset] == old(buffer.buf[..buffer.offset])
    {
      hide Bytes, TextOf, Bounded, Fifo, Genuine, View, AppCounted, EarlyCounted;
      assert buffer.Contents() == [];
      var rest := flight[flightOffset..];
      if !broken { FifoMoveFlight(wire.out, flight, flightOffset, sealed); }
      hasFlight, flight, flightOffset := false, [], 0;
      assert [] + rest == rest;
      buffer.Append(rest);
    }

    /** The end of do_ssl3_write: seal behind the flight and remember the write. */
    method SealBehind(kind: Byte, at: Address, text: seq<Byte>) returns (ok: bool)
      requires Core() && !wpendPending && !hasFlight && 0 < |text| <= MAX_PLAIN
      requires |text| + overhead <= buffer.cap - buffer.size && buffer.buf != null
      modifies this`seqNo, this`sealed, this`wpendPending, this`wpendTot, this`wpendType, this`wpendRet, this`wpendBuf,
               buffer`size, buffer.buf
      ensures Core() && done == old(done)
      ensures ok ==> wpendPending && wpendTot == |text| && wpendType == kind && wpendBuf == at
                     && Sealed(old(sealed), kind, text) && buffer.size == old(buffer.size) + |sealed[|old(sealed)|].bytes|
                     && |sealed[|old(sealed)|].bytes| <= |text| + overhead
      ensures buffer.buf[..buffer.offset] == old(buffer.buf[..buffer.offset])
      ensures !ok ==> !wpendPending && sealed == old(sealed) && buffer.size == old(buffer.size)
      ensures ok <==> seal(old(seqNo), kind, text).Some?
    {
      hide Bytes, TextOf, Bounded, Fifo, Genuine, View, SSLBuffer.Valid, SSLBuffer.Contents, SSLBuffer.Straight,
           InOrder, AppCounted, EarlyCounted;
      var bytes := SealRecord(buffer.cap - buffer.size, kind, text);
      if bytes.None? { return false; }
      ghost var r := SealedRecord(seqNo - 1, kind, text, bytes.value);
      GenuineOneMore(seal, sealed, r, seqNo);
      Remember(r, kind, at, |text|, bytes.value);
      return true;
    }

    /** The record goes behind the flight, and the arguments are kept for a retry. */
    method Remember(ghost r: SealedRecord, kind: Byte, at: Address, len: nat, bytes: seq<Byte>)
      requires Core() && !wpendPending && !hasFlight && 0 < len <= MAX_PLAIN
      requires r.kind == kind && |r.text| == len && r.bytes == bytes
      requires Genuine(seal, sealed + [r], seqNo)
      requires |bytes| <= buffer.cap - buffer.size && buffer.buf != null
      modifies this`sealed, this`wpendPending, this`wpendTot, this`wpendType, this`wpendRet, this`wpendBuf,
               buffer`size, buffer.buf
      ensures Core()
      ensures wpendPending && wpendTot == len && wpendType == kind && wpendBuf == at
      ensures sealed == old(sealed) + [r] && buffer.size == old(buffer.size) + |bytes|
      ensures buffer.buf[..buffer.offset] == old(buffer.buf[..buffer.offset])
    {
      hide Bytes, TextOf, Bounded, Fifo, View, Genuine, SSLBuffer.Valid, SSLBuffer.Contents, SSLBuffer.Straight,
           EarlyCounted;
      if !broken { FifoAddToBuffer(wire.out, buffer.Contents(), sealed, r); }
      OneMore(sealed, r, RT_APPLICATION);
      wpendTot, wpendBuf, wpendType, wpendRet, wpendPending := len, at, kind, len, true;
      sealed := sealed + [r];
      assert AppCounted();
      hide AppCounted;
      buffer.Append(bytes);
    }

    /** Nothing is pending or buffered, the record and what is left of the flight fit in the buffer, and the cipher works. */
    ghost predicate Free(kind: Byte, n: nat)
      reads this`wpendPending, this`flight, this`flightOffset, buffer`size
    {
      && !wpendPending && buffer.size == 0 && flightOffset <= |flight|
      && 0 < n <= MAX_PLAIN && n + overhead + (|flight| - flightOffset) <= 0xffff && Total(seal, kind)
    }

    /** The part of do_ssl3_write for a new write. */
    method StartWrite(kind: Byte, at: Address, text: seq<Byte>, address: nat) returns (r: int)
      requires Core() && !wpendPending
      modifies this`hasFlight, this`flight, this`flightOffset, this`seqNo, this`wpendPending, this`wpendTot, this`wpendType,
               this`wpendRet, this`wpendBuf, this`sealed, this`broken, this`done, buffer, buffer.buf, wire
      ensures Core() && old(wire.out) <= wire.out && (old(broken) ==> broken)
      ensures buffer.buf == old(buffer.buf) || buffer.buf == null || fresh(buffer.buf)
      ensures r <= 0 ==> done == old(done)
      ensures r > 0 ==> !wpendPending && buffer.size == 0 && r == |text|
                        && done == old(done) + (if kind == RT_APPLICATION then r else 0)
      ensures r > 0 ==> Sealed(old(sealed), kind, text)
      ensures sealed != old(sealed) ==> 0 < |text| && Sealed(old(sealed), kind, text)
      ensures r <= 0 ==> (sealed == old(sealed) && !wpendPending)
                         || (Sealed(old(sealed), kind, text) && wpendPending && wpendTot == |text| && wpendType == kind)
      ensures old(buffer.Straight()) && old(Narrow(|text|)) ==> buffer.Straight() && broken == old(broken)
      ensures Unsent() <= old(Unsent())
      ensures (sealed != old(sealed) && old(buffer.buf) == null && wire.takes == old(wire.takes) && r <= 0
               && |text| + overhead + old(Unsent()) >= ALIGN) ==>
                Aligned(old(Unsent()), address) && buffer.size == old(Unsent()) + |sealed[|old(sealed)|].bytes|
                && flight == [] && broken == old(broken) && wire.out == old(wire.out)
      ensures (old(buffer.size) == 0 && 0 < |text| <= MAX_PLAIN
               && |text| + overhead + old(Unsent()) <= 0xffff && Total(seal, kind)) ==> sealed != old(sealed)
      ensures wire.eager && old(Free(kind, |text|)) ==> r == |text| && broken == old(broken) && flight == []
      ensures (|text| > 16384 || old(buffer.size) > 0) ==> r == -1 && sealed == old(sealed) && wire.out == old(wire.out)
      ensures |text| == 0 && old(buffer.size) == 0 ==> r == 0 && sealed == old(sealed) && wire.out == old(wire.out)
    {
      hide Bytes, TextOf, Bounded, Fifo, Genuine, Drained, Sum, Carries, View, Drains, SSLBuffer.Contents, InOrder,
           AppCounted, EarlyCounted;
      if |text| > MAX_PLAIN || buffer.size > 0 { return -1; }
      if |text| == 0 { return 0; }
      var roomy := MakeRoom(|text|, address);
      if !roomy { return -1; }
      var ok := SealBehind(kind, at, text);
      if !ok { return -1; }
      r := WritePending(kind, at, |text|);
    }

    /** do_ssl3_write. */
    method DoWrite(kind: Byte, at: Address, text: seq<Byte>, address: nat) returns (r: int)
      requires Core()
      modifies this`hasFlight, this`flight, this`flightOffset, this`seqNo, this`wpendPending, this`wpendTot, this`wpendType,
               this`wpendRet, this`wpendBuf, this`sealed, this`broken, this`done, buffer, buffer.buf, wire
      ensures Core() && old(wire.out) <= wire.out && (old(broken) ==> broken)
      ensures buffer.buf == old(buffer.buf) || buffer.buf == null || fresh(buffer.buf)
      ensures r <= 0 ==> done == old(done)
      ensures r > 0 ==> !wpendPending && buffer.size == 0 && r <= |text|
                        && done == old(done) + (if kind == RT_APPLICATION then r else 0)
      ensures old(wpendPending) ==> sealed == old(sealed) && wpendTot == old(wpendTot) && wpendType == old(wpendType)
                                    && (r > 0 ==> r == wpendTot && kind == wpendType)
                                    && (r <= 0 ==> wpendPending)
      ensures !old(wpendPending) && r > 0 ==> r == |text| && Sealed(old(sealed), kind, text)
      ensures sealed != old(sealed) ==> 0 < |text| && Sealed(old(sealed), kind, text)
      ensures !old(wpendPending) && r <= 0 ==>
                (sealed == old(sealed) && !wpendPending)
                || (Sealed(old(sealed), kind, text) && wpendPending && wpendTot == |text| && wpendType == kind)
      ensures old(buffer.Straight()) && (old(wpendPending) || old(Narrow(|text|))) ==>
                buffer.Straight() && broken == old(broken)
      ensures Unsent() <= old(Unsent())
      ensures old(wpendPending) ==>
                Drains(old(wire.out), old(wire.takes), old(broken), old(buffer.Memory()), old(buffer.offset), old(buffer.size))
      ensures (sealed != old(sealed) && old(buffer.buf) == null && wire.takes == old(wire.takes) && r <= 0
               && |text| + overhead + old(Unsent()) >= ALIGN) ==>
                Aligned(old(Unsent()), address) && buffer.size == old(Unsent()) + |sealed[|old(sealed)|].bytes|
                && flight == [] && broken == old(broken) && wire.out == old(wire.out)
      ensures (!old(wpendPending) && old(buffer.size) == 0 && 0 < |text| <= MAX_PLAIN
               && |text| + overhead + old(Unsent()) <= 0xffff && Total(seal, kind)) ==> sealed != old(sealed)
      ensures wire.eager && old(Free(kind, |text|)) ==> r == |text| && broken == old(broken) && flight == []
      ensures old(wpendPending) && !old(Matches(kind, at, |text|)) ==> r == -1 && wire.takes == old(wire.takes)
      ensures old(wpendPending) && old(Matches(kind, at, |text|)) && wire.eager ==> r > 0 && broken == old(broken)
      ensures !old(wpendPending) && (|text| > 16384 || old(buffer.size) > 0) ==>
                r == -1 && sealed == old(sealed) && wire.out == old(wire.out)
      ensures !old(wpendPending) && |text| == 0 && old(buffer.size) == 0 ==>
                r == 0 && sealed == old(sealed) && wire.out == old(wire.out)
    {
      hide Bytes, TextOf, Bounded, Fifo, Genuine, Drained, Sum, Carries, View;
      if wpendPending {
        r := WritePending(kind, at, |text|);
        return;
      }
      r := StartWrite(kind, at, text, address);
    }

    /** The application data sealed is `before`, then the first `n` bytes of the caller's data. */
    ghost predicate SealedUpTo(before: seq<Byte>, data: seq<Byte>, n: nat)
      reads this`sealed
    {
      n <= |data| && TextOf(RT_APPLICATION, sealed) == before + data[..n]
    }

    /** One call of do_ssl3_write from the application-data loop. */
    method WriteChunk(at: Address, data: seq<Byte>, tot: nat, nw: nat, address: nat, ghost before: seq<Byte>)
        returns (r: int)
      requires Core() && tot + nw <= |data|
      modifies this`hasFlight, this`flight, this`flightOffset, this`seqNo, this`wpendPending, this`wpendTot, this`wpendType,
               this`wpendRet, this`wpendBuf, this`sealed, this`broken, this`done, buffer, buffer.buf, wire
      ensures Core() && AppRecords(old(sealed), sealed, nw)
      ensures old(Narrow(nw)) ==> Narrow(nw) && broken == old(broken)
      ensures Unsent() <= old(Unsent())
      ensures buffer.buf == old(buffer.buf) || buffer.buf == null || fresh(buffer.buf)
      ensures r <= 0 ==> done == old(done)
      ensures r > 0 ==> !wpendPending && buffer.size == 0 && r <= nw && done == old(done) + r
      ensures old(SealedUpTo(before, data, tot + PendingApp())) ==>
                SealedUpTo(before, data, (if r > 0 then tot + r else tot) + PendingApp())
                && (if r > 0 then tot + r else tot) + PendingApp() >= tot + old(PendingApp())
      ensures old(Free(RT_APPLICATION, nw)) ==> |sealed| > |old(sealed)|
      ensures wire.eager && old(Free(RT_APPLICATION, nw)) ==> r == nw && broken == old(broken) && flight == []
    {
      hide Bytes, TextOf, Core, AppRecords, Drains, Aligned, Total, SSLBuffer.Memory, SSLBuffer.Contents;
      ghost var list := sealed;
      var text := data[tot..tot + nw];
      NoRecords(list, nw);
      r := DoWrite(RT_APPLICATION, at + tot, text, address);
      if sealed != list { OneAppRecord(list, sealed, text, nw); }
      assert data[..tot + nw] == data[..tot] + text;
    }

    /** Exactly one record was sealed since. */
    ghost predicate Sealed(before: seq<SealedRecord>, kind: Byte, text: seq<Byte>)
      reads this`sealed
    {
      && |sealed| == |before| + 1 && sealed[..|before|] == before
      && sealed[|before|].kind == kind && sealed[|before|].text == text
    }

    /** The application data of the current logical write that has been sealed. */
    ghost function Progress(): seq<Byte>
      requires Core() && base <= done
      reads this, buffer, buffer.buf, wire
    {
      TextOf(RT_APPLICATION, sealed)[base..]
    }

    /** The most the next record may hold. */
    function MaxRecord(isEarly: bool): (max: nat)
      requires Core()
      reads this, buffer, buffer.buf, wire
      ensures max <= maxSendFragment && (isEarly ==> earlyWritten + max <= ticketMax)
      ensures max == 0 ==> isEarly && earlyWritten == ticketMax
    {
      if isEarly && maxSendFragment > ticketMax - earlyWritten then ticketMax - earlyWritten else maxSendFragment
    }

    /** The writer is free for a full record, and n bytes more do not exceed the limit of early data. */
    ghost predicate Willing(isEarly: bool, n: nat)
      reads this`wpendPending, this`flight, this`flightOffset, this`maxSendFragment, this`earlyWritten, buffer`size
    {
      Free(RT_APPLICATION, maxSendFragment) && (isEarly ==> earlyWritten + n <= ticketMax)
    }

    /** `early_data_written += ret`, in 16 bits. */
    method CountEarly(n: nat)
      requires Core() && earlyWritten + n <= ticketMax
      modifies this`earlyWritten, this`earlyTotal
      ensures Core() && earlyTotal == old(earlyTotal) + n && earlyWritten <= old(earlyWritten) + n
    {
      hide Bytes, TextOf, Bounded, Fifo, Genuine, InOrder, AppCounted;
      earlyWritten := (earlyWritten + n) % WORD;
      earlyTotal := earlyTotal + n;
    }

    /** One round of the loop of ssl3_write_app_data, at data[tot]. */
    method WriteRound(at: Address, data: seq<Byte>, tot: nat, isEarly: bool, address: nat, ghost before: seq<Byte>)
      returns (r: int, needsHandshake: bool)
      requires Core() && tot <= |data|
      modifies this`hasFlight, this`flight, this`flightOffset, this`seqNo, this`wpendPending, this`wpendTot,
               this`wpendType, this`wpendRet, this`wpendBuf, this`earlyWritten, this`canEarlyWrite, this`sealed, this`broken,
               this`done, this`earlyTotal, buffer, buffer.buf, wire
      ensures Core() && AppRecords(old(sealed), sealed, maxSendFragment)
      ensures buffer.buf == old(buffer.buf) || buffer.buf == null || fresh(buffer.buf)
      ensures old(Narrow(maxSendFragment)) ==> Narrow(maxSendFragment) && broken == old(broken)
      ensures earlyTotal == old(earlyTotal) + (if isEarly && r > 0 then r else 0)
      ensures r <= 0 ==> done == old(done)
      ensures r > 0 ==> !wpendPending && buffer.size == 0 && r <= |data| - tot && done == old(done) + r
      ensures old(SealedUpTo(before, data, tot + PendingApp())) ==>
                SealedUpTo(before, data, (if r > 0 then tot + r else tot) + PendingApp())
                && (if r > 0 then tot + r else tot) + PendingApp() >= tot + old(PendingApp())
      ensures r > 0 ==> PendingApp() == 0
      ensures needsHandshake ==> r < 0 && !canEarlyWrite && earlyWritten == ticketMax
      ensures !needsHandshake ==> canEarlyWrite == old(canEarlyWrite)
      ensures old(Willing(isEarly, |data| - tot)) && tot < |data| ==> |sealed| > |old(sealed)|
      ensures |sealed| >= |old(sealed)|
      ensures wire.eager && old(Willing(isEarly, |data| - tot)) && tot < |data| ==>
                r > 0 && Willing(isEarly, |data| - tot - r) && Free(RT_APPLICATION, maxSendFragment)
                && broken == old(broken) && flight == []
    {
      hide Core, SealedUpTo, MaxRecord, Total;
      var max := MaxRecord(isEarly);
      if max == 0 {
        canEarlyWrite := false;
        return -1, true;
      }
      var n := |data| - tot;
      var nw := if n > max then max else n;
      r := WriteChunk(at, data, tot, nw, address, before);
      if isEarly && r > 0 { CountEarly(r); }
      needsHandshake := false;
    }

    /** The rounds of the loop, up to data[tot]. */
    method WriteRounds(at: Address, data: seq<Byte>, start: nat, isEarly: bool, address: nat, ghost before: seq<Byte>)
      returns (r: int, needsHandshake: bool, tot: nat)
      requires Core() && start <= |data|
      modifies this`hasFlight, this`flight, this`flightOffset, this`seqNo, this`wpendPending, this`wpendTot,
               this`wpendType, this`wpendRet, this`wpendBuf, this`earlyWritten, this`canEarlyWrite, this`sealed, this`broken,
               this`done, this`earlyTotal, buffer, buffer.buf, wire
      ensures Core() && AppRecords(old(sealed), sealed, maxSendFragment)
      ensures start <= tot <= |data| && done == old(done) + tot - start
      ensures old(Narrow(maxSendFragment)) ==> Narrow(maxSendFragment) && broken == old(broken)
      ensures earlyTotal == old(earlyTotal) + (if isEarly then tot - start else 0)
      ensures buffer.buf == old(buffer.buf) || buffer.buf == null || fresh(buffer.buf)
      ensures r > 0 ==> !wpendPending && buffer.size == 0 && (!partialWrite ==> tot == |data|)
      ensures old(SealedUpTo(before, data, start + PendingApp())) ==>
                SealedUpTo(before, data, tot + PendingApp()) && tot + PendingApp() >= start + old(PendingApp())
      ensures needsHandshake ==> r < 0 && !canEarlyWrite && earlyWritten == ticketMax
      ensures !needsHandshake ==> canEarlyWrite == old(canEarlyWrite)
      ensures old(Willing(isEarly, |data| - start)) && start < |data| ==> |sealed| > |old(sealed)|
      ensures wire.eager && old(Willing(isEarly, |data| - start)) && start < |data| ==>
                r > 0 && tot > start && broken == old(broken) && (!broken ==> wire.out == Bytes(sealed))
                && Free(RT_APPLICATION, maxSendFragment)
    {
      hide Willing, Free, Core, SealedUpTo, AppRecords, Narrow, TextOf, Bytes, PendingApp, MaxRecord;
      NoRecords(sealed, maxSendFragment);
      ghost var list0, narrow, broken0, early0 := sealed, Narrow(maxSendFragment), broken, earlyTotal;
      ghost var willing := Willing(isEarly, |data| - start) && start < |data|;
      ghost var upTo, pending := SealedUpTo(before, data, start + PendingApp()), PendingApp();
      tot := start;
      while true
        invariant Core() && AppRecords(list0, sealed, maxSendFragment)
        invariant start <= tot <= |data| && done == old(done) + tot - start
        invariant narrow ==> Narrow(maxSendFragment) && broken == broken0
        invariant earlyTotal == early0 + (if isEarly then tot - start else 0) && canEarlyWrite == old(canEarlyWrite)
        invariant buffer.buf == old(buffer.buf) || buffer.buf == null || fresh(buffer.buf)
        invariant upTo ==> SealedUpTo(before, data, tot + PendingApp()) && start + pending <= tot + PendingApp()
        invariant |sealed| >= |list0| && (tot > start && willing ==> |sealed| > |list0|)
        invariant willing ==> tot < |data| && (tot == start || wire.eager ==> Willing(isEarly, |data| - tot))
        invariant willing && wire.eager ==> broken == broken0
        decreases |data| - tot
      {
        ghost var list := sealed;
        r, needsHandshake := WriteRound(at, data, tot, isEarly, address, before);
        AppRecordsJoin(list0, list, sealed, maxSendFragment);
        if r <= 0 { return; }
        tot := tot + r;
        if tot == |data| || partialWrite {
          if flight == [] { NothingLeft(); }
          return;
        }
      }
    }

    /** The loop of ssl3_write_app_data, from data[start] on. */
    method WriteAll(at: Address, data: seq<Byte>, start: nat, isEarly: bool, address: nat, ghost before: seq<Byte>)
      returns (r: int, needsHandshake: bool)
      requires Core() && wnum == 0 && base + start == done && start <= |data| <= INT_MAX
      modifies this`hasFlight, this`flight, this`flightOffset, this`seqNo, this`wnum, this`wpendPending, this`wpendTot,
               this`wpendType, this`wpendRet, this`wpendBuf, this`earlyWritten, this`canEarlyWrite, this`sealed, this`broken,
               this`done, this`base, this`earlyTotal, buffer, buffer.buf, wire
      ensures Valid() && AppRecords(old(sealed), sealed, maxSendFragment)
      ensures old(Narrow(maxSendFragment)) ==> Narrow(maxSendFragment) && broken == old(broken)
      ensures earlyTotal == old(earlyTotal) + (if isEarly then (if r > 0 then r else wnum) - start else 0)
      ensures buffer.buf == old(buffer.buf) || buffer.buf == null || fresh(buffer.buf)
      ensures r > 0 ==> wnum == 0 && !wpendPending && buffer.size == 0 && r <= |data| && base == old(base) + r
      ensures r > 0 && !partialWrite ==> r == |data|
      ensures r <= 0 ==> base == old(base)
      ensures old(SealedUpTo(before, data, start + PendingApp())) ==>
                SealedUpTo(before, data, if r > 0 then r else wnum + PendingApp())
                && (r <= 0 ==> wnum + PendingApp() >= start + old(PendingApp()))
      ensures needsHandshake ==> r < 0 && !canEarlyWrite && earlyWritten == ticketMax
      ensures !needsHandshake ==> canEarlyWrite == old(canEarlyWrite)
      ensures old(Willing(isEarly, |data| - start)) && start < |data| ==> |sealed| > |old(sealed)|
      ensures wire.eager && old(Willing(isEarly, |data| - start)) && start < |data| ==>
                r > 0 && broken == old(broken) && (!broken ==> wire.out == Bytes(sealed))
                && Free(RT_APPLICATION, maxSendFragment)
    {
      hide Willing, Free, Core, SealedUpTo, AppRecords, Narrow, TextOf, Bytes;
      var tot;
      r, needsHandshake, tot := WriteRounds(at, data, start, isEarly, address, before);
      if r <= 0 {
        wnum := tot;
      } else {
        r := tot;
        base := base + tot;
      }
    }

    /** ssl3_write_app_data; inEarlyData is a client's SSL_in_early_data. */
    method WriteAppData(at: Address, data: seq<Byte>, inEarlyData: bool, address: nat)
        returns (r: int, needsHandshake: bool)
      requires Valid() && |data| <= INT_MAX
      modifies this`hasFlight, this`flight, this`flightOffset, this`seqNo, this`wnum, this`wpendPending, this`wpendTot,
               this`wpendType, this`wpendRet, this`wpendBuf, this`earlyWritten, this`canEarlyWrite, this`sealed, this`broken,
               this`done, this`base, this`earlyTotal, buffer, buffer.buf, wire
      ensures Valid() && AppRecords(old(sealed), sealed, maxSendFragment)
      ensures old(Narrow(maxSendFragment)) ==> Narrow(maxSendFragment) && broken == old(broken)
      ensures |data| >= old(wnum) ==>
                earlyTotal == old(earlyTotal)
                  + (if inEarlyData && old(canEarlyWrite) then (if r > 0 then r else wnum) - old(wnum) else 0)
      ensures buffer.buf == old(buffer.buf) || buffer.buf == null || fresh(buffer.buf)
      ensures r > 0 ==> wnum == 0 && !wpendPending && buffer.size == 0 && r <= |data|
      ensures r > 0 && old(Progress()) <= data ==>
                base == old(base) + r && TextOf(RT_APPLICATION, sealed) == old(TextOf(RT_APPLICATION, sealed)[..base]) + data[..r]
      ensures r > 0 && !partialWrite ==> r == |data|
      ensures r <= 0 && old(Progress()) <= data ==>
                base == old(base) && TextOf(RT_APPLICATION, sealed)[..base] == old(TextOf(RT_APPLICATION, sealed)[..base])
                && old(Progress()) <= Progress() <= data
      ensures needsHandshake ==> r < 0 && !canEarlyWrite && earlyWritten == ticketMax
      ensures !needsHandshake ==> canEarlyWrite == old(canEarlyWrite)
      ensures old(closing) != Open ==>
                r == -1 && !needsHandshake && sealed == old(sealed) && wire.out == old(wire.out) && wnum == old(wnum)
                && base == old(base) && done == old(done) && buffer.size == old(buffer.size)
      ensures old(closing) == Open && old(wnum) == 0 && data != [] && old(Willing(inEarlyData && canEarlyWrite, |data|)) ==>
                && |sealed| > |old(sealed)|
                && (wire.eager ==>
                      && 0 < r <= |data| && (!partialWrite ==> r == |data|) && broken == old(broken)
                      && (!broken ==> wire.out == Bytes(sealed)) && Free(RT_APPLICATION, maxSendFragment))
    {
      hide Willing, Free, Bytes, TextOf, Bounded, Fifo, Genuine, InOrder, EarlyCounted;
      if !closing.Open? { return -1, false; }
      var tot := wnum;
      wnum := 0;
      if |data| < tot {
        base := base + tot;
        return -1, false;
      }
      ghost var before, progress := TextOf(RT_APPLICATION, sealed)[..base], old(Progress());
      assert TextOf(RT_APPLICATION, sealed) == before + progress;
      assert progress <= data ==> SealedUpTo(before, data, tot + PendingApp()) by {
        if progress <= data { assert data[..|progress|] == progress; }
      }
      var isEarly := inEarlyData && canEarlyWrite;
      r, needsHandshake := WriteAll(at, data, tot, isEarly, address, before);
      if progress <= data && r <= 0 {
        assert Progress() == data[..wnum + PendingApp()];
      }
    }

    /** ssl_send_alert. */
    method SendAlert(level: Byte, desc: Byte, address: nat) returns (r: int)
      requires Valid()
      modifies this`closing, this`alertDispatch, this`sendAlert, this`hasFlight, this`flight, this`flightOffset, this`seqNo,
               this`wpendPending, this`wpendTot, this`wpendType, this`wpendRet, this`wpendBuf, this`sealed, this`broken,
               this`done, buffer, buffer.buf, wire
      ensures Valid() && old(wire.out) <= wire.out
      ensures old(Narrow(2)) ==> buffer.Straight() && broken == old(broken)
      ensures old(closing) != Open ==> r == -1 && closing == old(closing) && sealed == old(sealed)
                                       && wire.out == old(wire.out)
      ensures old(closing) == Open ==> closing == (if level == 1 && desc == 0 then SentCloseNotify else SentError)
                                       && sendAlert == (level, desc)
      ensures old(buffer.size) > 0 ==> r == -1 && sealed == old(sealed) && wire.out == old(wire.out)
      ensures r > 0 ==> !alertDispatch && !wpendPending && buffer.size == 0
      ensures TextOf(RT_APPLICATION, sealed) == old(TextOf(RT_APPLICATION, sealed))
      ensures wire.eager && old(closing) == Open && old(Free(RT_ALERT, 2)) ==>
                r == 1 && Sealed(old(sealed), RT_ALERT, [level, desc])
    {
      hide Bytes, TextOf, Bounded, Fifo, Genuine, View, InOrder, AppCounted, EarlyCounted;
      if !closing.Open? { return -1; }
      closing := if level == 1 && desc == 0 then SentCloseNotify else SentError;
      alertDispatch := true;
      sendAlert := (level, desc);
      if buffer.size > 0 { return -1; }
      r := DispatchAlert(address);
    }

    /** ssl3_dispatch_alert. */
    method DispatchAlert(address: nat) returns (r: int)
      requires Core()
      modifies this`alertDispatch, this`hasFlight, this`flight, this`flightOffset, this`seqNo,
               this`wpendPending, this`wpendTot, this`wpendType, this`wpendRet, this`wpendBuf, this`sealed, this`broken,
               this`done, buffer, buffer.buf, wire
      ensures Core() && done == old(done) && old(wire.out) <= wire.out
      ensures old(Narrow(2)) ==> buffer.Straight() && broken == old(broken)
      ensures r > 0 ==> r == 1 && !alertDispatch && !wpendPending && buffer.size == 0
      ensures r > 0 ==> sealed == old(sealed) || Sealed(old(sealed), RT_ALERT, [sendAlert.0, sendAlert.1])
      ensures sealed == old(sealed) || Sealed(old(sealed), RT_ALERT, [sendAlert.0, sendAlert.1])
      ensures TextOf(RT_APPLICATION, sealed) == old(TextOf(RT_APPLICATION, sealed))
      ensures wire.eager && old(Free(RT_ALERT, 2)) ==> r == 1 && Sealed(old(sealed), RT_ALERT, [sendAlert.0, sendAlert.1])
    {
      hide Bytes, TextOf, Bounded, Fifo, Genuine, View, InOrder, AppCounted, EarlyCounted;
      ghost var list := sealed;
      r := DoWrite(RT_ALERT, ALERT_ADDRESS, [sendAlert.0, sendAlert.1], address);
      if sealed != list {
        assert sealed == list + [sealed[|list|]];
        OneMore(list, sealed[|list|], RT_APPLICATION);
      }
      if r <= 0 { return; }
      alertDispatch := false;
      if sendAlert.0 == 2 {
        var ignored := wire.Flush();
      }
      return 1;
    }

    /** Once the buffer is empty, everything sealed but the rest of the flight is on the wire. */
    lemma AllFlushed()
      requires Core() && buffer.size == 0 && !broken
      ensures wire.out + flight[flightOffset..] == Bytes(sealed)
    {
      assert buffer.Contents() == [];
      assert wire.out + [] == wire.out;
    }

    lemma NothingLeft()
      requires Core() && buffer.size == 0 && flight == []
      ensures !broken ==> wire.out == Bytes(sealed)
    {
      hide Bytes, TextOf, Genuine;
      if !broken { AllFlushed(); }
      assert wire.out + [] == wire.out;
    }

    /** At every moment the wire carries a prefix of what was sealed, in sealing order. */
    lemma WireIsPrefix()
      requires Core() && !broken
      ensures wire.out <= Bytes(sealed)
    {}
  }

  /**
   * The 16-bit count of early data enforces the ticket's limit exactly when the limit itself fits in 16 bits:
   * otherwise the count comes round to zero and the remaining allowance with it.
   */
  lemma EarlyLimitHolds(ticketMax: nat)
    ensures (forall total: nat :: total <= ticketMax ==> total + EarlyRoom(ticketMax, total) <= ticketMax) <==> ticketMax < WORD
  {
    if ticketMax >= WORD {
      assert EarlyRoom(ticketMax, WORD) == ticketMax;
    }
  }

  /** What the limit still allows after `total` bytes of early data. */
  function EarlyRoom(ticketMax: nat, total: nat): int
  {
    ticketMax - total % WORD
  }

  // ---- Runs in which a 16-bit count comes round ----

  /** The header of a TLS 1.2 record in front of the plaintext, as without a cipher. */
  function Framed(): Sealer
  {
    (n, kind, text) => Some([kind, 3, 3] + BigEndian(|text|, 2) + text)
  }

  const HEADER: nat := 5

  lemma FramedFacts(kind: Byte)
    ensures Total(Framed(), kind) && Bounded(Framed(), HEADER) && TextOf(kind, []) == [] && Bytes([]) == []
  {}

  /**
   * A ticket that allows 65,536 bytes of early data: after these, in four full records, the count is zero again,
   * and one byte more is written as early data.
   */
  method EarlyPastLimit() returns (w: Writer, r1: int, r2: int)
    ensures w.Valid() && w.ticketMax == WORD && r1 == WORD && r2 == 1
    ensures w.earlyTotal == w.ticketMax + 1
  {
    hide TextOf, Bytes, AppRecords, Framed, Fifo, Genuine;
    FramedFacts(RT_APPLICATION);
    w := new Writer(Framed(), HEADER, MAX_PLAIN, WORD, true);
    w.canEarlyWrite := true;
    var needsHandshake;
    assert w.Willing(true, WORD);
    r1, needsHandshake := w.WriteAppData(1, seq(WORD, _ => 7), true, 0);
    assert w.earlyWritten == 0;
    r2, needsHandshake := w.WriteAppData(1, [7], true, 0);
  }

  /** Each record is five bytes longer than its text. */
  lemma {:induction false} FramedLength(list: seq<SealedRecord>, next: nat, kind: Byte)
    requires Genuine(Framed(), list, next) && forall r :: r in list ==> r.kind == kind
    ensures |Bytes(list)| == |TextOf(kind, list)| + HEADER * |list|
  {
    if list != [] {
      assert list[|list| - 1] in list;
      FramedLength(list[..|list| - 1], next, kind);
    }
  }

  lemma {:induction false} ManyRecords(n: nat)
    requires 3 * MAX_PLAIN < n <= 4 * MAX_PLAIN
    ensures RecordsFor(n, MAX_PLAIN) == 4
  {
    assert RecordsFor(n - 3 * MAX_PLAIN, MAX_PLAIN) == 1;
    assert RecordsFor(n - 2 * MAX_PLAIN, MAX_PLAIN) == 2;
    assert RecordsFor(n - MAX_PLAIN, MAX_PLAIN) == 3;
  }

  /** All but the last byte, and then, after the carry, the first byte of the memory in place of the last. */
  lemma SlackComesOut(memory: seq<Byte>)
    requires |memory| >= 2 + 0xffff
    ensures Drained(memory, 2, [0xfffe, 1]) == View(memory, 2, 0xfffe) + [memory[0]]
  {
    hide Drained, Sum, Carries, View;
    TakeNothing(memory, 2, 0xffff);
    TakeOneMore(memory, 2, 0xffff, [], 0xfffe);
    assert [] + [0xfffe] == [0xfffe];
    TakeOneMore(memory, 2, 0xffff, [0xfffe], 1);
    assert [0xfffe] + [1] == [0xfffe, 1];
    ViewOfOne(memory, 0);
  }

  /** The flight that AddMessage leaves in a new writer. */
  lemma FlightLength(w: Writer)
    requires w.Core() && !w.broken && w.seal == Framed() && w.wire.out == [] && w.buffer.buf == null && w.buffer.size == 0
    requires forall r :: r in w.sealed ==> r.kind == RT_HANDSHAKE
    ensures |w.flight| - w.flightOffset == |TextOf(RT_HANDSHAKE, w.sealed)| + HEADER * |w.sealed| == |Bytes(w.sealed)|
  {
    hide Bytes, TextOf, Genuine, Framed;
    FramedLength(w.sealed, w.seqNo, RT_HANDSHAKE);
    assert [] + [] + w.flight[w.flightOffset..] == w.flight[w.flightOffset..];
  }

  /** The buffer once a record of one byte is sealed behind the flight and nothing has been written. */
  lemma BufferIsFull(w: Writer, before: seq<SealedRecord>)
    requires w.Core() && !w.broken && w.seal == Framed() && w.wire.out == [] && w.flight == [] && w.alignPrefix == HEADER
    requires w.Sealed(before, RT_APPLICATION, [7]) && |Bytes(before)| == 0xfff9
    requires w.Aligned(0xfff9, 16) && w.buffer.size == 0xfff9 + |w.sealed[|before|].bytes|
    ensures w.buffer.size == 0xffff && w.buffer.offset == 2 && |w.buffer.Memory()| >= 2 + 0xffff
    ensures w.buffer.Memory()[0] == 0 && |Bytes(w.sealed)| == 0xffff && Bytes(w.sealed)[0xfffe] == 7
  {
    hide Bytes, TextOf, View, BigEndian;
    var r := w.sealed[|before|];
    assert w.sealed == before + [r];
    assert r in w.sealed;
    OneMore(before, r, RT_APPLICATION);
  }

  /**
   * A flight of 65,529 bytes in front of a record of one byte, in memory at an address that malloc may give. The
   * transport first refuses, then takes all but one byte, then one: this comes from the slack in front of the
   * buffer, and the wire is not a prefix of what was sealed.
   */
  method Misorders() returns (w: Writer, refused: bool)
    ensures refused && w.wire.takes == [0xfffe, 1] ==> !(w.wire.out <= Bytes(w.sealed))
  {
    hide Bytes, TextOf, Fifo, Genuine, Drained, Sum, Carries, View, Framed;
    FramedFacts(RT_HANDSHAKE);
    FramedFacts(RT_APPLICATION);
    w := new Writer(Framed(), HEADER, MAX_PLAIN, 0, false);
    w.alignPrefix := HEADER;
    var ok := w.AddMessage(seq(0xffe5, _ => 7));
    ManyRecords(0xffe5);
    FlightLength(w);
    ghost var list := w.sealed;
    var r := w.DoWrite(RT_APPLICATION, 1, [7], 16);
    refused := r <= 0 && w.wire.takes == [];
    if !refused { return; }
    BufferIsFull(w, list);
    ghost var memory := w.buffer.Memory();
    r := w.DoWrite(RT_APPLICATION, 1, [7], 16);
    SlackComesOut(memory);
    if w.wire.takes == [0xfffe, 1] {
      assert [] + Drained(memory, 2, w.wire.takes) == w.wire.out;
      assert w.wire.out[0xfffe] == memory[0];
    }
  }
}
