/** Sealing and opening DTLS records, with the epochs and sequence numbers of both directions. */
module DtlsRecord {
  import opened Bits
  import opened Wire
  import opened ReplayWindow

  const RT_HEADER: nat := 13
  const MAX_PLAIN: nat := 16384
  const MAX_ENCRYPTED: nat := 16704
  const EPOCHS: nat := 0x1_0000
  const NUMBERS: nat := 0x1_0000_0000_0000

  /** One direction's cipher: sealing and opening take the record type, version and sequence number. */
  datatype Aead = Aead(
    isNull: bool,
    recordVersion: nat,
    nonceLen: nat,
    maxOverhead: nat,
    seal: (Byte, nat, seq<Byte>, seq<Byte>) -> Option<seq<Byte>>,
    open: (Byte, nat, seq<Byte>, seq<Byte>) -> Option<seq<Byte>>)

  /** What the code relies on: a two-byte version, and no ciphertext longer than MaxOverhead() allows. */
  ghost predicate Bounded(a: Aead)
  {
    && a.recordVersion < 0x1_0000
    && a.nonceLen <= a.maxOverhead
    && forall kind, version, number, text :: a.seal(kind, version, number, text).Some? ==>
         |a.seal(kind, version, number, text).value| <= |text| + a.maxOverhead
  }

  /** The null cipher of the first epoch. */
  ghost predicate Clear(a: Aead)
  {
    && a.isNull
    && (forall kind, version, number, text :: a.seal(kind, version, number, text) == Some(text))
    && (forall kind, version, number, body :: a.open(kind, version, number, body) == Some(body))
  }

  lemma ClearSeals(a: Aead, kind: Byte, version: nat, number: seq<Byte>, text: seq<Byte>)
    requires Clear(a)
    ensures a.isNull && a.seal(kind, version, number, text) == Some(text)
    ensures a.open(kind, version, number, text) == Some(text)
  {}

  datatype Record = Record(kind: Byte, version: nat, number: seq<Byte>, body: seq<Byte>, rest: seq<Byte>)

  function RecordBytes(kind: Byte, version: nat, number: seq<Byte>, body: seq<Byte>): (r: seq<Byte>)
    requires |number| == 8
    ensures |r| == RT_HEADER + |body|
  {
    [kind] + BigEndian(version, 2) + number + BigEndian(|body|, 2) + body
  }

  function ParseRecord(input: seq<Byte>): (r: Option<Record>)
    ensures r.Some? ==> |r.value.number| == 8 && |r.value.rest| < |input|
  {
    if |input| < RT_HEADER then None
    else
      var len := FromBigEndian(input[11..13]);
      if |input| - RT_HEADER < len || len > MAX_ENCRYPTED then None
      else Some(Record(input[0], FromBigEndian(input[1..3]), input[3..11],
                       input[RT_HEADER..RT_HEADER + len], input[RT_HEADER + len..]))
  }

  /** The 13 bytes of the header, as section 4.1 of RFC 6347 has them. */
  lemma RecordLayout(kind: Byte, version: nat, epoch: nat, n: nat, body: seq<Byte>)
    requires version < 0x1_0000 && epoch < 0x1_0000 && n < 0x1_0000_0000_0000 && |body| < 0x1_0000
    ensures RecordBytes(kind, version, RecordNumber(epoch, n), body)
         == [kind, version / 256, version % 256, epoch / 256, epoch % 256,
             n / 0x100_0000_0000, n / 0x1_0000_0000 % 256, n / 0x100_0000 % 256, n / 0x1_0000 % 256, n / 256 % 256, n % 256,
             |body| / 256, |body| % 256] + body
  {
    TwoBytes(version);
    TwoBytes(epoch);
    TwoBytes(|body|);
    SixBytes(n);
  }

  lemma NumberInRecord(kind: Byte, version: nat, number: seq<Byte>, body: seq<Byte>)
    requires |number| == 8
    ensures RecordBytes(kind, version, number, body)[3..11] == number
  {
    hide BigEndian;
  }

  lemma ParseOfRecord(kind: Byte, version: nat, number: seq<Byte>, body: seq<Byte>, rest: seq<Byte>)
    requires version < 0x1_0000 && |number| == 8 && |body| <= 16704
    ensures ParseRecord(RecordBytes(kind, version, number, body) + rest) == Some(Record(kind, version, number, body, rest))
  {
    hide BigEndian, FromBigEndian;
    var input := RecordBytes(kind, version, number, body) + rest;
    Widths();
    BigEndianRoundTrip(version, 2);
    BigEndianRoundTrip(|body|, 2);
    assert input[1..3] == BigEndian(version, 2) && input[11..13] == BigEndian(|body|, 2) && input[3..11] == number;
    assert input[RT_HEADER..RT_HEADER + |body|] == body && input[RT_HEADER + |body|..] == rest;
  }

  /** Every record is the serialization of what is parsed from it. */
  lemma RecordOfParse(input: seq<Byte>)
    requires ParseRecord(input).Some?
    ensures var p := ParseRecord(input).value;
            RecordBytes(p.kind, p.version, p.number, p.body) + p.rest == input && |p.body| <= 16704
  {
    hide BigEndian, FromBigEndian;
    var p := ParseRecord(input).value;
    BigEndianOfBytes(input[1..3]);
    BigEndianOfBytes(input[11..13]);
    assert input == [input[0]] + input[1..3] + input[3..11] + input[11..13] + p.body + p.rest;
  }

  /** The epoch in the top two bytes and the sequence number in the rest. */
  function RecordNumber(epoch: nat, n: nat): (r: seq<Byte>)
    ensures |r| == 8
  {
    BigEndian(epoch, 2) + BigEndian(n, 6)
  }

  lemma Pow256Of6()
    ensures Pow256(6) == NUMBERS
  {}

  lemma RecordNumberValue(epoch: nat, n: nat)
    requires epoch < EPOCHS && n < NUMBERS
    ensures FromBigEndian(RecordNumber(epoch, n)) == epoch * NUMBERS + n
    ensures FromBigEndian(RecordNumber(epoch, n)[..2]) == epoch
  {
    Pow256Of6();
    Widths();
    hide BigEndian, FromBigEndian, Pow256;
    BigEndianSplit(BigEndian(epoch, 2), BigEndian(n, 6));
    BigEndianRoundTrip(epoch, 2);
    BigEndianRoundTrip(n, 6);
    assert RecordNumber(epoch, n)[..2] == BigEndian(epoch, 2);
  }

  lemma EpochOfNumber(number: seq<Byte>)
    requires |number| == 8
    ensures FromBigEndian(number) / NUMBERS == FromBigEndian(number[..2])
  {
    Pow256Of6();
    hide BigEndian, FromBigEndian, Pow256;
    BigEndianSplit(number[..2], number[2..]);
    assert number == number[..2] + number[2..];
    BigEndianOfBytes(number[2..]);
    Quotient(FromBigEndian(number), NUMBERS, FromBigEndian(number[..2]), FromBigEndian(number[2..]));
  }

  // ---- Receiving ----

  datatype Opened =
    | CloseNotify
    | Partial
    | Discard
    | TooLong
    | Alert(text: seq<Byte>)
    | Success(kind: Byte, text: seq<Byte>)

  /** A record that passed every check, and how many cipher changes preceded it. */
  datatype Accepted = Accepted(turn: nat, number: nat)

  /** The record layer's reading state. */
  class RecordReader {
    var rEpoch: nat
    var aead: Aead
    var closed: bool
    const bitmap: Bitmap
    ghost var turns: nat
    ghost var history: seq<Accepted>

    ghost predicate Valid()
      reads this, bitmap
    {
      && bitmap.Valid()
      && rEpoch == turns % EPOCHS
      && (forall i, j :: 0 <= i < j < |history| ==> history[i] != history[j])
      && (forall a :: a in history ==> a.turn <= turns && a.number / NUMBERS == a.turn % EPOCHS)
      && (forall n :: n in bitmap.recorded <==> Accepted(turns, n) in history)
    }

    constructor (aead: Aead)
      ensures Valid() && fresh(bitmap) && rEpoch == 0 && turns == 0 && history == []
      ensures this.aead == aead && !closed
    {
      rEpoch, turns, history, closed := 0, 0, [], false;
      this.aead := aead;
      bitmap := new Bitmap();
    }

    /** Passes the version check, which the null cipher limits to the major version. */
    predicate VersionOk(version: nat)
      reads this`aead
    {
      if aead.isNull then version / 256 == 0xfe else version == aead.recordVersion
    }

    /** The record would be opened: of this epoch, unseen, not below the window, and authentic. */
    ghost predicate Authentic(p: Record)
      requires |p.number| == 8
      reads this, bitmap
    {
      var n := FromBigEndian(p.number);
      && !closed
      && VersionOk(p.version)
      && n / NUMBERS == rEpoch
      && Accepted(turns, n) !in history
      && n + WINDOW > bitmap.maxSeqNum
      && aead.open(p.kind, p.version, p.number, p.body).Some?
    }

    /** A record is used up whatever becomes of it; a packet that does not start with one is given up whole. */
    function Consumed(input: seq<Byte>): nat
      reads this`closed, this`aead
    {
      var p := ParseRecord(input);
      if closed then 0
      else if p.None? || !VersionOk(p.value.version) then |input|
      else |input| - |p.value.rest|
    }

    /** dtls_open_record. */
    method Open(input: seq<Byte>) returns (r: Opened, consumed: nat)
      requires Valid()
      modifies this`history, bitmap
      ensures Valid()
      ensures consumed <= |input| && (consumed == 0 <==> r.CloseNotify? || r.Partial?)
      ensures consumed == Consumed(input)
      ensures r.CloseNotify? <==> closed
      ensures r.Partial? <==> !closed && input == []
      ensures (r.Alert? || r.Success? || r.TooLong?) <==> ParseRecord(input).Some?
                                                          && old(Authentic(ParseRecord(input).value))
      ensures !r.Alert? && !r.Success? ==> history == old(history) && bitmap.recorded == old(bitmap.recorded)
      ensures r.Alert? || r.Success? ==>
                bitmap.recorded == old(bitmap.recorded) + {FromBigEndian(ParseRecord(input).value.number)}
      ensures r.Alert? || r.Success? || r.TooLong? ==>
                var p := ParseRecord(input).value;
                var text := aead.open(p.kind, p.version, p.number, p.body).value;
                && consumed == |input| - |p.rest|
                && (r.TooLong? <==> |text| > 16384)
                && (!r.TooLong? ==>
                      && r == (if p.kind == RT_ALERT then Alert(text) else Success(p.kind, text))
                      && history == old(history) + [Accepted(turns, FromBigEndian(p.number))])
    {
      if closed { return CloseNotify, 0; }
      if input == [] { return Partial, 0; }
      var parsed := ParseRecord(input);
      if parsed.None? { return Discard, |input|; }
      var p := parsed.value;
      if !VersionOk(p.version) { return Discard, |input|; }
      var epoch := FromBigEndian(p.number[..2]);
      EpochOfNumber(p.number);
      consumed := |input| - |p.rest|;
      if epoch != rEpoch { return Discard, consumed; }
      var replay := bitmap.ShouldDiscard(p.number);
      if replay { return Discard, consumed; }
      var text := aead.open(p.kind, p.version, p.number, p.body);
      if text.None? { return Discard, consumed; }
      if |text.value| > MAX_PLAIN { return TooLong, consumed; }
      bitmap.Record(p.number);
      history := history + [Accepted(turns, FromBigEndian(p.number))];
      r := if p.kind == RT_ALERT then Alert(text.value) else Success(p.kind, text.value);
    }

    /** dtls1_set_read_state, once the caller has found nothing unprocessed. */
    method NextEpoch(aead: Aead)
      requires Valid()
      modifies this`rEpoch, this`aead, this`turns, bitmap
      ensures Valid()
      ensures rEpoch == (old(rEpoch) + 1) % EPOCHS && this.aead == aead && turns == old(turns) + 1
      ensures bitmap.recorded == {}
    {
      rEpoch := (rEpoch + 1) % EPOCHS;
      this.aead := aead;
      bitmap.Clear();
      turns := turns + 1;
    }
  }

  /**
   * Over a whole run, epoch changes included, no record number is accepted twice, as long as the 16-bit
   * epoch has not come round again.
   */
  lemma NoNumberTwice(r: RecordReader, i: nat, j: nat)
    requires r.Valid() && i < j < |r.history|
    requires r.turns < EPOCHS
    ensures r.history[i].number != r.history[j].number
  {
    var a, b := r.history[i], r.history[j];
    assert a in r.history && b in r.history;
    assert a.turn % EPOCHS == a.turn && b.turn % EPOCHS == b.turn;
  }

  // ---- Sending ----

  /** ssl_record_sequence_update on all of a[2..8]: add one with carry, from the last byte. */
  method SequenceUpdate(a: array<Byte>) returns (ok: bool)
    requires a.Length == 8
    modifies a
    ensures a[..2] == old(a[..2])
    ensures ok <==> old(FromBigEndian(a[2..])) + 1 < NUMBERS
    ensures FromBigEndian(a[2..]) == if ok then old(FromBigEndian(a[2..])) + 1 else 0
  {
    hide FromBigEndian, Pow256;
    Pow256Of6();
    ghost var before := a[2..];
    var i := 7;
    while i >= 2
      invariant 1 <= i <= 7
      invariant forall k :: 0 <= k <= i ==> a[k] == old(a[k])
      invariant forall k :: i < k < 8 ==> a[k] == 0 && old(a[k]) == 255
    {
      var byte: int := a[i];
      a[i] := (byte + 1) % 256;
      if a[i] != 0 {
        Increment(before[..i - 2], before[i - 2], before[i - 1..]);
        assert before == before[..i - 2] + [before[i - 2]] + before[i - 1..];
        assert a[2..] == before[..i - 2] + [before[i - 2] + 1] + Zeros(|before[i - 1..]|);
        return true;
      }
      i := i - 1;
    }
    AllOnes(before);
    ZerosAreZero(6);
    assert a[2..] == Zeros(6);
    return false;
  }

  lemma {:induction false} AllOnes(b: seq<Byte>)
    requires forall k :: 0 <= k < |b| ==> b[k] == 255
    ensures FromBigEndian(b) + 1 == Pow256(|b|)
  {
    if b != [] {
      AllOnes(b[..|b| - 1]);
    }
  }

  /** Adding one turns trailing 255s into zeros and carries into the byte before them. */
  lemma Increment(high: seq<Byte>, b: Byte, low: seq<Byte>)
    requires b < 255 && forall k :: 0 <= k < |low| ==> low[k] == 255
    ensures FromBigEndian(high + [b + 1] + Zeros(|low|)) == FromBigEndian(high + [b] + low) + 1
    ensures FromBigEndian(high + [b] + low) + 1 < Pow256(|high| + 1 + |low|)
  {
    hide FromBigEndian, Pow256, Zeros;
    IncrementValue(high, b, low);
    var next := high + [b + 1] + Zeros(|low|);
    BigEndianOfBytes(next);
    assert |next| == |high| + 1 + |low|;
  }

  lemma IncrementValue(high: seq<Byte>, b: Byte, low: seq<Byte>)
    requires b < 255 && forall k :: 0 <= k < |low| ==> low[k] == 255
    ensures FromBigEndian(high + [b + 1] + Zeros(|low|)) == FromBigEndian(high + [b] + low) + 1
  {
    hide FromBigEndian, Pow256, Zeros;
    AllOnes(low);
    ZerosAreZero(|low|);
    BigEndianSplit(high + [b + 1], Zeros(|low|));
    BigEndianSplit(high + [b], low);
    Append(high, b);
    Append(high, b + 1);
    Carry(FromBigEndian(high + [b]), Pow256(|low|));
  }

  lemma Append(high: seq<Byte>, b: Byte)
    ensures FromBigEndian(high + [b]) == 256 * FromBigEndian(high) + b
  {
    assert (high + [b])[..|high|] == high;
  }

  lemma Carry(n: nat, p: nat)
    ensures (n + 1) * p == n * p + p
  {}

  lemma {:induction false} ZerosAreZero(n: nat)
    ensures FromBigEndian(Zeros(n)) == 0
  {
    if n > 0 {
      ZerosAreZero(n - 1);
      assert Zeros(n)[..n - 1] == Zeros(n - 1);
    }
  }

  lemma NextTurn(turns: nat)
    ensures (turns % EPOCHS + 1) % EPOCHS == (turns + 1) % EPOCHS
  {}

  /** A record number given to the cipher of a turn. */
  datatype Used = Used(turn: nat, number: nat)

  /** The numbers used in a turn are the first `count` ones, as far as there are that many. */
  ghost predicate FirstNumbers(used: set<Used>, turn: nat, count: nat)
  {
    forall n: nat :: Used(turn, n) in used <==> n < count && n < NUMBERS
  }

  ghost predicate Counted(used: set<Used>, turns: nat, taken: nat, lastTaken: nat)
  {
    && (forall u :: u in used ==> u.turn <= turns)
    && FirstNumbers(used, turns, taken)
    && (turns > 0 ==> FirstNumbers(used, turns - 1, lastTaken))
  }

  /** The next number of a turn is new exactly while fewer than 2^48 have been taken. */
  lemma TakeNumber(used: set<Used>, turns: nat, taken: nat, lastTaken: nat, previous: bool)
    requires previous ==> turns > 0
    requires Counted(used, turns, taken, lastTaken)
    ensures var n := if previous then lastTaken else taken;
            var u := Used(if previous then turns - 1 else turns, n % NUMBERS);
            (u in used <==> n >= NUMBERS)
            && (if previous then Counted(used + {u}, turns, taken, n + 1) else Counted(used + {u}, turns, n + 1, lastTaken))
  {
    var n := if previous then lastTaken else taken;
    LastBefore(n);
  }

  lemma LastBefore(n: nat)
    ensures n % NUMBERS < NUMBERS
    ensures n < NUMBERS ==> n % NUMBERS == n
  {}

  lemma NextCount(n: nat)
    ensures n % NUMBERS + 1 < NUMBERS ==> (n + 1) % NUMBERS == n % NUMBERS + 1
    ensures n % NUMBERS + 1 >= NUMBERS ==> (n + 1) % NUMBERS == 0
  {}

  /** The record layer's writing state. */
  class RecordWriter {
    var wEpoch: nat
    var aead: Aead
    var lastAead: Option<Aead>
    const sequence: array<Byte>
    const lastSequence: array<Byte>
    ghost var turns: nat
    // The numbers used, and how many the current and the previous turn have taken so far.
    ghost var used: set<Used>
    ghost var taken: nat
    ghost var lastTaken: nat

    /** The counters are the counts of numbers taken, in 48 bits. */
    ghost predicate Valid()
      reads this, sequence, lastSequence
    {
      && sequence.Length == 8 && lastSequence.Length == 8 && sequence != lastSequence
      && wEpoch == turns % EPOCHS
      && (turns > 0 ==> lastAead.Some?) && (wEpoch > 0 ==> turns > 0)
      && Bounded(aead) && (lastAead.Some? ==> Bounded(lastAead.value))
      && NextNumber(false) == taken % NUMBERS && NextNumber(true) == lastTaken % NUMBERS
      && Counted(used, turns, taken, lastTaken)
    }

    constructor (aead: Aead)
      requires Bounded(aead)
      ensures Valid() && fresh(sequence) && fresh(lastSequence)
      ensures wEpoch == 0 && turns == 0 && used == {} && taken == 0 && lastTaken == 0 && this.aead == aead
    {
      wEpoch, lastAead, turns, used, taken, lastTaken := 0, None, 0, {}, 0, 0;
      this.aead := aead;
      sequence := new Byte[8](_ => 0);
      lastSequence := new Byte[8](_ => 0);
      new;
      assert sequence[2..] == Zeros(6) && lastSequence[2..] == Zeros(6);
      ZerosAreZero(6);
    }

    /** get_write_aead; there is a last cipher whenever there was an earlier epoch. */
    function WriteAead(previous: bool): Aead
      reads this`aead, this`lastAead
    {
      if previous && lastAead.Some? then lastAead.value else aead
    }

    /** The turn whose number the next record of that epoch takes. */
    ghost function TurnOf(previous: bool): nat
      requires previous ==> turns > 0
      reads this
    {
      if previous then turns - 1 else turns
    }

    ghost function NextNumber(previous: bool): nat
      requires sequence.Length == 8 && lastSequence.Length == 8
      reads this, sequence, lastSequence
    {
      FromBigEndian(if previous then lastSequence[2..] else sequence[2..])
    }

    /** How many numbers have been taken in the turn of that epoch. */
    ghost function Taken(previous: bool): nat
      reads this
    {
      if previous then lastTaken else taken
    }

    /** What dtls_seal_record writes: the header, with the version of the current cipher, and the ciphertext. */
    ghost predicate Sealed(out: seq<Byte>, kind: Byte, text: seq<Byte>, previous: bool, epoch: nat, n: nat)
      reads this`aead, this`lastAead
    {
      var number := RecordNumber(epoch, n);
      var body := WriteAead(previous).seal(kind, aead.recordVersion, number, text);
      body.Some? && |body.value| < 0x1_0000 && out == RecordBytes(kind, aead.recordVersion, number, body.value)
    }

    /** What the cipher makes of the text under the n-th number of that epoch. */
    ghost function Ciphertext(kind: Byte, text: seq<Byte>, previous: bool, n: nat): Option<seq<Byte>>
      requires previous ==> wEpoch >= 1
      reads this`aead, this`lastAead, this`wEpoch
    {
      WriteAead(previous).seal(kind, aead.recordVersion,
                               RecordNumber(if previous then wEpoch - 1 else wEpoch, n % NUMBERS), text)
    }

    /** The cipher gives a result and it fits: the number is taken. */
    ghost predicate Takes(maxOut: nat, kind: Byte, text: seq<Byte>, previous: bool, n: nat)
      requires previous ==> wEpoch >= 1
      reads this`aead, this`lastAead, this`wEpoch
    {
      var body := Ciphertext(kind, text, previous, n);
      body.Some? && RT_HEADER + |body.value| <= maxOut
    }

    /** dtls_seal_record writes a record: a number is taken, it is not the last, and the length has 16 bits. */
    ghost predicate WouldSeal(maxOut: nat, kind: Byte, text: seq<Byte>, previous: bool, n: nat)
      requires previous ==> wEpoch >= 1
      reads this`aead, this`lastAead, this`wEpoch
    {
      && Takes(maxOut, kind, text, previous, n)
      && |Ciphertext(kind, text, previous, n).value| < 0x1_0000 && n % NUMBERS + 1 < NUMBERS
    }

    /** The sequence number of that epoch is taken. */
    method Advance(previous: bool) returns (ok: bool)
      requires Valid() && (previous ==> turns > 0)
      modifies this`used, this`taken, this`lastTaken, sequence, lastSequence
      ensures Valid()
      ensures ok <==> old(Taken(previous)) % NUMBERS + 1 < NUMBERS
      ensures Taken(previous) == old(Taken(previous)) + 1 && Taken(!previous) == old(Taken(!previous))
      ensures used == old(used) + {Used(TurnOf(previous), old(Taken(previous)) % NUMBERS)}
      ensures Used(TurnOf(previous), old(Taken(previous)) % NUMBERS) in old(used) <==> old(Taken(previous)) >= NUMBERS
    {
      hide BigEndian, FromBigEndian, Counted;
      ghost var n := Taken(previous);
      TakeNumber(used, turns, taken, lastTaken, previous);
      NextCount(n);
      ok := SequenceUpdate(if previous then lastSequence else sequence);
      used := used + {Used(TurnOf(previous), n % NUMBERS)};
      if previous { lastTaken := lastTaken + 1; } else { taken := taken + 1; }
    }

    /** dtls_seal_record, with `maxOut` bytes of room. */
    method Seal(maxOut: nat, kind: Byte, text: seq<Byte>, previous: bool) returns (out: Option<seq<Byte>>)
      requires Valid() && (previous ==> wEpoch >= 1)
      modifies this`used, this`taken, this`lastTaken, sequence, lastSequence
      ensures Valid()
      ensures out.Some? <==> WouldSeal(maxOut, kind, text, previous, old(Taken(previous)))
      ensures out.Some? ==>
                && |out.value| == RT_HEADER + |Ciphertext(kind, text, previous, old(Taken(previous))).value| <= maxOut
                && RT_HEADER <= |out.value| <= RT_HEADER + |text| + WriteAead(previous).maxOverhead
                && Sealed(out.value, kind, text, previous, if previous then wEpoch - 1 else wEpoch, old(Taken(previous)) % NUMBERS)
      ensures out.Some? ==> Taken(previous) == old(Taken(previous)) + 1
      ensures var takes := Takes(maxOut, kind, text, previous, old(Taken(previous)));
              Taken(previous) == old(Taken(previous)) + (if takes then 1 else 0)
                && Taken(!previous) == old(Taken(!previous))
              && used == old(used) + (if takes then {Used(TurnOf(previous), old(Taken(previous)) % NUMBERS)} else {})
      ensures out.Some? ==>
                (Used(TurnOf(previous), old(Taken(previous)) % NUMBERS) in old(used) <==> old(Taken(previous)) >= NUMBERS)
    {
      hide BigEndian, FromBigEndian, Counted, RecordBytes;
      var epoch := if previous then wEpoch - 1 else wEpoch;
      var cipher := WriteAead(previous);
      var counter := if previous then lastSequence else sequence;
      if maxOut < RT_HEADER { return None; }
      ghost var n := Taken(previous);
      var number := BigEndian(epoch, 2) + counter[2..];
      BigEndianOfBytes(counter[2..]);
      assert number == RecordNumber(epoch, n % NUMBERS);
      var version := aead.recordVersion;
      var body := cipher.seal(kind, version, number, text);
      if body.None? || |body.value| > maxOut - RT_HEADER { return None; }
      var ok := Advance(previous);
      if !ok || |body.value| >= 0x1_0000 { return None; }
      out := Some(RecordBytes(kind, version, number, body.value));
    }

    /** dtls1_set_write_state. */
    method NextEpoch(aead: Aead)
      requires Valid() && Bounded(aead)
      modifies this, sequence, lastSequence
      ensures Valid()
      ensures wEpoch == (old(wEpoch) + 1) % EPOCHS && turns == old(turns) + 1
      ensures this.aead == aead && lastAead == Some(old(this.aead))
      ensures lastSequence[..] == old(sequence[..]) && NextNumber(false) == 0
      ensures used == old(used) && taken == 0 && lastTaken == old(taken)
    {
      hide FromBigEndian;
      NextTurn(turns);
      wEpoch := (wEpoch + 1) % EPOCHS;
      forall i | 0 <= i < 8 { lastSequence[i] := sequence[i]; }
      assert lastSequence[2..] == old(sequence[2..]);
      forall i | 0 <= i < 8 { sequence[i] := 0; }
      lastAead := Some(this.aead);
      this.aead := aead;
      turns := turns + 1;
      taken, lastTaken := 0, taken;
      assert sequence[2..] == Zeros(6);
      ZerosAreZero(6);
      assert lastSequence[2..] == old(sequence[2..]);
    }
  }

  /** The cipher that writes and reads everything as it is. */
  function Plain(): (a: Aead)
    ensures Bounded(a)
  {
    Aead(true, 0xfeff, 0, 0, (kind, version, number, text) => Some(text), (kind, version, number, body) => Some(body))
  }

  lemma PlainSeals(w: RecordWriter, text: seq<Byte>, n: nat)
    requires w.aead == Plain() && |text| <= 1
    ensures w.WouldSeal(RT_HEADER + 1, RT_HANDSHAKE, text, false, n) <==> n % NUMBERS != NUMBERS - 1
    ensures w.Takes(RT_HEADER + 1, RT_HANDSHAKE, text, false, n)
    ensures n < NUMBERS - 1 ==> n % NUMBERS != NUMBERS - 1
    ensures (NUMBERS - 1) % NUMBERS == NUMBERS - 1 && NUMBERS % NUMBERS == 0
  {}

  /**
   * A run with 2^48 numbers in one epoch: the counter comes round to zero with an error, the next record is
   * sealed under number 0 for a second time, and nothing stops it.
   */
  method NumberReused() returns (w: RecordWriter, first: seq<Byte>, again: seq<Byte>)
    ensures w.Valid() && w.turns == 0 && w.taken == NUMBERS + 1
    ensures w.Sealed(first, RT_HANDSHAKE, [], false, 0, 0) && w.Sealed(again, RT_HANDSHAKE, [1], false, 0, 0)
  {
    hide BigEndian, FromBigEndian, Counted, RecordBytes;
    hide RecordWriter.WouldSeal, RecordWriter.Takes, Plain;
    w := new RecordWriter(Plain());
    PlainSeals(w, [], 0);
    var sealed := w.Seal(RT_HEADER + 1, RT_HANDSHAKE, [], false);
    first := sealed.value;
    var i := 1;
    while i < NUMBERS - 1
      invariant 1 <= i <= NUMBERS - 1 && w.Valid() && w.turns == 0
      invariant w.aead == Plain() && w.taken == i && fresh(w) && fresh(w.sequence) && fresh(w.lastSequence)
    {
      PlainSeals(w, [], i);
      sealed := w.Seal(RT_HEADER + 1, RT_HANDSHAKE, [], false);
      i := i + 1;
    }
    again := ComeRound(w);
  }

  method ComeRound(w: RecordWriter) returns (again: seq<Byte>)
    requires w.Valid() && w.turns == 0 && w.aead == Plain() && w.taken == NUMBERS - 1
    modifies w`used, w`taken, w`lastTaken, w.sequence, w.lastSequence
    ensures w.Valid() && w.taken == NUMBERS + 1 && w.Sealed(again, RT_HANDSHAKE, [1], false, 0, 0)
  {
    hide BigEndian, FromBigEndian, Counted, RecordBytes, RecordWriter.WouldSeal, RecordWriter.Takes, Plain;
    PlainSeals(w, [], NUMBERS - 1);
    PlainSeals(w, [1], NUMBERS);
    var sealed := w.Seal(RT_HEADER + 1, RT_HANDSHAKE, [], false);
    assert sealed.None?;
    sealed := w.Seal(RT_HEADER + 1, RT_HANDSHAKE, [1], false);
    again := sealed.value;
  }

  /**
   * A run in which the 16-bit epoch comes round: after 65,536 changes of the read cipher a record number of
   * the first epoch is accepted for a second time.
   */
  method EpochComesRound() returns (r: RecordReader)
    ensures r.Valid() && r.turns == EPOCHS && r.history == [Accepted(0, 0), Accepted(EPOCHS, 0)]
  {
    hide BigEndian, FromBigEndian, RecordBytes;
    r := new RecordReader(Plain());
    var input := RecordBytes(RT_HANDSHAKE, 0xfeff, RecordNumber(0, 0), []);
    SealedIsAuthentic(r, RT_HANDSHAKE, 0xfeff, 0, 0, [], [], []);
    assert input + [] == input;
    RecordNumberValue(0, 0);
    var opened0, consumed := r.Open(input);
    var i := 0;
    while i < EPOCHS
      invariant 0 <= i <= EPOCHS && r.Valid() && r.turns == i && r.history == [Accepted(0, 0)]
      invariant r.aead == Plain() && !r.closed && fresh(r) && fresh(r.bitmap)
      invariant i > 0 ==> r.bitmap.recorded == {}
    {
      r.NextEpoch(Plain());
      i := i + 1;
    }
    SealedIsAuthentic(r, RT_HANDSHAKE, 0xfeff, 0, 0, [], [], []);
    opened0, consumed := r.Open(input);
  }

  /**
   * A sealed record that arrives intact is opened to its text, whatever follows it in the packet: nothing
   * but a repeat, a stale number or another epoch stands in the way.
   */
  lemma SealedIsAuthentic(r: RecordReader, kind: Byte, version: nat, epoch: nat, n: nat, body: seq<Byte>,
                          text: seq<Byte>, rest: seq<Byte>)
    requires r.Valid() && !r.closed && r.VersionOk(version) && version < 0x1_0000
    requires epoch == r.rEpoch && n < NUMBERS && |body| <= MAX_ENCRYPTED
    requires Accepted(r.turns, epoch * NUMBERS + n) !in r.history
    requires epoch * NUMBERS + n + WINDOW > r.bitmap.maxSeqNum
    requires r.aead.open(kind, version, RecordNumber(epoch, n), body) == Some(text)
    ensures var input := RecordBytes(kind, version, RecordNumber(epoch, n), body) + rest;
            ParseRecord(input) == Some(Record(kind, version, RecordNumber(epoch, n), body, rest))
            && r.Authentic(ParseRecord(input).value)
  {
    hide FromBigEndian, BigEndian;
    ParseOfRecord(kind, version, RecordNumber(epoch, n), body, rest);
    RecordNumberValue(epoch, n);
    Quotient(epoch * NUMBERS + n, NUMBERS, epoch, n);
  }
}
