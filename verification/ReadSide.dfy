/** The reading half of a DTLS connection: the record layer in front of the handshake ring. */
module ReadSide {
  import opened Bits
  import opened Wire
  import opened DtlsRecord
  import opened Reassembly
  import opened Inbox
  import opened Receiver

  /** ssl_open_record_t. */
  datatype ReadResult = Done | Skipped | NeedMore | Closed | AlertRecord(text: seq<Byte>) | Overflow | Failed(alert: AlertDesc)

  /** What is answered to a record that was opened, given what the ring says of a handshake record; the content types
      are those of section 6.2.1 of RFC 5246. */
  function Answer(kind: Byte, nullCipher: bool, text: seq<Byte>, alert: Option<AlertDesc>): ReadResult
  {
    if kind == 21 then AlertRecord(text)
    else if kind == 22 then if alert.None? then Done else Failed(alert.value)
    else if kind == 20 && nullCipher then if text == [1] then Done else Failed(IllegalParameter)
    else if kind == 23 && !nullCipher then Skipped
    else Failed(UnexpectedMessage)
  }

  class Reader {
    const records: RecordReader
    const ring: HandshakeReceiver

    ghost predicate Valid()
      reads this, records, records.bitmap, ring, ring.Repr
    {
      && records.Valid() && ring.Valid()
      && (records as object) !in ring.Repr && (records.bitmap as object) !in ring.Repr
      && (this as object) !in ring.Repr
    }

    constructor (flight: nat, aead: Aead)
      requires 0 < flight < 256
      ensures Valid() && ring.slots.Length == flight && ring.Contents() == Inbox(0, map[]) && records.history == []
      ensures fresh(records) && fresh(records.bitmap) && fresh(ring) && fresh(ring.Repr)
      ensures records.turns == 0 && records.bitmap.recorded == {} && records.bitmap.maxSeqNum == 0
      ensures records.aead == aead && records.rEpoch == 0 && !records.closed && !ring.hasCcs
    {
      records := new RecordReader(aead);
      ring := new HandshakeReceiver(flight);
    }

    /** The packet starts with a record that is opened: authentic, new, and of no more than 2^14 bytes. */
    ghost predicate Opened(input: seq<Byte>)
      reads this, records, records.bitmap
    {
      var p := ParseRecord(input);
      && p.Some? && records.Authentic(p.value)
      && |records.aead.open(p.value.kind, p.value.version, p.value.number, p.value.body).value| <= MAX_PLAIN
    }

    /** What the ring takes from a packet: the text of a handshake record that is authentic and new. */
    ghost function Taken(maxLen: nat, input: seq<Byte>): Inbox
      requires Valid()
      reads this, records, records.bitmap, ring, ring.Repr
    {
      if Opened(input) && ParseRecord(input).value.kind == RT_HANDSHAKE then
        TakeRecord(ring.Contents(), Config(ring.slots.Length, maxLen, records.rEpoch == 1), TextOf(input)).inbox
      else ring.Contents()
    }

    /** What the cipher makes of the record. */
    ghost function TextOf(input: seq<Byte>): seq<Byte>
      requires Opened(input)
      reads this, records, records.bitmap
    {
      var p := ParseRecord(input).value;
      records.aead.open(p.kind, p.version, p.number, p.body).value
    }

    /** The packet starts with a ChangeCipherSpec in the clear, which is noted. */
    ghost predicate CcsIn(input: seq<Byte>)
      reads this, records, records.bitmap
    {
      Opened(input) && ParseRecord(input).value.kind == RT_CCS && records.aead.isNull && TextOf(input) == [1]
    }

    /** The alert that a handshake record draws from the ring, if any. */
    ghost function AlertOf(maxLen: nat, input: seq<Byte>): Option<AlertDesc>
      requires Valid() && Opened(input)
      reads this, records, records.bitmap, ring, ring.Repr
    {
      TakeRecord(ring.Contents(), Config(ring.slots.Length, maxLen, records.rEpoch == 1), TextOf(input)).alert
    }

    /** The answer to a packet. */
    ghost function Reply(maxLen: nat, input: seq<Byte>): ReadResult
      requires Valid()
      reads this, records, records.bitmap, ring, ring.Repr
    {
      if records.closed then Closed
      else if input == [] then NeedMore
      else if ParseRecord(input).None? || !records.Authentic(ParseRecord(input).value) then Skipped
      else if !Opened(input) then Overflow
      else Answer(ParseRecord(input).value.kind, records.aead.isNull, TextOf(input), AlertOf(maxLen, input))
    }

    /** dtls1_open_handshake. */
    method OpenHandshake(maxLen: nat, input: seq<Byte>) returns (r: ReadResult, consumed: nat)
      requires Valid()
      modifies records`history, records.bitmap, ring.Repr
      ensures Valid() && consumed <= |input| && fresh(ring.Repr - old(ring.Repr))
      ensures r == old(Reply(maxLen, input)) && consumed == old(records.Consumed(input))
      ensures ring.hasCcs == (old(ring.hasCcs) || old(CcsIn(input)))
      ensures ring.Contents() == old(Taken(maxLen, input))
      ensures ring.readSeq == old(ring.readSeq) && ring.hasMessage == old(ring.hasMessage)
      ensures old(records.history) <= records.history && |records.history| <= |old(records.history)| + 1
      ensures r.Closed? <==> records.closed
      ensures r.NeedMore? <==> !records.closed && input == []
      ensures r.Done? || r.Failed? ==> |records.history| == |old(records.history)| + 1
      ensures ring.hasCcs ==> old(ring.hasCcs) || r.Done?
      ensures !old(Opened(input)) || ParseRecord(input).value.kind != RT_HANDSHAKE ==> ring.Contents() == old(ring.Contents())
      ensures records.history == old(records.history) ==> ring.Contents() == old(ring.Contents())
      ensures records.history == old(records.history)
              + if old(Opened(input)) then [Accepted(records.turns, FromBigEndian(ParseRecord(input).value.number))] else []
      ensures records.bitmap.recorded == old(records.bitmap.recorded)
              + if old(Opened(input)) then {FromBigEndian(ParseRecord(input).value.number)} else {}
    {
      hide ParseRecord, TakeRecord, HandshakeReceiver.Valid, HandshakeReceiver.Contents, RecordReader.Valid;
      var got: Opened;
      got, consumed := records.Open(input);
      match got
      case CloseNotify => r := Closed;
      case Partial => r := NeedMore;
      case Discard => r := Skipped;
      case TooLong => r := Overflow;
      case Alert(text) => r := AlertRecord(text);
      case Success(kind, text) =>
        var c := Config(ring.slots.Length, maxLen, records.rEpoch == 1);
        var handled := ring.OpenHandshake(c, records.aead.isNull, kind, text);
        r := if handled.Processed? then Done else if handled.Discarded? then Skipped else Failed(handled.alert);
    }

    /** dtls1_open_change_cipher_spec. */
    method OpenChangeCipherSpec(maxLen: nat, input: seq<Byte>) returns (r: ReadResult, consumed: nat)
      requires Valid()
      modifies records`history, records.bitmap, ring.Repr
      ensures Valid() && consumed <= |input| && fresh(ring.Repr - old(ring.Repr))
      ensures r.Done? <==> old(ring.hasCcs) || old(CcsIn(input))
      ensures !r.Done? ==> r == if old(Reply(maxLen, input)).Done? then Skipped else old(Reply(maxLen, input))
      ensures consumed == if old(ring.hasCcs) then 0 else old(records.Consumed(input))
      ensures !ring.hasCcs
      ensures records.bitmap.recorded == old(records.bitmap.recorded)
              + if !old(ring.hasCcs) && old(Opened(input)) then {FromBigEndian(ParseRecord(input).value.number)} else {}
      ensures old(ring.hasCcs) || !old(Opened(input)) || ParseRecord(input).value.kind != RT_HANDSHAKE ==>
                ring.Contents() == old(ring.Contents())
      ensures old(ring.hasCcs) ==> consumed == 0 && records.history == old(records.history)
      ensures ring.Contents() == (if old(ring.hasCcs) then old(ring.Contents()) else old(Taken(maxLen, input)))
    {
      hide Taken, Opened, ParseRecord, TakeRecord;
      CcsIsDone(maxLen, input);
      hide CcsIn, Reply;
      r, consumed := Skipped, 0;
      if !ring.hasCcs {
        r, consumed := OpenHandshake(maxLen, input);
        if !r.Done? { return; }
      }
      if ring.hasCcs {
        ring.ClearCcs();
        r := Done;
      } else {
        r := Skipped;
      }
    }

    /**
     * What an opened record is answered with: success for a handshake record exactly without an alert, and for a
     * ChangeCipherSpec (20) exactly in the clear with its one byte; alerts (21) and application data (23) are none.
     */
    lemma ReplyToOpened(maxLen: nat, input: seq<Byte>)
      requires Valid() && Opened(input)
      ensures var kind, r := ParseRecord(input).value.kind, Reply(maxLen, input);
              && (kind == 22 ==> r == if AlertOf(maxLen, input).None? then Done else Failed(AlertOf(maxLen, input).value))
              && (kind == 20 ==> (r.Done? <==> CcsIn(input)) && (!r.Done? ==> r.Failed?))
              && (kind == 21 ==> r == AlertRecord(TextOf(input)))
              && (kind == 23 ==> r == if records.aead.isNull then Failed(UnexpectedMessage) else Skipped)
              && (kind !in {20, 21, 22, 23} ==> r == Failed(UnexpectedMessage))
    {
      hide ParseRecord, TakeRecord;
    }

    /** A ChangeCipherSpec that is noted is a success. */
    lemma CcsIsDone(maxLen: nat, input: seq<Byte>)
      requires Valid()
      ensures CcsIn(input) ==> Reply(maxLen, input).Done?
    {
      hide ParseRecord, TakeRecord;
    }

    /** dtls1_set_read_state: refused while anything but the current message is buffered. */
    method SetReadState(aead: Aead) returns (ok: bool)
      requires Valid()
      modifies records`rEpoch, records`aead, records`turns, records.bitmap
      ensures Valid() && ring.Contents() == old(ring.Contents())
      ensures ok <==> !ring.hasCcs && ring.Contents().msgs.Keys <= (if ring.hasMessage then {ring.readSeq} else {})
      ensures ok ==> records.turns == old(records.turns) + 1 && records.rEpoch == (old(records.rEpoch) + 1) % EPOCHS
                     && records.aead == aead && records.bitmap.recorded == {}
      ensures !ok ==> records.rEpoch == old(records.rEpoch) && records.turns == old(records.turns)
                      && records.bitmap.recorded == old(records.bitmap.recorded)
    {
      hide HandshakeReceiver.Valid, HandshakeReceiver.Contents;
      var unprocessed := ring.HasUnprocessed();
      if unprocessed { return false; }
      records.NextEpoch(aead);
      return true;
    }
  }

  /** The packet of a first ChangeCipherSpec, byte by byte. */
  const FIRST_CCS: seq<Byte> := [0x14, 0xfe, 0xff, 0, 0, 0, 0, 0, 0, 0, 0, 0, 1, 1]

  /** A new connection that reads it. */
  method ReadFirstCcs(flight: nat, aead: Aead) returns (reader: Reader, r: ReadResult, consumed: nat)
    requires 0 < flight < 256 && Clear(aead)
    ensures fresh(reader) && r.Done? && consumed == 14 && reader.ring.hasCcs
  {
    reader := new Reader(flight, aead);
    RecordLayout(20, 0xfeff, 0, 0, [1]);
    assert RecordBytes(20, 0xfeff, RecordNumber(0, 0), [1]) + [] == FIRST_CCS;
    ClearSeals(aead, 20, 0xfeff, RecordNumber(0, 0), [1]);
    SealedIsAuthentic(reader.records, 20, 0xfeff, 0, 0, [1], [1], []);
    r, consumed := reader.OpenHandshake(0, FIRST_CCS);
  }
}
