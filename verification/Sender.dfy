/** Packing a flight of DTLS handshake messages into packets, with a cursor that can be resumed and rewound. */
module Sender {
  import opened Bits
  import opened Wire
  import opened DtlsRecord
  import opened Flight
  import opened Outbox

  const MIN_MTU: nat := 228
  const DEFAULT_MTU: nat := 1472

  datatype SealResult = SealError | NoProgress | SealPartial | SealSuccess

  datatype PacketResult = Packet(bytes: seq<Byte>) | MtuTooSmall | PacketError

  datatype FlightResult = FlightSent | WriteBlocked | FlushBlocked | Shutdown | TooSmall | Broken

  /** The cursor, and how many numbers the current and the previous epoch have taken. */
  datatype Position = Position(cursor: Cursor, next: nat, last: nat)

  /** What sealing the next record comes to: no room for it, a failure, or a record of some size. */
  datatype Attempt = NoRoom | Fails | Made(s: Sent, size: nat, after: Position)

  /** What filling a packet comes to: the records made, and whether the one that was next failed. */
  datatype Filled = Filled(list: seq<Sent>, after: Position, failed: bool)

  function Prepend(list: seq<Sent>, f: Filled): Filled { f.(list := list + f.list) }

  lemma NothingPrepended(f: Filled)
    ensures Prepend([], f) == f
  {}

  function KindOf(s: Sent): Byte { if s.SentCcs? then RT_CCS else RT_HANDSHAKE }

  function TextOf(s: Sent): seq<Byte> { if s.SentCcs? then [1] else Serialize(s.frag) }

  lemma TurnBefore(turns: nat)
    requires turns % EPOCHS > 0
    ensures (turns - 1) % EPOCHS == turns % EPOCHS - 1
  {}

  lemma CutFits(data: seq<Byte>, offset: nat, len: nat)
    requires Whole(data) && offset + len <= |Unfragmented(data).body|
    ensures Fits(Cut(data, offset, len)) && CutOf(Cut(data, offset, len), data)
  {
    hide BigEndian, FromBigEndian, HeaderBytes;
    SerializeOfParse(data);
  }

  /** The MTU after dtls1_update_mtu. */
  function NewMtu(mtu: nat, noQuery: bool, query: int): (r: nat)
    ensures noQuery || r >= 228
  {
    if mtu >= 228 || noQuery then mtu else if 228 <= query <= 0x4000_0000 then query else 1472
  }

  /** A datagram transport: each write takes a whole packet, or takes nothing and says so. */
  class Datagrams {
    // It never refuses a packet.
    const eager: bool
    var packets: seq<seq<Byte>>

    constructor (eager: bool)
      ensures packets == [] && this.eager == eager
    {
      this.eager, packets := eager, [];
    }

    method Write(packet: seq<Byte>) returns (r: int)
      modifies this
      ensures packets == if r > 0 then old(packets) + [packet] else old(packets)
      ensures eager ==> r > 0
    {
      r := *;
      if eager && r <= 0 { r := 1; }
      if r > 0 { packets := packets + [packet]; }
    }

    method Flush() returns (r: int)
      ensures eager ==> r > 0
    {
      r := *;
      if eager && r <= 0 { r := 1; }
    }
  }

  class FlightSender {
    const maxFlight: nat
    const records: RecordWriter
    var outgoing: seq<Outgoing>
    var written: nat
    var offset: nat
    var complete: bool
    var hasReply: bool
    var writeSeq: nat
    var mtu: nat
    // The records the cursor has passed since the last rewind, and those of them written out.
    ghost var pass: seq<Sent>
    ghost var onWire: seq<Sent>
    // Every handshake message ever added, the turn it was added in, and every handshake record ever sealed.
    ghost var added: seq<seq<Byte>>
    ghost var turnOf: seq<nat>
    ghost var sent: set<Rec>

    ghost predicate Valid()
      reads this, records, records.sequence, records.lastSequence
    {
      && records.Valid()
      && CursorOk() && AddedOk()
      && PassOk(pass)
    }

    /** What is on the wire is all of these records, or some are missing. */
    ghost predicate PassOk(pass: seq<Sent>)
      reads this`onWire
    {
      onWire == pass || |onWire| < |pass|
    }

    /** The flight is of messages that were added, whole and numbered. */
    ghost predicate AddedOk()
      reads this`added, this`turnOf, this`outgoing, this`writeSeq, this`hasReply, this`complete
    {
      && |outgoing| <= maxFlight && 0 < maxFlight < 256
      && writeSeq == |added| % SEQUENCES
      && |turnOf| == |added| && Messages(outgoing) <= |added|
      && (hasReply ==> complete)
      && (forall k :: 0 <= k < |added| ==> Whole(added[k]) && Unfragmented(added[k]).seqNo == k % SEQUENCES)
      && (forall m :: m in outgoing && !m.isCcs ==> m.data in added)
    }

    /** The cursor is where the records of this pass lead. */
    ghost predicate CursorOk()
      reads this`outgoing, this`written, this`offset, this`pass
    {
      CursorAt(Cursor(written, offset), pass)
    }

    ghost predicate CursorAt(c: Cursor, pass: seq<Sent>)
      reads this`outgoing
    {
      && FollowAll(outgoing, START, pass) == Some(c)
      && c.written <= |outgoing|
      && (c.offset > 0 ==> c.written < |outgoing| && !outgoing[c.written].isCcs && Whole(outgoing[c.written].data)
                           && c.offset < |Unfragmented(outgoing[c.written].data).body|)
    }

    ghost function Out(): Outbox
      reads this`added, this`turnOf, this`outgoing, this`complete, this`sent
      reads records`turns, records`taken, records`lastTaken
    {
      Outbox(added, turnOf, outgoing, complete, records.turns, records.taken, records.lastTaken, sent)
    }

    ghost function Now(): Position
      reads this`written, this`offset, records`taken, records`lastTaken
    {
      Position(Cursor(written, offset), records.taken, records.lastTaken)
    }

    lemma PassFollows()
      requires Valid()
      ensures FollowAll(outgoing, START, pass) == Some(Cursor(written, offset)) && written <= |outgoing| && maxFlight > 0
    {}

    constructor (maxFlight: nat, aead: Aead)
      requires 0 < maxFlight < 256 && Bounded(aead)
      ensures Valid() && fresh(records) && fresh(records.sequence) && fresh(records.lastSequence)
      ensures this.maxFlight == maxFlight && Out() == EMPTY && Now() == Position(START, 0, 0) && onWire == [] && pass == []
      ensures records.aead == aead && records.wEpoch == 0 && !complete && mtu == 0
    {
      this.maxFlight := maxFlight;
      outgoing, written, offset, complete, hasReply, writeSeq, mtu := [], 0, 0, false, false, 0, 0;
      pass, onWire, added, turnOf, sent := [], [], [], [], {};
      records := new RecordWriter(aead);
    }

    /** dtls_clear_outgoing_messages. */
    method Clear()
      requires Valid()
      modifies this
      ensures Valid()
      ensures outgoing == [] && written == 0 && offset == 0 && !complete && !hasReply && pass == []
      ensures added == old(added) && writeSeq == old(writeSeq) && mtu == old(mtu)
      ensures Out() == Dropped(old(Out()))
    {
      hide RecordWriter.Valid, Whole, Unfragmented, Messages, Follow;
      outgoing, written, offset, complete, hasReply := [], 0, 0, false, false;
      pass, onWire := [], [];
    }

    /** dtls1_init_message and dtls1_finish_message: the header is written with the total length left at
      * zero, the body follows, and the fragment length is then copied over the total length. */
    method BuildMessage(kind: Byte, body: seq<Byte>) returns (data: Option<seq<Byte>>)
      requires writeSeq < SEQUENCES
      ensures data.Some? <==> |body| < 0x100_0000
      ensures data.Some? ==> data.value == Serialize(Fragment(kind, |body|, writeSeq, 0, body))
    {
      hide BigEndian;
      if |body| >= 0x100_0000 { return None; }
      var msg := HeaderBytes(kind, 0, writeSeq, 0, |body|) + body;
      HeaderParts(kind, 0, writeSeq, 0, |body|);
      HeaderParts(kind, |body|, writeSeq, 0, |body|);
      var fixed := msg[..1] + msg[HM_HEADER - 3..HM_HEADER] + msg[4..];
      data := Some(fixed);
      assert fixed == Serialize(Fragment(kind, |body|, writeSeq, 0, body));
    }

    /** The tail of add_outgoing: the entry goes last. */
    method Append(isCcs: bool, data: seq<Byte>)
      requires Valid() && |outgoing| < maxFlight
      requires !isCcs ==> Whole(data) && Unfragmented(data).seqNo == writeSeq
      modifies this`writeSeq, this`added, this`turnOf, this`outgoing
      ensures Valid()
      ensures added == if isCcs then old(added) else old(added) + [data]
      ensures turnOf == if isCcs then old(turnOf) else old(turnOf) + [records.turns]
      ensures outgoing == old(outgoing) + [Outgoing(isCcs, records.wEpoch, data)]
    {
      hide FollowAll, Whole, Unfragmented, Messages, RecordWriter.Valid;
      if !isCcs {
        writeSeq := (writeSeq + 1) % SEQUENCES;
        added := added + [data];
        turnOf := turnOf + [records.turns];
      }
      var m := Outgoing(isCcs, records.wEpoch, data);
      MessagesOfOneMore(outgoing, m);
      FollowInLonger(outgoing, m, START, pass);
      outgoing := outgoing + [m];
    }

    /** add_outgoing, after the transcript has been updated. */
    method AddOutgoing(isCcs: bool, data: seq<Byte>) returns (ok: bool)
      requires Valid()
      requires !isCcs ==> Whole(data) && Unfragmented(data).seqNo == writeSeq
      modifies this
      ensures Valid()
      ensures ok <==> (old(complete) || |old(outgoing)| < maxFlight) && |data| <= 0xffff_ffff
      ensures added == if ok && !isCcs then old(added) + [data] else old(added)
      ensures turnOf == if ok && !isCcs then old(turnOf) + [records.turns] else old(turnOf)
      ensures var kept := if old(complete) then [] else old(outgoing);
              outgoing == if ok then kept + [Outgoing(isCcs, records.wEpoch, data)] else kept
      ensures mtu == old(mtu) && pass == (if old(complete) then [] else old(pass)) && sent == old(sent) && !complete
      ensures Now().cursor == (if old(complete) then START else old(Now()).cursor)
      ensures !old(complete) ==> onWire == old(onWire)
    {
      hide Valid, Whole, Unfragmented;
      PassFollows();
      if complete { Clear(); }
      if |outgoing| >= maxFlight || |data| > 0xffff_ffff { return false; }
      Append(isCcs, data);
      return true;
    }

    /** ssl_add_message_cbb on DTLS: build a handshake message and add it to the flight. */
    method AddMessage(kind: Byte, body: seq<Byte>) returns (ok: bool)
      requires Valid()
      modifies this
      ensures Valid()
      ensures ok <==> |body| < 0x100_0000 && (old(complete) || |old(outgoing)| < maxFlight)
      ensures added == if ok then old(added) + [Serialize(Fragment(kind, |body|, |old(added)| % SEQUENCES, 0, body))]
                       else old(added)
      ensures outgoing == if !ok then old(outgoing)
                          else (if old(complete) then [] else old(outgoing))
                               + [Outgoing(false, records.wEpoch, added[|old(added)|])]
      ensures pass == (if ok && old(complete) then [] else old(pass))
      ensures mtu == old(mtu) && (ok ==> !complete)
      ensures !old(complete) ==> Now() == old(Now()) && onWire == old(onWire)
      ensures if ok then Adds(maxFlight, if old(complete) then Dropped(old(Out())) else old(Out()), kind, body, Out())
              else Out() == old(Out())
    {
      hide HeaderBytes, BigEndian, FromBigEndian, Messages;
      var data := BuildMessage(kind, body);
      if data.None? { return false; }
      var f := Fragment(kind, |body|, writeSeq, 0, body);
      ParseOfSerialize(f, []);
      assert Serialize(f) + [] == Serialize(f);
      ok := AddOutgoing(false, data.value);
    }

    /** dtls1_add_change_cipher_spec. */
    method AddChangeCipherSpec() returns (ok: bool)
      requires Valid()
      modifies this
      ensures Valid() && added == old(added)
      ensures ok <==> old(complete) || |old(outgoing)| < maxFlight
      ensures outgoing == if !ok then old(outgoing)
                          else (if old(complete) then [] else old(outgoing)) + [Outgoing(true, records.wEpoch, [])]
      ensures pass == (if old(complete) then [] else old(pass))
      ensures if ok then AddsCcs(maxFlight, if old(complete) then Dropped(old(Out())) else old(Out()), Out())
              else Out() == old(Out())
    {
      ok := AddOutgoing(true, []);
    }

    /** What dtls1_next_message does for the flight: a reply has come to a complete one. */
    method NoteReply()
      requires Valid()
      modifies this`hasReply
      ensures Valid() && hasReply == (old(hasReply) || complete)
    {
      hide FollowAll, Whole, Unfragmented, RecordWriter.Valid;
      if complete { hasReply := true; }
    }

    /** dtls1_on_handshake_complete: a last flight without a reply stays for retransmission. */
    method OnHandshakeComplete()
      requires Valid()
      modifies this
      ensures Valid() && added == old(added)
      ensures outgoing == (if old(hasReply) then [] else old(outgoing))
      ensures pass == (if old(hasReply) then [] else old(pass))
      ensures if old(hasReply) then Drops(old(Out()), Out()) else Out() == old(Out())
    {
      if hasReply { Clear(); }
    }

    /** dtls1_set_write_state: the flight stays, and is sealed under the last cipher from now on. */
    method SetWriteState(aead: Aead)
      requires Valid() && Bounded(aead)
      modifies records, records.sequence, records.lastSequence
      ensures Valid() && Turns(old(Out()), Out())
      ensures records.wEpoch == (old(records.wEpoch) + 1) % EPOCHS && records.aead == aead
    {
      hide FollowAll, Whole, Unfragmented;
      records.NextEpoch(aead);
    }

    /** The message was added in the current write epoch or the one before. */
    predicate EpochKnown(m: Outgoing)
      reads records`wEpoch
    {
      m.epoch == records.wEpoch || (records.wEpoch >= 1 && m.epoch == records.wEpoch - 1)
    }

    predicate Previous(m: Outgoing)
      reads records`wEpoch
    {
      records.wEpoch >= 1 && m.epoch == records.wEpoch - 1
    }

    /** dtls_max_seal_overhead. */
    function Overhead(m: Outgoing): nat
      reads records`wEpoch, records`aead, records`lastAead
    {
      RT_HEADER + records.WriteAead(Previous(m)).maxOverhead
    }

    /** The room the smallest next record of a message may need. */
    function Needed(m: Outgoing): nat
      reads records`wEpoch, records`aead, records`lastAead
    {
      (if m.isCcs then 1 else HM_HEADER + 1) + Overhead(m)
    }

    /** Sealing `s` as the next record, after which the cursor is `next`. */
    ghost function MadeAt(at: Position, room: nat, m: Outgoing, s: Sent, next: Cursor): Attempt
      reads records`wEpoch, records`aead, records`lastAead
    {
      var previous := Previous(m);
      var n := if previous then at.last else at.next;
      if !records.WouldSeal(room, KindOf(s), TextOf(s), previous, n) then Fails
      else Made(s, RT_HEADER + |records.Ciphertext(KindOf(s), TextOf(s), previous, n).value|,
                if previous then Position(next, at.next, at.last + 1) else Position(next, at.next + 1, at.last))
    }

    /** How much of the rest of a message goes into a record. */
    function Todo(m: Outgoing, offset: nat, room: nat): nat
      requires Whole(m.data) && offset <= |Unfragmented(m.data).body| && room >= Needed(m) && !m.isCcs
      reads records`wEpoch, records`aead, records`lastAead
    {
      var rest := |Unfragmented(m.data).body| - offset;
      if rest > room - HM_HEADER - Overhead(m) then room - HM_HEADER - Overhead(m) else rest
    }

    /** What seal_next_message comes to at a position with that much room. */
    ghost function Attempted(at: Position, room: nat): Attempt
      requires at.cursor.written < |outgoing|
      reads this`outgoing, records`wEpoch, records`aead, records`lastAead
    {
      var m := outgoing[at.cursor.written];
      if !EpochKnown(m) then Fails
      else if m.isCcs then
        if room < Needed(m) then NoRoom else MadeAt(at, room, m, SentCcs, Cursor(at.cursor.written + 1, 0))
      else if !Whole(m.data) || at.cursor.offset > |Unfragmented(m.data).body| then Fails
      else if room < Needed(m) then NoRoom
      else
        var todo := Todo(m, at.cursor.offset, room);
        var next := at.cursor.offset + todo;
        MadeAt(at, room, m, SentFragment(Cut(m.data, at.cursor.offset, todo)),
               if next == |Unfragmented(m.data).body| then Cursor(at.cursor.written + 1, 0)
               else Cursor(at.cursor.written, next))
    }

    /** What seal_next_packet comes to at a position with that much room. */
    ghost function Fill(at: Position, room: nat): Filled
      reads this`outgoing, records`wEpoch, records`aead, records`lastAead
      decreases |outgoing| - at.cursor.written
    {
      if at.cursor.written >= |outgoing| then Filled([], at, false)
      else
        match Attempted(at, room)
        case NoRoom => Filled([], at, false)
        case Fails => Filled([], at, true)
        case Made(s, size, after) =>
          if after.cursor.written <= at.cursor.written || size > room then Filled([s], after, false)
          else Prepend([s], Fill(after, room - size))
    }

    /** Where k packets of the MTU lead. */
    ghost function AfterPackets(at: Position, k: nat): Position
      reads this`outgoing, this`mtu, records`wEpoch, records`aead, records`lastAead
    {
      if k == 0 then at else Fill(AfterPackets(at, k - 1), mtu).after
    }

    /** The packet that comes after k packets of the MTU. */
    ghost function NextPacket(at: Position, k: nat): Filled
      reads this`outgoing, this`mtu, records`wEpoch, records`aead, records`lastAead
    {
      Fill(AfterPackets(at, k), mtu)
    }

    /** `out` is the sealed record of `s`. */
    ghost predicate IsRecordOf(out: seq<Byte>, s: Sent, m: Outgoing)
      reads records`wEpoch, records`aead, records`lastAead
    {
      exists n: nat :: n < NUMBERS && records.Sealed(out, KindOf(s), TextOf(s), Previous(m), m.epoch, n)
    }

    lemma RecordWitness(out: seq<Byte>, s: Sent, m: Outgoing, n: nat)
      requires n < NUMBERS && records.Sealed(out, KindOf(s), TextOf(s), Previous(m), m.epoch, n)
      ensures IsRecordOf(out, s, m)
    {}

    /** The entry at the cursor is the message that records of it name. */
    ghost function Current(): nat
      requires Valid() && written < |outgoing|
      reads this, records, records.sequence, records.lastSequence
    {
      MessagesFrom(outgoing, written);
      MessageOf(Out(), written)
    }

    /** One record of a message of the flight was sealed and has been put among those sent. */
    lemma SealedOne(before: Outbox, m: Outgoing, i: nat, r: Rec)
      requires i < |outgoing| && m == outgoing[i] && !m.isCcs && EpochKnown(m)
      requires records.wEpoch == records.turns % EPOCHS && (records.wEpoch > 0 ==> records.turns > 0)
      requires r.turn == (if Previous(m) then records.turns - 1 else records.turns) && CutOf(r.frag, m.data)
      requires before.flight == outgoing && before.turn == records.turns && MessageOf(before, i) == r.msg
      requires r.count == (if Previous(m) then before.last else before.next)
      requires Out() == (if Previous(m) then before.(last := before.last + 1, sent := before.sent + {r})
                         else before.(next := before.next + 1, sent := before.sent + {r}))
      ensures Sends(before, Out())
    {
      hide CutOf, Messages, Sends;
      if Previous(m) { TurnBefore(records.turns); }
      SendsOne(before, Out(), i, r);
    }

    lemma NumbersTaken(before: Outbox)
      requires before.next <= records.taken && before.last <= records.lastTaken
      requires Out() == before.(next := records.taken, last := records.lastTaken)
      ensures Sends(before, Out())
    {}

    /** dtls_seal_record on the text of a record of the message at the cursor. */
    method SealRecord(maxOut: nat, m: Outgoing, s: Sent, ghost next: Cursor) returns (out: Option<seq<Byte>>)
      requires Valid() && written < |outgoing| && m == outgoing[written] && EpochKnown(m)
      requires if s.SentCcs? then m.isCcs else !m.isCcs && CutOf(s.frag, m.data)
      modifies this`sent, records`used, records`taken, records`lastTaken, records.sequence, records.lastSequence
      ensures records.Valid() && Sends(old(Out()), Out())
      ensures MadeAt(old(Now()), maxOut, m, s, next)
              == if out.None? then Fails else Made(s, |out.value|, Position(next, records.taken, records.lastTaken))
      ensures out.Some? ==> 0 < |out.value| <= maxOut && IsRecordOf(out.value, s, m)
    {
      hide BigEndian, FromBigEndian, HeaderBytes, IsRecordOf, RecordNumber, Serialize, Whole, Unfragmented, CutOf,
           FollowAll, Messages, RecordWriter.WouldSeal, RecordWriter.Ciphertext, RecordWriter.Sealed, Sends;
      var previous := Previous(m);
      ghost var before, i, n := Out(), Current(), records.Taken(previous);
      out := records.Seal(maxOut, KindOf(s), TextOf(s), previous);
      if out.Some? { RecordWitness(out.value, s, m, n % NUMBERS); }
      if out.None? || s.SentCcs? {
        NumbersTaken(before);
      } else {
        ghost var rec := Rec(records.TurnOf(previous), n, i, s.frag);
        sent := sent + {rec};
        SealedOne(before, m, written, rec);
      }
    }

    /** The result of sealing a record as an attempt; after a success the caller moves on to the next message. */
    ghost function Outcome(r: SealResult, size: nat, s: Sent): Attempt
      reads this`written, this`offset, records`taken, records`lastTaken
    {
      match r
      case NoProgress => NoRoom
      case SealError => Fails
      case SealPartial => Made(s, size, Now())
      case SealSuccess => Made(s, size, Position(Cursor(written + 1, 0), records.taken, records.lastTaken))
    }

    /** seal_next_message. */
    method SealNextMessage(maxOut: nat) returns (r: SealResult, out: seq<Byte>, ghost s: Sent)
      requires Valid() && written < |outgoing|
      modifies this`offset, this`sent, records`used, records`taken, records`lastTaken, records.sequence,
               records.lastSequence
      ensures records.Valid() && Sends(old(Out()), Out())
      ensures Outcome(r, |out|, s) == Attempted(old(Now()), maxOut)
      ensures r.SealError? || r.NoProgress? ==> offset == old(offset)
      ensures r.NoProgress? ==> Now() == old(Now())
      ensures r.SealSuccess? || r.SealPartial? ==>
                && 0 < |out| <= maxOut
                && EpochKnown(outgoing[written]) && IsRecordOf(out, s, outgoing[written])
                && Follow(outgoing, Cursor(written, old(offset)), s)
                   == Some(if r.SealSuccess? then Cursor(written + 1, 0) else Cursor(written, offset))
      ensures r.SealSuccess? ==> offset == 0
      ensures r.SealPartial? ==> |TextOf(s)| + Overhead(outgoing[written]) == maxOut
                                 && s.SentFragment? && old(offset) < offset == old(offset) + |s.frag.body|
                                 && !outgoing[written].isCcs && Whole(outgoing[written].data)
                                 && offset < |Unfragmented(outgoing[written].data).body|
    {
      hide FollowAll, IsRecordOf, Serialize, Whole, Unfragmented, Messages, Sends, RecordWriter.Valid, MadeAt, Todo;
      s := SentCcs;
      out := [];
      var m := outgoing[written];
      SendsNothing(Out());
      if !EpochKnown(m) { return SealError, out, s; }
      if m.isCcs {
        if maxOut < 1 + Overhead(m) { return NoProgress, out, s; }
        var sealed := SealRecord(maxOut, m, SentCcs, Cursor(written + 1, 0));
        if sealed.None? { return SealError, out, s; }
        return SealSuccess, sealed.value, SentCcs;
      }
      r, out, s := SealNextFragment(maxOut, m);
    }

    lemma AttemptedFragment(at: Position, room: nat, m: Outgoing)
      requires at.cursor.written < |outgoing| && m == outgoing[at.cursor.written] && !m.isCcs && EpochKnown(m)
      ensures !Whole(m.data) || at.cursor.offset > |Unfragmented(m.data).body| ==> Attempted(at, room) == Fails
      ensures Whole(m.data) && at.cursor.offset <= |Unfragmented(m.data).body| ==>
                if room < Needed(m) then Attempted(at, room) == NoRoom
                else
                  var next := at.cursor.offset + Todo(m, at.cursor.offset, room);
                  Attempted(at, room)
                  == MadeAt(at, room, m, SentFragment(Cut(m.data, at.cursor.offset, Todo(m, at.cursor.offset, room))),
                            if next == |Unfragmented(m.data).body| then Cursor(at.cursor.written + 1, 0)
                            else Cursor(at.cursor.written, next))
    {
      hide Whole, Unfragmented, MadeAt, Cut, EpochKnown;
    }

    /** The part of seal_next_message for a handshake message. */
    method SealNextFragment(maxOut: nat, m: Outgoing) returns (r: SealResult, out: seq<Byte>, ghost s: Sent)
      requires Valid() && written < |outgoing| && m == outgoing[written] && !m.isCcs && EpochKnown(m)
      modifies this`offset, this`sent, records`used, records`taken, records`lastTaken, records.sequence,
               records.lastSequence
      ensures records.Valid() && Sends(old(Out()), Out())
      ensures Outcome(r, |out|, s) == Attempted(old(Now()), maxOut)
      ensures r.SealError? || r.NoProgress? ==> offset == old(offset)
      ensures r.NoProgress? ==> Now() == old(Now())
      ensures r.SealSuccess? || r.SealPartial? ==>
                && 0 < |out| <= maxOut && IsRecordOf(out, s, m) && s.SentFragment? && CutOf(s.frag, m.data)
                && s.frag.fragOff == old(offset)
      ensures r.SealSuccess? ==> offset == 0 && old(offset) + |s.frag.body| == |Unfragmented(m.data).body|
      ensures r.SealPartial? ==>
                && |TextOf(s)| + Overhead(m) == maxOut && s.frag.body != []
                && offset == old(offset) + |s.frag.body| < |Unfragmented(m.data).body|
    {
      hide AddedOk, CursorOk, FollowAll, IsRecordOf, ParseFragment, Messages, Sends, MadeAt, Whole, CutOf,
           HeaderBytes, Follow, EpochKnown, Attempted;
      s := SentCcs;
      out := [];
      SendsNothing(Out());
      AttemptedFragment(Now(), maxOut, m);
      var overhead, prefix := Overhead(m), RT_HEADER + records.WriteAead(Previous(m)).nonceLen;
      if !Whole(m.data) { return SealError, out, s; }
      var g := Unfragmented(m.data);
      if offset > |g.body| { return SealError, out, s; }
      if maxOut < HM_HEADER + 1 + overhead || maxOut < prefix { return NoProgress, out, s; }
      var todo := |g.body| - offset;
      if todo > maxOut - HM_HEADER - overhead {
        todo := maxOut - HM_HEADER - overhead;
      }
      var f := Fragment(g.kind, g.msgLen, g.seqNo, offset, g.body[offset..offset + todo]);
      // The buffer of fixed size has room for the fragment, and its numbers have 24 and 16 bits.
      assert HM_HEADER + todo <= maxOut - prefix;
      CutFits(m.data, offset, todo);
      assert f == Cut(m.data, offset, todo);
      var sealed := SealRecord(maxOut, m, SentFragment(f),
                               if offset + todo == |g.body| then Cursor(written + 1, 0) else Cursor(written, offset + todo));
      if sealed.None? { return SealError, out, s; }
      s := SentFragment(f);
      if todo == |g.body| - offset {
        offset := 0;
        return SealSuccess, sealed.value, s;
      }
      offset := offset + todo;
      return SealPartial, sealed.value, s;
    }

    /** The packet is the sealed forms of the records, one after another. */
    ghost predicate PacketOf(packet: seq<Byte>, list: seq<Sent>)
      reads this`outgoing, records`wEpoch, records`aead, records`lastAead
      decreases |list|
    {
      if list == [] then packet == []
      else
        exists k: nat, m :: k <= |packet| && m in outgoing && EpochKnown(m)
          && PacketOf(packet[..k], list[..|list| - 1])
          && IsRecordOf(packet[k..], list[|list| - 1], m)
    }

    lemma EmptyPacket()
      ensures PacketOf([], [])
    {}

    /** Every record of a packet stands in it as a whole, behind those before it. */
    lemma {:induction false} RecordInPacket(packet: seq<Byte>, list: seq<Sent>, i: nat)
      returns (front: seq<Byte>, b: seq<Byte>, rest: seq<Byte>, m: Outgoing)
      requires PacketOf(packet, list) && i < |list|
      ensures packet == front + b + rest && IsRecordOf(b, list[i], m) && m in outgoing && EpochKnown(m)
      decreases |list|
    {
      hide IsRecordOf, EpochKnown;
      var k: nat, last :| k <= |packet| && last in outgoing && EpochKnown(last)
        && PacketOf(packet[..k], list[..|list| - 1]) && IsRecordOf(packet[k..], list[|list| - 1], last);
      if i == |list| - 1 {
        front, b, rest, m := packet[..k], packet[k..], [], last;
      } else {
        front, b, rest, m := RecordInPacket(packet[..k], list[..|list| - 1], i);
        rest := rest + packet[k..];
      }
    }

    lemma PacketGrows(packet: seq<Byte>, list: seq<Sent>, out: seq<Byte>, s: Sent, m: Outgoing)
      requires PacketOf(packet, list) && m in outgoing && EpochKnown(m)
      requires IsRecordOf(out, s, m)
      ensures PacketOf(packet + out, list + [s])
    {
      var k := |packet|;
      assert (packet + out)[..k] == packet && (packet + out)[k..] == out;
      assert (list + [s])[..|list|] == list;
    }

    lemma FillStep(at: Position, room: nat)
      ensures at.cursor.written >= |outgoing| ==> Fill(at, room) == Filled([], at, false)
      ensures at.cursor.written < |outgoing| ==>
                match Attempted(at, room)
                case NoRoom => Fill(at, room) == Filled([], at, false)
                case Fails => Fill(at, room) == Filled([], at, true)
                case Made(s, size, after) =>
                  && (after.cursor.written == at.cursor.written ==> Fill(at, room) == Filled([s], after, false))
                  && (after.cursor.written > at.cursor.written && size <= room ==>
                        Fill(at, room) == Prepend([s], Fill(after, room - size)))
    {
      hide Attempted;
    }

    /** A record of the next `len` bytes makes progress and is sure to fit. */
    predicate PartFits(m: Outgoing, offset: nat, len: nat, room: nat)
      requires Whole(m.data) && offset <= |Unfragmented(m.data).body|
      reads records`wEpoch, records`aead, records`lastAead
    {
      && offset + len <= |Unfragmented(m.data).body| && (len > 0 || offset == |Unfragmented(m.data).body|)
      && HM_HEADER + len + Overhead(m) <= room
    }

    predicate RecordFits(m: Outgoing, offset: nat, room: nat)
      requires Whole(m.data) && offset <= |Unfragmented(m.data).body|
      reads records`wEpoch, records`aead, records`lastAead
    {
      exists len: nat :: len <= |Unfragmented(m.data).body| && PartFits(m, offset, len, room)
    }

    /**
     * Room for the header and one byte is asked for even when there is no byte left: a record that would fit is
     * turned away exactly for a message without a body, and exactly at one byte less than asked for.
     */
    lemma NeededOneTooMany(m: Outgoing, offset: nat, room: nat)
      requires !m.isCcs && Whole(m.data) && offset <= |Unfragmented(m.data).body|
      ensures offset < |Unfragmented(m.data).body| ==> (RecordFits(m, offset, room) <==> room >= Needed(m))
      ensures room < Needed(m) && RecordFits(m, offset, room)
              <==> offset == |Unfragmented(m.data).body| && room + 1 == Needed(m)
    {
      if offset < |Unfragmented(m.data).body| {
        if room >= Needed(m) { assert PartFits(m, offset, 1, room); }
      } else if room + 1 >= Needed(m) {
        assert PartFits(m, offset, 0, room);
      }
    }

    /** What the whole packet comes to, once `list` is in it and the rest is filled from `at` on. */
    lemma FillOnto(whole: Filled, list: seq<Sent>, at: Position, room: nat)
      requires whole == Prepend(list, Fill(at, room))
      ensures at.cursor.written >= |outgoing| ==> whole == Filled(list, at, false)
      ensures at.cursor.written < |outgoing| ==>
                match Attempted(at, room)
                case NoRoom => whole == Filled(list, at, false)
                case Fails => whole == Filled(list, at, true)
                case Made(s, size, after) =>
                  && (after.cursor.written == at.cursor.written ==> whole == Filled(list + [s], after, false))
                  && (after.cursor.written > at.cursor.written && size <= room ==>
                        whole == Prepend(list + [s], Fill(after, room - size)))
    {
      hide Attempted, Fill;
      FillStep(at, room);
    }

    /** A round of the loop of seal_next_packet: seal the next record behind what the packet holds. */
    method SealOnto(room: nat, packet: seq<Byte>, ghost list: seq<Sent>)
      returns (r: SealResult, longer: seq<Byte>, ghost more: seq<Sent>)
      requires Valid() && written < |outgoing| && PacketOf(packet, list)
      modifies this`written, this`offset, this`pass, this`sent, records`used, records`taken, records`lastTaken,
               records.sequence, records.lastSequence
      ensures Valid() && Sends(old(Out()), Out()) && PacketOf(longer, more)
      ensures r.NoProgress? <==> Attempted(old(Now()), room).NoRoom?
      ensures r.SealError? <==> Attempted(old(Now()), room).Fails?
      ensures r.NoProgress? ==> Now() == old(Now())
      ensures r.NoProgress? || r.SealError? ==>
                longer == packet && more == list && pass == old(pass) && Now().cursor == old(Now()).cursor
      ensures r.SealSuccess? || r.SealPartial? ==>
                var a := Attempted(old(Now()), room);
                && more == list + [a.s] && pass == old(pass) + [a.s] && Now() == a.after
                && |longer| == |packet| + a.size && 0 < a.size <= room
      ensures r.SealSuccess? ==> written == old(written) + 1
      ensures r.SealPartial? ==> written == old(written) && offset > old(offset)
    {
      hide FollowAll, Whole, Unfragmented, Follow, PacketOf, IsRecordOf, Needed, EpochKnown, RecordWriter.Valid,
           Attempted, Sends, Messages, Overhead;
      longer, more := packet, list;
      var m := outgoing[written];
      ghost var s;
      var out;
      r, out, s := SealNextMessage(room);
      if r.SealError? || r.NoProgress? { return; }
      PacketGrows(packet, list, out, s, m);
      FollowOneMore(outgoing, START, pass, s);
      longer, more, pass := packet + out, list + [s], pass + [s];
      if r.SealSuccess? { written := written + 1; }
    }

    /** seal_next_packet. */
    method SealNextPacket(maxOut: nat) returns (r: PacketResult, ghost list: seq<Sent>)
      requires Valid() && written < |outgoing|
      modifies this`written, this`offset, this`pass, this`sent, records`used, records`taken, records`lastTaken,
               records.sequence, records.lastSequence
      ensures Valid() && pass == old(pass) + list && Sends(old(Out()), Out())
      ensures var f := Fill(old(Now()), maxOut);
              && list == f.list && Cursor(written, offset) == f.after.cursor
              && (r.PacketError? <==> f.failed)
              && (r.MtuTooSmall? <==> !f.failed && list == [])
              && (!r.PacketError? ==> Now() == f.after)
      ensures r.Packet? ==> 0 < |r.bytes| <= maxOut && PacketOf(r.bytes, list)
      ensures list != [] ==> Before(old(Cursor(written, offset)), Cursor(written, offset))
      ensures list == [] ==> Cursor(written, offset) == old(Cursor(written, offset))
    {
      hide FollowAll, Whole, Unfragmented, Follow, PacketOf, IsRecordOf, Needed, EpochKnown, RecordWriter.Valid,
           Fill, Attempted, Sends, Messages, Valid, Prepend;
      EmptyPacket();
      SendsNothing(Out());
      var packet: seq<Byte> := [];
      list := [];
      var madeProgress := false;
      ghost var start, whole := Now(), Fill(Now(), maxOut);
      NothingPrepended(whole);
      while written < |outgoing|
        invariant Valid() && pass == old(pass) + list && Sends(old(Out()), Out())
        invariant |packet| <= maxOut && PacketOf(packet, list)
        invariant whole == Prepend(list, Fill(Now(), maxOut - |packet|))
        invariant madeProgress <==> list != []
        invariant madeProgress ==> packet != [] && Before(start.cursor, Now().cursor)
        invariant !madeProgress ==> packet == [] && Now() == start
        decreases |outgoing| - written
      {
        ghost var at, before := Now(), Out();
        FillOnto(whole, list, at, maxOut - |packet|);
        var ret;
        ret, packet, list := SealOnto(maxOut - |packet|, packet, list);
        SendsOn(old(Out()), before, Out());
        if ret.SealError? { return PacketError, list; }
        if ret.NoProgress? { return if madeProgress then Packet(packet) else MtuTooSmall, list; }
        madeProgress := true;
        if ret.SealPartial? { return Packet(packet), list; }
      }
      FillOnto(whole, list, Now(), maxOut - |packet|);
      if !madeProgress { return MtuTooSmall, list; }
      return Packet(packet), list;
    }

    /** dtls1_update_mtu, where `query` is the transport's answer. */
    method UpdateMtu(noQuery: bool, query: int)
      modifies this`mtu
      ensures noQuery || mtu >= 228
      ensures mtu == NewMtu(old(mtu), noQuery, query)
    {
      if mtu < MIN_MTU && !noQuery {
        mtu := if 0 <= query <= 0x4000_0000 && query >= MIN_MTU then query else DEFAULT_MTU;
      }
    }

    /** Packets `lists` went out: each is at most the MTU, and together they move the pass on. */
    ghost predicate Wrote(packets: seq<seq<Byte>>, lists: seq<seq<Sent>>)
      reads this`outgoing, this`mtu, records`wEpoch, records`aead, records`lastAead
    {
      && |packets| == |lists|
      && forall i :: 0 <= i < |lists| ==> lists[i] != [] && 0 < |packets[i]| <= mtu && PacketOf(packets[i], lists[i])
    }

    /** How many bytes of the message at the cursor are left. */
    ghost function Left(c: Cursor): nat
      reads this`outgoing
    {
      if c.written < |outgoing| && Whole(outgoing[c.written].data)
        && c.offset <= |Unfragmented(outgoing[c.written].data).body|
      then |Unfragmented(outgoing[c.written].data).body| - c.offset else 0
    }

    /** A cursor that moved forward in its message has less left. */
    lemma LessLeft(before: Cursor)
      requires Valid() && before.written == written && before.offset < offset
      ensures Left(Cursor(written, offset)) < Left(before)
    {
      hide FollowAll, Unfragmented;
    }

    /** One round of the loop of send_flight: seal a packet and write it, or put the cursor back. */
    method SendPacket(net: Datagrams) returns (r: FlightResult, ghost list: seq<Sent>)
      requires Valid() && written < |outgoing|
      modifies this`written, this`offset, this`pass, this`onWire, this`sent, net,
               records`used, records`taken, records`lastTaken, records.sequence, records.lastSequence
      ensures Valid() && Sends(old(Out()), Out())
      ensures var f := Fill(old(Now()), mtu);
              && list == f.list
              && (r.Broken? <==> f.failed) && (r.Broken? ==> Cursor(written, offset) == f.after.cursor)
              && (r.TooSmall? <==> !f.failed && f.list == [])
              && (r.FlightSent? ==> Now() == f.after)
      ensures r.FlightSent? || r.WriteBlocked? || r.TooSmall? || r.Broken?
      ensures r.FlightSent? ==>
                && list != [] && |net.packets| == |old(net.packets)| + 1
                && net.packets == old(net.packets) + [net.packets[|old(net.packets)|]]
                && 0 < |net.packets[|old(net.packets)|]| <= mtu && PacketOf(net.packets[|old(net.packets)|], list)
                && onWire == old(onWire) + list && pass == old(pass) + list
                && (written > old(written)
                    || (written == old(written) && Left(Cursor(written, offset)) < Left(old(Cursor(written, offset)))))
      ensures !r.FlightSent? ==> net.packets == old(net.packets) && onWire == old(onWire)
      ensures r.Broken? ==> pass == old(pass) + list
      ensures r.WriteBlocked? || r.TooSmall? ==>
                written == old(written) && offset == old(offset) && pass == old(pass)
      ensures net.eager ==> !r.WriteBlocked?
    {
      hide FollowAll, Whole, Unfragmented, Follow, PacketOf, IsRecordOf, Needed, EpochKnown, RecordWriter.Valid,
           Fill, Attempted, Sends, AddedOk, Overhead, Left;
      var oldWritten, oldOffset := written, offset;
      ghost var oldPass := pass;
      ValidCursor();
      hide Valid, CursorAt, PassOk;
      var packet: PacketResult;
      packet, list := SealNextPacket(mtu);
      if packet.MtuTooSmall? { return TooSmall, list; }
      if packet.PacketError? { return Broken, list; }
      var bioRet := net.Write(packet.bytes);
      if bioRet <= 0 {
        PutBack(oldWritten, oldOffset, oldPass);
        return WriteBlocked, list;
      }
      NoteWritten(oldPass, list);
      if written == oldWritten { LessLeft(Cursor(oldWritten, oldOffset)); }
      return FlightSent, list;
    }

    lemma ValidCursor()
      requires Valid()
      ensures CursorAt(Cursor(written, offset), pass) && PassOk(pass)
    {}

    /** After a write was refused: the cursor goes back to the start of the packet. */
    method PutBack(oldWritten: nat, oldOffset: nat, ghost oldPass: seq<Sent>)
      requires Valid() && CursorAt(Cursor(oldWritten, oldOffset), oldPass) && PassOk(oldPass)
      modifies this`written, this`offset, this`pass
      ensures Valid() && written == oldWritten && offset == oldOffset && pass == oldPass
    {
      hide CursorAt, AddedOk, RecordWriter.Valid;
      written, offset := oldWritten, oldOffset;
      pass := oldPass;
    }

    /** The records of the packet are on the wire. */
    ghost method NoteWritten(oldPass: seq<Sent>, list: seq<Sent>)
      requires Valid() && pass == oldPass + list && PassOk(oldPass)
      modifies this`onWire
      ensures Valid() && onWire == old(onWire) + list
    {
      hide CursorOk, AddedOk, RecordWriter.Valid;
      onWire := onWire + list;
    }

    lemma WroteGrows(packets: seq<seq<Byte>>, lists: seq<seq<Sent>>, packet: seq<Byte>, list: seq<Sent>)
      requires Wrote(packets, lists) && list != [] && 0 < |packet| <= mtu && PacketOf(packet, list)
      ensures Wrote(packets + [packet], lists + [list])
    {}

    /** The packets written are the ones that come next, one after another. */
    ghost predicate InTurn(at: Position, lists: seq<seq<Sent>>)
      reads this`outgoing, this`mtu, records`wEpoch, records`aead, records`lastAead
    {
      forall i :: 0 <= i < |lists| ==> lists[i] == NextPacket(at, i).list && !NextPacket(at, i).failed
    }

    lemma InTurnGrows(at: Position, lists: seq<seq<Sent>>, list: seq<Sent>)
      requires InTurn(at, lists) && list == NextPacket(at, |lists|).list && !NextPacket(at, |lists|).failed
      ensures InTurn(at, lists + [list]) && AfterPackets(at, |lists + [list]|) == NextPacket(at, |lists|).after
    {
      hide Fill;
    }

    lemma FirstInTurn(at: Position)
      ensures InTurn(at, []) && AfterPackets(at, 0) == at
    {}

    /** The loop of send_flight; `skipped` is what the cursor passed in a packet that could not be completed. */
    method SendPackets(net: Datagrams)
      returns (r: FlightResult, ghost lists: seq<seq<Sent>>, ghost packets: seq<seq<Byte>>, ghost skipped: seq<Sent>)
      requires Valid()
      modifies this`written, this`offset, this`pass, this`onWire, this`sent, net,
               records`used, records`taken, records`lastTaken, records.sequence, records.lastSequence
      ensures Valid() && Sends(old(Out()), Out())
      ensures net.packets == old(net.packets) + packets && Wrote(packets, lists)
      ensures onWire == old(onWire) + Flatten(lists) && pass == old(pass) + Flatten(lists) + skipped
      ensures InTurn(old(Now()), lists)
      ensures var f := NextPacket(old(Now()), |lists|);
              && skipped == (if f.failed then f.list else [])
              && (r.Broken? <==> f.failed) && (r.Broken? ==> Cursor(written, offset) == f.after.cursor)
              && (r.TooSmall? <==> written < |outgoing| && !f.failed && f.list == [])
      ensures r.FlightSent? || r.WriteBlocked? || r.TooSmall? || r.Broken?
      ensures r.FlightSent? ==> written == |outgoing|
      ensures r.WriteBlocked? || r.TooSmall? ==> written < |outgoing|
      ensures net.eager ==> !r.WriteBlocked?
    {
      hide FollowAll, Whole, Unfragmented, Follow, PacketOf, IsRecordOf, Needed, EpochKnown, RecordWriter.Valid,
           Left, Wrote,
           Fill, Attempted, Sends, Messages, InTurn, NextPacket, AfterPackets, Valid, Prepend, Flatten;
      NothingWritten();
      SendsNothing(Out());
      FirstInTurn(Now());
      FlattenNothing();
      lists, packets, skipped := [], [], [];
      ghost var start := Now();
      while written < |outgoing|
        invariant Valid() && Sends(old(Out()), Out())
        invariant net.packets == old(net.packets) + packets && Wrote(packets, lists)
        invariant onWire == old(onWire) + Flatten(lists)
        invariant pass == old(pass) + Flatten(lists)
        invariant InTurn(start, lists) && AfterPackets(start, |lists|) == Now()
        decreases |outgoing| - written, Left(Cursor(written, offset))
      {
        ghost var before := Out();
        ComesNext(start, |lists|);
        var sent, list := SendPacket(net);
        SendsOn(old(Out()), before, Out());
        if !sent.FlightSent? {
          skipped := if sent.Broken? then list else [];
          return sent, lists, packets, skipped;
        }
        ghost var packet := net.packets[|net.packets| - 1];
        WroteGrows(packets, lists, packet, list);
        PassOneMore(old(onWire), lists, list);
        PassOneMore(old(pass), lists, list);
        InTurnGrows(start, lists, list);
        lists, packets := lists + [list], packets + [packet];
      }
      ComesNext(start, |lists|);
      FillStep(Now(), mtu);
      PassFollows();
      return FlightSent, lists, packets, skipped;
    }

    lemma PassOneMore(pass: seq<Sent>, lists: seq<seq<Sent>>, list: seq<Sent>)
      ensures pass + Flatten(lists) + list == pass + Flatten(lists + [list])
    {
      FlattenOneMore(lists, list);
    }

    lemma ComesNext(at: Position, k: nat)
      ensures NextPacket(at, k) == Fill(AfterPackets(at, k), mtu)
    {}

    lemma NothingWritten()
      ensures Wrote([], [])
    {}

    /**
     * send_flight. It breaks off exactly when the packet that comes next has a record that cannot be sealed;
     * the records before it in that packet are then skipped.
     */
    method SendFlight(net: Datagrams, shutdown: bool, noQuery: bool, query: int)
      returns (r: FlightResult, ghost lists: seq<seq<Sent>>, ghost packets: seq<seq<Byte>>, ghost skipped: seq<Sent>)
      requires Valid()
      modifies this`written, this`offset, this`mtu, this`pass, this`onWire, this`sent, net,
               records`used, records`taken, records`lastTaken, records.sequence, records.lastSequence
      ensures Valid() && Sends(old(Out()), Out())
      ensures net.packets == old(net.packets) + packets && Wrote(packets, lists)
      ensures onWire == old(onWire) + Flatten(lists) && pass == old(pass) + Flatten(lists) + skipped
      ensures InTurn(old(Now()), lists)
      ensures !shutdown ==>
                var f := NextPacket(old(Now()), |lists|);
                && skipped == (if f.failed then f.list else [])
                && (r.Broken? <==> f.failed) && (r.Broken? ==> Cursor(written, offset) == f.after.cursor)
                && (r.TooSmall? <==> written < |outgoing| && !f.failed && f.list == [])
      ensures !shutdown ==> mtu == NewMtu(old(mtu), noQuery, query)
      ensures r.FlightSent? || r.FlushBlocked? ==> written == |outgoing|
      ensures r.WriteBlocked? ==> written < |outgoing|
      ensures r.Shutdown? <==> shutdown
      ensures shutdown ==> lists == [] && skipped == []
      ensures net.eager && !shutdown ==> r.FlightSent? || r.TooSmall? || r.Broken?
      ensures r.FlightSent? || r.WriteBlocked? || r.FlushBlocked? || r.TooSmall? || r.Broken? || r.Shutdown?
    {
      hide FollowAll, Whole, Unfragmented, PacketOf, IsRecordOf, Needed, EpochKnown, RecordWriter.Valid, Left, Wrote,
           Fill, Attempted, Sends, Messages, InTurn, NextPacket, AfterPackets;
      if shutdown {
        NothingWritten();
        SendsNothing(Out());
        FirstInTurn(Now());
        return Shutdown, [], [], [];
      }
      UpdateMtu(noQuery, query);
      r, lists, packets, skipped := SendPackets(net);
      if r.FlightSent? {
        var flushed := net.Flush();
        if flushed <= 0 { r := FlushBlocked; }
      }
    }

    /** dtls1_flush_flight. */
    method FlushFlight(net: Datagrams, shutdown: bool, noQuery: bool, query: int)
      returns (r: FlightResult, ghost lists: seq<seq<Sent>>, ghost packets: seq<seq<Byte>>, ghost skipped: seq<Sent>)
      requires Valid()
      modifies this`written, this`offset, this`mtu, this`pass, this`onWire, this`sent, this`complete, net,
               records`used, records`taken, records`lastTaken, records.sequence, records.lastSequence
      ensures Valid() && complete && Sends(old(Out()), Out())
      ensures onWire == old(onWire) + Flatten(lists) && pass == old(pass) + Flatten(lists) + skipped
      ensures net.packets == old(net.packets) + packets && Wrote(packets, lists)
      ensures InTurn(old(Now()), lists)
      ensures !shutdown ==>
                var f := NextPacket(old(Now()), |lists|);
                && skipped == (if f.failed then f.list else [])
                && (r.Broken? <==> f.failed) && (r.Broken? ==> Cursor(written, offset) == f.after.cursor)
                && (r.TooSmall? <==> written < |outgoing| && !f.failed && f.list == [])
      ensures !shutdown ==> mtu == NewMtu(old(mtu), noQuery, query)
      ensures r.FlightSent? ==> FollowAll(outgoing, START, pass) == Some(Cursor(|outgoing|, 0))
      ensures net.eager && !shutdown ==> r.FlightSent? || r.TooSmall? || r.Broken?
    {
      hide FollowAll, Whole, Unfragmented, PacketOf, IsRecordOf, Needed, EpochKnown, RecordWriter.Valid, Wrote,
           Fill, Attempted, Sends, Messages, InTurn, NextPacket, AfterPackets;
      SendsNothing(Out());
      complete := true;
      ghost var before := Out();
      r, lists, packets, skipped := SendFlight(net, shutdown, noQuery, query);
      SendsOn(old(Out()), before, Out());
    }

    /** dtls1_retransmit_outgoing_messages: the whole flight again, perhaps with another MTU. */
    method Retransmit(net: Datagrams, shutdown: bool, noQuery: bool, query: int)
      returns (r: FlightResult, ghost lists: seq<seq<Sent>>, ghost packets: seq<seq<Byte>>, ghost skipped: seq<Sent>)
      requires Valid()
      modifies this`written, this`offset, this`mtu, this`pass, this`onWire, this`sent, net,
               records`used, records`taken, records`lastTaken, records.sequence, records.lastSequence
      ensures Valid() && Sends(old(Out()), Out())
      ensures onWire == Flatten(lists) && pass == Flatten(lists) + skipped
      ensures net.packets == old(net.packets) + packets && Wrote(packets, lists)
      ensures var start := Position(START, old(records.taken), old(records.lastTaken));
              InTurn(start, lists)
              && (!shutdown ==>
                    var f := NextPacket(start, |lists|);
                    && skipped == (if f.failed then f.list else []) && (r.Broken? <==> f.failed)
                    && (r.TooSmall? <==> written < |outgoing| && !f.failed && f.list == []))
      ensures r.FlightSent? ==> FollowAll(outgoing, START, onWire) == Some(Cursor(|outgoing|, 0))
      ensures net.eager && !shutdown ==> r.FlightSent? || r.TooSmall? || r.Broken?
    {
      hide Follow, Whole, Unfragmented, PacketOf, IsRecordOf, Needed, EpochKnown, RecordWriter.Valid, Wrote,
           Fill, Attempted, Sends, Messages, InTurn, NextPacket, AfterPackets, Valid;
      Restart();
      r, lists, packets, skipped := SendFlight(net, shutdown, noQuery, query);
      assert onWire == Flatten(lists) && pass == Flatten(lists) + skipped;
      if r.FlightSent? {
        AtEnd();
        assert pass == onWire;
      }
    }

    lemma AtEnd()
      requires Valid() && written == |outgoing|
      ensures FollowAll(outgoing, START, pass) == Some(Cursor(|outgoing|, 0))
    {}

    /** Back to the start of the flight. */
    method Restart()
      requires Valid()
      modifies this`written, this`offset, this`pass, this`onWire
      ensures Valid() && written == offset == 0 && pass == onWire == []
    {
      hide AddedOk, RecordWriter.Valid;
      written, offset := 0, 0;
      pass, onWire := [], [];
    }
  }

  // ---- Runs in which the code does less than it might ----

  /** A cipher that refuses its second record. */
  function Refusing(): (a: Aead)
    ensures Bounded(a)
  {
    Aead(true, 0xfeff, 0, 0, (kind, version, number, text) => if number == RecordNumber(0, 1) then None else Some(text),
         (kind, version, number, body) => Some(body))
  }

  lemma SecondRefused(sender: FlightSender, at: Position)
    requires sender.records.aead == Refusing() && sender.records.wEpoch == 0 && |sender.outgoing| == 2
    requires forall i :: 0 <= i < 2 ==> sender.outgoing[i] == Outgoing(false, 0, MessageBytes(1, i, []))
    requires at == Position(START, 0, 0)
    ensures var f := sender.Fill(at, DEFAULT_MTU); f.failed && |f.list| == 1 && f.after.cursor == Cursor(1, 0)
  {
    hide Serialize, RecordNumber, BigEndian, FromBigEndian, ParseFragment, FlightSender.Fill;
    MessageIsNumbered(1, 0, []);
    MessageIsNumbered(1, 1, []);
    RecordNumberValue(0, 0);
    RecordNumberValue(0, 1);
    var next := Position(Cursor(1, 0), 1, 0);
    assert sender.Attempted(at, DEFAULT_MTU).Made? && sender.Attempted(at, DEFAULT_MTU).after == next;
    sender.FillStep(at, DEFAULT_MTU);
    sender.FillStep(next, DEFAULT_MTU - sender.Attempted(at, DEFAULT_MTU).size);
  }

  lemma OnlyPacket(sender: FlightSender, at: Position, lists: seq<seq<Sent>>)
    requires sender.InTurn(at, lists) && sender.Fill(at, sender.mtu).failed
    ensures lists == [] && Flatten(lists) == [] && sender.NextPacket(at, 0) == sender.Fill(at, sender.mtu)
  {
    hide FlightSender.Fill;
    sender.FirstInTurn(at);
    sender.ComesNext(at, 0);
    FlattenNothing();
  }

  /** A flight of two messages without a body, and nothing sent. */
  method TwoMessages(aead: Aead) returns (sender: FlightSender)
    requires Bounded(aead)
    ensures sender.Valid() && fresh(sender) && fresh(sender.records)
    ensures fresh(sender.records.sequence) && fresh(sender.records.lastSequence)
    ensures sender.records.aead == aead && sender.records.wEpoch == 0 && sender.mtu == 0
    ensures sender.outgoing == [Outgoing(false, 0, MessageBytes(1, 0, [])), Outgoing(false, 0, MessageBytes(1, 1, []))]
    ensures sender.Now() == Position(START, 0, 0) && |sender.added| == 2 && sender.onWire == [] && sender.pass == []
  {
    hide FlightSender.Valid, Messages, Serialize;
    sender := new FlightSender(4, aead);
    var ok := sender.AddMessage(1, []);
    ok := sender.AddMessage(1, []);
  }

  /**
   * Two messages and a cipher that refuses the second: the flush breaks off with nothing written, and the cursor
   * stays behind the first message, which a later flush does not send.
   */
  method SkipsARecord() returns (sender: FlightSender, net: Datagrams, r: FlightResult)
    ensures sender.Valid() && r.Broken? && net.packets == [] && |sender.added| == 2
    ensures sender.onWire == [] && |sender.pass| == 1 && sender.written == 1 && sender.offset == 0
  {
    hide FlightSender.Valid, Refusing, Messages, FlightSender.PacketOf, FlightSender.Fill, FlightSender.Attempted,
         FlightSender.InTurn, FlightSender.NextPacket, Sends, MessageBytes;
    net := new Datagrams(false);
    sender := TwoMessages(Refusing());
    ghost var lists, packets, skipped;
    r, lists, packets, skipped := sender.FlushFlight(net, false, false, -1);
    SecondRefused(sender, Position(START, 0, 0));
    OnlyPacket(sender, Position(START, 0, 0), lists);
  }
}
