/**
 * The sender and the receiver as objects, each with its record layer: each of their operations is a step of the
 * system of EndToEnd, or none.
 */
module Session {
  import opened Bits
  import opened Wire
  import opened ReplayWindow
  import opened DtlsRecord
  import opened Reassembly
  import opened Inbox
  import opened Receiver
  import opened ReadSide
  import opened Flight
  import opened Outbox
  import opened Sender
  import opened EndToEnd

  class Link {
    const sender: FlightSender
    const reader: Reader
    const net: Datagrams
    ghost var events: seq<Event>
    ghost var states: seq<System>

    ghost predicate Valid()
      reads this, sender, sender.records, sender.records.sequence, sender.records.lastSequence,
            reader, reader.records, reader.records.bitmap, reader.ring, reader.ring.Repr
    {
      && sender.Valid() && reader.Valid() && Apart()
      && sender.maxFlight == reader.ring.slots.Length
      && Run(sender.maxFlight, events, states) && |states| == |events| + 1
      && Mirrors(Last())
    }

    ghost predicate Apart()
      reads reader, reader.ring
    {
      var repr := reader.ring.Repr;
      && (this as object) !in repr && (sender as object) !in repr && (net as object) !in repr
      && (reader as object) !in repr && (reader.records as object) !in repr && (reader.records.bitmap as object) !in repr
      && (sender.records as object) !in repr
      && (sender.records.sequence as object) !in repr && (sender.records.lastSequence as object) !in repr
    }

    /** The state the system is in. */
    ghost function Last(): System
      requires |states| == |events| + 1
      reads this
    {
      states[|events|]
    }

    /** The objects are in this state of the system. */
    ghost predicate Mirrors(s: System)
      requires reader.ring.Valid()
      reads sender`added, sender`turnOf, sender`outgoing, sender`complete, sender`sent,
            sender.records`turns, sender.records`taken, sender.records`lastTaken, reader.records`turns, reader.records.bitmap`recorded, reader.ring, reader.ring.Repr
    {
      && s.out == sender.Out()
      && s.rTurn == reader.records.turns && s.recorded == reader.records.bitmap.recorded
      && s.inbox == reader.ring.Contents()
    }

    constructor (flight: nat, aead: Aead, eager: bool)
      requires 0 < flight < 256 && Bounded(aead)
      ensures Valid() && Last() == INIT && net.eager == eager
    {
      sender := new FlightSender(flight, aead);
      reader := new Reader(flight, aead);
      net := new Datagrams(eager);
      events, states := [], [INIT];
      new;
      EmptyRun(flight);
    }

    lemma FlightBound()
      requires sender.Valid()
      ensures 0 < sender.maxFlight < 256
    {}

    /** The system takes a step that the objects have taken. */
    ghost method Record(e: Event, s: System)
      requires Run(sender.maxFlight, events, states) && |states| == |events| + 1
      requires Step(sender.maxFlight, Last(), e, s)
      modifies this`events, this`states
      ensures Run(sender.maxFlight, events, states) && |states| == |events| + 1
      ensures Last() == s && states == old(states) + [s]
    {
      hide Run, Step;
      ExtendLast(sender.maxFlight, events, states, e, s);
      events, states := events + [e], states + [s];
    }

    // ---- The sending end ----

    /** A finished flight is dropped before the next is begun. */
    ghost method DropFirst(finished: bool)
      requires Run(sender.maxFlight, events, states) && |states| == |events| + 1
      requires finished ==> Last().out.complete
      modifies this`events, this`states
      ensures Run(sender.maxFlight, events, states) && |states| == |events| + 1 && old(states) <= states
      ensures Last() == if finished then old(Last()).(out := Dropped(old(Last()).out)) else old(Last())
    {
      hide Run, Step;
      if finished {
        DropStep(sender.maxFlight, Last());
        Record(NewFlight, Last().(out := Dropped(Last().out)));
      }
    }

    /** ssl_add_message_cbb. */
    method Add(kind: Byte, body: seq<Byte>) returns (ok: bool)
      requires Valid()
      modifies this`events, this`states, sender
      ensures Valid() && old(states) <= states
      ensures sender.added == if ok then old(sender.added) + [MessageBytes(kind, |old(sender.added)|, body)] else old(sender.added)
      ensures Last().delivered == old(Last().delivered) && Last().inbox == old(Last().inbox)
    {
      hide Run, Step, Adds, FlightSender.Valid, Reader.Valid, HandshakeReceiver.Contents, HandshakeReceiver.Valid,
           Serialize;
      ghost var s, finished := Last(), sender.complete;
      ok := sender.AddMessage(kind, body);
      if ok {
        DropFirst(finished);
        AddStep(sender.maxFlight, Last(), kind, body, sender.Out());
        Record(AddMessage(kind, body), Last().(out := sender.Out()));
      }
    }

    /** dtls1_add_change_cipher_spec. */
    method AddChangeCipherSpec() returns (ok: bool)
      requires Valid()
      modifies this`events, this`states, sender
      ensures Valid() && old(states) <= states && sender.added == old(sender.added)
      ensures Last().delivered == old(Last().delivered) && Last().inbox == old(Last().inbox)
    {
      hide Run, Step, AddsCcs, FlightSender.Valid, Reader.Valid, HandshakeReceiver.Contents, HandshakeReceiver.Valid;
      ghost var s, finished := Last(), sender.complete;
      ok := sender.AddChangeCipherSpec();
      if ok {
        DropFirst(finished);
        CcsStep(sender.maxFlight, Last(), sender.Out());
        Record(AddCcs, Last().(out := sender.Out()));
      }
    }

    /** A pass over the flight, or a part of one: flush or retransmit. */
    method Send(again: bool, shutdown: bool, noQuery: bool, query: int)
      returns (r: FlightResult, ghost lists: seq<seq<Sent>>, ghost packets: seq<seq<Byte>>, ghost skipped: seq<Sent>)
      requires Valid()
      modifies this`events, this`states, sender, net,
               sender.records`used, sender.records`taken, sender.records`lastTaken,
               sender.records.sequence, sender.records.lastSequence
      ensures Valid() && old(states) <= states && sender.added == old(sender.added)
      ensures Last().delivered == old(Last().delivered) && Last().inbox == old(Last().inbox)
      ensures net.packets == old(net.packets) + packets && sender.Wrote(packets, lists)
      ensures net.eager && !shutdown ==> r.FlightSent? || r.TooSmall? || r.Broken?
    {
      hide Run, Step, Sends, FlightSender.Valid, Reader.Valid, HandshakeReceiver.Contents, HandshakeReceiver.Valid,
           FlightSender.Wrote, FlightSender.InTurn, FlightSender.NextPacket, FollowAll;
      ghost var s := Last();
      if again {
        r, lists, packets, skipped := sender.Retransmit(net, shutdown, noQuery, query);
      } else {
        r, lists, packets, skipped := sender.FlushFlight(net, shutdown, noQuery, query);
      }
      SendStep(sender.maxFlight, s, sender.Out());
      Record(EndToEnd.Send, s.(out := sender.Out()));
    }

    /** dtls1_set_write_state. */
    method SetWriteState(aead: Aead)
      requires Valid() && Bounded(aead)
      modifies this`events, this`states, sender.records, sender.records.sequence, sender.records.lastSequence
      ensures Valid() && old(states) <= states && sender.added == old(sender.added)
      ensures sender.records.aead == aead && sender.records.turns == old(sender.records.turns) + 1
      ensures Last().delivered == old(Last().delivered) && Last().inbox == old(Last().inbox)
    {
      hide Run, Step, FlightSender.Valid, Reader.Valid, HandshakeReceiver.Contents, HandshakeReceiver.Valid;
      ghost var s := Last();
      sender.SetWriteState(aead);
      WriteTurnStep(sender.maxFlight, s, sender.Out());
      Record(NextWriteTurn, s.(out := sender.Out()));
    }

    /** dtls1_on_handshake_complete. */
    method OnHandshakeComplete()
      requires Valid()
      modifies this`events, this`states, sender
      ensures Valid() && old(states) <= states && sender.added == old(sender.added)
      ensures Last().delivered == old(Last().delivered) && Last().inbox == old(Last().inbox)
    {
      hide Run, Step, FlightSender.Valid, Reader.Valid, HandshakeReceiver.Contents, HandshakeReceiver.Valid;
      ghost var replied := sender.hasReply;
      sender.OnHandshakeComplete();
      DropFirst(replied);
    }

    /** A message of the peer was delivered at the sending end, which takes it for a reply. */
    method NoteReply()
      requires Valid()
      modifies sender`hasReply
      ensures Valid() && sender.hasReply == (old(sender.hasReply) || sender.complete)
    {
      hide Run, FlightSender.Valid, Reader.Valid, HandshakeReceiver.Contents, HandshakeReceiver.Valid;
      sender.NoteReply();
    }

    // ---- The receiving end ----

    /**
     * What a cipher promises: what it opens under a number was sealed under that number in the same turn. The
     * packet may be anything else.
     */
    ghost predicate Intact(input: seq<Byte>)
      reads sender`sent, reader, reader.records, reader.records.bitmap
    {
      var p := ParseRecord(input);
      p.Some? && reader.records.Authentic(p.value) && p.value.kind == RT_HANDSHAKE ==>
        exists r :: r in sender.sent && r.turn == reader.records.turns && Full(r) == FromBigEndian(p.value.number)
          && reader.records.aead.open(p.value.kind, p.value.version, p.value.number, p.value.body) == Some(Serialize(r.frag))
    }

    /** The window of the record layer lets an authentic number pass. */
    lemma AuthenticPasses(p: Record)
      requires reader.records.Valid() && |p.number| == 8 && reader.records.Authentic(p)
      ensures Passes(reader.records.bitmap.recorded, FromBigEndian(p.number))
    {
      hide FromBigEndian, Pow2;
    }

    /** An opened handshake record is one of those sent, and the system may take it. */
    lemma OpenedIsSent(maxLen: nat, input: seq<Byte>) returns (r: Rec)
      requires Valid() && Intact(input) && reader.Opened(input) && ParseRecord(input).value.kind == RT_HANDSHAKE
      ensures Opens(Last(), r) && Full(r) == FromBigEndian(ParseRecord(input).value.number)
      ensures InWindow(Last().inbox, sender.maxFlight)
      ensures Arrived(sender.maxFlight, Last(), maxLen, r).inbox == reader.Taken(maxLen, input)
    {
      hide Run, FlightSender.Valid, HandshakeReceiver.Contents, HandshakeReceiver.Valid, ParseRecord, FromBigEndian, Full,
           TakeRecord, Serialize, Passes, RecordReader.Authentic;
      var p := ParseRecord(input).value;
      r :| r in sender.sent && r.turn == reader.records.turns && Full(r) == FromBigEndian(p.number)
           && reader.records.aead.open(p.kind, p.version, p.number, p.body) == Some(Serialize(r.frag));
      AuthenticPasses(p);
    }

    /** The step that reading the packet is for the system, if its record is opened. */
    lemma ReadingStep(maxLen: nat, input: seq<Byte>) returns (e: Event, s: System)
      requires Valid() && Intact(input) && reader.Opened(input)
      ensures Step(sender.maxFlight, Last(), e, s)
      ensures s == Last().(inbox := s.inbox, recorded := Last().recorded + {FromBigEndian(ParseRecord(input).value.number)})
      ensures s.inbox == if ParseRecord(input).value.kind == RT_HANDSHAKE then reader.Taken(maxLen, input) else Last().inbox
    {
      hide Run, Step, FlightSender.Valid, HandshakeReceiver.Contents, HandshakeReceiver.Valid, RecordReader.Valid,
           ParseRecord,
           FromBigEndian, Full, Opens, TakeRecord, Serialize, Intact, Reader.Taken, RecordReader.Authentic;
      var n, last, p := sender.maxFlight, Last(), ParseRecord(input).value;
      if p.kind == RT_HANDSHAKE {
        var r := OpenedIsSent(maxLen, input);
        ArriveStep(n, last, maxLen, r);
        e, s := Arrive(maxLen, r), Arrived(n, last, maxLen, r);
      } else {
        OtherStep(n, last, FromBigEndian(p.number));
        e, s := ArriveOther(FromBigEndian(p.number)), last.(recorded := last.recorded + {FromBigEndian(p.number)});
      }
    }

    /** dtls1_open_handshake on a packet. */
    method Receive(maxLen: nat, input: seq<Byte>) returns (r: ReadResult, consumed: nat)
      requires Valid() && Intact(input)
      modifies this`events, this`states, reader.records`history, reader.records.bitmap, reader.ring.Repr
      ensures Valid() && old(states) <= states && sender.added == old(sender.added)
      ensures Last().delivered == old(Last().delivered) && Last().inbox == old(reader.Taken(maxLen, input))
      ensures r == old(reader.Reply(maxLen, input)) && consumed == old(reader.records.Consumed(input))
      ensures reader.ring.hasCcs == (old(reader.ring.hasCcs) || old(reader.CcsIn(input)))
    {
      hide Run, Step, FlightSender.Valid, HandshakeReceiver.Contents, HandshakeReceiver.Valid, RecordReader.Valid,
           ParseRecord,
           FromBigEndian, Intact, Reader.Taken, Reader.Opened, Reader.CcsIn, Reader.Reply, RecordReader.Consumed;
      ghost var e, s;
      ghost var taken := reader.Opened(input);
      if taken { e, s := ReadingStep(maxLen, input); }
      r, consumed := reader.OpenHandshake(maxLen, input);
      if taken { Record(e, s); }
    }

    /** dtls1_open_change_cipher_spec: one that waits is used up, otherwise one is looked for in the packet. */
    method ReceiveCcs(maxLen: nat, input: seq<Byte>) returns (r: ReadResult, consumed: nat)
      requires Valid() && Intact(input)
      modifies this`events, this`states, reader.records`history, reader.records.bitmap, reader.ring.Repr
      ensures Valid() && old(states) <= states && sender.added == old(sender.added)
      ensures Last().delivered == old(Last().delivered) && !reader.ring.hasCcs
      ensures r.Done? <==> old(reader.ring.hasCcs) || old(reader.CcsIn(input))
      ensures consumed == if old(reader.ring.hasCcs) then 0 else old(reader.records.Consumed(input))
      ensures Last().inbox == if old(reader.ring.hasCcs) then old(Last().inbox) else old(reader.Taken(maxLen, input))
    {
      hide Run, Step, FlightSender.Valid, HandshakeReceiver.Contents, HandshakeReceiver.Valid, RecordReader.Valid,
           ParseRecord,
           FromBigEndian, Intact, Reader.Taken, Reader.Opened, Reader.CcsIn, Reader.Reply, RecordReader.Consumed;
      ghost var e, s;
      ghost var taken := !reader.ring.hasCcs && reader.Opened(input);
      if taken { e, s := ReadingStep(maxLen, input); }
      r, consumed := reader.OpenChangeCipherSpec(maxLen, input);
      if taken { Record(e, s); }
    }

    /**
     * A ChangeCipherSpec sealed in the clear, as send_flight puts it in a packet, that comes first in what is read,
     * is of the epoch being read, new and not stale: it is one that ReceiveCcs ends with.
     */
    lemma SentCcsArrives(b: seq<Byte>, m: Outgoing, rest: seq<Byte>)
      requires Valid() && sender.IsRecordOf(b, SentCcs, m) && sender.EpochKnown(m) && m.epoch == reader.records.rEpoch
      requires Clear(sender.records.WriteAead(sender.Previous(m))) && Clear(reader.records.aead)
      requires sender.records.aead.recordVersion / 256 == 0xfe && !reader.records.closed
      requires New(FromBigEndian(b[3..11]))
      ensures reader.CcsIn(b + rest) && ParseRecord(b + rest).value.rest == rest
    {
      hide FromBigEndian, BigEndian, ParseRecord, RecordNumber, Run, HandshakeReceiver.Contents, HandshakeReceiver.Valid,
           RecordReader.Authentic, Clear, FlightSender.AddedOk, FlightSender.CursorOk, Mirrors;
      var aead, version := sender.records.WriteAead(sender.Previous(m)), sender.records.aead.recordVersion;
      var n: nat :| n < NUMBERS && sender.records.Sealed(b, RT_CCS, [1], sender.Previous(m), m.epoch, n);
      var number := RecordNumber(m.epoch, n);
      ClearSeals(aead, RT_CCS, version, number, [1]);
      ClearSeals(reader.records.aead, RT_CCS, version, number, [1]);
      assert version < 0x1_0000 && m.epoch < EPOCHS;
      NumberInRecord(RT_CCS, version, number, [1]);
      RecordNumberValue(m.epoch, n);
      SealedIsAuthentic(reader.records, RT_CCS, version, m.epoch, n, [1], [1], rest);
    }

    /** The number was not received in this epoch and is not below the window. */
    ghost predicate New(n: nat)
      reads reader, reader.records, reader.records.bitmap
    {
      Accepted(reader.records.turns, n) !in reader.records.history && n + WINDOW > reader.records.bitmap.maxSeqNum
    }

    /** dtls1_set_read_state. */
    method SetReadState(aead: Aead) returns (ok: bool)
      requires Valid()
      modifies this`events, this`states, reader.records`rEpoch, reader.records`aead, reader.records`turns,
               reader.records.bitmap
      ensures Valid() && old(states) <= states && sender.added == old(sender.added)
      ensures Last().delivered == old(Last().delivered) && Last().inbox == old(Last().inbox)
      ensures reader.records.turns == old(reader.records.turns) + (if ok then 1 else 0)
    {
      hide Run, Step, FlightSender.Valid, HandshakeReceiver.Contents, HandshakeReceiver.Valid, RecordReader.Valid;
      ghost var s := Last();
      ok := reader.SetReadState(aead);
      if ok {
        ReadStep(sender.maxFlight, s);
        Record(NextReadTurn, s.(rTurn := s.rTurn + 1, recorded := {}));
      }
    }

    /**
     * dtls1_get_message and dtls1_next_message: what is returned is, header and all, the next message that was
     * added, as long as the sender was never more than 2^16 messages ahead and no epoch used up its numbers.
     */
    method Deliver() returns (m: Option<Message>)
      requires Valid()
      modifies this`events, this`states, reader.ring, reader.ring.slots
      ensures Valid() && sender.added == old(sender.added) && old(states) <= states
      ensures m.Some? <==> Ready(old(Last().inbox))
      ensures Last().delivered == old(Last().delivered) + (if m.Some? then [m.value.raw] else [])
      ensures m.Some? ==> |m.value.raw| >= HM_HEADER && m.value.body == m.value.raw[HM_HEADER..]
      ensures AllTame(old(states)) ==> Last().delivered <= sender.added
    {
      hide Run, Step, FlightSender.Valid, HandshakeReceiver.Contents, HandshakeReceiver.Valid, RecordReader.Valid, AllTame;
      ghost var s := Last();
      FlightBound();
      m := reader.ring.Take();
      if m.Some? {
        DeliverStep(sender.maxFlight, s);
        Record(EndToEnd.Deliver, Delivered(s));
      }
      if AllTame(old(states)) { PrefixDelivered(old(states)); }
    }

    lemma PrefixDelivered(before: seq<System>)
      requires 0 < sender.maxFlight < 256 && Run(sender.maxFlight, events, states) && |states| == |events| + 1
      requires AllTame(before) && (states == before || states == before + [Last()])
      ensures Last().delivered <= Last().out.added
    {
      hide Run, Tame;
      assert AllTame(states[..|events|]) by {
        forall i | 0 <= i < |events| ensures Tame(states[..|events|][i]) { assert Tame(before[i]); }
      }
      DeliveredIsPrefix(sender.maxFlight, events, states);
    }
  }

  // ---- The steps, one by one ----

  lemma AddStep(n: nat, s: System, kind: Byte, body: seq<Byte>, out: Outbox)
    requires Adds(n, s.out, kind, body, out)
    ensures Step(n, s, AddMessage(kind, body), s.(out := out))
  {}

  lemma CcsStep(n: nat, s: System, out: Outbox)
    requires AddsCcs(n, s.out, out)
    ensures Step(n, s, AddCcs, s.(out := out))
  {}

  lemma SendStep(n: nat, s: System, out: Outbox)
    requires Sends(s.out, out)
    ensures Step(n, s, EndToEnd.Send, s.(out := out))
  {}

  lemma WriteTurnStep(n: nat, s: System, out: Outbox)
    requires Turns(s.out, out)
    ensures Step(n, s, NextWriteTurn, s.(out := out))
  {}

  lemma OtherStep(n: nat, s: System, number: nat)
    ensures Step(n, s, ArriveOther(number), s.(recorded := s.recorded + {number}))
  {}

  lemma ReadStep(n: nat, s: System)
    requires s.inbox.msgs.Keys <= {s.inbox.readSeq}
    ensures Step(n, s, NextReadTurn, s.(rTurn := s.rTurn + 1, recorded := {}))
  {}
}
