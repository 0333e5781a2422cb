/** TLS handshake messages in a stream of records cut anywhere. */
module Framing {
  import opened Bits
  import opened Wire
  import TlsWriter

  const HM_PREFIX: nat := 4

  datatype HsMessage = HsMessage(kind: Byte, body: seq<Byte>)

  /** ssl3_init_message and ssl3_finish_message: type, three-byte length, body. */
  function MessageBytes(m: HsMessage): (r: seq<Byte>)
    ensures |r| == HM_PREFIX + |m.body|
  {
    [m.kind] + BigEndian(|m.body|, 3) + m.body
  }

  /** The four bytes of the header, as section 7.4 of RFC 5246 has them. */
  lemma PrefixLayout(m: HsMessage)
    requires |m.body| < 0x100_0000
    ensures MessageBytes(m) == [m.kind, |m.body| / 0x1_0000, |m.body| / 256 % 256, |m.body| % 256] + m.body
  {
    ThreeBytes(|m.body|);
  }

  /** parse_message: the first message, or how many bytes are needed to see it. */
  datatype Parsed = Found(m: HsMessage, rawLen: nat) | Needs(bytes: nat)

  function ParseMessage(buf: seq<Byte>): (r: Parsed)
    ensures r.Found? ==> HM_PREFIX <= r.rawLen <= |buf|
  {
    if |buf| < HM_PREFIX then Needs(HM_PREFIX)
    else
      var len := FromBigEndian(buf[1..4]);
      if |buf| - HM_PREFIX < len then Needs(HM_PREFIX + len)
      else Found(HsMessage(buf[0], buf[HM_PREFIX..HM_PREFIX + len]), HM_PREFIX + len)
  }

  /** All complete messages at the front of a stream. */
  function MessagesOf(stream: seq<Byte>): seq<HsMessage>
    decreases |stream|
  {
    var p := ParseMessage(stream);
    if p.Needs? then [] else [p.m] + MessagesOf(stream[p.rawLen..])
  }

  function StreamOf(list: seq<HsMessage>): seq<Byte>
  {
    if list == [] then [] else MessageBytes(list[0]) + StreamOf(list[1..])
  }

  lemma ParseOfMessage(m: HsMessage, rest: seq<Byte>)
    requires |m.body| < 0x100_0000
    ensures ParseMessage(MessageBytes(m) + rest) == Found(m, HM_PREFIX + |m.body|)
  {
    hide BigEndian, FromBigEndian;
    var s := MessageBytes(m) + rest;
    Widths();
    BigEndianRoundTrip(|m.body|, 3);
    assert s[1..4] == BigEndian(|m.body|, 3);
    assert s[HM_PREFIX..HM_PREFIX + |m.body|] == m.body;
  }

  lemma RawOfParse(buf: seq<Byte>)
    requires ParseMessage(buf).Found?
    ensures var p := ParseMessage(buf); MessageBytes(p.m) == buf[..p.rawLen] && |p.m.body| < 0x100_0000
  {
    hide BigEndian, FromBigEndian;
    Widths();
    BigEndianOfBytes(buf[1..4]);
    var p := ParseMessage(buf);
    assert buf[..p.rawLen] == [buf[0]] + buf[1..4] + buf[HM_PREFIX..p.rawLen];
  }

  /** More bytes do not change what has been found. */
  lemma ParseIsStable(buf: seq<Byte>, more: seq<Byte>)
    requires ParseMessage(buf).Found?
    ensures ParseMessage(buf + more) == ParseMessage(buf)
  {
    var p := ParseMessage(buf);
    assert (buf + more)[1..4] == buf[1..4];
    assert (buf + more)[HM_PREFIX..p.rawLen] == buf[HM_PREFIX..p.rawLen];
  }

  /** The messages that were written, followed by an incomplete one, are the messages read. */
  lemma {:induction false} MessagesOfStream(list: seq<HsMessage>, rest: seq<Byte>)
    requires forall m :: m in list ==> |m.body| < 0x100_0000
    ensures MessagesOf(StreamOf(list) + rest) == list + MessagesOf(rest)
  {
    hide ParseMessage, MessageBytes;
    if list == [] {
      assert [] + rest == rest;
    } else {
      assert list[0] in list;
      var tail := StreamOf(list[1..]) + rest;
      assert StreamOf(list) + rest == MessageBytes(list[0]) + tail;
      ParseOfMessage(list[0], tail);
      assert (MessageBytes(list[0]) + tail)[HM_PREFIX + |list[0].body|..] == tail;
      MessagesOfStream(list[1..], rest);
    }
  }

  lemma {:induction false} StreamOfAppend(list: seq<HsMessage>, m: HsMessage)
    ensures StreamOf(list + [m]) == StreamOf(list) + MessageBytes(m)
  {
    if list == [] {
      assert [m][1..] == [];
      assert StreamOf([m]) == MessageBytes(m) + [];
    } else {
      assert (list + [m])[1..] == list[1..] + [m];
      StreamOfAppend(list[1..], m);
    }
  }

  /** The handshake buffer of a TLS connection. */
  class HandshakeBuffer {
    var hasBuf: bool
    var buf: seq<Byte>
    var hasMessage: bool
    // The bodies of all handshake records so far, and the messages given up by NextMessage.
    ghost var received: seq<Byte>
    ghost var taken: seq<HsMessage>

    ghost predicate Valid()
      reads this
    {
      && (!hasBuf ==> buf == [])
      && (forall m :: m in taken ==> |m.body| < 0x100_0000)
      && received == StreamOf(taken) + buf
      && (hasMessage ==> ParseMessage(buf).Found?)
    }

    constructor ()
      ensures Valid() && received == [] && taken == [] && !hasMessage
    {
      hasBuf, buf, hasMessage, received, taken := false, [], false, [], [];
    }

    /** The messages of the records so far, however they were cut, are those taken and those still to come. */
    lemma InOrder()
      requires Valid()
      ensures MessagesOf(received) == taken + MessagesOf(buf)
      ensures taken <= MessagesOf(received)
    {
      MessagesOfStream(taken, buf);
    }

    lemma CurrentParses()
      requires Valid() && hasMessage
      ensures ParseMessage(buf).Found?
    {}

    /** The end of ssl3_open_handshake: append the body of a handshake record. */
    method AppendRecord(body: seq<Byte>)
      requires Valid()
      modifies this
      ensures Valid() && received == old(received) + body && taken == old(taken) && buf == old(buf) + body
      ensures hasMessage == old(hasMessage)
    {
      if ParseMessage(buf).Found? { ParseIsStable(buf, body); }
      hasBuf := true;
      buf := buf + body;
      received := received + body;
    }

    /** tls_can_accept_handshake_data: nothing complete is waiting, and the next message is not too long. */
    method CanAccept(maxLen: nat) returns (ok: bool)
      requires Valid()
      ensures ok <==> MessagesOf(received) == taken
                      && (|buf| >= HM_PREFIX ==> FromBigEndian(buf[1..4]) <= maxLen)
    {
      InOrder();
      var p := ParseMessage(buf);
      return p.Needs? && p.bytes <= HM_PREFIX + maxLen;
    }

    /** ssl3_get_message. */
    method GetMessage() returns (m: Option<HsMessage>)
      requires Valid()
      modifies this`hasMessage
      ensures Valid() && hasMessage == (old(hasMessage) || m.Some?)
      ensures m.None? <==> taken == MessagesOf(received)
      ensures m.Some? ==> |taken| < |MessagesOf(received)| && m.value == MessagesOf(received)[|taken|]
    {
      InOrder();
      var p := ParseMessage(buf);
      if p.Needs? { return None; }
      hasMessage := true;
      return Some(p.m);
    }

    /** ssl3_next_message; the buffer is released when it is empty after the handshake. */
    method NextMessage(inInit: bool)
      requires Valid() && ParseMessage(buf).Found?
      modifies this
      ensures Valid() && !hasMessage && received == old(received)
      ensures |taken| == |old(taken)| + 1 && old(taken) <= taken <= MessagesOf(received)
    {
      hide ParseMessage, MessageBytes, StreamOf, MessagesOf;
      var p := ParseMessage(buf);
      RawOfParse(buf);
      StreamOfAppend(taken, p.m);
      assert received == StreamOf(taken) + (buf[..p.rawLen] + buf[p.rawLen..]);
      taken := taken + [p.m];
      buf := buf[p.rawLen..];
      hasMessage := false;
      InOrder();
      if !inInit && buf == [] { hasBuf := false; }
    }

    /** tls_has_unprocessed_handshake_data: anything beyond the current message. */
    method HasUnprocessed() returns (some: bool)
      requires Valid()
      ensures hasMessage ==> |taken| < |MessagesOf(received)|
      ensures !some <==> received == StreamOf(taken) + (if hasMessage then MessageBytes(MessagesOf(received)[|taken|]) else [])
    {
      InOrder();
      var len := 0;
      if hasMessage {
        var p := ParseMessage(buf);
        RawOfParse(buf);
        len := p.rawLen;
      }
      some := hasBuf && |buf| > len;
      assert hasMessage ==> MessagesOf(received)[|taken|] == ParseMessage(buf).m;
    }
  }

  /**
   * Two ways of cutting the same stream into records give the same messages, and a message cut by
   * ssl3_add_message and joined again is the message.
   */
  lemma CutsDoNotMatter(a: HandshakeBuffer, b: HandshakeBuffer)
    requires a.Valid() && b.Valid() && a.received <= b.received
    ensures MessagesOf(a.received) <= MessagesOf(b.received)
    ensures |a.taken| <= |b.taken| ==> a.taken <= b.taken
  {
    hide MessagesOf, StreamOf, ParseMessage, HandshakeBuffer.Valid;
    a.InOrder();
    b.InOrder();
    MessagesGrow(a.received, b.received[|a.received|..]);
    assert a.received + b.received[|a.received|..] == b.received;
  }

  lemma {:induction false} MessagesGrow(s: seq<Byte>, more: seq<Byte>)
    ensures MessagesOf(s) <= MessagesOf(s + more)
    decreases |s|
  {
    var p := ParseMessage(s);
    if p.Found? {
      ParseIsStable(s, more);
      assert (s + more)[p.rawLen..] == s[p.rawLen..] + more;
      MessagesGrow(s[p.rawLen..], more);
    }
  }

  lemma NothingComplete(buf: seq<Byte>)
    ensures ParseMessage(buf).Needs? <==> MessagesOf(buf) == []
    ensures ParseMessage([]).Needs?
  {}

  // ---- From the writer to the buffer ----

  /** The texts of the handshake records, in the order in which they were sealed. */
  function HandshakeTexts(list: seq<TlsWriter.SealedRecord>): seq<seq<Byte>>
  {
    if list == [] then []
    else
      var r := list[|list| - 1];
      HandshakeTexts(list[..|list| - 1]) + (if r.kind == RT_HANDSHAKE then [r.text] else [])
  }

  function Concat(texts: seq<seq<Byte>>): seq<Byte>
  {
    if texts == [] then [] else Concat(texts[..|texts| - 1]) + texts[|texts| - 1]
  }

  lemma ConcatOneMore(texts: seq<seq<Byte>>, text: seq<Byte>)
    ensures Concat(texts + [text]) == Concat(texts) + text
  {
    assert (texts + [text])[..|texts|] == texts;
  }

  lemma {:induction false} TextsJoin(list: seq<TlsWriter.SealedRecord>)
    ensures Concat(HandshakeTexts(list)) == TlsWriter.TextOf(RT_HANDSHAKE, list)
  {
    if list != [] {
      TextsJoin(list[..|list| - 1]);
      var before, r := HandshakeTexts(list[..|list| - 1]), list[|list| - 1];
      if r.kind == RT_HANDSHAKE { ConcatOneMore(before, r.text); } else { assert before + [] == before; }
    }
  }

  lemma {:induction false} TextGrows(list: seq<TlsWriter.SealedRecord>, k: nat)
    requires k <= |list|
    ensures TlsWriter.TextOf(RT_HANDSHAKE, list[..k]) <= TlsWriter.TextOf(RT_HANDSHAKE, list)
  {
    if k < |list| {
      TextGrows(list[..|list| - 1], k);
      assert list[..|list| - 1][..k] == list[..k];
    } else {
      assert list[..k] == list;
    }
  }

  lemma StreamIsList(list: seq<HsMessage>)
    requires forall m :: m in list ==> |m.body| < 0x100_0000
    ensures MessagesOf(StreamOf(list)) == list
  {
    hide MessagesOf, StreamOf;
    NothingComplete([]);
    MessagesOfStream(list, []);
    assert StreamOf(list) + [] == StreamOf(list);
  }

  /**
   * The texts of the first k records a writer sealed for a list of messages, put into the buffer: what can be
   * taken is a prefix of the list, and with all the records it is the list.
   */
  lemma AddedIsTaken(w: TlsWriter.Writer, h: HandshakeBuffer, list: seq<HsMessage>, k: nat)
    requires forall m :: m in list ==> |m.body| < 0x100_0000
    requires TlsWriter.TextOf(RT_HANDSHAKE, w.sealed) == StreamOf(list) && k <= |w.sealed|
    requires h.Valid() && h.received == Concat(HandshakeTexts(w.sealed[..k]))
    ensures h.taken <= MessagesOf(h.received) <= list
    ensures k == |w.sealed| ==> h.received == StreamOf(list) && MessagesOf(h.received) == list
    ensures k == |w.sealed| && ParseMessage(h.buf).Needs? ==> h.taken == list
  {
    hide MessagesOf, StreamOf, ParseMessage, HandshakeBuffer.Valid;
    NothingComplete(h.buf);
    h.InOrder();
    StreamIsList(list);
    TextsJoin(w.sealed[..k]);
    TextGrows(w.sealed, k);
    if k == |w.sealed| { assert w.sealed[..k] == w.sealed; }
    MessagesGrow(h.received, StreamOf(list)[|h.received|..]);
    assert h.received + StreamOf(list)[|h.received|..] == StreamOf(list);
  }

  /** ssl_add_message_cbb for each message of the list. */
  method AddAll(w: TlsWriter.Writer, list: seq<HsMessage>) returns (ok: bool)
    requires w.Core()
    modifies w`hasFlight, w`flight, w`seqNo, w`sealed
    ensures w.Core() && old(w.sealed) <= w.sealed
    ensures forall i :: |old(w.sealed)| <= i < |w.sealed| ==> |w.sealed[i].text| <= w.maxSendFragment
    ensures ok ==> TlsWriter.TextOf(RT_HANDSHAKE, w.sealed) == old(TlsWriter.TextOf(RT_HANDSHAKE, w.sealed)) + StreamOf(list)
    ensures ok && list != [] ==> w.hasFlight
    ensures TlsWriter.Total(w.seal, RT_HANDSHAKE) ==> ok
  {
    hide TlsWriter.Writer.Core, TlsWriter.TextOf, MessageBytes;
    var i := 0;
    assert list[..0] == [];
    while i < |list|
      invariant 0 <= i <= |list| && w.Core() && old(w.sealed) <= w.sealed
      invariant forall j :: |old(w.sealed)| <= j < |w.sealed| ==> |w.sealed[j].text| <= w.maxSendFragment
      invariant TlsWriter.TextOf(RT_HANDSHAKE, w.sealed)
                == old(TlsWriter.TextOf(RT_HANDSHAKE, w.sealed)) + StreamOf(list[..i])
      invariant i > 0 ==> w.hasFlight
    {
      ok := w.AddMessage(MessageBytes(list[i]));
      if !ok { return; }
      StreamOfAppend(list[..i], list[i]);
      assert list[..i + 1] == list[..i] + [list[i]];
      i := i + 1;
    }
    assert list[..i] == list;
    return true;
  }

  /** ssl3_get_message and ssl3_next_message for as long as there is a message. */
  method TakeComplete(h: HandshakeBuffer, ghost before: seq<HsMessage>) returns (got: seq<HsMessage>)
    requires h.Valid() && h.taken == before
    modifies h
    ensures h.Valid() && h.received == old(h.received)
    ensures h.taken == before + got == MessagesOf(h.received)
  {
    hide HandshakeBuffer.Valid, MessagesOf, ParseMessage;
    got := [];
    h.InOrder();
    while true
      invariant h.Valid() && h.received == old(h.received) && h.taken == before + got
      decreases |MessagesOf(h.received)| - |h.taken|
    {
      var m := h.GetMessage();
      if m.None? { return; }
      h.CurrentParses();
      ghost var taken := h.taken;
      h.NextMessage(true);
      assert h.taken == taken + [m.value];
      got := got + [m.value];
    }
  }

  /** Records one after another, and after each the messages that are complete. */
  method ReadAll(h: HandshakeBuffer, texts: seq<seq<Byte>>) returns (got: seq<HsMessage>)
    requires h.Valid() && h.received == [] && h.taken == []
    modifies h
    ensures h.Valid() && h.received == Concat(texts)
    ensures got == h.taken == MessagesOf(Concat(texts))
  {
    hide HandshakeBuffer.Valid, MessagesOf;
    got := [];
    NothingComplete([]);
    var i := 0;
    assert texts[..0] == [];
    while i < |texts|
      invariant 0 <= i <= |texts| && h.Valid() && h.received == Concat(texts[..i])
      invariant got == h.taken == MessagesOf(h.received)
    {
      h.AppendRecord(texts[i]);
      ConcatOneMore(texts[..i], texts[i]);
      assert texts[..i + 1] == texts[..i] + [texts[i]];
      var more := TakeComplete(h, got);
      got := got + more;
      i := i + 1;
    }
    assert texts[..i] == texts;
  }

  /** The peer's record layer gives back the texts of the records it is sent. */
  ghost predicate OpensAll(seal: TlsWriter.Sealer, open: seq<Byte> -> seq<seq<Byte>>)
  {
    forall list, next :: TlsWriter.Genuine(seal, list, next) ==> open(TlsWriter.Bytes(list)) == HandshakeTexts(list)
  }

  /**
   * From end to end: messages added by one side under any limit on the length of records, flushed, opened by the
   * peer's record layer and put into its handshake buffer record by record, are taken there message for message.
   */
  method Transfer(w: TlsWriter.Writer, h: HandshakeBuffer, list: seq<HsMessage>, open: seq<Byte> -> seq<seq<Byte>>)
    returns (sent: bool, got: seq<HsMessage>)
    requires w.Core() && !w.broken && w.sealed == [] && w.buffer.Straight() && h.Valid() && h.received == []
             && h.taken == []
    requires OpensAll(w.seal, open) && forall m :: m in list ==> |m.body| < 0x100_0000
    modifies w`hasFlight, w`flight, w`flightOffset, w`seqNo, w`sealed, w`broken, w.buffer, w.wire, h
    ensures w.Core() && h.Valid()
    ensures sent ==> got == list && h.taken == list && h.received == StreamOf(list)
  {
    hide TlsWriter.Writer.Core, TlsWriter.TextOf, TlsWriter.Bytes, TlsWriter.Genuine, MessagesOf, StreamOf,
         HandshakeBuffer.Valid;
    NoText();
    got := [];
    sent := AddAll(w, list);
    if !sent || list == [] { return; }
    var r := w.FlushFlight();
    sent := r > 0;
    if !sent { return; }
    OpenedTexts(w, open);
    assert [] + StreamOf(list) == StreamOf(list);
    TextsJoin(w.sealed);
    StreamIsList(list);
    got := ReadAll(h, open(w.wire.out));
  }

  lemma NoText()
    ensures TlsWriter.TextOf(RT_HANDSHAKE, []) == [] && StreamOf([]) == []
  {}

  lemma OpenedTexts(w: TlsWriter.Writer, open: seq<Byte> -> seq<seq<Byte>>)
    requires w.Core() && OpensAll(w.seal, open)
    ensures open(TlsWriter.Bytes(w.sealed)) == HandshakeTexts(w.sealed)
  {
    hide TlsWriter.Bytes, TlsWriter.Genuine, TlsWriter.TextOf, HandshakeTexts;
  }
}
