/** The Protocol Buffers wire format, read without a descriptor: records of a field number and a payload.
    The wire types are 0 for a varint, 1 for eight bytes, 2 for a length and contents, and 5 for four bytes. */
module WireFormat {
  import opened Bits
  import opened Varint

  datatype Payload = Number(v: nat) | Eight(b: seq<Byte>) | Contents(b: seq<Byte>) | Four(b: seq<Byte>)

  datatype RawRecord = RawRecord(number: nat, payload: Payload)

  /** A number in base 128, the lowest digit first; every byte but the last has its top bit set. */
  function ReadVarint(s: seq<Byte>, most: nat): (r: Parsed<nat>)
    ensures r.Ok? ==> |r.rest| < |s|
  {
    if s == [] || most == 0 then Fail
    else if s[0] < 0x80 then Ok(s[0], s[1..])
    else
      var r := ReadVarint(s[1..], most - 1);
      if r.Ok? then Ok(s[0] - 0x80 + 0x80 * r.value, r.rest) else Fail
  }

  function ReadPayload(wireType: nat, s: seq<Byte>): (r: Parsed<Payload>)
    ensures r.Ok? ==> |r.rest| <= |s|
  {
    if wireType == 0 then
      var v := ReadVarint(s, 10);
      if v.Ok? then Ok(Number(v.value), v.rest) else Fail
    else if wireType == 1 && |s| >= 8 then Ok(Eight(s[..8]), s[8..])
    else if wireType == 2 then
      var n := ReadVarint(s, 10);
      if n.Ok? && n.value <= |n.rest| then Ok(Contents(n.rest[..n.value]), n.rest[n.value..]) else Fail
    else if wireType == 5 && |s| >= 4 then Ok(Four(s[..4]), s[4..])
    else Fail
  }

  /** A key and a payload. A key is a 32-bit number: eight times the field number plus the wire type. */
  function ReadRecord(s: seq<Byte>): (r: Parsed<RawRecord>)
    ensures r.Ok? ==> |r.rest| < |s|
  {
    var key := ReadVarint(s, 10);
    if key.Fail? || key.value >= 0x1_0000_0000 || key.value / 8 == 0 then Fail
    else
      var p := ReadPayload(key.value % 8, key.rest);
      if p.Ok? then Ok(RawRecord(key.value / 8, p.value), p.rest) else Fail
  }

  function Parse(s: seq<Byte>): Option<seq<RawRecord>>
    decreases |s|
  {
    if s == [] then Some([])
    else
      var r := ReadRecord(s);
      if r.Fail? then None
      else
        var rs := Parse(r.rest);
        if rs.Some? then Some([r.value] + rs.value) else None
  }

  /** s is the records rs, whatever follows. */
  ghost predicate Leads(s: seq<Byte>, rs: seq<RawRecord>)
  {
    forall rest: seq<Byte> ::
      Parse(s + rest) == if Parse(rest).Some? then Some(rs + Parse(rest).value) else None
  }

  lemma LeadsNothing()
    ensures Leads([], [])
  {
    hide Parse;
    forall rest: seq<Byte>
      ensures Parse([] + rest) == if Parse(rest).Some? then Some([] + Parse(rest).value) else None
    {
      assert [] + rest == rest;
      if Parse(rest).Some? { assert [] + Parse(rest).value == Parse(rest).value; }
    }
  }

  lemma LeadsBoth(s: seq<Byte>, rs: seq<RawRecord>, s': seq<Byte>, rs': seq<RawRecord>)
    requires Leads(s, rs) && Leads(s', rs')
    ensures Leads(s + s', rs + rs')
  {
    hide Parse;
    forall rest: seq<Byte>
      ensures Parse(s + s' + rest) == if Parse(rest).Some? then Some(rs + rs' + Parse(rest).value) else None
    {
      assert s + s' + rest == s + (s' + rest);
      if Parse(rest).Some? { assert rs + rs' + Parse(rest).value == rs + (rs' + Parse(rest).value); }
    }
  }

  lemma LeadsOne(s: seq<Byte>, r: RawRecord)
    requires forall rest: seq<Byte> :: ReadRecord(s + rest) == Ok(r, rest)
    ensures Leads(s, [r])
  {
    hide ReadRecord;
    forall rest: seq<Byte>
      ensures Parse(s + rest) == if Parse(rest).Some? then Some([r] + Parse(rest).value) else None
    {
      assert ReadRecord(s + rest) == Ok(r, rest);
      assert |rest| < |s + rest|;
    }
  }

  lemma LeadsAlone(s: seq<Byte>, rs: seq<RawRecord>)
    requires Leads(s, rs)
    ensures Parse(s) == Some(rs)
  {
    assert Parse([]) == Some([]);
    assert s + [] == s && rs + [] == rs;
    assert Parse(s + []) == Some(rs + Parse([]).value);
  }

  // ---- What follows does not matter ----

  lemma {:induction false} MoreVarint(s: seq<Byte>, most: nat, rest: seq<Byte>)
    requires ReadVarint(s, most).Ok?
    ensures ReadVarint(s + rest, most) == Ok(ReadVarint(s, most).value, ReadVarint(s, most).rest + rest)
    decreases most
  {
    assert (s + rest)[1..] == s[1..] + rest;
    if s[0] >= 0x80 { MoreVarint(s[1..], most - 1, rest); }
  }

  lemma MorePayload(wireType: nat, s: seq<Byte>, rest: seq<Byte>)
    requires ReadPayload(wireType, s).Ok?
    ensures ReadPayload(wireType, s + rest) == Ok(ReadPayload(wireType, s).value, ReadPayload(wireType, s).rest + rest)
  {
    hide ReadVarint;
    if wireType == 1 {
      assert (s + rest)[..8] == s[..8] && (s + rest)[8..] == s[8..] + rest;
    } else if wireType == 5 {
      assert (s + rest)[..4] == s[..4] && (s + rest)[4..] == s[4..] + rest;
    } else {
      MoreVarint(s, 10, rest);
      if wireType == 2 {
        var t, n := ReadVarint(s, 10).rest, ReadVarint(s, 10).value;
        assert (t + rest)[..n] == t[..n] && (t + rest)[n..] == t[n..] + rest;
      }
    }
  }

  lemma MoreRecord(s: seq<Byte>, rest: seq<Byte>)
    requires ReadRecord(s).Ok?
    ensures ReadRecord(s + rest) == Ok(ReadRecord(s).value, ReadRecord(s).rest + rest)
  {
    hide ReadVarint, ReadPayload;
    var key := ReadVarint(s, 10);
    MoreVarint(s, 10, rest);
    MorePayload(key.value % 8, key.rest, rest);
  }
}
