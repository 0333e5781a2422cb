/** The nanopb decoder over input streams (pb_decode.c). */
module Decoder {
  import opened Bits
  import opened Descriptor
  import opened Varint
  import opened EncodeSpec
  import opened DecodeSpec
  import opened InputStream
  import opened FieldIter

  /** The decoders of the packable types. */
  method DecInteger(stream: IStream, f: Field) returns (ok: bool, v: Value)
    requires stream.Valid() && Packable(f)
    modifies stream
    ensures stream.Valid()
    ensures ok <==> Integer(f, old(stream.Rest())).Ok?
    ensures ok ==> v == Integer(f, old(stream.Rest())).value
                   && stream.At(Integer(f, old(stream.Rest())).rest, old(stream.state + stream.bytesLeft))
  {
    v := Int(0);
    if f.ltype == LFixed32 || f.ltype == LFixed64 {
      var data;
      ok, data := stream.Read(if f.ltype == LFixed32 then 4 else 8);
      if ok {
        v := Int(FromLittleEndian(data));
      }
      return;
    }
    var value;
    ok, value := ReadVarint(stream);
    if !ok {
      return;
    }
    if !IntegerSize(f.dataSize) {
      return false, v;
    }
    if f.ltype == LUvarint {
      var clamped := value % Modulus(f.dataSize);
      return clamped == value, Int(clamped);
    }
    var svalue := if f.ltype == LSvarint then UnZigZag(value) else ToSigned(value, if f.dataSize == 8 then 8 else 4);
    var clamped := ToSigned(svalue, f.dataSize);
    return clamped == svalue, Int(clamped);
  }

  /** pb_dec_bytes, pb_dec_string, pb_dec_fixed_length_bytes. */
  method DecBlob(stream: IStream, f: Field, dest: Value) returns (ok: bool, v: Value)
    requires stream.Valid() && f.ltype in {LBytes, LString, LInline}
    modifies stream
    ensures stream.Valid()
    ensures ok <==> Blob(f, dest, old(stream.Rest())).Ok?
    ensures ok ==> v == Blob(f, dest, old(stream.Rest())).value
                   && stream.At(Blob(f, dest, old(stream.Rest())).rest, old(stream.state + stream.bytesLeft))
  {
    hide Decode32, StoreString, Zeros;
    v := dest;
    var size, eof;
    ok, size, eof := ReadVarint32(stream);
    if !ok {
      return;
    }
    var data;
    if f.ltype == LBytes {
      if size > PB_SIZE_MAX || size + SIZEOF_PB_SIZE > f.dataSize {
        return false, v;
      }
      ok, data := stream.Read(size);
      v := Bytes(data);
    } else if f.ltype == LString {
      var allocSize := (size + 1) % TWO_32;
      if allocSize < size || allocSize > f.dataSize {
        return false, v;
      }
      ok, data := stream.Read(size);
      v := Chars(StoreString(dest, data));
    } else {
      if size > PB_SIZE_MAX {
        return false, v;
      }
      if size == 0 {
        return true, Inline(Zeros(f.dataSize));
      }
      if size != f.dataSize {
        return false, v;
      }
      ok, data := stream.Read(f.dataSize);
      v := Inline(data);
    }
  }

  /** The PB_DECODERS table. */
  method DecValue(stream: IStream, f: Field, dest: Value) returns (ok: bool, v: Value)
    requires stream.Valid() && TagOk(f)
    modifies stream
    ensures stream.Valid()
    ensures ok <==> DecodeValue(f, dest, old(stream.Rest())).Ok?
    ensures ok ==> v == DecodeValue(f, dest, old(stream.Rest())).value
                   && stream.At(DecodeValue(f, dest, old(stream.Rest())).rest, old(stream.state + stream.bytesLeft))
    decreases stream.bytesLeft, 1
  {
    if Packable(f) {
      ok, v := DecInteger(stream, f);
    } else if f.ltype in {LBytes, LString, LInline} {
      ok, v := DecBlob(stream, f, dest);
    } else if f.ltype == LExtension {
      return false, dest;
    } else {
      ok, v := DecSubmessage(stream, f, dest);
    }
  }

  /** pb_dec_submessage. */
  method DecSubmessage(stream: IStream, f: Field, dest: Value) returns (ok: bool, v: Value)
    requires stream.Valid() && TagOk(f) && f.ltype == LSubmessage
    modifies stream
    ensures stream.Valid()
    ensures ok <==> DecodeValue(f, dest, old(stream.Rest())).Ok?
    ensures ok ==> v == DecodeValue(f, dest, old(stream.Rest())).value
                   && stream.At(DecodeValue(f, dest, old(stream.Rest())).rest, old(stream.state + stream.bytesLeft))
    decreases stream.bytesLeft, 0
  {
    hide DecodeNoInit, Defaults, Substream, UnionsAgree;
    v := dest;
    var substream;
    ok, substream := OpenSubstream(stream);
    if !ok {
      return;
    }
    if !f.ptr.SubFields? {
      return false, v;
    }
    ghost var end := substream.state + substream.bytesLeft;
    var m := SubOf(dest);
    if f.htype == Repeated {
      m := Defaults(f.ptr.fields, m);
    }
    ok, m := PbDecodeNoInit(substream, f.ptr.fields, m);
    v := Sub(m);
    if ok {
      CloseSubstream(stream, substream, end);
    } else {
      return false, dest;
    }
  }

  /** One turn of the packed loop; it depends on nothing but the struct and the running count. */
  lemma PackedTurn(f: Field, i: nat, st: State, next: State, s: seq<Byte>)
    requires Packable(f) && s != [] && NextIndex(f, i, next) < f.arraySize
    requires st.m == next.m && st.fixedCount == next.fixedCount
    ensures var v := Integer(f, s);
            PackedLoop(f, i, st, s)
            == if v.Fail? then None
               else var a := Append(f, i, next, v.value);
                    PackedLoop(f, i, st.(m := a.m, fixedCount := a.fixedCount), v.rest)
  {
    assert DecodeValue(f, Item(SlotOf(st.m, i), NextIndex(f, i, st)), s) == Integer(f, s);
    if Integer(f, s).Ok? {
      var a := Append(f, i, next, Integer(f, s).value);
      assert Append(f, i, st, Integer(f, s).value) == st.(m := a.m, fixedCount := a.fixedCount);
    }
  }

  /** The loop of the packed branch: entries until the substream is empty or the array full. */
  method DecPackedEntries(substream: IStream, f: Field, i: nat, m: Msg, fixedCount: nat, ghost st: State)
    returns (ok: bool, m': Msg, fixedCount': nat)
    requires substream.Valid() && Packable(f) && st.m == m && st.fixedCount == fixedCount
    modifies substream
    ensures substream.Valid()
    ensures ok <==> PackedLoop(f, i, st, old(substream.Rest())).Some?
    ensures ok ==> PackedLoop(f, i, st, old(substream.Rest())) == Some(st.(m := m', fixedCount := fixedCount'))
                   && substream.state + substream.bytesLeft == old(substream.state + substream.bytesLeft)
  {
    m', fixedCount' := m, fixedCount;
    var next := State(m, {}, None, fixedCount);
    while substream.bytesLeft > 0 && NextIndex(f, i, next) < f.arraySize
      invariant substream.Valid()
      invariant substream.state + substream.bytesLeft == old(substream.state + substream.bytesLeft)
      invariant PackedLoop(f, i, st, old(substream.Rest()))
             == PackedLoop(f, i, st.(m := next.m, fixedCount := next.fixedCount), substream.Rest())
      decreases substream.bytesLeft
    {
      PackedTurn(f, i, st.(m := next.m, fixedCount := next.fixedCount), next, substream.Rest());
      var v;
      ok, v := DecInteger(substream, f);
      if !ok {
        return;
      }
      next := Append(f, i, next, v);
    }
    m', fixedCount' := next.m, next.fixedCount;
    ok := substream.bytesLeft == 0;
  }

  /** The packed branch of decode_static_field. */
  method DecPackedArray(stream: IStream, f: Field, i: nat, m: Msg, fixedCount: nat, ghost st: State)
    returns (ok: bool, m': Msg, fixedCount': nat)
    requires stream.Valid() && Packable(f) && TagOk(f) && st.m == m && st.fixedCount == fixedCount
    modifies stream
    ensures stream.Valid()
    ensures var sub := Substream(old(stream.Rest()));
            ok <==> sub.Ok? && PackedLoop(f, i, st, sub.value).Some?
    ensures ok ==> var sub := Substream(old(stream.Rest()));
                   && PackedLoop(f, i, st, sub.value) == Some(st.(m := m', fixedCount := fixedCount'))
                   && stream.At(sub.rest, old(stream.state + stream.bytesLeft))
  {
    m', fixedCount' := m, fixedCount;
    var substream;
    ok, substream := OpenSubstream(stream);
    if !ok {
      return;
    }
    ghost var end := substream.state + substream.bytesLeft;
    ok, m', fixedCount' := DecPackedEntries(substream, f, i, m, fixedCount, st);
    if ok {
      CloseSubstream(stream, substream, end);
    }
  }

  /** decode_static_field for field i; the locals m and fixedCount are passed in and out. */
  method DecStaticField(stream: IStream, fields: seq<Field>, i: nat, wireType: nat, m: Msg, fixedCount: nat,
                        ghost st: State)
    returns (ok: bool, m': Msg, fixedCount': nat)
    requires stream.Valid() && i < |fields| && TagsOk(fields) && st.m == m && st.fixedCount == fixedCount
    modifies stream
    ensures stream.Valid()
    ensures ok <==> StaticField(fields, i, wireType, st, old(stream.Rest())).Ok?
    ensures ok ==> var r := StaticField(fields, i, wireType, st, old(stream.Rest()));
                   && r.value == st.(m := m', fixedCount := fixedCount')
                   && stream.At(r.rest, old(stream.state + stream.bytesLeft))
    decreases stream.bytesLeft, 3
  {
    var f, slot := fields[i], SlotOf(m, i);
    assert TagOk(f);
    m', fixedCount' := m, fixedCount;
    var v;
    match f.htype {
      case Required =>
        ok, v := DecValue(stream, f, Item(slot, 0));
        m' := SetFieldItem(m, i, 0, v);
      case Optional =>
        if f.sizeOffset != 0 {
          slot := slot.(has := true);
        }
        ok, v := DecValue(stream, f, Item(slot, 0));
        m' := SetSlot(m, i, SetItem(slot, 0, v));
      case Oneof =>
        m' := m'.(which := m'.which[SizePos(fields, i) := f.tag]);
        var dest := Item(slot, 0);
        if f.ltype == LSubmessage {
          dest := DefaultValue(f, ZeroValue(f));
        }
        ok, v := DecValue(stream, f, dest);
        m' := SetFieldItem(m', i, 0, v);
      case Repeated =>
        if wireType == WT_STRING && Packable(f) {
          ok, m', fixedCount' := DecPackedArray(stream, f, i, m, fixedCount, st);
          return;
        }
        var next := State(m, {}, None, fixedCount);
        var k := NextIndex(f, i, next);
        if k >= f.arraySize {
          return false, m', fixedCount';
        }
        ok, v := DecValue(stream, f, Item(slot, k));
        next := Append(f, i, next, v);
        m', fixedCount' := next.m, next.fixedCount;
    }
  }

  lemma {:induction false} FindUnique(fields: seq<Field>, k: nat, i: nat)
    requires TagsOk(fields) && k <= i < |fields| && fields[i].ltype != LExtension
    ensures FindFrom(fields, k, fields[i].tag) == Some(i)
    decreases i - k
  {
    if k < i {
      FindUnique(fields, k + 1, i);
    }
  }

  /** The iterator's find, from wherever it stands, is the search of the plain table. */
  method FindField(iter: Iterator, tag: nat) returns (found: bool)
    requires iter.Valid() && TagsOk(iter.start)
    modifies iter
    ensures iter.Valid()
    ensures found && iter.start != [] ==> FindFrom(iter.start, 0, tag) == Some(iter.pos)
    ensures found && iter.start == [] ==> tag == 0
    ensures !found ==> FindFrom(iter.start, 0, tag).None? && (iter.start == [] ==> tag != 0)
  {
    forall i | 0 <= i < |iter.start| ensures iter.start[i].tag > 0 { assert TagOk(iter.start[i]); }
    found := iter.Find(tag);
    if found && iter.start != [] {
      FindUnique(iter.start, 0, iter.pos);
    }
  }

  lemma {:induction false} RequiredMonotone(fields: seq<Field>, i: nat, j: nat)
    requires i <= j <= |fields|
    ensures RequiredBefore(fields, i) <= RequiredBefore(fields, j)
    decreases j - i
  {
    if i < j {
      RequiredMonotone(fields, i, j - 1);
    }
  }

  /** The number of required fields, found by walking the iterator to its end. */
  method CountRequired(iter: Iterator) returns (n: nat)
    requires iter.Valid()
    modifies iter
    ensures n == RequiredBefore(iter.start, |iter.start|)
  {
    n := 0;
    var lastRequired := true;
    var more := true;
    while more
      invariant iter.Valid()
      invariant !more && iter.start == [] ==> n == 0
      invariant !more && iter.start != [] ==> n + (if lastRequired then 1 else 0) == RequiredBefore(iter.start, |iter.start|)
      decreases more, |iter.start| - iter.pos
    {
      n := iter.requiredIndex;
      lastRequired := iter.pos >= |iter.start| || iter.start[iter.pos].htype == Required;
      more := iter.Next();
    }
    if lastRequired && iter.Tag() != 0 {
      n := n + 1;
    }
  }

  ghost predicate SeenBounded(fields: seq<Field>, seen: set<nat>)
  {
    forall k :: k in seen ==> k < RequiredBefore(fields, |fields|) && k < PB_MAX_REQUIRED_FIELDS
  }

  /** What remains of pb_decode_noinit in a given state equals the whole of it. */
  ghost predicate Continues(fields: seq<Field>, m: Msg, s: seq<Byte>, st: State, rest: seq<Byte>)
  {
    DecodeNoInit(fields, m, s) == Finish(fields, Loop(fields, st, rest))
  }

  ghost predicate Stops(fields: seq<Field>, m: Msg, s: seq<Byte>, st: State, rest: seq<Byte>)
  {
    DecodeNoInit(fields, m, s) == Finish(fields, Ok(st, rest))
  }

  /** The iterator, the words of seen fields and the fixed-count array agree with the descriptor. */
  ghost predicate LocalsOk(fields: seq<Field>, iter: Iterator, seenWords: FieldsSeen, fixed: Option<nat>, seen: set<nat>)
    reads iter, seenWords, seenWords.words
  {
    && iter.Valid() && iter.start == fields
    && seenWords.Valid() && seenWords.Holds(seen) && SeenBounded(fields, seen)
    && (fixed.Some? ==> fixed.value < |fields|)
  }

  /** One turn of the decode loop. */
  lemma Turn(fields: seq<Field>, m: Msg, s: seq<Byte>, st: State, rest: seq<Byte>)
    requires Continues(fields, m, s, st, rest) && rest != []
    ensures var key := Decode32(rest);
            if key.Fail? then DecodeNoInit(fields, m, s).Fail?
            else if key.value == 0 then Stops(fields, m, s, st, key.rest)
            else var r := Record(fields, key.value, st, key.rest);
                 if r.Ok? then Continues(fields, m, s, r.value, r.rest) else DecodeNoInit(fields, m, s).Fail?
  {}

  lemma AtEnd(fields: seq<Field>, m: Msg, s: seq<Byte>, st: State)
    requires Continues(fields, m, s, st, [])
    ensures Stops(fields, m, s, st, [])
  {}

  /** Before a field is decoded: a fixed-count array that is left must be complete, and a required
      field is noted. */
  method EnterField(iter: Iterator, seenWords: FieldsSeen, fixed: Option<nat>, fixedCount: nat, ghost st: State)
    returns (ok: bool, fixed': Option<nat>, fixedCount': nat, ghost seen': set<nat>)
    requires iter.start != [] && LocalsOk(iter.start, iter, seenWords, fixed, st.seen)
    requires st.fixed == fixed && st.fixedCount == fixedCount
    modifies seenWords.words
    ensures ok <==> Enter(iter.start, iter.pos, st).Some?
    ensures ok ==> Enter(iter.start, iter.pos, st) == Some(State(st.m, seen', fixed', fixedCount'))
    ensures LocalsOk(iter.start, iter, seenWords, fixed', seen')
  {
    fixed', fixedCount', seen' := fixed, fixedCount, st.seen;
    var f := iter.start[iter.pos];
    if FixedCount(f) && fixed != Some(iter.pos) {
      if fixed.Some? && fixedCount != iter.start[fixed.value].arraySize {
        ok := false;
        return;
      }
      fixed', fixedCount' := Some(iter.pos), 0;
    }
    if f.htype == Required && iter.requiredIndex < PB_MAX_REQUIRED_FIELDS {
      RequiredMonotone(iter.start, iter.pos + 1, |iter.start|);
      seenWords.Mark(iter.requiredIndex, st.seen);
      seen' := st.seen + {iter.requiredIndex};
    }
    ok := true;
  }

  /** The body of the decode loop once a tag was read. */
  method DecRecord(stream: IStream, iter: Iterator, seenWords: FieldsSeen, wireType: nat, tag: nat, m: Msg,
                   fixed: Option<nat>, fixedCount: nat, ghost st: State)
    returns (ok: bool, m': Msg, fixed': Option<nat>, fixedCount': nat, ghost seen': set<nat>)
    requires stream.Valid() && TagsOk(iter.start) && wireType < 8
    requires LocalsOk(iter.start, iter, seenWords, fixed, st.seen) && st == State(m, st.seen, fixed, fixedCount)
    modifies stream, iter, seenWords.words
    ensures stream.Valid() && LocalsOk(iter.start, iter, seenWords, fixed', seen')
    ensures ok <==> Record(iter.start, 8 * tag + wireType, st, old(stream.Rest())).Ok?
    ensures ok ==> var r := Record(iter.start, 8 * tag + wireType, st, old(stream.Rest()));
                   && r.value == State(m', seen', fixed', fixedCount')
                   && stream.At(r.rest, old(stream.state + stream.bytesLeft))
    decreases stream.bytesLeft, 5
  {
    m', fixed', fixedCount', seen' := m, fixed, fixedCount, st.seen;
    assert (8 * tag + wireType) / 8 == tag && (8 * tag + wireType) % 8 == wireType;
    var found := FindField(iter, tag);
    if !found {
      ok := ReadSkipField(stream, wireType);
      return;
    }
    if iter.start == [] {
      // The terminator of an empty message has no integer size: "invalid data_size".
      ok := false;
      return;
    }
    ok, fixed', fixedCount', seen' := EnterField(iter, seenWords, fixed, fixedCount, st);
    if !ok || iter.start[iter.pos].atype != Static {
      ok := false;
      return;
    }
    ok, m', fixedCount' := DecStaticField(stream, iter.start, iter.pos, wireType, m, fixedCount', State(m, seen', fixed', fixedCount'));
  }

  /** What the decode loop may still do after a turn. */
  ghost predicate Resumes(stop: bool, fields: seq<Field>, m: Msg, s: seq<Byte>, st: State, rest: seq<Byte>)
  {
    if stop then Stops(fields, m, s, st, rest) else Continues(fields, m, s, st, rest)
  }

  /** One iteration of the decode loop; it stops without failing at a zero key. */
  method DecTurn(stream: IStream, iter: Iterator, seenWords: FieldsSeen, m: Msg, fixed: Option<nat>, fixedCount: nat,
                 ghost st: State, ghost dest: Msg, ghost s: seq<Byte>)
    returns (ok: bool, stop: bool, m': Msg, fixed': Option<nat>, fixedCount': nat, ghost seen': set<nat>)
    requires stream.Valid() && stream.bytesLeft > 0 && TagsOk(iter.start)
    requires LocalsOk(iter.start, iter, seenWords, fixed, st.seen) && st == State(m, st.seen, fixed, fixedCount)
    requires Continues(iter.start, dest, s, st, stream.Rest())
    modifies stream, iter, seenWords.words
    ensures stream.Valid()
    ensures if ok then
              && LocalsOk(iter.start, iter, seenWords, fixed', seen')
              && Resumes(stop, iter.start, dest, s, State(m', seen', fixed', fixedCount'), stream.Rest())
              && stream.state + stream.bytesLeft == old(stream.state + stream.bytesLeft)
              && stream.bytesLeft < old(stream.bytesLeft)
            else DecodeNoInit(iter.start, dest, s).Fail?
    decreases stream.bytesLeft, 6
  {
    hide Continues, Stops, DecodeNoInit, Loop, Record, LocalsOk;
    ghost var rest := stream.Rest();
    Turn(iter.start, dest, s, st, rest);
    m', fixed', fixedCount', seen' := m, fixed, fixedCount, st.seen;
    var wireType, tag;
    ok, wireType, tag, stop := ReadTag(stream);
    if ok {
      ok, m', fixed', fixedCount', seen' := DecRecord(stream, iter, seenWords, wireType, tag, m, fixed, fixedCount, st);
    } else {
      ok := stop;
    }
  }

  /** pb_decode_noinit. */
  method PbDecodeNoInit(stream: IStream, fields: seq<Field>, dest: Msg) returns (ok: bool, m: Msg)
    requires stream.Valid() && TagsOk(fields)
    modifies stream
    ensures stream.Valid()
    ensures ok <==> DecodeNoInit(fields, dest, old(stream.Rest())).Ok?
    ensures ok ==> m == DecodeNoInit(fields, dest, old(stream.Rest())).value
                   && stream.At(DecodeNoInit(fields, dest, old(stream.Rest())).rest, old(stream.state + stream.bytesLeft))
    decreases stream.bytesLeft, 7
  {
    m := dest;
    forall i | 0 <= i < |fields| ensures fields[i].tag > 0 { assert TagOk(fields[i]); }
    var iter := new Iterator(fields, 0);
    var seenWords := new FieldsSeen();
    var fixed: Option<nat>, fixedCount: nat := None, 0;
    ghost var s, seen: set<nat> := stream.Rest(), {};
    var eof := false;
    while stream.bytesLeft > 0 && !eof
      invariant stream.Valid() && stream.state + stream.bytesLeft == old(stream.state + stream.bytesLeft)
      invariant stream.bytesLeft <= old(stream.bytesLeft)
      invariant fresh(iter) && fresh(seenWords.words) && LocalsOk(fields, iter, seenWords, fixed, seen)
      invariant Resumes(eof, fields, dest, s, State(m, seen, fixed, fixedCount), stream.Rest())
      decreases stream.bytesLeft
    {
      ok, eof, m, fixed, fixedCount, seen := DecTurn(stream, iter, seenWords, m, fixed, fixedCount,
                                                     State(m, seen, fixed, fixedCount), dest, s);
      if !ok {
        return;
      }
    }
    if !eof { AtEnd(fields, dest, s, State(m, seen, fixed, fixedCount)); }
    ok := AllPresent(iter, seenWords, fixed, fixedCount, State(m, seen, fixed, fixedCount));
  }

  /** The checks after the loop: no fixed-count array is short and no required field is missing. */
  method AllPresent(iter: Iterator, seenWords: FieldsSeen, fixed: Option<nat>, fixedCount: nat, ghost st: State)
    returns (ok: bool)
    requires LocalsOk(iter.start, iter, seenWords, fixed, st.seen) && st.fixed == fixed && st.fixedCount == fixedCount
    modifies iter
    ensures ok <==> FixedComplete(iter.start, st) && AllSeen(iter.start, st.seen)
  {
    if fixed.Some? && fixedCount != iter.start[fixed.value].arraySize {
      return false;
    }
    var n := CountRequired(iter);
    ok := seenWords.Complete(if n > PB_MAX_REQUIRED_FIELDS then PB_MAX_REQUIRED_FIELDS else n, st.seen);
  }

  /** pb_decode. */
  method PbDecode(stream: IStream, fields: seq<Field>, dest: Msg) returns (ok: bool, m: Msg)
    requires stream.Valid() && TagsOk(fields)
    modifies stream
    ensures stream.Valid()
    ensures ok <==> Decode(fields, dest, old(stream.Rest())).Ok?
    ensures ok ==> m == Decode(fields, dest, old(stream.Rest())).value
                   && stream.At(Decode(fields, dest, old(stream.Rest())).rest, old(stream.state + stream.bytesLeft))
  {
    ok, m := PbDecodeNoInit(stream, fields, Defaults(fields, dest));
  }

  /** pb_decode_delimited: the stream ends up exactly behind the announced bytes. */
  method PbDecodeDelimited(stream: IStream, fields: seq<Field>, dest: Msg) returns (ok: bool, m: Msg)
    requires stream.Valid() && TagsOk(fields)
    modifies stream
    ensures stream.Valid()
    ensures ok <==> DecodeDelimited(fields, dest, old(stream.Rest())).Ok?
    ensures ok ==> m == DecodeDelimited(fields, dest, old(stream.Rest())).value
                   && stream.At(DecodeDelimited(fields, dest, old(stream.Rest())).rest, old(stream.state + stream.bytesLeft))
  {
    m := dest;
    var substream;
    ok, substream := OpenSubstream(stream);
    if !ok {
      return;
    }
    ghost var end := substream.state + substream.bytesLeft;
    ok, m := PbDecode(substream, fields, dest);
    if ok {
      CloseSubstream(stream, substream, end);
    }
  }
}
