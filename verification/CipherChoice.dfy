/** The server's choice of cipher suite, with groups of equal preference. */
module CipherChoice {
  import opened Bits

  /** The parts of an SSL_CIPHER the choice looks at; ids are distinct. */
  datatype Suite = Suite(id: nat, minVersion: nat, maxVersion: nat, mkey: nat, auth: nat)

  /** The negotiated version and what ssl_get_compatible_server_ciphers allows. */
  datatype Limits = Limits(version: nat, maskK: nat, maskA: nat)

  predicate Compatible(c: Suite, l: Limits)
  {
    c.minVersion <= l.version <= c.maxVersion && BitAnd(c.mkey, l.maskK) != 0 && BitAnd(c.auth, l.maskA) != 0
  }

  /** The first position of a suite in a list that has it. */
  function RankIn(list: seq<Suite>, c: Suite): (r: nat)
    requires c in list
    ensures r < |list| && list[r] == c && forall k :: 0 <= k < r ==> list[k] != c
  {
    if list[0] == c then 0 else 1 + RankIn(list[1..], c)
  }

  /** sk_find without a comparison function. */
  method Find(list: seq<Suite>, c: Suite) returns (index: Option<nat>)
    ensures index.Some? <==> c in list
    ensures index.Some? ==> index.value == RankIn(list, c)
  {
    var i := 0;
    while i < |list|
      invariant 0 <= i <= |list| && forall k :: 0 <= k < i ==> list[k] != c
    {
      if list[i] == c {
        return Some(i);
      }
      i := i + 1;
    }
    return None;
  }

  /** The suite at this position of the priority list could be chosen. */
  predicate Candidate(prio: seq<Suite>, allow: seq<Suite>, l: Limits, i: nat)
  {
    i < |prio| && Compatible(prio[i], l) && prio[i] in allow
  }

  /** More of the group of position i follows it. */
  predicate Continues(flags: Option<seq<bool>>, i: nat)
  {
    flags.Some? && i < |flags.value| && flags.value[i]
  }

  /** Positions lo to hi are one group of equal preference. */
  ghost predicate Group(flags: Option<seq<bool>>, lo: nat, hi: nat)
  {
    && lo <= hi
    && (lo > 0 ==> !Continues(flags, lo - 1))
    && (forall k :: lo <= k < hi ==> Continues(flags, k))
    && !Continues(flags, hi)
  }

  /** Position j is the best of group lo to hi, and no earlier position has a candidate. */
  ghost predicate BestOf(prio: seq<Suite>, allow: seq<Suite>, flags: Option<seq<bool>>, l: Limits, lo: nat, hi: nat, j: nat)
  {
    && Group(flags, lo, hi) && lo <= j <= hi < |prio|
    && (forall k: nat :: k < lo ==> !Candidate(prio, allow, l, k))
    && Candidate(prio, allow, l, j)
    && (forall k: nat :: lo <= k <= hi && Candidate(prio, allow, l, k) ==> RankIn(allow, prio[j]) <= RankIn(allow, prio[k]))
  }

  /** The choice: from the earliest group with any candidate, the one the other side ranks highest. */
  ghost predicate Chosen(prio: seq<Suite>, allow: seq<Suite>, flags: Option<seq<bool>>, l: Limits, c: Suite)
  {
    exists lo: nat, hi: nat, j: nat :: BestOf(prio, allow, flags, l, lo, hi, j) && c == prio[j]
  }

  /** The position belongs to a last group that is never closed. */
  ghost predicate Unclosed(prio: seq<Suite>, flags: Option<seq<bool>>, i: nat)
  {
    forall k :: i <= k < |prio| ==> Continues(flags, k)
  }

  /** What the loop has learned: where the current group starts and the best candidate in it so far. */
  ghost predicate Scanned(prio: seq<Suite>, allow: seq<Suite>, flags: Option<seq<bool>>, l: Limits, lo: nat, i: nat,
                          best: Option<nat>)
  {
    && lo <= i <= |prio|
    && (lo > 0 ==> !Continues(flags, lo - 1))
    && (forall k :: lo <= k < i ==> Continues(flags, k))
    && (forall k: nat :: k < lo ==> !Candidate(prio, allow, l, k))
    && (best.None? ==> forall k: nat :: k < i ==> !Candidate(prio, allow, l, k))
    && (best.Some? ==> BestSoFar(prio, allow, l, lo, i, best.value))
  }

  ghost predicate BestSoFar(prio: seq<Suite>, allow: seq<Suite>, l: Limits, lo: nat, i: nat, best: nat)
  {
    && (exists j: nat :: lo <= j < i && Candidate(prio, allow, l, j) && RankIn(allow, prio[j]) == best)
    && (forall k: nat :: lo <= k < i && Candidate(prio, allow, l, k) ==> best <= RankIn(allow, prio[k]))
  }

  lemma BestIsChosen(prio: seq<Suite>, allow: seq<Suite>, flags: Option<seq<bool>>, l: Limits, lo: nat, hi: nat, best: nat)
    requires exists b :: Scanned(prio, allow, flags, l, lo, hi, b)
    requires hi < |prio| && !Continues(flags, hi)
    requires BestSoFar(prio, allow, l, lo, hi + 1, best)
    ensures best < |allow| && Chosen(prio, allow, flags, l, allow[best])
  {
    var j: nat :| lo <= j < hi + 1 && Candidate(prio, allow, l, j) && RankIn(allow, prio[j]) == best;
    assert BestOf(prio, allow, flags, l, lo, hi, j);
  }

  /** The better of what was found and position i. */
  function Better(prio: seq<Suite>, allow: seq<Suite>, l: Limits, best: Option<nat>, i: nat): Option<nat>
  {
    if !Candidate(prio, allow, l, i) then best
    else if best.None? || best.value > RankIn(allow, prio[i]) then Some(RankIn(allow, prio[i]))
    else best
  }

  lemma BetterIsBest(prio: seq<Suite>, allow: seq<Suite>, flags: Option<seq<bool>>, l: Limits, lo: nat, i: nat,
                     best: Option<nat>)
    requires Scanned(prio, allow, flags, l, lo, i, best) && i < |prio|
    ensures var b := Better(prio, allow, l, best, i);
            if b.None? then forall k: nat :: k < i + 1 ==> !Candidate(prio, allow, l, k) else BestSoFar(prio, allow, l, lo, i + 1, b.value)
  {
    hide RankIn;
    if best.Some? {
      var j: nat :| lo <= j < i && Candidate(prio, allow, l, j) && RankIn(allow, prio[j]) == best.value;
      assert lo <= j < i + 1;
    }
  }

  lemma ScanOn(prio: seq<Suite>, allow: seq<Suite>, flags: Option<seq<bool>>, l: Limits, lo: nat, i: nat, best: Option<nat>)
    requires Scanned(prio, allow, flags, l, lo, i, best) && i < |prio|
    requires !Continues(flags, i) ==> Better(prio, allow, l, best, i).None?
    ensures Scanned(prio, allow, flags, l, if Continues(flags, i) then lo else i + 1, i + 1, Better(prio, allow, l, best, i))
  {
    hide RankIn, Compatible;
    BetterIsBest(prio, allow, flags, l, lo, i, best);
  }

  /** The loop of ssl3_choose_cipher over `prio`; `flags` is None under client preference. */
  method Choose(prio: seq<Suite>, allow: seq<Suite>, flags: Option<seq<bool>>, l: Limits) returns (r: Option<Suite>)
    ensures r.Some? ==> Chosen(prio, allow, flags, l, r.value)
    ensures r.None? <==> forall i: nat :: Candidate(prio, allow, l, i) ==> Unclosed(prio, flags, i)
  {
    hide Compatible, RankIn, Scanned, BestSoFar, Chosen;
    var groupMin: Option<nat> := None;
    ghost var lo := 0;
    var i := 0;
    ScanStarts(prio, allow, flags, l);
    while i < |prio|
      invariant i <= |prio| && Scanned(prio, allow, flags, l, lo, i, groupMin)
    {
      var c := prio[i];
      ghost var best := Better(prio, allow, l, groupMin, i);
      BetterIsBest(prio, allow, flags, l, lo, i, groupMin);
      ghost var before := groupMin;
      var index := Find(allow, c);
      if Compatible(c, l) && index.Some? {
        assert Candidate(prio, allow, l, i);
        if Continues(flags, i) {
          if groupMin.None? || groupMin.value > index.value { groupMin := index; }
        } else {
          var cipherIndex := index.value;
          if groupMin.Some? && groupMin.value < cipherIndex { cipherIndex := groupMin.value; }
          assert best == Some(cipherIndex);
          BestIsChosen(prio, allow, flags, l, lo, i, cipherIndex);
          assert !Unclosed(prio, flags, i);
          return Some(allow[cipherIndex]);
        }
      }
      assert groupMin == best;
      if flags.Some? && !Continues(flags, i) && groupMin.Some? {
        BestIsChosen(prio, allow, flags, l, lo, i, groupMin.value);
        ClosedCandidate(prio, allow, flags, l, lo, i, groupMin.value);
        return Some(allow[groupMin.value]);
      }
      NoGroupNoBest(prio, allow, flags, l, lo, i, before);
      ScanOn(prio, allow, flags, l, lo, i, before);
      lo := if Continues(flags, i) then lo else i + 1;
      i := i + 1;
    }
    NothingClosed(prio, allow, flags, l, lo, groupMin);
    return None;
  }

  /** ssl3_choose_cipher: which list sets the priorities is an option of the server. */
  method ChooseCipher(client: Option<seq<Suite>>, server: seq<Suite>, flags: seq<bool>, serverPreference: bool, l: Limits)
    returns (r: Option<Suite>)
    requires |flags| == |server| && (server != [] ==> !flags[|server| - 1])
    ensures client.None? ==> r.None?
    ensures client.Some? ==>
              (r.None? <==> forall c :: c in client.value && c in server ==> !Compatible(c, l))
    ensures client.Some? && r.Some? ==>
              if serverPreference then Chosen(server, client.value, Some(flags), l, r.value)
              else Chosen(client.value, server, None, l, r.value)
  {
    if client.None? { return None; }
    var prio, allow, groups := client.value, server, None;
    if serverPreference {
      prio, allow, groups := server, client.value, Some(flags);
    }
    r := Choose(prio, allow, groups, l);
    ClosedGroups(prio, allow, groups, l);
    assert forall c :: c in prio && c in allow && Compatible(c, l) ==> exists i: nat :: Candidate(prio, allow, l, i) by {
      forall c | c in prio && c in allow && Compatible(c, l) ensures exists i: nat :: Candidate(prio, allow, l, i) {
        var i: nat :| i < |prio| && prio[i] == c;
        assert Candidate(prio, allow, l, i);
      }
    }
  }

  lemma ScanStarts(prio: seq<Suite>, allow: seq<Suite>, flags: Option<seq<bool>>, l: Limits)
    ensures Scanned(prio, allow, flags, l, 0, 0, None)
  {}

  lemma ClosedCandidate(prio: seq<Suite>, allow: seq<Suite>, flags: Option<seq<bool>>, l: Limits, lo: nat, hi: nat,
                        best: nat)
    requires BestSoFar(prio, allow, l, lo, hi + 1, best) && hi < |prio| && !Continues(flags, hi)
    ensures exists j: nat :: Candidate(prio, allow, l, j) && !Unclosed(prio, flags, j)
  {
    var j: nat :| lo <= j < hi + 1 && Candidate(prio, allow, l, j);
    assert !Unclosed(prio, flags, j);
  }

  /** Without groups nothing is remembered from one position to the next. */
  lemma NoGroupNoBest(prio: seq<Suite>, allow: seq<Suite>, flags: Option<seq<bool>>, l: Limits, lo: nat, i: nat,
                      best: Option<nat>)
    requires Scanned(prio, allow, flags, l, lo, i, best) && i < |prio|
    ensures flags.None? ==> best.None?
  {
    assert flags.None? ==> !Continues(flags, lo);
  }

  lemma NothingClosed(prio: seq<Suite>, allow: seq<Suite>, flags: Option<seq<bool>>, l: Limits, lo: nat, best: Option<nat>)
    requires Scanned(prio, allow, flags, l, lo, |prio|, best)
    ensures forall i: nat :: Candidate(prio, allow, l, i) ==> Unclosed(prio, flags, i)
  {}

  /** When every group is closed, nothing is chosen exactly when nothing could be. */
  lemma ClosedGroups(prio: seq<Suite>, allow: seq<Suite>, flags: Option<seq<bool>>, l: Limits)
    requires prio != [] ==> !Continues(flags, |prio| - 1)
    ensures (forall i: nat :: Candidate(prio, allow, l, i) ==> Unclosed(prio, flags, i))
            <==> (forall i: nat :: !Candidate(prio, allow, l, i))
  {
    forall i: nat | Candidate(prio, allow, l, i) ensures !Unclosed(prio, flags, i) {
      assert !Continues(flags, |prio| - 1);
    }
  }

  /** Without groups the choice is the first candidate. */
  lemma ClientOrder(prio: seq<Suite>, allow: seq<Suite>, l: Limits, c: Suite)
    requires Chosen(prio, allow, None, l, c)
    ensures exists j: nat :: Candidate(prio, allow, l, j) && prio[j] == c && forall k: nat :: k < j ==> !Candidate(prio, allow, l, k)
  {
    var lo: nat, hi: nat, j: nat :| BestOf(prio, allow, None, l, lo, hi, j) && c == prio[j];
    assert !Continues(None, lo);
  }

  /** Two groups neither of which starts after a member of the other are the same. */
  lemma GroupsMeet(flags: Option<seq<bool>>, lo: nat, hi: nat, lo': nat, hi': nat, j: nat, j': nat)
    requires Group(flags, lo, hi) && Group(flags, lo', hi') && lo <= j <= hi && lo' <= j' <= hi'
    requires lo' <= j && lo <= j'
    ensures lo == lo' && hi == hi'
  {}

  /** The choice is unique. */
  lemma ChosenOnce(prio: seq<Suite>, allow: seq<Suite>, flags: Option<seq<bool>>, l: Limits, c: Suite, d: Suite)
    requires Chosen(prio, allow, flags, l, c) && Chosen(prio, allow, flags, l, d)
    ensures c == d
  {
    hide Compatible, RankIn;
    var lo: nat, hi: nat, j: nat :| BestOf(prio, allow, flags, l, lo, hi, j) && c == prio[j];
    var lo': nat, hi': nat, j': nat :| BestOf(prio, allow, flags, l, lo', hi', j') && d == prio[j'];
    GroupsMeet(flags, lo, hi, lo', hi', j, j');
    assert RankIn(allow, c) == RankIn(allow, d);
    assert allow[RankIn(allow, c)] == allow[RankIn(allow, d)];
  }
}
