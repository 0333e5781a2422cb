/** A saturating reference count changed by compare-and-swap loops of any number of threads. */
module RefCount {
  import opened Bits

  const MAX: nat := 0xffff_ffff

  // ---- The locked version ----

  /** A call, in the order in which calls take effect, with what it returned. */
  datatype Call = IncCall | DecCall(zero: bool) | AbortCall

  /** CRYPTO_refcount_inc of refcount_lock.c. */
  function LockedInc(count: nat): nat
  {
    if count < 0xffff_ffff then count + 1 else count
  }

  /** CRYPTO_refcount_dec_and_test_zero of refcount_lock.c, on a count that is not zero. */
  function LockedDec(count: nat): nat
  {
    if count == 0 then 0 else if count < 0xffff_ffff then count - 1 else count
  }

  /** One call of the locked version, or None if it would have returned something else. */
  function Locked(count: nat, c: Call): Option<nat>
  {
    match c
    case IncCall => Some(LockedInc(count))
    case DecCall(zero) => if count > 0 && zero == (LockedDec(count) == 0) then Some(LockedDec(count)) else None
    case AbortCall => if count == 0 then Some(0) else None
  }

  function LockedAll(count: nat, calls: seq<Call>): Option<nat>
  {
    if calls == [] then Some(count)
    else
      var before := LockedAll(count, calls[..|calls| - 1]);
      if before.None? then None else Locked(before.value, calls[|calls| - 1])
  }

  // ---- The lock-free version ----

  /** Where a thread is in CRYPTO_refcount_inc or CRYPTO_refcount_dec_and_test_zero of refcount_c11.c. */
  datatype Thread = Idle | IncCalled | IncLoop(expected: nat) | DecCalled | DecLoop(expected: nat)

  /** The shared counter, every thread, whether abort() was reached, and the calls that took effect. */
  datatype State = State(count: nat, threads: seq<Thread>, aborted: bool, calls: seq<Call>)

  /** What a thread that has read the counter does next: return, abort, or try to exchange. */
  function IncSees(s: State, t: nat): State
    requires t < |s.threads|
  {
    if s.count == MAX then s.(threads := s.threads[t := Idle], calls := s.calls + [IncCall])
    else s.(threads := s.threads[t := IncLoop(s.count)])
  }

  function DecSees(s: State, t: nat): State
    requires t < |s.threads|
  {
    if s.count == 0 then s.(aborted := true, calls := s.calls + [AbortCall])
    else if s.count == MAX then s.(threads := s.threads[t := Idle], calls := s.calls + [DecCall(false)])
    else s.(threads := s.threads[t := DecLoop(s.count)])
  }

  /** One atomic step of thread t. A weak exchange may fail although the counter is as expected. */
  predicate Step(s: State, t: nat, s': State)
  {
    && t < |s.threads| && !s.aborted
    && match s.threads[t]
       case Idle =>
         s' == s.(threads := s.threads[t := IncCalled]) || s' == s.(threads := s.threads[t := DecCalled])
       case IncCalled => s' == IncSees(s, t)
       case DecCalled => s' == DecSees(s, t)
       case IncLoop(expected) =>
         s' == IncSees(s, t)
         || (s.count == expected
             && s' == s.(count := expected + 1, threads := s.threads[t := Idle], calls := s.calls + [IncCall]))
       case DecLoop(expected) =>
         s' == DecSees(s, t)
         || (s.count == expected > 0
             && s' == s.(count := expected - 1, threads := s.threads[t := Idle], calls := s.calls + [DecCall(expected - 1 == 0)]))
  }

  predicate Run(init: nat, states: seq<State>, order: seq<nat>)
  {
    && |states| == |order| + 1
    && states[0].count == init <= MAX && !states[0].aborted && states[0].calls == []
    && (forall t :: 0 <= t < |states[0].threads| ==> states[0].threads[t] == Idle)
    && forall i :: 0 <= i < |order| ==> Step(states[i], order[i], states[i + 1])
  }

  // ---- Every interleaving is a sequence of locked calls ----

  predicate Bounded(s: State)
  {
    && s.count <= MAX
    && forall t :: 0 <= t < |s.threads| ==>
         match s.threads[t]
         case IncLoop(expected) => expected < MAX
         case DecLoop(expected) => 0 < expected < MAX
         case Idle => true
         case IncCalled => true
         case DecCalled => true
  }

  lemma LockedOneMore(count: nat, calls: seq<Call>, c: Call)
    requires LockedAll(count, calls).Some?
    ensures LockedAll(count, calls + [c]) == Locked(LockedAll(count, calls).value, c)
  {
    assert (calls + [c])[..|calls|] == calls;
  }

  /** A step takes effect as one locked call or not at all. */
  lemma StepIsLocked(init: nat, s: State, t: nat, s': State)
    requires Bounded(s) && Step(s, t, s') && LockedAll(init, s.calls) == Some(s.count)
    ensures Bounded(s') && LockedAll(init, s'.calls) == Some(s'.count)
  {
    hide LockedAll;
    if s'.calls != s.calls {
      var c := s'.calls[|s.calls|];
      assert s'.calls == s.calls + [c];
      LockedOneMore(init, s.calls, c);
    }
  }

  /** A call takes effect exactly once, in a step of its own thread, between its start and its return. */
  lemma EffectAtReturn(s: State, t: nat, s': State)
    requires Step(s, t, s')
    ensures s.calls <= s'.calls && |s'.calls| <= |s.calls| + 1 && |s'.threads| == |s.threads|
    ensures forall u :: 0 <= u < |s.threads| && u != t ==> s'.threads[u] == s.threads[u]
    ensures |s'.calls| == |s.calls| + 1 <==> s.threads[t] != Idle && (s'.threads[t] == Idle || s'.aborted)
  {}

  /** Linearizability: after any run, the counter and all results are those of the locked calls in order. */
  lemma {:induction false} Linearizable(init: nat, states: seq<State>, order: seq<nat>)
    requires Run(init, states, order)
    ensures var s := states[|order|]; Bounded(s) && LockedAll(init, s.calls) == Some(s.count)
    decreases |order|
  {
    hide Step, LockedAll;
    if order == [] {
      NothingYet(init);
    } else {
      var k := |order| - 1;
      assert Step(states[k], order[k], states[k + 1]);
      Linearizable(init, states[..k + 1], order[..k]);
      StepIsLocked(init, states[k], order[k], states[k + 1]);
    }
  }

  lemma NothingYet(init: nat)
    ensures LockedAll(init, []) == Some(init)
  {}

  // ---- What the locked calls promise ----

  function Incs(calls: seq<Call>): nat
  {
    if calls == [] then 0 else Incs(calls[..|calls| - 1]) + (if calls[|calls| - 1].IncCall? then 1 else 0)
  }

  function Decs(calls: seq<Call>): nat
  {
    if calls == [] then 0 else Decs(calls[..|calls| - 1]) + (if calls[|calls| - 1].DecCall? then 1 else 0)
  }

  /** The count before the k-th call. */
  function CountAt(init: nat, calls: seq<Call>, k: nat): nat
    requires LockedAll(init, calls).Some? && k <= |calls|
  {
    PrefixLocked(init, calls, k);
    LockedAll(init, calls[..k]).value
  }

  lemma {:induction false} PrefixLocked(init: nat, calls: seq<Call>, k: nat)
    requires LockedAll(init, calls).Some? && k <= |calls|
    ensures LockedAll(init, calls[..k]).Some?
  {
    if k < |calls| {
      PrefixLocked(init, calls[..|calls| - 1], k);
      assert calls[..|calls| - 1][..k] == calls[..k];
    } else {
      assert calls[..k] == calls;
    }
  }

  lemma CallAt(init: nat, calls: seq<Call>, k: nat)
    requires LockedAll(init, calls).Some? && k < |calls|
    ensures Locked(CountAt(init, calls, k), calls[k]) == Some(CountAt(init, calls, k + 1))
  {
    PrefixLocked(init, calls, k);
    PrefixLocked(init, calls, k + 1);
    assert calls[..k + 1] == calls[..k] + [calls[k]];
    LockedOneMore(init, calls[..k], calls[k]);
  }

  /** After l calls the count is the initial one plus increments minus decrements. */
  predicate Balanced(init: nat, calls: seq<Call>, l: nat)
    requires LockedAll(init, calls).Some? && l <= |calls|
  {
    CountAt(init, calls, l) == init + Incs(calls[..l]) - Decs(calls[..l])
  }

  /** A call that does not take effect at the maximum keeps the balance. */
  lemma BalanceStep(init: nat, calls: seq<Call>, k: nat)
    requires LockedAll(init, calls).Some? && k < |calls| && CountAt(init, calls, k) <= MAX
    ensures CountAt(init, calls, k) < MAX ==> (Balanced(init, calls, k) <==> Balanced(init, calls, k + 1))
    ensures CountAt(init, calls, k + 1) <= MAX
  {
    CallAt(init, calls, k);
    assert calls[..k + 1][..k] == calls[..k];
    hide LockedAll, CountAt;
  }

  lemma {:induction false} CountsBounded(init: nat, calls: seq<Call>, k: nat)
    requires LockedAll(init, calls).Some? && k <= |calls| && init <= MAX
    ensures CountAt(init, calls, k) <= MAX
  {
    if k > 0 {
      CountsBounded(init, calls, k - 1);
      BalanceStep(init, calls, k - 1);
    }
  }

  /** As long as no call takes effect at the maximum, nothing is lost or counted twice. */
  lemma {:induction false} Balance(init: nat, calls: seq<Call>, l: nat)
    requires LockedAll(init, calls).Some? && init <= MAX && l <= |calls|
    requires forall k :: 0 <= k < l ==> CountAt(init, calls, k) < MAX
    ensures Balanced(init, calls, l)
  {
    hide LockedAll, Balanced;
    if l == 0 {
      StartsBalanced(init, calls);
    } else {
      Balance(init, calls, l - 1);
      CountsBounded(init, calls, l - 1);
      BalanceStep(init, calls, l - 1);
    }
  }

  lemma StartsBalanced(init: nat, calls: seq<Call>)
    requires LockedAll(init, calls).Some?
    ensures Balanced(init, calls, 0)
  {}

  /** Call k took the count to zero. */
  predicate FallsToZero(init: nat, calls: seq<Call>, k: nat)
    requires LockedAll(init, calls).Some? && k < |calls|
  {
    CountAt(init, calls, k) > 0 && CountAt(init, calls, k + 1) == 0
  }

  /** A fall to zero is reported by the call that made it, and by no other. */
  lemma ZeroReportedOnce(init: nat, calls: seq<Call>, k: nat)
    requires LockedAll(init, calls).Some? && k < |calls|
    ensures calls[k] == DecCall(true) <==> FallsToZero(init, calls, k)
  {
    CallAt(init, calls, k);
  }

  /** At the maximum the count stays, and zero is never reported again. */
  lemma {:induction false} SaturatedForGood(init: nat, calls: seq<Call>, k: nat, l: nat)
    requires LockedAll(init, calls).Some? && k <= l <= |calls| && CountAt(init, calls, k) == MAX
    ensures CountAt(init, calls, l) == MAX
    ensures l < |calls| ==> calls[l] != DecCall(true) && calls[l] != AbortCall
    decreases l
  {
    hide LockedAll;
    if k < l {
      SaturatedForGood(init, calls, k, l - 1);
      CallAt(init, calls, l - 1);
    }
    if l < |calls| { CallAt(init, calls, l); }
  }

  // ---- The same of runs: what the lock-free version promises its callers ----

  /** The counter is the initial one plus the increments minus the decrements that took effect. */
  predicate Accounted(init: nat, s: State)
  {
    s.count == init + Incs(s.calls) - Decs(s.calls)
  }

  /** A call takes effect in this step with the counter at its maximum. */
  predicate AtMaximum(s: State, s': State)
  {
    s.count == MAX && s'.calls != s.calls
  }

  lemma StepAccount(init: nat, s: State, t: nat, s': State)
    requires Bounded(s) && Step(s, t, s')
    ensures !AtMaximum(s, s') ==> (Accounted(init, s) <==> Accounted(init, s'))
    ensures AtMaximum(s, s') ==> !Accounted(init, s) || !Accounted(init, s')
  {
    if s'.calls != s.calls {
      var c := s'.calls[|s.calls|];
      assert s'.calls == s.calls + [c];
      assert s'.calls[..|s.calls|] == s.calls;
    }
  }

  lemma PartOfRun(init: nat, states: seq<State>, order: seq<nat>, i: nat)
    requires Run(init, states, order) && i <= |order|
    ensures Bounded(states[i]) && LockedAll(init, states[i].calls) == Some(states[i].count)
    ensures i < |order| ==> Step(states[i], order[i], states[i + 1])
  {
    hide Step, LockedAll, Bounded;
    assert Run(init, states[..i + 1], order[..i]) by {
      forall j | 0 <= j < i ensures Step(states[j], order[j], states[j + 1]) {}
    }
    Linearizable(init, states[..i + 1], order[..i]);
  }

  lemma {:induction false} AccountedUpTo(init: nat, states: seq<State>, order: seq<nat>, i: nat)
    requires Run(init, states, order) && i <= |order|
    requires forall j :: 0 <= j < i ==> !AtMaximum(states[j], states[j + 1])
    ensures Accounted(init, states[i])
  {
    hide Step, AtMaximum, Bounded;
    if i > 0 {
      AccountedUpTo(init, states, order, i - 1);
      PartOfRun(init, states, order, i - 1);
      assert Step(states[i - 1], order[i - 1], states[i]);
      StepAccount(init, states[i - 1], order[i - 1], states[i]);
    }
  }

  /** Over a run the counter is in account at every moment exactly when no operation takes effect at the maximum. */
  lemma RunAccount(init: nat, states: seq<State>, order: seq<nat>)
    requires Run(init, states, order)
    ensures (forall i :: 0 <= i <= |order| ==> Accounted(init, states[i]))
            <==> (forall i :: 0 <= i < |order| ==> !AtMaximum(states[i], states[i + 1]))
  {
    hide Step, Accounted, AtMaximum, Bounded;
    if forall i :: 0 <= i < |order| ==> !AtMaximum(states[i], states[i + 1]) {
      forall i | 0 <= i <= |order| ensures Accounted(init, states[i]) { AccountedUpTo(init, states, order, i); }
    } else {
      var i :| 0 <= i < |order| && AtMaximum(states[i], states[i + 1]);
      PartOfRun(init, states, order, i);
      StepAccount(init, states[i], order[i], states[i + 1]);
    }
  }

  /**
   * What the lock-free version promises its callers: while the counter has never stood at its maximum it is
   * exactly the initial count plus the increments minus the decrements, however many there were; and each fall
   * to zero is reported by the call that made it and by no other.
   */
  lemma RunPromises(init: nat, states: seq<State>, order: seq<nat>)
    requires Run(init, states, order)
    ensures var s := states[|order|];
            LockedAll(init, s.calls).Some?
            && ((forall i :: 0 <= i < |order| ==> states[i].count < MAX) ==> Accounted(init, s))
            && (forall k :: 0 <= k < |s.calls| ==> (s.calls[k] == DecCall(true) <==> FallsToZero(init, s.calls, k)))
  {
    hide Step, LockedAll, Incs, Decs, Bounded;
    Linearizable(init, states, order);
    var calls := states[|order|].calls;
    if forall i :: 0 <= i < |order| ==> states[i].count < MAX {
      AccountedUpTo(init, states, order, |order|);
    }
    forall k | 0 <= k < |calls|
      ensures calls[k] == DecCall(true) <==> FallsToZero(init, calls, k)
    {
      ZeroReportedOnce(init, calls, k);
    }
  }
}
