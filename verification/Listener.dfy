/**
 The reconnect loop of the LISTEN task: exponential backoff with a cap, and one warning per outage.
 Durations are in seconds.
 */
module Listener {
  import opened Base

  const INITIAL_BACKOFF := 1
  const MAX_BACKOFF := 30

  /** How one call of the inner listen loop ends: it never connected, or it connected and later dropped. */
  datatype Outcome = NeverConnected | Dropped

  /** The call that began the outage in which call `i` ended: the last one up to `i` that had connected,
      or else the first call of all. */
  function OutageStart(outcomes: seq<Outcome>, i: nat): (k: nat)
    requires i < |outcomes|
    ensures k <= i
  {
    if i == 0 || outcomes[i].Dropped? then i else OutageStart(outcomes, i - 1)
  }

  /** An outage starts with the call that last had a connection, and it has one start. */
  lemma {:induction false} OutageStartIsLastConnection(outcomes: seq<Outcome>, i: nat)
    requires i < |outcomes|
    ensures var k := OutageStart(outcomes, i);
            && (k == 0 || outcomes[k].Dropped?)
            && OutageStart(outcomes, k) == k
            && forall j | k < j <= i :: outcomes[j].NeverConnected?
  {
    if i > 0 && outcomes[i].NeverConnected? {
      OutageStartIsLastConnection(outcomes, i - 1);
    }
  }

  function Pow2(n: nat): nat {
    if n == 0 then 1 else 2 * Pow2(n - 1)
  }

  lemma {:induction false} DoublingWithCap(n: nat)
    ensures Min(2 * Min(Pow2(n), MAX_BACKOFF), MAX_BACKOFF) == Min(Pow2(n + 1), MAX_BACKOFF)
    ensures Pow2(n) >= 1
  {
    if n > 0 {
      DoublingWithCap(n - 1);
    }
  }

  /** The delay after call `i`: it doubles with every further failure of the same outage. */
  function Delay(outcomes: seq<Outcome>, i: nat): int
    requires i < |outcomes|
  {
    Min(Pow2(i - OutageStart(outcomes, i)), MAX_BACKOFF)
  }

  /** The delay that the next failure finds if no connection comes up before it. */
  function NextDelay(outcomes: seq<Outcome>, n: nat): int
    requires n <= |outcomes|
  {
    if n == 0 then INITIAL_BACKOFF else Min(2 * Delay(outcomes, n - 1), MAX_BACKOFF)
  }

  /** A failed connect goes on with the outage; the end of a connection begins a new one. */
  lemma OutageContinues(outcomes: seq<Outcome>, n: nat)
    requires n < |outcomes|
    ensures Delay(outcomes, n) == if outcomes[n].Dropped? then INITIAL_BACKOFF else NextDelay(outcomes, n)
    ensures n == OutageStart(outcomes, n) <==> n == 0 || outcomes[n].Dropped?
  {
    if n > 0 && outcomes[n].NeverConnected? {
      DoublingWithCap(n - 1 - OutageStart(outcomes, n - 1));
    }
  }

  /** The delays of one outage, in seconds: 1, 2, 4, 8, 16, and from then on 30. */
  lemma DelaysOfAnOutage(outcomes: seq<Outcome>, i: nat)
    requires i < |outcomes|
    ensures var k := i - OutageStart(outcomes, i);
            Delay(outcomes, i) == if k == 0 then 1 else if k == 1 then 2 else if k == 2 then 4 else if k == 3 then 8
                                  else if k == 4 then 16 else 30
  {
    var k := i - OutageStart(outcomes, i);
    assert Pow2(0) == 1 && Pow2(1) == 2 && Pow2(2) == 4 && Pow2(3) == 8 && Pow2(4) == 16;
    if k >= 5 {
      Pow2Grows(k);
    }
  }

  lemma {:induction false} Pow2Grows(n: nat)
    requires n >= 5
    ensures Pow2(n) >= 32
  {
    if n == 5 {
      assert Pow2(4) == 16;
    } else {
      Pow2Grows(n - 1);
    }
  }

  class ListenTask {
    var backoff: int
    var warnedOnce: bool
    /** What the task did after each call: the seconds it slept, and whether it logged a warning. */
    var slept: seq<int>
    var warned: seq<bool>

    constructor ()
      ensures backoff == INITIAL_BACKOFF && !warnedOnce && slept == [] && warned == []
    {
      backoff, warnedOnce, slept, warned := INITIAL_BACKOFF, false, [], [];
    }

    /** A connection that comes up resets both flags, whatever ends it later. */
    method ListenLoop(outcome: Outcome)
      modifies this`backoff, this`warnedOnce
      ensures backoff == if outcome.Dropped? then INITIAL_BACKOFF else old(backoff)
      ensures warnedOnce == (outcome.NeverConnected? && old(warnedOnce))
    {
      if outcome == Dropped {
        backoff := INITIAL_BACKOFF;
        warnedOnce := false;
      }
    }

    /** The outer loop.  The k-th failure of an outage (from 0) is followed by a sleep of min(2^k, 30) seconds,
        and a warning is logged exactly after the call that began an outage. */
    method Run(outcomes: seq<Outcome>)
      requires backoff == INITIAL_BACKOFF && !warnedOnce && slept == [] && warned == []
      modifies this
      ensures |slept| == |outcomes| && |warned| == |outcomes|
      ensures forall i | 0 <= i < |outcomes| :: slept[i] == Delay(outcomes, i)
      ensures forall i | 0 <= i < |outcomes| :: warned[i] <==> i == OutageStart(outcomes, i)
    {
      for n := 0 to |outcomes|
        invariant |slept| == n && |warned| == n
        invariant forall i | 0 <= i < n :: slept[i] == Delay(outcomes, i)
        invariant forall i | 0 <= i < n :: warned[i] <==> i == OutageStart(outcomes, i)
        invariant backoff == NextDelay(outcomes, n) && (warnedOnce <==> n > 0)
      {
        OutageContinues(outcomes, n);
        ListenLoop(outcomes[n]);
        warned := warned + [!warnedOnce];
        if !warnedOnce {
          warnedOnce := true;
        }
        slept := slept + [backoff];
        backoff := Min(backoff * 2, MAX_BACKOFF);
      }
    }
  }

  /** Two calls belong to the same outage exactly when no connection came up after the first of them. */
  lemma {:induction false} SameOutage(outcomes: seq<Outcome>, i: nat, j: nat)
    requires i < j < |outcomes|
    ensures OutageStart(outcomes, i) == OutageStart(outcomes, j)
            <==> forall m | i < m <= j :: outcomes[m].NeverConnected?
  {
    OutageStartIsLastConnection(outcomes, j);
    if outcomes[j].NeverConnected? {
      if i < j - 1 {
        SameOutage(outcomes, i, j - 1);
      }
    }
  }
}
