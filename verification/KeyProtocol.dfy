/**
 The revocable key store as a distributed protocol.  Any number of pods share the tables; each pod has a
 cache with a time to live and a LISTEN connection that carries NOTIFYs to it.  A request that crosses an
 `await` is a flight: between its database statement and its cache operation anything may happen.

 Reads and cache entries carry stamps, the index of the state that was read and of the step that stored the
 entry.  No step consults a stamp; they let the theorems point into the run.
 */
module KeyProtocol {
  import opened Base
  import opened RevokeFilter
  import opened KeyTables

  /** Time is in milliseconds. */
  const CACHE_TTL: nat := 30_000

  type PodId = nat

  datatype Entry = Entry(value: Option<Row>, readAt: nat, readStep: nat, storedAt: nat, storedStep: nat)

  datatype Pod = Pod(cache: map<Hash, Entry>, listening: bool, queue: seq<Hash>)

  /** `Fill`: a row was read (or issued) and is about to be cached.  `Purge`: hashes were revoked and are
      about to be invalidated in the revoking pod's cache. */
  datatype Flight =
    | Fill(pod: PodId, hash: Hash, value: Option<Row>, readAt: nat, readStep: nat)
    | Purge(pod: PodId, hashes: seq<Hash>)

  datatype State = State(now: nat, clock: nat, db: Tables, pods: map<PodId, Pod>, flights: map<nat, Flight>)

  datatype Step =
    | Tick(elapsed: nat)
    | Join(pod: PodId)
    | Connect(pod: PodId)
    | Disconnect(pod: PodId)
    | Deliver(pod: PodId)
    | Evict(pod: PodId, hash: Hash)
    | LookupHit(pod: PodId, hash: Hash)
    | LookupRead(pod: PodId, hash: Hash, flight: nat)
    | Store(flight: nat)
    | PurgeLocal(flight: nat)
    | Abandon(flight: nat)
    | Commit(tx: Tx, pod: PodId, flight: nat)

  function Content(db: Tables, h: Hash): Option<Row> {
    if h in db.live then Some(db.live[h]) else None
  }

  /** An entry is served while its age is below the time to live. */
  predicate Serves(s: State, pod: PodId, h: Hash) {
    pod in s.pods && h in s.pods[pod].cache && s.now < s.pods[pod].cache[h].storedAt + CACHE_TTL
  }

  ghost predicate Initial(s: State) {
    s.now == 0 && s.clock == 0 && s.db == EMPTY_TABLES && s.pods == map[] && s.flights == map[]
  }

  ghost predicate Enabled(s: State, step: Step) {
    match step
    case Tick(_) => true
    case Join(p) => p !in s.pods
    case Connect(p) => p in s.pods && !s.pods[p].listening
    case Disconnect(p) => p in s.pods && s.pods[p].listening
    case Deliver(p) => p in s.pods && s.pods[p].queue != []
    case Evict(p, _) => p in s.pods
    case LookupHit(p, h) => Serves(s, p, h)
    case LookupRead(p, h, f) => p in s.pods && f !in s.flights // the cache may have been filled since the miss
    case Store(f) => f in s.flights && s.flights[f].Fill? && s.flights[f].pod in s.pods
    case PurgeLocal(f) => f in s.flights && s.flights[f].Purge? && s.flights[f].pod in s.pods && s.flights[f].hashes != []
    case Abandon(f) => f in s.flights
    case Commit(tx, p, f) => p in s.pods && f !in s.flights && Admissible(s.db, tx)
  }

  function Invalidate(pod: Pod, h: Hash): Pod {
    pod.(cache := pod.cache - {h})
  }

  /** A commit hands its NOTIFYs to every pod that is listening at that moment, and to no other. */
  function Notify(pods: map<PodId, Pod>, hashes: seq<Hash>): map<PodId, Pod> {
    map p | p in pods ::
      if pods[p].listening then pods[p].(queue := pods[p].queue + hashes) else pods[p]
  }

  /** The NOTIFYs of a transaction: the hashes it appended to the channel. */
  function NewNotices(before: Tables, after: Tables): seq<Hash> {
    if |before.notified| <= |after.notified| then after.notified[|before.notified|..] else []
  }

  /** What a committed request still has to do: an issue caches its row, a revocation purges its hashes. */
  function FollowUp(s: State, tx: Tx, pod: PodId): Flight {
    if tx.Issue? then Fill(pod, tx.hash, Some(tx.row), s.now, s.clock + 1)
    else Purge(pod, NewNotices(s.db, Apply(s.db, tx)))
  }

  function Effect(s: State, step: Step): State
    requires Enabled(s, step)
  {
    match step
    case Tick(d) => s.(now := s.now + d)
    case Join(p) => s.(pods := s.pods[p := Pod(map[], false, [])])
    case Connect(p) => s.(pods := s.pods[p := s.pods[p].(listening := true, queue := [])])
    case Disconnect(p) => s.(pods := s.pods[p := s.pods[p].(listening := false, queue := [])])
    case Deliver(p) =>
      var pod := s.pods[p];
      s.(pods := s.pods[p := Invalidate(pod, pod.queue[0]).(queue := pod.queue[1..])])
    case Evict(p, h) => s.(pods := s.pods[p := Invalidate(s.pods[p], h)])
    case LookupHit(_, _) => s
    case LookupRead(p, h, f) => s.(flights := s.flights[f := Fill(p, h, Content(s.db, h), s.now, s.clock)])
    case Store(f) =>
      var fill := s.flights[f];
      var pod := s.pods[fill.pod];
      var entry := Entry(fill.value, fill.readAt, fill.readStep, s.now, s.clock);
      s.(pods := s.pods[fill.pod := pod.(cache := pod.cache[fill.hash := entry])], flights := s.flights - {f})
    case PurgeLocal(f) =>
      var purge := s.flights[f];
      s.(pods := s.pods[purge.pod := Invalidate(s.pods[purge.pod], purge.hashes[0])],
      flights := s.flights[f := purge.(hashes := purge.hashes[1..])])
    case Abandon(f) => s.(flights := s.flights - {f})
    case Commit(tx, p, f) =>
      var db := Apply(s.db, tx);
      s.(db := db, pods := Notify(s.pods, NewNotices(s.db, db)), flights := s.flights[f := FollowUp(s, tx, p)])
  }

  function Next(s: State, step: Step): State
    requires Enabled(s, step)
  {
    Effect(s, step).(clock := s.clock + 1)
  }

  /** `states[i]` is the state before `steps[i]`. */
  ghost predicate IsRun(states: seq<State>, steps: seq<Step>) {
    && |states| == |steps| + 1
    && Initial(states[0])
    && forall i | 0 <= i < |steps| :: Enabled(states[i], steps[i]) && states[i + 1] == Next(states[i], steps[i])
  }

  /** The answer that a step returns to the caller of a lookup. */
  datatype Answer = NoAnswer | Answer(hash: Hash, value: Option<Row>)

  function AnswerOf(s: State, step: Step): Answer
    requires Enabled(s, step)
  {
    match step
    case LookupHit(p, h) => Answer(h, s.pods[p].cache[h].value)
    case Store(f) => Answer(s.flights[f].hash, s.flights[f].value)
    case _ => NoAnswer
  }

  /** The pod that a step answers on, and the state that the answer was read in. */
  function AnswerPod(s: State, step: Step): PodId
    requires Enabled(s, step) && AnswerOf(s, step).Answer?
  {
    if step.LookupHit? then step.pod else s.flights[step.flight].pod
  }

  function AnswerRead(s: State, step: Step): nat
    requires Enabled(s, step) && AnswerOf(s, step).Answer?
  {
    if step.LookupHit? then s.pods[step.pod].cache[step.hash].readStep else s.flights[step.flight].readStep
  }

  /** Every cache insert comes at most `d` after the read or the issue commit it caches. */
  ghost predicate FillsWithin(states: seq<State>, steps: seq<Step>, d: nat)
    requires IsRun(states, steps)
  {
    forall i | 0 <= i < |steps| && steps[i].Store? ::
      states[i].now <= states[i].flights[steps[i].flight].readAt + d
  }

  // ----- bounded staleness -----

  /** `v` is the live row of `h`, or nothing if the table has no such row. */
  predicate Holds(db: Tables, h: Hash, v: Option<Row>) {
    (v.Some? <==> h in db.live) && (v.Some? ==> v.value == db.live[h])
  }

  /** State `r` of the run was read at time `t`, and `v` is what it held for `h`. */
  ghost predicate WasRead(states: seq<State>, r: nat, t: nat, h: Hash, v: Option<Row>) {
    r < |states| && states[r].now == t && Holds(states[r].db, h, v)
  }

  ghost predicate FlightsStamped(states: seq<State>, i: nat)
    requires i < |states|
  {
    forall f | f in states[i].flights && states[i].flights[f].Fill? ::
      var fill := states[i].flights[f];
      fill.readStep <= i && WasRead(states, fill.readStep, fill.readAt, fill.hash, fill.value)
  }

  ghost predicate EntriesStamped(states: seq<State>, steps: seq<Step>, i: nat)
    requires i < |states|
  {
    forall p, h | p in states[i].pods && h in states[i].pods[p].cache ::
      EntryStamped(states, steps, i, h, states[i].pods[p].cache[h])
  }

  /** The entry was stored by a step of the run, from a flight that had read the database before. */
  ghost predicate EntryStamped(states: seq<State>, steps: seq<Step>, i: nat, h: Hash, e: Entry) {
    && e.readStep <= e.storedStep < i <= |steps|
    && WasRead(states, e.readStep, e.readAt, h, e.value)
    && StoredBy(states, steps, e)
  }

  ghost predicate StoredBy(states: seq<State>, steps: seq<Step>, e: Entry) {
    && e.storedStep < |steps| && e.storedStep < |states|
    && steps[e.storedStep].Store?
    && states[e.storedStep].now == e.storedAt
    && steps[e.storedStep].flight in states[e.storedStep].flights
    && var f := states[e.storedStep].flights[steps[e.storedStep].flight];
       f.Fill? && f.readAt == e.readAt
  }

  lemma {:induction false} StampsHold(states: seq<State>, steps: seq<Step>, i: nat)
    requires IsRun(states, steps) && i < |states|
    ensures states[i].clock == i
    ensures FlightsStamped(states, i)
    ensures EntriesStamped(states, steps, i)
  {
    if i > 0 {
      StampsHold(states, steps, i - 1);
      assert states[i] == Next(states[i - 1], steps[i - 1]);
      FlightStampsKept(states, steps, i - 1);
      EntryStampsKept(states, steps, i - 1);
    }
  }

  lemma FlightStampsKept(states: seq<State>, steps: seq<Step>, i: nat)
    requires IsRun(states, steps) && i < |steps|
    requires states[i].clock == i && FlightsStamped(states, i)
    ensures FlightsStamped(states, i + 1)
  {
    var s, step, s' := states[i], steps[i], states[i + 1];
    assert Enabled(s, step) && s' == Next(s, step);
    forall f | f in s'.flights && s'.flights[f].Fill?
      ensures s'.flights[f].readStep <= i + 1
      ensures var fill := s'.flights[f]; WasRead(states, fill.readStep, fill.readAt, fill.hash, fill.value)
    {
      if (step.LookupRead? || step.Commit?) && step.flight == f {
      } else {
        assert f in s.flights && s.flights[f] == s'.flights[f];
      }
    }
  }

  lemma EntryStampsKept(states: seq<State>, steps: seq<Step>, i: nat)
    requires IsRun(states, steps) && i < |steps|
    requires states[i].clock == i && FlightsStamped(states, i) && EntriesStamped(states, steps, i)
    ensures EntriesStamped(states, steps, i + 1)
  {
    var s, step, s' := states[i], steps[i], states[i + 1];
    assert Enabled(s, step) && s' == Next(s, step);
    forall p, h | p in s'.pods && h in s'.pods[p].cache
      ensures EntryStamped(states, steps, i + 1, h, s'.pods[p].cache[h])
    {
      if step.Store? && s.flights[step.flight].pod == p && s.flights[step.flight].hash == h {
      } else {
        CacheOnlyShrinks(s, step, p, h);
        assert EntryStamped(states, steps, i, h, s.pods[p].cache[h]);
      }
    }
  }

  /** Only a `Store` puts an entry into a cache. */
  lemma CacheOnlyShrinks(s: State, step: Step, p: PodId, h: Hash)
    requires Enabled(s, step)
    requires p in Next(s, step).pods && h in Next(s, step).pods[p].cache
    requires !(step.Store? && s.flights[step.flight].pod == p && s.flights[step.flight].hash == h)
    ensures p in s.pods && h in s.pods[p].cache && s.pods[p].cache[h] == Next(s, step).pods[p].cache[h]
  {
  }

  /** In every run, whether or not any NOTIFY arrives, a lookup answers what the database held for the hash
      at an instant less than the time to live plus `d` ago. */
  lemma AnswersAreRecent(states: seq<State>, steps: seq<Step>, d: nat, i: nat) returns (r: nat)
    requires IsRun(states, steps) && FillsWithin(states, steps, d) && i < |steps|
    requires AnswerOf(states[i], steps[i]).Answer?
    ensures r <= i
    ensures var a := AnswerOf(states[i], steps[i]);
            (a.value.Some? <==> a.hash in states[r].db.live) && (a.value.Some? ==> a.value.value == states[r].db.live[a.hash])
    ensures states[i].now < states[r].now + CACHE_TTL + d
  {
    StampsHold(states, steps, i);
    var s, step := states[i], steps[i];
    assert Enabled(s, step);
    if step.LookupHit? {
      var e := s.pods[step.pod].cache[step.hash];
      assert EntryStamped(states, steps, i, step.hash, e);
      r := e.readStep;
    } else {
      r := s.flights[step.flight].readStep;
    }
  }

  // ----- what may happen when -----

  /** Time passes, the cache forgets, connections drop, requests die and lookups read whenever they like; only a hit
      needs a cached answer. */
  lemma AnythingMayHappen(s: State, p: PodId, h: Hash, f: nat, d: nat)
    ensures Enabled(s, Tick(d)) && Next(s, Tick(d)).now == s.now + d
    ensures p !in s.pods ==> Enabled(s, Join(p))
    ensures p in s.pods ==> Enabled(s, Evict(p, h)) && (f !in s.flights ==> Enabled(s, LookupRead(p, h, f)))
    ensures p in s.pods ==> if s.pods[p].listening then Enabled(s, Disconnect(p)) else Enabled(s, Connect(p))
    ensures p in s.pods && s.pods[p].queue != [] ==> Enabled(s, Deliver(p))
    ensures p in s.pods && f !in s.flights ==> Enabled(s, Commit(Tx.Revoke(h, None), p, f))
    ensures f in s.flights ==> Enabled(s, Abandon(f))
    ensures f in s.flights && s.flights[f].pod in s.pods ==>
              if s.flights[f].Fill? then Enabled(s, Store(f)) else s.flights[f].hashes != [] ==> Enabled(s, PurgeLocal(f))
  {
  }

  /** A pod that is not listening has no NOTIFY waiting: what was sent before and while it was away is lost. */
  lemma {:induction false} NothingWaitsUnheard(states: seq<State>, steps: seq<Step>, i: nat, p: PodId)
    requires IsRun(states, steps) && i < |states| && p in states[i].pods
    ensures !states[i].pods[p].listening ==> states[i].pods[p].queue == []
    ensures i > 0 && steps[i - 1] == Connect(p) ==> states[i].pods[p].listening && states[i].pods[p].queue == []
  {
    if i > 0 {
      assert Enabled(states[i - 1], steps[i - 1]) && states[i] == Next(states[i - 1], steps[i - 1]);
      if p in states[i - 1].pods {
        NothingWaitsUnheard(states, steps, i - 1, p);
      }
    }
  }

  // ----- what a pod caches it serves -----

  /** Step `j` takes `h` out of the cache of pod `p`, or puts a newer entry in its place. */
  predicate Disturbs(s: State, step: Step, p: PodId, h: Hash)
    requires Enabled(s, step)
  {
    match step
    case Evict(q, g) => q == p && g == h
    case Deliver(q) => q == p && s.pods[q].queue[0] == h
    case PurgeLocal(f) => s.flights[f].pod == p && s.flights[f].hashes[0] == h
    case Store(f) => s.flights[f].pod == p && s.flights[f].hash == h
    case _ => false
  }

  /** What a step takes out of a cache is gone, and what a store puts in is there. */
  lemma DisturbedIsGone(s: State, step: Step, p: PodId, h: Hash)
    requires Enabled(s, step) && Disturbs(s, step, p, h) && p in s.pods
    ensures p in Next(s, step).pods
    ensures h in Next(s, step).pods[p].cache <==> step.Store?
    ensures step.Store? ==> Next(s, step).pods[p].cache[h].value == s.flights[step.flight].value && step.flight !in Next(s, step).flights
  {
  }

  lemma {:induction false} EntryStays(states: seq<State>, steps: seq<Step>, i: nat, j: nat, p: PodId, h: Hash)
    requires IsRun(states, steps) && i <= j < |states|
    requires p in states[i].pods && h in states[i].pods[p].cache
    requires forall k | i <= k < j :: Enabled(states[k], steps[k]) && !Disturbs(states[k], steps[k], p, h)
    ensures p in states[j].pods && h in states[j].pods[p].cache && states[j].pods[p].cache[h] == states[i].pods[p].cache[h]
  {
    if i < j {
      EntryStays(states, steps, i, j - 1, p, h);
      assert Enabled(states[j - 1], steps[j - 1]) && states[j] == Next(states[j - 1], steps[j - 1]);
    }
  }

  /** For 30 seconds after a pod has cached an answer, and unless a step takes it away, the pod can answer the same
      without the database, and after that it can not. */
  lemma CachedAnswerIsServed(states: seq<State>, steps: seq<Step>, i: nat, j: nat)
    requires IsRun(states, steps) && i < j < |states| && steps[i].Store? && Enabled(states[i], steps[i])
    requires var p, a := AnswerPod(states[i], steps[i]), AnswerOf(states[i], steps[i]);
             forall k | i < k < j :: Enabled(states[k], steps[k]) && !Disturbs(states[k], steps[k], p, a.hash)
    ensures var p, a := AnswerPod(states[i], steps[i]), AnswerOf(states[i], steps[i]);
            && (Enabled(states[j], LookupHit(p, a.hash)) <==> states[j].now < states[i].now + 30_000)
            && (states[j].now < states[i].now + 30_000 ==> AnswerOf(states[j], LookupHit(p, a.hash)) == a)
  {
    assert states[i + 1] == Next(states[i], steps[i]);
    EntryStays(states, steps, i + 1, j, AnswerPod(states[i], steps[i]), AnswerOf(states[i], steps[i]).hash);
  }

  // ----- revocation -----

  /** The transactions that a run commits, in order. */
  function Committed(steps: seq<Step>): seq<Tx> {
    if steps == [] then []
    else
      var last := steps[|steps| - 1];
      Committed(steps[..|steps| - 1]) + if last.Commit? then [last.tx] else []
  }

  lemma DbChangesByCommit(states: seq<State>, steps: seq<Step>, i: nat)
    requires IsRun(states, steps) && i < |steps|
    ensures steps[i].Commit? ==> Admissible(states[i].db, steps[i].tx)
    ensures states[i + 1].db == if steps[i].Commit? then Apply(states[i].db, steps[i].tx) else states[i].db
  {
    assert Enabled(states[i], steps[i]) && states[i + 1] == Next(states[i], steps[i]);
  }

  lemma CommittedNext(steps: seq<Step>, i: nat)
    requires i < |steps|
    ensures Committed(steps[..i + 1]) ==
            if steps[i].Commit? then Committed(steps[..i]) + [steps[i].tx] else Committed(steps[..i])
  {
    assert steps[..i + 1][..i] == steps[..i];
  }

  /** However the pods interleave, the tables are those of a history of admissible transactions, so keys are
      conserved (`KeyTables.KeysAreConserved`) in every state of every run. */
  lemma {:induction false} RunIsHistory(states: seq<State>, steps: seq<Step>, i: nat)
    requires IsRun(states, steps) && i < |states|
    ensures AllAdmissible(Committed(steps[..i]))
    ensures states[i].db == Replay(Committed(steps[..i]))
  {
    if i > 0 {
      RunIsHistory(states, steps, i - 1);
      HistoryGrows(states, steps, i - 1);
    }
  }

  lemma HistoryGrows(states: seq<State>, steps: seq<Step>, i: nat)
    requires IsRun(states, steps) && i < |steps|
    requires AllAdmissible(Committed(steps[..i])) && states[i].db == Replay(Committed(steps[..i]))
    ensures AllAdmissible(Committed(steps[..i + 1])) && states[i + 1].db == Replay(Committed(steps[..i + 1]))
  {
    CommittedNext(steps, i);
    DbChangesByCommit(states, steps, i);
    if steps[i].Commit? {
      AdmissibleSnoc(Committed(steps[..i]), steps[i].tx);
    }
  }

  lemma {:induction false} DbConsistent(states: seq<State>, steps: seq<Step>, i: nat)
    requires IsRun(states, steps) && i < |states|
    ensures Consistent(states[i].db)
  {
    if i > 0 {
      DbConsistent(states, steps, i - 1);
      DbChangesByCommit(states, steps, i - 1);
      if steps[i - 1].Commit? {
        ApplyKeeps(states[i - 1].db, steps[i - 1].tx);
      }
    }
  }

  lemma DeletedSurvivesStep(states: seq<State>, steps: seq<Step>, i: nat, h: Hash)
    requires IsRun(states, steps) && i < |steps| && h in states[i].db.deleted
    ensures h in states[i + 1].db.deleted
  {
    DbConsistent(states, steps, i);
    DbChangesByCommit(states, steps, i);
    if steps[i].Commit? {
      ApplyKeeps(states[i].db, steps[i].tx);
    }
  }

  lemma {:induction false} DeletedStays(states: seq<State>, steps: seq<Step>, i: nat, j: nat, h: Hash)
    requires IsRun(states, steps) && i <= j < |states| && h in states[i].db.deleted
    ensures h in states[j].db.deleted
  {
    if i < j {
      DeletedStays(states, steps, i, j - 1, h);
      DeletedSurvivesStep(states, steps, j - 1, h);
    }
  }

  lemma DeletedNeverLive(states: seq<State>, steps: seq<Step>, i: nat, j: nat, h: Hash)
    requires IsRun(states, steps) && i <= j < |states| && h in states[i].db.deleted
    ensures h !in states[j].db.live
  {
    DeletedStays(states, steps, i, j, h);
    DbConsistent(states, steps, j);
  }

  /** Step `r` commits the revocation of `h`. */
  ghost predicate Revokes(states: seq<State>, steps: seq<Step>, r: nat, h: Hash) {
    && r < |steps| && |states| == |steps| + 1
    && h in states[r].db.live && h in states[r + 1].db.deleted
  }

  /** However lossy the channel, no lookup finds a revoked key once the time to live plus `d` has passed. */
  lemma RevokedKeyExpires(states: seq<State>, steps: seq<Step>, d: nat, r: nat, h: Hash, i: nat)
    requires IsRun(states, steps) && FillsWithin(states, steps, d)
    requires Revokes(states, steps, r, h) && r < i < |steps|
    requires AnswerOf(states[i], steps[i]).Answer? && AnswerOf(states[i], steps[i]).hash == h
    requires states[i].now >= states[r].now + CACHE_TTL + d
    ensures AnswerOf(states[i], steps[i]).value == None
  {
    var k := AnswersAreRecent(states, steps, d, i);
    if k <= r {
      TimeNeverFalls(states, steps, k, r);
      assert false;
    }
    DeletedNeverLive(states, steps, r + 1, k, h);
  }

  lemma {:induction false} TimeNeverFalls(states: seq<State>, steps: seq<Step>, i: nat, j: nat)
    requires IsRun(states, steps) && i <= j < |states|
    ensures states[i].now <= states[j].now
  {
    if i < j {
      TimeNeverFalls(states, steps, i, j - 1);
      assert states[j] == Next(states[j - 1], steps[j - 1]);
    }
  }

  ghost predicate ListeningThroughout(states: seq<State>, p: PodId, from: nat, to: nat) {
    from <= to < |states| && forall k | from <= k <= to :: p in states[k].pods && states[k].pods[p].listening
  }

  /** Step `v` delivers the NOTIFY of `h` to pod `p`. */
  ghost predicate Delivers(states: seq<State>, steps: seq<Step>, v: nat, p: PodId, h: Hash) {
    && v < |steps| && v < |states| && steps[v] == Deliver(p)
    && p in states[v].pods && states[v].pods[p].queue != [] && states[v].pods[p].queue[0] == h
  }

  /** Whatever pod `p` caches for `h` in state `i` was stored after step `v`. */
  ghost predicate CachedAfter(states: seq<State>, i: nat, p: PodId, h: Hash, v: nat) {
    i < |states| && p in states[i].pods && (h in states[i].pods[p].cache ==> states[i].pods[p].cache[h].storedStep > v)
  }

  ghost predicate Invalidated(states: seq<State>, steps: seq<Step>, r: nat, i: nat, p: PodId, h: Hash) {
    exists v | r < v < i :: Delivers(states, steps, v, p, h) && CachedAfter(states, i, p, h, v)
  }

  lemma NewAreNotOld(t: Tables, t': Tables, notices: seq<Hash>)
    requires Distinct(t'.notified) && t'.notified == t.notified + notices
    ensures forall h | h in t.notified :: h !in notices
  {
    forall i, j | 0 <= i < |t.notified| && 0 <= j < |notices| ensures t.notified[i] != notices[j] {
      assert t'.notified[i] == t.notified[i] && t'.notified[|t.notified| + j] == notices[j];
    }
  }

  lemma NoticesEnumerate(t: Tables, t': Tables)
    requires Enumerates(t.notified, t.deleted.Keys) && Enumerates(t'.notified, t'.deleted.Keys) && t.notified <= t'.notified
    ensures Enumerates(NewNotices(t, t'), t'.deleted.Keys - t.deleted.Keys)
  {
    var notices := NewNotices(t, t');
    assert t'.notified == t.notified + notices;
    NewAreNotOld(t, t', notices);
    forall h ensures h in notices <==> h in t'.deleted.Keys - t.deleted.Keys {
      assert h in t'.notified <==> h in t.notified || h in notices;
    }
    forall i, j | 0 <= i < j < |notices| ensures notices[i] != notices[j] {
      assert t'.notified[|t.notified| + i] == notices[i] && t'.notified[|t.notified| + j] == notices[j];
    }
  }

  lemma OnlyAppends(t: Tables, tx: Tx, t': Tables)
    requires Accounts(t, tx, t')
    ensures t.notified <= t'.notified
  {
  }

  lemma CommitNotices(t: Tables, tx: Tx, t': Tables)
    requires Consistent(t) && Consistent(t') && Accounts(t, tx, t')
    ensures Enumerates(NewNotices(t, t'), t'.deleted.Keys - t.deleted.Keys)
  {
    OnlyAppends(t, tx, t');
    NoticesEnumerate(t, t');
  }

  /** What a commit sends: it appends to the queue of each listening pod the hashes that it deleted, each once, and
      changes nothing else about any pod. */
  lemma CommitSendsExactly(states: seq<State>, steps: seq<Step>, i: nat) returns (notices: seq<Hash>)
    requires IsRun(states, steps) && i < |steps| && steps[i].Commit?
    ensures Enumerates(notices, states[i + 1].db.deleted.Keys - states[i].db.deleted.Keys)
    ensures states[i + 1].pods.Keys == states[i].pods.Keys
    ensures forall p | p in states[i].pods ::
              states[i + 1].pods[p] ==
                if states[i].pods[p].listening then states[i].pods[p].(queue := states[i].pods[p].queue + notices)
                else states[i].pods[p]
  {
    var s, step := states[i], steps[i];
    assert Enabled(s, step) && states[i + 1] == Next(s, step);
    DbConsistent(states, steps, i);
    ApplyKeeps(s.db, step.tx);
    CommitNotices(s.db, step.tx, Apply(s.db, step.tx));
    notices := NewNotices(s.db, Apply(s.db, step.tx));
  }

  /** A revocation is handed to every listening pod in the step that commits it. */
  lemma CommitNotifies(states: seq<State>, steps: seq<Step>, r: nat, p: PodId, h: Hash)
    requires IsRun(states, steps) && Revokes(states, steps, r, h)
    requires p in states[r + 1].pods && states[r + 1].pods[p].listening
    ensures h in states[r + 1].pods[p].queue
  {
    var s, step := states[r], steps[r];
    assert Enabled(s, step) && states[r + 1] == Next(s, step);
    DbConsistent(states, steps, r);
    DbConsistent(states, steps, r + 1);
    assert h !in s.db.deleted;
    if step.Commit? {
      ApplyKeeps(s.db, step.tx);
      var db := Apply(s.db, step.tx);
      assert db.notified == s.db.notified + NewNotices(s.db, db);
      assert h in db.notified && h !in s.db.notified;
    }
  }

  lemma {:induction false} NoticeArrives(states: seq<State>, steps: seq<Step>, r: nat, i: nat, p: PodId, h: Hash)
    requires IsRun(states, steps) && Revokes(states, steps, r, h) && r < i < |states|
    requires ListeningThroughout(states, p, r + 1, i)
    ensures h in states[i].pods[p].queue || Invalidated(states, steps, r, i, p, h)
  {
    if i == r + 1 {
      CommitNotifies(states, steps, r, p, h);
    } else {
      NoticeArrives(states, steps, r, i - 1, p, h);
      if h in states[i - 1].pods[p].queue {
        QueuedUntilDelivered(states, steps, i - 1, p, h);
      } else {
        StaysInvalidated(states, steps, r, i - 1, p, h);
      }
    }
  }

  lemma StaysInvalidated(states: seq<State>, steps: seq<Step>, r: nat, i: nat, p: PodId, h: Hash)
    requires IsRun(states, steps) && i < |steps| && Invalidated(states, steps, r, i, p, h)
    ensures Invalidated(states, steps, r, i + 1, p, h)
  {
    var v :| r < v < i && Delivers(states, steps, v, p, h) && CachedAfter(states, i, p, h, v);
    StampsHold(states, steps, i);
    StaysCachedAfter(states, steps, i, p, h, v);
  }

  lemma QueuedUntilDelivered(states: seq<State>, steps: seq<Step>, i: nat, p: PodId, h: Hash)
    requires IsRun(states, steps) && i < |steps|
    requires p in states[i].pods && h in states[i].pods[p].queue
    requires p in states[i + 1].pods && states[i + 1].pods[p].listening && states[i].pods[p].listening
    ensures || h in states[i + 1].pods[p].queue
            || (Delivers(states, steps, i, p, h) && CachedAfter(states, i + 1, p, h, i))
  {
    assert Enabled(states[i], steps[i]) && states[i + 1] == Next(states[i], steps[i]);
  }

  lemma StaysCachedAfter(states: seq<State>, steps: seq<Step>, i: nat, p: PodId, h: Hash, v: nat)
    requires IsRun(states, steps) && v < i < |steps| && states[i].clock == i
    requires CachedAfter(states, i, p, h, v)
    ensures CachedAfter(states, i + 1, p, h, v)
  {
    var s, step := states[i], steps[i];
    assert Enabled(s, step) && states[i + 1] == Next(s, step);
    if h in states[i + 1].pods[p].cache
      && !(step.Store? && s.flights[step.flight].pod == p && s.flights[step.flight].hash == h) {
      CacheOnlyShrinks(s, step, p, h);
    }
  }

  /** The cached entry was read before the revocation at step `r` committed and stored after a delivery of its
      NOTIFY: the read and the insert straddle the whole revocation. */
  ghost predicate Overlaps(states: seq<State>, steps: seq<Step>, r: nat, i: nat, p: PodId, h: Hash, e: Entry) {
    e.readStep <= r && exists v | r < v < i :: Delivers(states, steps, v, p, h) && v < e.storedStep
  }

  /** Why a pod can still cache a revoked key: the NOTIFY waits in its queue, or the pod was not listening at
      some point since the commit, or a fill straddled commit and invalidation.  There is no other way. */
  lemma RevokedButCached(states: seq<State>, steps: seq<Step>, r: nat, i: nat, p: PodId, h: Hash)
    requires IsRun(states, steps) && Revokes(states, steps, r, h) && r < i < |states|
    requires p in states[i].pods && h in states[i].pods[p].cache && states[i].pods[p].cache[h].value.Some?
    ensures || h in states[i].pods[p].queue
            || !ListeningThroughout(states, p, r + 1, i)
            || Overlaps(states, steps, r, i, p, h, states[i].pods[p].cache[h])
  {
    if ListeningThroughout(states, p, r + 1, i) {
      NoticeArrives(states, steps, r, i, p, h);
      var e := states[i].pods[p].cache[h];
      StampsHold(states, steps, i);
      assert EntryStamped(states, steps, i, h, e);
      if e.readStep > r {
        DeletedNeverLive(states, steps, r + 1, e.readStep, h);
        assert false;
      }
    }
  }

  /** The answer comes from before the revocation at step `r`: from the cache, by a fill that straddled commit and
      invalidation; or from a look-up that had read the database before the commit and is only now done. */
  ghost predicate Straddles(states: seq<State>, steps: seq<Step>, r: nat, i: nat, p: PodId, h: Hash)
    requires i < |steps| && i < |states|
    requires Enabled(states[i], steps[i]) && AnswerOf(states[i], steps[i]).Answer?
  {
    if steps[i].LookupHit?
    then steps[i].pod == p && steps[i].hash == h && Overlaps(states, steps, r, i, p, h, states[i].pods[p].cache[h])
    else AnswerRead(states[i], steps[i]) <= r
  }

  /** Exactly when a connected pod whose NOTIFY is no longer queued answers with a revoked key, from the cache or
      from the database: the answer was read while the key was live, and straddles the revocation. */
  lemma RevokedKeyIsAnsweredExactlyIfStraddling(states: seq<State>, steps: seq<Step>, r: nat, i: nat, p: PodId, h: Hash)
    requires IsRun(states, steps) && Revokes(states, steps, r, h) && r < i < |steps|
    requires Enabled(states[i], steps[i]) && AnswerOf(states[i], steps[i]).Answer?
    requires AnswerOf(states[i], steps[i]).hash == h && AnswerPod(states[i], steps[i]) == p
    requires ListeningThroughout(states, p, r + 1, i) && h !in states[i].pods[p].queue
    ensures AnswerRead(states[i], steps[i]) < |states|
    ensures AnswerOf(states[i], steps[i]).value.Some? <==>
              h in states[AnswerRead(states[i], steps[i])].db.live && Straddles(states, steps, r, i, p, h)
  {
    StampsHold(states, steps, i);
    if steps[i].LookupHit? {
      var e := states[i].pods[p].cache[h];
      assert EntryStamped(states, steps, i, h, e);
      if e.value.Some? {
        RevokedButCached(states, steps, r, i, p, h);
      }
    } else {
      MissAnswersRevokedKey(states, steps, r, i, h);
    }
  }

  /** On a miss it does not even matter whether the pod is connected. */
  lemma MissAnswersRevokedKey(states: seq<State>, steps: seq<Step>, r: nat, i: nat, h: Hash)
    requires IsRun(states, steps) && Revokes(states, steps, r, h) && r < i < |steps|
    requires steps[i].Store? && Enabled(states[i], steps[i]) && states[i].flights[steps[i].flight].hash == h
    ensures var read := states[i].flights[steps[i].flight].readStep;
            read < |states|
            && (AnswerOf(states[i], steps[i]).value.Some? <==> read <= r && h in states[read].db.live)
  {
    StampsHold(states, steps, i);
    var fill := states[i].flights[steps[i].flight];
    assert WasRead(states, fill.readStep, fill.readAt, h, fill.value);
    if fill.readStep > r {
      DeletedNeverLive(states, steps, r + 1, fill.readStep, h);
    }
  }

  /** So with a connected listener, a drained queue and no straddling read, no revoked key is served. */
  lemma QuietPodServesNoRevokedKey(states: seq<State>, steps: seq<Step>, r: nat, i: nat, p: PodId, h: Hash)
    requires IsRun(states, steps) && Revokes(states, steps, r, h) && r < i < |steps|
    requires Enabled(states[i], steps[i]) && AnswerOf(states[i], steps[i]).Answer?
    requires AnswerOf(states[i], steps[i]).hash == h && AnswerPod(states[i], steps[i]) == p
    requires ListeningThroughout(states, p, r + 1, i) && states[i].pods[p].queue == []
    requires !Straddles(states, steps, r, i, p, h)
    ensures AnswerOf(states[i], steps[i]) == Answer(h, None)
  {
    RevokedKeyIsAnsweredExactlyIfStraddling(states, steps, r, i, p, h);
  }

  // ----- the revoking pod -----

  /** The pod that commits a revocation has the purge of its own cache ahead of it. */
  lemma RevokerPurges(states: seq<State>, steps: seq<Step>, r: nat, h: Hash)
    requires IsRun(states, steps) && Revokes(states, steps, r, h)
    ensures steps[r].Commit? && steps[r].flight in states[r + 1].flights
    ensures var flight := states[r + 1].flights[steps[r].flight];
            flight.Purge? && flight.pod == steps[r].pod && h in flight.hashes
  {
    var s, step := states[r], steps[r];
    assert Enabled(s, step) && states[r + 1] == Next(s, step);
    DbConsistent(states, steps, r);
    DbConsistent(states, steps, r + 1);
    assert h !in s.db.deleted;
    ApplyKeeps(s.db, step.tx);
    assert Apply(s.db, step.tx).notified == s.db.notified + NewNotices(s.db, Apply(s.db, step.tx));
  }

  /** Step `v` purges `h` from the cache of pod `p`. */
  ghost predicate Purges(states: seq<State>, steps: seq<Step>, v: nat, p: PodId, h: Hash) {
    && v < |steps| && v < |states| && steps[v].PurgeLocal? && Enabled(states[v], steps[v])
    && states[v].flights[steps[v].flight].pod == p && states[v].flights[steps[v].flight].hashes[0] == h
  }

  lemma {:induction false} PurgedStaysPurged(states: seq<State>, steps: seq<Step>, v: nat, i: nat, p: PodId, h: Hash)
    requires IsRun(states, steps) && Purges(states, steps, v, p, h) && v < i < |states|
    ensures CachedAfter(states, i, p, h, v)
  {
    if i == v + 1 {
      assert states[i] == Next(states[v], steps[v]);
    } else {
      PurgedStaysPurged(states, steps, v, i - 1, p, h);
      StampsHold(states, steps, i - 1);
      StaysCachedAfter(states, steps, i - 1, p, h, v);
    }
  }

  /** Its own purge protects the revoking pod even while its listener is down: what it caches for the key from then
      on was read after the commit, or straddles the commit and the purge. */
  lemma PurgedKeyIsOnlyCachedByStraddling(states: seq<State>, steps: seq<Step>, r: nat, v: nat, i: nat, p: PodId, h: Hash)
    requires IsRun(states, steps) && Revokes(states, steps, r, h) && Purges(states, steps, v, p, h) && r < v < i < |states|
    requires p in states[i].pods && h in states[i].pods[p].cache && states[i].pods[p].cache[h].value.Some?
    ensures states[i].pods[p].cache[h].readStep <= r && states[i].pods[p].cache[h].storedStep > v
  {
    PurgedStaysPurged(states, steps, v, i, p, h);
    StampsHold(states, steps, i);
    var e := states[i].pods[p].cache[h];
    assert EntryStamped(states, steps, i, h, e);
    if e.readStep > r {
      DeletedNeverLive(states, steps, r + 1, e.readStep, h);
      assert false;
    }
  }

  // ----- the race -----

  lemma RunSnoc(states: seq<State>, steps: seq<Step>, step: Step) returns (states': seq<State>, steps': seq<Step>)
    requires IsRun(states, steps) && Enabled(states[|steps|], step)
    ensures states' == states + [Next(states[|steps|], step)] && steps' == steps + [step]
    ensures IsRun(states', steps')
  {
    states', steps' := states + [Next(states[|steps|], step)], steps + [step];
  }

  /** A pod that listens, and a key that has been issued. */
  lemma IssuedKey(h: Hash, row: Row) returns (states: seq<State>, steps: seq<Step>)
    ensures IsRun(states, steps) && |steps| == 3 && states[3].clock == 3 && states[3].now == 0
    ensures states[3].pods == map[0 := Pod(map[], true, [])]
    ensures states[3].db.live == map[h := row] && states[3].db.deleted == map[] && states[3].db.notified == []
    ensures 1 !in states[3].flights && 2 !in states[3].flights
  {
    states, steps := [State(0, 0, EMPTY_TABLES, map[], map[])], [];
    states, steps := RunSnoc(states, steps, Join(0));
    states, steps := RunSnoc(states, steps, Connect(0));
    assert states[2].pods[0] == Pod(map[], true, []);
    var issue := Commit(Tx.Issue(h, row, None), 0, 0);
    states, steps := RunSnoc(states, steps, issue);
    assert states[3].pods[0] == Pod(map[], true, []);
  }

  /** That pod has read the row, which it has not cached yet. */
  lemma ReadInFlight(h: Hash, row: Row) returns (states: seq<State>, steps: seq<Step>)
    ensures IsRun(states, steps) && |steps| == 4
    ensures states[4].clock == 4 && states[4].now == 0
    ensures states[4].pods == map[0 := Pod(map[], true, [])]
    ensures states[4].db.live == map[h := row] && states[4].db.deleted == map[] && states[4].db.notified == []
    ensures 1 in states[4].flights && states[4].flights[1] == Fill(0, h, Some(row), 0, 3)
    ensures 2 !in states[4].flights
  {
    states, steps := IssuedKey(h, row);
    states, steps := RunSnoc(states, steps, LookupRead(0, h, 1));
  }

  /** The key has been revoked and its NOTIFY delivered. */
  lemma RevokedInFlight(h: Hash, row: Row) returns (states: seq<State>, steps: seq<Step>)
    ensures IsRun(states, steps) && |steps| == 6 && Revokes(states, steps, 4, h) && Delivers(states, steps, 5, 0, h)
    ensures ListeningThroughout(states, 0, 4, 6) && states[6].pods == map[0 := Pod(map[], true, [])]
    ensures states[6].clock == 6 && states[6].now == 0
    ensures 1 in states[6].flights && states[6].flights[1] == Fill(0, h, Some(row), 0, 3)
  {
    states, steps := ReadInFlight(h, row);
    states, steps := RunSnoc(states, steps, Commit(Tx.Revoke(h, None), 0, 2));
    assert NewNotices(states[4].db, states[5].db) == [h];
    assert states[5].pods[0] == Pod(map[], true, [h]);
    states, steps := RunSnoc(states, steps, Deliver(0));
    assert states[6].pods[0] == Pod(map[], true, []);
  }

  /** The race is real, even for one pod whose listener never drops: a lookup reads the row, the revocation
      commits and its NOTIFY is delivered, and only then is the row cached.  The lookup itself answers with the
      revoked key, and so does the next one. */
  lemma RevokedKeyCanBeServed(h: Hash, row: Row) returns (states: seq<State>, steps: seq<Step>)
    ensures IsRun(states, steps) && |steps| == 8 && Revokes(states, steps, 4, h)
    ensures ListeningThroughout(states, 0, 4, 7) && Delivers(states, steps, 5, 0, h) && states[7].pods[0].queue == []
    ensures Enabled(states[6], steps[6]) && steps[6].Store? && states[6].pods[0].queue == [] && h !in states[6].pods[0].cache
    ensures AnswerOf(states[6], steps[6]) == Answer(h, Some(row))
    ensures Enabled(states[7], steps[7]) && AnswerOf(states[7], steps[7]) == Answer(h, Some(row))
  {
    states, steps := RevokedInFlight(h, row);
    states, steps := RunSnoc(states, steps, Store(1));
    assert states[7].pods[0].cache[h] == Entry(Some(row), 0, 3, 0, 6);
    states, steps := RunSnoc(states, steps, LookupHit(0, h));
  }
}
