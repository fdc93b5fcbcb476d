/**
 The credential cache: entries expire after their time to live, and every insert sweeps the expired ones out.
 Seen from outside it is the history of inserts, whatever has been swept.
 */
module AuthCaching {
  import opened Base

  /** Clock readings are in nanoseconds. */
  const SECOND := 1_000_000_000

  datatype Key = Key(provider: string, sub: string, fingerprint: string)

  datatype Entry<Cred> = Entry(cred: Cred, expiresAt: nat)

  type Entries<Cred> = map<Key, Entry<Cred>>

  datatype Event<Cred> =
    | Insert(provider: string, sub: string, token: string, cred: Cred, ttl: nat, at: nat)
    | Get(provider: string, sub: string, token: string, at: nat)

  /** No token has a fingerprint of its own, the empty string. */
  function Fingerprint(token: string, digest: string -> string): string {
    if token == "" then "" else digest(token)
  }

  function KeyOf<Cred>(e: Event<Cred>, digest: string -> string): Key {
    Key(e.provider, e.sub, Fingerprint(e.token, digest))
  }

  // ----- one step of the cache -----

  function Lookup<Cred>(entries: Entries<Cred>, key: Key, now: nat): Option<Cred> {
    if key in entries && now < entries[key].expiresAt then Some(entries[key].cred) else None
  }

  function Sweep<Cred>(entries: Entries<Cred>, now: nat): Entries<Cred> {
    map k | k in entries && now < entries[k].expiresAt :: entries[k]
  }

  /** The cache after an event, with or without the sweep. */
  function After<Cred>(entries: Entries<Cred>, e: Event<Cred>, digest: string -> string, sweeping: bool): Entries<Cred> {
    match e
    case Get(_, _, _, _) => entries
    case Insert(_, _, _, cred, ttl, at) =>
      if ttl == 0 then entries
      else (if sweeping then Sweep(entries, at) else entries)[KeyOf(e, digest) := Entry(cred, at + ttl * SECOND)]
  }

  function Run<Cred>(events: seq<Event<Cred>>, digest: string -> string, sweeping: bool): Entries<Cred> {
    if events == [] then map[]
    else After(Run(events[..|events| - 1], digest, sweeping), events[|events| - 1], digest, sweeping)
  }

  class AuthCache<Cred> {
    var entries: Entries<Cred>
    const digest: string -> string

    constructor (digest: string -> string)
      ensures entries == map[] && this.digest == digest
    {
      entries := map[];
      this.digest := digest;
    }

    method Get(provider: string, sub: string, token: string, now: nat) returns (r: Option<Cred>)
      ensures r == Lookup(entries, Key(provider, sub, Fingerprint(token, digest)), now)
    {
      var key := Key(provider, sub, Fingerprint(token, digest));
      if key in entries && now < entries[key].expiresAt {
        return Some(entries[key].cred);
      }
      return None;
    }

    method Insert(provider: string, sub: string, token: string, cred: Cred, ttl: nat, now: nat)
      modifies this
      ensures entries == After(old(entries), Event.Insert(provider, sub, token, cred, ttl, now), digest, true)
      ensures ttl != 0 ==> forall k | k in entries :: now < entries[k].expiresAt
    {
      if ttl == 0 {
        return;
      }
      entries := map k | k in entries && now < entries[k].expiresAt :: entries[k];
      entries := entries[Key(provider, sub, Fingerprint(token, digest)) := Entry(cred, now + ttl * SECOND)];
    }
  }

  // ----- the history -----

  /** An insert that asks for caching is served to its own provider, subject and token until its seconds are over. */
  lemma InsertedIsServed<Cred>(events: seq<Event<Cred>>, digest: string -> string, sweeping: bool, provider: string, sub: string,
                               token: string, cred: Cred, ttl: nat, at: nat, now: nat)
    requires ttl > 0 && at <= now
    ensures var e := Event.Insert(provider, sub, token, cred, ttl, at);
            Lookup(Run(events + [e], digest, sweeping), Key(provider, sub, if token == "" then "" else digest(token)), now)
            == if now < at + ttl * 1_000_000_000 then Some(cred) else None
  {
    var e := Event.Insert(provider, sub, token, cred, ttl, at);
    assert (events + [e])[..|events|] == events;
    LookupAfter(Run(events, digest, sweeping), e, digest, sweeping, KeyOf(e, digest), now);
  }

  /** The clock does not run backwards. */
  predicate Monotone<Cred>(events: seq<Event<Cred>>, now: nat) {
    events == [] || (events[|events| - 1].at <= now && Monotone(events[..|events| - 1], events[|events| - 1].at))
  }

  /** The latest insert under this key that asked for caching. */
  function Latest<Cred>(events: seq<Event<Cred>>, digest: string -> string, key: Key): Option<Event<Cred>> {
    if events == [] then None
    else
      var e := events[|events| - 1];
      if e.Insert? && e.ttl != 0 && KeyOf(e, digest) == key then Some(e)
      else Latest(events[..|events| - 1], digest, key)
  }

  function Remembered<Cred>(events: seq<Event<Cred>>, digest: string -> string, key: Key, now: nat): Option<Cred> {
    var e := Latest(events, digest, key);
    if e.Some? && e.value.Insert? && now < e.value.at + e.value.ttl * SECOND then Some(e.value.cred) else None
  }

  lemma LookupAfter<Cred>(entries: Entries<Cred>, e: Event<Cred>, digest: string -> string, sweeping: bool, key: Key, now: nat)
    requires e.at <= now
    ensures Lookup(After(entries, e, digest, sweeping), key, now)
         == if e.Insert? && e.ttl != 0 && KeyOf(e, digest) == key
            then (if now < e.at + e.ttl * SECOND then Some(e.cred) else None)
            else Lookup(entries, key, now)
  {
  }

  /** At any later time, a look-up answers what the history remembers. */
  lemma {:induction false} CacheIsHistory<Cred>(events: seq<Event<Cred>>, digest: string -> string, sweeping: bool, key: Key, now: nat)
    requires Monotone(events, now)
    ensures Lookup(Run(events, digest, sweeping), key, now) == Remembered(events, digest, key, now)
  {
    if events != [] {
      var front, e := events[..|events| - 1], events[|events| - 1];
      LookupAfter(Run(front, digest, sweeping), e, digest, sweeping, key, now);
      LaterIsMonotone(front, e.at, now);
      CacheIsHistory(front, digest, sweeping, key, now);
    }
  }

  lemma LaterIsMonotone<Cred>(events: seq<Event<Cred>>, now: nat, later: nat)
    requires Monotone(events, now) && now <= later
    ensures Monotone(events, later)
  {
  }

  /** No caller can tell whether the cache sweeps. */
  lemma SweepIsInvisible<Cred>(events: seq<Event<Cred>>, digest: string -> string, key: Key, now: nat)
    requires Monotone(events, now)
    ensures Lookup(Run(events, digest, true), key, now) == Lookup(Run(events, digest, false), key, now)
  {
    CacheIsHistory(events, digest, true, key, now);
    CacheIsHistory(events, digest, false, key, now);
  }

  predicate AllLive<Cred>(entries: Entries<Cred>, now: nat) {
    forall k | k in entries :: now < entries[k].expiresAt
  }

  /** What the sweep leaves is exactly what can still be served: the map is no larger than the live history. */
  lemma SweptMapIsLiveHistory<Cred>(events: seq<Event<Cred>>, digest: string -> string, key: Key)
    requires events != [] && Monotone(events, events[|events| - 1].at)
    requires events[|events| - 1].Insert? && events[|events| - 1].ttl != 0
    ensures AllLive(Run(events, digest, true), events[|events| - 1].at)
    ensures key in Run(events, digest, true) <==> Remembered(events, digest, key, events[|events| - 1].at).Some?
  {
    CacheIsHistory(events, digest, true, key, events[|events| - 1].at);
  }

  /** No other token under which a credential was inserted has the digest of `token`, and none has the empty digest,
      which stands for no token. */
  ghost predicate NoCollision<Cred>(events: seq<Event<Cred>>, digest: string -> string, token: string) {
    forall e | e in events && e.Insert? && e.token != token ::
      (e.token != "" && token != "" ==> digest(e.token) != digest(token))
      && (e.token == "" ==> digest(token) != "") && (token == "" ==> digest(e.token) != "")
  }

  /** Where no inserted token collides with the caller's, a credential is only served to the provider, subject and
      token it was generated for, and only within its time to live. */
  lemma {:induction false} ServedToItsOwnerOnly<Cred>(events: seq<Event<Cred>>, digest: string -> string, provider: string,
                                                      sub: string, token: string, now: nat)
    requires NoCollision(events, digest, token) && Monotone(events, now)
    requires var r := Lookup(Run(events, digest, true), Key(provider, sub, Fingerprint(token, digest)), now); r.Some?
    ensures exists e | e in events && e.Insert? ::
              && e.provider == provider && e.sub == sub && e.token == token && e.at <= now < e.at + e.ttl * 1_000_000_000
              && Lookup(Run(events, digest, true), Key(provider, sub, Fingerprint(token, digest)), now) == Some(e.cred)
  {
    var key := Key(provider, sub, Fingerprint(token, digest));
    CacheIsHistory(events, digest, true, key, now);
    var e := Latest(events, digest, key).value;
    LatestIsEvent(events, digest, key, now);
    assert e.token == token;
  }

  lemma {:induction false} LatestIsEvent<Cred>(events: seq<Event<Cred>>, digest: string -> string, key: Key, now: nat)
    requires Latest(events, digest, key).Some? && Monotone(events, now)
    ensures var e := Latest(events, digest, key).value;
            e in events && e.Insert? && e.ttl != 0 && KeyOf(e, digest) == key && e.at <= now
  {
    var front, e := events[..|events| - 1], events[|events| - 1];
    if !(e.Insert? && e.ttl != 0 && KeyOf(e, digest) == key) {
      LatestIsEvent(front, digest, key, e.at);
    }
  }
}
