/**
 The keyring files of an edge machine.  Every write goes to a temporary file that is then renamed; a crash may
 come between any two steps, or in the middle of writing a file.
 */
module EdgeKeyring {
  import opened Base

  type Bytes = seq<bv8>

  type Files = map<string, Bytes>

  const KEY := ".keyring-key"
  const RING := "keyring.enc"

  /** Encryption of the keyring and base64 text of the session key. */
  datatype Codec = Codec(
    seal: (Bytes, Bytes, Bytes) -> Bytes, // key, plaintext, nonce
    open: (Bytes, Bytes) -> Option<Bytes>, // key, ciphertext
    show: Bytes -> Bytes,
    read: Bytes -> Option<Bytes>) // None unless it is the text of 32 bytes

  /** What a seal closes it opens, and a key that is written is read back. */
  ghost predicate Sound(c: Codec) {
    && (forall key, plain, nonce :: c.open(key, c.seal(key, plain, nonce)) == Some(plain))
    && forall key | |key| == 32 :: c.read(c.show(key)) == Some(key)
  }

  // ----- the states that a write goes through -----

  /** A temporary file grows by one byte after the other. */
  function Growth(files: Files, tmp: string, contents: Bytes, n: nat): seq<Files>
    requires n <= |contents|
  {
    if n == 0 then [files[tmp := []]] else Growth(files, tmp, contents, n - 1) + [files[tmp := contents[..n]]]
  }

  function WriteTrail(files: Files, target: string, contents: Bytes, tmp: string): seq<Files> {
    Growth(files, tmp, contents, |contents|) + [files[target := contents]]
  }

  /** Everything a call is given from outside: the fetched item, a random key, a nonce, temporary names. */
  datatype Call = Call(fetched: Option<Bytes>, freshKey: Bytes, nonce: Bytes, keyTemp: string, ringTemp: string)

  function BootstrapTrail(files: Files, call: Call, c: Codec): seq<Files> {
    if call.fetched.None? then []
    else if KEY in files then
      match c.read(files[KEY])
      case None => []
      case Some(key) => WriteTrail(files, RING, c.seal(key, call.fetched.value, call.nonce), call.ringTemp)
    else
      var keyed := files[KEY := c.show(call.freshKey)];
      WriteTrail(files, KEY, c.show(call.freshKey), call.keyTemp)
      + WriteTrail(keyed, RING, c.seal(call.freshKey, call.fetched.value, call.nonce), call.ringTemp)
  }

  function RotateTrail(files: Files, call: Call, c: Codec): seq<Files> {
    if RING !in files || KEY !in files || c.read(files[KEY]).None? || call.fetched.None? then []
    else WriteTrail(files, RING, c.seal(c.read(files[KEY]).value, call.fetched.value, call.nonce), call.ringTemp)
  }

  predicate FreshName(files: Files, tmp: string) {
    tmp !in files && tmp != KEY && tmp != RING
  }

  predicate FreshNames(files: Files, call: Call) {
    FreshName(files, call.keyTemp) && FreshName(files, call.ringTemp) && |call.freshKey| == 32
  }

  datatype EdgeError = FetchFailed | NoKeyring | NoSessionKey | BadSessionKey

  class EdgeDir {
    var files: Files
    /** The state after every single step on the file system. */
    ghost var trail: seq<Files>
    const codec: Codec

    constructor (files: Files, codec: Codec)
      ensures this.files == files && trail == [] && this.codec == codec
    {
      this.files, this.codec, trail := files, codec, [];
    }

    method Put(path: string, contents: Bytes)
      modifies this
      ensures files == old(files)[path := contents] && trail == old(trail) + [files]
    {
      files := files[path := contents];
      trail := trail + [files];
    }

    method Rename(from: string, to: string)
      requires from in files && from != to
      modifies this
      ensures files == (old(files) - {from})[to := old(files)[from]] && trail == old(trail) + [files]
    {
      files := (files - {from})[to := files[from]];
      trail := trail + [files];
    }

    method AtomicWrite(target: string, contents: Bytes, tmp: string)
      requires tmp !in files && tmp != target
      modifies this
      ensures files == old(files)[target := contents]
      ensures trail == old(trail) + WriteTrail(old(files), target, contents, tmp)
    {
      Put(tmp, []);
      for i := 0 to |contents|
        invariant files == old(files)[tmp := contents[..i]]
        invariant trail == old(trail) + Growth(old(files), tmp, contents, i)
      {
        Put(tmp, contents[..i] + [contents[i]]);
        assert contents[..i] + [contents[i]] == contents[..i + 1];
      }
      assert contents[..|contents|] == contents;
      Rename(tmp, target);
      assert files == old(files)[target := contents];
    }

    method LoadOrGenerateSessionKey(call: Call) returns (r: Result<Bytes, EdgeError>)
      requires FreshNames(files, call)
      modifies this
      ensures KEY in old(files) ==>
                files == old(files) && trail == old(trail)
                && r == (if codec.read(files[KEY]).Some? then Ok(codec.read(files[KEY]).value) else Err(BadSessionKey))
      ensures KEY !in old(files) ==>
                r == Ok(call.freshKey) && files == old(files)[KEY := codec.show(call.freshKey)]
                && trail == old(trail) + WriteTrail(old(files), KEY, codec.show(call.freshKey), call.keyTemp)
    {
      if KEY in files {
        if codec.read(files[KEY]).None? {
          return Err(BadSessionKey);
        }
        return Ok(codec.read(files[KEY]).value);
      }
      AtomicWrite(KEY, codec.show(call.freshKey), call.keyTemp);
      r := Ok(call.freshKey);
    }

    method BootstrapKeyring(call: Call) returns (r: Result<(), EdgeError>)
      requires FreshNames(files, call)
      modifies this
      ensures trail == old(trail) + BootstrapTrail(old(files), call, codec)
      ensures r.Ok? <==> call.fetched.Some? && (".keyring-key" in old(files) ==> codec.read(old(files)[".keyring-key"]).Some?)
      ensures r.Err? ==> files == old(files) && r.error == if call.fetched.None? then FetchFailed else BadSessionKey
      ensures r.Ok? && ".keyring-key" in old(files) ==>
                files == old(files)["keyring.enc" := codec.seal(codec.read(old(files)[".keyring-key"]).value, call.fetched.value, call.nonce)]
      ensures r.Ok? && ".keyring-key" !in old(files) ==>
                files == old(files)[".keyring-key" := codec.show(call.freshKey)]
                ["keyring.enc" := codec.seal(call.freshKey, call.fetched.value, call.nonce)]
      ensures files == After(old(files), BootstrapTrail(old(files), call, codec))
    {
      if call.fetched.None? {
        return Err(FetchFailed);
      }
      var key := LoadOrGenerateSessionKey(call);
      if key.Err? {
        return Err(key.error);
      }
      AtomicWrite(RING, codec.seal(key.value, call.fetched.value, call.nonce), call.ringTemp);
      r := Ok(());
    }

    method RotateKeyring(call: Call) returns (r: Result<(), EdgeError>)
      requires FreshNames(files, call)
      modifies this
      ensures trail == old(trail) + RotateTrail(old(files), call, codec)
      ensures r.Ok? <==> "keyring.enc" in old(files) && ".keyring-key" in old(files)
                         && codec.read(old(files)[".keyring-key"]).Some? && call.fetched.Some?
      ensures r.Err? ==> files == old(files)
      ensures r.Err? ==> r.error == if "keyring.enc" !in old(files) then NoKeyring
                                    else if ".keyring-key" !in old(files) then NoSessionKey
                                    else if codec.read(old(files)[".keyring-key"]).None? then BadSessionKey
                                    else FetchFailed
      ensures r.Ok? ==>
                files == old(files)["keyring.enc" := codec.seal(codec.read(old(files)[".keyring-key"]).value, call.fetched.value, call.nonce)]
      ensures files == After(old(files), RotateTrail(old(files), call, codec))
    {
      if RING !in files {
        return Err(NoKeyring);
      }
      if KEY !in files {
        return Err(NoSessionKey);
      }
      if codec.read(files[KEY]).None? {
        return Err(BadSessionKey);
      }
      if call.fetched.None? {
        return Err(FetchFailed);
      }
      AtomicWrite(RING, codec.seal(codec.read(files[KEY]).value, call.fetched.value, call.nonce), call.ringTemp);
      r := Ok(());
    }
  }

  function After(files: Files, trail: seq<Files>): Files {
    if trail == [] then files else trail[|trail| - 1]
  }

  // ----- what holds at every point -----

  /** The item in the keyring file, if the session key opens it. */
  function Stored(files: Files, c: Codec): Option<Bytes> {
    if RING in files && KEY in files && c.read(files[KEY]).Some?
    then c.open(c.read(files[KEY]).value, files[RING])
    else None
  }

  /** The keyring file, if there is one, opens with the session key and holds one of these items. */
  predicate Safe(files: Files, items: set<Bytes>, c: Codec) {
    RING in files ==> Stored(files, c).Some? && Stored(files, c).value in items
  }

  predicate KeyKept(before: Files, after: Files) {
    KEY in before ==> KEY in after && after[KEY] == before[KEY]
  }

  /** Outside the temporary files nothing differs. */
  predicate SameRings(before: Files, after: Files) {
    && (KEY in before <==> KEY in after) && (KEY in before ==> after[KEY] == before[KEY])
    && (RING in before <==> RING in after) && (RING in before ==> after[RING] == before[RING])
  }

  lemma {:induction false} GrowthChangesNothing(files: Files, tmp: string, contents: Bytes, n: nat, i: nat)
    requires n <= |contents| && FreshName(files, tmp)
    requires i < |Growth(files, tmp, contents, n)|
    ensures SameRings(files, Growth(files, tmp, contents, n)[i])
  {
    if n > 0 && i < |Growth(files, tmp, contents, n - 1)| {
      GrowthChangesNothing(files, tmp, contents, n - 1, i);
    }
  }

  /** At every point of an atomic write the target is the old file or the whole new one. */
  lemma WriteIsOldOrNew(files: Files, target: string, contents: Bytes, tmp: string, i: nat)
    requires FreshName(files, tmp) && i < |WriteTrail(files, target, contents, tmp)|
    ensures var state := WriteTrail(files, target, contents, tmp)[i];
            SameRings(files, state) || state == files[target := contents]
  {
    if i < |WriteTrail(files, target, contents, tmp)| - 1 {
      GrowthChangesNothing(files, tmp, contents, |contents|, i);
    }
  }

  lemma RingIsSafe(files: Files, call: Call, key: Bytes, items: set<Bytes>, c: Codec, i: nat)
    requires Sound(c) && call.fetched.Some? && FreshName(files, call.ringTemp)
    requires KEY in files && c.read(files[KEY]) == Some(key) && Safe(files, items, c)
    requires i < |WriteTrail(files, RING, c.seal(key, call.fetched.value, call.nonce), call.ringTemp)|
    ensures var state := WriteTrail(files, RING, c.seal(key, call.fetched.value, call.nonce), call.ringTemp)[i];
            Safe(state, items + {call.fetched.value}, c) && KeyKept(files, state)
  {
    WriteIsOldOrNew(files, RING, c.seal(key, call.fetched.value, call.nonce), call.ringTemp, i);
  }

  lemma KeyIsSafe(files: Files, call: Call, items: set<Bytes>, c: Codec, i: nat)
    requires FreshName(files, call.keyTemp) && KEY !in files && Safe(files, items, c)
    requires i < |WriteTrail(files, KEY, c.show(call.freshKey), call.keyTemp)|
    ensures var state := WriteTrail(files, KEY, c.show(call.freshKey), call.keyTemp)[i];
            RING !in state && KeyKept(files, state)
  {
    WriteIsOldOrNew(files, KEY, c.show(call.freshKey), call.keyTemp, i);
  }

  function Items(call: Call): set<Bytes> {
    if call.fetched.Some? then {call.fetched.value} else {}
  }

  lemma BootstrapPointIsSafe(files: Files, call: Call, items: set<Bytes>, c: Codec, i: nat)
    requires Sound(c) && FreshNames(files, call) && Safe(files, items, c)
    requires i < |BootstrapTrail(files, call, c)|
    ensures Safe(BootstrapTrail(files, call, c)[i], items + Items(call), c)
    ensures KeyKept(files, BootstrapTrail(files, call, c)[i])
  {
    if KEY in files {
      RingIsSafe(files, call, c.read(files[KEY]).value, items, c, i);
    } else {
      var n := |WriteTrail(files, KEY, c.show(call.freshKey), call.keyTemp)|;
      if i < n {
        KeyIsSafe(files, call, items, c, i);
      } else {
        RingIsSafe(files[KEY := c.show(call.freshKey)], call, call.freshKey, items, c, i - n);
      }
    }
  }

  lemma RotatePointIsSafe(files: Files, call: Call, items: set<Bytes>, c: Codec, i: nat)
    requires Sound(c) && FreshNames(files, call) && Safe(files, items, c)
    requires i < |RotateTrail(files, call, c)|
    ensures Safe(RotateTrail(files, call, c)[i], items + Items(call), c)
    ensures KeyKept(files, RotateTrail(files, call, c)[i])
  {
    RingIsSafe(files, call, c.read(files[KEY]).value, items, c, i);
  }

  // ----- runs -----

  /** A call that stops after `steps` steps, by a crash or, if there are no more, because it is done. */
  datatype Event = Event(rotating: bool, call: Call, steps: nat)

  function TrailOf(files: Files, e: Event, c: Codec): seq<Files> {
    if e.rotating then RotateTrail(files, e.call, c) else BootstrapTrail(files, e.call, c)
  }

  function Left(files: Files, e: Event, c: Codec): Files {
    var trail := TrailOf(files, e, c);
    After(files, trail[..Min(e.steps, |trail|)])
  }

  function Final(files: Files, events: seq<Event>, c: Codec): Files {
    if events == [] then files
    else Left(Final(files, events[..|events| - 1], c), events[|events| - 1], c)
  }

  /** Each call finds unused temporary names in the directory that the one before it left. */
  predicate FreshRun(files: Files, events: seq<Event>, c: Codec) {
    events == []
    || (FreshRun(files, events[..|events| - 1], c)
        && FreshNames(Final(files, events[..|events| - 1], c), events[|events| - 1].call))
  }

  function AllItems(events: seq<Event>): set<Bytes> {
    if events == [] then {} else AllItems(events[..|events| - 1]) + Items(events[|events| - 1].call)
  }

  lemma LeftIsSafe(files: Files, e: Event, items: set<Bytes>, c: Codec)
    requires Sound(c) && FreshNames(files, e.call) && Safe(files, items, c)
    ensures Safe(Left(files, e, c), items + Items(e.call), c) && KeyKept(files, Left(files, e, c))
  {
    var trail := TrailOf(files, e, c);
    var n := Min(e.steps, |trail|);
    if n > 0 {
      assert Left(files, e, c) == trail[n - 1];
      if e.rotating {
        RotatePointIsSafe(files, e.call, items, c, n - 1);
      } else {
        BootstrapPointIsSafe(files, e.call, items, c, n - 1);
      }
    }
  }

  /** However many bootstraps and rotations there are and wherever each of them crashes: the keyring opens with
      the session key and holds one whole item, fetched by some call or there from the start, and the session
      key never changes once it is written. */
  lemma {:induction false} EveryRunIsSafe(files: Files, events: seq<Event>, items: set<Bytes>, c: Codec)
    requires Sound(c) && Safe(files, items, c) && FreshRun(files, events, c)
    ensures Safe(Final(files, events, c), items + AllItems(events), c)
    ensures KeyKept(files, Final(files, events, c))
  {
    if events != [] {
      var front, e := events[..|events| - 1], events[|events| - 1];
      EveryRunIsSafe(files, front, items, c);
      LeftIsSafe(Final(files, front, c), e, items + AllItems(front), c);
      assert items + AllItems(front) + Items(e.call) == items + AllItems(events);
    }
  }

  lemma {:induction false} KeyKeptFrom(files: Files, events: seq<Event>, i: nat, items: set<Bytes>, c: Codec)
    requires Sound(c) && Safe(files, items, c) && FreshRun(files, events, c) && i <= |events|
    ensures KeyKept(Final(files, events[..i], c), Final(files, events, c))
  {
    if i == |events| {
      assert events[..i] == events;
    } else {
      var n := |events| - 1;
      KeyKeptFrom(files, events[..n], i, items, c);
      assert events[..n][..i] == events[..i];
      EveryRunIsSafe(files, events[..n], items, c);
      LeftIsSafe(Final(files, events[..n], c), events[n], items + AllItems(events[..n]), c);
    }
  }

  /** A call that runs to its end without an error leaves the item it fetched. */
  lemma DoneCallStoresItsItem(files: Files, e: Event, c: Codec)
    requires Sound(c) && FreshNames(files, e.call)
    requires TrailOf(files, e, c) != [] && e.steps >= |TrailOf(files, e, c)|
    ensures Stored(Left(files, e, c), c) == e.call.fetched
  {
    var trail := TrailOf(files, e, c);
    assert trail[..|trail|] == trail;
    var key := if KEY in files then c.read(files[KEY]).value else e.call.freshKey;
    var keyed := if KEY in files then files else files[KEY := c.show(e.call.freshKey)];
    assert Left(files, e, c) == keyed[RING := c.seal(key, e.call.fetched.value, e.call.nonce)];
  }
}
