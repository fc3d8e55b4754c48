// src/autobench/auth/jwks.py: a TTL cache of key documents, called concurrently.  A call gives way
// to others only while it awaits a response, so the code between two awaits is one step.
module JwksCache {
  import opened Wrappers

  datatype Jwk = Jwk(kid: Option<string>, material: string)

  type Keys = map<string, Jwk>

  // The keys of a document that have an id; of two with one id the later counts.
  function KeysOf(doc: seq<Jwk>): Keys {
    if doc == [] then map[]
    else
      var n := |doc| - 1;
      if doc[n].kid.Some? then KeysOf(doc[..n])[doc[n].kid.value := doc[n]] else KeysOf(doc[..n])
  }

  function Get(keys: Keys, kid: string): Option<Jwk> {
    if kid in keys then Some(keys[kid]) else None
  }

  ghost predicate Lacks(doc: seq<Jwk>, kid: string) {
    forall k :: k in doc ==> k.kid != Some(kid)
  }

  // The document has this key under this id: of several with the id, the last.
  ghost predicate Carries(doc: seq<Jwk>, kid: string, key: Jwk) {
    exists i :: 0 <= i < |doc| && doc[i] == key && key.kid == Some(kid)
      && forall j :: i < j < |doc| ==> doc[j].kid != Some(kid)
  }

  // The keys kept of a document are exactly those it carries.
  lemma {:induction false} KeysOfDocument(doc: seq<Jwk>, kid: string)
    ensures Get(KeysOf(doc), kid).None? <==> Lacks(doc, kid)
    ensures forall key :: Get(KeysOf(doc), kid) == Some(key) <==> Carries(doc, kid, key)
  {
    if doc == [] {
    } else {
      var n := |doc| - 1;
      var front := doc[..n];
      KeysOfDocument(front, kid);
      assert doc == front + [doc[n]];
      if doc[n].kid == Some(kid) {
        forall key ensures Carries(doc, kid, key) <==> key == doc[n] {
          assert doc[n] == doc[n] && doc[n].kid == Some(kid);
        }
      } else {
        forall key ensures Carries(doc, kid, key) <==> Carries(front, kid, key) {
          CarriesFront(doc, kid, key);
        }
      }
    }
  }

  // A last key of another id makes no difference.
  lemma CarriesFront(doc: seq<Jwk>, kid: string, key: Jwk)
    requires doc != [] && doc[|doc| - 1].kid != Some(kid)
    ensures Carries(doc, kid, key) <==> Carries(doc[..|doc| - 1], kid, key)
  {
    var front := doc[..|doc| - 1];
    if Carries(front, kid, key) {
      var i :| 0 <= i < |front| && front[i] == key && key.kid == Some(kid)
        && forall j :: i < j < |front| ==> front[j].kid != Some(kid);
      assert doc[i] == key && forall j :: i < j < |doc| ==> j == |front| || doc[j] == front[j];
    }
    if Carries(doc, kid, key) {
      var i :| 0 <= i < |doc| && doc[i] == key && key.kid == Some(kid)
        && forall j :: i < j < |doc| ==> doc[j].kid != Some(kid);
      assert front[i] == key && forall j :: i < j < |front| ==> front[j] == doc[j];
    }
  }

  datatype Entry = Entry(ts: real, keys: Keys)

  type Cache = map<string, Entry>

  // _get_keys up to its await, unless forced: the cached keys, or None when it has to fetch.
  function Cached(cache: Cache, ttl: real, url: string, now: real): Option<Keys> {
    if url in cache && now - cache[url].ts < ttl then Some(cache[url].keys) else None
  }

  // Where a call of get_key stands.  began: when it was called; asked: the clock reading before
  // the fetch it awaits.
  datatype Call =
    | AwaitsKeys(url: string, kid: string, began: real, asked: real)
    | AwaitsRefresh(url: string, kid: string, began: real, asked: real)
    | Returned(url: string, kid: string, began: real, ended: real, key: Option<Jwk>)
    | Threw(url: string, kid: string)

  // get_key from its start to its first await or its end; again is the second clock reading.
  function Begun(cache: Cache, ttl: real, url: string, kid: string, now: real, again: real): Call {
    var keys := Cached(cache, ttl, url, now);
    if keys.None? then AwaitsKeys(url, kid, now, now)
    else if kid in keys.value then Call.Returned(url, kid, now, now, Get(keys.value, kid))
    else AwaitsRefresh(url, kid, now, again)
  }

  // get_key from the answer of its first fetch on.
  function Answered(call: Call, keys: Keys, now: real): Call
    requires call.AwaitsKeys?
  {
    if call.kid in keys then Call.Returned(call.url, call.kid, call.began, now, Get(keys, call.kid))
    else AwaitsRefresh(call.url, call.kid, call.began, now)
  }

  // ---------------------------------------------------------------- the steps, on the object

  class KeyCache {
    const ttl: real
    var cache: Cache

    constructor (ttl: real)
      ensures this.ttl == ttl && cache == map[]
    {
      this.ttl := ttl;
      cache := map[];
    }

    method GetKey(url: string, kid: string, now: real, again: real) returns (call: Call)
      ensures call == Begun(cache, ttl, url, kid, now, again)
    {
      if url in cache && now - cache[url].ts < ttl {
        var keys := cache[url].keys;
        if kid in keys {
          return Call.Returned(url, kid, now, now, Some(keys[kid]));
        }
        // kid unknown: force a refresh in case of key rotation
        return AwaitsRefresh(url, kid, now, again);
      }
      return AwaitsKeys(url, kid, now, now);
    }

    // The end of _get_keys, once the response is there.
    method Store(url: string, asked: real, doc: seq<Jwk>) returns (keys: Keys)
      modifies this
      ensures keys == KeysOf(doc)
      ensures cache == old(cache)[url := Entry(asked, KeysOf(doc))]
    {
      keys := map[];
      for n := 0 to |doc|
        invariant keys == KeysOf(doc[..n])
      {
        assert doc[..n + 1][..n] == doc[..n];
        if doc[n].kid.Some? {
          keys := keys[doc[n].kid.value := doc[n]];
        }
      }
      assert doc[..|doc|] == doc;
      cache := cache[url := Entry(asked, keys)];
    }

    method KeysArrive(call: Call, doc: seq<Jwk>, now: real) returns (next: Call)
      requires call.AwaitsKeys?
      modifies this
      ensures cache == old(cache)[call.url := Entry(call.asked, KeysOf(doc))]
      ensures next == Answered(call, KeysOf(doc), now)
    {
      var keys := Store(call.url, call.asked, doc);
      if call.kid in keys {
        return Call.Returned(call.url, call.kid, call.began, now, Some(keys[call.kid]));
      }
      return AwaitsRefresh(call.url, call.kid, call.began, now);
    }

    method RefreshArrives(call: Call, doc: seq<Jwk>, now: real) returns (next: Call)
      requires call.AwaitsRefresh?
      modifies this
      ensures cache == old(cache)[call.url := Entry(call.asked, KeysOf(doc))]
      ensures next == Call.Returned(call.url, call.kid, call.began, now, Get(KeysOf(doc), call.kid))
    {
      var keys := Store(call.url, call.asked, doc);
      return Call.Returned(call.url, call.kid, call.began, now,
                           if call.kid in keys then Some(keys[call.kid]) else None);
    }
  }

  // ---------------------------------------------------------------- interleavings

  // The document a URL serves at each instant; it may change at any time.
  type World = (string, real) -> seq<Jwk>

  datatype State = State(now: real, cache: Cache, calls: map<nat, Call>)

  // One step of one call.  at: the clock then; served: the instant whose document a response carries.
  datatype Step =
    | Start(id: nat, url: string, kid: string, at: real, again: real)
    | Response(id: nat, served: real, at: real)
    | Failure(id: nat, at: real)

  const INITIAL := State(0.0, map[], map[])

  predicate Waits(s: State, id: nat) {
    id in s.calls && (s.calls[id].AwaitsKeys? || s.calls[id].AwaitsRefresh?)
  }

  predicate Enabled(s: State, step: Step) {
    && s.now <= step.at
    && match step
       case Start(id, _, _, at, again) => id !in s.calls && at <= again
       case Response(id, served, at) => Waits(s, id) && s.calls[id].asked <= served <= at
       case Failure(id, at) => Waits(s, id)
  }

  function After(w: World, ttl: real, s: State, step: Step): State
    requires Enabled(s, step)
  {
    match step
    case Start(id, url, kid, at, again) =>
      State(again, s.cache, s.calls[id := Begun(s.cache, ttl, url, kid, at, again)])
    case Response(id, served, at) =>
      var call := s.calls[id];
      var keys := KeysOf(w(call.url, served));
      var next := if call.AwaitsKeys? then Answered(call, keys, at)
                  else Call.Returned(call.url, call.kid, call.began, at, Get(keys, call.kid));
      State(at, s.cache[call.url := Entry(call.asked, keys)], s.calls[id := next])
    case Failure(id, at) =>
      State(at, s.cache, s.calls[id := Threw(s.calls[id].url, s.calls[id].kid)])
  }

  predicate Possible(w: World, ttl: real, s: State, steps: seq<Step>)
    decreases |steps|
  {
    steps == [] || (Enabled(s, steps[0]) && Possible(w, ttl, After(w, ttl, s, steps[0]), steps[1..]))
  }

  function Run(w: World, ttl: real, s: State, steps: seq<Step>): State
    requires Possible(w, ttl, s, steps)
    decreases |steps|
  {
    if steps == [] then s else Run(w, ttl, After(w, ttl, s, steps[0]), steps[1..])
  }

  // These keys are those the document of that instant carries.
  ghost predicate ServedAt(w: World, url: string, keys: Keys, t: real) {
    && (forall kid, key :: Get(keys, kid) == Some(key) <==> Carries(w(url, t), kid, key))
    && (forall kid :: Get(keys, kid).None? <==> Lacks(w(url, t), kid))
  }

  lemma DocumentServed(w: World, url: string, t: real)
    ensures ServedAt(w, url, KeysOf(w(url, t)), t)
  {
    forall kid
      ensures forall key :: Get(KeysOf(w(url, t)), kid) == Some(key) <==> Carries(w(url, t), kid, key)
      ensures Get(KeysOf(w(url, t)), kid).None? <==> Lacks(w(url, t), kid)
    {
      KeysOfDocument(w(url, t), kid);
    }
  }

  // A cached entry is the document of some instant no earlier than its timestamp.
  ghost predicate EntrySound(w: World, url: string, e: Entry, now: real) {
    exists t :: e.ts <= t <= now && ServedAt(w, url, e.keys, t)
  }

  ghost predicate CallSound(w: World, ttl: real, call: Call, now: real) {
    match call
    case AwaitsKeys(_, _, began, asked) => began <= asked <= now
    case AwaitsRefresh(_, _, began, asked) => began <= asked <= now
    case Returned(url, kid, began, ended, None) =>
      // some document current during the call lacked the kid
      exists t :: began <= t <= ended && Lacks(w(url, t), kid)
    case Returned(url, kid, began, ended, Some(key)) =>
      // the key is the one a document at most ttl older than the call carried
      exists t :: (began <= t || began - t < ttl) && t <= ended && Carries(w(url, t), kid, key)
    case Threw(_, _) => true
  }

  ghost predicate Sound(w: World, ttl: real, s: State) {
    && (forall url :: url in s.cache ==> EntrySound(w, url, s.cache[url], s.now))
    && (forall id :: id in s.calls ==> CallSound(w, ttl, s.calls[id], s.now))
  }

  // What an unforced hit hands out is at most ttl old.
  lemma HitIsFresh(w: World, ttl: real, s: State, url: string, now: real)
    requires Sound(w, ttl, s) && s.now <= now
    ensures Cached(s.cache, ttl, url, now).Some? ==>
      exists t :: now - t < ttl && t <= now && ServedAt(w, url, Cached(s.cache, ttl, url, now).value, t)
  {
    if Cached(s.cache, ttl, url, now).Some? {
      var t :| s.cache[url].ts <= t <= s.now && ServedAt(w, url, s.cache[url].keys, t);
      assert now - t < ttl;
    }
  }

  lemma StepSound(w: World, ttl: real, s: State, step: Step)
    requires Sound(w, ttl, s) && Enabled(s, step)
    ensures Sound(w, ttl, After(w, ttl, s, step))
  {
    var s' := After(w, ttl, s, step);
    match step
    case Start(id, url, kid, at, again) =>
      HitIsFresh(w, ttl, s, url, at);
      if s'.calls[id].Returned? {
        var keys := Cached(s.cache, ttl, url, at).value;
        var t :| at - t < ttl && t <= at && ServedAt(w, url, keys, t);
        assert Get(keys, kid) == Some(s'.calls[id].key.value);
        assert Carries(w(url, t), kid, s'.calls[id].key.value);
      }
    case Response(id, served, at) =>
      var call := s.calls[id];
      assert CallSound(w, ttl, call, s.now);
      DocumentServed(w, call.url, served);
      assert ServedAt(w, call.url, s'.cache[call.url].keys, served);
      assert EntrySound(w, call.url, s'.cache[call.url], s'.now);
      assert CallSound(w, ttl, s'.calls[id], s'.now);
    case Failure(id, at) =>
  }

  // Under every interleaving, with rotations and failed fetches anywhere.
  lemma {:induction false} RunSound(w: World, ttl: real, s: State, steps: seq<Step>)
    requires Sound(w, ttl, s) && Possible(w, ttl, s, steps)
    ensures Sound(w, ttl, Run(w, ttl, s, steps))
    decreases |steps|
  {
    if steps == [] {
    } else {
      StepSound(w, ttl, s, steps[0]);
      RunSound(w, ttl, After(w, ttl, s, steps[0]), steps[1..]);
    }
  }

  lemma EveryRunSound(w: World, ttl: real, steps: seq<Step>)
    requires Possible(w, ttl, INITIAL, steps)
    ensures Sound(w, ttl, Run(w, ttl, INITIAL, steps))
  {
    RunSound(w, ttl, INITIAL, steps);
  }

  // A key that every document of the URL carries while a call lasts is never reported missing.
  lemma PresentKeyIsFound(w: World, ttl: real, steps: seq<Step>, id: nat)
    requires Possible(w, ttl, INITIAL, steps)
    requires var s := Run(w, ttl, INITIAL, steps); id in s.calls && s.calls[id].Returned?
    requires var c := Run(w, ttl, INITIAL, steps).calls[id];
      forall t :: c.began <= t <= c.ended ==> exists k :: k in w(c.url, t) && k.kid == Some(c.kid)
    ensures Run(w, ttl, INITIAL, steps).calls[id].key.Some?
  {
    EveryRunSound(w, ttl, steps);
    var s := Run(w, ttl, INITIAL, steps);
    var c := s.calls[id];
    assert CallSound(w, ttl, c, s.now);
  }

  // No key is reported missing on the word of a cached document or of the first one fetched: only the
  // answer to a refresh can end a call that way.
  lemma MissingOnlyAfterRefresh(w: World, ttl: real, s: State, step: Step, id: nat)
    requires Enabled(s, step)
    requires var now := After(w, ttl, s, step).calls; id in now && now[id].Returned? && now[id].key.None?
    ensures id in s.calls && (s.calls[id] == After(w, ttl, s, step).calls[id] || s.calls[id].AwaitsRefresh?)
  {
  }

  // Entries are sound but not ordered: the answer to an older request, arriving late, replaces the
  // entry of a newer one.
  lemma LateAnswerReplacesNewer(w: World, ttl: real, early: seq<Step>, late: Step)
    requires early == [Start(0, "u", "k", 0.0, 0.0)] + ([Start(1, "u", "k", 1.0, 1.0)] + ([Response(1, 1.0, 2.0)] + []))
    requires late == Response(0, 0.0, 3.0)
    ensures Possible(w, ttl, INITIAL, early) && Enabled(Run(w, ttl, INITIAL, early), late)
    ensures var newer := Run(w, ttl, INITIAL, early);
      var older := After(w, ttl, newer, late);
      "u" in newer.cache && "u" in older.cache && older.cache["u"].ts < newer.cache["u"].ts
  {
    var s1 := State(0.0, map[], map[0 := AwaitsKeys("u", "k", 0.0, 0.0)]);
    var s2 := State(1.0, map[], s1.calls[1 := AwaitsKeys("u", "k", 1.0, 1.0)]);
    var keys := KeysOf(w("u", 1.0));
    var s3 := State(2.0, map["u" := Entry(1.0, keys)], s2.calls[1 := Answered(s2.calls[1], keys, 2.0)]);
    Unroll(w, ttl, s2, Response(1, 1.0, 2.0), s3, []);
    Unroll(w, ttl, s1, Start(1, "u", "k", 1.0, 1.0), s2, [Response(1, 1.0, 2.0)] + []);
    Unroll(w, ttl, INITIAL, Start(0, "u", "k", 0.0, 0.0), s1,
           [Start(1, "u", "k", 1.0, 1.0)] + ([Response(1, 1.0, 2.0)] + []));
    assert Run(w, ttl, INITIAL, early) == s3;
  }

  lemma Unroll(w: World, ttl: real, s: State, step: Step, next: State, rest: seq<Step>)
    requires Enabled(s, step) && After(w, ttl, s, step) == next
    requires Possible(w, ttl, next, rest)
    ensures Possible(w, ttl, s, [step] + rest) && Run(w, ttl, s, [step] + rest) == Run(w, ttl, next, rest)
  {
    assert ([step] + rest)[1..] == rest;
  }
}
