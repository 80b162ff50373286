/**
  The JWKS cache: what a response contributes, and what lookups see while ticker and emergency
  refreshes replace the cache whole.

  After construction every fetch goes through one singleflight key: a caller that finds a fetch
  in flight waits for it and shares its result.  An action is one atomic step, a run an arbitrary
  interleaving of the refresher, any number of lookups and the server's answers.
 */
module Jwks {
  import opened Prelude
  import opened Exponent

  /** A JSON Web Key; `None` is a field that does not decode. */
  datatype Jwk = Jwk(kty: string, use: string, kid: string, n: Option<seq<Byte>>, e: Option<seq<Byte>>)

  datatype RsaKey = RsaKey(n: nat, e: int)

  type Cache = map<string, RsaKey>

  predicate Usable(j: Jwk) {
    j.kty == "RSA" && j.use == "sig" && j.kid != "" && j.n.Some? && j.e.Some?
  }

  /** The key of an entry whose numbers decode. */
  function KeyOf(j: Jwk): RsaKey
    requires j.n.Some? && j.e.Some?
  {
    RsaKey(BigEndian(j.n.value), Signed(BigEndian(j.e.value) % TWO64))
  }

  /** The usable keys of a response. */
  function ValidKeys(keys: seq<Jwk>): Cache {
    if keys == [] then
      map[]
    else
      var before, last := ValidKeys(keys[..|keys| - 1]), keys[|keys| - 1];
      if Usable(last) then before[last.kid := KeyOf(last)] else before
  }

  /** The entry that counts for its key id: usable, and no later usable entry has the same id. */
  predicate Decisive(keys: seq<Jwk>, i: nat) {
    && i < |keys| && Usable(keys[i])
    && forall j :: i < j < |keys| && Usable(keys[j]) ==> keys[j].kid != keys[i].kid
  }

  /** The cache holds exactly the decisive entries. */
  lemma {:induction false} LastValidEntryWins(keys: seq<Jwk>, kid: string)
    ensures kid in ValidKeys(keys) <==> exists i: nat :: Decisive(keys, i) && keys[i].kid == kid
    ensures forall i: nat :: Decisive(keys, i) && keys[i].kid == kid ==>
              && kid in ValidKeys(keys)
              && ValidKeys(keys)[kid]
                 == RsaKey(BigEndian(keys[i].n.value), Signed(BigEndian(keys[i].e.value) % TWO64))
    decreases |keys|
  {
    if keys == [] {
    } else {
      var before, n := keys[..|keys| - 1], |keys| - 1;
      LastValidEntryWins(before, kid);
      if Usable(keys[n]) && keys[n].kid == kid {
        assert Decisive(keys, n);
      } else {
        forall i: nat ensures Decisive(keys, i) && keys[i].kid == kid <==> Decisive(before, i) && before[i].kid == kid {
          if Decisive(before, i) && before[i].kid == kid {
            assert forall j :: 0 <= j < n ==> keys[j] == before[j];
          }
        }
      }
    }
  }

  /** A response contributes something exactly if it has a usable entry. */
  lemma {:induction false} SomeUsableKey(keys: seq<Jwk>)
    ensures ValidKeys(keys) != map[] <==> exists j :: j in keys && Usable(j)
    decreases |keys|
  {
    if keys == [] {
    } else {
      var before, last := keys[..|keys| - 1], keys[|keys| - 1];
      SomeUsableKey(before);
      assert keys == before + [last];
      if Usable(last) {
        assert last in keys && last.kid in ValidKeys(keys);
      }
    }
  }

  /** The client's fields, updated in place by a fetch. */
  class CachingClient {
    var cache: Cache
    var lastUpdated: int

    constructor ()
      ensures cache == map[]
    {
      cache, lastUpdated := map[], 0;
    }

    method ToRsaPublicKey(j: Jwk) returns (key: Option<RsaKey>)
      ensures key == if j.n.Some? && j.e.Some?
                     then Some(RsaKey(BigEndian(j.n.value), Signed(BigEndian(j.e.value) % TWO64))) else None
    {
      if j.n.None? || j.e.None? {
        return None;
      }
      var e := FoldExponent(j.e.value);
      return Some(RsaKey(BigEndian(j.n.value), e));
    }

    /** One fetch: `None` is a request, status or decoding error.  A fetch that fails changes nothing. */
    method FetchKeys(response: Option<seq<Jwk>>, now: int) returns (ok: bool)
      modifies this
      ensures ok <==> response.Some? && exists j ::
                        && j in response.value && j.kty == "RSA" && j.use == "sig" && j.kid != ""
                        && j.n.Some? && j.e.Some?
      ensures ok ==> cache == ValidKeys(response.value) && lastUpdated == now
      ensures !ok ==> cache == old(cache) && lastUpdated == old(lastUpdated)
    {
      if response.None? {
        return false;
      }
      var keys := response.value;
      var newCache: Cache := map[];
      for i := 0 to |keys|
        invariant newCache == ValidKeys(keys[..i])
        invariant cache == old(cache) && lastUpdated == old(lastUpdated)
      {
        assert keys[..i + 1][..i] == keys[..i];
        var jwk := keys[i];
        if jwk.kty == "RSA" && jwk.use == "sig" && jwk.kid != "" {
          var key := ToRsaPublicKey(jwk);
          if key.Some? {
            newCache := newCache[jwk.kid := key.value];
          }
        }
      }
      assert keys[..|keys|] == keys;
      SomeUsableKey(keys);
      if newCache == map[] {
        return false;
      }
      cache, lastUpdated := newCache, now;
      return true;
    }
  }

  // ---- Refreshes and lookups ----

  /** A token without a key id is `Refused` at once. */
  datatype Progress =
    | Refused
    | Looking
    | Missed
    | Refreshing(id: nat)
    | Refreshed(id: nat)
    | Found(key: RsaKey, version: nat)
    | NotFound(version: nat)
    | RefreshFailed(id: nat)

  /** A lookup, with the cache version and the number of fetches started when it began. */
  datatype Lookup = Lookup(kid: string, since: nat, startedBefore: nat, progress: Progress)

  /**
    `versions` are the caches installed so far, the last one current; `installs` the fetches they
    came from; `answers` what the server said to each fetch, `None` for an error.  `group` is the
    singleflight entry, `fetching` the requests without an answer yet and `answered` those whose
    waiters are still to be released.
   */
  datatype State = State(
    versions: seq<Cache>,
    installs: seq<nat>,
    answers: map<nat, Option<seq<Jwk>>>,
    started: nat,
    group: Option<nat>,
    fetching: set<nat>,
    answered: set<nat>,
    lookups: map<nat, Lookup>)

  datatype Action =
    | Begin(l: nat, kid: string)
    | FirstRead(l: nat)
    | EmergencyRefresh(l: nat)
    | TickerRefresh
    | Respond(id: nat, response: Option<seq<Jwk>>)
    | Release(id: nat)
    | Wake(l: nat)
    | SecondRead(l: nat)

  /** A client exists once its first fetch has succeeded. */
  function Constructed(first: seq<Jwk>): State {
    State([ValidKeys(first)], [0], map[0 := Some(first)], 1, None, {}, {}, map[])
  }

  /** A fetch succeeds if the answer contributes a key. */
  predicate Succeeds(response: Option<seq<Jwk>>) {
    response.Some? && ValidKeys(response.value) != map[]
  }

  function Current(s: State): Cache
    requires s.versions != []
  {
    s.versions[|s.versions| - 1]
  }

  predicate At(s: State, l: nat, p: Progress) {
    l in s.lookups && s.lookups[l].progress == p
  }

  predicate Enabled(s: State, a: Action) {
    s.versions != [] &&
    match a
    case Begin(l, kid) => l !in s.lookups
    case FirstRead(l) => At(s, l, Looking)
    case EmergencyRefresh(l) => At(s, l, Missed)
    case TickerRefresh => true
    case Respond(id, _) => id in s.fetching
    case Release(id) => id in s.answered
    case Wake(l) =>
      && l in s.lookups && s.lookups[l].progress.Refreshing?
      && s.lookups[l].progress.id in s.answers
      && s.group != Some(s.lookups[l].progress.id)
    case SecondRead(l) => l in s.lookups && s.lookups[l].progress.Refreshed?
  }

  /** Joining the fetch in flight, or starting one. */
  function Join(s: State): State {
    if s.group.Some? then s
    else s.(group := Some(s.started), fetching := s.fetching + {s.started}, started := s.started + 1)
  }

  function Goto(s: State, l: nat, p: Progress): State
    requires l in s.lookups
  {
    s.(lookups := s.lookups[l := s.lookups[l].(progress := p)])
  }

  function Apply(s: State, a: Action): State
    requires Enabled(s, a)
  {
    match a
    case Begin(l, kid) =>
      var progress := if kid == "" then Refused else Looking;
      s.(lookups := s.lookups[l := Lookup(kid, |s.versions| - 1, s.started, progress)])
    case FirstRead(l) =>
      var kid := s.lookups[l].kid;
      if kid in Current(s) then Goto(s, l, Found(Current(s)[kid], |s.versions| - 1)) else Goto(s, l, Missed)
    case EmergencyRefresh(l) => Goto(Join(s), l, Refreshing(Join(s).group.value))
    case TickerRefresh => Join(s)
    case Respond(id, response) =>
      var done := s.(fetching := s.fetching - {id}, answered := s.answered + {id},
                     answers := s.answers[id := response]);
      if Succeeds(response) then
        done.(versions := s.versions + [ValidKeys(response.value)], installs := s.installs + [id])
      else
        done
    case Release(id) => s.(answered := s.answered - {id}, group := if s.group == Some(id) then None else s.group)
    case Wake(l) =>
      var id := s.lookups[l].progress.id;
      Goto(s, l, if Succeeds(s.answers[id]) then Refreshed(id) else RefreshFailed(id))
    case SecondRead(l) =>
      var kid := s.lookups[l].kid;
      if kid in Current(s) then Goto(s, l, Found(Current(s)[kid], |s.versions| - 1))
      else Goto(s, l, NotFound(|s.versions| - 1))
  }

  predicate Possible(s: State, run: seq<Action>)
    decreases |run|
  {
    run != [] ==> Enabled(s, run[0]) && Possible(Apply(s, run[0]), run[1..])
  }

  function After(s: State, run: seq<Action>): State
    requires Possible(s, run)
    decreases |run|
  {
    if run == [] then s else After(Apply(s, run[0]), run[1..])
  }

  // ---- What every interleaving keeps ----

  /**
    Every version is the non-empty valid-key map of one response, and versions follow the order in
    which fetches started.
   */
  predicate CacheInv(s: State) {
    && |s.versions| == |s.installs| > 0
    && (forall v :: 0 <= v < |s.versions| ==>
          && s.versions[v] != map[]
          && s.installs[v] in s.answers && s.answers[s.installs[v]].Some?
          && s.versions[v] == ValidKeys(s.answers[s.installs[v]].value))
    && (forall v, w :: 0 <= v < w < |s.installs| ==> s.installs[v] < s.installs[w])
  }

  /** One fetch at a time: the only one running is the group's, it is the newest, and its predecessors are settled. */
  predicate FlightInv(s: State) {
    && s.fetching + s.answered == (if s.group.Some? then {s.group.value} else {}) && s.fetching !! s.answered
    && (s.group.Some? ==> s.group.value + 1 == s.started)
    && (forall v :: 0 <= v < |s.installs| ==> s.installs[v] < s.started)
    && (forall id :: id in s.fetching ==>
          id !in s.answers && forall v :: 0 <= v < |s.installs| ==> s.installs[v] < id)
    && (forall id :: id in s.answers ==> id < s.started && (Succeeds(s.answers[id]) <==> id in s.installs))
    && (forall id: nat :: id < s.started ==> id in s.answers || id in s.fetching)
  }

  /** A key handed out is the one of the version that was current when it was read, during the call. */
  predicate FoundDuring(s: State, l: Lookup) {
    l.progress.Found? ==>
      var v := l.progress.version;
      l.since <= v < |s.versions| && l.kid in s.versions[v] && s.versions[v][l.kid] == l.progress.key
  }

  /** A lookup that went on to refresh had read a version, during the call, that lacked the key. */
  predicate MissedDuring(s: State, l: Lookup) {
    !l.progress.Refused? && !l.progress.Looking? && !l.progress.Found? ==>
      exists v :: l.since <= v < |s.versions| && l.kid !in s.versions[v]
  }

  /** A lookup waits for a fetch no older than the one in flight when it began. */
  predicate Recent(s: State, l: Lookup) {
    && l.since < |s.versions| && l.startedBefore <= s.started && (l.progress.Refused? <==> l.kid == "")
    && (l.progress.Refreshing? || l.progress.Refreshed? ==> l.startedBefore <= l.progress.id + 1 <= s.started)
    && (l.progress.Refreshed? ==> l.progress.id in s.installs)
    && (l.progress.RefreshFailed? ==>
          && l.startedBefore <= l.progress.id + 1 && l.progress.id in s.answers
          && !Succeeds(s.answers[l.progress.id]))
    && (l.progress.NotFound? ==>
          && l.since <= l.progress.version < |s.versions| == |s.installs|
          && l.startedBefore <= s.installs[l.progress.version] + 1
          && l.kid !in s.versions[l.progress.version])
  }

  predicate Told(s: State, l: Lookup) {
    FoundDuring(s, l) && MissedDuring(s, l) && Recent(s, l)
  }

  predicate LookupInv(s: State) {
    forall l :: l in s.lookups ==> Told(s, s.lookups[l])
  }

  predicate Inv(s: State) {
    CacheInv(s) && FlightInv(s) && LookupInv(s)
  }

  lemma {:induction false} CacheStep(s: State, a: Action)
    requires CacheInv(s) && FlightInv(s) && Enabled(s, a)
    ensures CacheInv(Apply(s, a)) && FlightInv(Apply(s, a))
  {
    if a.Respond? {
      RespondStep(s, a.id, a.response);
    } else if a.Release? {
      ReleaseStep(s, a.id);
    } else if a.EmergencyRefresh? || a.TickerRefresh? {
      JoinStep(s);
      CacheFrame(Join(s), Apply(s, a));
    } else {
      CacheFrame(s, Apply(s, a));
    }
  }

  /** Cache and flight do not depend on the lookups. */
  lemma {:induction false} CacheFrame(s: State, next: State)
    requires CacheInv(s) && FlightInv(s) && next == s.(lookups := next.lookups)
    ensures CacheInv(next) && FlightInv(next)
  {
  }

  lemma {:induction false} JoinStep(s: State)
    requires CacheInv(s) && FlightInv(s)
    ensures CacheInv(Join(s)) && FlightInv(Join(s))
  {
  }

  lemma {:induction false} ReleaseStep(s: State, id: nat)
    requires CacheInv(s) && FlightInv(s) && Enabled(s, Release(id))
    ensures CacheInv(Apply(s, Release(id))) && FlightInv(Apply(s, Release(id)))
  {
    assert id in s.fetching + s.answered;
  }

  lemma {:induction false} RespondStep(s: State, id: nat, response: Option<seq<Jwk>>)
    requires CacheInv(s) && FlightInv(s) && Enabled(s, Respond(id, response))
    ensures CacheInv(Apply(s, Respond(id, response))) && FlightInv(Apply(s, Respond(id, response)))
  {
    var next := Apply(s, Respond(id, response));
    assert next.fetching + next.answered == s.fetching + s.answered;
    if next.installs != s.installs {
      InstallKeepsCache(s, id, response.value);
      InstallKeepsFlight(s, id, response.value);
    }
  }

  lemma {:induction false} InstallKeepsCache(s: State, id: nat, keys: seq<Jwk>)
    requires CacheInv(s) && FlightInv(s) && Enabled(s, Respond(id, Some(keys))) && ValidKeys(keys) != map[]
    ensures CacheInv(Apply(s, Respond(id, Some(keys))))
  {
    var next := Apply(s, Respond(id, Some(keys)));
    assert forall v :: 0 <= v < |s.installs| ==> next.installs[v] == s.installs[v] && s.installs[v] != id;
  }

  lemma {:induction false} InstallKeepsFlight(s: State, id: nat, keys: seq<Jwk>)
    requires CacheInv(s) && FlightInv(s) && Enabled(s, Respond(id, Some(keys))) && ValidKeys(keys) != map[]
    ensures FlightInv(Apply(s, Respond(id, Some(keys))))
  {
    var next := Apply(s, Respond(id, Some(keys)));
    assert id in s.fetching + s.answered;
    assert next.fetching + next.answered == s.fetching + s.answered;
    assert next.installs[|s.installs|] == id;
    forall k | k in s.answers ensures k in next.installs <==> k in s.installs {
    }
  }

  /** Versions, fetches and answers are only added. */
  ghost predicate Grows(s: State, next: State) {
    && s.versions <= next.versions && s.installs <= next.installs && s.started <= next.started
    && |s.versions| == |s.installs| && |next.versions| == |next.installs|
    && forall id :: id in s.answers ==> id in next.answers && next.answers[id] == s.answers[id]
  }

  lemma {:induction false} StepGrows(s: State, a: Action)
    requires |s.versions| == |s.installs| && Enabled(s, a) && forall id :: id in s.fetching ==> id !in s.answers
    ensures Grows(s, Apply(s, a))
  {
  }

  /** Lookups are unharmed by such steps. */
  lemma {:induction false} LookupFrame(s: State, next: State, l: Lookup)
    requires Told(s, l) && Grows(s, next)
    ensures Told(next, l)
  {
    if !l.progress.Refused? && !l.progress.Looking? && !l.progress.Found? {
      var v :| l.since <= v < |s.versions| && l.kid !in s.versions[v];
      assert l.kid !in next.versions[v];
    }
    if l.progress.Found? {
      assert next.versions[l.progress.version] == s.versions[l.progress.version];
    }
  }

  /** The newest install is at least as recent as any install. */
  lemma {:induction false} NewestInstall(s: State, id: nat)
    requires CacheInv(s) && id in s.installs
    ensures id <= s.installs[|s.installs| - 1]
  {
  }

  lemma {:induction false} LookupStep(s: State, a: Action)
    requires Inv(s) && Enabled(s, a)
    ensures LookupInv(Apply(s, a))
  {
    var next := Apply(s, a);
    StepGrows(s, a);
    forall l | l in next.lookups ensures Told(next, next.lookups[l]) {
      if l in s.lookups && next.lookups[l] == s.lookups[l] {
        LookupFrame(s, next, s.lookups[l]);
      } else {
        MovedLookup(s, a, l);
      }
    }
  }

  /** Only its own step changes a lookup. */
  lemma {:induction false} OwnStep(s: State, a: Action, l: nat)
    requires Enabled(s, a) && l in Apply(s, a).lookups
    requires !(l in s.lookups && Apply(s, a).lookups[l] == s.lookups[l])
    ensures a in {FirstRead(l), EmergencyRefresh(l), Wake(l), SecondRead(l)} || (a.Begin? && a.l == l)
  {
  }

  lemma {:induction false} MovedLookup(s: State, a: Action, l: nat)
    requires CacheInv(s) && FlightInv(s) && Enabled(s, a) && (l in s.lookups ==> Told(s, s.lookups[l]))
    requires l in Apply(s, a).lookups && !(l in s.lookups && Apply(s, a).lookups[l] == s.lookups[l])
    ensures Told(Apply(s, a), Apply(s, a).lookups[l])
  {
    OwnStep(s, a, l);
    if a == FirstRead(l) {
      FirstReadStep(s, l);
    } else if a == SecondRead(l) {
      NewestInstall(s, s.lookups[l].progress.id);
      SecondReadStep(s, l);
    } else if a == EmergencyRefresh(l) {
      JoinedLookup(s, l);
    } else if a == Wake(l) {
      WokenLookup(s, l);
    }
  }

  lemma {:induction false} JoinedLookup(s: State, l: nat)
    requires FlightInv(s) && Enabled(s, EmergencyRefresh(l)) && Told(s, s.lookups[l])
    ensures Told(Apply(s, EmergencyRefresh(l)), Apply(s, EmergencyRefresh(l)).lookups[l])
  {
  }

  lemma {:induction false} WokenLookup(s: State, l: nat)
    requires FlightInv(s) && Enabled(s, Wake(l)) && Told(s, s.lookups[l])
    ensures Told(Apply(s, Wake(l)), Apply(s, Wake(l)).lookups[l])
  {
  }

  /** A read hands out what is current, during the call. */
  lemma {:induction false} FirstReadStep(s: State, l: nat)
    requires Enabled(s, FirstRead(l)) && Told(s, s.lookups[l])
    ensures Told(Apply(s, FirstRead(l)), Apply(s, FirstRead(l)).lookups[l])
  {
    assert s.versions[|s.versions| - 1] == Current(s);
  }

  lemma {:induction false} SecondReadStep(s: State, l: nat)
    requires Enabled(s, SecondRead(l)) && Told(s, s.lookups[l]) && |s.versions| == |s.installs|
    requires s.lookups[l].progress.id <= s.installs[|s.installs| - 1]
    ensures Told(Apply(s, SecondRead(l)), Apply(s, SecondRead(l)).lookups[l])
  {
    assert s.versions[|s.versions| - 1] == Current(s);
  }

  lemma {:induction false} RunKeepsInv(s: State, run: seq<Action>)
    requires Inv(s) && Possible(s, run)
    ensures Inv(After(s, run))
    decreases |run|
  {
    if run == [] {
    } else {
      CacheStep(s, run[0]);
      LookupStep(s, run[0]);
      RunKeepsInv(Apply(s, run[0]), run[1..]);
    }
  }

  lemma {:induction false} EveryRunKeepsInv(first: seq<Jwk>, run: seq<Action>)
    requires ValidKeys(first) != map[] && Possible(Constructed(first), run)
    ensures Inv(After(Constructed(first), run))
  {
    assert Inv(Constructed(first));
    RunKeepsInv(Constructed(first), run);
  }

  /**
    After construction, in every interleaving: at most one request is out, the cache is the non-empty
    valid-key map of exactly one response, responses were installed in the order their fetches started,
    a key handed out was cached during the call, and a lookup that ends without one read a version that
    lacked the key and whose fetch is no older than the one in flight when it began.
   */
  lemma {:induction false} CacheIsOneResponse(first: seq<Jwk>, run: seq<Action>)
    requires ValidKeys(first) != map[] && Possible(Constructed(first), run)
    ensures var s := After(Constructed(first), run);
            && |s.versions| == |s.installs| > 0
            && Current(s) != map[]
            && s.installs[|s.installs| - 1] in s.answers && s.answers[s.installs[|s.installs| - 1]].Some?
            && Current(s) == ValidKeys(s.answers[s.installs[|s.installs| - 1]].value)
            && (forall id :: id in s.answers ==> (Succeeds(s.answers[id]) <==> id in s.installs))
            && (forall v, w :: 0 <= v < w < |s.installs| ==> s.installs[v] < s.installs[w])
            && |s.fetching| <= 1
            && (forall l :: l in s.lookups ==> Told(s, s.lookups[l]))
  {
    EveryRunKeepsInv(first, run);
    var s := After(Constructed(first), run);
    if s.fetching != {} {
      assert s.fetching == {s.group.value};
    }
  }

  /** In every interleaving, a key cached from a lookup's start on is handed out, whatever the server answers. */
  lemma {:induction false} CachedKeyIsFound(first: seq<Jwk>, run: seq<Action>, l: nat)
    requires ValidKeys(first) != map[] && Possible(Constructed(first), run)
    requires var s := After(Constructed(first), run);
             && l in s.lookups
             && forall v :: s.lookups[l].since <= v < |s.versions| ==> s.lookups[l].kid in s.versions[v]
    ensures var progress := After(Constructed(first), run).lookups[l].progress;
            progress.Looking? || progress.Found?
  {
    EveryRunKeepsInv(first, run);
    var s := After(Constructed(first), run);
    var lookup := s.lookups[l];
    assert Told(s, lookup);
    LastValidEntryWins(s.answers[s.installs[lookup.since]].value, lookup.kid);
  }

  // ---- A lookup does not hang ----

  predicate Over(p: Progress) {
    p.Refused? || p.Found? || p.NotFound? || p.RefreshFailed?
  }

  function Rank(p: Progress): nat {
    match p
    case Looking => 4
    case Missed => 3
    case Refreshing(_) => 2
    case Refreshed(_) => 1
    case _ => 0
  }

  /** What brings a lookup on: its own step, the server's answer or the release of the waiters. */
  function NextStep(s: State, l: nat): Action
    requires l in s.lookups
  {
    match s.lookups[l].progress
    case Looking => FirstRead(l)
    case Missed => EmergencyRefresh(l)
    case Refreshing(id) =>
      if id in s.fetching then Respond(id, None) else if s.group == Some(id) then Release(id) else Wake(l)
    case _ => SecondRead(l)
  }

  lemma {:induction false} CanEnd(s: State, l: nat) returns (more: seq<Action>)
    requires Inv(s) && l in s.lookups
    ensures Possible(s, more) && l in After(s, more).lookups && Over(After(s, more).lookups[l].progress)
    decreases Rank(s.lookups[l].progress), |s.fetching|, if s.group.Some? then 1 else 0
  {
    var p := s.lookups[l].progress;
    if Over(p) {
      more := [];
    } else {
      var a := NextStep(s, l);
      NextStepEnabled(s, l);
      CacheStep(s, a);
      LookupStep(s, a);
      var rest := CanEnd(Apply(s, a), l);
      Chain(s, a, rest);
      more := [a] + rest;
    }
  }

  /** The step can be taken, and brings the lookup, its fetch or the group on. */
  ghost predicate Advances(s: State, l: nat, a: Action)
    requires l in s.lookups
  {
    && Enabled(s, a)
    && var next := Apply(s, a);
    && l in next.lookups
    && (|| Rank(next.lookups[l].progress) < Rank(s.lookups[l].progress)
        || (next.lookups[l] == s.lookups[l]
            && (|| |next.fetching| < |s.fetching|
                || (next.fetching == s.fetching && s.group.Some? && next.group.None?))))
  }

  lemma {:induction false} NextStepEnabled(s: State, l: nat)
    requires Inv(s) && l in s.lookups && !Over(s.lookups[l].progress)
    ensures Advances(s, l, NextStep(s, l))
  {
    var p := s.lookups[l].progress;
    if p.Refreshing? {
      assert Told(s, s.lookups[l]);
      assert p.id in s.answers || p.id in s.fetching;
      RefreshAdvances(s, l);
    } else {
      OwnStepAdvances(s, l);
    }
  }

  lemma {:induction false} OwnStepAdvances(s: State, l: nat)
    requires s.versions != [] && l in s.lookups
    requires !Over(s.lookups[l].progress) && !s.lookups[l].progress.Refreshing?
    ensures Advances(s, l, NextStep(s, l))
  {
    match s.lookups[l].progress {
      case Looking => FirstReadAdvances(s, l);
      case Missed => JoinAdvances(s, l);
      case _ => SecondReadAdvances(s, l);
    }
  }

  lemma {:induction false} FirstReadAdvances(s: State, l: nat)
    requires s.versions != [] && At(s, l, Looking)
    ensures Advances(s, l, FirstRead(l))
  {
    assert Rank(Apply(s, FirstRead(l)).lookups[l].progress) < 4;
  }

  lemma {:induction false} JoinAdvances(s: State, l: nat)
    requires s.versions != [] && At(s, l, Missed)
    ensures Advances(s, l, EmergencyRefresh(l))
  {
    assert Rank(Apply(s, EmergencyRefresh(l)).lookups[l].progress) == 2;
  }

  lemma {:induction false} SecondReadAdvances(s: State, l: nat)
    requires s.versions != [] && l in s.lookups && s.lookups[l].progress.Refreshed?
    ensures Advances(s, l, SecondRead(l))
  {
    assert Rank(Apply(s, SecondRead(l)).lookups[l].progress) == 0;
  }

  lemma {:induction false} RefreshAdvances(s: State, l: nat)
    requires s.versions != [] && FlightInv(s) && l in s.lookups && s.lookups[l].progress.Refreshing?
    requires s.lookups[l].progress.id in s.answers || s.lookups[l].progress.id in s.fetching
    ensures Advances(s, l, NextStep(s, l))
  {
    var id := s.lookups[l].progress.id;
    if id in s.fetching {
      AnswerAdvances(s, l, id);
    } else if s.group == Some(id) {
      assert id in s.fetching + s.answered;
      assert Apply(s, Release(id)).group.None?;
    } else {
      WakeAdvances(s, l);
    }
  }

  lemma {:induction false} AnswerAdvances(s: State, l: nat, id: nat)
    requires s.versions != [] && l in s.lookups && id in s.fetching
    ensures Advances(s, l, Respond(id, None))
  {
    assert s.fetching == (s.fetching - {id}) + {id};
  }

  lemma {:induction false} WakeAdvances(s: State, l: nat)
    requires s.versions != [] && l in s.lookups && s.lookups[l].progress.Refreshing?
    requires s.lookups[l].progress.id in s.answers && s.group != Some(s.lookups[l].progress.id)
    ensures Advances(s, l, Wake(l))
  {
  }

  /** From every state of every interleaving, a lookup that has begun can still end. */
  lemma {:induction false} LookupCanEnd(first: seq<Jwk>, run: seq<Action>, l: nat)
    requires ValidKeys(first) != map[] && Possible(Constructed(first), run)
    requires l in After(Constructed(first), run).lookups
    ensures var s := After(Constructed(first), run);
            exists more: seq<Action> ::
              Possible(s, more) && l in After(s, more).lookups && Over(After(s, more).lookups[l].progress)
  {
    EveryRunKeepsInv(first, run);
    var more := CanEnd(After(Constructed(first), run), l);
  }

  /**
    In every interleaving, a missed lookup waits for a fetch older than itself exactly when the fetch
    in flight as it joins is the one that was in flight, or had been the last, when it began.
   */
  lemma {:induction false} StaleJoinExactly(first: seq<Jwk>, run: seq<Action>, l: nat)
    requires ValidKeys(first) != map[] && Possible(Constructed(first), run)
    requires At(After(Constructed(first), run), l, Missed)
    ensures var s := After(Constructed(first), run);
            && Enabled(s, EmergencyRefresh(l))
            && var joined := Apply(s, EmergencyRefresh(l)).lookups[l];
            && joined.progress == Refreshing(joined.progress.id)
            && (joined.progress.id < joined.startedBefore <==>
                  s.group.Some? && s.group.value + 1 == joined.startedBefore)
  {
    EveryRunKeepsInv(first, run);
    var s := After(Constructed(first), run);
    assert Recent(s, s.lookups[l]);
  }

  lemma {:induction false} Chain(s: State, a: Action, rest: seq<Action>)
    requires Enabled(s, a) && Possible(Apply(s, a), rest)
    ensures Possible(s, [a] + rest) && After(s, [a] + rest) == After(Apply(s, a), rest)
  {
    assert ([a] + rest)[1..] == rest;
  }

  /**
    The bound on staleness is reached: an emergency refresh may join a fetch started before the
    lookup began, and then give up on a key without any request made for it.
   */
  lemma {:induction false} RefreshMayPredateLookup(first: seq<Jwk>, kid: string)
    requires ValidKeys(first) != map[] && kid != "" && kid !in ValidKeys(first)
    ensures exists run: seq<Action> ::
              && Possible(Constructed(first), run)
              && var s := After(Constructed(first), run);
                 && 0 in s.lookups && s.lookups[0].progress == NotFound(1) && |s.installs| == 2
                 && s.installs[1] + 1 == s.lookups[0].startedBefore
  {
    var joining := ReachJoined(first, kid);
    var giveUp := JoinOlderFetch(first, kid);
    RunAppend(Constructed(first), joining, giveUp);
  }

  lemma {:induction false} ReachJoined(first: seq<Jwk>, kid: string) returns (run: seq<Action>)
    requires kid != "" && kid !in ValidKeys(first)
    ensures Possible(Constructed(first), run) && After(Constructed(first), run) == Joined(first, kid)
  {
    var s0 := Constructed(first);
    var s1 := Apply(s0, TickerRefresh);
    var s2 := Apply(s1, Begin(0, kid));
    var s3 := Apply(s2, FirstRead(0));
    var s4 := Apply(s3, EmergencyRefresh(0));
    assert s4.lookups == map[0 := Lookup(kid, 0, 2, Refreshing(1))];
    Chain(s3, EmergencyRefresh(0), []);
    Chain(s2, FirstRead(0), [EmergencyRefresh(0)] + []);
    Chain(s1, Begin(0, kid), [FirstRead(0)] + ([EmergencyRefresh(0)] + []));
    Chain(s0, TickerRefresh, [Begin(0, kid)] + ([FirstRead(0)] + ([EmergencyRefresh(0)] + [])));
    run := [TickerRefresh] + ([Begin(0, kid)] + ([FirstRead(0)] + ([EmergencyRefresh(0)] + [])));
    assert After(s0, run) == s4;
  }

  lemma {:induction false} RunAppend(s: State, first: seq<Action>, second: seq<Action>)
    requires Possible(s, first) && Possible(After(s, first), second)
    ensures Possible(s, first + second) && After(s, first + second) == After(After(s, first), second)
    decreases |first|
  {
    if first == [] {
      assert first + second == second;
    } else {
      RunAppend(Apply(s, first[0]), first[1..], second);
      assert (first + second)[1..] == first[1..] + second;
    }
  }

  /** A lookup that joined fetch 1, started when one fetch was already in flight. */
  function Joined(first: seq<Jwk>, kid: string): State {
    Constructed(first).(started := 2, group := Some(1), fetching := {1},
                        lookups := map[0 := Lookup(kid, 0, 2, Refreshing(1))])
  }

  lemma {:induction false} JoinOlderFetch(first: seq<Jwk>, kid: string) returns (run: seq<Action>)
    requires ValidKeys(first) != map[] && kid !in ValidKeys(first)
    ensures Possible(Joined(first, kid), run)
    ensures var s := After(Joined(first, kid), run);
            && 0 in s.lookups && s.lookups[0].progress == NotFound(1) && |s.installs| == 2
            && s.installs[1] + 1 == s.lookups[0].startedBefore
  {
    var s0 := Joined(first, kid);
    var s1 := Apply(s0, Respond(1, Some(first)));
    var s2 := Apply(s1, Release(1));
    var s3 := Apply(s2, Wake(0));
    var s4 := Apply(s3, SecondRead(0));
    Chain(s3, SecondRead(0), []);
    Chain(s2, Wake(0), [SecondRead(0)] + []);
    Chain(s1, Release(1), [Wake(0)] + ([SecondRead(0)] + []));
    run := [Respond(1, Some(first))] + ([Release(1)] + ([Wake(0)] + ([SecondRead(0)] + [])));
    Chain(s0, Respond(1, Some(first)), [Release(1)] + ([Wake(0)] + ([SecondRead(0)] + [])));
    assert After(s0, run) == s4;
  }
}
