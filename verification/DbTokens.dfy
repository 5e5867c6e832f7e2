/** The database token store: at most five tokens per login, behind a cache the writers evict. */
module DbTokens {
  import opened Wrappers
  import opened Tokens

  type Cache = map<string, Option<Token>>

  datatype State = State(repo: Repository, cache: Cache)

  const MAX_OLD_TOKENS := 4

  function OwnIds(repo: Repository, login: string): set<string> {
    set id | id in repo && repo[id].login == login
  }

  predicate Expired(repo: Repository, id: string, now: int)
    requires id in repo
  {
    now >= repo[id].expiration
  }

  predicate Earliest(repo: Repository, ids: set<string>, id: string)
    requires ids <= repo.Keys
  {
    id in ids && forall other | other in ids :: repo[id].expiration <= repo[other].expiration
  }

  /** What `actualizeCurToken` may delete: one earliest token of a full login, and all expired ones. */
  ghost predicate IsPurge(repo: Repository, login: string, now: int, deleted: set<string>) {
    var own := OwnIds(repo, login);
    if |own| > MAX_OLD_TOKENS then
      exists oldest | Earliest(repo, own, oldest) ::
        deleted == {oldest} + set id | id in own - {oldest} && Expired(repo, id, now)
    else deleted == set id | id in own && Expired(repo, id, now)
  }

  // ---------------------------------------------------------------- the store

  class DbTokenStorage {
    var tokenRepository: Repository
    var cache: Cache

    function Current(): State
      reads this
    {
      State(tokenRepository, cache)
    }

    constructor ()
      ensures Current() == State(map[], map[])
    {
      tokenRepository, cache := map[], map[];
    }

    /** `@Cacheable`: an answered lookup, absence included, is remembered. */
    method GetToken(id: string) returns (found: Option<Token>)
      modifies this
      ensures found == Read(old(Current()), id)
      ensures Current() == State(old(tokenRepository), old(cache)[id := found])
    {
      if id in cache {
        found := cache[id];
        assert cache[id := found] == cache;
      } else {
        found := Lookup(tokenRepository, id);
        cache := cache[id := found];
      }
    }

    /**
     * `@CacheEvict` clears the cache only when the insert did not raise; `refused` says that the
     * database turns the insert down.
     */
    method AddToken(token: Token, now: int, refused: bool) returns (r: Result<()>)
      modifies this
      ensures Added(old(Current()), token, now, refused, Current(), r)
    {
      ghost var deleted := ActualizeCurToken(token.login, now);
      if refused {
        return Err(DataAccess);
      }
      if token.id in tokenRepository {
        return Err(DuplicateKey);
      }
      tokenRepository := tokenRepository[token.id := token];
      cache := map[];
      r := Ok(());
    }

    method ActualizeCurToken(login: string, now: int) returns (ghost deleted: set<string>)
      modifies this
      ensures IsPurge(old(tokenRepository), login, now, deleted)
      ensures Current() == State(old(tokenRepository) - deleted, old(cache))
    {
      var oldTokens := OwnIds(tokenRepository, login);
      var delTokens: set<string> := {};
      if |oldTokens| > MAX_OLD_TOKENS {
        var olderToken := FindEarliest(tokenRepository, oldTokens);
        delTokens := {olderToken};
        oldTokens := oldTokens - {olderToken};
      }
      delTokens := delTokens + set id | id in oldTokens && Expired(tokenRepository, id, now);
      tokenRepository := tokenRepository - delTokens;
      deleted := delTokens;
    }

    method RemoveToken(token: Token)
      modifies this
      ensures Current() == State(old(tokenRepository) - {token.id}, map[])
    {
      tokenRepository := tokenRepository - {token.id};
      cache := map[];
    }
  }

  /** The minimum of a hash set by expiration, whichever of equal ones is met first. */
  method FindEarliest(repo: Repository, ids: set<string>) returns (id: string)
    requires ids <= repo.Keys && ids != {}
    ensures Earliest(repo, ids, id)
  {
    id :| id in ids;
    var rest := ids - {id};
    while rest != {}
      invariant rest <= ids && id in ids - rest
      invariant forall other | other in ids - rest :: repo[id].expiration <= repo[other].expiration
      decreases rest
    {
      var next :| next in rest;
      if repo[next].expiration < repo[id].expiration {
        id := next;
      }
      rest := rest - {next};
    }
  }

  function Read(s: State, id: string): Option<Token> {
    if id in s.cache then s.cache[id] else Lookup(s.repo, id)
  }

  /** The outcome of a create once the purge has deleted its tokens. */
  predicate AddedAfter(s: State, token: Token, refused: bool, deleted: set<string>, s': State, r: Result<()>) {
    var purged := s.repo - deleted;
    if refused then r == Err(DataAccess) && s' == State(purged, s.cache)
    else if token.id in purged then r == Err(DuplicateKey) && s' == State(purged, s.cache)
    else r == Ok(()) && s' == State(purged[token.id := token], map[])
  }

  ghost predicate Added(s: State, token: Token, now: int, refused: bool, s': State, r: Result<()>) {
    exists deleted | IsPurge(s.repo, token.login, now, deleted) :: AddedAfter(s, token, refused, deleted, s', r)
  }

  /** A manager lookup: an expired token is removed, and the removal evicts the cache. */
  predicate Asked(s: State, id: string, now: int, s': State, answer: Answer) {
    var found := Read(s, id);
    && answer == Judge(found, now)
    && s' == if answer.ExpiredToken? then State(s.repo - {found.value.id}, map[]) else s.(cache := s.cache[id := found])
  }

  class TokenManager {
    const tokenStorage: DbTokenStorage

    constructor (tokenStorage: DbTokenStorage)
      ensures this.tokenStorage == tokenStorage
    {
      this.tokenStorage := tokenStorage;
    }

    method CreateToken(token: Token, now: int, refused: bool) returns (r: Result<()>)
      modifies tokenStorage
      ensures Added(old(tokenStorage.Current()), token, now, refused, tokenStorage.Current(), r)
    {
      r := tokenStorage.AddToken(token, now, refused);
    }

    method GetToken(id: string, now: int) returns (answer: Answer)
      modifies tokenStorage
      ensures Asked(old(tokenStorage.Current()), id, now, tokenStorage.Current(), answer)
    {
      var token := tokenStorage.GetToken(id);
      if token.None? {
        return NoToken;
      }
      if token.value.expiration < now {
        tokenStorage.RemoveToken(token.value);
        return ExpiredToken;
      }
      answer := Valid(token.value);
    }
  }

  // ---------------------------------------------------------------- what a purge deletes

  /** Survivors of the login are unexpired, and other logins lose nothing. */
  lemma PurgeKeeps(repo: Repository, login: string, now: int, deleted: set<string>)
    requires IsPurge(repo, login, now, deleted)
    ensures deleted <= OwnIds(repo, login)
    ensures forall id | id in OwnIds(repo - deleted, login) :: !Expired(repo, id, now)
    ensures OwnIds(repo - deleted, login) == OwnIds(repo, login) - deleted
    ensures forall other | other != login :: OwnIds(repo - deleted, other) == OwnIds(repo, other)
  {}

  /**
   * An unexpired token is deleted only when the login is full and none of its tokens has expired; it is
   * then one with the earliest expiration, and the only one deleted.
   */
  lemma PurgeOfUnexpired(repo: Repository, login: string, now: int, deleted: set<string>, id: string)
    requires IsPurge(repo, login, now, deleted) && id in deleted && !Expired(repo, id, now)
    ensures |OwnIds(repo, login)| >= 5
    ensures forall other | other in OwnIds(repo, login) :: !Expired(repo, other, now)
    ensures forall other | other in OwnIds(repo, login) :: repo[id].expiration <= repo[other].expiration
    ensures id in OwnIds(repo, login) && deleted == {id}
  {
    var own := OwnIds(repo, login);
    var oldest :| Earliest(repo, own, oldest)
                  && deleted == {oldest} + set i | i in own - {oldest} && Expired(repo, i, now);
    assert id == oldest;
    forall other | other in own ensures !Expired(repo, other, now) {
      assert repo[oldest].expiration <= repo[other].expiration;
    }
  }

  lemma PurgeMakesRoom(repo: Repository, login: string, now: int, deleted: set<string>)
    requires IsPurge(repo, login, now, deleted)
    ensures |OwnIds(repo - deleted, login)| <= |OwnIds(repo, login)|
    ensures |OwnIds(repo, login)| > MAX_OLD_TOKENS ==> |OwnIds(repo - deleted, login)| < |OwnIds(repo, login)|
  {
    PurgeKeeps(repo, login, now, deleted);
    var own := OwnIds(repo, login);
    SubsetSize(own - deleted, own);
    if |own| > MAX_OLD_TOKENS {
      var oldest :| Earliest(repo, own, oldest) && oldest in deleted;
      SubsetSize(own - deleted, own - {oldest});
    }
  }

  lemma {:induction false} EarliestExists(repo: Repository, ids: set<string>) returns (id: string)
    requires ids <= repo.Keys && ids != {}
    ensures Earliest(repo, ids, id)
    decreases ids
  {
    id :| id in ids;
    if ids != {id} {
      var other := EarliestExists(repo, ids - {id});
      if repo[other].expiration < repo[id].expiration {
        id := other;
      }
    }
  }

  /** A purge may choose to delete the token. */
  predicate MayPurge(repo: Repository, login: string, now: int, id: string) {
    var own := OwnIds(repo, login);
    id in own && (Expired(repo, id, now) || (|own| > MAX_OLD_TOKENS && Earliest(repo, own, id)))
  }

  /** Exactly which tokens some purge deletes: the expired ones, and of a full login those of earliest expiration. */
  lemma PurgedBySomeIff(repo: Repository, login: string, now: int, id: string)
    ensures MayPurge(repo, login, now, id) <==> exists deleted :: IsPurge(repo, login, now, deleted) && id in deleted
  {
    var own := OwnIds(repo, login);
    if MayPurge(repo, login, now, id) {
      var oldest := id;
      if |own| > MAX_OLD_TOKENS && !Earliest(repo, own, id) {
        oldest := EarliestExists(repo, own);
      }
      var first := if |own| > MAX_OLD_TOKENS then {oldest} else {};
      var deleted := first + set i | i in own - first && Expired(repo, i, now);
      assert IsPurge(repo, login, now, deleted) && id in deleted;
    }
  }

  lemma SubsetSize<T>(a: set<T>, b: set<T>)
    requires a <= b
    ensures |a| <= |b|
  {
    assert b == a + (b - a);
  }

  // ---------------------------------------------------------------- what every call keeps

  const CAP := 5

  ghost predicate Capped(repo: Repository) {
    forall login :: |OwnIds(repo, login)| <= CAP
  }

  predicate KeyedById(repo: Repository) {
    forall id | id in repo :: repo[id].id == id
  }

  /** Every cached answer, absence included, is the repository's. */
  predicate Coherent(s: State) {
    forall id | id in s.cache :: s.cache[id] == Lookup(s.repo, id)
  }

  /** A token is cached under its own id. */
  predicate CacheKeyed(s: State) {
    forall id | id in s.cache && s.cache[id].Some? :: s.cache[id].value.id == id
  }

  /** What every call keeps, whether the database refuses inserts or not. */
  ghost predicate Invariant(s: State) {
    Capped(s.repo) && KeyedById(s.repo) && CacheKeyed(s)
  }

  lemma InsertOwn(repo: Repository, token: Token, login: string)
    requires token.id !in repo
    ensures OwnIds(repo[token.id := token], login) ==
            OwnIds(repo, login) + if token.login == login then {token.id} else {}
  {}

  /** A create keeps the cap: a login that was within it stays within it, whatever its tokens. */
  lemma AddKeepsCap(s: State, token: Token, now: int, refused: bool, s': State, r: Result<()>)
    requires Added(s, token, now, refused, s', r) && Capped(s.repo)
    ensures Capped(s'.repo)
  {
    var deleted :| IsPurge(s.repo, token.login, now, deleted) && AddedAfter(s, token, refused, deleted, s', r);
    PurgeKeeps(s.repo, token.login, now, deleted);
    PurgeMakesRoom(s.repo, token.login, now, deleted);
    forall login ensures |OwnIds(s'.repo, login)| <= CAP {
      if token.id !in s.repo - deleted {
        InsertOwn(s.repo - deleted, token, login);
      }
    }
  }

  /** After a successful create every older survivor of the login is unexpired. */
  lemma SurvivorsUnexpired(s: State, token: Token, now: int, refused: bool, s': State, r: Result<()>)
    requires Added(s, token, now, refused, s', r) && r.Ok?
    ensures token.id in s'.repo && s'.repo[token.id] == token
    ensures forall id | id in OwnIds(s'.repo, token.login) && id != token.id ::
              id in s.repo && s'.repo[id] == s.repo[id] && !Expired(s'.repo, id, now)
  {
    var deleted :| IsPurge(s.repo, token.login, now, deleted) && AddedAfter(s, token, refused, deleted, s', r);
    PurgeKeeps(s.repo, token.login, now, deleted);
    InsertOwn(s.repo - deleted, token, token.login);
    forall id | id in OwnIds(s'.repo, token.login) && id != token.id
      ensures id in s.repo && s'.repo[id] == s.repo[id] && !Expired(s'.repo, id, now)
    {
      assert id in OwnIds(s.repo - deleted, token.login);
    }
  }

  // ---------------------------------------------------------------- a create and the cache

  /** A purge whose insert raises, with a deleted token in the cache. */
  ghost predicate LeavesStale(s: State, token: Token, now: int, refused: bool, deleted: set<string>) {
    && IsPurge(s.repo, token.login, now, deleted)
    && (refused || token.id in s.repo - deleted)
    && exists id :: id in deleted && id in s.cache
  }

  /**
   * Exactly when a create is sure to keep the cache coherent: the purge in front of an insert that
   * raises can delete no cached token.
   */
  lemma AddKeepsCoherenceIff(s: State, token: Token, now: int, refused: bool)
    requires Coherent(s)
    ensures (forall s', r | Added(s, token, now, refused, s', r) :: Coherent(s')) <==>
            !exists deleted :: LeavesStale(s, token, now, refused, deleted)
  {
    if deleted :| LeavesStale(s, token, now, refused, deleted) {
      var id :| id in deleted && id in s.cache;
      PurgeKeeps(s.repo, token.login, now, deleted);
      var s' := State(s.repo - deleted, s.cache);
      var r: Result<()> := Err(if refused then DataAccess else DuplicateKey);
      assert AddedAfter(s, token, refused, deleted, s', r);
      assert Added(s, token, now, refused, s', r);
      assert s'.cache[id] == Lookup(s.repo, id) != Lookup(s'.repo, id);
    } else {
      forall s', r | Added(s, token, now, refused, s', r) ensures Coherent(s') {
        AddedCoherent(s, token, now, refused, s', r);
      }
    }
  }

  lemma AddedCoherent(s: State, token: Token, now: int, refused: bool, s': State, r: Result<()>)
    requires Coherent(s) && Added(s, token, now, refused, s', r)
    requires !exists deleted :: LeavesStale(s, token, now, refused, deleted)
    ensures Coherent(s')
  {
    var deleted :| IsPurge(s.repo, token.login, now, deleted) && AddedAfter(s, token, refused, deleted, s', r);
    if r.Err? {
      assert !LeavesStale(s, token, now, refused, deleted);
      forall id | id in s'.cache ensures s'.cache[id] == Lookup(s'.repo, id) {
        assert id !in deleted;
      }
    }
  }

  /** When the database refuses: exactly when no token that a purge may delete is cached. */
  lemma RefusedKeepsCoherenceIff(s: State, token: Token, now: int)
    requires Coherent(s)
    ensures (forall s', r | Added(s, token, now, true, s', r) :: Coherent(s')) <==>
            forall id | id in s.cache :: !MayPurge(s.repo, token.login, now, id)
  {
    AddKeepsCoherenceIff(s, token, now, true);
    forall id ensures MayPurge(s.repo, token.login, now, id) <==>
                      exists deleted :: IsPurge(s.repo, token.login, now, deleted) && id in deleted
    {
      PurgedBySomeIff(s.repo, token.login, now, id);
    }
    if deleted :| LeavesStale(s, token, now, true, deleted) {
      var id :| id in deleted && id in s.cache;
      assert MayPurge(s.repo, token.login, now, id);
    }
    if id :| id in s.cache && MayPurge(s.repo, token.login, now, id) {
      var deleted :| IsPurge(s.repo, token.login, now, deleted) && id in deleted;
      assert LeavesStale(s, token, now, true, deleted);
    }
  }

  /** One expired, cached token and a refused insert: the cache goes on answering with the purged token. */
  lemma RefusedCreateLeavesStale()
    ensures var first := Token("a", "ann", 5);
            var s, s' := State(map["a" := first], map["a" := Some(first)]), State(map[], map["a" := Some(first)]);
            && Coherent(s) && Added(s, Token("b", "ann", 99), 9, true, s', Err(DataAccess))
            && !Coherent(s') && Read(s', "a") == Some(first) && Lookup(s'.repo, "a") == None
  {
    var first := Token("a", "ann", 5);
    var s := State(map["a" := first], map["a" := Some(first)]);
    assert OwnIds(s.repo, "ann") == {"a"};
    assert IsPurge(s.repo, "ann", 9, {"a"}) by {
      assert {"a"} == set id | id in OwnIds(s.repo, "ann") && Expired(s.repo, id, 9);
    }
    assert s.repo - {"a"} == map[];
    var s' := State(map[], s.cache);
    assert AddedAfter(s, Token("b", "ann", 99), true, {"a"}, s', Err(DataAccess));
    assert s'.cache["a"] != Lookup(s'.repo, "a");
  }

  /** The purge and the manager disagree about a stored token at one instant: the one it expires at. */
  lemma ExpiryInstantIff(repo: Repository, id: string, now: int)
    requires id in repo
    ensures Judge(Lookup(repo, id), now) == Valid(repo[id]) && Expired(repo, id, now) <==> now == repo[id].expiration
    ensures Judge(Lookup(repo, id), now) == ExpiredToken ==> Expired(repo, id, now)
  {}

  // ---------------------------------------------------------------- a lookup

  /**
   * Over a coherent cache: a stored token is answered with that very token up to and at its expiration and
   * reported expired after it, and no token is answered exactly when none is stored under the id.
   */
  lemma AskedAnswer(s: State, id: string, now: int, s': State, answer: Answer)
    requires Asked(s, id, now, s', answer) && Coherent(s) && KeyedById(s.repo)
    ensures answer == NoToken <==> id !in s.repo
    ensures answer == ExpiredToken <==> id in s.repo && s.repo[id].expiration < now
    ensures forall t :: answer == Valid(t) <==> id in s.repo && s.repo[id] == t && now <= t.expiration
    ensures s'.repo == if answer.ExpiredToken? then s.repo - {id} else s.repo
    ensures Coherent(s')
  {}

  /** Whatever the cache holds, no token expired before now is returned, and one reported expired is gone. */
  lemma AskedKeeps(s: State, id: string, now: int, s': State, answer: Answer)
    requires Asked(s, id, now, s', answer) && Invariant(s)
    ensures Invariant(s')
    ensures answer.Valid? ==> now <= answer.token.expiration && answer.token.id == id
    ensures answer.ExpiredToken? ==> id !in s'.repo
    ensures s'.repo.Keys <= s.repo.Keys
  {
    forall login ensures |OwnIds(s'.repo, login)| <= CAP {
      SubsetSize(OwnIds(s'.repo, login), OwnIds(s.repo, login));
    }
  }

  // ---------------------------------------------------------------- runs

  datatype Call = Create(token: Token, now: int, refused: bool) | Ask(id: string, now: int)

  /** One manager call; a created token carries an id never issued before. */
  ghost predicate Step(s: State, issued: set<string>, call: Call, s': State) {
    match call
    case Create(token, now, refused) => token.id !in issued && exists r :: Added(s, token, now, refused, s', r)
    case Ask(id, now) => exists answer :: Asked(s, id, now, s', answer)
  }

  function Issued(calls: seq<Call>): set<string> {
    set c | c in calls && c.Create? :: c.token.id
  }

  predicate NoneRefused(calls: seq<Call>) {
    forall c | c in calls :: c.Create? ==> !c.refused
  }

  /** The states before and after each call, from the empty store. */
  ghost predicate IsRun(states: seq<State>, calls: seq<Call>) {
    && |states| == |calls| + 1
    && states[0] == State(map[], map[])
    && forall i | 0 <= i < |calls| :: Step(states[i], Issued(calls[..i]), calls[i], states[i + 1])
  }

  /** Stored ids, and ids cached with a token, have been issued. */
  predicate OnlyIssued(s: State, issued: set<string>) {
    s.repo.Keys <= issued && forall id | id in s.cache && s.cache[id].Some? :: id in issued
  }

  lemma CreateKeeps(s: State, token: Token, now: int, refused: bool, s': State, r: Result<()>)
    requires Added(s, token, now, refused, s', r) && Invariant(s) && token.id !in s.repo
    ensures Invariant(s') && s'.repo.Keys <= s.repo.Keys + {token.id}
    ensures s'.cache == s.cache || s'.cache == map[]
    ensures !refused && Coherent(s) ==> Coherent(s')
  {
    AddKeepsCap(s, token, now, refused, s', r);
    var deleted :| IsPurge(s.repo, token.login, now, deleted) && AddedAfter(s, token, refused, deleted, s', r);
    assert token.id !in s.repo - deleted;
  }

  lemma StepKeeps(s: State, issued: set<string>, call: Call, s': State)
    requires Step(s, issued, call, s') && Invariant(s) && OnlyIssued(s, issued)
    ensures var issued' := issued + if call.Create? then {call.token.id} else {};
            && Invariant(s') && OnlyIssued(s', issued')
            && s'.repo.Keys <= s.repo.Keys + if call.Create? then {call.token.id} else {}
    ensures (call.Create? ==> !call.refused) && Coherent(s) ==> Coherent(s')
  {
    match call
    case Create(token, now, refused) =>
      var r :| Added(s, token, now, refused, s', r);
      CreateKeeps(s, token, now, refused, s', r);
    case Ask(id, now) =>
      var answer :| Asked(s, id, now, s', answer);
      AskedKeeps(s, id, now, s', answer);
      if Coherent(s) {
        AskedAnswer(s, id, now, s', answer);
      }
  }

  /**
   * In every reachable state a login holds at most five tokens and only issued ids are known; the cache
   * is coherent as long as the database has refused no insert.
   */
  lemma {:induction false} EveryReachableState(states: seq<State>, calls: seq<Call>, i: nat)
    requires IsRun(states, calls) && i <= |calls|
    ensures Invariant(states[i]) && OnlyIssued(states[i], Issued(calls[..i]))
    ensures NoneRefused(calls[..i]) ==> Coherent(states[i])
  {
    if i == 0 {
      EmptyState();
    } else {
      EveryReachableState(states, calls, i - 1);
      ReachesNext(states[i - 1], calls, i - 1, states[i]);
    }
  }

  lemma EmptyState()
    ensures Invariant(State(map[], map[])) && OnlyIssued(State(map[], map[]), {}) && Coherent(State(map[], map[]))
    ensures Issued([]) == {}
  {}

  /** At no moment of a run does a login hold more than five tokens. */
  lemma NeverMoreThanFive(states: seq<State>, calls: seq<Call>, i: nat, login: string)
    requires IsRun(states, calls) && i <= |calls|
    ensures |set id | id in states[i].repo && states[i].repo[id].login == login| <= 5
  {
    EveryReachableState(states, calls, i);
    assert |OwnIds(states[i].repo, login)| <= CAP;
  }

  lemma ReachesNext(s: State, calls: seq<Call>, i: nat, s': State)
    requires i < |calls| && Step(s, Issued(calls[..i]), calls[i], s')
    requires Invariant(s) && OnlyIssued(s, Issued(calls[..i])) && (NoneRefused(calls[..i]) ==> Coherent(s))
    ensures Invariant(s') && OnlyIssued(s', Issued(calls[..i + 1])) && (NoneRefused(calls[..i + 1]) ==> Coherent(s'))
  {
    StepKeeps(s, Issued(calls[..i]), calls[i], s');
    IssuedGrows(calls, i);
    NoneRefusedGrows(calls, i);
  }

  lemma NoneRefusedGrows(calls: seq<Call>, i: nat)
    requires i < |calls|
    ensures NoneRefused(calls[..i + 1]) <==> NoneRefused(calls[..i]) && (calls[i].Create? ==> !calls[i].refused)
  {
    assert calls[..i + 1] == calls[..i] + [calls[i]];
  }

  lemma IssuedGrows(calls: seq<Call>, i: nat)
    requires i < |calls|
    ensures Issued(calls[..i + 1]) == Issued(calls[..i]) + if calls[i].Create? then {calls[i].token.id} else {}
  {
    assert calls[..i + 1] == calls[..i] + [calls[i]];
  }

  lemma IssuedEarlier(calls: seq<Call>, i: nat, j: nat)
    requires i <= j <= |calls|
    ensures Issued(calls[..i]) <= Issued(calls[..j])
  {
    assert calls[..i] <= calls[..j];
  }

  lemma StaysGone(s: State, issued: set<string>, call: Call, s': State, id: string)
    requires Step(s, issued, call, s') && Invariant(s) && OnlyIssued(s, issued)
    requires id in issued && id !in s.repo
    ensures id !in s'.repo
  {
    StepKeeps(s, issued, call, s');
  }

  /** A token that has left the store, purged or expired, is never stored again. */
  lemma {:induction false} GoneForGood(states: seq<State>, calls: seq<Call>, i: nat, j: nat, id: string)
    requires IsRun(states, calls) && i <= j <= |calls|
    requires id in Issued(calls[..i]) && id !in states[i].repo
    ensures id !in states[j].repo
    decreases j
  {
    if i < j {
      GoneForGood(states, calls, i, j - 1, id);
      EveryReachableState(states, calls, j - 1);
      IssuedEarlier(calls, i, j - 1);
      StaysGone(states[j - 1], Issued(calls[..j - 1]), calls[j - 1], states[j], id);
    }
  }

  /**
   * No answer of a run is a token expired before the call, and one reported expired is gone from then
   * on. Until the database refuses an insert, a token stored at that moment is answered with that very token
   * up to and at its expiration and reported expired after it, and no token exactly when none is stored.
   */
  lemma EveryAnswer(states: seq<State>, calls: seq<Call>, i: nat, answer: Answer)
    requires IsRun(states, calls) && i < |calls| && calls[i].Ask?
    requires Asked(states[i], calls[i].id, calls[i].now, states[i + 1], answer)
    ensures answer.Valid? ==> calls[i].now <= answer.token.expiration && answer.token.id == calls[i].id
    ensures answer.ExpiredToken? ==> forall j | i < j <= |calls| :: calls[i].id !in states[j].repo
    ensures NoneRefused(calls[..i]) ==>
              var repo, id, now := states[i].repo, calls[i].id, calls[i].now;
              && (answer == NoToken <==> id !in repo)
              && (answer == ExpiredToken <==> id in repo && repo[id].expiration < now)
              && forall t :: answer == Valid(t) <==> id in repo && repo[id] == t && now <= t.expiration
  {
    var id := calls[i].id;
    EveryReachableState(states, calls, i);
    AskedKeeps(states[i], id, calls[i].now, states[i + 1], answer);
    if NoneRefused(calls[..i]) {
      AskedAnswer(states[i], id, calls[i].now, states[i + 1], answer);
    }
    if answer.ExpiredToken? {
      assert id in Issued(calls[..i]);
      IssuedGrows(calls, i);
      forall j | i < j <= |calls| ensures id !in states[j].repo {
        GoneForGood(states, calls, i + 1, j, id);
      }
    }
  }

  /** A call that leaves a stored token alone: no create for its login, no lookup of it after its expiration. */
  predicate Spares(call: Call, t: Token) {
    match call
    case Create(token, _, _) => token.login != t.login
    case Ask(id, now) => id != t.id || now <= t.expiration
  }

  lemma StepSpares(s: State, issued: set<string>, call: Call, s': State, t: Token)
    requires Step(s, issued, call, s') && Invariant(s) && OnlyIssued(s, issued)
    requires t.id in s.repo && s.repo[t.id] == t && Spares(call, t)
    requires call.Ask? ==> Coherent(s)
    ensures t.id in s'.repo && s'.repo[t.id] == t
  {
    match call
    case Create(token, now, refused) =>
      var r :| Added(s, token, now, refused, s', r);
      var deleted :| IsPurge(s.repo, token.login, now, deleted) && AddedAfter(s, token, refused, deleted, s', r);
      PurgeKeeps(s.repo, token.login, now, deleted);
      assert t.id !in deleted;
    case Ask(id, now) =>
      var answer :| Asked(s, id, now, s', answer);
      AskedAnswer(s, id, now, s', answer);
  }

  predicate Holds(s: State, t: Token) {
    t.id in s.repo && s.repo[t.id] == t
  }

  lemma SparedNext(states: seq<State>, calls: seq<Call>, k: nat, t: Token)
    requires IsRun(states, calls) && k < |calls| && NoneRefused(calls[..k])
    requires Holds(states[k], t) && Spares(calls[k], t)
    ensures Holds(states[k + 1], t)
  {
    EveryReachableState(states, calls, k);
    StepSpares(states[k], Issued(calls[..k]), calls[k], states[k + 1], t);
  }

  /** A token stays stored, unchanged, through any number of calls that leave it alone. */
  lemma {:induction false} SparedStays(states: seq<State>, calls: seq<Call>, i: nat, j: nat, t: Token)
    requires IsRun(states, calls) && i <= j <= |calls| && NoneRefused(calls[..j])
    requires Holds(states[i], t) && forall k | i <= k < j :: Spares(calls[k], t)
    ensures Holds(states[j], t)
    decreases j
  {
    if i < j {
      NoneRefusedGrows(calls, j - 1);
      SparedStays(states, calls, i, j - 1, t);
      SparedNext(states, calls, j - 1, t);
    }
  }

  /** What an accepted create stores is answered from then on, as long as it is left alone and until it expires. */
  lemma CreatedIsAnswered(states: seq<State>, calls: seq<Call>, i: nat, j: nat, r: Result<()>, answer: Answer)
    requires IsRun(states, calls) && i < j < |calls| && NoneRefused(calls[..j])
    requires calls[i].Create? && Added(states[i], calls[i].token, calls[i].now, calls[i].refused, states[i + 1], r)
    requires forall k | i < k < j :: Spares(calls[k], calls[i].token)
    requires calls[j] == Ask(calls[i].token.id, calls[j].now)
    requires Asked(states[j], calls[j].id, calls[j].now, states[j + 1], answer)
    ensures r.Ok? && answer == if calls[j].now <= calls[i].token.expiration then Valid(calls[i].token) else ExpiredToken
  {
    var t := calls[i].token;
    EveryReachableState(states, calls, i);
    assert Step(states[i], Issued(calls[..i]), calls[i], states[i + 1]);
    assert calls[i] in calls[..j];
    SparedStays(states, calls, i + 1, j, t);
    EveryAnswer(states, calls, j, answer);
  }
}
