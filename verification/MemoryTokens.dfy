/** The in-memory token store: two maps, by id and by login, that must stay mutual inverses. */
module MemoryTokens {
  import opened Wrappers
  import opened Tokens

  datatype Maps = Maps(tokens: map<string, Token>, tokensByLogin: map<string, Token>)

  // ---------------------------------------------------------------- the store

  class MemoryTokenStorage {
    var tokens: map<string, Token>
    var tokensByLogin: map<string, Token>

    function Contents(): Maps
      reads this
    {
      Maps(tokens, tokensByLogin)
    }

    constructor ()
      ensures Contents() == Maps(map[], map[])
    {
      tokens, tokensByLogin := map[], map[];
    }

    method GetToken(tokenId: string) returns (r: Option<Token>)
      ensures r == Lookup(tokens, tokenId)
    {
      r := if tokenId in tokens then Some(tokens[tokenId]) else None;
    }

    method AddToken(token: Token)
      modifies this
      ensures Contents() == Add(old(Contents()), token)
    {
      if token.login in tokensByLogin {
        RemoveToken(tokensByLogin[token.login]);
      }
      tokensByLogin := tokensByLogin[token.login := token];
      tokens := tokens[token.id := token];
    }

    method RemoveToken(token: Token)
      modifies this
      ensures Contents() == Remove(old(Contents()), token)
    {
      tokensByLogin := tokensByLogin - {token.login};
      tokens := tokens - {token.id};
    }
  }

  function Remove(m: Maps, token: Token): Maps {
    Maps(m.tokens - {token.id}, m.tokensByLogin - {token.login})
  }

  function Add(m: Maps, token: Token): Maps {
    var m' := if token.login in m.tokensByLogin then Remove(m, m.tokensByLogin[token.login]) else m;
    Maps(m'.tokens[token.id := token], m'.tokensByLogin[token.login := token])
  }

  /** The manager over this store. */
  class TokenManager {
    const tokenStorage: MemoryTokenStorage

    constructor (tokenStorage: MemoryTokenStorage)
      ensures this.tokenStorage == tokenStorage
    {
      this.tokenStorage := tokenStorage;
    }

    method CreateToken(token: Token)
      modifies tokenStorage
      ensures tokenStorage.Contents() == Add(old(tokenStorage.Contents()), token)
    {
      tokenStorage.AddToken(token);
    }

    method GetToken(id: string, now: int) returns (answer: Answer)
      modifies tokenStorage
      ensures answer == Ask(old(tokenStorage.Contents()), id, now).0
      ensures tokenStorage.Contents() == Ask(old(tokenStorage.Contents()), id, now).1
    {
      var token := tokenStorage.GetToken(id);
      if token.None? {
        return NoToken;
      }
      if token.value.expiration < now {
        tokenStorage.RemoveToken(token.value);
        return ExpiredToken;
      }
      answer := Valid(token.value);
    }
  }

  function Ask(m: Maps, id: string, now: int): (Answer, Maps) {
    var answer := Judge(Lookup(m.tokens, id), now);
    (answer, if answer.ExpiredToken? then Remove(m, m.tokens[id]) else m)
  }

  // ---------------------------------------------------------------- mutual inverses

  predicate Inverse(m: Maps) {
    && (forall id | id in m.tokens ::
          m.tokens[id].id == id && Lookup(m.tokensByLogin, m.tokens[id].login) == Some(m.tokens[id]))
    && (forall login | login in m.tokensByLogin ::
          && m.tokensByLogin[login].login == login
          && Lookup(m.tokens, m.tokensByLogin[login].id) == Some(m.tokensByLogin[login]))
  }

  /** Removal keeps the maps inverse exactly when it hits both entries of one stored token, or none. */
  lemma RemoveKeepsInverseIff(m: Maps, token: Token)
    requires Inverse(m)
    ensures Inverse(Remove(m, token)) <==>
            if token.id in m.tokens then m.tokens[token.id].login == token.login
            else token.login !in m.tokensByLogin
  {
    var m' := Remove(m, token);
    if token.id in m.tokens && m.tokens[token.id].login != token.login {
      var login := m.tokens[token.id].login;
      assert login in m'.tokensByLogin && m'.tokensByLogin[login].id !in m'.tokens;
    } else if token.id !in m.tokens && token.login in m.tokensByLogin {
      var other := m.tokensByLogin[token.login];
      assert other.id in m'.tokens && m'.tokens[other.id].login !in m'.tokensByLogin;
    }
  }

  /** Adding keeps the maps inverse exactly when the id is new or already belongs to the login. */
  lemma AddKeepsInverseIff(m: Maps, token: Token)
    requires Inverse(m)
    ensures Inverse(Add(m, token)) <==> (token.id in m.tokens ==> m.tokens[token.id].login == token.login)
  {
    if token.id in m.tokens && m.tokens[token.id].login != token.login {
      var login := m.tokens[token.id].login;
      assert Add(m, token).tokensByLogin[login].login == login && Add(m, token).tokens[token.id] == token;
    } else if token.login in m.tokensByLogin {
      var first := m.tokensByLogin[token.login];
      RemoveKeepsInverseIff(m, first);
      PutKeepsInverse(Remove(m, first), token);
    } else {
      PutKeepsInverse(m, token);
    }
  }

  lemma PutKeepsInverse(m: Maps, token: Token)
    requires Inverse(m) && token.id !in m.tokens && token.login !in m.tokensByLogin
    ensures Inverse(Maps(m.tokens[token.id := token], m.tokensByLogin[token.login := token]))
  {}

  // ---------------------------------------------------------------- refinement of one map

  /** The specification: one current token per login. */
  type Abstract = map<string, Token>

  function AbstractFind(a: Abstract, id: string): set<string> {
    set login | login in a && a[login].id == id
  }

  /** The answer to an id is the verdict on the login that holds it, and an expired one loses its login. */
  predicate AbstractAsk(a: Abstract, id: string, now: int, answer: Answer, a': Abstract) {
    var holders := AbstractFind(a, id);
    if holders == {} then answer == NoToken && a' == a
    else exists login | login in a && holders == {login} ::
           if a[login].expiration < now then answer == ExpiredToken && a' == a - {login}
           else answer == Valid(a[login]) && a' == a
  }

  lemma AddRefines(m: Maps, token: Token)
    requires Inverse(m) && token.id !in m.tokens
    ensures Inverse(Add(m, token))
    ensures Add(m, token).tokensByLogin == m.tokensByLogin[token.login := token]
    ensures token.login in m.tokensByLogin ==> m.tokensByLogin[token.login].id !in Add(m, token).tokens
  {
    AddKeepsInverseIff(m, token);
    if token.login in m.tokensByLogin {
      assert m.tokensByLogin[token.login].login == token.login;
      assert (m.tokensByLogin - {token.login})[token.login := token] == m.tokensByLogin[token.login := token];
    }
  }

  /**
   * A stored token is answered with that very token up to and at its expiration and reported expired after
   * it; no token is answered exactly when none is stored under the id.
   */
  lemma AskAnswers(m: Maps, id: string, now: int)
    ensures Ask(m, id, now).0 == NoToken <==> id !in m.tokens
    ensures Ask(m, id, now).0 == ExpiredToken <==> id in m.tokens && m.tokens[id].expiration < now
    ensures forall t :: Ask(m, id, now).0 == Valid(t) <==> id in m.tokens && m.tokens[id] == t && now <= t.expiration
  {}

  lemma AskRefines(m: Maps, id: string, now: int)
    requires Inverse(m)
    ensures Inverse(Ask(m, id, now).1)
    ensures AbstractAsk(m.tokensByLogin, id, now, Ask(m, id, now).0, Ask(m, id, now).1.tokensByLogin)
    ensures Ask(m, id, now).0.Valid? ==> now <= Ask(m, id, now).0.token.expiration
  {
    var holders := AbstractFind(m.tokensByLogin, id);
    if id in m.tokens {
      RemoveKeepsInverseIff(m, m.tokens[id]);
      assert holders == {m.tokens[id].login};
    } else if login :| login in holders {
      assert false;
    }
  }

  // ---------------------------------------------------------------- runs

  datatype Call = Create(token: Token) | Query(id: string, now: int)

  function Step(m: Maps, call: Call): Maps {
    match call
    case Create(token) => Add(m, token)
    case Query(id, now) => Ask(m, id, now).1
  }

  function Run(m: Maps, calls: seq<Call>): Maps
    decreases |calls|
  {
    if calls == [] then m else Run(Step(m, calls[0]), calls[1..])
  }

  /** Created ids are neither in use nor in the given set, and each is used once. */
  predicate FreshIds(calls: seq<Call>, used: set<string>)
    decreases |calls|
  {
    calls == [] ||
    if calls[0].Create? then
      calls[0].token.id !in used && FreshIds(calls[1..], used + {calls[0].token.id})
    else FreshIds(calls[1..], used)
  }

  /** Over every run with fresh ids the maps stay inverse, and an id that is out of use stays out. */
  lemma {:induction false} EveryRun(m: Maps, calls: seq<Call>, used: set<string>, gone: string)
    requires Inverse(m) && m.tokens.Keys <= used && FreshIds(calls, used)
    requires gone in used && gone !in m.tokens
    ensures Inverse(Run(m, calls))
    ensures gone !in Run(m, calls).tokens
    decreases |calls|
  {
    if calls != [] {
      var used' := used;
      match calls[0] {
        case Create(token) =>
          AddRefines(m, token);
          used' := used + {token.id};
        case Query(id, now) =>
          AskRefines(m, id, now);
      }
      EveryRun(Step(m, calls[0]), calls[1..], used', gone);
    }
  }

  /** Whenever a login that has a token gets another, the first one's id is never found again. */
  lemma SupersededNeverFound(m: Maps, second: Token, calls: seq<Call>, used: set<string>)
    requires Inverse(m) && m.tokens.Keys <= used && second.login in m.tokensByLogin
    requires FreshIds([Create(second)] + calls, used)
    ensures Lookup(Run(Add(m, second), calls).tokens, m.tokensByLogin[second.login].id) == None
  {
    var all := [Create(second)] + calls;
    assert all[1..] == calls;
    AddRefines(m, second);
    EveryRun(Add(m, second), calls, used + {second.id}, m.tokensByLogin[second.login].id);
  }

  /** So in any run from the empty store: a token superseded at some point is not found at any later one. */
  lemma EverySuperseded(before: seq<Call>, second: Token, after: seq<Call>)
    requires FreshIds(before + [Create(second)] + after, {})
    requires second.login in Run(Maps(map[], map[]), before).tokensByLogin
    ensures var first := Run(Maps(map[], map[]), before).tokensByLogin[second.login];
            Lookup(Run(Maps(map[], map[]), before + [Create(second)] + after).tokens, first.id) == None
  {
    var m := Maps(map[], map[]);
    var used := UsedAfter(before, {});
    assert before + [Create(second)] + after == before + ([Create(second)] + after);
    RunConcat(m, before, [Create(second)] + after);
    FreshConcat(m, before, [Create(second)] + after, {});
    assert ([Create(second)] + after)[1..] == after;
    SupersededNeverFound(Run(m, before), second, after, used);
  }

  function UsedAfter(calls: seq<Call>, used: set<string>): set<string>
    decreases |calls|
  {
    if calls == [] then used
    else UsedAfter(calls[1..], if calls[0].Create? then used + {calls[0].token.id} else used)
  }

  lemma {:induction false} RunConcat(m: Maps, a: seq<Call>, b: seq<Call>)
    ensures Run(m, a + b) == Run(Run(m, a), b)
    decreases |a|
  {
    if a == [] {
      assert a + b == b;
    } else {
      assert (a + b)[1..] == a[1..] + b;
      RunConcat(Step(m, a[0]), a[1..], b);
    }
  }

  lemma {:induction false} FreshConcat(m: Maps, a: seq<Call>, b: seq<Call>, used: set<string>)
    requires Inverse(m) && m.tokens.Keys <= used && FreshIds(a + b, used)
    ensures FreshIds(b, UsedAfter(a, used))
    ensures Inverse(Run(m, a)) && Run(m, a).tokens.Keys <= UsedAfter(a, used)
    decreases |a|
  {
    if a == [] {
      assert a + b == b;
    } else {
      assert (a + b)[0] == a[0] && (a + b)[1..] == a[1..] + b;
      match a[0] {
        case Create(token) =>
          AddRefines(m, token);
          FreshConcat(Add(m, token), a[1..], b, used + {token.id});
        case Query(id, now) =>
          AskRefines(m, id, now);
          FreshConcat(Ask(m, id, now).1, a[1..], b, used);
      }
    }
  }

  /**
   * After any run from the empty store with fresh ids a lookup answers for the login whose current token has
   * the id: with that token up to and at its expiration, expired after it, and no token when there is no such login.
   */
  lemma EveryAnswer(calls: seq<Call>, id: string, now: int)
    requires FreshIds(calls, {})
    ensures var m := Run(Maps(map[], map[]), calls);
            var answer, current := Ask(m, id, now).0, m.tokensByLogin;
            && (answer == NoToken <==> forall login | login in current :: current[login].id != id)
            && (answer == ExpiredToken <==>
                  exists login | login in current :: current[login].id == id && current[login].expiration < now)
            && forall t :: answer == Valid(t) <==>
                 t.login in current && current[t.login] == t && t.id == id && now <= t.expiration
  {
    assert calls + [] == calls;
    FreshConcat(Maps(map[], map[]), calls, [], {});
    var m := Run(Maps(map[], map[]), calls);
    AskAnswers(m, id, now);
    if id in m.tokens {
      assert m.tokensByLogin[m.tokens[id].login] == m.tokens[id];
    }
  }

  /** A call that leaves a login's token alone: no create for the login, no lookup of it after its expiration. */
  predicate Spares(call: Call, t: Token) {
    match call
    case Create(token) => token.login != t.login
    case Query(id, now) => id != t.id || now <= t.expiration
  }

  lemma {:induction false} SparedStays(m: Maps, calls: seq<Call>, used: set<string>, t: Token)
    requires Inverse(m) && m.tokens.Keys <= used && FreshIds(calls, used)
    requires t.login in m.tokensByLogin && m.tokensByLogin[t.login] == t
    requires forall call | call in calls :: Spares(call, t)
    ensures var m' := Run(m, calls); t.login in m'.tokensByLogin && m'.tokensByLogin[t.login] == t
    decreases |calls|
  {
    if calls != [] {
      assert Spares(calls[0], t);
      match calls[0] {
        case Create(token) =>
          AddRefines(m, token);
          SparedStays(Add(m, token), calls[1..], used + {token.id}, t);
        case Query(id, now) =>
          AskRefines(m, id, now);
          SparedStays(Ask(m, id, now).1, calls[1..], used, t);
      }
    }
  }

  /** A created token is answered from then on, as long as it is left alone and until it expires. */
  lemma CreatedIsAnswered(before: seq<Call>, t: Token, after: seq<Call>, now: int)
    requires FreshIds(before + [Create(t)] + after, {})
    requires forall call | call in after :: Spares(call, t)
    ensures Ask(Run(Maps(map[], map[]), before + [Create(t)] + after), t.id, now).0 ==
            if now <= t.expiration then Valid(t) else ExpiredToken
  {
    var m := Maps(map[], map[]);
    var all := before + [Create(t)] + after;
    assert all == before + ([Create(t)] + after) && ([Create(t)] + after)[1..] == after;
    RunConcat(m, before, [Create(t)] + after);
    FreshConcat(m, before, [Create(t)] + after, {});
    var m' := Run(m, before);
    AddRefines(m', t);
    SparedStays(Add(m', t), after, UsedAfter(before, {}) + {t.id}, t);
    EveryAnswer(all, t.id, now);
  }
}
