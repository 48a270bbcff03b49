/** Transparent token refresh over the store, and what any sequence of refreshing calls leaves in it. */
module TokenRefresh {
  import opened Ordering
  import opened TokenStore

  datatype CallError = AuthenticationError | OtherError(text: string)

  datatype RefreshError =
    | Load(cause: StoreError)
    | Inner(text: string)
    | RefreshFailed
    | Persist(cause: StoreError)
    | Retry(refusal: CallError)
    | NoRefreshArrow

  /** An answered request: what was asked, the pair it was made with, and the answer. */
  datatype Called = Called(input: string, token: TokenPair, answer: Result<string, CallError>)

  datatype Asked = Asked(token: TokenPair, granted: bool)

  /**
   * The provider and the wrapped API. A refresh may fail; when it succeeds it is the function
   * `renewed`. The wrapped call may answer anything. Both keep a record of requests and answers.
   */
  class Remote {
    const renewed: TokenPair -> TokenPair
    var calls: seq<Called>
    var refreshes: seq<Asked>

    constructor (renewed: TokenPair -> TokenPair)
      ensures this.renewed == renewed && calls == [] && refreshes == []
    {
      this.renewed := renewed;
      calls, refreshes := [], [];
    }

    method Call(input: string, token: TokenPair) returns (r: Result<string, CallError>)
      modifies this`calls
      ensures calls == old(calls) + [Called(input, token, r)]
    {
      r := *;
      calls := calls + [Called(input, token, r)];
    }

    method Refresh(token: TokenPair) returns (r: Result<TokenPair, ()>)
      modifies this`refreshes
      ensures refreshes == old(refreshes) + [Asked(token, r.Ok?)]
      ensures r.Ok? ==> r.value == renewed(token)
    {
      var available: bool := *;
      refreshes := refreshes + [Asked(token, available)];
      r := if available then Ok(renewed(token)) else Err(());
    }
  }

  /** What one call may do to the store: nothing, or replace the pair at `key` by its renewal. */
  ghost predicate Renews(before: map<StoreKey, TokenPair>, after: map<StoreKey, TokenPair>, key: StoreKey,
      f: TokenPair -> TokenPair, times: nat)
  {
    (times == 0 && after == before) || (times == 1 && key in before && after == before[key := f(before[key])])
  }

  /**
   * What the caller of a wrapped call is told, given the answers the wrapper got. `stored` is the pair
   * in the store, before the call, and `kept` the one in it afterwards; a granted renewal is kept exactly
   * when it is `storable`.
   */
  ghost predicate Followed(
    input: string, stored: TokenPair, calls: seq<Called>, refreshes: seq<Asked>, r: Result<string, RefreshError>,
    persisted: nat, kept: TokenPair, storable: bool)
  {
    && |calls| > 0 && calls[0].token == stored && (forall c | c in calls :: c.input == input)
    && if calls[0].answer != Err(AuthenticationError) then
         && |calls| == 1 && refreshes == [] && persisted == 0
         && r == if calls[0].answer.Ok? then Ok(calls[0].answer.value) else Err(Inner(calls[0].answer.error.text))
       else
         && |refreshes| == 1 && refreshes[0].token == stored
         && if !refreshes[0].granted then |calls| == 1 && persisted == 0 && r == Err(RefreshFailed)
            else if !storable then |calls| == 1 && persisted == 0 && r.Err? && r.error.Persist?
            else
              && |calls| == 2 && persisted == 1 && calls[1].token == kept
              && r == if calls[1].answer.Ok? then Ok(calls[1].answer.value) else Err(Retry(calls[1].answer.error))
  }

  /**
   * One call, and one more with the renewed pair if the first was refused as unauthenticated. `cancel`
   * says at which of the two store accesses the context is found cancelled, and `nonce` is what the random
   * source gives for sealing. `persisted` counts the renewals this call stored.
   */
  method WithRefresh(
    remote: Remote, store: MemoryTokenStore, identity: Identity, provider: string, input: string,
    cancel: (bool, bool), nonce: Option<nat>, now: int) returns (r: Result<string, RefreshError>, ghost persisted: nat)
    requires store.Valid()
    modifies remote, store
    ensures store.Valid()
    ensures Renews(old(store.Contents()), store.Contents(), KeyOf(identity, provider), remote.renewed, persisted)
    ensures old(remote.calls) <= remote.calls && old(remote.refreshes) <= remote.refreshes
    ensures var key := KeyOf(identity, provider);
      var before, calls, refreshes :=
        old(store.Contents()), remote.calls[|old(remote.calls)|..], remote.refreshes[|old(remote.refreshes)|..];
      if key !in before || cancel.0 then r.Err? && r.error.Load? && calls == [] && refreshes == []
      else
        var kept := if persisted == 1 then store.Contents()[key] else before[key];
        Followed(input, before[key], calls, refreshes, r, persisted, kept, !cancel.1 && nonce.Some?)
    ensures cancel.0 ==> r == Err(Load(Cancelled))
    ensures !cancel.0 ==> (r == Err(Load(NotFound)) <==> KeyOf(identity, provider) !in old(store.tokens))
  {
    persisted := 0;
    var loaded := store.Get(cancel.0, identity, provider);
    if loaded.Err? {
      return Err(Load(loaded.error)), 0;
    }
    var tokens := loaded.value;
    var out := remote.Call(input, tokens);
    if out.Ok? {
      return Ok(out.value), 0;
    }
    if !out.error.AuthenticationError? {
      return Err(Inner(out.error.text)), 0;
    }
    var renewal := remote.Refresh(tokens);
    if renewal.Err? {
      return Err(RefreshFailed), 0;
    }
    var put := store.Put(cancel.1, nonce, identity, provider, renewal.value, now);
    if put.Err? {
      return Err(Persist(put.error)), 0;
    }
    persisted := 1;
    out := remote.Call(input, renewal.value);
    if out.Err? {
      return Err(Retry(out.error)), 1;
    }
    return Ok(out.value), 1;
  }

  function IsExpired(t: TokenPair, now: int): bool {
    t.expiresAt.Some? && now > t.expiresAt.value
  }

  function IsExpiringWithin(t: TokenPair, now: int, leeway: int): bool {
    t.expiresAt.Some? && now + leeway > t.expiresAt.value
  }

  /** `clock` holds the three successive readings of the time; `renewable` says whether a refresh arrow was given. */
  method CurrentSession(
    remote: Remote, renewable: bool, store: MemoryTokenStore, identity: Identity, provider: string, leeway: int,
    cancel: (bool, bool), nonce: Option<nat>, clock: (int, int, int))
    returns (r: Result<Session, RefreshError>, ghost persisted: nat)
    requires store.Valid()
    modifies remote, store
    ensures store.Valid() && remote.calls == old(remote.calls)
    ensures Renews(old(store.Contents()), store.Contents(), KeyOf(identity, provider), remote.renewed, persisted)
    ensures r.Ok? ==> KeyOf(identity, provider) in store.Contents()
                      && r.value == Session(identity, store.Contents()[KeyOf(identity, provider)], clock.2,
                           r.value.token.expiresAt)
    ensures var key := KeyOf(identity, provider);
      var before := old(store.Contents());
      if key !in before || cancel.0 then r.Err? && r.error.Load? && remote.refreshes == old(remote.refreshes)
      else if !Stale(before[key], clock, leeway) then
        r.Ok? && persisted == 0 && remote.refreshes == old(remote.refreshes)
      else if !renewable then r == Err(NoRefreshArrow) && remote.refreshes == old(remote.refreshes)
      else
        && remote.refreshes == old(remote.refreshes) + [Asked(before[key], r != Err(RefreshFailed))]
        && (r.Ok? <==> persisted == 1) && (r.Err? ==> r.error.RefreshFailed? || r.error.Persist?)
        && (r.Err? && r.error.Persist? ==> cancel.1 || nonce.None?)
    ensures cancel.0 ==> r == Err(Load(Cancelled))
    ensures !cancel.0 ==> (r == Err(Load(NotFound)) <==> KeyOf(identity, provider) !in old(store.tokens))
  {
    persisted := 0;
    var loaded := store.Get(cancel.0, identity, provider);
    if loaded.Err? {
      return Err(Load(loaded.error)), 0;
    }
    var tokens := loaded.value;
    if IsExpired(tokens, clock.0) || IsExpiringWithin(tokens, clock.1, leeway) {
      if !renewable {
        return Err(NoRefreshArrow), 0;
      }
      var renewal := remote.Refresh(tokens);
      if renewal.Err? {
        return Err(RefreshFailed), 0;
      }
      var put := store.Put(cancel.1, nonce, identity, provider, renewal.value, clock.2);
      if put.Err? {
        return Err(Persist(put.error)), 0;
      }
      persisted := 1;
      tokens := renewal.value;
    }
    return Ok(Session(identity, tokens, clock.2, tokens.expiresAt)), persisted;
  }

  /** Expired at the first reading, or within the leeway of the second. */
  ghost predicate Stale(t: TokenPair, clock: (int, int, int), leeway: int) {
    t.expiresAt.Some? && (clock.0 > t.expiresAt.value || clock.1 + leeway > t.expiresAt.value)
  }

  // ----- Runs -----

  /** One finished call: whose pair it worked on, and how many renewals it stored. */
  datatype Effect = Effect(key: StoreKey, times: nat)

  ghost function Iterate(f: TokenPair -> TokenPair, t: TokenPair, n: nat): TokenPair {
    if n == 0 then t else f(Iterate(f, t, n - 1))
  }

  ghost function Persisted(run: seq<Effect>, key: StoreKey): nat {
    if run == [] then 0
    else Persisted(run[..|run| - 1], key) + if run[|run| - 1].key == key then run[|run| - 1].times else 0
  }

  /** The stores before, between and after the calls of a run, for any mixture of users. */
  ghost predicate Happened(run: seq<Effect>, stores: seq<map<StoreKey, TokenPair>>, f: TokenPair -> TokenPair) {
    |stores| == |run| + 1
    && forall n | 0 <= n < |run| :: Renews(stores[n], stores[n + 1], run[n].key, f, run[n].times)
  }

  /** Any run leaves every user's pair renewed as often as that user's calls stored a renewal. */
  lemma {:induction false} StoredIsRenewed(run: seq<Effect>, stores: seq<map<StoreKey, TokenPair>>,
      f: TokenPair -> TokenPair, key: StoreKey)
    requires Happened(run, stores, f)
    ensures stores[|run|].Keys == stores[0].Keys
    ensures key in stores[0] ==> stores[|run|][key] == Iterate(f, stores[0][key], Persisted(run, key))
  {
    if run == [] {
    } else {
      var last := |run| - 1;
      StoredIsRenewed(run[..last], stores[..|run|], f, key);
      assert Renews(stores[last], stores[last + 1], run[last].key, f, run[last].times);
    }
  }

  lemma {:induction false} PersistedMore(run: seq<Effect>, key: StoreKey, n: nat)
    requires n < |run| && run[n] == Effect(key, 1)
    ensures Persisted(run, key) >= 1
  {
    if n < |run| - 1 {
      PersistedMore(run[..|run| - 1], key, n);
    }
  }

  /**
   * Once a call has stored the renewal of a pair, every later call on that key works with that renewal or
   * one made from it.
   */
  lemma {:induction false} SupersededForGood(
    run: seq<Effect>, stores: seq<map<StoreKey, TokenPair>>, f: TokenPair -> TokenPair, key: StoreKey, n: nat, m: nat)
    requires Happened(run, stores, f) && n < m <= |run| && run[n] == Effect(key, 1)
    ensures key in stores[n] && key in stores[m]
    ensures exists k: nat | k >= 1 :: stores[m][key] == Iterate(f, stores[n][key], k)
  {
    assert Renews(stores[n], stores[n + 1], key, f, 1);
    var part, between := run[n..m], stores[n..m + 1];
    forall i | 0 <= i < |part| ensures Renews(between[i], between[i + 1], part[i].key, f, part[i].times) {
      assert Renews(stores[n + i], stores[n + i + 1], run[n + i].key, f, run[n + i].times);
    }
    StoredIsRenewed(part, between, f, key);
    PersistedMore(part, key, 0);
  }

  /** However often it is renewed, the pair never comes back. */
  ghost predicate NeverRepeats(f: TokenPair -> TokenPair, t: TokenPair) {
    forall k: nat | k >= 1 :: Iterate(f, t, k) != t
  }

  /** In no run is `t`, once a renewal of it has been stored, in the store again. */
  ghost predicate StaysReplaced(f: TokenPair -> TokenPair, t: TokenPair) {
    forall run, stores, key, n: nat, m: nat | Replaced(run, stores, f, key, n, m, t) :: stores[m][key] != t
  }

  ghost predicate Replaced(
    run: seq<Effect>, stores: seq<map<StoreKey, TokenPair>>, f: TokenPair -> TokenPair, key: StoreKey, n: nat, m: nat,
    t: TokenPair)
  {
    && Happened(run, stores, f) && n < m <= |run| && run[n] == Effect(key, 1)
    && key in stores[n] && stores[n][key] == t && key in stores[m]
  }

  /** A replaced pair is never used again, in any run, exactly when renewing never leads back to it. */
  lemma {:induction false} ReplacedForGoodExactly(f: TokenPair -> TokenPair, t: TokenPair)
    ensures StaysReplaced(f, t) <==> NeverRepeats(f, t)
  {
    if NeverRepeats(f, t) {
      forall run, stores, key, n: nat, m: nat | Replaced(run, stores, f, key, n, m, t) ensures stores[m][key] != t {
        SupersededForGood(run, stores, f, key, n, m);
      }
    }
    if k: nat :| k >= 1 && Iterate(f, t, k) == t {
      ComesBack(f, t, k);
    }
  }

  lemma ComesBack(f: TokenPair -> TokenPair, t: TokenPair, k: nat)
    requires k >= 1 && Iterate(f, t, k) == t
    ensures !StaysReplaced(f, t)
  {
    var key := StoreKey("", "");
    var run := seq(k, _ => Effect(key, 1));
    var stores := seq(k + 1, i requires 0 <= i < k + 1 => map[key := Iterate(f, t, i)]);
    forall n | 0 <= n < |run| ensures Renews(stores[n], stores[n + 1], run[n].key, f, run[n].times) {
      assert Iterate(f, t, n + 1) == f(Iterate(f, t, n));
    }
    assert Replaced(run, stores, f, key, 0, k, t);
  }
}
