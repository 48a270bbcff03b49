/** The keyed token store. Token pairs are serialized and sealed before they are kept. */
module TokenStore {
  import opened Ordering

  /** `expiresAt` is none for a pair that never expires. */
  datatype TokenPair = TokenPair(access: string, refresh: string, tokenType: string, expiresAt: Option<int>,
      scope: string)

  datatype Identity = Identity(canonical: string, provider: string, providerID: string, email: string,
      displayName: string)

  datatype Session = Session(identity: Identity, token: TokenPair, issuedAt: int, expiresAt: Option<int>)

  datatype StoreError = Cancelled | NotFound | DecryptFailed | UnmarshalFailed | EncryptFailed

  datatype StoreKey = StoreKey(canonical: string, provider: string)

  function KeyOf(identity: Identity, provider: string): StoreKey {
    StoreKey(identity.canonical, provider)
  }

  /** Two accounts share an entry exactly when they are the same person's at the same provider. */
  lemma KeysSeparate(a: Identity, p: string, b: Identity, q: string)
    ensures KeyOf(a, p) == KeyOf(b, q) <==> a.canonical == b.canonical && p == q
  {
  }

  // Serialization and sealing, symbolically: only the right key opens a sealed text.

  datatype Plain = Json(tokens: TokenPair) | Other(bytes: seq<bv8>)

  datatype Ciphertext = Sealed(key: nat, nonce: nat, plain: Plain) | Tampered(raw: seq<bv8>)

  function Decrypt(key: nat, c: Ciphertext): Result<Plain, StoreError> {
    if c.Sealed? && c.key == key then Ok(c.plain) else Err(DecryptFailed)
  }

  function Unmarshal(p: Plain): Result<TokenPair, StoreError> {
    if p.Json? then Ok(p.tokens) else Err(UnmarshalFailed)
  }

  predicate Opens(key: nat, c: Ciphertext) {
    c.Sealed? && c.key == key && c.plain.Json?
  }

  datatype StoredEntry = StoredEntry(identity: Identity, provider: string, token: Ciphertext, expiresAt: Option<int>,
      updatedAt: int)

  /** What a listing says about an entry: whose it is and until when, but not the pair itself. */
  datatype TokenRef = TokenRef(identity: Identity, provider: string, expiresAt: Option<int>, updatedAt: int)

  function RefOf(e: StoredEntry): TokenRef {
    TokenRef(e.identity, e.provider, e.expiresAt, e.updatedAt)
  }

  function RefKey(r: TokenRef): StoreKey {
    KeyOf(r.identity, r.provider)
  }

  function RefKeys(refs: seq<TokenRef>): seq<StoreKey> {
    seq(|refs|, i requires 0 <= i < |refs| => RefKey(refs[i]))
  }

  /** One reference for each of the given entries, filed under its own key, in no particular order. */
  ghost predicate Lists(refs: seq<TokenRef>, tokens: map<StoreKey, StoredEntry>, keys: set<StoreKey>) {
    && Distinct(RefKeys(refs))
    && (forall r | r in refs :: RefKey(r) in keys && RefKey(r) in tokens && r == RefOf(tokens[RefKey(r)]))
    && forall k | k in keys :: k in tokens && RefOf(tokens[k]) in refs
  }

  class MemoryTokenStore {
    const key: nat
    var tokens: map<StoreKey, StoredEntry>

    /** Every entry is filed under its own identity and provider. */
    ghost predicate Valid()
      reads this
    {
      forall k | k in tokens :: k == KeyOf(tokens[k].identity, tokens[k].provider)
    }

    /** The pairs as their owners see them: the entries this store's key opens. */
    ghost function Contents(): map<StoreKey, TokenPair>
      reads this
    {
      map k | k in tokens && Opens(key, tokens[k].token) :: tokens[k].token.plain.tokens
    }

    constructor (key: nat)
      ensures Valid() && Contents() == map[] && this.key == key
    {
      this.key := key;
      tokens := map[];
    }

    method Get(cancelled: bool, identity: Identity, provider: string) returns (r: Result<TokenPair, StoreError>)
      requires Valid()
      ensures cancelled ==> r == Err(Cancelled)
      ensures !cancelled && KeyOf(identity, provider) in Contents() ==> r == Ok(Contents()[KeyOf(identity, provider)])
      ensures !cancelled && KeyOf(identity, provider) !in Contents() ==> r.Err?
      ensures !cancelled ==> (r == Err(NotFound) <==> KeyOf(identity, provider) !in tokens)
      ensures !cancelled && KeyOf(identity, provider) in tokens ==>
                match tokens[KeyOf(identity, provider)].token
                case Tampered(_) => r == Err(DecryptFailed)
                case Sealed(k, _, Json(pair)) => r == if k == key then Ok(pair) else Err(DecryptFailed)
                case Sealed(k, _, Other(_)) => r == Err(if k == key then UnmarshalFailed else DecryptFailed)
    {
      if cancelled {
        return Err(Cancelled);
      }
      if KeyOf(identity, provider) !in tokens {
        return Err(NotFound);
      }
      var plaintext := Decrypt(key, tokens[KeyOf(identity, provider)].token);
      if plaintext.Err? {
        return Err(plaintext.error);
      }
      return Unmarshal(plaintext.value);
    }

    /** Sealing draws a fresh nonce, which can fail; then nothing is stored. */
    method Put(cancelled: bool, nonce: Option<nat>, identity: Identity, provider: string, pair: TokenPair, now: int)
      returns (r: Result<(), StoreError>)
      requires Valid()
      modifies this
      ensures Valid()
      ensures r == if cancelled then Err(Cancelled) else if nonce.None? then Err(EncryptFailed) else Ok(())
      ensures r.Ok? ==> Contents() == old(Contents())[KeyOf(identity, provider) := pair]
      ensures r.Ok? ==>
                && KeyOf(identity, provider) in tokens
                && tokens == old(tokens)[KeyOf(identity, provider) := tokens[KeyOf(identity, provider)]]
                && RefOf(tokens[KeyOf(identity, provider)]) == TokenRef(identity, provider, pair.expiresAt, now)
      ensures r.Err? ==> tokens == old(tokens)
    {
      if cancelled {
        return Err(Cancelled);
      }
      var plaintext := Json(pair);
      if nonce.None? {
        return Err(EncryptFailed);
      }
      var entry := StoredEntry(identity, provider, Sealed(key, nonce.value, plaintext), pair.expiresAt, now);
      assert Opens(key, entry.token) && entry.token.plain.tokens == pair;
      tokens := tokens[KeyOf(identity, provider) := entry];
      return Ok(());
    }

    method Delete(cancelled: bool, identity: Identity, provider: string) returns (r: Result<(), StoreError>)
      requires Valid()
      modifies this
      ensures Valid()
      ensures cancelled ==> r == Err(Cancelled) && tokens == old(tokens)
      ensures !cancelled ==> r == Ok(()) && tokens == old(tokens) - {KeyOf(identity, provider)}
      ensures !cancelled ==> Contents() == old(Contents()) - {KeyOf(identity, provider)}
    {
      if cancelled {
        return Err(Cancelled);
      }
      tokens := tokens - {KeyOf(identity, provider)};
      return Ok(());
    }

    method List(cancelled: bool) returns (r: Result<seq<TokenRef>, StoreError>)
      requires Valid()
      ensures cancelled ==> r == Err(Cancelled)
      ensures !cancelled ==> r.Ok? && |r.value| == |tokens| && Lists(r.value, tokens, tokens.Keys)
    {
      if cancelled {
        return Err(Cancelled);
      }
      var refs: seq<TokenRef> := [];
      var rest := tokens.Keys;
      while rest != {}
        invariant rest <= tokens.Keys && |refs| + |rest| == |tokens.Keys|
        invariant Lists(refs, tokens, tokens.Keys - rest)
        decreases |rest|
      {
        var k :| k in rest;
        OneMoreRef(refs, tokens, tokens.Keys - rest, k);
        assert tokens.Keys - (rest - {k}) == tokens.Keys - rest + {k};
        refs := refs + [RefOf(tokens[k])];
        rest := rest - {k};
      }
      assert tokens.Keys - rest == tokens.Keys && |tokens| == |tokens.Keys|;
      return Ok(refs);
    }
  }

  lemma OneMoreRef(refs: seq<TokenRef>, tokens: map<StoreKey, StoredEntry>, keys: set<StoreKey>, k: StoreKey)
    requires Lists(refs, tokens, keys) && k !in keys && k in tokens && RefKey(RefOf(tokens[k])) == k
    ensures Lists(refs + [RefOf(tokens[k])], tokens, keys + {k})
  {
    var more := refs + [RefOf(tokens[k])];
    forall i | 0 <= i < |refs| ensures RefKey(refs[i]) != k {
      assert refs[i] in refs;
    }
    assert RefKeys(more) == RefKeys(refs) + [k];
  }
}
