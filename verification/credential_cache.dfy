/**
 The per-scope-list credential cache of `GoogleApi` (lib/googleapi.rb:48-61,
 85-88): an immutable map from cache key to credential, threaded through
 `AccessTokenFor`. The wall clock is the parameter `now`; the token endpoint is
 the function `exchange`, which maps the posted form to the `access_token` field
 of the parsed response (`None` when the response has no such field).
 */
module CredentialCache {
  import opened Wrappers
  import opened ScopeKey
  import opened Assertion

  /** A cached credential; `expiresAt` is an instant, `accessToken` may be nil. */
  datatype Credential = Credential(accessToken: Option<string>, expiresAt: Instant)

  /** The `@credentials` hash, keyed by `ScopeKey.Key` of the scope list. */
  type Credentials = map<seq<string>, Credential>

  /** The token endpoint: the posted form to the response's `access_token`. */
  type Exchange = TokenRequest -> Option<string>

  /** The longest lifetime any credential is given, in nanoseconds. */
  const LifetimeNanos: nat := LifetimeSeconds * NanosPerSecond

  /**
   `credentials_valid_for` (lib/googleapi.rb:59-61): a missing entry is never
   valid, and a present one stops being valid at its expiry instant.
   */
  predicate ValidFor(creds: Credentials, key: seq<string>, now: Instant)
    ensures key !in creds ==> !ValidFor(creds, key, now)
    ensures key in creds && creds[key].expiresAt <= now ==> !ValidFor(creds, key, now)
    ensures key in creds && now < creds[key].expiresAt ==> ValidFor(creds, key, now)
  {
    key in creds && creds[key].expiresAt > now
  }

  /** An entry valid at `now` was valid at every earlier instant. */
  lemma ValidityIsMonotone(creds: Credentials, key: seq<string>, earlier: Instant, now: Instant)
    requires earlier <= now
    ensures ValidFor(creds, key, now) ==> ValidFor(creds, key, earlier)
  {
  }

  /**
   `get_credentials` (lib/googleapi.rb:63-89) with the transport, JSON parsing and
   signing abstracted into `exchange`. The expiry is the requested `exp` claim,
   never anything the server reports.
   */
  function GetCredentials(id: Identity, scopes: seq<string>, now: Instant, exchange: Exchange): (c: Credential)
    ensures c.accessToken == exchange(MintRequest(id, scopes, now))
    ensures c.expiresAt == AtSeconds(MintRequest(id, scopes, now).assertion.exp)
    ensures now < c.expiresAt <= now + LifetimeNanos
  {
    var req := MintRequest(id, scopes, now);
    Credential(exchange(req), AtSeconds(req.assertion.exp))
  }

  /** The outcome of one `access_token_for` call: the token, the new cache, the forms posted. */
  datatype Lookup = Lookup(token: Option<string>, credentials: Credentials, mints: seq<TokenRequest>)

  /** `access_token_for` (lib/googleapi.rb:48-57). */
  function AccessTokenFor(creds: Credentials, id: Identity, scopes: seq<string>, now: Instant, exchange: Exchange): (r: Lookup)
    // the token handed out always comes from an entry that is valid now
    ensures ValidFor(r.credentials, Key(scopes), now)
    ensures r.token == r.credentials[Key(scopes)].accessToken
    // hit: the stored token, no mint, nothing changes
    ensures ValidFor(creds, Key(scopes), now) ==>
              r.token == creds[Key(scopes)].accessToken && r.mints == [] && r.credentials == creds
    // miss or expiry: exactly one mint, for exactly these scopes, and its token is stored
    ensures !ValidFor(creds, Key(scopes), now) ==>
              && r.mints == [MintRequest(id, scopes, now)]
              && r.token == exchange(r.mints[0])
              && r.credentials[Key(scopes)].expiresAt == AtSeconds(r.mints[0].assertion.exp)
    // only the requested key changes
    ensures r.credentials.Keys == creds.Keys + {Key(scopes)}
    ensures forall k :: k in creds && k != Key(scopes) ==> r.credentials[k] == creds[k]
  {
    var key := Key(scopes);
    if ValidFor(creds, key, now) then
      Lookup(creds[key].accessToken, creds, [])
    else
      var c := GetCredentials(id, scopes, now, exchange);
      Lookup(c.accessToken, creds[key := c], [MintRequest(id, scopes, now)])
  }

  /**
   The cache invariant at clock reading `t`: every key is canonical (a sorted
   scope list) and no entry is valid beyond one lifetime after `t`.
   */
  ghost predicate Fresh(creds: Credentials, t: Instant) {
    forall k :: k in creds ==> Sorted(k) && creds[k].expiresAt <= t + LifetimeNanos
  }

  /** Calls made with a clock that does not run backwards keep the cache invariant. */
  lemma AccessTokenForKeepsFresh(creds: Credentials, t: Instant, id: Identity, scopes: seq<string>,
                                 now: Instant, exchange: Exchange)
    requires Fresh(creds, t) && t <= now
    ensures Fresh(AccessTokenFor(creds, id, scopes, now, exchange).credentials, now)
  {
  }

  /**
   A credential minted at `t` is valid at `now` exactly until the start of the
   second `to_i(t) + 3600`: at its expiry instant it is already invalid.
   */
  lemma MintedValidityWindow(creds: Credentials, id: Identity, scopes: seq<string>, t: Instant,
                             exchange: Exchange, now: Instant)
    ensures ValidFor(creds[Key(scopes) := GetCredentials(id, scopes, t, exchange)], Key(scopes), now)
            <==> now < AtSeconds(ToSeconds(t) + LifetimeSeconds)
    ensures t <= now < t + LifetimeNanos - NanosPerSecond ==>
              ValidFor(creds[Key(scopes) := GetCredentials(id, scopes, t, exchange)], Key(scopes), now)
    ensures t + LifetimeNanos <= now ==>
              !ValidFor(creds[Key(scopes) := GetCredentials(id, scopes, t, exchange)], Key(scopes), now)
  {
  }

  /**
   A second request for the same scopes, in any order, before the first
   credential expires is a hit: same token, no mint, cache unchanged.
   */
  lemma RepeatBeforeExpiryHits(creds: Credentials, id: Identity, scopes: seq<string>, again: seq<string>,
                               now1: Instant, now2: Instant, exchange: Exchange)
    requires multiset(again) == multiset(scopes)
    requires now2 < AccessTokenFor(creds, id, scopes, now1, exchange).credentials[Key(scopes)].expiresAt
    ensures var r1 := AccessTokenFor(creds, id, scopes, now1, exchange);
            var r2 := AccessTokenFor(r1.credentials, id, again, now2, exchange);
            r2.mints == [] && r2.token == r1.token && r2.credentials == r1.credentials
  {
    KeyDeterminedByMultiset(again, scopes);
  }

  /** Once the clock reaches the stored expiry, the next request mints again. */
  lemma RepeatAfterExpiryMints(creds: Credentials, id: Identity, scopes: seq<string>,
                               now1: Instant, now2: Instant, exchange: Exchange)
    requires AccessTokenFor(creds, id, scopes, now1, exchange).credentials[Key(scopes)].expiresAt <= now2
    ensures var r1 := AccessTokenFor(creds, id, scopes, now1, exchange);
            AccessTokenFor(r1.credentials, id, scopes, now2, exchange).mints == [MintRequest(id, scopes, now2)]
  {
  }

  /**
   Scope lists with different scopes (a subset included) never share an entry:
   a request for one leaves the other's entry as it was.
   */
  lemma DistinctScopeListsIndependent(creds: Credentials, id: Identity, a: seq<string>, b: seq<string>,
                                      now: Instant, exchange: Exchange)
    requires multiset(a) != multiset(b)
    requires Key(a) in creds
    ensures var r := AccessTokenFor(creds, id, b, now, exchange);
            Key(a) in r.credentials && r.credentials[Key(a)] == creds[Key(a)]
  {
  }

  /**
   A token response without `access_token` still produces a cache entry: its
   token is nil and it counts as valid until its expiry like any other.
   */
  lemma MissingTokenIsCached(creds: Credentials, id: Identity, scopes: seq<string>, now: Instant,
                             exchange: Exchange)
    requires !ValidFor(creds, Key(scopes), now)
    requires exchange(MintRequest(id, scopes, now)) == None
    ensures var r := AccessTokenFor(creds, id, scopes, now, exchange);
            r.token == None && ValidFor(r.credentials, Key(scopes), now)
            && r.credentials[Key(scopes)].accessToken == None
  {
  }
}
