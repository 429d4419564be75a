/**
 The two public operations of `GoogleApi` (lib/googleapi.rb:17-44) and the
 authenticated request they share (lib/googleapi.rb:91-101), with the transport
 and JSON parsing abstracted: a directory GET is a function from the request to
 the parsed records of its response, and `ERB::Util.url_encode` is the function
 `encode`. Each call to `access_token_for` reads the clock; `roles_for` makes two
 such calls, at `now1` and then `now2`.
 */
module Directory {
  import opened Wrappers
  import opened ScopeKey
  import opened Assertion
  import opened CredentialCache
  import opened Assembly

  /** A client: its fixed identity and its current credential cache. */
  datatype Client = Client(id: Identity, credentials: Credentials)

  /** An authenticated GET: the endpoint path and the `Authorization` header. */
  datatype Request = Get(path: string, authorization: string)

  /** What one public operation produced, and what it did on the way. */
  datatype Outcome<T> = Outcome(value: T, client: Client, mints: seq<TokenRequest>, requests: seq<Request>)

  /** The prefix every scope URI starts with. */
  const ScopePrefix: string := "https://" + ApiRoot + "/"

  /** `scope(path)` (lib/googleapi.rb:103-105): the path under the API root URL. */
  function Scope(path: string): (uri: string)
    ensures |uri| == |ScopePrefix| + |path|
    ensures uri[..|ScopePrefix|] == ScopePrefix
    ensures uri[|ScopePrefix|..] == path
  {
    ScopePrefix + path
  }

  /** Different paths give different scopes: stripping the prefix recovers the path. */
  lemma ScopeInjective(p: string, q: string)
    requires Scope(p) == Scope(q)
    ensures p == q
  {
  }

  const GroupScope: string := Scope("auth/admin.directory.group.readonly")
  const RoleScope: string := Scope("auth/admin.directory.rolemanagement.readonly")

  /** `"Bearer #{token}"` (lib/googleapi.rb:98): a nil token interpolates as the empty string. */
  function Bearer(token: Option<string>): (header: string)
    ensures |header| >= 7 && header[..7] == "Bearer "
    ensures token.Some? ==> header[7..] == token.value
    ensures token.None? ==> header == "Bearer "
  {
    "Bearer " + token.GetOr("")
  }

  /** A nil token and an empty token send the same header. */
  lemma NilBearerIsEmpty()
    ensures Bearer(None) == Bearer(Some(""))
  {
  }

  /** The groups-listing endpoint of lib/googleapi.rb:21. */
  function GroupsPath(emailEncoded: string): string {
    "/admin/directory/v1/groups?userKey=" + emailEncoded
  }

  /** The organisation's roles endpoint of lib/googleapi.rb:31. */
  function RolesPath(customerEncoded: string): string {
    "/admin/directory/v1/customer/" + customerEncoded + "/roles"
  }

  /** The user's role-assignments endpoint of lib/googleapi.rb:32. */
  function AssignmentsPath(customerEncoded: string, emailEncoded: string): string {
    "/admin/directory/v1/customer/" + customerEncoded + "/roleassignments?userKey=" + emailEncoded
  }

  /** The outcome of `make_request` before its response is parsed. */
  datatype Call = Call(request: Request, client: Client, mints: seq<TokenRequest>)

  /**
   `make_request` (lib/googleapi.rb:91-101) up to sending: fetch a token for
   `scopes` through the cache, then build the GET carrying it.
   */
  function MakeRequest(client: Client, endpoint: string, scopes: seq<string>, now: Instant,
                       exchange: Exchange): (c: Call)
    ensures c.request.path == endpoint
    ensures c.client.id == client.id
    ensures ValidFor(c.client.credentials, Key(scopes), now)
    ensures c.request.authorization == Bearer(c.client.credentials[Key(scopes)].accessToken)
    ensures ValidFor(client.credentials, Key(scopes), now) <==> c.mints == []
    // a hit leaves the cache as it was; a miss mints once, for these scopes at `now`
    ensures ValidFor(client.credentials, Key(scopes), now) ==> c.client.credentials == client.credentials
    ensures !ValidFor(client.credentials, Key(scopes), now) ==> c.mints == [MintRequest(client.id, scopes, now)]
    // on a miss the GET carries the token the endpoint just answered, and that credential is stored
    ensures !ValidFor(client.credentials, Key(scopes), now) ==>
              && c.client.credentials[Key(scopes)] == GetCredentials(client.id, scopes, now, exchange)
              && c.request.authorization == Bearer(exchange(MintRequest(client.id, scopes, now)))
    // only the requested key changes
    ensures c.client.credentials.Keys == client.credentials.Keys + {Key(scopes)}
    ensures forall k :: k in client.credentials && k != Key(scopes) ==>
              c.client.credentials[k] == client.credentials[k]
  {
    var l := AccessTokenFor(client.credentials, client.id, scopes, now, exchange);
    Call(Get(endpoint, Bearer(l.token)), Client(client.id, l.credentials), l.mints)
  }

  /** `groups_for(email)` (lib/googleapi.rb:17-23). */
  function GroupsFor(client: Client, email: string, now: Instant, exchange: Exchange,
                     encode: string -> string, groupsOf: Request -> seq<Group>): (o: Outcome<seq<string>>)
    ensures |o.requests| == 1
    ensures o.requests[0].path == GroupsPath(encode(email))
    ensures ValidFor(o.client.credentials, Key([GroupScope]), now)
    ensures o.requests[0].authorization == Bearer(o.client.credentials[Key([GroupScope])].accessToken)
    // the emails of the response's groups, in order, one per group
    ensures |o.value| == |groupsOf(o.requests[0])|
    ensures forall i :: 0 <= i < |o.value| ==> o.value[i] == groupsOf(o.requests[0])[i].email
    ensures o.mints == [] <==> ValidFor(client.credentials, Key([GroupScope]), now)
    ensures o.client.id == client.id
    // a hit leaves the cache as it was; only the group scope's entry can change
    ensures ValidFor(client.credentials, Key([GroupScope]), now) ==> o.client.credentials == client.credentials
    ensures !ValidFor(client.credentials, Key([GroupScope]), now) ==> o.mints == [MintRequest(client.id, [GroupScope], now)]
    // on a miss the GET carries the token the endpoint just answered, and that credential is stored
    ensures !ValidFor(client.credentials, Key([GroupScope]), now) ==>
              && o.client.credentials[Key([GroupScope])] == GetCredentials(client.id, [GroupScope], now, exchange)
              && o.requests[0].authorization == Bearer(exchange(MintRequest(client.id, [GroupScope], now)))
    ensures o.client.credentials.Keys == client.credentials.Keys + {Key([GroupScope])}
    ensures forall k :: k in client.credentials && k != Key([GroupScope]) ==>
              o.client.credentials[k] == client.credentials[k]
  {
    var call := MakeRequest(client, GroupsPath(encode(email)), [GroupScope], now, exchange);
    Outcome(GroupEmails(groupsOf(call.request)), call.client, call.mints, [call.request])
  }

  /** `roles_for(email, customer_id)` (lib/googleapi.rb:25-44). */
  function RolesFor(client: Client, email: string, customerId: string, now1: Instant, now2: Instant,
                    exchange: Exchange, encode: string -> string,
                    orgRolesOf: Request -> seq<OrgRole>, assignmentsOf: Request -> seq<RoleAssignment>)
    : (o: Outcome<seq<Option<ResolvedRole>>>)
    ensures |o.requests| == 2
    ensures o.requests[0].path == RolesPath(encode(customerId))
    ensures o.requests[1].path == AssignmentsPath(encode(customerId), encode(email))
    // one element per assignment of the second response, resolved against the first
    ensures o.value == ResolveRoles(orgRolesOf(o.requests[0]), assignmentsOf(o.requests[1]))
    ensures ValidFor(o.client.credentials, Key([RoleScope]), now2)
    ensures o.requests[1].authorization == Bearer(o.client.credentials[Key([RoleScope])].accessToken)
    // the org-roles GET carries the token the cache gives at `now1`
    ensures o.requests[0].authorization ==
              Bearer(AccessTokenFor(client.credentials, client.id, [RoleScope], now1, exchange).token)
    // each request goes through `access_token_for` at its own clock reading, the
    // second on the cache the first left behind
    ensures var r1 := AccessTokenFor(client.credentials, client.id, [RoleScope], now1, exchange);
            var r2 := AccessTokenFor(r1.credentials, client.id, [RoleScope], now2, exchange);
            && o.mints == r1.mints + r2.mints
            && o.requests[1].authorization == Bearer(r2.token)
            && o.client.credentials == r2.credentials
    ensures o.client.id == client.id
    // two hits leave the cache as it was; only the role scope's entry can change
    ensures (ValidFor(client.credentials, Key([RoleScope]), now1) && ValidFor(client.credentials, Key([RoleScope]), now2)) ==>
              o.mints == [] && o.client.credentials == client.credentials
    ensures o.client.credentials.Keys == client.credentials.Keys + {Key([RoleScope])}
    ensures forall k :: k in client.credentials && k != Key([RoleScope]) ==>
              o.client.credentials[k] == client.credentials[k]
  {
    var scopes := [RoleScope];
    var first := MakeRequest(client, RolesPath(encode(customerId)), scopes, now1, exchange);
    var second := MakeRequest(first.client, AssignmentsPath(encode(customerId), encode(email)), scopes, now2, exchange);
    var joined := ResolveRoles(orgRolesOf(first.request), assignmentsOf(second.request));
    Outcome(joined, second.client, first.mints + second.mints, [first.request, second.request])
  }

  /**
   Both requests of `roles_for` use the same scope list, so when the clock at
   the second request is still before the expiry of the credential the first
   one used, the second is a cache hit: at most one mint, one token for both.
   */
  lemma RolesForMintsAtMostOnce(client: Client, email: string, customerId: string, now1: Instant, now2: Instant,
                                exchange: Exchange, encode: string -> string,
                                orgRolesOf: Request -> seq<OrgRole>, assignmentsOf: Request -> seq<RoleAssignment>)
    requires now2 < AccessTokenFor(client.credentials, client.id, [RoleScope], now1, exchange)
                      .credentials[Key([RoleScope])].expiresAt
    ensures var o := RolesFor(client, email, customerId, now1, now2, exchange, encode, orgRolesOf, assignmentsOf);
            |o.mints| <= 1 && o.requests[0].authorization == o.requests[1].authorization
  {
  }

  /**
   Starting with no valid credential for the role scope, a `roles_for` call whose
   two requests fall within the same credential lifetime (less one second, for
   the truncation of the `exp` claim) mints exactly once.
   */
  lemma RolesForMintsExactlyOnce(client: Client, email: string, customerId: string, now1: Instant, now2: Instant,
                                 exchange: Exchange, encode: string -> string,
                                 orgRolesOf: Request -> seq<OrgRole>, assignmentsOf: Request -> seq<RoleAssignment>)
    requires !ValidFor(client.credentials, Key([RoleScope]), now1)
    requires now1 <= now2 < now1 + LifetimeNanos - NanosPerSecond
    ensures var o := RolesFor(client, email, customerId, now1, now2, exchange, encode, orgRolesOf, assignmentsOf);
            o.mints == [MintRequest(client.id, [RoleScope], now1)]
  {
  }

  /**
   `groups_for` and `roles_for` ask for different scopes, so they never share a
   cache entry: each operation leaves the other's credential untouched.
   */
  lemma GroupAndRoleScopesSeparate(client: Client, email: string, now: Instant, exchange: Exchange,
                                   encode: string -> string, groupsOf: Request -> seq<Group>)
    requires Key([RoleScope]) in client.credentials
    ensures Key([GroupScope]) != Key([RoleScope])
    ensures var o := GroupsFor(client, email, now, exchange, encode, groupsOf);
            o.client.credentials[Key([RoleScope])] == client.credentials[Key([RoleScope])]
  {
  }

  /**
   A hit at the first reading followed by expiry before the second: one mint,
   at the second reading, and the assignments GET carries that new token while
   the org-roles GET carried the stored one.
   */
  lemma RolesForHitThenExpiry(client: Client, email: string, customerId: string, now1: Instant, now2: Instant,
                              exchange: Exchange, encode: string -> string,
                              orgRolesOf: Request -> seq<OrgRole>, assignmentsOf: Request -> seq<RoleAssignment>)
    requires ValidFor(client.credentials, Key([RoleScope]), now1)
    requires !ValidFor(client.credentials, Key([RoleScope]), now2)
    ensures var o := RolesFor(client, email, customerId, now1, now2, exchange, encode, orgRolesOf, assignmentsOf);
            && o.mints == [MintRequest(client.id, [RoleScope], now2)]
            && o.requests[0].authorization == Bearer(client.credentials[Key([RoleScope])].accessToken)
            && o.requests[1].authorization == Bearer(exchange(MintRequest(client.id, [RoleScope], now2)))
  {
  }

  /**
   What `roles_for` mints: only role-scope assertions, at one of its two clock
   readings; a miss at the first reading mints first, and the org-roles GET then
   carries the endpoint's token.
   */
  lemma RolesForMints(client: Client, email: string, customerId: string, now1: Instant, now2: Instant,
                      exchange: Exchange, encode: string -> string,
                      orgRolesOf: Request -> seq<OrgRole>, assignmentsOf: Request -> seq<RoleAssignment>)
    ensures var o := RolesFor(client, email, customerId, now1, now2, exchange, encode, orgRolesOf, assignmentsOf);
            forall i :: 0 <= i < |o.mints| ==>
              o.mints[i] == MintRequest(client.id, [RoleScope], now1) || o.mints[i] == MintRequest(client.id, [RoleScope], now2)
    ensures var o := RolesFor(client, email, customerId, now1, now2, exchange, encode, orgRolesOf, assignmentsOf);
            !ValidFor(client.credentials, Key([RoleScope]), now1) ==>
              && |o.mints| >= 1
              && o.mints[0] == MintRequest(client.id, [RoleScope], now1)
              && o.requests[0].authorization == Bearer(exchange(o.mints[0]))
  {
  }
}
