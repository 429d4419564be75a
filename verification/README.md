# GoogleApi credential cache and directory queries, in Dafny

This project models the `GoogleApi` client of `lib/googleapi.rb`. The client
authenticates as a Google service account that impersonates one user. It asks
the Admin SDK Directory API for a user's groups and roles. The model covers the
logic that is left once the network, JSON and cryptography are taken away:

- **Credential cache** (`credential_cache.dfy`, `scope_key.dfy`). An immutable
  map from cache key to `{access_token, expires_at}` is passed through
  `AccessTokenFor`. The key is the scope list sorted with Ruby's string order
  (`ScopeKey.Key`). An entry is valid only while its expiry is strictly after
  `now`. A valid entry is returned unchanged. On a miss or an expired entry,
  exactly one credential is minted and stored under that key alone.
- **Assertion claims** (`assertion.dfy`). The JWT claim set holds `iss`, `sub`,
  `scope` (the scopes joined by single spaces), `aud`, `exp = to_i(now) + 3600`
  and `iat = to_i(now)`. The credential's expiry is `Time.at(exp)`, the time
  the client asked for. It never comes from the server.
- **Result assembly** (`assembly.dfy`, `directory.dfy`). `groups_for` maps each
  group to its email. `roles_for` joins the user's role assignments with the
  organisation's roles, taking the *first* org role with a matching `roleId`.
  `roles_for` sends both of its requests with the same scope list. Within one
  credential lifetime it mints at most once.

Time is an `Instant`: a count of nanoseconds since the epoch, matching the
resolution of the clock behind `Time.now`. `Time#to_i` truncates to whole seconds. So a
credential minted at `t` is valid for more than 3599 s and at most 3600 s after
`t`. The token endpoint is a function parameter, `exchange`. It maps the posted
form to the `access_token` field of the response, or to `None` when that field
is absent. Directory GETs are function parameters from the request to the parsed
records. `ERB::Util.url_encode` is the function parameter `encode`.
`Directory.GroupsPath`, `Directory.RolesPath` and `Directory.AssignmentsPath`
build the endpoint strings of lib/googleapi.rb:21, 31 and 32.

Behaviour of the code worth noting:

- A token response without `access_token` still caches a credential with a nil
  token (lib/googleapi.rb:55, 87). The request then carries `Bearer ` with an
  empty token.
- An assignment that matches no org role gives a `nil` element. `next` inside
  `map` does not drop it (lib/googleapi.rb:34-36).
  `Assembly.CompactedJoinSkipsUnmatched` shows that removing those `nil`s gives
  the join that skips unmatched assignments.
- The key is sorted but duplicates are kept, so `[a, a]` and `[a]` are different
  entries (lib/googleapi.rb:49).
- The `scope` claim uses the scope list in the order the caller passed it, not
  the sorted order.

## Model

| member | source | states |
|---|---|---|
| ScopeKey.Below | lib/googleapi.rb:49 | Ruby's string comparison: a proper prefix sorts at or before the longer string, and a longer string never sorts at or before its own prefix |
| ScopeKey.BelowReflexive | lib/googleapi.rb:49 | every string sorts at or before itself under Ruby's string comparison |
| ScopeKey.BelowTotal | lib/googleapi.rb:49 | any two strings are comparable, so `sort` has a defined result |
| ScopeKey.BelowAntisymmetric | lib/googleapi.rb:49 | two strings that each sort at or before the other are equal |
| ScopeKey.BelowTransitive | lib/googleapi.rb:49 | string order is transitive |
| ScopeKey.Insert | lib/googleapi.rb:49 | inserting into a sorted list keeps it sorted and adds exactly one occurrence of the element |
| ScopeKey.Sort | lib/googleapi.rb:49 | `Array#sort` returns a sorted permutation of its input |
| ScopeKey.SortedUnique | lib/googleapi.rb:49 | two sorted lists with the same multiset of elements are identical, so the sorted order is unique |
| ScopeKey.Key | lib/googleapi.rb:49 | the cache key is a sorted list holding exactly the requested scopes, duplicates included |
| ScopeKey.KeyDeterminedByMultiset | lib/googleapi.rb:49 | two scope lists share a cache key if and only if they hold the same scopes the same number of times |
| ScopeKey.KeyOfSorted | lib/googleapi.rb:49 | an already sorted scope list is its own key, so every stored key is a fixed point of canonicalisation |
| ScopeKey.DuplicatesAreDistinctKeys | lib/googleapi.rb:49 | `[a, a]` and `[a]` are different cache entries, because duplicates are not removed |
| Assertion.ToSeconds | lib/googleapi.rb:74-75 | `to_i` gives the whole second containing the instant |
| Assertion.AtSeconds | lib/googleapi.rb:86 | `Time.at(exp)` is the whole-second instant (no sub-second part) whose `to_i` is `exp`, so it is the start of second `exp`, the inverse of `to_i` on whole seconds |
| Assertion.JoinScopes | lib/googleapi.rb:72 | the space-joined scope claim splits back into the scope list, for every non-empty list of space-free scopes |
| Assertion.BuildClaims | lib/googleapi.rb:69-76 | `iss` is the service id, `sub` the user and `aud` the token URL; `exp` is exactly 3600 s after `iat`; `iat` is the second containing `now` |
| Assertion.MintRequest | lib/googleapi.rb:69-80 | the posted form has the JWT-bearer grant type; its assertion names the service id, user, token URL and joined scopes, with `iat` the second containing `now` and `exp` 3600 s later |
| Assertion.ClaimsCarryScopes | lib/googleapi.rb:72 | the scope claim of a minted assertion names exactly the requested scopes, in the order given |
| CredentialCache.ValidFor | lib/googleapi.rb:59-61 | a missing entry is never valid; a present entry is valid while `now` is before its expiry and invalid from the expiry instant on |
| CredentialCache.ValidityIsMonotone | lib/googleapi.rb:59-61 | an entry valid at some instant was valid at every earlier instant |
| CredentialCache.GetCredentials | lib/googleapi.rb:69-88 | the token is the endpoint's `access_token`; the expiry is `Time.at(exp)` of the request's own claim and lies after `now` and at most 3600 s later |
| CredentialCache.AccessTokenFor | lib/googleapi.rb:48-61 | a valid hit returns the stored token with no mint and no change; a miss or expiry mints exactly once for these scopes and stores and returns the new token; only the requested key changes; the token handed out is valid at `now` |
| CredentialCache.AccessTokenForKeepsFresh | lib/googleapi.rb:48-61 | if the clock does not run backwards, every key stays canonical and no entry is valid beyond one lifetime after the latest call |
| CredentialCache.MintedValidityWindow | lib/googleapi.rb:59-61 | a credential minted at `t` is valid exactly while `now` is before second `to_i(t) + 3600`; it is valid throughout the first 3599 s and invalid from 3600 s on |
| CredentialCache.RepeatBeforeExpiryHits | lib/googleapi.rb:48-57 | a second request for the same scopes in any order, before the stored expiry, returns the same token with no mint and no change |
| CredentialCache.RepeatAfterExpiryMints | lib/googleapi.rb:51-56 | once the clock reaches the stored expiry, the next request mints again for that time |
| CredentialCache.DistinctScopeListsIndependent | lib/googleapi.rb:49-55 | a request for one scope list leaves the entry of any list with different scopes, a subset included, untouched |
| CredentialCache.MissingTokenIsCached | lib/googleapi.rb:55-88 | a response without `access_token` still caches a valid entry with a nil token and returns nil |
| Assembly.GroupEmails | lib/googleapi.rb:22 | one email per group, in the same order; an empty `groups` array gives an empty result |
| Assembly.GroupEmailsAppend | lib/googleapi.rb:22 | the projection of concatenated group lists is the concatenation of their projections |
| Assembly.Detect | lib/googleapi.rb:35 | `detect` returns nil if and only if no role has the id, and otherwise returns the first role with that id |
| Assembly.ResolveAssignment | lib/googleapi.rb:35-42 | nil if and only if no org role has the assignment's `roleId`; otherwise the id, name and description of the first org role that does |
| Assembly.ResolveRoles | lib/googleapi.rb:34-43 | one element per assignment, in order; nil if and only if no org role has its `roleId`, and otherwise the id, name and description of the first org role that does |
| Assembly.CompactedJoinSkipsUnmatched | lib/googleapi.rb:34-43 | dropping the nils from the join gives, in order, the resolved role of every matched assignment |
| Assembly.UnmatchedAssignmentYieldsNil | lib/googleapi.rb:36 | with org role "1" and assignments "1" and "2", the result is `[role 1, nil]`: the unmatched assignment leaves a nil |
| Assembly.FirstOrgRoleWins | lib/googleapi.rb:35 | when two org roles share an id, every assignment of that id resolves to the first |
| Directory.Scope | lib/googleapi.rb:103-105 | a scope is the API root URL followed by the path, and stripping that prefix gives back the path |
| Directory.ScopeInjective | lib/googleapi.rb:103-105 | different paths give different scopes |
| Directory.Bearer | lib/googleapi.rb:98 | the header is `Bearer ` followed by the token; a nil token leaves just `Bearer ` |
| Directory.NilBearerIsEmpty | lib/googleapi.rb:98 | a nil token and an empty token send the same header |
| Directory.MakeRequest | lib/googleapi.rb:91-98 | the GET goes to the given endpoint and carries `Bearer` plus a token valid at `now`; a hit mints nothing and leaves the cache unchanged; a miss mints once, for these scopes at `now`, stores exactly the credential `get_credentials` returns and sends the token the endpoint answered; only the requested key changes |
| Directory.GroupsFor | lib/googleapi.rb:17-23 | one GET to `GroupsPath` of the encoded email with a valid bearer; the result is the response's group emails, in order, one per group; a hit mints nothing and leaves the cache unchanged; a miss mints once, stores the new credential and sends the endpoint's token; only the group scope's entry can change |
| Directory.RolesFor | lib/googleapi.rb:25-44 | a GET to `RolesPath` of the encoded customer id with the token the cache gives at `now1`, then a GET to `AssignmentsPath` with the token the cache, as the first call left it, gives at `now2`; the mints are those of the two cache calls in order; the result has one element per assignment, resolved against the roles; only the role scope's entry can change |
| Directory.RolesForMintsAtMostOnce | lib/googleapi.rb:29-32 | if the second request comes before the expiry of the credential used by the first, the call mints at most once and both requests carry the same token |
| Directory.RolesForMintsExactlyOnce | lib/googleapi.rb:29-32 | starting with no valid role-scope credential, with both requests within 3599 s, the call mints exactly once |
| Directory.RolesForMints | lib/googleapi.rb:29-32 | every mint of `roles_for` is a role-scope assertion at one of its two clock readings; a miss at the first reading mints first and the org-roles GET carries the endpoint's token |
| Directory.RolesForHitThenExpiry | lib/googleapi.rb:31-32 | a hit at the first reading and expiry before the second mints once, at the second reading; the org-roles GET carries the stored token and the assignments GET the new one |
| Directory.GroupAndRoleScopesSeparate | lib/googleapi.rb:20-29 | the group scope and the role scope have different cache keys, so `groups_for` leaves the role credential untouched |

## Left out

- HTTP transport (`Net::HTTP`, TLS, port 443, sending requests) is I/O. Directory GETs and the token endpoint are function parameters.
- JSON parsing is a library call. Responses arrive as parsed records. Missing fields and the exceptions they cause (`nil.map` when `groups` or `items` is absent) are outside the model, as are transport and parse failures.
- RSA key loading and RS256 signing are cryptographic library calls. The signed assertion is modelled by its claim set, and the private key is not part of `Identity`.
- `ERB::Util.url_encode` is a foreign library. It is the uninterpreted parameter `encode`.
- `Time.now` is a parameter. When an expired entry is present, the source reads the clock three times: once for the validity check (line 60) and twice for the claims (lines 74 and 75). When there is no entry, the `&&` on line 60 stops at the missing entry without reading the clock, so only lines 74 and 75 read it. The model uses one reading for all of them, so `AccessTokenFor` checks validity and mints at the same instant. With separate readings, a check at 99.9 s followed by a mint reading at 100.1 s stores expiry 3700 s, which is more than one lifetime after the check; `AccessTokenForKeepsFresh` measures its bound from that single reading.
- `to_json` of the sorted scope list: the model keys the cache by the sorted list itself. `to_json` is injective on string arrays, so the two keyings give the same key equality.
- Concurrency and mint races are left out, because the source is single-threaded.
- RepeatAfterExpiryMints: does not state that the new token differs from the old one, because the token endpoint is an arbitrary function and the source promises nothing about its answers.
