/**
 The signed-assertion claim set that `get_credentials` sends to the token
 endpoint (lib/googleapi.rb:69-80), and the credential it yields
 (lib/googleapi.rb:85-88). Signing (RS256) is left out: the assertion is the
 claim set itself, as an opaque value handed to the endpoint.

 Time is an `Instant`: nanoseconds since the Unix epoch, the resolution of Ruby's
 `Time`. `Time#to_i` truncates an instant to whole seconds.
 */
module Assertion {

  const ApiRoot: string := "www.googleapis.com"
  const TokenPath: string := "/oauth2/v3/token"
  /** The audience claim: the token endpoint's URL. */
  const Audience: string := "https://" + ApiRoot + TokenPath
  const GrantType: string := "urn:ietf:params:oauth:grant-type:jwt-bearer"
  /** The requested lifetime of every assertion, `60 * 60` seconds. */
  const LifetimeSeconds: nat := 60 * 60
  const NanosPerSecond: nat := 1_000_000_000

  type Instant = nat

  /** `Time#to_i`: whole seconds since the epoch. */
  function ToSeconds(t: Instant): (s: nat)
    ensures s * NanosPerSecond <= t < (s + 1) * NanosPerSecond
  {
    t / NanosPerSecond
  }

  /** `Time.at(s)`: the instant at the start of second `s`; `to_i` gives `s` back. */
  function AtSeconds(s: nat): (t: Instant)
    ensures ToSeconds(t) == s
    ensures t % NanosPerSecond == 0
  {
    s * NanosPerSecond
  }

  /** The identity the client acts as: the service account and the user it impersonates. */
  datatype Identity = Identity(serviceId: string, user: string)

  /** The JWT claim set of lib/googleapi.rb:69-76; `exp` and `iat` are in seconds. */
  datatype Claims = Claims(iss: string, sub: string, scope: string, aud: string, exp: nat, iat: nat)

  /** The form posted to the token endpoint (lib/googleapi.rb:80). */
  datatype TokenRequest = TokenRequest(assertion: Claims, grantType: string)

  /**
   `Array#join(' ')` (lib/googleapi.rb:72). The claim carries the scope list
   exactly: splitting it at spaces gives back the list, provided the list is
   non-empty and no scope holds a space (`[]` and `[""]` both join to "").
   */
  function JoinScopes(scopes: seq<string>): (claim: string)
    ensures (|scopes| > 0 && forall i :: 0 <= i < |scopes| ==> SpaceFree(scopes[i])) ==>
              SplitScopes(claim) == scopes
  {
    if |scopes| == 0 then ""
    else if |scopes| == 1 then
      assert SpaceFree(scopes[0]) ==> SplitScopes(scopes[0]) == scopes by {
        if SpaceFree(scopes[0]) {
          SplitSpaceFree(scopes[0], [], "");
          assert scopes[0] + "" == scopes[0];
        }
      }
      scopes[0]
    else
      var rest := JoinScopes(scopes[1..]);
      var t := " " + rest;
      assert (forall i :: 0 <= i < |scopes| ==> SpaceFree(scopes[i])) ==> SplitScopes(scopes[0] + t) == scopes by {
        if forall i :: 0 <= i < |scopes| ==> SpaceFree(scopes[i]) {
          assert t[1..] == rest;
          SplitSpaceFree(scopes[0], scopes[1..], t);
          assert [scopes[0]] + scopes[1..] == scopes;
        }
      }
      assert scopes[0] + " " + rest == scopes[0] + t;
      scopes[0] + t
  }

  /**
   Reads a space-delimited scope claim back into its parts (section 3.3 of
   RFC 6749 defines the scope claim as space-delimited). Every single space
   separates two parts; keeping empty parts, which that grammar never
   produces, is this model's own choice so that splitting is total.
   */
  function SplitScopes(t: string): (parts: seq<string>)
    ensures |parts| > 0
    decreases |t|
  {
    if |t| == 0 then [""]
    else if t[0] == ' ' then [""] + SplitScopes(t[1..])
    else
      var rest := SplitScopes(t[1..]);
      [[t[0]] + rest[0]] + rest[1..]
  }

  /** A scope in which no space occurs, so it survives the space-joined claim. */
  predicate SpaceFree(s: string) {
    forall i :: 0 <= i < |s| ==> s[i] != ' '
  }

  lemma {:induction false} SplitSpaceFree(a: string, tail: seq<string>, t: string)
    requires SpaceFree(a)
    requires |t| == 0 ==> tail == []
    requires |t| > 0 ==> t[0] == ' ' && SplitScopes(t[1..]) == tail
    ensures SplitScopes(a + t) == [a] + tail
    decreases |a|
  {
    if |a| == 0 {
      assert a + t == t;
      if |t| > 0 {
        assert SplitScopes(t) == [""] + tail;
      }
    } else {
      SplitSpaceFree(a[1..], tail, t);
      assert (a + t)[1..] == a[1..] + t;
      assert [a[0]] + a[1..] == a;
    }
  }

  /** The claim set `get_credentials` builds at `now` (lib/googleapi.rb:69-76). */
  function BuildClaims(id: Identity, scopes: seq<string>, now: Instant): (c: Claims)
    ensures c.iss == id.serviceId && c.sub == id.user && c.aud == Audience
    ensures c.exp == c.iat + LifetimeSeconds
    ensures AtSeconds(c.iat) <= now < AtSeconds(c.iat + 1)
  {
    Claims(
      iss := id.serviceId,
      sub := id.user,
      scope := JoinScopes(scopes),
      aud := Audience,
      exp := ToSeconds(now) + LifetimeSeconds,
      iat := ToSeconds(now))
  }

  /** The scope claim of a minted assertion names exactly the requested scopes. */
  lemma ClaimsCarryScopes(id: Identity, scopes: seq<string>, now: Instant)
    requires |scopes| > 0
    requires forall i :: 0 <= i < |scopes| ==> SpaceFree(scopes[i])
    ensures SplitScopes(BuildClaims(id, scopes, now).scope) == scopes
  {
  }

  /**
   The form posted to the token endpoint for `scopes` at `now`
   (lib/googleapi.rb:69-80): the JWT-bearer grant with the claim set as assertion.
   */
  function MintRequest(id: Identity, scopes: seq<string>, now: Instant): (req: TokenRequest)
    ensures req.grantType == GrantType
    ensures req.assertion.iss == id.serviceId && req.assertion.sub == id.user
    ensures req.assertion.aud == Audience
    ensures req.assertion.scope == JoinScopes(scopes)
    ensures req.assertion.exp == req.assertion.iat + LifetimeSeconds
    ensures AtSeconds(req.assertion.iat) <= now < AtSeconds(req.assertion.iat + 1)
  {
    TokenRequest(BuildClaims(id, scopes, now), GrantType)
  }
}
