/**
 * The indexing client's process-wide bearer-token cache.
 *
 * The token endpoint is not called: `issued` is the token it would hand back
 * if asked at that moment, and `now` is the clock reading, an integer
 * timestamp in seconds.
 */
module TokenCache {

  /**
   * A token as the OAuth client returns it: the access token, its lifetime in
   * seconds as sent by the endpoint (`expires_in`, section 5.1 of RFC 6749),
   * and the absolute expiry timestamp the client library adds (`expires_at`).
   */
  datatype OAuthToken = OAuthToken(accessToken: string, expiresIn: int, expiresAt: int)

  /** The token was issued at `now`: its absolute expiry is `now` plus its lifetime. */
  predicate IssuedAt(t: OAuthToken, now: int) {
    t.expiresAt == now + t.expiresIn
  }

  /** Which field of the cached token is read as its expiry timestamp. */
  datatype ExpiryField = ExpiresInField | ExpiresAtField

  function ExpiryOf(t: OAuthToken, field: ExpiryField): int {
    match field
    case ExpiresInField => t.expiresIn
    case ExpiresAtField => t.expiresAt
  }

  /** The cache: empty at start-up, then holding the last fetched token. */
  datatype Cache = Empty | Holding(token: OAuthToken)

  /** The answer of one lookup: the access token and expiry handed out, the new cache, and whether a fetch happened. */
  datatype Lookup = Lookup(accessToken: string, expiry: int, cache: Cache, fetched: bool)

  /**
   * One lookup. A new token is fetched exactly when none is cached or the
   * cached token's expiry is strictly before `now`; the fetched token then
   * replaces the cached one. Otherwise the cached token is handed out and the
   * cache does not change.
   */
  function GetJwtTokenWith(c: Cache, now: int, issued: OAuthToken, field: ExpiryField): (r: Lookup)
    ensures r.fetched <==> c.Empty? || ExpiryOf(c.token, field) < now
    ensures r.fetched ==>
              r.cache == Holding(issued) && r.accessToken == issued.accessToken && r.expiry == ExpiryOf(issued, field)
    ensures !r.fetched ==>
              r.cache == c && r.accessToken == c.token.accessToken && r.expiry == ExpiryOf(c.token, field)
    ensures r.cache.Holding? && r.accessToken == r.cache.token.accessToken
  {
    if c.Empty? || ExpiryOf(c.token, field) < now then
      Lookup(issued.accessToken, ExpiryOf(issued, field), Holding(issued), true)
    else
      Lookup(c.token.accessToken, ExpiryOf(c.token, field), c, false)
  }

  /** The lookup as the client performs it, reading the cached token's `expires_in` as a timestamp. */
  function GetJwtTokenAsWritten(c: Cache, now: int, issued: OAuthToken): Lookup {
    GetJwtTokenWith(c, now, issued, ExpiresInField)
  }

  /** The lookup with the cached token's absolute expiry, as the cache is evidently meant to work. */
  function GetJwtToken(c: Cache, now: int, issued: OAuthToken): Lookup {
    GetJwtTokenWith(c, now, issued, ExpiresAtField)
  }

  /** One call of the client: the clock reading and the token the endpoint would give. */
  datatype Call = Call(now: int, issued: OAuthToken)

  /** The cache after a run of calls, and how many of them fetched a token. */
  datatype Session = Session(cache: Cache, fetches: nat)

  function RunCalls(c: Cache, calls: seq<Call>, field: ExpiryField): Session
    decreases |calls|
  {
    if |calls| == 0 then Session(c, 0)
    else
      var r := GetJwtTokenWith(c, calls[0].now, calls[0].issued, field);
      var rest := RunCalls(r.cache, calls[1..], field);
      Session(rest.cache, rest.fetches + (if r.fetched then 1 else 0))
  }

  /** The cache holds a token still valid at every clock reading up to `horizon`. */
  predicate ValidUntil(c: Cache, horizon: int) {
    c.Holding? && ExpiryOf(c.token, ExpiresAtField) >= horizon
  }

  /**
   * With absolute expiries, a session whose clock never passes `horizon` and
   * whose tokens all outlive it fetches at most once, and not at all when the
   * cache already held a token valid that long.
   */
  lemma {:induction false} AtMostOneFetch(c: Cache, calls: seq<Call>, horizon: int)
    requires forall i :: 0 <= i < |calls| ==> calls[i].now <= horizon
    requires forall i :: 0 <= i < |calls| ==> ExpiryOf(calls[i].issued, ExpiresAtField) >= horizon
    ensures RunCalls(c, calls, ExpiresAtField).fetches <= 1
    ensures ValidUntil(c, horizon) ==> RunCalls(c, calls, ExpiresAtField).fetches == 0
    decreases |calls|
  {
    if |calls| > 0 {
      var r := GetJwtTokenWith(c, calls[0].now, calls[0].issued, ExpiresAtField);
      AtMostOneFetch(r.cache, calls[1..], horizon);
      if r.fetched {
        assert ValidUntil(r.cache, horizon);
      }
    }
  }

  /**
   * Reading `expires_in` as a timestamp: once the clock is past every token's
   * lifetime in seconds (any real clock after the first hours of 1970), every
   * call fetches a new token, so the cache never saves a fetch.
   */
  lemma {:induction false} AsWrittenFetchesOnEveryCall(c: Cache, calls: seq<Call>, lifetime: int)
    requires c.Holding? ==> c.token.expiresIn <= lifetime
    requires forall i :: 0 <= i < |calls| ==> calls[i].issued.expiresIn <= lifetime < calls[i].now
    ensures RunCalls(c, calls, ExpiresInField).fetches == |calls|
    decreases |calls|
  {
    if |calls| > 0 {
      var r := GetJwtTokenWith(c, calls[0].now, calls[0].issued, ExpiresInField);
      assert r.fetched;
      AsWrittenFetchesOnEveryCall(r.cache, calls[1..], lifetime);
    }
  }

  /**
   * A concrete case: a one-hour token fetched at 1700000000 is still cached one
   * second later. Read by its absolute expiry it is reused; read by `expires_in`
   * (3600, i.e. one hour after the epoch) it is treated as long expired.
   */
  lemma LiveTokenRefetchedAsWritten()
    ensures var t := OAuthToken("jwt", 3600, 1700003600);
            && IssuedAt(t, 1700000000)
            && GetJwtTokenAsWritten(Holding(t), 1700000001, t).fetched
            && !GetJwtToken(Holding(t), 1700000001, t).fetched
  {
  }
}
