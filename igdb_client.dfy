/**
 * The provider client (IGDBManager): the token cache of the OAuth 2.0
 * client-credentials grant (section 4.4 of RFC 6749) and the four query
 * operations. The clock, the token endpoint and the HTTPS transport are
 * parameters: now is the wall-clock time in seconds, grant is the parsed
 * reply of the token endpoint (None when the fetch failed, was empty or did
 * not parse), and transport gives the parsed reply to a request body.
 */
module IgdbClient {
  import opened Wrappers
  import opened Json
  import opened GameEntities
  import opened IgdbQueries
  import IgdbParse

  /** kTokenExpiryBufferSeconds: a token is dropped this long before the provider expires it. */
  const ExpiryBufferSeconds: int := 300

  /**
   * How long a fresh token is reused: expires_in - 300, computed in
   * std::uint32_t, so a lifetime under five minutes wraps to about 136 years.
   */
  function ReuseSeconds(expiresIn: nat): (r: nat)
    requires expiresIn < TwoTo32
    ensures r < TwoTo32
    ensures expiresIn >= ExpiryBufferSeconds ==> r == expiresIn - ExpiryBufferSeconds
    ensures expiresIn < ExpiryBufferSeconds ==> r == expiresIn - ExpiryBufferSeconds + TwoTo32
  {
    WrapUint32(expiresIn - ExpiryBufferSeconds)
  }

  /** The three fields of the token cache. */
  datatype TokenCache = TokenCache(cachedToken: Option<string>, tokenExpiry: int, accessToken: string)

  /** What one call of Authenticate does: its result, whether it asked for a token, and the new cache. */
  datatype AuthStep = AuthStep(ok: bool, fetched: bool, after: TokenCache)

  /**
   * Authenticate. A cached token is reused strictly before its expiry;
   * otherwise a token is fetched. A failed fetch, or a reply without a string
   * access_token, changes nothing. Otherwise the token is stored; then
   * expires_in, when present, sets the expiry, and when it is not a number the
   * call fails with the new token already stored. A token is fetched exactly
   * when there is no cached token or its expiry has come, and the expiry moves
   * only on a fetch that succeeds.
   */
  function Authenticated(before: TokenCache, now: int, grant: Option<Json>): (r: AuthStep)
    ensures r.fetched <==> before.cachedToken.None? || now >= before.tokenExpiry
    ensures r.after.tokenExpiry != before.tokenExpiry ==> r.fetched && r.ok
  {
    if before.cachedToken.Some? && now < before.tokenExpiry then
      AuthStep(true, false, before.(accessToken := before.cachedToken.value))
    else if grant.None? || !Contains(grant.value, "access_token") then
      AuthStep(false, true, before)
    else
      match AsString(Member(grant.value, "access_token"))
      case None => AuthStep(false, true, before)
      case Some(token) =>
        var stored := before.(accessToken := token, cachedToken := Some(token));
        if !Contains(grant.value, "expires_in") then AuthStep(true, true, stored)
        else
          match AsUint32(Member(grant.value, "expires_in"))
          case None => AuthStep(false, true, stored)
          case Some(expiresIn) => AuthStep(true, true, stored.(tokenExpiry := now + ReuseSeconds(expiresIn)))
  }

  /** The token the grant carries, when it carries a string access_token. */
  function GrantedToken(grant: Option<Json>): Option<string> {
    if grant.Some? && Contains(grant.value, "access_token") then AsString(Member(grant.value, "access_token")) else None
  }

  /** A request as sent: the body and the bearer token of its Authorization header. */
  datatype Request = Request(body: string, bearer: string)

  class Client {
    var cachedToken: Option<string>
    var tokenExpiry: int
    var accessToken: string
    /** How many times a token was requested from the token endpoint. */
    ghost var fetches: nat
    /** The requests sent to the games endpoint, oldest first. */
    ghost var sent: seq<Request>

    function Cache(): TokenCache
      reads this
    {
      TokenCache(cachedToken, tokenExpiry, accessToken)
    }

    /** A new client: nothing cached, the expiry at the clock's epoch. */
    constructor()
      ensures Cache() == TokenCache(None, 0, "")
      ensures fetches == 0 && sent == []
    {
      cachedToken := None;
      tokenExpiry := 0;
      accessToken := "";
      fetches := 0;
      sent := [];
    }

    method Authenticate(now: int, grant: Option<Json>) returns (ok: bool)
      modifies this
      ensures var step := Authenticated(old(Cache()), now, grant);
        ok == step.ok && Cache() == step.after
        && fetches == old(fetches) + (if step.fetched then 1 else 0)
      ensures sent == old(sent)
    {
      if cachedToken.Some? && now < tokenExpiry {
        accessToken := cachedToken.value;
        return true;
      }
      fetches := fetches + 1;
      if grant.None? {
        return false;
      }
      var json := grant.value;
      if !Contains(json, "access_token") {
        return false;
      }
      var token := AsString(Member(json, "access_token"));
      if token.None? {
        return false;
      }
      accessToken := token.value;
      cachedToken := Some(accessToken);
      if Contains(json, "expires_in") {
        var expiresIn := AsUint32(Member(json, "expires_in"));
        if expiresIn.None? {
          return false;
        }
        tokenExpiry := now + ReuseSeconds(expiresIn.value);
      }
      return true;
    }

    /**
     * The common shape of the four query operations: authenticate, and on
     * success send the body with the current token and parse the reply; on
     * failure send nothing and return no games.
     */
    method Query(body: string, now: int, grant: Option<Json>, transport: string -> Option<Json>)
      returns (games: seq<GameInfo>)
      modifies this
      ensures var step := Authenticated(old(Cache()), now, grant);
        Cache() == step.after
        && fetches == old(fetches) + (if step.fetched then 1 else 0)
        && (step.ok ==> sent == old(sent) + [Request(body, accessToken)]
                        && games == IgdbParse.ResponseGames(transport(body)))
        && (!step.ok ==> sent == old(sent) && games == [])
    {
      var ok := Authenticate(now, grant);
      if !ok {
        return [];
      }
      sent := sent + [Request(body, accessToken)];
      games := IgdbParse.ParseGamesResponse(transport(body));
    }

    method SearchGames(query: string, limit: Int32, now: int, grant: Option<Json>, transport: string -> Option<Json>)
      returns (games: seq<GameInfo>)
      modifies this
      ensures var step := Authenticated(old(Cache()), now, grant);
        Cache() == step.after
        && fetches == old(fetches) + (if step.fetched then 1 else 0)
        && (step.ok ==> sent == old(sent) + [Request(SearchBody(query, limit), accessToken)]
                        && games == IgdbParse.ResponseGames(transport(SearchBody(query, limit))))
        && (!step.ok ==> sent == old(sent) && games == [])
    {
      games := Query(SearchBody(query, limit), now, grant, transport);
    }

    method GetGameBySlug(slug: string, now: int, grant: Option<Json>, transport: string -> Option<Json>)
      returns (games: seq<GameInfo>)
      modifies this
      ensures var step := Authenticated(old(Cache()), now, grant);
        Cache() == step.after
        && fetches == old(fetches) + (if step.fetched then 1 else 0)
        && (step.ok ==> sent == old(sent) + [Request(SlugBody(slug), accessToken)]
                        && games == IgdbParse.ResponseGames(transport(SlugBody(slug))))
        && (!step.ok ==> sent == old(sent) && games == [])
    {
      games := Query(SlugBody(slug), now, grant, transport);
    }

    method GetGamesByGenre(genre: string, limit: Int32, now: int, grant: Option<Json>, transport: string -> Option<Json>)
      returns (games: seq<GameInfo>)
      modifies this
      ensures var step := Authenticated(old(Cache()), now, grant);
        Cache() == step.after
        && fetches == old(fetches) + (if step.fetched then 1 else 0)
        && (step.ok ==> sent == old(sent) + [Request(GenreBody(genre, limit), accessToken)]
                        && games == IgdbParse.ResponseGames(transport(GenreBody(genre, limit))))
        && (!step.ok ==> sent == old(sent) && games == [])
    {
      games := Query(GenreBody(genre, limit), now, grant, transport);
    }

    /** The same now stands for the clock read of the token check and for std::time. */
    method GetUpcomingGames(limit: Int32, now: int, grant: Option<Json>, transport: string -> Option<Json>)
      returns (games: seq<GameInfo>)
      modifies this
      ensures var step := Authenticated(old(Cache()), now, grant);
        Cache() == step.after
        && fetches == old(fetches) + (if step.fetched then 1 else 0)
        && (step.ok ==> sent == old(sent) + [Request(UpcomingBody(now, limit), accessToken)]
                        && games == IgdbParse.ResponseGames(transport(UpcomingBody(now, limit))))
        && (!step.ok ==> sent == old(sent) && games == [])
    {
      games := Query(UpcomingBody(now, limit), now, grant, transport);
    }
  }

  // ---------------------------------------------------------------------
  // Properties of the token cache
  // ---------------------------------------------------------------------

  /** Strictly before the expiry, a cached token is reused and nothing is fetched, whatever the endpoint would say. */
  lemma CacheHitReusesToken(before: TokenCache, now: int, grant: Option<Json>)
    requires before.cachedToken.Some? && now < before.tokenExpiry
    ensures var step := Authenticated(before, now, grant);
      step.ok && !step.fetched
      && step.after.accessToken == before.cachedToken.value
      && step.after.cachedToken == before.cachedToken
      && step.after.tokenExpiry == before.tokenExpiry
  {
  }

  /** A fetch succeeds exactly when the grant carries a string token and any expires_in is a number. */
  lemma FetchOutcome(before: TokenCache, now: int, grant: Option<Json>)
    requires before.cachedToken.None? || now >= before.tokenExpiry
    ensures var step := Authenticated(before, now, grant);
      step.ok <==> (GrantedToken(grant).Some?
                    && (Contains(grant.value, "expires_in") ==> AsUint32(Member(grant.value, "expires_in")).Some?))
  {
  }

  /** A failed fetch, an empty or unparsable reply, or one without a string access_token changes nothing. */
  lemma NoTokenChangesNothing(before: TokenCache, now: int, grant: Option<Json>)
    requires before.cachedToken.None? || now >= before.tokenExpiry
    requires GrantedToken(grant).None?
    ensures Authenticated(before, now, grant) == AuthStep(false, true, before)
  {
  }

  /**
   * A granted token is stored as both the current and the cached token, even
   * when the call then fails on a malformed expires_in.
   */
  lemma GrantedTokenStored(before: TokenCache, now: int, grant: Option<Json>)
    requires before.cachedToken.None? || now >= before.tokenExpiry
    requires GrantedToken(grant).Some?
    ensures var step := Authenticated(before, now, grant);
      step.after.accessToken == GrantedToken(grant).value
      && step.after.cachedToken == GrantedToken(grant)
  {
  }

  /** The new expiry: now + (expires_in - 300) in uint32 when given, the old expiry when absent. */
  lemma ExpiryFromGrant(before: TokenCache, now: int, grant: Option<Json>)
    requires before.cachedToken.None? || now >= before.tokenExpiry
    requires GrantedToken(grant).Some?
    ensures var step := Authenticated(before, now, grant);
      && (!Contains(grant.value, "expires_in") ==> step.ok && step.after.tokenExpiry == before.tokenExpiry)
      && (Contains(grant.value, "expires_in") && AsUint32(Member(grant.value, "expires_in")).Some? ==>
            step.ok && step.after.tokenExpiry == now + ReuseSeconds(AsUint32(Member(grant.value, "expires_in")).value))
      && (Contains(grant.value, "expires_in") && AsUint32(Member(grant.value, "expires_in")).None? ==>
            !step.ok && step.after.tokenExpiry == before.tokenExpiry)
  {
  }

  /** A lifetime shorter than the buffer wraps: the token is then reused for about 136 years. */
  lemma ShortLifetimeWraps(expiresIn: nat)
    requires expiresIn < ExpiryBufferSeconds
    ensures ReuseSeconds(expiresIn) >= TwoTo32 - ExpiryBufferSeconds
  {
  }

  /** A cache in which a present cached token is also the current token. */
  predicate Coherent(c: TokenCache) {
    c.cachedToken.Some? ==> c.accessToken == c.cachedToken.value
  }

  /** Every call keeps the cache coherent, and a cached token is never forgotten. */
  lemma AuthenticateKeepsCoherence(before: TokenCache, now: int, grant: Option<Json>)
    requires Coherent(before)
    ensures Coherent(Authenticated(before, now, grant).after)
    ensures before.cachedToken.Some? ==> Authenticated(before, now, grant).after.cachedToken.Some?
  {
  }

  /**
   * After a fetch that stored a token with expires_in above the buffer, a
   * later call before now + expires_in - 300 is a cache hit that reuses it.
   */
  lemma {:induction false} FreshTokenReused(before: TokenCache, now: int, grant: Option<Json>, later: int, next: Option<Json>)
    requires before.cachedToken.None? || now >= before.tokenExpiry
    requires GrantedToken(grant).Some? && Contains(grant.value, "expires_in")
    requires Member(grant.value, "expires_in").JInt?
    requires ExpiryBufferSeconds < Member(grant.value, "expires_in").i < TwoTo32
    requires later < now + Member(grant.value, "expires_in").i - ExpiryBufferSeconds
    ensures var first := Authenticated(before, now, grant);
      var second := Authenticated(first.after, later, next);
      first.ok && second.ok && !second.fetched
      && second.after.accessToken == GrantedToken(grant).value
  {
    var first := Authenticated(before, now, grant);
    GrantedTokenStored(before, now, grant);
    ExpiryFromGrant(before, now, grant);
    assert first.after.tokenExpiry == now + Member(grant.value, "expires_in").i - ExpiryBufferSeconds;
    CacheHitReusesToken(first.after, later, next);
  }
}
