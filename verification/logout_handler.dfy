/** The logout handler: revokes the record of the access token carried by
    the request's bearer header. */
module LogoutHandler {
  import opened Wrappers
  import opened Users
  import opened Tokens
  import opened JwtService
  import opened Http
  import opened Store

  /** The store after a logout with `header`: the record found for the
      bearer token is revoked and nothing else changes; without a bearer
      token, or without a record for it, the store is unchanged. */
  function LoggedOut(tokens: seq<Token>, header: Option<string>): (r: seq<Token>)
    ensures |r| == |tokens|
    ensures Evolves(tokens, r)
    ensures BearerToken(header).None? ==> r == tokens
    ensures BearerToken(header).Some? && FindByAccessToken(tokens, BearerToken(header).value).None? ==> r == tokens
    ensures BearerToken(header).Some? && FindByAccessToken(tokens, BearerToken(header).value).Some? ==>
      var i := FindByAccessToken(tokens, BearerToken(header).value).value;
      && r[i] == tokens[i].(loggedOut := true)
      && forall j :: 0 <= j < |tokens| && j != i ==> r[j] == tokens[j]
  {
    match BearerToken(header)
    case None => tokens
    case Some(token) =>
      match FindByAccessToken(tokens, token)
      case None => tokens
      case Some(i) => tokens[i := tokens[i].(loggedOut := true)]
  }

  /** Handles a logout request. */
  method Logout(db: Database, header: Option<string>)
    requires db.Valid()
    modifies db
    ensures db.Valid()
    ensures db.users == old(db.users)
    ensures db.tokens == LoggedOut(old(db.tokens), header)
  {
    var bearer := BearerToken(header);
    if bearer.None? {
      return;
    }
    var token := bearer.value;
    var storedToken := FindByAccessToken(db.tokens, token);
    if storedToken.Some? {
      var i := storedToken.value;
      db.tokens := db.tokens[i := db.tokens[i].(loggedOut := true)];
    }
  }

  /** Logging out twice with the same header leaves the store as logging
      out once. */
  lemma {:induction false} LogoutIdempotent(tokens: seq<Token>, header: Option<string>)
    ensures LoggedOut(LoggedOut(tokens, header), header) == LoggedOut(tokens, header)
  {
    var once := LoggedOut(tokens, header);
    if BearerToken(header).Some? && FindByAccessToken(tokens, BearerToken(header).value).Some? {
      var token := BearerToken(header).value;
      FindByAccessTokenStable(tokens, once, token);
      var twice := LoggedOut(once, header);
      assert |twice| == |once|;
      forall j | 0 <= j < |once| ensures twice[j] == once[j] {
      }
    }
  }

  /** After a logout with `Bearer <t>`, token `t` is valid for no user at
      any time, whether or not a record held it. */
  lemma LogoutRevokesToken(jwt: Jwt, t: string, user: User, tokens: seq<Token>, now: int)
    ensures IsValid(jwt, t, user, LoggedOut(tokens, Some(BEARER + t)), now) != Success(true)
  {
    BearerTokenOf(t);
    var after := LoggedOut(tokens, Some(BEARER + t));
    if FindByAccessToken(tokens, t).Some? {
      FindByAccessTokenStable(tokens, after, t);
      RevokedAccessTokenInvalid(jwt, t, user, after, now);
    }
  }
}
