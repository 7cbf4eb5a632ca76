/** Token issuing and validation. Signing and parsing are the codec's
    business and stay abstract: `sign` turns claims into compact token text
    and `parse` gives the claims back, or None when the text is malformed or
    its signature does not verify. The clock is the parameter `now`. */
module JwtService {
  import opened Wrappers
  import opened Users
  import opened Tokens

  /** The registered claims a token carries. A token without a subject
      parses to `subject == None`. */
  datatype Claims = Claims(subject: Option<string>, issuedAt: int, expiration: int)

  /** The service's configuration: the two lifetimes and the codec keyed by
      the configured secret. */
  datatype Jwt = Jwt(
    accessTokenExpire: int,
    refreshTokenExpire: int,
    sign: Claims -> string,
    parse: string -> Option<Claims>)

  /** A codec that reads back exactly what it signed. */
  ghost predicate Sound(jwt: Jwt) {
    forall c :: jwt.parse(jwt.sign(c)) == Some(c)
  }

  /** Parsing the text fails, or the subject is null where the username is
      compared. */
  datatype JwtFault = MalformedJwt | NullSubject

  /** The subject of a token, which may be null; a malformed token fails. */
  function ExtractUsername(jwt: Jwt, token: string): (r: Result<Option<string>, JwtFault>)
    ensures r.Failure? <==> jwt.parse(token).None?
    ensures r.Failure? ==> r.error == MalformedJwt
    ensures r.Success? ==> r.value == jwt.parse(token).value.subject
  {
    match jwt.parse(token)
    case None => Failure(MalformedJwt)
    case Some(claims) => Success(claims.subject)
  }

  /** A token is expired when its expiration is strictly before now. */
  predicate IsTokenExpired(claims: Claims, now: int) {
    claims.expiration < now
  }

  /** A token issued at `issued` with lifetime `ttl` is expired exactly
      after `issued + ttl`: at its expiration instant it is still
      accepted. */
  lemma IssuedTokenExpiry(jwt: Jwt, user: User, ttl: int, issued: int, at: int)
    requires Sound(jwt)
    ensures var claims := jwt.parse(GenerateToken(jwt, user, ttl, issued));
      claims.Some? && (IsTokenExpired(claims.value, at) <==> issued + ttl < at)
  {
  }

  /** The first record holding access token `t` exists and is live. */
  ghost predicate LiveAccessToken(tokens: seq<Token>, t: string) {
    exists i :: 0 <= i < |tokens| && tokens[i].accessToken == t && !tokens[i].loggedOut
      && forall j :: 0 <= j < i ==> tokens[j].accessToken != t
  }

  /** The first record holding refresh token `t` exists and is live. */
  ghost predicate LiveRefreshToken(tokens: seq<Token>, t: string) {
    exists i :: 0 <= i < |tokens| && tokens[i].refreshToken == t && !tokens[i].loggedOut
      && forall j :: 0 <= j < i ==> tokens[j].refreshToken != t
  }

  /** Whether an access token is valid for `user` at time `now`: its
      subject is the user's username, it has not expired, and its record in
      the store is live. Reading the store never changes it. */
  function IsValid(jwt: Jwt, token: string, user: User, tokens: seq<Token>, now: int): (r: Result<bool, JwtFault>)
    ensures jwt.parse(token).None? ==> r == Failure(MalformedJwt)
    ensures jwt.parse(token).Some? && jwt.parse(token).value.subject.None? ==> r == Failure(NullSubject)
    ensures r.Failure? <==> jwt.parse(token).None? || jwt.parse(token).value.subject.None?
    ensures r == Success(true) <==>
      && jwt.parse(token).Some?
      && jwt.parse(token).value.subject == Some(user.username)
      && !IsTokenExpired(jwt.parse(token).value, now)
      && LiveAccessToken(tokens, token)
    ensures FindByAccessToken(tokens, token).None? ==> r != Success(true)
  {
    match ExtractUsername(jwt, token)
    case Failure(e) => Failure(e)
    case Success(username) =>
      var validToken := match FindByAccessToken(tokens, token)
        case Some(i) => !tokens[i].loggedOut
        case None => false;
      assert validToken <==> LiveAccessToken(tokens, token);
      match username
      case None => Failure(NullSubject)
      case Some(name) => Success(name == user.username && !IsTokenExpired(jwt.parse(token).value, now) && validToken)
  }

  /** The same three conditions for a refresh token, whose record is found
      by its refresh token instead. */
  function IsValidRefreshToken(jwt: Jwt, token: string, user: User, tokens: seq<Token>, now: int): (r: Result<bool, JwtFault>)
    ensures jwt.parse(token).None? ==> r == Failure(MalformedJwt)
    ensures jwt.parse(token).Some? && jwt.parse(token).value.subject.None? ==> r == Failure(NullSubject)
    ensures r.Failure? <==> jwt.parse(token).None? || jwt.parse(token).value.subject.None?
    ensures r == Success(true) <==>
      && jwt.parse(token).Some?
      && jwt.parse(token).value.subject == Some(user.username)
      && !IsTokenExpired(jwt.parse(token).value, now)
      && LiveRefreshToken(tokens, token)
    ensures FindByRefreshToken(tokens, token).None? ==> r != Success(true)
  {
    match ExtractUsername(jwt, token)
    case Failure(e) => Failure(e)
    case Success(username) =>
      var validRefreshToken := match FindByRefreshToken(tokens, token)
        case Some(i) => !tokens[i].loggedOut
        case None => false;
      assert validRefreshToken <==> LiveRefreshToken(tokens, token);
      match username
      case None => Failure(NullSubject)
      case Some(name) => Success(name == user.username && !IsTokenExpired(jwt.parse(token).value, now) && validRefreshToken)
  }

  /** The token issued for `user` at `now` with lifetime `expireTime`:
      its subject is the username, it is issued now and expires
      `expireTime` later. */
  function GenerateToken(jwt: Jwt, user: User, expireTime: int, now: int): (token: string)
    ensures Sound(jwt) ==> jwt.parse(token) == Some(Claims(Some(user.username), now, now + expireTime))
  {
    jwt.sign(Claims(Some(user.username), now, now + expireTime))
  }

  function GenerateAccessToken(jwt: Jwt, user: User, now: int): (token: string)
    ensures Sound(jwt) ==> jwt.parse(token) == Some(Claims(Some(user.username), now, now + jwt.accessTokenExpire))
  {
    GenerateToken(jwt, user, jwt.accessTokenExpire, now)
  }

  function GenerateRefreshToken(jwt: Jwt, user: User, now: int): (token: string)
    ensures Sound(jwt) ==> jwt.parse(token) == Some(Claims(Some(user.username), now, now + jwt.refreshTokenExpire))
  {
    GenerateToken(jwt, user, jwt.refreshTokenExpire, now)
  }

  /** Access and refresh tokens differ only in lifetime: with equal
      lifetimes they are the same text, and with a sound codec they differ
      whenever the lifetimes do. */
  lemma AccessAndRefreshDifferOnlyInLifetime(jwt: Jwt, user: User, now: int)
    ensures jwt.accessTokenExpire == jwt.refreshTokenExpire ==>
      GenerateAccessToken(jwt, user, now) == GenerateRefreshToken(jwt, user, now)
    ensures Sound(jwt) && jwt.accessTokenExpire != jwt.refreshTokenExpire ==>
      GenerateAccessToken(jwt, user, now) != GenerateRefreshToken(jwt, user, now)
  {
  }

  /** A token's subject reads back as the username it was issued for. */
  lemma ExtractUsernameOfIssued(jwt: Jwt, user: User, expireTime: int, now: int)
    requires Sound(jwt)
    ensures ExtractUsername(jwt, GenerateToken(jwt, user, expireTime, now)) == Success(Some(user.username))
  {
  }

  /** A freshly issued access token, stored live in a record no earlier
      record shares its text with, is valid for its user until its
      expiration and for no user with another username. */
  lemma IssuedAccessTokenValid(jwt: Jwt, user: User, other: User, tokens: seq<Token>, refresh: string, uid: nat, issued: int, at: int)
    requires Sound(jwt)
    requires FindByAccessToken(tokens, GenerateAccessToken(jwt, user, issued)).None?
    ensures var access := GenerateAccessToken(jwt, user, issued);
      var stored := tokens + [Token(access, refresh, false, uid)];
      && (IsValid(jwt, access, user, stored, at) == Success(true) <==> at <= issued + jwt.accessTokenExpire)
      && (other.username != user.username ==> IsValid(jwt, access, other, stored, at) == Success(false))
  {
    var access := GenerateAccessToken(jwt, user, issued);
    var record := Token(access, refresh, false, uid);
    FindByAccessTokenAppended(tokens, record);
    assert LiveAccessToken(tokens + [record], access) by {
      var all := tokens + [record];
      assert all[|tokens|] == record;
      assert forall j :: 0 <= j < |tokens| ==> all[j].accessToken != access;
    }
  }

  /** The same for a freshly issued refresh token. */
  lemma IssuedRefreshTokenValid(jwt: Jwt, user: User, other: User, tokens: seq<Token>, access: string, uid: nat, issued: int, at: int)
    requires Sound(jwt)
    requires FindByRefreshToken(tokens, GenerateRefreshToken(jwt, user, issued)).None?
    ensures var refresh := GenerateRefreshToken(jwt, user, issued);
      var stored := tokens + [Token(access, refresh, false, uid)];
      && (IsValidRefreshToken(jwt, refresh, user, stored, at) == Success(true) <==> at <= issued + jwt.refreshTokenExpire)
      && (other.username != user.username ==> IsValidRefreshToken(jwt, refresh, other, stored, at) == Success(false))
  {
    var refresh := GenerateRefreshToken(jwt, user, issued);
    var record := Token(access, refresh, false, uid);
    FindByRefreshTokenAppended(tokens, record);
    assert LiveRefreshToken(tokens + [record], refresh) by {
      var all := tokens + [record];
      assert all[|tokens|] == record;
      assert forall j :: 0 <= j < |tokens| ==> all[j].refreshToken != refresh;
    }
  }

  /** Once the first record holding a token is revoked, the token is
      invalid for every user at every time. */
  lemma RevokedAccessTokenInvalid(jwt: Jwt, token: string, user: User, tokens: seq<Token>, now: int)
    requires FindByAccessToken(tokens, token).Some?
    requires tokens[FindByAccessToken(tokens, token).value].loggedOut
    ensures IsValid(jwt, token, user, tokens, now) != Success(true)
  {
  }

  /** The same for refresh tokens. */
  lemma RevokedRefreshTokenInvalid(jwt: Jwt, token: string, user: User, tokens: seq<Token>, now: int)
    requires FindByRefreshToken(tokens, token).Some?
    requires tokens[FindByRefreshToken(tokens, token).value].loggedOut
    ensures IsValidRefreshToken(jwt, token, user, tokens, now) != Success(true)
  {
  }
}
