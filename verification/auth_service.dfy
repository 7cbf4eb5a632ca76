/** Registration, login, token refresh and the bulk revocation they rely
    on. Every operation that succeeds appends exactly one live token record;
    login and refresh first revoke every record the user already owns. */
module AuthService {
  import opened Wrappers
  import opened Users
  import opened Tokens
  import opened JwtService
  import opened Http
  import opened Store

  /** The fields the registration path reads from its request. */
  datatype UserRegistration = UserRegistration(username: string, email: string, password: string, confirmPassword: string)

  datatype LoginResponse = LoginResponse(accessToken: string, refreshToken: string, message: string)

  /** The authentication manager rejected the credentials. */
  datatype LoginError = BadCredentials

  /** The refresh endpoint's outcomes: 200 with a new pair, 401 without a
      body, or an exception. */
  datatype RefreshResponse = Refreshed(body: LoginResponse) | Unauthorized | Raised(fault: RefreshFault)

  /** The token does not parse, or no user has its subject ("No user found"). */
  datatype RefreshFault = MalformedRefreshToken | NoUserFound

  /** The store after revoking every record owned by `uid`. */
  function RevokedFor(tokens: seq<Token>, uid: nat): (r: seq<Token>)
    ensures |r| == |tokens|
    ensures forall i :: 0 <= i < |tokens| && tokens[i].user == uid ==> r[i] == tokens[i].(loggedOut := true)
    ensures forall i :: 0 <= i < |tokens| && tokens[i].user != uid ==> r[i] == tokens[i]
    ensures Evolves(tokens, r)
  {
    if |tokens| == 0 then []
    else
      var last := tokens[|tokens| - 1];
      RevokedFor(tokens[..|tokens| - 1], uid) + [if last.user == uid then last.(loggedOut := true) else last]
  }

  /** The authentication manager's decision, as Spring's default provider
      makes it from the user-details lookup and the password encoder: the
      user must exist, pass the four status checks and match the password.
      The status checks always pass, so authentication is lookup plus
      password match. */
  function Authenticate(users: seq<User>, encoder: PasswordEncoder, username: string, password: string): (r: Option<nat>)
    ensures r.Some? ==> r == FindByUsername(users, username)
    ensures r.Some? <==>
      FindByUsername(users, username).Some? &&
      encoder.matches(password, users[FindByUsername(users, username).value].password)
  {
    match FindByUsername(users, username)
    case None => None
    case Some(i) =>
      var user := users[i];
      if IsAccountNonLocked(user) && IsEnabled(user) && IsAccountNonExpired(user)
         && encoder.matches(password, user.password) && IsCredentialsNonExpired(user)
      then Some(i) else None
  }

  /** The user whose username is the token's subject: a malformed token
      fails to parse, and a null or unknown subject finds no user. */
  function TokenOwner(jwt: Jwt, users: seq<User>, token: string): (r: Result<nat, RefreshFault>)
    ensures jwt.parse(token).None? ==> r == Failure(MalformedRefreshToken)
    ensures r.Success? ==>
      && r.value < |users| && jwt.parse(token).Some?
      && jwt.parse(token).value.subject == Some(users[r.value].username)
    ensures r.Failure? && jwt.parse(token).Some? ==>
      && r.error == NoUserFound
      && forall i :: 0 <= i < |users| ==> jwt.parse(token).value.subject != Some(users[i].username)
  {
    match ExtractUsername(jwt, token)
    case Failure(_) => Failure(MalformedRefreshToken)
    case Success(None) => Failure(NoUserFound)
    case Success(Some(username)) =>
      match FindByUsername(users, username)
      case None => Failure(NoUserFound)
      case Some(i) => Success(i)
  }

  /** Revokes every record owned by user `uid`, whether live or already
      revoked; records of other users are untouched. With no record found
      nothing is written. */
  method RevokeAllTokenByUser(db: Database, uid: nat)
    modifies db
    ensures db.users == old(db.users)
    ensures db.tokens == RevokedFor(old(db.tokens), uid)
  {
    var validTokens := FindAllAccessTokensByUser(db.tokens, uid);
    if |validTokens| == 0 {
      return;
    }
    var k := 0;
    while k < |validTokens|
      invariant 0 <= k <= |validTokens|
      invariant db.users == old(db.users)
      invariant |db.tokens| == |old(db.tokens)|
      invariant forall i :: 0 <= i < |db.tokens| ==>
        db.tokens[i] == if i in validTokens[..k] then old(db.tokens)[i].(loggedOut := true) else old(db.tokens)[i]
    {
      var id := validTokens[k];
      db.tokens := db.tokens[id := db.tokens[id].(loggedOut := true)];
      k := k + 1;
    }
    assert validTokens[..k] == validTokens;
  }

  /** Stores a new live record for the pair. */
  method SaveUserToken(db: Database, accessToken: string, refreshToken: string, uid: nat)
    modifies db
    ensures db.users == old(db.users)
    ensures db.tokens == old(db.tokens) + [Token(accessToken, refreshToken, false, uid)]
  {
    var token := Token(accessToken, refreshToken, false, uid);
    db.tokens := db.tokens + [token];
  }

  /** Issues a new pair for user `uid`, revokes every record the user
      owns and stores the pair as one live record: the common tail of login
      and refresh. */
  method ReissueTokens(db: Database, jwt: Jwt, uid: nat, now: int) returns (access: string, refresh: string)
    requires db.Valid() && uid < |db.users|
    modifies db
    ensures db.Valid()
    ensures db.users == old(db.users)
    ensures access == GenerateAccessToken(jwt, db.users[uid], now)
    ensures refresh == GenerateRefreshToken(jwt, db.users[uid], now)
    ensures db.tokens == RevokedFor(old(db.tokens), uid) + [Token(access, refresh, false, uid)]
    ensures Evolves(old(db.tokens), db.tokens)
  {
    var user := db.users[uid];
    access := GenerateAccessToken(jwt, user, now);
    refresh := GenerateRefreshToken(jwt, user, now);
    RevokeAllTokenByUser(db, uid);
    SaveUserToken(db, access, refresh, uid);
  }

  /** Registers a user. A taken username answers "User already exist" and
      writes nothing. Otherwise one user with role USER and encoded
      passwords is stored and one live record with a newly issued pair is
      appended for it; only a success message is returned. */
  method Register(db: Database, jwt: Jwt, encoder: PasswordEncoder, request: UserRegistration, now: int)
    returns (message: string)
    requires db.Valid()
    modifies db
    ensures db.Valid()
    ensures Evolves(old(db.tokens), db.tokens)
    ensures FindByUsername(old(db.users), request.username).Some? ==>
      message == "User already exist" && db.users == old(db.users) && db.tokens == old(db.tokens)
    ensures FindByUsername(old(db.users), request.username).None? ==>
      && message == "User registration was successful"
      && db.users == old(db.users) + [User(request.username, None, None, request.email,
           encoder.encode(request.password), encoder.encode(request.confirmPassword), USER)]
      && db.tokens == old(db.tokens) + [Token(
           GenerateAccessToken(jwt, db.users[|old(db.users)|], now),
           GenerateRefreshToken(jwt, db.users[|old(db.users)|], now),
           false, |old(db.users)|)]
  {
    var isUserAlreadyExist := FindByUsername(db.users, request.username).Some?;
    if isUserAlreadyExist {
      return "User already exist";
    }
    var user := User(request.username, None, None, request.email,
      encoder.encode(request.password), encoder.encode(request.confirmPassword), USER);
    var uid := |db.users|;
    db.users := db.users + [user];
    var accessToken := GenerateAccessToken(jwt, user, now);
    var refreshToken := GenerateRefreshToken(jwt, user, now);
    SaveUserToken(db, accessToken, refreshToken, uid);
    return "User registration was successful";
  }

  /** Logs a user in. Rejected credentials change nothing. Otherwise every
      record the user owned is revoked, one live record with a newly issued
      pair is appended, and the pair is returned. */
  method Login(db: Database, jwt: Jwt, encoder: PasswordEncoder, username: string, password: string, now: int)
    returns (r: Result<LoginResponse, LoginError>)
    requires db.Valid()
    modifies db
    ensures db.Valid()
    ensures db.users == old(db.users)
    ensures Evolves(old(db.tokens), db.tokens)
    ensures Authenticate(db.users, encoder, username, password).None? ==>
      r == Failure(BadCredentials) && db.tokens == old(db.tokens)
    ensures Authenticate(db.users, encoder, username, password).Some? ==>
      var uid := Authenticate(db.users, encoder, username, password).value;
      var access := GenerateAccessToken(jwt, db.users[uid], now);
      var refresh := GenerateRefreshToken(jwt, db.users[uid], now);
      && r == Success(LoginResponse(access, refresh, "User login was successful"))
      && db.tokens == RevokedFor(old(db.tokens), uid) + [Token(access, refresh, false, uid)]
  {
    var authenticated := Authenticate(db.users, encoder, username, password);
    if authenticated.None? {
      return Failure(BadCredentials);
    }
    var uid := authenticated.value;
    var accessToken, refreshToken := ReissueTokens(db, jwt, uid, now);
    return Success(LoginResponse(accessToken, refreshToken, "User login was successful"));
  }

  /** Exchanges a refresh token for a new pair. A missing or non-bearer
      header answers 401; a malformed token or one whose subject names no
      user raises; an invalid (wrong subject, expired or revoked) refresh
      token answers 401. Only a valid live refresh token revokes the user's
      records and appends one live record with a new pair, answered with
      200. */
  method RefreshToken(db: Database, jwt: Jwt, header: Option<string>, now: int)
    returns (r: RefreshResponse)
    requires db.Valid()
    modifies db
    ensures db.Valid()
    ensures db.users == old(db.users)
    ensures Evolves(old(db.tokens), db.tokens)
    ensures !r.Refreshed? ==> db.tokens == old(db.tokens)
    ensures BearerToken(header).None? ==> r == Unauthorized
    ensures BearerToken(header).Some? && TokenOwner(jwt, db.users, BearerToken(header).value).Failure? ==>
      r == Raised(TokenOwner(jwt, db.users, BearerToken(header).value).error)
    ensures BearerToken(header).Some? && TokenOwner(jwt, db.users, BearerToken(header).value).Success? ==>
      var token := BearerToken(header).value;
      var uid := TokenOwner(jwt, db.users, token).value;
      var user := db.users[uid];
      if IsValidRefreshToken(jwt, token, user, old(db.tokens), now) == Success(true) then
        var access := GenerateAccessToken(jwt, user, now);
        var refresh := GenerateRefreshToken(jwt, user, now);
        && r == Refreshed(LoginResponse(access, refresh, "New token generated"))
        && db.tokens == RevokedFor(old(db.tokens), uid) + [Token(access, refresh, false, uid)]
      else
        r == Unauthorized
  {
    var bearer := BearerToken(header);
    if bearer.None? {
      return Unauthorized;
    }
    var token := bearer.value;
    var owner := TokenOwner(jwt, db.users, token);
    if owner.Failure? {
      return Raised(owner.error);
    }
    var uid := owner.value;
    var user := db.users[uid];
    var isValidRefreshToken := IsValidRefreshToken(jwt, token, user, db.tokens, now);
    if isValidRefreshToken == Success(true) {
      var accessToken, refreshToken := ReissueTokens(db, jwt, uid, now);
      return Refreshed(LoginResponse(accessToken, refreshToken, "New token generated"));
    }
    return Unauthorized;
  }

  /** After a login or refresh for `uid` the user owns exactly one live
      record, the new one, and other users' records are as they were. */
  lemma ReissueLeavesOneLivePair(tokens: seq<Token>, uid: nat, access: string, refresh: string)
    ensures var after := RevokedFor(tokens, uid) + [Token(access, refresh, false, uid)];
      && |after| == |tokens| + 1
      && !after[|tokens|].loggedOut && after[|tokens|].user == uid
      && (forall i :: 0 <= i < |after| && after[i].user == uid && !after[i].loggedOut ==> i == |tokens|)
      && (forall i :: 0 <= i < |tokens| && tokens[i].user != uid ==> after[i] == tokens[i])
  {
  }

  /** After a login or refresh for `uid`, a pair the user owned before no
      longer validates, neither as access token nor as refresh token (when
      that record is the one found for its token). */
  lemma ReissueInvalidatesPriorPair(jwt: Jwt, tokens: seq<Token>, uid: nat, access: string, refresh: string,
                                     k: nat, user: User, now: int)
    requires k < |tokens| && tokens[k].user == uid
    ensures var after := RevokedFor(tokens, uid) + [Token(access, refresh, false, uid)];
      && (FindByAccessToken(tokens, tokens[k].accessToken) == Some(k) ==>
            IsValid(jwt, tokens[k].accessToken, user, after, now) != Success(true))
      && (FindByRefreshToken(tokens, tokens[k].refreshToken) == Some(k) ==>
            IsValidRefreshToken(jwt, tokens[k].refreshToken, user, after, now) != Success(true))
  {
    var after := RevokedFor(tokens, uid) + [Token(access, refresh, false, uid)];
    assert Evolves(tokens, after);
    assert after[k].loggedOut;
    if FindByAccessToken(tokens, tokens[k].accessToken) == Some(k) {
      FindByAccessTokenStable(tokens, after, tokens[k].accessToken);
      RevokedAccessTokenInvalid(jwt, tokens[k].accessToken, user, after, now);
    }
    if FindByRefreshToken(tokens, tokens[k].refreshToken) == Some(k) {
      FindByRefreshTokenStable(tokens, after, tokens[k].refreshToken);
      RevokedRefreshTokenInvalid(jwt, tokens[k].refreshToken, user, after, now);
    }
  }

  /** Two reissues for one user at the same instant issue the same texts.
      The first pair is valid until it expires; the second pair's access
      token never is, because the first record holding its text is the
      first pair's, which the second reissue revoked. (The repository
      itself raises on the two holders; the model's first-match lookup
      turns that into a rejection.) */
  lemma SameInstantReissueRejected(jwt: Jwt, tokens: seq<Token>, uid: nat, user: User, now: int, at: int)
    requires FindByAccessToken(tokens, GenerateAccessToken(jwt, user, now)).None?
    ensures var access := GenerateAccessToken(jwt, user, now);
      var refresh := GenerateRefreshToken(jwt, user, now);
      var first := RevokedFor(tokens, uid) + [Token(access, refresh, false, uid)];
      var second := RevokedFor(first, uid) + [Token(access, refresh, false, uid)];
      && (Sound(jwt) && at <= now + jwt.accessTokenExpire ==> IsValid(jwt, access, user, first, at) == Success(true))
      && IsValid(jwt, access, user, second, at) != Success(true)
  {
    var access := GenerateAccessToken(jwt, user, now);
    var refresh := GenerateRefreshToken(jwt, user, now);
    var revoked := RevokedFor(tokens, uid);
    var first := revoked + [Token(access, refresh, false, uid)];
    assert FindByAccessToken(revoked, access).None?;
    FindByAccessTokenAppended(revoked, Token(access, refresh, false, uid));
    if Sound(jwt) && at <= now + jwt.accessTokenExpire {
      IssuedAccessTokenValid(jwt, user, user, revoked, refresh, uid, now, at);
    }
    ReissueInvalidatesPriorPair(jwt, first, uid, access, refresh, |tokens|, user, at);
  }
}
