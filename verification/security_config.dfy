/** The security chain: the route rules, the 401/403 split, the logout URL
    wiring, and how one request passes through logout, the authentication
    filter and the authorisation step. */
module SecurityConfig {
  import opened Wrappers
  import opened Lookup
  import opened Users
  import opened Tokens
  import opened JwtService
  import opened Http
  import opened Store
  import opened LogoutHandler
  import opened JwtAuthenticationFilter
  import AuthService

  /** What a rule demands of the caller. */
  datatype Access = PermitAll | HasAuthority(authority: string) | Authenticated

  /** Path patterns and the access they demand. */
  datatype Rule = Rule(patterns: seq<string>, access: Access)

  /** The rules in declaration order; the first rule whose pattern matches
      decides. */
  const RULES: seq<Rule> := [
    Rule(["/login/**", "/register/**", "/refresh_token/**"], PermitAll),
    Rule(["/admin_only/**"], HasAuthority("ADMIN"))
  ]

  /** What every path no rule matches demands. */
  const ANY_REQUEST: Access := Authenticated

  const LOGOUT_URL: string := "/logout"

  /** A pattern ending in a slash and a double star matches its base path and everything below
      it; any other pattern matches only itself. */
  predicate PatternMatches(pattern: string, path: string) {
    if |pattern| >= 3 && pattern[|pattern| - 3..] == "/**" then
      var base := pattern[..|pattern| - 3];
      path == base || StartsWith(path, base + "/")
    else
      path == pattern
  }

  predicate RuleMatches(rule: Rule, path: string) {
    exists k :: 0 <= k < |rule.patterns| && PatternMatches(rule.patterns[k], path)
  }

  predicate IsPublicPath(path: string) {
    PatternMatches("/login/**", path) || PatternMatches("/register/**", path) || PatternMatches("/refresh_token/**", path)
  }

  predicate IsAdminPath(path: string) {
    PatternMatches("/admin_only/**", path)
  }

  /** The first rule matches exactly the public paths, the second exactly
      the admin-only paths. */
  lemma RulesMeaning(path: string)
    ensures RuleMatches(RULES[0], path) <==> IsPublicPath(path)
    ensures RuleMatches(RULES[1], path) <==> IsAdminPath(path)
  {
    var public := RULES[0].patterns;
    assert |public| == 3 && public[0] == "/login/**" && public[1] == "/register/**" && public[2] == "/refresh_token/**";
    if PatternMatches(public[0], path) {
      assert RuleMatches(RULES[0], path);
    } else if PatternMatches(public[1], path) {
      assert RuleMatches(RULES[0], path);
    } else if PatternMatches(public[2], path) {
      assert RuleMatches(RULES[0], path);
    }
    var admin := RULES[1].patterns;
    assert |admin| == 1 && admin[0] == "/admin_only/**";
    if PatternMatches(admin[0], path) {
      assert RuleMatches(RULES[1], path);
    }
  }

  /** What the first matching rule demands of a request for `path`. */
  function RequiredAccess(path: string): (access: Access)
    ensures IsPublicPath(path) ==> access == PermitAll
    ensures !IsPublicPath(path) && IsAdminPath(path) ==> access == HasAuthority("ADMIN")
    ensures !IsPublicPath(path) && !IsAdminPath(path) ==> access == ANY_REQUEST
  {
    var rule := FirstIndex(RULES, (r: Rule) => RuleMatches(r, path));
    RulesMeaning(path);
    match rule
    case Some(i) => RULES[i].access
    case None => ANY_REQUEST
  }

  /** The outcome of the authorisation step. */
  datatype Decision = Granted | Unauthorized401 | Forbidden403

  /** A missing identity where one is needed is answered 401 (the entry
      point); an identity without the needed authority 403 (the
      access-denied handler). */
  function Authorize(path: string, auth: Option<Authentication>): (d: Decision)
    ensures IsPublicPath(path) ==> d == Granted
    ensures !IsPublicPath(path) && IsAdminPath(path) ==>
      d == (if auth.None? then Unauthorized401
            else if "ADMIN" in auth.value.authorities then Granted
            else Forbidden403)
    ensures !IsPublicPath(path) && !IsAdminPath(path) ==>
      d == (if auth.None? then Unauthorized401 else Granted)
  {
    match RequiredAccess(path)
    case PermitAll => Granted
    case HasAuthority(authority) =>
      if auth.None? then Unauthorized401
      else if authority in auth.value.authorities then Granted
      else Forbidden403
    case Authenticated =>
      if auth.None? then Unauthorized401 else Granted
  }

  /** A path matched by `base` followed by a slash and a double star
      shares the second character of `base`. */
  lemma SecondChar(base: string, path: string)
    requires |base| >= 2 && PatternMatches(base + "/**", path)
    ensures |path| >= 2 && path[1] == base[1]
  {
    var pattern := base + "/**";
    assert pattern[|pattern| - 3..] == "/**";
    assert pattern[..|pattern| - 3] == base;
    if path != base {
      assert path[..|base| + 1] == base + "/";
      assert path[1] == (base + "/")[1];
    }
  }

  /** No path is both public and admin-only. */
  lemma PublicAndAdminDisjoint(path: string)
    ensures !(IsPublicPath(path) && IsAdminPath(path))
  {
    if IsPublicPath(path) && IsAdminPath(path) {
      SecondChar("/admin_only", path);
      if PatternMatches("/login/**", path) {
        SecondChar("/login", path);
      } else if PatternMatches("/register/**", path) {
        SecondChar("/register", path);
      } else {
        SecondChar("/refresh_token", path);
      }
    }
  }

  /** 403 is answered only to an established identity that lacks ADMIN on
      an admin-only path; every other refusal is 401 and means no identity
      was established. */
  lemma {:induction false} RefusalMeaning(path: string, auth: Option<Authentication>)
    ensures Authorize(path, auth) == Forbidden403 <==>
      auth.Some? && IsAdminPath(path) && "ADMIN" !in auth.value.authorities
    ensures Authorize(path, auth) == Unauthorized401 <==> auth.None? && !IsPublicPath(path)
  {
    PublicAndAdminDisjoint(path);
  }

  /** A user with the USER role is refused with 403 on every admin-only
      path, and an ADMIN is granted. */
  lemma {:induction false} AdminPathsFollowRole(path: string, user: User)
    requires IsAdminPath(path)
    ensures Authorize(path, Some(Authentication(user, GetAuthorities(user)))) ==
      (if user.role == ADMIN then Granted else Forbidden403)
  {
    PublicAndAdminDisjoint(path);
    AuthoritiesFollowRole(user, user);
  }

  /** What the client sees of one request. */
  datatype Response =
    | LogoutSucceeded
    | Failed(fault: FilterFault)
    | Routed(decision: Decision)

  /** One request through the chain: the logout URL is answered by the
      logout handler and the success handler, which clears the identity;
      any other path goes through a fresh (stateless) security context, the
      authentication filter and then the route rules. `identity` is the
      identity in the context when the request ends. */
  method ProcessRequest(db: Database, jwt: Jwt, path: string, header: Option<string>, now: int)
    returns (response: Response, identity: Option<Authentication>)
    requires db.Valid()
    modifies db
    ensures db.Valid()
    ensures db.users == old(db.users)
    ensures path == LOGOUT_URL ==>
      && response == LogoutSucceeded
      && identity == None
      && db.tokens == LoggedOut(old(db.tokens), header)
    ensures response.LogoutSucceeded? <==> path == LOGOUT_URL
    ensures path != LOGOUT_URL ==> db.tokens == old(db.tokens)
    ensures path != LOGOUT_URL ==>
      var step := Filter(jwt, db.users, db.tokens, header, now, None);
      && identity == step.authentication
      && response == if step.outcome.Raised? then Failed(step.outcome.fault) else Routed(Authorize(path, identity))
    ensures identity.Some? ==>
      && identity.value.principal in db.users
      && identity.value.authorities == GetAuthorities(identity.value.principal)
      && BearerToken(header).Some?
      && IsValid(jwt, BearerToken(header).value, identity.value.principal, db.tokens, now) == Success(true)
  {
    if path == LOGOUT_URL {
      Logout(db, header);
      return LogoutSucceeded, None;
    }
    var context := new SecurityContext();
    var outcome, chainCalls := DoFilterInternal(context, db, jwt, header, now);
    identity := context.authentication;
    if outcome.Raised? {
      return Failed(outcome.fault), identity;
    }
    response := Routed(Authorize(path, identity));
  }

  /** An access token issued for a stored user, whose first record is
      live and which has not expired, establishes that user with their own
      authorities and opens every path except the admin-only ones, which it
      opens for an ADMIN. */
  lemma LiveTokenOpensPath(jwt: Jwt, users: seq<User>, tokens: seq<Token>, uid: nat, issued: int, at: int, path: string)
    requires Sound(jwt) && UniqueUsernames(users) && uid < |users|
    requires LiveAccessToken(tokens, GenerateAccessToken(jwt, users[uid], issued))
    requires at <= issued + jwt.accessTokenExpire
    ensures var user := users[uid];
      var identity := Some(Authentication(user, GetAuthorities(user)));
      && Filter(jwt, users, tokens, Some(BEARER + GenerateAccessToken(jwt, user, issued)), at, None)
           == FilterStep(Continued, identity)
      && (!IsAdminPath(path) || user.role == ADMIN ==> Authorize(path, identity) == Granted)
  {
    var user := users[uid];
    BearerTokenOf(GenerateAccessToken(jwt, user, issued));
    FindByUsernameUnique(users, uid);
    PublicAndAdminDisjoint(path);
    AuthoritiesFollowRole(user, user);
  }

  /** A client logs in and sends the returned access token with a request
      for a path that is not admin-only before the token expires: the
      request is granted whenever the new token's text was not already
      stored (two logins of one user at the same instant issue the same
      text). A failed login sends the request without a token. */
  method LoginThenRequest(db: Database, jwt: Jwt, encoder: PasswordEncoder, username: string, password: string,
                          path: string, now: int, later: int)
    returns (login: Result<AuthService.LoginResponse, AuthService.LoginError>, response: Response)
    requires db.Valid() && Sound(jwt)
    requires path != LOGOUT_URL && !IsAdminPath(path)
    requires later <= now + jwt.accessTokenExpire
    modifies db
    ensures login.Failure? ==> response == Routed(Authorize(path, None))
    ensures login.Success? && FindByAccessToken(old(db.tokens), login.value.accessToken).None? ==>
      response == Routed(Granted)
  {
    login := AuthService.Login(db, jwt, encoder, username, password, now);
    if login.Failure? {
      var identity;
      response, identity := ProcessRequest(db, jwt, path, None, later);
      return;
    }
    ghost var uid := AuthService.Authenticate(db.users, encoder, username, password).value;
    ghost var isNew := FindByAccessToken(old(db.tokens), login.value.accessToken).None?;
    ghost var access := login.value.accessToken;
    ghost var revoked := AuthService.RevokedFor(old(db.tokens), uid);
    if isNew {
      assert FindByAccessToken(revoked, access).None?;
      FindByAccessTokenAppended(revoked, db.tokens[|revoked|]);
      assert revoked + [db.tokens[|revoked|]] == db.tokens;
      LiveTokenOpensPath(jwt, db.users, db.tokens, uid, now, later, path);
    }
    var identity;
    response, identity := ProcessRequest(db, jwt, path, Some(BEARER + login.value.accessToken), later);
  }

  /** A token used to log out no longer opens a protected path: the
      logout request revokes it, and the next request carrying it is
      refused with 401 (or raises when the token is malformed or names no
      user). */
  method LogoutThenRequest(db: Database, jwt: Jwt, token: string, path: string, now: int, later: int)
    returns (response: Response)
    requires db.Valid()
    requires path != LOGOUT_URL && !IsPublicPath(path)
    modifies db
    ensures response == Routed(Unauthorized401) || response.Failed?
  {
    var logoutResponse, logoutIdentity := ProcessRequest(db, jwt, LOGOUT_URL, Some(BEARER + token), now);
    var identity;
    response, identity := ProcessRequest(db, jwt, path, Some(BEARER + token), later);
    BearerTokenOf(token);
    if identity.Some? {
      LogoutRevokesToken(jwt, token, identity.value.principal, old(db.tokens), later);
      assert false;
    }
    RefusalMeaning(path, identity);
  }
}
