/** The per-request authentication filter: reads the bearer token, and
    when no identity is established yet and the token is valid for the user
    named by its subject, establishes that user as the caller. It reads the
    stores and never writes them. */
module JwtAuthenticationFilter {
  import opened Wrappers
  import opened Users
  import opened Tokens
  import opened JwtService
  import opened Http
  import opened Store

  /** An established caller identity: the user and their authorities. */
  datatype Authentication = Authentication(principal: User, authorities: seq<string>)

  /** The request's security context, holding at most one identity. */
  class SecurityContext {
    var authentication: Option<Authentication>

    constructor ()
      ensures authentication == None
    {
      authentication := None;
    }
  }

  /** The token does not parse, or the user-details lookup finds no user. */
  datatype FilterFault = MalformedToken | UsernameNotFound

  /** The filter either hands the request to the next stage or raises. */
  datatype FilterOutcome = Continued | Raised(fault: FilterFault)

  /** What the filter leaves behind: its outcome and the identity in the
      context. */
  datatype FilterStep = FilterStep(outcome: FilterOutcome, authentication: Option<Authentication>)

  /** The filter's effect on a request with `header` when the context holds
      `current`. The stores are only read. */
  function Filter(jwt: Jwt, users: seq<User>, tokens: seq<Token>, header: Option<string>, now: int,
                  current: Option<Authentication>): (r: FilterStep)
    ensures current.Some? ==> r.authentication == current
    ensures BearerToken(header).None? ==> r == FilterStep(Continued, current)
    ensures r.authentication != current ==>
      && r.outcome == Continued
      && current.None?
      && r.authentication.Some?
      && r.authentication.value.principal in users
      && r.authentication.value.authorities == GetAuthorities(r.authentication.value.principal)
      && IsValid(jwt, BearerToken(header).value, r.authentication.value.principal, tokens, now) == Success(true)
    ensures BearerToken(header).Some? ==>
      var token := BearerToken(header).value;
      match jwt.parse(token)
      case None =>
        r == FilterStep(Raised(MalformedToken), current)
      case Some(claims) =>
        if claims.subject.None? || current.Some? then
          r == FilterStep(Continued, current)
        else
          match FindByUsername(users, claims.subject.value)
          case None =>
            r == FilterStep(Raised(UsernameNotFound), current)
          case Some(i) =>
            r == FilterStep(Continued,
                   if IsValid(jwt, token, users[i], tokens, now) == Success(true)
                   then Some(Authentication(users[i], GetAuthorities(users[i])))
                   else None)
  {
    match BearerToken(header)
    case None => FilterStep(Continued, current)
    case Some(token) =>
      match ExtractUsername(jwt, token)
      case Failure(_) => FilterStep(Raised(MalformedToken), current)
      case Success(username) =>
        if username.None? || current.Some? then FilterStep(Continued, current)
        else
          match FindByUsername(users, username.value)
          case None => FilterStep(Raised(UsernameNotFound), current)
          case Some(i) =>
            if IsValid(jwt, token, users[i], tokens, now) == Success(true)
            then FilterStep(Continued, Some(Authentication(users[i], GetAuthorities(users[i]))))
            else FilterStep(Continued, current)
  }

  /** `chainCalls` counts the calls to the next stage. */
  method DoFilterInternal(context: SecurityContext, db: Database, jwt: Jwt, header: Option<string>, now: int)
    returns (outcome: FilterOutcome, chainCalls: nat)
    modifies context
    ensures chainCalls == if outcome.Continued? then 1 else 0
    ensures FilterStep(outcome, context.authentication) ==
      Filter(jwt, db.users, db.tokens, header, now, old(context.authentication))
  {
    var bearer := BearerToken(header);
    if bearer.None? {
      chainCalls := 1;
      return Continued, chainCalls;
    }
    var token := bearer.value;
    var extracted := ExtractUsername(jwt, token);
    if extracted.Failure? {
      return Raised(MalformedToken), 0;
    }
    var username := extracted.value;
    var isAuthenticated := context.authentication.Some?;
    if username.Some? && !isAuthenticated {
      var found := FindByUsername(db.users, username.value);
      if found.None? {
        return Raised(UsernameNotFound), 0;
      }
      var userDetails := db.users[found.value];
      var isValidToken := IsValid(jwt, token, userDetails, db.tokens, now);
      if isValidToken == Success(true) {
        context.authentication := Some(Authentication(userDetails, GetAuthorities(userDetails)));
      }
    }
    chainCalls := 1;
    return Continued, chainCalls;
  }
}
