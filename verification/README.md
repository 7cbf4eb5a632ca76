# Fitastic API: token lifecycle and access rules

A Dafny model of the authentication core of the Fitastic REST API (Spring
Boot, MongoDB). The heart of it is the token table: one record per issued
access/refresh pair, holding the two token texts, a `loggedOut` flag and the
owning user. Registration, login and refresh append live records; login and
refresh first revoke every record the user owns; logout revokes the record
of the presented access token. A token is valid for a user when its subject
is the user's username, it has not expired, and the first record holding it
is live. Records are never deleted and a revoked record never becomes live
again (`Tokens.Evolves`, kept by every operation).

Around that core the model covers the per-request authentication filter,
the ordered route rules with their 401/403 split and the logout wiring,
the `User` entity's authorities, status flags and field constraints, the
registration request validator, and the two exercise services (lookup by
id, partial update, checked delete).

Modelling choices:

- The JWT library is an abstract codec `JwtService.Jwt`: a `sign` function
  from claims (subject, issued-at, expiration) to text and a `parse`
  function back, which fails on malformed text. Lemmas about issued tokens
  assume that parsing a signed token gives back its claims
  (`JwtService.Sound`) and that no stored record already holds the new
  token text; both hypotheses are stated in each lemma's `requires`.
  Token lifetimes are fields of the codec.
- The clock is a parameter `now`, one reading per operation.
- The password encoder is a pair of functions `encode` and `matches`. The
  authentication manager is modelled as Spring's default provider does it:
  user lookup, the four status flags and a password match.
- The two collections are sequences in a `Store.Database` object; a
  record's index is its generated id. Repository finders that return one
  optional result take the first match in stored order.
- One identity key, `User.username`, serves as token subject and as the
  user lookup key. The sources disagree here: `AuthService` looks users up
  by email (`AuthService.java:47,86,150-152`) through an
  `extractUserEmail` that `JwtService` does not define, `JwtService` puts
  the username in the subject (`JwtService.java:166`), and
  `UserDetailsImpService.java:29` calls a `findByUsername` that
  `UserRepository.java:15` does not declare. The model treats all of them
  as one lookup by username.

Where the code and its prose documentation disagree, the model follows the
code:

- The filter has no exception handling: a malformed token, or a subject no
  user has, raises out of the filter and the rest of the chain is not
  called (`JwtAuthenticationFilter.java:60,67`). Only a missing or
  non-bearer header, a null subject, an already-present identity or a
  completed check continue the chain.
- `register` answers a taken key with the message "User already exist" and
  returns only a message on success; it never returns the new tokens.
- `isValid` and `isValidRefreshToken` raise on a token without subject
  (`username.equals` on null); the model returns that as a failure.
- A token's text depends only on the user, its issue time and its
  lifetime, and JJWT writes times in whole seconds. Two logins (or
  refreshes) of one user within the same second therefore issue the same
  texts, and two records then hold them. In the program every later
  `findByAccessToken` or `findByRefreshToken` with that text matches both
  records, so the single-result repository query raises, and `isValid`,
  `isValidRefreshToken` and logout fail the request with it. The model's
  finders take the first match instead (see "Left out"), so there the
  second reissue's access token is rejected: the record found is the
  first one, which the second reissue revoked
  (`AuthService.SameInstantReissueRejected`). Either way the newest token
  does not authenticate; the model answers 401 where the program fails
  the request with an exception.
- The entity constraints on `User` are not checked when a document is
  saved to MongoDB, and registration never sets `firstName` or
  `lastName`, so every registered user violates them
  (`Users.RegisteredUsersLackNames`).

## Model

| member | source | states |
|---|---|---|
| Lookup.FirstIndex | src/main/java/com/fitastic/repository/TokenRepository.java:16-17 | the index of the first element satisfying the query, every earlier element failing it; none exactly when no element satisfies it |
| Lookup.AllIndices | src/main/java/com/fitastic/repository/TokenRepository.java:15 | the ascending indices of exactly the elements satisfying the query |
| Lookup.Keep | src/main/java/com/fitastic/service/UserExerciseService.java:42-43 | the elements satisfying the predicate, every one of them, and nothing else; all of them when all pass |
| Lookup.KeepConcat | src/main/java/com/fitastic/service/UserExerciseService.java:42-43 | filtering preserves order: filtering a concatenation concatenates the filtered parts |
| Lookup.KeepCounts | src/main/java/com/fitastic/service/UserExerciseService.java:42-43 | every element that passes keeps its multiplicity; every element that fails occurs zero times |
| Lookup.KeepDropsOne | src/main/java/com/fitastic/service/UserExerciseService.java:42-43 | removing the one element that fails the predicate shortens the sequence by exactly one |
| Http.BearerToken | src/main/java/com/fitastic/config/CustomLogoutHandler.java:36-43 | a token exactly when the header is present and starts with "Bearer ", and then it is the header minus its 7-character prefix |
| Http.BearerTokenOf | src/main/java/com/fitastic/filter/JwtAuthenticationFilter.java:50-59 | the header "Bearer " + t yields exactly t |
| Users.GetAuthorities | src/main/java/com/fitastic/entity/User.java:58-61 | exactly one authority, the role's name |
| Users.AuthoritiesFollowRole | src/main/java/com/fitastic/entity/User.java:58-61 | a user holds "ADMIN" iff the role is ADMIN and "USER" iff USER; two users have the same authorities iff the same role |
| Users.IsAccountNonExpired | src/main/java/com/fitastic/entity/User.java:63-66 | always true |
| Users.IsAccountNonLocked | src/main/java/com/fitastic/entity/User.java:68-71 | always true |
| Users.IsCredentialsNonExpired | src/main/java/com/fitastic/entity/User.java:73-76 | always true |
| Users.IsEnabled | src/main/java/com/fitastic/entity/User.java:78-81 | always true |
| Users.ValidNameMeansLength | src/main/java/com/fitastic/entity/User.java:28-42 | a name field is valid iff it is non-null with 3 to 50 characters |
| Users.EmailPatternMatches | src/main/java/com/fitastic/entity/User.java:44-47 | true iff the text splits as one or more allowed local characters, '@', one or more letters, digits, '.' or '-' |
| Users.ValidEmailHasOneAt | src/main/java/com/fitastic/entity/User.java:44-47 | a valid email has exactly one '@', with non-empty parts on both sides |
| Users.FindByUsername | src/main/java/com/fitastic/service/UserDetailsImpService.java:28-31 | the id of a user with that key, or none exactly when no user has it |
| Users.FindByUsernameUnique | src/main/java/com/fitastic/service/UserDetailsImpService.java:28-31 | with unique usernames, looking up a stored user's username finds that user |
| Users.RegisteredUsersLackNames | src/main/java/com/fitastic/service/AuthService.java:53-60 | a user built as registration builds it (no first or last name) violates the entity constraints of User.java:28-42 |
| RegisterRequest.TrimStart | src/main/java/com/fitastic/dto/RegisterRequestDTO.java:14 | a suffix of the text; everything dropped is at or below U+0020 and a non-empty result starts above it |
| RegisterRequest.TrimEnd | src/main/java/com/fitastic/dto/RegisterRequestDTO.java:14 | a prefix of the text; everything dropped is at or below U+0020 and a non-empty result ends above it |
| RegisterRequest.TrimEmptyIffBlank | src/main/java/com/fitastic/dto/RegisterRequestDTO.java:14 | a text keeps something after trimming iff it holds a character above U+0020 |
| RegisterRequest.FieldViolations | src/main/java/com/fitastic/dto/RegisterRequestDTO.java:14-28 | the failed checks of one field: exactly those of its not-blank and size checks that fail |
| RegisterRequest.Violations | src/main/java/com/fitastic/dto/RegisterRequestDTO.java:14-28 | a (field, check) pair is reported iff that check fails on that field |
| RegisterRequest.MessagesDistinct | src/main/java/com/fitastic/dto/RegisterRequestDTO.java:14-27 | the eight constraint messages are pairwise different |
| RegisterRequest.ViolationMessages | src/main/java/com/fitastic/dto/RegisterRequestDTO.java:14-27 | a constraint's message is reported iff that constraint fails |
| RegisterRequest.IsValidIffFields | src/main/java/com/fitastic/dto/RegisterRequestDTO.java:14-28 | the request is valid iff the three names are not blank with 3 to 50 characters and the password is not blank with at least 8; a null field fails its required check |
| RegisterRequest.NameFieldMeaning | src/main/java/com/fitastic/dto/RegisterRequestDTO.java:14-24 | a name field passes iff it is non-null, has a visible character and has 3 to 50 characters |
| Tokens.FindByAccessToken | src/main/java/com/fitastic/repository/TokenRepository.java:16 | the first record holding the access token, or none exactly when no record holds it |
| Tokens.FindByRefreshToken | src/main/java/com/fitastic/repository/TokenRepository.java:17 | the first record holding the refresh token, or none exactly when no record holds it |
| Tokens.FindAllAccessTokensByUser | src/main/java/com/fitastic/repository/TokenRepository.java:15 | the ids of exactly the user's records, strictly ascending |
| Tokens.EvolvesTransitive | src/main/java/com/fitastic/service/AuthService.java:104-132 | the lifecycle order (nothing deleted, pairs and owners fixed, revoked stays revoked) composes across operations |
| Tokens.FindByAccessTokenStable | src/main/java/com/fitastic/service/JwtService.java:58-61 | once found, an access token keeps resolving to the same record as the table evolves |
| Tokens.FindByRefreshTokenStable | src/main/java/com/fitastic/service/JwtService.java:77-80 | once found, a refresh token keeps resolving to the same record as the table evolves |
| Tokens.FindByAccessTokenAppended | src/main/java/com/fitastic/service/AuthService.java:125-131 | an appended record with a new access token is the one found for it |
| Tokens.FindByRefreshTokenAppended | src/main/java/com/fitastic/service/AuthService.java:125-131 | an appended record with a new refresh token is the one found for it |
| JwtService.ExtractUsername | src/main/java/com/fitastic/service/JwtService.java:45-47 | the subject of a token that parses; a failure for malformed text |
| JwtService.IsValid | src/main/java/com/fitastic/service/JwtService.java:55-64 | raises exactly on malformed text or null subject; otherwise true iff subject equals the username, expiration is not before now and the first record holding the access token is live, and false in every other case; never true without a record |
| JwtService.IsValidRefreshToken | src/main/java/com/fitastic/service/JwtService.java:74-83 | raises exactly on malformed text or null subject; otherwise true iff the same three conditions hold with the record looked up by refresh token, false in every other case |
| JwtService.IssuedTokenExpiry | src/main/java/com/fitastic/service/JwtService.java:91-93 | states the meaning of `JwtService.IsTokenExpired` (expiration strictly before now): an issued token parses, and is expired at a time iff that time is after its issue time plus its lifetime: at its expiration instant it is not expired |
| JwtService.GenerateToken | src/main/java/com/fitastic/service/JwtService.java:163-171 | the token reads back with subject = username, issued now, expiring now + lifetime |
| JwtService.GenerateAccessToken | src/main/java/com/fitastic/service/JwtService.java:141-143 | a token for the user with the access lifetime |
| JwtService.GenerateRefreshToken | src/main/java/com/fitastic/service/JwtService.java:152-154 | a token for the user with the refresh lifetime |
| JwtService.AccessAndRefreshDifferOnlyInLifetime | src/main/java/com/fitastic/service/JwtService.java:141-154 | with equal lifetimes the two tokens coincide; with different lifetimes they differ |
| JwtService.ExtractUsernameOfIssued | src/main/java/com/fitastic/service/JwtService.java:163-171 | an issued token's subject reads back as the user's username |
| JwtService.IssuedAccessTokenValid | src/main/java/com/fitastic/service/JwtService.java:55-64 | a freshly stored access token is valid for its user iff the time is within its lifetime, and never for another username |
| JwtService.IssuedRefreshTokenValid | src/main/java/com/fitastic/service/JwtService.java:74-83 | the same for a freshly stored refresh token |
| JwtService.RevokedAccessTokenInvalid | src/main/java/com/fitastic/service/JwtService.java:58-63 | an access token whose record is revoked is valid for no user at no time |
| JwtService.RevokedRefreshTokenInvalid | src/main/java/com/fitastic/service/JwtService.java:77-82 | a refresh token whose record is revoked is valid for no user at no time |
| Store.Database.constructor | src/main/java/com/fitastic/repository/TokenRepository.java:14 | the empty stores satisfy the store invariant |
| AuthService.RevokedFor | src/main/java/com/fitastic/service/AuthService.java:104-115 | every record of the user revoked, every other record unchanged, in lifecycle order |
| AuthService.Authenticate | src/main/java/com/fitastic/service/AuthService.java:79-86 | accepts iff the user exists and the password matches, and then names that user |
| AuthService.TokenOwner | src/main/java/com/fitastic/service/AuthService.java:149-153 | the user whose username is the token's subject; malformed text and unknown or null subject are the two failures |
| AuthService.RevokeAllTokenByUser | src/main/java/com/fitastic/service/AuthService.java:104-115 | the loop leaves the table equal to RevokedFor: only the user's records revoked, nothing written when there are none |
| AuthService.SaveUserToken | src/main/java/com/fitastic/service/AuthService.java:125-132 | appends exactly one live record for the pair and user |
| AuthService.ReissueTokens | src/main/java/com/fitastic/service/AuthService.java:87-91 | issues the user's access and refresh tokens for now, revokes every record the user owned and appends one live record with the new pair |
| AuthService.Register | src/main/java/com/fitastic/service/AuthService.java:45-69 | a taken key writes nothing and answers "User already exist"; otherwise one USER with encoded passwords and one live record with the new pair, answering only a success message |
| AuthService.Login | src/main/java/com/fitastic/service/AuthService.java:78-95 | rejected credentials change nothing; otherwise all the user's records revoked, one live record with the returned pair appended |
| AuthService.RefreshToken | src/main/java/com/fitastic/service/AuthService.java:143-169 | missing or non-bearer header 401; malformed or ownerless token raises; invalid token 401; each without a write; a valid live refresh token revokes and appends one live pair, answered with it |
| AuthService.ReissueLeavesOneLivePair | src/main/java/com/fitastic/service/AuthService.java:86-93 | after a login or refresh the user owns exactly one live record, the new one; other users' records unchanged |
| AuthService.ReissueInvalidatesPriorPair | src/main/java/com/fitastic/service/AuthService.java:97-101 | after a login or refresh an earlier record of the user no longer validates its access token, when it is the first record holding that text, nor its refresh token, when it is the first record holding that one |
| AuthService.SameInstantReissueRejected | src/main/java/com/fitastic/service/AuthService.java:86-91 | when one user is reissued twice at the same instant and the text was new, the first access token is valid until it expires and the second (identical) one is never valid |
| LogoutHandler.LoggedOut | src/main/java/com/fitastic/config/CustomLogoutHandler.java:36-51 | without a bearer token or a matching record nothing changes; otherwise exactly the matching record is revoked |
| LogoutHandler.Logout | src/main/java/com/fitastic/config/CustomLogoutHandler.java:32-52 | the store becomes LoggedOut of the old store; users unchanged |
| LogoutHandler.LogoutIdempotent | src/main/java/com/fitastic/config/CustomLogoutHandler.java:48-50 | logging out twice equals logging out once |
| LogoutHandler.LogoutRevokesToken | src/main/java/com/fitastic/config/CustomLogoutHandler.java:11-14 | after a logout with a token, that token is valid for no user |
| JwtAuthenticationFilter.SecurityContext.constructor | src/main/java/com/fitastic/filter/JwtAuthenticationFilter.java:63 | a fresh context holds no identity |
| JwtAuthenticationFilter.Filter | src/main/java/com/fitastic/filter/JwtAuthenticationFilter.java:50-81 | no bearer header, a null subject or an existing identity continue with the identity unchanged; a malformed token or an unknown user raise; otherwise the identity is that user with their authorities iff the token is valid for them; an identity it sets is always a stored user holding a valid token |
| JwtAuthenticationFilter.DoFilterInternal | src/main/java/com/fitastic/filter/JwtAuthenticationFilter.java:44-82 | never writes the stores; calls the chain once unless it raises; its outcome and the context's identity are exactly those of Filter on the old identity |
| SecurityConfig.RulesMeaning | src/main/java/com/fitastic/config/SecurityConfig.java:52-54 | the first rule matches exactly the public paths and the second exactly the admin-only paths |
| SecurityConfig.RequiredAccess | src/main/java/com/fitastic/config/SecurityConfig.java:52-56 | public paths permit all, admin-only paths need ADMIN, every other path needs an identity, checked in order |
| SecurityConfig.Authorize | src/main/java/com/fitastic/config/SecurityConfig.java:52-65 | public paths granted; admin-only paths 401 without identity, 403 without ADMIN; other paths 401 without identity |
| SecurityConfig.PublicAndAdminDisjoint | src/main/java/com/fitastic/config/SecurityConfig.java:52-54 | no path is both public and admin-only |
| SecurityConfig.RefusalMeaning | src/main/java/com/fitastic/config/SecurityConfig.java:61-65 | 403 iff an identity lacking ADMIN asks for an admin-only path; 401 iff no identity asks for a non-public path |
| SecurityConfig.AdminPathsFollowRole | src/main/java/com/fitastic/config/SecurityConfig.java:54 | on an admin-only path an ADMIN is granted and a USER gets 403 |
| SecurityConfig.ProcessRequest | src/main/java/com/fitastic/config/SecurityConfig.java:48-71 | "/logout" runs the logout handler and ends with no identity; any other path leaves the stores alone, its identity is the one Filter sets on an empty context, and the answer is the filter's fault when it raises and otherwise the rules' decision on that identity |
| SecurityConfig.LiveTokenOpensPath | src/main/java/com/fitastic/config/SecurityConfig.java:52-56 | an unexpired access token issued for a stored user, whose first record is live, establishes that user with their authorities and opens every path that is not admin-only, and admin-only paths for an ADMIN |
| SecurityConfig.LoginThenRequest | src/main/java/com/fitastic/service/AuthService.java:78-95 | a request sent with a new login's access token before it expires is granted on any path that is not admin-only; a failed login sends no token and gets the rules' answer for no identity |
| SecurityConfig.LogoutThenRequest | src/main/java/com/fitastic/config/SecurityConfig.java:66-70 | after logging out with a token, a request with it to a protected path is refused with 401 or raises |
| UserExerciseService.GetExerciseById | src/main/java/com/fitastic/service/UserExerciseService.java:24-30 | the first exercise with that id in stored order, found iff some exercise has the id; otherwise NoSuchElementException "Exercise not found with id: " + id |
| UserExerciseService.Updated | src/main/java/com/fitastic/service/UserExerciseService.java:35-37 | name, description and target from the update; every other field kept |
| UserExerciseService.KeepKeepsUniqueIds | src/main/java/com/fitastic/service/UserExerciseService.java:42-43 | deleting by id keeps ids unique |
| UserExerciseService.UserExerciseRepository.constructor | src/main/java/com/fitastic/service/UserExerciseService.java:18 | a collection with unique ids |
| UserExerciseService.UserExerciseRepository.GetAll | src/main/java/com/fitastic/service/UserExerciseService.java:20-22 | every stored exercise in stored order, each found by its id |
| UserExerciseService.UserExerciseRepository.UpdateExercise | src/main/java/com/fitastic/service/UserExerciseService.java:32-39 | unknown id raises NoSuchElementException and changes nothing; otherwise only that document's three fields change and looking it up again returns the saved document |
| UserExerciseService.UserExerciseRepository.DeleteExerciseById | src/main/java/com/fitastic/service/UserExerciseService.java:41-47 | an existing id is removed, one document fewer, every other document kept; an unknown id raises RuntimeException and removes nothing |
| DefaultExerciseService.GetAll | src/main/java/com/fitastic/service/DefaultExerciseService.java:17-19 | every catalogue entry in stored order, each found by its id |
| DefaultExerciseService.GetExerciseById | src/main/java/com/fitastic/service/DefaultExerciseService.java:21-27 | the first entry with that id, found iff some entry has it; otherwise NoSuchElementException naming the id |
| DefaultExerciseService.EveryEntryFound | src/main/java/com/fitastic/service/DefaultExerciseService.java:21-27 | with unique ids, looking up an entry's id returns that entry |

## Left out

- JWT signing, signature checking and Base64URL key decoding: foreign cryptography, replaced by the abstract codec. JJWT's own rejection of expired tokens while parsing is not modelled; expiry is checked only by `isTokenExpired`. Issue times are whatever `now` the caller passes, so whole-second rounding appears only as two reissues at the same `now`.
- The wall clock: `now` is a parameter, and one operation reads it once, so the two tokens of a pair share their issue time.
- BCrypt: `encode` is a function of the password alone, so salting is not modelled.
- Concurrency, including two logins of one user racing.
- Servlet objects, `SecurityContextHolder`'s thread-local state and the HTTP method of "/logout": the header is an optional string and the identity a field of `SecurityContext`.
- HTTP controllers and the exception-to-status handlers; failures stay as result values.
- Repositories that find several matches where one is expected take the first match instead; Spring Data's single-result query raises `IncorrectResultSizeDataAccessException` there. For tokens this only arises when two records hold the same text (two reissues of one user within one second).
- `User.tokens` and the generated ids as strings; ids are indices.
- Length limits count characters, not UTF-16 code units, and the email check is the annotation's regular expression only, not Hibernate's additional structure checks.
- Token lifetimes are unbounded integers: Java `long` overflow in `currentTimeMillis() + expireTime` is not modelled.
- `Role.java`, `UserRegisterDTO`, `AuthResponse`, `UserExerciseRepository` and `DefaultExerciseRepository` are not part of this model; the roles USER and ADMIN and the fields registration reads are taken from their uses.
- Exercise documents with a null id, which would raise in the stream filter; ids are plain strings.
- Tokens without an expiration claim: `isTokenExpired` would raise on them (`JwtService.java:92`); every set of claims in the model carries an expiration.
- JwtService.IsValid: when two records hold the same token text the program's lookup raises; the model consults only the first of them and answers with a rejection instead. The lemmas about issued tokens assume the new text is not already stored.
