/** The user entity: its role-derived authority, its account-status flags,
    its field constraints, and the user-store lookup.

    Identity key. The source disagrees about which field identifies a user:
    the authentication service looks users up by email, the token subject is
    the username, and the user-details service calls a username finder the
    user repository does not declare. The model uses ONE identity key, the
    `username` field, as the token subject and as the key of every user
    lookup; `email` is kept only as a validated field. */
module Users {
  import opened Wrappers
  import Lookup

  datatype Role = USER | ADMIN

  function RoleName(role: Role): string {
    match role
    case USER => "USER"
    case ADMIN => "ADMIN"
  }

  /** A stored user. `firstName` and `lastName` may be null (None): the
      registration path never sets them. `password` and `confirmPassword`
      hold encoded values. */
  datatype User = User(
    username: string,
    firstName: Option<string>,
    lastName: Option<string>,
    email: string,
    password: string,
    confirmPassword: string,
    role: Role)

  /** The password hashing bean: a one-way encoder and the matcher that
      checks a raw password against an encoded one. */
  datatype PasswordEncoder = PasswordEncoder(encode: string -> string, matches: (string, string) -> bool)

  /** The granted authorities: exactly one, named after the role. */
  function GetAuthorities(user: User): (authorities: seq<string>)
    ensures |authorities| == 1
    ensures authorities[0] == RoleName(user.role)
  {
    [RoleName(user.role)]
  }

  /** A user holds the "ADMIN" authority exactly when their role is ADMIN,
      and two users have the same authorities exactly when they have the
      same role. */
  lemma AuthoritiesFollowRole(user: User, other: User)
    ensures "ADMIN" in GetAuthorities(user) <==> user.role == ADMIN
    ensures "USER" in GetAuthorities(user) <==> user.role == USER
    ensures GetAuthorities(user) == GetAuthorities(other) <==> user.role == other.role
  {
    assert "USER" != "ADMIN" by { assert "USER"[0] != "ADMIN"[0]; }
  }

  // The four account-status flags are constant: no account ever expires,
  // is locked, has expired credentials or is disabled.

  function IsAccountNonExpired(user: User): (b: bool)
    ensures b
  {
    true
  }

  function IsAccountNonLocked(user: User): (b: bool)
    ensures b
  {
    true
  }

  function IsCredentialsNonExpired(user: User): (b: bool)
    ensures b
  {
    true
  }

  function IsEnabled(user: User): (b: bool)
    ensures b
  {
    true
  }

  // ---- Field constraints ----------------------------------------------

  /** @NotEmpty: not null and at least one character. */
  predicate NotEmpty(s: Option<string>) {
    s.Some? && |s.value| > 0
  }

  /** @Size(min, max): a null value passes; otherwise the length is in range. */
  predicate SizeBetween(s: Option<string>, min: nat, max: nat) {
    s.None? || min <= |s.value| <= max
  }

  /** username, firstName and lastName: @Size(3, 50), @NonNull, @NotEmpty. */
  predicate ValidName(s: Option<string>) {
    s.Some? && SizeBetween(s, 3, 50) && NotEmpty(s)
  }

  lemma ValidNameMeansLength(s: Option<string>)
    ensures ValidName(s) <==> s.Some? && 3 <= |s.value| <= 50
  {
  }

  /** Characters of the class before '@' in the email pattern
      ^[a-zA-Z0-9_!#$%&'*+/=?`{|}~^.-]+@[a-zA-Z0-9.-]+$ */
  predicate LocalChar(c: char) {
    ('a' <= c <= 'z') || ('A' <= c <= 'Z') || ('0' <= c <= '9') || c in "_!#$%&'*+/=?`{|}~^.-"
  }

  /** Characters of the class after '@' in the email pattern. */
  predicate DomainChar(c: char) {
    ('a' <= c <= 'z') || ('A' <= c <= 'Z') || ('0' <= c <= '9') || c == '.' || c == '-'
  }

  /** What it means for the whole string to match the pattern: it splits at
      some '@' into a non-empty run of local characters and a non-empty run
      of domain characters. */
  ghost predicate MatchesEmailPattern(s: string) {
    exists i :: 0 < i < |s| - 1 && s[i] == '@'
      && (forall j :: 0 <= j < i ==> LocalChar(s[j]))
      && (forall j :: i < j < |s| ==> DomainChar(s[j]))
  }

  /** Checks the email pattern by splitting at the first '@'. */
  function EmailPatternMatches(s: string): (b: bool)
    ensures b <==> MatchesEmailPattern(s)
  {
    match Lookup.FirstIndex(s, c => c == '@')
    case None => false
    case Some(i) =>
      && 0 < i < |s| - 1
      && (forall j :: 0 <= j < i ==> LocalChar(s[j]))
      && (forall j :: i < j < |s| ==> DomainChar(s[j]))
  }

  /** email: @NotEmpty, @NonNull and the @Email pattern. */
  predicate ValidEmail(s: Option<string>) {
    NotEmpty(s) && EmailPatternMatches(s.value)
  }

  /** The constraints the entity declares on its fields. */
  predicate ValidUser(user: User) {
    && ValidName(Some(user.username))
    && ValidName(user.firstName)
    && ValidName(user.lastName)
    && ValidEmail(Some(user.email))
  }

  /** Registration stores a user without first and last name (both
      null), so a registered user never meets the entity's own field
      constraints; the document store does not check them on save. */
  lemma RegisteredUsersLackNames(username: string, email: string, password: string, confirmPassword: string, role: Role)
    ensures !ValidUser(User(username, None, None, email, password, confirmPassword, role))
  {
  }

  /** A valid email has a single '@', with allowed,
      non-empty parts on both sides. */
  lemma {:induction false} ValidEmailHasOneAt(s: string)
    ensures ValidEmail(Some(s)) ==>
      exists i :: 0 < i < |s| - 1 && s[i] == '@' && '@' !in s[..i] && '@' !in s[i + 1..]
  {
    if ValidEmail(Some(s)) {
      var i :| 0 < i < |s| - 1 && s[i] == '@'
        && (forall j :: 0 <= j < i ==> LocalChar(s[j]))
        && (forall j :: i < j < |s| ==> DomainChar(s[j]));
      assert '@' !in s[..i];
      assert '@' !in s[i + 1..];
    }
  }

  // ---- User store -------------------------------------------------------

  /** The user-store lookup by identity key: the index (generated id) of the
      first user whose username equals `key`. */
  function FindByUsername(users: seq<User>, key: string): (r: Option<nat>)
    ensures r.Some? ==> r.value < |users| && users[r.value].username == key
    ensures r.None? <==> forall j :: 0 <= j < |users| ==> users[j].username != key
  {
    Lookup.FirstIndex(users, (u: User) => u.username == key)
  }

  /** Usernames are unique across the store. */
  ghost predicate UniqueUsernames(users: seq<User>) {
    forall i, j :: 0 <= i < j < |users| ==> users[i].username != users[j].username
  }

  /** With unique usernames, looking a stored user's username up finds
      exactly that user. */
  lemma FindByUsernameUnique(users: seq<User>, i: nat)
    requires UniqueUsernames(users) && i < |users|
    ensures FindByUsername(users, users[i].username) == Some(i)
  {
  }
}
