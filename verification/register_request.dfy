/** The registration request body and the bean-validation constraints its
    fields carry. A null field is `None`. */
module RegisterRequest {
  import opened Wrappers
  import Users

  datatype RegisterRequestDTO = RegisterRequestDTO(
    firstName: Option<string>,
    lastName: Option<string>,
    username: Option<string>,
    password: Option<string>)

  /** Leading characters at or below U+0020 removed, as Java's trim does. */
  function TrimStart(s: string): (r: string)
    ensures |r| <= |s| && r == s[|s| - |r|..]
    ensures forall i :: 0 <= i < |s| - |r| ==> s[i] <= ' '
    ensures |r| > 0 ==> r[0] > ' '
  {
    if |s| > 0 && s[0] <= ' ' then TrimStart(s[1..]) else s
  }

  /** Trailing characters at or below U+0020 removed. */
  function TrimEnd(s: string): (r: string)
    ensures |r| <= |s| && r == s[..|r|]
    ensures forall i :: |r| <= i < |s| ==> s[i] <= ' '
    ensures |r| > 0 ==> r[|r| - 1] > ' '
  {
    if |s| > 0 && s[|s| - 1] <= ' ' then TrimEnd(s[..|s| - 1]) else s
  }

  function Trim(s: string): string {
    TrimEnd(TrimStart(s))
  }

  /** The string holds a character above U+0020. */
  predicate HasVisible(s: string) {
    exists i :: 0 <= i < |s| && s[i] > ' '
  }

  /** A string has something left after trimming exactly when it holds a
      character above U+0020. */
  lemma {:induction false} TrimEmptyIffBlank(s: string)
    ensures |Trim(s)| > 0 <==> HasVisible(s)
  {
    TrimStartKeepsVisible(s);
    TrimEndKeepsVisible(TrimStart(s));
  }

  lemma {:induction false} TrimStartKeepsVisible(s: string)
    ensures HasVisible(TrimStart(s)) <==> HasVisible(s)
  {
    var r := TrimStart(s);
    BlankPrefixKeepsVisible(s, |s| - |r|);
  }

  /** Dropping a prefix of characters at or below U+0020 keeps whether a
      visible character is left. */
  lemma BlankPrefixKeepsVisible(s: string, cut: nat)
    requires cut <= |s|
    requires forall i :: 0 <= i < cut ==> s[i] <= ' '
    ensures HasVisible(s[cut..]) <==> HasVisible(s)
  {
    if HasVisible(s) {
      var i :| 0 <= i < |s| && s[i] > ' ';
      assert s[cut..][i - cut] == s[i];
    }
    if HasVisible(s[cut..]) {
      var i :| 0 <= i < |s| - cut && s[cut..][i] > ' ';
      assert s[i + cut] == s[cut..][i];
    }
  }

  lemma {:induction false} TrimEndKeepsVisible(s: string)
    requires |s| > 0 ==> s[0] > ' '
    ensures |TrimEnd(s)| > 0 <==> HasVisible(s)
  {
    if |s| > 0 && s[|s| - 1] <= ' ' {
      TrimEndKeepsVisible(s[..|s| - 1]);
    }
  }

  /** @NotBlank: not null and not empty once trimmed. */
  predicate NotBlank(s: Option<string>) {
    s.Some? && |Trim(s.value)| > 0
  }

  /** @Size(min): no upper bound. */
  predicate SizeAtLeast(s: Option<string>, min: nat) {
    s.None? || min <= |s.value|
  }

  datatype Field = FirstName | LastName | Username | Password

  /** The two constraints every field carries: @NotBlank ("required") and
      @Size ("length"). */
  datatype Check = Required | Length

  function FieldValue(dto: RegisterRequestDTO, field: Field): Option<string> {
    match field
    case FirstName => dto.firstName
    case LastName => dto.lastName
    case Username => dto.username
    case Password => dto.password
  }

  /** Whether one field passes one constraint: names are 3 to 50
      characters, the password at least 8. */
  predicate Passes(dto: RegisterRequestDTO, field: Field, check: Check) {
    var s := FieldValue(dto, field);
    match check
    case Required => NotBlank(s)
    case Length => if field == Password then SizeAtLeast(s, 8) else Users.SizeBetween(s, 3, 50)
  }

  /** The name a message gives its field. */
  function FieldName(f: Field): string {
    match f
    case FirstName => "firstName"
    case LastName => "lastName"
    case Username => "Username"
    case Password => "Password"
  }

  /** The message attached to each constraint: the field's name, then
      "is required" for @NotBlank or the size requirement for @Size. */
  function Message(field: Field, check: Check): string {
    FieldName(field) +
      match check
      case Required => " is required"
      case Length =>
        if field == Password then " must be at least 8 characters long"
        else " must be between 3 and 50 characters"
  }

  /** Distinct constraints carry distinct messages. */
  lemma MessagesDistinct(f: Field, c: Check, g: Field, d: Check)
    requires (f, c) != (g, d)
    ensures Message(f, c) != Message(g, d)
  {
    // The first letter names the field; within one field the two messages
    // differ in length.
    if f != g {
      assert Message(f, c)[0] == FieldName(f)[0];
      assert Message(g, d)[0] == FieldName(g)[0];
    } else {
      assert |Message(f, c)| != |Message(g, d)|;
    }
  }

  /** The messages reported for a request: one per failed constraint. */
  function ViolationMessages(dto: RegisterRequestDTO): (m: set<string>)
    ensures forall f, c :: Message(f, c) in m <==> !Passes(dto, f, c)
  {
    var v := Violations(dto);
    var m := set x | x in v :: Message(x.0, x.1);
    assert forall f, c :: Message(f, c) in m ==> (f, c) in v by {
      forall f, c | Message(f, c) in m ensures (f, c) in v {
        var x :| x in v && Message(x.0, x.1) == Message(f, c);
        if x != (f, c) {
          MessagesDistinct(x.0, x.1, f, c);
        }
      }
    }
    m
  }

  function FieldViolations(dto: RegisterRequestDTO, field: Field): (v: set<(Field, Check)>)
    ensures forall f, c :: (f, c) in v <==> f == field && !Passes(dto, f, c)
  {
    (if Passes(dto, field, Required) then {} else {(field, Required)})
    + (if Passes(dto, field, Length) then {} else {(field, Length)})
  }

  /** Every failed constraint of the request, and no other. */
  function Violations(dto: RegisterRequestDTO): (v: set<(Field, Check)>)
    ensures forall f, c :: (f, c) in v <==> !Passes(dto, f, c)
  {
    FieldViolations(dto, FirstName) + FieldViolations(dto, LastName)
    + FieldViolations(dto, Username) + FieldViolations(dto, Password)
  }

  /** A name field (firstName, lastName, username) passes its two checks. */
  predicate ValidNameField(s: Option<string>) {
    NotBlank(s) && Users.SizeBetween(s, 3, 50)
  }

  /** The request passes validation exactly when no constraint fails. */
  predicate IsValid(dto: RegisterRequestDTO) {
    Violations(dto) == {}
  }

  /** Validity field by field: each name is present, has a visible character
      and 3 to 50 characters; the password is present, has a visible
      character and at least 8 characters, with no upper bound. A null field
      fails its required check. */
  lemma {:induction false} IsValidIffFields(dto: RegisterRequestDTO)
    ensures IsValid(dto) <==>
      && ValidNameField(dto.firstName)
      && ValidNameField(dto.lastName)
      && ValidNameField(dto.username)
      && NotBlank(dto.password) && SizeAtLeast(dto.password, 8)
    ensures forall f :: FieldValue(dto, f).None? ==> (f, Required) in Violations(dto)
  {
    var v := Violations(dto);
    if !IsValid(dto) {
      var x :| x in v;
      assert !Passes(dto, x.0, x.1);
    }
    if !ValidNameField(dto.firstName) {
      assert (FirstName, Required) in v || (FirstName, Length) in v;
    }
    if !ValidNameField(dto.lastName) {
      assert (LastName, Required) in v || (LastName, Length) in v;
    }
    if !ValidNameField(dto.username) {
      assert (Username, Required) in v || (Username, Length) in v;
    }
    if !NotBlank(dto.password) {
      assert (Password, Required) in v;
    }
    if !SizeAtLeast(dto.password, 8) {
      assert (Password, Length) in v;
    }
  }

  /** A name field is valid exactly when it is non-null, has a character
      above U+0020 and is 3 to 50 characters long. */
  lemma NameFieldMeaning(s: Option<string>)
    ensures ValidNameField(s) <==>
      s.Some? && 3 <= |s.value| <= 50 && exists i :: 0 <= i < |s.value| && s.value[i] > ' '
  {
    if s.Some? {
      TrimEmptyIffBlank(s.value);
    }
  }
}
