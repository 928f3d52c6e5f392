/**
 * src/app-zod-schemas/auth.ts: the signup and login form schemas. A string
 * schema is a list of checks; zod runs all of them and reports the message
 * of every check that fails, in order. The `.email()` check belongs to the
 * library and is a parameter here.
 */
module AuthSchemas {
  import opened Strings

  /** The character classes of the four password regexes. */
  datatype CharClass = Upper | Lower | Digit | NotAlnum

  predicate InClass(c: char, cls: CharClass) {
    match cls
    case Upper => IsAsciiUpper(c)
    case Lower => IsAsciiLower(c)
    case Digit => IsAsciiDigit(c)
    case NotAlnum => !IsAsciiAlnum(c)
  }

  /** `/[A-Z]/.test(s)` and the like: some character of `s` is in the class. */
  function HasCharIn(s: string, cls: CharClass): (b: bool)
    ensures b <==> exists i :: 0 <= i < |s| && InClass(s[i], cls)
  {
    if s == [] then false
    else if InClass(s[0], cls) then true
    else
      assert forall i :: 1 <= i < |s| ==> s[i] == s[1..][i - 1];
      HasCharIn(s[1..], cls)
  }

  /** One check of a string schema, with its message. */
  datatype Check =
    | MinLength(n: nat, message: string)
    | HasChar(cls: CharClass, message: string)
    | EmailFormat(message: string)

  function Passes(c: Check, s: string, isEmail: string -> bool): bool {
    match c
    case MinLength(n, _) => |s| >= n
    case HasChar(cls, _) => HasCharIn(s, cls)
    case EmailFormat(_) => isEmail(s)
  }

  /** The messages of the failing checks, in the order the checks are declared. */
  function Issues(checks: seq<Check>, s: string, isEmail: string -> bool): (r: seq<string>)
    ensures r == [] <==> forall i :: 0 <= i < |checks| ==> Passes(checks[i], s, isEmail)
    ensures |r| <= |checks|
  {
    if checks == [] then []
    else
      assert forall i :: 1 <= i < |checks| ==> checks[i] == checks[1..][i - 1];
      (if Passes(checks[0], s, isEmail) then [] else [checks[0].message]) + Issues(checks[1..], s, isEmail)
  }

  const FIRST_NAME_CHECKS: seq<Check> := [MinLength(1, "First name is required")]
  const LAST_NAME_CHECKS: seq<Check> := [MinLength(1, "Last name is required")]
  const EMAIL_CHECKS: seq<Check> := [MinLength(1, "Email is required"), EmailFormat("Invalid email address")]

  /** The password checks of createUserSchema. */
  const SIGNUP_PASSWORD_CHECKS: seq<Check> := [
    MinLength(8, "Password must be at least 8 characters long"),
    HasChar(Upper, "Password must contain at least 1 uppercase letter"),
    HasChar(Lower, "Password must contain at least 1 lowercase letter"),
    HasChar(Digit, "Password must contain at least 1 number"),
    HasChar(NotAlnum, "Password must contain at least 1 special character")
  ]

  /** The password checks of loginSchema, written out separately in the source. */
  const LOGIN_PASSWORD_CHECKS: seq<Check> := [
    MinLength(8, "Password must be at least 8 characters long"),
    HasChar(Upper, "Password must contain at least 1 uppercase letter"),
    HasChar(Lower, "Password must contain at least 1 lowercase letter"),
    HasChar(Digit, "Password must contain at least 1 number"),
    HasChar(NotAlnum, "Password must contain at least 1 special character")
  ]

  /** The password policy in plain terms. */
  predicate StrongPassword(p: string) {
    |p| >= 8
    && (exists i :: 0 <= i < |p| && IsAsciiUpper(p[i]))
    && (exists i :: 0 <= i < |p| && IsAsciiLower(p[i]))
    && (exists i :: 0 <= i < |p| && IsAsciiDigit(p[i]))
    && (exists i :: 0 <= i < |p| && !IsAsciiAlnum(p[i]))
  }

  /** A password passes the signup checks exactly when it meets the policy. */
  lemma PasswordPolicy(p: string, isEmail: string -> bool)
    ensures Issues(SIGNUP_PASSWORD_CHECKS, p, isEmail) == [] <==> StrongPassword(p)
  {
    var c := SIGNUP_PASSWORD_CHECKS;
    assert Passes(c[1], p, isEmail) <==> exists i :: 0 <= i < |p| && InClass(p[i], Upper);
    assert Passes(c[2], p, isEmail) <==> exists i :: 0 <= i < |p| && InClass(p[i], Lower);
    assert Passes(c[3], p, isEmail) <==> exists i :: 0 <= i < |p| && InClass(p[i], Digit);
    assert Passes(c[4], p, isEmail) <==> exists i :: 0 <= i < |p| && InClass(p[i], NotAlnum);
  }

  /** The login form applies the very same password checks. */
  lemma LoginPasswordSame()
    ensures LOGIN_PASSWORD_CHECKS == SIGNUP_PASSWORD_CHECKS
  {
  }

  lemma StrongExampleAccepted(isEmail: string -> bool)
    ensures Issues(SIGNUP_PASSWORD_CHECKS, "Str0ng!Pass", isEmail) == []
  {
    var p := "Str0ng!Pass";
    assert IsAsciiUpper(p[0]) && IsAsciiLower(p[1]) && IsAsciiDigit(p[3]) && !IsAsciiAlnum(p[6]);
    PasswordPolicy(p, isEmail);
  }

  /** A password under 8 characters is rejected, and the length message comes first. */
  lemma ShortPasswordRejected(p: string, isEmail: string -> bool)
    requires |p| < 8
    ensures Issues(SIGNUP_PASSWORD_CHECKS, p, isEmail) != []
    ensures Issues(SIGNUP_PASSWORD_CHECKS, p, isEmail)[0] == "Password must be at least 8 characters long"
  {
  }

  /** A name field is accepted exactly when it is non-empty. */
  lemma NameRequired(name: string, isEmail: string -> bool)
    ensures Issues(FIRST_NAME_CHECKS, name, isEmail) == [] <==> name != ""
    ensures Issues(LAST_NAME_CHECKS, name, isEmail) == [] <==> name != ""
    ensures name == "" ==> Issues(FIRST_NAME_CHECKS, name, isEmail) == ["First name is required"]
  {
  }

  /** An email is accepted exactly when it is non-empty and the library calls it an address. */
  lemma EmailRequired(email: string, isEmail: string -> bool)
    ensures Issues(EMAIL_CHECKS, email, isEmail) == [] <==> email != "" && isEmail(email)
  {
    assert Passes(EMAIL_CHECKS[0], email, isEmail) <==> email != "";
  }

  /** An issue of an object schema: the field and the message. */
  datatype FieldIssue = FieldIssue(field: string, message: string)

  function FieldIssues(field: string, messages: seq<string>): (r: seq<FieldIssue>)
    ensures |r| == |messages|
    ensures forall i :: 0 <= i < |r| ==> r[i] == FieldIssue(field, messages[i])
  {
    seq(|messages|, i requires 0 <= i < |messages| => FieldIssue(field, messages[i]))
  }

  datatype CreateUserForm = CreateUserForm(firstName: string, lastName: string, email: string, password: string)

  /** createUserSchema: the issues of every field, in the order the fields are declared. */
  function CreateUserIssues(form: CreateUserForm, isEmail: string -> bool): seq<FieldIssue> {
    FieldIssues("firstName", Issues(FIRST_NAME_CHECKS, form.firstName, isEmail))
    + FieldIssues("lastName", Issues(LAST_NAME_CHECKS, form.lastName, isEmail))
    + FieldIssues("email", Issues(EMAIL_CHECKS, form.email, isEmail))
    + FieldIssues("password", Issues(SIGNUP_PASSWORD_CHECKS, form.password, isEmail))
  }

  datatype LoginForm = LoginForm(email: string, password: string)

  /** loginSchema. */
  function LoginIssues(form: LoginForm, isEmail: string -> bool): seq<FieldIssue> {
    FieldIssues("email", Issues(EMAIL_CHECKS, form.email, isEmail))
    + FieldIssues("password", Issues(LOGIN_PASSWORD_CHECKS, form.password, isEmail))
  }

  /** The signup form is accepted exactly when both names are given, the email is a valid address and the password is strong. */
  lemma CreateUserAcceptedIff(form: CreateUserForm, isEmail: string -> bool)
    ensures CreateUserIssues(form, isEmail) == [] <==>
      form.firstName != "" && form.lastName != "" && form.email != "" && isEmail(form.email) && StrongPassword(form.password)
  {
    PasswordPolicy(form.password, isEmail);
    NameRequired(form.firstName, isEmail);
    NameRequired(form.lastName, isEmail);
    EmailRequired(form.email, isEmail);
  }

  /** The login form is accepted exactly when the email is a valid address and the password is strong. */
  lemma LoginAcceptedIff(form: LoginForm, isEmail: string -> bool)
    ensures LoginIssues(form, isEmail) == [] <==> form.email != "" && isEmail(form.email) && StrongPassword(form.password)
  {
    PasswordPolicy(form.password, isEmail);
    LoginPasswordSame();
    EmailRequired(form.email, isEmail);
  }

  /** An empty email reports both of its messages, the required one first. */
  lemma EmptyEmailIssues(isEmail: string -> bool)
    requires !isEmail("")
    ensures Issues(EMAIL_CHECKS, "", isEmail) == ["Email is required", "Invalid email address"]
  {
  }
}
