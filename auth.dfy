/** Registration and login validation (authentication/serializers.py).
    Password hashing and the authentication backend are not modelled: the user record keeps no
    credential, and login receives the backend as a function `authenticate`. */
module Auth {
  import opened Common

  /** The part of a user account the store and the validators look at. */
  datatype User = User(username: string, email: string, firstName: string, lastName: string, isActive: bool)

  /** A registration request body; an absent key is None. */
  datatype RegistrationRequest = RegistrationRequest(
    username: Option<string>,
    email: Option<string>,
    password: Option<string>,
    passwordConfirm: Option<string>,
    firstName: Option<string>,
    lastName: Option<string>)

  const PasswordMinLength := 8
  const EmailTakenMessage := "A user with this email already exists."
  const PasswordsDifferMessage := "Passwords don't match"

  const UsernameRule := TextRule(true, false, None)
  /** `email` is made required; the model field allows blank. */
  const EmailRule := TextRule(true, true, None)
  const PasswordRule := TextRule(true, false, None)
  const NameRule := TextRule(false, true, None)

  /** `validate_email`: an address held by any existing user is refused. */
  predicate EmailAvailable(users: map<nat, User>, email: string) {
    forall id :: id in users ==> users[id].email != email
  }

  /** The e-mail field: required (blank allowed, as the user model's field is), then
      `validate_email`. */
  function EmailErrors(email: Option<string>, users: map<nat, User>): (r: seq<FieldError>)
    ensures |r| <= 2 && forall e :: e in r ==> e.field == "email"
    ensures r == [] <==> email.Some? && '\0' !in email.value && EmailAvailable(users, email.value)
    ensures email.Some? && '\0' !in email.value && !EmailAvailable(users, email.value) ==>
              r == [FieldError("email", EmailTakenMessage)]
  {
    var basic := TextErrors(Create, "email", email, EmailRule);
    if basic != [] then basic
    else if exists id :: id in users && users[id].email == email.value then [FieldError("email", EmailTakenMessage)]
    else []
  }

  /** The password field: required, not blank, then its validators in order: at least
      `PasswordMinLength` characters, and no null character. */
  function PasswordErrors(password: Option<string>): (r: seq<FieldError>)
    ensures |r| <= 2 && forall e :: e in r ==> e.field == "password"
    ensures r == [] <==> password.Some? && |password.value| >= PasswordMinLength && '\0' !in password.value
    ensures password.Some? && 0 < |password.value| < PasswordMinLength ==>
              r[0] == FieldError("password", MinLengthMessage(PasswordMinLength))
  {
    if password.None? || password.value == "" then TextErrors(Create, "password", password, PasswordRule)
    else
      (if |password.value| < PasswordMinLength then [FieldError("password", MinLengthMessage(PasswordMinLength))] else [])
      + NullCharacterErrors("password", password.value)
  }

  /** Field-level validation, in the serializer's field order. */
  function RegistrationFieldErrors(req: RegistrationRequest, users: map<nat, User>): seq<FieldError> {
    TextErrors(Create, "username", req.username, UsernameRule)
    + EmailErrors(req.email, users)
    + PasswordErrors(req.password)
    + TextErrors(Create, "password_confirm", req.passwordConfirm, PasswordRule)
    + TextErrors(Create, "first_name", req.firstName, NameRule)
    + TextErrors(Create, "last_name", req.lastName, NameRule)
  }

  /** What the registration serializer accepts. */
  predicate RegistrationAcceptable(req: RegistrationRequest, users: map<nat, User>) {
    && TextAcceptable(Create, req.username, UsernameRule)
    && req.email.Some? && '\0' !in req.email.value && EmailAvailable(users, req.email.value)
    && req.password.Some? && |req.password.value| >= PasswordMinLength && '\0' !in req.password.value
    && req.password == req.passwordConfirm
    && TextAcceptable(Create, req.firstName, NameRule)
    && TextAcceptable(Create, req.lastName, NameRule)
  }

  /** `is_valid()` of the registration serializer: every field's checks, and only when they all
      pass, the object-level check that the two passwords agree. */
  function ValidateRegistration(req: RegistrationRequest, users: map<nat, User>): (r: Validated<RegistrationRequest>)
    ensures r.Passed? <==> RegistrationAcceptable(req, users)
    ensures r.Passed? ==> r.value == req
    ensures req.email.Some? && '\0' !in req.email.value && !EmailAvailable(users, req.email.value) ==>
              r.Failed? && FieldError("email", EmailTakenMessage) in r.errors
    ensures req.password.Some? && 0 < |req.password.value| < PasswordMinLength ==>
              r.Failed? && FieldError("password", MinLengthMessage(PasswordMinLength)) in r.errors
  {
    var errs := RegistrationFieldErrors(req, users);
    if errs != [] then Failed(errs)
    else if req.password.value != req.passwordConfirm.value then Failed([FieldError(NonFieldErrors, PasswordsDifferMessage)])
    else Passed(req)
  }

  /** A request whose fields all passed the field-level checks but whose two passwords differ is
      refused with the mismatch message alone. */
  lemma MismatchRejected(req: RegistrationRequest, users: map<nat, User>)
    requires RegistrationFieldErrors(req, users) == []
    requires req.password != req.passwordConfirm
    ensures ValidateRegistration(req, users) == Failed([FieldError(NonFieldErrors, PasswordsDifferMessage)])
  {
  }

  /** Position of the last '@' in an address, if it has one. */
  function LastAt(s: string): (r: Option<nat>)
    ensures r.Some? ==> r.value < |s| && s[r.value] == '@' && forall j :: r.value < j < |s| ==> s[j] != '@'
    ensures r.None? ==> forall j :: 0 <= j < |s| ==> s[j] != '@'
  {
    if |s| == 0 then None
    else if s[|s| - 1] == '@' then Some(|s| - 1)
    else LastAt(s[..|s| - 1])
  }

  /** An '@' with none after it is the last one. */
  lemma {:induction false} LastAtIs(s: string, i: nat)
    requires i < |s| && s[i] == '@' && forall j :: i < j < |s| ==> s[j] != '@'
    ensures LastAt(s) == Some(i)
    decreases |s|
  {
    if i < |s| - 1 {
      LastAtIs(s[..|s| - 1], i);
    }
  }

  /** The e-mail normalisation `create_user` applies before it stores an address: the part after
      the last '@' is lowercased, the part before it is kept; an address without '@' is kept. */
  function NormalizeEmail(e: string): (r: string)
    ensures |r| == |e|
    ensures LastAt(e).None? ==> r == e
    ensures LastAt(e).Some? ==> var i := LastAt(e).value;
              r[..i + 1] == e[..i + 1] && r[i + 1..] == Lower(e[i + 1..])
  {
    match LastAt(e)
    case None => e
    case Some(i) => e[..i + 1] + Lower(e[i + 1..])
  }

  lemma {:induction false} LowerIdempotent(s: string)
    ensures Lower(Lower(s)) == Lower(s)
  {
    assert forall j :: 0 <= j < |s| ==> LowerChar(LowerChar(s[j])) == LowerChar(s[j]);
  }

  /** Normalising twice is normalising once: a stored address is already in normal form. */
  lemma NormalizeEmailIdempotent(e: string)
    ensures NormalizeEmail(NormalizeEmail(e)) == NormalizeEmail(e)
  {
    var n := NormalizeEmail(e);
    if LastAt(e).Some? {
      var i := LastAt(e).value;
      var d := e[i + 1..];
      assert n == e[..i + 1] + Lower(d);
      forall j | i < j < |n|
        ensures n[j] != '@'
      {
        assert n[j] == LowerChar(d[j - i - 1]);
      }
      LastAtIs(n, i);
      assert n[i + 1..] == Lower(d);
      LowerIdempotent(d);
    }
  }

  /** `create`: the confirmation is dropped, absent names become "", the address is stored in
      normal form, and the account is active. */
  function NewUser(req: RegistrationRequest): (u: User)
    requires req.username.Some? && req.email.Some?
    ensures u.username == req.username.value && u.email == NormalizeEmail(req.email.value) && u.isActive
    ensures u.firstName == (if req.firstName.Some? then req.firstName.value else "")
    ensures u.lastName == (if req.lastName.Some? then req.lastName.value else "")
  {
    User(req.username.value, NormalizeEmail(req.email.value),
         if req.firstName.Some? then req.firstName.value else "",
         if req.lastName.Some? then req.lastName.value else "",
         true)
  }

  /** The store's unique constraint on usernames would refuse this one. */
  predicate UsernameTaken(users: map<nat, User>, username: string) {
    exists id :: id in users && users[id].username == username
  }

  /** Usernames are unique in the user table. */
  ghost predicate UniqueUsernames(users: map<nat, User>) {
    forall i, j :: i in users && j in users && i != j ==> users[i].username != users[j].username
  }

  ghost predicate UniqueEmails(users: map<nat, User>) {
    forall i, j :: i in users && j in users && i != j ==> users[i].email != users[j].email
  }

  /** The address registered below is stored with its domain lowercased. */
  lemma DomainVariantNormalForm()
    ensures NormalizeEmail("ann@Example.COM") == "ann@example.com"
  {
    var e := "ann@Example.COM";
    LastAtIs(e, 3);
    assert e[4..] == "Example.COM";
    DomainLowered();
  }

  lemma DomainLowered()
    ensures Lower("Example.COM") == "example.com"
  {
  }

  /** The raw comparison of `validate_email` lets the domain variant through. */
  lemma DomainVariantPassesValidation()
    ensures var users := map[0 := User("ann", "ann@example.com", "", "", true)];
            var req := RegistrationRequest(Some("bob"), Some("ann@Example.COM"), Some("password1"),
                                           Some("password1"), None, None);
            ValidateRegistration(req, users) == Passed(req)
  {
    var users := map[0 := User("ann", "ann@example.com", "", "", true)];
    var req := RegistrationRequest(Some("bob"), Some("ann@Example.COM"), Some("password1"), Some("password1"), None, None);
    assert EmailErrors(req.email, users) == [] by {
      assert EmailAvailable(users, "ann@Example.COM");
    }
    assert PasswordErrors(req.password) == [];
    assert TextErrors(Create, "password_confirm", req.passwordConfirm, PasswordRule) == [];
    assert RegistrationFieldErrors(req, users) == [];
  }

  /** `validate_email` compares the address as submitted, but `create_user` stores it with the
      domain lowercased: an address that differs from a stored one only in the case of its
      domain passes the check and is stored as a second copy of that address. */
  lemma DomainCaseVariantStoredTwice()
    ensures var users := map[0 := User("ann", "ann@example.com", "", "", true)];
            var req := RegistrationRequest(Some("bob"), Some("ann@Example.COM"), Some("password1"),
                                           Some("password1"), None, None);
            && ValidateRegistration(req, users).Passed?
            && NewUser(req).email == users[0].email
            && !UniqueEmails(users[1 := NewUser(req)])
  {
    var users := map[0 := User("ann", "ann@example.com", "", "", true)];
    var req := RegistrationRequest(Some("bob"), Some("ann@Example.COM"), Some("password1"), Some("password1"), None, None);
    DomainVariantNormalForm();
    DomainVariantPassesValidation();
    var u := NewUser(req);
    var after := users[1 := u];
    assert 0 in after && 1 in after && after[0].email == after[1].email;
  }

  /** `validate_email` as evidently intended: the address is refused when its normal form, the
      one `create_user` would store, is already held. */
  function NormalizedEmailErrors(email: Option<string>, users: map<nat, User>): (r: seq<FieldError>)
    ensures |r| <= 2 && forall e :: e in r ==> e.field == "email"
    ensures r == [] <==> email.Some? && '\0' !in email.value && EmailAvailable(users, NormalizeEmail(email.value))
  {
    var basic := TextErrors(Create, "email", email, EmailRule);
    if basic != [] then basic
    else if !EmailAvailable(users, NormalizeEmail(email.value)) then [FieldError("email", EmailTakenMessage)]
    else []
  }

  /** With the intended check, an account created by registration never repeats an address. */
  lemma NormalizedCheckKeepsEmailsUnique(users: map<nat, User>, req: RegistrationRequest, id: nat)
    requires UniqueEmails(users) && id !in users
    requires req.username.Some?
    requires NormalizedEmailErrors(req.email, users) == []
    ensures req.email.Some?
    ensures UniqueEmails(users[id := NewUser(req)])
  {
  }

  const MissingFieldsMessage := "Must include username and password"
  const InvalidCredentialsMessage := "Invalid credentials"
  const DisabledMessage := "User account is disabled"

  datatype LoginResult = LoggedIn(user: User) | LoginRefused(message: string)

  /** Python truthiness of an optional string: present and non-empty. */
  predicate Given(v: Option<string>) {
    v.Some? && v.value != ""
  }

  /** The login serializer's `validate`. The backend is consulted only when both fields are given;
      a refused login reports the first failing check: missing field, bad credentials, disabled. */
  function ValidateLogin(username: Option<string>, password: Option<string>,
                         authenticate: (string, string) -> Option<User>): (r: LoginResult)
    ensures !(Given(username) && Given(password)) ==> r == LoginRefused(MissingFieldsMessage)
    ensures Given(username) && Given(password) ==>
      var found := authenticate(username.value, password.value);
      && (found.None? ==> r == LoginRefused(InvalidCredentialsMessage))
      && (found.Some? && !found.value.isActive ==> r == LoginRefused(DisabledMessage))
      && (found.Some? && found.value.isActive ==> r == LoggedIn(found.value))
    ensures r.LoggedIn? ==> r.user.isActive
  {
    if Given(username) && Given(password) then
      var found := authenticate(username.value, password.value);
      if found.None? then LoginRefused(InvalidCredentialsMessage)
      else if !found.value.isActive then LoginRefused(DisabledMessage)
      else LoggedIn(found.value)
    else
      LoginRefused(MissingFieldsMessage)
  }

  /** The login fields are plain required character fields. */
  const LoginFieldRule := TextRule(true, false, None)

  /** Both login fields are given, and neither holds a null character. */
  predicate LoginFieldsAcceptable(username: Option<string>, password: Option<string>) {
    Given(username) && Given(password) && '\0' !in username.value && '\0' !in password.value
  }

  function LoginFieldErrors(username: Option<string>, password: Option<string>): (r: seq<FieldError>)
    ensures r == [] <==> LoginFieldsAcceptable(username, password)
    ensures !(Given(username) && Given(password)) ==> r != []
  {
    TextErrors(Create, "username", username, LoginFieldRule) + TextErrors(Create, "password", password, LoginFieldRule)
  }

  /** `is_valid()` of the login serializer: the field checks, then `validate`. A login succeeds
      exactly when both fields pass their checks and the backend returns an active user, and
      then it yields that user. */
  function Login(username: Option<string>, password: Option<string>,
                 authenticate: (string, string) -> Option<User>): (r: Validated<User>)
    ensures LoginFieldErrors(username, password) != [] ==> r == Failed(LoginFieldErrors(username, password))
    ensures r.Passed? <==> LoginFieldsAcceptable(username, password)
                           && authenticate(username.value, password.value).Some?
                           && authenticate(username.value, password.value).value.isActive
    ensures r.Passed? ==> r.value == authenticate(username.value, password.value).value
  {
    var errs := LoginFieldErrors(username, password);
    if errs != [] then Failed(errs)
    else match ValidateLogin(username, password, authenticate)
      case LoggedIn(u) => Passed(u)
      case LoginRefused(message) => Failed([FieldError(NonFieldErrors, message)])
  }

  /** Behind the field checks, `validate` never sees a missing or blank field, so its
      missing-fields refusal cannot reach a client. */
  lemma MissingFieldsNeverReported(username: Option<string>, password: Option<string>,
                                   authenticate: (string, string) -> Option<User>)
    ensures Login(username, password, authenticate) != Failed([FieldError(NonFieldErrors, MissingFieldsMessage)])
  {
    var errs := LoginFieldErrors(username, password);
    if errs != [] {
      assert errs[0].field != NonFieldErrors;
    }
  }

  /** With a backend that returns only active users (Django's default one refuses inactive
      accounts), the disabled-account refusal cannot occur either. */
  lemma DisabledNeverReportedWithActiveOnlyBackend(username: Option<string>, password: Option<string>,
                                                   authenticate: (string, string) -> Option<User>)
    requires forall n, p :: authenticate(n, p).Some? ==> authenticate(n, p).value.isActive
    ensures Login(username, password, authenticate) != Failed([FieldError(NonFieldErrors, DisabledMessage)])
  {
    var errs := LoginFieldErrors(username, password);
    if errs != [] {
      assert errs[0].field != NonFieldErrors;
    }
  }
}
