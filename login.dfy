/** The login page: its two-field form, `validateForm`, `handleChange`,
    `handleSubmit` and `handleDemoLogin`. */
module Login {
  import opened Wrappers
  import opened JsStrings
  import opened FormState
  import opened AuthContext
  import Register

  datatype Field = Email | Password

  function Key(f: Field): (k: string)
    ensures k in {"email", "password"}
    ensures k == "email" <==> f == Email
  {
    match f
    case Email => "email"
    case Password => "password"
  }

  /** `formData`. */
  datatype Form = Form(email: string, password: string)
  {
    /** `{ ...prev, [name]: value }`. */
    function With(f: Field, value: string): (r: Form)
      ensures f == Email ==> r == Form(value, password)
      ensures f == Password ==> r == Form(email, value)
    {
      match f
      case Email => this.(email := value)
      case Password => this.(password := value)
    }
  }

  const EmptyForm: Form := Form("", "")

  const PasswordRequired: string := "Password is required"
  const InvalidCredentials: string := "Invalid email or password"

  /** `validateForm()`: the e-mail rule of the registration form, and a
      password that is merely present. */
  function Validate(f: Form): (r: map<string, string>)
    ensures r.Keys <= {"email", "password"}
    ensures ("email" in r <==> !EmailPatternMatches(f.email))
            && ("email" in r ==> Some(r["email"]) == EmailError(f.email))
    ensures ("password" in r <==> f.password == "") && ("password" in r ==> r["password"] == PasswordRequired)
  {
    var passwordError := if f.password == "" then Some(PasswordRequired) else None;
    Put(Put(map[], "email", EmailError(f.email)), "password", passwordError)
  }

  /** The error map is empty exactly when the e-mail matches the pattern and
      a password was typed. */
  lemma ValidateEmptyIff(f: Form)
    ensures Validate(f) == map[] <==> EmailPatternMatches(f.email) && f.password != ""
  {
    var r := Validate(f);
    if r != map[] {
      var k :| k in r;
      assert k == "email" || k == "password";
    }
  }

  /** Both forms judge an e-mail alike, and the login form accepts a one-
      character password that the registration form turns down. */
  lemma SameEmailRuleWeakerPassword(email: string, password: string, name: string)
    requires password != "" && Utf16Length(password) < Register.MinPasswordLength
    ensures ("email" in Validate(Form(email, password)))
            == ("email" in Register.Validate(Register.Form(name, email, password, password)))
    ensures "password" !in Validate(Form(email, password))
    ensures "password" in Register.Validate(Register.Form(name, email, password, password))
  {
    var g := Register.Form(name, email, password, password);
    Register.ValidateField(g, Register.Email);
    Register.ValidateField(g, Register.Password);
    assert Utf16Length(password) >= |password| >= 1;
  }

  /** The component's state. */
  class LoginPage {
    var form: Form
    var errors: Errors
    var isLoading: bool

    constructor ()
      ensures form == EmptyForm && errors == map[] && !isLoading
    {
      form, errors, isLoading := EmptyForm, map[], false;
    }

    /** `handleChange`. */
    method HandleChange(field: Field, value: string)
      modifies this
      ensures form == old(form).With(field, value)
      ensures errors == ClearError(old(errors), Key(field))
      ensures isLoading == old(isLoading)
    {
      form := form.With(field, value);
      if HasError(errors, Key(field)) {
        errors := errors[Key(field) := None];
      }
    }

    /** `handleSubmit`: the typed e-mail and password go, by position, to the
        provider's `login(userData, authToken)`, so the e-mail is stored as
        the user and the password as the token. `accepted` is whether
        storage takes the writes; `navigated` whether the page moves on. */
    method HandleSubmit(session: AuthSession, accepted: bool) returns (navigated: bool)
      modifies this, session
      ensures form == old(form)
      ensures Validate(old(form)) != map[] ==>
                errors == Stored(Validate(old(form))) && isLoading == old(isLoading)
                && !navigated && session.State() == old(session.State())
      ensures Validate(old(form)) == map[] ==>
                session.State() == LoggedIn(old(session.State()), UserText(old(form).email), old(form).password, accepted)
                && !isLoading && (navigated <==> accepted)
                && errors == (if accepted then old(errors) else SubmitFailure(InvalidCredentials))
    {
      var newErrors := Validate(form);
      if newErrors != map[] {
        errors := Stored(newErrors);
        return false;
      }
      isLoading := true;
      var ok := session.Login(UserText(form.email), form.password, accepted);
      if ok {
        navigated := true;
      } else {
        navigated := false;
        errors := SubmitFailure(InvalidCredentials);
      }
      isLoading := false;
    }

    /** `handleDemoLogin`: the login call is commented out, so the page only
        raises `isLoading`, which nothing lowers again, and navigates. */
    method HandleDemoLogin() returns (navigated: bool)
      modifies this
      ensures isLoading && navigated
      ensures form == old(form) && errors == old(errors)
    {
      isLoading := true;
      navigated := true;
    }
  }
}
