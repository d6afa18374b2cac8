/** The registration page: its four-field form, `validateForm`,
    `handleChange` and `handleSubmit`. */
module Register {
  import opened Wrappers
  import opened JsStrings
  import opened FormState
  import opened AuthContext

  /** The inputs of the form, by their `name` attribute. */
  datatype Field = Name | Email | Password | ConfirmPassword

  function Key(f: Field): (k: string)
    ensures k in {"name", "email", "password", "confirmPassword"}
  {
    match f
    case Name => "name"
    case Email => "email"
    case Password => "password"
    case ConfirmPassword => "confirmPassword"
  }

  /** The field an `errors` key belongs to. */
  function FieldOf(k: string): (r: Option<Field>)
    ensures r.Some? <==> k in {"name", "email", "password", "confirmPassword"}
    ensures r.Some? ==> Key(r.value) == k
  {
    if k == "name" then Some(Name)
    else if k == "email" then Some(Email)
    else if k == "password" then Some(Password)
    else if k == "confirmPassword" then Some(ConfirmPassword)
    else None
  }

  lemma FieldOfKey(f: Field)
    ensures FieldOf(Key(f)) == Some(f)
  {
  }

  /** `formData`. */
  datatype Form = Form(name: string, email: string, password: string, confirmPassword: string)
  {
    function Get(f: Field): string
    {
      match f
      case Name => name
      case Email => email
      case Password => password
      case ConfirmPassword => confirmPassword
    }

    /** `{ ...prev, [name]: value }`. */
    function With(f: Field, value: string): (r: Form)
      ensures r.Get(f) == value
      ensures forall g :: g != f ==> r.Get(g) == Get(g)
    {
      match f
      case Name => this.(name := value)
      case Email => this.(email := value)
      case Password => this.(password := value)
      case ConfirmPassword => this.(confirmPassword := value)
    }
  }

  const EmptyForm: Form := Form("", "", "", "")

  const NameRequired: string := "Name is required"
  const PasswordRequired: string := "Password is required"
  const PasswordTooShort: string := "Password must be at least 6 characters"
  const ConfirmRequired: string := "Please confirm your password"
  const PasswordsDiffer: string := "Passwords do not match"
  const RegistrationFailed: string := "Registration failed. Please try again."

  /** The minimum password length, in UTF-16 code units. */
  const MinPasswordLength: nat := 6

  /** The form a registration may be sent for: a name that is not blank, an
      e-mail the pattern matches, a password of at least six code units and
      a confirmation equal to it. */
  ghost predicate Acceptable(f: Form)
  {
    !IsBlank(f.name) && EmailPatternMatches(f.email)
    && Utf16Length(f.password) >= MinPasswordLength && f.confirmPassword == f.password
  }

  /** The name rule: a blank name (empty or white space only) is missing. */
  function NameError(name: string): (r: Option<string>)
    ensures r.Some? <==> IsBlank(name)
    ensures r.Some? ==> r.value == NameRequired
  {
    BlankError(name, NameRequired)
  }

  /** The password rule: required, then at least six code units long. */
  function PasswordError(password: string): (r: Option<string>)
    ensures r == Some(PasswordRequired) <==> password == ""
    ensures r == Some(PasswordTooShort) <==> 1 <= Utf16Length(password) < MinPasswordLength
    ensures r.None? <==> Utf16Length(password) >= MinPasswordLength
  {
    if password == "" then Some(PasswordRequired)
    else if Utf16Length(password) < MinPasswordLength then Some(PasswordTooShort)
    else None
  }

  /** The confirmation rule: required, then equal to the password. */
  function ConfirmError(password: string, confirmPassword: string): (r: Option<string>)
    ensures r == Some(ConfirmRequired) <==> confirmPassword == ""
    ensures r == Some(PasswordsDiffer) <==> confirmPassword != "" && confirmPassword != password
    ensures r.None? <==> confirmPassword != "" && confirmPassword == password
  {
    if confirmPassword == "" then Some(ConfirmRequired)
    else if password != confirmPassword then Some(PasswordsDiffer)
    else None
  }

  /** The rule of one field. */
  function FieldError(f: Form, fld: Field): Option<string>
  {
    match fld
    case Name => NameError(f.name)
    case Email => EmailError(f.email)
    case Password => PasswordError(f.password)
    case ConfirmPassword => ConfirmError(f.password, f.confirmPassword)
  }

  /** `validateForm()`: exactly the fields whose rule fails have an entry,
      holding that rule's message, and no other key appears. */
  function Validate(f: Form): (r: map<string, string>)
    ensures r.Keys <= {"name", "email", "password", "confirmPassword"}
    ensures forall k :: k in r ==> Some(r[k]) == FieldError(f, FieldOf(k).value)
  {
    map k | k in {"name", "email", "password", "confirmPassword"} && FieldError(f, FieldOf(k).value).Some?
      :: FieldError(f, FieldOf(k).value).value
  }

  /** The entry of one field in `validateForm()`'s result: present exactly
      when that field's rule fails, and holding its message. */
  lemma ValidateField(f: Form, fld: Field)
    ensures Key(fld) in Validate(f) <==> FieldError(f, fld).Some?
    ensures Key(fld) in Validate(f) ==> Some(Validate(f)[Key(fld)]) == FieldError(f, fld)
  {
    FieldOfKey(fld);
  }

  /** The error map is empty exactly when every rule passes. */
  lemma ValidateEmptyIffAcceptable(f: Form)
    ensures Validate(f) == map[] <==> Acceptable(f)
  {
    var r := Validate(f);
    ValidateField(f, Name);
    ValidateField(f, Email);
    ValidateField(f, Password);
    ValidateField(f, ConfirmPassword);
    if r != map[] {
      var k :| k in r;
      assert k == Key(Name) || k == Key(Email) || k == Key(Password) || k == Key(ConfirmPassword);
    }
  }

  // ------------------------------------------------- the posted request

  /** The answer of the register endpoint. */
  datatype AuthResponse = AuthResponse(user: UserData, token: string)

  /** What the page means to post to `/auth/register`. */
  datatype RegisterRequest = RegisterRequest(name: string, email: string, password: string)

  /** `api.register(formData.name, formData.email, formData.password)` as the
      source writes it: `ApiService.register(userData)` declares one
      parameter, so the body posted is the first argument alone. */
  function PostedBodyAsWritten(f: Form): string
  {
    f.name
  }

  /** The call as written loses the credentials: two registrations with one
      name and different e-mails and passwords post the same body. */
  lemma PostedBodyIgnoresCredentials()
    ensures var a := Form("Ann", "ann@mail.com", "secret1", "secret1");
            var b := Form("Ann", "x@y.io", "other22", "other22");
            a.email != b.email && a.password != b.password
            && PostedBodyAsWritten(a) == PostedBodyAsWritten(b)
  {
  }

  /** For every form: as written, changing the e-mail, the password or the
      confirmation leaves the posted body unchanged. */
  lemma PostedBodyIgnoresCredentialEdits(f: Form, email: string, password: string, confirm: string)
    ensures PostedBodyAsWritten(Form(f.name, email, password, confirm)) == PostedBodyAsWritten(f)
  {
  }

  /** The request the page evidently intends: the three fields the
      registration is made of. */
  function RequestOf(f: Form): (r: RegisterRequest)
    ensures r.name == f.name && r.email == f.email && r.password == f.password
  {
    RegisterRequest(f.name, f.email, f.password)
  }

  /** The corrected request carries everything the server needs: distinct
      registrations post distinct requests. */
  lemma RequestKeepsCredentials(f: Form, g: Form)
    requires Acceptable(f) && Acceptable(g)
    ensures RequestOf(f) == RequestOf(g) <==> f == g
  {
  }

  // ------------------------------------------------------- the page

  /** The component's state. */
  class RegisterPage {
    var form: Form
    var errors: Errors
    var isLoading: bool

    constructor ()
      ensures form == EmptyForm && errors == map[] && !isLoading
    {
      form, errors, isLoading := EmptyForm, map[], false;
    }

    /** `handleChange`: only the edited field changes, and only its own
        error is reset. */
    method HandleChange(field: Field, value: string)
      modifies this
      ensures form == old(form).With(field, value)
      ensures errors == ClearError(old(errors), Key(field))
      ensures isLoading == old(isLoading)
    {
      form := form.With(field, value);
      if HasError(errors, Key(field)) {
        errors := errors[Key(field) := None];
      }
    }

    /** `handleSubmit`. `response` is the register call's answer (`None`
        when it rejects) and `accepted` whether storage takes the login's
        writes. `request` is what is posted, `navigated` whether the page
        moves on to the dashboard. */
    method HandleSubmit(session: AuthSession, response: Option<AuthResponse>, accepted: bool)
      returns (request: Option<RegisterRequest>, navigated: bool)
      modifies this, session
      ensures form == old(form)
      ensures Validate(old(form)) != map[] ==>
                errors == Stored(Validate(old(form))) && isLoading == old(isLoading)
                && request.None? && !navigated && session.State() == old(session.State())
      ensures Validate(old(form)) == map[] ==> request == Some(RequestOf(old(form))) && !isLoading
      ensures Validate(old(form)) == map[] && response.None? ==>
                errors == SubmitFailure(RegistrationFailed) && !navigated
                && session.State() == old(session.State())
      ensures Validate(old(form)) == map[] && response.Some? ==>
                session.State() == LoggedIn(old(session.State()), response.value.user, response.value.token, accepted)
                && (navigated <==> accepted)
                && errors == (if accepted then old(errors) else SubmitFailure(RegistrationFailed))
    {
      var newErrors := Validate(form);
      if newErrors != map[] {
        errors := Stored(newErrors);
        return None, false;
      }
      isLoading := true;
      request := Some(RequestOf(form));
      navigated := false;
      if response.None? {
        errors := SubmitFailure(RegistrationFailed);
      } else {
        var ok := session.Login(response.value.user, response.value.token, accepted);
        if ok {
          navigated := true;
        } else {
          errors := SubmitFailure(RegistrationFailed);
        }
      }
      isLoading := false;
    }
  }
}
