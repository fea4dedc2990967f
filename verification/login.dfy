/**
 * The login form: a schema check only, with no lookup of any kind.
 */
module Login {
  import opened Js
  import opened Wrappers
  import opened Zod
  import opened Schema

  /** The output of `loginSchema`. */
  datatype LoginData = LoginData(email: string, password: string)

  /** The message the login form's own tests expect for a rejected email, as the other forms give it. */
  const InvalidEmailMessage := "Please enter a valid email"

  /**
   * The issues of `loginSchema`'s fields, for a given email message; the
   * password is any string at all.
   */
  function LoginFieldIssues(fields: map<string, JsValue>, isEmail: string -> bool, emailMessage: string)
    : (issues: seq<FieldIssues>)
    ensures WellNamed(issues)
  {
    [ FieldIssues("email", RefinedString(Get(fields, "email"), isEmail, emailMessage)),
      FieldIssues("password", StringIssues(Get(fields, "password"))) ]
  }

  /** The rules written out: an object with an email the predicate accepts and a password that is a string. */
  predicate LoginRules(request: JsValue, isEmail: string -> bool)
  {
    && request.Obj?
    && Get(request.fields, "email").Str? && isEmail(Get(request.fields, "email").s)
    && Get(request.fields, "password").Str?
  }

  /** `loginSchema.safeParse`. */
  function ParseLoginForm(request: JsValue, isEmail: string -> bool, emailMessage: string)
    : (r: Result<LoginData, seq<Entry>>)
    ensures r.Ok? <==> LoginRules(request, isEmail)
    ensures r.Ok? ==> Get(request.fields, "email") == Str(r.value.email)
                      && Get(request.fields, "password") == Str(r.value.password)
    ensures !request.Obj? ==> r == Err(Format([InvalidTypeMessage("object", request)], []))
    ensures request.Obj? && r.Err? ==> r == Err(Format([], LoginFieldIssues(request.fields, isEmail, emailMessage)))
    ensures r.Err? ==> ErrorsKey in MapZodErrorSpec(r.error) && HasMessage(MapZodErrorSpec(r.error))
  {
    if !request.Obj? then
      FormattedErrors([InvalidTypeMessage("object", request)], []);
      FormattedHasMessage([InvalidTypeMessage("object", request)], []);
      Err(Format([InvalidTypeMessage("object", request)], []))
    else
      var issues := LoginFieldIssues(request.fields, isEmail, emailMessage);
      if AllPassed(issues) then
        assert issues[0].issues == [] && issues[1].issues == [];
        Ok(LoginData(Get(request.fields, "email").s, Get(request.fields, "password").s))
      else
        FormattedErrors([], issues);
        FormattedHasMessage([], issues);
        Err(Format([], issues))
  }

  /** `validateLoginForm` with a given email message: the data on success, the mapped schema errors otherwise. */
  function ValidateLoginFormWith(request: JsValue, isEmail: string -> bool, emailMessage: string)
    : (r: SchemaValidationResponse<LoginData>)
    ensures r.Success? <==> LoginRules(request, isEmail)
    ensures r.Error? ==> HasMessage(r.error.errors)
  {
    match ParseLoginForm(request, isEmail, emailMessage)
    case Ok(data) => Success(data)
    case Err(entries) => Error(SchemaErrorDefinition(MapZodErrorSpec(entries)))
  }

  /**
   * `validateLoginForm` as written: the email refinement is given no
   * message, so a rejected email carries zod's default one.
   */
  function ValidateLoginForm(request: JsValue, isEmail: string -> bool): (r: SchemaValidationResponse<LoginData>)
    ensures r.Success? <==> LoginRules(request, isEmail)
  {
    ValidateLoginFormWith(request, isEmail, InvalidInputMessage)
  }

  /** `validateLoginForm` with the email message its tests expect. */
  function ValidateLoginFormIntended(request: JsValue, isEmail: string -> bool): (r: SchemaValidationResponse<LoginData>)
    ensures r.Success? <==> LoginRules(request, isEmail)
  {
    ValidateLoginFormWith(request, isEmail, InvalidEmailMessage)
  }

  /**
   * Login validation succeeds exactly for an object with an accepted email
   * and a string password, of any length, and then returns those two strings.
   */
  lemma LoginSucceeds(request: JsValue, isEmail: string -> bool, emailMessage: string)
    ensures ValidateLoginFormWith(request, isEmail, emailMessage).Success? <==> LoginRules(request, isEmail)
    ensures ValidateLoginFormWith(request, isEmail, emailMessage).Success? ==>
      && Get(request.fields, "email") == Str(ValidateLoginFormWith(request, isEmail, emailMessage).data.email)
      && Get(request.fields, "password") == Str(ValidateLoginFormWith(request, isEmail, emailMessage).data.password)
  {
  }

  /** A failed object parse reports each failing field's first issue under its name. */
  lemma LoginSchemaErrors(request: JsValue, isEmail: string -> bool, emailMessage: string)
    requires request.Obj? && !LoginRules(request, isEmail)
    ensures ValidateLoginFormWith(request, isEmail, emailMessage).Error?
    ensures var errors := ValidateLoginFormWith(request, isEmail, emailMessage).error.errors;
      var issues := LoginFieldIssues(request.fields, isEmail, emailMessage);
      && (forall j :: 0 <= j < |issues| ==> (issues[j].name in errors <==> issues[j].issues != []))
      && (forall j :: 0 <= j < |issues| && issues[j].issues != [] ==> errors[issues[j].name] == Some(issues[j].issues[0]))
  {
    FormattedErrors([], LoginFieldIssues(request.fields, isEmail, emailMessage));
  }

  /** An email that is missing, not a string, or rejected by the predicate gives an error keyed `email`. */
  lemma LoginInvalidEmail(request: JsValue, isEmail: string -> bool, emailMessage: string)
    requires request.Obj?
    requires !(Get(request.fields, "email").Str? && isEmail(Get(request.fields, "email").s))
    ensures ValidateLoginFormWith(request, isEmail, emailMessage).Error?
    ensures "email" in ValidateLoginFormWith(request, isEmail, emailMessage).error.errors
  {
    LoginSchemaErrors(request, isEmail, emailMessage);
    assert LoginFieldIssues(request.fields, isEmail, emailMessage)[0].issues != [];
  }

  /** A password that is missing or not a string gives zod's type message under `password`. */
  lemma LoginPasswordNotString(request: JsValue, isEmail: string -> bool, emailMessage: string)
    requires request.Obj? && !Get(request.fields, "password").Str?
    ensures ValidateLoginFormWith(request, isEmail, emailMessage).Error?
    ensures "password" in ValidateLoginFormWith(request, isEmail, emailMessage).error.errors
    ensures ValidateLoginFormWith(request, isEmail, emailMessage).error.errors["password"] ==
      Some(InvalidTypeMessage("string", Get(request.fields, "password")))
  {
    LoginSchemaErrors(request, isEmail, emailMessage);
    assert LoginFieldIssues(request.fields, isEmail, emailMessage)[1].issues != [];
  }

  /**
   * As written, a rejected email is reported as "Invalid input", not with
   * the message the login tests expect; `{ email: 'foo.com', password: '1234' }`
   * shows it.
   */
  lemma LoginEmailMessageAsWritten(isEmail: string -> bool)
    requires !isEmail("foo.com")
    ensures var result := ValidateLoginForm(Obj(map["email" := Str("foo.com"), "password" := Str("1234")]), isEmail);
      && result.Error?
      && "email" in result.error.errors
      && result.error.errors["email"] == Some("Invalid input")
      && result.error.errors["email"] != Some(InvalidEmailMessage)
  {
    var request := Obj(map["email" := Str("foo.com"), "password" := Str("1234")]);
    LoginRejectedEmail(request, isEmail, InvalidInputMessage);
  }

  /** With the message supplied, a rejected email is reported as the tests expect. */
  lemma LoginEmailMessage(request: JsValue, isEmail: string -> bool)
    requires request.Obj? && Get(request.fields, "email").Str? && !isEmail(Get(request.fields, "email").s)
    ensures ValidateLoginFormIntended(request, isEmail).Error?
    ensures "email" in ValidateLoginFormIntended(request, isEmail).error.errors
    ensures ValidateLoginFormIntended(request, isEmail).error.errors["email"] == Some("Please enter a valid email")
  {
    LoginRejectedEmail(request, isEmail, InvalidEmailMessage);
  }

  /** A string email the predicate rejects is reported with the email message. */
  lemma LoginRejectedEmail(request: JsValue, isEmail: string -> bool, emailMessage: string)
    requires request.Obj? && Get(request.fields, "email").Str? && !isEmail(Get(request.fields, "email").s)
    ensures ValidateLoginFormWith(request, isEmail, emailMessage).Error?
    ensures "email" in ValidateLoginFormWith(request, isEmail, emailMessage).error.errors
    ensures ValidateLoginFormWith(request, isEmail, emailMessage).error.errors["email"] == Some(emailMessage)
  {
    LoginSchemaErrors(request, isEmail, emailMessage);
    assert LoginFieldIssues(request.fields, isEmail, emailMessage)[0].issues == [emailMessage];
  }
}
