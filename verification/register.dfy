/**
 * The registration form: its field rules, the guard chain that validates a
 * submitted form (schema, then password confirmation, then the user
 * table), and the account creation that follows a successful validation.
 */
module Register {
  import opened Js
  import opened Wrappers
  import opened Zod
  import opened Schema
  import Config
  import opened Store
  import opened Users
  import opened Organizations

  const PasswordMinLength: nat := 8
  const NameMaxLength: nat := 50
  const NameMinLength: nat := 1

  const PasswordTooShortMessage := "Password must be at least " + NatToString(PasswordMinLength) + " characters"
  const InvalidEmailMessage := "Please enter a valid email"
  const PasswordsMismatchMessage := "Passwords do not match"
  const UserExistsMessage := "A user with this email already exists"

  /** This form's own copy of the name rule. */
  function NameField(v: JsValue): (issues: seq<string>)
    ensures issues == [] <==> v.Str? && NameMinLength <= JsLength(v.s) <= NameMaxLength
    ensures v.Str? && JsLength(v.s) > NameMaxLength ==> issues == [Config.TooLongMessage(NameMaxLength)]
    ensures v.Str? && JsLength(v.s) < NameMinLength ==> issues == [Config.TooShortMessage(NameMinLength)]
  {
    Config.NameRule(v, NameMinLength, NameMaxLength)
  }

  /** The form's constants are the shared ones, so its name rule is the shared rule. */
  lemma SameRulesAsConfig(v: JsValue)
    ensures PasswordMinLength == Config.PasswordMinLength
    ensures NameField(v) == Config.NameField(v)
  {
  }

  /** `passwordField`: a string of at least 8 UTF-16 units. */
  function PasswordField(v: JsValue): (issues: seq<string>)
    ensures issues == [] <==> v.Str? && JsLength(v.s) >= PasswordMinLength
    ensures v.Str? && JsLength(v.s) < PasswordMinLength ==> issues == [PasswordTooShortMessage]
  {
    MinLengthString(v, PasswordMinLength, PasswordTooShortMessage)
  }

  /** `z.string().refine(validateEmail, ...)`: a string the email check accepts. */
  function EmailField(v: JsValue, isEmail: string -> bool): (issues: seq<string>)
    ensures issues == [] <==> v.Str? && isEmail(v.s)
    ensures v.Str? && !isEmail(v.s) ==> issues == [InvalidEmailMessage]
  {
    RefinedString(v, isEmail, InvalidEmailMessage)
  }

  /** The output of the schema: the five submitted strings. */
  datatype RegisterData = RegisterData(
    firstName: string,
    lastName: string,
    email: string,
    password: string,
    confirmPassword: string)

  /** The issues of each field of `registerFormSchema`, in declaration order. */
  function RegisterFieldIssues(fields: map<string, JsValue>, isEmail: string -> bool): (issues: seq<FieldIssues>)
    ensures WellNamed(issues)
  {
    [ FieldIssues("firstName", NameField(Get(fields, "firstName"))),
      FieldIssues("lastName", NameField(Get(fields, "lastName"))),
      FieldIssues("email", EmailField(Get(fields, "email"), isEmail)),
      FieldIssues("password", PasswordField(Get(fields, "password"))),
      FieldIssues("confirmPassword", PasswordField(Get(fields, "confirmPassword"))) ]
  }

  /** A string field whose length, in UTF-16 units, lies in `[min, max]`. */
  predicate StringOfLength(fields: map<string, JsValue>, key: string, min: nat, max: nat)
  {
    Get(fields, key).Str? && min <= JsLength(Get(fields, key).s) <= max
  }

  /**
   * The schema's rules, written out: an object whose names have 1 to 50
   * units, whose email satisfies the predicate and whose two passwords have
   * at least 8 units each.
   */
  predicate RegisterRules(request: JsValue, isEmail: string -> bool)
  {
    && request.Obj?
    && StringOfLength(request.fields, "firstName", 1, 50)
    && StringOfLength(request.fields, "lastName", 1, 50)
    && Get(request.fields, "email").Str? && isEmail(Get(request.fields, "email").s)
    && Get(request.fields, "password").Str? && JsLength(Get(request.fields, "password").s) >= 8
    && Get(request.fields, "confirmPassword").Str? && JsLength(Get(request.fields, "confirmPassword").s) >= 8
  }

  /**
   * `registerFormSchema.safeParse`: the data when every rule holds, else
   * the entries of the formatted error. A request that is not an object
   * fails as a whole.
   */
  function ParseRegisterForm(request: JsValue, isEmail: string -> bool): (r: Result<RegisterData, seq<Entry>>)
    ensures r.Ok? <==> RegisterRules(request, isEmail)
    ensures r.Ok? ==> && Get(request.fields, "firstName") == Str(r.value.firstName)
                      && Get(request.fields, "lastName") == Str(r.value.lastName)
                      && Get(request.fields, "email") == Str(r.value.email)
                      && Get(request.fields, "password") == Str(r.value.password)
                      && Get(request.fields, "confirmPassword") == Str(r.value.confirmPassword)
    ensures !request.Obj? ==> r == Err(Format([InvalidTypeMessage("object", request)], []))
    ensures request.Obj? && r.Err? ==> r == Err(Format([], RegisterFieldIssues(request.fields, isEmail)))
    ensures r.Err? ==> ErrorsKey in MapZodErrorSpec(r.error) && HasMessage(MapZodErrorSpec(r.error))
  {
    if !request.Obj? then
      FormattedErrors([InvalidTypeMessage("object", request)], []);
      FormattedHasMessage([InvalidTypeMessage("object", request)], []);
      Err(Format([InvalidTypeMessage("object", request)], []))
    else
      var issues := RegisterFieldIssues(request.fields, isEmail);
      if AllPassed(issues) then
        assert issues[0].issues == [] && issues[1].issues == [] && issues[2].issues == [];
        assert issues[3].issues == [] && issues[4].issues == [];
        Ok(RegisterData(
          Get(request.fields, "firstName").s,
          Get(request.fields, "lastName").s,
          Get(request.fields, "email").s,
          Get(request.fields, "password").s,
          Get(request.fields, "confirmPassword").s))
      else
        FormattedErrors([], issues);
        FormattedHasMessage([], issues);
        Err(Format([], issues))
  }

  /**
   * `validateRegisterForm`: the schema errors if the schema fails, then a
   * password mismatch, then an existing user with the email; otherwise the
   * parsed data. `users` is the user table at the time of the lookup.
   */
  function ValidateRegisterForm(users: seq<User>, request: JsValue, isEmail: string -> bool)
    : (r: SchemaValidationResponse<RegisterData>)
    ensures r.Success? ==> RegisterRules(request, isEmail)
    ensures r.Success? ==> r.data.password == r.data.confirmPassword && !EmailTaken(users, r.data.email)
    ensures r.Error? ==> HasMessage(r.error.errors)
  {
    match ParseRegisterForm(request, isEmail)
    case Err(entries) => Error(SchemaErrorDefinition(MapZodErrorSpec(entries)))
    case Ok(data) =>
      if data.password != data.confirmPassword then Error(FormError("password", PasswordsMismatchMessage))
      else if GetUserByEmail(users, data.email).Some? then Error(FormError("email", UserExistsMessage))
      else Success(data)
  }

  /**
   * Registration succeeds exactly when every rule holds, the passwords are
   * equal and no user has the email; the data is then the submitted strings.
   */
  lemma RegisterSucceeds(users: seq<User>, request: JsValue, isEmail: string -> bool)
    ensures ValidateRegisterForm(users, request, isEmail).Success? <==>
      && RegisterRules(request, isEmail)
      && Get(request.fields, "password") == Get(request.fields, "confirmPassword")
      && !EmailTaken(users, Get(request.fields, "email").s)
    ensures ValidateRegisterForm(users, request, isEmail).Success? ==>
      var data := ValidateRegisterForm(users, request, isEmail).data;
      && Get(request.fields, "firstName") == Str(data.firstName)
      && Get(request.fields, "lastName") == Str(data.lastName)
      && Get(request.fields, "email") == Str(data.email)
      && Get(request.fields, "password") == Str(data.password)
      && Get(request.fields, "confirmPassword") == Str(data.confirmPassword)
  {
  }

  /** The mismatch error comes only after every schema rule passed, and then exactly when the passwords differ. */
  lemma RegisterMismatch(users: seq<User>, request: JsValue, isEmail: string -> bool)
    ensures ValidateRegisterForm(users, request, isEmail) == Error(FormError("password", PasswordsMismatchMessage)) <==>
      RegisterRules(request, isEmail) && Get(request.fields, "password") != Get(request.fields, "confirmPassword")
  {
  }

  /** The existing-user error comes only after the schema and the confirmation passed, and then exactly when the email is taken. */
  lemma RegisterUserExists(users: seq<User>, request: JsValue, isEmail: string -> bool)
    ensures ValidateRegisterForm(users, request, isEmail) == Error(FormError("email", UserExistsMessage)) <==>
      && RegisterRules(request, isEmail)
      && Get(request.fields, "password") == Get(request.fields, "confirmPassword")
      && EmailTaken(users, Get(request.fields, "email").s)
  {
  }

  /** A failed schema reports each field's first issue under the field's name, and only for fields that have one. */
  lemma RegisterSchemaErrors(users: seq<User>, request: JsValue, isEmail: string -> bool)
    requires request.Obj? && !RegisterRules(request, isEmail)
    ensures ValidateRegisterForm(users, request, isEmail).Error?
    ensures var errors := ValidateRegisterForm(users, request, isEmail).error.errors;
      var issues := RegisterFieldIssues(request.fields, isEmail);
      && ErrorsKey in errors && errors[ErrorsKey] == None
      && (forall j :: 0 <= j < |issues| ==> (issues[j].name in errors <==> issues[j].issues != []))
      && (forall j :: 0 <= j < |issues| && issues[j].issues != [] ==> errors[issues[j].name] == Some(issues[j].issues[0]))
  {
    FormattedErrors([], RegisterFieldIssues(request.fields, isEmail));
  }

  /** A request that is not an object has only the object-level type issue. */
  lemma RegisterNotAnObject(users: seq<User>, request: JsValue, isEmail: string -> bool)
    requires !request.Obj?
    ensures ValidateRegisterForm(users, request, isEmail) ==
      Error(SchemaErrorDefinition(map[ErrorsKey := Some(InvalidTypeMessage("object", request))]))
  {
    var m := MapZodErrorSpec(Format([InvalidTypeMessage("object", request)], []));
    FormattedErrors([InvalidTypeMessage("object", request)], []);
    assert m.Keys == {ErrorsKey};
  }

  /** A first or last name longer than 50 units is reported on that field with the too-long message. */
  lemma RegisterNameTooLong(users: seq<User>, request: JsValue, isEmail: string -> bool, field: string)
    requires field == "firstName" || field == "lastName"
    requires request.Obj? && Get(request.fields, field).Str? && JsLength(Get(request.fields, field).s) > 50
    ensures ValidateRegisterForm(users, request, isEmail).Error?
    ensures field in ValidateRegisterForm(users, request, isEmail).error.errors
    ensures ValidateRegisterForm(users, request, isEmail).error.errors[field] ==
      Some("Provided value is too long (max 50 character(s))")
  {
    Config.NameMessages();
    RegisterSchemaErrors(users, request, isEmail);
    var issues := RegisterFieldIssues(request.fields, isEmail);
    if field == "firstName" {
      assert issues[0].name == field && issues[0].issues != [];
    } else {
      assert issues[1].name == field && issues[1].issues != [];
    }
  }

  /** An empty first or last name is reported on that field with the too-short message. */
  lemma RegisterNameEmpty(users: seq<User>, request: JsValue, isEmail: string -> bool, field: string)
    requires field == "firstName" || field == "lastName"
    requires request.Obj? && Get(request.fields, field) == Str("")
    ensures ValidateRegisterForm(users, request, isEmail).Error?
    ensures field in ValidateRegisterForm(users, request, isEmail).error.errors
    ensures ValidateRegisterForm(users, request, isEmail).error.errors[field] ==
      Some("Provided value is too short (min 1 character(s))")
  {
    Config.NameMessages();
    RegisterSchemaErrors(users, request, isEmail);
    var issues := RegisterFieldIssues(request.fields, isEmail);
    if field == "firstName" {
      assert issues[0].name == field && issues[0].issues != [];
    } else {
      assert issues[1].name == field && issues[1].issues != [];
    }
  }

  /** An email the predicate rejects is reported on `email`. */
  lemma RegisterInvalidEmail(users: seq<User>, request: JsValue, isEmail: string -> bool)
    requires request.Obj? && Get(request.fields, "email").Str? && !isEmail(Get(request.fields, "email").s)
    ensures ValidateRegisterForm(users, request, isEmail).Error?
    ensures "email" in ValidateRegisterForm(users, request, isEmail).error.errors
    ensures ValidateRegisterForm(users, request, isEmail).error.errors["email"] == Some("Please enter a valid email")
  {
    RegisterSchemaErrors(users, request, isEmail);
    var issues := RegisterFieldIssues(request.fields, isEmail);
    assert issues[2].name == "email" && issues[2].issues != [];
  }

  lemma PasswordMessage()
    ensures PasswordTooShortMessage == "Password must be at least 8 characters"
  {
    assert NatToString(8) == "8";
  }

  /** A password or confirmation shorter than 8 units is reported on that field. */
  lemma RegisterPasswordTooShort(users: seq<User>, request: JsValue, isEmail: string -> bool, field: string)
    requires field == "password" || field == "confirmPassword"
    requires request.Obj? && Get(request.fields, field).Str? && JsLength(Get(request.fields, field).s) < 8
    ensures ValidateRegisterForm(users, request, isEmail).Error?
    ensures field in ValidateRegisterForm(users, request, isEmail).error.errors
    ensures ValidateRegisterForm(users, request, isEmail).error.errors[field] ==
      Some("Password must be at least 8 characters")
  {
    PasswordMessage();
    RegisterSchemaErrors(users, request, isEmail);
    var issues := RegisterFieldIssues(request.fields, isEmail);
    if field == "password" {
      assert issues[3].name == field && issues[3].issues != [];
    } else {
      assert issues[4].name == field && issues[4].issues != [];
    }
  }

  /**
   * `onSuccessRegisterFormValidation`: creates the account, with a new
   * organization of its own, from the validated data.
   */
  method OnSuccessRegisterFormValidation(db: Db, data: RegisterData, hash: string -> string)
    returns (r: Result<User, DbError>)
    requires db.Valid()
    modifies db
    ensures db.Valid()
    ensures r.Ok? <==> !EmailTaken(old(db.users), data.email)
    ensures r.Ok? ==> db.users == old(db.users) + [r.value]
    ensures r.Ok? ==> && r.value.firstName == data.firstName && r.value.lastName == data.lastName
                      && r.value.email == data.email && r.value.password == Some(hash(data.password))
                      && r.value.organizationId == Some(old(db.nextId))
    ensures r.Ok? ==> r.value.id == old(db.nextId) + 1 && db.nextId == old(db.nextId) + 2
    ensures r.Err? ==> db.users == old(db.users) && r.error == UniqueConstraintFailed("email")
    ensures r.Err? ==> db.nextId == old(db.nextId) + 1
    ensures db.organizations == old(db.organizations) + [Organization(
      old(db.nextId), UserNameToOrgName(data.firstName, data.lastName),
      NameToSlug(UserNameToOrgName(data.firstName, data.lastName)))]
    ensures db.invitations == old(db.invitations)
  {
    r := CreateUser(db, CreateUserArgs(data.firstName, data.lastName, data.email, data.password), None, hash);
  }

  /**
   * A registration validated against the current user table is stored:
   * the validation already excluded the one refusal the insert can give.
   */
  lemma ValidatedRegistrationIsNew(users: seq<User>, request: JsValue, isEmail: string -> bool)
    requires ValidateRegisterForm(users, request, isEmail).Success?
    ensures !EmailTaken(users, ValidateRegisterForm(users, request, isEmail).data.email)
  {
  }
}
