/**
 * The invitation form: an email rule, a guard chain over the user and the
 * invitation tables, the insert that follows a successful validation, and
 * the listing of a user's invitations.
 */
module InviteUsers {
  import opened Js
  import opened Wrappers
  import opened Zod
  import opened Schema
  import opened Store
  import opened Users
  import opened UserInvitations

  const InvalidEmailMessage := "Please enter a valid email"
  const UserExistsMessage := "A user with this email already exists"
  const InvitationExistsMessage := "An invitation for this email already exists"

  /** The output of `userInvitationCreationSchema`. */
  datatype InvitationData = InvitationData(email: string)

  function InvitationFieldIssues(fields: map<string, JsValue>, isEmail: string -> bool): (issues: seq<FieldIssues>)
    ensures WellNamed(issues)
  {
    [FieldIssues("email", RefinedString(Get(fields, "email"), isEmail, InvalidEmailMessage))]
  }

  /** The rule written out: an object whose email is a string the predicate accepts. */
  predicate InvitationRules(request: JsValue, isEmail: string -> bool)
  {
    request.Obj? && Get(request.fields, "email").Str? && isEmail(Get(request.fields, "email").s)
  }

  /** `userInvitationCreationSchema.safeParse`. */
  function ParseInvitationForm(request: JsValue, isEmail: string -> bool): (r: Result<InvitationData, seq<Entry>>)
    ensures r.Ok? <==> InvitationRules(request, isEmail)
    ensures r.Ok? ==> Get(request.fields, "email") == Str(r.value.email)
    ensures !request.Obj? ==> r == Err(Format([InvalidTypeMessage("object", request)], []))
    ensures request.Obj? && r.Err? ==> r == Err(Format([], InvitationFieldIssues(request.fields, isEmail)))
    ensures r.Err? ==> ErrorsKey in MapZodErrorSpec(r.error) && HasMessage(MapZodErrorSpec(r.error))
  {
    if !request.Obj? then
      FormattedErrors([InvalidTypeMessage("object", request)], []);
      FormattedHasMessage([InvalidTypeMessage("object", request)], []);
      Err(Format([InvalidTypeMessage("object", request)], []))
    else
      var issues := InvitationFieldIssues(request.fields, isEmail);
      if AllPassed(issues) then
        assert issues[0].issues == [];
        Ok(InvitationData(Get(request.fields, "email").s))
      else
        FormattedErrors([], issues);
        FormattedHasMessage([], issues);
        Err(Format([], issues))
  }

  /**
   * `validateUserInvitationForm`: the schema errors, then an existing user
   * with the email, then an existing invitation for it; otherwise the data.
   */
  function ValidateUserInvitationForm(users: seq<User>, invitations: seq<UserInvitation>,
                                      request: JsValue, isEmail: string -> bool)
    : (r: SchemaValidationResponse<InvitationData>)
    ensures r.Success? ==> InvitationRules(request, isEmail)
    ensures r.Success? ==> !EmailTaken(users, r.data.email) && !Invited(invitations, r.data.email)
    ensures r.Error? ==> HasMessage(r.error.errors)
  {
    match ParseInvitationForm(request, isEmail)
    case Err(entries) => Error(SchemaErrorDefinition(MapZodErrorSpec(entries)))
    case Ok(data) =>
      if GetUserByEmail(users, data.email).Some? then Error(FormError("email", UserExistsMessage))
      else if GetUserInvitationByEmail(invitations, data.email).Some? then Error(FormError("email", InvitationExistsMessage))
      else Success(data)
  }

  /** Success exactly for an accepted email that neither a user nor an invitation holds; the data carries that email. */
  lemma InvitationSucceeds(users: seq<User>, invitations: seq<UserInvitation>, request: JsValue, isEmail: string -> bool)
    ensures ValidateUserInvitationForm(users, invitations, request, isEmail).Success? <==>
      && InvitationRules(request, isEmail)
      && !EmailTaken(users, Get(request.fields, "email").s)
      && !Invited(invitations, Get(request.fields, "email").s)
    ensures ValidateUserInvitationForm(users, invitations, request, isEmail).Success? ==>
      Get(request.fields, "email") == Str(ValidateUserInvitationForm(users, invitations, request, isEmail).data.email)
  {
  }

  /**
   * A rejected email is reported with its message on `email`, and the
   * tables play no part: the result is the same whatever they hold.
   */
  lemma InvitationInvalidEmail(users: seq<User>, invitations: seq<UserInvitation>,
                               users': seq<User>, invitations': seq<UserInvitation>,
                               request: JsValue, isEmail: string -> bool)
    requires request.Obj? && Get(request.fields, "email").Str? && !isEmail(Get(request.fields, "email").s)
    ensures ValidateUserInvitationForm(users, invitations, request, isEmail).Error?
    ensures "email" in ValidateUserInvitationForm(users, invitations, request, isEmail).error.errors
    ensures ValidateUserInvitationForm(users, invitations, request, isEmail).error.errors["email"] ==
      Some("Please enter a valid email")
    ensures ValidateUserInvitationForm(users, invitations, request, isEmail) ==
      ValidateUserInvitationForm(users', invitations', request, isEmail)
  {
    var issues := InvitationFieldIssues(request.fields, isEmail);
    FormattedErrors([], issues);
    assert issues[0].issues != [];
  }

  /**
   * The existing-user error comes exactly for a valid email some user has,
   * whether or not an invitation exists too: the user check comes first.
   */
  lemma InvitationUserExists(users: seq<User>, invitations: seq<UserInvitation>, request: JsValue, isEmail: string -> bool)
    ensures ValidateUserInvitationForm(users, invitations, request, isEmail) == Error(FormError("email", UserExistsMessage)) <==>
      InvitationRules(request, isEmail) && EmailTaken(users, Get(request.fields, "email").s)
  {
  }

  /** The existing-invitation error comes exactly for a valid email that no user has and an invitation holds. */
  lemma InvitationAlreadySent(users: seq<User>, invitations: seq<UserInvitation>, request: JsValue, isEmail: string -> bool)
    ensures ValidateUserInvitationForm(users, invitations, request, isEmail) == Error(FormError("email", InvitationExistsMessage)) <==>
      && InvitationRules(request, isEmail)
      && !EmailTaken(users, Get(request.fields, "email").s)
      && Invited(invitations, Get(request.fields, "email").s)
  {
  }

  /**
   * `onSuccessUserInvitationFormValidation`: inserts one invitation for the
   * validated email, sent by the session's user (none when no one is signed in).
   */
  method OnSuccessUserInvitationFormValidation(db: Db, data: InvitationData, currentUser: Option<Id>)
    returns (r: Result<UserInvitation, DbError>)
    requires db.Valid()
    modifies db
    ensures db.Valid()
    ensures r.Ok? <==> !Invited(old(db.invitations), data.email)
    ensures r.Ok? ==> db.invitations == old(db.invitations) + [r.value]
    ensures r.Ok? ==> r.value.email == data.email && r.value.userId == currentUser
    ensures r.Ok? ==> r.value.id == old(db.nextId) && db.nextId == old(db.nextId) + 1
    ensures r.Err? ==> db.invitations == old(db.invitations) && db.nextId == old(db.nextId)
    ensures r.Err? ==> r.error == UniqueConstraintFailed("email")
    ensures db.users == old(db.users) && db.organizations == old(db.organizations)
  {
    r := CreateUserInvitation(db, data.email, currentUser);
  }

  /**
   * An invitation validated against the current tables is inserted, never
   * refused: the validation already ruled out a second invitation for the email.
   */
  lemma ValidatedInvitationIsNew(users: seq<User>, invitations: seq<UserInvitation>, request: JsValue, isEmail: string -> bool)
    requires ValidateUserInvitationForm(users, invitations, request, isEmail).Success?
    ensures !Invited(invitations, ValidateUserInvitationForm(users, invitations, request, isEmail).data.email)
    ensures !EmailTaken(users, ValidateUserInvitationForm(users, invitations, request, isEmail).data.email)
  {
  }

  /** `getUserInvitations`: the invitations this user sent. */
  function GetUserInvitations(invitations: seq<UserInvitation>, userId: Id): (r: seq<UserInvitation>)
    ensures forall x :: x in r <==> x in invitations && x.userId == Some(userId)
  {
    GetInvitationsForAccount(invitations, userId)
  }
}
