/**
 * Users: lookups by the two unique keys, registration with an optional
 * organization, deletion by email, and password login.
 */
module Users {
  import opened Wrappers
  import opened Store
  import opened Organizations

  /** The row with this id, if any. */
  function GetUserById(users: seq<User>, id: Id): (r: Option<User>)
    ensures r.Some? <==> exists i :: 0 <= i < |users| && users[i].id == id
    ensures r.Some? ==> r.value in users && r.value.id == id
  {
    if users == [] then None
    else if users[0].id == id then Some(users[0])
    else GetUserById(users[1..], id)
  }

  /** The row with this email, if any. */
  function GetUserByEmail(users: seq<User>, email: string): (r: Option<User>)
    ensures r.Some? <==> exists i :: 0 <= i < |users| && users[i].email == email
    ensures r.Some? ==> r.value in users && r.value.email == email
  {
    if users == [] then None
    else if users[0].email == email then Some(users[0])
    else GetUserByEmail(users[1..], email)
  }

  /** Ids are a key: the lookup finds the one row that has the id. */
  lemma {:induction false} GetUserByIdFinds(users: seq<User>, i: nat)
    requires UserIdsUnique(users)
    requires i < |users|
    ensures GetUserById(users, users[i].id) == Some(users[i])
  {
    if i > 0 {
      assert users[0].id != users[i].id;
      assert UserIdsUnique(users[1..]) by {
        assert forall a :: 0 <= a < |users| - 1 ==> users[1..][a] == users[a + 1];
      }
      GetUserByIdFinds(users[1..], i - 1);
    }
  }

  /** Emails are a key: the lookup finds the one row that has the email. */
  lemma {:induction false} GetUserByEmailFinds(users: seq<User>, i: nat)
    requires UserEmailsUnique(users)
    requires i < |users|
    ensures GetUserByEmail(users, users[i].email) == Some(users[i])
  {
    if i > 0 {
      assert users[0].email != users[i].email;
      assert UserEmailsUnique(users[1..]) by {
        assert forall a :: 0 <= a < |users| - 1 ==> users[1..][a] == users[a + 1];
      }
      GetUserByEmailFinds(users[1..], i - 1);
    }
  }

  /** The name of the organization created for a user who registers on their own. */
  function UserNameToOrgName(firstName: string, lastName: string): (name: string)
    ensures |name| == |firstName| + |lastName| + 10
    ensures name[..|firstName|] == firstName
    ensures name[|firstName|] == ' '
    ensures name[|firstName| + 1..|firstName| + 1 + |lastName|] == lastName
    ensures name[|firstName| + 1 + |lastName|..] == "'s Family"
  {
    firstName + " " + lastName + "'s Family"
  }

  lemma OrgNameOfRumpel()
    ensures UserNameToOrgName("Rumpel", "Stiltskin") == "Rumpel Stiltskin's Family"
  {
  }

  /** The fields `createUser` takes from its caller. */
  datatype CreateUserArgs = CreateUserArgs(firstName: string, lastName: string, email: string, password: string)

  /** Whether some row already holds this email. */
  predicate EmailTaken(users: seq<User>, email: string)
  {
    exists i :: 0 <= i < |users| && users[i].email == email
  }

  /**
   * `createUser`: the password is hashed; without an organization one named
   * after the user is created first; then the user row is inserted, pointing
   * at that organization. The two writes are not one transaction: a refused
   * user insert leaves the new organization in place.
   */
  method CreateUser(db: Db, args: CreateUserArgs, organization: Option<Organization>, hash: string -> string)
    returns (r: Result<User, DbError>)
    requires db.Valid()
    modifies db
    ensures db.Valid()
    ensures organization.Some? ==> db.organizations == old(db.organizations)
    ensures organization.None? ==> db.organizations == old(db.organizations) + [Organization(
      old(db.nextId), UserNameToOrgName(args.firstName, args.lastName),
      NameToSlug(UserNameToOrgName(args.firstName, args.lastName)))]
    ensures r.Ok? <==> !EmailTaken(old(db.users), args.email)
    ensures r.Ok? ==> db.users == old(db.users) + [r.value]
    ensures r.Ok? ==> && r.value.firstName == args.firstName && r.value.lastName == args.lastName
                      && r.value.email == args.email && r.value.password == Some(hash(args.password))
    ensures r.Ok? && organization.Some? ==> r.value.organizationId == Some(organization.value.id)
    ensures r.Ok? && organization.None? ==> r.value.organizationId == Some(old(db.nextId))
    ensures r.Err? ==> db.users == old(db.users) && r.error == UniqueConstraintFailed("email")
    ensures organization.Some? && r.Ok? ==> r.value.id == old(db.nextId) && db.nextId == old(db.nextId) + 1
    ensures organization.Some? && r.Err? ==> db.nextId == old(db.nextId)
    ensures organization.None? && r.Ok? ==> r.value.id == old(db.nextId) + 1 && db.nextId == old(db.nextId) + 2
    ensures organization.None? && r.Err? ==> db.nextId == old(db.nextId) + 1
    ensures db.invitations == old(db.invitations)
  {
    var hashedPassword := hash(args.password);
    var org: Organization;
    if organization.None? {
      org := CreateOrganization(db, UserNameToOrgName(args.firstName, args.lastName));
    } else {
      org := organization.value;
    }
    if EmailTaken(db.users, args.email) {
      return Err(UniqueConstraintFailed("email"));
    }
    var user := User(db.nextId, args.firstName, args.lastName, args.email, Some(hashedPassword), Some(org.id));
    db.users := db.users + [user];
    db.nextId := db.nextId + 1;
    r := Ok(user);
  }

  /** The table without the rows that hold this email. */
  function WithoutEmail(users: seq<User>, email: string): (rest: seq<User>)
    ensures forall u :: u in rest <==> u in users && u.email != email
    ensures |rest| <= |users|
  {
    if users == [] then []
    else (if users[0].email == email then [] else [users[0]]) + WithoutEmail(users[1..], email)
  }

  /** Dropping rows keeps every key unique and every id below the counter. */
  lemma {:induction false} WithoutEmailValid(users: seq<User>, email: string, nextId: Id)
    requires UserEmailsUnique(users) && UserIdsUnique(users)
    requires forall i :: 0 <= i < |users| ==> users[i].id < nextId
    ensures UserEmailsUnique(WithoutEmail(users, email)) && UserIdsUnique(WithoutEmail(users, email))
    ensures forall i :: 0 <= i < |WithoutEmail(users, email)| ==> WithoutEmail(users, email)[i].id < nextId
  {
    if users != [] {
      var tail := users[1..];
      assert UserEmailsUnique(tail) && UserIdsUnique(tail) by {
        assert forall a :: 0 <= a < |tail| ==> tail[a] == users[a + 1];
      }
      WithoutEmailValid(tail, email, nextId);
      var rest := WithoutEmail(tail, email);
      forall a | 0 <= a < |rest|
        ensures rest[a].email != users[0].email && rest[a].id != users[0].id && rest[a].id < nextId
      {
        assert rest[a] in tail;
        var k :| 0 <= k < |tail| && tail[k] == rest[a];
        assert tail[k] == users[k + 1];
      }
      if users[0].email != email {
        PrependValid(users[0], rest, nextId);
      } else {
        assert WithoutEmail(users, email) == rest;
      }
    }
  }

  lemma PrependValid(head: User, rest: seq<User>, nextId: Id)
    requires UserEmailsUnique(rest) && UserIdsUnique(rest)
    requires forall a :: 0 <= a < |rest| ==> rest[a].email != head.email && rest[a].id != head.id && rest[a].id < nextId
    requires head.id < nextId
    ensures UserEmailsUnique([head] + rest) && UserIdsUnique([head] + rest)
    ensures forall i :: 0 <= i < |[head] + rest| ==> ([head] + rest)[i].id < nextId
  {
    var all := [head] + rest;
    assert forall a :: 1 <= a < |all| ==> all[a] == rest[a - 1];
  }

  /**
   * `deleteUserByEmail`: removes the row with this email and returns it;
   * deleting an email nobody has is refused.
   */
  method DeleteUserByEmail(db: Db, email: string) returns (r: Result<User, DbError>)
    requires db.Valid()
    modifies db
    ensures db.Valid()
    ensures r.Ok? <==> EmailTaken(old(db.users), email)
    ensures r.Ok? ==> Some(r.value) == GetUserByEmail(old(db.users), email)
    ensures r.Ok? ==> db.users == WithoutEmail(old(db.users), email)
    ensures r.Err? ==> r.error == RecordNotFound && db.users == old(db.users)
    ensures db.organizations == old(db.organizations) && db.invitations == old(db.invitations)
    ensures db.nextId == old(db.nextId)
  {
    var found := GetUserByEmail(db.users, email);
    if found.None? {
      return Err(RecordNotFound);
    }
    WithoutEmailValid(db.users, email, db.nextId);
    db.users := WithoutEmail(db.users, email);
    r := Ok(found.value);
  }

  /** A user row as login hands it out: every column but the password. */
  datatype UserWithoutPassword = UserWithoutPassword(
    id: Id,
    firstName: string,
    lastName: string,
    email: string,
    organizationId: Option<Id>)

  function WithoutPassword(u: User): (v: UserWithoutPassword)
    ensures v.id == u.id && v.firstName == u.firstName && v.lastName == u.lastName
    ensures v.email == u.email && v.organizationId == u.organizationId
  {
    UserWithoutPassword(u.id, u.firstName, u.lastName, u.email, u.organizationId)
  }

  /**
   * `verifyLogin`: null for an unknown email, for a row whose password is
   * null or empty, and for a password `compare` rejects; otherwise the row
   * without its password.
   */
  function VerifyLogin(users: seq<User>, email: string, password: string, compare: (string, string) -> bool)
    : (r: Option<UserWithoutPassword>)
    ensures r.Some? ==> exists u :: u in users && u.email == email && r.value == WithoutPassword(u)
                                  && u.password.Some? && u.password.value != "" && compare(password, u.password.value)
    ensures !EmailTaken(users, email) ==> r.None?
  {
    match GetUserByEmail(users, email)
    case None => None
    case Some(user) =>
      if user.password.None? || user.password.value == "" then None
      else if !compare(password, user.password.value) then None
      else Some(WithoutPassword(user))
  }

  /** Nobody has the email: no login. */
  lemma VerifyLoginUnknownEmail(users: seq<User>, email: string, password: string, compare: (string, string) -> bool)
    requires !EmailTaken(users, email)
    ensures VerifyLogin(users, email, password, compare) == None
  {
  }

  /**
   * The row with the email decides the login: it fails without a stored
   * password and when the password does not match it, and otherwise returns
   * that row without its password.
   */
  lemma VerifyLoginRow(users: seq<User>, i: nat, password: string, compare: (string, string) -> bool)
    requires UserEmailsUnique(users)
    requires i < |users|
    ensures users[i].password.None? ==> VerifyLogin(users, users[i].email, password, compare) == None
    ensures users[i].password == Some("") ==> VerifyLogin(users, users[i].email, password, compare) == None
    ensures users[i].password.Some? && !compare(password, users[i].password.value) ==>
      VerifyLogin(users, users[i].email, password, compare) == None
    ensures users[i].password.Some? && users[i].password.value != "" && compare(password, users[i].password.value) ==>
      VerifyLogin(users, users[i].email, password, compare) == Some(WithoutPassword(users[i]))
  {
    GetUserByEmailFinds(users, i);
  }

  /**
   * A user stored by `CreateUser` can log in with the password they
   * registered with, given a hash that `compare` accepts and that is never
   * empty (bcrypt hashes never are).
   */
  lemma LoginAfterCreate(users: seq<User>, user: User, password: string,
                         hash: string -> string, compare: (string, string) -> bool)
    requires UserEmailsUnique(users + [user])
    requires user.password == Some(hash(password))
    requires hash(password) != "" && compare(password, hash(password))
    ensures VerifyLogin(users + [user], user.email, password, compare) == Some(WithoutPassword(user))
  {
    VerifyLoginRow(users + [user], |users|, password, compare);
  }
}
