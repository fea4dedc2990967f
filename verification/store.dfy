/**
 * The relational store the models talk to through the Prisma client: the
 * user, organization and invitation tables as sequences of rows, plus the
 * source of fresh ids. Columns not used by the modelled code (timestamps)
 * are left out.
 */
module Store {
  import opened Wrappers

  /** A row id. The database generates them; here they come from a counter. */
  type Id = nat

  /** A user row. `password` and `organizationId` are nullable columns. */
  datatype User = User(
    id: Id,
    firstName: string,
    lastName: string,
    email: string,
    password: Option<string>,
    organizationId: Option<Id>)

  datatype Organization = Organization(id: Id, name: string, slug: string)

  /** A pending invitation: the invitee's email and the inviting user's id. */
  datatype UserInvitation = UserInvitation(id: Id, email: string, userId: Option<Id>)

  /** Why a write was refused: a second row with a unique column's value, or no row to delete. */
  datatype DbError = UniqueConstraintFailed(column: string) | RecordNotFound

  /** `email` is a unique column of the user table. */
  predicate UserEmailsUnique(users: seq<User>)
  {
    forall i, j :: 0 <= i < j < |users| ==> users[i].email != users[j].email
  }

  /** `id` is the primary key of the user table. */
  predicate UserIdsUnique(users: seq<User>)
  {
    forall i, j :: 0 <= i < j < |users| ==> users[i].id != users[j].id
  }

  predicate OrganizationIdsUnique(organizations: seq<Organization>)
  {
    forall i, j :: 0 <= i < j < |organizations| ==> organizations[i].id != organizations[j].id
  }

  /** `email` is a unique column of the invitation table. */
  predicate InvitationEmailsUnique(invitations: seq<UserInvitation>)
  {
    forall i, j :: 0 <= i < j < |invitations| ==> invitations[i].email != invitations[j].email
  }

  predicate InvitationIdsUnique(invitations: seq<UserInvitation>)
  {
    forall i, j :: 0 <= i < j < |invitations| ==> invitations[i].id != invitations[j].id
  }

  /** The database: three tables and the next id it will hand out. */
  class Db {
    var users: seq<User>
    var organizations: seq<Organization>
    var invitations: seq<UserInvitation>
    var nextId: Id

    /** The table constraints hold and every id in use is below `nextId`. */
    ghost predicate Valid()
      reads this
    {
      && UserEmailsUnique(users)
      && UserIdsUnique(users)
      && OrganizationIdsUnique(organizations)
      && InvitationEmailsUnique(invitations)
      && InvitationIdsUnique(invitations)
      && (forall i :: 0 <= i < |users| ==> users[i].id < nextId)
      && (forall i :: 0 <= i < |organizations| ==> organizations[i].id < nextId)
      && (forall i :: 0 <= i < |invitations| ==> invitations[i].id < nextId)
    }

    /** An empty database. */
    constructor ()
      ensures Valid()
      ensures users == [] && organizations == [] && invitations == []
    {
      users := [];
      organizations := [];
      invitations := [];
      nextId := 0;
    }
  }
}
