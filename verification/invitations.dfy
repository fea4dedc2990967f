/**
 * User invitations: one row per invited email, remembering who sent it.
 */
module UserInvitations {
  import opened Wrappers
  import opened Store

  /** Whether some invitation already holds this email. */
  predicate Invited(invitations: seq<UserInvitation>, email: string)
  {
    exists i :: 0 <= i < |invitations| && invitations[i].email == email
  }

  /**
   * `createUserInvitation`: inserts a row with the email and the sender's
   * id (which can be missing, when no session user is known); a second
   * invitation for the same email is refused.
   */
  method CreateUserInvitation(db: Db, email: string, from: Option<Id>) returns (r: Result<UserInvitation, DbError>)
    requires db.Valid()
    modifies db
    ensures db.Valid()
    ensures r.Ok? <==> !Invited(old(db.invitations), email)
    ensures r.Ok? ==> r.value.email == email && r.value.userId == from && r.value.id == old(db.nextId)
    ensures r.Ok? ==> db.invitations == old(db.invitations) + [r.value] && db.nextId == old(db.nextId) + 1
    ensures r.Err? ==> r.error == UniqueConstraintFailed("email")
    ensures r.Err? ==> db.invitations == old(db.invitations) && db.nextId == old(db.nextId)
    ensures db.users == old(db.users) && db.organizations == old(db.organizations)
  {
    if Invited(db.invitations, email) {
      return Err(UniqueConstraintFailed("email"));
    }
    var invitation := UserInvitation(db.nextId, email, from);
    db.invitations := db.invitations + [invitation];
    db.nextId := db.nextId + 1;
    r := Ok(invitation);
  }

  /** `getUserInvitationByEmail`: the invitation for this email, if any. */
  function GetUserInvitationByEmail(invitations: seq<UserInvitation>, email: string): (r: Option<UserInvitation>)
    ensures r.Some? <==> Invited(invitations, email)
    ensures r.Some? ==> r.value in invitations && r.value.email == email
  {
    if invitations == [] then None
    else if invitations[0].email == email then Some(invitations[0])
    else GetUserInvitationByEmail(invitations[1..], email)
  }

  /** Emails are a key of the table: the lookup finds the one row that has the email. */
  lemma {:induction false} GetUserInvitationByEmailFinds(invitations: seq<UserInvitation>, i: nat)
    requires InvitationEmailsUnique(invitations)
    requires i < |invitations|
    ensures GetUserInvitationByEmail(invitations, invitations[i].email) == Some(invitations[i])
  {
    if i > 0 {
      assert invitations[0].email != invitations[i].email;
      assert InvitationEmailsUnique(invitations[1..]) by {
        assert forall a :: 0 <= a < |invitations| - 1 ==> invitations[1..][a] == invitations[a + 1];
      }
      GetUserInvitationByEmailFinds(invitations[1..], i - 1);
    }
  }

  /**
   * `getInvitationsForAccount`: the invitations this user sent, in table
   * order. They are selected by sender, not by organization.
   */
  function GetInvitationsForAccount(invitations: seq<UserInvitation>, owningAccount: Id): (r: seq<UserInvitation>)
    ensures forall x :: x in r <==> x in invitations && x.userId == Some(owningAccount)
    ensures |r| <= |invitations|
  {
    if invitations == [] then []
    else
      (if invitations[0].userId == Some(owningAccount) then [invitations[0]] else [])
      + GetInvitationsForAccount(invitations[1..], owningAccount)
  }

  /** A new invitation is listed for its sender and for nobody else; the other lists do not change. */
  lemma {:induction false} InvitationsAfterInsert(invitations: seq<UserInvitation>, invitation: UserInvitation, owner: Id)
    ensures GetInvitationsForAccount(invitations + [invitation], owner) ==
      GetInvitationsForAccount(invitations, owner) + (if invitation.userId == Some(owner) then [invitation] else [])
  {
    if invitations == [] {
      assert invitations + [invitation] == [invitation];
    } else {
      assert (invitations + [invitation])[1..] == invitations[1..] + [invitation];
      InvitationsAfterInsert(invitations[1..], invitation, owner);
    }
  }
}
