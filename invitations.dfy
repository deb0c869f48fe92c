/** The invitation server actions of lib/actions/invitations.ts: inviting an email address into
    a household (an upsert keyed by household and email) and accepting an invitation by its
    token. The session, the current instant, the random token and the outcome of the email
    delivery are inputs. */
module Invitations {
  import opened Wrappers
  import opened Time
  import opened Store
  import Text

  /** The signed-in user as the session reports it. */
  datatype Session = Session(userId: Id, email: Option<string>, name: Option<string>)

  /** The errors the two actions throw. */
  datatype InvitationError =
    | NotAuthenticated
    | HouseholdNotFound
    | AlreadyMember
    | TokenTaken      // the unique index on tokens rejects the upsert
    | EmailFailed     // thrown after the invitation was stored
    | InvalidInvitation
    | Expired
    | AlreadyAccepted
    | WrongEmail

  /** The invitation email handed to the mailer. */
  datatype InvitationEmail = InvitationEmail(to: string, inviterName: string, householdName: string, link: string)

  /** An invitation is valid for seven days: the same time of day, seven days later
      (setDate(getDate() + 7)). */
  function ExpiryOf(now: int): (e: int)
    ensures Day(e) == Day(now) + 7 && TimeInDay(e) == TimeInDay(now)
    ensures e > now
  {
    DayOfShift(now, 7);
    now + 7 * MsPerDay
  }

  /** The name the email gives the inviter: the inviter's own user name, else the session's
      name, else "Un membre"; it is never empty. */
  function InviterName(userName: Option<string>, sessionName: Option<string>): (r: string)
    ensures r != ""
    ensures Text.Truthy(userName) ==> r == userName.value
    ensures !Text.Truthy(userName) && Text.Truthy(sessionName) ==> r == sessionName.value
    ensures !Text.Truthy(userName) && !Text.Truthy(sessionName) ==> r == "Un membre"
  {
    if Text.Truthy(userName) then userName.value
    else if Text.Truthy(sessionName) then sessionName.value
    else "Un membre"
  }

  /** Some user with exactly this email belongs to the household. */
  predicate EmailIsMember(users: map<Id, User>, members: map<Id, Membership>, householdId: Id, email: string) {
    exists u :: u in users && users[u].email == email &&
      exists m :: m in members && members[m].householdId == householdId && members[m].userId == u
  }

  /** The refusal inviteToHousehold throws before writing anything, if any, in the order the
      source checks: the session, the caller's membership of an existing household, the
      invitee's membership, and the uniqueness of the new token. */
  function InviteRefusal(db: Db, session: Option<Session>, householdId: Id, email: string, token: string,
                         existing: Option<Id>): Option<InvitationError>
    reads db
  {
    if session.None? then Some(NotAuthenticated)
    else if !(householdId in db.households && db.IsMember(householdId, session.value.userId)) then Some(HouseholdNotFound)
    else if EmailIsMember(db.users, db.members, householdId, email) then Some(AlreadyMember)
    else if !TokenFree(db.invitations, token, existing) then Some(TokenTaken)
    else None
  }

  /** The invitation rows after the upsert on (householdId, email): the row of that pair, or a
      new row when there is none, now holds the new token, inviter and expiry and is not
      accepted; no other row changes. */
  ghost predicate Upserted(before: map<Id, Invitation>, after: map<Id, Invitation>, id: Id, row: Invitation) {
    after == before[id := row] &&
    (id in before ==> before[id].householdId == row.householdId && before[id].email == row.email) &&
    (id !in before ==> forall k :: k in before ==>
      !(before[k].householdId == row.householdId && before[k].email == row.email))
  }

  /** Only the household's rows change: every other row is kept, and a row that is new or
      changed belongs to the household. */
  ghost predicate TouchesOnly(before: map<Id, Invitation>, after: map<Id, Invitation>, householdId: Id) {
    (forall k :: k in before && before[k].householdId != householdId ==> k in after && after[k] == before[k]) &&
    (forall k :: k in after ==> (k in before && after[k] == before[k]) || after[k].householdId == householdId)
  }

  lemma UpsertTouchesOnly(before: map<Id, Invitation>, after: map<Id, Invitation>, id: Id, row: Invitation)
    requires Upserted(before, after, id, row)
    ensures TouchesOnly(before, after, row.householdId)
  {
  }

  lemma TouchesOnlyTwice(a: map<Id, Invitation>, b: map<Id, Invitation>, c: map<Id, Invitation>, householdId: Id)
    requires TouchesOnly(a, b, householdId) && TouchesOnly(b, c, householdId)
    ensures TouchesOnly(a, c, householdId)
  {
  }

  /** Some row of the household is filed under the address. */
  ghost predicate Filed(invitations: map<Id, Invitation>, householdId: Id, email: string) {
    exists k :: k in invitations && invitations[k].householdId == householdId && invitations[k].email == email
  }

  /** Every row is kept under its (household, email) pair: an upsert may change a row's token,
      inviter, expiry and acceptance, never the pair it is filed under. */
  ghost predicate KeepsPairs(before: map<Id, Invitation>, after: map<Id, Invitation>) {
    forall k :: k in before ==>
      k in after && after[k].householdId == before[k].householdId && after[k].email == before[k].email
  }

  lemma UpsertKeepsPairs(before: map<Id, Invitation>, after: map<Id, Invitation>, id: Id, row: Invitation)
    requires Upserted(before, after, id, row)
    ensures KeepsPairs(before, after)
    ensures id in after && after[id] == row && Filed(after, row.householdId, row.email)
  {
  }

  /** The (householdId, email) row an upsert would update, if any. */
  ghost function InvitationOf(invitations: map<Id, Invitation>, householdId: Id, email: string): Option<Id> {
    if k :| k in invitations && invitations[k].householdId == householdId && invitations[k].email == email
    then Some(k) else None
  }

  /** The checks of inviteToHousehold, in its order, before anything is written: the refusal if
      one applies, and the row of the (household, email) pair if there is one. */
  method CheckInvite(db: Db, session: Option<Session>, householdId: Id, email: string, token: string)
    returns (refusal: Option<InvitationError>, found: Option<Id>)
    requires db.Valid()
    ensures found == InvitationOf(db.invitations, householdId, email)
    ensures refusal == InviteRefusal(db, session, householdId, email, token, found)
  {
    found := FindInvitation(db, householdId, email);
    assert found.Some? <==> InvitationOf(db.invitations, householdId, email).Some?;
    assert found.Some? ==> found == InvitationOf(db.invitations, householdId, email) by {
      if found.Some? {
        var k := InvitationOf(db.invitations, householdId, email).value;
        assert db.invitations[k].householdId == householdId && db.invitations[k].email == email;
      }
    }
    if session.None? {
      return Some(NotAuthenticated), found;
    }
    var asMember := FindMembership(db, session.value.userId, householdId);
    if householdId !in db.households || asMember.None? {
      return Some(HouseholdNotFound), found;
    }
    var existingUser := FindUserByEmail(db, email);
    if existingUser.Some? {
      var isMember := FindMembership(db, existingUser.value, householdId);
      if isMember.Some? {
        return Some(AlreadyMember), found;
      }
    }
    if !TokenFree(db.invitations, token, found) {
      return Some(TokenTaken), found;
    }
    refusal := None;
  }

  /** inviteToHousehold. A refusal leaves the store as it was. Otherwise the invitation is
      upserted, and a failed delivery then throws although the invitation stays stored. */
  method InviteToHousehold(db: Db, session: Option<Session>, householdId: Id, email: string,
                           token: string, now: int, baseUrl: string, delivered: bool)
    returns (r: Result<Id, InvitationError>, sent: Option<InvitationEmail>)
    requires db.Valid()
    modifies db`invitations, db`nextId
    ensures db.Valid() && old(db.nextId) <= db.nextId
    ensures TouchesOnly(old(db.invitations), db.invitations, householdId)
    ensures KeepsPairs(old(db.invitations), db.invitations)
    ensures sent.Some? ==> Filed(db.invitations, householdId, email)
    ensures r.Success? ==>
      r.value in db.invitations && db.invitations[r.value].householdId == householdId &&
      db.invitations[r.value].email == email
    ensures var refusal := old(InviteRefusal(db, session, householdId, email, token,
                                             InvitationOf(db.invitations, householdId, email)));
      (refusal.Some? ==> r == Failure(refusal.value) && sent.None? && db.invitations == old(db.invitations)) &&
      (refusal.None? ==>
        sent.Some? && sent.value.to == email && sent.value.link == baseUrl + "/invite/" + token &&
        sent.value.householdName == old(db.households[householdId].name) &&
        (delivered ==> r.Success?) && (!delivered ==> r == Failure(EmailFailed)) &&
        exists id :: Upserted(old(db.invitations), db.invitations, id,
                              Invitation(householdId, email, token, session.value.userId, ExpiryOf(now), None)) &&
                     (r.Success? ==> r.value == id))
  {
    var refusal, found := CheckInvite(db, session, householdId, email, token);
    if refusal.Some? {
      return Failure(refusal.value), None;
    }
    var userId := session.value.userId;
    var row := Invitation(householdId, email, token, userId, ExpiryOf(now), None);
    var id;
    if found.Some? {
      id := found.value;
      UpdateInvitation(db, id, row);
    } else {
      id := CreateInvitation(db, row);
    }
    assert Upserted(old(db.invitations), db.invitations, id, row);
    UpsertTouchesOnly(old(db.invitations), db.invitations, id, row);
    UpsertKeepsPairs(old(db.invitations), db.invitations, id, row);
    var userName := if userId in db.users then db.users[userId].name else None;
    var inviter := InviterName(userName, session.value.name);
    sent := Some(InvitationEmail(email, inviter, db.households[householdId].name, baseUrl + "/invite/" + token));
    if !delivered {
      return Failure(EmailFailed), sent;
    }
    r := Success(id);
  }

  // ---------------------------------------------------------------- acceptInvitation

  /** The checks acceptInvitation makes, in its order: an unknown token, an expiry already
      past, an invitation already accepted, and an address other than the session's (compared
      exactly, without case folding). An invitation passes them all exactly when it exists, has
      not expired, was never accepted and is addressed to the session's email. */
  function AcceptRefusal(inv: Option<Invitation>, now: int, sessionEmail: Option<string>): (r: Option<InvitationError>)
    ensures r.None? <==>
      inv.Some? && now <= inv.value.expiresAt && inv.value.acceptedAt.None? && sessionEmail == Some(inv.value.email)
    ensures r == Some(InvalidInvitation) <==> inv.None?
    ensures r == Some(Expired) <==> inv.Some? && inv.value.expiresAt < now
    ensures r == Some(AlreadyAccepted) <==> inv.Some? && now <= inv.value.expiresAt && inv.value.acceptedAt.Some?
  {
    if inv.None? then Some(InvalidInvitation)
    else if inv.value.expiresAt < now then Some(Expired)
    else if inv.value.acceptedAt.Some? then Some(AlreadyAccepted)
    else if sessionEmail != Some(inv.value.email) then Some(WrongEmail)
    else None
  }

  /** An invitation accepted once is refused from then on, whoever presents it. */
  lemma AcceptedOnce(inv: Invitation, now: int, later: int, email: Option<string>)
    requires AcceptRefusal(Some(inv), now, email).None?
    ensures AcceptRefusal(Some(inv.(acceptedAt := Some(now))), later, email).Some?
  {
  }

  datatype Acceptance = Acceptance(householdId: Id, alreadyMember: bool)

  /** acceptInvitation. A refusal changes nothing. An accepted invitation is marked accepted at
      `now`; a user already in the household gets no second membership (alreadyMember), any
      other user exactly one new membership with the role "member". */
  method AcceptInvitation(db: Db, session: Option<Session>, token: string, now: int)
    returns (r: Result<Acceptance, InvitationError>)
    requires db.Valid()
    modifies db`invitations, db`members, db`nextId
    ensures db.Valid()
    ensures session.None? ==> r == Failure(NotAuthenticated)
    ensures r.Failure? ==> db.invitations == old(db.invitations) && db.members == old(db.members)
    ensures session.Some? ==>
      (r.Failure? <==> AcceptRefusal(old(TokenRow(db.invitations, token)), now, session.value.email).Some?)
    ensures session.Some? && r.Failure? ==>
      r == Failure(AcceptRefusal(old(TokenRow(db.invitations, token)), now, session.value.email).value)
    ensures r.Success? ==>
      exists id :: id in old(db.invitations) && old(db.invitations)[id].token == token &&
        db.invitations == old(db.invitations)[id := old(db.invitations)[id].(acceptedAt := Some(now))] &&
        r.value.householdId == old(db.invitations)[id].householdId &&
        r.value.alreadyMember == old(db.IsMember(r.value.householdId, session.value.userId)) &&
        (r.value.alreadyMember ==> db.members == old(db.members)) &&
        (!r.value.alreadyMember ==>
          exists m: Id ::
            m !in old(db.members) &&
            db.members == old(db.members)[m := Membership(r.value.householdId, session.value.userId, "member")])
  {
    if session.None? {
      return Failure(NotAuthenticated);
    }
    var found := FindInvitationByToken(db, token);
    ghost var row := TokenRow(db.invitations, token);
    assert found.Some? ==> row == Some(db.invitations[found.value]);
    var inv := if found.Some? then Some(db.invitations[found.value]) else None;
    var refusal := AcceptRefusal(inv, now, session.value.email);
    if refusal.Some? {
      return Failure(refusal.value);
    }
    var id := found.value;
    var householdId := inv.value.householdId;
    var userId := session.value.userId;
    var existingMember := FindMembership(db, userId, householdId);
    if existingMember.None? {
      var m := AddMember(db, householdId, userId, "member");
    }
    UpdateInvitation(db, id, inv.value.(acceptedAt := Some(now)));
    r := Success(Acceptance(householdId, existingMember.Some?));
  }
}
