/** The join-completion endpoint of app/api/join/complete/route.ts: a person invited by email
    sets a password and joins the household. The hash bcrypt computes for the password and the
    current instant are inputs. Unlike acceptInvitation, the endpoint never looks at whether the
    invitation was already accepted. */
module JoinComplete {
  import opened Wrappers
  import Text
  import opened Store

  /** A missing field of the request body reads as the empty string. */
  datatype JoinRequest = JoinRequest(token: string, password: string)

  datatype JoinResponse =
    | Joined(email: string, householdId: Id)   // 200
    | BadRequest(message: string)              // 400

  /** The 400 answers, in the order the endpoint gives them: a missing field, an unknown token,
      an expiry already past. An accepted invitation is not refused. */
  function JoinRefusal(req: JoinRequest, inv: Option<Invitation>, now: int): (r: Option<string>)
    ensures r.None? <==> req.token != "" && req.password != "" && inv.Some? && now <= inv.value.expiresAt
  {
    if req.token == "" || req.password == "" then Some("Token ou mot de passe manquant")
    else if inv.None? then Some("Invitation invalide")
    else if inv.value.expiresAt < now then Some("Cette invitation a expiré")
    else None
  }

  /** A password hash is set when it is present and not empty. */
  predicate HasPassword(u: User) {
    u.passwordHash.Some? && u.passwordHash.value != ""
  }

  /** The user row for the invited email after the endpoint: a new user holding only the email
      and the hash, or the existing user given the hash when it had none, or else left as it
      was. */
  function JoinedUser(existing: Option<User>, email: string, hash: string): (u: User)
    ensures u.email == (if existing.Some? then existing.value.email else email)
    ensures HasPassword(u) || hash == ""
    ensures existing.Some? && HasPassword(existing.value) ==> u == existing.value
    ensures existing.Some? ==> u.name == existing.value.name
  {
    if existing.None? then User(email, None, Some(hash))
    else if !HasPassword(existing.value) then existing.value.(passwordHash := Some(hash))
    else existing.value
  }

  /** The users table after the endpoint put `row` at `u`: every other user is unchanged and
      no other user was added. */
  ghost predicate UserPut(before: map<Id, User>, after: map<Id, User>, u: Id, row: User) {
    after == before[u := row]
  }

  /** The membership table after the endpoint ensured that `u` belongs to the household: it is
      unchanged when `u` was a member already, and holds exactly one new "member" row
      otherwise. */
  ghost predicate MemberEnsured(before: map<Id, Membership>, after: map<Id, Membership>, householdId: Id, u: Id,
                                wasMember: bool) {
    (wasMember ==> after == before) &&
    (!wasMember ==> exists m: Id :: m !in before && after == before[m := Membership(householdId, u, "member")])
  }

  /** POST /api/join/complete. A refusal changes nothing. Otherwise the user of the lowercased
      invitation email is found or created, given the hash only when it had no password, made a
      member of the household unless it already is one, and the invitation is marked accepted
      at `now`; the answer carries the lowercased email. A second identical request therefore
      adds no membership. */
  method CompleteJoin(db: Db, req: JoinRequest, now: int, hash: string) returns (resp: JoinResponse)
    requires db.Valid()
    modifies db`users, db`members, db`invitations, db`nextId
    ensures db.Valid()
    ensures JoinRefusal(req, old(TokenRow(db.invitations, req.token)), now).None? <==> resp.Joined?
    ensures resp.BadRequest? ==>
      resp.message == JoinRefusal(req, old(TokenRow(db.invitations, req.token)), now).value
    ensures resp.BadRequest? ==>
      db.users == old(db.users) && db.members == old(db.members) && db.invitations == old(db.invitations)
    ensures resp.Joined? ==>
      exists i :: i in old(db.invitations) && old(db.invitations)[i].token == req.token &&
        resp == Joined(Text.ToLower(old(db.invitations)[i].email), old(db.invitations)[i].householdId) &&
        db.invitations == old(db.invitations)[i := old(db.invitations)[i].(acceptedAt := Some(now))]
    ensures resp.Joined? ==>
      exists u :: u in db.users && db.IsMember(resp.householdId, u) &&
        UserPut(old(db.users), db.users, u, JoinedUser(old(EmailRow(db.users, resp.email)), resp.email, hash)) &&
        MemberEnsured(old(db.members), db.members, resp.householdId, u, old(db.IsMember(resp.householdId, u)))
  {
    var refusal, found := CheckJoin(db, req, now);
    if refusal.Some? {
      return BadRequest(refusal.value);
    }
    var i := found.value;
    var inv := db.invitations[i];
    var email := Text.ToLower(inv.email);
    var householdId := inv.householdId;
    var userId := EnsureUser(db, email, hash);
    EnsureMember(db, householdId, userId);
    UpdateInvitation(db, i, inv.(acceptedAt := Some(now)));
    resp := Joined(email, householdId);
    assert db.IsMember(householdId, userId);
  }

  /** The checks of the endpoint before anything is written: the 400 answer if one applies,
      and otherwise the invitation row holding the token. */
  method CheckJoin(db: Db, req: JoinRequest, now: int) returns (refusal: Option<string>, found: Option<Id>)
    requires db.Valid()
    ensures refusal == JoinRefusal(req, TokenRow(db.invitations, req.token), now)
    ensures refusal.None? ==>
      found.Some? && found.value in db.invitations && TokenRow(db.invitations, req.token) == Some(db.invitations[found.value])
  {
    found := None;
    if req.token != "" && req.password != "" {
      found := FindInvitationByToken(db, req.token);
    }
    assert found.Some? ==> TokenRow(db.invitations, req.token) == Some(db.invitations[found.value]);
    var inv := if found.Some? then Some(db.invitations[found.value]) else None;
    refusal := JoinRefusal(req, inv, now);
  }

  /** The user of this email after the endpoint: found or created, given the hash when it had
      no password. */
  method EnsureUser(db: Db, email: string, hash: string) returns (userId: Id)
    requires db.Valid()
    modifies db`users, db`nextId
    ensures db.Valid()
    ensures UserPut(old(db.users), db.users, userId, JoinedUser(old(EmailRow(db.users, email)), email, hash))
  {
    var user := FindUserByEmail(db, email);
    ghost var before := EmailRow(db.users, email);
    assert user.Some? ==> before == Some(db.users[user.value]);
    ghost var joined := JoinedUser(before, email, hash);
    if user.None? {
      userId := CreateUser(db, User(email, None, Some(hash)));
    } else {
      userId := user.value;
      if !HasPassword(db.users[userId]) {
        UpdateUser(db, userId, db.users[userId].(passwordHash := Some(hash)));
      } else {
        assert old(db.users) == old(db.users)[userId := joined];
      }
    }
  }

  /** The membership check and create of the endpoint. */
  method EnsureMember(db: Db, householdId: Id, userId: Id)
    requires db.Valid() && householdId in db.households
    modifies db`members, db`nextId
    ensures db.Valid()
    ensures db.IsMember(householdId, userId)
    ensures MemberEnsured(old(db.members), db.members, householdId, userId, old(db.IsMember(householdId, userId)))
  {
    var existingMember := FindMembership(db, userId, householdId);
    if existingMember.None? {
      var m := AddMember(db, householdId, userId, "member");
    }
  }
}
