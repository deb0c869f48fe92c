/** The registration endpoint of app/api/onboarding/register/route.ts: a new user creates an
    account and a household in one transaction, with the preferences built from the onboarding
    answers and an invitation for every other member. The bcrypt hash of the password, the
    random invitation tokens, the current instant and NEXTAUTH_URL are inputs. */
module OnboardingRegister {
  import opened Wrappers
  import Text
  import opened Time
  import opened Store
  import Invitations
  import opened HouseholdActions

  /** The request body; a missing string field reads as the empty string. */
  datatype RegisterRequest = RegisterRequest(
    householdName: string,
    creatorEmail: string,
    creatorFirstName: string,
    dietType: Option<string>,
    meatFrequency: Option<int>,
    allergies: Option<string>,
    members: seq<MemberInput>,
    minDishware: Option<bool>,
    prioritizeSeasonal: Option<bool>,
    password: string)

  datatype RegisterResponse =
    | Registered(userId: Id, householdId: Id)   // 200
    | BadRequest(message: string)              // 400
    | ServerError                              // 500, the transaction rolled back

  /** The account email: the creator's email lowercased, then trimmed. */
  function AccountEmail(req: RegisterRequest): string {
    Text.Trim(Text.ToLower(req.creatorEmail))
  }

  /** The 400 answers: an empty required field, then an account already using the email. */
  function RegisterRefusal(req: RegisterRequest, emailTaken: bool): (r: Option<string>)
    ensures r.None? <==>
      req.householdName != "" && req.creatorEmail != "" && req.creatorFirstName != "" && req.password != "" &&
      !emailTaken
  {
    if req.householdName == "" || req.creatorEmail == "" || req.creatorFirstName == "" || req.password == "" then
      Some("Champs requis manquants")
    else if emailTaken then Some("Un compte existe déjà avec cet email. Utilise la connexion.")
    else None
  }

  /** The allergy list: the comma-separated text split on ",", each piece trimmed and the empty
      ones dropped; no text gives no allergies. */
  function AllergyList(allergies: Option<string>): (r: seq<string>)
    ensures forall x :: x in r ==> x != "" && Text.Trim(x) == x && ',' !in x
  {
    if allergies.None? then []
    else
      var pieces := Text.Split(allergies.value, ',');
      TrimmedPieces(pieces);
      Text.NonEmpty(Text.TrimAll(pieces))
  }

  /** The trimmed pieces of a split on "," are their own trims and hold no comma. */
  lemma TrimmedPieces(pieces: seq<string>)
    requires forall i, j :: 0 <= i < |pieces| && 0 <= j < |pieces[i]| ==> pieces[i][j] != ','
    ensures forall x :: x in Text.TrimAll(pieces) ==> Text.Trim(x) == x && ',' !in x
  {
    var trimmed := Text.TrimAll(pieces);
    forall x | x in trimmed
      ensures Text.Trim(x) == x && ',' !in x
    {
      var i :| 0 <= i < |trimmed| && trimmed[i] == x;
      assert ',' !in pieces[i] by {
        forall j | 0 <= j < |pieces[i]| ensures pieces[i][j] != ',' {}
      }
      TrimmedPiece(pieces[i]);
      Text.TrimIdempotent(pieces[i]);
    }
  }

  /** A trimmed piece of a comma-free text is its own trim and holds no comma. */
  lemma TrimmedPiece(p: string)
    requires ',' !in p
    ensures ',' !in Text.Trim(p)
  {
    var t := Text.Trim(p);
    Text.TrimKeepsCount(p, ',');
    assert multiset(t)[','] == 0;
  }

  lemma {:induction false} TrimAllTrimmed(xs: seq<string>)
    requires forall x :: x in xs ==> Text.Trim(x) == x
    ensures Text.TrimAll(xs) == xs
  {
    if xs != [] {
      TrimAllTrimmed(xs[1..]);
      assert xs == [xs[0]] + xs[1..];
    }
  }

  lemma {:induction false} NonEmptyOfNonEmpty(xs: seq<string>)
    requires "" !in xs
    ensures Text.NonEmpty(xs) == xs
  {
    if xs != [] {
      NonEmptyOfNonEmpty(xs[1..]);
      assert xs == [xs[0]] + xs[1..];
    }
  }

  /** Allergies typed as a comma-separated list read back as that list, for non-empty entries
      that are already trimmed and hold no comma; the empty text gives none. */
  lemma AllergyListRoundTrip(xs: seq<string>)
    requires forall x :: x in xs ==> x != "" && Text.Trim(x) == x && ',' !in x
    ensures AllergyList(Some(Text.Join(xs, ","))) == xs
  {
    var joined := Text.Join(xs, ",");
    if xs == [] {
      assert joined == "";
      assert Text.Split(joined, ',') == [""];
      assert Text.Trim("") == "";
      assert Text.TrimAll([""]) == [""];
    } else {
      forall i, j | 0 <= i < |xs| && 0 <= j < |xs[i]| ensures xs[i][j] != ',' {
        assert xs[i] in xs;
      }
      assert "," == [','];
      Text.JoinSplit(xs, ',');
      assert Text.Split(joined, ',') == xs;
      TrimAllTrimmed(xs);
      NonEmptyOfNonEmpty(xs);
    }
  }

  /** The invitation link base: NEXTAUTH_URL when set and not empty, else the local server. */
  function BaseUrl(nextAuthUrl: Option<string>): string {
    if Text.Truthy(nextAuthUrl) then nextAuthUrl.value else "http://localhost:3000"
  }

  /** The name the invitation emails give the inviter: the trimmed first name, or "Un membre"
      when it is blank. */
  function InviterName(firstName: string): (r: string)
    ensures r != ""
    ensures !Text.IsBlank(firstName) ==> r == Text.Trim(firstName)
  {
    Text.TrimEmptyIffBlank(firstName);
    if Text.Trim(firstName) != "" then Text.Trim(firstName) else "Un membre"
  }

  /** The invitation emails, one per invitation in the order of the invitees: to the lowercased
      address, with the invitation's token in a /join/ link. */
  function InvitationEmails(invitees: seq<MemberInput>, inviter: string, householdName: string, baseUrl: string,
                            tokens: nat -> string): (r: seq<Invitations.InvitationEmail>)
    ensures |r| == |invitees|
  {
    seq(|invitees|, i requires 0 <= i < |invitees| =>
      Invitations.InvitationEmail(Text.ToLower(invitees[i].email), inviter, householdName, baseUrl + "/join/" + tokens(i)))
  }

  /** The invitation rows would break a unique index: two invitees with the same lowercased
      email, or a token used twice or already used by a stored invitation. */
  predicate InvitationClash(invitations: map<Id, Invitation>, invitees: seq<MemberInput>, tokens: nat -> string) {
    (exists i, j :: 0 <= i < j < |invitees| &&
      (Text.ToLower(invitees[i].email) == Text.ToLower(invitees[j].email) || tokens(i) == tokens(j))) ||
    (exists i, k :: 0 <= i < |invitees| && k in invitations && invitations[k].token == tokens(i))
  }

  /** The invitation row of the i-th invitee: the lowercased email, the i-th token, the creator as
      inviter, seven days of validity. */
  function InvitationRow(h: Id, creator: Id, invitee: MemberInput, token: string, now: int): Invitation {
    Invitation(h, Text.ToLower(invitee.email), token, creator, now + 7 * MsPerDay, None)
  }

  /** The invitation table after the invitations: the rows before, plus one new row per
      invitee, in order. */
  ghost predicate Invited(before: map<Id, Invitation>, after: map<Id, Invitation>, ids: seq<Id>, h: Id, creator: Id,
                          invitees: seq<MemberInput>, tokens: nat -> string, now: int)
  {
    |ids| == |invitees| && Extends(before, after) &&
    (forall i :: 0 <= i < |ids| ==>
      ids[i] !in before && ids[i] in after && after[ids[i]] == InvitationRow(h, creator, invitees[i], tokens(i), now)) &&
    (forall id :: id in after && id !in before ==> id in ids)
  }

  /** The row of the next invitee clashes with no row already there. */
  lemma NextRowFits(before: map<Id, Invitation>, after: map<Id, Invitation>, ids: seq<Id>, h: Id, creator: Id,
                    invitees: seq<MemberInput>, tokens: nat -> string, now: int, i: nat)
    requires i < |invitees| && Invited(before, after, ids, h, creator, invitees[..i], tokens, now)
    requires forall k :: k in before ==> before[k].householdId != h
    requires !InvitationClash(before, invitees, tokens)
    ensures TokenFree(after, tokens(i), None)
    ensures forall k :: k in after ==> !(after[k].householdId == h && after[k].email == Text.ToLower(invitees[i].email))
  {
    forall k | k in after
      ensures after[k].token != tokens(i)
      ensures !(after[k].householdId == h && after[k].email == Text.ToLower(invitees[i].email))
    {
      if k !in before {
        var j :| 0 <= j < |ids| && ids[j] == k;
        assert after[k] == InvitationRow(h, creator, invitees[j], tokens(j), now);
      }
    }
  }

  /** One more created row extends the invited table by the next invitee. */
  lemma InvitedStep(before: map<Id, Invitation>, mid: map<Id, Invitation>, ids: seq<Id>, id: Id, h: Id, creator: Id,
                    invitees: seq<MemberInput>, tokens: nat -> string, now: int, i: nat)
    requires i < |invitees| && Invited(before, mid, ids, h, creator, invitees[..i], tokens, now)
    requires id !in mid
    ensures Invited(before, mid[id := InvitationRow(h, creator, invitees[i], tokens(i), now)], ids + [id], h, creator,
                    invitees[..i + 1], tokens, now)
  {
    assert invitees[..i + 1] == invitees[..i] + [invitees[i]];
  }

  /** The invitation creates inside the transaction, one per invitee, for a household with no
      invitation yet and no clash. */
  method CreateInvitations(db: Db, h: Id, creator: Id, invitees: seq<MemberInput>, tokens: nat -> string, now: int)
    returns (ids: seq<Id>)
    requires db.Valid() && h in db.households
    requires forall k :: k in db.invitations ==> db.invitations[k].householdId != h
    requires !InvitationClash(db.invitations, invitees, tokens)
    modifies db`invitations, db`nextId
    ensures db.Valid() && old(db.nextId) <= db.nextId
    ensures Invited(old(db.invitations), db.invitations, ids, h, creator, invitees, tokens, now)
  {
    ids := [];
    for i := 0 to |invitees|
      invariant db.Valid() && old(db.nextId) <= db.nextId
      invariant Invited(old(db.invitations), db.invitations, ids, h, creator, invitees[..i], tokens, now)
    {
      var row := InvitationRow(h, creator, invitees[i], tokens(i), now);
      NextRowFits(old(db.invitations), db.invitations, ids, h, creator, invitees, tokens, now, i);
      ghost var before := db.invitations;
      var id := CreateInvitation(db, row);
      InvitedStep(old(db.invitations), before, ids, id, h, creator, invitees, tokens, now, i);
      ids := ids + [id];
    }
    assert invitees[..|invitees|] == invitees;
  }

  /** POST /api/onboarding/register. A refusal or a clash changes nothing. Otherwise the user is
      created with the account email, the trimmed first name and the hash; the household is
      founded with the user as owner and the records of the diet, the meat frequency and the
      allergy list; every member whose lowercased email is not the account email is invited;
      and one invitation email per invitation is handed to the mailer, whose failures are
      ignored. */
  method Register(db: Db, req: RegisterRequest, hash: string, now: int, nextAuthUrl: Option<string>,
                  tokens: nat -> string)
    returns (resp: RegisterResponse, sent: seq<Invitations.InvitationEmail>)
    requires db.Valid()
    requires forall k :: k in db.members ==> db.members[k].userId in db.users   // the foreign key on users
    modifies db`users, db`households, db`members, db`preferences, db`invitations, db`nextId
    ensures db.Valid()
    ensures var refusal := RegisterRefusal(req, exists k :: k in old(db.users) && old(db.users)[k].email == AccountEmail(req));
      (refusal.Some? <==> resp.BadRequest?) && (refusal.Some? ==> resp == BadRequest(refusal.value))
    ensures resp.ServerError? <==>
      !resp.BadRequest? && InvitationClash(old(db.invitations), Invitees(req.members, AccountEmail(req)), tokens)
    ensures !resp.Registered? ==>
      sent == [] && db.users == old(db.users) && db.households == old(db.households) &&
      db.members == old(db.members) && db.preferences == old(db.preferences) && db.invitations == old(db.invitations)
    ensures resp.Registered? ==>
      var invitees := Invitees(req.members, AccountEmail(req));
      var u := resp.userId;
      u !in old(db.users) &&
      db.users == old(db.users)[u := User(AccountEmail(req), Some(Text.Trim(req.creatorFirstName)), Some(hash))] &&
      Founded(old(db.households), old(db.members), db.households, db.members, db.preferences, db.nextId,
              resp.householdId, u, NewHousehold(req.householdName, req.minDishware, req.prioritizeSeasonal),
              req.dietType, req.meatFrequency, AllergyList(req.allergies)) &&
      (exists ids :: Invited(old(db.invitations), db.invitations, ids, resp.householdId, u, invitees, tokens, now)) &&
      sent == InvitationEmails(invitees, InviterName(req.creatorFirstName), req.householdName, BaseUrl(nextAuthUrl), tokens)
  {
    sent := [];
    var email := AccountEmail(req);
    var existing := None;
    if !(req.householdName == "" || req.creatorEmail == "" || req.creatorFirstName == "" || req.password == "") {
      existing := FindUserByEmail(db, email);
    }
    var refusal := RegisterRefusal(req, existing.Some?);
    if refusal.Some? {
      return BadRequest(refusal.value), [];
    }
    var invitees := Invitees(req.members, email);
    if InvitationClash(db.invitations, invitees, tokens) {
      return ServerError, [];
    }
    var u, h := Enroll(db, req, email, invitees, hash, now, tokens);
    sent := InvitationEmails(invitees, InviterName(req.creatorFirstName), req.householdName, BaseUrl(nextAuthUrl), tokens);
    resp := Registered(u, h);
  }

  /** The transaction of a request that passed the checks: the user, the household with its
      owner and preferences, and the invitations. */
  method Enroll(db: Db, req: RegisterRequest, email: string, invitees: seq<MemberInput>, hash: string, now: int,
                tokens: nat -> string)
    returns (u: Id, h: Id)
    requires db.Valid()
    requires forall k :: k in db.members ==> db.members[k].userId in db.users
    requires forall k :: k in db.users ==> db.users[k].email != email
    requires !InvitationClash(db.invitations, invitees, tokens)
    modifies db`users, db`households, db`members, db`preferences, db`invitations, db`nextId
    ensures db.Valid()
    ensures u !in old(db.users) && db.users == old(db.users)[u := User(email, Some(Text.Trim(req.creatorFirstName)), Some(hash))]
    ensures Founded(old(db.households), old(db.members), db.households, db.members, db.preferences, db.nextId,
                    h, u, NewHousehold(req.householdName, req.minDishware, req.prioritizeSeasonal),
                    req.dietType, req.meatFrequency, AllergyList(req.allergies))
    ensures exists ids :: Invited(old(db.invitations), db.invitations, ids, h, u, invitees, tokens, now)
  {
    u := CreateUser(db, User(email, Some(Text.Trim(req.creatorFirstName)), Some(hash)));
    assert !db.HasHousehold(u);
    var row := NewHousehold(req.householdName, req.minDishware, req.prioritizeSeasonal);
    var allergies := AllergyList(req.allergies);
    h := Found(db, u, row, req.dietType, req.meatFrequency, allergies);
    ghost var n0 := db.nextId;
    assert forall k :: k in db.invitations ==> db.invitations[k].householdId in old(db.households);
    var ids := CreateInvitations(db, h, u, invitees, tokens, now);
    FoundedStable(old(db.households), old(db.members), db.households, db.members, db.preferences, n0, db.nextId,
                  h, u, row, req.dietType, req.meatFrequency, allergies);
  }
}
