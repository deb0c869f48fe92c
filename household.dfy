/** The household server actions of lib/actions/household.ts: creating a household (one per
    user) with the preference records built from the onboarding answers, inviting the other
    members, and the two upserts banIngredient and updatePreference. The session, the random
    invitation tokens, the current instant and the email deliveries are inputs. */
module HouseholdActions {
  import opened Wrappers
  import Text
  import Json
  import opened Store
  import MealPlanActions
  import Invitations

  // ---------------------------------------------------------------- preference records

  /** A { key, value } record handed to the nested preferences create. */
  datatype PreferenceInput = PreferenceInput(key: string, value: string)

  /** The stored value of the diet record: JSON.stringify([dietType]) when dietType is truthy. */
  function DietRecord(dietType: Option<string>): Option<string> {
    if Text.Truthy(dietType) then Some(Json.StringifyStrings([dietType.value])) else None
  }

  /** The stored value of the meat-frequency record: JSON.stringify(meatFrequency) for an
      omnivore diet with a frequency. */
  function MeatRecord(dietType: Option<string>, meatFrequency: Option<int>): Option<string> {
    if dietType == Some("omnivore") && meatFrequency.Some? then Some(Json.StringifyInt(meatFrequency.value))
    else None
  }

  /** The stored value of the allergies record: JSON.stringify(allergies) when there are some. */
  function AllergyRecord(allergies: seq<string>): Option<string> {
    if |allergies| > 0 then Some(Json.StringifyStrings(allergies)) else None
  }

  /** The value recorded under each key; the three keys above are the only ones. */
  function Recorded(dietType: Option<string>, meatFrequency: Option<int>, allergies: seq<string>,
                    key: string): Option<string>
  {
    if key == "diet" then DietRecord(dietType)
    else if key == "meatFrequency" then MeatRecord(dietType, meatFrequency)
    else if key == "allergies" then AllergyRecord(allergies)
    else None
  }

  /** The position of a key in the order the records are pushed. */
  function KeyRank(key: string): nat {
    if key == "diet" then 0 else if key == "meatFrequency" then 1 else if key == "allergies" then 2 else 3
  }

  /** The value of the first record with this key. */
  function Lookup(prefs: seq<PreferenceInput>, key: string): (r: Option<string>)
    ensures r.None? <==> forall j :: 0 <= j < |prefs| ==> prefs[j].key != key
    ensures r.Some? ==> exists j :: 0 <= j < |prefs| && prefs[j] == PreferenceInput(key, r.value)
  {
    if prefs == [] then None
    else if prefs[0].key == key then Some(prefs[0].value)
    else
      var r := Lookup(prefs[1..], key);
      assert r.Some? ==> exists j :: 0 <= j < |prefs[1..]| && prefs[1..][j] == PreferenceInput(key, r.value);
      assert forall j :: 0 <= j < |prefs[1..]| ==> prefs[1..][j] == prefs[j + 1];
      r
  }

  /** Appending a record keeps the value of every key already present and adds the record's
      own key when it was absent. */
  lemma {:induction false} LookupAppend(prefs: seq<PreferenceInput>, x: PreferenceInput, key: string)
    ensures Lookup(prefs + [x], key) ==
      if Lookup(prefs, key).Some? then Lookup(prefs, key) else if x.key == key then Some(x.value) else None
  {
    if prefs != [] {
      assert (prefs + [x])[1..] == prefs[1..] + [x];
      LookupAppend(prefs[1..], x, key);
    }
  }

  /** The preference records both actions (and the registration endpoint) push: diet when the
      diet type is truthy, meatFrequency for an omnivore with a frequency, allergies when there
      are some, in that order, each key at most once. */
  method BuildPreferences(dietType: Option<string>, meatFrequency: Option<int>, allergies: seq<string>)
    returns (prefs: seq<PreferenceInput>)
    ensures forall key :: Lookup(prefs, key) == Recorded(dietType, meatFrequency, allergies, key)
    ensures forall i, j :: 0 <= i < j < |prefs| ==> KeyRank(prefs[i].key) < KeyRank(prefs[j].key)
    ensures |prefs| <= 3
  {
    var diet := DietRecord(dietType);
    var meat := MeatRecord(dietType, meatFrequency);
    var allergy := AllergyRecord(allergies);
    prefs := [];
    if diet.Some? {
      prefs := prefs + [PreferenceInput("diet", diet.value)];
    }
    assert prefs == Optional("diet", diet);
    if meat.Some? {
      prefs := prefs + [PreferenceInput("meatFrequency", meat.value)];
    }
    assert prefs == Optional("diet", diet) + Optional("meatFrequency", meat);
    if allergy.Some? {
      prefs := prefs + [PreferenceInput("allergies", allergy.value)];
    }
    assert prefs == Optional("diet", diet) + Optional("meatFrequency", meat) + Optional("allergies", allergy);
    RanksOfThree(diet, meat, allergy);
    forall key
      ensures Lookup(prefs, key) == Recorded(dietType, meatFrequency, allergies, key)
    {
      LookupThree(diet, meat, allergy, key);
    }
  }

  /** The record of a key when it has a value. */
  function Optional(key: string, v: Option<string>): seq<PreferenceInput> {
    if v.Some? then [PreferenceInput(key, v.value)] else []
  }

  /** The three optional records come in increasing key rank. */
  lemma RanksOfThree(diet: Option<string>, meat: Option<string>, allergy: Option<string>)
    ensures var prefs := Optional("diet", diet) + Optional("meatFrequency", meat) + Optional("allergies", allergy);
      |prefs| <= 3 && forall i, j :: 0 <= i < j < |prefs| ==> KeyRank(prefs[i].key) < KeyRank(prefs[j].key)
  {
    var prefs := Optional("diet", diet) + Optional("meatFrequency", meat) + Optional("allergies", allergy);
    assert KeyRank("diet") == 0 && KeyRank("meatFrequency") == 1 && KeyRank("allergies") == 2;
    assert forall i :: 0 <= i < |prefs| ==>
      prefs[i].key in ["diet", "meatFrequency", "allergies"];
  }

  /** The three optional records, in order, read back each key as its value. */
  lemma LookupThree(diet: Option<string>, meat: Option<string>, allergy: Option<string>, key: string)
    ensures Lookup(Optional("diet", diet) + Optional("meatFrequency", meat) + Optional("allergies", allergy), key) ==
      if key == "diet" then diet else if key == "meatFrequency" then meat else if key == "allergies" then allergy
      else None
  {
    var p1 := Optional("diet", diet);
    var p2 := p1 + Optional("meatFrequency", meat);
    if diet.Some? {
      LookupAppend([], PreferenceInput("diet", diet.value), key);
    }
    if meat.Some? {
      LookupAppend(p1, PreferenceInput("meatFrequency", meat.value), key);
    }
    if allergy.Some? {
      LookupAppend(p2, PreferenceInput("allergies", allergy.value), key);
    }
  }

  /** Read back as the meal-plan actions read them, the records parse to the diet array
      [dietType] (or the default empty array), the frequency for an omnivore (or undefined) and
      the array of exactly the allergies. */
  lemma {:induction false} RecordsReadBack(dietType: Option<string>, meatFrequency: Option<int>,
                                           allergies: seq<string>)
    ensures MealPlanActions.ParsedPreference(DietRecord(dietType), Some(Json.JArray([]))) ==
      Some(Some(Json.JArray(Json.JStrings(if Text.Truthy(dietType) then [dietType.value] else []))))
    ensures MealPlanActions.ParsedPreference(MeatRecord(dietType, meatFrequency), None) ==
      if dietType == Some("omnivore") && meatFrequency.Some? then Some(Some(Json.JNumber(meatFrequency.value as real)))
      else Some(None)
    ensures MealPlanActions.ParsedPreference(AllergyRecord(allergies), Some(Json.JArray([]))) ==
      Some(Some(Json.JArray(Json.JStrings(allergies))))
  {
    if Text.Truthy(dietType) {
      MealPlanActions.PreferenceListRoundTrip([dietType.value], Some(Json.JArray([])));
    }
    if dietType == Some("omnivore") && meatFrequency.Some? {
      MealPlanActions.PreferenceCountRoundTrip(meatFrequency.value);
    }
    if |allergies| > 0 {
      MealPlanActions.PreferenceListRoundTrip(allergies, Some(Json.JArray([])));
    }
  }

  /** A household whose stored rows are exactly the records reads each key back as the record
      with that key. */
  lemma ReadStored(preferences: map<Id, Preference>, n: nat, h: Id, prefs: seq<PreferenceInput>, ids: seq<Id>,
                   key: string)
    requires UniquePreferences(preferences) && KeysBelow(preferences, n)
    requires |ids| == |prefs|
    requires forall j :: 0 <= j < |ids| ==>
      ids[j] in preferences && preferences[ids[j]] == Preference(h, prefs[j].key, prefs[j].value)
    requires forall id :: id in preferences && preferences[id].householdId == h ==> id in ids
    ensures MealPlanActions.PreferenceValue(preferences, n, h, key) == Lookup(prefs, key)
  {
    var p := (id: Id, q: Preference) => q.householdId == h && q.key == key;
    var r := MealPlanActions.FirstWhere(preferences, n, p);
    match Lookup(prefs, key)
    case None =>
      forall id | id in preferences && id < n && preferences[id].householdId == h
        ensures preferences[id].key != key
      {
        var j :| 0 <= j < |ids| && ids[j] == id;
        assert preferences[id].key == prefs[j].key;
      }
    case Some(v) =>
      var j :| 0 <= j < |prefs| && prefs[j] == PreferenceInput(key, v);
      assert p(ids[j], preferences[ids[j]]);
      assert r.Some?;
      assert r.value == ids[j];
  }

  /** Reading a key back does not depend on how far the id counter has moved past the rows. */
  lemma PreferenceValueStable(preferences: map<Id, Preference>, n: nat, n': nat, h: Id, key: string)
    requires KeysBelow(preferences, n) && n <= n'
    ensures MealPlanActions.PreferenceValue(preferences, n, h, key) ==
            MealPlanActions.PreferenceValue(preferences, n', h, key)
  {
    var p := (id: Id, q: Preference) => q.householdId == h && q.key == key;
    var r := MealPlanActions.FirstWhere(preferences, n, p);
    var r' := MealPlanActions.FirstWhere(preferences, n', p);
    if r.Some? && r'.Some? {
      assert !(r.value < r'.value) && !(r'.value < r.value);
    }
  }

  /** A household with a row for a key reads that row's value back under the key. */
  lemma ReadOne(preferences: map<Id, Preference>, n: nat, h: Id, key: string, id: Id)
    requires UniquePreferences(preferences) && KeysBelow(preferences, n)
    requires id in preferences && preferences[id].householdId == h && preferences[id].key == key
    ensures MealPlanActions.PreferenceValue(preferences, n, h, key) == Some(preferences[id].value)
  {
    var p := (id: Id, q: Preference) => q.householdId == h && q.key == key;
    assert p(id, preferences[id]);
    var r := MealPlanActions.FirstWhere(preferences, n, p);
    assert r.Some?;
  }

  /** The nested create of the records for a household that has none yet. Afterwards the
      household reads each key back as its record, and no other household's rows change. */
  method StorePreferences(db: Db, h: Id, prefs: seq<PreferenceInput>)
    requires db.Valid() && h in db.households
    requires forall id :: id in db.preferences ==> db.preferences[id].householdId != h
    requires forall i, j :: 0 <= i < j < |prefs| ==> prefs[i].key != prefs[j].key
    modifies db`preferences, db`nextId
    ensures db.Valid() && old(db.nextId) <= db.nextId
    ensures forall key :: MealPlanActions.PreferenceValue(db.preferences, db.nextId, h, key) == Lookup(prefs, key)
    ensures Extends(old(db.preferences), db.preferences)
    ensures forall id :: id in db.preferences && id !in old(db.preferences) ==> db.preferences[id].householdId == h
  {
    ghost var ids: seq<Id> := [];
    for i := 0 to |prefs|
      invariant db.Valid() && old(db.nextId) <= db.nextId
      invariant |ids| == i && StoredAs(db.preferences, h, prefs, ids)
      invariant GrownFor(old(db.preferences), db.preferences, h)
    {
      KeyNotYetStored(db.preferences, h, prefs, ids);
      ghost var before := db.preferences;
      var id := CreatePreference(db, Preference(h, prefs[i].key, prefs[i].value));
      StoreStep(old(db.preferences), before, db.preferences, h, prefs, ids, id);
      ids := ids + [id];
    }
    forall key
      ensures MealPlanActions.PreferenceValue(db.preferences, db.nextId, h, key) == Lookup(prefs, key)
    {
      ReadStored(db.preferences, db.nextId, h, prefs, ids, key);
    }
  }

  /** The rows ids hold the first |ids| inputs for h, and h has no other rows. */
  ghost predicate StoredAs(preferences: map<Id, Preference>, h: Id, prefs: seq<PreferenceInput>, ids: seq<Id>)
    requires |ids| <= |prefs|
  {
    (forall j :: 0 <= j < |ids| ==>
      ids[j] in preferences && preferences[ids[j]] == Preference(h, prefs[j].key, prefs[j].value)) &&
    (forall id :: id in preferences && preferences[id].householdId == h ==> id in ids)
  }

  /** The rows only grew, and every new row belongs to h. */
  ghost predicate GrownFor(before: map<Id, Preference>, after: map<Id, Preference>, h: Id) {
    Extends(before, after) && forall id :: id in after && id !in before ==> after[id].householdId == h
  }

  /** With distinct keys, the next key is not among the rows stored for the earlier ones. */
  lemma KeyNotYetStored(preferences: map<Id, Preference>, h: Id, prefs: seq<PreferenceInput>, ids: seq<Id>)
    requires forall i, j :: 0 <= i < j < |prefs| ==> prefs[i].key != prefs[j].key
    requires |ids| < |prefs| && StoredAs(preferences, h, prefs, ids)
    ensures !HasPreference(preferences, h, prefs[|ids|].key)
  {
    forall k | k in preferences && preferences[k].householdId == h
      ensures preferences[k].key != prefs[|ids|].key
    {
      var j :| 0 <= j < |ids| && ids[j] == k;
      assert preferences[k].key == prefs[j].key;
    }
  }

  /** Storing the next input under a fresh id keeps both predicates. */
  lemma StoreStep(original: map<Id, Preference>, before: map<Id, Preference>, after: map<Id, Preference>,
                  h: Id, prefs: seq<PreferenceInput>, ids: seq<Id>, id: Id)
    requires |ids| < |prefs| && StoredAs(before, h, prefs, ids) && GrownFor(original, before, h)
    requires id !in before && after == before[id := Preference(h, prefs[|ids|].key, prefs[|ids|].value)]
    ensures StoredAs(after, h, prefs, ids + [id]) && GrownFor(original, after, h)
  {
  }

  // ---------------------------------------------------------------- creating a household

  /** An email address and a first name entered for a member to invite. */
  datatype MemberInput = MemberInput(email: string, firstName: string)

  /** The members to invite: those whose lowercased email differs from the creator's (already
      normalised) email, in their order. */
  function Invitees(members: seq<MemberInput>, creator: string): (r: seq<MemberInput>)
    ensures forall m :: m in r <==> m in members && Text.ToLower(m.email) != creator
    ensures |r| <= |members|
    ensures (forall m :: m in members ==> Text.ToLower(m.email) != creator) ==> r == members
  {
    if members == [] then []
    else if Text.ToLower(members[0].email) != creator then [members[0]] + Invitees(members[1..], creator)
    else Invitees(members[1..], creator)
  }

  datatype HouseholdError =
    | NotAuthenticated
    | EmailMismatch
    | AlreadyHasHousehold
    | UserNotFound          // the name update of a session user with no row throws
    | HouseholdNotFound
    | IngredientNotFound    // the foreign key of a new ban rejects it

  /** The household row both actions create; minDishware and prioritizeSeasonal default to
      true. */
  function NewHousehold(name: string, minDishware: Option<bool>, prioritizeSeasonal: Option<bool>): (r: Household)
    ensures r.name == name && r.mealsPerWeek.None?
    ensures r.minDishware == (minDishware != Some(false)) && r.prioritizeSeasonal == (prioritizeSeasonal != Some(false))
  {
    Household(name, None,
      if prioritizeSeasonal.Some? then prioritizeSeasonal.value else true,
      if minDishware.Some? then minDishware.value else true)
  }

  /** The tables a successful creation leaves (primed) from the tables before: the new
      household, the user as its only member with the role "owner" and in no other household,
      and its preferences, read with the id counter n, giving back the records. */
  ghost predicate Founded(households: map<Id, Household>, members: map<Id, Membership>,
                          households': map<Id, Household>, members': map<Id, Membership>,
                          preferences': map<Id, Preference>, n: nat, h: Id, userId: Id, row: Household,
                          dietType: Option<string>, meatFrequency: Option<int>, allergies: seq<string>)
  {
    h !in households && households' == households[h := row] &&
    (exists m: Id :: m !in members && members' == members[m := Membership(h, userId, "owner")]) &&
    (forall k :: k in members' && members'[k].userId == userId ==> members'[k].householdId == h) &&
    forall key :: MealPlanActions.PreferenceValue(preferences', n, h, key) ==
      Recorded(dietType, meatFrequency, allergies, key)
  }

  /** Founded does not depend on how far the id counter has moved past the preference rows. */
  lemma FoundedStable(households: map<Id, Household>, members: map<Id, Membership>,
                      households': map<Id, Household>, members': map<Id, Membership>,
                      preferences': map<Id, Preference>, n: nat, n': nat, h: Id, userId: Id, row: Household,
                      dietType: Option<string>, meatFrequency: Option<int>, allergies: seq<string>)
    requires Founded(households, members, households', members', preferences', n, h, userId, row,
                     dietType, meatFrequency, allergies)
    requires KeysBelow(preferences', n) && n <= n'
    ensures Founded(households, members, households', members', preferences', n', h, userId, row,
                    dietType, meatFrequency, allergies)
  {
    forall key
      ensures MealPlanActions.PreferenceValue(preferences', n', h, key) ==
              Recorded(dietType, meatFrequency, allergies, key)
    {
      PreferenceValueStable(preferences', n, n', h, key);
    }
  }

  /** The writes shared by both actions, for a user in no household: the household, the owner
      membership and the preference records. */
  method Found(db: Db, userId: Id, row: Household, dietType: Option<string>, meatFrequency: Option<int>,
               allergies: seq<string>)
    returns (h: Id)
    requires db.Valid() && !db.HasHousehold(userId)
    modifies db`households, db`members, db`preferences, db`nextId
    ensures db.Valid() && old(db.nextId) <= db.nextId
    ensures Founded(old(db.households), old(db.members), db.households, db.members, db.preferences, db.nextId,
                    h, userId, row, dietType, meatFrequency, allergies)
    ensures Extends(old(db.preferences), db.preferences)
  {
    var prefs := BuildPreferences(dietType, meatFrequency, allergies);
    h := CreateHousehold(db, row);
    assert forall k :: k in db.members ==> db.members[k].userId != userId;
    var m := AddMember(db, h, userId, "owner");
    assert forall k :: k in db.members && db.members[k].userId == userId ==> db.members[k].householdId == h;
    StorePreferences(db, h, prefs);
  }

  /** createHousehold: the session must hold a user id and an email, and the user must be in
      no household yet; no meat frequency is recorded. A refusal changes nothing. */
  method CreateHouseholdFor(db: Db, session: Option<Invitations.Session>, name: string, dietType: Option<string>,
                            allergies: seq<string>, minDishware: Option<bool>, prioritizeSeasonal: Option<bool>)
    returns (r: Result<Id, HouseholdError>)
    requires db.Valid()
    modifies db`households, db`members, db`preferences, db`nextId
    ensures db.Valid()
    ensures session.None? || !Text.Truthy(session.value.email) <==> r == Failure(NotAuthenticated)
    ensures r.Failure? ==> r.error != NotAuthenticated ==> r == Failure(AlreadyHasHousehold)
    ensures r == Failure(AlreadyHasHousehold) <==>
      session.Some? && Text.Truthy(session.value.email) && old(db.HasHousehold(session.value.userId))
    ensures r.Failure? ==>
      db.households == old(db.households) && db.members == old(db.members) && db.preferences == old(db.preferences)
    ensures r.Success? ==>
      Founded(old(db.households), old(db.members), db.households, db.members, db.preferences, db.nextId,
              r.value, session.value.userId, NewHousehold(name, minDishware, prioritizeSeasonal),
              dietType, None, allergies)
  {
    if session.None? || !Text.Truthy(session.value.email) {
      return Failure(NotAuthenticated);
    }
    var has := HasHouseholdQuery(db, session.value.userId);
    if has {
      return Failure(AlreadyHasHousehold);
    }
    var h := Found(db, session.value.userId, NewHousehold(name, minDishware, prioritizeSeasonal), dietType, None,
                   allergies);
    r := Success(h);
  }

  /** findFirst on households with a member row of the user. */
  method HasHouseholdQuery(db: Db, userId: Id) returns (b: bool)
    ensures b == db.HasHousehold(userId)
  {
    b := exists id :: id in db.members && db.members[id].userId == userId;
  }

  /** The inputs of createHouseholdAfterAuth. */
  datatype Onboarding = Onboarding(
    householdName: string,
    creatorEmail: string,
    creatorFirstName: Option<string>,
    dietType: Option<string>,
    meatFrequency: Option<int>,
    allergies: seq<string>,
    minDishware: Option<bool>,
    prioritizeSeasonal: Option<bool>,
    memberEmails: seq<MemberInput>)

  /** The refusals of createHouseholdAfterAuth before it writes anything, in its order. */
  function AfterAuthRefusal(db: Db, session: Option<Invitations.Session>, data: Onboarding): (r: Option<HouseholdError>)
    reads db
    ensures r.None? ==>
      session.Some? && Text.Truthy(session.value.email) &&
      Text.ToLower(session.value.email.value) == Text.ToLower(data.creatorEmail) &&
      !db.HasHousehold(session.value.userId)
    ensures r == Some(EmailMismatch) ==>
      session.Some? && session.value.email.Some? &&
      Text.ToLower(session.value.email.value) != Text.ToLower(data.creatorEmail)
  {
    if session.None? || !Text.Truthy(session.value.email) then Some(NotAuthenticated)
    else if Text.ToLower(session.value.email.value) != Text.ToLower(data.creatorEmail) then Some(EmailMismatch)
    else if db.HasHousehold(session.value.userId) then Some(AlreadyHasHousehold)
    else if Text.Truthy(data.creatorFirstName) && session.value.userId !in db.users then Some(UserNotFound)
    else None
  }

  /** createHouseholdAfterAuth. After the checks, the user's name is set when a first name is
      given, the household is founded with all three kinds of records, and every member whose
      email is not the session's (compared lowercased) is invited in turn; an invitation that
      fails is skipped and the others still run. Invitations touch only rows of the new
      household. The creator owns the new household, so every attempt is Attempted: it fails
      with AlreadyMember exactly when the address is a member's, and otherwise stores an
      invitation of the household under the address unless the token is taken. */
  method CreateHouseholdAfterAuth(db: Db, session: Option<Invitations.Session>, data: Onboarding, now: int,
                                  baseUrl: string, tokens: nat -> string, delivered: nat -> bool)
    returns (r: Result<Id, HouseholdError>, attempts: seq<Result<Id, Invitations.InvitationError>>,
             sent: seq<Option<Invitations.InvitationEmail>>)
    requires db.Valid()
    modifies db`users, db`households, db`members, db`preferences, db`invitations, db`nextId
    ensures db.Valid()
    ensures var refusal := old(AfterAuthRefusal(db, session, data));
      (refusal.Some? <==> r.Failure?) && (refusal.Some? ==> r == Failure(refusal.value))
    ensures r.Failure? ==>
      attempts == [] && sent == [] && db.users == old(db.users) && db.households == old(db.households) &&
      db.members == old(db.members) && db.preferences == old(db.preferences) &&
      db.invitations == old(db.invitations)
    ensures r.Success? ==>
      var userId := session.value.userId;
      (Text.Truthy(data.creatorFirstName) ==>
        db.users == old(db.users)[userId := old(db.users)[userId].(name := data.creatorFirstName)]) &&
      (!Text.Truthy(data.creatorFirstName) ==> db.users == old(db.users)) &&
      Founded(old(db.households), old(db.members), db.households, db.members, db.preferences, db.nextId,
              r.value, userId, NewHousehold(data.householdName, data.minDishware, data.prioritizeSeasonal),
              data.dietType, data.meatFrequency, data.allergies) &&
      (forall id :: id in old(db.invitations) ==> id in db.invitations && db.invitations[id] == old(db.invitations)[id])
    ensures r.Success? ==>
      var invitees := Invitees(data.memberEmails, Text.ToLower(session.value.email.value));
      |attempts| == |invitees| &&
      AllAttempted(db.invitations, db.users, db.members, r.value, data.householdName, invitees, baseUrl, tokens,
                   delivered, attempts, sent)
  {
    attempts, sent := [], [];
    var refusal := AfterAuthRefusal(db, session, data);
    if refusal.Some? {
      return Failure(refusal.value), [], [];
    }
    var s := session.value;
    var h := Onboard(db, s.userId, data);
    r := Success(h);
    ghost var n0 := db.nextId;
    var invitees := Invitees(data.memberEmails, Text.ToLower(s.email.value));
    assert CallerBelongs(db, session, h) by {
      var m: Id :| m !in old(db.members) && db.members == old(db.members)[m := Membership(h, s.userId, "owner")];
      assert m in db.members && db.members[m].householdId == h && db.members[m].userId == s.userId;
    }
    attempts, sent := InviteAll(db, session, h, invitees, now, baseUrl, tokens, delivered);
    FoundedStable(old(db.households), old(db.members), db.households, db.members, db.preferences, n0, db.nextId,
                  h, s.userId, NewHousehold(data.householdName, data.minDishware, data.prioritizeSeasonal),
                  data.dietType, data.meatFrequency, data.allergies);
  }

  /** The writes of createHouseholdAfterAuth before the invitations: the user's name when a
      first name is given, then the household. */
  method Onboard(db: Db, userId: Id, data: Onboarding) returns (h: Id)
    requires db.Valid() && !db.HasHousehold(userId)
    requires Text.Truthy(data.creatorFirstName) ==> userId in db.users
    modifies db`users, db`households, db`members, db`preferences, db`nextId
    ensures db.Valid() && h in db.households
    ensures Text.Truthy(data.creatorFirstName) ==>
      db.users == old(db.users)[userId := old(db.users)[userId].(name := data.creatorFirstName)]
    ensures !Text.Truthy(data.creatorFirstName) ==> db.users == old(db.users)
    ensures Founded(old(db.households), old(db.members), db.households, db.members, db.preferences, db.nextId,
                    h, userId, NewHousehold(data.householdName, data.minDishware, data.prioritizeSeasonal),
                    data.dietType, data.meatFrequency, data.allergies)
    ensures db.invitations == old(db.invitations)
  {
    if Text.Truthy(data.creatorFirstName) {
      UpdateUser(db, userId, db.users[userId].(name := data.creatorFirstName));
    }
    h := Found(db, userId, NewHousehold(data.householdName, data.minDishware, data.prioritizeSeasonal),
               data.dietType, data.meatFrequency, data.allergies);
  }

  /** The caller may invite into the household: signed in and a member of it. */
  predicate CallerBelongs(db: Db, session: Option<Invitations.Session>, h: Id)
    reads db
  {
    session.Some? && h in db.households && db.IsMember(h, session.value.userId)
  }

  /** One inviteToHousehold of the loop, made by a caller who belongs to the household, seen in
      the invitation rows after the loop: it fails with AlreadyMember exactly when the address is
      a member's, and otherwise only on a taken token or a failed delivery. The email is prepared
      exactly when the invitation was upserted; a row of the household then stays filed under
      the address, and the attempt succeeds, with the id of such a row, exactly when the email
      was delivered. */
  ghost predicate Attempted(invitations: map<Id, Invitation>, h: Id, householdName: string, email: string,
                            link: string, alreadyMember: bool, delivered: bool,
                            attempt: Result<Id, Invitations.InvitationError>,
                            sent: Option<Invitations.InvitationEmail>)
  {
    (attempt == Failure(Invitations.AlreadyMember) <==> alreadyMember) &&
    (attempt.Failure? ==>
      attempt.error == Invitations.AlreadyMember || attempt.error == Invitations.TokenTaken ||
      attempt.error == Invitations.EmailFailed) &&
    (sent.Some? <==> attempt.Success? || attempt.error == Invitations.EmailFailed) &&
    (sent.Some? ==>
      sent.value.to == email && sent.value.link == link && sent.value.householdName == householdName &&
      (attempt.Success? <==> delivered) && Invitations.Filed(invitations, h, email)) &&
    (attempt.Success? ==>
      attempt.value in invitations && invitations[attempt.value].householdId == h &&
      invitations[attempt.value].email == email)
  }

  /** A later upsert keeps what an earlier attempt left filed. */
  lemma AttemptedKept(before: map<Id, Invitation>, after: map<Id, Invitation>, h: Id, householdName: string,
                      email: string, link: string, alreadyMember: bool, delivered: bool,
                      attempt: Result<Id, Invitations.InvitationError>, sent: Option<Invitations.InvitationEmail>)
    requires Invitations.KeepsPairs(before, after)
    requires Attempted(before, h, householdName, email, link, alreadyMember, delivered, attempt, sent)
    ensures Attempted(after, h, householdName, email, link, alreadyMember, delivered, attempt, sent)
  {
    if sent.Some? {
      var k :| k in before && before[k].householdId == h && before[k].email == email;
      assert k in after && after[k].householdId == h && after[k].email == email;
    }
  }

  /** The first n attempts of the loop, each Attempted for its invitee, token and delivery. */
  ghost predicate AllAttempted(invitations: map<Id, Invitation>, users: map<Id, User>, members: map<Id, Membership>,
                               h: Id, householdName: string, invitees: seq<MemberInput>, baseUrl: string,
                               tokens: nat -> string, delivered: nat -> bool,
                               attempts: seq<Result<Id, Invitations.InvitationError>>,
                               sent: seq<Option<Invitations.InvitationEmail>>)
  {
    |attempts| == |sent| <= |invitees| &&
    forall k :: 0 <= k < |attempts| ==>
      Attempted(invitations, h, householdName, invitees[k].email, baseUrl + "/invite/" + tokens(k),
                Invitations.EmailIsMember(users, members, h, invitees[k].email), delivered(k), attempts[k], sent[k])
  }

  /** One more attempt, made after the earlier ones, keeps them all Attempted. */
  lemma AllAttemptedStep(before: map<Id, Invitation>, after: map<Id, Invitation>, users: map<Id, User>,
                         members: map<Id, Membership>, h: Id, householdName: string, invitees: seq<MemberInput>,
                         baseUrl: string, tokens: nat -> string, delivered: nat -> bool,
                         attempts: seq<Result<Id, Invitations.InvitationError>>,
                         sent: seq<Option<Invitations.InvitationEmail>>,
                         outcome: Result<Id, Invitations.InvitationError>, email: Option<Invitations.InvitationEmail>)
    requires AllAttempted(before, users, members, h, householdName, invitees, baseUrl, tokens, delivered, attempts, sent)
    requires Invitations.KeepsPairs(before, after) && |attempts| < |invitees|
    requires var i := |attempts|;
      Attempted(after, h, householdName, invitees[i].email, baseUrl + "/invite/" + tokens(i),
                Invitations.EmailIsMember(users, members, h, invitees[i].email), delivered(i), outcome, email)
    ensures AllAttempted(after, users, members, h, householdName, invitees, baseUrl, tokens, delivered,
                         attempts + [outcome], sent + [email])
  {
    forall k | 0 <= k < |attempts|
      ensures Attempted(after, h, householdName, invitees[k].email, baseUrl + "/invite/" + tokens(k),
                        Invitations.EmailIsMember(users, members, h, invitees[k].email), delivered(k),
                        attempts[k], sent[k])
    {
      AttemptedKept(before, after, h, householdName, invitees[k].email, baseUrl + "/invite/" + tokens(k),
                    Invitations.EmailIsMember(users, members, h, invitees[k].email), delivered(k), attempts[k], sent[k]);
    }
  }

  /** One inviteToHousehold of the loop, read as Attempted when the caller belongs to the
      household and as the caller's refusal otherwise. */
  method InviteOne(db: Db, session: Option<Invitations.Session>, h: Id, email: string, token: string, now: int,
                   baseUrl: string, delivered: bool)
    returns (outcome: Result<Id, Invitations.InvitationError>, sent: Option<Invitations.InvitationEmail>)
    requires db.Valid() && h in db.households
    modifies db`invitations, db`nextId
    ensures db.Valid() && old(db.nextId) <= db.nextId
    ensures Invitations.TouchesOnly(old(db.invitations), db.invitations, h)
    ensures Invitations.KeepsPairs(old(db.invitations), db.invitations)
    ensures !old(CallerBelongs(db, session, h)) ==>
      db.invitations == old(db.invitations) && sent.None? &&
      outcome == Failure(if session.None? then Invitations.NotAuthenticated else Invitations.HouseholdNotFound)
    ensures old(CallerBelongs(db, session, h)) ==>
      Attempted(db.invitations, h, db.households[h].name, email, baseUrl + "/invite/" + token,
                Invitations.EmailIsMember(db.users, db.members, h, email), delivered, outcome, sent)
  {
    outcome, sent := Invitations.InviteToHousehold(db, session, h, email, token, now, baseUrl, delivered);
  }

  /** The loop over the members to invite: each inviteToHousehold runs and its outcome, success
      or error, is kept with the email it prepared; no error stops the loop. A caller outside the
      household is refused every time and nothing is stored; for a caller inside it, attempt i is
      Attempted for invitee i with the i-th token and delivery. */
  method InviteAll(db: Db, session: Option<Invitations.Session>, h: Id, invitees: seq<MemberInput>, now: int,
                   baseUrl: string, tokens: nat -> string, delivered: nat -> bool)
    returns (attempts: seq<Result<Id, Invitations.InvitationError>>, sent: seq<Option<Invitations.InvitationEmail>>)
    requires db.Valid() && h in db.households
    requires forall id :: id in db.invitations ==> db.invitations[id].householdId != h
    modifies db`invitations, db`nextId
    ensures db.Valid() && |attempts| == |invitees| && |sent| == |invitees| && old(db.nextId) <= db.nextId
    ensures forall id :: id in old(db.invitations) ==> id in db.invitations && db.invitations[id] == old(db.invitations)[id]
    ensures forall id :: id in db.invitations && id !in old(db.invitations) ==> db.invitations[id].householdId == h
    ensures !old(CallerBelongs(db, session, h)) ==>
      db.invitations == old(db.invitations) &&
      forall i :: 0 <= i < |invitees| ==>
        sent[i].None? &&
        attempts[i] == Failure(if session.None? then Invitations.NotAuthenticated else Invitations.HouseholdNotFound)
    ensures old(CallerBelongs(db, session, h)) ==>
      AllAttempted(db.invitations, db.users, db.members, h, db.households[h].name, invitees, baseUrl, tokens,
                   delivered, attempts, sent)
  {
    attempts := [];
    sent := [];
    ghost var belongs := CallerBelongs(db, session, h);
    for i := 0 to |invitees|
      invariant db.Valid() && h in db.households && |attempts| == i && |sent| == i && old(db.nextId) <= db.nextId
      invariant belongs == CallerBelongs(db, session, h)
      invariant Invitations.TouchesOnly(old(db.invitations), db.invitations, h)
      invariant !belongs ==>
        db.invitations == old(db.invitations) &&
        forall k :: 0 <= k < i ==>
          sent[k].None? &&
          attempts[k] == Failure(if session.None? then Invitations.NotAuthenticated else Invitations.HouseholdNotFound)
      invariant belongs ==>
        AllAttempted(db.invitations, db.users, db.members, h, db.households[h].name, invitees, baseUrl, tokens,
                     delivered, attempts, sent)
    {
      ghost var before := db.invitations;
      var outcome, email := InviteOne(db, session, h, invitees[i].email, tokens(i), now, baseUrl, delivered(i));
      Invitations.TouchesOnlyTwice(old(db.invitations), before, db.invitations, h);
      if belongs {
        AllAttemptedStep(before, db.invitations, db.users, db.members, h, db.households[h].name, invitees, baseUrl,
                         tokens, delivered, attempts, sent, outcome, email);
      }
      attempts := attempts + [outcome];
      sent := sent + [email];
    }
  }

  // ---------------------------------------------------------------- the two upserts

  /** getHousehold: the household exists and the user belongs to it. */
  predicate CanAccess(db: Db, userId: Id, h: Id)
    reads db
  {
    h in db.households && db.IsMember(h, userId)
  }

  /** The reason a ban keeps after the upsert's update branch. Prisma leaves a field whose value
      is undefined out of the update, so an omitted reason (None) keeps the stored one. */
  function KeptReason(stored: Option<string>, reason: Option<string>): Option<string> {
    if reason.Some? then reason else stored
  }

  /** banIngredient: for a member of the household, the (household, ingredient) ban is created
      (with no reason when none is given) or its author replaced, and its reason too when one is
      given, so banning twice leaves one row. */
  method BanIngredient(db: Db, userId: Option<Id>, h: Id, ingredientId: Id, reason: Option<string>)
    returns (r: Result<Id, HouseholdError>)
    requires db.Valid()
    modifies db`bans, db`nextId
    ensures db.Valid()
    ensures userId.None? <==> r == Failure(NotAuthenticated)
    ensures r == Failure(HouseholdNotFound) <==> userId.Some? && !old(CanAccess(db, userId.value, h))
    ensures r == Failure(IngredientNotFound) <==>
      userId.Some? && old(CanAccess(db, userId.value, h)) && ingredientId !in db.ingredients
    ensures r.Failure? ==> db.bans == old(db.bans)
    ensures r.Success? && r.value !in old(db.bans) ==>
      db.bans == old(db.bans)[r.value := Ban(h, ingredientId, reason, userId.value)]
    ensures r.Success? && r.value in old(db.bans) ==>
      db.bans == old(db.bans)[r.value := Ban(h, ingredientId, KeptReason(old(db.bans)[r.value].reason, reason), userId.value)]
    ensures r.Success? ==> (r.value in old(db.bans) <==> old(HasBan(db.bans, h, ingredientId)))
  {
    if userId.None? {
      return Failure(NotAuthenticated);
    }
    var asMember := FindMembership(db, userId.value, h);
    if h !in db.households || asMember.None? {
      return Failure(HouseholdNotFound);
    }
    if ingredientId !in db.ingredients {
      return Failure(IngredientNotFound);
    }
    var found := FindBan(db, h, ingredientId);
    var id;
    if found.Some? {
      id := found.value;
      UpdateBan(db, id, Ban(h, ingredientId, KeptReason(db.bans[id].reason, reason), userId.value));
    } else {
      id := CreateBan(db, Ban(h, ingredientId, reason, userId.value));
    }
    r := Success(id);
  }

  /** updatePreference: for a member of the household, the (household, key) preference is
      created or its value replaced; afterwards the household reads the key back as the value,
      and every other preference row is unchanged. */
  method UpdatePreference(db: Db, userId: Option<Id>, h: Id, key: string, value: string)
    returns (r: Result<Id, HouseholdError>)
    requires db.Valid()
    modifies db`preferences, db`nextId
    ensures db.Valid()
    ensures userId.None? <==> r == Failure(NotAuthenticated)
    ensures r == Failure(HouseholdNotFound) <==> userId.Some? && !old(CanAccess(db, userId.value, h))
    ensures r.Failure? ==> db.preferences == old(db.preferences)
    ensures r.Success? ==>
      db.preferences == old(db.preferences)[r.value := Preference(h, key, value)] &&
      MealPlanActions.PreferenceValue(db.preferences, db.nextId, h, key) == Some(value)
  {
    if userId.None? {
      return Failure(NotAuthenticated);
    }
    var asMember := FindMembership(db, userId.value, h);
    if h !in db.households || asMember.None? {
      return Failure(HouseholdNotFound);
    }
    var row := Preference(h, key, value);
    var found := FindPreference(db, h, key);
    var id;
    if found.Some? {
      id := found.value;
      UpdatePreferenceRow(db, id, row);
    } else {
      id := CreatePreference(db, row);
    }
    r := Success(id);
    ReadOne(db.preferences, db.nextId, h, key, id);
  }
}
