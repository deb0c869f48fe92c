/** The database the server actions work on (the Prisma schema's tables), as one object whose
    tables are maps from row id to row. Ids are drawn from one counter, so a created row never
    reuses an id. The unique indexes the actions rely on are part of the store's invariant. */
module Store {
  import opened Wrappers

  type Id = nat

  datatype User = User(email: string, name: Option<string>, passwordHash: Option<string>)

  datatype Household = Household(
    name: string,
    mealsPerWeek: Option<int>,
    prioritizeSeasonal: bool,
    minDishware: bool)

  datatype Membership = Membership(householdId: Id, userId: Id, role: string)

  datatype Invitation = Invitation(
    householdId: Id,
    email: string,
    token: string,
    invitedBy: Id,
    expiresAt: int,
    acceptedAt: Option<int>)

  datatype Preference = Preference(householdId: Id, key: string, value: string)

  datatype Ban = Ban(householdId: Id, ingredientId: Id, reason: Option<string>, bannedBy: Id)

  /** A calendar constraint of a household (its date as an instant). */
  datatype CalendarConstraint = CalendarConstraint(
    householdId: Id,
    date: int,
    kind: string,
    description: Option<string>)

  datatype IngredientRow = IngredientRow(name: string, category: string, unit: string)

  datatype RecipeLine = RecipeLine(ingredientId: Id, quantity: real, unit: string, notes: Option<string>)

  datatype Recipe = Recipe(
    name: string,
    description: Option<string>,
    instructions: string,
    dishwareTips: string,
    prepTime: real,
    cookTime: real,
    servings: real,
    tags: string,
    aiGenerated: bool,
    aiPromptVersion: string,
    lines: seq<RecipeLine>)

  datatype MealPlan = MealPlan(householdId: Id, weekStart: int, weekEnd: int)

  /** A meal slot of a plan; an empty slot has no recipe and no preparation time. */
  datatype Meal = Meal(
    mealPlanId: Id,
    date: int,
    mealType: string,
    recipeId: Option<Id>,
    prepTime: Option<real>)

  predicate KeysBelow<T>(m: map<Id, T>, n: nat) {
    forall id :: id in m ==> id < n
  }

  /** @@unique([email]) on users. */
  predicate UniqueEmails(users: map<Id, User>) {
    forall a, b :: (a in users && b in users && users[a].email == users[b].email) ==> a == b
  }

  /** @@unique([userId, householdId]) on household members. */
  predicate UniqueMemberships(members: map<Id, Membership>) {
    forall a, b ::
      (a in members && b in members &&
       members[a].householdId == members[b].householdId && members[a].userId == members[b].userId)
      ==> a == b
  }

  /** @@unique([householdId, email]) and @@unique([token]) on invitations. */
  predicate UniqueInvitations(invitations: map<Id, Invitation>) {
    (forall a, b ::
      (a in invitations && b in invitations &&
       invitations[a].householdId == invitations[b].householdId &&
       invitations[a].email == invitations[b].email)
      ==> a == b) &&
    (forall a, b ::
      (a in invitations && b in invitations && invitations[a].token == invitations[b].token)
      ==> a == b)
  }

  /** @@unique([householdId, key]) on preferences. */
  predicate UniquePreferences(preferences: map<Id, Preference>) {
    forall a, b ::
      (a in preferences && b in preferences &&
       preferences[a].householdId == preferences[b].householdId &&
       preferences[a].key == preferences[b].key)
      ==> a == b
  }

  /** @@unique([householdId, ingredientId]) on banned ingredients. */
  predicate UniqueBans(bans: map<Id, Ban>) {
    forall a, b ::
      (a in bans && b in bans &&
       bans[a].householdId == bans[b].householdId && bans[a].ingredientId == bans[b].ingredientId)
      ==> a == b
  }

  /** @@unique([name]) on ingredients. */
  predicate UniqueIngredientNames(ingredients: map<Id, IngredientRow>) {
    forall a, b ::
      (a in ingredients && b in ingredients && ingredients[a].name == ingredients[b].name)
      ==> a == b
  }

  /** @@unique([householdId, weekStart]) on meal plans. */
  predicate UniquePlanWeeks(plans: map<Id, MealPlan>) {
    forall a, b ::
      (a in plans && b in plans &&
       plans[a].householdId == plans[b].householdId && plans[a].weekStart == plans[b].weekStart)
      ==> a == b
  }

  /** Every membership, invitation, preference and ban names an existing household (the foreign
      keys), so a newly created household starts with none of them. */
  predicate HouseholdKeys(households: map<Id, Household>, members: map<Id, Membership>,
                          invitations: map<Id, Invitation>, preferences: map<Id, Preference>, bans: map<Id, Ban>) {
    (forall id :: id in members ==> members[id].householdId in households) &&
    (forall id :: id in invitations ==> invitations[id].householdId in households) &&
    (forall id :: id in preferences ==> preferences[id].householdId in households) &&
    (forall id :: id in bans ==> bans[id].householdId in households)
  }

  /** Every recipe a meal names exists. */
  predicate MealRecipesExist(meals: map<Id, Meal>, recipes: map<Id, Recipe>) {
    forall id :: id in meals && meals[id].recipeId.Some? ==> meals[id].recipeId.value in recipes
  }

  /** Every row of a is in b, unchanged: b only added rows. */
  predicate Extends<T(==)>(a: map<Id, T>, b: map<Id, T>) {
    forall id :: id in a ==> id in b && b[id] == a[id]
  }

  class Db {
    var users: map<Id, User>
    var households: map<Id, Household>
    var members: map<Id, Membership>
    var invitations: map<Id, Invitation>
    var preferences: map<Id, Preference>
    var bans: map<Id, Ban>
    var constraints: map<Id, CalendarConstraint>
    var ingredients: map<Id, IngredientRow>
    var recipes: map<Id, Recipe>
    var plans: map<Id, MealPlan>
    var meals: map<Id, Meal>
    var nextId: Id

    /** Ids below the counter, the unique indexes, meals naming existing recipes, and the household foreign
        keys. */
    ghost predicate Valid()
      reads this
    {
      KeysBelow(users, nextId) && KeysBelow(households, nextId) && KeysBelow(members, nextId) &&
      KeysBelow(invitations, nextId) && KeysBelow(preferences, nextId) && KeysBelow(bans, nextId) &&
      KeysBelow(constraints, nextId) && KeysBelow(ingredients, nextId) && KeysBelow(recipes, nextId) &&
      KeysBelow(plans, nextId) && KeysBelow(meals, nextId) &&
      UniqueEmails(users) && UniqueMemberships(members) && UniqueInvitations(invitations) &&
      UniquePreferences(preferences) && UniqueBans(bans) && UniqueIngredientNames(ingredients) &&
      UniquePlanWeeks(plans) && MealRecipesExist(meals, recipes) &&
      HouseholdKeys(households, members, invitations, preferences, bans)
    }

    constructor()
      ensures Valid()
      ensures users == map[] && households == map[] && members == map[] && invitations == map[]
      ensures preferences == map[] && bans == map[] && constraints == map[] && ingredients == map[]
      ensures recipes == map[] && plans == map[] && meals == map[] && nextId == 0
    {
      users, households, members, invitations := map[], map[], map[], map[];
      preferences, bans, constraints, ingredients := map[], map[], map[], map[];
      recipes, plans, meals, nextId := map[], map[], map[], 0;
    }

    /** The user belongs to the household. */
    predicate IsMember(householdId: Id, userId: Id)
      reads this
    {
      exists id :: id in members && members[id].householdId == householdId && members[id].userId == userId
    }

    /** The user belongs to some household. */
    predicate HasHousehold(userId: Id)
      reads this
    {
      exists id :: id in members && members[id].userId == userId
    }
  }

  /** A fresh id: the counter's value, which no row holds yet. */
  method NewId(db: Db) returns (id: Id)
    modifies db`nextId
    ensures id == old(db.nextId) && db.nextId == id + 1
  {
    id := db.nextId;
    db.nextId := db.nextId + 1;
  }

  /** findUnique on users by email. */
  method FindUserByEmail(db: Db, email: string) returns (r: Option<Id>)
    requires db.Valid()
    ensures r.Some? ==> r.value in db.users && db.users[r.value].email == email
    ensures r.None? ==> forall id :: id in db.users ==> db.users[id].email != email
  {
    if id :| id in db.users && db.users[id].email == email {
      r := Some(id);
    } else {
      r := None;
    }
  }

  /** findUnique on household members by (userId, householdId). */
  method FindMembership(db: Db, userId: Id, householdId: Id) returns (r: Option<Id>)
    ensures r.Some? <==> db.IsMember(householdId, userId)
    ensures r.Some? ==>
      r.value in db.members && db.members[r.value].userId == userId &&
      db.members[r.value].householdId == householdId
  {
    if id :| id in db.members && db.members[id].householdId == householdId && db.members[id].userId == userId {
      r := Some(id);
    } else {
      r := None;
    }
  }

  /** create on household members: one new membership row, for a pair that has none yet. */
  method AddMember(db: Db, householdId: Id, userId: Id, role: string) returns (id: Id)
    requires db.Valid() && householdId in db.households && !db.IsMember(householdId, userId)
    modifies db`members, db`nextId
    ensures db.Valid()
    ensures id !in old(db.members)
    ensures db.members == old(db.members)[id := Membership(householdId, userId, role)]
    ensures db.IsMember(householdId, userId)
  {
    id := NewId(db);
    db.members := db.members[id := Membership(householdId, userId, role)];
    assert db.members[id].householdId == householdId && db.members[id].userId == userId;
  }

  /** create on meals; the recipe a meal names must exist (the foreign key). */
  method CreateMeal(db: Db, meal: Meal) returns (id: Id)
    requires db.Valid() && (meal.recipeId.Some? ==> meal.recipeId.value in db.recipes)
    modifies db`meals, db`nextId
    ensures db.Valid()
    ensures id == old(db.nextId) && id !in old(db.meals) && db.nextId == id + 1
    ensures db.meals == old(db.meals)[id := meal]
  {
    id := NewId(db);
    db.meals := db.meals[id := meal];
  }

  /** create on recipes. */
  method CreateRecipe(db: Db, recipe: Recipe) returns (id: Id)
    requires db.Valid()
    modifies db`recipes, db`nextId
    ensures db.Valid()
    ensures id == old(db.nextId) && id !in old(db.recipes) && db.nextId == id + 1
    ensures db.recipes == old(db.recipes)[id := recipe]
  {
    id := NewId(db);
    db.recipes := db.recipes[id := recipe];
  }

  /** create on ingredients, for a name no ingredient has yet (the unique index). */
  method CreateIngredient(db: Db, row: IngredientRow) returns (id: Id)
    requires db.Valid() && forall k :: k in db.ingredients ==> db.ingredients[k].name != row.name
    modifies db`ingredients, db`nextId
    ensures db.Valid()
    ensures id == old(db.nextId) && id !in old(db.ingredients) && db.nextId == id + 1
    ensures db.ingredients == old(db.ingredients)[id := row]
  {
    id := NewId(db);
    db.ingredients := db.ingredients[id := row];
  }

  /** create on users, for an email no user has yet (the unique index). */
  method CreateUser(db: Db, user: User) returns (id: Id)
    requires db.Valid() && forall k :: k in db.users ==> db.users[k].email != user.email
    modifies db`users, db`nextId
    ensures db.Valid()
    ensures id == old(db.nextId) && id !in old(db.users) && db.nextId == id + 1
    ensures db.users == old(db.users)[id := user]
  {
    id := NewId(db);
    db.users := db.users[id := user];
  }

  /** update on a user, keeping its email. */
  method UpdateUser(db: Db, id: Id, user: User)
    requires db.Valid() && id in db.users && db.users[id].email == user.email
    modifies db`users
    ensures db.Valid()
    ensures db.users == old(db.users)[id := user]
  {
    db.users := db.users[id := user];
  }

  /** create on households. */
  method CreateHousehold(db: Db, household: Household) returns (id: Id)
    requires db.Valid()
    modifies db`households, db`nextId
    ensures db.Valid()
    ensures id == old(db.nextId) && id !in old(db.households) && db.nextId == id + 1
    ensures db.households == old(db.households)[id := household]
  {
    id := NewId(db);
    db.households := db.households[id := household];
  }

  /** The household has a preference with this key. */
  predicate HasPreference(preferences: map<Id, Preference>, householdId: Id, key: string) {
    exists k :: k in preferences && preferences[k].householdId == householdId && preferences[k].key == key
  }

  /** findUnique on preferences by (householdId, key). */
  method FindPreference(db: Db, householdId: Id, key: string) returns (r: Option<Id>)
    ensures r.Some? <==> HasPreference(db.preferences, householdId, key)
    ensures r.Some? ==>
      r.value in db.preferences &&
      db.preferences[r.value].householdId == householdId && db.preferences[r.value].key == key
  {
    if id :| id in db.preferences && db.preferences[id].householdId == householdId && db.preferences[id].key == key {
      r := Some(id);
    } else {
      r := None;
    }
  }

  /** create on preferences, for a (householdId, key) pair that has none yet. */
  method CreatePreference(db: Db, p: Preference) returns (id: Id)
    requires db.Valid() && p.householdId in db.households && !HasPreference(db.preferences, p.householdId, p.key)
    modifies db`preferences, db`nextId
    ensures db.Valid()
    ensures id == old(db.nextId) && id !in old(db.preferences) && db.nextId == id + 1
    ensures db.preferences == old(db.preferences)[id := p]
  {
    id := NewId(db);
    db.preferences := db.preferences[id := p];
  }

  /** update on a preference, keeping its (householdId, key) pair. */
  method UpdatePreferenceRow(db: Db, id: Id, p: Preference)
    requires db.Valid() && id in db.preferences
    requires db.preferences[id].householdId == p.householdId && db.preferences[id].key == p.key
    modifies db`preferences
    ensures db.Valid()
    ensures db.preferences == old(db.preferences)[id := p]
  {
    db.preferences := db.preferences[id := p];
  }

  /** The household has banned the ingredient. */
  predicate HasBan(bans: map<Id, Ban>, householdId: Id, ingredientId: Id) {
    exists k :: k in bans && bans[k].householdId == householdId && bans[k].ingredientId == ingredientId
  }

  /** findUnique on banned ingredients by (householdId, ingredientId). */
  method FindBan(db: Db, householdId: Id, ingredientId: Id) returns (r: Option<Id>)
    ensures r.Some? <==> HasBan(db.bans, householdId, ingredientId)
    ensures r.Some? ==>
      r.value in db.bans &&
      db.bans[r.value].householdId == householdId && db.bans[r.value].ingredientId == ingredientId
  {
    if id :| id in db.bans && db.bans[id].householdId == householdId && db.bans[id].ingredientId == ingredientId {
      r := Some(id);
    } else {
      r := None;
    }
  }

  /** create on banned ingredients, for a pair that has none yet. */
  method CreateBan(db: Db, b: Ban) returns (id: Id)
    requires db.Valid() && b.householdId in db.households && !HasBan(db.bans, b.householdId, b.ingredientId)
    modifies db`bans, db`nextId
    ensures db.Valid()
    ensures id == old(db.nextId) && id !in old(db.bans) && db.nextId == id + 1
    ensures db.bans == old(db.bans)[id := b]
  {
    id := NewId(db);
    db.bans := db.bans[id := b];
  }

  /** update on a ban, keeping its (householdId, ingredientId) pair. */
  method UpdateBan(db: Db, id: Id, b: Ban)
    requires db.Valid() && id in db.bans
    requires db.bans[id].householdId == b.householdId && db.bans[id].ingredientId == b.ingredientId
    modifies db`bans
    ensures db.Valid()
    ensures db.bans == old(db.bans)[id := b]
  {
    db.bans := db.bans[id := b];
  }

  /** findUnique on invitations by token. */
  method FindInvitationByToken(db: Db, token: string) returns (r: Option<Id>)
    ensures r.Some? ==> r.value in db.invitations && db.invitations[r.value].token == token
    ensures r.None? ==> forall k :: k in db.invitations ==> db.invitations[k].token != token
  {
    if id :| id in db.invitations && db.invitations[id].token == token {
      r := Some(id);
    } else {
      r := None;
    }
  }

  /** The invitation with this token, if any (tokens are unique). */
  ghost function TokenRow(invitations: map<Id, Invitation>, token: string): Option<Invitation> {
    if k :| k in invitations && invitations[k].token == token then Some(invitations[k]) else None
  }

  /** The user with this email, if any (emails are unique). */
  ghost function EmailRow(users: map<Id, User>, email: string): Option<User> {
    if k :| k in users && users[k].email == email then Some(users[k]) else None
  }

  /** findUnique on invitations by (householdId, email). */
  method FindInvitation(db: Db, householdId: Id, email: string) returns (r: Option<Id>)
    ensures r.Some? ==>
      r.value in db.invitations &&
      db.invitations[r.value].householdId == householdId && db.invitations[r.value].email == email
    ensures r.None? ==> forall k :: k in db.invitations ==>
      !(db.invitations[k].householdId == householdId && db.invitations[k].email == email)
  {
    if id :| id in db.invitations && db.invitations[id].householdId == householdId && db.invitations[id].email == email {
      r := Some(id);
    } else {
      r := None;
    }
  }

  /** No invitation other than `except` has this token. */
  predicate TokenFree(invitations: map<Id, Invitation>, token: string, except: Option<Id>) {
    forall k :: k in invitations && Some(k) != except ==> invitations[k].token != token
  }

  /** create on invitations, for a (householdId, email) pair and a token no row has yet. */
  method CreateInvitation(db: Db, inv: Invitation) returns (id: Id)
    requires db.Valid() && inv.householdId in db.households && TokenFree(db.invitations, inv.token, None)
    requires forall k :: k in db.invitations ==>
      !(db.invitations[k].householdId == inv.householdId && db.invitations[k].email == inv.email)
    modifies db`invitations, db`nextId
    ensures db.Valid()
    ensures id == old(db.nextId) && id !in old(db.invitations) && db.nextId == id + 1
    ensures db.invitations == old(db.invitations)[id := inv]
  {
    id := NewId(db);
    db.invitations := db.invitations[id := inv];
  }

  /** update on an invitation, keeping its (householdId, email) pair, to a token no other row
      has. */
  method UpdateInvitation(db: Db, id: Id, inv: Invitation)
    requires db.Valid() && id in db.invitations && TokenFree(db.invitations, inv.token, Some(id))
    requires db.invitations[id].householdId == inv.householdId && db.invitations[id].email == inv.email
    modifies db`invitations
    ensures db.Valid()
    ensures db.invitations == old(db.invitations)[id := inv]
  {
    db.invitations := db.invitations[id := inv];
  }
}
