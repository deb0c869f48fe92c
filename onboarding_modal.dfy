/** The onboarding dialog of components/app/onboarding-modal.tsx: a three-step form (household
    and members, diet, constraints) whose draft is kept in local storage, restored when the
    dialog opens and saved again whenever a tracked field changes. JSON.stringify/JSON.parse of
    the draft are not modelled: the storage holds the parsed draft, a `SavedDraft`. */
module OnboardingModal {
  import opened Wrappers
  import Text

  datatype Member = Member(email: string, firstName: string)

  /** The form data that is saved (OnboardingData). */
  datatype Draft = Draft(householdName: string, creatorEmail: string, creatorFirstName: string,
                         dietType: Option<string>, meatFrequency: int, allergies: string,
                         members: seq<Member>, minDishware: bool, prioritizeSeasonal: bool,
                         thursdayRestaurant: bool, batchCooking: bool)

  /** A stored draft as parsing it gives it back: any field may be missing. */
  datatype SavedDraft = SavedDraft(householdName: Option<string>, creatorEmail: Option<string>,
                                   creatorFirstName: Option<string>, dietType: Option<string>,
                                   meatFrequency: Option<int>, allergies: Option<string>,
                                   members: Option<seq<Member>>, minDishware: Option<bool>,
                                   prioritizeSeasonal: Option<bool>, thursdayRestaurant: Option<bool>,
                                   batchCooking: Option<bool>)

  /** `s || fallback` on a string that may be missing. */
  function OrText(s: Option<string>, fallback: string): string {
    if s.Some? && s.value != "" then s.value else fallback
  }

  /** `b ?? fallback`. */
  function OrBool(b: Option<bool>, fallback: bool): bool {
    if b.Some? then b.value else fallback
  }

  /** The state a stored draft restores: `||` for the texts, the diet and the members,
      `?? 7` for the meat frequency and `?? true` for the first two toggles. */
  function FromSaved(s: SavedDraft): Draft {
    Draft(OrText(s.householdName, ""), OrText(s.creatorEmail, ""), OrText(s.creatorFirstName, ""),
          if s.dietType.Some? && s.dietType.value != "" then s.dietType else None,
          if s.meatFrequency.Some? then s.meatFrequency.value else 7,
          OrText(s.allergies, ""),
          if s.members.Some? then s.members.value else [],
          OrBool(s.minDishware, true), OrBool(s.prioritizeSeasonal, true),
          OrBool(s.thursdayRestaurant, false), OrBool(s.batchCooking, false))
  }

  /** What saving writes: every field, the diet as null when none is chosen. */
  function ToSaved(d: Draft): SavedDraft {
    SavedDraft(Some(d.householdName), Some(d.creatorEmail), Some(d.creatorFirstName), d.dietType,
               Some(d.meatFrequency), Some(d.allergies), Some(d.members), Some(d.minDishware),
               Some(d.prioritizeSeasonal), Some(d.thursdayRestaurant), Some(d.batchCooking))
  }

  /** Saving a draft and restoring it gives it back, unless its diet is the empty string. */
  lemma SaveRestore(d: Draft)
    ensures d.dietType != Some("") ==> FromSaved(ToSaved(d)) == d
    ensures d.dietType == Some("") ==> FromSaved(ToSaved(d)) == d.(dietType := None)
  {
  }

  /** A draft with every field missing restores the defaults: 7 meals with meat, the dishware
      and season toggles on, the other two off; a stored 0 meals with meat stays 0. */
  lemma MissingFieldsDefaults()
    ensures var empty := SavedDraft(None, None, None, None, None, None, None, None, None, None, None);
      FromSaved(empty) == Draft("", "", "", None, 7, "", [], true, true, false, false) &&
      FromSaved(empty.(meatFrequency := Some(0))).meatFrequency == 0 &&
      FromSaved(empty.(minDishware := Some(false))).minDishware == false
  {
  }

  /** One change made through an input of the form. */
  datatype Edit =
    | HouseholdName(text: string)
    | CreatorEmail(text: string)
    | CreatorFirstName(text: string)
    | DietType(diet: string)
    | MeatFrequency(count: int)
    | Allergies(text: string)
    | MinDishware(on: bool)
    | PrioritizeSeasonal(on: bool)
    | ThursdayRestaurant(on: bool)
    | BatchCooking(on: bool)

  function Apply(d: Draft, e: Edit): Draft {
    match e
    case HouseholdName(t) => d.(householdName := t)
    case CreatorEmail(t) => d.(creatorEmail := t)
    case CreatorFirstName(t) => d.(creatorFirstName := t)
    case DietType(diet) => d.(dietType := Some(diet))
    case MeatFrequency(n) => d.(meatFrequency := n)
    case Allergies(t) => d.(allergies := t)
    case MinDishware(b) => d.(minDishware := b)
    case PrioritizeSeasonal(b) => d.(prioritizeSeasonal := b)
    case ThursdayRestaurant(b) => d.(thursdayRestaurant := b)
    case BatchCooking(b) => d.(batchCooking := b)
  }

  /** Whether an email is already listed, ignoring case. */
  predicate Listed(members: seq<Member>, email: string) {
    exists m :: m in members && Text.ToLower(m.email) == Text.ToLower(email)
  }

  /** addMember on the list: the trimmed member is appended when both inputs are non-blank and
      the untrimmed email is not listed; otherwise the list is unchanged. */
  function AfterAdd(members: seq<Member>, email: string, firstName: string): (r: seq<Member>)
    ensures Text.Trim(email) != "" && Text.Trim(firstName) != "" && !Listed(members, email) <==>
      r == members + [Member(Text.Trim(email), Text.Trim(firstName))]
    ensures r != members ==> r == members + [Member(Text.Trim(email), Text.Trim(firstName))]
  {
    if Text.Trim(email) != "" && Text.Trim(firstName) != "" && !Listed(members, email) then
      members + [Member(Text.Trim(email), Text.Trim(firstName))]
    else members
  }

  /** No two members share an email, ignoring case. */
  predicate DistinctEmails(members: seq<Member>) {
    forall i, j :: 0 <= i < j < |members| ==> Text.ToLower(members[i].email) != Text.ToLower(members[j].email)
  }

  /** Adding an email typed without surrounding white space keeps the emails distinct. */
  lemma AddKeepsEmailsDistinct(members: seq<Member>, email: string, firstName: string)
    requires DistinctEmails(members) && Text.Trim(email) == email
    ensures DistinctEmails(AfterAdd(members, email, firstName))
  {
    var r := AfterAdd(members, email, firstName);
    if r != members {
      forall i | 0 <= i < |members| ensures Text.ToLower(members[i].email) != Text.ToLower(r[|members|].email) {
        assert members[i] in members;
      }
    }
  }

  /** The duplicate check reads the untrimmed input, so an email typed again with a leading
      space is added a second time. */
  lemma PaddedEmailAddedTwice(email: string, firstName: string)
    requires email != [] && !Text.IsWhiteSpace(email[0]) && !Text.IsWhiteSpace(email[|email| - 1])
    requires Text.Trim(firstName) != ""
    ensures var r := AfterAdd([Member(email, firstName)], [' '] + email, firstName);
      |r| == 2 && r[0].email == r[1].email
  {
    var members := [Member(email, firstName)];
    var padded := [' '] + email;
    PaddedTrim(email);
    LongerNotListed(members, padded);
    var r := AfterAdd(members, padded, firstName);
    assert r == members + [Member(email, Text.Trim(firstName))];
  }

  lemma LongerNotListed(members: seq<Member>, email: string)
    requires forall m | m in members :: |m.email| < |email|
    ensures !Listed(members, email)
  {
    forall m | m in members ensures Text.ToLower(m.email) != Text.ToLower(email) {
      assert |Text.ToLower(m.email)| != |Text.ToLower(email)|;
    }
  }

  /** A space before an otherwise trimmed text is all that trimming removes. */
  lemma PaddedTrim(s: string)
    requires s != [] && !Text.IsWhiteSpace(s[0]) && !Text.IsWhiteSpace(s[|s| - 1])
    ensures Text.Trim([' '] + s) == s
  {
    var padded := [' '] + s;
    assert padded[1..] == s && padded[1] == s[0] && padded[|padded| - 1] == s[|s| - 1];
    assert Text.SkipWhiteSpace(padded, 1) == 1;
    assert Text.TrimLead(padded) == 1;
    assert Text.DropTrailing(padded, 1, |padded|) == |padded|;
  }

  /** removeMember on the list: `filter` keeping every position but `index`. */
  function Without(members: seq<Member>, index: int): (r: seq<Member>)
    ensures 0 <= index < |members| ==> r == members[..index] + members[index + 1..]
    ensures !(0 <= index < |members|) ==> r == members
  {
    if members == [] then []
    else
      var last := |members| - 1;
      Without(members[..last], index) + (if index == last then [] else [members[last]])
  }

  /** The household name, the email and the first name are all non-blank. */
  predicate Filled(d: Draft) {
    Text.Trim(d.householdName) != "" && Text.Trim(d.creatorEmail) != "" && Text.Trim(d.creatorFirstName) != ""
  }

  /** The draft handleFinish saves: the email and first name trimmed, everything else as typed. */
  function Submitted(d: Draft): Draft {
    d.(creatorEmail := Text.Trim(d.creatorEmail), creatorFirstName := Text.Trim(d.creatorFirstName))
  }

  /** The outcome of handleFinish. */
  datatype Finish = MissingFields | Redirect(url: string)

  /** handleFinish on the draft, the loading flag and the stored draft: refused, changing
      nothing, while a required field is blank; otherwise loading, the draft saved with the
      email and first name trimmed (the name as typed), and a redirection to the sign-in page
      with the trimmed email, encoded. */
  function Finished(d: Draft, loading: bool, stored: Option<SavedDraft>, encode: string -> string)
    : (r: (Finish, bool, Option<SavedDraft>))
    ensures r.0.MissingFields? <==> !Filled(d)
    ensures r.0.MissingFields? ==> r.1 == loading && r.2 == stored
    ensures r.0.Redirect? ==>
      r.1 && r.2 == Some(ToSaved(Submitted(d))) && r.0.url == "/auth?email=" + encode(Text.Trim(d.creatorEmail))
  {
    if !Filled(d) then (MissingFields, loading, stored)
    else (Redirect("/auth?email=" + encode(Text.Trim(d.creatorEmail))), true, Some(ToSaved(Submitted(d))))
  }

  class Modal {
    /** The `open` prop; the dialog never changes it (handleOpenChange ignores close requests). */
    const open: bool
    var step: int
    /** The eleven saved state variables of the form. */
    var form: Draft
    var newMemberEmail: string
    var newMemberFirstName: string
    var isLoading: bool
    /** The draft under the storage key, as last written. */
    var stored: Option<SavedDraft>

    /** The dialog shows one of its three steps. */
    predicate Valid()
      reads this
    {
      step == 1 || step == 2 || step == 3
    }

    /** Mounting the dialog: the defaults; when open, the stored draft (if any) is restored and
        the resulting draft is saved. */
    constructor(open: bool, previous: Option<SavedDraft>)
      ensures Valid() && step == 1 && this.open == open && !isLoading
      ensures newMemberEmail == "" && newMemberFirstName == ""
      ensures open && previous.Some? ==> form == FromSaved(previous.value)
      ensures !(open && previous.Some?) ==> form == Draft("", "", "", None, 7, "", [], true, true, false, false)
      ensures stored == if open then Some(ToSaved(form)) else previous
    {
      this.open := open;
      step := 1;
      form := Draft("", "", "", None, 7, "", [], true, true, false, false);
      newMemberEmail, newMemberFirstName := "", "";
      isLoading := false;
      stored := previous;
      new;
      if open {
        if previous.Some? {
          form := FromSaved(previous.value);
        }
        stored := Some(ToSaved(form));
      }
    }

    /** One edit of the form. The draft is saved when the dialog is open and the edit changed a
        tracked field; the meat frequency is not tracked. */
    method Change(e: Edit)
      modifies this`form, this`stored
      ensures form == Apply(old(form), e)
      ensures stored == if open && !e.MeatFrequency? && form != old(form)
                        then Some(ToSaved(form)) else old(stored)
    {
      var before := form;
      form := Apply(form, e);
      if open && !e.MeatFrequency? && form != before {
        stored := Some(ToSaved(form));
      }
    }

    /** Typing in the two new-member inputs. */
    method TypeMember(email: string, firstName: string)
      modifies this`newMemberEmail, this`newMemberFirstName
      ensures newMemberEmail == email && newMemberFirstName == firstName
    {
      newMemberEmail, newMemberFirstName := email, firstName;
    }

    /** addMember: the member is appended as AfterAdd says; the inputs are cleared (and the
        draft saved) only when it was. */
    method AddMember()
      modifies this`form, this`newMemberEmail, this`newMemberFirstName, this`stored
      ensures form == old(form).(members := AfterAdd(old(form.members), old(newMemberEmail), old(newMemberFirstName)))
      ensures form.members != old(form.members) ==> newMemberEmail == "" && newMemberFirstName == ""
      ensures form.members == old(form.members) ==>
        newMemberEmail == old(newMemberEmail) && newMemberFirstName == old(newMemberFirstName)
      ensures stored == if open && form.members != old(form.members) then Some(ToSaved(form)) else old(stored)
    {
      var added := AfterAdd(form.members, newMemberEmail, newMemberFirstName);
      if added != form.members {
        form := form.(members := added);
        newMemberEmail, newMemberFirstName := "", "";
        if open {
          stored := Some(ToSaved(form));
        }
      }
    }

    /** removeMember: a new list without position `index` (even when nothing is removed the
        list is a new array, so an open dialog saves). */
    method RemoveMember(index: int)
      modifies this`form, this`stored
      ensures form == old(form).(members := Without(old(form.members), index))
      ensures stored == if open then Some(ToSaved(form)) else old(stored)
    {
      form := form.(members := Without(form.members, index));
      if open {
        stored := Some(ToSaved(form));
      }
    }

    /** Enter in the household name field of step 1: step 2 when the name is not blank. */
    method EnterOnName()
      requires Valid()
      modifies this`step
      ensures Valid()
      ensures step == if old(step) == 1 && Text.Trim(form.householdName) != "" then 2 else old(step)
    {
      if step == 1 && Text.Trim(form.householdName) != "" {
        step := 2;
      }
    }

    /** The forward button of a step: from step 1 only with name, email and first name filled in,
        from step 2 always; step 3 has the finish button instead. */
    method Next()
      requires Valid()
      modifies this`step
      ensures Valid()
      ensures old(step) == 1 ==> step == (if Filled(form) then 2 else 1)
      ensures old(step) == 2 ==> step == 3
      ensures old(step) == 3 ==> step == 3
    {
      if step == 1 {
        if Filled(form) {
          step := 2;
        }
      } else if step == 2 {
        step := 3;
      }
    }

    /** The back button: step 2 to 1, step 3 to 2; step 1 has none. */
    method Back()
      requires Valid()
      modifies this`step
      ensures Valid()
      ensures step == if old(step) == 1 then 1 else old(step) - 1
    {
      if step == 2 {
        step := 1;
      } else if step == 3 {
        step := 2;
      }
    }

    /** handleFinish, as Finished says. */
    method HandleFinish(encode: string -> string) returns (outcome: Finish)
      modifies this`isLoading, this`stored
      ensures (outcome, isLoading, stored) == Finished(form, old(isLoading), old(stored), encode)
    {
      var r := Finished(form, isLoading, stored, encode);
      outcome, isLoading, stored := r.0, r.1, r.2;
    }
  }
}
