/** The client-side list helpers of the All Gives and My Gives pages: the
    search-and-category filter (written out twice, once per page), the
    creator label shown on a card, and the edit form filled from a give. */
module Listing {
  import opened Wrappers
  import opened Text
  import opened Seqs
  import opened ClientData

  /** The nine fields the search box looks at, in the pages' order. */
  function SearchFields(g: GiveJson): (fields: seq<Option<string>>)
    ensures |fields| == 9
  {
    [g.name, g.company, g.city, g.state, g.email, g.phone, g.category, g.department, g.description]
  }

  /** `(field || '').toLowerCase().includes(needle)`. */
  predicate FieldHas(field: Option<string>, needle: string) {
    Includes(Lower(field.GetOr("")), needle)
  }

  /** The category select: empty means any category; otherwise the give's
      category must be exactly the one selected. */
  predicate InCategory(g: GiveJson, category: string) {
    category == "" || g.category == Some(category)
  }

  /** The All Gives predicate: the search text is lower-cased once, and some
      search field contains it. */
  predicate AllGivesKeeps(g: GiveJson, search: string, category: string) {
    var needle := Lower(search);
    (exists i | 0 <= i < 9 :: FieldHas(SearchFields(g)[i], needle)) && InCategory(g, category)
  }

  /** `filtered` on the All Gives page. */
  function AllGivesFiltered(gives: seq<GiveJson>, search: string, category: string): (r: seq<GiveJson>)
    ensures IsSubsequence(r, gives)
    ensures forall g :: g in r <==> g in gives && AllGivesKeeps(g, search, category)
    ensures category != "" ==> forall i :: 0 <= i < |r| ==> r[i].category == Some(category)
    ensures search == "" && category == "" ==> r == gives
  {
    var keep := (g: GiveJson) => AllGivesKeeps(g, search, category);
    FilterIsSubsequence(gives, keep);
    forall g
      ensures g in Filter(gives, keep) <==> g in gives && AllGivesKeeps(g, search, category)
    {
      FilterMembers(gives, keep, g);
    }
    EmptySearchKeeps(gives, search, category);
    Filter(gives, keep)
  }

  /** The empty search text is contained in every field. */
  lemma EmptySearchKeeps(gives: seq<GiveJson>, search: string, category: string)
    ensures search == "" && category == "" ==> forall i :: 0 <= i < |gives| ==> AllGivesKeeps(gives[i], search, category)
  {
    if search == "" && category == "" {
      forall i | 0 <= i < |gives|
        ensures AllGivesKeeps(gives[i], search, category)
      {
        IncludesEmpty(Lower(gives[i].name.GetOr("")));
        assert FieldHas(SearchFields(gives[i])[0], Lower(search));
      }
    }
  }

  /** `[...].some(field => (field || '').toLowerCase().includes(search.toLowerCase()))`
      as the My Gives page writes it: fields are tried in order, lower-casing
      the search text for each, and the first match stops the scan. */
  predicate SomeFieldHas(fields: seq<Option<string>>, search: string) {
    |fields| > 0 && (FieldHas(fields[0], Lower(search)) || SomeFieldHas(fields[1..], search))
  }

  /** The short-circuit scan finds a match exactly when some field has one. */
  lemma {:induction false} SomeFieldHasIff(fields: seq<Option<string>>, search: string)
    ensures SomeFieldHas(fields, search) <==> exists i | 0 <= i < |fields| :: FieldHas(fields[i], Lower(search))
  {
    if |fields| > 0 {
      SomeFieldHasIff(fields[1..], search);
      if !FieldHas(fields[0], Lower(search)) {
        forall i | 1 <= i < |fields|
          ensures FieldHas(fields[i], Lower(search)) == FieldHas(fields[1..][i - 1], Lower(search))
        {
        }
      }
    }
  }

  predicate MyGivesKeeps(g: GiveJson, search: string, category: string) {
    SomeFieldHas(SearchFields(g), search) && InCategory(g, category)
  }

  /** `filteredGives` on the My Gives page. */
  function MyGivesFiltered(gives: seq<GiveJson>, search: string, category: string): (r: seq<GiveJson>)
    ensures IsSubsequence(r, gives)
    ensures forall i :: 0 <= i < |r| ==> MyGivesKeeps(r[i], search, category)
  {
    FilterIsSubsequence(gives, (g: GiveJson) => MyGivesKeeps(g, search, category));
    Filter(gives, (g: GiveJson) => MyGivesKeeps(g, search, category))
  }

  /** The two pages filter alike: the same gives survive, in the same order. */
  lemma PagesFilterAlike(gives: seq<GiveJson>, search: string, category: string)
    ensures MyGivesFiltered(gives, search, category) == AllGivesFiltered(gives, search, category)
  {
    forall i | 0 <= i < |gives|
      ensures MyGivesKeeps(gives[i], search, category) == AllGivesKeeps(gives[i], search, category)
    {
      SomeFieldHasIff(SearchFields(gives[i]), search);
    }
    FilterAgree(gives, (g: GiveJson) => MyGivesKeeps(g, search, category),
                (g: GiveJson) => AllGivesKeeps(g, search, category));
  }

  /** ASCII lower-casing is idempotent. */
  lemma LowerTwice(s: string)
    ensures Lower(Lower(s)) == Lower(s)
  {
  }

  /** The search is case-insensitive: searching for the lower-cased text
      keeps the same gives. */
  lemma SearchIgnoresCase(gives: seq<GiveJson>, search: string, category: string)
    ensures AllGivesFiltered(gives, Lower(search), category) == AllGivesFiltered(gives, search, category)
  {
    LowerTwice(search);
    FilterAgree(gives, (g: GiveJson) => AllGivesKeeps(g, Lower(search), category),
                (g: GiveJson) => AllGivesKeeps(g, search, category));
  }

  /** The name on a give card: `first_name`, else `username`, else `"User"`,
      followed by a space and `last_name` when there is one. */
  function CreatorLabel(user: Option<UserJson>): (r: string)
    ensures |r| > 0
    ensures user.None? ==> r == "User"
    ensures user.Some? && Truthy(user.value.firstName) ==> user.value.firstName.value <= r
    ensures user.Some? && !Truthy(user.value.firstName) && Truthy(user.value.username) ==>
              user.value.username.value <= r
    ensures user.Some? && !Truthy(user.value.firstName) && !Truthy(user.value.username) ==> "User" <= r
    ensures user.Some? && Truthy(user.value.lastName) ==>
              |r| > |user.value.lastName.value| + 1 &&
              r[|r| - |user.value.lastName.value| - 1..] == " " + user.value.lastName.value
    ensures user.Some? && !Truthy(user.value.lastName) && Truthy(user.value.firstName) ==>
              r == user.value.firstName.value
    ensures user.Some? ==>
              var u := user.value;
              var name := if Truthy(u.firstName) then u.firstName.value
                           else if Truthy(u.username) then u.username.value
                           else "User";
              |r| == |name| + (if Truthy(u.lastName) then 1 + |u.lastName.value| else 0)
  {
    var first := if user.Some? && Truthy(user.value.firstName) then user.value.firstName.value
                 else if user.Some? && Truthy(user.value.username) then user.value.username.value
                 else "User";
    var last := if user.Some? && Truthy(user.value.lastName) then " " + user.value.lastName.value else "";
    first + last
  }

  /** The edit form `handleEdit` fills in. */
  datatype EditForm = EditForm(
    name: string,
    category: string,
    department: string,
    company: string,
    state: string,
    city: string,
    phone: string,
    email: string,
    description: string,
    website: string,
    isActive: bool)

  /** `handleEdit`: every text field is copied, or `''` when missing; the
      active flag is copied when it is a boolean and is `true` otherwise. */
  function HandleEdit(g: GiveJson): (f: EditForm)
    ensures g.isActive.None? ==> f.isActive
    ensures g.isActive.Some? ==> f.isActive == g.isActive.value
    ensures forall i :: 0 <= i < 10 ==> FormText(f)[i] == EditableText(g)[i].GetOr("")
  {
    EditForm(g.name.GetOr(""), g.category.GetOr(""), g.department.GetOr(""), g.company.GetOr(""),
             g.state.GetOr(""), g.city.GetOr(""), g.phone.GetOr(""), g.email.GetOr(""),
             g.description.GetOr(""), g.website.GetOr(""), g.isActive.GetOr(true))
  }

  /** The ten text fields of the form, and of a give, in the same order. */
  function FormText(f: EditForm): seq<string> {
    [f.name, f.category, f.department, f.company, f.state, f.city, f.phone, f.email, f.description, f.website]
  }

  function EditableText(g: GiveJson): seq<Option<string>> {
    [g.name, g.category, g.department, g.company, g.state, g.city, g.phone, g.email, g.description, g.website]
  }

  /** The give the API returns for a saved form. */
  function SavedGive(id: nat, f: EditForm, user: Option<UserJson>, createdAt: Option<int>): GiveJson {
    GiveJson(id, user, Some(f.name), Some(f.category), Some(f.department), Some(f.company),
             Some(f.state), Some(f.city), Some(f.phone), Some(f.email), Some(f.description),
             Some(f.website), Some(f.isActive), createdAt)
  }

  /** Opening the editor on a give saved from a form shows that form again. */
  lemma EditRoundTrip(id: nat, f: EditForm, user: Option<UserJson>, createdAt: Option<int>)
    ensures HandleEdit(SavedGive(id, f, user, createdAt)) == f
  {
  }
}
