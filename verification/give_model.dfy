/** The `Give` (referral) model of the server: its fields, the fixed list of
    business categories, the creator contact dictionary, and the per-user
    give count that the `User` model exposes as `total_gives`. */
module GiveModel {
  import opened Wrappers
  import opened UserModel
  import opened Seqs

  /** One referral. `user` is the creator (the foreign key, joined);
      `createdAt`/`updatedAt` are instants on one integer clock. */
  datatype Give = Give(
    id: nat,
    user: User,
    name: string,
    company: Option<string>,
    department: Option<string>,
    category: string,
    state: Option<string>,
    city: Option<string>,
    email: string,
    phone: string,
    description: Option<string>,
    website: Option<string>,
    isActive: bool,
    createdAt: int,
    updatedAt: int)

  /** `CATEGORY_CHOICES`: stored code and display label, in declaration order. */
  const CategoryChoices: seq<(string, string)> := [
    ("advertising_marketing", "Advertising & Marketing"),
    ("agriculture", "Agriculture"),
    ("animals", "Animals"),
    ("architecture_engineering", "Architecture & Engineering"),
    ("art_entertainment", "Art & Entertainment"),
    ("car_motorcycle", "Car & Motorcycle"),
    ("computer_programming", "Computer & Programming"),
    ("construction", "Construction"),
    ("consulting", "Consulting"),
    ("employment_activities", "Employment Activities"),
    ("event_business_service", "Event & Business Service"),
    ("finance_insurance", "Finance & Insurance"),
    ("food_beverage", "Food & Beverage"),
    ("health_wellness", "Health & Wellness"),
    ("legal_accounting", "Legal & Accounting"),
    ("manufacturing", "Manufacturing"),
    ("organizations_others", "Organizations & Others"),
    ("personal_services", "Personal Services"),
    ("real_estate_services", "Real Estate Services"),
    ("repair", "Repair"),
    ("retail", "Retail"),
    ("security_investigation", "Security & Investigation"),
    ("sports_leisure", "Sports & Leisure"),
    ("telecommunications", "Telecommunications"),
    ("training_coaching", "Training & Coaching"),
    ("transport_shipping", "Transport & Shipping"),
    ("travel", "Travel"),
    ("other", "Other"),
    ("auto_tech_startup", "Auto Tech Startup")
  ]

  /** No value occurs twice. */
  predicate Distinct(codes: seq<string>) {
    forall i, j :: 0 <= i < j < |codes| ==> codes[i] != codes[j]
  }

  /** The stored category codes, in declaration order; no code is declared
      twice. */
  function CategoryCodes(): (codes: seq<string>)
    ensures |codes| == |CategoryChoices|
    ensures forall i :: 0 <= i < |codes| ==> codes[i] == CategoryChoices[i].0
    ensures Distinct(codes)
  {
    seq(|CategoryChoices|, i requires 0 <= i < |CategoryChoices| => CategoryChoices[i].0)
  }

  /** `creator_contact_info`: the creator's mobile, offered again as the
      WhatsApp number, and e-mail. */
  datatype CreatorContact = CreatorContact(mobile: Option<string>, whatsapp: Option<string>, email: string)

  function CreatorContactInfo(g: Give): (r: CreatorContact)
    ensures r.whatsapp == r.mobile == g.user.mobile
    ensures r.email == g.user.email
  {
    CreatorContact(g.user.mobile, g.user.mobile, g.user.email)
  }

  /** The gives created by the user with id `uid`, active or not, in table
      order. */
  function GivesOf(gives: seq<Give>, uid: nat): (r: seq<Give>)
    ensures forall g :: g in r <==> g in gives && g.user.id == uid
    ensures IsSubsequence(r, gives)
  {
    var r := Filter(gives, (g: Give) => g.user.id == uid);
    FilterIsSubsequence(gives, (g: Give) => g.user.id == uid);
    forall x ensures x in r <==> x in gives && x.user.id == uid {
      FilterMembers(gives, (g: Give) => g.user.id == uid, x);
    }
    r
  }

  /** `total_gives`: how many gives the user created, active or not. */
  function TotalGives(u: User, gives: seq<Give>): (n: nat)
    ensures n <= |gives|
  {
    |GivesOf(gives, u.id)|
  }

  /** `total_gives` counts the user's inactive gives as well as the active
      ones, and no one else's. */
  lemma {:induction false} TotalGivesCountsBoth(u: User, gives: seq<Give>)
    ensures TotalGives(u, gives)
            == |Filter(gives, (g: Give) => g.user.id == u.id && g.isActive)|
             + |Filter(gives, (g: Give) => g.user.id == u.id && !g.isActive)|
  {
    if |gives| > 0 {
      TotalGivesCountsBoth(u, gives[1..]);
    }
  }
}
