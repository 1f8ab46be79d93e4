/** The give endpoints of the server over a table of gives: toggling a give's
    active flag, the creator contact-info endpoint, the statistics endpoint,
    the query sets of the three list views, and the serializer choice of the
    detail view. The function views and the list views are guarded by the
    framework's `IsAuthenticated`, so their requests come from an account
    (`viewer`); the detail view has only its object permission, so an
    anonymous request reaches it. */
module GiveViews {
  import opened Wrappers
  import opened Seqs
  import opened UserModel
  import opened GiveModel
  import opened GiveSerializers
  import opened Http
  import Permissions

  const GiveNotFound := "Give not found"
  const NotYourGive := "You can only modify your own Gives"
  const NotYourContact := "You can only view contact info for your own Gives"

  /** Primary keys are unique in the table. */
  predicate UniqueIds(table: seq<Give>) {
    forall i, j :: 0 <= i < j < |table| ==> table[i].id != table[j].id
  }

  /** `Give.objects.get(id=...)`: the position of the give with that id. */
  function Find(table: seq<Give>, id: nat): (r: Option<nat>)
    ensures r.Some? ==> r.value < |table| && table[r.value].id == id
    ensures r.Some? ==> forall j :: 0 <= j < r.value ==> table[j].id != id
    ensures r.None? ==> forall i :: 0 <= i < |table| ==> table[i].id != id
  {
    FirstIndex(table, (g: Give) => g.id == id)
  }

  /** The owner of a give or an administrator may act on it. Model
      instances compare by primary key. */
  predicate CanManage(viewer: User, g: Give) {
    g.user.id == viewer.id || viewer.isSuperadmin
  }

  /** `toggle_give_status`: 404 for an unknown id, 403 for someone who may not
      manage the give, both leaving the table as it was; otherwise the give's
      `is_active` flips, `save()` stamps `updated_at` with `now`, every other
      give stays as it was, and the full view of the saved give is returned. */
  function ToggleGiveStatus(table: seq<Give>, viewer: User, id: nat, now: int)
    : (r: (Response<GiveView>, seq<Give>))
    ensures Find(table, id).None? ==> r == (NotFound(GiveNotFound), table)
    ensures Find(table, id).Some? && !CanManage(viewer, table[Find(table, id).value]) ==>
              r == (Forbidden(NotYourGive), table)
    ensures Find(table, id).Some? && CanManage(viewer, table[Find(table, id).value]) ==>
              var k := Find(table, id).value;
              && |r.1| == |table|
              && r.1[k].isActive == !table[k].isActive
              && r.1[k] == table[k].(isActive := !table[k].isActive, updatedAt := now)
              && (forall j :: 0 <= j < |table| && j != k ==> r.1[j] == table[j])
              && r.0 == Success(FullGiveView(r.1[k]))
  {
    match Find(table, id)
    case None => (NotFound(GiveNotFound), table)
    case Some(k) =>
      var give := table[k];
      if give.user.id != viewer.id && !viewer.isSuperadmin then (Forbidden(NotYourGive), table)
      else
        var saved := give.(isActive := !give.isActive, updatedAt := now);
        (Success(FullGiveView(saved)), table[k := saved])
  }

  /** Toggling keeps primary keys unique. */
  lemma TogglePreservesUniqueIds(table: seq<Give>, viewer: User, id: nat, now: int)
    requires UniqueIds(table)
    ensures UniqueIds(ToggleGiveStatus(table, viewer, id, now).1)
  {
  }

  /** Toggling the same give twice brings the table back, except that the
      give's `updated_at` records the second save. */
  lemma ToggleTwiceRestores(table: seq<Give>, viewer: User, id: nat, now1: int, now2: int)
    requires Find(table, id).Some? && CanManage(viewer, table[Find(table, id).value])
    ensures var once := ToggleGiveStatus(table, viewer, id, now1).1;
            var k := Find(table, id).value;
            ToggleGiveStatus(once, viewer, id, now2).1 == table[k := table[k].(updatedAt := now2)]
  {
    var k := Find(table, id).value;
    var once := ToggleGiveStatus(table, viewer, id, now1).1;
    FindAfterUpdate(table, k, once[k]);
    assert once == table[k := once[k]];
  }

  /** Replacing a give by one with the same id does not move `Find`. */
  lemma FindAfterUpdate(table: seq<Give>, k: nat, g: Give)
    requires k < |table| && g.id == table[k].id
    ensures Find(table[k := g], g.id) == Find(table, g.id)
  {
    var before, after := Find(table, g.id), Find(table[k := g], g.id);
    assert forall i :: 0 <= i < |table| ==> (table[k := g][i].id == g.id) == (table[i].id == g.id);
  }

  /** `give_contact_info`: only an active give is found (404 otherwise); only
      its owner or an administrator may see it (403 otherwise); the answer is
      the contact representation of the creator's details, and an e-mail the
      mask cannot split is an uncaught error (500). */
  function GiveContactInfo(table: seq<Give>, viewer: User, id: nat): (r: Response<ContactInfo>)
    ensures (Find(table, id).None? || !table[Find(table, id).value].isActive) <==>
              r == NotFound(GiveNotFound)
    ensures r.Forbidden? <==>
              Find(table, id).Some? && table[Find(table, id).value].isActive &&
              !CanManage(viewer, table[Find(table, id).value])
    ensures r.Success? ==>
              var g := table[Find(table, id).value];
              && g.isActive && CanManage(viewer, g)
              && Ok(r.body) == ContactRepresentation(CreatorContactInfo(g))
              && r.body.whatsapp == r.body.mobile
    ensures r == ServerError <==>
              Find(table, id).Some? &&
              var g := table[Find(table, id).value];
              g.isActive && CanManage(viewer, g) && ContactRepresentation(CreatorContactInfo(g)).Failure?
  {
    match Find(table, id)
    case None => NotFound(GiveNotFound)
    case Some(k) =>
      var give := table[k];
      if !give.isActive then NotFound(GiveNotFound)
      else if give.user.id != viewer.id && !viewer.isSuperadmin then Forbidden(NotYourContact)
      else match ContactRepresentation(CreatorContactInfo(give))
        case Ok(info) => Success(info)
        case Failure(_) => ServerError
  }

  /** The body of `gives_stats`. */
  datatype Stats = Stats(totalGives: nat, activeGives: nat, categoryStats: map<string, nat>)

  /** The active gives of category `c`. */
  function ActiveIn(gives: seq<Give>, c: string): seq<Give> {
    Filter(gives, (g: Give) => g.isActive && g.category == c)
  }

  /** The `category_stats` dictionary: one key per code, each counting the
      active gives of that category. */
  function CategoryStats(gives: seq<Give>, codes: seq<string>): (m: map<string, nat>)
    ensures m.Keys == set c | c in codes
    ensures forall c :: c in m ==> m[c] == |ActiveIn(gives, c)|
  {
    if |codes| == 0 then map[]
    else
      var last := codes[|codes| - 1];
      var m := CategoryStats(gives, codes[..|codes| - 1]);
      assert forall c :: c in codes <==> c in codes[..|codes| - 1] || c == last;
      m[last := |ActiveIn(gives, last)|]
  }

  /** `gives_stats`: an administrator sees the whole table, anyone else only
      their own gives. The total counts active and inactive gives, the active
      count never exceeds it, and the categories are exactly the category
      codes, each counting the active gives of the scope. */
  function GivesStats(table: seq<Give>, viewer: User): (r: Stats)
    ensures viewer.isSuperadmin ==> r.totalGives == |table|
    ensures !viewer.isSuperadmin ==> r.totalGives == TotalGives(viewer, table)
    ensures r.activeGives <= r.totalGives
    ensures r.activeGives ==
              |Filter(if viewer.isSuperadmin then table else GivesOf(table, viewer.id), (g: Give) => g.isActive)|
    ensures r.categoryStats.Keys == set c | c in CategoryCodes()
    ensures forall c :: c in r.categoryStats ==>
              r.categoryStats[c] == |ActiveIn(if viewer.isSuperadmin then table else GivesOf(table, viewer.id), c)|
  {
    var scope := if viewer.isSuperadmin then table else GivesOf(table, viewer.id);
    var active := Filter(scope, (g: Give) => g.isActive);
    Stats(|scope|, |active|, CategoryStats(scope, CategoryCodes()))
  }

  /** Sum of the per-category counts over `codes`. */
  function SumActiveIn(gives: seq<Give>, codes: seq<string>): nat {
    if |codes| == 0 then 0 else |ActiveIn(gives, codes[0])| + SumActiveIn(gives, codes[1..])
  }

  /** How many of the distinct `codes` equal `c`: one if `c` is among them. */
  function Hits(codes: seq<string>, c: string): nat {
    if |codes| == 0 then 0 else (if codes[0] == c then 1 else 0) + Hits(codes[1..], c)
  }

  lemma {:induction false} HitsDistinct(codes: seq<string>, c: string)
    requires Distinct(codes)
    ensures Hits(codes, c) == if c in codes then 1 else 0
  {
    if |codes| > 0 {
      HitsDistinct(codes[1..], c);
      if codes[0] == c {
        assert c !in codes[1..] by {
          forall j | 0 <= j < |codes[1..]| ensures codes[1..][j] != c {
            assert codes[1..][j] == codes[j + 1];
          }
        }
      }
    }
  }

  /** Adding one give to the front adds, over all codes, one count per code
      it is active in. */
  lemma {:induction false} SumActiveInCons(g: Give, rest: seq<Give>, codes: seq<string>)
    ensures SumActiveIn([g] + rest, codes) == SumActiveIn(rest, codes) + (if g.isActive then Hits(codes, g.category) else 0)
  {
    if |codes| > 0 {
      SumActiveInCons(g, rest, codes[1..]);
      assert ([g] + rest)[1..] == rest;
    }
  }

  /** When every active give carries one of the category codes, the
      per-category counts add up to the number of active gives: no active
      give is counted twice or missed. */
  lemma {:induction false} CategoryCountsPartitionActive(gives: seq<Give>)
    requires forall i :: 0 <= i < |gives| && gives[i].isActive ==> gives[i].category in CategoryCodes()
    ensures SumActiveIn(gives, CategoryCodes()) == |Filter(gives, (g: Give) => g.isActive)|
  {
    if |gives| == 0 {
      SumActiveInEmpty(CategoryCodes());
    } else {
      var g, rest := gives[0], gives[1..];
      CategoryCountsPartitionActive(rest);
      assert [g] + rest == gives;
      SumActiveInCons(g, rest, CategoryCodes());
      HitsDistinct(CategoryCodes(), g.category);
    }
  }

  lemma {:induction false} SumActiveInEmpty(codes: seq<string>)
    ensures SumActiveIn([], codes) == 0
  {
    if |codes| > 0 {
      SumActiveInEmpty(codes[1..]);
    }
  }

  /** `GiveListView.get_queryset`: the active gives, in table order. */
  function PublicListQuery(table: seq<Give>): (r: seq<Give>)
    ensures forall i :: 0 <= i < |r| ==> r[i].isActive
    ensures forall i :: 0 <= i < |table| && table[i].isActive ==> table[i] in r
    ensures forall i :: 0 <= i < |r| ==> r[i] in table
    ensures IsSubsequence(r, table)
  {
    var r := Filter(table, (g: Give) => g.isActive);
    FilterIsSubsequence(table, (g: Give) => g.isActive);
    forall i | 0 <= i < |table| && table[i].isActive
      ensures table[i] in r
    {
      FilterMembers(table, (g: Give) => g.isActive, table[i]);
    }
    forall i | 0 <= i < |r|
      ensures r[i] in table
    {
      FilterMembers(table, (g: Give) => g.isActive, r[i]);
    }
    r
  }

  /** `MyGivesListView.get_queryset`: the viewer's own gives, active or not. */
  function MyGivesQuery(table: seq<Give>, viewer: User): (r: seq<Give>)
    ensures forall g :: g in r <==> g in table && g.user.id == viewer.id
    ensures IsSubsequence(r, table)
    ensures |r| == TotalGives(viewer, table)
  {
    GivesOf(table, viewer.id)
  }

  /** `AllGivesListView.get_queryset`: the whole table for an administrator,
      nothing for anyone else. */
  function AdminAllQuery(table: seq<Give>, viewer: User): (r: seq<Give>)
    ensures viewer.isSuperadmin ==> r == table
    ensures !viewer.isSuperadmin ==> r == []
  {
    if viewer.isSuperadmin then table else []
  }

  datatype SerializerChoice = FullSerializer | PublicSerializer

  /** `GiveDetailView.get_serializer_class`: the full serializer exactly for an
      administrator or the give's owner. */
  function DetailSerializer(viewer: User, g: Give): (c: SerializerChoice)
    ensures c == FullSerializer <==> viewer.isSuperadmin || g.user.id == viewer.id
  {
    if viewer.isSuperadmin || g.user.id == viewer.id then FullSerializer else PublicSerializer
  }

  /** A GET on `GiveDetailView`: 404 for an unknown id, then the
      `IsOwnerOrSuperAdmin` object check, which fails with a 500 for an
      anonymous request (it reads `is_superadmin`) and with 403 for anyone
      who neither owns the give nor administers; then the chosen serializer.
      Whoever passes the object check is the owner or an administrator, so
      the public serializer is never chosen and a 200 always carries the
      full view. */
  function RetrieveGive(table: seq<Give>, viewer: Option<User>, id: nat): (r: Response<GiveView>)
    ensures Find(table, id).None? <==> r == NotFound(FrameworkNotFound)
    ensures r == ServerError <==> Find(table, id).Some? && viewer.None?
    ensures Find(table, id).Some? && viewer.Some? ==>
              var g := table[Find(table, id).value];
              (r == Forbidden(FrameworkDenied) <==> !CanManage(viewer.value, g))
    ensures r.Success? <==>
              Find(table, id).Some? && viewer.Some? && CanManage(viewer.value, table[Find(table, id).value])
    ensures r.Success? ==> r.body == FullGiveView(table[Find(table, id).value])
  {
    match Find(table, id)
    case None => NotFound(FrameworkNotFound)
    case Some(k) =>
      var give := table[k];
      match Permissions.IsOwnerOrSuperAdmin(Requester(viewer), Permissions.Owned(give.user.id))
      case Crash => ServerError
      case Deny => Forbidden(FrameworkDenied)
      case Allow =>
        match DetailSerializer(viewer.value, give)
        case FullSerializer => Success(FullGiveView(give))
        case PublicSerializer =>
          match PublicGiveView(give)
          case Ok(v) => Success(v)
          case Failure(_) => ServerError
  }

  /** The public list response: every active give rendered by the public
      serializer. One active give whose e-mail the mask cannot split makes
      the whole listing fail with 500. */
  function PublicListResponse(table: seq<Give>): (r: Response<seq<GiveView>>)
    ensures r.Success? <==>
              forall i :: 0 <= i < |table| && table[i].isActive ==> PublicGiveView(table[i]).Ok?
    ensures r.Success? ==> |r.body| == |PublicListQuery(table)|
    ensures r.Success? ==> forall i :: 0 <= i < |r.body| ==> r.body[i].updatedAt.None?
    ensures r.Success? ==> forall i :: 0 <= i < |r.body| ==> Ok(r.body[i]) == PublicGiveView(PublicListQuery(table)[i])
    ensures !r.Success? ==> r == ServerError
  {
    var listed := PublicListQuery(table);
    assert (forall i :: 0 <= i < |table| && table[i].isActive ==> PublicGiveView(table[i]).Ok?) ==>
           (forall i :: 0 <= i < |listed| ==> PublicGiveView(listed[i]).Ok?);
    RenderPublic(listed)
  }

  function RenderPublic(gives: seq<Give>): (r: Response<seq<GiveView>>)
    ensures r.Success? <==> forall i :: 0 <= i < |gives| ==> PublicGiveView(gives[i]).Ok?
    ensures r.Success? ==> |r.body| == |gives|
    ensures r.Success? ==> forall i :: 0 <= i < |gives| ==> Ok(r.body[i]) == PublicGiveView(gives[i])
    ensures !r.Success? ==> r == ServerError
  {
    if |gives| == 0 then Success([])
    else match (PublicGiveView(gives[0]), RenderPublic(gives[1..]))
      case (Ok(v), Success(vs)) => Success([v] + vs)
      case _ => ServerError
  }
}
