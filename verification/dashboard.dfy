/** The dashboard leaderboards the browser computes from the list of gives:
    the records are tallied per creator in list order (`forEach` into an
    object keyed by user id), read back with `Object.values`, which yields
    integer keys in ascending order, and sorted by a stable sort on the count
    alone. The weekly board does the same over the records created inside a
    window; both are cut into a podium of three and the rest. */
module Dashboard {
  import opened Wrappers
  import opened Seqs
  import opened ClientData

  /** One leaderboard row as the page builds it. */
  datatype Entry = Entry(
    id: nat,
    firstName: string,
    lastName: string,
    profilePicture: Option<string>,
    totalGives: nat)

  /** `a || b || ''` on optional strings. */
  function FirstOr(a: Option<string>, b: Option<string>): string {
    if Truthy(a) then a.value else if Truthy(b) then b.value else ""
  }

  /** The row created when a user is first seen, before it is counted. */
  function NewEntry(u: UserJson): Entry {
    Entry(u.id, FirstOr(u.firstName, u.username), FirstOr(u.lastName, None),
          if Truthy(u.profilePicture) then u.profilePicture else None, 0)
  }

  /** The record was created by the user with id `id`. */
  predicate ByUser(g: GiveJson, id: nat) {
    g.user.Some? && g.user.value.id == id
  }

  /** The creator object of the first record by `id`, if any. */
  function FirstUser(gives: seq<GiveJson>, id: nat): (r: Option<UserJson>)
    ensures r.Some? ==> r.value.id == id
  {
    if |gives| == 0 then None
    else if ByUser(gives[0], id) then gives[0].user
    else FirstUser(gives[1..], id)
  }

  /** How many records the user with id `id` created. */
  function Count(gives: seq<GiveJson>, id: nat): nat {
    |Filter(gives, (g: GiveJson) => ByUser(g, id))|
  }

  /** The row the leaderboard should hold for `id`: the name and picture of
      the first record seen, and the number of records. */
  function EntryFor(gives: seq<GiveJson>, id: nat): Entry
    requires FirstUser(gives, id).Some?
  {
    NewEntry(FirstUser(gives, id).value).(totalGives := Count(gives, id))
  }

  predicate UniqueIds(m: seq<Entry>) {
    forall i, j :: 0 <= i < j < |m| ==> m[i].id != m[j].id
  }

  /** Position of the row for `id`. */
  function IndexOf(m: seq<Entry>, id: nat): (r: Option<nat>)
    ensures r.Some? ==> r.value < |m| && m[r.value].id == id
    ensures r.None? ==> forall i :: 0 <= i < |m| ==> m[i].id != id
  {
    FirstIndex(m, (e: Entry) => e.id == id)
  }

  /** `m` is the per-user tally of `gives`: one row per creator, each row the
      one `EntryFor` describes, and no creator missing. */
  ghost predicate Accurate(gives: seq<GiveJson>, m: seq<Entry>) {
    && UniqueIds(m)
    && (forall i :: 0 <= i < |m| ==> FirstUser(gives, m[i].id).Some? && m[i] == EntryFor(gives, m[i].id))
    && (forall id :: FirstUser(gives, id).Some? ==> IndexOf(m, id).Some?)
  }

  /** One step of the `forEach`: a record without a user is skipped; the
      first record of a user adds a row with count one; later ones add one
      to that row and change nothing else. */
  function Add(m: seq<Entry>, g: GiveJson): (r: seq<Entry>)
    ensures g.user.None? ==> r == m
    ensures |r| == |m| + (if g.user.Some? && IndexOf(m, g.user.value.id).None? then 1 else 0)
    ensures forall i :: 0 <= i < |m| ==> r[i].id == m[i].id && r[i].firstName == m[i].firstName
    ensures UniqueIds(m) ==>
              forall i :: 0 <= i < |m| ==> r[i].totalGives == m[i].totalGives + (if ByUser(g, m[i].id) then 1 else 0)
    ensures |r| > |m| ==> r[|m|] == NewEntry(g.user.value).(totalGives := 1)
  {
    match g.user
    case None => m
    case Some(u) =>
      match IndexOf(m, u.id)
      case Some(i) => m[i := m[i].(totalGives := m[i].totalGives + 1)]
      case None => m + [NewEntry(u).(totalGives := 1)]
  }

  /** The `userMap` after the `forEach` over `gives`, in insertion order. */
  function Tally(gives: seq<GiveJson>): (m: seq<Entry>)
    ensures Accurate(gives, m)
    ensures Sum(m) == |Filter(gives, (g: GiveJson) => g.user.Some?)|
  {
    if |gives| == 0 then []
    else
      var a, g := gives[..|gives| - 1], gives[|gives| - 1];
      assert a + [g] == gives;
      var m := Tally(a);
      AddAccurate(a, g, m);
      AddSum(a, g, m);
      Add(m, g)
  }

  function Sum(m: seq<Entry>): nat {
    if |m| == 0 then 0 else m[0].totalGives + Sum(m[1..])
  }

  lemma {:induction false} SumAppend(m: seq<Entry>, e: Entry)
    ensures Sum(m + [e]) == Sum(m) + e.totalGives
  {
    if |m| > 0 {
      assert (m + [e])[1..] == m[1..] + [e];
      SumAppend(m[1..], e);
    }
  }

  lemma {:induction false} SumUpdate(m: seq<Entry>, i: nat, e: Entry)
    requires i < |m|
    ensures Sum(m[i := e]) + m[i].totalGives == Sum(m) + e.totalGives
  {
    if i > 0 {
      assert m[i := e][1..] == m[1..][i - 1 := e];
      SumUpdate(m[1..], i - 1, e);
    }
  }

  lemma AddSum(a: seq<GiveJson>, g: GiveJson, m: seq<Entry>)
    requires Sum(m) == |Filter(a, (g: GiveJson) => g.user.Some?)|
    ensures Sum(Add(m, g)) == |Filter(a + [g], (g: GiveJson) => g.user.Some?)|
  {
    FilterConcat(a, [g], (g: GiveJson) => g.user.Some?);
    match g.user
    case None =>
    case Some(u) =>
      match IndexOf(m, u.id)
      case Some(i) => SumUpdate(m, i, m[i].(totalGives := m[i].totalGives + 1));
      case None => SumAppend(m, NewEntry(u).(totalGives := 1));
  }

  lemma {:induction false} FirstUserAppend(a: seq<GiveJson>, g: GiveJson, id: nat)
    ensures FirstUser(a + [g], id) ==
            if FirstUser(a, id).Some? then FirstUser(a, id)
            else if ByUser(g, id) then g.user else None
  {
    if |a| == 0 {
      assert a + [g] == [g];
    } else {
      assert (a + [g])[1..] == a[1..] + [g];
      FirstUserAppend(a[1..], g, id);
    }
  }

  lemma CountAppend(a: seq<GiveJson>, g: GiveJson, id: nat)
    ensures Count(a + [g], id) == Count(a, id) + (if ByUser(g, id) then 1 else 0)
  {
    FilterConcat(a, [g], (g: GiveJson) => ByUser(g, id));
  }

  /** The step of the fold keeps the tally accurate. */
  lemma AddAccurate(a: seq<GiveJson>, g: GiveJson, m: seq<Entry>)
    requires Accurate(a, m)
    ensures Accurate(a + [g], Add(m, g))
  {
    match g.user
    case None => AddSkipped(a, g, m);
    case Some(u) =>
      match IndexOf(m, u.id)
      case Some(i) => AddCounted(a, g, m, i);
      case None => AddNew(a, g, m);
  }

  /** How appending `g` changes the first record and the count of each user. */
  lemma AppendFacts(a: seq<GiveJson>, g: GiveJson)
    ensures forall id :: FirstUser(a + [g], id) ==
              (if FirstUser(a, id).Some? then FirstUser(a, id) else if ByUser(g, id) then g.user else None)
    ensures forall id :: Count(a + [g], id) == Count(a, id) + (if ByUser(g, id) then 1 else 0)
  {
    forall id
      ensures FirstUser(a + [g], id) ==
              (if FirstUser(a, id).Some? then FirstUser(a, id) else if ByUser(g, id) then g.user else None)
      ensures Count(a + [g], id) == Count(a, id) + (if ByUser(g, id) then 1 else 0)
    {
      FirstUserAppend(a, g, id);
      CountAppend(a, g, id);
    }
  }

  lemma AddSkipped(a: seq<GiveJson>, g: GiveJson, m: seq<Entry>)
    requires Accurate(a, m) && g.user.None?
    ensures Accurate(a + [g], m)
  {
    AppendFacts(a, g);
    forall id
      ensures FirstUser(a + [g], id) == FirstUser(a, id) && Count(a + [g], id) == Count(a, id)
    {
      assert !ByUser(g, id);
    }
  }

  lemma AddCounted(a: seq<GiveJson>, g: GiveJson, m: seq<Entry>, i: nat)
    requires Accurate(a, m) && g.user.Some? && IndexOf(m, g.user.value.id) == Some(i)
    ensures Accurate(a + [g], m[i := m[i].(totalGives := m[i].totalGives + 1)])
  {
    AppendFacts(a, g);
    var gives, u := a + [g], g.user.value;
    var m' := m[i := m[i].(totalGives := m[i].totalGives + 1)];
    forall k | 0 <= k < |m'|
      ensures FirstUser(gives, m'[k].id).Some? && m'[k] == EntryFor(gives, m'[k].id)
    {
      if k != i {
        assert m'[k] == m[k] && m[k].id != u.id;
        assert !ByUser(g, m[k].id);
      }
    }
    forall id | FirstUser(gives, id).Some?
      ensures IndexOf(m', id).Some?
    {
      if id != u.id {
        assert !ByUser(g, id);
        var k := IndexOf(m, id).value;
        assert m'[k].id == id;
      } else {
        assert m'[i].id == id;
      }
    }
  }

  lemma AddNew(a: seq<GiveJson>, g: GiveJson, m: seq<Entry>)
    requires Accurate(a, m) && g.user.Some? && IndexOf(m, g.user.value.id).None?
    ensures Accurate(a + [g], m + [NewEntry(g.user.value).(totalGives := 1)])
  {
    AppendFacts(a, g);
    var gives, u := a + [g], g.user.value;
    var m' := m + [NewEntry(u).(totalGives := 1)];
    assert FirstUser(a, u.id).None?;
    FirstUserIffCounted(a, u.id);
    forall k | 0 <= k < |m'|
      ensures FirstUser(gives, m'[k].id).Some? && m'[k] == EntryFor(gives, m'[k].id)
    {
      if k < |m| {
        assert m'[k] == m[k] && m[k].id != u.id;
        assert !ByUser(g, m[k].id);
      }
    }
    forall id | FirstUser(gives, id).Some?
      ensures IndexOf(m', id).Some?
    {
      if id == u.id {
        assert m'[|m|].id == id;
      } else {
        assert !ByUser(g, id);
        var k := IndexOf(m, id).value;
        assert m'[k].id == id;
      }
    }
  }

  /** A user has a first record exactly when they have a record. */
  lemma {:induction false} FirstUserIffCounted(gives: seq<GiveJson>, id: nat)
    ensures FirstUser(gives, id).Some? <==> Count(gives, id) > 0
  {
    if |gives| > 0 {
      FirstUserIffCounted(gives[1..], id);
    }
  }

  /** Object keys are unique and `Object.values` lists integer keys in
      ascending order. */
  predicate IdsAscending(s: seq<Entry>) {
    forall i, j :: 0 <= i < j < |s| ==> s[i].id < s[j].id
  }

  function InsertById(e: Entry, s: seq<Entry>): (r: seq<Entry>)
    requires IdsAscending(s)
    requires forall k :: 0 <= k < |s| ==> s[k].id != e.id
    ensures |r| == |s| + 1
    ensures IdsAscending(r)
    ensures forall x :: x in r <==> x == e || x in s
    ensures r[0] == if |s| > 0 && s[0].id < e.id then s[0] else e
  {
    if |s| == 0 || e.id < s[0].id then [e] + s
    else [s[0]] + InsertById(e, s[1..])
  }

  /** `Object.values(userMap)`: the rows in ascending id. */
  function ObjectValues(m: seq<Entry>): (r: seq<Entry>)
    requires UniqueIds(m)
    ensures |r| == |m|
    ensures IdsAscending(r)
    ensures forall x :: x in r <==> x in m
  {
    if |m| == 0 then []
    else
      var rest := ObjectValues(m[1..]);
      assert forall k :: 0 <= k < |rest| ==> rest[k] in m[1..];
      assert forall x :: x in m <==> x == m[0] || x in m[1..];
      InsertById(m[0], rest)
  }

  /** One insertion of the stable sort with comparator
      `b.total_gives - a.total_gives`: `e`, which came first, goes before
      every row with a count not above its own. */
  function InsertByCount(e: Entry, s: seq<Entry>): (r: seq<Entry>)
    ensures |r| == |s| + 1
    ensures forall x :: x in r <==> x == e || x in s
    ensures r[0] == if |s| > 0 && s[0].totalGives > e.totalGives then s[0] else e
    ensures Sum(r) == Sum(s) + e.totalGives
  {
    if |s| == 0 || s[0].totalGives <= e.totalGives then [e] + s
    else
      var r := [s[0]] + InsertByCount(e, s[1..]);
      assert r[1..] == InsertByCount(e, s[1..]);
      r
  }

  /** The stable sort by descending count. */
  function SortByCount(s: seq<Entry>): (r: seq<Entry>)
    ensures |r| == |s|
    ensures forall x :: x in r <==> x in s
    ensures Sum(r) == Sum(s)
  {
    if |s| == 0 then []
    else
      assert forall x :: x in s <==> x == s[0] || x in s[1..];
      InsertByCount(s[0], SortByCount(s[1..]))
  }

  /** The leaderboard order: more gives first, equal counts by ascending id. */
  predicate Before(a: Entry, b: Entry) {
    a.totalGives > b.totalGives || (a.totalGives == b.totalGives && a.id < b.id)
  }

  predicate Ranked(s: seq<Entry>) {
    forall i, j :: 0 <= i < j < |s| ==> Before(s[i], s[j])
  }

  /** Inserting a row whose id is below every id present keeps the order
      ranked and the ids unique. */
  lemma {:induction false} InsertByCountRanked(e: Entry, s: seq<Entry>)
    requires Ranked(s) && UniqueIds(s)
    requires forall k :: 0 <= k < |s| ==> e.id < s[k].id
    ensures Ranked(InsertByCount(e, s)) && UniqueIds(InsertByCount(e, s))
  {
    if |s| > 0 && s[0].totalGives > e.totalGives {
      InsertByCountRanked(e, s[1..]);
      var r := InsertByCount(e, s);
      var tail := InsertByCount(e, s[1..]);
      assert r == [s[0]] + tail;
      forall k | 0 <= k < |tail|
        ensures Before(s[0], tail[k]) && s[0].id != tail[k].id
      {
        assert tail[k] == e || tail[k] in s[1..];
      }
    }
  }

  /** Sorting an id-ascending list by count with a stable sort orders it by
      count, breaking ties by ascending id. */
  lemma {:induction false} SortByCountRanked(s: seq<Entry>)
    requires IdsAscending(s)
    ensures Ranked(SortByCount(s)) && UniqueIds(SortByCount(s))
  {
    if |s| > 0 {
      SortByCountRanked(s[1..]);
      var rest := SortByCount(s[1..]);
      forall k | 0 <= k < |rest|
        ensures s[0].id < rest[k].id
      {
        assert rest[k] in s[1..];
      }
      InsertByCountRanked(s[0], rest);
    }
  }

  /** The all-time leaderboard: one row per creator, each row carrying the
      name and picture of that creator's first record and their number of
      records (at least one); every creator present; the counts adding up to
      the records that have a creator; ranked by count, ties by ascending
      id. */
  function Leaderboard(gives: seq<GiveJson>): (r: seq<Entry>)
    ensures Ranked(r) && UniqueIds(r)
    ensures forall i :: 0 <= i < |r| ==>
              FirstUser(gives, r[i].id).Some? && r[i] == EntryFor(gives, r[i].id) && r[i].totalGives >= 1
    ensures forall id :: FirstUser(gives, id).Some? ==> EntryFor(gives, id) in r
    ensures Sum(r) == |Filter(gives, (g: GiveJson) => g.user.Some?)|
  {
    var m := Tally(gives);
    var values := ObjectValues(m);
    var r := SortByCount(values);
    SortByCountRanked(values);
    forall i | 0 <= i < |r|
      ensures FirstUser(gives, r[i].id).Some? && r[i] == EntryFor(gives, r[i].id) && r[i].totalGives >= 1
    {
      assert r[i] in m;
      FirstUserIffCounted(gives, r[i].id);
    }
    forall id | FirstUser(gives, id).Some?
      ensures EntryFor(gives, id) in r
    {
      var k := IndexOf(m, id).value;
      assert m[k] in values;
    }
    ObjectValuesSum(m);
    r
  }

  lemma {:induction false} ObjectValuesSum(m: seq<Entry>)
    requires UniqueIds(m)
    ensures Sum(ObjectValues(m)) == Sum(m)
  {
    if |m| > 0 {
      ObjectValuesSum(m[1..]);
      var rest := ObjectValues(m[1..]);
      assert forall k :: 0 <= k < |rest| ==> rest[k] in m[1..];
      InsertByIdSum(m[0], rest);
    }
  }

  lemma {:induction false} InsertByIdSum(e: Entry, s: seq<Entry>)
    requires IdsAscending(s)
    requires forall k :: 0 <= k < |s| ==> s[k].id != e.id
    ensures Sum(InsertById(e, s)) == Sum(s) + e.totalGives
  {
    if |s| > 0 && s[0].id < e.id {
      InsertByIdSum(e, s[1..]);
      assert InsertById(e, s)[1..] == InsertById(e, s[1..]);
    }
  }

  /** The records the weekly board counts: a creation instant is present and
      lies in the inclusive window `[weekAgo, now]`. */
  predicate InWeek(g: GiveJson, weekAgo: int, now: int) {
    g.createdAt.Some? && weekAgo <= g.createdAt.value <= now
  }

  function WeekGives(gives: seq<GiveJson>, weekAgo: int, now: int): seq<GiveJson> {
    Filter(gives, (g: GiveJson) => InWeek(g, weekAgo, now))
  }

  /** The weekly leaderboard: the all-time construction over the records of
      the window only. */
  function WeeklyLeaderboard(gives: seq<GiveJson>, weekAgo: int, now: int): (r: seq<Entry>)
    ensures Ranked(r) && UniqueIds(r)
    ensures forall i :: 0 <= i < |r| ==> r[i].totalGives == Count(WeekGives(gives, weekAgo, now), r[i].id)
  {
    Leaderboard(WeekGives(gives, weekAgo, now))
  }

  /** Every user on the weekly board is on the all-time board, with at least
      as many gives there. */
  lemma WeeklyAtMostAllTime(gives: seq<GiveJson>, weekAgo: int, now: int)
    ensures forall w :: w in WeeklyLeaderboard(gives, weekAgo, now) ==>
              FirstUser(gives, w.id).Some? &&
              EntryFor(gives, w.id) in Leaderboard(gives) &&
              w.totalGives <= EntryFor(gives, w.id).totalGives
  {
    forall w | w in WeeklyLeaderboard(gives, weekAgo, now)
      ensures FirstUser(gives, w.id).Some? &&
              EntryFor(gives, w.id) in Leaderboard(gives) &&
              w.totalGives <= EntryFor(gives, w.id).totalGives
    {
      CountInWindow(gives, weekAgo, now, w.id);
      FirstUserIffCounted(gives, w.id);
    }
  }

  /** A user has no more records in the window than in total. */
  lemma CountInWindow(gives: seq<GiveJson>, weekAgo: int, now: int, id: nat)
    ensures Count(WeekGives(gives, weekAgo, now), id) <= Count(gives, id)
  {
    var inWeek := (g: GiveJson) => InWeek(g, weekAgo, now);
    var byUser := (g: GiveJson) => ByUser(g, id);
    var both := (g: GiveJson) => inWeek(g) && byUser(g);
    var week := WeekGives(gives, weekAgo, now);
    FilterAgree(gives, inWeek, (g: GiveJson) => InWeek(g, weekAgo, now));
    assert week == Filter(gives, inWeek);
    FilterAgree(week, byUser, (g: GiveJson) => ByUser(g, id));
    assert Count(week, id) == |Filter(week, byUser)|;
    FilterFilter(gives, inWeek, byUser, both);
    assert Filter(week, byUser) == Filter(gives, both);
    FilterMonotone(gives, both, byUser);
    FilterAgree(gives, byUser, (g: GiveJson) => ByUser(g, id));
  }

  /** `slice(0, 3)` and `slice(3)`: the podium and the rest, which together
      are the whole board. */
  function Podium(board: seq<Entry>): (r: (seq<Entry>, seq<Entry>))
    ensures r.0 + r.1 == board
    ensures |r.0| == if |board| < 3 then |board| else 3
  {
    var n := if |board| < 3 then |board| else 3;
    (board[..n], board[n..])
  }
}
