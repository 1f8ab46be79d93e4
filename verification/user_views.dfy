/** The account endpoints of the server that compute something: the top-ten
    leaderboard, the caller's statistics (total, last week, rank) and the
    serializer choice of the account detail view. Instants are seconds on
    the same integer clock as `Give.createdAt`; `now` is the server clock at
    the time of the request. */
module UserViews {
  import opened Wrappers
  import opened Seqs
  import opened UserModel
  import opened GiveModel
  import opened Http
  import Permissions

  /** `timedelta(days=7)` in seconds. */
  const Week: int := 7 * 24 * 60 * 60

  /** How many leaderboard rows the view returns at most. */
  const LeaderboardSize: nat := 10

  /** The lower bound on `created_at` the `period` query parameter selects:
      only `"lastweek"` restricts, to the week before `now`; a missing
      parameter defaults to `"all"`, and every other value means all time. */
  function Since(period: Option<string>, now: int): (since: Option<int>)
    ensures since.Some? <==> period == Some("lastweek")
    ensures since.Some? ==> since.value == now - Week
  {
    if period.GetOr("all") == "lastweek" then Some(now - Week) else None
  }

  /** A give counts for the window if it was created at or after `since`;
      there is no upper bound. */
  predicate InWindow(g: Give, since: Option<int>) {
    since.None? || g.createdAt >= since.value
  }

  /** The `give_count` annotation: the user's gives in the window, active or
      not. */
  function WindowCount(gives: seq<Give>, uid: nat, since: Option<int>): nat {
    |Filter(gives, (g: Give) => g.user.id == uid && InWindow(g, since))|
  }

  /** Without a window the annotation is `total_gives`, and a window never
      counts more than that. */
  lemma WindowCountBounds(gives: seq<Give>, u: User, since: Option<int>)
    ensures WindowCount(gives, u.id, None) == TotalGives(u, gives)
    ensures WindowCount(gives, u.id, since) <= TotalGives(u, gives)
  {
    FilterAgree(gives, (g: Give) => g.user.id == u.id && InWindow(g, None), (g: Give) => g.user.id == u.id);
    FilterMonotone(gives, (g: Give) => g.user.id == u.id && InWindow(g, since), (g: Give) => g.user.id == u.id);
  }

  /** One leaderboard row: the account and its `give_count`. */
  datatype LeaderEntry = LeaderEntry(user: User, giveCount: nat)

  predicate SortedDesc(s: seq<LeaderEntry>) {
    forall i, j :: 0 <= i < j < |s| ==> s[i].giveCount >= s[j].giveCount
  }

  /** No account has two rows. */
  predicate DistinctAccounts(s: seq<LeaderEntry>) {
    forall i, j :: 0 <= i < j < |s| ==> s[i].user.id != s[j].user.id
  }

  /** The annotated users with `give_count > 0`, in table order. */
  function Candidates(users: seq<User>, gives: seq<Give>, since: Option<int>): (r: seq<LeaderEntry>)
    ensures forall i :: 0 <= i < |r| ==>
              r[i].giveCount > 0 && r[i].giveCount == WindowCount(gives, r[i].user.id, since) && r[i].user in users
    ensures forall u :: u in users && WindowCount(gives, u.id, since) > 0 ==>
              LeaderEntry(u, WindowCount(gives, u.id, since)) in r
  {
    if |users| == 0 then []
    else
      var rest := Candidates(users[1..], gives, since);
      var n := WindowCount(gives, users[0].id, since);
      assert forall u :: u in users <==> u == users[0] || u in users[1..];
      if n > 0 then [LeaderEntry(users[0], n)] + rest else rest
  }

  /** With unique primary keys, no account is a candidate twice. */
  lemma {:induction false} CandidatesDistinct(users: seq<User>, gives: seq<Give>, since: Option<int>)
    requires UniqueUserIds(users)
    ensures DistinctAccounts(Candidates(users, gives, since))
  {
    if |users| > 0 {
      var rest := Candidates(users[1..], gives, since);
      TailOfUnique(users);
      CandidatesDistinct(users[1..], gives, since);
      var n := WindowCount(gives, users[0].id, since);
      if n > 0 {
        ConsDistinct(LeaderEntry(users[0], n), rest);
      }
    }
  }

  /** Dropping the first account keeps ids unique, and no later account
      shares the first one's id. */
  lemma TailOfUnique(users: seq<User>)
    requires UniqueUserIds(users) && |users| > 0
    ensures UniqueUserIds(users[1..])
    ensures forall u :: u in users[1..] ==> u.id != users[0].id
  {
  }

  /** A row for an account the rest does not list keeps accounts distinct. */
  lemma ConsDistinct(head: LeaderEntry, rest: seq<LeaderEntry>)
    requires DistinctAccounts(rest)
    requires forall i :: 0 <= i < |rest| ==> rest[i].user.id != head.user.id
    ensures DistinctAccounts([head] + rest)
  {
  }

  /** Places `e` into a descending list, before the rows with the same count,
      so that sorting by repeated insertion from the back keeps equal counts
      in their original order. */
  function Insert(e: LeaderEntry, s: seq<LeaderEntry>): (r: seq<LeaderEntry>)
    requires SortedDesc(s)
    ensures SortedDesc(r)
    ensures multiset(r) == multiset(s) + multiset{e}
    ensures r[0] == (if |s| > 0 && s[0].giveCount > e.giveCount then s[0] else e)
  {
    if |s| == 0 || s[0].giveCount <= e.giveCount then [e] + s
    else
      var rest := Insert(e, s[1..]);
      assert s == [s[0]] + s[1..];
      [s[0]] + rest
  }

  /** Inserting a row for an account not yet listed keeps the accounts
      distinct. */
  lemma {:induction false} InsertDistinct(e: LeaderEntry, s: seq<LeaderEntry>)
    requires SortedDesc(s) && DistinctAccounts(s)
    requires forall i :: 0 <= i < |s| ==> s[i].user.id != e.user.id
    ensures DistinctAccounts(Insert(e, s))
  {
    if |s| > 0 && s[0].giveCount > e.giveCount {
      var rest := Insert(e, s[1..]);
      InsertDistinct(e, s[1..]);
      forall i | 0 <= i < |rest| ensures rest[i].user.id != s[0].user.id {
        assert rest[i] in multiset(s[1..]) + multiset{e};
      }
    }
  }

  /** `order_by('-give_count')`: a stable sort into descending count. */
  function SortDesc(s: seq<LeaderEntry>): (r: seq<LeaderEntry>)
    ensures SortedDesc(r)
    ensures multiset(r) == multiset(s)
  {
    if |s| == 0 then []
    else
      assert s == [s[0]] + s[1..];
      Insert(s[0], SortDesc(s[1..]))
  }

  /** Sorting keeps the accounts distinct. */
  lemma {:induction false} SortDescDistinct(s: seq<LeaderEntry>)
    requires DistinctAccounts(s)
    ensures DistinctAccounts(SortDesc(s))
  {
    if |s| > 0 {
      var rest := SortDesc(s[1..]);
      SortDescDistinct(s[1..]);
      forall i | 0 <= i < |rest| ensures rest[i].user.id != s[0].user.id {
        assert rest[i] in multiset(s[1..]);
      }
      InsertDistinct(s[0], rest);
    }
  }

  /** `LeaderboardView.get_queryset`: at most ten rows, each an account of
      the table with a positive count of gives in the period, in descending
      count, no account twice; and no account left out has more gives than
      any row shown. */
  function Leaderboard(users: seq<User>, gives: seq<Give>, period: Option<string>, now: int)
    : (r: seq<LeaderEntry>)
    ensures |r| <= LeaderboardSize
    ensures SortedDesc(r)
    ensures forall i :: 0 <= i < |r| ==>
              && r[i].user in users
              && r[i].giveCount > 0
              && r[i].giveCount == WindowCount(gives, r[i].user.id, Since(period, now))
    ensures forall u :: u in users && WindowCount(gives, u.id, Since(period, now)) > 0 &&
                        LeaderEntry(u, WindowCount(gives, u.id, Since(period, now))) !in r ==>
              |r| == LeaderboardSize &&
              forall i :: 0 <= i < |r| ==> r[i].giveCount >= WindowCount(gives, u.id, Since(period, now))
    ensures UniqueUserIds(users) ==> forall i, j :: 0 <= i < j < |r| ==> r[i].user.id != r[j].user.id
  {
    var since := Since(period, now);
    var candidates := Candidates(users, gives, since);
    var sorted := SortDesc(candidates);
    var r := Top(sorted, LeaderboardSize);
    TopOfPermutation(candidates, sorted, LeaderboardSize);
    if UniqueUserIds(users) then
      CandidatesDistinct(users, gives, since);
      SortDescDistinct(candidates);
      r
    else r
  }

  /** The first `n` rows (all of them when there are fewer). */
  function Top(s: seq<LeaderEntry>, n: nat): (r: seq<LeaderEntry>)
    ensures |r| <= n && |r| <= |s| && r == s[..|r|]
    ensures |r| == n || r == s
    ensures DistinctAccounts(s) ==> DistinctAccounts(r)
  {
    if |s| <= n then s else s[..n]
  }

  /** Taking the head of a descending permutation of `candidates` keeps only
      candidates, and whatever candidate it drops has no more than any row
      kept, with the head full. */
  lemma TopOfPermutation(candidates: seq<LeaderEntry>, sorted: seq<LeaderEntry>, n: nat)
    requires SortedDesc(sorted) && multiset(sorted) == multiset(candidates)
    ensures forall i :: 0 <= i < |Top(sorted, n)| ==> Top(sorted, n)[i] in candidates
    ensures forall e :: e in candidates && e !in Top(sorted, n) ==>
              |Top(sorted, n)| == n &&
              forall i :: 0 <= i < |Top(sorted, n)| ==> Top(sorted, n)[i].giveCount >= e.giveCount
  {
    var r := Top(sorted, n);
    forall i | 0 <= i < |r|
      ensures r[i] in candidates
    {
      assert r[i] == sorted[i];
      assert sorted[i] in multiset(candidates);
    }
    forall e | e in candidates && e !in r
      ensures |r| == n && forall i :: 0 <= i < |r| ==> r[i].giveCount >= e.giveCount
    {
      assert e in multiset(sorted);
      var j :| 0 <= j < |sorted| && sorted[j] == e;
      assert j >= |r|;
    }
  }

  /** Any period other than `"lastweek"` gives the all-time leaderboard. */
  lemma OtherPeriodsAreAllTime(users: seq<User>, gives: seq<Give>, period: Option<string>, now: int)
    requires period != Some("lastweek")
    ensures Leaderboard(users, gives, period, now) == Leaderboard(users, gives, None, now)
  {
  }

  /** The `rank` of `user_stats_view`: one more than the number of accounts
      with strictly more gives, or 0 for an account without gives. */
  function Rank(users: seq<User>, gives: seq<Give>, me: User): (rank: nat)
    ensures rank == 0 <==> TotalGives(me, gives) == 0
    ensures rank > 0 ==> rank == 1 + |Filter(users, (u: User) => TotalGives(u, gives) > TotalGives(me, gives))|
  {
    var total := TotalGives(me, gives);
    if total > 0 then |Filter(users, (u: User) => TotalGives(u, gives) > total)| + 1 else 0
  }

  /** An account of the table with gives ranks between 1 and the number of
      accounts. */
  lemma RankBounds(users: seq<User>, gives: seq<Give>, me: User)
    requires me in users && TotalGives(me, gives) > 0
    ensures 1 <= Rank(users, gives, me) <= |users|
  {
    var k :| 0 <= k < |users| && users[k] == me;
    var total := TotalGives(me, gives);
    FilterStrictlyMonotone(users, (u: User) => TotalGives(u, gives) > total, (u: User) => true, k);
  }

  /** An account whose count nobody exceeds ranks first. */
  lemma MaximumRanksFirst(users: seq<User>, gives: seq<Give>, me: User)
    requires TotalGives(me, gives) > 0
    requires forall i :: 0 <= i < |users| ==> TotalGives(users[i], gives) <= TotalGives(me, gives)
    ensures Rank(users, gives, me) == 1
  {
    FilterNone(users, (u: User) => TotalGives(u, gives) > TotalGives(me, gives));
  }

  /** Accounts with the same number of gives share a rank. */
  lemma EqualCountsShareRank(users: seq<User>, gives: seq<Give>, a: User, b: User)
    requires TotalGives(a, gives) == TotalGives(b, gives)
    ensures Rank(users, gives, a) == Rank(users, gives, b)
  {
  }

  /** Among the accounts of the table, more gives means a strictly better
      (smaller) rank. */
  lemma MoreGivesRanksHigher(users: seq<User>, gives: seq<Give>, a: User, b: User)
    requires a in users
    requires TotalGives(a, gives) > TotalGives(b, gives) > 0
    ensures 0 < Rank(users, gives, a) < Rank(users, gives, b)
  {
    var k :| 0 <= k < |users| && users[k] == a;
    var ta, tb := TotalGives(a, gives), TotalGives(b, gives);
    FilterStrictlyMonotone(users, (u: User) => TotalGives(u, gives) > ta, (u: User) => TotalGives(u, gives) > tb, k);
  }

  /** The body of `user_stats_view`. */
  datatype UserStats = UserStats(totalGives: nat, lastWeekGives: nat, rank: nat)

  /** `user_stats_view`: the caller's total, their gives of the last week,
      which never exceed the total, and their rank. */
  function UserStatsView(users: seq<User>, gives: seq<Give>, me: User, now: int): (r: UserStats)
    ensures r.totalGives == TotalGives(me, gives)
    ensures r.lastWeekGives == WindowCount(gives, me.id, Some(now - Week))
    ensures r.lastWeekGives <= r.totalGives
    ensures r.rank == Rank(users, gives, me)
  {
    WindowCountBounds(gives, me, Some(now - Week));
    UserStats(TotalGives(me, gives), WindowCount(gives, me.id, Some(now - Week)), Rank(users, gives, me))
  }

  datatype UserSerializerChoice = FullUserSerializer | PublicUserSerializer

  /** `UserDetailView.get_serializer_class`: the full serializer exactly for an
      administrator; the owner of the account gets the public one. */
  function UserDetailSerializer(viewer: User): (c: UserSerializerChoice)
    ensures c == FullUserSerializer <==> viewer.isSuperadmin
  {
    if viewer.isSuperadmin then FullUserSerializer else PublicUserSerializer
  }

  /** The fields `UserSerializer` and `PublicUserSerializer` render (besides
      `date_joined`). The public one has no `is_superadmin` or `bio`, but
      renders `email` and `mobile` unmasked. */
  datatype UserView =
    | FullUserView(id: nat, username: string, email: string, firstName: string, lastName: string,
                   mobile: Option<string>, chapter: Option<string>, isSuperadmin: bool,
                   bio: Option<string>, profilePicture: Option<string>, totalGives: nat)
    | PublicUserView(id: nat, username: string, email: string, firstName: string, lastName: string,
                     mobile: Option<string>, chapter: Option<string>, totalGives: nat,
                     profilePicture: Option<string>)

  /** `User.objects.get(pk=...)`: the position of the account with that id. */
  function FindUser(users: seq<User>, id: nat): (r: Option<nat>)
    ensures r.Some? ==> r.value < |users| && users[r.value].id == id
    ensures r.None? ==> forall i :: 0 <= i < |users| ==> users[i].id != id
  {
    FirstIndex(users, (u: User) => u.id == id)
  }

  /** A GET on `UserDetailView`: 404 for an unknown id, then the
      `IsOwnerOrSuperAdmin` object check, which fails with a 500 for an
      anonymous request (it reads `is_superadmin`) and with 403 for anyone
      but the account itself or an administrator; then the serializer
      choice. */
  function RetrieveUser(users: seq<User>, gives: seq<Give>, viewer: Option<User>, id: nat): (r: Response<UserView>)
    ensures FindUser(users, id).None? <==> r == NotFound(FrameworkNotFound)
    ensures r == ServerError <==> FindUser(users, id).Some? && viewer.None?
    ensures r == Forbidden(FrameworkDenied) <==>
              FindUser(users, id).Some? && viewer.Some? && !viewer.value.isSuperadmin && viewer.value.id != id
    ensures r.Success? ==> viewer.Some? && r.body.FullUserView? == viewer.value.isSuperadmin
    ensures r.Success? ==>
              var account := users[FindUser(users, id).value];
              && r.body.id == id && r.body.username == account.username
              && r.body.email == account.email && r.body.mobile == account.mobile
              && r.body.totalGives == TotalGives(account, gives)
  {
    match FindUser(users, id)
    case None => NotFound(FrameworkNotFound)
    case Some(k) =>
      var account := users[k];
      match Permissions.IsOwnerOrSuperAdmin(Requester(viewer), Permissions.Account(account.id))
      case Crash => ServerError
      case Deny => Forbidden(FrameworkDenied)
      case Allow =>
        match UserDetailSerializer(viewer.value)
        case FullUserSerializer =>
          Success(FullUserView(account.id, account.username, account.email, account.firstName, account.lastName,
                               account.mobile, account.chapter, account.isSuperadmin, account.bio,
                               account.profilePicture, TotalGives(account, gives)))
        case PublicUserSerializer =>
          Success(PublicUserView(account.id, account.username, account.email, account.firstName,
                                 account.lastName, account.mobile, account.chapter, TotalGives(account, gives),
                                 account.profilePicture))
  }
}
