/** The administrator's user list: one row per user, without the password, with the number of the
    user's records and the signed sums of their income-category and expense-category amounts,
    newest account first. */
module AdminUsers {
  import opened Schema
  import opened Sorting
  import opened Aggregates

  /** `u.id, u.username, u.is_admin, u.created_at, record_count, total_income, total_expense`. */
  datatype UserSummary = UserSummary(
    id: int, username: string, isAdmin: int, createdAt: int,
    recordCount: int, totalIncome: int, totalExpense: int)

  /** The grouping column: `LEFT JOIN records r ON u.id = r.user_id`. */
  function OwnerKey(j: Joined): int
  {
    j.record.userId
  }

  /** `COUNT(r.id)` counts one per joined record. */
  function One(j: Joined): int
  {
    1
  }

  function RecordCountOf(s: UserSummary): int
  {
    s.recordCount
  }

  function TotalIncomeOf(s: UserSummary): int
  {
    s.totalIncome
  }

  function TotalExpenseOf(s: UserSummary): int
  {
    s.totalExpense
  }

  /** The group of user `u` over the joined records `js`. A user without records has one
      null-joined row whose `CASE` yields 0 and whose `r.id` is not counted, so every figure is
      0 for them. */
  function Summary(u: User, js: seq<Joined>): UserSummary
  {
    UserSummary(u.id, u.username, u.isAdmin, u.createdAt,
                SumOn(js, OwnerKey, One, u.id),
                SumOn(js, OwnerKey, IncomePart, u.id),
                SumOn(js, OwnerKey, ExpensePart, u.id))
  }

  /** `ORDER BY u.created_at DESC`. */
  predicate NewerAccountFirst(a: UserSummary, b: UserSummary)
  {
    a.createdAt >= b.createdAt
  }

  lemma NewerAccountFirstIsOrder()
    ensures Total(NewerAccountFirst) && Transitive(NewerAccountFirst)
  {
  }

  /** The groups in table order. */
  function Grouped(users: seq<User>, js: seq<Joined>): (r: seq<UserSummary>)
    ensures |r| == |users|
  {
    seq(|users|, i requires 0 <= i < |users| => Summary(users[i], js))
  }

  function Ids(users: seq<User>): (ids: seq<int>)
    ensures |ids| == |users|
  {
    seq(|users|, i requires 0 <= i < |users| => users[i].id)
  }

  /** The listing handler. Which rows these are, their order and their figures are stated by the
      lemmas below. */
  function List(users: seq<User>, records: seq<Record>, categories: seq<Category>): (r: seq<UserSummary>)
    ensures |r| == |users|
  {
    Sort(Grouped(users, Join(records, categories)), NewerAccountFirst)
  }

  /** `r` is the summary of one of `users`. */
  ghost predicate SummaryOfUser(s: UserSummary, users: seq<User>, js: seq<Joined>)
  {
    exists u :: u in users && s == Summary(u, js)
  }

  /** Exactly the users' summaries are listed, each as often as the user occurs, newest account
      first. */
  lemma ListShape(users: seq<User>, records: seq<Record>, categories: seq<Category>)
    ensures var js := Join(records, categories);
            var r := List(users, records, categories);
            && multiset(r) == multiset(Grouped(users, js))
            && (forall u :: u in users ==> Summary(u, js) in r)
            && (forall i :: 0 <= i < |r| ==> SummaryOfUser(r[i], users, js))
            && Sorted(r, NewerAccountFirst)
  {
    var js := Join(records, categories);
    var g := Grouped(users, js);
    var r := List(users, records, categories);
    forall u | u in users ensures Summary(u, js) in r {
      var k :| 0 <= k < |users| && users[k] == u;
      assert g[k] == Summary(u, js);
      assert g[k] in multiset(r);
    }
    forall i | 0 <= i < |r| ensures SummaryOfUser(r[i], users, js) {
      assert r[i] in multiset(g);
      var k :| 0 <= k < |g| && g[k] == r[i];
      assert users[k] in users;
    }
    NewerAccountFirstIsOrder();
    SortSorted(g, NewerAccountFirst);
  }

  /** A user none of whose records exist is listed with no records and zero totals. */
  lemma NoRecordsNoFigures(u: User, records: seq<Record>, categories: seq<Category>)
    requires forall r :: r in records ==> r.userId != u.id
    ensures var s := Summary(u, Join(records, categories));
            s.recordCount == 0 && s.totalIncome == 0 && s.totalExpense == 0
  {
    var js := Join(records, categories);
    forall j | j in js ensures OwnerKey(j) != u.id {
      var k :| 0 <= k < |js| && js[k] == j;
    }
    SumOnAbsent(js, OwnerKey, One, u.id);
    SumOnAbsent(js, OwnerKey, IncomePart, u.id);
    SumOnAbsent(js, OwnerKey, ExpensePart, u.id);
  }

  /** Summing one figure over the groups of a list of users is summing it over the rows of their
      ids. */
  lemma {:induction false} GroupedSums(users: seq<User>, js: seq<Joined>)
    ensures SumOf(Grouped(users, js), RecordCountOf) == SumOver(js, OwnerKey, One, Ids(users))
    ensures SumOf(Grouped(users, js), TotalIncomeOf) == SumOver(js, OwnerKey, IncomePart, Ids(users))
    ensures SumOf(Grouped(users, js), TotalExpenseOf) == SumOver(js, OwnerKey, ExpensePart, Ids(users))
  {
    if users != [] {
      var n := |users| - 1;
      GroupedSums(users[..n], js);
      assert Grouped(users, js)[..n] == Grouped(users[..n], js);
      assert Ids(users)[..n] == Ids(users[..n]);
    }
  }

  /** `COUNT(*) FROM records` equals the sum of the counts. */
  lemma {:induction false} CountIsLength(js: seq<Joined>)
    ensures SumOf(js, One) == |js|
  {
    if js != [] {
      CountIsLength(js[..|js| - 1]);
    }
  }

  /** When every record belongs to a listed user, the listed counts add up to the number of
      records and the listed totals to the signed sums over all records. */
  lemma FiguresAddUp(users: seq<User>, nextId: int, records: seq<Record>, categories: seq<Category>)
    requires UsersValid(users, nextId)
    requires forall r :: r in records ==> exists u :: u in users && u.id == r.userId
    ensures var js := Join(records, categories);
            var r := List(users, records, categories);
            && SumOf(r, RecordCountOf) == |records|
            && SumOf(r, TotalIncomeOf) == SumOf(js, IncomePart)
            && SumOf(r, TotalExpenseOf) == SumOf(js, ExpensePart)
  {
    var js := Join(records, categories);
    var g := Grouped(users, js);
    var ids := Ids(users);
    assert Distinct(ids);
    forall j | j in js ensures OwnerKey(j) in ids {
      var k :| 0 <= k < |js| && js[k] == j;
      assert records[k] in records;
      var u :| u in users && u.id == records[k].userId;
      var m :| 0 <= m < |users| && users[m] == u;
      assert ids[m] == OwnerKey(j);
    }
    GroupedSums(users, js);
    SumOverCover(js, OwnerKey, One, ids);
    SumOverCover(js, OwnerKey, IncomePart, ids);
    SumOverCover(js, OwnerKey, ExpensePart, ids);
    CountIsLength(js);
    SortKeepsSum(g, NewerAccountFirst, RecordCountOf);
    SortKeepsSum(g, NewerAccountFirst, TotalIncomeOf);
    SortKeepsSum(g, NewerAccountFirst, TotalExpenseOf);
  }
}
