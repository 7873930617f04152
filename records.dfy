/** The record store: the caller's filtered, newest-first, paginated listing with its total,
    and creation, update and deletion of the caller's own records. */
module Records {
  import opened Schema
  import opened Sorting

  const DEFAULT_PAGE: int := 1
  const DEFAULT_PAGE_SIZE: int := 20

  const MSG_CREATE_MISSING: string := "金额和分类不能为空"
  const MSG_CREATED: string := "记录添加成功"
  const MSG_UPDATE_MISSING: string := "参数不全"
  const MSG_UPDATE_FORBIDDEN: string := "无权限修改该记录"
  const MSG_UPDATED: string := "记录修改成功"
  const MSG_ID_REQUIRED: string := "记录ID不能为空"
  const MSG_DELETE_FORBIDDEN: string := "无权限删除该记录"
  const MSG_DELETED: string := "记录删除成功"

  /** The listing's query string. A parameter that is absent or empty is None. */
  datatype ListQuery = ListQuery(
    page: Option<int>, pageSize: Option<int>,
    startDate: Option<Date>, endDate: Option<Date>,
    categoryId: Option<int>, kind: Option<string>)

  function PageOf(q: ListQuery): int
  {
    if q.page.Some? then q.page.value else DEFAULT_PAGE
  }

  function PageSizeOf(q: ListQuery): int
  {
    if q.pageSize.Some? then q.pageSize.value else DEFAULT_PAGE_SIZE
  }

  /** The `WHERE` clause shared by the page query and the count query: the caller's rows,
      then each filter the query string switches on. */
  predicate Matches(j: Joined, userId: int, q: ListQuery)
  {
    && j.record.userId == userId
    && (q.startDate.Some? && q.endDate.Some? ==>
          DateLe(q.startDate.value, j.record.recordDate) && DateLe(j.record.recordDate, q.endDate.value))
    && (q.categoryId.Some? ==> j.record.categoryId == q.categoryId.value)
    && (q.kind == Some("income") ==> IsIncomeRow(j))
    && (q.kind == Some("expense") ==> IsExpenseRow(j))
  }

  /** The joined rows the `WHERE` clause keeps, in table order. Written out, like `Aggregates.Filter`, rather
      than as a `Filter` instance: the inductive lemmas below unfold it with its parameters in
      plain view, where a closure would hide them. */
  function MatchingRows(js: seq<Joined>, userId: int, q: ListQuery): (r: seq<Joined>)
    ensures forall j :: j in r <==> j in js && Matches(j, userId, q)
    ensures |r| <= |js|
  {
    if js == [] then []
    else
      var last := js[|js| - 1];
      MatchingRows(js[..|js| - 1], userId, q) + (if Matches(last, userId, q) then [last] else [])
  }

  /** `ORDER BY r.record_date DESC, r.created_at DESC`. */
  predicate NewerFirst(a: Joined, b: Joined)
  {
    if a.record.recordDate == b.record.recordDate then b.record.createdAt <= a.record.createdAt
    else DateLe(b.record.recordDate, a.record.recordDate)
  }

  lemma NewerFirstIsOrder()
    ensures Total(NewerFirst) && Transitive(NewerFirst)
  {
  }

  /** All matching rows, newest first. */
  function Ordered(records: seq<Record>, categories: seq<Category>, userId: int, q: ListQuery): (r: seq<Joined>)
    ensures multiset(r) == multiset(MatchingRows(Join(records, categories), userId, q))
    ensures |r| == |MatchingRows(Join(records, categories), userId, q)|
    ensures Sorted(r, NewerFirst)
  {
    NewerFirstIsOrder();
    SortSorted(MatchingRows(Join(records, categories), userId, q), NewerFirst);
    Sort(MatchingRows(Join(records, categories), userId, q), NewerFirst)
  }

  /** `LIMIT limit OFFSET offset`: a negative limit means no limit and a negative offset counts
      as 0. */
  function Window<T>(s: seq<T>, limit: int, offset: int): (r: seq<T>)
    ensures |r| <= |s|
    ensures limit >= 0 ==> |r| <= limit
    ensures forall x :: x in r ==> x in s
    ensures offset >= 0 ==> forall i :: 0 <= i < |r| ==> offset + i < |s| && r[i] == s[offset + i]
    ensures 0 <= offset <= |s| && limit >= 0 ==>
      |r| == (if limit <= |s| - offset then limit else |s| - offset)
  {
    var start := if offset < 0 then 0 else if offset > |s| then |s| else offset;
    var end := if limit < 0 || start + limit > |s| then |s| else start + limit;
    s[start..end]
  }

  /** A window of an ordered sequence is ordered. */
  lemma WindowKeepsOrder<T>(s: seq<T>, before: (T, T) -> bool, limit: int, offset: int)
    requires Sorted(s, before)
    ensures Sorted(Window(s, limit, offset), before)
  {
    var start := if offset < 0 then 0 else if offset > |s| then |s| else offset;
    var r := Window(s, limit, offset);
    forall i, j | 0 <= i < j < |r| ensures before(r[i], r[j]) {
      assert r[i] == s[start + i] && r[j] == s[start + j];
    }
  }

  /** `a * b` by repeated addition, so that the page arithmetic below stays linear for the
      solver; `TimesIsProduct` ties it to the product. */
  function Times(a: int, b: int): int
    decreases if a < 0 then -a else a
  {
    if a == 0 then 0 else if a > 0 then Times(a - 1, b) + b else Times(a + 1, b) - b
  }

  lemma {:induction false} TimesIsProduct(a: int, b: int)
    ensures Times(a, b) == a * b
    decreases if a < 0 then -a else a
  {
    if a > 0 {
      TimesIsProduct(a - 1, b);
    } else if a < 0 {
      TimesIsProduct(a + 1, b);
    }
  }

  /** `(page - 1) * pageSize`. */
  function Offset(q: ListQuery): int
  {
    Times(PageOf(q) - 1, PageSizeOf(q))
  }

  /** The joined rows of the requested page. */
  function Page(records: seq<Record>, categories: seq<Category>, userId: int, q: ListQuery): (w: seq<Joined>)
    ensures forall j :: j in w ==> j in Join(records, categories) && Matches(j, userId, q)
    ensures Sorted(w, NewerFirst)
    ensures w == Window(Ordered(records, categories, userId, q), PageSizeOf(q), Offset(q))
  {
    var ordered := Ordered(records, categories, userId, q);
    WindowKeepsOrder(ordered, NewerFirst, PageSizeOf(q), Offset(q));
    assert forall j :: j in ordered ==> j in MatchingRows(Join(records, categories), userId, q) by {
      forall j | j in ordered ensures j in MatchingRows(Join(records, categories), userId, q) {
        assert j in multiset(ordered);
      }
    }
    Window(ordered, PageSizeOf(q), Offset(q))
  }

  /** A row of the listing: `r.id, r.amount, r.description, r.record_date, c.name, c.is_income`. */
  datatype Listed = Listed(
    id: int, amount: int, description: string, recordDate: Date,
    categoryName: Option<string>, isIncome: Option<int>)

  function Project(j: Joined): Listed
  {
    Listed(
      j.record.id, j.record.amount, j.record.description, j.record.recordDate,
      if j.category.Some? then Some(j.category.value.name) else None,
      if j.category.Some? then Some(j.category.value.isIncome) else None)
  }

  datatype Listing = Listing(records: seq<Listed>, total: int, page: int, pageSize: int)

  /** The listing handler. What the rows are, and in which order, is stated by the lemmas
      below. */
  function List(records: seq<Record>, categories: seq<Category>, userId: int, q: ListQuery): (r: Listing)
    ensures r.page == PageOf(q) && r.pageSize == PageSizeOf(q)
    ensures r.total == |MatchingRows(Join(records, categories), userId, q)|
    ensures |r.records| <= r.total
    ensures r.pageSize >= 0 ==> |r.records| <= r.pageSize
  {
    Listing(
      ProjectAll(Page(records, categories, userId, q)),
      |MatchingRows(Join(records, categories), userId, q)|, PageOf(q), PageSizeOf(q))
  }

  function ProjectAll(w: seq<Joined>): (r: seq<Listed>)
    ensures |r| == |w|
    ensures forall i :: 0 <= i < |w| ==> r[i] == Project(w[i])
  {
    seq(|w|, i requires 0 <= i < |w| => Project(w[i]))
  }

  /** Every listed row is the projection of one of the caller's rows that passes the filters. */
  lemma ListedRowsMatch(records: seq<Record>, categories: seq<Category>, userId: int, q: ListQuery)
    ensures forall x :: x in List(records, categories, userId, q).records ==>
      exists j :: j in Join(records, categories) && Matches(j, userId, q) && x == Project(j)
  {
    var w := Page(records, categories, userId, q);
    var r := List(records, categories, userId, q).records;
    forall x | x in r ensures exists j :: j in Join(records, categories) && Matches(j, userId, q) && x == Project(j) {
      var i :| 0 <= i < |r| && r[i] == x;
      assert w[i] in w;
    }
  }

  /** The listed rows are newest first. */
  lemma ListedNewestFirst(records: seq<Record>, categories: seq<Category>, userId: int, q: ListQuery)
    ensures var r := List(records, categories, userId, q).records;
            forall i, k :: 0 <= i < k < |r| ==> DateLe(r[k].recordDate, r[i].recordDate)
  {
    var w := Page(records, categories, userId, q);
    var r := List(records, categories, userId, q).records;
    forall i, k | 0 <= i < k < |r| ensures DateLe(r[k].recordDate, r[i].recordDate) {
      assert NewerFirst(w[i], w[k]);
    }
  }

  /** A page holds as many rows as the page size allows and the matches after its offset
      provide. */
  lemma ListedCount(records: seq<Record>, categories: seq<Category>, userId: int, q: ListQuery)
    ensures var r := List(records, categories, userId, q);
            0 <= Offset(q) <= r.total && r.pageSize >= 0 ==>
              |r.records| == (if r.pageSize <= r.total - Offset(q) then r.pageSize else r.total - Offset(q))
  {
    var ordered := Ordered(records, categories, userId, q);
    assert Page(records, categories, userId, q) == Window(ordered, PageSizeOf(q), Offset(q));
  }

  /** The listed rows are the ordered matches from `(page - 1) * pageSize` on. */
  lemma ListedWindow(records: seq<Record>, categories: seq<Category>, userId: int, q: ListQuery)
    ensures var r := List(records, categories, userId, q);
            Offset(q) >= 0 ==> forall i :: 0 <= i < |r.records| ==>
              Offset(q) + i < r.total &&
              r.records[i] == Project(Ordered(records, categories, userId, q)[Offset(q) + i])
  {
    var ordered := Ordered(records, categories, userId, q);
    assert Page(records, categories, userId, q) == Window(ordered, PageSizeOf(q), Offset(q));
  }

  /** Row `k` of a listing cut into pages of `n` rows is entry `r` of page `p`. */
  lemma PageOfRow(k: int, n: int) returns (p: int, r: int)
    requires 0 <= k && 1 <= n
    ensures p == k / n + 1 && r == k % n
    ensures p >= 1 && 0 <= r < n && Times(p - 1, n) == k - r
  {
    p, r := k / n + 1, k % n;
    TimesIsProduct(p - 1, n);
  }

  /** Entry `r` of page `p` is ordered match `k = (p - 1) * pageSize + r`. */
  lemma PageEntry(records: seq<Record>, categories: seq<Category>, userId: int, q: ListQuery, p: int, r: int, k: int)
    requires p >= 1 && 0 <= r < PageSizeOf(q)
    requires k == Times(p - 1, PageSizeOf(q)) + r && k - r >= 0
    requires k < |MatchingRows(Join(records, categories), userId, q)|
    ensures var onPage := List(records, categories, userId, q.(page := Some(p)));
            r < |onPage.records| && onPage.records[r] == Project(Ordered(records, categories, userId, q)[k])
  {
    var q' := q.(page := Some(p));
    OtherPage(records, categories, userId, q, p);
    ListedCount(records, categories, userId, q');
    ListedWindow(records, categories, userId, q');
    var offset := Offset(q');
    assert offset + r == k;
    var onPage := List(records, categories, userId, q');
    assert r < |onPage.records|;
    assert onPage.records[r] == Project(Ordered(records, categories, userId, q')[offset + r]);
  }

  /** Every matching row is on exactly the page its position says: ordered match `k` is entry
      `k % pageSize` of page `k / pageSize + 1`. */
  lemma EveryMatchIsOnItsPage(records: seq<Record>, categories: seq<Category>, userId: int, q: ListQuery, k: int)
    returns (p: int, r: int)
    requires PageSizeOf(q) >= 1
    requires 0 <= k < |MatchingRows(Join(records, categories), userId, q)|
    ensures p == k / PageSizeOf(q) + 1 && r == k % PageSizeOf(q)
    ensures var onPage := List(records, categories, userId, q.(page := Some(p)));
            r < |onPage.records| && onPage.records[r] == Project(Ordered(records, categories, userId, q)[k])
  {
    p, r := PageOfRow(k, PageSizeOf(q));
    PageEntry(records, categories, userId, q, p, r, k);
  }

  /** Asking for another page changes neither the ordered matches nor the page size. */
  lemma OtherPage(records: seq<Record>, categories: seq<Category>, userId: int, q: ListQuery, p: int)
    ensures var q' := q.(page := Some(p));
            && PageSizeOf(q') == PageSizeOf(q)
            && Offset(q') == Times(p - 1, PageSizeOf(q))
            && MatchingRows(Join(records, categories), userId, q') == MatchingRows(Join(records, categories), userId, q)
            && Ordered(records, categories, userId, q') == Ordered(records, categories, userId, q)
  {
    MatchingRowsExt(Join(records, categories), userId, q, q.(page := Some(p)));
  }

  /** Two queries with the same filters keep the same rows. */
  lemma {:induction false} MatchingRowsExt(js: seq<Joined>, userId: int, q1: ListQuery, q2: ListQuery)
    requires forall j :: Matches(j, userId, q1) == Matches(j, userId, q2)
    ensures MatchingRows(js, userId, q1) == MatchingRows(js, userId, q2)
  {
    if js != [] {
      MatchingRowsExt(js[..|js| - 1], userId, q1, q2);
    }
  }

  /** `q2` keeps every filter `q1` switches on, and may switch on more. */
  predicate Narrows(q2: ListQuery, q1: ListQuery)
  {
    && (q1.startDate.Some? && q1.endDate.Some? ==> q2.startDate == q1.startDate && q2.endDate == q1.endDate)
    && (q1.categoryId.Some? ==> q2.categoryId == q1.categoryId)
    && (q1.kind == Some("income") || q1.kind == Some("expense") ==> q2.kind == q1.kind)
  }

  /** Adding filters only removes rows: every row of the narrower query matches the wider one,
      and its total is not larger. */
  lemma {:induction false} AddedFilterShrinks(js: seq<Joined>, userId: int, q1: ListQuery, q2: ListQuery)
    requires Narrows(q2, q1)
    ensures forall j :: j in MatchingRows(js, userId, q2) ==> j in MatchingRows(js, userId, q1)
    ensures |MatchingRows(js, userId, q2)| <= |MatchingRows(js, userId, q1)|
  {
    if js != [] {
      AddedFilterShrinks(js[..|js| - 1], userId, q1, q2);
    }
  }

  /** The caller owns a record with this id: `SELECT id FROM records WHERE id = ? AND user_id = ?`. */
  predicate Owns(records: seq<Record>, id: int, userId: int)
  {
    exists i :: 0 <= i < |records| && records[i].id == id && records[i].userId == userId
  }

  /** The row the insert stores; `description` defaults to "" and `record_date` to today. */
  function NewRecord(
    id: int, userId: int, amount: int, categoryId: int,
    description: Option<string>, recordDate: Option<Date>, today: Date, now: int): (r: Record)
    ensures r.id == id && r.userId == userId && r.amount == amount && r.categoryId == categoryId
    ensures r.description == (if Present(description) then description.value else "")
    ensures r.recordDate == (if recordDate.Some? then recordDate.value else today)
    ensures r.createdAt == now
  {
    Record(id, userId, amount, categoryId, OrEmpty(description),
      if recordDate.Some? then recordDate.value else today, now)
  }

  /** The creation handler. The amount and the category id must be truthy, so an amount of 0 is
      refused; the category id is not checked against the category table. */
  method Create(
    db: Database, userId: int, amount: Option<int>, categoryId: Option<int>,
    description: Option<string>, recordDate: Option<Date>, today: Date, now: int)
    returns (reply: Reply<int>)
    requires db.Valid()
    modifies db`records, db`nextRecordId
    ensures db.Valid()
    ensures !(Truthy(amount) && Truthy(categoryId)) ==>
      reply == Failure(400, MSG_CREATE_MISSING) && unchanged(db`records, db`nextRecordId)
    ensures Truthy(amount) && Truthy(categoryId) ==>
      && reply == Success(MSG_CREATED, old(db.nextRecordId))
      && db.records == old(db.records) +
           [NewRecord(old(db.nextRecordId), userId, amount.value, categoryId.value, description, recordDate, today, now)]
      && db.nextRecordId == old(db.nextRecordId) + 1
  {
    if !Truthy(amount) || !Truthy(categoryId) {
      return Failure(400, MSG_CREATE_MISSING);
    }
    var id := db.nextRecordId;
    db.records := db.records + [NewRecord(id, userId, amount.value, categoryId.value, description, recordDate, today, now)];
    db.nextRecordId := id + 1;
    reply := Success(MSG_CREATED, id);
  }

  /** A created record is counted in its owner's listing exactly when it matches the filters;
      an unfiltered total goes up by one. */
  lemma {:induction false} CreateIsCounted(records: seq<Record>, categories: seq<Category>, r: Record, q: ListQuery)
    ensures var before := List(records, categories, r.userId, q).total;
            var after := List(records + [r], categories, r.userId, q).total;
            after == before + (if Matches(JoinOne(categories, r), r.userId, q) then 1 else 0)
    ensures q.startDate.None? && q.categoryId.None? && q.kind.None? ==>
      List(records + [r], categories, r.userId, q).total == List(records, categories, r.userId, q).total + 1
  {
    JoinAppend(records, r, categories);
    var js := Join(records, categories) + [JoinOne(categories, r)];
    assert js[..|js| - 1] == Join(records, categories);
  }

  /** `UPDATE records SET amount, category_id, description, record_date WHERE id = ? AND
      user_id = ?`: the matching rows take the new values and keep their id, owner and creation
      time; every other row is untouched. */
  function Updated(
    records: seq<Record>, id: int, userId: int,
    amount: int, categoryId: int, description: string, recordDate: Date): (r: seq<Record>)
    ensures |r| == |records|
    ensures forall i :: 0 <= i < |r| ==>
      r[i].id == records[i].id && r[i].userId == records[i].userId && r[i].createdAt == records[i].createdAt
    ensures forall i :: 0 <= i < |r| && !(records[i].id == id && records[i].userId == userId) ==> r[i] == records[i]
    ensures forall i :: 0 <= i < |r| && records[i].id == id && records[i].userId == userId ==>
      r[i].amount == amount && r[i].categoryId == categoryId &&
      r[i].description == description && r[i].recordDate == recordDate
  {
    seq(|records|, i requires 0 <= i < |records| =>
      if records[i].id == id && records[i].userId == userId
      then records[i].(amount := amount, categoryId := categoryId, description := description, recordDate := recordDate)
      else records[i])
  }

  /** The update handler. The ownership check runs before the update, so a record of another
      user, or a missing one, gives 403 and no change. */
  method Update(
    db: Database, userId: int, id: Option<int>, amount: Option<int>, categoryId: Option<int>,
    description: Option<string>, recordDate: Date)
    returns (reply: Reply<()>)
    requires db.Valid()
    modifies db`records
    ensures db.Valid()
    ensures !(id.Some? && Truthy(amount) && Truthy(categoryId)) ==>
      reply == Failure(400, MSG_UPDATE_MISSING) && db.records == old(db.records)
    ensures id.Some? && Truthy(amount) && Truthy(categoryId) && !Owns(old(db.records), id.value, userId) ==>
      reply == Failure(403, MSG_UPDATE_FORBIDDEN) && db.records == old(db.records)
    ensures id.Some? && Truthy(amount) && Truthy(categoryId) && Owns(old(db.records), id.value, userId) ==>
      && reply == Success(MSG_UPDATED, ())
      && db.records == Updated(old(db.records), id.value, userId, amount.value, categoryId.value, OrEmpty(description), recordDate)
  {
    if id.None? || !Truthy(amount) || !Truthy(categoryId) {
      return Failure(400, MSG_UPDATE_MISSING);
    }
    if !Owns(db.records, id.value, userId) {
      return Failure(403, MSG_UPDATE_FORBIDDEN);
    }
    db.records := Updated(db.records, id.value, userId, amount.value, categoryId.value, OrEmpty(description), recordDate);
    reply := Success(MSG_UPDATED, ());
  }

  /** `DELETE FROM records WHERE id = ? AND user_id = ?`, keeping the other rows in order. Written
      out, like `Aggregates.Filter`, rather than as a `Filter` instance: the inductive lemmas below unfold it
      with its parameters in plain view, where a closure would hide them. */
  function Deleted(records: seq<Record>, id: int, userId: int): (r: seq<Record>)
    ensures forall x :: x in r <==> x in records && !(x.id == id && x.userId == userId)
    ensures |r| <= |records|
  {
    if records == [] then []
    else
      var last := records[|records| - 1];
      Deleted(records[..|records| - 1], id, userId) + (if last.id == id && last.userId == userId then [] else [last])
  }

  lemma {:induction false} DeletedNoMatch(records: seq<Record>, id: int, userId: int)
    requires forall i :: 0 <= i < |records| ==> !(records[i].id == id && records[i].userId == userId)
    ensures Deleted(records, id, userId) == records
  {
    if records != [] {
      DeletedNoMatch(records[..|records| - 1], id, userId);
    }
  }

  /** When only row `i` has this id, deleting the caller's row `i` removes exactly that row. */
  lemma {:induction false} DeleteRemovesExactlyOne(records: seq<Record>, i: int, userId: int)
    requires 0 <= i < |records| && records[i].userId == userId
    requires forall j :: 0 <= j < |records| && j != i ==> records[j].id != records[i].id
    ensures Deleted(records, records[i].id, userId) == records[..i] + records[i + 1..]
  {
    var id := records[i].id;
    var init, last := records[..|records| - 1], records[|records| - 1];
    if i == |records| - 1 {
      DeletedNoMatch(init, id, userId);
      assert records[..i] + records[i + 1..] == init;
    } else {
      assert Deleted(records, id, userId) == Deleted(init, id, userId) + [last];
      assert init[i] == records[i];
      forall j | 0 <= j < |init| && j != i ensures init[j].id != init[i].id {
        assert init[j] == records[j];
      }
      DeleteRemovesExactlyOne(init, i, userId);
      RemoveBeforeLast(records, i);
    }
  }

  /** Removing an element other than the last commutes with splitting off the last. */
  lemma RemoveBeforeLast<T>(s: seq<T>, i: int)
    requires 0 <= i < |s| - 1
    ensures s[..i] + s[i + 1..] == s[..|s| - 1][..i] + s[..|s| - 1][i + 1..] + [s[|s| - 1]]
  {
    var init := s[..|s| - 1];
    assert s[..i] == init[..i];
    assert s[i + 1..] == init[i + 1..] + [s[|s| - 1]];
  }

  /** Removing one row keeps the ids in range and unique. */
  lemma RemovalKeepsValid(records: seq<Record>, nextId: int, i: int)
    requires RecordsValid(records, nextId)
    requires 0 <= i < |records|
    ensures RecordsValid(records[..i] + records[i + 1..], nextId)
  {
    var r := records[..i] + records[i + 1..];
    forall a | 0 <= a < |r| ensures r[a] == records[if a < i then a else a + 1] {
    }
  }

  /** Deleting an owned row removes exactly that row and keeps the table valid. */
  lemma DeleteOwned(records: seq<Record>, nextId: int, i: int, userId: int)
    requires RecordsValid(records, nextId)
    requires 0 <= i < |records| && records[i].userId == userId
    ensures Deleted(records, records[i].id, userId) == records[..i] + records[i + 1..]
    ensures RecordsValid(Deleted(records, records[i].id, userId), nextId)
  {
    DeleteRemovesExactlyOne(records, i, userId);
    RemovalKeepsValid(records, nextId, i);
  }

  /** Deleting by id and owner keeps the table valid. */
  lemma DeletedKeepsValid(records: seq<Record>, nextId: int, id: int, userId: int)
    requires RecordsValid(records, nextId)
    ensures RecordsValid(Deleted(records, id, userId), nextId)
  {
    if i :| 0 <= i < |records| && records[i].id == id && records[i].userId == userId {
      DeleteOwned(records, nextId, i, userId);
    } else {
      DeletedNoMatch(records, id, userId);
    }
  }

  /** The deletion handler. The ownership check runs before the deletion, so a record of another
      user, or a missing one, gives 403 and no change. */
  method Delete(db: Database, userId: int, id: Option<int>) returns (reply: Reply<()>)
    requires db.Valid()
    modifies db`records
    ensures db.Valid()
    ensures id.None? ==> reply == Failure(400, MSG_ID_REQUIRED) && db.records == old(db.records)
    ensures id.Some? && !Owns(old(db.records), id.value, userId) ==>
      reply == Failure(403, MSG_DELETE_FORBIDDEN) && db.records == old(db.records)
    ensures id.Some? && Owns(old(db.records), id.value, userId) ==>
      reply == Success(MSG_DELETED, ()) && db.records == Deleted(old(db.records), id.value, userId)
  {
    if id.None? {
      return Failure(400, MSG_ID_REQUIRED);
    }
    if !Owns(db.records, id.value, userId) {
      return Failure(403, MSG_DELETE_FORBIDDEN);
    }
    DeletedKeepsValid(db.records, db.nextRecordId, id.value, userId);
    db.records := Deleted(db.records, id.value, userId);
    reply := Success(MSG_DELETED, ());
  }

  /** The rows of `userId` that match, after appending one row to the table. */
  lemma MatchingRowsSnoc(records: seq<Record>, r: Record, categories: seq<Category>, userId: int, q: ListQuery)
    ensures MatchingRows(Join(records + [r], categories), userId, q)
         == MatchingRows(Join(records, categories), userId, q)
            + (if Matches(JoinOne(categories, r), userId, q) then [JoinOne(categories, r)] else [])
  {
    JoinAppend(records, r, categories);
    var js := Join(records + [r], categories);
    assert js[..|js| - 1] == Join(records, categories);
  }

  /** The rows of another user are the same before and after a deletion made by `userId`. */
  lemma {:induction false} DeleteKeepsOthersRows(
    records: seq<Record>, categories: seq<Category>, id: int, userId: int, other: int, q: ListQuery)
    requires other != userId
    ensures MatchingRows(Join(Deleted(records, id, userId), categories), other, q)
         == MatchingRows(Join(records, categories), other, q)
  {
    if records != [] {
      var init, last := records[..|records| - 1], records[|records| - 1];
      DeleteKeepsOthersRows(init, categories, id, userId, other, q);
      assert records == init + [last];
      MatchingRowsSnoc(init, last, categories, other, q);
      if last.id == id && last.userId == userId {
        assert Deleted(records, id, userId) == Deleted(init, id, userId);
        assert !Matches(JoinOne(categories, last), other, q);
      } else {
        assert Deleted(records, id, userId) == Deleted(init, id, userId) + [last];
        MatchingRowsSnoc(Deleted(init, id, userId), last, categories, other, q);
      }
    }
  }

  lemma UpdatedSnoc(
    records: seq<Record>, r: Record, id: int, userId: int,
    amount: int, categoryId: int, description: string, recordDate: Date)
    ensures Updated(records + [r], id, userId, amount, categoryId, description, recordDate)
         == Updated(records, id, userId, amount, categoryId, description, recordDate)
            + Updated([r], id, userId, amount, categoryId, description, recordDate)
  {
  }

  /** The rows of another user are the same before and after an update made by `userId`. */
  lemma {:induction false} UpdateKeepsOthersRows(
    records: seq<Record>, categories: seq<Category>, id: int, userId: int, other: int, q: ListQuery,
    amount: int, categoryId: int, description: string, recordDate: Date)
    requires other != userId
    ensures MatchingRows(Join(Updated(records, id, userId, amount, categoryId, description, recordDate), categories), other, q)
         == MatchingRows(Join(records, categories), other, q)
  {
    if records != [] {
      var init, last := records[..|records| - 1], records[|records| - 1];
      UpdateKeepsOthersRows(init, categories, id, userId, other, q, amount, categoryId, description, recordDate);
      assert records == init + [last];
      UpdatedSnoc(init, last, id, userId, amount, categoryId, description, recordDate);
      var one := Updated([last], id, userId, amount, categoryId, description, recordDate);
      assert one == [one[0]];
      MatchingRowsSnoc(init, last, categories, other, q);
      MatchingRowsSnoc(Updated(init, id, userId, amount, categoryId, description, recordDate), one[0], categories, other, q);
    }
  }

  /** Another user's listing is the same before and after a deletion or an update by `userId`. */
  lemma OthersListingUnchanged(
    records: seq<Record>, categories: seq<Category>, id: int, userId: int, other: int, q: ListQuery,
    amount: int, categoryId: int, description: string, recordDate: Date)
    requires other != userId
    ensures List(Deleted(records, id, userId), categories, other, q) == List(records, categories, other, q)
    ensures List(Updated(records, id, userId, amount, categoryId, description, recordDate), categories, other, q)
         == List(records, categories, other, q)
  {
    DeleteKeepsOthersRows(records, categories, id, userId, other, q);
    UpdateKeepsOthersRows(records, categories, id, userId, other, q, amount, categoryId, description, recordDate);
  }
}
