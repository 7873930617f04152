/** The statistics engine: for one user and one `YYYY-MM` month, the income and expense totals,
    the balance, the per-category breakdowns of expenses and of income, and the per-day trend.
    Amounts are summed with the sign they were stored with; expenses are stored negative. */
module Stats {
  import opened Schema
  import opened Sorting
  import opened Aggregates

  /** A breakdown row: `SELECT c.name, SUM(r.amount) AS total_amount`. */
  datatype CategoryTotal = CategoryTotal(name: string, totalAmount: int)

  /** A trend row: `SELECT r.record_date, daily_income, daily_expense`. */
  datatype DailyTotal = DailyTotal(date: Date, income: int, expense: int)

  datatype MonthlyStats = MonthlyStats(
    month: Month, totalIncome: int, totalExpense: int, balance: int,
    expenseCategoryStats: seq<CategoryTotal>, incomeCategoryStats: seq<CategoryTotal>,
    dailyTrend: seq<DailyTotal>)

  /** `r.user_id = ? AND strftime('%Y-%m', r.record_date) = ?`. */
  predicate InMonth(j: Joined, userId: int, month: Month)
  {
    j.record.userId == userId && MonthOf(j.record.recordDate) == month
  }

  /** The joined rows of the user's month, in table order. Written out, like `Aggregates.Filter`, rather than
      as a `Filter` instance: the inductive lemmas below unfold it with its parameters in plain
      view, where a closure would hide them. */
  function MonthRows(js: seq<Joined>, userId: int, month: Month): (r: seq<Joined>)
    ensures forall j :: j in r <==> j in js && InMonth(j, userId, month)
  {
    if js == [] then []
    else
      var last := js[|js| - 1];
      MonthRows(js[..|js| - 1], userId, month) + (if InMonth(last, userId, month) then [last] else [])
  }

  /** `GROUP BY c.id, c.name`; only rows with a category reach it. */
  function CategoryKey(j: Joined): (int, string)
  {
    if j.category.Some? then (j.category.value.id, j.category.value.name) else (0, "")
  }

  function DateKey(j: Joined): Date
  {
    j.record.recordDate
  }

  function TotalAmountOf(c: CategoryTotal): int
  {
    c.totalAmount
  }

  function IncomeOf(d: DailyTotal): int
  {
    d.income
  }

  function ExpenseOf(d: DailyTotal): int
  {
    d.expense
  }

  /** `ORDER BY total_amount DESC`. */
  predicate LargerFirst(a: CategoryTotal, b: CategoryTotal)
  {
    a.totalAmount >= b.totalAmount
  }

  /** `ORDER BY r.record_date ASC`. */
  predicate EarlierFirst(a: DailyTotal, b: DailyTotal)
  {
    DateLe(a.date, b.date)
  }

  lemma OrdersAreTotal()
    ensures Total(LargerFirst) && Transitive(LargerFirst)
    ensures Total(EarlierFirst) && Transitive(EarlierFirst)
  {
  }

  /** One breakdown row per group key, in key order. */
  function CategoryTotals(rows: seq<Joined>, ks: seq<(int, string)>): (r: seq<CategoryTotal>)
    ensures |r| == |ks|
    ensures forall i :: 0 <= i < |ks| ==>
      r[i] == CategoryTotal(ks[i].1, SumOn(rows, CategoryKey, AmountOf, ks[i]))
  {
    if ks == [] then []
    else CategoryTotals(rows, ks[..|ks| - 1]) + [CategoryTotal(ks[|ks| - 1].1, SumOn(rows, CategoryKey, AmountOf, ks[|ks| - 1]))]
  }

  /** One trend row per date, in key order. */
  function DailyTotals(rows: seq<Joined>, ds: seq<Date>): (r: seq<DailyTotal>)
    ensures |r| == |ds|
    ensures forall i :: 0 <= i < |ds| ==>
      r[i] == DailyTotal(ds[i], SumOn(rows, DateKey, IncomePart, ds[i]), SumOn(rows, DateKey, ExpensePart, ds[i]))
  {
    if ds == [] then []
    else
      var d := ds[|ds| - 1];
      DailyTotals(rows, ds[..|ds| - 1]) + [DailyTotal(d, SumOn(rows, DateKey, IncomePart, d), SumOn(rows, DateKey, ExpensePart, d))]
  }

  /** One category breakdown: the rows of one kind grouped by category, largest total first. */
  function Breakdown(rows: seq<Joined>, kind: Joined -> bool): seq<CategoryTotal>
  {
    var kept := Filter(rows, kind);
    Sort(CategoryTotals(kept, Keys(kept, CategoryKey)), LargerFirst)
  }

  /** The daily trend: the rows grouped by date, earliest first. */
  function Trend(rows: seq<Joined>): seq<DailyTotal>
  {
    Sort(DailyTotals(rows, Keys(rows, DateKey)), EarlierFirst)
  }

  /** The statistics handler. `month` is None when the query string has no (or an empty) month,
      and then the month of `now` is used. The balance is computed as the handler computes it. */
  function MonthlyStatsOf(records: seq<Record>, categories: seq<Category>, userId: int, month: Option<Month>, current: Month)
    : (s: MonthlyStats)
    ensures s.month == (if month.Some? then month.value else current)
    ensures s.balance == s.totalIncome - s.totalExpense
  {
    var m := if month.Some? then month.value else current;
    var rows := MonthRows(Join(records, categories), userId, m);
    var income := SumOf(rows, IncomePart);
    var expense := SumOf(rows, ExpensePart);
    MonthlyStats(
      m, income, expense, income - expense,
      Breakdown(rows, IsExpenseRow), Breakdown(rows, IsIncomeRow), Trend(rows))
  }

  /** The rows every figure of the month is computed from. */
  function RowsOf(records: seq<Record>, categories: seq<Category>, userId: int, month: Option<Month>, current: Month)
    : seq<Joined>
  {
    MonthRows(Join(records, categories), userId, if month.Some? then month.value else current)
  }

  /** The totals: income is the sum of the amounts of the month's rows whose category is an income
      category, expense the same for expense categories; rows without a category count toward
      neither. */
  lemma TotalsSplitByKind(records: seq<Record>, categories: seq<Category>, userId: int, month: Option<Month>, current: Month)
    ensures var s := MonthlyStatsOf(records, categories, userId, month, current);
            var rows := RowsOf(records, categories, userId, month, current);
            && s.totalIncome == SumOf(Filter(rows, IsIncomeRow), AmountOf)
            && s.totalExpense == SumOf(Filter(rows, IsExpenseRow), AmountOf)
  {
    var rows := RowsOf(records, categories, userId, month, current);
    SumOfMasked(rows, IsIncomeRow, AmountOf, IncomePart);
    SumOfMasked(rows, IsExpenseRow, AmountOf, ExpensePart);
  }

  /** With no rows in the month every figure is 0 and every list is empty. */
  lemma EmptyMonth(records: seq<Record>, categories: seq<Category>, userId: int, month: Option<Month>, current: Month)
    requires RowsOf(records, categories, userId, month, current) == []
    ensures var s := MonthlyStatsOf(records, categories, userId, month, current);
            s.totalIncome == 0 && s.totalExpense == 0 && s.balance == 0 &&
            s.expenseCategoryStats == [] && s.incomeCategoryStats == [] && s.dailyTrend == []
  {
  }

  lemma {:induction false} CategoryTotalsSum(rows: seq<Joined>, ks: seq<(int, string)>)
    ensures SumOf(CategoryTotals(rows, ks), TotalAmountOf) == SumOver(rows, CategoryKey, AmountOf, ks)
  {
    if ks != [] {
      CategoryTotalsSum(rows, ks[..|ks| - 1]);
    }
  }

  /** A breakdown's totals add up to the sum of the amounts of the rows of its kind. */
  lemma BreakdownAddsUp(rows: seq<Joined>, kind: Joined -> bool)
    ensures SumOf(Breakdown(rows, kind), TotalAmountOf) == SumOf(Filter(rows, kind), AmountOf)
  {
    var kept := Filter(rows, kind);
    var ks := Keys(kept, CategoryKey);
    SortKeepsSum(CategoryTotals(kept, ks), LargerFirst, TotalAmountOf);
    CategoryTotalsSum(kept, ks);
    GroupSumsAddUp(kept, CategoryKey, AmountOf);
  }

  /** A breakdown has one row per category of its kind used that month, largest total first. */
  lemma BreakdownShape(rows: seq<Joined>, kind: Joined -> bool)
    ensures var b := Breakdown(rows, kind);
            && |b| == |Keys(Filter(rows, kind), CategoryKey)|
            && Sorted(b, LargerFirst)
    ensures forall j :: j in rows && kind(j) ==>
      exists c :: c in Breakdown(rows, kind) && c.name == CategoryKey(j).1
  {
    var kept := Filter(rows, kind);
    var ks := Keys(kept, CategoryKey);
    var totals := CategoryTotals(kept, ks);
    OrdersAreTotal();
    SortSorted(totals, LargerFirst);
    forall j | j in rows && kind(j) ensures exists c :: c in Breakdown(rows, kind) && c.name == CategoryKey(j).1 {
      var i :| 0 <= i < |ks| && ks[i] == CategoryKey(j);
      assert totals[i] in multiset(Breakdown(rows, kind));
    }
  }

  /** The expense breakdown sums to the expense total and the income breakdown to the income
      total. */
  lemma BreakdownsAddUp(records: seq<Record>, categories: seq<Category>, userId: int, month: Option<Month>, current: Month)
    ensures var s := MonthlyStatsOf(records, categories, userId, month, current);
            && SumOf(s.expenseCategoryStats, TotalAmountOf) == s.totalExpense
            && SumOf(s.incomeCategoryStats, TotalAmountOf) == s.totalIncome
  {
    var rows := RowsOf(records, categories, userId, month, current);
    TotalsSplitByKind(records, categories, userId, month, current);
    BreakdownAddsUp(rows, IsExpenseRow);
    BreakdownAddsUp(rows, IsIncomeRow);
  }

  lemma {:induction false} DailyTotalsSum(rows: seq<Joined>, ds: seq<Date>)
    ensures SumOf(DailyTotals(rows, ds), IncomeOf) == SumOver(rows, DateKey, IncomePart, ds)
    ensures SumOf(DailyTotals(rows, ds), ExpenseOf) == SumOver(rows, DateKey, ExpensePart, ds)
  {
    if ds != [] {
      DailyTotalsSum(rows, ds[..|ds| - 1]);
    }
  }

  /** The daily incomes add up to the income total and the daily expenses to the expense total. */
  lemma TrendAddsUp(records: seq<Record>, categories: seq<Category>, userId: int, month: Option<Month>, current: Month)
    ensures var s := MonthlyStatsOf(records, categories, userId, month, current);
            && SumOf(s.dailyTrend, IncomeOf) == s.totalIncome
            && SumOf(s.dailyTrend, ExpenseOf) == s.totalExpense
  {
    var rows := RowsOf(records, categories, userId, month, current);
    var ds := Keys(rows, DateKey);
    SortKeepsSum(DailyTotals(rows, ds), EarlierFirst, IncomeOf);
    SortKeepsSum(DailyTotals(rows, ds), EarlierFirst, ExpenseOf);
    DailyTotalsSum(rows, ds);
    GroupSumsAddUp(rows, DateKey, IncomePart);
    GroupSumsAddUp(rows, DateKey, ExpensePart);
  }

  /** A trend has one row per distinct date of its rows, earliest first. */
  lemma TrendOrdered(rows: seq<Joined>)
    ensures |Trend(rows)| == |Keys(rows, DateKey)|
    ensures forall i, k :: 0 <= i < k < |Trend(rows)| ==> DateLe(Trend(rows)[i].date, Trend(rows)[k].date)
  {
    var trend := Trend(rows);
    OrdersAreTotal();
    SortSorted(DailyTotals(rows, Keys(rows, DateKey)), EarlierFirst);
    forall i, k | 0 <= i < k < |trend| ensures DateLe(trend[i].date, trend[k].date) {
      assert EarlierFirst(trend[i], trend[k]);
    }
  }

  /** Every date of the rows has a trend row. */
  lemma TrendCoversDates(rows: seq<Joined>)
    ensures forall j :: j in rows ==> exists d :: d in Trend(rows) && d.date == j.record.recordDate
  {
    var ds := Keys(rows, DateKey);
    var totals := DailyTotals(rows, ds);
    forall j | j in rows ensures exists d :: d in Trend(rows) && d.date == j.record.recordDate {
      var i :| 0 <= i < |ds| && ds[i] == DateKey(j);
      assert totals[i] in multiset(Trend(rows));
    }
  }

  /** Every trend row's date is a date of the rows. */
  lemma TrendDatesFromRows(rows: seq<Joined>)
    ensures forall d :: d in Trend(rows) ==> exists j :: j in rows && d.date == j.record.recordDate
  {
    var ds := Keys(rows, DateKey);
    var totals := DailyTotals(rows, ds);
    forall d | d in Trend(rows) ensures exists j :: j in rows && d.date == j.record.recordDate {
      assert d in multiset(totals);
      var i :| 0 <= i < |totals| && totals[i] == d;
      assert ds[i] in ds;
      var x :| 0 <= x < |rows| && DateKey(rows[x]) == ds[i];
      assert rows[x] in rows;
    }
  }

  /** The trend has one row per distinct date of the month's rows, in ascending date order, and
      each of those dates lies in the requested month. */
  lemma TrendShape(records: seq<Record>, categories: seq<Category>, userId: int, month: Option<Month>, current: Month)
    ensures var s := MonthlyStatsOf(records, categories, userId, month, current);
            var rows := RowsOf(records, categories, userId, month, current);
            && |s.dailyTrend| == |Keys(rows, DateKey)|
            && (forall i, k :: 0 <= i < k < |s.dailyTrend| ==> DateLe(s.dailyTrend[i].date, s.dailyTrend[k].date))
            && (forall j :: j in rows ==> exists d :: d in s.dailyTrend && d.date == j.record.recordDate)
            && (forall d :: d in s.dailyTrend ==> MonthOf(d.date) == s.month)
  {
    var rows := RowsOf(records, categories, userId, month, current);
    TrendOrdered(rows);
    TrendCoversDates(rows);
    TrendDatesFromRows(rows);
  }

  /** The net balance the statistics card evidently means to show: income plus the (negative)
      expense total, i.e. the signed sum of every categorised amount of the month. */
  function NetBalance(s: MonthlyStats): int
  {
    s.totalIncome + s.totalExpense
  }

  /** `c.is_income` is 1 or 0: the row counts toward one of the two totals. */
  predicate Categorised(j: Joined)
  {
    IsIncomeRow(j) || IsExpenseRow(j)
  }

  function CategorisedPart(j: Joined): int
  {
    if Categorised(j) then j.record.amount else 0
  }

  /** The net balance is the signed sum of the month's categorised amounts. */
  lemma NetBalanceIsSignedSum(records: seq<Record>, categories: seq<Category>, userId: int, month: Option<Month>, current: Month)
    ensures var rows := RowsOf(records, categories, userId, month, current);
            NetBalance(MonthlyStatsOf(records, categories, userId, month, current))
              == SumOf(Filter(rows, Categorised), AmountOf)
  {
    var rows := RowsOf(records, categories, userId, month, current);
    SumOfAdd(rows, IncomePart, ExpensePart, CategorisedPart);
    SumOfMasked(rows, Categorised, AmountOf, CategorisedPart);
  }

  /** One expense of 50, stored as -50 in an expense category: the expense total is -50 and the
      handler's balance is +50, while the net balance is -50. */
  lemma BalanceAddsExpenses()
    ensures var categories := [Category(1, 0, "餐饮", 0)];
            var records := [Record(1, 7, -50, 1, "", Date(2024, 5, 1), 0)];
            var s := MonthlyStatsOf(records, categories, 7, Some(Month(2024, 5)), Month(2024, 5));
            s.totalExpense == -50 && s.balance == 50 && NetBalance(s) == -50
  {
    var categories := [Category(1, 0, "餐饮", 0)];
    var records := [Record(1, 7, -50, 1, "", Date(2024, 5, 1), 0)];
    var js := Join(records, categories);
    assert js == [Joined(records[0], Some(categories[0]))];
    var rows := MonthRows(js, 7, Month(2024, 5));
    assert InMonth(js[0], 7, Month(2024, 5));
    assert MonthRows(js[..0], 7, Month(2024, 5)) == [];
    assert rows == js;
    assert SumOf(rows, IncomePart) == 0 by {
      assert rows[..0] == [];
    }
    assert SumOf(rows, ExpensePart) == -50 by {
      assert rows[..0] == [];
    }
  }
}
