/**
 * Financial reports (app/services/financial_report_service.py): income and
 * expenses of a date range set against each other, the current month's
 * budget, a month-by-month trend and the best-earning courses. Today's date
 * is a parameter; day keys come from the calendar module.
 */
module FinancialReport {
  import opened Common
  import CourseModel
  import PaymentModel
  import ExpenseModel
  import opened Calendar
  import PaymentService
  import ExpenseService

  // ---------------------------------------------------------------------
  // generate_financial_summary and get_budget_summary
  // ---------------------------------------------------------------------

  datatype FinancialSummary = FinancialSummary(
    startDate: int,
    endDate: int,
    totalIncome: int,
    totalExpenses: int,
    netResult: int,
    incomeByCourse: seq<PaymentService.CourseIncome>,
    expensesByCategory: seq<ExpenseService.CategoryTotal>,
    isProfitable: bool)

  /**
   * `rows` are `get_income_by_course`'s rows for the range: one per course
   * referenced by a completed tuition payment of the range, in order of first
   * appearance, each with the course's name and its tuition sum.
   */
  predicate IsIncomeByCourse(rows: seq<PaymentService.CourseIncome>, payments: seq<PaymentModel.Payment>,
                             courses: map<int, CourseModel.Course>, start: int, end: int)
  {
    var ks := Keys(payments, PaymentService.TuitionIn(start, end), PaymentService.Reference());
    |rows| == |ks| &&
    forall a :: 0 <= a < |rows| ==>
      rows[a].courseId == ks[a] && rows[a].courseName == PaymentService.CourseNameOf(courses, ks[a]) &&
      rows[a].totalIncome ==
        GroupSum(payments, PaymentService.TuitionIn(start, end), PaymentService.Reference(), ks[a],
                 PaymentService.Amount())
  }

  /**
   * `generate_financial_summary`: the range's income and expenses, their
   * difference, the two breakdowns, and whether the range made a profit
   * (a net of zero does not count as one).
   */
  method GenerateFinancialSummary(payments: seq<PaymentModel.Payment>, courses: map<int, CourseModel.Course>,
                                  expenses: seq<ExpenseModel.Expense>, start: int, end: int)
    returns (s: FinancialSummary)
    ensures s.startDate == start && s.endDate == end
    ensures s.totalIncome == PaymentService.TotalIncome(payments, start, end)
    ensures s.totalExpenses == ExpenseService.TotalExpenses(expenses, start, end)
    ensures s.netResult == s.totalIncome - s.totalExpenses
    ensures s.isProfitable <==> s.totalIncome > s.totalExpenses
    ensures IsIncomeByCourse(s.incomeByCourse, payments, courses, start, end)
    ensures PaymentService.TotalOf(s.incomeByCourse) +
      Sum(payments, PaymentService.FeeIn(start, end), PaymentService.Amount()) == s.totalIncome
    ensures s.expensesByCategory == ExpenseService.ExpensesByCategory(expenses, start, end)
    ensures ExpenseService.TotalOf(s.expensesByCategory) == s.totalExpenses
  {
    var totalIncome := PaymentService.TotalIncome(payments, start, end);
    var totalExpenses := ExpenseService.TotalExpenses(expenses, start, end);
    var net := totalIncome - totalExpenses;
    var byCourse := PaymentService.IncomeByCourse(payments, courses, start, end);
    var byCategory := ExpenseService.ExpensesByCategory(expenses, start, end);
    PaymentService.TotalIncomeParts(payments, start, end);
    ExpenseService.CategoryTotalsAddUp(expenses, start, end);
    s := FinancialSummary(start, end, totalIncome, totalExpenses, net, byCourse, byCategory, net > 0);
  }

  /**
   * `get_budget_summary`: the summary of today's month, from its first day
   * to the day before the first of the next month.
   */
  method BudgetSummary(payments: seq<PaymentModel.Payment>, courses: map<int, CourseModel.Course>,
                       expenses: seq<ExpenseModel.Expense>, today: Date)
    returns (s: FinancialSummary)
    requires ValidDate(today)
    ensures s.startDate == DayKey(FirstOfMonth(today.year, today.month))
    ensures s.endDate == DayKey(Date(today.year, today.month, DaysInMonth(today.year, today.month)))
    ensures forall d :: ValidDate(d) ==>
      (s.startDate <= DayKey(d) <= s.endDate <==> d.year == today.year && d.month == today.month)
    ensures s.totalIncome == PaymentService.TotalIncome(payments, s.startDate, s.endDate)
    ensures s.totalExpenses == ExpenseService.TotalExpenses(expenses, s.startDate, s.endDate)
    ensures s.netResult == s.totalIncome - s.totalExpenses
    ensures s.isProfitable <==> s.netResult > 0
    ensures IsIncomeByCourse(s.incomeByCourse, payments, courses, s.startDate, s.endDate)
    ensures PaymentService.TotalOf(s.incomeByCourse) +
      Sum(payments, PaymentService.FeeIn(s.startDate, s.endDate), PaymentService.Amount()) == s.totalIncome
    ensures s.expensesByCategory == ExpenseService.ExpensesByCategory(expenses, s.startDate, s.endDate)
    ensures ExpenseService.TotalOf(s.expensesByCategory) == s.totalExpenses
  {
    var start := DayKey(FirstOfMonth(today.year, today.month));
    var end := EndOfMonthKey(today.year, today.month);
    forall d | ValidDate(d)
      ensures start <= DayKey(d) <= end <==> d.year == today.year && d.month == today.month
    {
      MonthRange(d, today.year, today.month);
    }
    s := GenerateFinancialSummary(payments, courses, expenses, start, end);
  }

  // ---------------------------------------------------------------------
  // get_monthly_trend
  // ---------------------------------------------------------------------

  datatype TrendEntry = TrendEntry(year: int, month: int, income: int, expenses: int, net: int)

  /**
   * The month the report uses for offset `i`, as written: one step back
   * over a year boundary and no more.
   */
  function TrendMonthAsWritten(today: Date, i: int): (int, int) {
    if today.month - i > 0 then (today.year, today.month - i)
    else (today.year - 1, 12 + (today.month - i))
  }

  /** In June, going back 18 months gives month 0 of the year before, which `date` rejects. */
  lemma TrendMonthLeavesCalendar()
    ensures TrendMonthAsWritten(Date(2026, 6, 15), 18) == (2025, 0)
    ensures !(1 <= TrendMonthAsWritten(Date(2026, 6, 15), 18).1 <= 12)
  {
  }

  /** While the offset stays within a year before January, the written arithmetic is the calendar's. */
  lemma TrendMonthAsWrittenAgrees(today: Date, i: int)
    requires 1 <= today.month <= 12 && 0 <= i < today.month + 12
    ensures TrendMonthAsWritten(today, i) == MonthsBack(today.year, today.month, i)
  {
    var r := MonthsBack(today.year, today.month, i);
    var w := TrendMonthAsWritten(today, i);
    assert MonthIndex(w.0, w.1) == MonthIndex(r.0, r.1);
    assert 1 <= w.1 <= 12;
  }

  /** The trend's row for the month `i` months before today's. */
  function TrendEntryAt(payments: seq<PaymentModel.Payment>, expenses: seq<ExpenseModel.Expense>, today: Date, i: int)
    : (e: TrendEntry)
    ensures 1 <= e.month <= 12
    ensures MonthIndex(e.year, e.month) == MonthIndex(today.year, today.month) - i
    ensures e.net == e.income - e.expenses
  {
    var ym := MonthsBack(today.year, today.month, i);
    var start := DayKey(FirstOfMonth(ym.0, ym.1));
    var end := EndOfMonthKey(ym.0, ym.1);
    var income := PaymentService.TotalIncome(payments, start, end);
    var spent := ExpenseService.TotalExpenses(expenses, start, end);
    TrendEntry(ym.0, ym.1, income, spent, income - spent)
  }

  /**
   * A trend entry's income and expenses are the totals of the range that
   * holds exactly the valid dates of its month.
   */
  lemma TrendEntryIsItsMonth(payments: seq<PaymentModel.Payment>, expenses: seq<ExpenseModel.Expense>, today: Date,
                             i: int)
    ensures var e := TrendEntryAt(payments, expenses, today, i);
      var start, end := DayKey(FirstOfMonth(e.year, e.month)), EndOfMonthKey(e.year, e.month);
      e.income == PaymentService.TotalIncome(payments, start, end) &&
      e.expenses == ExpenseService.TotalExpenses(expenses, start, end) &&
      forall d :: ValidDate(d) ==> (start <= DayKey(d) <= end <==> d.year == e.year && d.month == e.month)
  {
    var e := TrendEntryAt(payments, expenses, today, i);
    forall d | ValidDate(d)
      ensures DayKey(FirstOfMonth(e.year, e.month)) <= DayKey(d) <= EndOfMonthKey(e.year, e.month) <==>
        d.year == e.year && d.month == e.month
    {
      MonthRange(d, e.year, e.month);
    }
  }

  /**
   * `get_monthly_trend`: one entry per month for the last `months` months,
   * today's month last. Each new entry goes in at the front, so the list
   * runs oldest first. The month is computed with the calendar's
   * arithmetic rather than the single year step of the source (see
   * TrendMonthAsWritten).
   */
  method MonthlyTrend(payments: seq<PaymentModel.Payment>, expenses: seq<ExpenseModel.Expense>, today: Date, months: int)
    returns (trend: seq<TrendEntry>)
    ensures trend == Trend(payments, expenses, today, if months > 0 then months else 0)
  {
    var n := if months > 0 then months else 0;
    trend := [];
    for i := 0 to n
      invariant trend == Trend(payments, expenses, today, i)
    {
      var entry := TrendEntryAt(payments, expenses, today, i);
      trend := [entry] + trend;
    }
  }

  /** The trend of the last `n` months: each month's entry put in front of the ones after it. */
  function Trend(payments: seq<PaymentModel.Payment>, expenses: seq<ExpenseModel.Expense>, today: Date, n: nat)
    : seq<TrendEntry>
  {
    Countdown((j: nat) => TrendEntryAt(payments, expenses, today, j), n)
  }

  /** The trend has one entry per month, the `k`-th for the month `n - 1 - k` months back. */
  lemma TrendEntries(payments: seq<PaymentModel.Payment>, expenses: seq<ExpenseModel.Expense>, today: Date, n: nat)
    ensures var t := Trend(payments, expenses, today, n);
      |t| == n && forall k :: 0 <= k < n ==> t[k] == TrendEntryAt(payments, expenses, today, n - 1 - k)
  {
    CountdownEntries((j: nat) => TrendEntryAt(payments, expenses, today, j), n);
  }

  /** The trend runs oldest first through consecutive months and ends with today's month. */
  lemma TrendRunsOldestFirst(payments: seq<PaymentModel.Payment>, expenses: seq<ExpenseModel.Expense>, today: Date,
                             n: nat)
    requires 1 <= today.month <= 12
    ensures var t := Trend(payments, expenses, today, n);
      (forall k :: 0 <= k < |t| - 1 ==>
        MonthIndex(t[k + 1].year, t[k + 1].month) == MonthIndex(t[k].year, t[k].month) + 1) &&
      (|t| > 0 ==> t[|t| - 1].year == today.year && t[|t| - 1].month == today.month)
  {
    var t := Trend(payments, expenses, today, n);
    TrendEntries(payments, expenses, today, n);
    forall k | 0 <= k < |t| - 1
      ensures MonthIndex(t[k + 1].year, t[k + 1].month) == MonthIndex(t[k].year, t[k].month) + 1
    {
      assert t[k] == TrendEntryAt(payments, expenses, today, n - 1 - k);
      assert t[k + 1] == TrendEntryAt(payments, expenses, today, n - 2 - k);
    }
    if n > 0 {
      assert t[n - 1] == TrendEntryAt(payments, expenses, today, 0);
    }
  }

  // ---------------------------------------------------------------------
  // get_top_revenue_courses
  // ---------------------------------------------------------------------

  /** Python's `s[:limit]`: a negative limit counts back from the end. */
  function SlicePrefix<T>(s: seq<T>, limit: int): (r: seq<T>)
    ensures limit >= 0 ==> |r| == (if limit < |s| then limit else |s|)
    ensures limit < 0 ==> |r| == (if |s| + limit > 0 then |s| + limit else 0)
    ensures r == s[..|r|]
  {
    if limit >= 0 then (if limit < |s| then s[..limit] else s)
    else if |s| + limit > 0 then s[..|s| + limit] else []
  }

  function HighestFirst(): PaymentService.CourseIncome -> int {
    (c: PaymentService.CourseIncome) => -c.totalIncome
  }

  /** The first `limit` rows by income, highest first. */
  function TopOf(rows: seq<PaymentService.CourseIncome>, limit: int): seq<PaymentService.CourseIncome> {
    SlicePrefix(SortBy(rows, HighestFirst()), limit)
  }

  /**
   * The top rows are rows of the input, highest income first, and no row
   * left out earns more than a row kept; a non-negative limit bounds their
   * number.
   */
  lemma TopOfFacts(rows: seq<PaymentService.CourseIncome>, limit: int)
    ensures var top := TopOf(rows, limit);
      (limit >= 0 ==> |top| == (if limit < |rows| then limit else |rows|)) &&
      multiset(top) <= multiset(rows) &&
      (forall a, b :: 0 <= a < b < |top| ==> top[a].totalIncome >= top[b].totalIncome) &&
      (forall x, a :: x in multiset(rows) - multiset(top) && 0 <= a < |top| ==> x.totalIncome <= top[a].totalIncome)
  {
    var sorted := SortBy(rows, HighestFirst());
    var top := TopOf(rows, limit);
    var rest := sorted[|top|..];
    assert sorted == top + rest;
    assert multiset(sorted) == multiset(top) + multiset(rest);
    forall a, b | 0 <= a < b < |top| ensures top[a].totalIncome >= top[b].totalIncome {
      assert HighestFirst()(sorted[a]) <= HighestFirst()(sorted[b]);
    }
    forall x, a | x in multiset(rows) - multiset(top) && 0 <= a < |top|
      ensures x.totalIncome <= top[a].totalIncome
    {
      assert x in multiset(rest);
      var j :| 0 <= j < |rest| && rest[j] == x;
      assert HighestFirst()(sorted[a]) <= HighestFirst()(sorted[|top| + j]);
    }
  }

  /**
   * `get_top_revenue_courses`: the income-by-course rows of the range, best
   * first, cut to `limit`. A non-negative limit returns that many rows when
   * there are enough courses with income, and no course left out earned more
   * than a course returned.
   */
  method TopRevenueCourses(payments: seq<PaymentModel.Payment>, courses: map<int, CourseModel.Course>,
                           start: int, end: int, limit: int)
    returns (top: seq<PaymentService.CourseIncome>)
    ensures var ks := Keys(payments, PaymentService.TuitionIn(start, end), PaymentService.Reference());
      limit >= 0 ==> |top| == (if limit < |ks| then limit else |ks|)
    ensures forall a, b :: 0 <= a < b < |top| ==> top[a].totalIncome >= top[b].totalIncome
    ensures forall a :: 0 <= a < |top| ==>
      top[a].courseId in Keys(payments, PaymentService.TuitionIn(start, end), PaymentService.Reference()) &&
      top[a].courseName == PaymentService.CourseNameOf(courses, top[a].courseId) &&
      top[a].totalIncome ==
        GroupSum(payments, PaymentService.TuitionIn(start, end), PaymentService.Reference(), top[a].courseId,
                 PaymentService.Amount())
    ensures forall k, a ::
      k in Keys(payments, PaymentService.TuitionIn(start, end), PaymentService.Reference()) &&
      (forall b :: 0 <= b < |top| ==> top[b].courseId != k) && 0 <= a < |top| ==>
        GroupSum(payments, PaymentService.TuitionIn(start, end), PaymentService.Reference(), k,
                 PaymentService.Amount()) <= top[a].totalIncome
  {
    var rows := PaymentService.IncomeByCourse(payments, courses, start, end);
    top := TopOf(rows, limit);
    TopOfFacts(rows, limit);
    var ks := Keys(payments, PaymentService.TuitionIn(start, end), PaymentService.Reference());
    forall a | 0 <= a < |top|
      ensures top[a] in rows
    {
      assert top[a] in multiset(rows);
    }
    forall k, a | k in ks && (forall b :: 0 <= b < |top| ==> top[b].courseId != k) && 0 <= a < |top|
      ensures GroupSum(payments, PaymentService.TuitionIn(start, end), PaymentService.Reference(), k,
                       PaymentService.Amount()) <= top[a].totalIncome
    {
      var j :| 0 <= j < |ks| && ks[j] == k;
      assert rows[j] !in multiset(top);
      assert rows[j] in multiset(rows) - multiset(top);
    }
  }
}
