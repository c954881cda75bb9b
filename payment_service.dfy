/**
 * The payment ledger (app/services/payment_service.py): recording a payment
 * and the sums and listings over the `payments` table. A payment's id is its
 * index in the table; dates are integer day keys and every range is
 * inclusive at both ends.
 */
module PaymentService {
  import opened Common
  import CourseModel
  import opened UserModel
  import opened PaymentModel
  import opened Session

  datatype PaymentError = InvalidAmount | ConstraintViolation

  datatype PaymentOutcome = Recorded(id: nat) | NotRecorded(why: PaymentError)

  /** `record_payment`'s row: COMPLETED and dated now. */
  function RecordedPayment(payer: int, amount: int, paymentType: PaymentType, paymentMethod: PaymentMethod,
                           reference: Option<int>, notes: Option<string>, now: int): Payment {
    Payment(payer, Some(amount), paymentType, paymentMethod, Some(now), Completed, reference, notes)
  }

  /**
   * `record_payment`: a non-positive amount raises before anything is
   * written; a payer that is not a user breaks the foreign key at commit.
   */
  function RecordPaymentSpec(payments: seq<Payment>, users: seq<User>, payer: int, amount: int,
                             paymentType: PaymentType, paymentMethod: PaymentMethod,
                             reference: Option<int>, notes: Option<string>, now: int)
    : (r: (PaymentOutcome, seq<Payment>))
    ensures r.0 == NotRecorded(InvalidAmount) <==> amount <= 0
    ensures r.0 == NotRecorded(ConstraintViolation) <==> amount > 0 && !IsUser(users, payer)
    ensures r.0.NotRecorded? ==> r.1 == payments
    ensures r.0.Recorded? ==>
      r.0.id == |payments| && |r.1| == |payments| + 1 && r.1[..|payments|] == payments &&
      var p := r.1[|payments|];
      p.status == Completed && IsCompleted(p) && p.amount == Some(amount) && AmountValue(p) > 0 &&
      p.payerId == payer && p.paymentType == paymentType && p.paymentDate == Some(now) &&
      p.referenceId == reference && p.paymentMethod == paymentMethod && p.notes == notes
  {
    if amount <= 0 then (NotRecorded(InvalidAmount), payments)
    else if !IsUser(users, payer) then (NotRecorded(ConstraintViolation), payments)
    else
      var r := payments + [RecordedPayment(payer, amount, paymentType, paymentMethod, reference, notes, now)];
      assert r[..|payments|] == payments;
      (Recorded(|payments|), r)
  }

  method RecordPayment(db: Database, payer: int, amount: int, paymentType: PaymentType, paymentMethod: PaymentMethod,
                       reference: Option<int>, notes: Option<string>, now: int) returns (outcome: PaymentOutcome)
    modifies db`payments
    ensures (outcome, db.payments) ==
      RecordPaymentSpec(old(db.payments), db.users, payer, amount, paymentType, paymentMethod, reference, notes, now)
  {
    if amount <= 0 {
      return NotRecorded(InvalidAmount);
    }
    var payment := Payment(payer, Some(amount), paymentType, paymentMethod, Some(now), Completed, reference, notes);
    if !(exists i :: 0 <= i < |db.users| && db.users[i].id == payer) {
      return NotRecorded(ConstraintViolation);
    }
    outcome := Recorded(|db.payments|);
    db.payments := db.payments + [payment];
  }

  // ---------------------------------------------------------------------
  // Sums
  // ---------------------------------------------------------------------

  /** `start <= payment_date <= end`; a payment without a date is in no range. */
  predicate InRange(date: Option<int>, start: int, end: int) {
    date.Some? && start <= date.value <= end
  }

  function Amount(): Payment -> int {
    (p: Payment) => AmountValue(p)
  }

  function IncomeIn(start: int, end: int): Payment -> bool {
    (p: Payment) => InRange(p.paymentDate, start, end) && (p.paymentType == Tuition || p.paymentType == Fee) &&
                    p.status == Completed
  }

  function TuitionIn(start: int, end: int): Payment -> bool {
    (p: Payment) => InRange(p.paymentDate, start, end) && p.paymentType == Tuition && p.status == Completed
  }

  function FeeIn(start: int, end: int): Payment -> bool {
    (p: Payment) => InRange(p.paymentDate, start, end) && p.paymentType == Fee && p.status == Completed
  }

  /** `calculate_total_income`: SUM of the completed tuition and fee payments dated in the range (0 when none). */
  function TotalIncome(payments: seq<Payment>, start: int, end: int): int {
    Sum(payments, IncomeIn(start, end), Amount())
  }

  /** No completed income in the range gives 0; income splits into its tuition and fee parts. */
  lemma TotalIncomeParts(payments: seq<Payment>, start: int, end: int)
    ensures (forall i :: 0 <= i < |payments| ==> !IncomeIn(start, end)(payments[i])) ==>
      TotalIncome(payments, start, end) == 0
    ensures TotalIncome(payments, start, end) ==
      Sum(payments, TuitionIn(start, end), Amount()) + Sum(payments, FeeIn(start, end), Amount())
  {
    if forall i :: 0 <= i < |payments| ==> !IncomeIn(start, end)(payments[i]) {
      SumNone(payments, IncomeIn(start, end), Amount());
    }
    SumDisjoint(payments, TuitionIn(start, end), FeeIn(start, end), IncomeIn(start, end), Amount());
  }

  /** A recorded payment adds its amount to the income of every range holding today, if it is income. */
  lemma RecordAddsIncome(payments: seq<Payment>, users: seq<User>, payer: int, amount: int,
                         paymentType: PaymentType, paymentMethod: PaymentMethod,
                         reference: Option<int>, notes: Option<string>, now: int, start: int, end: int)
    ensures var r := RecordPaymentSpec(payments, users, payer, amount, paymentType, paymentMethod, reference, notes, now);
      TotalIncome(r.1, start, end) == TotalIncome(payments, start, end) +
        (if r.0.Recorded? && start <= now <= end && (paymentType == Tuition || paymentType == Fee) then amount else 0)
  {
    var r := RecordPaymentSpec(payments, users, payer, amount, paymentType, paymentMethod, reference, notes, now);
    if r.0.Recorded? {
      assert r.1 == payments + [r.1[|payments|]];
      SumAppend(payments, r.1[|payments|], IncomeIn(start, end), Amount());
    }
  }

  function PaidBy(payer: int): Payment -> bool {
    (p: Payment) => p.payerId == payer && p.status == Completed
  }

  datatype PaymentSummary = PaymentSummary(totalPaid: int, paymentCount: nat)

  /** `get_payment_summary`: the total and number of the payer's COMPLETED payments, of any type. */
  function PaymentSummaryOf(payments: seq<Payment>, payer: int): (r: PaymentSummary)
    ensures r.paymentCount == |set i: nat | i < |payments| && payments[i].payerId == payer && payments[i].status == Completed|
    ensures r.totalPaid == Sum(payments, PaidBy(payer), Amount())
    ensures r.paymentCount == 0 ==> r.totalPaid == 0
    ensures (forall i :: 0 <= i < |payments| ==> payments[i].amount.None? || payments[i].amount.value >= 0) ==>
      r.totalPaid >= 0
  {
    var total := Sum(payments, PaidBy(payer), Amount());
    var count := Count(payments, PaidBy(payer));
    assert Where(payments, PaidBy(payer)) ==
      set i: nat | i < |payments| && payments[i].payerId == payer && payments[i].status == Completed;
    PaidByFacts(payments, payer);
    PaymentSummary(if total != 0 then total else 0, if count != 0 then count else 0)
  }

  /** A recorded payment adds one payment and its amount to its payer's summary, and to no one else's. */
  lemma RecordAddsToSummary(payments: seq<Payment>, users: seq<User>, payer: int, amount: int,
                            paymentType: PaymentType, paymentMethod: PaymentMethod,
                            reference: Option<int>, notes: Option<string>, now: int, who: int)
    ensures var r := RecordPaymentSpec(payments, users, payer, amount, paymentType, paymentMethod, reference, notes, now);
      var before := PaymentSummaryOf(payments, who);
      PaymentSummaryOf(r.1, who) ==
        if r.0.Recorded? && who == payer then PaymentSummary(before.totalPaid + amount, before.paymentCount + 1)
        else before
  {
    var r := RecordPaymentSpec(payments, users, payer, amount, paymentType, paymentMethod, reference, notes, now);
    if r.0.Recorded? {
      var p := r.1[|payments|];
      assert r.1 == payments + [p];
      SumAppend(payments, p, PaidBy(who), Amount());
      CountAppend(payments, p, PaidBy(who));
      assert PaymentSummaryOf(r.1, who).paymentCount == Count(r.1, PaidBy(who)) by {
        assert Where(r.1, PaidBy(who)) ==
          set i: nat | i < |r.1| && r.1[i].payerId == who && r.1[i].status == Completed;
      }
      assert PaymentSummaryOf(payments, who).paymentCount == Count(payments, PaidBy(who)) by {
        assert Where(payments, PaidBy(who)) ==
          set i: nat | i < |payments| && payments[i].payerId == who && payments[i].status == Completed;
      }
    }
  }

  lemma PaidByFacts(payments: seq<Payment>, payer: int)
    ensures Count(payments, PaidBy(payer)) == 0 ==> Sum(payments, PaidBy(payer), Amount()) == 0
    ensures (forall i :: 0 <= i < |payments| ==> payments[i].amount.None? || payments[i].amount.value >= 0) ==>
      Sum(payments, PaidBy(payer), Amount()) >= 0
  {
    if Count(payments, PaidBy(payer)) == 0 {
      CountZero(payments, PaidBy(payer));
      SumNone(payments, PaidBy(payer), Amount());
    }
    if forall i :: 0 <= i < |payments| ==> payments[i].amount.None? || payments[i].amount.value >= 0 {
      SumNonNegative(payments, PaidBy(payer), Amount());
    }
  }

  // ---------------------------------------------------------------------
  // get_income_by_course
  // ---------------------------------------------------------------------

  datatype CourseIncome = CourseIncome(courseId: Option<int>, courseName: string, totalIncome: int)

  function Reference(): Payment -> Option<int> {
    (p: Payment) => p.referenceId
  }

  /** The course name of a group, or "Unknown" when no course row has that id (a NULL reference included). */
  function CourseNameOf(courses: map<int, CourseModel.Course>, id: Option<int>): string {
    if id.Some? && id.value in courses then courses[id.value].name else "Unknown"
  }

  function TotalOf(rows: seq<CourseIncome>): int {
    if rows == [] then 0 else TotalOf(rows[..|rows| - 1]) + rows[|rows| - 1].totalIncome
  }

  /**
   * `get_income_by_course`: one row per reference id among the completed
   * tuition payments of the range (NULL is a group of its own), with the
   * group's sum; the rows' totals add up to the tuition income of the range.
   */
  /** The row of one group: its id, the course's name and the group's sum. */
  function IncomeRow(payments: seq<Payment>, courses: map<int, CourseModel.Course>, start: int, end: int, id: Option<int>)
    : CourseIncome
  {
    CourseIncome(id, CourseNameOf(courses, id), GroupSum(payments, TuitionIn(start, end), Reference(), id, Amount()))
  }

  method IncomeByCourse(payments: seq<Payment>, courses: map<int, CourseModel.Course>, start: int, end: int)
    returns (rows: seq<CourseIncome>)
    ensures var ks := Keys(payments, TuitionIn(start, end), Reference());
      |rows| == |ks| &&
      forall a :: 0 <= a < |rows| ==>
        rows[a].courseId == ks[a] && rows[a].courseName == CourseNameOf(courses, ks[a]) &&
        rows[a].totalIncome == GroupSum(payments, TuitionIn(start, end), Reference(), ks[a], Amount())
    ensures forall a, b :: 0 <= a < b < |rows| ==> rows[a].courseId != rows[b].courseId
    ensures forall i :: 0 <= i < |payments| && TuitionIn(start, end)(payments[i]) ==>
      exists a :: 0 <= a < |rows| && rows[a].courseId == payments[i].referenceId
    ensures TotalOf(rows) == Sum(payments, TuitionIn(start, end), Amount())
  {
    var groups := Keys(payments, TuitionIn(start, end), Reference());
    rows := [];
    for a := 0 to |groups|
      invariant |rows| == a
      invariant forall b :: 0 <= b < a ==> rows[b] == IncomeRow(payments, courses, start, end, groups[b])
      invariant TotalOf(rows) == GroupTotal(groups[..a], payments, TuitionIn(start, end), Reference(), Amount())
    {
      var row := IncomeRow(payments, courses, start, end, groups[a]);
      IncomeStep(payments, courses, start, end, groups, a, rows, row);
      rows := rows + [row];
    }
    IncomeRowsFacts(payments, courses, start, end, rows);
  }

  lemma IncomeRowsFacts(payments: seq<Payment>, courses: map<int, CourseModel.Course>, start: int, end: int,
                        rows: seq<CourseIncome>)
    requires var ks := Keys(payments, TuitionIn(start, end), Reference());
      |rows| == |ks| && (forall b :: 0 <= b < |ks| ==> rows[b] == IncomeRow(payments, courses, start, end, ks[b])) &&
      TotalOf(rows) == GroupTotal(ks[..|ks|], payments, TuitionIn(start, end), Reference(), Amount())
    ensures forall a, b :: 0 <= a < b < |rows| ==> rows[a].courseId != rows[b].courseId
    ensures forall i :: 0 <= i < |payments| && TuitionIn(start, end)(payments[i]) ==>
      exists a :: 0 <= a < |rows| && rows[a].courseId == payments[i].referenceId
    ensures TotalOf(rows) == Sum(payments, TuitionIn(start, end), Amount())
  {
    var p, key := TuitionIn(start, end), Reference();
    var ks := Keys(payments, p, key);
    assert ks[..|ks|] == ks;
    GroupTotalsAddUp(payments, p, key, Amount());
    forall i | 0 <= i < |payments| && p(payments[i])
      ensures exists a :: 0 <= a < |rows| && rows[a].courseId == payments[i].referenceId
    {
      var a :| 0 <= a < |ks| && ks[a] == key(payments[i]);
      assert rows[a].courseId == payments[i].referenceId;
    }
  }

  /** One more group's row adds that group's sum to the running total. */
  lemma IncomeStep(payments: seq<Payment>, courses: map<int, CourseModel.Course>, start: int, end: int,
                   groups: seq<Option<int>>, a: nat, rows: seq<CourseIncome>, row: CourseIncome)
    requires a < |groups| && row == IncomeRow(payments, courses, start, end, groups[a])
    requires TotalOf(rows) == GroupTotal(groups[..a], payments, TuitionIn(start, end), Reference(), Amount())
    ensures TotalOf(rows + [row]) == GroupTotal(groups[..a + 1], payments, TuitionIn(start, end), Reference(), Amount())
  {
    GroupTotalStep(groups, a, payments, TuitionIn(start, end), Reference(), Amount());
    TotalOfAppend(rows, row);
  }

  lemma TotalOfAppend(rows: seq<CourseIncome>, row: CourseIncome)
    ensures TotalOf(rows + [row]) == TotalOf(rows) + row.totalIncome
  {
    assert (rows + [row])[..|rows|] == rows;
  }

  // ---------------------------------------------------------------------
  // get_parent_payments
  // ---------------------------------------------------------------------

  /** The optional bounds (`if start_date:`): a given bound leaves out undated payments. */
  predicate WithinBounds(p: Payment, startDate: Option<int>, endDate: Option<int>) {
    (startDate.None? || (p.paymentDate.Some? && p.paymentDate.value >= startDate.value)) &&
    (endDate.None? || (p.paymentDate.Some? && p.paymentDate.value <= endDate.value))
  }

  function ParentFilter(payer: int, startDate: Option<int>, endDate: Option<int>): Payment -> bool {
    (p: Payment) => p.payerId == payer && WithinBounds(p, startDate, endDate)
  }

  function Dated(): Payment -> bool {
    (p: Payment) => p.paymentDate.Some?
  }

  function Undated(): Payment -> bool {
    (p: Payment) => p.paymentDate.None?
  }

  function NewestFirst(): Payment -> int {
    (p: Payment) => -GetOr(p.paymentDate, 0)
  }

  /**
   * `get_parent_payments`: the payer's payments within the bounds, newest
   * first; undated rows sort last, as NULLs do in a descending ORDER BY, and
   * ties keep table order.
   */
  function ParentPayments(payments: seq<Payment>, payer: int, startDate: Option<int>, endDate: Option<int>)
    : (r: seq<Payment>)
    ensures |r| == Count(payments, ParentFilter(payer, startDate, endDate))
  {
    var mine := Filter(payments, ParentFilter(payer, startDate, endDate));
    CountComplement(mine, Dated(), Undated());
    SortedDated(mine) + Filter(mine, Undated())
  }

  function SortedDated(mine: seq<Payment>): seq<Payment> {
    SortBy(Filter(mine, Dated()), NewestFirst())
  }

  /** The sorted dated rows are dated rows of `mine`. */
  lemma SortedDatedSound(mine: seq<Payment>)
    ensures forall a :: 0 <= a < |SortedDated(mine)| ==>
      SortedDated(mine)[a] in mine && SortedDated(mine)[a].paymentDate.Some?
  {
    var dated := Filter(mine, Dated());
    var sorted := SortedDated(mine);
    forall a | 0 <= a < |sorted| ensures sorted[a] in dated {
      assert sorted[a] in multiset(sorted);
    }
  }

  /** Every dated row of `mine` is among the sorted ones. */
  lemma SortedDatedComplete(mine: seq<Payment>)
    ensures forall x :: x in mine && x.paymentDate.Some? ==> x in SortedDated(mine)
  {
    var dated := Filter(mine, Dated());
    forall x | x in mine && x.paymentDate.Some? ensures x in SortedDated(mine) {
      assert x in dated;
      assert x in multiset(dated);
    }
  }

  /** The sorted dated rows run from the newest date to the oldest. */
  lemma SortedDatedNewestFirst(mine: seq<Payment>)
    ensures forall a, b :: 0 <= a < b < |SortedDated(mine)| ==>
      SortedDated(mine)[a].paymentDate.Some? && SortedDated(mine)[b].paymentDate.Some? &&
      SortedDated(mine)[a].paymentDate.value >= SortedDated(mine)[b].paymentDate.value
  {
    var sorted := SortedDated(mine);
    SortedDatedSound(mine);
    forall a, b | 0 <= a < b < |sorted|
      ensures sorted[a].paymentDate.value >= sorted[b].paymentDate.value
    {
      assert NewestFirst()(sorted[a]) <= NewestFirst()(sorted[b]);
    }
  }

  /** Every listed row is one of the rows the listing was made from. */
  lemma ListedAreMine(mine: seq<Payment>)
    ensures forall x :: x in SortedDated(mine) + Filter(mine, Undated()) ==> x in mine
  {
    SortedDatedSound(mine);
    forall x | x in SortedDated(mine) + Filter(mine, Undated()) ensures x in mine {
      if x !in SortedDated(mine) {
        FilterMember(mine, Undated(), x);
      }
    }
  }

  /** Every listed payment is the payer's and lies within the bounds. */
  lemma ParentPaymentsSound(payments: seq<Payment>, payer: int, startDate: Option<int>, endDate: Option<int>)
    ensures var r := ParentPayments(payments, payer, startDate, endDate);
      forall a :: 0 <= a < |r| ==> r[a] in payments && r[a].payerId == payer && WithinBounds(r[a], startDate, endDate)
  {
    var keep := ParentFilter(payer, startDate, endDate);
    var mine := Filter(payments, keep);
    var r := ParentPayments(payments, payer, startDate, endDate);
    assert r == SortedDated(mine) + Filter(mine, Undated());
    ListedAreMine(mine);
    forall a | 0 <= a < |r|
      ensures r[a] in payments && r[a].payerId == payer && WithinBounds(r[a], startDate, endDate)
    {
      assert r[a] in r;
      FilterMember(payments, keep, r[a]);
    }
  }

  /** Every payment of the payer within the bounds is listed. */
  lemma ParentPaymentsComplete(payments: seq<Payment>, payer: int, startDate: Option<int>, endDate: Option<int>)
    ensures var r := ParentPayments(payments, payer, startDate, endDate);
      forall i :: 0 <= i < |payments| && payments[i].payerId == payer && WithinBounds(payments[i], startDate, endDate) ==>
        payments[i] in r
  {
    var mine := Filter(payments, ParentFilter(payer, startDate, endDate));
    var sorted := SortedDated(mine);
    var undated := Filter(mine, Undated());
    var r := ParentPayments(payments, payer, startDate, endDate);
    assert r == sorted + undated;
    SortedDatedComplete(mine);
    forall i | 0 <= i < |payments| && payments[i].payerId == payer && WithinBounds(payments[i], startDate, endDate)
      ensures payments[i] in r
    {
      var x := payments[i];
      assert x in mine;
      if x.paymentDate.None? {
        assert x in undated;
      } else {
        assert x in sorted;
      }
    }
  }

  /** Dated payments come newest first, and every undated one comes after all of them. */
  lemma ParentPaymentsNewestFirst(payments: seq<Payment>, payer: int, startDate: Option<int>, endDate: Option<int>)
    ensures var r := ParentPayments(payments, payer, startDate, endDate);
      forall a, b :: 0 <= a < b < |r| && r[b].paymentDate.Some? ==>
        r[a].paymentDate.Some? && r[a].paymentDate.value >= r[b].paymentDate.value
  {
    var mine := Filter(payments, ParentFilter(payer, startDate, endDate));
    var sorted := SortedDated(mine);
    var undated := Filter(mine, Undated());
    var r := ParentPayments(payments, payer, startDate, endDate);
    assert r == sorted + undated;
    SortedDatedNewestFirst(mine);
    forall a, b | 0 <= a < b < |r| && r[b].paymentDate.Some?
      ensures r[a].paymentDate.Some? && r[a].paymentDate.value >= r[b].paymentDate.value
    {
      assert r[a] == sorted[a] && r[b] == sorted[b];
    }
  }
}
