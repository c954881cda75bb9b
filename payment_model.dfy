/**
 * Payments recorded by the center (app/models/payment.py). Amounts are
 * whole cents; dates are integer day keys compared as numbers.
 */
module PaymentModel {
  import opened Common

  datatype PaymentType = Tuition | Fee | Salary | Other

  datatype PaymentMethod = Cash | Card | Transfer

  datatype PaymentStatus = Pending | Completed | Cancelled

  /** A row of `payments`. `referenceId` is the course a tuition payment is for. */
  datatype Payment = Payment(
    payerId: int,
    amount: Option<int>,
    paymentType: PaymentType,
    paymentMethod: PaymentMethod,
    paymentDate: Option<int>,
    status: PaymentStatus,
    referenceId: Option<int>,
    notes: Option<string>)

  /** A new payment object with the column defaults (status PENDING, dated now). */
  function NewPayment(payer: int, amount: int, paymentType: PaymentType, paymentMethod: PaymentMethod, now: int): (p: Payment)
    ensures p.status == Pending && IsPending(p)
    ensures p.paymentDate == Some(now) && p.amount == Some(amount) && p.payerId == payer
    ensures p.paymentType == paymentType && p.paymentMethod == paymentMethod
    ensures p.referenceId.None? && p.notes.None?
  {
    Payment(payer, Some(amount), paymentType, paymentMethod, Some(now), Pending, None, None)
  }

  /** `amount_value`: a missing amount reads as 0. */
  function AmountValue(p: Payment): (v: int)
    ensures p.amount.None? ==> v == 0
    ensures p.amount.Some? ==> v == p.amount.value
  {
    if p.amount.Some? && p.amount.value != 0 then p.amount.value else 0
  }

  predicate IsCompleted(p: Payment) {
    p.status == Completed
  }

  predicate IsPending(p: Payment) {
    p.status == Pending
  }

  /** `is_income`: tuition and fees come in. */
  predicate IsIncome(p: Payment) {
    p.paymentType in [Tuition, Fee]
  }

  /** `is_expense`: salaries go out. */
  predicate IsExpense(p: Payment) {
    p.paymentType == Salary
  }

  /** No payment is both income and expense; OTHER payments are neither. */
  lemma IncomeExpenseDisjoint(p: Payment)
    ensures !(IsIncome(p) && IsExpense(p))
    ensures IsIncome(p) <==> p.paymentType == Tuition || p.paymentType == Fee
    ensures p.paymentType == Other ==> !IsIncome(p) && !IsExpense(p)
    ensures !(IsCompleted(p) && IsPending(p))
  {
  }

  /** `mark_completed`: COMPLETED; the date is filled in only when missing. */
  function MarkCompleted(p: Payment, now: int): (r: Payment)
    ensures r.status == Completed
    ensures p.paymentDate.Some? ==> r.paymentDate == p.paymentDate
    ensures p.paymentDate.None? ==> r.paymentDate == Some(now)
    ensures r.(status := p.status, paymentDate := p.paymentDate) == p
  {
    p.(status := Completed, paymentDate := if p.paymentDate.Some? then p.paymentDate else Some(now))
  }

  /** `mark_cancelled`: only the status changes. */
  function MarkCancelled(p: Payment): (r: Payment)
    ensures r.status == Cancelled && r.(status := p.status) == p
  {
    p.(status := Cancelled)
  }
}
