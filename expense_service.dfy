/**
 * The expense ledger (app/services/expense_service.py): creating, updating
 * and deleting expense rows, and the sums over them. Expense ids come from
 * the table's auto-increment counter; dates are integer day keys and every
 * range is inclusive at both ends.
 */
module ExpenseService {
  import opened Common
  import opened ExpenseModel
  import opened Session

  datatype ExpenseError = InvalidAmount | ConstraintViolation

  /** No two rows share an id. */
  ghost predicate UniqueIds(expenses: seq<Expense>) {
    forall i, j :: 0 <= i < j < |expenses| ==> expenses[i].id != expenses[j].id
  }

  /** Every stored amount is positive, as the service's checks intend. */
  ghost predicate PositiveAmounts(expenses: seq<Expense>) {
    forall i :: 0 <= i < |expenses| ==> expenses[i].amount > 0
  }

  predicate HasExpense(expenses: seq<Expense>, id: int) {
    exists i :: 0 <= i < |expenses| && expenses[i].id == id
  }

  function HasId(id: int): Expense -> bool {
    (e: Expense) => e.id == id
  }

  // ---------------------------------------------------------------------
  // create_expense
  // ---------------------------------------------------------------------

  datatype CreateOutcome = Created(id: int) | NotCreated(why: ExpenseError)

  /**
   * `create_expense`: a non-positive amount raises before anything is
   * written; a manager id without a manager profile breaks the foreign key
   * at commit, which rolls the insert back.
   */
  function CreateExpenseSpec(expenses: seq<Expense>, nextId: int, managers: set<int>, category: ExpenseCategory,
                             amount: int, expenseDate: int, description: Option<string>, manager: int)
    : (r: (CreateOutcome, seq<Expense>, int))
    ensures r.0 == NotCreated(InvalidAmount) <==> amount <= 0
    ensures r.0 == NotCreated(ConstraintViolation) <==> amount > 0 && manager !in managers
    ensures r.0.NotCreated? ==> r.1 == expenses && r.2 == nextId
    ensures r.0.Created? ==>
      r.0.id == nextId && r.2 == nextId + 1 &&
      r.1 == expenses + [Expense(nextId, category, amount, expenseDate, description, Some(manager))]
  {
    if amount <= 0 then (NotCreated(InvalidAmount), expenses, nextId)
    else if manager !in managers then (NotCreated(ConstraintViolation), expenses, nextId)
    else (Created(nextId), expenses + [Expense(nextId, category, amount, expenseDate, description, Some(manager))], nextId + 1)
  }

  method CreateExpense(db: Database, category: ExpenseCategory, amount: int, expenseDate: int,
                       description: Option<string>, manager: int) returns (outcome: CreateOutcome)
    modifies db`expenses, db`nextExpenseId
    ensures (outcome, db.expenses, db.nextExpenseId) ==
      CreateExpenseSpec(old(db.expenses), old(db.nextExpenseId), db.managers.Keys, category, amount, expenseDate,
                        description, manager)
  {
    if amount <= 0 {
      return NotCreated(InvalidAmount);
    }
    if manager !in db.managers {
      return NotCreated(ConstraintViolation);
    }
    var expense := Expense(db.nextExpenseId, category, amount, expenseDate, description, Some(manager));
    outcome := Created(db.nextExpenseId);
    db.expenses := db.expenses + [expense];
    db.nextExpenseId := db.nextExpenseId + 1;
  }

  /** Creating keeps ids unique and below the counter, and keeps every amount positive. */
  lemma CreateKeepsInvariants(expenses: seq<Expense>, nextId: int, managers: set<int>, category: ExpenseCategory,
                              amount: int, expenseDate: int, description: Option<string>, manager: int)
    requires UniqueIds(expenses) && PositiveAmounts(expenses)
    requires forall i :: 0 <= i < |expenses| ==> expenses[i].id < nextId
    ensures var r := CreateExpenseSpec(expenses, nextId, managers, category, amount, expenseDate, description, manager);
      UniqueIds(r.1) && PositiveAmounts(r.1) && (forall i :: 0 <= i < |r.1| ==> r.1[i].id < r.2)
  {
  }

  // ---------------------------------------------------------------------
  // calculate_total_expenses
  // ---------------------------------------------------------------------

  function InRange(start: int, end: int): Expense -> bool {
    (e: Expense) => start <= e.expenseDate <= end
  }

  function Amount(): Expense -> int {
    (e: Expense) => e.amount
  }

  /** `calculate_total_expenses`: SUM of the amounts dated in the range, 0 when there are none. */
  function TotalExpenses(expenses: seq<Expense>, start: int, end: int): int {
    Sum(expenses, InRange(start, end), Amount())
  }

  /** No expense in the range gives 0; positive amounts give a non-negative total. */
  lemma TotalExpensesFacts(expenses: seq<Expense>, start: int, end: int)
    ensures (forall i :: 0 <= i < |expenses| ==> !(start <= expenses[i].expenseDate <= end)) ==>
      TotalExpenses(expenses, start, end) == 0
    ensures PositiveAmounts(expenses) ==> TotalExpenses(expenses, start, end) >= 0
  {
    if forall i :: 0 <= i < |expenses| ==> !(start <= expenses[i].expenseDate <= end) {
      SumNone(expenses, InRange(start, end), Amount());
    }
    if PositiveAmounts(expenses) {
      SumNonNegative(expenses, InRange(start, end), Amount());
    }
  }

  /** A created expense adds its amount to the total of every range holding its date. */
  lemma CreateAddsToTotal(expenses: seq<Expense>, nextId: int, managers: set<int>, category: ExpenseCategory,
                          amount: int, expenseDate: int, description: Option<string>, manager: int, start: int, end: int)
    ensures var r := CreateExpenseSpec(expenses, nextId, managers, category, amount, expenseDate, description, manager);
      TotalExpenses(r.1, start, end) ==
        TotalExpenses(expenses, start, end) + (if r.0.Created? && start <= expenseDate <= end then amount else 0)
  {
    var r := CreateExpenseSpec(expenses, nextId, managers, category, amount, expenseDate, description, manager);
    if r.0.Created? {
      SumAppend(expenses, r.1[|expenses|], InRange(start, end), Amount());
    }
  }

  // ---------------------------------------------------------------------
  // update_expense
  // ---------------------------------------------------------------------

  /** The optional arguments of `update_expense`; None leaves a field alone. */
  datatype ExpenseUpdate = ExpenseUpdate(
    category: Option<ExpenseCategory>,
    amount: Option<int>,
    expenseDate: Option<int>,
    description: Option<string>)

  datatype UpdateOutcome = Updated | NoSuchExpense | NotUpdated(why: ExpenseError)

  /**
   * `update_expense`: the first row with the id is changed field by field.
   * The category is assigned before the amount is checked, so a rejected
   * amount leaves the new category on the row held by the session.
   */
  function UpdateExpenseSpec(expenses: seq<Expense>, id: int, u: ExpenseUpdate): (r: (UpdateOutcome, seq<Expense>))
    ensures r.0 == NoSuchExpense <==> !HasExpense(expenses, id)
    ensures r.0 == NotUpdated(InvalidAmount) <==>
      HasExpense(expenses, id) && u.amount.Some? && u.amount.value <= 0
    ensures r.0 != NotUpdated(ConstraintViolation)
    ensures r.0 == NoSuchExpense ==> r.1 == expenses
    ensures r.0 != NoSuchExpense ==>
      var i := First(expenses, HasId(id)).value;
      var e := expenses[i];
      |r.1| == |expenses| && expenses[i].id == id &&
      (forall j :: 0 <= j < |expenses| && j != i ==> r.1[j] == expenses[j]) &&
      r.1[i].id == e.id && r.1[i].managerId == e.managerId &&
      r.1[i].category == GetOr(u.category, e.category) &&
      (r.0 == Updated ==>
        r.1[i].amount == GetOr(u.amount, e.amount) && r.1[i].expenseDate == GetOr(u.expenseDate, e.expenseDate) &&
        r.1[i].description == (if u.description.Some? then u.description else e.description)) &&
      (r.0 != Updated ==>
        r.1[i].amount == e.amount && r.1[i].expenseDate == e.expenseDate && r.1[i].description == e.description)
  {
    match First(expenses, HasId(id))
    case None => (NoSuchExpense, expenses)
    case Some(i) =>
      var e := expenses[i];
      var e1 := if u.category.Some? then e.(category := u.category.value) else e;
      if u.amount.Some? && u.amount.value <= 0 then (NotUpdated(InvalidAmount), expenses[i := e1])
      else
        var e2 := if u.amount.Some? then e1.(amount := u.amount.value) else e1;
        var e3 := if u.expenseDate.Some? then e2.(expenseDate := u.expenseDate.value) else e2;
        var e4 := if u.description.Some? then e3.(description := u.description) else e3;
        (Updated, expenses[i := e4])
  }

  method UpdateExpense(db: Database, id: int, u: ExpenseUpdate) returns (outcome: UpdateOutcome)
    modifies db`expenses
    ensures (outcome, db.expenses) == UpdateExpenseSpec(old(db.expenses), id, u)
  {
    var found := First(db.expenses, HasId(id));
    if found.None? {
      return NoSuchExpense;
    }
    var i := found.value;
    var e := db.expenses[i];
    if u.category.Some? {
      e := e.(category := u.category.value);
    }
    if u.amount.Some? {
      if u.amount.value <= 0 {
        db.expenses := db.expenses[i := e];
        return NotUpdated(InvalidAmount);
      }
      e := e.(amount := u.amount.value);
    }
    if u.expenseDate.Some? {
      e := e.(expenseDate := u.expenseDate.value);
    }
    if u.description.Some? {
      e := e.(description := u.description);
    }
    db.expenses := db.expenses[i := e];
    outcome := Updated;
  }

  /** An update with no field given changes nothing; any update keeps ids and positive amounts. */
  lemma UpdateLaws(expenses: seq<Expense>, id: int, u: ExpenseUpdate)
    ensures HasExpense(expenses, id) && u == ExpenseUpdate(None, None, None, None) ==>
      UpdateExpenseSpec(expenses, id, u) == (Updated, expenses)
    ensures UniqueIds(expenses) ==> UniqueIds(UpdateExpenseSpec(expenses, id, u).1)
    ensures PositiveAmounts(expenses) ==> PositiveAmounts(UpdateExpenseSpec(expenses, id, u).1)
  {
    var r := UpdateExpenseSpec(expenses, id, u);
    if r.0 != NoSuchExpense {
      var i := First(expenses, HasId(id)).value;
      if u == ExpenseUpdate(None, None, None, None) {
        assert r.1[i] == expenses[i];
        assert r.1 == expenses;
      }
      if PositiveAmounts(expenses) {
        assert r.1[i].amount > 0;
      }
    }
  }

  // ---------------------------------------------------------------------
  // delete_expense
  // ---------------------------------------------------------------------

  /** `delete_expense`: true exactly when a row with the id existed; that first row is removed. */
  function DeleteExpenseSpec(expenses: seq<Expense>, id: int): (r: (bool, seq<Expense>))
    ensures r.0 <==> HasExpense(expenses, id)
    ensures !r.0 ==> r.1 == expenses
    ensures r.0 ==> |r.1| == |expenses| - 1
    ensures forall a :: 0 <= a < |r.1| ==> r.1[a] in expenses
  {
    match First(expenses, HasId(id))
    case None => (false, expenses)
    case Some(i) =>
      var rest := expenses[..i] + expenses[i + 1..];
      assert forall a :: 0 <= a < |rest| ==> rest[a] == expenses[if a < i then a else a + 1];
      (true, rest)
  }

  method DeleteExpense(db: Database, id: int) returns (deleted: bool)
    modifies db`expenses
    ensures (deleted, db.expenses) == DeleteExpenseSpec(old(db.expenses), id)
  {
    var found := First(db.expenses, HasId(id));
    if found.None? {
      return false;
    }
    var i := found.value;
    db.expenses := db.expenses[..i] + db.expenses[i + 1..];
    deleted := true;
  }

  /** With unique ids, a deleted expense is gone for good and every other row stays. */
  lemma DeleteRemovesOnlyIt(expenses: seq<Expense>, id: int)
    requires UniqueIds(expenses)
    ensures var r := DeleteExpenseSpec(expenses, id);
      !HasExpense(r.1, id) && (forall j :: 0 <= j < |expenses| && expenses[j].id != id ==> expenses[j] in r.1)
  {
    var r := DeleteExpenseSpec(expenses, id);
    match First(expenses, HasId(id))
    case None =>
    case Some(i) =>
      assert r.1 == expenses[..i] + expenses[i + 1..];
      forall j | 0 <= j < |expenses| && expenses[j].id != id ensures expenses[j] in r.1 {
        if j < i {
          assert r.1[j] == expenses[j];
        } else {
          assert r.1[j - 1] == expenses[j];
        }
      }
      forall a | 0 <= a < |r.1| ensures r.1[a].id != id {
        if a < i {
          assert r.1[a] == expenses[a];
        } else {
          assert r.1[a] == expenses[a + 1];
        }
      }
  }

  function DatedWithId(id: int, start: int, end: int): Expense -> bool {
    (e: Expense) => e.id == id && start <= e.expenseDate <= end
  }

  /** With unique ids, deleting takes the deleted amount out of the total of any range holding its date. */
  lemma DeleteSubtractsFromTotal(expenses: seq<Expense>, id: int, start: int, end: int)
    requires UniqueIds(expenses)
    ensures TotalExpenses(DeleteExpenseSpec(expenses, id).1, start, end) ==
      TotalExpenses(expenses, start, end) - Sum(expenses, DatedWithId(id, start, end), Amount())
  {
    var r := DeleteExpenseSpec(expenses, id);
    match First(expenses, HasId(id))
    case None =>
      SumNone(expenses, DatedWithId(id, start, end), Amount());
    case Some(i) =>
      assert r.1 == expenses[..i] + expenses[i + 1..];
      SumRemove(expenses, i, InRange(start, end), Amount());
      OnlyOneWithId(expenses, i, DatedWithId(id, start, end));
  }

  /** With unique ids, the sum over rows with one row's id picks out that row alone. */
  lemma OnlyOneWithId(expenses: seq<Expense>, i: nat, target: Expense -> bool)
    requires UniqueIds(expenses) && i < |expenses|
    requires forall e :: target(e) ==> e.id == expenses[i].id
    ensures Sum(expenses, target, Amount()) == if target(expenses[i]) then expenses[i].amount else 0
  {
    assert expenses == expenses[..i] + [expenses[i]] + expenses[i + 1..];
    SumNone(expenses[..i], target, Amount());
    SumNone(expenses[i + 1..], target, Amount());
    SumAppend(expenses[..i], expenses[i], target, Amount());
    SumConcat(expenses[..i] + [expenses[i]], expenses[i + 1..], target, Amount());
  }

  // ---------------------------------------------------------------------
  // get_expenses_by_category
  // ---------------------------------------------------------------------

  datatype CategoryTotal = CategoryTotal(category: ExpenseCategory, totalAmount: int)

  function Category(): Expense -> ExpenseCategory {
    (e: Expense) => e.category
  }

  /** The row of each category in `ks`, in order. */
  function CategoryRows(ks: seq<ExpenseCategory>, expenses: seq<Expense>, start: int, end: int)
    : (rows: seq<CategoryTotal>)
    ensures |rows| == |ks|
    ensures forall a :: 0 <= a < |rows| ==>
      rows[a] == CategoryTotal(ks[a], GroupSum(expenses, InRange(start, end), Category(), ks[a], Amount()))
  {
    if ks == [] then []
    else CategoryRows(ks[..|ks| - 1], expenses, start, end) +
         [CategoryTotal(ks[|ks| - 1], GroupSum(expenses, InRange(start, end), Category(), ks[|ks| - 1], Amount()))]
  }

  function TotalOf(rows: seq<CategoryTotal>): int {
    if rows == [] then 0 else TotalOf(rows[..|rows| - 1]) + rows[|rows| - 1].totalAmount
  }

  /**
   * `get_expenses_by_category`: one row per category that occurs in the
   * range (a GROUP BY, in order of first appearance), with its sum.
   */
  function ExpensesByCategory(expenses: seq<Expense>, start: int, end: int): (rows: seq<CategoryTotal>)
    ensures forall a, b :: 0 <= a < b < |rows| ==> rows[a].category != rows[b].category
    ensures forall i :: 0 <= i < |expenses| && start <= expenses[i].expenseDate <= end ==>
      exists a :: 0 <= a < |rows| && rows[a].category == expenses[i].category
    ensures forall a :: 0 <= a < |rows| ==>
      exists i :: 0 <= i < |expenses| && start <= expenses[i].expenseDate <= end && expenses[i].category == rows[a].category
    ensures forall a :: 0 <= a < |rows| ==>
      rows[a].totalAmount == GroupSum(expenses, InRange(start, end), Category(), rows[a].category, Amount())
  {
    var ks := Keys(expenses, InRange(start, end), Category());
    var rows := CategoryRows(ks, expenses, start, end);
    assert forall a :: 0 <= a < |rows| ==> rows[a].category == ks[a];
    forall i | 0 <= i < |expenses| && InRange(start, end)(expenses[i])
      ensures exists a :: 0 <= a < |rows| && rows[a].category == expenses[i].category
    {
      var a :| 0 <= a < |ks| && ks[a] == expenses[i].category;
      assert rows[a].category == expenses[i].category;
    }
    forall a | 0 <= a < |rows|
      ensures exists i :: 0 <= i < |expenses| && start <= expenses[i].expenseDate <= end && expenses[i].category == rows[a].category
    {
      assert ks[a] in ks;
    }
    rows
  }

  lemma {:induction false} CategoryRowsTotal(ks: seq<ExpenseCategory>, expenses: seq<Expense>, start: int, end: int)
    ensures TotalOf(CategoryRows(ks, expenses, start, end)) ==
      GroupTotal(ks, expenses, InRange(start, end), Category(), Amount())
  {
    if ks != [] {
      var rows := CategoryRows(ks, expenses, start, end);
      CategoryRowsTotal(ks[..|ks| - 1], expenses, start, end);
      assert rows[..|rows| - 1] == CategoryRows(ks[..|ks| - 1], expenses, start, end);
    }
  }

  /** The category totals add up to the total of the same range. */
  lemma CategoryTotalsAddUp(expenses: seq<Expense>, start: int, end: int)
    ensures TotalOf(ExpensesByCategory(expenses, start, end)) == TotalExpenses(expenses, start, end)
  {
    CategoryRowsTotal(Keys(expenses, InRange(start, end), Category()), expenses, start, end);
    GroupTotalsAddUp(expenses, InRange(start, end), Category(), Amount());
  }

  // ---------------------------------------------------------------------
  // get_expense_summary_by_manager
  // ---------------------------------------------------------------------

  datatype ExpenseSummary = ExpenseSummary(totalExpenses: int, expenseCount: nat)

  function CreatedBy(manager: int): Expense -> bool {
    (e: Expense) => e.managerId == Some(manager)
  }

  /** `get_expense_summary_by_manager`: the total and number of the manager's expenses, 0/0 when none. */
  function SummaryByManager(expenses: seq<Expense>, manager: int): (r: ExpenseSummary)
    ensures r.expenseCount == |set i: nat | i < |expenses| && expenses[i].managerId == Some(manager)|
    ensures r.totalExpenses == Sum(expenses, CreatedBy(manager), Amount())
    ensures r.expenseCount == 0 ==> r.totalExpenses == 0
    ensures PositiveAmounts(expenses) ==> r.totalExpenses >= 0
  {
    var total := Sum(expenses, CreatedBy(manager), Amount());
    var count := Count(expenses, CreatedBy(manager));
    assert Where(expenses, CreatedBy(manager)) ==
      set i: nat | i < |expenses| && expenses[i].managerId == Some(manager);
    ManagerFacts(expenses, manager);
    ExpenseSummary(if total != 0 then total else 0, count)
  }

  /** A created expense adds one expense and its amount to its manager's summary, and to no one else's. */
  lemma CreateAddsToManagerSummary(expenses: seq<Expense>, nextId: int, managers: set<int>, category: ExpenseCategory,
                                   amount: int, expenseDate: int, description: Option<string>, manager: int, who: int)
    ensures var r := CreateExpenseSpec(expenses, nextId, managers, category, amount, expenseDate, description, manager);
      var before := SummaryByManager(expenses, who);
      SummaryByManager(r.1, who) ==
        if r.0.Created? && who == manager then ExpenseSummary(before.totalExpenses + amount, before.expenseCount + 1)
        else before
  {
    var r := CreateExpenseSpec(expenses, nextId, managers, category, amount, expenseDate, description, manager);
    if r.0.Created? {
      var x := r.1[|expenses|];
      assert r.1 == expenses + [x];
      SumAppend(expenses, x, CreatedBy(who), Amount());
      CountAppend(expenses, x, CreatedBy(who));
      assert SummaryByManager(r.1, who).expenseCount == Count(r.1, CreatedBy(who)) by {
        assert Where(r.1, CreatedBy(who)) == set i: nat | i < |r.1| && r.1[i].managerId == Some(who);
      }
      assert SummaryByManager(expenses, who).expenseCount == Count(expenses, CreatedBy(who)) by {
        assert Where(expenses, CreatedBy(who)) == set i: nat | i < |expenses| && expenses[i].managerId == Some(who);
      }
    }
  }

  lemma ManagerFacts(expenses: seq<Expense>, manager: int)
    ensures Count(expenses, CreatedBy(manager)) == 0 ==> Sum(expenses, CreatedBy(manager), Amount()) == 0
    ensures PositiveAmounts(expenses) ==> Sum(expenses, CreatedBy(manager), Amount()) >= 0
  {
    if Count(expenses, CreatedBy(manager)) == 0 {
      CountZero(expenses, CreatedBy(manager));
      SumNone(expenses, CreatedBy(manager), Amount());
    }
    if PositiveAmounts(expenses) {
      SumNonNegative(expenses, CreatedBy(manager), Amount());
    }
  }
}
