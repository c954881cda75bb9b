/** Expense records (app/models/expense.py). Amounts are whole cents, dates integer day keys. */
module ExpenseModel {
  import opened Common

  datatype ExpenseCategory = SalaryCost | Maintenance | Utilities | Supplies | OtherCost

  /**
   * A row of `expenses`. The creating manager's key is nullable: deleting
   * the manager sets it to NULL.
   */
  datatype Expense = Expense(
    id: int,
    category: ExpenseCategory,
    amount: int,
    expenseDate: int,
    description: Option<string>,
    managerId: Option<int>)
}
