/**
 * The PaymentCycleForm component: the fields the user fills in, the edits of
 * the expense list, and the submission that records a cycle in the App state.
 */
module CycleForm {
  import opened Wrappers
  import opened Calendar
  import opened Cycles
  import opened Tracker

  class PaymentCycleForm {
    var receivedMoney: Option<int>
    var debtPayment: Option<int>
    var expenses: seq<ExpenseRow>

    /** The first row is never removed, so the list is never empty. */
    ghost predicate Valid()
      reads this
    {
      |expenses| > 0
    }

    /** A fresh form: empty fields and one empty expense row. */
    constructor ()
      ensures Valid()
      ensures receivedMoney == None && debtPayment == None && expenses == [EmptyRow]
    {
      receivedMoney, debtPayment := None, None;
      expenses := [EmptyRow];
    }

    /** "Free Money Available" as the form shows it while it is filled in. */
    function FreeMoneyAvailable(): (free: int)
      reads this
      ensures free == Amount(receivedMoney) - SumAmounts(Recorded(expenses))
    {
      FreeMoney(receivedMoney, expenses)
    }

    /** `addExpenseRow`: one empty row at the end. */
    method AddExpenseRow()
      requires Valid()
      modifies this
      ensures Valid()
      ensures expenses == old(expenses) + [EmptyRow]
      ensures receivedMoney == old(receivedMoney) && debtPayment == old(debtPayment)
    {
      expenses := expenses + [EmptyRow];
    }

    /** `updateExpenseRow`: one field of the row at `index` replaced, all else kept. */
    method UpdateExpenseRow(index: int, edit: RowEdit)
      requires Valid()
      modifies this
      ensures Valid()
      ensures expenses == UpdatedRows(old(expenses), index, edit)
      ensures receivedMoney == old(receivedMoney) && debtPayment == old(debtPayment)
    {
      expenses := UpdatedRows(expenses, index, edit);
    }

    /**
     * `removeExpenseRow`: nothing for the first row; otherwise the row at
     * `index` is taken out and the others keep their order.
     */
    method RemoveExpenseRow(index: int)
      requires Valid()
      modifies this
      ensures Valid()
      ensures expenses == if index == 0 then old(expenses) else RowsWithout(old(expenses), index)
      ensures expenses[0] == old(expenses)[0]
      ensures 0 < index < |old(expenses)| ==> expenses == old(expenses)[..index] + old(expenses)[index + 1..]
      ensures receivedMoney == old(receivedMoney) && debtPayment == old(debtPayment)
    {
      if index == 0 {
        return;
      }
      expenses := RowsWithout(expenses, index);
    }

    /**
     * `handleSubmit`: on a refusal neither the form nor the App state changes;
     * otherwise the cycle for the App's next period is recorded through
     * `AddCycle` and the form is cleared.
     */
    method Submit(app: App) returns (r: Result<Cycle, SubmitError>)
      requires Valid() && app.Valid()
      modifies this, app
      ensures Valid() && app.Valid()
      ensures r == PrepareCycle(old(receivedMoney), old(expenses), old(debtPayment), old(app.nextCycleStart))
      ensures r.Failure? ==> unchanged(this) && unchanged(app)
      ensures r.Failure? ==>
        && receivedMoney == old(receivedMoney) && debtPayment == old(debtPayment) && expenses == old(expenses)
        && app.debt == old(app.debt) && app.cycles == old(app.cycles)
        && app.nextCycleStart == old(app.nextCycleStart)
      ensures r.Success? ==>
        && app.cycles == old(app.cycles) + [r.value]
        && app.debt == (if old(app.debt).Some? then Some(old(app.debt).value - r.value.debtPayment) else Some(0))
        && app.nextCycleStart == CycleRangeAndNext(old(app.nextCycleStart)).nextStart
        && receivedMoney == None && debtPayment == None && expenses == [EmptyRow]
      ensures r.Success? && old(app.debt).Some? ==>
        app.debtBase == old(app.debtBase) && app.sinceBase == old(app.sinceBase)
    {
      r := PrepareCycle(receivedMoney, expenses, debtPayment, app.nextCycleStart);
      if r.Failure? {
        return;
      }
      app.AddCycle(r.value);
      receivedMoney, debtPayment := None, None;
      expenses := [EmptyRow];
    }
  }
}
