/**
 * The values of the cycle form: expense rows as the user edits them, the
 * expenses and cycles as they are recorded, and the arithmetic and checks of
 * a form submission.
 *
 * Money is counted in whole cents. A numeric field whose text does not parse
 * (an empty box, say) is `None`; the source reads such a field as 0.
 */
module Cycles {
  import opened Wrappers
  import opened Calendar

  /** A row of the expense list as it stands in the form. */
  datatype ExpenseRow = ExpenseRow(description: string, amount: Option<int>)

  /** The row that "Add Expense" appends and the form starts with. */
  const EmptyRow := ExpenseRow("", None)

  /** The change an edit of one row makes: its description or its amount. */
  datatype RowEdit = SetDescription(text: string) | SetAmount(amount: Option<int>)

  /** An expense as it is stored in a recorded cycle. */
  datatype Expense = Expense(description: string, amount: int)

  /** A recorded payment cycle. */
  datatype Cycle = Cycle(
    receivedMoney: int,
    expenses: seq<Expense>,
    debtPayment: int,
    freeMoney: int,
    dateRange: CycleRange)

  /** Why a submission is refused. */
  datatype SubmitError = ExpensesExceedIncome | DebtPaymentExceedsFreeMoney

  /** A numeric field as the source reads it: `parseFloat(text) || 0`. */
  function Amount(field: Option<int>): (n: int)
    ensures field.Some? ==> n == field.value
    ensures field.None? ==> n == 0
  {
    field.GetOr(0)
  }

  /**
   * The running sum of the reduce over the rows, starting from `acc`: it adds
   * exactly the amounts that the cycle records.
   */
  function FoldAmounts(rows: seq<ExpenseRow>, acc: int): (total: int)
    ensures total == acc + SumAmounts(Recorded(rows))
    decreases |rows|
  {
    if rows == [] then acc
    else
      assert Recorded(rows)[1..] == Recorded(rows[1..]);
      FoldAmounts(rows[1..], acc + Amount(rows[0].amount))
  }

  /** `totalExpenses`: the left fold of the row amounts from 0, the sum of what the cycle records. */
  function TotalExpenses(rows: seq<ExpenseRow>): (total: int)
    ensures total == SumAmounts(Recorded(rows))
  {
    FoldAmounts(rows, 0)
  }

  /** `computedFreeMoney`: received money less the sum of the amounts the cycle records. */
  function FreeMoney(received: Option<int>, rows: seq<ExpenseRow>): (free: int)
    ensures free == Amount(received) - SumAmounts(Recorded(rows))
  {
    Amount(received) - TotalExpenses(rows)
  }

  /** The expenses a cycle stores: each row with its amount read as a number. */
  function Recorded(rows: seq<ExpenseRow>): (es: seq<Expense>)
    ensures |es| == |rows|
    ensures forall i :: 0 <= i < |rows| ==>
      es[i].description == rows[i].description && es[i].amount == Amount(rows[i].amount)
  {
    seq(|rows|, i requires 0 <= i < |rows| => Expense(rows[i].description, Amount(rows[i].amount)))
  }

  /** The sum of the amounts of recorded expenses, the reference for the fold. */
  function SumAmounts(es: seq<Expense>): int
    decreases |es|
  {
    if es == [] then 0 else es[0].amount + SumAmounts(es[1..])
  }

  /** "Remaining free money" shown for a recorded cycle: not negative exactly when the payment fits in the free money. */
  function RemainingFreeMoney(c: Cycle): (rest: int)
    ensures rest >= 0 <==> c.debtPayment <= c.freeMoney
    ensures rest + c.debtPayment == c.freeMoney
  {
    c.freeMoney - c.debtPayment
  }
  /** The facts every recorded cycle carries from the checks that admitted it. */
  predicate WellFormedCycle(c: Cycle) {
    && c.freeMoney == c.receivedMoney - SumAmounts(c.expenses)
    && c.freeMoney >= 0
    && RemainingFreeMoney(c) >= 0
  }

  /**
   * The checks and construction of `handleSubmit`: refused when expenses exceed
   * the money received, then when the debt payment exceeds the free money;
   * otherwise the cycle for the period that begins on `cycleStart`.
   */
  function PrepareCycle(received: Option<int>, rows: seq<ExpenseRow>, debtPayment: Option<int>, cycleStart: Date)
    : (r: Result<Cycle, SubmitError>)
    requires ValidDate(cycleStart)
    ensures r == Failure(ExpensesExceedIncome) <==> Amount(received) < SumAmounts(Recorded(rows))
    ensures r == Failure(DebtPaymentExceedsFreeMoney)
        <==> SumAmounts(Recorded(rows)) <= Amount(received)
             && Amount(debtPayment) > Amount(received) - SumAmounts(Recorded(rows))
    ensures r.Success? ==>
      && WellFormedCycle(r.value)
      && r.value.receivedMoney == Amount(received)
      && r.value.expenses == Recorded(rows)
      && r.value.debtPayment == Amount(debtPayment)
      && r.value.dateRange == CycleRangeAndNext(cycleStart).range
  {
    var debtPay := Amount(debtPayment);
    var free := FreeMoney(received, rows);
    if free < 0 then Failure(ExpensesExceedIncome)
    else if debtPay > free then Failure(DebtPaymentExceedsFreeMoney)
    else
      var range := CycleRangeAndNext(cycleStart).range;
      Success(Cycle(Amount(received), Recorded(rows), debtPay, free, range))
  }

  /** One row with one of its two fields replaced and the other kept. */
  function Edited(row: ExpenseRow, edit: RowEdit): (r: ExpenseRow)
    ensures r.description == (if edit.SetDescription? then edit.text else row.description)
    ensures r.amount == (if edit.SetAmount? then edit.amount else row.amount)
  {
    match edit
    case SetDescription(text) => row.(description := text)
    case SetAmount(amount) => row.(amount := amount)
  }

  /**
   * `updateExpenseRow`: the rows mapped so that the one at `index` gets the
   * edit; an index outside the list changes nothing.
   */
  function UpdatedRows(rows: seq<ExpenseRow>, index: int, edit: RowEdit): (r: seq<ExpenseRow>)
    ensures |r| == |rows|
    ensures forall i :: 0 <= i < |rows| && i != index ==> r[i] == rows[i]
    ensures 0 <= index < |rows| ==>
      && r[index].description == (if edit.SetDescription? then edit.text else rows[index].description)
      && r[index].amount == (if edit.SetAmount? then edit.amount else rows[index].amount)
  {
    seq(|rows|, i requires 0 <= i < |rows| => if i == index then Edited(rows[i], edit) else rows[i])
  }

  /**
   * The filter of `removeExpenseRow`: keep every row whose position is not
   * `index`. It deletes exactly that row, keeping the others in order, and
   * leaves the list as it is when no row has that position.
   */
  function RowsWithout(rows: seq<ExpenseRow>, index: int): (r: seq<ExpenseRow>)
    ensures 0 <= index < |rows| ==> r == rows[..index] + rows[index + 1..]
    ensures !(0 <= index < |rows|) ==> r == rows
    decreases |rows|
  {
    if rows == [] then []
    else (if index == 0 then [] else [rows[0]]) + RowsWithout(rows[1..], index - 1)
  }

  /**
   * Rent of 200.00 against 500.00 received, paying 100.00, submitted on the
   * 1st of a month (1 January 2024, say): free money 300.00 under the label
   * 1-15 of that month.
   */
  lemma FirstHalfCycle(start: Date)
    requires ValidDate(start) && start.day == 1
    ensures PrepareCycle(Some(50000), [ExpenseRow("rent", Some(20000))], Some(10000), start)
         == Success(Cycle(50000, [Expense("rent", 20000)], 10000, 30000, Range(1, 15, start.month)))
  {
    assert Recorded([ExpenseRow("rent", Some(20000))]) == [Expense("rent", 20000)];
    assert SumAmounts([Expense("rent", 20000)]) == 20000 by {
      assert [Expense("rent", 20000)][1..] == [];
    }
    FirstHalfOfMonth(start);
  }

  /**
   * A single expense of 0, 400.00 received, paying 50.00, submitted on the 16th of a
   * 31-day month (16 January 2024, say): free money 400.00 under the label
   * 16-31 of that month.
   */
  lemma SecondHalfCycle(start: Date)
    requires ValidDate(start) && start.day == 16 && DaysInMonth(start.year, start.month) == 31
    ensures PrepareCycle(Some(40000), [ExpenseRow("", Some(0))], Some(5000), start)
         == Success(Cycle(40000, [Expense("", 0)], 5000, 40000, Range(16, 31, start.month)))
  {
    SecondHalfOfMonth(start);
    assert Recorded([ExpenseRow("", Some(0))]) == [Expense("", 0)];
    assert SumAmounts([Expense("", 0)]) == 0 by {
      assert [Expense("", 0)][1..] == [];
    }
  }

  /** An expense of 150.00 against 100.00 received is refused, whatever the period. */
  lemma ExpensesOverIncome(start: Date)
    requires ValidDate(start)
    ensures PrepareCycle(Some(10000), [ExpenseRow("x", Some(15000))], Some(0), start)
         == Failure(ExpensesExceedIncome)
  {
    assert Recorded([ExpenseRow("x", Some(15000))]) == [Expense("x", 15000)];
    assert SumAmounts([Expense("x", 15000)]) == 15000 by {
      assert [Expense("x", 15000)][1..] == [];
    }
  }
}
