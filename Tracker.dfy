/**
 * The state of the App component: the outstanding debt, the history of
 * recorded cycles and the start of the next period, with the two operations
 * that change it.
 */
module Tracker {
  import opened Wrappers
  import opened Calendar
  import opened Cycles

  /** What the debt form submits: nothing, or text that parses to a number or does not. */
  datatype DebtEntry = Blank | Entered(parsed: Option<int>)

  /** What `handleDebtSubmit` does with an entry. */
  datatype DebtOutcome = Ignored | Accepted(amount: int) | InvalidDebtAmount

  /** Validation of the entered debt: only a number greater than zero is taken. */
  function AcceptDebt(entry: DebtEntry): (r: DebtOutcome)
    ensures r.Ignored? <==> entry.Blank?
    ensures r.Accepted? <==> entry.Entered? && entry.parsed.Some? && entry.parsed.value > 0
    ensures r.Accepted? ==> r.amount == entry.parsed.value && r.amount > 0
  {
    match entry
    case Blank => Ignored
    case Entered(None) => InvalidDebtAmount
    case Entered(Some(v)) => if v > 0 then Accepted(v) else InvalidDebtAmount
  }

  /** The sum of the debt payments of `cycles`. */
  function TotalPayments(cycles: seq<Cycle>): int
    decreases |cycles|
  {
    if cycles == [] then 0 else TotalPayments(cycles[..|cycles| - 1]) + cycles[|cycles| - 1].debtPayment
  }

  /** Payments over consecutive stretches of the history add up. */
  lemma {:induction false} TotalPaymentsAppend(a: seq<Cycle>, b: seq<Cycle>)
    ensures TotalPayments(a + b) == TotalPayments(a) + TotalPayments(b)
    decreases |b|
  {
    if b == [] {
      assert a + b == a;
    } else {
      assert (a + b)[..|a + b| - 1] == a + b[..|b| - 1];
      TotalPaymentsAppend(a, b[..|b| - 1]);
    }
  }

  class App {
    var debt: Option<int>
    var cycles: seq<Cycle>
    var nextCycleStart: Date

    /** The debt as last set outright, and the number of cycles recorded before it was set. */
    ghost var debtBase: int
    ghost var sinceBase: nat

    /**
     * The next start is a real date on the 1st or the 16th, and the debt is the
     * amount last set less every payment recorded since.
     */
    ghost predicate Valid()
      reads this
    {
      && ValidDate(nextCycleStart) && IsPeriodStart(nextCycleStart)
      && sinceBase <= |cycles|
      && (debt.Some? ==> debt.value == debtBase - TotalPayments(cycles[sinceBase..]))
    }

    /** The initial state, with the period start computed from `today`. */
    constructor (today: Date)
      requires ValidDate(today)
      ensures Valid()
      ensures debt == None && cycles == []
      ensures nextCycleStart == InitialCycleStart(today)
    {
      debt := None;
      cycles := [];
      nextCycleStart := InitialCycleStart(today);
      debtBase, sinceBase := 0, 0;
    }

    /** `handleDebtSubmit`: sets the debt from an accepted entry and changes nothing otherwise. */
    method SubmitDebt(entry: DebtEntry) returns (outcome: DebtOutcome)
      requires Valid()
      modifies this
      ensures Valid()
      ensures outcome == AcceptDebt(entry)
      ensures debt == if outcome.Accepted? then Some(outcome.amount) else old(debt)
      ensures cycles == old(cycles) && nextCycleStart == old(nextCycleStart)
      ensures outcome.Accepted? ==> debtBase == outcome.amount && sinceBase == |cycles|
      ensures !outcome.Accepted? ==> debtBase == old(debtBase) && sinceBase == old(sinceBase)
    {
      outcome := AcceptDebt(entry);
      if outcome.Accepted? {
        debt := Some(outcome.amount);
        debtBase, sinceBase := outcome.amount, |cycles|;
        assert cycles[sinceBase..] == [];
      }
    }

    /**
     * `addCycle`: appends the cycle, lowers the debt by its payment (with no
     * floor at zero; a debt never set becomes 0) and advances the next start.
     */
    method AddCycle(cycle: Cycle)
      requires Valid()
      modifies this
      ensures Valid()
      ensures cycles == old(cycles) + [cycle]
      ensures debt == if old(debt).Some? then Some(old(debt).value - cycle.debtPayment) else Some(0)
      ensures nextCycleStart == CycleRangeAndNext(old(nextCycleStart)).nextStart
      ensures old(debt).Some? ==> debtBase == old(debtBase) && sinceBase == old(sinceBase)
      ensures old(debt).None? ==> debtBase == 0 && sinceBase == |cycles|
    {
      ghost var before := cycles[sinceBase..];
      cycles := cycles + [cycle];
      assert cycles[sinceBase..] == before + [cycle];
      TotalPaymentsAppend(before, [cycle]);
      assert TotalPayments([cycle]) == cycle.debtPayment by {
        assert [cycle][..0] == [];
      }
      if debt.Some? {
        debt := Some(debt.value - cycle.debtPayment);
      } else {
        debt := Some(0);
        debtBase, sinceBase := 0, |cycles|;
        assert cycles[sinceBase..] == [];
      }
      nextCycleStart := CycleRangeAndNext(nextCycleStart).nextStart;
    }
  }

  /**
   * A debt entered and then `cycles` recorded one after another: the history
   * grows by exactly those cycles, in order, and the debt is the amount
   * entered less the sum of their payments.
   */
  method EnterDebtAndRecord(app: App, amount: int, cycles: seq<Cycle>)
    requires app.Valid() && amount > 0
    modifies app
    ensures app.Valid()
    ensures app.cycles == old(app.cycles) + cycles
    ensures app.debt == Some(amount - TotalPayments(cycles))
  {
    var outcome := app.SubmitDebt(Entered(Some(amount)));
    ghost var before := app.cycles;
    var i := 0;
    while i < |cycles|
      invariant 0 <= i <= |cycles|
      invariant app.Valid()
      invariant app.cycles == before + cycles[..i]
      invariant app.debt == Some(amount - TotalPayments(cycles[..i]))
    {
      app.AddCycle(cycles[i]);
      assert cycles[..i + 1] == cycles[..i] + [cycles[i]];
      assert cycles[..i + 1][..i] == cycles[..i];
      i := i + 1;
    }
    assert cycles[..|cycles|] == cycles;
  }
}
