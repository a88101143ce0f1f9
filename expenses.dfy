/** The one entity of the application: a logged expense. */
module Expenses {
  import opened Dates

  /**
   One row of the `expense` table. The amount is in minor currency units so
   that sums are exact.
   */
  datatype Expense = Expense(id: int, amount: int, category: string, date: Date, description: string)

  /** The sum of all amounts, what `SUM(expense.amount)` computes. */
  function Total(es: seq<Expense>): (t: int)
    ensures (forall i :: 0 <= i < |es| ==> es[i].amount >= 0) ==> t >= 0
  {
    if |es| == 0 then 0 else Total(es[..|es| - 1]) + es[|es| - 1].amount
  }

  lemma {:induction false} TotalAppend(a: seq<Expense>, b: seq<Expense>)
    ensures Total(a + b) == Total(a) + Total(b)
    decreases |b|
  {
    if |b| == 0 {
      assert a + b == a;
    } else {
      assert (a + b)[..|a + b| - 1] == a + b[..|b| - 1];
      TotalAppend(a, b[..|b| - 1]);
    }
  }
}
