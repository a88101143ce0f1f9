/**
 The dashboard's two group-by-sum reductions: total amount per category and
 total amount per month key, both filled in one pass over the expenses.
 */
module Aggregation {
  import opened Dates
  import opened Expenses

  /** Which dictionary an expense is added to: by its category or by its month. */
  datatype Grouping = ByCategory | ByMonth

  function GroupKey(g: Grouping, e: Expense): string
  {
    match g
    case ByCategory => e.category
    case ByMonth => MonthKey(e.date)
  }

  /** The distinct keys the expenses produce. */
  function KeysOf(es: seq<Expense>, g: Grouping): set<string>
  {
    if |es| == 0 then {} else KeysOf(es[..|es| - 1], g) + {GroupKey(g, es[|es| - 1])}
  }

  /** A key is produced exactly when some expense has it. */
  lemma {:induction false} KeysOfMembers(es: seq<Expense>, g: Grouping, k: string)
    ensures k in KeysOf(es, g) <==> exists i :: 0 <= i < |es| && GroupKey(g, es[i]) == k
    decreases |es|
  {
    if |es| > 0 {
      var init, last := es[..|es| - 1], es[|es| - 1];
      KeysOfMembers(init, g, k);
      var key := GroupKey(g, last);
      assert KeysOf(es, g) == KeysOf(init, g) + {key};
      if k in KeysOf(init, g) {
        var i :| 0 <= i < |init| && GroupKey(g, init[i]) == k;
        assert es[i] == init[i];
      } else if k == key {
        assert es[|es| - 1] == last;
      } else {
        forall i | 0 <= i < |init|
          ensures GroupKey(g, es[i]) != k
        {
          assert init[i] == es[i];
        }
      }
    }
  }

  /** The sum of the amounts of the expenses whose key is `k`. */
  function SumWhere(es: seq<Expense>, g: Grouping, k: string): (r: int)
    ensures k !in KeysOf(es, g) ==> r == 0
  {
    if |es| == 0 then 0
    else
      var last := es[|es| - 1];
      SumWhere(es[..|es| - 1], g, k) + (if GroupKey(g, last) == k then last.amount else 0)
  }

  /** The dictionary the loop is meant to build: each key to the sum of its amounts. */
  function GroupTotals(es: seq<Expense>, g: Grouping): map<string, int>
  {
    map k | k in KeysOf(es, g) :: SumWhere(es, g, k)
  }

  /** One dictionary update: `d[k] += a` when `k` is present, `d[k] = a` otherwise. */
  function Accumulate(m: map<string, int>, k: string, a: int): map<string, int>
  {
    if k in m then m[k := m[k] + a] else m[k := a]
  }

  lemma KeysOfSnoc(es: seq<Expense>, e: Expense, g: Grouping)
    ensures KeysOf(es + [e], g) == KeysOf(es, g) + {GroupKey(g, e)}
  {
    assert (es + [e])[..|es|] == es;
  }

  lemma SumWhereSnoc(es: seq<Expense>, e: Expense, g: Grouping, k: string)
    ensures SumWhere(es + [e], g, k) == SumWhere(es, g, k) + (if GroupKey(g, e) == k then e.amount else 0)
  {
    assert (es + [e])[..|es|] == es;
  }

  /** Adding one more expense changes the totals by one dictionary update. */
  lemma GroupTotalsSnoc(es: seq<Expense>, e: Expense, g: Grouping)
    ensures GroupTotals(es + [e], g) == Accumulate(GroupTotals(es, g), GroupKey(g, e), e.amount)
  {
    var m, m' := GroupTotals(es, g), GroupTotals(es + [e], g);
    var acc := Accumulate(m, GroupKey(g, e), e.amount);
    KeysOfSnoc(es, e, g);
    assert m'.Keys == acc.Keys;
    forall k | k in m'
      ensures m'[k] == acc[k]
    {
      SumWhereSnoc(es, e, g, k);
    }
  }

  /** The same step, stated on the prefixes the loop walks through. */
  lemma GroupTotalsPrefix(es: seq<Expense>, i: int, g: Grouping)
    requires 0 <= i < |es|
    ensures GroupTotals(es[..i + 1], g) == Accumulate(GroupTotals(es[..i], g), GroupKey(g, es[i]), es[i].amount)
  {
    assert es[..i + 1] == es[..i] + [es[i]];
    GroupTotalsSnoc(es[..i], es[i], g);
  }

  /*
   The sum of the values of a dictionary. Dictionaries are unordered here, so
   the sum picks its keys in an arbitrary order; SumOverRemove shows that the
   order does not matter.
   */

  ghost function PickKey(ks: set<string>): (k: string)
    requires ks != {}
    ensures k in ks
  {
    var k :| k in ks; k
  }

  ghost function SumOver(m: map<string, int>, ks: set<string>): int
    requires ks <= m.Keys
    decreases ks
  {
    if ks == {} then 0
    else
      var k := PickKey(ks);
      m[k] + SumOver(m, ks - {k})
  }

  /** `sum(d.values())`. */
  ghost function MapSum(m: map<string, int>): int
  {
    SumOver(m, m.Keys)
  }

  lemma {:induction false} SumOverRemove(m: map<string, int>, ks: set<string>, k: string)
    requires ks <= m.Keys && k in ks
    ensures SumOver(m, ks) == m[k] + SumOver(m, ks - {k})
    decreases ks
  {
    var j := PickKey(ks);
    if j != k {
      SumOverRemove(m, ks - {j}, k);
      SumOverRemove(m, ks - {k}, j);
      assert ks - {j} - {k} == ks - {k} - {j};
    }
  }

  lemma {:induction false} SumOverAgree(m: map<string, int>, m': map<string, int>, ks: set<string>)
    requires ks <= m.Keys && ks <= m'.Keys
    requires forall k :: k in ks ==> m[k] == m'[k]
    ensures SumOver(m, ks) == SumOver(m', ks)
    decreases ks
  {
    if ks != {} {
      var j := PickKey(ks);
      SumOverAgree(m, m', ks - {j});
    }
  }

  /** A dictionary update adds exactly the amount to the sum of the values. */
  lemma MapSumAccumulate(m: map<string, int>, k: string, a: int)
    ensures MapSum(Accumulate(m, k, a)) == MapSum(m) + a
  {
    var m' := Accumulate(m, k, a);
    if k in m {
      assert m'.Keys == m.Keys;
      SumOverRemove(m', m.Keys, k);
      SumOverRemove(m, m.Keys, k);
      SumOverAgree(m, m', m.Keys - {k});
    } else {
      assert m'.Keys - {k} == m.Keys;
      SumOverRemove(m', m'.Keys, k);
      SumOverAgree(m, m', m.Keys);
    }
  }

  /**
   Conservation of the total: the values of either dictionary add up to the
   sum of all amounts, the figure the summary page gets from the database.
   */
  lemma {:induction false} TotalConserved(es: seq<Expense>, g: Grouping)
    ensures MapSum(GroupTotals(es, g)) == Total(es)
    decreases |es|
  {
    if |es| == 0 {
      assert GroupTotals(es, g) == map[];
    } else {
      var init, last := es[..|es| - 1], es[|es| - 1];
      assert es == init + [last];
      GroupTotalsSnoc(init, last, g);
      TotalConserved(init, g);
      MapSumAccumulate(GroupTotals(init, g), GroupKey(g, last), last.amount);
    }
  }

  lemma {:induction false} SumWhereAppend(a: seq<Expense>, b: seq<Expense>, g: Grouping, k: string)
    ensures SumWhere(a + b, g, k) == SumWhere(a, g, k) + SumWhere(b, g, k)
    decreases |b|
  {
    if |b| == 0 {
      assert a + b == a;
    } else {
      assert (a + b)[..|a + b| - 1] == a + b[..|b| - 1];
      SumWhereAppend(a, b[..|b| - 1], g, k);
    }
  }

  lemma {:induction false} KeysOfAppend(a: seq<Expense>, b: seq<Expense>, g: Grouping)
    ensures KeysOf(a + b, g) == KeysOf(a, g) + KeysOf(b, g)
    decreases |b|
  {
    if |b| == 0 {
      assert a + b == a;
    } else {
      assert (a + b)[..|a + b| - 1] == a + b[..|b| - 1];
      KeysOfAppend(a, b[..|b| - 1], g);
    }
  }

  /** Where the last expense of one ordering sits in another ordering. */
  lemma SplitOff(init: seq<Expense>, last: Expense, b: seq<Expense>) returns (before: seq<Expense>, after: seq<Expense>)
    requires multiset(init + [last]) == multiset(b)
    ensures b == before + [last] + after
    ensures multiset(init) == multiset(before + after)
  {
    assert last in multiset(init + [last]);
    assert last in multiset(b);
    var j :| 0 <= j < |b| && b[j] == last;
    before, after := b[..j], b[j + 1..];
    assert b == before + [last] + after;
    assert multiset(init) == multiset(init + [last]) - multiset{last};
    assert multiset(before + after) == multiset(b) - multiset{last};
  }

  lemma {:induction false} KeysOfPermutation(a: seq<Expense>, b: seq<Expense>, g: Grouping)
    requires multiset(a) == multiset(b)
    ensures KeysOf(a, g) == KeysOf(b, g)
    decreases |a|
  {
    if |a| == 0 {
      assert |b| == |multiset(b)| == 0;
    } else {
      var init, last := a[..|a| - 1], a[|a| - 1];
      assert a == init + [last];
      var before, after := SplitOff(init, last, b);
      KeysOfPermutation(init, before + after, g);
      KeysOfAppend(before, after, g);
      KeysOfAppend(before + [last], after, g);
      KeysOfSnoc(before, last, g);
    }
  }

  lemma {:induction false} SumWherePermutation(a: seq<Expense>, b: seq<Expense>, g: Grouping, k: string)
    requires multiset(a) == multiset(b)
    ensures SumWhere(a, g, k) == SumWhere(b, g, k)
    decreases |a|
  {
    if |a| == 0 {
      assert |b| == |multiset(b)| == 0;
    } else {
      var init, last := a[..|a| - 1], a[|a| - 1];
      assert a == init + [last];
      var before, after := SplitOff(init, last, b);
      SumWherePermutation(init, before + after, g, k);
      SumWhereAppend(before, after, g, k);
      SumWhereAppend(before + [last], after, g, k);
      SumWhereSnoc(before, last, g, k);
    }
  }

  /**
   The totals do not depend on the order in which the table returns its
   rows.
   */
  lemma GroupTotalsPermutation(a: seq<Expense>, b: seq<Expense>, g: Grouping)
    requires multiset(a) == multiset(b)
    ensures GroupTotals(a, g) == GroupTotals(b, g)
  {
    KeysOfPermutation(a, b, g);
    forall k | k in KeysOf(a, g)
      ensures SumWhere(a, g, k) == SumWhere(b, g, k)
    {
      SumWherePermutation(a, b, g, k);
    }
  }

  /**
   The dictionary update the loop performs on both dictionaries: add the
   amount to the key's running total, or start the total at the amount.
   `Accumulate` is its specification; the other clauses spell out what that
   update does to the keys and values.
   */
  method AddAmount(d: map<string, int>, key: string, amount: int) returns (d': map<string, int>)
    ensures d' == Accumulate(d, key, amount)
    ensures d'.Keys == d.Keys + {key}
    ensures d'[key] == (if key in d then d[key] else 0) + amount
    ensures forall k :: k in d && k != key ==> d'[k] == d[k]
  {
    if key in d {
      d' := d[key := d[key] + amount];
    } else {
      d' := d[key := amount];
    }
  }

  /**
   The loop of the dashboard: one pass over the expenses fills both
   dictionaries in place.
   */
  method Aggregate(expenses: seq<Expense>) returns (categories: map<string, int>, monthlyData: map<string, int>)
    ensures categories.Keys == KeysOf(expenses, ByCategory)
    ensures forall c :: c in categories ==> categories[c] == SumWhere(expenses, ByCategory, c)
    ensures monthlyData.Keys == KeysOf(expenses, ByMonth)
    ensures forall k :: k in monthlyData ==> monthlyData[k] == SumWhere(expenses, ByMonth, k)
    ensures MapSum(categories) == Total(expenses) && MapSum(monthlyData) == Total(expenses)
  {
    categories := map[];
    monthlyData := map[];
    for i := 0 to |expenses|
      invariant categories == GroupTotals(expenses[..i], ByCategory)
      invariant monthlyData == GroupTotals(expenses[..i], ByMonth)
    {
      var expense := expenses[i];
      GroupTotalsPrefix(expenses, i, ByCategory);
      GroupTotalsPrefix(expenses, i, ByMonth);
      categories := AddAmount(categories, expense.category, expense.amount);
      var monthKey := MonthKey(expense.date);
      monthlyData := AddAmount(monthlyData, monthKey, expense.amount);
    }
    assert expenses[..|expenses|] == expenses;
    TotalConserved(expenses, ByCategory);
    TotalConserved(expenses, ByMonth);
  }
}
