/**
 The dashboard handler: aggregate, sort the month keys, line the monthly
 values up with them, and hand both summaries to the chart helpers.
 */
module Dashboard {
  import opened Wrappers
  import opened StringOrder
  import opened Dates
  import opened Expenses
  import opened Aggregation
  import opened Charts

  /** `[monthly_data[month] for month in sorted_months]`. */
  function MonthlyValues(sortedMonths: seq<string>, monthlyData: map<string, int>): (r: seq<int>)
    requires forall k :: k in sortedMonths ==> k in monthlyData
    ensures |r| == |sortedMonths|
    ensures forall i :: 0 <= i < |r| ==> r[i] == monthlyData[sortedMonths[i]]
  {
    seq(|sortedMonths|, i requires 0 <= i < |sortedMonths| => monthlyData[sortedMonths[i]])
  }

  function SeqSum(s: seq<int>): int
  {
    if |s| == 0 then 0 else s[0] + SeqSum(s[1..])
  }

  /**
   The trend series plots every month total once: its values add up to the
   sum of the dictionary's values.
   */
  lemma {:induction false} TrendSeriesConserved(monthlyData: map<string, int>, ks: set<string>)
    requires ks <= monthlyData.Keys
    ensures SeqSum(MonthlyValues(SortedKeys(ks), monthlyData)) == SumOver(monthlyData, ks)
    decreases ks
  {
    if ks != {} {
      var m := Least(ks);
      var rest := SortedKeys(ks - {m});
      assert SortedKeys(ks) == [m] + rest;
      var values := MonthlyValues(SortedKeys(ks), monthlyData);
      assert values[1..] == MonthlyValues(rest, monthlyData);
      TrendSeriesConserved(monthlyData, ks - {m});
      SumOverRemove(monthlyData, ks, m);
    }
  }

  /**
   Consecutive points of the trend line are in chronological order: a month
   key that comes earlier in the sorted list belongs to an earlier month.
   */
  lemma TrendIsChronological(sortedMonths: seq<string>, i: int, j: int, a: Date, b: Date)
    requires StrictlyIncreasing(sortedMonths)
    requires 0 <= i < j < |sortedMonths|
    requires sortedMonths[i] == MonthKey(a) && sortedMonths[j] == MonthKey(b)
    ensures MonthBefore(a, b)
  {
    MonthKeyOrder(a, b);
  }

  /** The expenses produce no key at all exactly when there are none. */
  lemma KeysOfEmpty(expenses: seq<Expense>, g: Grouping)
    ensures KeysOf(expenses, g) == {} <==> |expenses| == 0
  {
    if |expenses| > 0 {
      KeysOfMembers(expenses, g, GroupKey(g, expenses[0]));
    }
  }

  /**
   Both charts are absent exactly when there are no expenses: an empty table
   gives empty dictionaries, a non-empty one never meets the guards.
   */
  lemma ChartsAbsentExactlyWhenEmpty(expenses: seq<Expense>)
    ensures GeneratePieChart(GroupTotals(expenses, ByCategory)).None? <==> |expenses| == 0
    ensures var monthlyData := GroupTotals(expenses, ByMonth);
      var months := SortedKeys(monthlyData.Keys);
      GenerateLineChart(months, MonthlyValues(months, monthlyData)).None? <==> |expenses| == 0
  {
    KeysOfEmpty(expenses, ByCategory);
    KeysOfEmpty(expenses, ByMonth);
    assert GroupTotals(expenses, ByCategory).Keys == KeysOf(expenses, ByCategory);
    assert GroupTotals(expenses, ByMonth).Keys == KeysOf(expenses, ByMonth);
  }

  /** What the dashboard page is rendered from. */
  datatype DashboardView = DashboardView(
    categoryChart: Option<Chart>,
    monthlyChart: Option<Chart>,
    categories: map<string, int>)

  /**
   `dashboard()`: the category chart shows every category with its total,
   the trend chart every month once, in chronological order, with its total;
   both are absent exactly when there are no expenses.
   */
  method BuildDashboard(expenses: seq<Expense>) returns (view: DashboardView)
    ensures view.categories.Keys == KeysOf(expenses, ByCategory)
    ensures forall c :: c in view.categories ==> view.categories[c] == SumWhere(expenses, ByCategory, c)
    ensures MapSum(view.categories) == Total(expenses)
    ensures view.categoryChart.None? <==> |expenses| == 0
    ensures view.categoryChart.Some? ==> view.categoryChart.value == PieChart(view.categories)
    ensures view.monthlyChart.None? <==> |expenses| == 0
    ensures view.monthlyChart.Some? ==>
      && view.monthlyChart.value.LineChart?
      && var months, values := view.monthlyChart.value.months, view.monthlyChart.value.values;
      && StrictlyIncreasing(months)
      && (forall k :: k in months <==> k in KeysOf(expenses, ByMonth))
      && |values| == |months|
      && (forall i :: 0 <= i < |months| ==> values[i] == SumWhere(expenses, ByMonth, months[i]))
      && SeqSum(values) == Total(expenses)
  {
    var categories, monthlyData := Aggregate(expenses);

    var sortedMonths := SortedKeys(monthlyData.Keys);
    var monthlyValues := MonthlyValues(sortedMonths, monthlyData);
    TrendSeriesConserved(monthlyData, monthlyData.Keys);

    var categoryChart := GeneratePieChart(categories);
    var monthlyChart := GenerateLineChart(sortedMonths, monthlyValues);
    KeysOfEmpty(expenses, ByCategory);
    KeysOfEmpty(expenses, ByMonth);

    view := DashboardView(categoryChart, monthlyChart, categories);
  }
}
