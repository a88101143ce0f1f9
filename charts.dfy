/**
 The two chart helpers of the dashboard. Drawing and image encoding are not
 modelled: a chart is the data it would plot, and the model keeps the guard
 that returns `None` when there is nothing to plot.
 */
module Charts {
  import opened Wrappers

  datatype Chart =
    | PieChart(slices: map<string, int>)
    | LineChart(months: seq<string>, values: seq<int>)

  /** `generate_pie_chart`: no chart for an empty dictionary, one slice per category otherwise. */
  function GeneratePieChart(categories: map<string, int>): (r: Option<Chart>)
    ensures r.None? <==> |categories| == 0
    ensures r.Some? ==> r.value == PieChart(categories)
  {
    if |categories| == 0 then None else Some(PieChart(categories))
  }

  /** `generate_line_chart`: no chart for an empty month list, one point per month otherwise. */
  function GenerateLineChart(months: seq<string>, values: seq<int>): (r: Option<Chart>)
    ensures r.None? <==> |months| == 0
    ensures r.Some? ==> r.value == LineChart(months, values)
  {
    if |months| == 0 then None else Some(LineChart(months, values))
  }
}
