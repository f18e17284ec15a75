/** The analytics page: progress-bar widths, the bars of the daily charts
    and the completion percentage of each category. */
module Analytics {
  import opened Wrappers
  import Rounding

  /** The lowest height a chart bar is drawn with, in percent. */
  const MinBarHeight: int := 5

  /** `ProgressBar`: the width of the filled part, in percent of `max`. */
  function ProgressWidth(value: int, max: int): (r: int)
    ensures max <= 0 ==> r == 0
    ensures 0 <= value <= max ==> 0 <= r <= 100
    ensures 0 < value == max ==> r == 100
    ensures max > 0 ==> max * (2 * r - 1) <= 200 * value < max * (2 * r + 1)
  {
    Rounding.PercentageBounds(value, max);
    Rounding.Percentage(value, max)
  }

  /** One bar of a chart: its computed height, the height it is drawn with
      and the count printed on it, if any. */
  datatype Bar = Bar(height: int, drawn: int, caption: Option<int>)

  /** `ChartBar`: the height in percent of the chart maximum, drawn no lower
      than 5%, with the count printed only on a positive bar. */
  function ChartBar(value: int, maxValue: int): (b: Bar)
    ensures maxValue <= 0 ==> b.height == 0 && b.drawn == MinBarHeight
    ensures maxValue > 0 ==> maxValue * (2 * b.height - 1) <= 200 * value < maxValue * (2 * b.height + 1)
    ensures b.drawn >= MinBarHeight && b.drawn >= b.height
    ensures b.drawn == b.height || b.drawn == MinBarHeight
    ensures b.caption.Some? <==> value > 0
    ensures b.caption.Some? ==> b.caption.value == value
  {
    var height := Rounding.Percentage(value, maxValue);
    Bar(height, if height > MinBarHeight then height else MinBarHeight, if value > 0 then Some(value) else None)
  }

  /** `Math.max(...counts, 1)`: the chart maximum. */
  function ChartMax(counts: seq<int>): (r: int)
    ensures r >= 1
    ensures forall k :: 0 <= k < |counts| ==> counts[k] <= r
    ensures r == 1 || r in counts
  {
    if counts == [] then 1
    else
      var rest := ChartMax(counts[1..]);
      if counts[0] > rest then counts[0] else rest
  }

  /** Every bar of a chart of non-negative counts fits the chart: its height
      lies in [0, 100], it is drawn between 5% and 100%, and the highest day
      fills the chart. */
  lemma {:induction false} BarsFitChart(counts: seq<int>, k: int)
    requires 0 <= k < |counts|
    requires forall j :: 0 <= j < |counts| ==> counts[j] >= 0
    ensures var b := ChartBar(counts[k], ChartMax(counts));
      && 0 <= b.height <= 100
      && MinBarHeight <= b.drawn <= 100
      && (counts[k] == ChartMax(counts) ==> b.height == 100)
  {
    Rounding.PercentageBounds(counts[k], ChartMax(counts));
  }

  /** Per-category counts as the analytics report gives them. */
  datatype CategoryStats = CategoryStats(total: int, completed: int)

  /** The completion percentage shown for a category. */
  function CategoryCompletion(stats: CategoryStats): (r: int)
    ensures stats.total <= 0 ==> r == 0
    ensures 0 <= stats.completed <= stats.total ==> 0 <= r <= 100
    ensures 0 < stats.completed == stats.total ==> r == 100
    ensures stats.total > 0 ==> stats.total * (2 * r - 1) <= 200 * stats.completed < stats.total * (2 * r + 1)
  {
    ProgressWidth(stats.completed, stats.total)
  }
}
