/** The dashboard: the statistics computed from the fetched task list, the
    recent-activity slice and the achievement card chosen by the completion
    rate. The list is what one unparameterised listing request returns: the
    first page of the user's tasks in the default order, so the totals and
    the rate are those of that page. */
module Home {
  import Rounding

  /** A fetched task, as far as the dashboard reads it. */
  datatype Item = Item(title: string, status: string)

  datatype Stats = Stats(total: nat, completed: nat, inProgress: nat, pending: nat, completionRate: int)

  /** How many items have exactly the given status. */
  function CountStatus(items: seq<Item>, status: string): (r: nat)
    ensures r <= |items|
    ensures r == |items| <==> forall k :: 0 <= k < |items| ==> items[k].status == status
    ensures r == 0 <==> forall k :: 0 <= k < |items| ==> items[k].status != status
  {
    if items == [] then 0
    else (if items[0].status == status then 1 else 0) + CountStatus(items[1..], status)
  }

  /** The statuses of the items, in order. */
  function StatusesOf(items: seq<Item>): (r: seq<string>)
    ensures |r| == |items|
    ensures forall k :: 0 <= k < |items| ==> r[k] == items[k].status
  {
    if items == [] then [] else [items[0].status] + StatusesOf(items[1..])
  }

  /** The count is the multiplicity of the status among all statuses. */
  lemma {:induction false} CountIsMultiplicity(items: seq<Item>, status: string)
    ensures CountStatus(items, status) == multiset(StatusesOf(items))[status]
  {
    if items != [] {
      CountIsMultiplicity(items[1..], status);
      assert StatusesOf(items) == [items[0].status] + StatusesOf(items[1..]);
    }
  }

  /** Items of three different statuses number no more than all items, and
      exactly all of them when every item has one of the three. */
  lemma {:induction false} CountsPartition(items: seq<Item>, a: string, b: string, c: string)
    requires a != b && b != c && a != c
    ensures CountStatus(items, a) + CountStatus(items, b) + CountStatus(items, c) <= |items|
    ensures (forall k :: 0 <= k < |items| ==> items[k].status in {a, b, c}) ==>
      CountStatus(items, a) + CountStatus(items, b) + CountStatus(items, c) == |items|
  {
    if items != [] {
      CountsPartition(items[1..], a, b, c);
      if forall k :: 0 <= k < |items| ==> items[k].status in {a, b, c} {
        assert forall k :: 0 <= k < |items[1..]| ==> items[1..][k] == items[k + 1];
      }
    }
  }

  /** The dashboard's statistics. */
  function ComputeStats(items: seq<Item>): (r: Stats)
    ensures r.total == |items|
    ensures r.completed == CountStatus(items, "completed")
    ensures r.inProgress == CountStatus(items, "in-progress")
    ensures r.pending == CountStatus(items, "pending")
    ensures r.completionRate == Rounding.Percentage(r.completed, r.total)
  {
    var total := |items|;
    var completed := CountStatus(items, "completed");
    Stats(total, completed, CountStatus(items, "in-progress"), CountStatus(items, "pending"),
          if total > 0 then Rounding.Percentage(completed, total) else 0)
  }

  /** Each count is at most the total and so is their sum; the rate is a
      percentage, 0 with no tasks and 100 when every task is done. */
  lemma StatsBounds(items: seq<Item>)
    ensures var s := ComputeStats(items);
      && s.completed <= s.total && s.inProgress <= s.total && s.pending <= s.total
      && s.completed + s.inProgress + s.pending <= s.total
      && 0 <= s.completionRate <= 100
      && (s.total == 0 ==> s.completionRate == 0)
      && (s.total > 0 && (forall k :: 0 <= k < |items| ==> items[k].status == "completed") ==> s.completionRate == 100)
  {
    var s := ComputeStats(items);
    CountsPartition(items, "completed", "in-progress", "pending");
    Rounding.PercentageBounds(s.completed, s.total);
  }

  /** The recent-activity list: the first five items in fetched order. */
  function RecentTasks(items: seq<Item>): (r: seq<Item>)
    ensures |r| == if |items| < 5 then |items| else 5
    ensures forall k :: 0 <= k < |r| ==> r[k] == items[k]
  {
    if |items| <= 5 then items else items[..5]
  }

  /** The five achievement cards. */
  datatype Tier = Outstanding | GreatProgress | GoodStart | LetsBegin | ReadyToStart

  /** The band of rates and totals each card stands for. */
  predicate Qualifies(t: Tier, rate: int, total: nat)
  {
    match t
    case Outstanding => 80 <= rate
    case GreatProgress => 50 <= rate < 80
    case GoodStart => 20 <= rate < 50
    case LetsBegin => rate < 20 && total > 0
    case ReadyToStart => rate < 20 && total == 0
  }

  /** The card, with the thresholds tested from the top down. The bands do
      not overlap and cover everything, so it is the one card whose band
      holds. */
  function TierOf(rate: int, total: nat): (r: Tier)
    ensures Qualifies(r, rate, total)
    ensures forall t :: Qualifies(t, rate, total) ==> t == r
  {
    if rate >= 80 then Outstanding
    else if rate >= 50 then GreatProgress
    else if rate >= 20 then GoodStart
    else if total > 0 then LetsBegin
    else ReadyToStart
  }

  /** The colour and icon of the card, chosen by the rate alone. */
  datatype Accent = Award | Zap | TrendingUp | Target

  function AccentOf(rate: int): Accent
  {
    if rate >= 80 then Award
    else if rate >= 50 then Zap
    else if rate >= 20 then TrendingUp
    else Target
  }

  /** The card's colour and icon agree with its text: the three top cards
      have an accent each and the two below 20% share one. */
  lemma AccentMatchesTier(rate: int, total: nat)
    ensures var t := TierOf(rate, total);
      AccentOf(rate) == (match t
        case Outstanding => Award
        case GreatProgress => Zap
        case GoodStart => TrendingUp
        case _ => Target)
  {
  }

  /** On the dashboard's own statistics the "Ready to Start?" card shows
      exactly when there are no tasks. */
  lemma ReadyOnlyWhenEmpty(items: seq<Item>)
    ensures var s := ComputeStats(items);
      TierOf(s.completionRate, s.total) == ReadyToStart <==> items == []
  {
    StatsBounds(items);
  }

  /** The noun of the "Let's Begin!" message. */
  function TaskNoun(total: nat): (r: string)
    ensures r == "task" <==> total == 1
    ensures r == "tasks" <==> total != 1
  {
    if total == 1 then "task" else "tasks"
  }
}
