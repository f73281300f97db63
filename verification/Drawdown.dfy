/**
 Drawdowns of freqtrade/data/metrics.py: the running-maximum form, checked against the definition by all
 pairs of points, and its use on balances.
 */
module Drawdown {
  import opened Outcomes

  // A closed trade or a day: its date and what it made. Rows come in date order.
  datatype Entry = Entry(date: int, value: real)

  // One row of the drawdown table, without the column of relative drawdowns.
  datatype Point = Point(cumulative: real, high: real, drawdown: real)

  datatype Report = Report(
    drawdownAbs: real,
    highDate: int,
    lowDate: int,
    highValue: real,
    lowValue: real,
    relative: Option<real>,
    currentHighDate: int,
    currentHighValue: real,
    currentAbs: real,
    currentRelative: Option<real>)

  datatype Error = NoTrades | NoBalances

  // ---- columns ----

  function Max(x: real, y: real): real {
    if x >= y then x else y
  }

  function Values(entries: seq<Entry>): seq<real> {
    seq(|entries|, i requires 0 <= i < |entries| => entries[i].value)
  }

  function Cumsum(xs: seq<real>): (r: seq<real>)
    ensures |r| == |xs|
  {
    if xs == [] then []
    else
      var rest := Cumsum(xs[..|xs| - 1]);
      rest + [(if rest == [] then 0.0 else rest[|rest| - 1]) + xs[|xs| - 1]]
  }

  function Cummax(xs: seq<real>): (r: seq<real>)
    ensures |r| == |xs|
  {
    if xs == [] then []
    else
      var rest := Cummax(xs[..|xs| - 1]);
      rest + [if rest == [] then xs[|xs| - 1] else Max(rest[|rest| - 1], xs[|xs| - 1])]
  }

  // The first position of the smallest, or largest, value.
  function Idxmin(xs: seq<real>): (r: nat)
    requires xs != []
    ensures r < |xs|
    ensures forall i :: 0 <= i < |xs| ==> xs[r] <= xs[i]
    ensures forall i :: 0 <= i < r ==> xs[r] < xs[i]
  {
    if |xs| == 1 then 0
    else
      var rest := Idxmin(xs[..|xs| - 1]);
      if xs[|xs| - 1] < xs[rest] then |xs| - 1 else rest
  }

  function Idxmax(xs: seq<real>): (r: nat)
    requires xs != []
    ensures r < |xs|
    ensures forall i :: 0 <= i < |xs| ==> xs[r] >= xs[i]
    ensures forall i :: 0 <= i < r ==> xs[r] > xs[i]
  {
    if |xs| == 1 then 0
    else
      var rest := Idxmax(xs[..|xs| - 1]);
      if xs[|xs| - 1] > xs[rest] then |xs| - 1 else rest
  }

  // ---- the program ----

  // _calc_drawdown_series: a zero row, and a row for each value.
  function DrawdownSeries(values: seq<real>): (r: seq<Point>)
    ensures |r| == |values| + 1
  {
    var cumulative := Cumsum(values);
    var highs := Cummax(cumulative);
    [Point(0.0, 0.0, 0.0)] +
    seq(|values|, i requires 0 <= i < |values| =>
      var high := Max(0.0, highs[i]);
      Point(cumulative[i], high, cumulative[i] - high))
  }

  // The fall in terms of the highest balance; there is none where that would divide by zero.
  function Relative(p: Point, start: real): Option<real> {
    if start != 0.0 then
      var balance, maxBalance := start + p.cumulative, start + p.high;
      if maxBalance == 0.0 then None else Some((maxBalance - balance) / maxBalance)
    else if p.high == 0.0 then None
    else Some((p.high - p.cumulative) / p.high)
  }

  function RelativeSeries(points: seq<Point>, start: real): (r: seq<Option<real>>)
    ensures |r| == |points|
  {
    seq(|points|, i requires 0 <= i < |points| => if i == 0 then Some(0.0) else Relative(points[i], start))
  }

  function Highs(points: seq<Point>): (r: seq<real>)
    ensures |r| == |points|
  {
    seq(|points|, i requires 0 <= i < |points| => points[i].high)
  }

  function Drawdowns(points: seq<Point>): (r: seq<real>)
    ensures |r| == |points|
  {
    seq(|points|, i requires 0 <= i < |points| => points[i].drawdown)
  }

  function Numbers(xs: seq<Option<real>>): (r: seq<real>)
    ensures |r| == |xs|
  {
    seq(|xs|, i requires 0 <= i < |xs| => xs[i].GetOr(0.0))
  }

  function DateAt(entries: seq<Entry>, index: nat): int
    requires entries != [] && index <= |entries|
  {
    entries[if index == 0 then 0 else index - 1].date
  }

  // The positions reported on: of the low, of the high before it, and of the current high.
  function LowIndex(points: seq<Point>, start: real, relative: bool): (r: nat)
    requires points != []
    ensures r < |points|
  {
    if relative then Idxmax(Numbers(RelativeSeries(points, start))) else Idxmin(Drawdowns(points))
  }

  function HighIndex(points: seq<Point>, low: nat): (r: nat)
    requires low < |points|
    ensures r <= low
  {
    Idxmax(Highs(points[..low + 1]))
  }

  function CurrentHighIndex(points: seq<Point>): (r: nat)
    requires |points| > 1
    ensures r < |points| - 1
  {
    Idxmax(Highs(points)[..|points| - 1])
  }

  function Abs(x: real): real {
    if x >= 0.0 then x else -x
  }

  // calculate_max_drawdown
  function MaxDrawdown(entries: seq<Entry>, start: real, relative: bool): Result<Report, Error> {
    if entries == [] then Err(NoTrades)
    else
      var points := DrawdownSeries(Values(entries));
      var low := LowIndex(points, start, relative);
      Ok(ReportOn(entries, points, start, HighIndex(points, low), low))
  }

  function ReportOn(entries: seq<Entry>, points: seq<Point>, start: real, high: nat, low: nat): Report
    requires entries != [] && |points| == |entries| + 1 && high <= low < |points|
  {
    var relatives, last := RelativeSeries(points, start), points[|points| - 1];
    Report(
      Abs(points[low].drawdown),
      DateAt(entries, high), DateAt(entries, low),
      points[high].cumulative, points[low].cumulative, relatives[low],
      DateAt(entries, CurrentHighIndex(points)),
      last.high, last.high - last.cumulative, relatives[|points| - 1])
  }

  function Balances(history: seq<Entry>): seq<Entry> {
    seq(|history|, i requires 0 <= i < |history| =>
      history[i].(value := if i == 0 then 0.0 else history[i].value - history[i - 1].value))
  }

  // calculate_max_drawdown_from_balance
  function MaxDrawdownFromBalance(history: seq<Entry>, relative: bool): Result<Report, Error> {
    if |history| < 2 then Err(NoBalances)
    else MaxDrawdown(Balances(history), history[0].value, relative)
  }

  // ---- the definition ----

  // The cumulative profit after each number of values, from none on.
  function Profits(values: seq<real>): (r: seq<real>)
    ensures |r| == |values| + 1 && r[0] == 0.0
  {
    if values == [] then [0.0]
    else
      var rest := Profits(values[..|values| - 1]);
      rest + [rest[|rest| - 1] + values[|values| - 1]]
  }

  lemma {:induction false} NextProfit(values: seq<real>, i: nat)
    requires i < |values|
    ensures Profits(values)[i + 1] == Profits(values)[i] + values[i]
  {
    if i < |values| - 1 {
      NextProfit(values[..|values| - 1], i);
    }
  }

  ghost predicate IsMaximum(profits: seq<real>, j: nat, high: real)
    requires j < |profits|
  {
    && (exists i :: 0 <= i <= j && profits[i] == high)
    && forall i :: 0 <= i <= j ==> profits[i] <= high
  }

  // The largest fall from any point to any later one, by all pairs.
  ghost predicate IsMaxDrawdown(profits: seq<real>, drawdown: real) {
    && (exists i, j :: 0 <= i <= j < |profits| && profits[i] - profits[j] == drawdown)
    && forall i, j :: 0 <= i <= j < |profits| ==> profits[i] - profits[j] <= drawdown
  }

  // ---- the table is right ----

  lemma {:induction false} CumsumIsProfit(values: seq<real>)
    ensures Profits(values)[1..] == Cumsum(values)
  {
    if values != [] {
      var rest := values[..|values| - 1];
      CumsumIsProfit(rest);
      assert Profits(values)[1..] == Profits(rest)[1..] + [Profits(rest)[|rest|] + values[|rest|]];
    }
  }

  lemma {:induction false} CummaxIsMaximum(xs: seq<real>, i: nat)
    requires i < |xs|
    ensures exists j :: 0 <= j <= i && xs[j] == Cummax(xs)[i]
    ensures forall j :: 0 <= j <= i ==> xs[j] <= Cummax(xs)[i]
  {
    var rest := xs[..|xs| - 1];
    if i < |rest| {
      CummaxIsMaximum(rest, i);
    } else if rest != [] {
      CummaxIsMaximum(rest, i - 1);
    }
  }

  // The running maximum, with zero for the time before, is the maximum of the profits so far.
  lemma HighIsMaximum(profits: seq<real>, j: nat)
    requires 0 < j < |profits| && profits[0] == 0.0
    ensures IsMaximum(profits, j, Max(0.0, Cummax(profits[1..])[j - 1]))
  {
    var later := profits[1..];
    var top := Cummax(later)[j - 1];
    CummaxIsMaximum(later, j - 1);
    forall i | 0 <= i <= j ensures profits[i] <= Max(0.0, top) {
      assert i > 0 ==> later[i - 1] == profits[i];
    }
    var k :| 0 <= k <= j - 1 && later[k] == top;
    assert profits[k + 1] == top;
  }

  // Every row holds the cumulative profit, its maximum so far, and the fall from it.
  ghost predicate IsTable(points: seq<Point>, profits: seq<real>) {
    && |points| == |profits| > 0 && profits[0] == 0.0
    && forall j :: 0 <= j < |points| ==> IsRow(points[j], profits, j)
  }

  ghost predicate IsRow(p: Point, profits: seq<real>, j: nat)
    requires j < |profits|
  {
    p.cumulative == profits[j] && p.drawdown == p.cumulative - p.high && IsMaximum(profits, j, p.high)
  }

  lemma SeriesIsTable(values: seq<real>)
    ensures IsTable(DrawdownSeries(values), Profits(values))
  {
    CumsumIsProfit(values);
    forall j | 0 <= j <= |values| ensures IsRow(DrawdownSeries(values)[j], Profits(values), j) {
      RowOfSeries(values, Profits(values), j);
    }
  }

  lemma RowOfSeries(values: seq<real>, profits: seq<real>, j: nat)
    requires |profits| == |values| + 1 && profits[0] == 0.0 && profits[1..] == Cumsum(values) && j <= |values|
    ensures IsRow(DrawdownSeries(values)[j], profits, j)
  {
    if j > 0 {
      HighIsMaximum(profits, j);
      assert profits[1..][j - 1] == profits[j];
    }
  }

  lemma HighsGrow(points: seq<Point>, profits: seq<real>, i: nat, j: nat)
    requires IsTable(points, profits) && i <= j < |points|
    ensures 0.0 <= points[i].high <= points[j].high && points[j].drawdown <= 0.0
  {
    assert IsRow(points[i], profits, i) && IsRow(points[j], profits, j);
    assert profits[0] <= points[i].high;
  }

  // The high reported for a low is the first row to reach the maximum up to the low, so its cumulative profit
  // is that maximum.
  lemma HighIsReached(points: seq<Point>, profits: seq<real>, low: nat)
    requires IsTable(points, profits) && low < |points|
    ensures points[HighIndex(points, low)].cumulative == points[low].high
  {
    var high := HighIndex(points, low);
    var highs := Highs(points[..low + 1]);
    assert highs[low] == points[low].high && highs[high] == points[high].high;
    HighsGrow(points, profits, high, low);
    assert IsRow(points[high], profits, high);
    var i :| 0 <= i <= high && profits[i] == points[high].high;
    assert IsRow(points[i], profits, i);
    assert highs[i] == points[i].high >= highs[high];
  }

  // ---- the report is right ----

  lemma LowestRow(points: seq<Point>, profits: seq<real>, low: nat)
    requires IsTable(points, profits) && low < |points|
    requires forall j :: 0 <= j < |points| ==> points[low].drawdown <= points[j].drawdown
    ensures IsMaxDrawdown(profits, -points[low].drawdown)
  {
    assert IsRow(points[low], profits, low);
    var top :| 0 <= top <= low && profits[top] == points[low].high;
    assert profits[top] - profits[low] == -points[low].drawdown;
    forall i, j | 0 <= i <= j < |profits| ensures profits[i] - profits[j] <= -points[low].drawdown {
      assert IsRow(points[j], profits, j);
    }
  }

  // The absolute drawdown is the maximum over all pairs of points, and the current drawdown lies between
  // zero and it.
  lemma AbsoluteIsAllPairs(entries: seq<Entry>, start: real)
    requires entries != []
    ensures var report := MaxDrawdown(entries, start, false).value;
            && IsMaxDrawdown(Profits(Values(entries)), report.drawdownAbs)
            && 0.0 <= report.currentAbs <= report.drawdownAbs
  {
    var points, profits := DrawdownSeries(Values(entries)), Profits(Values(entries));
    var low := LowIndex(points, start, false);
    SeriesIsTable(Values(entries));
    forall j | 0 <= j < |points| ensures points[low].drawdown <= points[j].drawdown {
      assert Drawdowns(points)[low] <= Drawdowns(points)[j];
    }
    LowestRow(points, profits, low);
    HighsGrow(points, profits, low, low);
    HighsGrow(points, profits, |entries|, |entries|);
    assert IsRow(points[|entries|], profits, |entries|);
  }

  // In both modes the high comes no later than the low, and they are the drawdown apart.
  lemma HighBeforeLow(entries: seq<Entry>, start: real, relative: bool)
    requires entries != []
    ensures var report := MaxDrawdown(entries, start, relative).value;
            report.highValue - report.lowValue == report.drawdownAbs >= 0.0
    ensures (forall i, j :: 0 <= i <= j < |entries| ==> entries[i].date <= entries[j].date) ==>
              var report := MaxDrawdown(entries, start, relative).value;
              report.highDate <= report.lowDate
  {
    var points, profits := DrawdownSeries(Values(entries)), Profits(Values(entries));
    var low := LowIndex(points, start, relative);
    SeriesIsTable(Values(entries));
    HighsGrow(points, profits, low, low);
    HighIsReached(points, profits, low);
    assert IsRow(points[low], profits, low);
  }

  // The reported values were really reached at the reported dates, or before the first one where they are zero.
  lemma PointsWereReached(entries: seq<Entry>, start: real, relative: bool)
    requires entries != []
    ensures var report := MaxDrawdown(entries, start, relative).value;
            && ReachedAt(entries, report.highValue, report.highDate)
            && ReachedAt(entries, report.lowValue, report.lowDate)
  {
    var points, profits := DrawdownSeries(Values(entries)), Profits(Values(entries));
    var low := LowIndex(points, start, relative);
    var high := HighIndex(points, low);
    SeriesIsTable(Values(entries));
    assert IsRow(points[low], profits, low) && IsRow(points[high], profits, high);
    assert Reaches(entries, low, points[low].cumulative, DateAt(entries, low));
    assert Reaches(entries, high, points[high].cumulative, DateAt(entries, high));
  }

  ghost predicate ReachedAt(entries: seq<Entry>, value: real, date: int) {
    exists i :: Reaches(entries, i, value, date)
  }

  ghost predicate Reaches(entries: seq<Entry>, i: nat, value: real, date: int) {
    entries != [] && i <= |entries| && Profits(Values(entries))[i] == value
    && date == entries[if i == 0 then 0 else i - 1].date
  }

  // ---- the report as a whole ----

  ghost predicate IsFirstMaximum(profits: seq<real>, upTo: nat, i: nat)
    requires upTo < |profits|
  {
    i <= upTo && (forall k :: 0 <= k <= upTo ==> profits[k] <= profits[i])
    && forall k :: 0 <= k < i ==> profits[k] < profits[i]
  }

  // The fall from a high in terms of the balance at that time, whether or not a starting balance is known.
  function Share(high: real, cumulative: real, start: real): Option<real> {
    if start + high == 0.0 then None else Some((high - cumulative) / (start + high))
  }

  // A report about the low `l` with its high `h`, counted in rows from the start.
  ghost predicate ReportsFall(r: Report, entries: seq<Entry>, profits: seq<real>, start: real, h: nat, l: nat)
    requires entries != [] && |profits| == |entries| + 1
  {
    && h <= l <= |entries| && IsFirstMaximum(profits, l, h)
    && r.highValue == profits[h] && r.highDate == entries[if h > 0 then h - 1 else 0].date
    && r.lowValue == profits[l] && r.lowDate == entries[if l > 0 then l - 1 else 0].date
    && r.drawdownAbs == profits[h] - profits[l]
    && (l > 0 || start != 0.0 ==> r.relative == Share(profits[h], profits[l], start))
  }

  // What it says about the last row, and about the high `c` that was current before it.
  ghost predicate ReportsCurrent(r: Report, entries: seq<Entry>, profits: seq<real>, start: real, c: nat)
    requires entries != [] && |profits| == |entries| + 1
  {
    var n := |entries|;
    && c < n && IsFirstMaximum(profits, n - 1, c) && r.currentHighDate == entries[if c > 0 then c - 1 else 0].date
    && IsMaximum(profits, n, r.currentHighValue) && r.currentAbs == r.currentHighValue - profits[n]
    && r.currentRelative == Share(r.currentHighValue, profits[n], start)
  }

  ghost predicate IsReport(r: Report, entries: seq<Entry>, profits: seq<real>, start: real)
    requires entries != [] && |profits| == |entries| + 1
  {
    && (exists h, l :: ReportsFall(r, entries, profits, start, h, l))
    && (exists c :: ReportsCurrent(r, entries, profits, start, c))
  }

  lemma ReportIsExact(entries: seq<Entry>, start: real, relative: bool)
    requires entries != []
    ensures MaxDrawdown(entries, start, relative).Ok?
    ensures IsReport(MaxDrawdown(entries, start, relative).value, entries, Profits(Values(entries)), start)
  {
    var points, profits := DrawdownSeries(Values(entries)), Profits(Values(entries));
    var l := LowIndex(points, start, relative);
    SeriesIsTable(Values(entries));
    FallIsReported(entries, points, profits, start, l);
    CurrentIsReported(entries, points, profits, start, HighIndex(points, l), l);
    var r := ReportOn(entries, points, start, HighIndex(points, l), l);
    assert IsReport(r, entries, profits, start);
    assert MaxDrawdown(entries, start, relative) == Ok(r);
  }

  lemma FallIsReported(entries: seq<Entry>, points: seq<Point>, profits: seq<real>, start: real, l: nat)
    requires entries != [] && |points| == |entries| + 1 && IsTable(points, profits) && l < |points|
    ensures ReportsFall(ReportOn(entries, points, start, HighIndex(points, l), l), entries, profits, start,
                        HighIndex(points, l), l)
  {
    var h := HighIndex(points, l);
    assert IsRow(points[h], profits, h) && IsRow(points[l], profits, l);
    HighIsFirst(points, profits, l);
    HighIsReached(points, profits, l);
    HighsGrow(points, profits, l, l);
    FirstRow(points, profits);
    RelativeIsShare(points, start, l);
  }

  lemma CurrentIsReported(entries: seq<Entry>, points: seq<Point>, profits: seq<real>, start: real, h: nat, l: nat)
    requires entries != [] && |points| == |entries| + 1 && IsTable(points, profits) && h <= l < |points|
    ensures ReportsCurrent(ReportOn(entries, points, start, h, l), entries, profits, start, CurrentHighIndex(points))
  {
    var n := |entries|;
    assert IsRow(points[n], profits, n);
    HighIsFirst(points, profits, n - 1);
    assert Highs(points)[..n] == Highs(points[..n]);
    RelativeIsShare(points, start, n);
  }

  lemma FirstRow(points: seq<Point>, profits: seq<real>)
    requires IsTable(points, profits)
    ensures points[0].high == points[0].cumulative == 0.0
  {
    assert IsRow(points[0], profits, 0);
  }

  lemma HighIsFirst(points: seq<Point>, profits: seq<real>, low: nat)
    requires IsTable(points, profits) && low < |points|
    ensures IsFirstMaximum(profits, low, HighIndex(points, low))
  {
    var high, highs := HighIndex(points, low), Highs(points[..low + 1]);
    HighIsReached(points, profits, low);
    assert IsRow(points[low], profits, low) && IsRow(points[high], profits, high);
    assert highs[high] == points[high].high;
    HighsGrow(points, profits, high, low);
    forall k | 0 <= k < high ensures profits[k] < profits[high] {
      assert IsRow(points[k], profits, k) && highs[k] == points[k].high;
      assert highs[low] == points[low].high;
    }
  }

  lemma RelativeIsShare(points: seq<Point>, start: real, j: nat)
    requires j < |points| && (j == 0 ==> points[0].high == points[0].cumulative == 0.0)
    ensures j > 0 || start != 0.0 ==>
              RelativeSeries(points, start)[j] == Share(points[j].high, points[j].cumulative, start)
  {
    var p := points[j];
    assert (start + p.high) - (start + p.cumulative) == p.high - p.cumulative;
    if j == 0 && start != 0.0 {
      assert (0.0 - 0.0) / start == 0.0;
    }
  }

  // The relative mode reports the largest share, with or without a starting balance.
  lemma RelativeIsLargestShare(entries: seq<Entry>, start: real, j: nat)
    requires 0 < j <= |entries|
    ensures var p := DrawdownSeries(Values(entries))[j];
            var largest := MaxDrawdown(entries, start, true).value.relative.GetOr(0.0);
            0.0 <= largest && Share(p.high, p.cumulative, start).GetOr(0.0) <= largest
  {
    var points := DrawdownSeries(Values(entries));
    var low := LowIndex(points, start, true);
    var numbers := Numbers(RelativeSeries(points, start));
    RelativeIsShare(points, start, j);
    assert numbers[0] == 0.0 <= numbers[low] && numbers[j] <= numbers[low];
  }

  // Without a trade, or with less than two balances, there is nothing to report, and only then.
  lemma ErrorsExactly(entries: seq<Entry>, start: real, relative: bool)
    ensures MaxDrawdown(entries, start, relative) == Err(NoTrades) <==> entries == []
    ensures MaxDrawdownFromBalance(entries, relative) == Err(NoBalances) <==> |entries| < 2
    ensures |entries| >= 2 ==> MaxDrawdownFromBalance(entries, relative).Ok?
  {
  }

  // The fall from the peak balance, in terms of that balance.
  function Fall(high: real, cumulative: real, start: real): real {
    if start + high == 0.0 then 0.0 else (high - cumulative) / (start + high)
  }

  lemma RelativeIsFall(points: seq<Point>, profits: seq<real>, start: real, j: nat)
    requires IsTable(points, profits) && start > 0.0 && j < |points|
    ensures var fall := Fall(points[j].high, points[j].cumulative, start);
            RelativeSeries(points, start)[j] == Some(fall) && fall >= 0.0
  {
    HighsGrow(points, profits, j, j);
    assert IsRow(points[j], profits, j);
    NotNegative(points[j].high - points[j].cumulative, start + points[j].high);
    if j == 0 {
      assert points[j].high == points[j].cumulative;
    }
  }

  lemma NotNegative(x: real, y: real)
    requires x >= 0.0 && y > 0.0
    ensures x / y >= 0.0
  {
  }

  lemma LargestFall(points: seq<Point>, profits: seq<real>, start: real, j: nat)
    requires IsTable(points, profits) && start > 0.0 && j < |points|
    ensures var low := LowIndex(points, start, true);
            && Fall(points[j].high, points[j].cumulative, start) <=
               Fall(points[low].high, points[low].cumulative, start)
  {
    var low := LowIndex(points, start, true);
    RelativeIsFall(points, profits, start, j);
    RelativeIsFall(points, profits, start, low);
    var numbers := Numbers(RelativeSeries(points, start));
    assert numbers[j] <= numbers[low];
  }

  // With a starting balance, the relative mode reports the largest fall in terms of the peak balance so far.
  lemma RelativeIsLargest(entries: seq<Entry>, start: real)
    requires entries != [] && start > 0.0
    ensures var report := MaxDrawdown(entries, start, true).value;
            var points := DrawdownSeries(Values(entries));
            && report.relative.Some? && report.currentRelative.Some?
            && 0.0 <= report.currentRelative.value <= report.relative.value
            && forall j :: 0 <= j < |points| ==>
                 Fall(points[j].high, points[j].cumulative, start) <= report.relative.value
  {
    var points, profits := DrawdownSeries(Values(entries)), Profits(Values(entries));
    SeriesIsTable(Values(entries));
    RelativeIsFall(points, profits, start, LowIndex(points, start, true));
    RelativeIsFall(points, profits, start, |entries|);
    forall j | 0 <= j < |points|
      ensures Fall(points[j].high, points[j].cumulative, start) <=
              RelativeSeries(points, start)[LowIndex(points, start, true)].value
    {
      LargestFall(points, profits, start, j);
    }
  }

  // The largest fall from any point to any later one, in terms of the balance it started from.
  ghost predicate IsMaxFall(profits: seq<real>, start: real, fall: real) {
    && (exists i, j :: 0 <= i <= j < |profits| && Fall(profits[i], profits[j], start) == fall)
    && forall i, j :: 0 <= i <= j < |profits| ==> Fall(profits[i], profits[j], start) <= fall
  }

  // As long as the account is never overdrawn, that is the largest relative fall between any two points.
  lemma RelativeIsAllPairs(entries: seq<Entry>, start: real)
    requires entries != [] && start > 0.0
    requires forall k :: 0 <= k <= |entries| ==> start + Profits(Values(entries))[k] >= 0.0
    ensures IsMaxFall(Profits(Values(entries)), start, MaxDrawdown(entries, start, true).value.relative.GetOr(0.0))
  {
    RelativeReported(entries, start);
    SeriesIsTable(Values(entries));
    TableFalls(DrawdownSeries(Values(entries)), Profits(Values(entries)), start);
  }

  lemma RelativeReported(entries: seq<Entry>, start: real)
    requires entries != [] && start > 0.0
    ensures var points := DrawdownSeries(Values(entries));
            var low := points[LowIndex(points, start, true)];
            MaxDrawdown(entries, start, true).value.relative == Some(Fall(low.high, low.cumulative, start))
  {
    var points := DrawdownSeries(Values(entries));
    SeriesIsTable(Values(entries));
    RelativeIsFall(points, Profits(Values(entries)), start, LowIndex(points, start, true));
  }

  lemma TableFalls(points: seq<Point>, profits: seq<real>, start: real)
    requires IsTable(points, profits) && start > 0.0
    requires forall k :: 0 <= k < |profits| ==> start + profits[k] >= 0.0
    ensures var low := points[LowIndex(points, start, true)];
            IsMaxFall(profits, start, Fall(low.high, low.cumulative, start))
  {
    var low := LowIndex(points, start, true);
    assert IsRow(points[low], profits, low);
    var top :| 0 <= top <= low && profits[top] == points[low].high;
    assert Fall(profits[top], profits[low], start) == Fall(points[low].high, points[low].cumulative, start);
    forall i, j | 0 <= i <= j < |profits|
      ensures Fall(profits[i], profits[j], start) <= Fall(points[low].high, points[low].cumulative, start)
    {
      HighsGrow(points, profits, j, j);
      assert IsRow(points[j], profits, j);
      FallGrowsWithPeak(profits[i], points[j].high, profits[j], start);
      LargestFall(points, profits, start, j);
    }
  }

  lemma FallGrowsWithPeak(low: real, high: real, cumulative: real, start: real)
    requires start > 0.0 && 0.0 <= start + low && low <= high && 0.0 <= start + cumulative && cumulative <= high
    requires high >= 0.0
    ensures Fall(low, cumulative, start) <= Fall(high, cumulative, start)
  {
    NotNegative(high - cumulative, start + high);
    if start + low > 0.0 {
      var fall, larger := Fall(low, cumulative, start), Fall(high, cumulative, start);
      assert (1.0 - fall) * (start + low) == start + cumulative;
      assert (1.0 - larger) * (start + high) == start + cumulative;
      SmallerFactor(1.0 - fall, start + low, 1.0 - larger, start + high);
    }
  }

  lemma SmallerFactor(u: real, a: real, v: real, b: real)
    requires u * a == v * b >= 0.0 && 0.0 < a <= b
    ensures v <= u
  {
    if v >= 0.0 {
      assert v * (b - a) >= 0.0;
      assert (u - v) * a >= 0.0;
    }
  }

  // The date reported for the current high belongs to it, unless the last row is a new high.
  lemma CurrentHighDateExactly(entries: seq<Entry>)
    requires entries != []
    ensures var points := DrawdownSeries(Values(entries));
            points[CurrentHighIndex(points)].cumulative == points[|entries|].high <==>
            points[|entries|].cumulative <= points[|entries| - 1].high
  {
    var points, profits := DrawdownSeries(Values(entries)), Profits(Values(entries));
    var n := |entries|;
    SeriesIsTable(Values(entries));
    HighIsReached(points, profits, n - 1);
    assert Highs(points)[..n] == Highs(points[..n]);
    LastHigh(points, profits);
  }

  lemma LastHigh(points: seq<Point>, profits: seq<real>)
    requires IsTable(points, profits) && |points| > 1
    ensures var n := |points| - 1;
            points[n].high == points[n - 1].high <==> points[n].cumulative <= points[n - 1].high
  {
    var n := |points| - 1;
    assert IsRow(points[n - 1], profits, n - 1) && IsRow(points[n], profits, n);
    var i :| 0 <= i <= n && profits[i] == points[n].high;
  }

  // ---- balances ----

  function Differences(history: seq<Entry>): seq<real> {
    Values(Balances(history))
  }

  lemma {:induction false} DifferencesAddUp(history: seq<Entry>, i: nat)
    requires history != [] && i <= |history|
    ensures Profits(Differences(history))[i] == history[if i > 0 then i - 1 else 0].value - history[0].value
  {
    if i > 0 {
      DifferencesAddUp(history, i - 1);
      NextProfit(Differences(history), i - 1);
    }
  }

  ghost predicate IsPeak(history: seq<Entry>, i: nat, peak: real)
    requires i < |history|
  {
    && (exists k :: 0 <= k <= i && history[k].value == peak)
    && forall k :: 0 <= k <= i ==> history[k].value <= peak
  }

  lemma PeakIs(history: seq<Entry>, i: nat, high: real)
    requires i < |history| && IsMaximum(Profits(Differences(history)), i + 1, high)
    ensures IsPeak(history, i, history[0].value + high)
  {
    var start, profits := history[0].value, Profits(Differences(history));
    forall k | 0 <= k <= i ensures history[k].value <= start + high {
      DifferencesAddUp(history, k + 1);
      assert profits[k + 1] <= high;
    }
    var m :| 0 <= m <= i + 1 && profits[m] == high;
    DifferencesAddUp(history, m);
    assert history[if m > 0 then m - 1 else 0].value == start + high;
  }

  // Row by row, the table built from differences and the first balance is the table of the balances
  // themselves: peak so far, fall from it, and the fall in terms of the peak.
  lemma BalanceRows(history: seq<Entry>, i: nat)
    requires i < |history| && history[0].value > 0.0
    ensures var start, points := history[0].value, DrawdownSeries(Differences(history));
            var peak := start + points[i + 1].high;
            && IsPeak(history, i, peak)
            && points[i + 1].cumulative == history[i].value - start
            && points[i + 1].drawdown == history[i].value - peak
            && peak > 0.0 && RelativeSeries(points, start)[i + 1] == Some((peak - history[i].value) / peak)
  {
    var points, profits := DrawdownSeries(Differences(history)), Profits(Differences(history));
    var start, p := history[0].value, points[i + 1];
    SeriesIsTable(Differences(history));
    BalanceRow(history, p, i);
    RelativeIsFall(points, profits, start, i + 1);
    HighsGrow(points, profits, i + 1, i + 1);
    FallOfBalance(p.high, p.cumulative, start, history[i].value);
    assert IsPeak(history, i, start + p.high);
  }

  lemma FallOfBalance(high: real, cumulative: real, start: real, value: real)
    requires high >= 0.0 && start > 0.0 && cumulative == value - start
    ensures Fall(high, cumulative, start) == (start + high - value) / (start + high)
  {
  }

  lemma BalanceRow(history: seq<Entry>, p: Point, i: nat)
    requires i < |history| && IsRow(p, Profits(Differences(history)), i + 1)
    ensures var peak := history[0].value + p.high;
            && IsPeak(history, i, peak)
            && p.cumulative == history[i].value - history[0].value
            && p.drawdown == history[i].value - peak
  {
    PeakIs(history, i, p.high);
    assert p.cumulative == history[i].value - history[0].value by {
      DifferencesAddUp(history, i + 1);
    }
  }

  // The drawdown from balances is the largest fall between any two of them.
  lemma BalanceDrawdownIsDirect(history: seq<Entry>)
    requires |history| >= 2
    ensures var drawdown := MaxDrawdownFromBalance(history, false).value.drawdownAbs;
            && (exists i, j :: 0 <= i <= j < |history| && history[i].value - history[j].value == drawdown)
            && forall i, j :: 0 <= i <= j < |history| ==> history[i].value - history[j].value <= drawdown
  {
    AbsoluteIsAllPairs(Balances(history), history[0].value);
    SameFalls(history, MaxDrawdownFromBalance(history, false).value.drawdownAbs);
  }

  lemma SameFalls(history: seq<Entry>, drawdown: real)
    requires history != [] && IsMaxDrawdown(Profits(Differences(history)), drawdown)
    ensures exists i, j :: 0 <= i <= j < |history| && history[i].value - history[j].value == drawdown
    ensures forall i, j :: 0 <= i <= j < |history| ==> history[i].value - history[j].value <= drawdown
  {
    var profits := Profits(Differences(history));
    forall i, j | 0 <= i <= j < |history| ensures history[i].value - history[j].value <= drawdown {
      DifferencesAddUp(history, i + 1);
      DifferencesAddUp(history, j + 1);
      assert profits[i + 1] - profits[j + 1] <= drawdown;
    }
    var i, j :| 0 <= i <= j < |profits| && profits[i] - profits[j] == drawdown;
    FallBetween(history, i, j);
  }

  lemma FallBetween(history: seq<Entry>, i: nat, j: nat)
    requires history != [] && i <= j <= |history|
    ensures var profits := Profits(Differences(history));
            exists k, m :: 0 <= k <= m < |history| && history[k].value - history[m].value == profits[i] - profits[j]
  {
    var k, m := if i > 0 then i - 1 else 0, if j > 0 then j - 1 else 0;
    DifferencesAddUp(history, i);
    DifferencesAddUp(history, j);
    var profits := Profits(Differences(history));
    assert history[k].value - history[m].value == profits[i] - profits[j];
  }

  // The fall of a balance from the highest one so far, in terms of that.
  ghost predicate FallsBy(history: seq<Entry>, i: nat, fall: real) {
    i < |history| && exists peak :: peak > 0.0 && IsPeak(history, i, peak) && fall == (peak - history[i].value) / peak
  }

  // The relative mode reports the largest of these falls. And in both modes the relative drawdown is the reported
  // fall in terms of the balance that was the high.
  lemma BalanceRelativeIsLargest(history: seq<Entry>)
    requires |history| >= 2 && history[0].value > 0.0
    ensures var largest := MaxDrawdownFromBalance(history, true).value.relative;
            && largest.Some? && (exists i :: FallsBy(history, i, largest.value))
            && forall i, fall :: FallsBy(history, i, fall) ==> fall <= largest.value
  {
    var start, points := history[0].value, DrawdownSeries(Differences(history));
    var low := LowIndex(points, start, true);
    var series := RelativeSeries(points, start);
    var i := if low > 0 then low - 1 else 0;
    BalanceFall(history, i);
    BalanceFall(history, 0);
    assert FallsBy(history, 0, 0.0);
    assert MaxDrawdownFromBalance(history, true).value.relative == series[low];
    assert FallsBy(history, i, series[low].value);
    forall j, fall | FallsBy(history, j, fall) ensures fall <= series[low].value {
      BalanceFall(history, j);
      OnePeak(history, j, fall, series[j + 1].value);
      assert Numbers(series)[j + 1] <= Numbers(series)[low];
    }
  }

  lemma BalanceFall(history: seq<Entry>, i: nat)
    requires i < |history| && history[0].value > 0.0
    ensures var series := RelativeSeries(DrawdownSeries(Differences(history)), history[0].value);
            && series[i + 1].Some? && FallsBy(history, i, series[i + 1].value)
            && (i == 0 ==> series[1] == Some(0.0))
  {
    BalanceRows(history, i);
    var peak := history[0].value + DrawdownSeries(Differences(history))[i + 1].high;
    assert IsPeak(history, i, peak);
  }

  lemma OnePeak(history: seq<Entry>, i: nat, fall: real, other: real)
    requires FallsBy(history, i, fall) && FallsBy(history, i, other)
    ensures fall == other
  {
    var peak :| peak > 0.0 && IsPeak(history, i, peak) && fall == (peak - history[i].value) / peak;
    var same :| same > 0.0 && IsPeak(history, i, same) && other == (same - history[i].value) / same;
    assert peak == same;
  }

  lemma BalanceReportIsExact(history: seq<Entry>, relative: bool)
    requires |history| >= 2 && history[0].value != 0.0
    ensures var r, start := MaxDrawdownFromBalance(history, relative).value, history[0].value;
            && r.relative == Share(r.highValue, r.lowValue, start)
            && r.currentRelative == Share(r.currentHighValue, history[|history| - 1].value - start, start)
  {
    SharesOfReport(Balances(history), history[0].value, relative);
    DifferencesAddUp(history, |history|);
  }

  lemma SharesOfReport(entries: seq<Entry>, start: real, relative: bool)
    requires entries != [] && start != 0.0
    ensures var r := MaxDrawdown(entries, start, relative).value;
            && r.relative == Share(r.highValue, r.lowValue, start)
            && r.currentRelative == Share(r.currentHighValue, Profits(Values(entries))[|entries|], start)
  {
    ReportIsExact(entries, start, relative);
    SharesReported(entries, MaxDrawdown(entries, start, relative).value, Profits(Values(entries)), start);
  }

  lemma SharesReported(entries: seq<Entry>, r: Report, profits: seq<real>, start: real)
    requires entries != [] && start != 0.0 && |profits| == |entries| + 1 && IsReport(r, entries, profits, start)
    ensures r.relative == Share(r.highValue, r.lowValue, start)
    ensures r.currentRelative == Share(r.currentHighValue, profits[|entries|], start)
  {
  }
}
