/**
 Candle history of Binance, freqtrade/exchange/binance_public_data.py and get_historic_ohlcv_fast of
 freqtrade/exchange/binance.py: daily archives fetched in chunks, then the REST interface for what is left,
 joined without gap or duplicate.
 */
module Archive {
  import opened Candles
  import opened Outcomes

  const DAY := 86400000
  const CHUNK := 1000

  // What the archive of one day yields.
  datatype DayResult = Rows(rows: Frame) | NotFound | Failed

  type Days = int -> DayResult

  function DayOf(date: int): int {
    date / DAY
  }

  // ---- helpers of the download ----

  // date_range: one date a day, from the start up to the last that is not past the end.
  function DatesIn(start: int, end: int): seq<int>
    decreases end - start + DAY
  {
    if start > end then [] else [start] + DatesIn(start + DAY, end)
  }

  method DateRange(start: int, end: int) returns (dates: seq<int>)
    ensures dates == DatesIn(start, end)
  {
    dates := [];
    var date := start;
    while date <= end
      invariant dates + DatesIn(date, end) == DatesIn(start, end)
      decreases end - date + DAY
    {
      assert dates + ([date] + DatesIn(date + DAY, end)) == (dates + [date]) + DatesIn(date + DAY, end);
      dates := dates + [date];
      date := date + DAY;
    }
  }

  ghost predicate IsDateRange(dates: seq<int>, start: int, end: int) {
    && (forall i :: 0 <= i < |dates| ==> dates[i] == start + i * 86400000)
    && (if start > end then dates == [] else (|dates| - 1) * 86400000 <= end - start < |dates| * 86400000)
  }

  lemma {:induction false} DatesAreDaily(start: int, end: int)
    ensures IsDateRange(DatesIn(start, end), start, end)
    decreases end - start + DAY
  {
    if start <= end {
      DatesAreDaily(start + DAY, end);
      var dates, later := DatesIn(start, end), DatesIn(start + DAY, end);
      forall i | 0 <= i < |dates| ensures dates[i] == start + i * 86400000 {
        assert i > 0 ==> dates[i] == later[i - 1];
      }
    }
  }

  function Flatten<T>(xss: seq<seq<T>>): seq<T> {
    if xss == [] then [] else xss[0] + Flatten(xss[1..])
  }

  lemma {:induction false} FlattenSnoc<T>(xss: seq<seq<T>>, xs: seq<T>)
    ensures Flatten(xss + [xs]) == Flatten(xss) + xs
  {
    if xss == [] {
      assert [] + [xs] == [xs] && [xs][1..] == [];
    } else {
      assert (xss + [xs])[1..] == xss[1..] + [xs];
      FlattenSnoc(xss[1..], xs);
    }
  }

  // Full chunks and a rest, which together are the list.
  method Chunks<T>(list: seq<T>, n: nat) returns (chunks: seq<seq<T>>)
    requires n > 0
    ensures Flatten(chunks) == list
    ensures forall i :: 0 <= i < |chunks| ==> 0 < |chunks[i]| <= n && (i < |chunks| - 1 ==> |chunks[i]| == n)
  {
    chunks := [];
    var start := 0;
    while start < |list|
      invariant 0 <= start <= |list| && Flatten(chunks) == list[..start]
      invariant forall i :: 0 <= i < |chunks| ==> 0 < |chunks[i]| <= n && (start < |list| ==> |chunks[i]| == n)
      invariant forall i :: 0 <= i < |chunks| - 1 ==> |chunks[i]| == n
    {
      var stop := if start + n < |list| then start + n else |list|;
      FlattenSnoc(chunks, list[start..stop]);
      assert list[..start] + list[start..stop] == list[..stop];
      chunks := chunks + [list[start..stop]];
      start := stop;
    }
    assert list[..|list|] == list;
  }

  function ConcatSafe(frames: seq<Option<Frame>>): Frame {
    if frames == [] then []
    else ConcatSafe(frames[..|frames| - 1]) + frames[|frames| - 1].GetOr([])
  }

  // ---- the download ----

  // The rows of the days up to the first failure, and up to the first missing day if that stops the download.
  function Collected(days: Days, dates: seq<int>, stopOn404: bool): Frame {
    if dates == [] then []
    else match days(DayOf(dates[0]))
      case Rows(rows) => rows + Collected(days, dates[1..], stopOn404)
      case NotFound => if stopOn404 then [] else Collected(days, dates[1..], stopOn404)
      case Failed => []
  }

  method DownloadDays(days: Days, start: int, end: int, stopOn404: bool) returns (r: Frame)
    ensures r == Collected(days, DatesIn(start, end), stopOn404)
  {
    var dates := DateRange(start, end);
    var chunks := Chunks(dates, CHUNK);
    var frames: seq<Option<Frame>> := [];
    ghost var goal := Collected(days, dates, stopOn404);
    for c := 0 to |chunks|
      invariant ConcatSafe(frames) + Collected(days, Flatten(chunks[c..]), stopOn404) == goal
    {
      ghost var later := Flatten(chunks[c + 1..]);
      FlattenFrom(chunks, c);
      for i := 0 to |chunks[c]|
        invariant ConcatSafe(frames) + Collected(days, chunks[c][i..] + later, stopOn404) == goal
      {
        CollectedNext(days, chunks[c], later, i, stopOn404);
        var day := days(DayOf(chunks[c][i]));
        match day {
          case NotFound =>
            if stopOn404 {
              return ConcatSafe(frames);
            }
            ConcatOne(frames, None, Collected(days, chunks[c][i + 1..] + later, stopOn404));
            frames := frames + [None];
          case Failed =>
            return ConcatSafe(frames);
          case Rows(rows) =>
            ConcatOne(frames, Some(rows), Collected(days, chunks[c][i + 1..] + later, stopOn404));
            frames := frames + [Some(rows)];
        }
      }
      assert chunks[c][|chunks[c]|..] + later == later;
    }
    assert Flatten(chunks[|chunks|..]) == [];
    r := ConcatSafe(frames);
  }

  lemma FlattenFrom<T>(xss: seq<seq<T>>, c: nat)
    requires c < |xss|
    ensures Flatten(xss[c..]) == xss[c][0..] + Flatten(xss[c + 1..])
  {
    assert xss[c..][1..] == xss[c + 1..] && xss[c][0..] == xss[c];
  }

  lemma CollectedNext(days: Days, dates: seq<int>, later: seq<int>, i: nat, stopOn404: bool)
    requires i < |dates|
    ensures Collected(days, dates[i..] + later, stopOn404) ==
            match days(DayOf(dates[i]))
            case Rows(rows) => rows + Collected(days, dates[i + 1..] + later, stopOn404)
            case NotFound => if stopOn404 then [] else Collected(days, dates[i + 1..] + later, stopOn404)
            case Failed => []
  {
    var left := dates[i..] + later;
    assert left[0] == dates[i] && left[1..] == dates[i + 1..] + later;
  }

  lemma ConcatOne(frames: seq<Option<Frame>>, frame: Option<Frame>, rest: Frame)
    ensures ConcatSafe(frames + [frame]) + rest == ConcatSafe(frames) + (frame.GetOr([]) + rest)
  {
    assert (frames + [frame])[..|frames|] == frames;
    assert ConcatSafe(frames + [frame]) == ConcatSafe(frames) + frame.GetOr([]);
  }

  function InRange(frame: Frame, start: int, end: int): Frame {
    if frame == [] then []
    else
      var last := frame[|frame| - 1];
      InRange(frame[..|frame| - 1], start, end) + if start <= last.date < end then [last] else []
  }

  // A missing end is given as none or, as the program reads it, zero.
  function ArchiveEnd(until: Option<int>, now: int): int {
    var end := if until.GetOr(0) != 0 then until.value else now;
    if end <= now - 2 * DAY then end else now - 2 * DAY
  }

  // The archive is read up to the end asked for, but never into the last two days.
  lemma ArchiveEndExactly(until: Option<int>, now: int)
    ensures var end, last := ArchiveEnd(until, now), now - 172800000;
            && end <= last
            && (until == None || until == Some(0) ==> end == last)
            && (until.Some? && until.value != 0 ==> end <= until.value && (end == until.value || end == last))
  {
  }

  // The rows of the range, in their order.
  lemma {:induction false} InRangeIsFilter(a: Frame, row: Row, b: Frame, start: int, end: int)
    ensures InRange([], start, end) == []
    ensures InRange(a + [row] + b, start, end) ==
            InRange(a, start, end) + (if start <= row.date < end then [row] else []) + InRange(b, start, end)
  {
    if b == [] {
      assert a + [row] + b == a + [row] && (a + [row])[..|a|] == a;
    } else {
      var all, last := a + [row] + b, b[|b| - 1];
      assert all[..|all| - 1] == a + [row] + b[..|b| - 1] && all[|all| - 1] == last;
      InRangeIsFilter(a, row, b[..|b| - 1], start, end);
    }
  }

  lemma {:induction false} InRangeWithin(frame: Frame, start: int, end: int)
    ensures forall i :: 0 <= i < |InRange(frame, start, end)| ==> start <= InRange(frame, start, end)[i].date < end
  {
    if frame != [] {
      InRangeWithin(frame[..|frame| - 1], start, end);
    }
  }

  // The archived candles of a pair: none when the pair is unknown or the range is empty.
  function Archived(days: Days, known: bool, since: int, end: int, stopOn404: bool): Frame {
    if known && since < end then InRange(Collected(days, DatesIn(since, end), stopOn404), since, end) else []
  }

  method DownloadArchive(days: Days, known: bool, since: int, until: Option<int>, now: int, stopOn404: bool)
    returns (r: Frame)
    ensures r == Archived(days, known, since, ArchiveEnd(until, now), stopOn404)
    ensures !known ==> r == []
    ensures forall i :: 0 <= i < |r| ==>
              && since <= r[i].date < now - 172800000
              && (until.Some? && until.value != 0 ==> r[i].date < until.value)
  {
    if !known {
      return [];
    }
    var end := if until.GetOr(0) != 0 then until.value else now;
    var lastAvailable := now - 2 * DAY;
    if lastAvailable < end {
      end := lastAvailable;
    }
    if since >= end {
      return [];
    }
    r := DownloadDays(days, since, end, stopOn404);
    InRangeWithin(r, since, end);
    if r != [] {
      r := InRange(r, since, end);
    }
  }

  // The archive first, then the REST interface from `rest` on. If both hold what they should, the result has the
  // candles of all grid points from `since` up to the limit of the REST interface, none missing and none twice,
  // or up to the end of the archive where that is later.
  method GetHistoricOhlcvFast(days: Days, rest: int -> Frame, known: bool, step: int, since: int, until: Option<int>,
                              now: int, ghost limit: int)
    returns (r: Frame)
    ensures r == History(Archived(days, known, since, ArchiveEnd(until, now), true), rest, step, since, until)
    ensures Complete(days, rest, step, until, limit) ==>
              Answers(r, step, since, HistoryLimit(days, known, since, until, now, limit))
  {
    r := DownloadArchive(days, known, since, until, now, true);
    ghost var archived := r;
    var restSince := if r == [] then since else LastDate(r) + step;
    if until.GetOr(0) != 0 && restSince > until.value {
      r := r + [];
    } else {
      r := r + rest(restSince);
    }
    if Complete(days, rest, step, until, limit) {
      HistoryHasNoGap(days, rest, known, step, since, until, now, limit);
    }
  }

  function History(archived: Frame, rest: int -> Frame, step: int, since: int, until: Option<int>): Frame {
    archived + if Continues(archived, step, since, until) then rest(RestSince(archived, step, since)) else []
  }

  function RestSince(archived: Frame, step: int, since: int): int {
    if archived == [] then since else LastDate(archived) + step
  }

  predicate Continues(archived: Frame, step: int, since: int, until: Option<int>) {
    until.GetOr(0) != 0 ==> RestSince(archived, step, since) <= until.value
  }

  // ---- the longest prefix of successful days ----

  function Successes(days: Days, dates: seq<int>): nat {
    if dates == [] || !days(DayOf(dates[0])).Rows? then 0 else 1 + Successes(days, dates[1..])
  }

  function Joined(days: Days, dates: seq<int>): Frame {
    if dates == [] then []
    else
      var last := days(DayOf(dates[|dates| - 1]));
      Joined(days, dates[..|dates| - 1]) + if last.Rows? then last.rows else []
  }

  // With `stopOn404` the download is the join of the longest prefix of days that all succeed.
  lemma {:induction false} LongestPrefix(days: Days, dates: seq<int>)
    ensures var n := Successes(days, dates);
            && n <= |dates|
            && (forall i :: 0 <= i < n ==> days(DayOf(dates[i])).Rows?)
            && (n < |dates| ==> !days(DayOf(dates[n])).Rows?)
            && Collected(days, dates, true) == Joined(days, dates[..n])
  {
    if dates != [] && days(DayOf(dates[0])).Rows? {
      LongestPrefix(days, dates[1..]);
      var n := Successes(days, dates[1..]);
      assert forall i :: 0 < i <= n ==> dates[i] == dates[1..][i - 1];
      assert dates[..n + 1] == [dates[0]] + dates[1..][..n];
      JoinedCons(days, dates[0], dates[1..][..n]);
    }
  }

  lemma {:induction false} JoinedCons(days: Days, date: int, dates: seq<int>)
    ensures Joined(days, [date] + dates) ==
            (if days(DayOf(date)).Rows? then days(DayOf(date)).rows else []) + Joined(days, dates)
  {
    if dates == [] {
      assert [date] + dates == [date] && [date][..0] == [];
    } else {
      assert ([date] + dates)[..|dates|] == [date] + dates[..|dates| - 1];
      JoinedCons(days, date, dates[..|dates| - 1]);
    }
  }

  function BeforeFailure(days: Days, dates: seq<int>): nat {
    if dates == [] || days(DayOf(dates[0])).Failed? then 0 else 1 + BeforeFailure(days, dates[1..])
  }

  // Without `stopOn404` missing days are passed over, and only a failure ends the download.
  lemma {:induction false} MissingDaysAreSkipped(days: Days, dates: seq<int>)
    ensures var n := BeforeFailure(days, dates);
            && n <= |dates|
            && (forall i :: 0 <= i < n ==> !days(DayOf(dates[i])).Failed?)
            && (n < |dates| ==> days(DayOf(dates[n])).Failed?)
            && Collected(days, dates, false) == Joined(days, dates[..n])
  {
    if dates != [] && !days(DayOf(dates[0])).Failed? {
      MissingDaysAreSkipped(days, dates[1..]);
      var n := BeforeFailure(days, dates[1..]);
      assert forall i :: 0 < i <= n ==> dates[i] == dates[1..][i - 1];
      assert dates[..n + 1] == [dates[0]] + dates[1..][..n];
      JoinedCons(days, dates[0], dates[1..][..n]);
    }
  }

  // ---- no gaps ----

  // An archive holds its whole day: one candle after the other from midnight to midnight.
  ghost predicate WholeDay(rows: Frame, day: int, step: int) {
    rows != [] && Contiguous(rows, step) && rows[0].date == day * DAY && LastDate(rows) + step == (day + 1) * DAY
  }

  ghost predicate WholeDays(days: Days, step: int) {
    forall d :: days(d).Rows? ==> WholeDay(days(d).rows, d, step)
  }

  lemma {:induction false} JoinedIsContiguous(days: Days, dates: seq<int>, start: int, step: int)
    requires WholeDays(days, step) && dates != []
    requires forall i :: 0 <= i < |dates| ==> dates[i] == start + i * DAY && days(DayOf(dates[i])).Rows?
    ensures var rows := Joined(days, dates);
            && rows != [] && Contiguous(rows, step)
            && rows[0].date == DayOf(start) * DAY && LastDate(rows) + step == (DayOf(start) + |dates|) * DAY
  {
    var rest, last := dates[..|dates| - 1], dates[|dates| - 1];
    assert DayOf(last) == DayOf(start) + |dates| - 1;
    var rows := days(DayOf(last)).rows;
    assert WholeDay(rows, DayOf(last), step);
    if rest == [] {
      assert Joined(days, rest) + rows == rows;
    } else {
      JoinedIsContiguous(days, rest, start, step);
      JoinIsContiguous(Joined(days, rest), rows, step);
    }
  }

  ghost predicate HasDate(frame: Frame, date: int) {
    exists i :: 0 <= i < |frame| && frame[i].date == date
  }

  lemma {:induction false} InRangeHas(frame: Frame, start: int, end: int, date: int)
    ensures HasDate(InRange(frame, start, end), date) <==> HasDate(frame, date) && start <= date < end
  {
    if frame != [] {
      var rest, last := frame[..|frame| - 1], frame[|frame| - 1];
      InRangeHas(rest, start, end, date);
      HasDateSnoc(rest, last, date);
      assert frame == rest + [last];
      if start <= last.date < end {
        HasDateSnoc(InRange(rest, start, end), last, date);
      } else {
        assert InRange(frame, start, end) == InRange(rest, start, end);
      }
    }
  }

  lemma HasDateSnoc(frame: Frame, row: Row, date: int)
    ensures HasDate(frame + [row], date) <==> HasDate(frame, date) || row.date == date
  {
    var all := frame + [row];
    assert forall i :: 0 <= i < |frame| ==> all[i] == frame[i];
    assert all[|frame|] == row;
  }

  lemma HasDateConcat(a: Frame, b: Frame, date: int)
    ensures HasDate(a + b, date) <==> HasDate(a, date) || HasDate(b, date)
  {
    assert forall i :: 0 <= i < |a| ==> (a + b)[i] == a[i];
    assert forall i :: 0 <= i < |b| ==> (a + b)[|a| + i] == b[i];
  }

  // Restricting a contiguous frame to a range leaves a contiguous piece, up to its end or to the end of the
  // range.
  lemma {:induction false} InRangeIsContiguous(frame: Frame, start: int, end: int, step: int)
    requires step > 0 && Contiguous(frame, step)
    ensures var r := InRange(frame, start, end);
            && Contiguous(r, step)
            && (r != [] ==> start <= LastDate(r) < end && (LastDate(frame) < end ==> LastDate(r) == LastDate(frame)))
  {
    if frame != [] {
      InRangeIsContiguous(frame[..|frame| - 1], start, end, step);
    }
  }

  // A contiguous frame on the grid has every grid point from its first date to its last.
  lemma ContiguousHas(frame: Frame, step: int, date: int)
    requires step > 0 && Contiguous(frame, step) && frame != [] && IsGridPoint(frame[0].date, step, 0)
    ensures HasDate(frame, date) <==> IsGridPoint(date, step, 0) && frame[0].date <= date < LastDate(frame) + step
  {
    if i :| 0 <= i < |frame| && frame[i].date == date {
      RowsAreOnGrid(frame, step, i);
    }
    if IsGridPoint(date, step, 0) && frame[0].date <= date < LastDate(frame) + step {
      GridPointsAreRows(frame, step, date);
    }
  }

  lemma RowsAreOnGrid(frame: Frame, step: int, i: nat)
    requires step > 0 && Contiguous(frame, step) && i < |frame| && IsGridPoint(frame[0].date, step, 0)
    ensures IsGridPoint(frame[i].date, step, 0) && frame[0].date <= frame[i].date < LastDate(frame) + step
  {
    var k :| frame[0].date == GridPoint(step, 0, k);
    DatesOfContiguous(frame, step, 0, i);
    assert frame[i].date == GridPoint(step, 0, k + i);
    Increasing(frame, step);
  }

  lemma GridPointsAreRows(frame: Frame, step: int, date: int)
    requires step > 0 && Contiguous(frame, step) && frame != [] && IsGridPoint(frame[0].date, step, 0)
    requires IsGridPoint(date, step, 0) && frame[0].date <= date < LastDate(frame) + step
    ensures HasDate(frame, date)
  {
    var k :| frame[0].date == GridPoint(step, 0, k);
    var j :| date == GridPoint(step, 0, j);
    var i := j - k;
    assert i * step == date - frame[0].date;
    AtLeastOneStep(i, step);
    DatesOfContiguous(frame, step, 0, |frame| - 1);
    assert (i - |frame|) * step == i * step - (|frame| - 1) * step - step;
    NotNegative(i - |frame|, step);
    DatesOfContiguous(frame, step, 0, i);
    assert frame[i].date == date;
  }

  lemma NotNegative(k: int, step: int)
    requires step > 0
    ensures k >= 0 ==> k * step >= 0
  {
  }

  // Candles of exactly the grid points from a date on, up to some limit, without a gap.
  ghost predicate Answers(rows: Frame, step: int, since: int, limit: int) {
    && Contiguous(rows, step)
    && forall t :: HasDate(rows, t) <==> IsGridPoint(t, step, 0) && since <= t < limit
  }

  // The archived candles are exactly those of the grid points in the requested range that the leading
  // successful days cover.
  lemma ArchivedExactly(days: Days, since: int, end: int, step: int)
    requires step > 0 && DAY % step == 0 && WholeDays(days, step) && since < end
    ensures var covered := (DayOf(since) + Successes(days, DatesIn(since, end))) * DAY;
            Answers(Archived(days, true, since, end, true), step, since, if covered < end then covered else end)
  {
    var dates := DatesIn(since, end);
    DatesAreDaily(since, end);
    LongestPrefix(days, dates);
    JoinedAnswers(days, dates[..Successes(days, dates)], since, end, step);
  }

  lemma JoinedAnswers(days: Days, dates: seq<int>, since: int, end: int, step: int)
    requires step > 0 && DAY % step == 0 && WholeDays(days, step)
    requires forall i :: 0 <= i < |dates| ==> dates[i] == since + i * DAY && days(DayOf(dates[i])).Rows?
    ensures var covered := (DayOf(since) + |dates|) * DAY;
            Answers(InRange(Joined(days, dates), since, end), step, since, if covered < end then covered else end)
  {
    var joined := Joined(days, dates);
    if dates != [] {
      JoinedIsContiguous(days, dates, since, step);
      InRangeIsContiguous(joined, since, end, step);
      MidnightOnGrid(DayOf(since), step);
    }
    forall t
      ensures HasDate(InRange(joined, since, end), t) <==>
              IsGridPoint(t, step, 0) && since <= t < end && t < (DayOf(since) + |dates|) * DAY
    {
      InRangeHas(joined, since, end, t);
      if dates != [] {
        ContiguousHas(joined, step, t);
      }
    }
  }

  lemma MidnightOnGrid(day: int, step: int)
    requires step > 0 && DAY % step == 0
    ensures IsGridPoint(day * DAY, step, 0)
  {
    var perDay := DAY / step;
    assert DAY == perDay * step;
    assert day * (perDay * step) == (day * perDay) * step;
    assert day * DAY == GridPoint(step, 0, day * perDay);
  }

  lemma FirstOf(rows: Frame, step: int, since: int, limit: int)
    requires step > 0 && Answers(rows, step, since, limit) && rows != []
    ensures IsGridPoint(rows[0].date, step, 0) && since <= rows[0].date < limit
    ensures forall t :: IsGridPoint(t, step, 0) && since <= t < limit ==> rows[0].date <= t
  {
    assert HasDate(rows, rows[0].date);
    Increasing(rows, step);
    forall t | IsGridPoint(t, step, 0) && since <= t < limit ensures rows[0].date <= t {
      assert HasDate(rows, t);
    }
  }

  // The next grid point after the last candle is the first one past the limit.
  lemma NextAfter(rows: Frame, step: int, since: int, limit: int)
    requires step > 0 && Answers(rows, step, since, limit) && rows != []
    ensures var next := LastDate(rows) + step;
            && since <= LastDate(rows) && IsGridPoint(next, step, 0) && next >= limit
            && forall t :: IsGridPoint(t, step, 0) && limit <= t ==> next <= t
  {
    var next := LastDate(rows) + step;
    FirstOf(rows, step, since, limit);
    assert HasDate(rows, LastDate(rows));
    NextGridPoint(LastDate(rows), step, 0);
    ContiguousHas(rows, step, next);
    forall t | IsGridPoint(t, step, 0) && limit <= t ensures next <= t {
      ContiguousHas(rows, step, t);
    }
  }

  // Archive and REST candles join without gap or duplicate: together they are those of the grid points from
  // the requested start to the limit of the REST answer, or to the end of the archive where that is later.
  lemma NoGapAtJoin(archived: Frame, rows: Frame, step: int, since: int, end: int, limit: int)
    requires step > 0 && Answers(archived, step, since, end)
    requires Answers(rows, step, RestSince(archived, step, since), limit)
    ensures Answers(archived + rows, step, since, if archived != [] && limit < end then end else limit)
  {
    if archived == [] {
      assert archived + rows == rows;
    } else {
      NextAfter(archived, step, since, end);
      if rows != [] {
        FirstOf(rows, step, LastDate(archived) + step, limit);
        JoinIsContiguous(archived, rows, step);
      }
      forall t
        ensures HasDate(archived + rows, t) <==>
                IsGridPoint(t, step, 0) && since <= t < if limit < end then end else limit
      {
        HasDateConcat(archived, rows, t);
      }
    }
  }

  // What the sources are trusted with: archives of whole days, and a REST interface that answers from any date on
  // with all candles up to some limit, which is not past the end that was asked for.
  ghost predicate Complete(days: Days, rest: int -> Frame, step: int, until: Option<int>, limit: int) {
    && step > 0 && DAY % step == 0 && WholeDays(days, step)
    && (forall s :: Answers(rest(s), step, s, limit))
    && (until.GetOr(0) != 0 ==> limit <= until.value + 1)
  }

  // How far the archive reaches.
  function ArchiveLimit(days: Days, since: int, end: int): int {
    var covered := (DayOf(since) + Successes(days, DatesIn(since, end))) * DAY;
    if covered < end then covered else end
  }

  function HistoryLimit(days: Days, known: bool, since: int, until: Option<int>, now: int, limit: int): int {
    var end := ArchiveEnd(until, now);
    var reached := ArchiveLimit(days, since, end);
    if Archived(days, known, since, end, true) != [] && limit < reached then reached else limit
  }

  lemma HistoryHasNoGap(days: Days, rest: int -> Frame, known: bool, step: int, since: int, until: Option<int>,
                        now: int, limit: int)
    requires Complete(days, rest, step, until, limit)
    ensures Answers(History(Archived(days, known, since, ArchiveEnd(until, now), true), rest, step, since, until),
                    step, since, HistoryLimit(days, known, since, until, now, limit))
  {
    var end := ArchiveEnd(until, now);
    var archived := Archived(days, known, since, end, true);
    if archived == [] {
      NothingArchived(rest, step, since, until, limit);
    } else {
      ArchivedExactly(days, since, end, step);
      JoinHasNoGap(archived, rest, step, since, until, ArchiveLimit(days, since, end), limit);
    }
  }

  lemma NothingArchived(rest: int -> Frame, step: int, since: int, until: Option<int>, limit: int)
    requires Answers(rest(since), step, since, limit) && (until.GetOr(0) != 0 ==> limit <= until.value + 1)
    ensures Answers(History([], rest, step, since, until), step, since, limit)
  {
    assert [] + rest(since) == rest(since);
  }

  // Where the REST interface is not asked, the archive already reaches past the end.
  lemma JoinHasNoGap(archived: Frame, rest: int -> Frame, step: int, since: int, until: Option<int>, reached: int,
                     limit: int)
    requires step > 0 && archived != [] && Answers(archived, step, since, reached)
    requires Answers(rest(RestSince(archived, step, since)), step, RestSince(archived, step, since), limit)
    requires until.GetOr(0) != 0 ==> limit <= until.value + 1
    ensures Answers(History(archived, rest, step, since, until), step, since,
                    if limit < reached then reached else limit)
  {
    if Continues(archived, step, since, until) {
      NoGapAtJoin(archived, rest(RestSince(archived, step, since)), step, since, reached, limit);
    } else {
      NextAfter(archived, step, since, reached);
      assert archived + [] == archived;
    }
  }
}
