/**
 Candles received from producers, freqtrade/data/dataprovider.py and append_candles_to_dataframe of
 freqtrade/misc.py: a capped window on an uncapped log, without gaps as long as producers send none.
 */
module ProducerStore {
  import opened Candles
  import opened Outcomes

  const FULL_DATAFRAME_THRESHOLD := 100
  const MAX_CANDLES := 1500
  const ALL_CANDLES := 1000

  datatype Key = Key(pair: string, timeframe: string, candleType: string)

  datatype Series = Series(frame: Frame, lastAnalyzed: int)

  type Store = map<string, map<Key, Series>>

  // What becomes of an incoming frame: the frame stored in its place, or how many candles are missing.
  datatype Verdict = Stored(frame: Frame) | Rejected(missing: int)

  function Before(frame: Frame, date: int): Frame {
    if frame == [] then []
    else
      var last := frame[|frame| - 1];
      Before(frame[..|frame| - 1], date) + if last.date < date then [last] else []
  }

  function Tail(frame: Frame, n: nat): Frame {
    if |frame| > n then frame[|frame| - n..] else frame
  }

  function Appended(left: Frame, right: Frame): Frame
    requires left != [] && right != []
  {
    Tail(if LastDate(left) != LastDate(right) then left + right else left, MAX_CANDLES)
  }

  function Judge(existing: Option<Frame>, frame: Frame, step: int): Verdict
    requires step > 0 && (existing.Some? ==> existing.value != [])
  {
    if frame == [] then Rejected(0)
    else if |frame| >= FULL_DATAFRAME_THRESHOLD then Stored(frame)
    else if existing.None? then Rejected(ALL_CANDLES)
    else
      var ahead := frame[0].date - LastDate(existing.value);
      var kept := Before(existing.value, frame[0].date);
      if ahead > step then Rejected(ahead / step)
      else Stored(if kept == [] then frame else Appended(kept, frame))
  }

  // What is promised for a frame, given the series before and after it. A whole frame replaces the series; a partial
  // one needs a series that it joins. It then takes the place of the rows from its first date on, and the latest
  // 1500 rows are kept; but if the last row kept has the date of its last, the rows kept are all that stays.
  ghost predicate Answers(before: Option<Frame>, frame: Frame, step: int, added: bool, missing: int,
                          after: Option<Frame>)
    requires step > 0 && (before.Some? ==> before.value != [])
  {
    if |frame| >= 100 then added && missing == 0 && after == Some(frame)
    else if frame == [] then !added && missing == 0 && after == before
    else if before.None? then !added && missing == 1000 && after == None
    else
      var ahead, older := frame[0].date - LastDate(before.value), Before(before.value, frame[0].date);
      if ahead > step then !added && missing >= 1 && FloorOf(missing, ahead, step) && after == before
      else
        && added && missing == 0 && after.Some?
        && if older == [] || LastDate(older) != LastDate(frame) then IsLatest(after.value, older + frame, 1500)
           else IsLatest(after.value, older, 1500)
  }

  ghost predicate IsLatest(rows: Frame, all: Frame, most: nat) {
    && |rows| <= |all| && rows == all[|all| - |rows|..]
    && |rows| <= most && (|rows| < most ==> |rows| == |all|)
  }

  ghost predicate FloorOf(n: int, a: int, b: int) {
    n * b <= a < n * b + b
  }

  lemma JudgeAnswers(existing: Option<Frame>, frame: Frame, step: int)
    requires step > 0 && (existing.Some? ==> existing.value != [])
    ensures match Judge(existing, frame, step)
            case Stored(stored) => Answers(existing, frame, step, true, 0, Some(stored))
            case Rejected(n) => Answers(existing, frame, step, false, n, existing)
  {
    if existing.Some? && 0 < |frame| < FULL_DATAFRAME_THRESHOLD {
      var ahead := frame[0].date - LastDate(existing.value);
      if ahead > step {
        Floor(ahead, step);
      } else {
        var older := Before(existing.value, frame[0].date);
        TailIsLatest(older, MAX_CANDLES);
        TailIsLatest(older + frame, MAX_CANDLES);
      }
    }
  }

  lemma Floor(a: int, b: int)
    requires a > b > 0
    ensures a / b >= 1 && FloorOf(a / b, a, b)
  {
    assert a == b * (a / b) + a % b;
  }

  lemma TailIsLatest(all: Frame, n: nat)
    ensures IsLatest(Tail(all, n), all, n)
  {
  }

  // The rows kept are those of an older date, in their order.
  lemma BeforeIsFilter(a: Frame, row: Row, b: Frame, date: int)
    ensures Before([], date) == []
    ensures Before(a + [row] + b, date) == Before(a, date) + (if row.date < date then [row] else []) + Before(b, date)
  {
    BeforeConcat(a + [row], b, date);
    BeforeConcat(a, [row], date);
    assert [row][..0] == [];
    assert Before([row], date) == if row.date < date then [row] else [];
  }

  // ---- the program ----

  function Find(store: Store, producer: string, key: Key): Option<Series> {
    if producer in store then Get(store[producer], key) else None
  }

  function Put(store: Store, producer: string, key: Key, series: Series): Store {
    store[producer := (if producer in store then store[producer] else map[])[key := series]]
  }

  lemma FindPut(store: Store, producer: string, key: Key, series: Series)
    ensures forall p, k :: Find(Put(store, producer, key, series), p, k) ==
                           if p == producer && k == key then Some(series) else Find(store, p, k)
  {
  }

  method AppendCandles(left: Frame, right: Frame) returns (r: Frame)
    requires left != [] && right != []
    ensures r == Appended(left, right)
    ensures 0 < |r| <= MAX_CANDLES && LastDate(r) == LastDate(right)
    ensures Suffix(r, left + right) || (LastDate(left) == LastDate(right) && Suffix(r, left))
  {
    r := left;
    if LastDate(r) != LastDate(right) {
      r := r + right;
    }
    r := if |r| > MAX_CANDLES then r[|r| - MAX_CANDLES..] else r;
  }

  class DataProvider {
    const stepOf: string -> int
    const defaultTimeframe: string
    const defaultCandleType: string
    var producerPairs: Store

    // Nothing empty is ever stored, and timeframes have a length.
    ghost predicate Valid()
      reads this
    {
      && (forall p, k :: Find(producerPairs, p, k).Some? ==> Find(producerPairs, p, k).value.frame != [])
      && (forall timeframe :: stepOf(timeframe) > 0)
    }

    ghost function FrameAt(producer: string, key: Key): Option<Frame>
      reads this
    {
      if Find(producerPairs, producer, key).Some? then Some(Find(producerPairs, producer, key).value.frame) else None
    }

    constructor (stepOf: string -> int, defaultTimeframe: string, defaultCandleType: string)
      requires forall timeframe :: stepOf(timeframe) > 0
      ensures Valid() && producerPairs == map[] && this.stepOf == stepOf
    {
      this.stepOf := stepOf;
      this.defaultTimeframe, this.defaultCandleType := defaultTimeframe, defaultCandleType;
      producerPairs := map[];
    }

    method ReplaceExternalDf(producer: string, key: Key, frame: Frame, lastAnalyzed: Option<int>, now: int)
      modifies this
      ensures producerPairs == Put(old(producerPairs), producer, key, Series(frame, lastAnalyzed.GetOr(now)))
      ensures old(Valid()) && frame != [] ==> Valid()
    {
      FindPut(producerPairs, producer, key, Series(frame, lastAnalyzed.GetOr(now)));
      if producer !in producerPairs {
        producerPairs := producerPairs[producer := map[]];
      }
      var analyzed := if lastAnalyzed.None? then now else lastAnalyzed.value;
      producerPairs := producerPairs[producer := producerPairs[producer][key := Series(frame, analyzed)]];
    }

    // Every frame is answered as promised, and only its own series changes.
    method AddExternalDf(producer: string, key: Key, frame: Frame, lastAnalyzed: Option<int>, now: int)
      returns (added: bool, missing: int)
      requires Valid()
      modifies this
      ensures Valid()
      ensures Answers(old(FrameAt(producer, key)), frame, stepOf(key.timeframe), added, missing,
                      FrameAt(producer, key))
      ensures added ==> Find(producerPairs, producer, key).value.lastAnalyzed == lastAnalyzed.GetOr(now)
      ensures !added ==> producerPairs == old(producerPairs)
      ensures forall p, k :: p != producer || k != key ==> FrameAt(p, k) == old(FrameAt(p, k))
      ensures FrameAt(producer, key) == Received(old(FrameAt(producer, key)), frame, stepOf(key.timeframe))
    {
      JudgeAnswers(FrameAt(producer, key), frame, stepOf(key.timeframe));
      added, missing := AddFrame(producer, key, frame, lastAnalyzed, now);
      if added {
        FindPut(old(producerPairs), producer, key, Find(producerPairs, producer, key).value);
      }
    }

    // The branches of _add_external_df.
    method AddFrame(producer: string, key: Key, frame: Frame, lastAnalyzed: Option<int>, now: int)
      returns (added: bool, missing: int)
      requires Valid()
      modifies this
      ensures Valid()
      ensures match Judge(old(FrameAt(producer, key)), frame, stepOf(key.timeframe))
              case Stored(stored) =>
                && added && missing == 0
                && producerPairs ==
                   Put(old(producerPairs), producer, key, Series(stored, lastAnalyzed.GetOr(now)))
              case Rejected(n) => !added && missing == n && producerPairs == old(producerPairs)
    {
      if frame == [] {
        return false, 0;
      }
      if |frame| >= FULL_DATAFRAME_THRESHOLD {
        ReplaceExternalDf(producer, key, frame, lastAnalyzed, now);
        return true, 0;
      }
      if producer !in producerPairs || key !in producerPairs[producer] {
        return false, ALL_CANDLES;
      }
      var existing := producerPairs[producer][key].frame;
      assert Find(producerPairs, producer, key) == Some(producerPairs[producer][key]);
      var localLast, incomingFirst := LastDate(existing), frame[0].date;
      var kept := Before(existing, incomingFirst);
      if incomingFirst - localLast > stepOf(key.timeframe) {
        return false, (incomingFirst - localLast) / stepOf(key.timeframe);
      }
      var appended := frame;
      if kept != [] {
        appended := AppendCandles(kept, frame);
      }
      ReplaceExternalDf(producer, key, appended, lastAnalyzed, now);
      return true, 0;
    }

    // Frames of one series as they come in, from the first one on.
    method ReceiveAll(producer: string, key: Key, frames: seq<Frame>, now: int)
      requires Valid() && FrameAt(producer, key).None?
      modifies this
      ensures Valid() && FrameAt(producer, key) == StoredAfter(frames, stepOf(key.timeframe))
    {
      for i := 0 to |frames|
        invariant Valid() && FrameAt(producer, key) == StoredAfter(frames[..i], stepOf(key.timeframe))
      {
        assert frames[..i + 1][..i] == frames[..i];
        var added, missing := AddExternalDf(producer, key, frames[i], None, now);
      }
      assert frames[..|frames|] == frames;
    }

    method GetProducerDf(pair: string, timeframe: Option<string>, candleType: Option<string>, producer: string)
      returns (frame: Frame, lastAnalyzed: int)
      ensures var key := Key(pair, timeframe.GetOr(defaultTimeframe), candleType.GetOr(defaultCandleType));
              Series(frame, lastAnalyzed) == Find(producerPairs, producer, key).GetOr(Series([], 0))
    {
      var t := if timeframe.None? then defaultTimeframe else timeframe.value;
      var c := if candleType.None? then defaultCandleType else candleType.value;
      if producer !in producerPairs {
        return [], 0;
      }
      if Key(pair, t, c) !in producerPairs[producer] {
        return [], 0;
      }
      var series := producerPairs[producer][Key(pair, t, c)];
      return series.frame, series.lastAnalyzed;
    }
  }

  // ---- runs of frames into one series ----

  function StoredAfter(frames: seq<Frame>, step: int): (r: Option<Frame>)
    requires step > 0
    ensures r.Some? ==> r.value != []
  {
    if frames == [] then None
    else
      var before := StoredAfter(frames[..|frames| - 1], step);
      Received(before, frames[|frames| - 1], step)
  }

  function Received(before: Option<Frame>, frame: Frame, step: int): (r: Option<Frame>)
    requires step > 0 && (before.Some? ==> before.value != [])
    ensures r.Some? ==> r.value != []
  {
    match Judge(before, frame, step)
    case Stored(stored) => Some(stored)
    case Rejected(_) => before
  }

  // A series exists exactly when a whole frame has come in; the last one then is where it starts from.
  lemma {:induction false} SeriesExistsExactly(frames: seq<Frame>, step: int)
    requires step > 0
    ensures StoredAfter(frames, step).Some? <==> exists f :: f in frames && |f| >= 100
    ensures frames != [] && |frames[|frames| - 1]| >= 100 ==>
              StoredAfter(frames, step) == Some(frames[|frames| - 1])
  {
    if frames != [] {
      var rest, last := frames[..|frames| - 1], frames[|frames| - 1];
      SeriesExistsExactly(rest, step);
      assert frames == rest + [last];
      assert forall f :: f in frames <==> f in rest || f == last;
    }
  }

  // The log that forgets nothing but what an accepted frame says anew: its rows from the first date of the
  // frame on give way to the frame.
  function LogAfter(frames: seq<Frame>, step: int): Frame
    requires step > 0
  {
    if frames == [] then []
    else
      var rest, last := frames[..|frames| - 1], frames[|frames| - 1];
      if Judge(StoredAfter(rest, step), last, step).Stored?
      then Before(LogAfter(rest, step), last[0].date) + last
      else LogAfter(rest, step)
  }

  ghost predicate Suffix(s: Frame, t: Frame) {
    |s| <= |t| && t[|t| - |s|..] == s
  }

  // The last row of a frame is not older than its first.
  ghost predicate Forward(frame: Frame) {
    frame != [] ==> frame[0].date <= LastDate(frame)
  }

  lemma {:induction false} BeforeConcat(a: Frame, b: Frame, date: int)
    ensures Before(a + b, date) == Before(a, date) + Before(b, date)
  {
    if b == [] {
      assert a + b == a;
    } else {
      assert (a + b)[..|a + b| - 1] == a + b[..|b| - 1];
      BeforeConcat(a, b[..|b| - 1], date);
    }
  }

  lemma {:induction false} BeforeIsOlder(frame: Frame, date: int)
    ensures forall i :: 0 <= i < |Before(frame, date)| ==> Before(frame, date)[i].date < date
  {
    if frame != [] {
      BeforeIsOlder(frame[..|frame| - 1], date);
    }
  }

  lemma SuffixBefore(s: Frame, t: Frame, date: int)
    requires Suffix(s, t)
    ensures Suffix(Before(s, date), Before(t, date))
  {
    assert t == t[..|t| - |s|] + s;
    BeforeConcat(t[..|t| - |s|], s, date);
  }

  lemma SuffixAppend(s: Frame, t: Frame, u: Frame)
    requires Suffix(s, t)
    ensures Suffix(s + u, t + u)
  {
  }

  lemma SuffixTail(s: Frame, t: Frame, n: nat)
    requires Suffix(s, t)
    ensures Suffix(Tail(s, n), t)
  {
  }

  // A partial frame that ends on the date of the last row kept is not appended. It is lost for the series, unless
  // it only repeats what was kept.
  ghost predicate Loses(existing: Option<Frame>, frame: Frame) {
    && existing.Some? && 0 < |frame| < FULL_DATAFRAME_THRESHOLD
    && var kept := Before(existing.value, frame[0].date);
       kept != [] && LastDate(kept) == LastDate(frame) && !Suffix(Tail(kept, MAX_CANDLES), frame)
  }

  // With the stored series a suffix of the log, an accepted frame leaves it one exactly when it is not lost. A
  // frame whose last row is not older than its first never is.
  lemma LostExactly(existing: Option<Frame>, log: Frame, frame: Frame, step: int)
    requires step > 0 && (existing.Some? ==> existing.value != [] && Suffix(existing.value, log))
    requires Judge(existing, frame, step).Stored?
    ensures Suffix(Judge(existing, frame, step).frame, Before(log, frame[0].date) + frame) <==> !Loses(existing, frame)
    ensures Forward(frame) ==> !Loses(existing, frame)
  {
    var first := frame[0].date;
    AloneIsSuffix(Before(log, first), frame);
    if existing.Some? && Before(existing.value, first) != [] && |frame| < FULL_DATAFRAME_THRESHOLD {
      var kept := Before(existing.value, first);
      SuffixBefore(existing.value, log, first);
      BeforeIsOlder(existing.value, first);
      if LastDate(kept) != LastDate(frame) {
        AppendedIsSuffix(kept, Before(log, first), frame);
      } else {
        OlderRowsAreSuffix(Tail(kept, MAX_CANDLES), Before(log, first), frame);
      }
    }
  }

  lemma AppendedIsSuffix(kept: Frame, older: Frame, frame: Frame)
    requires kept != [] && frame != [] && Suffix(kept, older) && LastDate(kept) != LastDate(frame)
    ensures Suffix(Appended(kept, frame), older + frame)
  {
    SuffixAppend(kept, older, frame);
    SuffixTail(kept + frame, older + frame, MAX_CANDLES);
  }

  lemma AloneIsSuffix(older: Frame, frame: Frame)
    ensures Suffix(frame, older + frame)
  {
  }

  // Rows older than the first of a frame can only be a suffix within that frame.
  lemma OlderRowsAreSuffix(rows: Frame, older: Frame, frame: Frame)
    requires frame != [] && forall i :: 0 <= i < |rows| ==> rows[i].date < frame[0].date
    ensures Suffix(rows, older + frame) <==> Suffix(rows, frame)
  {
    var all := older + frame;
    if |frame| < |rows| <= |all| {
      assert all[|all| - |rows|..][|rows| - |frame|] == frame[0];
    } else if |rows| <= |frame| {
      assert all[|all| - |rows|..] == frame[|frame| - |rows|..];
    }
  }

  ghost predicate IsSuffixOfLog(frames: seq<Frame>, step: int)
    requires step > 0
  {
    StoredAfter(frames, step).Some? ==> Suffix(StoredAfter(frames, step).value, LogAfter(frames, step))
  }

  ghost predicate LosesAt(frames: seq<Frame>, n: nat, step: int)
    requires step > 0 && n < |frames|
  {
    var before := StoredAfter(frames[..n], step);
    Judge(before, frames[n], step).Stored? && Loses(before, frames[n])
  }

  // Over any run of frames, the stored series is at all times a suffix of the uncapped log exactly when none of
  // the accepted frames is lost.
  lemma {:induction false} StoredIsSuffixOfLog(frames: seq<Frame>, step: int)
    requires step > 0
    ensures (forall n :: 0 <= n <= |frames| ==> IsSuffixOfLog(frames[..n], step)) <==>
            (forall n :: 0 <= n < |frames| ==> !LosesAt(frames, n, step))
  {
    if forall n :: 0 <= n <= |frames| ==> IsSuffixOfLog(frames[..n], step) {
      forall n | 0 <= n < |frames| ensures !LosesAt(frames, n, step) {
        assert IsSuffixOfLog(frames[..n], step) && IsSuffixOfLog(frames[..n + 1], step);
        StepKeepsSuffixExactly(frames, n, step);
      }
    }
    if forall n :: 0 <= n < |frames| ==> !LosesAt(frames, n, step) {
      forall n | 0 <= n <= |frames| ensures IsSuffixOfLog(frames[..n], step) {
        SuffixUpTo(frames, n, step);
      }
    }
  }

  lemma StepKeepsSuffixExactly(frames: seq<Frame>, n: nat, step: int)
    requires step > 0 && n < |frames| && IsSuffixOfLog(frames[..n], step)
    ensures IsSuffixOfLog(frames[..n + 1], step) <==> !LosesAt(frames, n, step)
    ensures Forward(frames[n]) ==> !LosesAt(frames, n, step)
  {
    assert frames[..n + 1][..n] == frames[..n];
    var before := StoredAfter(frames[..n], step);
    if Judge(before, frames[n], step).Stored? {
      LostExactly(before, LogAfter(frames[..n], step), frames[n], step);
    }
  }

  lemma {:induction false} SuffixUpTo(frames: seq<Frame>, n: nat, step: int)
    requires step > 0 && n <= |frames| && forall i :: 0 <= i < n ==> !LosesAt(frames, i, step)
    ensures IsSuffixOfLog(frames[..n], step)
  {
    if n > 0 {
      SuffixUpTo(frames, n - 1, step);
      StepKeepsSuffixExactly(frames, n - 1, step);
    }
  }

  // In particular it always is one for frames none of which ends before it starts.
  lemma {:induction false} ForwardFramesAreKept(frames: seq<Frame>, n: nat, step: int)
    requires step > 0 && n <= |frames| && forall f :: f in frames ==> Forward(f)
    ensures IsSuffixOfLog(frames[..n], step)
  {
    if n > 0 {
      ForwardFramesAreKept(frames, n - 1, step);
      StepKeepsSuffixExactly(frames, n - 1, step);
    }
  }

  // A frame that runs backwards, and is lost: accepted, but the series stays as it was.
  lemma BackwardFrameIsLost(first: Row, newer: Row, again: Row, step: int)
    requires step > 0 && first.date == again.date < newer.date <= first.date + step && first != again
    ensures Judge(Some([first]), [newer, again], step) == Stored([first]) && Loses(Some([first]), [newer, again])
  {
    assert [first][..0] == [];
    assert Before([first], newer.date) == [first];
    assert [newer, again][1..] == [again];
  }

  // Appending keeps the window within its cap; only a whole frame sent at once may be longer.
  lemma {:induction false} WindowIsCapped(frames: seq<Frame>, step: int)
    requires step > 0 && StoredAfter(frames, step).Some?
    ensures |StoredAfter(frames, step).value| <= MAX_CANDLES || StoredAfter(frames, step).value in frames
  {
    var rest, last := frames[..|frames| - 1], frames[|frames| - 1];
    if Judge(StoredAfter(rest, step), last, step).Rejected? {
      WindowIsCapped(rest, step);
      assert forall f :: f in rest ==> f in frames;
    }
  }

  // ---- no gaps ----

  // In a frame by date, the older rows are a prefix.
  lemma {:induction false} BeforeIsPrefix(frame: Frame, date: int)
    requires forall i, j :: 0 <= i < j < |frame| ==> frame[i].date < frame[j].date
    ensures Before(frame, date) <= frame
    ensures |Before(frame, date)| < |frame| ==> frame[|Before(frame, date)|].date >= date
  {
    if frame != [] {
      var rest, last := frame[..|frame| - 1], frame[|frame| - 1];
      BeforeIsPrefix(rest, date);
      var n := |Before(rest, date)|;
      if last.date >= date {
        assert Before(frame, date) == Before(rest, date);
        assert n < |rest| ==> rest[n] == frame[n];
      } else {
        assert Before(rest, date) == rest;
        assert Before(frame, date) == frame;
      }
    }
  }

  // The rows kept end one candle before the frame.
  lemma KeptJoins(existing: Frame, frame: Frame, step: int, phase: int)
    requires step > 0 && existing != [] && frame != []
    requires Contiguous(existing, step) && OnGrid(existing, step, phase) && OnGrid(frame, step, phase)
    requires frame[0].date - LastDate(existing) <= step
    ensures var kept := Before(existing, frame[0].date);
            kept <= existing && (kept != [] ==> LastDate(kept) + step == frame[0].date)
  {
    var first := frame[0].date;
    var kept := Before(existing, first);
    Increasing(existing, step);
    BeforeIsPrefix(existing, first);
    BeforeIsOlder(existing, first);
    if kept != [] {
      var n := |kept|;
      assert existing[n - 1] == kept[n - 1] && kept[n - 1].date < first;
      assert n < |existing| ==> existing[n].date == existing[n - 1].date + step;
      assert first <= kept[n - 1].date + step;
      NextGridPoint(kept[n - 1].date, step, phase);
      SameGridPoint(first, kept[n - 1].date + step, step, phase);
    }
  }

  lemma TailKeeps(frame: Frame, step: int, phase: int, n: nat)
    requires step > 0 && Contiguous(frame, step) && OnGrid(frame, step, phase)
    ensures Contiguous(Tail(frame, n), step) && OnGrid(Tail(frame, n), step, phase)
  {
  }

  lemma JudgeKeepsContiguous(existing: Option<Frame>, frame: Frame, step: int, phase: int)
    requires step > 0 && (existing.Some? ==> existing.value != [])
    requires existing.Some? ==> Contiguous(existing.value, step) && OnGrid(existing.value, step, phase)
    requires Contiguous(frame, step) && OnGrid(frame, step, phase) && Judge(existing, frame, step).Stored?
    ensures var stored := Judge(existing, frame, step).frame;
            Contiguous(stored, step) && OnGrid(stored, step, phase)
  {
    if |frame| < FULL_DATAFRAME_THRESHOLD {
      KeptJoins(existing.value, frame, step, phase);
      var kept := Before(existing.value, frame[0].date);
      assert Contiguous(kept, step) && OnGrid(kept, step, phase);
      if kept != [] {
        JoinIsContiguous(kept, frame, step);
        TailKeeps(kept + frame, step, phase, MAX_CANDLES);
        TailKeeps(kept, step, phase, MAX_CANDLES);
      }
    }
  }

  // As long as every frame is contiguous on one grid, so is the stored series: no gap and no date twice.
  lemma {:induction false} StoreStaysContiguous(frames: seq<Frame>, step: int, phase: int)
    requires step > 0 && forall f :: f in frames ==> Contiguous(f, step) && OnGrid(f, step, phase)
    ensures StoredAfter(frames, step).Some? ==>
              var stored := StoredAfter(frames, step).value;
              && Contiguous(stored, step) && OnGrid(stored, step, phase)
              && forall i, j :: 0 <= i < j < |stored| ==> stored[i].date < stored[j].date
  {
    if frames != [] {
      var rest, last := frames[..|frames| - 1], frames[|frames| - 1];
      StoreStaysContiguous(rest, step, phase);
      if Judge(StoredAfter(rest, step), last, step).Stored? {
        JudgeKeepsContiguous(StoredAfter(rest, step), last, step, phase);
      }
      if StoredAfter(frames, step).Some? {
        Increasing(StoredAfter(frames, step).value, step);
      }
    }
  }

  // After a rejection with `n` candles missing, a frame reaching `n` candles further back is accepted; one
  // reaching `n - 1` candles further back is, exactly when the gap is a whole number of candles.
  lemma RejectionTellsHowFarBack(existing: Frame, frame: Frame, step: int, again: Frame)
    requires step > 0 && existing != [] && 0 < |frame| < FULL_DATAFRAME_THRESHOLD && again != []
    requires Judge(Some(existing), frame, step).Rejected?
    ensures var n := Judge(Some(existing), frame, step).missing;
            && n >= 1
            && (again[0].date == frame[0].date - n * step ==> Judge(Some(existing), again, step).Stored?)
            && (again[0].date == frame[0].date - (n - 1) * step && |again| < FULL_DATAFRAME_THRESHOLD ==>
                  (Judge(Some(existing), again, step).Stored? <==>
                   (frame[0].date - LastDate(existing)) % step == 0))
  {
    var ahead := frame[0].date - LastDate(existing);
    var n := ahead / step;
    assert ahead == n * step + ahead % step;
    assert (n - 1) * step == n * step - step;
    AtLeastOneStep(n - 1, step);
  }
}
