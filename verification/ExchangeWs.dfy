/**
 The watcher protocol of freqtrade/exchange/exchange_ws.py. The bot thread and the event loop share five
 collections under a lock; the loop runs one piece of work at a time, but the bot thread may act between any
 two lock sections. A run is a sequence of such sections.
 */
module ExchangeWs {
  datatype Key = Key(pair: string, timeframe: string, candleType: string)

  // A watch task: created, about to look at the watch list, suspended in watch_ohlcv, about to store a
  // refresh time, about to leave through `finally`, or over with its stop callback still to come.
  datatype Phase = NotStarted | Checking | Waiting | Refreshing | Leaving | Finished

  datatype Task = Task(key: Key, phase: Phase)

  // What the event loop is in the middle of.
  datatype Work =
    | Idle
    | Round(snapshot: seq<Key>, next: nat)
    | RoundAdded(snapshot: seq<Key>, next: nat)
    | RoundCreated(snapshot: seq<Key>, next: nat, id: nat)
    | Running(id: nat)
    | StopBegun(id: nat)
    | StopForgotten(id: nat)
    | StopReleased(key: Key)

  datatype State = State(
    watching: set<Key>,
    scheduled: set<Key>,
    background: set<nat>,
    lastRefresh: map<Key, int>,
    lastRequest: map<Key, int>,
    tasks: map<nat, Task>, // the tasks whose stop callback has not released their key yet
    nextId: nat,
    work: Work)

  const Initial := State({}, {}, {}, map[], map[], map[], 0, Idle)

  // The lock sections of the bot thread: schedule_ohlcv, cleanup_expired, cleanup.
  datatype BotStep = Request(key: Key, now: int) | Expire(now: int) | Clear

  // The sections of _schedule_while_true.
  datatype RoundStep = BeginRound(order: seq<Key>) | CheckKey | CreateTask | RegisterTask | EndRound

  // The sections of _continuously_async_watch_ohlcv. `Fail` is any exception or cancellation in watch_ohlcv.
  datatype WatchStep =
    | Start(id: nat)
    | CancelUnstarted(id: nat)
    | CheckWatching
    | Resume(id: nat)
    | Fail(id: nat)
    | Refresh(now: int)
    | Leave

  // The sections of _continuous_stopped, with _pop_history.
  datatype StopStep = BeginStop(id: nat) | Forget | Release | PopHistory

  datatype Step =
    | Bot(bot: BotStep)
    | Scheduling(round: RoundStep)
    | Watching(watch: WatchStep)
    | Stopping(stop: StopStep)

  // Keys not requested within their timeframe plus twenty seconds.
  function Expired(s: State, seconds: string -> int, now: int): set<Key> {
    set k | k in s.watching && Stale(s.lastRequest, k, seconds, now)
  }

  predicate Stale(lastRequest: map<Key, int>, k: Key, seconds: string -> int, now: int) {
    var last := if k in lastRequest then lastRequest[k] else 0;
    last > 0 && now - last > (seconds(k.timeframe) + 20) * 1000
  }

  predicate HasPhase(s: State, id: nat, phase: Phase) {
    id in s.tasks && s.tasks[id].phase == phase
  }

  predicate Lists(order: seq<Key>, keys: set<Key>) {
    && (forall i, j :: 0 <= i < j < |order| ==> order[i] != order[j])
    && (forall k :: k in keys ==> k in order)
    && (forall i :: 0 <= i < |order| ==> order[i] in keys)
  }

  ghost predicate RoundEnabled(s: State, step: RoundStep) {
    match step
    case BeginRound(order) => s.work.Idle? && Lists(order, s.watching)
    case CheckKey => s.work.Round? && s.work.next < |s.work.snapshot|
    case CreateTask => s.work.RoundAdded? && s.work.next < |s.work.snapshot|
    case RegisterTask => s.work.RoundCreated?
    case EndRound => s.work.Round? && s.work.next >= |s.work.snapshot|
  }

  ghost predicate WatchEnabled(s: State, step: WatchStep) {
    match step
    case Start(id) => s.work.Idle? && HasPhase(s, id, NotStarted)
    case CancelUnstarted(id) => s.work.Idle? && HasPhase(s, id, NotStarted)
    case CheckWatching => s.work.Running? && HasPhase(s, s.work.id, Checking)
    case Resume(id) => s.work.Idle? && HasPhase(s, id, Waiting)
    case Fail(id) => s.work.Idle? && HasPhase(s, id, Waiting)
    case Refresh(_) => s.work.Running? && HasPhase(s, s.work.id, Refreshing)
    case Leave => s.work.Running? && HasPhase(s, s.work.id, Leaving)
  }

  ghost predicate StopEnabled(s: State, step: StopStep) {
    match step
    case BeginStop(id) => s.work.Idle? && HasPhase(s, id, Finished)
    case Forget => s.work.StopBegun?
    case Release => s.work.StopForgotten? && s.work.id in s.tasks
    case PopHistory => s.work.StopReleased?
  }

  ghost predicate Enabled(s: State, step: Step) {
    match step
    case Bot(_) => true
    case Scheduling(r) => RoundEnabled(s, r)
    case Watching(w) => WatchEnabled(s, w)
    case Stopping(c) => StopEnabled(s, c)
  }

  ghost function ApplyBot(s: State, step: BotStep, seconds: string -> int): State {
    match step
    case Request(key, now) => s.(watching := s.watching + {key}, lastRequest := s.lastRequest[key := now])
    case Expire(now) =>
      var expired := Expired(s, seconds, now);
      s.(watching := s.watching - expired, lastRefresh := s.lastRefresh - expired)
    case Clear => s.(watching := {})
  }

  ghost function ApplyRound(s: State, step: RoundStep): State
    requires RoundEnabled(s, step)
  {
    match step
    case BeginRound(order) => s.(work := Round(order, 0))
    case CheckKey =>
      var Round(order, n) := s.work;
      if order[n] in s.scheduled then s.(work := Round(order, n + 1))
      else s.(scheduled := s.scheduled + {order[n]}, work := RoundAdded(order, n))
    case CreateTask =>
      var RoundAdded(order, n) := s.work;
      s.(tasks := s.tasks[s.nextId := Task(order[n], NotStarted)], nextId := s.nextId + 1,
         work := RoundCreated(order, n, s.nextId))
    case RegisterTask =>
      var RoundCreated(order, n, id) := s.work;
      s.(background := s.background + {id}, work := Round(order, n + 1))
    case EndRound => s.(work := Idle)
  }

  ghost function InPhase(s: State, id: nat, phase: Phase, work: Work): State
    requires id in s.tasks
  {
    s.(tasks := s.tasks[id := s.tasks[id].(phase := phase)], work := work)
  }

  // The task a step is about, where it goes, and what the loop does next.
  ghost function Target(s: State, step: WatchStep): (nat, Phase, Work)
    requires WatchEnabled(s, step)
  {
    match step
    case Start(id) => (id, Checking, Running(id))
    case CancelUnstarted(id) => (id, Finished, Idle)
    case CheckWatching =>
      if s.tasks[s.work.id].key in s.watching then (s.work.id, Waiting, Idle) else (s.work.id, Leaving, s.work)
    case Resume(id) => (id, Refreshing, Running(id))
    case Fail(id) => (id, Leaving, Running(id))
    case Refresh(_) => (s.work.id, Checking, s.work)
    case Leave => (s.work.id, Finished, Idle)
  }

  ghost function ApplyWatch(s: State, step: WatchStep): State
    requires WatchEnabled(s, step)
  {
    var (id, phase, work) := Target(s, step);
    var moved := InPhase(s, id, phase, work);
    if step.Refresh? then moved.(lastRefresh := s.lastRefresh[s.tasks[id].key := step.now])
    else if step.Leave? then moved.(watching := s.watching - {s.tasks[id].key})
    else moved
  }

  ghost function ApplyStop(s: State, step: StopStep): State
    requires StopEnabled(s, step)
  {
    match step
    case BeginStop(id) => s.(work := StopBegun(id))
    case Forget => s.(background := s.background - {s.work.id}, work := StopForgotten(s.work.id))
    case Release =>
      var key := s.tasks[s.work.id].key;
      s.(scheduled := s.scheduled - {key}, tasks := s.tasks - {s.work.id}, work := StopReleased(key))
    case PopHistory => s.(lastRefresh := s.lastRefresh - {s.work.key}, work := Idle)
  }

  ghost function Apply(s: State, step: Step, seconds: string -> int): State
    requires Enabled(s, step)
  {
    match step
    case Bot(b) => ApplyBot(s, b, seconds)
    case Scheduling(r) => ApplyRound(s, r)
    case Watching(w) => ApplyWatch(s, w)
    case Stopping(c) => ApplyStop(s, c)
  }

  // ---- the invariant ----

  ghost function TaskKeys(s: State): set<Key> {
    set id | id in s.tasks :: s.tasks[id].key
  }

  ghost predicate OneTaskPerKey(s: State) {
    forall a, b :: a in s.tasks && b in s.tasks && s.tasks[a].key == s.tasks[b].key ==> a == b
  }

  // The key between being marked scheduled and having its task.
  ghost function BeingScheduled(s: State): set<Key> {
    if s.work.RoundAdded? && s.work.next < |s.work.snapshot| then {s.work.snapshot[s.work.next]} else {}
  }

  ghost function BeingPopped(s: State): set<Key> {
    if s.work.StopReleased? then {s.work.key} else {}
  }

  ghost predicate WorkFits(s: State) {
    match s.work
    case Idle => true
    case Round(order, n) => n <= |order| && forall i :: 0 <= i < n ==> order[i] in s.scheduled
    case RoundAdded(order, n) => n < |order| && forall i :: 0 <= i < n ==> order[i] in s.scheduled
    case RoundCreated(order, n, id) =>
      n < |order| && HasPhase(s, id, NotStarted) && s.tasks[id].key == order[n] &&
      forall i :: 0 <= i < n ==> order[i] in s.scheduled
    case Running(id) => id in s.tasks && s.tasks[id].phase in {Checking, Refreshing, Leaving}
    case StopBegun(id) => HasPhase(s, id, Finished)
    case StopForgotten(id) => HasPhase(s, id, Finished)
    case StopReleased(key) => key !in s.scheduled
  }

  // Only the task the loop is running is between two of its lock sections.
  ghost predicate OnlyRunningActive(s: State) {
    forall id :: id in s.tasks && s.tasks[id].phase in {Checking, Refreshing, Leaving} ==> s.work == Running(id)
  }

  // A task is held in the background set from its registration until its stop callback forgets it.
  ghost predicate BackgroundExact(s: State) {
    forall id :: id in s.background <==>
      id in s.tasks && !(s.work.RoundCreated? && s.work.id == id) && !(s.work.StopForgotten? && s.work.id == id)
  }

  ghost predicate Inv(s: State) {
    && OneTaskPerKey(s)
    && s.scheduled == TaskKeys(s) + BeingScheduled(s)
    && TaskKeys(s) !! BeingScheduled(s)
    && s.lastRefresh.Keys <= s.scheduled + BeingPopped(s)
    && (forall id :: id in s.tasks ==> id < s.nextId)
    && WorkFits(s) && OnlyRunningActive(s) && BackgroundExact(s)
  }

  lemma InitialInv()
    ensures Inv(Initial)
  {
  }

  lemma BotKeepsInv(s: State, step: BotStep, seconds: string -> int)
    requires Inv(s)
    ensures Inv(ApplyBot(s, step, seconds))
  {
    assert TaskKeys(ApplyBot(s, step, seconds)) == TaskKeys(s);
  }

  lemma RoundKeepsInv(s: State, step: RoundStep)
    requires Inv(s) && RoundEnabled(s, step)
    ensures Inv(ApplyRound(s, step))
  {
    match step {
      case CheckKey => CheckKeepsInv(s);
      case CreateTask => CreateKeepsInv(s);
      case _ => assert TaskKeys(ApplyRound(s, step)) == TaskKeys(s);
    }
  }

  lemma CheckKeepsInv(s: State)
    requires Inv(s) && RoundEnabled(s, CheckKey)
    ensures Inv(ApplyRound(s, CheckKey))
  {
    assert TaskKeys(ApplyRound(s, CheckKey)) == TaskKeys(s);
  }

  lemma CreateKeepsInv(s: State)
    requires Inv(s) && RoundEnabled(s, CreateTask)
    ensures Inv(ApplyRound(s, CreateTask))
  {
    CreatedTaskKeys(s);
    CreatedTaskIsAlone(s);
  }

  lemma CreatedTaskIsAlone(s: State)
    requires Inv(s) && RoundEnabled(s, CreateTask)
    ensures OneTaskPerKey(ApplyRound(s, CreateTask))
  {
    forall a | a in s.tasks ensures s.tasks[a].key != s.work.snapshot[s.work.next] {
      assert s.tasks[a].key in TaskKeys(s);
    }
  }

  lemma CreatedTaskKeys(s: State)
    requires Inv(s) && RoundEnabled(s, CreateTask)
    ensures TaskKeys(ApplyRound(s, CreateTask)) == TaskKeys(s) + {s.work.snapshot[s.work.next]}
  {
    var t := ApplyRound(s, CreateTask);
    var key := s.work.snapshot[s.work.next];
    forall k ensures k in TaskKeys(t) <==> k in TaskKeys(s) || k == key {
      if k in TaskKeys(s) {
        var a :| a in s.tasks && s.tasks[a].key == k;
        assert a in t.tasks && t.tasks[a].key == k;
      }
      assert t.tasks[s.nextId].key == key;
    }
  }

  lemma WatchKeepsInv(s: State, step: WatchStep)
    requires Inv(s) && WatchEnabled(s, step)
    ensures Inv(ApplyWatch(s, step))
  {
    var (id, phase, work) := Target(s, step);
    MoveKeepsInv(s, id, phase, work);
    var moved := InPhase(s, id, phase, work);
    assert s.tasks[id].key in TaskKeys(s);
    assert TaskKeys(ApplyWatch(s, step)) == TaskKeys(moved);
  }

  // The life of a task, one section after the other. It goes on only as long as its key is watched, refreshes only
  // its own key, which is scheduled, takes it off the watch list when it leaves, and never touches the schedule nor
  // another task.
  ghost predicate OnlyOwnKey(s: State, t: State, step: WatchStep)
    requires WatchEnabled(s, step)
  {
    match step
    case Start(id) => Moved(s, t, id, Checking) && t.watching == s.watching && t.lastRefresh == s.lastRefresh
    case CancelUnstarted(id) =>
      Moved(s, t, id, Finished) && t.watching == s.watching && t.lastRefresh == s.lastRefresh
    case CheckWatching =>
      var id := s.work.id;
      && Moved(s, t, id, if s.tasks[id].key in s.watching then Waiting else Leaving)
      && t.watching == s.watching && t.lastRefresh == s.lastRefresh
    case Resume(id) => Moved(s, t, id, Refreshing) && t.watching == s.watching && t.lastRefresh == s.lastRefresh
    case Fail(id) => Moved(s, t, id, Leaving) && t.watching == s.watching && t.lastRefresh == s.lastRefresh
    case Refresh(now) =>
      var id := s.work.id;
      && Moved(s, t, id, Checking) && t.watching == s.watching
      && t.lastRefresh == s.lastRefresh[s.tasks[id].key := now] && s.tasks[id].key in t.scheduled
    case Leave =>
      var id := s.work.id;
      && Moved(s, t, id, Finished) && t.watching == s.watching - {s.tasks[id].key}
      && t.lastRefresh == s.lastRefresh
  }

  ghost predicate Moved(s: State, t: State, id: nat, phase: Phase) {
    && id in s.tasks && t.tasks == s.tasks[id := Task(s.tasks[id].key, phase)]
    && t.work == (if phase in {Checking, Refreshing, Leaving} then Running(id) else Idle)
    && t.scheduled == s.scheduled && t.lastRequest == s.lastRequest && TaskKeys(t) == TaskKeys(s)
  }

  lemma WatchesOwnKey(s: State, step: WatchStep)
    requires Inv(s) && WatchEnabled(s, step)
    ensures OnlyOwnKey(s, ApplyWatch(s, step), step)
  {
    var (id, phase, work) := Target(s, step);
    assert s.tasks[id].key in TaskKeys(s);
    MovesTask(s, ApplyWatch(s, step), id, phase);
  }

  lemma MovesTask(s: State, t: State, id: nat, phase: Phase)
    requires id in s.tasks && t.tasks == s.tasks[id := s.tasks[id].(phase := phase)]
    requires t.work == if phase in {Checking, Refreshing, Leaving} then Running(id) else Idle
    requires t.scheduled == s.scheduled && t.lastRequest == s.lastRequest
    ensures Moved(s, t, id, phase)
  {
    SameTaskKeys(s, t);
  }

  lemma MoveKeepsInv(s: State, id: nat, phase: Phase, work: Work)
    requires Inv(s) && id in s.tasks
    requires s.work == Idle || s.work == Running(id)
    requires work == Idle || work == Running(id)
    requires phase in {Checking, Refreshing, Leaving} <==> work == Running(id)
    ensures Inv(InPhase(s, id, phase, work))
  {
    SameTaskKeys(s, InPhase(s, id, phase, work));
  }

  lemma SameTaskKeys(s: State, t: State)
    requires s.tasks.Keys == t.tasks.Keys && forall a :: a in s.tasks ==> t.tasks[a].key == s.tasks[a].key
    ensures TaskKeys(s) == TaskKeys(t)
  {
    forall k ensures k in TaskKeys(t) <==> k in TaskKeys(s) {
      if k in TaskKeys(s) {
        var a :| a in s.tasks && s.tasks[a].key == k;
        assert t.tasks[a].key == k;
      }
    }
  }

  lemma StopKeepsInv(s: State, step: StopStep)
    requires Inv(s) && StopEnabled(s, step)
    ensures Inv(ApplyStop(s, step))
  {
    if step.Release? {
      ReleaseKeepsInv(s);
    } else {
      assert TaskKeys(ApplyStop(s, step)) == TaskKeys(s);
    }
  }

  lemma ReleaseKeepsInv(s: State)
    requires Inv(s) && StopEnabled(s, Release)
    ensures Inv(ApplyStop(s, Release))
  {
    var t := ApplyStop(s, Release);
    var key := s.tasks[s.work.id].key;
    assert key in TaskKeys(s);
    forall k ensures k in TaskKeys(t) <==> k in TaskKeys(s) && k != key {
      if k in TaskKeys(s) && k != key {
        var a :| a in s.tasks && s.tasks[a].key == k;
        assert a in t.tasks && t.tasks[a].key == k;
      }
    }
  }

  lemma StepKeepsInv(s: State, step: Step, seconds: string -> int)
    requires Inv(s) && Enabled(s, step)
    ensures Inv(Apply(s, step, seconds))
  {
    match step {
      case Bot(b) => BotKeepsInv(s, b, seconds);
      case Scheduling(r) => RoundKeepsInv(s, r);
      case Watching(w) => WatchKeepsInv(s, w);
      case Stopping(c) => StopKeepsInv(s, c);
    }
  }

  // ---- runs ----

  // All steps can be taken one after the other from `s`.
  ghost predicate IsRun(s: State, steps: seq<Step>, seconds: string -> int)
    decreases |steps|
  {
    steps == [] || (Enabled(s, steps[0]) && IsRun(Apply(s, steps[0], seconds), steps[1..], seconds))
  }

  ghost function After(s: State, steps: seq<Step>, seconds: string -> int): State
    requires IsRun(s, steps, seconds)
    decreases |steps|
  {
    if steps == [] then s else After(Apply(s, steps[0], seconds), steps[1..], seconds)
  }

  lemma {:induction false} RunKeepsInv(s: State, steps: seq<Step>, seconds: string -> int)
    requires Inv(s) && IsRun(s, steps, seconds)
    ensures Inv(After(s, steps, seconds))
    decreases |steps|
  {
    if steps != [] {
      StepKeepsInv(s, steps[0], seconds);
      RunKeepsInv(Apply(s, steps[0], seconds), steps[1..], seconds);
    }
  }

  // Under every interleaving the scheduled set is exactly the keys of the tasks not yet released, plus the
  // key being scheduled right now, and no two of those tasks share a key.
  lemma ScheduledExactly(steps: seq<Step>, seconds: string -> int)
    requires IsRun(Initial, steps, seconds)
    ensures var s := After(Initial, steps, seconds);
            && (forall k :: k in s.scheduled <==>
                  (exists id :: id in s.tasks && s.tasks[id].key == k) || k in BeingScheduled(s))
            && (forall a, b :: a in s.tasks && b in s.tasks && a != b ==> s.tasks[a].key != s.tasks[b].key)
  {
    InitialInv();
    RunKeepsInv(Initial, steps, seconds);
    var s := After(Initial, steps, seconds);
    forall k ensures k in TaskKeys(s) <==> exists id :: id in s.tasks && s.tasks[id].key == k {
    }
  }

  // Unless a stop callback is between its two last sections, every refresh time belongs to a scheduled key.
  lemma FreshnessBelongsToWatchers(steps: seq<Step>, seconds: string -> int)
    requires IsRun(Initial, steps, seconds)
    ensures var s := After(Initial, steps, seconds);
            forall k :: k in s.lastRefresh ==> k in s.scheduled || s.work == StopReleased(k)
  {
    InitialInv();
    RunKeepsInv(Initial, steps, seconds);
  }

  // What the loop is doing it can go on with; when it is doing nothing, every task can move.
  ghost predicate CanGoOn(s: State) {
    match s.work
    case Idle =>
      forall id :: id in s.tasks ==>
        WatchEnabled(s, Start(id)) || WatchEnabled(s, Resume(id)) || StopEnabled(s, BeginStop(id))
    case Round(_, _) => RoundEnabled(s, CheckKey) || RoundEnabled(s, EndRound)
    case RoundAdded(_, _) => RoundEnabled(s, CreateTask)
    case RoundCreated(_, _, _) => RoundEnabled(s, RegisterTask)
    case Running(_) => WatchEnabled(s, CheckWatching) || WatchEnabled(s, Refresh(0)) || WatchEnabled(s, Leave)
    case StopBegun(_) => StopEnabled(s, Forget)
    case StopForgotten(_) => StopEnabled(s, Release)
    case StopReleased(_) => StopEnabled(s, PopHistory)
  }

  // The loop never gets stuck, under any interleaving.
  lemma NeverStuck(steps: seq<Step>, seconds: string -> int)
    requires IsRun(Initial, steps, seconds)
    ensures CanGoOn(After(Initial, steps, seconds))
  {
    InitialInv();
    RunKeepsInv(Initial, steps, seconds);
    InvCanGoOn(After(Initial, steps, seconds));
  }

  lemma InvCanGoOn(s: State)
    requires Inv(s)
    ensures CanGoOn(s)
  {
    if s.work.Idle? {
      forall id | id in s.tasks
        ensures WatchEnabled(s, Start(id)) || WatchEnabled(s, Resume(id)) || StopEnabled(s, BeginStop(id))
      {
        assert s.tasks[id].phase !in {Checking, Refreshing, Leaving};
      }
    }
  }

  // ---- requested keys ----

  // A step that leaves a key wanted that was requested at `since`: not the end of the program, not a cleanup after
  // its deadline, and not the end of its own watcher.
  ghost predicate LeavesWanted(s: State, step: Step, key: Key, since: int, seconds: string -> int)
    requires Enabled(s, step)
  {
    match step
    case Bot(Request(k, now)) => k == key ==> now >= since
    case Bot(Expire(now)) => now <= since + (seconds(key.timeframe) + 20) * 1000
    case Bot(Clear) => false
    case Watching(Leave) => s.tasks[s.work.id].key != key
    case _ => true
  }

  ghost predicate StaysWanted(s: State, steps: seq<Step>, key: Key, since: int, seconds: string -> int)
    requires IsRun(s, steps, seconds)
    decreases |steps|
  {
    steps == [] ||
    (LeavesWanted(s, steps[0], key, since, seconds) &&
     StaysWanted(Apply(s, steps[0], seconds), steps[1..], key, since, seconds))
  }

  ghost predicate Wanted(s: State, key: Key, since: int) {
    key in s.watching && key in s.lastRequest && s.lastRequest[key] >= since
  }

  lemma StepKeepsWanted(s: State, step: Step, key: Key, since: int, seconds: string -> int)
    requires Inv(s) && Enabled(s, step) && Wanted(s, key, since) && LeavesWanted(s, step, key, since, seconds)
    ensures Wanted(Apply(s, step, seconds), key, since)
  {
    if step.Watching? {
      WatchesOwnKey(s, step.watch);
    }
  }

  lemma {:induction false} RunKeepsWanted(s: State, steps: seq<Step>, key: Key, since: int, seconds: string -> int)
    requires Inv(s) && IsRun(s, steps, seconds) && Wanted(s, key, since) && StaysWanted(s, steps, key, since, seconds)
    ensures Wanted(After(s, steps, seconds), key, since)
    decreases |steps|
  {
    if steps != [] {
      StepKeepsInv(s, steps[0], seconds);
      StepKeepsWanted(s, steps[0], key, since, seconds);
      RunKeepsWanted(Apply(s, steps[0], seconds), steps[1..], key, since, seconds);
    }
  }

  // A key that is requested is on the watch list at once and stays there until its time is over, the program ends or
  // its own watcher leaves. So it is part of the next round.
  lemma RequestedKeyIsWatched(s: State, key: Key, since: int, steps: seq<Step>, seconds: string -> int)
    requires Inv(s)
    requires var asked := Apply(s, Bot(Request(key, since)), seconds);
             IsRun(asked, steps, seconds) && StaysWanted(asked, steps, key, since, seconds)
    ensures var later := After(Apply(s, Bot(Request(key, since)), seconds), steps, seconds);
            && key in later.watching
            && forall order :: RoundEnabled(later, BeginRound(order)) ==> key in order
  {
    StepKeepsInv(s, Bot(Request(key, since)), seconds);
    RunKeepsWanted(Apply(s, Bot(Request(key, since)), seconds), steps, key, since, seconds);
  }

  // ---- a whole scheduling round ----

  ghost predicate InRound(s: State, order: seq<Key>) {
    match s.work
    case Round(o, _) => o == order
    case RoundAdded(o, _) => o == order
    case RoundCreated(o, _, _) => o == order
    case _ => false
  }

  ghost predicate WithinRound(steps: seq<Step>) {
    forall i :: 0 <= i < |steps| ==> steps[i] != Scheduling(EndRound)
  }

  // While a round is on, no task moves; the tasks that appear are new ones.
  ghost predicate TasksStand(s: State, t: State) {
    && (forall id :: id in s.tasks ==> id in t.tasks && t.tasks[id] == s.tasks[id])
    && (forall id :: id in t.tasks && id !in s.tasks ==> t.tasks[id].phase == NotStarted)
  }

  lemma {:induction false} RoundHoldsTasks(s: State, steps: seq<Step>, order: seq<Key>, seconds: string -> int)
    requires Inv(s) && IsRun(s, steps, seconds) && InRound(s, order) && WithinRound(steps)
    ensures InRound(After(s, steps, seconds), order) && TasksStand(s, After(s, steps, seconds))
    decreases |steps|
  {
    if steps != [] {
      var t := Apply(s, steps[0], seconds);
      StepKeepsInv(s, steps[0], seconds);
      StepHoldsTasks(s, steps[0], order, seconds);
      assert forall i :: 0 <= i < |steps[1..]| ==> steps[1..][i] == steps[i + 1];
      RoundHoldsTasks(t, steps[1..], order, seconds);
    }
  }

  lemma StepHoldsTasks(s: State, step: Step, order: seq<Key>, seconds: string -> int)
    requires Inv(s) && Enabled(s, step) && InRound(s, order) && step != Scheduling(EndRound)
    ensures InRound(Apply(s, step, seconds), order) && TasksStand(s, Apply(s, step, seconds))
  {
  }

  // However the bot thread interferes, a completed round leaves every key of its snapshot scheduled and owned
  // by a task. In particular a key that was requested again between the end of its old task and the stop
  // callback of that task, and so fell out of the schedule, gets a live watcher from the next round.
  lemma RoundSchedulesSnapshot(s: State, order: seq<Key>, steps: seq<Step>, seconds: string -> int)
    requires Inv(s) && RoundEnabled(s, BeginRound(order))
    requires var begun := ApplyRound(s, BeginRound(order));
             && IsRun(begun, steps, seconds) && WithinRound(steps)
             && RoundEnabled(After(begun, steps, seconds), EndRound)
    ensures var ended := ApplyRound(After(ApplyRound(s, BeginRound(order)), steps, seconds), EndRound);
            && (forall k :: k in s.watching ==> k in ended.scheduled)
            && (forall k :: k in s.watching && (forall id :: HasPhase(s, id, Finished) ==> s.tasks[id].key != k) ==>
                  exists id :: id in ended.tasks && ended.tasks[id].key == k && ended.tasks[id].phase != Finished)
  {
    var begun := ApplyRound(s, BeginRound(order));
    RoundKeepsInv(s, BeginRound(order));
    RoundHoldsTasks(begun, steps, order, seconds);
    RunKeepsInv(begun, steps, seconds);
    var last := After(begun, steps, seconds);
    RoundKeepsInv(last, EndRound);
    var ended := ApplyRound(last, EndRound);
    forall k | k in s.watching
      ensures k in ended.scheduled
      ensures (forall id :: HasPhase(s, id, Finished) ==> s.tasks[id].key != k) ==>
              exists id :: id in ended.tasks && ended.tasks[id].key == k && ended.tasks[id].phase != Finished
    {
      var i :| 0 <= i < |order| && order[i] == k;
      assert last.work.Round? && order[i] in last.scheduled;
      assert k in TaskKeys(ended);
      var id :| id in ended.tasks && ended.tasks[id].key == k;
      assert id in last.tasks && last.tasks[id] == ended.tasks[id];
      assert id in begun.tasks ==> HasPhase(s, id, begun.tasks[id].phase) && s.tasks[id].key == k;
    }
  }

  // From the request to the watcher: however the two threads interleave, the first complete round after the request
  // leaves the key scheduled.
  lemma RequestedKeyIsScheduled(s: State, key: Key, since: int, steps: seq<Step>, order: seq<Key>, round: seq<Step>,
                                seconds: string -> int)
    requires Inv(s)
    requires var asked := Apply(s, Bot(Request(key, since)), seconds);
             && IsRun(asked, steps, seconds) && StaysWanted(asked, steps, key, since, seconds)
             && var later := After(asked, steps, seconds);
                && RoundEnabled(later, BeginRound(order))
                && var begun := ApplyRound(later, BeginRound(order));
                   && IsRun(begun, round, seconds) && WithinRound(round)
                   && RoundEnabled(After(begun, round, seconds), EndRound)
    ensures var later := After(Apply(s, Bot(Request(key, since)), seconds), steps, seconds);
            key in ApplyRound(After(ApplyRound(later, BeginRound(order)), round, seconds), EndRound).scheduled
  {
    var asked := Apply(s, Bot(Request(key, since)), seconds);
    RequestedKeyIsWatched(s, key, since, steps, seconds);
    StepKeepsInv(s, Bot(Request(key, since)), seconds);
    RunKeepsInv(asked, steps, seconds);
    RoundSchedulesSnapshot(After(asked, steps, seconds), order, round, seconds);
  }

  // ---- the end of a watcher ----

  ghost predicate Gone(s: State, id: nat, key: Key) {
    && s.work == Idle && id !in s.tasks && id !in s.background
    && key !in s.watching && key !in s.scheduled && key !in s.lastRefresh && key !in TaskKeys(s)
  }

  // A watcher whose request fails, and one that finds its key no longer watched, both end for good: when their
  // sections have run, the key can be scheduled anew and nothing of the watcher is left.
  lemma LeavingWatcherIsReleased(s: State, id: nat, seconds: string -> int)
    requires Inv(s) && s.work == Running(id) && HasPhase(s, id, Leaving)
    ensures var steps := [Watching(Leave), Stopping(BeginStop(id)), Stopping(Forget), Stopping(Release),
                          Stopping(PopHistory)];
            IsRun(s, steps, seconds) && Gone(After(s, steps, seconds), id, s.tasks[id].key)
  {
    WatchKeepsInv(s, Leave);
    WatchesOwnKey(s, Leave);
    var left := ApplyWatch(s, Leave);
    StopCallback(left, id, seconds);
    var rest := [Stopping(BeginStop(id)), Stopping(Forget), Stopping(Release), Stopping(PopHistory)];
    assert Apply(s, Watching(Leave), seconds) == left;
    RunCons(s, Watching(Leave), rest, seconds);
    assert [Watching(Leave)] + rest == [Watching(Leave), Stopping(BeginStop(id)), Stopping(Forget), Stopping(Release),
                                        Stopping(PopHistory)];
  }

  lemma StopCallback(s: State, id: nat, seconds: string -> int)
    requires Inv(s) && s.work == Idle && HasPhase(s, id, Finished) && s.tasks[id].key !in s.watching
    ensures var steps := [Stopping(BeginStop(id)), Stopping(Forget), Stopping(Release), Stopping(PopHistory)];
            IsRun(s, steps, seconds) && Gone(After(s, steps, seconds), id, s.tasks[id].key)
  {
    var begun := ApplyStop(s, BeginStop(id));
    StopKeepsInv(s, BeginStop(id));
    var forgotten := ApplyStop(begun, Forget);
    StopKeepsInv(begun, Forget);
    ReleaseAndPop(forgotten, id, seconds);
    assert Apply(begun, Stopping(Forget), seconds) == forgotten;
    RunCons(begun, Stopping(Forget), [Stopping(Release), Stopping(PopHistory)], seconds);
    assert [Stopping(Forget)] + [Stopping(Release), Stopping(PopHistory)] ==
           [Stopping(Forget), Stopping(Release), Stopping(PopHistory)];
    assert Apply(s, Stopping(BeginStop(id)), seconds) == begun;
    RunCons(s, Stopping(BeginStop(id)), [Stopping(Forget), Stopping(Release), Stopping(PopHistory)], seconds);
    assert [Stopping(BeginStop(id))] + [Stopping(Forget), Stopping(Release), Stopping(PopHistory)] ==
           [Stopping(BeginStop(id)), Stopping(Forget), Stopping(Release), Stopping(PopHistory)];
  }

  lemma ReleaseAndPop(s: State, id: nat, seconds: string -> int)
    requires Inv(s) && s.work == StopForgotten(id) && id in s.tasks && s.tasks[id].key !in s.watching
    ensures var steps := [Stopping(Release), Stopping(PopHistory)];
            IsRun(s, steps, seconds) && Gone(After(s, steps, seconds), id, s.tasks[id].key)
  {
    var key := s.tasks[id].key;
    var released := ApplyStop(s, Release);
    StopKeepsInv(s, Release);
    var popped := ApplyStop(released, PopHistory);
    StopKeepsInv(released, PopHistory);
    assert TaskKeys(popped) == TaskKeys(released);
    assert Gone(popped, id, key);
    assert Apply(released, Stopping(PopHistory), seconds) == popped;
    RunCons(released, Stopping(PopHistory), [], seconds);
    assert [Stopping(PopHistory)] + [] == [Stopping(PopHistory)];
    RunCons(s, Stopping(Release), [Stopping(PopHistory)], seconds);
    assert [Stopping(Release)] + [Stopping(PopHistory)] == [Stopping(Release), Stopping(PopHistory)];
  }

  lemma RunCons(s: State, step: Step, steps: seq<Step>, seconds: string -> int)
    requires Enabled(s, step) && IsRun(Apply(s, step, seconds), steps, seconds)
    ensures IsRun(s, [step] + steps, seconds)
    ensures After(s, [step] + steps, seconds) == After(Apply(s, step, seconds), steps, seconds)
  {
    assert ([step] + steps)[1..] == steps;
  }

  // What leads there: a failed request does, and so does an answer that comes when the key is not watched any more.
  lemma UnwatchedWatcherLeaves(s: State, id: nat, now: int)
    requires Inv(s) && s.work == Idle && HasPhase(s, id, Waiting)
    ensures var failed := ApplyWatch(s, Fail(id)); failed.work == Running(id) && HasPhase(failed, id, Leaving)
    ensures var resumed := ApplyWatch(s, Resume(id));
            && WatchEnabled(resumed, Refresh(now))
            && var refreshed := ApplyWatch(resumed, Refresh(now));
               && WatchEnabled(refreshed, CheckWatching)
               && var checked := ApplyWatch(refreshed, CheckWatching);
                  if s.tasks[id].key in s.watching then checked.work == Idle && HasPhase(checked, id, Waiting)
                  else checked.work == Running(id) && HasPhase(checked, id, Leaving)
  {
    WatchesOwnKey(s, Fail(id));
    WatchesOwnKey(s, Resume(id));
    WatchKeepsInv(s, Resume(id));
    var resumed := ApplyWatch(s, Resume(id));
    WatchesOwnKey(resumed, Refresh(now));
    WatchKeepsInv(resumed, Refresh(now));
    WatchesOwnKey(ApplyWatch(resumed, Refresh(now)), CheckWatching);
  }

  // ---- the program ----

  // The shared object. Each method is one lock section of the program, together with the loop work that
  // precedes it and that nothing else can observe.
  class ExchangeWS {
    const seconds: string -> int
    var klinesWatching: set<Key>
    var klinesScheduled: set<Key>
    var backgroundTasks: set<nat>
    var klinesLastRefresh: map<Key, int>
    var klinesLastRequest: map<Key, int>
    var tasks: map<nat, Task>
    var nextId: nat
    var work: Work

    ghost function View(): State
      reads this
    {
      State(klinesWatching, klinesScheduled, backgroundTasks, klinesLastRefresh, klinesLastRequest, tasks, nextId, work)
    }

    constructor (seconds: string -> int)
      ensures this.seconds == seconds && View() == Initial
    {
      this.seconds := seconds;
      klinesWatching, klinesScheduled, backgroundTasks := {}, {}, {};
      klinesLastRefresh, klinesLastRequest, tasks := map[], map[], map[];
      nextId, work := 0, Idle;
    }

    method ScheduleOhlcv(key: Key, now: int)
      modifies this
      ensures View() == ApplyBot(old(View()), Request(key, now), seconds)
      ensures klinesWatching == old(klinesWatching) + {key}
      ensures klinesLastRequest == old(klinesLastRequest)[key := now] && klinesScheduled == old(klinesScheduled)
    {
      klinesWatching := klinesWatching + {key};
      klinesLastRequest := klinesLastRequest[key := now];
    }

    method CleanupExpired(now: int)
      modifies this
      ensures View() == ApplyBot(old(View()), Expire(now), seconds)
      ensures forall k :: k in klinesWatching <==>
                && k in old(klinesWatching)
                && (k in klinesLastRequest && klinesLastRequest[k] > 0 ==>
                      now <= klinesLastRequest[k] + (seconds(k.timeframe) + 20) * 1000)
      ensures forall k :: k in klinesLastRefresh <==>
                k in old(klinesLastRefresh) && (k in old(klinesWatching) ==> k in klinesWatching)
      ensures forall k :: k in klinesLastRefresh ==> klinesLastRefresh[k] == old(klinesLastRefresh)[k]
      ensures klinesLastRequest == old(klinesLastRequest)
    {
      var todo := klinesWatching;
      ghost var gone: set<Key> := {};
      while todo != {}
        invariant todo <= old(klinesWatching)
        invariant gone == set k | k in old(klinesWatching) - todo && Stale(klinesLastRequest, k, seconds, now)
        invariant View() == old(View()).(watching := old(klinesWatching) - gone,
                                         lastRefresh := old(klinesLastRefresh) - gone)
        decreases todo
      {
        var p :| p in todo;
        todo := todo - {p};
        var lastRefresh := if p in klinesLastRequest then klinesLastRequest[p] else 0;
        if lastRefresh > 0 && now - lastRefresh > (seconds(p.timeframe) + 20) * 1000 {
          klinesWatching := klinesWatching - {p};
          klinesLastRefresh := klinesLastRefresh - {p};
          gone := gone + {p};
        }
      }
      assert gone == Expired(old(View()), seconds, now);
    }

    method Cleanup()
      modifies this
      ensures View() == ApplyBot(old(View()), Clear, seconds)
      ensures View() == old(View()).(watching := {})
    {
      klinesWatching := {};
    }

    method BeginScheduling(order: seq<Key>)
      requires RoundEnabled(View(), BeginRound(order))
      modifies this
      ensures View() == ApplyRound(old(View()), BeginRound(order))
      ensures work == Round(order, 0) && forall k :: k in order <==> k in klinesWatching
    {
      work := Round(order, 0);
    }

    // Afterwards the key is scheduled in any case. Where it was not before, it has no task yet: the invariant
    // lets it wait for one only here.
    method ScheduleNext()
      requires Inv(View()) && RoundEnabled(View(), CheckKey)
      modifies this
      ensures Inv(View()) && View() == ApplyRound(old(View()), CheckKey)
      ensures var key := old(work.snapshot[work.next]);
              && klinesScheduled == old(klinesScheduled) + {key}
              && (key !in old(klinesScheduled) <==> work.RoundAdded?)
              && (work.RoundAdded? ==> key !in TaskKeys(View()))
    {
      RoundKeepsInv(View(), CheckKey);
      var p := work.snapshot[work.next];
      if p in klinesScheduled {
        work := Round(work.snapshot, work.next + 1);
      } else {
        klinesScheduled := klinesScheduled + {p};
        work := RoundAdded(work.snapshot, work.next);
      }
    }

    method CreateWatchTask()
      requires RoundEnabled(View(), CreateTask)
      modifies this
      ensures View() == ApplyRound(old(View()), CreateTask)
      ensures var id := old(nextId);
              && HasPhase(View(), id, NotStarted) && tasks[id].key == old(work.snapshot[work.next])
              && work == RoundCreated(old(work.snapshot), old(work.next), id)
    {
      tasks := tasks[nextId := Task(work.snapshot[work.next], NotStarted)];
      work := RoundCreated(work.snapshot, work.next, nextId);
      nextId := nextId + 1;
    }

    method KeepTask()
      requires RoundEnabled(View(), RegisterTask)
      modifies this
      ensures View() == ApplyRound(old(View()), RegisterTask)
      ensures old(work.id) in backgroundTasks && work == Round(old(work.snapshot), old(work.next) + 1)
    {
      backgroundTasks := backgroundTasks + {work.id};
      work := Round(work.snapshot, work.next + 1);
    }

    method EndScheduling()
      requires RoundEnabled(View(), EndRound)
      modifies this
      ensures View() == ApplyRound(old(View()), EndRound)
      ensures View() == old(View()).(work := Idle)
    {
      work := Idle;
    }

    method MoveTask(id: nat, phase: Phase, next: Work)
      requires id in tasks
      modifies this`tasks, this`work
      ensures View() == InPhase(old(View()), id, phase, next)
    {
      tasks := tasks[id := tasks[id].(phase := phase)];
      work := next;
    }

    method WatchOhlcv(step: WatchStep)
      requires Inv(View()) && WatchEnabled(View(), step)
      modifies this
      ensures Inv(View()) && View() == ApplyWatch(old(View()), step)
      ensures OnlyOwnKey(old(View()), View(), step)
    {
      WatchKeepsInv(View(), step);
      WatchesOwnKey(View(), step);
      RunSection(step);
    }

    method RunSection(step: WatchStep)
      requires WatchEnabled(View(), step)
      modifies this
      ensures View() == ApplyWatch(old(View()), step)
    {
      match step {
        case Start(id) => MoveTask(id, Checking, Running(id));
        case CancelUnstarted(id) => MoveTask(id, Finished, Idle);
        case CheckWatching =>
          var id := work.id;
          if tasks[id].key in klinesWatching {
            MoveTask(id, Waiting, Idle);
          } else {
            MoveTask(id, Leaving, work);
          }
        case Resume(id) => MoveTask(id, Refreshing, Running(id));
        case Fail(id) => MoveTask(id, Leaving, Running(id));
        case Refresh(now) =>
          klinesLastRefresh := klinesLastRefresh[tasks[work.id].key := now];
          MoveTask(work.id, Checking, work);
        case Leave =>
          klinesWatching := klinesWatching - {tasks[work.id].key};
          MoveTask(work.id, Finished, Idle);
      }
    }

    // Once the key is released, no task has it and it can be scheduled anew; once the history is popped, every
    // refresh time belongs to a scheduled key again.
    method ContinuousStopped(step: StopStep)
      requires Inv(View()) && StopEnabled(View(), step)
      modifies this
      ensures Inv(View()) && View() == ApplyStop(old(View()), step)
      ensures step.Forget? ==> old(work.id) !in backgroundTasks && klinesScheduled == old(klinesScheduled)
      ensures step.Release? ==>
                var key := old(tasks[work.id].key);
                work == StopReleased(key) && key !in klinesScheduled && key !in TaskKeys(View())
      ensures step.PopHistory? ==>
                old(work.key) !in klinesLastRefresh && forall k :: k in klinesLastRefresh ==> k in klinesScheduled
    {
      StopKeepsInv(View(), step);
      match step {
        case BeginStop(id) => work := StopBegun(id);
        case Forget =>
          backgroundTasks := backgroundTasks - {work.id};
          work := StopForgotten(work.id);
        case Release =>
          var key := tasks[work.id].key;
          klinesScheduled := klinesScheduled - {key};
          tasks := tasks - {work.id};
          work := StopReleased(key);
        case PopHistory =>
          klinesLastRefresh := klinesLastRefresh - {work.key};
          work := Idle;
      }
    }

    // Any interleaving of the two threads.
    method Interleave(steps: seq<Step>)
      requires Inv(View()) && IsRun(View(), steps, seconds)
      modifies this
      ensures Inv(View()) && View() == After(old(View()), steps, seconds)
    {
      for i := 0 to |steps|
        invariant Inv(View()) && IsRun(View(), steps[i..], seconds)
        invariant After(View(), steps[i..], seconds) == After(old(View()), steps, seconds)
      {
        assert steps[i..][0] == steps[i] && steps[i..][1..] == steps[i + 1..];
        StepKeepsInv(View(), steps[i], seconds);
        match steps[i] {
          case Bot(Request(key, now)) => ScheduleOhlcv(key, now);
          case Bot(Expire(now)) => CleanupExpired(now);
          case Bot(Clear) => Cleanup();
          case Scheduling(BeginRound(order)) => BeginScheduling(order);
          case Scheduling(CheckKey) => ScheduleNext();
          case Scheduling(CreateTask) => CreateWatchTask();
          case Scheduling(RegisterTask) => KeepTask();
          case Scheduling(EndRound) => EndScheduling();
          case Watching(w) => WatchOhlcv(w);
          case Stopping(c) => ContinuousStopped(c);
        }
      }
    }
  }
}
