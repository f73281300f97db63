/**
 Life cycle of the bot in freqtrade/worker.py, under state changes from other threads at any time, reloads, and
 errors of the bot.
 */
module Worker {
  import opened Outcomes

  datatype BotState = RUNNING | PAUSED | STOPPED | RELOAD_CONFIG

  datatype Config = Config(id: nat, initialState: Option<BotState>)

  datatype Check = SpotOnly | Risk | Security

  // What happens, in the order in which it happens: `Found` is the start of a pass, with the state it goes by. A bot
  // is known by a number of its own.
  datatype Event =
    | Loaded(config: Config)
    | Passed(check: Check, config: Config)
    | Built(bot: nat, config: Config)
    | Commanded(state: BotState)
    | Found(state: BotState)
    | Startup(bot: nat)
    | Process(bot: nat)
    | Failed(bot: nat)

  datatype Outcome = Fine | TemporaryFailure | OperationalFailure | OtherFailure

  // One pass of the loop: what others set the state to before it and while it lasts, how startup and process
  // end, and what a reload finds: a configuration, and the first check that it fails.
  datatype Round = Round(
    before: Option<BotState>,
    during: Option<BotState>,
    startup: Outcome,
    process: Outcome,
    reloaded: Option<Config>,
    refusedBy: Option<Check>)

  predicate Active(s: BotState) {
    s == RUNNING || s == PAUSED
  }

  // ---- what has to be true of every history ----

  ghost predicate Has(log: seq<Event>, e: Event) {
    exists i :: 0 <= i < |log| && log[i] == e
  }

  // No bot processes before it has started up.
  ghost predicate StartedBeforeProcessing(log: seq<Event>) {
    forall j :: 0 <= j < |log| && log[j].Process? ==> Has(log[..j], Startup(log[j].bot))
  }

  // The configuration in use: the one loaded last, if any has been loaded.
  function InUse(log: seq<Event>, given: Option<Config>): Option<Config> {
    if log == [] then given
    else if log[|log| - 1].Loaded? then Some(log[|log| - 1].config)
    else InUse(log[..|log| - 1], given)
  }

  // A bot is built only from the configuration in use, right after that has passed all three checks.
  ghost predicate BuiltFromChecked(log: seq<Event>, given: Option<Config>) {
    forall j :: 0 <= j < |log| && log[j].Built? ==> CheckedBefore(log[..j], log[j].config, given)
  }

  ghost predicate CheckedBefore(log: seq<Event>, c: Config, given: Option<Config>) {
    && |log| >= 3 && InUse(log, given) == Some(c)
    && log[|log| - 3..] == [Passed(SpotOnly, c), Passed(Risk, c), Passed(Security, c)]
  }

  lemma ThreeChecks(before: seq<Event>, log: seq<Event>, c: Config, given: Option<Config>)
    requires log == before + [Passed(SpotOnly, c)] + [Passed(Risk, c)] + [Passed(Security, c)]
    requires InUse(log, given) == Some(c)
    ensures CheckedBefore(log, c, given)
  {
  }

  lemma NoOtherCheck(check: Option<Check>)
    requires check != Some(SpotOnly) && check != Some(Risk) && check != Some(Security)
    ensures check.None?
  {
    if check.Some? {
      match check.value {
        case SpotOnly =>
        case Risk =>
        case Security =>
      }
    }
  }

  // After an operational failure nothing is processed until somebody sets the state again.
  ghost predicate FailureStops(log: seq<Event>) {
    forall j :: 0 <= j < |log| && log[j].Process? ==> Answered(log[..j])
  }

  // Every failure has been followed by a command.
  ghost predicate Answered(log: seq<Event>) {
    forall i :: 0 <= i < |log| && log[i].Failed? ==> exists k :: i < k < |log| && log[k].Commanded?
  }

  // The state in force: that of a new bot at first, then what was commanded last, and stopped after a failure.
  function InForce(log: seq<Event>): Option<BotState> {
    if log == [] then None
    else match log[|log| - 1]
      case Built(_, config) => Some(config.initialState.GetOr(STOPPED))
      case Commanded(state) => Some(state)
      case Failed(_) => Some(STOPPED)
      case _ => InForce(log[..|log| - 1])
  }

  // Every pass goes by the state in force.
  ghost predicate FoundInForce(log: seq<Event>) {
    forall j :: 0 <= j < |log| && log[j].Found? ==> InForce(log[..j]) == Some(log[j].state)
  }

  // What a pass found has been acted on: an active bot has processed, and a reload has built a new bot.
  ghost predicate Acted(log: seq<Event>, j: nat)
    requires j < |log| && log[j].Found?
  {
    && (log[j].state == RUNNING || log[j].state == PAUSED ==> exists i :: j < i < |log| && log[i].Process?)
    && (log[j].state == RELOAD_CONFIG ==> exists i :: j < i < |log| && log[i].Built?)
  }

  ghost predicate Settled(log: seq<Event>) {
    forall j :: 0 <= j < |log| && log[j].Found? ==> Acted(log, j)
  }

  // No pass starts before what earlier ones found has been acted on.
  ghost predicate NothingSkipped(log: seq<Event>) {
    forall k :: 0 <= k < |log| && log[k].Found? ==> Settled(log[..k])
  }

  // The state that the latest pass goes by.
  function LatestFound(log: seq<Event>): Option<BotState> {
    if log == [] then None
    else if log[|log| - 1].Found? then Some(log[|log| - 1].state)
    else LatestFound(log[..|log| - 1])
  }

  // Only a pass that finds an active state starts a bot up or has it process.
  ghost predicate OnlyWhenActive(log: seq<Event>) {
    forall j :: 0 <= j < |log| && (log[j].Startup? || log[j].Process?) ==>
      LatestFound(log[..j]) == Some(RUNNING) || LatestFound(log[..j]) == Some(PAUSED)
  }

  // Since the last startup an inactive state has been found.
  ghost predicate MayStart(log: seq<Event>) {
    forall i :: 0 <= i < |log| && log[i].Startup? ==>
      exists k :: i < k < |log| && log[k].Found? && !Active(log[k].state)
  }

  // No bot starts up twice while it stays active.
  ghost predicate StartsOnce(log: seq<Event>) {
    forall j :: 0 <= j < |log| && log[j].Startup? ==> MayStart(log[..j])
  }

  ghost predicate Lawful(log: seq<Event>, given: Option<Config>) {
    && StartedBeforeProcessing(log) && BuiltFromChecked(log, given) && FailureStops(log)
    && FoundInForce(log) && NothingSkipped(log) && OnlyWhenActive(log) && StartsOnce(log)
  }

  // What has to hold when an event happens.
  ghost predicate Fits(log: seq<Event>, e: Event, given: Option<Config>) {
    match e
    case Process(bot) => Has(log, Startup(bot)) && Answered(log) && WasActive(LatestFound(log))
    case Startup(_) => WasActive(LatestFound(log)) && MayStart(log)
    case Built(_, config) => CheckedBefore(log, config, given)
    case Found(state) => InForce(log) == Some(state) && Settled(log)
    case _ => true
  }

  // Every event fits what happened before it.
  ghost predicate Orderly(log: seq<Event>, given: Option<Config>) {
    log == [] ||
    (Orderly(log[..|log| - 1], given) && Fits(log[..|log| - 1], log[|log| - 1], given))
  }

  lemma {:induction false} FitsAt(log: seq<Event>, given: Option<Config>, j: nat)
    requires Orderly(log, given) && j < |log|
    ensures Fits(log[..j], log[j], given)
  {
    if j < |log| - 1 {
      FitsAt(log[..|log| - 1], given, j);
      assert log[..|log| - 1][..j] == log[..j];
    }
  }

  lemma OrderlyIsLawful(log: seq<Event>, given: Option<Config>)
    requires Orderly(log, given)
    ensures Lawful(log, given)
  {
    forall j | 0 <= j < |log| ensures Fits(log[..j], log[j], given) {
      FitsAt(log, given, j);
    }
  }

  // Nothing but loading, checking and building happens from one log to the other.
  ghost predicate OnlySetup(a: seq<Event>, b: seq<Event>) {
    a <= b && forall e :: e in b[|a|..] ==> e.Loaded? || e.Passed? || e.Built?
  }

  lemma OnlySetupSnoc(a: seq<Event>, b: seq<Event>, e: Event)
    requires OnlySetup(a, b) && (e.Loaded? || e.Passed? || e.Built?)
    ensures OnlySetup(a, b + [e])
  {
    assert (b + [e])[|a|..] == b[|a|..] + [e];
  }

  lemma IsFromMore(log: seq<Event>, more: seq<Event>, j: nat)
    requires j < |log| + |more|
    ensures j >= |log| ==> (log + more)[j] in more
  {
  }

  // What other events leave settled stays so.
  lemma Later(before: seq<Event>, state: BotState, more: seq<Event>)
    requires Settled(before) && forall e :: e in more ==> !e.Found?
    requires Active(state) ==> exists e :: e in more && e.Process?
    requires state == RELOAD_CONFIG ==> exists e :: e in more && e.Built?
    ensures Settled(before + [Found(state)] + more)
  {
    var all := before + [Found(state)] + more;
    forall j | 0 <= j < |all| && all[j].Found? ensures Acted(all, j) {
      IsFromMore(before + [Found(state)], more, j);
      if j < |before| {
        ActedStill(before, [Found(state)] + more, j);
        assert before + ([Found(state)] + more) == all;
      } else {
        if e :| e in more && e.Process? {
          var i :| 0 <= i < |more| && more[i] == e;
          assert all[|before| + 1 + i].Process?;
        }
        if e :| e in more && e.Built? {
          var i :| 0 <= i < |more| && more[i] == e;
          assert all[|before| + 1 + i].Built?;
        }
      }
    }
  }

  lemma ActedStill(log: seq<Event>, more: seq<Event>, j: nat)
    requires j < |log| && log[j].Found? && Acted(log, j)
    ensures Acted(log + more, j)
  {
    var all := log + more;
    if i :| j < i < |log| && log[i].Process? {
      assert all[i].Process?;
    }
    if i :| j < i < |log| && log[i].Built? {
      assert all[i].Built?;
    }
  }

  lemma SettledStill(log: seq<Event>, more: seq<Event>)
    requires Settled(log) && forall e :: e in more ==> !e.Found?
    ensures Settled(log + more)
  {
    var all := log + more;
    forall j | 0 <= j < |all| && all[j].Found? ensures Acted(all, j) {
      IsFromMore(log, more, j);
      ActedStill(log, more, j);
    }
  }

  lemma MayStartStill(log: seq<Event>, more: seq<Event>)
    requires MayStart(log) && forall e :: e in more ==> !e.Startup?
    ensures MayStart(log + more)
  {
    var all := log + more;
    forall i | 0 <= i < |all| && all[i].Startup?
      ensures exists k :: i < k < |all| && all[k].Found? && !Active(all[k].state)
    {
      IsFromMore(log, more, i);
      var k :| i < k < |log| && log[k].Found? && !Active(log[k].state);
      assert all[k] == log[k];
    }
  }

  lemma MayStartAgain(before: seq<Event>, state: BotState, more: seq<Event>)
    requires !Active(state) && forall e :: e in more ==> !e.Startup?
    ensures MayStart(before + [Found(state)] + more)
  {
    var all := before + [Found(state)] + more;
    assert all[|before|] == Found(state);
    forall i | 0 <= i < |all| && all[i].Startup? ensures i < |before| {
      IsFromMore(before + [Found(state)], more, i);
    }
  }

  // The number of passes.
  function Passes(log: seq<Event>): nat {
    if log == [] then 0 else Passes(log[..|log| - 1]) + if log[|log| - 1].Found? then 1 else 0
  }

  lemma {:induction false} OnePass(before: seq<Event>, state: BotState, more: seq<Event>)
    requires forall e :: e in more ==> !e.Found?
    ensures Passes(before + [Found(state)] + more) == Passes(before) + 1
  {
    var all := before + [Found(state)] + more;
    if more == [] {
      assert all[..|before|] == before && all[|before|] == Found(state);
    } else {
      assert all[..|all| - 1] == before + [Found(state)] + more[..|more| - 1];
      assert all[|all| - 1] in more;
      OnePass(before, state, more[..|more| - 1]);
    }
  }

  lemma {:induction false} NoPass(log: seq<Event>, more: seq<Event>)
    requires forall e :: e in more ==> !e.Found?
    ensures Passes(log + more) == Passes(log)
  {
    if more == [] {
      assert log + more == log;
    } else {
      assert (log + more)[..|log + more| - 1] == log + more[..|more| - 1];
      assert (log + more)[|log + more| - 1] in more;
      NoPass(log, more[..|more| - 1]);
    }
  }

  lemma HasKept(log: seq<Event>, more: seq<Event>, e: Event)
    requires Has(log, e) || e in more
    ensures Has(log + more, e)
  {
    if i :| 0 <= i < |log| && log[i] == e {
      assert (log + more)[i] == e;
    } else {
      var k :| 0 <= k < |more| && more[k] == e;
      assert (log + more)[|log| + k] == e;
    }
  }

  lemma AnsweredSnoc(log: seq<Event>, e: Event)
    ensures e.Commanded? ==> Answered(log + [e])
    ensures !e.Failed? && Answered(log) ==> Answered(log + [e])
  {
    var all := log + [e];
    assert all[|log|] == e;
    if !e.Failed? && Answered(log) {
      forall i | 0 <= i < |all| && all[i].Failed? ensures exists k :: i < k < |all| && all[k].Commanded? {
        var k :| i < k < |log| && log[k].Commanded?;
        assert all[k].Commanded?;
      }
    }
  }

  // ---- what one pass does ----

  predicate WasActive(state: Option<BotState>) {
    state.Some? && Active(state.value)
  }

  function Commands(state: Option<BotState>): seq<Event> {
    if state.Some? then [Commanded(state.value)] else []
  }

  predicate Fails(state: BotState, oldState: Option<BotState>, round: Round) {
    Active(state) && !WasActive(oldState) && round.startup != Fine
  }

  // A bot starts up when it becomes active, not when it moves between running and paused.
  function Startups(bot: nat, state: BotState, oldState: Option<BotState>, round: Round): seq<Event> {
    if Active(state) && !WasActive(oldState) && round.startup == Fine then [Startup(bot)] else []
  }

  function Work(bot: nat, state: BotState, round: Round): seq<Event> {
    if !Active(state) then Commands(round.during)
    else [Process(bot)] + Commands(round.during) + if round.process == OperationalFailure then [Failed(bot)] else []
  }

  lemma Regroup(log: seq<Event>, first: Event, more: seq<Event>, last: Event)
    ensures log + [first] + more == log + ([first] + more)
    ensures log + [first] + more + [last] == log + ([first] + more + [last])
  {
  }

  // An active bot processes in its pass, and only an active one starts up.
  lemma DidIs(bot: nat, state: BotState, oldState: Option<BotState>, round: Round)
    ensures var did := Startups(bot, state, oldState, round) + Work(bot, state, round);
            && (forall e :: e in did ==> !e.Found? && (e.Startup? ==> Active(state)))
            && (Active(state) ==> exists e :: e in did && e.Process?)
  {
    if Active(state) {
      assert Process(bot) == Work(bot, state, round)[0];
      assert Process(bot) in Startups(bot, state, oldState, round) + Work(bot, state, round);
    }
  }

  // No error gets through and a reload, if there is one, finds a configuration that passes.
  predicate Smooth(round: Round) {
    round.startup == Fine && round.process != OtherFailure && round.reloaded.Some? && round.refusedBy.None?
  }

  // ---- the program ----

  class FreqtradeBot {
    const id: nat
    const config: Config
    var state: BotState

    constructor (id: nat, config: Config)
      ensures this.id == id && this.config == config && state == config.initialState.GetOr(STOPPED)
    {
      this.id, this.config := id, config;
      state := config.initialState.GetOr(STOPPED);
    }
  }

  class Worker {
    const given: Option<Config>
    var config: Option<Config>
    var bot: FreqtradeBot?
    var bots: nat
    ghost var log: seq<Event>

    ghost predicate Valid()
      reads this, bot
    {
      && Orderly(log, given)
      && config == InUse(log, given)
      && (bot != null ==> InForce(log) == Some(bot.state))
      && (bot != null && bot.state != STOPPED ==> Answered(log))
    }

    constructor (given: Option<Config>)
      ensures Valid() && config == given && bot == null && log == []
    {
      this.given, config, bot, bots, log := given, given, null, 0, [];
    }

    // `Init` loads a configuration if asked to or if there is none, and builds a bot from it if it passes the
    // checks. An error of any of these ends the program.
    method Init(reconfig: bool, loaded: Option<Config>, refusedBy: Option<Check>) returns (ok: bool)
      requires Valid() && Answered(log)
      modifies this
      ensures Valid() && old(log) <= log && Answered(log)
      ensures ok ==> bot != null && fresh(bot) && Some(bot.config) == config
      ensures ok ==> |log| > |old(log)| && log[|log| - 1] == Built(bot.id, bot.config)
      ensures ok ==> bot.state == bot.config.initialState.GetOr(STOPPED)
      ensures ok <==> (reconfig || old(config).None? ==> loaded.Some?) && refusedBy.None?
      ensures !ok ==> bot == old(bot)
      ensures OnlySetup(old(log), log)
    {
      if reconfig || config.None? {
        if loaded.None? {
          return false;
        }
        OnlySetupSnoc(old(log), log, Loaded(loaded.value));
        Record(Loaded(loaded.value));
        config := loaded;
      }
      var c := config.value;
      ok := RunChecks(c, refusedBy, old(log));
      if !ok {
        return;
      }
      OnlySetupSnoc(old(log), log, Built(bots, c));
      Record(Built(bots, c));
      bot := new FreqtradeBot(bots, c);
      bots := bots + 1;
    }

    method RunChecks(c: Config, refusedBy: Option<Check>, ghost start: seq<Event>) returns (ok: bool)
      requires OnlySetup(start, log)
      requires Orderly(log, given) && Answered(log) && InUse(log, given) == Some(c)
      modifies this`log
      ensures Orderly(log, given) && Answered(log) && InUse(log, given) == Some(c) && old(log) <= log
      ensures InForce(log) == InForce(old(log)) && OnlySetup(start, log)
      ensures ok <==> refusedBy.None?
      ensures ok ==> CheckedBefore(log, c, given)
    {
      ghost var before := log;
      if refusedBy == Some(SpotOnly) {
        return false;
      }
      Pass(SpotOnly, c, start);
      if refusedBy == Some(Risk) {
        return false;
      }
      Pass(Risk, c, start);
      if refusedBy == Some(Security) {
        return false;
      }
      Pass(Security, c, start);
      ThreeChecks(before, log, c, given);
      NoOtherCheck(refusedBy);
      ok := true;
    }

    ghost method Pass(check: Check, c: Config, start: seq<Event>)
      requires OnlySetup(start, log)
      requires Orderly(log, given) && Answered(log)
      modifies this`log
      ensures Orderly(log, given) && Answered(log)
      ensures log == old(log) + [Passed(check, c)] && InUse(log, given) == old(InUse(log, given))
      ensures InForce(log) == old(InForce(log)) && OnlySetup(start, log)
    {
      OnlySetupSnoc(start, log, Passed(check, c));
      Record(Passed(check, c));
    }

    ghost method Record(e: Event)
      requires Orderly(log, given) && Fits(log, e, given)
      modifies this`log
      ensures Orderly(log, given) && log == old(log) + [e]
      ensures InForce(log) == match e
                              case Built(_, c) => Some(c.initialState.GetOr(STOPPED))
                              case Commanded(state) => Some(state)
                              case Failed(_) => Some(STOPPED)
                              case _ => old(InForce(log))
      ensures LatestFound(log) == if e.Found? then Some(e.state) else old(LatestFound(log))
      ensures InUse(log, given) == if e.Loaded? then Some(e.config) else old(InUse(log, given))
      ensures e.Commanded? || (!e.Failed? && old(Answered(log))) ==> Answered(log)
    {
      AnsweredSnoc(log, e);
      assert (log + [e])[..|log|] == log;
      log := log + [e];
    }

    // Another thread sets the state.
    method SetState(state: Option<BotState>)
      requires Valid() && bot != null
      modifies this`log, bot`state
      ensures Valid() && bot.state == state.GetOr(old(bot.state)) && log == old(log) + Commands(state)
      ensures old(Answered(log)) ==> Answered(log)
      ensures LatestFound(log) == old(LatestFound(log))
    {
      if state.Some? {
        Record(Commanded(state.value));
        bot.state := state.value;
      }
    }

    // One pass of the main routine. It returns the state found at its start, or nothing when an error ends the
    // program.
    method DoWork(oldState: Option<BotState>, round: Round) returns (state: Option<BotState>, ghost did: seq<Event>)
      requires Valid() && bot != null && Settled(log)
      requires if WasActive(oldState) then Has(log, Startup(bot.id)) else MayStart(log)
      modifies this`log, bot`state
      ensures Valid() && log == old(log) + [Found(old(bot.state))] + did
      ensures did == Startups(bot.id, old(bot.state), oldState, round) +
                     if Fails(old(bot.state), oldState, round) then [] else Work(bot.id, old(bot.state), round)
      ensures state.None? <==> Fails(old(bot.state), oldState, round) ||
                               (Active(old(bot.state)) && round.process == OtherFailure)
      ensures state.Some? ==> state.value == old(bot.state)
      ensures WasActive(state) ==> Has(log, Startup(bot.id))
      ensures state == Some(RELOAD_CONFIG) ==> Answered(log)
    {
      var current := bot.state;
      if WasActive(oldState) {
        HasKept(log, [Found(current)], Startup(bot.id));
      } else {
        MayStartStill(log, [Found(current)]);
      }
      Record(Found(current));
      ghost var found := log;
      state, did := Act(oldState, round);
      assert log == found + did;
    }

    // The branches of _worker, after it has looked at the state.
    method Act(oldState: Option<BotState>, round: Round) returns (state: Option<BotState>, ghost did: seq<Event>)
      requires Valid() && bot != null && LatestFound(log) == Some(bot.state)
      requires if WasActive(oldState) then Has(log, Startup(bot.id)) else MayStart(log)
      modifies this`log, bot`state
      ensures Valid() && log == old(log) + did
      ensures did == Startups(bot.id, old(bot.state), oldState, round) +
                     if Fails(old(bot.state), oldState, round) then [] else Work(bot.id, old(bot.state), round)
      ensures state.None? <==> Fails(old(bot.state), oldState, round) ||
                               (Active(old(bot.state)) && round.process == OtherFailure)
      ensures state.Some? ==> state.value == old(bot.state)
      ensures WasActive(state) ==> Has(log, Startup(bot.id))
      ensures state == Some(RELOAD_CONFIG) ==> Answered(log)
    {
      var current := bot.state;
      if !Active(current) {
        SetState(round.during);
        return Some(current), Work(bot.id, current, round);
      }
      if Fails(current, oldState, round) {
        return None, [];
      }
      StartUp(oldState, round);
      did := Startups(bot.id, current, oldState, round);
      var ended := ProcessRunning(round);
      did := did + Work(bot.id, current, round);
      return if ended then None else Some(current), did;
    }

    method StartUp(oldState: Option<BotState>, round: Round)
      requires Valid() && bot != null && Active(bot.state) && !Fails(bot.state, oldState, round)
      requires LatestFound(log) == Some(bot.state)
      requires if WasActive(oldState) then Has(log, Startup(bot.id)) else MayStart(log)
      modifies this`log
      ensures Valid() && log == old(log) + Startups(bot.id, bot.state, oldState, round)
      ensures Has(log, Startup(bot.id)) && LatestFound(log) == Some(bot.state)
    {
      if !WasActive(oldState) {
        HasKept(log, [Startup(bot.id)], Startup(bot.id));
        Record(Startup(bot.id));
      }
    }

    method ProcessRunning(round: Round) returns (ended: bool)
      requires Valid() && bot != null && Active(bot.state) && Has(log, Startup(bot.id))
      requires LatestFound(log) == Some(bot.state)
      modifies this`log, bot`state
      ensures Valid() && log == old(log) + Work(bot.id, old(bot.state), round) && Has(log, Startup(bot.id))
      ensures ended <==> round.process == OtherFailure
      ensures round.process == OperationalFailure ==> bot.state == STOPPED
    {
      Regroup(log, Process(bot.id), Commands(round.during), Failed(bot.id));
      HasKept(log, Work(bot.id, bot.state, round), Startup(bot.id));
      Record(Process(bot.id));
      SetState(round.during);
      if round.process == OperationalFailure {
        Record(Failed(bot.id));
        bot.state := STOPPED;
      }
      return round.process == OtherFailure;
    }

    // A pass with all that belongs to it: the command before it and, if it finds that the configuration is to be
    // loaded anew, the reload.
    method Turn(oldState: Option<BotState>, round: Round) returns (state: Option<BotState>)
      requires Valid() && bot != null && Settled(log)
      requires if WasActive(oldState) then Has(log, Startup(bot.id)) else MayStart(log)
      modifies this, bot
      ensures Orderly(log, given) && (Smooth(round) ==> state.Some?)
      ensures state.Some? ==>
                && Valid() && bot != null && (bot == old(bot) || fresh(bot))
                && Settled(log) && Passes(log) == old(Passes(log)) + 1
                && if WasActive(state) then Has(log, Startup(bot.id)) else MayStart(log)
    {
      Interrupt(oldState, round.before);
      ghost var start, found, did := log, bot.state, [];
      state, did := DoWork(oldState, round);
      if state.None? {
        return;
      }
      DidIs(old(bot.id), found, oldState, round);
      ghost var more: seq<Event> := [];
      if state == Some(RELOAD_CONFIG) {
        var ok;
        ok, more := Reload(round);
        if !ok {
          return None;
        }
      }
      PassIsSettled(start, found, did, more);
      assert log == start + [Found(found)] + did + more;
    }

    method Reload(round: Round) returns (ok: bool, ghost more: seq<Event>)
      requires Valid() && Answered(log)
      modifies this
      ensures Valid() && log == old(log) + more && (ok <==> round.reloaded.Some? && round.refusedBy.None?)
      ensures ok ==> bot != null && fresh(bot)
      ensures forall e :: e in more ==> !e.Found? && !e.Startup?
      ensures ok ==> exists e :: e in more && e.Built?
    {
      ok := Init(true, round.reloaded, round.refusedBy);
      more := log[|old(log)|..];
      if ok {
        assert log[|log| - 1] == more[|more| - 1];
      }
    }

    // A command before a pass changes the state, and nothing that the pass relies on.
    method Interrupt(oldState: Option<BotState>, state: Option<BotState>)
      requires Valid() && bot != null && Settled(log)
      requires if WasActive(oldState) then Has(log, Startup(bot.id)) else MayStart(log)
      modifies this`log, bot`state
      ensures Valid() && Settled(log) && Passes(log) == old(Passes(log))
      ensures if WasActive(oldState) then Has(log, Startup(bot.id)) else MayStart(log)
    {
      SettledStill(log, Commands(state));
      NoPass(log, Commands(state));
      if WasActive(oldState) {
        HasKept(log, Commands(state), Startup(bot.id));
      } else {
        MayStartStill(log, Commands(state));
      }
      SetState(state);
    }

    // The program: any number of passes, each with its own surroundings. It ends early only when an error gets
    // through; otherwise what the last pass found has been acted on, too.
    method Run(first: Round, rounds: seq<Round>) returns (died: bool)
      requires Valid() && log == [] && bot == null
      modifies this
      ensures Lawful(log, given)
      ensures !died ==> Settled(log) && Passes(log) == |rounds|
      ensures died ==>
                || (given.None? && first.reloaded.None?) || first.refusedBy.Some?
                || exists r :: r in rounds && !Smooth(r)
    {
      var ok := Init(false, first.reloaded, first.refusedBy);
      if !ok {
        OrderlyIsLawful(log, given);
        return true;
      }
      var state: Option<BotState> := None;
      assert log == [] + log[0..];
      NoPass([], log[0..]);
      SettledStill([], log[0..]);
      MayStartStill([], log[0..]);
      for i := 0 to |rounds|
        invariant Valid() && bot != null && fresh(bot) && Settled(log) && Passes(log) == i
        invariant if WasActive(state) then Has(log, Startup(bot.id)) else MayStart(log)
      {
        state := Turn(state, rounds[i]);
        if state.None? {
          assert rounds[i] in rounds;
          OrderlyIsLawful(log, given);
          return true;
        }
      }
      OrderlyIsLawful(log, given);
      return false;
    }
  }

  lemma PassIsSettled(before: seq<Event>, state: BotState, did: seq<Event>, reload: seq<Event>)
    requires Settled(before) && (forall e :: e in did ==> !e.Found? && (e.Startup? ==> Active(state)))
    requires forall e :: e in reload ==> !e.Found? && !e.Startup?
    requires Active(state) ==> exists e :: e in did && e.Process?
    requires state == RELOAD_CONFIG ==> exists e :: e in reload && e.Built?
    ensures var log := before + [Found(state)] + did + reload;
            Settled(log) && Passes(log) == Passes(before) + 1 && (!Active(state) ==> MayStart(log))
  {
    var more := did + reload;
    assert forall e :: e in more <==> e in did || e in reload;
    Later(before, state, more);
    OnePass(before, state, more);
    if !Active(state) {
      MayStartAgain(before, state, more);
    }
    assert before + [Found(state)] + did + reload == before + [Found(state)] + more;
  }
}
