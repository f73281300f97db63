/**
 The job queue of quantlab/services.py and the cancel endpoint of quantlab/api/app.py: one runner that may
 crash at any time, and an API that adds and cancels jobs between any two of its database sessions.
 */
module JobQueue {
  import opened Outcomes

  datatype Status = Queued | Running | Done | Error | Cancelled

  datatype Job = Job(kind: string, status: Status, progress: real, note: string, error: string, cancelRequested: bool)

  // What the runner is at: between jobs, within one, leaving one after a cancel request, or crashed.
  datatype Runner = Idle | Within(id: nat) | Leaving(id: nat) | Down

  datatype State = State(jobs: map<nat, Job>, nextId: nat, runner: Runner)

  const Initial := State(map[], 0, Idle)

  const RESTARTED := "restarted after worker restart"

  predicate Finished(j: Job) {
    j.status in {Done, Error, Cancelled}
  }

  predicate HasStatus(s: State, id: nat, status: Status) {
    id in s.jobs && s.jobs[id].status == status
  }

  ghost function QueuedIds(s: State): set<nat> {
    set id | id in s.jobs && s.jobs[id].status == Queued
  }

  ghost function RunningIds(s: State): set<nat> {
    set id | id in s.jobs && s.jobs[id].status == Running
  }

  // The first queued job in the order of ids.
  function FirstQueued(s: State, from: nat): (r: Option<nat>)
    requires from <= s.nextId
    ensures r.Some? ==> from <= r.value < s.nextId && HasStatus(s, r.value, Queued)
    ensures forall id :: from <= id < (if r.Some? then r.value else s.nextId) ==> !HasStatus(s, id, Queued)
    decreases s.nextId - from
  {
    if from == s.nextId then None
    else if HasStatus(s, from, Queued) then Some(from)
    else FirstQueued(s, from + 1)
  }

  // ---- steps: one database session each ----

  // A report of a job whose cancellation was requested ends in an exception, so its session is rolled back.

  datatype Step =
    | Enqueue(kind: string)
    | Cancel(id: nat)
    | Claim
    | Report(progress: real, note: string)
    | Finish
    | Fail(message: string)
    | Leave
    | Crash
    | Recover

  predicate Enabled(s: State, step: Step) {
    match step
    case Enqueue(_) => true
    case Cancel(id) => id in s.jobs
    case Claim => s.runner == Idle
    case Report(_, _) => s.runner.Within? && s.runner.id in s.jobs
    case Finish => s.runner.Within? && s.runner.id in s.jobs
    case Fail(_) => s.runner.Within? && s.runner.id in s.jobs
    case Leave => s.runner.Leaving? && s.runner.id in s.jobs
    case Crash => true
    case Recover => s.runner == Down
  }

  function WithJob(s: State, id: nat, j: Job, runner: Runner): State {
    s.(jobs := s.jobs[id := j], runner := runner)
  }

  function Requeued(j: Job): Job {
    if j.status == Running then j.(status := Queued, progress := 0.0, note := RESTARTED) else j
  }

  function Apply(s: State, step: Step): State
    requires Enabled(s, step)
  {
    match step
    case Enqueue(kind) =>
      s.(jobs := s.jobs[s.nextId := Job(kind, Queued, 0.0, "", "", false)], nextId := s.nextId + 1)
    case Cancel(id) =>
      var j := s.jobs[id];
      var status := if j.status == Queued then Cancelled else j.status;
      s.(jobs := s.jobs[id := j.(cancelRequested := true, status := status)])
    case Claim =>
      var first := FirstQueued(s, 0);
      if first.None? then s
      else if s.jobs[first.value].cancelRequested then
        WithJob(s, first.value, s.jobs[first.value].(status := Cancelled), Idle)
      else WithJob(s, first.value, s.jobs[first.value].(status := Running), Within(first.value))
    case Report(progress, note) =>
      var j := s.jobs[s.runner.id];
      if j.cancelRequested then s.(runner := Leaving(s.runner.id))
      else WithJob(s, s.runner.id, j.(progress := progress, note := if note != "" then note else j.note), s.runner)
    case Finish => WithJob(s, s.runner.id, s.jobs[s.runner.id].(status := Done, progress := 1.0), Idle)
    case Fail(message) => WithJob(s, s.runner.id, s.jobs[s.runner.id].(status := Error, error := message), Idle)
    case Leave => WithJob(s, s.runner.id, s.jobs[s.runner.id].(status := Cancelled), Idle)
    case Crash => s.(runner := Down)
    case Recover => s.(jobs := map id | id in s.jobs :: Requeued(s.jobs[id]), runner := Idle)
  }

  // ---- what every step keeps ----

  // Ids are given out in order. The runner's job is running, and no other is, except for the one a crash has
  // left behind.
  ghost predicate Inv(s: State) {
    && (forall id :: id in s.jobs ==> id < s.nextId)
    && (forall id, other :: HasStatus(s, id, Running) && HasStatus(s, other, Running) ==> id == other)
    && match s.runner
       case Idle => forall id :: !HasStatus(s, id, Running)
       case Within(id) => HasStatus(s, id, Running)
       case Leaving(id) => HasStatus(s, id, Running)
       case Down => true
  }

  lemma StepKeepsInv(s: State, step: Step)
    requires Inv(s) && Enabled(s, step)
    ensures Inv(Apply(s, step))
  {
    var t := Apply(s, step);
    assert forall id: nat :: HasStatus(t, id, Running) ==>
      HasStatus(s, id, Running) || (step.Claim? && FirstQueued(s, 0) == Some(id));
  }

  ghost predicate IsRun(s: State, steps: seq<Step>)
    decreases |steps|
  {
    steps == [] || (Enabled(s, steps[0]) && IsRun(Apply(s, steps[0]), steps[1..]))
  }

  ghost function After(s: State, steps: seq<Step>): State
    requires IsRun(s, steps)
    decreases |steps|
  {
    if steps == [] then s else After(Apply(s, steps[0]), steps[1..])
  }

  lemma {:induction false} RunKeepsInv(s: State, steps: seq<Step>)
    requires Inv(s) && IsRun(s, steps)
    ensures Inv(After(s, steps))
    decreases |steps|
  {
    if steps != [] {
      StepKeepsInv(s, steps[0]);
      RunKeepsInv(Apply(s, steps[0]), steps[1..]);
    }
  }

  // Whatever happens, at most one job is running.
  lemma OneJobAtATime(steps: seq<Step>, a: nat, b: nat)
    requires IsRun(Initial, steps)
    requires HasStatus(After(Initial, steps), a, Running) && HasStatus(After(Initial, steps), b, Running)
    ensures a == b
  {
    RunKeepsInv(Initial, steps);
  }

  // A finished job keeps its status, error and progress for good, so it never runs again.
  lemma {:induction false} FinishedForGood(s: State, steps: seq<Step>, id: nat)
    requires Inv(s) && IsRun(s, steps) && id in s.jobs && Finished(s.jobs[id])
    ensures var t := After(s, steps);
            && id in t.jobs
            && t.jobs[id].(cancelRequested := s.jobs[id].cancelRequested) == s.jobs[id]
    decreases |steps|
  {
    if steps != [] {
      StepKeepsInv(s, steps[0]);
      FinishedForGood(Apply(s, steps[0]), steps[1..], id);
    }
  }

  // ---- requests to cancel ----

  // A request to cancel a job is never taken back, and no job changes its kind.
  lemma {:induction false} RequestIsForGood(s: State, steps: seq<Step>, id: nat)
    requires Inv(s) && IsRun(s, steps) && id in s.jobs
    ensures var t := After(s, steps);
            && id in t.jobs && t.jobs[id].kind == s.jobs[id].kind
            && (s.jobs[id].cancelRequested ==> t.jobs[id].cancelRequested)
    decreases |steps|
  {
    if steps != [] {
      StepKeepsInv(s, steps[0]);
      RequestIsForGood(Apply(s, steps[0]), steps[1..], id);
    }
  }

  // A job that is not running when its cancellation is requested never runs.
  lemma {:induction false} CancelledNeverStarts(s: State, steps: seq<Step>, id: nat)
    requires Inv(s) && IsRun(s, steps) && id in s.jobs && s.jobs[id].cancelRequested && s.jobs[id].status != Running
    ensures var t := After(s, steps); id in t.jobs && t.jobs[id].status != Running && t.jobs[id].cancelRequested
    decreases |steps|
  {
    if steps != [] {
      StepKeepsInv(s, steps[0]);
      CancelledNeverStarts(Apply(s, steps[0]), steps[1..], id);
    }
  }

  // One that is running may be put back in the queue by a crash. It does not start again either.
  lemma CancelledDoesNotRestart(s: State, steps: seq<Step>, id: nat)
    requires Inv(s) && s.runner == Down && HasStatus(s, id, Running) && s.jobs[id].cancelRequested
    requires IsRun(Apply(s, Recover), steps)
    ensures HasStatus(Apply(s, Recover), id, Queued) && !HasStatus(After(Apply(s, Recover), steps), id, Running)
  {
    StepKeepsInv(s, Recover);
    CancelledNeverStarts(Apply(s, Recover), steps, id);
  }

  // A claim takes the lowest queued id and nothing else: it starts it, or cancels it when that was requested.
  lemma ClaimTakesLowest(s: State)
    requires Inv(s) && s.runner == Idle
    ensures var t, queue := Apply(s, Claim), QueuedIds(s);
            if queue == {} then t == s
            else exists id ::
              && id in queue && (forall other :: other in queue ==> id <= other)
              && QueuedIds(t) == queue - {id}
              && (forall other :: other in s.jobs && other != id ==> other in t.jobs && t.jobs[other] == s.jobs[other])
              && (if s.jobs[id].cancelRequested then HasStatus(t, id, Cancelled) && t.runner == Idle
                  else HasStatus(t, id, Running) && t.runner == Within(id))
  {
    var first := FirstQueued(s, 0);
    if first.None? {
      assert forall id :: id in QueuedIds(s) ==> HasStatus(s, id, Queued);
    } else {
      var id := first.value;
      assert id in QueuedIds(s);
      forall other | other in QueuedIds(s) ensures id <= other {
        assert HasStatus(s, other, Queued);
      }
      assert QueuedIds(Apply(s, Claim)) == QueuedIds(s) - {id};
    }
  }

  // Recovery puts back exactly the job that was running, if there was one, and touches no other.
  lemma RecoveryRequeuesExactlyRunning(s: State)
    requires Inv(s) && s.runner == Down
    ensures var t := Apply(s, Recover);
            && (forall id :: id in s.jobs ==>
                  && id in t.jobs
                  && t.jobs[id] == if s.jobs[id].status != Running then s.jobs[id]
                                   else Job(s.jobs[id].kind, Queued, 0.0, "restarted after worker restart",
                                            s.jobs[id].error, s.jobs[id].cancelRequested))
            && t.jobs.Keys == s.jobs.Keys
            && (forall id :: !HasStatus(t, id, Running))
            && (forall a, b :: a in QueuedIds(t) - QueuedIds(s) && b in QueuedIds(t) - QueuedIds(s) ==> a == b)
  {
    var t := Apply(s, Recover);
    forall id | id in QueuedIds(t) - QueuedIds(s) ensures HasStatus(s, id, Running) {
      assert t.jobs[id] == Requeued(s.jobs[id]);
    }
  }

  // ---- one job from claim to end ----

  // Steps that may happen while the runner is within a job and does not crash, and no job is added.
  ghost predicate Meanwhile(steps: seq<Step>) {
    forall step :: step in steps ==> !step.Enqueue? && !step.Claim? && !step.Crash? && !step.Recover?
  }

  ghost function CancelledIds(steps: seq<Step>): set<nat> {
    set step | step in steps && step.Cancel? :: step.id
  }

  lemma {:induction false} QueueWaits(s: State, steps: seq<Step>)
    requires Inv(s) && IsRun(s, steps) && Meanwhile(steps)
    ensures QueuedIds(After(s, steps)) == QueuedIds(s) - CancelledIds(steps)
    decreases |steps|
  {
    if steps != [] {
      var t := Apply(s, steps[0]);
      StepKeepsInv(s, steps[0]);
      QueueWaits(t, steps[1..]);
      var now := if steps[0].Cancel? then {steps[0].id} else {};
      assert QueuedIds(t) == QueuedIds(s) - now;
      assert CancelledIds(steps) == now + CancelledIds(steps[1..]) by {
        assert forall step :: step in steps <==> step == steps[0] || step in steps[1..];
      }
    }
  }

  // From a claim to the end of the job, the queue loses its lowest job and those cancelled meanwhile, and no
  // other: without cancel requests it shrinks by exactly one.
  lemma RunOneShrinksQueue(s: State, steps: seq<Step>)
    requires Inv(s) && s.runner == Idle && QueuedIds(s) != {}
    requires IsRun(Apply(s, Claim), steps) && Meanwhile(steps)
    ensures var t := After(Apply(s, Claim), steps);
            && (exists id :: id in QueuedIds(s) && (forall other :: other in QueuedIds(s) ==> id <= other) &&
                             QueuedIds(t) == QueuedIds(s) - {id} - CancelledIds(steps))
            && (CancelledIds(steps) == {} ==> |QueuedIds(t)| == |QueuedIds(s)| - 1)
  {
    StepKeepsInv(s, Claim);
    ClaimTakesLowest(s);
    QueueWaits(Apply(s, Claim), steps);
  }

  // The job reports at some point after its cancellation was requested.
  ghost predicate Noticed(steps: seq<Step>, id: nat, requested: bool) {
    exists b :: 0 <= b < |steps| && steps[b].Report? && (requested || Cancel(id) in steps[..b])
  }

  lemma NoticedNext(steps: seq<Step>, id: nat, requested: bool)
    requires steps != []
    ensures Noticed(steps, id, requested) <==>
            (steps[0].Report? && requested) || Noticed(steps[1..], id, requested || steps[0] == Cancel(id))
  {
    var rest := steps[1..];
    forall b | 0 <= b < |rest|
      ensures Cancel(id) in steps[..b + 1] <==> steps[0] == Cancel(id) || Cancel(id) in rest[..b]
    {
      assert steps[..b + 1] == [steps[0]] + rest[..b];
    }
    if b :| 0 <= b < |rest| && rest[b].Report? && (requested || steps[0] == Cancel(id) || Cancel(id) in rest[..b]) {
      assert steps[b + 1].Report?;
    }
    if b :| 0 < b < |steps| && steps[b].Report? && (requested || Cancel(id) in steps[..b]) {
      assert rest[b - 1].Report?;
    }
  }

  // A cancel request is noticed at the next report and ends the job as cancelled; without such a report the job
  // ends well or with an error.
  lemma {:induction false} CancelIsNoticed(s: State, steps: seq<Step>, id: nat)
    requires Inv(s) && IsRun(s, steps) && Meanwhile(steps) && s.runner == Within(id)
    ensures var t := After(s, steps);
            if Noticed(steps, id, s.jobs[id].cancelRequested)
            then t.runner == Leaving(id) || HasStatus(t, id, Cancelled)
            else t.runner == Within(id) || HasStatus(t, id, Done) || HasStatus(t, id, Error)
    decreases |steps|
  {
    if steps != [] {
      var t := Apply(s, steps[0]);
      StepKeepsInv(s, steps[0]);
      NoticedNext(steps, id, s.jobs[id].cancelRequested);
      if t.runner == Within(id) {
        CancelIsNoticed(t, steps[1..], id);
      } else if t.runner == Leaving(id) {
        LeavingEndsCancelled(t, steps[1..], id);
      } else {
        IdleReportsNothing(t, steps[1..]);
        FinishedForGood(t, steps[1..], id);
      }
    }
  }

  lemma {:induction false} LeavingEndsCancelled(s: State, steps: seq<Step>, id: nat)
    requires Inv(s) && IsRun(s, steps) && Meanwhile(steps) && s.runner == Leaving(id)
    ensures After(s, steps).runner == Leaving(id) || HasStatus(After(s, steps), id, Cancelled)
    decreases |steps|
  {
    if steps != [] {
      var t := Apply(s, steps[0]);
      StepKeepsInv(s, steps[0]);
      if t.runner == Leaving(id) {
        LeavingEndsCancelled(t, steps[1..], id);
      } else {
        FinishedForGood(t, steps[1..], id);
      }
    }
  }

  lemma {:induction false} IdleReportsNothing(s: State, steps: seq<Step>)
    requires IsRun(s, steps) && Meanwhile(steps) && s.runner == Idle
    ensures forall step :: step in steps ==> !step.Report?
    decreases |steps|
  {
    if steps != [] {
      IdleReportsNothing(Apply(s, steps[0]), steps[1..]);
      assert forall step :: step in steps <==> step == steps[0] || step in steps[1..];
    }
  }

  // ---- the program ----

  class JobRunner {
    var jobs: map<nat, Job>
    var nextId: nat
    var runner: Runner

    ghost function View(): State
      reads this
    {
      State(jobs, nextId, runner)
    }

    constructor ()
      ensures View() == Initial
    {
      jobs, nextId, runner := map[], 0, Idle;
    }

    method EnqueueJob(kind: string) returns (id: nat)
      modifies this
      ensures id == old(nextId) && View() == Apply(old(View()), Enqueue(kind))
      ensures jobs == old(jobs)[id := Job(kind, Queued, 0.0, "", "", false)] && nextId == id + 1
    {
      id := nextId;
      jobs := jobs[id := Job(kind, Queued, 0.0, "", "", false)];
      nextId := nextId + 1;
    }

    method CancelJob(id: nat)
      requires id in jobs
      modifies this
      ensures View() == Apply(old(View()), Cancel(id))
      ensures var j := old(jobs)[id];
              var status := if j.status == Queued then Cancelled else j.status;
              jobs == old(jobs)[id := Job(j.kind, status, j.progress, j.note, j.error, true)]
    {
      var j := jobs[id].(cancelRequested := true);
      if j.status == Queued {
        j := j.(status := Cancelled);
      }
      jobs := jobs[id := j];
    }

    method RecoverJobs() returns (count: nat)
      requires runner == Down
      modifies this
      ensures View() == Apply(old(View()), Recover) && runner == Idle
      ensures count == |RunningIds(old(View()))|
    {
      var rows := set id | id in jobs && jobs[id].status == Running;
      assert rows == RunningIds(View());
      count := |rows|;
      var todo := rows;
      while todo != {}
        invariant todo <= rows && nextId == old(nextId) && runner == Down
        invariant jobs == map id | id in old(jobs) ::
                            if id in rows - todo then Requeued(old(jobs)[id]) else old(jobs)[id]
        decreases todo
      {
        var id :| id in todo;
        jobs := jobs[id := jobs[id].(status := Queued, progress := 0.0, note := RESTARTED)];
        todo := todo - {id};
      }
      runner := Idle;
      assert forall id :: id in old(jobs) ==> jobs[id] == Requeued(old(jobs)[id]);
    }

    method ClaimJob() returns (r: Option<nat>)
      requires Inv(View()) && runner == Idle
      modifies this
      ensures Inv(View()) && View() == Apply(old(View()), Claim)
      ensures r == if runner.Within? then Some(runner.id) else None
    {
      StepKeepsInv(View(), Claim);
      var first := FirstQueued(State(jobs, nextId, runner), 0);
      if first.None? {
        return None;
      }
      var j := jobs[first.value];
      if j.cancelRequested {
        jobs := jobs[first.value := j.(status := Cancelled)];
        return None;
      }
      jobs := jobs[first.value := j.(status := Running)];
      runner := Within(first.value);
      return first;
    }

    method Progress(progress: real, note: string) returns (cancelled: bool)
      requires Inv(View()) && runner.Within?
      modifies this
      ensures Inv(View()) && View() == Apply(old(View()), Report(progress, note)) && cancelled == runner.Leaving?
      ensures var id := old(runner.id);
              var j := old(jobs)[id];
              && cancelled == j.cancelRequested
              && jobs == if cancelled then old(jobs)
                         else old(jobs)[id := Job(j.kind, Running, progress, if note == "" then j.note else note,
                                                  j.error, false)]
    {
      StepKeepsInv(View(), Report(progress, note));
      var j := jobs[runner.id].(progress := progress);
      if note != "" {
        j := j.(note := note);
      }
      cancelled := j.cancelRequested;
      if cancelled {
        runner := Leaving(runner.id);
      } else {
        jobs := jobs[runner.id := j];
      }
    }

    // Jobs that others cancel before the next report.
    method OthersCancel(ids: seq<nat>) returns (ghost steps: seq<Step>)
      requires Inv(View())
      modifies this
      ensures Inv(View()) && runner == old(runner) && Meanwhile(steps)
      ensures IsRun(old(View()), steps) && View() == After(old(View()), steps)
    {
      steps := [];
      for i := 0 to |ids|
        invariant Inv(View()) && runner == old(runner) && Meanwhile(steps)
        invariant IsRun(old(View()), steps) && View() == After(old(View()), steps)
      {
        if ids[i] in jobs {
          StepKeepsInv(View(), Cancel(ids[i]));
          OneMore(old(View()), steps, Cancel(ids[i]));
          CancelJob(ids[i]);
          steps := steps + [Cancel(ids[i])];
        }
      }
    }

    method EndJob(end: Step)
      requires Inv(View()) && Enabled(View(), end) && (end.Finish? || end.Fail? || end.Leave?)
      modifies this
      ensures Inv(View()) && View() == Apply(old(View()), end) && runner == Idle
      ensures var id := old(runner.id);
              var j := old(jobs)[id];
              jobs == old(jobs)[id := match end
                                      case Finish => Job(j.kind, Done, 1.0, j.note, j.error, j.cancelRequested)
                                      case Fail(message) =>
                                        Job(j.kind, Error, j.progress, j.note, message, j.cancelRequested)
                                      case _ => Job(j.kind, Cancelled, j.progress, j.note, j.error, j.cancelRequested)]
    {
      StepKeepsInv(View(), end);
      var j := jobs[runner.id];
      j := match end
           case Finish => j.(status := Done, progress := 1.0)
           case Fail(message) => j.(status := Error, error := message)
           case _ => j.(status := Cancelled);
      jobs := jobs[runner.id := j];
      runner := Idle;
    }

    // Between two reports of the job others may cancel jobs.
    method NextReport(cancels: seq<nat>, progress: real, note: string) returns (cancelled: bool, ghost steps: seq<Step>)
      requires Inv(View()) && runner.Within?
      modifies this
      ensures Inv(View()) && Meanwhile(steps)
      ensures IsRun(old(View()), steps) && View() == After(old(View()), steps)
      ensures runner == if cancelled then Leaving(old(runner.id)) else old(runner)
    {
      steps := OthersCancel(cancels);
      OneMore(old(View()), steps, Report(progress, note));
      cancelled := Progress(progress, note);
      steps := steps + [Report(progress, note)];
    }

    // A job reports its progress now and then. It ends as cancelled exactly when it reports after its cancellation
    // was requested, and well or with an error otherwise.
    method RunOne(reports: seq<(seq<nat>, real, string)>, outcome: Option<string>)
      returns (busy: bool, ghost steps: seq<Step>)
      requires Inv(View()) && runner == Idle
      modifies this
      ensures Inv(View()) && runner == Idle && Meanwhile(steps)
      ensures IsRun(Apply(old(View()), Claim), steps) && View() == After(Apply(old(View()), Claim), steps)
      ensures busy <==> Apply(old(View()), Claim).runner.Within?
      ensures busy ==>
                var id := Apply(old(View()), Claim).runner.id;
                && id in jobs
                && jobs[id].status == if Noticed(steps, id, false) then Cancelled
                                      else if outcome.None? then Done else Error
    {
      steps := [];
      var claimed := ClaimJob();
      ghost var start := View();
      if claimed.None? {
        return false, steps;
      }
      var end := if outcome.None? then Finish else Fail(outcome.value);
      for i := 0 to |reports|
        invariant Inv(View()) && runner == Within(claimed.value) && Meanwhile(steps)
        invariant end == if outcome.None? then Finish else Fail(outcome.value)
        invariant IsRun(start, steps) && View() == After(start, steps)
      {
        var cancelled;
        ghost var more;
        cancelled, more := NextReport(reports[i].0, reports[i].1, reports[i].2);
        TwoParts(start, steps, more);
        steps := steps + more;
        if cancelled {
          end := Leave;
          break;
        }
      }
      OneMore(start, steps, end);
      steps := steps + [end];
      EndJob(end);
      CancelIsNoticed(start, steps, claimed.value);
      return true, steps;
    }

    // Everything the runner held in memory is gone.
    method CrashNow()
      modifies this
      ensures View() == Apply(old(View()), Crash) && jobs == old(jobs)
    {
      runner := Down;
    }

    // Any interleaving of the runner, its crashes and restarts, and the API.
    method Interleave(steps: seq<Step>)
      requires Inv(View()) && IsRun(View(), steps)
      modifies this
      ensures Inv(View()) && View() == After(old(View()), steps)
    {
      for i := 0 to |steps|
        invariant Inv(View()) && IsRun(View(), steps[i..])
        invariant After(View(), steps[i..]) == After(old(View()), steps)
      {
        assert steps[i..][0] == steps[i] && steps[i..][1..] == steps[i + 1..];
        StepKeepsInv(View(), steps[i]);
        match steps[i] {
          case Enqueue(kind) => var _ := EnqueueJob(kind);
          case Cancel(id) => CancelJob(id);
          case Claim => var _ := ClaimJob();
          case Report(progress, note) => var _ := Progress(progress, note);
          case Crash => CrashNow();
          case Recover => var _ := RecoverJobs();
          case _ => EndJob(steps[i]);
        }
      }
    }
  }

  lemma {:induction false} TwoParts(s: State, first: seq<Step>, second: seq<Step>)
    requires IsRun(s, first) && IsRun(After(s, first), second)
    ensures IsRun(s, first + second) && After(s, first + second) == After(After(s, first), second)
    decreases |first|
  {
    if first == [] {
      assert first + second == second;
    } else {
      TwoParts(Apply(s, first[0]), first[1..], second);
      assert (first + second)[1..] == first[1..] + second;
    }
  }

  lemma OneMore(s: State, steps: seq<Step>, step: Step)
    requires IsRun(s, steps) && Enabled(After(s, steps), step)
    ensures IsRun(s, steps + [step]) && After(s, steps + [step]) == Apply(After(s, steps), step)
  {
    var t := After(s, steps);
    assert [step][0] == step && [step][1..] == [];
    assert IsRun(Apply(t, step), []) && After(Apply(t, step), []) == Apply(t, step);
    assert IsRun(t, [step]) && After(t, [step]) == Apply(t, step);
    TwoParts(s, steps, [step]);
  }
}
