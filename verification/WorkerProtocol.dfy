/** The queue together with its remote workers (cmd/openmind/worker.go): a worker claims a task, runs an
    agent while a heartbeat listens for cancellation, and reports. Requests are synchronous; a request or
    its reply may be lost; every step of everybody interleaves. */
module WorkerProtocol {
  import opened Wrappers
  import opened Strings
  import opened Timestamps
  import opened Tasks

  type WorkerId = nat

  /** One execution of a task. `at` is the place of its claim in the history: a ghost generation, since
      nothing in a row tells one claim from the next. */
  datatype Run = Run(id: TaskId, at: nat)

  /** How the agent process ended. */
  datatype Outcome = Exited(ok: bool) | TimedOut | ShutDown

  datatype Phase =
    | Idle
    | Claiming                                    // the claim request is on its way
    | Answered(got: Option<Run>)                  // the claim reply is on its way
    | Working(run: Run, beat: Option<bool>, stop: bool) // `beat` is a heartbeat reply on its way
    | Reporting(run: Run, stop: bool, status: Status, report: string) // the report request is on its way
    | Reported                                    // the report reply is on its way

  /** A worker process; `name` is the token name it presents, and `stores` what the server keeps of a report. */
  datatype Worker = Worker(name: string, allowed: string -> bool, stores: string -> string, phase: Phase)

  datatype System = System(log: seq<Event>, workers: map<WorkerId, Worker>)

  datatype Action =
    | SendClaim(w: WorkerId)
    | ServeClaim(w: WorkerId, pick: Option<TaskId>, host: string, now: Instant)
    | DeliverClaim(w: WorkerId)
    | LoseClaim(w: WorkerId)      // the request or its reply is lost
    | ServeBeat(w: WorkerId, now: Instant)
    | DeliverBeat(w: WorkerId)
    | LoseBeat(w: WorkerId)
    | EndRun(w: WorkerId, outcome: Outcome, report: string)
    | ServeReport(w: WorkerId, now: Instant)
    | LoseReport(w: WorkerId)     // the request is lost, and the worker goes on without retrying
    | AckReport(w: WorkerId)      // the reply arrives, or is lost: the worker goes on either way
    | Restart(w: WorkerId)        // the process dies and is started again
    | Client(e: Event)            // anybody creates, cancels or requeues a task, or a late heartbeat arrives

  /** The status a run reports: done only if nothing stopped it and the agent exited cleanly. */
  function RunStatus(stop: bool, outcome: Outcome): Status {
    if outcome == TimedOut || stop || outcome == ShutDown || !outcome.ok then Failed else Done
  }

  /** The report statement of a worker's request. */
  function FinishOf(k: Worker, now: Instant): Event
    requires k.phase.Reporting?
  {
    Finish(k.phase.run.id, k.name, k.phase.status, k.stores(k.phase.report), now)
  }

  /** When a worker, or the server on its behalf, can take a step. */
  ghost predicate CanMove(log: seq<Event>, k: Worker, a: Action) {
    var p := k.phase;
    match a
    case SendClaim(_) => p.Idle?
    case ServeClaim(_, pick, _, _) => p.Claiming? && IsPick(Replay(log), k.name, k.allowed, pick)
    case DeliverClaim(_) => p.Answered?
    case LoseClaim(_) => p.Claiming? || p.Answered?
    case ServeBeat(_, _) => p.Working? && p.beat.None? && !p.stop
    case DeliverBeat(_) => p.Working? && p.beat.Some?
    case LoseBeat(_) => p.Working? && p.beat.Some?
    case EndRun(_, _, _) => p.Working?
    case ServeReport(_, _) => p.Reporting?
    case LoseReport(_) => p.Reporting?
    case AckReport(_) => p.Reported?
    case Restart(_) => true
    case Client(_) => false
  }

  /** The statement the server executes in the step. */
  ghost function Statement(log: seq<Event>, k: Worker, a: Action): Option<Event>
    requires CanMove(log, k, a)
  {
    match a
    case ServeClaim(_, Some(id), host, now) => Some(Claim(id, k.name, host, now))
    case ServeBeat(_, now) => Some(Beat(k.phase.run.id, k.name, now))
    case ServeReport(_, now) => Some(FinishOf(k, now))
    case _ => None
  }

  /** Where the worker is after the step. */
  ghost function NextPhase(log: seq<Event>, k: Worker, a: Action): Phase
    requires CanMove(log, k, a)
  {
    var p := k.phase;
    match a
    case SendClaim(_) => Claiming
    case ServeClaim(_, None, _, _) => Answered(None)
    case ServeClaim(_, Some(id), _, _) => Answered(Some(Run(id, |log|)))
    case DeliverClaim(_) => if p.got.Some? then Working(p.got.value, None, false) else Idle
    case ServeBeat(_, now) => p.(beat := Some(Enabled(Replay(log), Beat(p.run.id, k.name, now))))
    case DeliverBeat(_) => p.(beat := None, stop := p.stop || !p.beat.value)
    case LoseBeat(_) => p.(beat := None)
    case EndRun(_, outcome, report) => Reporting(p.run, p.stop, RunStatus(p.stop, outcome), report)
    case ServeReport(_, _) => Reported
    case _ => Idle
  }

  /** A statement takes effect if its guard holds. */
  function Serve(log: seq<Event>, e: Option<Event>): seq<Event> {
    if e.Some? && Enabled(Replay(log), e.value) then log + [e.value] else log
  }

  ghost predicate CanStep(s: System, a: Action) {
    if a.Client? then Enabled(Replay(s.log), a.e) && (a.e.Create? || a.e.Cancel? || a.e.Requeue? || a.e.Beat?)
    else a.w in s.workers && CanMove(s.log, s.workers[a.w], a)
  }

  ghost function Step(s: System, a: Action): System
    requires CanStep(s, a)
  {
    if a.Client? then s.(log := Serve(s.log, Some(a.e)))
    else
      var k := s.workers[a.w];
      System(Serve(s.log, Statement(s.log, k, a)), s.workers[a.w := k.(phase := NextPhase(s.log, k, a))])
  }

  /** Any past of the queue, and every worker about to ask for work. */
  predicate IsInitial(s: System) {
    IsHistory(s.log) && forall w :: w in s.workers ==> s.workers[w].phase == Idle
  }

  ghost predicate CanRun(s: System, actions: seq<Action>)
    decreases actions
  {
    actions == [] || (CanStep(s, actions[0]) && CanRun(Step(s, actions[0]), actions[1..]))
  }

  ghost function After(s: System, actions: seq<Action>): System
    requires CanRun(s, actions)
    decreases actions
  {
    if actions == [] then s else After(Step(s, actions[0]), actions[1..])
  }

  /** The states of all interleavings that start with these workers. */
  ghost predicate ReachableFrom(workers: map<WorkerId, Worker>, s: System) {
    exists start, actions ::
      IsInitial(start) && start.workers == workers && CanRun(start, actions) && After(start, actions) == s
  }

  /** Two workers that may be handed the same task: one token name, and a project both are granted. */
  ghost predicate AreRivals(j: Worker, k: Worker) {
    j.name == k.name && exists p :: j.allowed(p) && k.allowed(p)
  }

  ghost predicate HasNoRivals(workers: map<WorkerId, Worker>) {
    forall v, w :: v in workers && w in workers && v != w ==> !AreRivals(workers[v], workers[w])
  }

  /** The execution a worker is committed to. */
  function RunOf(p: Phase): Option<Run> {
    match p
    case Answered(got) => got
    case Working(run, _, _) => Some(run)
    case Reporting(run, _, _, _) => Some(run)
    case _ => None
  }

  /** The worker's execution stems from the task's latest claim, and nobody has reported on it yet. */
  predicate IsCurrent(log: seq<Event>, name: string, run: Run) {
    && run.at < |log|
    && log[run.at].Claim? && log[run.at].id == run.id && log[run.at].user == name
    && NoWorkSince(log, run.at + 1, run.id)
  }

  /** The task is in a granted project. */
  predicate IsGranted(log: seq<Event>, allowed: string -> bool, id: TaskId) {
    id in Replay(log) && allowed(Replay(log)[id].project)
  }

  predicate ToldToStop(p: Phase) {
    || (p.Working? && (p.stop || p.beat == Some(false)))
    || (p.Reporting? && p.stop)
  }

  predicate WorkerOk(log: seq<Event>, k: Worker) {
    && (RunOf(k.phase).Some? ==>
          IsCurrent(log, k.name, RunOf(k.phase).value) && IsGranted(log, k.allowed, RunOf(k.phase).value.id))
    && (ToldToStop(k.phase) ==> !NotTakenBackSince(log, k.phase.run.at + 1, k.phase.run.id))
    && (k.phase.Reporting? ==> k.phase.status in {Done, Failed} && (k.phase.stop ==> k.phase.status == Failed))
  }

  ghost predicate Invariant(s: System) {
    && IsHistory(s.log) && HasNoRivals(s.workers)
    && forall w :: w in s.workers ==> WorkerOk(s.log, s.workers[w])
  }

  /** A claim or report is none of this worker's business: another user's, or in a project it is not granted. */
  predicate IsForeign(log: seq<Event>, e: Event, k: Worker) {
    e.Claim? || e.Finish? ==> e.user != k.name || !IsGranted(log, k.allowed, e.id)
  }

  /** Projects are permanent, so a grant stays one. */
  lemma GrantIsPermanent(log: seq<Event>, e: Event, allowed: string -> bool, id: TaskId)
    requires IsHistory(log) && Enabled(Replay(log), e) && IsGranted(log, allowed, id)
    ensures IsGranted(log + [e], allowed, id)
  {
    HistoryExtends(log, e);
    assert (log + [e])[..|log|] == log;
    OrdersArePermanent(log + [e], |log|, id);
  }

  /** A foreign statement keeps what the worker relies on. */
  lemma OthersKeepTheirRuns(log: seq<Event>, e: Event, k: Worker)
    requires IsHistory(log) && Enabled(Replay(log), e) && WorkerOk(log, k) && IsForeign(log, e, k)
    ensures WorkerOk(log + [e], k)
  {
    if RunOf(k.phase).Some? {
      var run := RunOf(k.phase).value;
      RunningUntilTakenBack(log, run.at, run.id);
      assert !IsWorkOn(e, run.id);
      assert (log + [e])[..|log|] == log;
      SinceStep(log + [e], run.at + 1, run.id);
      GrantIsPermanent(log, e, k.allowed, run.id);
    }
  }

  lemma ServeKeeps(log: seq<Event>, e: Option<Event>, k: Worker)
    requires IsHistory(log) && WorkerOk(log, k)
    requires e.Some? ==> IsForeign(log, e.value, k)
    ensures WorkerOk(Serve(log, e), k)
  {
    if e.Some? && Enabled(Replay(log), e.value) {
      OthersKeepTheirRuns(log, e.value, k);
    }
  }

  /** A heartbeat answers false only if the task was taken back. */
  lemma BeatKeepsOk(log: seq<Event>, k: Worker, a: Action)
    requires IsHistory(log) && WorkerOk(log, k) && CanMove(log, k, a) && a.ServeBeat?
    ensures WorkerOk(Serve(log, Statement(log, k, a)), k.(phase := NextPhase(log, k, a)))
  {
    hide Replay;
    var run := k.phase.run;
    ServeKeeps(log, Statement(log, k, a), k);
    RunningUntilTakenBack(log, run.at, run.id);
  }

  /** A claim's place in the history becomes the run's generation. */
  lemma ClaimKeepsOk(log: seq<Event>, k: Worker, a: Action)
    requires IsHistory(log) && CanMove(log, k, a) && a.ServeClaim?
    ensures WorkerOk(Serve(log, Statement(log, k, a)), k.(phase := NextPhase(log, k, a)))
  {
    if a.pick.Some? {
      var e := Claim(a.pick.value, k.name, a.host, a.now);
      GrantIsPermanent(log, e, k.allowed, a.pick.value);
    }
    hide Replay;
  }

  /** A step keeps the moving worker's side of the invariant. */
  lemma MoverStaysOk(log: seq<Event>, k: Worker, a: Action)
    requires IsHistory(log) && WorkerOk(log, k) && CanMove(log, k, a)
    ensures WorkerOk(Serve(log, Statement(log, k, a)), k.(phase := NextPhase(log, k, a)))
  {
    hide Replay, IsPick, IsCurrent, IsGranted;
    if a.ServeBeat? {
      BeatKeepsOk(log, k, a);
    } else if a.ServeClaim? {
      ClaimKeepsOk(log, k, a);
    }
  }

  /** Claims and reports go out under the worker's own token and within its grants. */
  lemma StatementIsOwn(log: seq<Event>, k: Worker, a: Action)
    requires CanMove(log, k, a) && WorkerOk(log, k)
    ensures var e := Statement(log, k, a);
      e.Some? && (e.value.Claim? || e.value.Finish?) ==> e.value.user == k.name && IsGranted(log, k.allowed, e.value.id)
  {
    hide Replay;
  }

  lemma OwnIsForeignToOthers(log: seq<Event>, e: Event, j: Worker, k: Worker)
    requires !AreRivals(j, k)
    requires e.Claim? || e.Finish? ==> e.user == j.name && IsGranted(log, j.allowed, e.id)
    ensures IsForeign(log, e, k)
  {
  }

  lemma WorkerStaysOk(s: System, a: Action, v: WorkerId)
    requires Invariant(s) && CanStep(s, a) && v in s.workers
    ensures var k, k' := s.workers[v], Step(s, a).workers[v];
      WorkerOk(Step(s, a).log, k') && k'.name == k.name && k'.allowed == k.allowed
  {
    hide Replay, WorkerOk, CanMove, Statement, NextPhase, IsGranted, AreRivals;
    if a.Client? {
      ServeKeeps(s.log, Some(a.e), s.workers[v]);
    } else if v == a.w {
      MoverStaysOk(s.log, s.workers[v], a);
    } else {
      var e := Statement(s.log, s.workers[a.w], a);
      StatementIsOwn(s.log, s.workers[a.w], a);
      if e.Some? {
        OwnIsForeignToOthers(s.log, e.value, s.workers[a.w], s.workers[v]);
      }
      ServeKeeps(s.log, e, s.workers[v]);
    }
  }

  lemma ServeKeepsHistory(log: seq<Event>, e: Option<Event>)
    requires IsHistory(log)
    ensures IsHistory(Serve(log, e))
  {
    if e.Some? && Enabled(Replay(log), e.value) {
      HistoryExtends(log, e.value);
    }
  }

  /** Every step of a worker, the server or a client keeps the invariant. */
  lemma StepKeepsInvariant(s: System, a: Action)
    requires Invariant(s) && CanStep(s, a)
    ensures Invariant(Step(s, a))
  {
    hide Replay, WorkerOk, CanMove, Statement, NextPhase, Serve;
    ServeKeepsHistory(s.log, if a.Client? then Some(a.e) else Statement(s.log, s.workers[a.w], a));
    var next := Step(s, a);
    forall v | v in s.workers
      ensures var k, k' := s.workers[v], next.workers[v];
        WorkerOk(next.log, k') && k'.name == k.name && k'.allowed == k.allowed
    {
      WorkerStaysOk(s, a, v);
    }
    SameGrantsNoRivals(s.workers, next.workers);
  }

  lemma SameGrantsNoRivals(ws: map<WorkerId, Worker>, ws': map<WorkerId, Worker>)
    requires HasNoRivals(ws) && ws'.Keys == ws.Keys
    requires forall v :: v in ws ==> ws'[v].name == ws[v].name && ws'[v].allowed == ws[v].allowed
    ensures HasNoRivals(ws')
  {
    forall v, w | v in ws' && w in ws' && v != w
      ensures !AreRivals(ws'[v], ws'[w])
    {
      assert !AreRivals(ws[v], ws[w]);
    }
  }

  lemma {:induction false} RunKeepsInvariant(s: System, actions: seq<Action>)
    requires Invariant(s) && CanRun(s, actions)
    ensures Invariant(After(s, actions))
    decreases actions
  {
    if actions != [] {
      StepKeepsInvariant(s, actions[0]);
      RunKeepsInvariant(Step(s, actions[0]), actions[1..]);
    }
  }

  lemma ReachableIsOk(workers: map<WorkerId, Worker>, s: System)
    requires HasNoRivals(workers) && ReachableFrom(workers, s)
    ensures Invariant(s)
  {
    var start, actions :|
      IsInitial(start) && start.workers == workers && CanRun(start, actions) && After(start, actions) == s;
    RunKeepsInvariant(start, actions);
  }

  /** Without rivals, in every interleaving: a report on its way belongs to the task's latest
      claim, and the server accepts it if and only if nobody cancelled or requeued the task since that claim. */
  lemma ReportsAreForTheCurrentClaim(workers: map<WorkerId, Worker>, s: System, w: WorkerId, now: Instant)
    requires HasNoRivals(workers) && ReachableFrom(workers, s) && w in s.workers && s.workers[w].phase.Reporting?
    ensures var k, run := s.workers[w], s.workers[w].phase.run;
      && run.at < |s.log| && s.log[run.at].Claim? && s.log[run.at].id == run.id && s.log[run.at].user == k.name
      && (forall j :: run.at < j < |s.log| && s.log[j].Claim? ==> s.log[j].id != run.id)
      && (Enabled(Replay(s.log), FinishOf(k, now)) <==>
            forall j :: run.at < j < |s.log| && (s.log[j].Cancel? || s.log[j].Requeue?) ==> s.log[j].id != run.id)
  {
    ReachableIsOk(workers, s);
    var run := s.workers[w].phase.run;
    RunningUntilTakenBack(s.log, run.at, run.id);
    assert forall j :: run.at < j < |s.log| && s.log[j].Claim? ==> IsWorkOn(s.log[j], s.log[j].id);
    assert forall j :: run.at < j < |s.log| && (s.log[j].Cancel? || s.log[j].Requeue?) ==>
      TakesBack(s.log[j], s.log[j].id);
  }

  /** The heartbeat is a sound cancel channel: a run that was told to stop reports a failure, and that report
      is never accepted. */
  lemma StoppedRunsAreRefused(workers: map<WorkerId, Worker>, s: System, w: WorkerId, now: Instant)
    requires HasNoRivals(workers) && ReachableFrom(workers, s)
    requires w in s.workers && s.workers[w].phase.Reporting? && s.workers[w].phase.stop
    ensures s.workers[w].phase.status == Failed && !Enabled(Replay(s.log), FinishOf(s.workers[w], now))
  {
    ReachableIsOk(workers, s);
    var run := s.workers[w].phase.run;
    RunningUntilTakenBack(s.log, run.at, run.id);
  }

  /** No two workers are ever committed to the same task. */
  lemma WorkersNeverShareATask(workers: map<WorkerId, Worker>, s: System, v: WorkerId, w: WorkerId)
    requires HasNoRivals(workers) && ReachableFrom(workers, s) && v in s.workers && w in s.workers
    requires RunOf(s.workers[v].phase).Some? && RunOf(s.workers[w].phase).Some?
    requires RunOf(s.workers[v].phase).value.id == RunOf(s.workers[w].phase).value.id
    ensures v == w
  {
    ReachableIsOk(workers, s);
    var r, q := RunOf(s.workers[v].phase).value, RunOf(s.workers[w].phase).value;
    RunningUntilTakenBack(s.log, r.at, r.id);
    RunningUntilTakenBack(s.log, q.at, q.id);
  }

  // ---- where an accepted report comes from ----

  /** The worker ends a run whose report is `e`: it says done if and only if the agent exited cleanly and the run
      was not told to stop. */
  ghost predicate IsEndOf(s: System, a: Action, e: Event) {
    && a.EndRun? && a.w in s.workers && s.workers[a.w].phase.Working? && e.Finish?
    && e.id == s.workers[a.w].phase.run.id && e.user == s.workers[a.w].name
    && e.report == s.workers[a.w].stores(a.report)
    && e.status == if a.outcome == Exited(true) && !s.workers[a.w].phase.stop then Done else Failed
  }

  /** Some step of the run is the end of the execution that `e` reports. */
  ghost predicate HasEndOf(s: System, actions: seq<Action>, e: Event)
    requires CanRun(s, actions)
    decreases actions
  {
    actions != [] && (IsEndOf(s, actions[0], e) || HasEndOf(Step(s, actions[0]), actions[1..], e))
  }

  /** A worker is about to send the report `e`. */
  ghost predicate IsReporting(s: System, w: WorkerId, e: Event) {
    && w in s.workers && s.workers[w].phase.Reporting? && e.Finish? && FinishOf(s.workers[w], e.now) == e
  }

  /** Along any run, every accepted report comes from the end of an execution in that run: nobody else writes
      `done`, and nothing turns a failed execution into a done one. */
  lemma ReportsComeFromRuns(start: System, actions: seq<Action>, j: nat)
    requires IsInitial(start) && CanRun(start, actions)
    requires |start.log| <= j < |After(start, actions).log| && After(start, actions).log[j].Finish?
    ensures HasEndOf(start, actions, After(start, actions).log[j])
  {
    hide HasEndOf, CanStep, Step;
    var w := ReportHasSource(start, actions, j);
  }

  lemma {:induction false} ReportHasSource(s: System, actions: seq<Action>, j: nat) returns (w: WorkerId)
    requires CanRun(s, actions)
    requires |s.log| <= j < |After(s, actions).log| && After(s, actions).log[j].Finish?
    ensures var e := After(s, actions).log[j]; HasEndOf(s, actions, e) || IsReporting(s, w, e)
    decreases actions
  {
    hide CanStep, Step, IsEndOf, IsReporting;
    w := 0;
    if actions != [] {
      var e, next := After(s, actions).log[j], Step(s, actions[0]);
      LogsGrow(next, actions[1..]);
      if j < |next.log| {
        NewReportHasSource(s, actions[0], j);
        w := actions[0].w;
      } else {
        var v := ReportHasSource(next, actions[1..], j);
        if IsReporting(next, v, e) {
          ReportingHasSource(s, actions[0], v, e);
          w := v;
        }
      }
    }
  }

  /** A report that the step adds to the log was on its way. */
  lemma NewReportHasSource(s: System, a: Action, j: nat)
    requires CanStep(s, a) && |s.log| <= j < |Step(s, a).log| && Step(s, a).log[j].Finish?
    ensures !a.Client? && IsReporting(s, a.w, Step(s, a).log[j])
  {
    hide Replay, IsPick;
  }

  /** A report that is on its way after the step was so before it, or its execution has just ended. */
  lemma ReportingHasSource(s: System, a: Action, w: WorkerId, e: Event)
    requires CanStep(s, a) && IsReporting(Step(s, a), w, e)
    ensures IsReporting(s, w, e) || IsEndOf(s, a, e)
  {
    hide Replay, IsPick, Enabled;
  }

  lemma {:induction false} LogsGrow(s: System, actions: seq<Action>)
    requires CanRun(s, actions)
    ensures s.log <= After(s, actions).log
    decreases actions
  {
    hide CanStep, Statement, NextPhase, Enabled;
    if actions != [] {
      LogsGrow(Step(s, actions[0]), actions[1..]);
    }
  }

  // ---- the cancel channel ----

  /** The worker hears from a heartbeat that its task is no longer wanted. */
  ghost predicate HearsStop(s: System, a: Action, w: WorkerId) {
    a == DeliverBeat(w) && w in s.workers && s.workers[w].phase.Working? && s.workers[w].phase.beat == Some(false)
  }

  ghost predicate HasHeardStop(s: System, actions: seq<Action>, w: WorkerId)
    requires CanRun(s, actions)
    decreases actions
  {
    actions != [] && (HearsStop(s, actions[0], w) || HasHeardStop(Step(s, actions[0]), actions[1..], w))
  }

  predicate LeavesRun(a: Action, w: WorkerId) {
    (a.EndRun? || a.Restart?) && a.w == w
  }

  /** As long as an execution lasts, it is to be stopped if and only if some heartbeat was answered so. */
  lemma {:induction false} StoppedIffHeard(s: System, actions: seq<Action>, w: WorkerId)
    requires CanRun(s, actions) && w in s.workers && s.workers[w].phase.Working?
    requires forall a :: a in actions ==> !LeavesRun(a, w)
    ensures var t := After(s, actions);
      && w in t.workers && t.workers[w].phase.Working? && t.workers[w].phase.run == s.workers[w].phase.run
      && (t.workers[w].phase.stop <==> s.workers[w].phase.stop || HasHeardStop(s, actions, w))
    decreases actions
  {
    hide CanStep, Step, HearsStop;
    if actions != [] {
      assert actions[0] in actions;
      StaysInRun(s, actions[0], w);
      StoppedIffHeard(Step(s, actions[0]), actions[1..], w);
    }
  }

  lemma StaysInRun(s: System, a: Action, w: WorkerId)
    requires CanStep(s, a) && w in s.workers && s.workers[w].phase.Working? && !LeavesRun(a, w)
    ensures var t := Step(s, a);
      && w in t.workers && t.workers[w].phase.Working? && t.workers[w].phase.run == s.workers[w].phase.run
      && (t.workers[w].phase.stop <==> s.workers[w].phase.stop || HearsStop(s, a, w))
  {
    hide Replay, IsPick, Enabled;
  }

  /** A heartbeat is answered by whether the worker's task runs, assigned to its user. */
  lemma HeartbeatAnswers(s: System, w: WorkerId, now: Instant)
    requires CanStep(s, ServeBeat(w, now))
    ensures var k, t := s.workers[w], Step(s, ServeBeat(w, now));
      var tb, id := Replay(s.log), k.phase.run.id;
      t.workers[w].phase.beat ==
        Some(id in tb && tb[id].assignee == k.name && tb[id].status == Running)
  {
    hide Replay;
  }

  // ---- exactly when it holds ----

  predicate IsClaimOf(e: Event, id: TaskId) {
    e.Claim? && e.id == id
  }

  /** The worker is about to report on a task that was claimed again since its own claim. */
  predicate IsStaleReport(s: System, w: WorkerId) {
    && w in s.workers && s.workers[w].phase.Reporting?
    && exists j :: s.workers[w].phase.run.at < j < |s.log| && IsClaimOf(s.log[j], s.workers[w].phase.run.id)
  }

  /** And the server will accept the report. */
  predicate IsAcceptedStaleReport(s: System, w: WorkerId, now: Instant) {
    IsStaleReport(s, w) && Enabled(Replay(s.log), FinishOf(s.workers[w], now))
  }

  const NOON: Instant := Clock(2026, 9, 20, 12, 0, 0, 0)

  /** The three steps of an undisturbed claim. */
  function ClaimSteps(w: WorkerId, id: TaskId): seq<Action> {
    [SendClaim(w), ServeClaim(w, Some(id), "host", NOON), DeliverClaim(w)]
  }

  lemma ClaimSucceeds(s: System, w: WorkerId, id: TaskId)
    requires w in s.workers && s.workers[w].phase == Idle
    requires IsPick(Replay(s.log), s.workers[w].name, s.workers[w].allowed, Some(id))
    ensures CanRun(s, ClaimSteps(w, id))
    ensures After(s, ClaimSteps(w, id)) == System(
      s.log + [Claim(id, s.workers[w].name, "host", NOON)],
      s.workers[w := s.workers[w].(phase := Working(Run(id, |s.log|), None, false))])
  {
    var serve := ServeClaim(w, Some(id), "host", NOON);
    var s1 := Step(s, SendClaim(w));
    var s2 := Step(s1, serve);
    var s3 := Step(s2, DeliverClaim(w));
    RunFromStep(s2, DeliverClaim(w), []);
    RunFromStep(s1, serve, [DeliverClaim(w)]);
    RunFromStep(s, SendClaim(w), [serve, DeliverClaim(w)]);
  }

  lemma RunFromStep(s: System, a: Action, rest: seq<Action>)
    requires CanStep(s, a) && CanRun(Step(s, a), rest)
    ensures CanRun(s, [a] + rest) && After(s, [a] + rest) == After(Step(s, a), rest)
  {
    assert ([a] + rest)[1..] == rest;
  }

  lemma {:induction false} RunsCompose(s: System, first: seq<Action>, rest: seq<Action>)
    requires CanRun(s, first) && CanRun(After(s, first), rest)
    ensures CanRun(s, first + rest) && After(s, first + rest) == After(After(s, first), rest)
    decreases first
  {
    hide Step, CanStep;
    if first == [] {
      assert first + rest == rest;
    } else {
      RunsCompose(Step(s, first[0]), first[1..], rest);
      RunFromStep(s, first[0], first[1..] + rest);
      assert first + rest == [first[0]] + (first[1..] + rest);
    }
  }

  /** A task of this user in this project, its claim, and what puts it back. */
  function Ordered(name: string, p: string): Task {
    Task("t1", p, "t", "p", name, "owner", Queued, "", NOON, Unset, Unset, Unset, "")
  }

  function ClaimBy(name: string): Event {
    Claim("t1", name, "host", NOON)
  }

  const REQUEUE := Requeue("t1", Running)
  const FIRST := Run("t1", 1)
  const SECOND := Run("t1", 3)

  /** Ordered; claimed; requeued; claimed again. */
  function Trace(name: string, p: string, n: nat): (log: seq<Event>)
    requires n > 0
    ensures |log| == n
  {
    if n == 1 then [Create(Ordered(name, p))]
    else Trace(name, p, n - 1) + [TraceStep(name, n - 1)]
  }

  function TraceStep(name: string, n: nat): Event {
    if n % 2 == 1 then ClaimBy(name) else REQUEUE
  }

  lemma NextInTrace(name: string, p: string, n: nat)
    requires n > 0
    ensures Trace(name, p, n + 1) == Trace(name, p, n) + [TraceStep(name, n)]
  {
  }

  /** The table along the trace. */
  function TraceTable(name: string, p: string, n: nat): Table {
    map["t1" := if n % 2 == 1 then Ordered(name, p) else Update(Ordered(name, p), ClaimBy(name))]
  }

  lemma TraceMoves(name: string, p: string, n: nat)
    requires n > 0
    ensures var tb, e := TraceTable(name, p, n), TraceStep(name, n);
      Enabled(tb, e) && Apply(tb, e) == TraceTable(name, p, n + 1)
  {
  }

  /** The task is queued after each requeue and running after each claim. */
  lemma {:induction false} TraceReplays(name: string, p: string, n: nat)
    requires n > 0
    ensures IsHistory(Trace(name, p, n)) && Replay(Trace(name, p, n)) == TraceTable(name, p, n)
  {
    hide Replay, IsHistory, TraceTable, TraceStep, Trace, Enabled, Apply;
    if n == 1 {
      TraceStarts(name, p);
    } else {
      TraceReplays(name, p, n - 1);
      TraceMoves(name, p, n - 1);
      NextInTrace(name, p, n - 1);
      HistoryExtends(Trace(name, p, n - 1), TraceStep(name, n - 1));
    }
  }

  lemma TraceStarts(name: string, p: string)
    ensures IsHistory(Trace(name, p, 1)) && Replay(Trace(name, p, 1)) == TraceTable(name, p, 1)
  {
    assert [] + [Create(Ordered(name, p))] == Trace(name, p, 1);
    HistoryExtends([], Create(Ordered(name, p)));
  }

  function InPhase(ws: map<WorkerId, Worker>, v: WorkerId, p: Phase): map<WorkerId, Worker>
    requires v in ws
  {
    ws[v := ws[v].(phase := p)]
  }

  /** An idle worker claims the task of the trace. */
  lemma TraceClaim(ws: map<WorkerId, Worker>, v: WorkerId, p: string, n: nat)
    requires v in ws && ws[v].phase == Idle && ws[v].allowed(p) && (n == 1 || n == 3)
    ensures var s, name := System(Trace(ws[v].name, p, n), ws), ws[v].name;
      CanRun(s, ClaimSteps(v, "t1")) &&
      After(s, ClaimSteps(v, "t1")) == System(Trace(name, p, n + 1), InPhase(ws, v, Working(Run("t1", n), None, false)))
  {
    hide After, CanRun, ClaimSteps, Replay, Trace;
    TraceReplays(ws[v].name, p, n);
    NextInTrace(ws[v].name, p, n);
    ClaimSucceeds(System(Trace(ws[v].name, p, n), ws), v, "t1");
  }

  lemma TraceRequeue(ws: map<WorkerId, Worker>, name: string, p: string)
    ensures var s := System(Trace(name, p, 2), ws);
      CanRun(s, [Client(REQUEUE)]) && After(s, [Client(REQUEUE)]) == System(Trace(name, p, 3), ws)
  {
    TraceReplays(name, p, 2);
    RunFromStep(System(Trace(name, p, 2), ws), Client(REQUEUE), []);
  }

  lemma TraceEnd(ws: map<WorkerId, Worker>, v: WorkerId, log: seq<Event>, run: Run)
    requires v in ws && ws[v].phase == Working(run, None, false)
    ensures var s, end := System(log, ws), [EndRun(v, Exited(true), "old")];
      CanRun(s, end) && After(s, end) == System(log, InPhase(ws, v, Reporting(run, false, Done, "old")))
  {
    RunFromStep(System(log, ws), EndRun(v, Exited(true), "old"), []);
  }

  /** Two rivals break it: the task is ordered, claimed by one, requeued and claimed by the other, and the server
      then accepts the first one's report. */
  lemma RivalsBreakIt(ws: map<WorkerId, Worker>, v: WorkerId, w: WorkerId, p: string) returns (s: System)
    requires AllIdle(ws) && v in ws && w in ws && v != w && ws[v].name == ws[w].name
    requires ws[v].allowed(p) && ws[w].allowed(p)
    ensures ReachableFrom(ws, s) && IsAcceptedStaleReport(s, v, NOON)
  {
    hide After, CanRun, ClaimSteps, Replay, ReachableFrom;
    var name := ws[v].name;
    var ws1 := InPhase(ws, v, Working(FIRST, None, false));
    var ws2 := InPhase(ws1, w, Working(SECOND, None, false));
    TraceClaim(ws, v, p, 1);
    TraceRequeue(ws1, name, p);
    TraceClaim(ws1, w, p, 3);
    TraceEnd(ws2, v, Trace(name, p, 4), FIRST);
    var start := System(Trace(name, p, 1), ws);
    TraceReplays(name, p, 1);
    StartIsReachable(start);
    s := start;
    s := ReachOn(ws, s, ClaimSteps(v, "t1"));
    s := ReachOn(ws, s, [Client(REQUEUE)]);
    s := ReachOn(ws, s, ClaimSteps(w, "t1"));
    s := ReachOn(ws, s, [EndRun(v, Exited(true), "old")]);
    StaleAtTheEnd(s, v, name, p);
  }

  predicate AllIdle(ws: map<WorkerId, Worker>) {
    forall v :: v in ws ==> ws[v].phase == Idle
  }

  lemma StartIsReachable(start: System)
    requires IsInitial(start)
    ensures ReachableFrom(start.workers, start)
  {
    assert CanRun(start, []) && After(start, []) == start;
  }

  /** What can be reached from a reachable state is reachable. */
  lemma ReachOn(ws: map<WorkerId, Worker>, s: System, actions: seq<Action>) returns (next: System)
    requires ReachableFrom(ws, s) && CanRun(s, actions)
    ensures next == After(s, actions) && ReachableFrom(ws, next)
  {
    hide After, CanRun;
    var start, first :| IsInitial(start) && start.workers == ws && CanRun(start, first) && After(start, first) == s;
    RunsCompose(start, first, actions);
    next := After(s, actions);
    assert CanRun(start, first + actions);
  }

  /** At the end of the trace the report of the first claim is stale, and accepted. */
  lemma StaleAtTheEnd(s: System, v: WorkerId, name: string, p: string)
    requires s.log == Trace(name, p, 4) && v in s.workers && s.workers[v].name == name
    requires s.workers[v].phase == Reporting(FIRST, false, Done, "old")
    ensures IsAcceptedStaleReport(s, v, NOON)
  {
    TraceReplays(name, p, 4);
    hide Replay;
    assert IsClaimOf(s.log[3], "t1");
  }

  /** Every reachable report is for its task's latest claim, if and only if no two workers share both a token
      name and a granted project; and the same for every report that the server would accept. */
  lemma ReportsAreCurrentIff(ws: map<WorkerId, Worker>)
    requires AllIdle(ws)
    ensures HasNoRivals(ws) <==> forall s, w :: ReachableFrom(ws, s) ==> !IsStaleReport(s, w)
    ensures HasNoRivals(ws) <==> forall s, w, now :: ReachableFrom(ws, s) ==> !IsAcceptedStaleReport(s, w, now)
  {
    hide ReachableFrom, Replay;
    if HasNoRivals(ws) {
      forall s, w | ReachableFrom(ws, s)
        ensures !IsStaleReport(s, w)
      {
        if IsStaleReport(s, w) {
          ReportsAreForTheCurrentClaim(ws, s, w, NOON);
        }
      }
    } else {
      var v, w :| v in ws && w in ws && v != w && AreRivals(ws[v], ws[w]);
      var p :| ws[v].allowed(p) && ws[w].allowed(p);
      var s := RivalsBreakIt(ws, v, w, p);
    }
  }

  // ---- requests that outlive their client ----

  /** A state in which the worker has given up a claim request on the way. */
  ghost predicate HasGivenUp(ws: map<WorkerId, Worker>, v: WorkerId, s: System) {
    exists start, actions ::
      IsInitial(start) && start.workers == ws && CanRun(start, actions) && After(start, actions) == s
      && LoseClaim(v) in actions
  }

  /** The worker asks, gives up, and asks again. */
  lemma GivenUpThenClaimed(ws: map<WorkerId, Worker>, v: WorkerId, p: string) returns (actions: seq<Action>)
    requires AllIdle(ws) && v in ws && ws[v].allowed(p)
    ensures var start := System(Trace(ws[v].name, p, 1), ws);
      CanRun(start, actions) && LoseClaim(v) in actions &&
      After(start, actions) == System(Trace(ws[v].name, p, 3), InPhase(ws, v, Working(FIRST, None, false)))
  {
    hide After, CanRun, ClaimSteps, Replay, Trace;
    var name := ws[v].name;
    var start := System(Trace(name, p, 1), ws);
    GivingUpChangesNothing(start, v);
    TraceClaim(ws, v, p, 1);
    TraceRequeue(InPhase(ws, v, Working(FIRST, None, false)), name, p);
    var giveUp := [SendClaim(v), LoseClaim(v)];
    assert LoseClaim(v) in giveUp;
    RunsCompose(start, giveUp, ClaimSteps(v, "t1"));
    RunsCompose(start, giveUp + ClaimSteps(v, "t1"), [Client(REQUEUE)]);
    actions := giveUp + ClaimSteps(v, "t1") + [Client(REQUEUE)];
  }

  lemma GivingUpChangesNothing(s: System, v: WorkerId)
    requires v in s.workers && s.workers[v].phase == Idle
    ensures CanRun(s, [SendClaim(v), LoseClaim(v)]) && After(s, [SendClaim(v), LoseClaim(v)]) == s
  {
    hide Replay;
    var s1 := Step(s, SendClaim(v));
    assert Step(s1, LoseClaim(v)).workers == s.workers;
    RunFromStep(s1, LoseClaim(v), []);
    RunFromStep(s, SendClaim(v), [LoseClaim(v)]);
  }

  /** One claim request that the server executes after its client has given up is enough to break it, even with
      a single worker: the late claim takes the requeued task, and the report of the earlier run is accepted. */
  lemma LateClaimBreaksIt(ws: map<WorkerId, Worker>, v: WorkerId, p: string) returns (before: System, s: System)
    requires AllIdle(ws) && v in ws && ws[v].allowed(p)
    ensures HasGivenUp(ws, v, before)
    ensures IsPick(Replay(before.log), ws[v].name, ws[v].allowed, Some("t1"))
    ensures var late, end := before.(log := before.log + [ClaimBy(ws[v].name)]), [EndRun(v, Exited(true), "old")];
      CanRun(late, end) && s == After(late, end) && IsAcceptedStaleReport(s, v, NOON)
  {
    hide After, CanRun, ClaimSteps, Replay, Trace, IsAcceptedStaleReport;
    var name := ws[v].name;
    var actions := GivenUpThenClaimed(ws, v, p);
    var busy := InPhase(ws, v, Working(FIRST, None, false));
    TraceReplays(name, p, 1);
    before := System(Trace(name, p, 3), busy);
    assert IsInitial(System(Trace(name, p, 1), ws));
    TraceReplays(name, p, 3);
    NextInTrace(name, p, 3);
    TraceEnd(busy, v, Trace(name, p, 4), FIRST);
    s := After(System(Trace(name, p, 4), busy), [EndRun(v, Exited(true), "old")]);
    StaleAtTheEnd(s, v, name, p);
  }

  /** A report request that the server executes after its client has given up can end a later run: the worker
      has claimed the requeued task again, and the report of its earlier run is accepted. */
  lemma LateReportEndsNextRun(ws: map<WorkerId, Worker>, v: WorkerId, p: string) returns (sent: System, s: System)
    requires AllIdle(ws) && v in ws && ws[v].allowed(p)
    ensures ReachableFrom(ws, sent) && v in sent.workers && sent.workers[v].phase == Reporting(FIRST, false, Done, "old")
    ensures var on := [LoseReport(v), Client(REQUEUE)] + ClaimSteps(v, "t1");
      CanRun(sent, on) && s == After(sent, on)
    ensures v in s.workers && s.workers[v].phase == Working(SECOND, None, false)
    ensures Enabled(Replay(s.log), FinishOf(sent.workers[v], NOON))
  {
    hide After, CanRun, ClaimSteps, Replay, Trace, ReachableFrom;
    var name := ws[v].name;
    var start := System(Trace(name, p, 1), ws);
    TraceReplays(name, p, 1);
    StartIsReachable(start);
    TraceClaim(ws, v, p, 1);
    var busy := InPhase(ws, v, Working(FIRST, None, false));
    sent := ReachOn(ws, start, ClaimSteps(v, "t1"));
    TraceEnd(busy, v, Trace(name, p, 2), FIRST);
    sent := ReachOn(ws, sent, [EndRun(v, Exited(true), "old")]);
    LostReport(sent, v);
    var idle := InPhase(sent.workers, v, Idle);
    assert idle == ws;
    TraceRequeue(ws, name, p);
    TraceClaim(ws, v, p, 3);
    RunsCompose(sent, [LoseReport(v)], [Client(REQUEUE)]);
    assert [LoseReport(v)] + [Client(REQUEUE)] == [LoseReport(v), Client(REQUEUE)];
    RunsCompose(sent, [LoseReport(v), Client(REQUEUE)], ClaimSteps(v, "t1"));
    s := After(sent, [LoseReport(v), Client(REQUEUE)] + ClaimSteps(v, "t1"));
    TraceReplays(name, p, 4);
  }

  lemma LostReport(s: System, v: WorkerId)
    requires v in s.workers && s.workers[v].phase.Reporting?
    ensures CanRun(s, [LoseReport(v)]) && After(s, [LoseReport(v)]) == System(s.log, InPhase(s.workers, v, Idle))
  {
    RunFromStep(s, LoseReport(v), []);
  }
}
