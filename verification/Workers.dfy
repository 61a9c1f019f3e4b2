/** A worker process as the program runs it (cmdWorker and runTask in cmd/openmind/worker.go), step by step
    against the task store. Each step is proved to be one of the protocol's. */
module Workers {
  import opened Wrappers
  import opened Strings
  import opened Timestamps
  import opened Tasks
  import TaskStore
  import opened WorkerProtocol

  datatype Stage = Resting | Asking | Asked | Busy | Sending | Sent

  /** The step is the protocol's: its guard held, the server executed its statement, and the worker moved on. */
  ghost predicate IsStep(log: seq<Event>, k: Worker, a: Action, log': seq<Event>, k': Worker) {
    && CanMove(log, k, a) && log' == Serve(log, Statement(log, k, a))
    && k' == k.(phase := NextPhase(log, k, a))
  }

  // ---- the end of a run ----

  const NOTE := "\n\n**Worker:** "

  /** What the worker writes under the agent's output. */
  datatype Footer = Footer(timeout: string, agentError: string, where_: string, before: string, after: string)

  /** The note says what ended a run that is not done: the time limit, a stop or the agent's error. */
  ghost predicate IsReason(note: string, outcome: Outcome, stop: bool, f: Footer) {
    && (outcome == TimedOut ==> note == "\n\n**Worker:** " + ("stopped after the " + f.timeout + " time limit."))
    && (outcome != TimedOut && (stop || outcome == ShutDown) ==>
          note == "\n\n**Worker:** " + "stopped: the task was cancelled or the worker was shut down.")
    && (!stop && outcome == Exited(false) ==>
          note == "\n\n**Worker:** " + ("the agent exited with an error: " + f.agentError))
    && (!stop && outcome == Exited(true) ==> note == "")
  }

  /** The agent's output, the note, and where and how the run left the working tree, if that has changed. */
  ghost predicate HasParts(report: string, output: string, note: string, f: Footer) {
    var head := TrimSpace(output) + note + f.where_;
    if f.after == "" || f.after == f.before then report == head
    else report == head + ("\n**Working tree after the run:**\n```\n" + f.after + "\n```\n")
  }

  /** The report of a run: it says why the run is not done, if it is not. */
  ghost predicate IsReportOf(report: string, output: string, outcome: Outcome, stop: bool, f: Footer) {
    exists note :: IsReason(note, outcome, stop, f) && HasParts(report, output, note, f)
  }

  /** The switch at the end of runTask: the status, and what a run that is not done says about it. */
  method Judge(outcome: Outcome, stop: bool, f: Footer) returns (status: Status, why: string)
    ensures status == RunStatus(stop, outcome)
    ensures status == if !stop && outcome == Exited(true) then Done else Failed
    ensures IsReason(why, outcome, stop, f) && (if status == Done then why == "" else NOTE <= why)
  {
    if outcome == TimedOut {
      return Failed, NOTE + ("stopped after the " + f.timeout + " time limit.");
    } else if stop || outcome == ShutDown {
      return Failed, NOTE + "stopped: the task was cancelled or the worker was shut down.";
    } else if !outcome.ok {
      return Failed, NOTE + ("the agent exited with an error: " + f.agentError);
    }
    return Done, "";
  }

  /** The end of runTask: the status, and the report as it grows in the builder. The agent's output comes
      first, and a run that is not done says why. */
  method Conclude(output: string, outcome: Outcome, stop: bool, f: Footer)
    returns (status: Status, report: string, ghost note: string)
    ensures status == RunStatus(stop, outcome)
    ensures status == if !stop && outcome == Exited(true) then Done else Failed
    ensures IsReason(note, outcome, stop, f) && (if status == Done then note == "" else NOTE <= note)
    ensures HasParts(report, output, note, f)
  {
    hide Strings.TrimSpace, IsReason;
    var why;
    status, why := Judge(outcome, stop, f);
    report, note := TrimSpace(output) + why + f.where_, why;
    if f.after != "" && f.after != f.before {
      report := report + ("\n**Working tree after the run:**\n```\n" + f.after + "\n```\n");
    }
  }

  function StatusText(s: Status): string {
    if s == Done then "done" else "failed"
  }

  class Process {
    const id: WorkerId
    const name: string
    const allowed: string -> bool
    const redact: string -> string
    const store: TaskStore.Store
    var stage: Stage
    var task: Option<TaskId>
    var beat: Option<bool>
    var stop: bool
    var status: Status
    var report: string
    ghost var at: nat // which claim the task came from

    /** Where the protocol sees this process. */
    ghost function Phase(): WorkerProtocol.Phase
      reads this
    {
      match stage
      case Resting => Idle
      case Asking => Claiming
      case Asked => Answered(if task.None? then None else Some(Run(task.value, at)))
      case Busy => if task.None? then Idle else Working(Run(task.value, at), beat, stop)
      case Sending => if task.None? then Idle else Reporting(Run(task.value, at), stop, status, report)
      case Sent => Reported
    }

    /** What the server keeps of a report. */
    function Stored(report: string): string {
      redact(TaskStore.ClipReport(report))
    }

    function Stores(): string -> string {
      r => Stored(r)
    }

    ghost function Value(): Worker
      reads this
    {
      Worker(name, allowed, Stores(), Phase())
    }

    ghost predicate Valid()
      reads this, store
    {
      && store.Valid()
      && (stage.Busy? || stage.Sending? ==> task.Some?)
      && (stage.Sending? ==> status == Done || status == Failed)
    }

    constructor (id: WorkerId, name: string, allowed: string -> bool, redact: string -> string, store: TaskStore.Store)
      requires store.Valid()
      ensures Valid() && stage == Resting && this.id == id && this.name == name && this.store == store
      ensures this.allowed == allowed && this.redact == redact
    {
      this.id, this.name, this.allowed, this.redact, this.store := id, name, allowed, redact, store;
      stage, task, beat, stop, status, report, at := Resting, None, None, false, Done, "", 0;
    }

    method Ask()
      requires Valid() && stage == Resting
      modifies this
      ensures Valid() && stage == Asking
      ensures IsStep(store.log, old(Value()), SendClaim(id), store.log, Value())
    {
      stage := Asking;
    }

    /** The server answers the claim request. If the database fails, the worker gets an error and asks again
        later, as it does when the request is lost. */
    method ServeAsk(host: string, now: Instant, readFails: bool, writeFails: bool)
      requires Valid() && stage == Asking
      modifies this, store
      ensures Valid() && (stage == Asked || stage == Resting)
      ensures !readFails && !writeFails ==> stage == Asked
      ensures var a := if stage == Asked then ServeClaim(id, task, host, now) else LoseClaim(id);
        IsStep(old(store.log), old(Value()), a, store.log, Value())
    {
      ghost var log := store.log;
      var t := store.ClaimTask(name, host, allowed, now, readFails, writeFails);
      if t.Err? {
        stage := Resting;
        return;
      }
      stage := Asked;
      if t.value.None? {
        task := None;
      } else {
        task, at := Some(t.value.value.id), |log|;
        ClaimIsServed(log, store.log, t.value.value.id, name, host, now);
      }
    }

    /** The reply arrives: the worker starts the task or goes back to waiting. */
    method Take()
      requires Valid() && stage == Asked
      modifies this
      ensures Valid() && stage == (if old(task).Some? then Busy else Resting) && task == old(task)
      ensures stage == Busy ==> beat.None? && !stop
      ensures IsStep(store.log, old(Value()), DeliverClaim(id), store.log, Value())
    {
      if task.None? {
        stage := Resting;
      } else {
        stage, beat, stop := Busy, None, false;
      }
    }

    /** The server answers a heartbeat. An error changes nothing: the run goes on. */
    method ServeHeartbeat(now: Instant, fails: bool)
      requires Valid() && stage == Busy && beat.None? && !stop
      modifies this, store
      ensures Valid() && stage == Busy
      ensures !fails ==> beat == Some(IsRunningFor(old(store.log), task.value, name))
      ensures if fails then store.log == old(store.log) && Value() == old(Value())
              else IsStep(old(store.log), old(Value()), ServeBeat(id, now), store.log, Value())
    {
      var wanted := store.HeartbeatTask(task.value, name, now, fails);
      if wanted.Ok? {
        beat := Some(wanted.value);
      }
    }

    /** The answer arrives: false stops the run. */
    method HearBack()
      requires Valid() && stage == Busy && beat.Some?
      modifies this
      ensures Valid() && stage == Busy && beat == None
      ensures stop == (old(stop) || old(beat) == Some(false))
      ensures IsStep(store.log, old(Value()), DeliverBeat(id), store.log, Value())
    {
      if !beat.value {
        stop := true;
      }
      beat := None;
    }

    /** The agent ends, and the report request goes out. */
    method Finish(output: string, outcome: Outcome, f: Footer)
      requires Valid() && stage == Busy
      modifies this
      ensures Valid() && stage == Sending && task == old(task)
      ensures status == if !old(stop) && outcome == Exited(true) then Done else Failed
      ensures IsReportOf(report, output, outcome, old(stop), f)
      ensures IsStep(store.log, old(Value()), EndRun(id, outcome, report), store.log, Value())
    {
      hide Strings.TrimSpace, HasParts, Replay, IsReason, RunStatus;
      ghost var note;
      status, report, note := Conclude(output, outcome, stop, f);
      stage := Sending;
    }

    /** The server stores the report, or refuses it. If the database fails, the report is lost. */
    method ServeSend(now: Instant, fails: bool) returns (accepted: bool)
      requires Valid() && stage == Sending
      modifies this, store
      ensures Valid() && stage == (if fails then Resting else Sent)
      ensures accepted <==> !fails && Enabled(Replay(old(store.log)), FinishOf(old(Value()), now))
      ensures !fails ==>
        store.log == Serve(old(store.log), Some(Event.Finish(old(task).value, name, status, Stored(report), now)))
      ensures status == old(status) && report == old(report)
      ensures IsStep(
        old(store.log), old(Value()), if fails then LoseReport(id) else ServeReport(id, now), store.log, Value())
    {
      hide IsHistory;
      var r := store.UpdateFinished(task.value, name, StatusText(status), report, redact, now, fails);
      stage := if fails then Resting else Sent;
      accepted := r.Ok?;
    }

    /** The reply to the report arrives, or is lost. */
    method Acknowledge()
      requires Valid() && stage == Sent
      modifies this
      ensures Valid() && stage == Resting && report == old(report)
      ensures IsStep(store.log, old(Value()), AckReport(id), store.log, Value())
    {
      stage := Resting;
    }

    /** A request or its reply is lost, or the process is restarted. */
    method GiveUp()
      requires Valid()
      modifies this
      ensures Valid() && stage == Resting
      ensures IsStep(store.log, old(Value()), Restart(id), store.log, Value())
    {
      stage := Resting;
    }

    /** A run with nothing lost and nobody in between: the task ends with the run's status and report. */
    method Work(beats: seq<Instant>, output: string, outcome: Outcome, f: Footer, end: Instant)
      requires Valid() && stage == Busy && beat.None? && !stop && IsRunningFor(store.log, task.value, name)
      modifies this, store
      ensures Valid() && stage == Resting
      ensures IsFinished(
        store.log, old(task).value, if outcome == Exited(true) then Done else Failed, Stored(report), end)
      ensures IsReportOf(report, output, outcome, false, f)
    {
      hide Replay, IsPick, IsFinished, IsRunningFor, TaskStore.ClipReport, IsReportOf;
      for i := 0 to |beats|
        invariant Valid() && stage == Busy && task == old(task) && beat.None? && !stop
        invariant IsRunningFor(store.log, task.value, name)
      {
        ServedBeat(store.log, task.value, name, beats[i]);
        ServeHeartbeat(beats[i], false);
        HearBack();
      }
      Finish(output, outcome, f);
      ServedFinish(store.log, task.value, name, status, Stored(report), end);
      var accepted := ServeSend(end, false);
      Acknowledge();
    }

    /** One turn of the worker's loop with nothing lost and nobody in between: it finds no eligible task, or it
        finishes the first one. */
    method Turn(
        host: string, now: Instant, beats: seq<Instant>, output: string, outcome: Outcome, f: Footer, end: Instant)
      returns (got: Option<TaskId>)
      requires Valid() && stage == Resting
      modifies this, store
      ensures Valid() && stage == Resting
      ensures IsPick(Replay(old(store.log)), name, allowed, got)
      ensures got.None? ==> store.log == old(store.log)
      ensures got.Some? ==>
        && IsFinished(store.log, got.value, if outcome == Exited(true) then Done else Failed, Stored(report), end)
        && IsReportOf(report, output, outcome, false, f)
    {
      hide Replay, IsPick, IsFinished, IsRunningFor, TaskStore.ClipReport, IsReportOf;
      Ask();
      ghost var log := store.log;
      ServeAsk(host, now, false, false);
      got := task;
      if got.Some? {
        ServedClaim(log, got.value, name, allowed, host, now);
      }
      Take();
      if got.Some? {
        Work(beats, output, outcome, f, end);
      }
    }
  }

  /** The task runs for this user. */
  predicate IsRunningFor(log: seq<Event>, id: TaskId, user: string) {
    var tb := Replay(log);
    id in tb && tb[id].assignee == user && tb[id].status == Running
  }

  predicate IsFinished(log: seq<Event>, id: TaskId, status: Status, report: string, end: Instant) {
    var tb := Replay(log);
    id in tb && tb[id].status == status && tb[id].report == report && tb[id].finished == At(end)
  }

  lemma ServedClaim(log: seq<Event>, id: TaskId, user: string, allowed: string -> bool, host: string, now: Instant)
    requires IsHistory(log) && IsPick(Replay(log), user, allowed, Some(id))
    ensures IsRunningFor(Serve(log, Some(Claim(id, user, host, now))), id, user)
  {
    HistoryExtends(log, Claim(id, user, host, now));
  }

  lemma ServedBeat(log: seq<Event>, id: TaskId, user: string, now: Instant)
    requires IsHistory(log) && IsRunningFor(log, id, user)
    ensures Enabled(Replay(log), Beat(id, user, now))
    ensures IsRunningFor(Serve(log, Some(Beat(id, user, now))), id, user)
  {
    HistoryExtends(log, Beat(id, user, now));
  }

  lemma ServedFinish(log: seq<Event>, id: TaskId, user: string, status: Status, report: string, end: Instant)
    requires IsHistory(log) && IsRunningFor(log, id, user) && (status == Done || status == Failed)
    ensures IsFinished(Serve(log, Some(Event.Finish(id, user, status, report, end))), id, status, report, end)
  {
    HistoryExtends(log, Event.Finish(id, user, status, report, end));
  }

  lemma ClaimIsServed(log: seq<Event>, log': seq<Event>, id: TaskId, user: string, host: string, now: Instant)
    requires log' == log + [Claim(id, user, host, now)] && IsPickable(Replay(log), id, user)
    ensures log' == Serve(log, Some(Claim(id, user, host, now)))
  {
  }

  predicate IsPickable(tb: Table, id: TaskId, user: string) {
    id in tb && tb[id].assignee == user && tb[id].status == Queued
  }
}
