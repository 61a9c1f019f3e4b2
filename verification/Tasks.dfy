/** The task queue as a history of accepted table changes (internal/store/tasks.go). */
module Tasks {
  import opened Wrappers
  import opened Strings
  import opened Timestamps

  type TaskId = string

  datatype Status = Queued | Running | Done | Failed | Cancelled

  /** A row of the tasks table. The characters of `report` are its bytes. */
  datatype Task = Task(
    id: TaskId, project: string, title: string, prompt: string, assignee: string, createdBy: string,
    status: Status, report: string,
    created: Instant, claimed: Stamp, heartbeat: Stamp, finished: Stamp, worker: string)

  type Table = map<TaskId, Task>

  /** The changes the guarded statements make. A statement whose guard fails changes no row and is no event. */
  datatype Event =
    | Create(task: Task)
    | Claim(id: TaskId, user: string, worker: string, now: Instant)
    | Beat(id: TaskId, user: string, now: Instant)
    | Finish(id: TaskId, user: string, status: Status, report: string, now: Instant)
    | Cancel(id: TaskId, now: Instant)
    | Requeue(id: TaskId, from: Status)
  {
    function Target(): TaskId {
      if Create? then task.id else id
    }
  }

  predicate IsActive(s: Status) {
    s == Queued || s == Running
  }

  predicate IsFresh(t: Task) {
    && t.status == Queued && t.report == "" && t.worker == ""
    && t.claimed == Unset && t.heartbeat == Unset && t.finished == Unset
  }

  /** The WHERE clause of an UPDATE, for the row with the event's id. */
  predicate Guard(t: Task, e: Event)
    requires !e.Create?
  {
    match e
    case Claim(_, user, _, _) => t.assignee == user && t.status == Queued
    case Beat(_, user, _) => t.assignee == user && t.status == Running
    case Finish(_, user, status, _, _) =>
      t.assignee == user && t.status == Running && (status == Done || status == Failed)
    case Cancel(_, _) => IsActive(t.status)
    case Requeue(_, from) => t.status == from && from != Queued
  }

  /** The SET clause of an UPDATE. */
  function Update(t: Task, e: Event): Task
    requires !e.Create?
  {
    match e
    case Claim(_, _, worker, now) => t.(status := Running, claimed := At(now), heartbeat := At(now), worker := worker)
    case Beat(_, _, now) => t.(heartbeat := At(now))
    case Finish(_, _, status, report, now) => t.(status := status, report := report, finished := At(now))
    case Cancel(_, now) => t.(status := Cancelled, finished := At(now))
    case Requeue(_, _) => t.(status := Queued, claimed := Unset, heartbeat := Unset, finished := Unset, worker := "")
  }

  predicate Enabled(tb: Table, e: Event) {
    if e.Create? then e.task.id !in tb && IsFresh(e.task) else e.id in tb && Guard(tb[e.id], e)
  }

  function Apply(tb: Table, e: Event): Table
    requires Enabled(tb, e)
  {
    if e.Create? then tb[e.task.id := e.task] else tb[e.id := Update(tb[e.id], e)]
  }

  /** The table after a history, started empty; a change whose guard fails does nothing. */
  function Replay(log: seq<Event>): Table {
    if log == [] then map[]
    else
      var before := Replay(log[..|log| - 1]);
      var e := log[|log| - 1];
      if Enabled(before, e) then Apply(before, e) else before
  }

  /** Every change of the history was accepted when it was made. */
  predicate IsHistory(log: seq<Event>) {
    log == [] || (IsHistory(log[..|log| - 1]) && Enabled(Replay(log[..|log| - 1]), log[|log| - 1]))
  }

  lemma {:induction false} HistoryPrefix(log: seq<Event>, k: nat)
    requires IsHistory(log) && k <= |log|
    ensures IsHistory(log[..k])
    ensures k < |log| ==> Enabled(Replay(log[..k]), log[k])
  {
    if k == |log| {
      assert log[..k] == log;
    } else if k < |log| - 1 {
      HistoryPrefix(log[..|log| - 1], k);
      assert log[..|log| - 1][..k] == log[..k];
    }
  }

  lemma HistoryExtends(log: seq<Event>, e: Event)
    requires IsHistory(log) && Enabled(Replay(log), e)
    ensures IsHistory(log + [e]) && Replay(log + [e]) == Apply(Replay(log), e)
  {
    assert (log + [e])[..|log|] == log;
  }

  /** What the last event of a history did to the row with this id. */
  lemma LastStep(log: seq<Event>, id: TaskId)
    requires IsHistory(log) && log != []
    ensures var before, e := log[..|log| - 1], log[|log| - 1];
      && IsHistory(before)
      && (e.Target() != id ==> (id in Replay(log) <==> id in Replay(before)))
      && (e.Target() != id && id in Replay(log) ==> Replay(log)[id] == Replay(before)[id])
      && (e.Target() == id ==> id in Replay(log))
      && (e.Target() == id && e.Create? ==> id !in Replay(before) && IsFresh(e.task) && Replay(log)[id] == e.task)
      && (e.Target() == id && !e.Create? ==>
            id in Replay(before) && Guard(Replay(before)[id], e) && Replay(log)[id] == Update(Replay(before)[id], e))
  {
  }

  // ---- what no history changes ----

  predicate SameOrder(t: Task, u: Task) {
    && t.id == u.id && t.project == u.project && t.title == u.title && t.prompt == u.prompt
    && t.assignee == u.assignee && t.createdBy == u.createdBy && t.created == u.created
  }

  /** No task disappears, and what was ordered never changes. */
  lemma {:induction false} OrdersArePermanent(log: seq<Event>, k: nat, id: TaskId)
    requires IsHistory(log) && k <= |log| && id in Replay(log[..k])
    ensures id in Replay(log) && SameOrder(Replay(log[..k])[id], Replay(log)[id])
    decreases |log|
  {
    if k < |log| {
      LastStep(log, id);
      assert log[..|log| - 1][..k] == log[..k];
      OrdersArePermanent(log[..|log| - 1], k, id);
    } else {
      assert log[..k] == log;
    }
  }

  lemma {:induction false} RowsAreKeyed(log: seq<Event>, id: TaskId)
    requires IsHistory(log) && id in Replay(log)
    ensures Replay(log)[id].id == id
  {
    if log != [] {
      LastStep(log, id);
      if id in Replay(log[..|log| - 1]) {
        RowsAreKeyed(log[..|log| - 1], id);
      }
    }
  }

  /** The report a history leaves: that of the last accepted finish. */
  function LastReport(log: seq<Event>, id: TaskId): string {
    if log == [] then ""
    else
      var e := log[|log| - 1];
      if e.Finish? && e.id == id then e.report else LastReport(log[..|log| - 1], id)
  }

  /** Only an accepted finish writes a report, and a requeue keeps it. */
  lemma {:induction false} ReportIsTheLastFinish(log: seq<Event>, id: TaskId)
    requires IsHistory(log)
    ensures id in Replay(log) ==> Replay(log)[id].report == LastReport(log, id)
    ensures id !in Replay(log) ==> LastReport(log, id) == ""
    ensures forall k :: 0 <= k < |log| && log[k].Finish? && log[k].id == id ==>
      id in Replay(log) && log[k].user == Replay(log)[id].assignee
  {
    if log != [] {
      LastStep(log, id);
      ReportIsTheLastFinish(log[..|log| - 1], id);
    }
  }

  // ---- columns and status ----

  predicate NotAfter(s: Stamp, t: Stamp) {
    s.At? && t.At? ==> Nanos(s.time) <= Nanos(t.time)
  }

  /** The columns that go with each status. */
  predicate FieldsMatchStatus(t: Task) {
    && NotAfter(At(t.created), t.claimed) && NotAfter(t.claimed, t.heartbeat) && NotAfter(t.heartbeat, t.finished)
    && NotAfter(At(t.created), t.finished)
    && match t.status
       case Queued => t.claimed == Unset && t.heartbeat == Unset && t.finished == Unset && t.worker == ""
       case Running => t.claimed.At? && t.heartbeat.At? && t.finished == Unset
       case Done => t.claimed.At? && t.heartbeat.At? && t.finished.At?
       case Failed => t.claimed.At? && t.heartbeat.At? && t.finished.At?
       case Cancelled => t.finished.At? && (t.claimed.At? <==> t.heartbeat.At?)
  }

  function TimeOf(e: Event): Stamp {
    match e
    case Create(t) => At(t.created)
    case Claim(_, _, _, now) => At(now)
    case Beat(_, _, now) => At(now)
    case Finish(_, _, _, _, now) => At(now)
    case Cancel(_, now) => At(now)
    case Requeue(_, _) => Unset
  }

  predicate ClockNeverGoesBack(log: seq<Event>) {
    forall i, j :: 0 <= i < j < |log| ==> NotAfter(TimeOf(log[i]), TimeOf(log[j]))
  }

  predicate TimesUpTo(t: Task, now: Instant) {
    && Nanos(t.created) <= Nanos(now) && NotAfter(t.claimed, At(now))
    && NotAfter(t.heartbeat, At(now)) && NotAfter(t.finished, At(now))
  }

  /** Every time in a row was written by an event of the history. */
  lemma {:induction false} TimesComeFromEvents(log: seq<Event>, id: TaskId, now: Instant)
    requires IsHistory(log) && id in Replay(log)
    requires forall i :: 0 <= i < |log| ==> NotAfter(TimeOf(log[i]), At(now))
    ensures TimesUpTo(Replay(log)[id], now)
  {
    LastStep(log, id);
    var before, e := log[..|log| - 1], log[|log| - 1];
    assert NotAfter(TimeOf(e), At(now));
    if id in Replay(before) {
      TimesComeFromEvents(before, id, now);
    }
  }

  /** With a clock that never goes back, every reachable row has the columns of its status. */
  lemma {:induction false} ReachableFieldsMatchStatus(log: seq<Event>, id: TaskId)
    requires IsHistory(log) && ClockNeverGoesBack(log) && id in Replay(log)
    ensures FieldsMatchStatus(Replay(log)[id])
  {
    LastStep(log, id);
    var before, e := log[..|log| - 1], log[|log| - 1];
    if id in Replay(before) {
      ReachableFieldsMatchStatus(before, id);
      if TimeOf(e).At? {
        TimesComeFromEvents(before, id, TimeOf(e).time);
      }
    }
  }

  // ---- conservation ----

  datatype Kind = Claims | Finishes | Cancels | Requeues | StuckRequeues

  predicate IsKind(e: Event, k: Kind) {
    match k
    case Claims => e.Claim?
    case Finishes => e.Finish?
    case Cancels => e.Cancel?
    case Requeues => e.Requeue?
    case StuckRequeues => e.Requeue? && e.from == Running
  }

  function Count(log: seq<Event>, id: TaskId, k: Kind): nat {
    if log == [] then 0
    else
      var e := log[|log| - 1];
      Count(log[..|log| - 1], id, k) + if e.Target() == id && IsKind(e, k) then 1 else 0
  }

  /** Every time a task is queued it is finished once, cancelled once, taken back while running, or still active. */
  lemma {:induction false} QueueingsAreAccountedFor(log: seq<Event>, id: TaskId)
    requires IsHistory(log) && id in Replay(log)
    ensures 1 + Count(log, id, Requeues) ==
      Count(log, id, Finishes) + Count(log, id, Cancels) + Count(log, id, StuckRequeues) +
      if IsActive(Replay(log)[id].status) then 1 else 0
    ensures Count(log, id, Claims) + (if Replay(log)[id].status == Queued then 1 else 0) <= 1 + Count(log, id, Requeues)
    ensures Count(log, id, Finishes) + (if Replay(log)[id].status == Running then 1 else 0) <= Count(log, id, Claims)
  {
    LastStep(log, id);
    var before, e := log[..|log| - 1], log[|log| - 1];
    if id in Replay(before) {
      QueueingsAreAccountedFor(before, id);
    } else {
      NothingBeforeCreation(before, id);
    }
  }

  lemma {:induction false} NothingBeforeCreation(log: seq<Event>, id: TaskId)
    requires IsHistory(log) && id !in Replay(log)
    ensures forall k :: Count(log, id, k) == 0
  {
    if log != [] {
      LastStep(log, id);
      NothingBeforeCreation(log[..|log| - 1], id);
    }
  }

  predicate IsRequeueOf(e: Event, id: TaskId) {
    e.Requeue? && e.id == id
  }

  /** Somebody cancels the task or puts it back in the queue. */
  predicate TakesBack(e: Event, id: TaskId) {
    (e.Cancel? || e.Requeue?) && e.id == id
  }

  /** A worker claims the task or reports on it. */
  predicate IsWorkOn(e: Event, id: TaskId) {
    (e.Claim? || e.Finish?) && e.id == id
  }

  predicate NotRequeuedSince(log: seq<Event>, from: nat, id: TaskId) {
    forall j :: from <= j < |log| ==> !IsRequeueOf(log[j], id)
  }

  predicate NotTakenBackSince(log: seq<Event>, from: nat, id: TaskId) {
    forall j :: from <= j < |log| ==> !TakesBack(log[j], id)
  }

  predicate NoWorkSince(log: seq<Event>, from: nat, id: TaskId) {
    forall j :: from <= j < |log| ==> !IsWorkOn(log[j], id)
  }

  lemma SinceStep(log: seq<Event>, from: nat, id: TaskId)
    requires from < |log|
    ensures var before, e := log[..|log| - 1], log[|log| - 1];
      && (NotRequeuedSince(log, from, id) <==> NotRequeuedSince(before, from, id) && !IsRequeueOf(e, id))
      && (NotTakenBackSince(log, from, id) <==> NotTakenBackSince(before, from, id) && !TakesBack(e, id))
      && (NoWorkSince(log, from, id) <==> NoWorkSince(before, from, id) && !IsWorkOn(e, id))
  {
    assert log == log[..|log| - 1] + [log[|log| - 1]];
  }

  /** Without a requeue, a task that left the queue stays out of it. */
  lemma {:induction false} OnlyRequeueQueuesAgain(log: seq<Event>, from: nat, id: TaskId)
    requires IsHistory(log) && from <= |log| && NotRequeuedSince(log, from, id)
    requires id in Replay(log[..from]) && Replay(log[..from])[id].status != Queued
    ensures id in Replay(log) && Replay(log)[id].status != Queued
    decreases |log|
  {
    if from == |log| {
      assert log[..from] == log;
    } else {
      LastStep(log, id);
      var before, e := log[..|log| - 1], log[|log| - 1];
      assert before[..from] == log[..from];
      OnlyRequeueQueuesAgain(before, from, id);
      assert !IsRequeueOf(e, id);
    }
  }

  /** Two claims of one task always have a requeue between them. */
  lemma ClaimsAreSeparatedByRequeues(log: seq<Event>, j: nat, k: nat)
    requires IsHistory(log) && j < k < |log| && log[j].Claim? && log[k].Claim? && log[j].id == log[k].id
    ensures exists m :: j < m < k && log[m].Requeue? && log[m].id == log[j].id
  {
    var id := log[j].id;
    HistoryPrefix(log, k);
    HistoryPrefix(log, j + 1);
    LastStep(log[..j + 1], id);
    assert log[..j + 1][..j] == log[..j];
    assert log[..k][..j + 1] == log[..j + 1];
    assert Enabled(Replay(log[..k]), log[k]);
    if NotRequeuedSince(log[..k], j + 1, id) {
      OnlyRequeueQueuesAgain(log[..k], j + 1, id);
      assert false;
    }
    var m :| j + 1 <= m < k && IsRequeueOf(log[..k][m], id);
    assert log[m] == log[..k][m];
  }

  /** After a claim, and until something reports on it, the task is running exactly as long as nobody
      cancelled it or put it back. */
  lemma {:induction false} RunningUntilTakenBack(log: seq<Event>, at: nat, id: TaskId)
    requires IsHistory(log) && at < |log| && log[at].Claim? && log[at].id == id
    requires NoWorkSince(log, at + 1, id)
    ensures id in Replay(log)
    ensures Replay(log)[id].status == Running <==> NotTakenBackSince(log, at + 1, id)
    ensures Replay(log)[id].assignee == log[at].user
    decreases |log|
  {
    var before, e := log[..|log| - 1], log[|log| - 1];
    LastStep(log, id);
    if at == |before| {
      assert e == log[at];
    } else {
      SinceStep(log, at + 1, id);
      RunningUntilTakenBack(before, at, id);
    }
  }

  // ---- update, then re-read ----

  /** FinishTask, CancelTask and RequeueTask read the row back in a second statement. Whatever happens in
      between, the row is still there, and as long as nobody requeues it a closed row reads back as written. */
  lemma {:induction false} ClosedRowReadsBack(log: seq<Event>, k: nat, id: TaskId)
    requires IsHistory(log) && k <= |log|
    requires id in Replay(log[..k]) && !IsActive(Replay(log[..k])[id].status)
    ensures id in Replay(log) && SameOrder(Replay(log[..k])[id], Replay(log)[id])
    ensures NotRequeuedSince(log, k, id) ==> Replay(log)[id] == Replay(log[..k])[id]
    decreases |log|
  {
    OrdersArePermanent(log, k, id);
    if k == |log| {
      assert log[..k] == log;
    } else if NotRequeuedSince(log, k, id) {
      LastStep(log, id);
      var before, e := log[..|log| - 1], log[|log| - 1];
      assert before[..k] == log[..k];
      ClosedRowReadsBack(before, k, id);
      assert !IsRequeueOf(e, id);
    }
  }

  // ---- claiming ----

  predicate Eligible(tb: Table, user: string, allowed: string -> bool, id: TaskId) {
    id in tb && tb[id].assignee == user && tb[id].status == Queued && allowed(tb[id].project)
  }

  /** What ClaimTask may hand out: the first eligible task by created text, or nothing if there is none. */
  ghost predicate IsPick(tb: Table, user: string, allowed: string -> bool, pick: Option<TaskId>) {
    match pick
    case None => forall id :: id in tb ==> !Eligible(tb, user, allowed, id)
    case Some(id) =>
      && Eligible(tb, user, allowed, id)
      && forall o :: o in tb && Eligible(tb, user, allowed, o) ==> AtMost(Text(tb[id].created), Text(tb[o].created))
  }

  /** A claim passes over an older task only if the two printed times are an inverted pair; it never
      passes over one created in an earlier second. */
  lemma ClaimsTheOldest(tb: Table, user: string, allowed: string -> bool, id: TaskId, other: TaskId)
    requires IsPick(tb, user, allowed, Some(id)) && Eligible(tb, user, allowed, other)
    ensures Seconds(tb[id].created) <= Seconds(tb[other].created)
    ensures Nanos(tb[other].created) < Nanos(tb[id].created) <==>
      tb[other].created != tb[id].created && Inverted(tb[other].created, tb[id].created)
  {
    var s, t := tb[id].created, tb[other].created;
    if Seconds(t) < Seconds(s) {
      EarlierSecondSortsFirst(t, s);
      LessIsTotal(Text(s), Text(t));
    }
    TextOrder(s, t);
    TextOrder(t, s);
    TextIsInjective(s, t);
    LessIsTotal(Text(s), Text(t));
  }

  /** `claims` are repeated ClaimTask calls of one user with the same grants, until one finds nothing. */
  ghost predicate Drains(tb: Table, user: string, allowed: string -> bool, claims: seq<Event>) {
    if claims == [] then IsPick(tb, user, allowed, None)
    else
      var c := claims[0];
      && c.Claim? && c.user == user && IsPick(tb, user, allowed, Some(c.id)) && Enabled(tb, c)
      && Drains(Apply(tb, c), user, allowed, claims[1..])
  }

  function ApplyAll(tb: Table, events: seq<Event>): Table
    decreases events
  {
    if events == [] then tb
    else ApplyAll(if Enabled(tb, events[0]) then Apply(tb, events[0]) else tb, events[1..])
  }

  predicate HandedOut(claims: seq<Event>, id: TaskId) {
    exists i :: 0 <= i < |claims| && claims[i].Claim? && claims[i].id == id
  }

  lemma HandedOutFirst(claims: seq<Event>, id: TaskId)
    requires claims != [] && claims[0].Claim?
    ensures HandedOut(claims, id) <==> claims[0].id == id || HandedOut(claims[1..], id)
  {
    if HandedOut(claims[1..], id) {
      var i :| 0 <= i < |claims[1..]| && claims[1..][i].Claim? && claims[1..][i].id == id;
      assert claims[i + 1].id == id;
    }
    if HandedOut(claims, id) && claims[0].id != id {
      var i :| 0 <= i < |claims| && claims[i].Claim? && claims[i].id == id;
      assert claims[1..][i - 1].id == id;
    }
  }

  lemma EligibleAfterClaim(tb: Table, user: string, allowed: string -> bool, c: Event, id: TaskId)
    requires c.Claim? && Enabled(tb, c)
    ensures Eligible(Apply(tb, c), user, allowed, id) <==> Eligible(tb, user, allowed, id) && id != c.id
    ensures id in tb ==> id in Apply(tb, c) && Apply(tb, c)[id].created == tb[id].created
  {
  }

  /** Draining hands out every eligible task and nothing else, and touches no other row. */
  lemma {:induction false} DrainHandsOutTheEligible(
      tb: Table, user: string, allowed: string -> bool, claims: seq<Event>, id: TaskId)
    requires Drains(tb, user, allowed, claims)
    ensures HandedOut(claims, id) <==> Eligible(tb, user, allowed, id)
    ensures id in tb && !Eligible(tb, user, allowed, id) ==>
      id in ApplyAll(tb, claims) && ApplyAll(tb, claims)[id] == tb[id]
    decreases claims
  {
    if claims != [] {
      var c := claims[0];
      DrainHandsOutTheEligible(Apply(tb, c), user, allowed, claims[1..], id);
      HandedOutFirst(claims, id);
      EligibleAfterClaim(tb, user, allowed, c, id);
    }
  }

  lemma DrainStartsWithTheOldest(tb: Table, user: string, allowed: string -> bool, claims: seq<Event>, j: nat)
    requires Drains(tb, user, allowed, claims) && 0 < j < |claims|
    ensures claims[0].Claim? && claims[j].Claim? && claims[0].id != claims[j].id
    ensures claims[0].id in tb && claims[j].id in tb
    ensures AtMost(Text(tb[claims[0].id].created), Text(tb[claims[j].id].created))
  {
    hide ApplyAll;
    DrainsOnlyEligible(Apply(tb, claims[0]), user, allowed, claims[1..], j - 1);
    EligibleAfterClaim(tb, user, allowed, claims[0], claims[j].id);
  }

  ghost predicate SameTimes(tb: Table, other: Table) {
    tb.Keys == other.Keys && forall id :: id in tb ==> other[id].created == tb[id].created
  }

  lemma TimesAreTheSame(tb: Table)
    ensures SameTimes(tb, tb)
  {
  }

  lemma SameTimesTransitive(a: Table, b: Table, c: Table)
    requires SameTimes(a, b) && SameTimes(b, c)
    ensures SameTimes(a, c)
  {
  }

  lemma FirstOfDrain(tb: Table, user: string, allowed: string -> bool, claims: seq<Event>)
    requires Drains(tb, user, allowed, claims) && claims != []
    ensures Enabled(tb, claims[0]) && SameTimes(tb, Apply(tb, claims[0]))
    ensures Drains(Apply(tb, claims[0]), user, allowed, claims[1..])
  {
  }

  /** After `i` claims the rest of the drain goes on from a table with the same creation times. */
  lemma {:induction false} DrainSuffix(tb: Table, user: string, allowed: string -> bool, claims: seq<Event>, i: nat)
    returns (mid: Table)
    requires Drains(tb, user, allowed, claims) && i <= |claims|
    ensures Drains(mid, user, allowed, claims[i..])
    ensures SameTimes(tb, mid)
    decreases claims
  {
    hide Drains, Enabled, Apply, SameTimes;
    if i == 0 {
      mid := tb;
      TimesAreTheSame(tb);
      assert claims[0..] == claims;
    } else {
      assert claims[1..][i - 1..] == claims[i..];
      FirstOfDrain(tb, user, allowed, claims);
      var next := Apply(tb, claims[0]);
      mid := DrainSuffix(next, user, allowed, claims[1..], i - 1);
      SameTimesTransitive(tb, next, mid);
    }
  }

  /** It hands each out once, in nondecreasing created text. */
  lemma DrainIsInOrder(tb: Table, user: string, allowed: string -> bool, claims: seq<Event>, i: nat, j: nat)
    requires Drains(tb, user, allowed, claims) && i < j < |claims|
    ensures claims[i].Claim? && claims[j].Claim? && claims[i].id != claims[j].id
    ensures claims[i].id in tb && claims[j].id in tb
    ensures AtMost(Text(tb[claims[i].id].created), Text(tb[claims[j].id].created))
  {
    hide ApplyAll, Drains, Eligible, Text, Apply, Enabled, AtMost;
    var mid := DrainSuffix(tb, user, allowed, claims, i);
    var rest := claims[i..];
    assert rest[0] == claims[i] && rest[j - i] == claims[j];
    DrainStartsWithTheOldest(mid, user, allowed, rest, j - i);
  }

  lemma {:induction false} DrainsOnlyEligible(
      tb: Table, user: string, allowed: string -> bool, claims: seq<Event>, i: nat)
    requires Drains(tb, user, allowed, claims) && i < |claims|
    ensures claims[i].Claim? && Eligible(tb, user, allowed, claims[i].id)
    decreases claims
  {
    if i > 0 {
      DrainsOnlyEligible(Apply(tb, claims[0]), user, allowed, claims[1..], i - 1);
      EligibleAfterClaim(tb, user, allowed, claims[0], claims[i].id);
    }
  }
}
