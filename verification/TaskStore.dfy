/** The tasks table and the statements on it (internal/store/tasks.go). Each method body between two
    statements is one atomic step, because the pool holds a single connection. */
module TaskStore {
  import opened Wrappers
  import opened Strings
  import opened Timestamps
  import opened Ordering
  import opened Tasks

  // In the methods below `fails` says that the database fails at the statement, which then changes nothing.

  datatype Error =
    | ProjectRequired | PromptRequired | AssigneeRequired | SecretFound
    | IdTaken        // the insert violates the primary key
    | BadStatus | TaskState | NotFound
    | Failure        // the database reports any other error

  /** What the caller of CreateTask fills in. */
  datatype Order = Order(project: string, title: string, prompt: string, assignee: string, createdBy: string)

  const MAX_TITLE := 80
  const MAX_REPORT := 256 * 1024
  const TRUNCATION_NOTE := "\n\n_(report truncated)_"

  function FirstLine(s: string): string {
    var i := Index(s, "\n");
    if i >= 0 then TrimSpace(s[..i]) else s
  }

  /** The given title, or else the first line of the prompt cut to 80 characters. */
  function TitleOf(title: string, prompt: string): string {
    var line := FirstLine(prompt);
    if title != "" then title
    else if |line| > MAX_TITLE then line[..MAX_TITLE] + "…"
    else line
  }

  predicate IsOneLine(s: string) {
    forall i :: 0 <= i < |s| ==> s[i] != '\n'
  }

  lemma FirstLineIsOneLine(s: string)
    requires s != "" && IsTrimmed(s)
    ensures FirstLine(s) != "" && IsOneLine(FirstLine(s))
  {
    hide IndexFrom, TrimSpace, IsSpace;
    var i := Index(s, "\n");
    var line := if i >= 0 then s[..i] else s;
    forall k | 0 <= k < |line|
      ensures line[k] != '\n'
    {
      assert !OccursAt(s, "\n", k);
      assert s[k..k + 1] == [s[k]];
    }
    if i >= 0 {
      assert s[i..i + 1] == [s[i]];
      NewlineIsSpace();
      TrimSpaceKeepsText(line);
      var a, b := TrimSpaceRemovesOnlySpace(line);
      assert forall k :: 0 <= k < |TrimSpace(line)| ==> TrimSpace(line)[k] == line[|a| + k];
    }
  }

  lemma NewlineIsSpace()
    ensures IsSpace('\n')
  {
  }

  /** A task without a title gets one from its prompt: a single line of at most 81 characters, never empty. */
  lemma DefaultTitleIsOneLine(prompt: string)
    requires prompt != "" && IsTrimmed(prompt)
    ensures var t := TitleOf("", prompt); t != "" && IsOneLine(t) && |t| <= MAX_TITLE + 1
  {
    hide FirstLine;
    FirstLineIsOneLine(prompt);
  }

  /** The title is the one that was given. Without one it is the text of the prompt's first line, cut to 80
      characters. */
  lemma TitleComesFrom(title: string, prompt: string, n: nat)
    requires n <= |prompt| && (n == |prompt| || prompt[n] == '\n') && IsTrimmed(prompt)
    requires forall i :: 0 <= i < n ==> prompt[i] != '\n'
    ensures title != "" ==> TitleOf(title, prompt) == title
    ensures var line := TrimSpace(prompt[..n]);
      title == "" ==> TitleOf(title, prompt) == if |line| > 80 then line[..80] + "…" else line
  {
    hide IndexFrom, TrimSpace, IsTrimmed;
    var i := Index(prompt, "\n");
    if i >= 0 {
      OccursChar(prompt, "\n", i, 0);
    }
    if n < |prompt| {
      assert prompt[n..n + 1] == "\n" && OccursAt(prompt, "\n", n);
      assert i == n;
    } else {
      assert prompt[..n] == prompt;
      TrimSpaceTrims(prompt);
    }
  }

  function ClipReport(report: string): string {
    if |report| > MAX_REPORT then report[..MAX_REPORT] + TRUNCATION_NOTE else report
  }

  /** What the server keeps of a report: all of it, or its first 256 KiB and a note. */
  ghost predicate IsKept(kept: string, report: string, redact: string -> string) {
    && (|report| <= 262144 ==> kept == redact(report))
    && (|report| > 262144 ==> kept == redact(report[..262144] + "\n\n_(report truncated)_"))
  }

  /** The order as it is stored: trimmed, and with a title. */
  function Prepared(o: Order): Order {
    var prompt := TrimSpace(o.prompt);
    Order(TrimSpace(o.project), TitleOf(TrimSpace(o.title), prompt), prompt, TrimSpace(o.assignee), o.createdBy)
  }

  /** What CreateTask checks of a prepared order, in this order. */
  function OrderError(p: Order, scan: string -> bool): Option<Error> {
    if p.project == "" then Some(ProjectRequired)
    else if p.prompt == "" then Some(PromptRequired)
    else if p.assignee == "" then Some(AssigneeRequired)
    else if scan(p.title + "\n" + p.prompt) then Some(SecretFound)
    else None
  }

  /** What is checked of an order, and what is stored of it. */
  lemma OrderByColumn(o: Order, scan: string -> bool)
    ensures var e := OrderError(Prepared(o), scan);
      && (e == Some(ProjectRequired) <==> IsBlank(o.project))
      && (e == Some(PromptRequired) <==> !IsBlank(o.project) && IsBlank(o.prompt))
      && (e == Some(AssigneeRequired) <==> !IsBlank(o.project) && !IsBlank(o.prompt) && IsBlank(o.assignee))
      && (e.None? ==> !scan(Prepared(o).title + "\n" + Prepared(o).prompt))
      && e != Some(Failure) && e != Some(IdTaken)
    ensures var p := Prepared(o);
      && p.project == TrimSpace(o.project) && p.prompt == TrimSpace(o.prompt) && p.assignee == TrimSpace(o.assignee)
      && p.createdBy == o.createdBy
      && p.title == if IsBlank(o.title) then TitleOf("", p.prompt) else TrimSpace(o.title)
  {
    hide TrimSpace, IsBlank, FirstLine;
    var a, b := TrimSpaceRemovesOnlySpace(o.project);
    a, b := TrimSpaceRemovesOnlySpace(o.prompt);
    a, b := TrimSpaceRemovesOnlySpace(o.assignee);
    a, b := TrimSpaceRemovesOnlySpace(o.title);
  }

  /** The part of CreateTask before the insert. `scan` finds credentials. */
  method Prepare(o: Order, scan: string -> bool) returns (r: Result<Order, Error>)
    ensures r == match OrderError(Prepared(o), scan)
                 case Some(e) => Err(e)
                 case None => Ok(Prepared(o))
  {
    var project, title := TrimSpace(o.project), TrimSpace(o.title);
    var prompt, assignee := TrimSpace(o.prompt), TrimSpace(o.assignee);
    if project == "" {
      return Err(ProjectRequired);
    } else if prompt == "" {
      return Err(PromptRequired);
    } else if assignee == "" {
      return Err(AssigneeRequired);
    }
    if title == "" {
      title := FirstLine(prompt);
      if |title| > MAX_TITLE {
        title := title[..MAX_TITLE] + "…";
      }
    }
    if scan(title + "\n" + prompt) {
      return Err(SecretFound);
    }
    r := Ok(Order(project, title, prompt, assignee, o.createdBy));
  }

  predicate IsAllowedAt(rows: seq<Task>, allowed: string -> bool, i: int) {
    0 <= i < |rows| && allowed(rows[i].project) && forall j :: 0 <= j < i ==> !allowed(rows[j].project)
  }

  ghost predicate IsFirstAllowed(rows: seq<Task>, allowed: string -> bool, pick: Option<Task>) {
    match pick
    case None => forall j :: 0 <= j < |rows| ==> !allowed(rows[j].project)
    case Some(t) => exists i :: IsAllowedAt(rows, allowed, i) && t == rows[i]
  }

  /** The first row whose project is granted. */
  method FirstAllowed(rows: seq<Task>, allowed: string -> bool) returns (pick: Option<Task>)
    ensures IsFirstAllowed(rows, allowed, pick)
  {
    pick := None;
    for i := 0 to |rows|
      invariant forall j :: 0 <= j < i ==> !allowed(rows[j].project)
    {
      if allowed(rows[i].project) {
        assert IsAllowedAt(rows, allowed, i);
        return Some(rows[i]);
      }
    }
  }

  function FinalStatus(status: string): Option<Status> {
    if status == "done" then Some(Done) else if status == "failed" then Some(Failed) else None
  }

  predicate IsQueuedFor(t: Task, assignee: string) {
    t.assignee == assignee && t.status == Queued
  }

  predicate CreatedNotLater(t: Task, u: Task) {
    AtMost(Text(t.created), Text(u.created))
  }

  /** A task that the assignee's workers are to be given. */
  ghost predicate IsOwed(t: Task, assignee: string, allowed: string -> bool) {
    t.assignee == assignee && t.status == Queued && allowed(t.project)
  }

  lemma PickIsOldest(tb: Table, assignee: string, allowed: string -> bool, id: TaskId)
    requires IsPick(tb, assignee, allowed, Some(id))
    ensures forall o :: o in tb && IsOwed(tb[o], assignee, allowed) ==>
      Seconds(tb[id].created) <= Seconds(tb[o].created)
  {
    hide Seconds;
    forall o | o in tb && IsOwed(tb[o], assignee, allowed)
      ensures Seconds(tb[id].created) <= Seconds(tb[o].created)
    {
      ClaimsTheOldest(tb, assignee, allowed, id, o);
    }
  }

  lemma CreatedNotLaterIsPreorder()
    ensures IsTotalPreorder(CreatedNotLater)
  {
    forall x, y
      ensures CreatedNotLater(x, y) || CreatedNotLater(y, x)
    {
      AtMostIsTotalOrder(Text(x.created), Text(y.created), Text(y.created));
    }
    forall x, y, z | CreatedNotLater(x, y) && CreatedNotLater(y, z)
      ensures CreatedNotLater(x, z)
    {
      AtMostIsTotalOrder(Text(x.created), Text(y.created), Text(z.created));
    }
  }

  class Store {
    var tasks: Table
    ghost var log: seq<Event>

    /** The table is what the history of accepted changes makes it. */
    ghost predicate Valid()
      reads this
    {
      IsHistory(log) && tasks == Replay(log)
    }

    constructor ()
      ensures Valid() && log == []
    {
      tasks, log := map[], [];
    }

    /** Runs one guarded statement and reports whether a row changed. */
    method Execute(e: Event) returns (changed: bool)
      requires Valid()
      modifies this
      ensures Valid()
      ensures changed <==> Enabled(old(tasks), e)
      ensures log == if changed then old(log) + [e] else old(log)
      ensures tasks == if changed then Apply(old(tasks), e) else old(tasks)
    {
      changed := Enabled(tasks, e);
      if changed {
        HistoryExtends(log, e);
        tasks := Apply(tasks, e);
        log := log + [e];
      }
    }

    method GetTask(id: TaskId, fails: bool) returns (r: Result<Task, Error>)
      requires Valid()
      ensures r == if fails then Err(Failure) else if id in tasks then Ok(tasks[id]) else Err(NotFound)
    {
      if fails {
        return Err(Failure);
      }
      r := if id in tasks then Ok(tasks[id]) else Err(NotFound);
    }

    /** `newId` is the generated id, which the insert rejects if it is taken. */
    method CreateTask(o: Order, scan: string -> bool, newId: TaskId, now: Instant, fails: bool)
      returns (r: Result<Task, Error>)
      requires Valid()
      modifies this
      ensures Valid()
      ensures r.Err? ==> tasks == old(tasks) && log == old(log)
      ensures OrderError(Prepared(o), scan).Some? ==> r == Err(OrderError(Prepared(o), scan).value)
      ensures OrderError(Prepared(o), scan).None? ==>
        (r.Err? <==> fails || newId in old(tasks)) && (r.Err? ==> r.error == if fails then Failure else IdTaken)
      ensures r.Ok? ==>
        && log == old(log) + [Create(r.value)] && tasks == old(tasks)[newId := r.value]
        && IsFresh(r.value) && r.value.id == newId && r.value.created == now
        && Prepared(o) == Order(r.value.project, r.value.title, r.value.prompt, r.value.assignee, r.value.createdBy)
      ensures r == Err(ProjectRequired) <==> IsBlank(o.project)
      ensures r == Err(PromptRequired) <==> !IsBlank(o.project) && IsBlank(o.prompt)
      ensures r == Err(AssigneeRequired) <==> !IsBlank(o.project) && !IsBlank(o.prompt) && IsBlank(o.assignee)
      ensures r.Ok? ==>
        && r.value.project == TrimSpace(o.project) && r.value.prompt == TrimSpace(o.prompt)
        && r.value.assignee == TrimSpace(o.assignee) && r.value.createdBy == o.createdBy
        && (!IsBlank(o.title) ==> r.value.title == TrimSpace(o.title))
        && (IsBlank(o.title) ==> r.value.title == TitleOf("", r.value.prompt))
        && !scan(r.value.title + "\n" + r.value.prompt)
      ensures r.Ok? ==> forall user: string, allowed: string -> bool ::
        Eligible(tasks, user, allowed, newId) <==> user == TrimSpace(o.assignee) && allowed(TrimSpace(o.project))
    {
      hide TrimSpace, TitleOf, IsBlank;
      OrderByColumn(o, scan);
      var prepared := Prepare(o, scan);
      if prepared.Err? {
        return Err(prepared.error);
      }
      if fails {
        return Err(Failure);
      }
      var p := prepared.value;
      var t := Task(
        newId, p.project, p.title, p.prompt, p.assignee, p.createdBy, Queued, "", now, Unset, Unset, Unset, "");
      var inserted := Execute(Create(t));
      r := if inserted then Ok(t) else Err(IdTaken);
    }

    /** The SELECT of ClaimTask before ordering: the queued rows of one assignee. */
    method SelectQueued(assignee: string) returns (rows: seq<Task>)
      requires Valid()
      ensures AreQueuedRows(rows, assignee)
    {
      rows := [];
      var todo := tasks.Keys;
      while todo != {}
        invariant todo <= tasks.Keys
        invariant forall t :: t in rows ==> t.id in tasks && tasks[t.id] == t && IsQueuedFor(t, assignee)
        invariant forall id :: id in tasks && id !in todo && IsQueuedFor(tasks[id], assignee) ==> tasks[id] in rows
      {
        var id :| id in todo;
        todo := todo - {id};
        RowsAreKeyed(log, id);
        if tasks[id].assignee == assignee && tasks[id].status == Queued {
          rows := rows + [tasks[id]];
        }
      }
    }

    /** Hands the first queued task by created text, within the allowed projects, to a worker. The transaction
        may fail before the rows are read, or when one is claimed; then it is rolled back. */
    method ClaimTask(
        assignee: string, worker: string, allowed: string -> bool, now: Instant, readFails: bool, writeFails: bool)
      returns (r: Result<Option<Task>, Error>)
      requires Valid()
      modifies this
      ensures Valid()
      ensures r.Err? <==> readFails || (writeFails && !IsPick(old(tasks), assignee, allowed, None))
      ensures r.Err? ==> r.error == Failure && tasks == old(tasks) && log == old(log)
      ensures r == Ok(None) ==> IsPick(old(tasks), assignee, allowed, None) && tasks == old(tasks) && log == old(log)
      ensures r.Ok? && r.value.Some? ==>
        var t := r.value.value;
        && IsPick(old(tasks), assignee, allowed, Some(t.id))
        && log == old(log) + [Claim(t.id, assignee, worker, now)] && tasks == old(tasks)[t.id := t]
        && t == old(tasks)[t.id].(status := Running, claimed := At(now), heartbeat := At(now), worker := worker)
        && t.assignee == assignee && old(tasks)[t.id].status == Queued && allowed(t.project)
        && forall id :: id in old(tasks) && IsOwed(old(tasks)[id], assignee, allowed) ==>
             Seconds(t.created) <= Seconds(old(tasks)[id].created)
      ensures r == Ok(None) ==> forall id :: id in old(tasks) ==> !IsOwed(old(tasks)[id], assignee, allowed)
    {
      if readFails {
        return Err(Failure);
      }
      var selected := SelectQueued(assignee);
      CreatedNotLaterIsPreorder();
      var rows := OrderBy(selected, CreatedNotLater);
      var pick := FirstAllowed(rows, allowed);
      FirstAllowedIsPick(selected, rows, assignee, allowed, pick);
      if pick.None? {
        return Ok(None);
      }
      var t := pick.value;
      assert Eligible(tasks, assignee, allowed, t.id);
      if writeFails {
        return Err(Failure);
      }
      PickIsOldest(tasks, assignee, allowed, t.id);
      var claimed := Execute(Claim(t.id, assignee, worker, now));
      r := Ok(Some(t.(status := Running, worker := worker, claimed := At(now), heartbeat := At(now))));
    }

    ghost predicate AreQueuedRows(rows: seq<Task>, assignee: string)
      reads this
    {
      && (forall t :: t in rows ==> t.id in tasks && tasks[t.id] == t && IsQueuedFor(t, assignee))
      && (forall id :: id in tasks && IsQueuedFor(tasks[id], assignee) ==> tasks[id] in rows)
    }

    lemma FirstAllowedIsPick(
        selected: seq<Task>, rows: seq<Task>, assignee: string, allowed: string -> bool, pick: Option<Task>)
      requires Valid() && AreQueuedRows(selected, assignee) && IsArrangement(rows, selected, CreatedNotLater)
      requires IsFirstAllowed(rows, allowed, pick)
      ensures IsPick(tasks, assignee, allowed, if pick.None? then None else Some(pick.value.id))
      ensures pick.Some? ==> pick.value.id in tasks && pick.value == tasks[pick.value.id]
    {
      forall id | Eligible(tasks, assignee, allowed, id)
        ensures exists j :: 0 <= j < |rows| && rows[j] == tasks[id] && allowed(rows[j].project)
      {
        assert tasks[id] in multiset(selected);
        assert tasks[id] in multiset(rows);
      }
      if pick.Some? {
        var i :| IsAllowedAt(rows, allowed, i) && pick.value == rows[i];
        assert rows[i] in multiset(selected);
        assert Eligible(tasks, assignee, allowed, rows[i].id);
        forall o | o in tasks && Eligible(tasks, assignee, allowed, o)
          ensures CreatedNotLater(tasks[rows[i].id], tasks[o])
        {
          var j :| 0 <= j < |rows| && rows[j] == tasks[o] && allowed(rows[j].project);
          assert i <= j;
        }
      }
    }

    /** Marks a running task as alive; the answer says whether it is still wanted. */
    method HeartbeatTask(id: TaskId, assignee: string, now: Instant, fails: bool) returns (r: Result<bool, Error>)
      requires Valid()
      modifies this
      ensures Valid()
      ensures r == if fails then Err(Failure) else Ok(Enabled(old(tasks), Beat(id, assignee, now)))
      ensures r == Ok(true) <==>
        !fails && id in old(tasks) && old(tasks)[id].assignee == assignee && old(tasks)[id].status == Running
      ensures log == if r == Ok(true) then old(log) + [Beat(id, assignee, now)] else old(log)
      ensures tasks == if r == Ok(true) then old(tasks)[id := old(tasks)[id].(heartbeat := At(now))] else old(tasks)
    {
      if fails {
        return Err(Failure);
      }
      var wanted := Execute(Beat(id, assignee, now));
      r := Ok(wanted);
    }

    /** The UPDATE of FinishTask: stores the redacted report of a running task. */
    method UpdateFinished(
        id: TaskId, assignee: string, status: string, report: string, redact: string -> string, now: Instant,
        fails: bool)
      returns (r: Result<(), Error>)
      requires Valid()
      modifies this
      ensures Valid()
      ensures r.Err? ==> tasks == old(tasks) && log == old(log)
      ensures r == if FinalStatus(status).None? then Err(BadStatus)
                   else if fails then Err(Failure)
                   else if id in old(tasks) && old(tasks)[id].assignee == assignee && old(tasks)[id].status == Running
                   then Ok(()) else Err(TaskState)
      ensures r.Ok? ==>
        && log == old(log) + [Finish(id, assignee, FinalStatus(status).value, redact(ClipReport(report)), now)]
        && tasks == old(tasks)[id := old(tasks)[id].(
             status := FinalStatus(status).value, report := redact(ClipReport(report)), finished := At(now))]
      ensures r == Err(BadStatus) <==> status != "done" && status != "failed"
      ensures r.Ok? ==>
        && tasks[id].status == (if status == "done" then Done else Failed)
        && IsKept(tasks[id].report, report, redact)
    {
      if status != "done" && status != "failed" {
        return Err(BadStatus);
      }
      var clipped := report;
      if |clipped| > MAX_REPORT {
        clipped := clipped[..MAX_REPORT] + TRUNCATION_NOTE;
      }
      if fails {
        return Err(Failure);
      }
      var changed := Execute(Finish(id, assignee, if status == "done" then Done else Failed, redact(clipped), now));
      r := if changed then Ok(()) else Err(TaskState);
    }

    /** The UPDATE of CancelTask: stops a queued or running task. */
    method UpdateCancelled(id: TaskId, now: Instant, fails: bool) returns (r: Result<(), Error>)
      requires Valid()
      modifies this
      ensures Valid()
      ensures r == if fails then Err(Failure)
                   else if id in old(tasks) && IsActive(old(tasks)[id].status) then Ok(()) else Err(TaskState)
      ensures r.Err? ==> tasks == old(tasks) && log == old(log)
      ensures r.Ok? ==>
        && log == old(log) + [Cancel(id, now)]
        && tasks == old(tasks)[id := old(tasks)[id].(status := Cancelled, finished := At(now))]
    {
      if fails {
        return Err(Failure);
      }
      var changed := Execute(Cancel(id, now));
      r := if changed then Ok(()) else Err(TaskState);
    }

    /** The UPDATE of RequeueTask: puts any task that is not queued back in the queue, keeping its report. */
    method UpdateRequeued(id: TaskId, fails: bool) returns (r: Result<(), Error>)
      requires Valid()
      modifies this
      ensures Valid()
      ensures r == if fails then Err(Failure)
                   else if id in old(tasks) && old(tasks)[id].status != Queued then Ok(()) else Err(TaskState)
      ensures r.Err? ==> tasks == old(tasks) && log == old(log)
      ensures r.Ok? ==>
        && log == old(log) + [Requeue(id, old(tasks)[id].status)]
        && tasks == old(tasks)[id := old(tasks)[id].(
             status := Queued, claimed := Unset, heartbeat := Unset, finished := Unset, worker := "")]
    {
      if fails {
        return Err(Failure);
      }
      if id !in tasks {
        return Err(TaskState);
      }
      var changed := Execute(Requeue(id, tasks[id].status));
      r := if changed then Ok(()) else Err(TaskState);
    }

    /** Whatever other requests come in between two statements. */
    method Others(events: seq<Event>)
      requires Valid()
      modifies this
      ensures Valid() && old(log) <= log
    {
      for i := 0 to |events|
        invariant Valid() && old(log) <= log
      {
        var changed := Execute(events[i]);
      }
    }

    /** The second statement of FinishTask, CancelTask and RequeueTask, after any other requests: the row is
        there, with its order, and reads as it was written unless it was requeued in between. */
    method ReadBack(id: TaskId, others: seq<Event>, fails: bool) returns (r: Result<Task, Error>)
      requires Valid() && id in tasks
      modifies this
      ensures Valid() && old(log) <= log
      ensures r == if fails then Err(Failure) else if id in tasks then Ok(tasks[id]) else Err(NotFound)
      ensures !fails ==> r.Ok? && SameOrder(old(tasks)[id], r.value)
      ensures !fails && !IsActive(old(tasks)[id].status) && NotRequeuedSince(log, |old(log)|, id) ==>
        r == Ok(old(tasks)[id])
    {
      hide Replay, IsHistory;
      ghost var before := log;
      Others(others);
      assert log[..|before|] == before;
      OrdersArePermanent(log, |before|, id);
      if !IsActive(Replay(before)[id].status) {
        ClosedRowReadsBack(log, |before|, id);
      }
      r := GetTask(id, fails);
    }

    /** FinishTask. Its error does not say whether the report was stored: `stored` does. */
    method FinishTask(
        id: TaskId, assignee: string, status: string, report: string, redact: string -> string, now: Instant,
        fails: bool, others: seq<Event>, rereadFails: bool)
      returns (r: Result<Task, Error>, ghost stored: bool)
      requires Valid()
      modifies this
      ensures Valid()
      ensures !stored ==> r.Err? && tasks == old(tasks) && log == old(log)
      ensures stored <==>
        && FinalStatus(status).Some? && !fails
        && id in old(tasks) && old(tasks)[id].assignee == assignee && old(tasks)[id].status == Running
      ensures stored ==>
        && old(log) + [Finish(id, assignee, FinalStatus(status).value, redact(ClipReport(report)), now)] <= log
        && (rereadFails <==> r == Err(Failure)) && (!rereadFails <==> r.Ok?)
      ensures r.Ok? ==> stored && SameOrder(old(tasks)[id], r.value)
      ensures r.Ok? && NotRequeuedSince(log, |old(log)| + 1, id) ==>
        r.value == old(tasks)[id].(
          status := FinalStatus(status).value, report := redact(ClipReport(report)), finished := At(now))
      ensures r == Err(BadStatus) <==> status != "done" && status != "failed"
      ensures r.Ok? && NotRequeuedSince(log, |old(log)| + 1, id) ==>
        r.value.status == (if status == "done" then Done else Failed) && IsKept(r.value.report, report, redact)
    {
      hide Replay, IsHistory, ClipReport, NotRequeuedSince;
      stored := false;
      var u := UpdateFinished(id, assignee, status, report, redact, now, fails);
      if u.Err? {
        return Err(u.error), false;
      }
      stored := true;
      r := ReadBack(id, others, rereadFails);
    }

    /** CancelTask, with any requests between its statements. */
    method CancelTask(id: TaskId, now: Instant, fails: bool, others: seq<Event>, rereadFails: bool)
      returns (r: Result<Task, Error>, ghost stopped: bool)
      requires Valid()
      modifies this
      ensures Valid()
      ensures !stopped ==> r.Err? && tasks == old(tasks) && log == old(log)
      ensures stopped <==> !fails && id in old(tasks) && IsActive(old(tasks)[id].status)
      ensures stopped ==>
        old(log) + [Cancel(id, now)] <= log && (rereadFails <==> r == Err(Failure)) && (!rereadFails <==> r.Ok?)
      ensures r.Ok? ==> stopped && SameOrder(old(tasks)[id], r.value)
      ensures r.Ok? && NotRequeuedSince(log, |old(log)| + 1, id) ==>
        r.value == old(tasks)[id].(status := Cancelled, finished := At(now))
    {
      hide Replay, IsHistory, NotRequeuedSince;
      stopped := false;
      var u := UpdateCancelled(id, now, fails);
      if u.Err? {
        return Err(u.error), false;
      }
      stopped := true;
      r := ReadBack(id, others, rereadFails);
    }

    /** RequeueTask, with any requests between its statements: another worker may have the task by then. */
    method RequeueTask(id: TaskId, fails: bool, others: seq<Event>, rereadFails: bool)
      returns (r: Result<Task, Error>, ghost queued: bool)
      requires Valid()
      modifies this
      ensures Valid()
      ensures !queued ==> r.Err? && tasks == old(tasks) && log == old(log)
      ensures queued <==> !fails && id in old(tasks) && old(tasks)[id].status != Queued
      ensures queued ==>
        && old(log) + [Requeue(id, old(tasks)[id].status)] <= log
        && (rereadFails <==> r == Err(Failure)) && (!rereadFails <==> r.Ok?)
      ensures r.Ok? ==> queued && SameOrder(old(tasks)[id], r.value)
    {
      hide Replay, IsHistory;
      queued := false;
      var u := UpdateRequeued(id, fails);
      if u.Err? {
        return Err(u.error), false;
      }
      queued := true;
      r := ReadBack(id, others, rereadFails);
    }

    /** A claim that succeeds, as a change of the history. */
    method ClaimNext(assignee: string, worker: string, allowed: string -> bool, now: Instant)
      returns (c: Option<Event>)
      requires Valid()
      modifies this
      ensures Valid()
      ensures c.None? ==> IsPick(old(tasks), assignee, allowed, None) && log == old(log) && tasks == old(tasks)
      ensures c.Some? ==> IsNextClaim(old(tasks), assignee, allowed, c.value)
      ensures c.Some? ==> log == old(log) + [c.value] && tasks == Apply(old(tasks), c.value)
    {
      hide Replay, IsHistory;
      var t := ClaimTask(assignee, worker, allowed, now, false, false);
      c := if t.value.None? then None else Some(Claim(t.value.value.id, assignee, worker, now));
    }

    /** Claiming again and again until nothing is left: one claim for every eligible task. */
    method Drain(assignee: string, worker: string, allowed: string -> bool, clock: nat -> Instant, tick: nat)
      returns (claims: seq<Event>)
      requires Valid()
      modifies this
      ensures Valid() && log == old(log) + claims && Drains(old(tasks), assignee, allowed, claims)
      ensures |claims| == |EligibleSet(old(tasks), assignee, allowed)|
      decreases |EligibleSet(tasks, assignee, allowed)|
    {
      hide Replay, IsHistory, EligibleSet, IsPick, Apply, Drains;
      ghost var tb := tasks;
      var c := ClaimNext(assignee, worker, allowed, clock(tick));
      if c.None? {
        NothingEligible(tb, assignee, allowed);
        return [];
      }
      OneLessEligible(tb, assignee, allowed, c.value);
      var rest := Drain(assignee, worker, allowed, clock, tick + 1);
      claims := [c.value] + rest;
      DrainsFirst(tb, assignee, allowed, c.value, rest);
    }
  }

  /** The event is a claim of the first eligible task. */
  ghost predicate IsNextClaim(tb: Table, user: string, allowed: string -> bool, c: Event) {
    c.Claim? && c.user == user && IsPick(tb, user, allowed, Some(c.id)) && Enabled(tb, c)
  }

  lemma DrainsFirst(tb: Table, user: string, allowed: string -> bool, c: Event, rest: seq<Event>)
    requires IsNextClaim(tb, user, allowed, c) && Drains(Apply(tb, c), user, allowed, rest)
    ensures Drains(tb, user, allowed, [c] + rest)
  {
    assert ([c] + rest)[1..] == rest;
  }

  function EligibleSet(tb: Table, user: string, allowed: string -> bool): set<TaskId> {
    set id | id in tb && Eligible(tb, user, allowed, id)
  }

  lemma NothingEligible(tb: Table, user: string, allowed: string -> bool)
    requires IsPick(tb, user, allowed, None)
    ensures EligibleSet(tb, user, allowed) == {} && Drains(tb, user, allowed, [])
  {
  }

  lemma OneLessEligible(tb: Table, user: string, allowed: string -> bool, c: Event)
    requires IsNextClaim(tb, user, allowed, c)
    ensures EligibleSet(Apply(tb, c), user, allowed) == EligibleSet(tb, user, allowed) - {c.id}
    ensures |EligibleSet(Apply(tb, c), user, allowed)| == |EligibleSet(tb, user, allowed)| - 1
  {
    forall id
      ensures id in EligibleSet(Apply(tb, c), user, allowed) <==> id in EligibleSet(tb, user, allowed) && id != c.id
    {
      EligibleAfterClaim(tb, user, allowed, c, id);
    }
  }
}
