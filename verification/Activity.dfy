/** The capped activity log (internal/store/activity.go). */
module Activity {
  import opened Wrappers
  import opened Strings
  import opened Timestamps
  import opened Ordering
  import FullText

  datatype Event = Event(
    time: Stamp, user: string, project: string, action: string, kind: string, detail: string, noteId: string,
    remote: string, agent: string)

  datatype Row = Row(id: nat, event: Event)

  const MAX_ROWS := 50000
  const PRUNE_EVERY := 500

  /** The words of a text with single spaces between them. */
  function JoinWords(words: seq<string>): string {
    if words == [] then "" else if |words| == 1 then words[0] else words[0] + " " + JoinWords(words[1..])
  }

  predicate IsInk(c: char) {
    !IsSpace(c)
  }

  function CleanDetail(detail: string): string {
    JoinWords(FullText.Fields(Clip(detail), IsInk))
  }

  /** Single spaces between words, and no other space. */
  predicate IsTidy(s: string) {
    forall i :: 0 <= i < |s| && IsSpace(s[i]) ==>
      s[i] == ' ' && 0 < i < |s| - 1 && !IsSpace(s[i - 1]) && !IsSpace(s[i + 1])
  }

  predicate AreWords(words: seq<string>) {
    forall w :: w in words ==> w != "" && forall c :: c in w ==> IsInk(c)
  }

  lemma {:induction false} JoinedWords(words: seq<string>)
    requires AreWords(words)
    ensures FullText.Fields(JoinWords(words), IsInk) == words && IsTidy(JoinWords(words))
    ensures words != [] ==> JoinWords(words) != "" && IsInk(JoinWords(words)[0])
  {
    hide FullText.Fields, IsSpace;
    if words == [] {
      FullText.NoFields(IsInk);
    } else {
      var w := words[0];
      assert w in words;
      FullText.FieldsOfWord(w, IsInk);
      if |words| > 1 {
        var rest := JoinWords(words[1..]);
        assert forall v :: v in words[1..] ==> v in words;
        JoinedWords(words[1..]);
        SpaceIsNoInk();
        FullText.FieldsSplit(w, ' ', rest, IsInk);
        assert JoinWords(words) == w + [' '] + rest;
        TidyJoin(w, rest);
      } else {
        assert forall i :: 0 <= i < |w| ==> w[i] in w;
      }
    }
  }

  lemma SpaceIsNoInk()
    ensures !IsInk(' ')
  {
  }

  lemma TidyJoin(w: string, rest: string)
    requires w != "" && (forall c :: c in w ==> IsInk(c)) && rest != "" && IsInk(rest[0]) && IsTidy(rest)
    ensures IsTidy(w + [' '] + rest)
  {
    hide IsSpace;
    var s := w + [' '] + rest;
    assert forall i :: 0 <= i < |w| ==> s[i] == w[i] && w[i] in w;
    assert forall i :: 0 <= i < |rest| ==> s[|w| + 1 + i] == rest[i];
    forall i | 0 <= i < |s| && IsSpace(s[i])
      ensures s[i] == ' ' && 0 < i < |s| - 1 && !IsSpace(s[i - 1]) && !IsSpace(s[i + 1])
    {
      if i > |w| {
        assert IsSpace(rest[i - |w| - 1]);
        assert s[i - 1] == (if i == |w| + 1 then ' ' else rest[i - |w| - 2]);
      }
    }
  }

  /** An event as it is stored, column by column: with a time, and with the words of its detail, cut to 200
      characters, between single spaces. */
  ghost predicate IsRecordOf(r: Event, e: Event, now: Instant) {
    && r.user == e.user && r.project == e.project && r.action == e.action && r.kind == e.kind
    && r.noteId == e.noteId && r.remote == e.remote && r.agent == e.agent
    && r.time == (if e.time == Unset then At(now) else e.time)
    && IsTidy(r.detail)
    && (|e.detail| <= 200 ==> FullText.Fields(r.detail, IsInk) == FullText.Fields(e.detail, IsInk))
    && (|e.detail| > 200 ==> FullText.Fields(r.detail, IsInk) == FullText.Fields(e.detail[..200] + "…", IsInk))
  }

  lemma StoredByColumn(e: Event, now: Instant)
    ensures IsRecordOf(Stored(e, now), e, now) && Stored(e, now).time.At?
  {
    hide FullText.Fields, IsTidy;
    JoinedWords(FullText.Fields(Clip(e.detail), IsInk));
  }

  /** An event as it is stored. */
  function Stored(e: Event, now: Instant): Event {
    e.(time := if e.time == Unset then At(now) else e.time, detail := CleanDetail(e.detail))
  }

  function Min(a: nat, b: nat): nat {
    if a < b then a else b
  }

  /** How many of the last events the log holds after `n` inserts. */
  function Kept(n: nat): nat {
    Min(n - n % PRUNE_EVERY, MAX_ROWS) + n % PRUNE_EVERY
  }

  /** The log always holds the last 50000 events, or all of them, and never more than 50499. */
  lemma KeptBounds(n: nat)
    ensures Min(n, MAX_ROWS) <= Kept(n) <= Min(n, 50499)
    ensures n >= 50000 && n % 500 == 499 ==> Kept(n) == 50499
    ensures n % PRUNE_EVERY == 0 ==> Kept(n) == Min(n, MAX_ROWS)
    ensures (n + 1) % PRUNE_EVERY != 0 ==> Kept(n + 1) == Kept(n) + 1
  {
  }

  /** The events from position `from` on, with their ids. */
  function Numbered(all: seq<Event>, from: nat): (rows: seq<Row>)
    ensures |rows| == if from < |all| then |all| - from else 0
  {
    if |all| <= from then [] else Numbered(all[..|all| - 1], from) + [Row(|all|, all[|all| - 1])]
  }

  lemma {:induction false} NumberedAt(all: seq<Event>, from: nat, i: nat)
    requires from + i < |all|
    ensures Numbered(all, from)[i] == Row(from + i + 1, all[from + i])
  {
    if from + i < |all| - 1 {
      NumberedAt(all[..|all| - 1], from, i);
    }
  }

  lemma NumberedAppend(all: seq<Event>, from: nat, e: Event)
    requires from <= |all|
    ensures Numbered(all + [e], from) == Numbered(all, from) + [Row(|all| + 1, e)]
  {
    assert (all + [e])[..|all|] == all;
  }

  /** Selecting the rows after an id drops the events up to it. */
  lemma {:induction false} AfterId(all: seq<Event>, from: nat, id: nat)
    requires from <= id
    ensures Where(Numbered(all, from), (r: Row) => r.id > id) == Numbered(all, id)
  {
    if |all| > from {
      AfterId(all[..|all| - 1], from, id);
      WhereAppend(Numbered(all[..|all| - 1], from), Row(|all|, all[|all| - 1]), (r: Row) => r.id > id);
    }
  }

  lemma {:induction false} AllAfterId(all: seq<Event>, from: nat, id: int)
    requires id <= from
    ensures Where(Numbered(all, from), (r: Row) => r.id > id) == Numbered(all, from)
  {
    if |all| > from {
      AllAfterId(all[..|all| - 1], from, id);
      WhereAppend(Numbered(all[..|all| - 1], from), Row(|all|, all[|all| - 1]), (r: Row) => r.id > id);
    }
  }

  datatype Filter = Filter(user: string, project: string, afterId: int, since: Stamp, limit: int)

  predicate Admits(f: Filter, r: Row) {
    && (f.user == "" || r.event.user == f.user)
    && (f.project == "" || r.event.project == f.project)
    && (f.afterId <= 0 || r.id > f.afterId)
    && (f.since == Unset || AtMost(StampText(f.since), StampText(r.event.time)))
  }

  /** What a caller means by a filter, field by field. */
  ghost predicate Wants(f: Filter, e: Event, id: nat) {
    && (f.user != "" ==> e.user == f.user)
    && (f.project != "" ==> e.project == f.project)
    && (f.afterId > 0 ==> id > f.afterId)
    && (f.since != Unset ==> IsNotAfter(f.since, e.time))
  }

  lemma AdmitsMeansWants(f: Filter, r: Row)
    requires r.event.time.At?
    ensures Admits(f, r) <==> Wants(f, r.event, r.id)
  {
    hide StampText, IsNotAfter;
    if f.since.At? {
      TextsAreInstants(f.since, r.event.time);
    }
  }

  /** The wanted rows, newest first by id, and none left out that is newer than one of them. */
  ghost predicate IsLatest(out: seq<Row>, rows: seq<Row>, f: Filter, limit: nat) {
    && |out| <= limit
    && (forall r :: r in out ==> r in rows && Wants(f, r.event, r.id))
    && (forall i, j :: 0 <= i < j < |out| ==> out[i].id >= out[j].id)
    && (forall m :: m in rows && m !in out && Wants(f, m.event, m.id) ==> |out| == limit)
    && (forall m, r :: m in rows && m !in out && Wants(f, m.event, m.id) && r in out ==> r.id > m.id)
  }

  function Limit(f: Filter): nat {
    if f.limit <= 0 || f.limit > 5000 then 200 else f.limit
  }

  function Reversed<T(!new)>(s: seq<T>): (r: seq<T>)
    ensures |r| == |s|
  {
    if s == [] then [] else [s[|s| - 1]] + Reversed(s[..|s| - 1])
  }

  lemma {:induction false} ReversedAt<T(!new)>(s: seq<T>, i: nat)
    requires i < |s|
    ensures Reversed(s)[i] == s[|s| - 1 - i]
  {
    if i > 0 {
      ReversedAt(s[..|s| - 1], i - 1);
    }
  }

  predicate NewerFirst(a: Row, b: Row) {
    a.id >= b.id
  }

  predicate IsIncreasing(rows: seq<Row>) {
    forall i, j :: 0 <= i < j < |rows| ==> rows[i].id < rows[j].id
  }

  lemma {:induction false} SelectionIsIncreasing(rows: seq<Row>, cond: Row -> bool)
    requires IsIncreasing(rows)
    ensures IsIncreasing(Where(rows, cond))
  {
    if rows != [] {
      var front, last := rows[..|rows| - 1], rows[|rows| - 1];
      SelectionIsIncreasing(front, cond);
      forall r | r in Where(front, cond)
        ensures r.id < last.id
      {
        var i :| 0 <= i < |front| && front[i] == r;
        assert rows[i] == r;
      }
    }
  }

  lemma NumberedIsIncreasing(all: seq<Event>, from: nat)
    ensures IsIncreasing(Numbered(all, from))
  {
    forall i, j | 0 <= i < j < |Numbered(all, from)|
      ensures Numbered(all, from)[i].id < Numbered(all, from)[j].id
    {
      NumberedAt(all, from, i);
      NumberedAt(all, from, j);
    }
  }

  lemma {:induction false} ReversedSameRows(s: seq<Row>)
    ensures multiset(Reversed(s)) == multiset(s)
  {
    if s != [] {
      ReversedSameRows(s[..|s| - 1]);
      assert s == s[..|s| - 1] + [s[|s| - 1]];
    }
  }

  /** Newest first is the reverse of insertion order, and the only such order. */
  lemma NewestFirstIsReversed(rows: seq<Row>, out: seq<Row>)
    requires IsIncreasing(rows) && IsArrangement(out, rows, NewerFirst)
    ensures out == Reversed(rows)
  {
    var r := Reversed(rows);
    ReversedSameRows(rows);
    forall i, j | 0 <= i < j < |r|
      ensures r[i].id > r[j].id
    {
      ReversedAt(rows, i);
      ReversedAt(rows, j);
    }
    ArrangementIsUnique(r, out, NewerFirst);
  }

  class Log {
    var rows: seq<Row>
    var lastId: nat   // what AUTOINCREMENT remembers
    var inserts: nat  // the process's counter
    ghost var all: seq<Event>
    ghost var from: nat

    /** The log holds the last events, at least 50000 of them or all there are. */
    ghost predicate Valid()
      reads this
    {
      && inserts == lastId == |all| && from + Min(|all|, MAX_ROWS) <= |all|
      && (forall e :: e in all ==> e.time.At?)
      && rows == Numbered(all, from)
    }

    /** No prune has been missed since the last one was due. */
    ghost predicate IsCapped()
      reads this
    {
      from + Kept(|all|) == |all|
    }

    constructor ()
      ensures Valid() && IsCapped() && all == []
    {
      rows, lastId, inserts, all, from := [], 0, 0, [], 0;
    }

    /** Appends an event and, at every 500th insert, deletes the rows beyond the cap. Failures are swallowed:
        `inserted` and `pruned` say whether the statements succeed. */
    method LogActivity(e: Event, now: Instant, inserted: bool, pruned: bool)
      requires Valid()
      modifies this
      ensures Valid()
      ensures !inserted ==> unchanged(this)
      ensures inserted ==> all == old(all) + [Stored(e, now)]
      ensures pruned && old(IsCapped()) ==> IsCapped()
      ensures pruned && inserted && |all| % PRUNE_EVERY == 0 ==> IsCapped()
      ensures Min(|all|, 50000) <= |rows| && (IsCapped() ==> |rows| <= 50499)
      ensures inserted ==> rows != [] && rows[|rows| - 1] == Row(|all|, all[|all| - 1])
      ensures inserted ==> IsRecordOf(all[|all| - 1], e, now)
    {
      hide Numbered, Stored, IsRecordOf;
      KeptBounds(|all|);
      if !inserted {
        return;
      }
      KeptBounds(|all| + 1);
      StoredByColumn(e, now);
      Insert(Stored(e, now));
      if inserts % PRUNE_EVERY == 0 && pruned {
        Prune();
      }
      NumberedAt(all, from, |rows| - 1);
    }

    /** INSERT INTO activity. */
    method Insert(e: Event)
      requires Valid() && e.time.At?
      modifies this
      ensures Valid() && all == old(all) + [e] && from == old(from) && inserts == |all|
    {
      hide Numbered;
      NumberedAppend(all, from, e);
      rows := rows + [Row(lastId + 1, e)];
      all := all + [e];
      lastId := lastId + 1;
      inserts := inserts + 1;
    }

    /** DELETE FROM activity WHERE id <= MAX(id) - 50000. */
    method Prune()
      requires Valid() && |all| % PRUNE_EVERY == 0 && all != []
      modifies this
      ensures Valid() && IsCapped()
      ensures all == old(all) && inserts == old(inserts)
    {
      hide Numbered, Ordering.Where;
      KeptBounds(|all|);
      NumberedAt(all, from, |rows| - 1);
      var maxId := rows[|rows| - 1].id;
      if maxId - MAX_ROWS >= from {
        AfterId(all, from, maxId - MAX_ROWS);
        from := maxId - MAX_ROWS;
      } else {
        AllAfterId(all, from, maxId - MAX_ROWS);
      }
      rows := Where(rows, (r: Row) => r.id > maxId - MAX_ROWS);
    }

    /** The admitted events, newest first, up to the limit. A tail is complete exactly if neither the cap nor the
        limit has cut it. */
    method Activity(f: Filter, fails: bool) returns (r: Result<seq<Row>, Error>)
      requires Valid()
      ensures r == if fails then Err(Unreadable) else Ok(Admitted(all, from, f))
      ensures r.Ok? ==> IsLatest(r.value, rows, f, if 1 <= f.limit <= 5000 then f.limit else 200)
      ensures r.Ok? && IsTail(f) && f.afterId <= |all| ==>
        (r.value == Reversed(Numbered(all, f.afterId)) <==> from <= f.afterId && |all| <= f.afterId + Limit(f))
    {
      hide Numbered, Reversed, Ordering.Where, IsLatest, Admits;
      if fails {
        return Err(Unreadable);
      }
      var selected := Where(rows, (r: Row) => Admits(f, r));
      var ordered := OrderBy(selected, NewerFirst);
      NumberedIsIncreasing(all, from);
      SelectionIsIncreasing(rows, (r: Row) => Admits(f, r));
      NewestFirstIsReversed(selected, ordered);
      AnswerIsLatest(all, from, f, ordered);
      r := Ok(Take(ordered, Limit(f)));
      if IsTail(f) && f.afterId <= |all| {
        TailIsCompleteIff(all, from, f);
      }
    }
  }

  lemma AnswerIsLatest(all: seq<Event>, from: nat, f: Filter, ordered: seq<Row>)
    requires forall e :: e in all ==> e.time.At?
    requires IsArrangement(ordered, Where(Numbered(all, from), (r: Row) => Admits(f, r)), NewerFirst)
    ensures IsLatest(Take(ordered, Limit(f)), Numbered(all, from), f, if 1 <= f.limit <= 5000 then f.limit else 200)
  {
    hide Numbered, Ordering.Where, Admits, Wants, Ordering.Take;
    var rows, cond := Numbered(all, from), (r: Row) => Admits(f, r);
    var out := Take(ordered, Limit(f));
    assert IsPage(out, Where(rows, cond), NewerFirst, Limit(f));
    PageIsFirst(out, Where(rows, cond), NewerFirst, Limit(f));
    forall r | r in rows
      ensures Admits(f, r) <==> Wants(f, r.event, r.id)
    {
      var i :| 0 <= i < |rows| && rows[i] == r;
      NumberedAt(all, from, i);
      AdmitsMeansWants(f, r);
    }
    forall m, r | m in rows && m !in out && r in out
      ensures r.id != m.id
    {
      if r.id == m.id {
        NumberedIds(all, from, m, r);
      }
    }
  }

  lemma NumberedIds(all: seq<Event>, from: nat, m: Row, r: Row)
    requires m in Numbered(all, from) && r in Numbered(all, from) && m.id == r.id
    ensures m == r
  {
    hide Numbered;
    var rows := Numbered(all, from);
    var i :| 0 <= i < |rows| && rows[i] == m;
    var j :| 0 <= j < |rows| && rows[j] == r;
    NumberedAt(all, from, i);
    NumberedAt(all, from, j);
  }

  datatype Error = Unreadable

  /** The answer to a filter from the events that are still in the log. */
  function Admitted(all: seq<Event>, from: nat, f: Filter): seq<Row> {
    Take(Reversed(Where(Numbered(all, from), (r: Row) => Admits(f, r))), Limit(f))
  }

  /** The filter of a reader that asks for everything after the last id it saw. */
  predicate IsTail(f: Filter) {
    f.user == "" && f.project == "" && f.since == Unset && f.afterId >= 0
  }

  /** Such a reader gets all of it if and only if the log still holds it and the limit admits it. */
  lemma TailIsCompleteIff(all: seq<Event>, from: nat, f: Filter)
    requires IsTail(f) && f.afterId <= |all| && from <= |all|
    ensures Admitted(all, from, f) == Reversed(Numbered(all, f.afterId)) <==>
      from <= f.afterId && |all| <= f.afterId + Limit(f)
  {
    hide Numbered, Reversed, Ordering.Where;
    var rows := Numbered(all, from);
    WhereSame(rows, (r: Row) => Admits(f, r), (r: Row) => r.id > f.afterId) by { IdsArePositive(all, from); }
    if from <= f.afterId {
      AfterId(all, from, f.afterId);
    } else {
      AllAfterId(all, from, f.afterId);
    }
  }

  lemma {:induction false} IdsArePositive(all: seq<Event>, from: nat)
    ensures forall r :: r in Numbered(all, from) ==> r.id > 0
  {
    if |all| > from {
      IdsArePositive(all[..|all| - 1], from);
    }
  }
}
