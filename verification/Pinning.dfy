/** Sessions bound to one project (internal/mcpserver/server.go): what they may read, and that nothing else
    reaches them. */
module Pinning {
  import opened Wrappers
  import opened Strings
  import opened Timestamps
  import opened Ordering
  import opened Notes
  import opened NoteStore
  import opened Auth
  import Digest
  import FullText

  /** A session: who calls, and the project it is bound to, if any. */
  datatype Session = Session(id: Identity, bound: string)

  datatype Error = ProjectRequired | Forbidden

  datatype ToolError = Refused(e: Error) | Unread(why: ReadError) | Rejected(cause: PutError)

  function Requested(s: Session, requested: string): string {
    if s.bound == "" then requested else s.bound
  }

  /** The project a call works on. */
  ghost function ProjectOf(s: Session, requested: string): Result<string, Error> {
    var p := Requested(s, requested);
    if p == "" then Err(Error.ProjectRequired) else if !Allows(s.id, p) then Err(Forbidden) else Ok(p)
  }

  /** What the session may see of the notes table. */
  ghost predicate MaySee(s: Session, n: Note) {
    && IsVisible(n, s.id.user)
    && (s.bound == "" || n.project == s.bound)
    && Allows(s.id, n.project)
  }

  /** The note a get returns: the row, if the session may see it. */
  ghost function GetAnswer(s: Session, rows: seq<Note>, id: string): Option<Note> {
    var k := FindRow(rows, id);
    if k < |rows| && MaySee(s, rows[k]) then Some(rows[k]) else None
  }

  ghost function GetOutcome(s: Session, rows: seq<Note>, id: string, fails: bool): Result<Note, ToolError> {
    if fails then Err(Unread(Unreadable))
    else
      match GetAnswer(s, rows, id)
      case None => Err(Unread(NotFound))
      case Some(n) => Ok(n)
  }

  /** The arguments of a list call. */
  datatype ListArgs = ListArgs(project: string, kind: string, since: Stamp, status: string, limit: int)

  function ListFilter(s: Session, a: ListArgs, project: string): Filter {
    Filter(project, a.kind, "", a.status, [], a.since, a.limit, s.id.user)
  }

  function ContextArgs(project: string): ListArgs {
    ListArgs(project, "", Unset, "", 500)
  }

  /** What a list call asks for, field by field: the notes of the session's project, or of the requested one if
      the session is bound to none, that the caller may see. */
  ghost predicate IsAskedFor(s: Session, a: ListArgs, n: Note) {
    && n.project == (if s.bound != "" then s.bound else a.project)
    && (a.kind != "" ==> n.kind == a.kind)
    && (a.status == "" ==> n.status == "active")
    && (a.status != "" && a.status != "any" ==> n.status == a.status)
    && (a.since != Unset ==> IsNotAfter(a.since, n.updated))
    && (n.scope == "personal" ==> n.author == s.id.user)
  }

  lemma ListFilterMeans(s: Session, a: ListArgs, n: Note)
    requires ProjectOf(s, a.project).Ok?
    ensures Meets(ListFilter(s, a, ProjectOf(s, a.project).value), n) <==> IsAskedFor(s, a, n)
    ensures ListFilter(s, a, ProjectOf(s, a.project).value).limit == a.limit
  {
    hide IsNotAfter;
  }

  /** A context call lists up to 500 active notes of the project that the caller may see. */
  lemma ContextArgsMean(s: Session, requested: string, n: Note)
    ensures IsAskedFor(s, ContextArgs(requested), n) <==>
      && n.project == (if s.bound != "" then s.bound else requested) && n.status == "active"
      && (n.scope == "personal" ==> n.author == s.id.user)
    ensures ContextArgs(requested).limit == 500
  {
  }

  /** An answer to a list call: a page of admitted notes, in some order where update times tie. */
  ghost predicate IsListAnswer(s: Session, rows: seq<Note>, a: ListArgs, fails: bool, r: Result<seq<Note>, ToolError>) {
    match ProjectOf(s, a.project)
    case Err(e) => r == Err(Refused(e))
    case Ok(p) =>
      var f := ListFilter(s, a, p);
      if fails then r == Err(Unread(Unreadable))
      else r.Ok? && IsPage(r.value, Where(rows, (n: Note) => Admits(f, n)), NewestFirst, Limit(f))
  }

  /** The arguments of a search call. */
  datatype SearchArgs = SearchArgs(query: string, project: string, kind: string, tags: seq<string>, limit: int)

  function SearchFilter(s: Session, a: SearchArgs, project: string): Filter {
    Filter(project, a.kind, "", "", a.tags, Unset, if a.limit == 0 then 20 else a.limit, s.id.user)
  }

  /** A search looks through the active notes of the project that the caller may see, of the given type and tags
      if any. */
  ghost predicate IsSearched(s: Session, a: SearchArgs, n: Note) {
    && n.project == (if s.bound != "" then s.bound else a.project) && n.status == "active"
    && (a.kind != "" ==> n.kind == a.kind) && (forall t :: t in a.tags ==> TagFilter.TagMatches(t, n.tags))
    && (n.scope == "personal" ==> n.author == s.id.user)
  }

  /** It shows 20 notes unless asked for another number. */
  lemma SearchFilterMeans(s: Session, a: SearchArgs)
    requires ProjectOf(s, a.project).Ok?
    ensures forall n :: Meets(SearchFilter(s, a, ProjectOf(s, a.project).value), n) <==> IsSearched(s, a, n)
    ensures SearchFilter(s, a, ProjectOf(s, a.project).value).limit == if a.limit == 0 then 20 else a.limit
  {
    hide TagFilter.TagMatches;
  }

  /** The notes of a project that a search with terms looks for. */
  ghost function Hits(s: Session, rows: seq<Note>, a: SearchArgs, project: string): seq<Note> {
    Where(rows, (n: Note) => IsHit(SearchFilter(s, a, project), a.query, n))
  }

  /** An answer to a search call: without terms a list, else a page of the hits in the order of some ranking. */
  ghost predicate IsSearchAnswer(
      s: Session, rows: seq<Note>, a: SearchArgs, fails: bool, r: Result<seq<Note>, ToolError>)
  {
    match ProjectOf(s, a.project)
    case Err(e) => r == Err(Refused(e))
    case Ok(p) =>
      var f := SearchFilter(s, a, p);
      if FullText.Terms(a.query) != [] && a.tags != [] then r == Err(Unread(AmbiguousColumn))
      else if fails then r == Err(Unread(Unreadable))
      else if FullText.Terms(a.query) == [] then
        r.Ok? && IsPage(r.value, Where(rows, (n: Note) => Admits(f, n)), NewestFirst, Limit(f))
      else
        r.Ok? && exists score :: IsPage(r.value, Hits(s, rows, a, p), ByScore(score), Limit(f))
  }

  /** What was asked for, newest first, and none left out that is newer than one on a page. */
  ghost predicate IsAnsweredPage(out: seq<Note>, rows: seq<Note>, s: Session, a: ListArgs, limit: nat) {
    && |out| <= limit
    && (forall n :: n in out ==> n in rows && IsAskedFor(s, a, n))
    && (forall i, j :: 0 <= i < j < |out| ==> IsNotAfter(out[j].updated, out[i].updated))
    && (forall m :: m in rows && m !in out && IsAskedFor(s, a, m) ==> |out| == limit)
    && (forall m, n :: m in rows && m !in out && IsAskedFor(s, a, m) && n in out ==> IsNotAfter(m.updated, n.updated))
  }

  lemma AnsweredPage(s: Session, a: ListArgs, rows: seq<Note>)
    requires ProjectOf(s, a.project).Ok?
    ensures forall out, limit: nat ::
      IsNewestPage(out, rows, ListFilter(s, a, ProjectOf(s, a.project).value), limit) ==>
      IsAnsweredPage(out, rows, s, a, limit)
  {
    hide Meets, IsAskedFor, IsNotAfter;
    forall n
      ensures Meets(ListFilter(s, a, ProjectOf(s, a.project).value), n) <==> IsAskedFor(s, a, n)
    {
      ListFilterMeans(s, a, n);
    }
  }

  // ---- the tools ----

  method Project(s: Session, requested: string) returns (r: Result<string, Error>)
    ensures r == ProjectOf(s, requested)
  {
    var p := s.bound;
    if p == "" {
      p := requested;
    }
    if p == "" {
      return Err(Error.ProjectRequired);
    }
    var ok := CheckAllows(s.id, p);
    r := if ok then Ok(p) else Err(Forbidden);
  }

  /** The caller may see the note: it is in the project of a bound session, granted, and nobody else's personal
      note. */
  ghost predicate IsOpenTo(s: Session, n: Note) {
    && (s.bound != "" ==> n.project == s.bound) && Allows(s.id, n.project)
    && (n.scope == "personal" ==> n.author == s.id.user)
  }

  lemma NotFoundIsClosed(s: Session, db: Tables, commits: seq<Note>, id: string)
    requires StateOk(db, commits)
    ensures GetAnswer(s, db.rows, id).None? ==> forall n :: n in db.rows && n.id == id ==> !IsOpenTo(s, n)
    ensures forall n :: GetAnswer(s, db.rows, id) == Some(n) ==> n in db.rows && n.id == id && IsOpenTo(s, n)
  {
    hide Allows, FullText.Rebuild, VersionsIn, IsLedger, Stored;
    forall n | n in db.rows && n.id == id
      ensures db.rows[FindRow(db.rows, id)] == n && FindRow(db.rows, id) < |db.rows|
    {
      var k :| 0 <= k < |db.rows| && db.rows[k] == n;
      UniqueRow(db.rows, k);
    }
  }

  method Get(s: Session, st: Store, id: string, fails: bool) returns (r: Result<Note, ToolError>)
    requires st.Valid()
    ensures r == GetOutcome(s, st.db.rows, id, fails)
    ensures r.Ok? ==> r.value in st.db.rows && r.value.id == id && IsOpenTo(s, r.value)
    ensures r == Err(Unread(NotFound)) ==> forall n :: n in st.db.rows && n.id == id ==> !IsOpenTo(s, n)
  {
    NotFoundIsClosed(s, st.db, st.commits, id);
    var n := st.Get(id, s.id.user, fails);
    if n.Err? {
      return Err(Unread(n.error));
    }
    var ok := CheckAllows(s.id, n.value.project);
    if (s.bound != "" && n.value.project != s.bound) || !ok {
      return Err(Unread(NotFound));
    }
    r := Ok(n.value);
  }

  method List(s: Session, st: Store, a: ListArgs, fails: bool) returns (r: Result<seq<Note>, ToolError>)
    requires st.Valid()
    ensures IsListAnswer(s, st.db.rows, a, fails, r)
    ensures r.Ok? ==>
      && ProjectOf(s, a.project).Ok?
      && IsAnsweredPage(r.value, st.db.rows, s, a, if 1 <= a.limit <= 500 then a.limit else 50)
  {
    hide IsNewestPage, IsAnsweredPage, Meets, IsAskedFor;
    var project := Project(s, a.project);
    if project.Err? {
      return Err(Refused(project.error));
    }
    AnsweredPage(s, a, st.db.rows);
    var notes := st.List(ListFilter(s, a, project.value), fails);
    r := if notes.Ok? then Ok(notes.value) else Err(Unread(notes.error));
  }

  method Search(s: Session, st: Store, a: SearchArgs, score: Note -> int, fails: bool)
    returns (r: Result<seq<Note>, ToolError>)
    requires st.Valid()
    ensures IsSearchAnswer(s, st.db.rows, a, fails, r)
    ensures r.Ok? && FullText.IsWord(a.query) && a.tags == [] ==>
      && (forall n :: n in r.value ==> n in st.db.rows && IsSearched(s, a, n) && HasWordLike(n, a.query))
      && (|r.value| < (if a.limit == 0 then 20 else if 1 <= a.limit <= 500 then a.limit else 50) ==>
            forall n :: n in st.db.rows && IsSearched(s, a, n) && HasWordLike(n, a.query) ==> n in r.value)
  {
    hide FullText.Terms, IsHit, Admits, Meets, IsSearched, HasWordLike, FullText.IsWord, FullText.TextMatches;
    hide ProjectOf, Allows;
    var project := Project(s, a.project);
    if project.Err? {
      return Err(Refused(project.error));
    }
    SearchFilterMeans(s, a);
    if FullText.IsWord(a.query) {
      FullText.TermsOfWord(a.query);
    }
    var hits := st.Search(a.query, SearchFilter(s, a, project.value), score, fails);
    r := if hits.Ok? then Ok(hits.value) else Err(Unread(hits.error));
  }

  /** An answer to a context call: the digest of some list answer. */
  ghost predicate IsContextAnswer(
      s: Session, rows: seq<Note>, requested: string, fails: bool, r: Result<string, ToolError>)
  {
    exists notes ::
      IsListAnswer(s, rows, ContextArgs(requested), fails, notes) && IsDigestOf(s, requested, notes, r)
  }

  ghost predicate IsDigestOf(
      s: Session, requested: string, notes: Result<seq<Note>, ToolError>, r: Result<string, ToolError>)
  {
    match notes
    case Err(e) => r == Err(e)
    case Ok(ns) => r.Ok? && Digest.IsRendering(r.value, Requested(s, requested), ns)
  }

  /** The context tool. */
  method Context(s: Session, st: Store, requested: string, fails: bool) returns (r: Result<string, ToolError>)
    requires st.Valid()
    ensures IsContextAnswer(s, st.db.rows, requested, fails, r)
    ensures r.Ok? ==> exists notes ::
      && IsAnsweredPage(notes, st.db.rows, s, ContextArgs(requested), 500)
      && Digest.IsRendering(r.value, if s.bound != "" then s.bound else requested, notes)
  {
    hide IsListAnswer, Digest.IsRendering, IsAnsweredPage;
    var notes := List(s, st, ContextArgs(requested), fails);
    if notes.Err? {
      r := Err(notes.error);
    } else {
      var text := Digest.Render(Requested(s, requested), notes.value);
      r := Ok(text);
    }
    assert IsDigestOf(s, requested, notes, r);
  }

  /** The arguments of a put call. */
  datatype PutArgs = PutArgs(
    id: string, project: string, title: string, body: string, kind: string, scope: string, tags: seq<string>,
    source: Source)

  /** The note a put call hands to the store: the caller is always its author. */
  function NoteOf(s: Session, a: PutArgs, project: string): Note {
    Note(a.id, project, a.title, a.kind, a.scope, a.tags, s.id.user, a.source, "", a.body, Unset, Unset, 0)
  }

  /** A version has what the caller of put gave, cleaned up, as an active note of the session's project. */
  ghost predicate IsWhatWasPut(s: Session, a: PutArgs, v: Note) {
    && v.project == TrimSpace(if s.bound != "" then s.bound else a.project)
    && v.title == TrimSpace(a.title) && v.body == TrimSpace(a.body) && v.status == "active"
    && v.kind == (if a.kind == "" then "project" else a.kind)
    && v.scope == (if a.scope == "" then "project" else a.scope)
    && |v.tags| == |a.tags| && (forall i :: 0 <= i < |v.tags| ==> v.tags[i] == ToLower(TrimSpace(a.tags[i])))
    && v.source == a.source && (a.id != "" ==> v.id == a.id) && (s.id.user != "" ==> v.author == s.id.user)
  }

  lemma PutArgsAreStored(s: Session, a: PutArgs, project: string)
    requires ProjectOf(s, a.project) == Ok(project)
    ensures var n := NoteOf(s, a, project); forall v ::
      HasNormalColumns(v, n) && (n.author != "" ==> v.author == n.author) && (n.id != "" ==> v.id == n.id) ==>
      IsWhatWasPut(s, a, v)
    ensures NoteOf(s, a, project).id == a.id && NoteOf(s, a, project).author == s.id.user
  {
    hide Strings.TrimSpace, Strings.ToLower;
  }

  /** The version neither is nor replaces a note of the project. */
  predicate IsElsewhere(rows: seq<Note>, v: Note, project: string) {
    var k := FindRow(rows, v.id);
    v.project != project && (k < |rows| ==> rows[k].project != project)
  }

  /** The version stays in one project: it is a note of it, and so is the one it replaces. */
  ghost predicate StaysIn(rows: seq<Note>, v: Note, project: string) {
    forall other :: other != project ==> IsElsewhere(rows, v, other)
  }

  lemma NotOfMoved(rows: seq<Note>, v: Note, other: string, project: string)
    requires IsRowOf(rows, v.id, other) && other != project
    ensures !StaysIn(rows, v, project)
  {
    assert !IsElsewhere(rows, v, other);
  }

  /** After the write of a version its row is that version. */
  lemma WrittenRow(rows: seq<Note>, v: Note)
    ensures IsRowOf(Written(rows, v), v.id, v.project)
    ensures FindRow(rows, v.id) < |rows| ==> FindRow(Written(rows, v), v.id) == FindRow(rows, v.id)
  {
    var k, w := FindRow(rows, v.id), Written(rows, v);
    assert w[k] == v && forall j :: 0 <= j < k ==> w[j] == rows[j];
    var l := FindRow(w, v.id);
    assert l <= k;
  }

  /** Whether a put of a named note is refused depends on the note alone. */
  lemma RefusalOfKnown(
      rows: seq<Note>, later: seq<Note>, note: Note, scan: string -> bool, newId: string, other: string)
    requires note.id != ""
    ensures Refusal(rows, note, scan, newId) == Refusal(later, note, scan, other)
  {
    NormalizeKeepsId(note);
  }

  /** The note is new, or its last committed version is in the project. */
  predicate LastIsIn(commits: seq<Note>, id: string, project: string) {
    var vs := VersionsIn(commits, id);
    vs == [] || vs[|vs| - 1].project == project
  }

  /** A write stays in a project exactly if the note's last version at that moment is in it. */
  lemma StaysInIff(db: Tables, done: seq<Note>, v: Note, project: string)
    requires StateOk(db, done)
    ensures StaysIn(db.rows, v, project) <==> v.project == project && LastIsIn(done, v.id, project)
  {
    hide FullText.Rebuild, VersionsIn, IsLedger, RevisionsAreFiled;
    assert Stored(db.rows, db.revs, v.id) == VersionsIn(done, v.id);
    var k := FindRow(db.rows, v.id);
    assert !IsElsewhere(db.rows, v, v.project);
    if k < |db.rows| {
      assert !IsElsewhere(db.rows, v, db.rows[k].project);
    }
  }

  /** None of these commits puts the note into another project. */
  predicate NobodyMoves(commits: seq<Note>, id: string, project: string) {
    forall v :: v in commits && v.id == id ==> v.project == project
  }

  /** The write of a tool. It stays in a project exactly if the note was there when it came. */
  method WriteNote(st: Store, note: Note, scan: string -> bool, newId: string, now: Instant, fault: Option<Stage>)
    returns (r: Result<Note, ToolError>)
    requires st.Valid()
    modifies st
    ensures st.Valid() && (r.Err? ==> unchanged(st))
    ensures fault == None && Refusal(old(st.db.rows), note, scan, newId).None? ==> r.Ok?
    ensures r.Ok? ==>
      && st.commits == old(st.commits) + [r.value] && st.db.rows == Written(old(st.db.rows), r.value)
      && r.value.project == TrimSpace(note.project)
      && (note.author != "" ==> r.value.author == note.author)
      && (note.status != "" ==> r.value.status == note.status)
      && r.value.scope == OrDefault(note.scope, PROJECT)
      && HasNormalColumns(r.value, note) && r.value.updated == At(now) && r.value in st.db.rows
      && IsPlaceOf(old(st.db.rows), note.id, r.value)
    ensures r.Ok? ==> forall p ::
      StaysIn(old(st.db.rows), r.value, p) <==> r.value.project == p && LastIsIn(old(st.commits), r.value.id, p)
  {
    hide Written, StateOk, Strings.TrimSpace, Notes.IsNormal, NewVersion, Normalize, VersionsIn;
    ghost var db, commits := st.db, st.commits;
    var out := st.Put(note, scan, newId, now, fault);
    if out.Err? {
      return Err(Rejected(out.error));
    }
    PutPlace(db.rows, note, scan, newId, now, out.value);
    forall p
      ensures StaysIn(db.rows, out.value, p) <==> out.value.project == p && LastIsIn(commits, out.value.id, p)
    {
      StaysInIff(db, commits, out.value, p);
    }
    r := Ok(out.value);
  }

  /** The check of the put tool: the project to write, if the session may. */
  method CheckPut(s: Session, st: Store, a: PutArgs, fails: bool) returns (r: Result<string, ToolError>)
    requires st.Valid()
    ensures r == PutCheck(s, st.db.rows, a, fails)
  {
    var project := Project(s, a.project);
    if project.Err? {
      return Err(Refused(project.error));
    }
    if a.id != "" {
      var n := Get(s, st, a.id, fails);
      if n.Err? {
        return Err(n.error);
      }
    }
    r := Ok(project.value);
  }

  ghost function PutCheck(s: Session, rows: seq<Note>, a: PutArgs, fails: bool): Result<string, ToolError> {
    match ProjectOf(s, a.project)
    case Err(e) => Err(Refused(e))
    case Ok(p) =>
      if a.id == "" then Ok(p)
      else
        match GetOutcome(s, rows, a.id, fails)
        case Err(e) => Err(e)
        case Ok(_) => Ok(p)
  }

  /** The put tool, with any other requests between its check of the note and its write. `before` and `done` are
      the tables and commits the write finds. A session bound to a project commits a version of that project, and
      replaces none of any other exactly if the note is in the project at the write: for instance, if nobody
      moved it since the check. */
  method PutNote(
      s: Session, st: Store, a: PutArgs, scan: string -> bool, newId: string, now: Instant, fails: bool,
      fault: Option<Stage>, others: seq<Request>)
    returns (r: Result<Note, ToolError>, ghost before: Tables, ghost done: seq<Note>)
    requires st.Valid()
    modifies st
    ensures st.Valid() && old(st.commits) <= done && StateOk(before, done)
    ensures r.Err? ==> st.db == before && st.commits == done
    ensures r.Ok? ==>
      && PutCheck(s, old(st.db.rows), a, fails).Ok?
      && st.commits == done + [r.value] && st.db.rows == Written(before.rows, r.value)
    ensures r.Ok? ==> IsWhatWasPut(s, a, r.value) && r.value in st.db.rows
    ensures r.Ok? ==> Allows(s.id, if s.bound != "" then s.bound else a.project)
    ensures r.Ok? && a.id != "" ==> exists n :: n in old(st.db.rows) && n.id == a.id && IsOpenTo(s, n)
    ensures r.Ok? && s.bound != "" ==>
      && r.value.project == TrimSpace(s.bound)
      && (StaysIn(before.rows, r.value, TrimSpace(s.bound)) <==> LastIsIn(done, r.value.id, TrimSpace(s.bound)))
    ensures r.Ok? && s.bound != "" && NobodyMoves(done[|old(st.commits)|..], r.value.id, TrimSpace(s.bound)) ==>
      StaysIn(before.rows, r.value, TrimSpace(s.bound))
    ensures r.Ok? && s.id.user != "" ==> r.value.author == s.id.user
  {
    hide Written, StateOk, Strings.TrimSpace, VersionsIn, LastIsIn, StaysIn, Refusal, HasNormalColumns, IsWhatWasPut;
    ghost var db, commits := st.db, st.commits;
    before, done := db, commits;
    var project := CheckPut(s, st, a, fails);
    if project.Err? {
      return Err(project.error), before, done;
    }
    NotFoundIsClosed(s, db, commits, a.id);
    ServeAll(st, others, scan);
    before, done := st.db, st.commits;
    r := WriteNote(st, NoteOf(s, a, project.value), scan, newId, now, fault);
    PutArgsAreStored(s, a, project.value);
    if r.Ok? && s.bound != "" && NobodyMoves(done[|commits|..], r.value.id, TrimSpace(s.bound)) {
      BoundPutStays(s, db, commits, before, done, a.id, r.value);
    }
  }

  /** The deprecate tool, with any other requests between its check and the read of Deprecate, and between that
      and its write. `sofar` are the commits the read finds, `done` those the write finds. A bound session acts on
      a note of its project exactly if the note is there at both moments. */
  method DeprecateNote(
      s: Session, st: Store, id: string, reason: string, scan: string -> bool, newId: string, now: Instant,
      fails: bool, rereadFails: bool, fault: Option<Stage>, others: seq<Request>, more: seq<Request>)
    returns (r: Result<Note, ToolError>, ghost before: Tables, ghost sofar: seq<Note>, ghost done: seq<Note>)
    requires st.Valid()
    modifies st
    ensures st.Valid() && old(st.commits) <= sofar <= done && StateOk(before, done)
    ensures r.Err? ==> st.db == before && st.commits == done
    ensures GetOutcome(s, old(st.db.rows), id, fails).Err? ==> r == Err(GetOutcome(s, old(st.db.rows), id, fails).error)
    ensures r.Ok? ==>
      st.commits == done + [r.value] && st.db.rows == Written(before.rows, r.value) && r.value.status == DEPRECATED
    ensures r.Ok? ==> exists n :: n in old(st.db.rows) && n.id == id && IsOpenTo(s, n)
    ensures r.Ok? && id != "" ==> exists read :: IsLast(sofar, id, read) && IsDeprecationOf(read, reason, r.value)
    ensures r.Ok? && s.bound != "" ==>
      (StaysIn(before.rows, r.value, s.bound) <==> LastIsIn(sofar, id, s.bound) && LastIsIn(done, r.value.id, s.bound))
    ensures r.Ok? && s.bound != "" && NobodyMoves(done[|old(st.commits)|..], id, s.bound) ==>
      r.value.project == s.bound && StaysIn(before.rows, r.value, s.bound)
  {
    hide Written, StateOk, Strings.TrimSpace, VersionsIn, LastIsIn, StaysIn, Refusal, GetFrom, Allows;
    ghost var db, commits := st.db, st.commits;
    before, sofar, done := db, commits, commits;
    var n := Get(s, st, id, fails);
    if n.Err? {
      return Err(n.error), before, sofar, done;
    }
    ServeAll(st, others, scan);
    ghost var read := st.db;
    var copy := st.ReadForDeprecate(id, s.id.user, reason, rereadFails);
    before, sofar, done := st.db, st.commits, st.commits;
    if copy.Err? {
      return Err(Unread(copy.error)), before, sofar, done;
    }
    ServeAll(st, more, scan);
    before, done := st.db, st.commits;
    r := WriteNote(st, copy.value, scan, newId, now, fault);
    if r.Ok? {
      CopyPlace(read, sofar, id, s.id.user, reason, r.value, s.bound);
      if id != "" {
        CopyIsWritten(read, sofar, id, s.id.user, reason, r.value);
      }
      if s.bound != "" && NobodyMoves(done[|commits|..], id, s.bound) {
        CopyIsInside(s, db, commits, read, sofar, done, id);
        BoundDeprecationStays(s, db, commits, before, done, id, r.value);
      }
    }
  }

  /** The deprecated version has what was read, but for status and reason. */
  lemma CopyIsWritten(read: Tables, sofar: seq<Note>, id: string, viewer: string, reason: string, v: Note)
    requires StateOk(read, sofar) && GetFrom(read.rows, id, viewer).Some? && id != ""
    requires var n := GetFrom(read.rows, id, viewer).value;
      v.id == n.id && HasNormalColumns(v, DeprecatedCopy(n, reason))
    ensures exists n :: IsLast(sofar, id, n) && IsDeprecationOf(n, reason, v)
  {
    hide Strings.TrimSpace, VersionsIn, FullText.Rebuild, IsLedger, HasNormalColumns, Notes.IsNormal, Normalize;
    var n := GetFrom(read.rows, id, viewer).value;
    assert Stored(read.rows, read.revs, id) == VersionsIn(sofar, id);
    RowIsNormal(read, sofar, FindRow(read.rows, id));
    DeprecatedCopyIsStorable(n, reason);
    NormalizeByColumn(DeprecatedCopy(n, reason));
    SameColumns(v, Normalize(DeprecatedCopy(n, reason)).value, DeprecatedCopy(n, reason));
    assert IsLast(sofar, id, n) && IsDeprecationOf(n, reason, v);
  }

  lemma SameColumns(v: Note, m: Note, n: Note)
    requires HasNormalColumns(v, n) && HasNormalColumns(m, n)
    ensures SameText(v, m)
  {
    assert v.tags == m.tags;
  }

  /** What a session puts shows up when it lists the project: unless the page is full, a list without further
      conditions holds it. */
  method PutIsListed(s: Session, st: Store, a: PutArgs, scan: string -> bool, newId: string, now: Instant, limit: int)
    returns (r: Result<Note, ToolError>, page: Result<seq<Note>, ToolError>)
    requires st.Valid()
    modifies st
    ensures st.Valid()
    ensures
      (r.Ok? && (a.scope == "personal" ==> s.id.user != "")
       && IsTrimmed(if s.bound != "" then s.bound else a.project)) ==>
      page.Ok? && (r.value in page.value || |page.value| == if 1 <= limit <= 500 then limit else 50)
  {
    hide StateOk, Strings.TrimSpace, VersionsIn, LastIsIn, StaysIn, Strings.IsTrimmed, Written, Strings.ToLower;
    ghost var before, done;
    r, before, done := PutNote(s, st, a, scan, newId, now, false, None, []);
    page := List(s, st, ListArgs(a.project, "", Unset, "", limit), false);
    TrimSpaceTrims(if s.bound != "" then s.bound else a.project);
  }

  /** The project of the deprecated version is that of the version that was read. */
  lemma CopyPlace(read: Tables, sofar: seq<Note>, id: string, viewer: string, reason: string, v: Note, project: string)
    requires StateOk(read, sofar) && GetFrom(read.rows, id, viewer).Some?
    requires v.project == TrimSpace(GetFrom(read.rows, id, viewer).value.project)
    ensures GetFrom(read.rows, id, viewer).value.id == id
    ensures v.project == project <==> IsRowOf(read.rows, id, project)
    ensures v.project == project <==> LastIsIn(sofar, id, project)
  {
    hide Strings.TrimSpace, VersionsIn, FullText.Rebuild, IsLedger;
    assert Stored(read.rows, read.revs, id) == VersionsIn(sofar, id);
    RowIsNormal(read, sofar, FindRow(read.rows, id));
  }

  // ---- a note that is moved while a tool is at work ----

  /** A put that another caller may make at any time: it gives an existing note to another project. */
  predicate IsMove(rows: seq<Note>, mover: Note, id: string, scan: string -> bool, project: string) {
    && id != "" && mover.id == id && Refusal(rows, mover, scan, "").None?
    && TrimSpace(mover.project) != project
  }

  /** The write of a moved note is accepted, and replaces a note of the project it was moved to. `moved` are the
      tables the write finds. */
  method MovedNoteIsReplaced(
      s: Session, st: Store, a: PutArgs, mover: Note, scan: string -> bool, newId: string, now: Instant, later: Instant)
    returns (r: Result<Note, ToolError>, ghost moved: Tables)
    requires st.Valid() && s.bound != "" && PutCheck(s, st.db.rows, a, false).Ok?
    requires IsMove(st.db.rows, mover, a.id, scan, s.bound)
    requires Refusal(st.db.rows, NoteOf(s, a, s.bound), scan, newId).None?
    modifies st
    ensures IsRowOf(moved.rows, a.id, TrimSpace(mover.project))
    ensures r.Ok? && st.db.rows == Written(moved.rows, r.value) && IsRowOf(st.db.rows, a.id, s.bound)
    ensures !StaysIn(moved.rows, r.value, s.bound)
  {
    hide StateOk, Strings.TrimSpace, VersionsIn, LastIsIn, StaysIn, Refusal, Allows;
    ghost var db, commits := st.db, st.commits;
    var project := CheckPut(s, st, a, false);
    RowIsNormal(db, commits, FindRow(db.rows, a.id));
    RefusalOfKnown(db.rows, db.rows, mover, scan, "", newId);
    var out := WriteNote(st, mover, scan, newId, now, None);
    WrittenRow(db.rows, out.value);
    moved := st.db;
    RefusalOfKnown(db.rows, moved.rows, NoteOf(s, a, s.bound), scan, newId, newId);
    r := WriteNote(st, NoteOf(s, a, project.value), scan, newId, later, None);
    WrittenRow(moved.rows, r.value);
    NotOfMoved(moved.rows, r.value, TrimSpace(mover.project), s.bound);
  }

  /** The same for the deprecate tool: a note that is moved before the read is deprecated in the other project,
      and one that is moved after it is taken from there. */
  method MovedNoteIsDeprecated(
      s: Session, st: Store, id: string, reason: string, mover: Note, scan: string -> bool, newId: string,
      now: Instant, later: Instant, early: bool)
    returns (r: Result<Note, ToolError>, ghost moved: Tables)
    requires st.Valid() && s.bound != "" && GetAnswer(s, st.db.rows, id).Some?
    requires IsMove(st.db.rows, mover, id, scan, s.bound) && mover.scope != PERSONAL
    requires forall text :: !scan(text)
    modifies st
    ensures IsRowOf(moved.rows, id, TrimSpace(mover.project))
    ensures r.Ok? && r.value.status == DEPRECATED && st.db.rows == Written(moved.rows, r.value)
    ensures IsRowOf(st.db.rows, id, if early then TrimSpace(mover.project) else s.bound)
    ensures !StaysIn(moved.rows, r.value, s.bound)
  {
    hide StateOk, Strings.TrimSpace, VersionsIn, LastIsIn, StaysIn, Refusal, Allows;
    ghost var db, commits := st.db, st.commits;
    var n := Get(s, st, id, false);
    RefusalOfKnown(db.rows, db.rows, mover, scan, "", newId);
    if early {
      var out := WriteNote(st, mover, scan, newId, now, None);
      WrittenRow(db.rows, out.value);
    }
    RowIsNormal(st.db, st.commits, FindRow(st.db.rows, id));
    CopyIsAccepted(st.db, st.commits, id, s.id.user, reason, scan, newId);
    ghost var read := st.db;
    var copy := st.ReadForDeprecate(id, s.id.user, reason, false);
    if !early {
      var out := WriteNote(st, mover, scan, newId, now, None);
      WrittenRow(db.rows, out.value);
    }
    moved := st.db;
    RefusalOfKnown(read.rows, moved.rows, copy.value, scan, newId, newId);
    r := WriteNote(st, copy.value, scan, newId, later, None);
    WrittenRow(moved.rows, r.value);
    NotOfMoved(moved.rows, r.value, TrimSpace(mover.project), s.bound);
  }

  /** What Deprecate puts back is accepted, unless the scanner finds something. */
  lemma CopyIsAccepted(
      db: Tables, commits: seq<Note>, id: string, viewer: string, reason: string, scan: string -> bool, newId: string)
    requires StateOk(db, commits) && GetFrom(db.rows, id, viewer).Some? && id != ""
    requires forall text :: !scan(text)
    ensures Refusal(db.rows, DeprecatedCopy(GetFrom(db.rows, id, viewer).value, reason), scan, newId).None?
  {
    hide Notes.IsNormal, Strings.TrimSpace, Normalize, StateOk;
    RowIsNormal(db, commits, FindRow(db.rows, id));
    DeprecatedCopyIsStorable(GetFrom(db.rows, id, viewer).value, reason);
  }

  /** The note that was read belongs to the session's project. */
  lemma CopyIsInside(
      s: Session, db: Tables, commits: seq<Note>, read: Tables, sofar: seq<Note>, done: seq<Note>, id: string)
    requires StateOk(db, commits) && StateOk(read, sofar) && commits <= sofar <= done
    requires s.bound != "" && GetAnswer(s, db.rows, id).Some? && NobodyMoves(done[|commits|..], id, s.bound)
    ensures IsRowOf(read.rows, id, s.bound)
  {
    hide StateOk, Allows;
    forall v | v in sofar[|commits|..]
      ensures v in done[|commits|..]
    {
      var i :| |commits| <= i < |sofar| && sofar[i] == v;
      assert done[i] == v;
    }
    RowStaysInside(db, commits, read, sofar, id, s.bound);
  }

  predicate IsRowOf(rows: seq<Note>, id: string, project: string) {
    var k := FindRow(rows, id);
    k < |rows| && rows[k].project == project
  }

  /** A note stays in its project as long as nobody moves it. */
  lemma RowStaysInside(db: Tables, commits: seq<Note>, later: Tables, all: seq<Note>, id: string, project: string)
    requires StateOk(db, commits) && StateOk(later, all) && commits <= all
    requires IsRowOf(db.rows, id, project) && NobodyMoves(all[|commits|..], id, project)
    ensures IsRowOf(later.rows, id, project)
  {
    hide FullText.Rebuild, VersionsIn, Snapshots;
    assert all == commits + all[|commits|..];
    assert Stored(db.rows, db.revs, id) == VersionsIn(commits, id);
    assert Stored(later.rows, later.revs, id) == VersionsIn(all, id);
    LastStaysInside(commits, all[|commits|..], id, project);
  }

  lemma {:induction false} LastStaysInside(commits: seq<Note>, more: seq<Note>, id: string, project: string)
    requires NobodyMoves(more, id, project)
    requires var vs := VersionsIn(commits, id); vs != [] && vs[|vs| - 1].project == project
    ensures var vs := VersionsIn(commits + more, id); vs != [] && vs[|vs| - 1].project == project
  {
    if more == [] {
      assert commits + more == commits;
    } else {
      LastStaysInside(commits, more[..|more| - 1], id, project);
      assert (commits + more)[..|commits + more| - 1] == commits + more[..|more| - 1];
    }
  }

  /** The version is one of the named note, or of a new one. */
  predicate IsPlaceOf(rows: seq<Note>, id: string, v: Note) {
    if id != "" then v.id == id else FindRow(rows, v.id) == |rows|
  }

  /** Where the version of an accepted put belongs, and whose it is. */
  lemma PutPlace(rows: seq<Note>, note: Note, scan: string -> bool, newId: string, now: Instant, v: Note)
    requires Refusal(rows, note, scan, newId).None?
    requires v == NewVersion(Normalize(note).value, Current(rows, note.id), newId, now)
    ensures v.project == TrimSpace(note.project) && (note.author != "" ==> v.author == note.author)
    ensures (note.status != "" ==> v.status == note.status) && v.scope == OrDefault(note.scope, PROJECT)
    ensures IsPlaceOf(rows, note.id, v)
  {
    hide Strings.TrimSpace, CanonTags;
  }

  lemma BoundPutStays(
      s: Session, db: Tables, commits: seq<Note>, before: Tables, done: seq<Note>, id: string, v: Note)
    requires StateOk(db, commits) && StateOk(before, done) && commits <= done
    requires s.bound != "" && v.project == TrimSpace(s.bound)
    requires NobodyMoves(done[|commits|..], v.id, TrimSpace(s.bound))
    requires FindRow(before.rows, v.id) == |before.rows| || (v.id == id && GetAnswer(s, db.rows, id).Some?)
    ensures StaysIn(before.rows, v, TrimSpace(s.bound))
  {
    hide StateOk, Allows, Strings.TrimSpace;
    if FindRow(before.rows, v.id) < |before.rows| {
      RowIsNormal(db, commits, FindRow(db.rows, id));
      RowStaysInside(db, commits, before, done, id, TrimSpace(s.bound));
    }
  }

  lemma BoundDeprecationStays(
      s: Session, db: Tables, commits: seq<Note>, before: Tables, done: seq<Note>, id: string, v: Note)
    requires StateOk(db, commits) && StateOk(before, done) && commits <= done
    requires s.bound != "" && v.project == s.bound
    requires NobodyMoves(done[|commits|..], id, s.bound) && GetAnswer(s, db.rows, id).Some?
    requires v.id == id || FindRow(before.rows, v.id) == |before.rows|
    ensures StaysIn(before.rows, v, s.bound)
  {
    hide StateOk, Allows;
    RowStaysInside(db, commits, before, done, id, s.bound);
  }

  lemma RowIsNormal(db: Tables, commits: seq<Note>, k: nat)
    requires StateOk(db, commits) && k < |db.rows|
    ensures IsNormal(db.rows[k]) && TrimSpace(db.rows[k].project) == db.rows[k].project
  {
    hide FullText.Rebuild, VersionsIn, Notes.IsNormal, Strings.TrimSpace, Strings.IsTrimmed, IsLedger;
    var id := db.rows[k].id;
    UniqueRow(db.rows, k);
    assert Stored(db.rows, db.revs, id) == VersionsIn(commits, id);
    RevisionsCountUp(commits, id, |VersionsIn(commits, id)| - 1);
    NormalIsTrimmed(db.rows[k]);
  }

  lemma NormalIsTrimmed(n: Note)
    requires IsNormal(n)
    ensures TrimSpace(n.project) == n.project
  {
    TrimSpaceTrims(n.project);
  }

  // ---- two tables that look the same ----

  ghost function SeenBy(s: Session, rows: seq<Note>): seq<Note> {
    Where(rows, (n: Note) => MaySee(s, n))
  }

  /** The notes the session may see are the same rows in both tables, and no two were updated at the same time. */
  ghost predicate LooksTheSame(s: Session, a: seq<Note>, b: seq<Note>) {
    && IdsAreUnique(a) && IdsAreUnique(b)
    && multiset(SeenBy(s, a)) == multiset(SeenBy(s, b))
    && HasNoTies(SeenBy(s, a), NewestFirst)
  }

  lemma SeenInBoth(s: Session, a: seq<Note>, b: seq<Note>, n: Note)
    requires multiset(SeenBy(s, a)) == multiset(SeenBy(s, b)) && n in a && MaySee(s, n)
    ensures n in b
  {
    assert n in multiset(SeenBy(s, a));
    assert n in multiset(SeenBy(s, b));
    assert n in SeenBy(s, b);
  }

  lemma GetFollowsSeen(s: Session, a: seq<Note>, b: seq<Note>, id: string)
    requires IdsAreUnique(b) && multiset(SeenBy(s, a)) == multiset(SeenBy(s, b))
    ensures GetAnswer(s, a, id).Some? ==> GetAnswer(s, b, id) == GetAnswer(s, a, id)
  {
    var k := FindRow(a, id);
    if k < |a| && MaySee(s, a[k]) {
      SeenInBoth(s, a, b, a[k]);
      var j :| 0 <= j < |b| && b[j] == a[k];
      UniqueRow(b, j);
    }
  }

  lemma NoTiesWithin(rows: seq<Note>, coarse: Note -> bool, fine: Note -> bool)
    requires HasNoTies(Where(rows, coarse), NewestFirst)
    requires forall n :: n in rows && fine(n) ==> coarse(n)
    ensures HasNoTies(Where(rows, fine), NewestFirst)
  {
    WhereWithin(rows, coarse, fine);
    NoTiesInSelection(Where(rows, coarse), fine, NewestFirst);
  }

  lemma AdmittedFollowSeen(s: Session, a: seq<Note>, b: seq<Note>, f: Filter, p: seq<Note>, q: seq<Note>)
    requires s.bound != "" && Allows(s.id, s.bound) && f.project == s.bound && f.viewer == s.id.user
    requires LooksTheSame(s, a, b)
    requires IsPage(p, Where(a, (n: Note) => Admits(f, n)), NewestFirst, Limit(f))
    requires IsPage(q, Where(b, (n: Note) => Admits(f, n)), NewestFirst, Limit(f))
    ensures p == q
  {
    var coarse, fine := (n: Note) => MaySee(s, n), (n: Note) => Admits(f, n);
    WhereWithin(a, coarse, fine);
    WhereWithin(b, coarse, fine);
    WhereOfSameRows(SeenBy(s, a), SeenBy(s, b), fine);
    NoTiesWithin(a, coarse, fine);
    PageIsDetermined(p, q, Where(a, fine), Where(b, fine), NewestFirst, Limit(f));
  }

  lemma ListFollowsSeen(
      s: Session, a: seq<Note>, b: seq<Note>, args: ListArgs, fails: bool,
      r: Result<seq<Note>, ToolError>, q: Result<seq<Note>, ToolError>)
    requires s.bound != "" && LooksTheSame(s, a, b)
    requires IsListAnswer(s, a, args, fails, r) && IsListAnswer(s, b, args, fails, q)
    ensures r == q
  {
    hide Admits, LooksTheSame;
    if r.Ok? {
      AdmittedFollowSeen(s, a, b, ListFilter(s, args, s.bound), r.value, q.value);
    }
  }

  /** A pinned session is answered from the notes it may see and nothing else: whatever two tables hold
      besides, it cannot tell them apart by getting, listing or asking for its context. */
  lemma PinnedSessionIsIsolated(
      s: Session, a: seq<Note>, b: seq<Note>, id: string, args: ListArgs, fails: bool,
      r: Result<seq<Note>, ToolError>, q: Result<seq<Note>, ToolError>)
    requires s.bound != "" && LooksTheSame(s, a, b)
    ensures GetAnswer(s, a, id) == GetAnswer(s, b, id)
    ensures IsListAnswer(s, a, args, fails, r) && IsListAnswer(s, b, args, fails, q) ==> r == q
  {
    GetFollowsSeen(s, a, b, id);
    GetFollowsSeen(s, b, a, id);
    if IsListAnswer(s, a, args, fails, r) && IsListAnswer(s, b, args, fails, q) {
      ListFollowsSeen(s, a, b, args, fails, r, q);
    }
  }

  lemma HitsFollowSeen(s: Session, a: seq<Note>, b: seq<Note>, args: SearchArgs)
    requires s.bound != "" && Allows(s.id, s.bound) && LooksTheSame(s, a, b)
    ensures multiset(Hits(s, a, args, s.bound)) == multiset(Hits(s, b, args, s.bound))
  {
    hide FullText.TextMatches, Ordering.Where;
    var f := SearchFilter(s, args, s.bound);
    var coarse, fine := (n: Note) => MaySee(s, n), (n: Note) => IsHit(f, args.query, n);
    WhereWithin(a, coarse, fine);
    WhereWithin(b, coarse, fine);
    WhereOfSameRows(SeenBy(s, a), SeenBy(s, b), fine);
  }

  /** Searches of a pinned session find equally much in both tables: the same list without terms, and the same
      notes whenever they all fit on the page. Which hits a full page shows, and in what order, is up to the
      ranking, which weighs words by all notes of the store. */
  lemma PinnedSearchIsIsolated(
      s: Session, a: seq<Note>, b: seq<Note>, args: SearchArgs, fails: bool,
      r: Result<seq<Note>, ToolError>, q: Result<seq<Note>, ToolError>)
    requires s.bound != "" && LooksTheSame(s, a, b)
    requires IsSearchAnswer(s, a, args, fails, r) && IsSearchAnswer(s, b, args, fails, q)
    ensures r.Err? || q.Err? || FullText.Terms(args.query) == [] ==> r == q
    ensures r.Ok? && q.Ok? ==> |r.value| == |q.value|
    ensures var limit := Limit(SearchFilter(s, args, s.bound));
      r.Ok? && q.Ok? && (|r.value| < limit || |Hits(s, a, args, s.bound)| <= limit) ==>
      multiset(r.value) == multiset(q.value)
  {
    hide IsHit, Admits, Ordering.Where, FullText.Terms, LooksTheSame;
    if r.Ok? && q.Ok? {
      var f := SearchFilter(s, args, s.bound);
      if FullText.Terms(args.query) == [] {
        AdmittedFollowSeen(s, a, b, f, r.value, q.value);
      } else {
        var x, y := Hits(s, a, args, s.bound), Hits(s, b, args, s.bound);
        var m :| IsPage(r.value, x, ByScore(m), Limit(f));
        var n :| IsPage(q.value, y, ByScore(n), Limit(f));
        HitsFollowSeen(s, a, b, args);
        SameSize(x, y);
        PageRows(r.value, x, ByScore(m), Limit(f));
        PageRows(q.value, y, ByScore(n), Limit(f));
      }
    }
  }

  /** The context of a pinned session is the same text for both tables. */
  lemma PinnedContextIsIsolated(
      s: Session, a: seq<Note>, b: seq<Note>, requested: string, fails: bool,
      r: Result<string, ToolError>, q: Result<string, ToolError>)
    requires s.bound != "" && LooksTheSame(s, a, b)
    requires IsContextAnswer(s, a, requested, fails, r) && IsContextAnswer(s, b, requested, fails, q)
    ensures r == q
  {
    hide IsListAnswer, LooksTheSame, Digest.IsRendering;
    var m :| IsListAnswer(s, a, ContextArgs(requested), fails, m) && IsDigestOf(s, requested, m, r);
    var n :| IsListAnswer(s, b, ContextArgs(requested), fails, n) && IsDigestOf(s, requested, n, q);
    ListFollowsSeen(s, a, b, ContextArgs(requested), fails, m, n);
    if m.Ok? {
      Digest.DigestIsDetermined(Requested(s, requested), m.value, r.value, q.value);
    }
  }

  // ---- runs of other projects' writes ----

  /** The table after a run of committed versions. */
  function AllWritten(rows: seq<Note>, vs: seq<Note>): seq<Note> {
    if vs == [] then rows else Written(AllWritten(rows, vs[..|vs| - 1]), vs[|vs| - 1])
  }

  predicate AllElsewhere(rows: seq<Note>, vs: seq<Note>, project: string) {
    vs == [] ||
    (var earlier, v := vs[..|vs| - 1], vs[|vs| - 1];
     AllElsewhere(rows, earlier, project) && IsElsewhere(AllWritten(rows, earlier), v, project))
  }

  lemma {:induction false} UpdateOutside(rows: seq<Note>, k: nat, v: Note, cond: Note -> bool)
    requires k < |rows| && !cond(rows[k]) && !cond(v)
    ensures Where(rows[k := v], cond) == Where(rows, cond)
  {
    var n := |rows| - 1;
    if k < n {
      UpdateOutside(rows[..n], k, v, cond);
      assert rows[k := v][..n] == rows[..n][k := v];
    } else {
      assert rows[k := v][..n] == rows[..n];
    }
  }

  lemma WriteElsewhereIsUnseen(s: Session, rows: seq<Note>, v: Note)
    requires s.bound != "" && IdsAreUnique(rows) && IsElsewhere(rows, v, s.bound)
    ensures SeenBy(s, Written(rows, v)) == SeenBy(s, rows) && IdsAreUnique(Written(rows, v))
  {
    var k := FindRow(rows, v.id);
    if k == |rows| {
      WhereAppend(rows, v, (n: Note) => MaySee(s, n));
    } else {
      UpdateOutside(rows, k, v, (n: Note) => MaySee(s, n));
    }
  }

  lemma {:induction false} WritesElsewhereAreUnseen(s: Session, rows: seq<Note>, vs: seq<Note>)
    requires s.bound != "" && IdsAreUnique(rows) && AllElsewhere(rows, vs, s.bound)
    ensures SeenBy(s, AllWritten(rows, vs)) == SeenBy(s, rows) && IdsAreUnique(AllWritten(rows, vs))
  {
    if vs != [] {
      WritesElsewhereAreUnseen(s, rows, vs[..|vs| - 1]);
      WriteElsewhereIsUnseen(s, AllWritten(rows, vs[..|vs| - 1]), vs[|vs| - 1]);
    }
  }

  /** No run of Puts and Deprecates confined to other projects changes what a pinned session is answered. */
  lemma WritesElsewhereChangeNoAnswer(
      s: Session, rows: seq<Note>, vs: seq<Note>, id: string, args: ListArgs, fails: bool,
      r: Result<seq<Note>, ToolError>, q: Result<seq<Note>, ToolError>)
    requires s.bound != "" && IdsAreUnique(rows) && AllElsewhere(rows, vs, s.bound)
    requires HasNoTies(SeenBy(s, rows), NewestFirst)
    ensures LooksTheSame(s, rows, AllWritten(rows, vs))
    ensures GetAnswer(s, AllWritten(rows, vs), id) == GetAnswer(s, rows, id)
    ensures IsListAnswer(s, rows, args, fails, r) && IsListAnswer(s, AllWritten(rows, vs), args, fails, q) ==> r == q
  {
    WritesElsewhereAreUnseen(s, rows, vs);
    PinnedSessionIsIsolated(s, rows, AllWritten(rows, vs), id, args, fails, r, q);
  }
}
