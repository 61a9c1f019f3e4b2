/** The versioned note store (internal/store/store.go): tables, transactions, filters and searches. */
module NoteStore {
  import opened Wrappers
  import opened Strings
  import opened Timestamps
  import opened Ordering
  import opened Notes
  import opened TagFilter
  import FullText

  // ---- commits: what the two tables stand for ----

  /** The committed versions of one note, oldest first. */
  function VersionsIn(commits: seq<Note>, id: string): seq<Note> {
    if commits == [] then []
    else
      var v := commits[|commits| - 1];
      VersionsIn(commits[..|commits| - 1], id) + if v.id == id then [v] else []
  }

  /** The columns that a caller of Put determines. */
  predicate SameText(a: Note, b: Note) {
    && a.project == b.project && a.title == b.title && a.kind == b.kind && a.scope == b.scope && a.tags == b.tags
    && a.source == b.source && a.status == b.status && a.body == b.body
  }

  /** What Put makes of a normalised note, given the current version of the same note. */
  function NewVersion(m: Note, current: Option<Note>, newId: string, now: Instant): (v: Note)
    ensures SameText(v, m) && v.updated == At(now) && v.revision > 0
    ensures m.author != "" ==> v.author == m.author
  {
    match current
    case None =>
      m.(id := if m.id == "" then newId else m.id, created := if m.created == Unset then At(now) else m.created,
         updated := At(now), revision := 1)
    case Some(e) =>
      m.(created := e.created, updated := At(now), revision := e.revision + 1,
         author := if m.author == "" then e.author else m.author)
  }

  /** A commit continues the versions committed before it. */
  predicate Continues(before: seq<Note>, v: Note) {
    && IsNormal(v) && v.created.At? && v.updated.At?
    && v.revision == |before| + 1
    && (before != [] ==> v.created == before[0].created && (v.author == "" ==> before[|before| - 1].author == ""))
  }

  /** A history of commits, each the next version of its note. */
  predicate IsLedger(commits: seq<Note>) {
    commits == [] ||
    (var earlier, v := commits[..|commits| - 1], commits[|commits| - 1];
     IsLedger(earlier) && Continues(VersionsIn(earlier, v.id), v))
  }

  /** Revisions count up from 1 without gaps, and a note's creation time never changes. */
  lemma {:induction false} RevisionsCountUp(commits: seq<Note>, id: string, i: nat)
    requires IsLedger(commits) && i < |VersionsIn(commits, id)|
    ensures var vs := VersionsIn(commits, id);
      && vs[i].id == id && vs[i].revision == i + 1 && IsNormal(vs[i])
      && vs[i].created == vs[0].created && vs[i].created.At? && vs[i].updated.At?
  {
    var earlier, v := commits[..|commits| - 1], commits[|commits| - 1];
    var before := VersionsIn(earlier, id);
    if i < |before| {
      RevisionsCountUp(earlier, id, i);
    } else if before != [] {
      RevisionsCountUp(earlier, id, 0);
    }
  }

  /** No committed version is ever lost or changed by later commits. */
  lemma {:induction false} VersionsOnlyGrow(commits: seq<Note>, more: seq<Note>, id: string)
    ensures VersionsIn(commits, id) <= VersionsIn(commits + more, id)
  {
    if more == [] {
      assert commits + more == commits;
    } else {
      VersionsOnlyGrow(commits, more[..|more| - 1], id);
      assert (commits + more)[..|commits + more| - 1] == commits + more[..|more| - 1];
    }
  }

  // ---- filters ----

  datatype Filter = Filter(
    project: string, kind: string, scope: string, status: string, tags: seq<string>, since: Stamp, limit: int,
    viewer: string)

  /** Personal notes of other authors are hidden. */
  predicate IsVisible(n: Note, viewer: string) {
    n.scope != PERSONAL || n.author == viewer
  }

  predicate AdmitsValues(f: Filter, n: Note) {
    && (f.project == "" || n.project == f.project)
    && (f.kind == "" || n.kind == f.kind)
    && (f.scope == "" || n.scope == f.scope)
    && (f.status == "any" || n.status == if f.status == "" then ACTIVE else f.status)
  }

  predicate AllTagsMatch(wanted: seq<string>, tags: seq<string>) {
    forall t :: t in wanted ==> TagMatches(t, tags)
  }

  /** What a filter asks of a note. */
  predicate Admits(f: Filter, n: Note) {
    && AdmitsValues(f, n)
    && (f.since == Unset || AtMost(StampText(f.since), StampText(n.updated)))
    && IsVisible(n, f.viewer)
    && AllTagsMatch(f.tags, n.tags)
  }

  /** The conditions of the SQL text, with their arguments. */
  datatype Cond =
    | ProjectIs(v: string) | TypeIs(v: string) | ScopeIs(v: string) | StatusIs(v: string)
    | UpdatedFrom(text: string) | VisibleTo(viewer: string) | TagsLike(pattern: string)

  predicate Holds(c: Cond, n: Note) {
    match c
    case ProjectIs(v) => n.project == v
    case TypeIs(v) => n.kind == v
    case ScopeIs(v) => n.scope == v
    case StatusIs(v) => n.status == v
    case UpdatedFrom(text) => AtMost(text, StampText(n.updated))
    case VisibleTo(viewer) => n.scope != PERSONAL || n.author == viewer
    case TagsLike(pattern) => Like(pattern, JsonArray(n.tags))
  }

  predicate AllHold(w: seq<Cond>, n: Note) {
    forall c :: c in w ==> Holds(c, n)
  }

  /** One condition of Filter.where and its argument. */
  method AddCond(w: seq<Cond>, needed: bool, c: Cond) returns (r: seq<Cond>)
    ensures forall n :: AllHold(r, n) <==> AllHold(w, n) && (needed ==> Holds(c, n))
  {
    r := w;
    if needed {
      r := r + [c];
    }
  }

  /** The part of Filter.where that compares columns with given values. */
  method EqualityConds(f: Filter) returns (w: seq<Cond>)
    ensures forall n :: AllHold(w, n) <==> AdmitsValues(f, n)
  {
    w := AddCond([], f.project != "", ProjectIs(f.project));
    w := AddCond(w, f.kind != "", TypeIs(f.kind));
    w := AddCond(w, f.scope != "", ScopeIs(f.scope));
    var st := f.status;
    if st == "" {
      st := ACTIVE;
    }
    w := AddCond(w, st != "any", StatusIs(st));
  }

  /** Filter.where: the conditions together say what the filter asks. */
  method WhereClause(f: Filter) returns (w: seq<Cond>)
    ensures forall n :: AllHold(w, n) <==> Admits(f, n)
  {
    w := EqualityConds(f);
    w := AddCond(w, f.since != Unset, UpdatedFrom(StampText(f.since)));
    w := AddCond(w, true, VisibleTo(f.viewer));
    w := TagConds(w, f.tags);
  }

  /** The loop of Filter.where. */
  method TagConds(start: seq<Cond>, tags: seq<string>) returns (w: seq<Cond>)
    ensures forall n :: AllHold(w, n) <==> AllHold(start, n) && AllTagsMatch(tags, n.tags)
  {
    w := start;
    for i := 0 to |tags|
      invariant forall n :: AllHold(w, n) <==> AllHold(start, n) && AllTagsMatch(tags[..i], n.tags)
    {
      OneMoreTag(tags, i);
      w := AddCond(w, true, TagsLike(TagPattern(tags[i])));
    }
    assert tags[..|tags|] == tags;
  }

  lemma OneMoreTag(wanted: seq<string>, i: nat)
    requires i < |wanted|
    ensures forall n: Note :: AllTagsMatch(wanted[..i + 1], n.tags) <==>
      AllTagsMatch(wanted[..i], n.tags) && Holds(TagsLike(TagPattern(wanted[i])), n)
  {
    assert wanted[..i + 1] == wanted[..i] + [wanted[i]];
    assert wanted[i] in wanted[..i + 1];
    forall n: Note
      ensures AllTagsMatch(wanted[..i + 1], n.tags) <==>
        AllTagsMatch(wanted[..i], n.tags) && TagMatches(wanted[i], n.tags)
    {
      if AllTagsMatch(wanted[..i + 1], n.tags) {
        assert forall t :: t in wanted[..i] ==> t in wanted[..i + 1];
      }
    }
  }

  function Limit(f: Filter): nat {
    if f.limit <= 0 || f.limit > 500 then 50 else f.limit
  }

  /** The `since` condition compares texts: it answers as the instants would except for exactly the inverted
      pairs, such as a note updated half a second after a whole-second `since`. */
  lemma SinceErrsOnInvertedPairs(since: Instant, updated: Instant)
    ensures AtMost(Text(since), Text(updated)) != (Nanos(since) <= Nanos(updated)) <==> Inverted(since, updated)
  {
    TextOrder(since, updated);
    TextIsInjective(since, updated);
    InvertedPairsAreMisordered(since, updated);
    SecondsOrder(since, updated);
  }

  predicate NewestFirst(a: Note, b: Note) {
    AtMost(StampText(b.updated), StampText(a.updated))
  }

  lemma NewestFirstIsPreorder()
    ensures IsTotalPreorder(NewestFirst)
  {
    forall x, y
      ensures NewestFirst(x, y) || NewestFirst(y, x)
    {
      AtMostIsTotalOrder(StampText(x.updated), StampText(y.updated), StampText(y.updated));
    }
    forall x, y, z | NewestFirst(x, y) && NewestFirst(y, z)
      ensures NewestFirst(x, z)
    {
      AtMostIsTotalOrder(StampText(z.updated), StampText(y.updated), StampText(x.updated));
    }
  }

  // ---- the same in terms of instants ----

  /** What a caller means by a filter, field by field. */
  ghost predicate Meets(f: Filter, n: Note) {
    && (f.project != "" ==> n.project == f.project)
    && (f.kind != "" ==> n.kind == f.kind)
    && (f.scope != "" ==> n.scope == f.scope)
    && (f.status == "" ==> n.status == "active")
    && (f.status != "" && f.status != "any" ==> n.status == f.status)
    && (f.since != Unset ==> IsNotAfter(f.since, n.updated))
    && (n.scope == "personal" ==> n.author == f.viewer)
    && forall t :: t in f.tags ==> TagMatches(t, n.tags)
  }

  lemma AdmitsMeansMeets(f: Filter, n: Note)
    requires n.updated.At?
    ensures Admits(f, n) <==> Meets(f, n)
  {
    hide StampText, TagMatches, IsNotAfter;
    if f.since.At? {
      TextsAreInstants(f.since, n.updated);
    }
  }

  // ---- the tables ----

  /** A row of note_revisions. */
  datatype Revision = Revision(noteId: string, revision: nat, snapshot: Note, author: string, created: Stamp)

  /** The columns the full-text index covers. */
  function DocOf(n: Note): FullText.Doc {
    FullText.Doc(n.title, n.body, JsonArray(n.tags))
  }

  function DocsUpTo(rows: seq<Note>, n: nat): (r: seq<FullText.Doc>)
    requires n <= |rows|
    ensures |r| == n
  {
    if n == 0 then [] else DocsUpTo(rows, n - 1) + [DocOf(rows[n - 1])]
  }

  function DocsOf(rows: seq<Note>): (r: seq<FullText.Doc>)
    ensures |r| == |rows|
  {
    DocsUpTo(rows, |rows|)
  }

  lemma {:induction false} DocsAt(rows: seq<Note>, n: nat, i: nat)
    requires i < n <= |rows|
    ensures DocsUpTo(rows, n)[i] == DocOf(rows[i])
  {
    if i < n - 1 {
      DocsAt(rows, n - 1, i);
    }
  }

  lemma {:induction false} DocsBefore(rows: seq<Note>, other: seq<Note>, n: nat)
    requires n <= |rows| && n <= |other| && rows[..n] == other[..n]
    ensures DocsUpTo(rows, n) == DocsUpTo(other, n)
  {
    if n > 0 {
      assert rows[n - 1] == rows[..n][n - 1] && other[n - 1] == other[..n][n - 1];
      assert rows[..n - 1] == rows[..n][..n - 1] && other[..n - 1] == other[..n][..n - 1];
      DocsBefore(rows, other, n - 1);
    }
  }

  lemma DocsAfterInsert(rows: seq<Note>, v: Note)
    ensures DocsOf(rows + [v]) == DocsOf(rows) + [DocOf(v)]
  {
    DocsBefore(rows, rows + [v], |rows|);
  }

  lemma {:induction false} DocsAfterUpdate(rows: seq<Note>, k: nat, v: Note, n: nat)
    requires k < n <= |rows|
    ensures DocsUpTo(rows[k := v], n) == DocsUpTo(rows, n)[k := DocOf(v)]
  {
    if k < n - 1 {
      DocsAfterUpdate(rows, k, v, n - 1);
    } else {
      DocsBefore(rows, rows[k := v], n - 1);
    }
  }

  predicate IdsAreUnique(rows: seq<Note>) {
    forall i, j :: 0 <= i < j < |rows| ==> rows[i].id != rows[j].id
  }

  /** The first row from `from` on with this id, or the number of rows. */
  function FindFrom(rows: seq<Note>, id: string, from: nat): (k: nat)
    requires from <= |rows|
    ensures from <= k <= |rows|
    ensures k < |rows| ==> rows[k].id == id
    ensures forall j :: from <= j < k ==> rows[j].id != id
    decreases |rows| - from
  {
    if from == |rows| || rows[from].id == id then from else FindFrom(rows, id, from + 1)
  }

  /** The position of a note's row, or the number of rows. */
  function FindRow(rows: seq<Note>, id: string): (k: nat)
    ensures k <= |rows|
    ensures k < |rows| ==> rows[k].id == id
    ensures forall j :: 0 <= j < k ==> rows[j].id != id
  {
    FindFrom(rows, id, 0)
  }

  /** The notes table after a version is written. */
  function Written(rows: seq<Note>, v: Note): seq<Note> {
    var k := FindRow(rows, v.id);
    if k == |rows| then rows + [v] else rows[k := v]
  }

  function Snapshots(revs: seq<Revision>, id: string): seq<Note> {
    if revs == [] then []
    else
      var r := revs[|revs| - 1];
      Snapshots(revs[..|revs| - 1], id) + if r.noteId == id then [r.snapshot] else []
  }

  /** All versions of a note that the two tables hold: the snapshots, then the row. */
  function Stored(rows: seq<Note>, revs: seq<Revision>, id: string): seq<Note> {
    var k := FindRow(rows, id);
    if k == |rows| then [] else Snapshots(revs, id) + [rows[k]]
  }

  predicate RevisionsAreFiled(rows: seq<Note>, revs: seq<Revision>) {
    forall r :: r in revs ==>
      && r.noteId == r.snapshot.id && r.revision == r.snapshot.revision
      && r.author == r.snapshot.author && r.created == r.snapshot.updated
      && FindRow(rows, r.noteId) < |rows|
  }

  lemma UniqueRow(rows: seq<Note>, k: nat)
    requires IdsAreUnique(rows) && k < |rows|
    ensures FindRow(rows, rows[k].id) == k
  {
    var j := FindRow(rows, rows[k].id);
    assert j <= k;
  }

  lemma InsertedRow(rows: seq<Note>, revs: seq<Revision>, v: Note, id: string)
    requires FindRow(rows, v.id) == |rows| && RevisionsAreFiled(rows, revs)
    ensures FindRow(rows + [v], id) ==
      if id == v.id then |rows| else if FindRow(rows, id) == |rows| then |rows| + 1 else FindRow(rows, id)
    ensures Stored(rows + [v], revs, id) == if id == v.id then [v] else Stored(rows, revs, id)
  {
    var k := FindRow(rows + [v], id);
    if k < |rows| {
      assert (rows + [v])[k] == rows[k];
    }
    if FindRow(rows, id) < |rows| {
      assert (rows + [v])[FindRow(rows, id)].id == id;
    }
    if k == |rows| {
      assert (rows + [v])[k] == v;
    }
    if id == v.id {
      assert (rows + [v])[|rows|].id == id;
      NoSnapshots(revs, id);
    }
  }

  lemma {:induction false} NoSnapshots(revs: seq<Revision>, id: string)
    requires forall r :: r in revs ==> r.noteId != id
    ensures Snapshots(revs, id) == []
  {
    if revs != [] {
      NoSnapshots(revs[..|revs| - 1], id);
    }
  }

  lemma UpdatedRow(rows: seq<Note>, revs: seq<Revision>, k: nat, v: Note, r: Revision, id: string)
    requires IdsAreUnique(rows) && k < |rows| && rows[k].id == v.id == r.noteId && r.snapshot == rows[k]
    ensures FindRow(rows[k := v], id) == FindRow(rows, id)
    ensures Stored(rows[k := v], revs + [r], id) ==
      if id == v.id then Stored(rows, revs, id) + [v] else Stored(rows, revs, id)
  {
    UniqueRow(rows, k);
    var j, l := FindRow(rows, id), FindRow(rows[k := v], id);
    assert forall i :: 0 <= i < |rows| ==> rows[k := v][i].id == rows[i].id;
    assert (revs + [r])[..|revs|] == revs;
  }

  /** A snapshot in the table is one of the note's stored snapshots. */
  lemma {:induction false} SnapshotIsStored(revs: seq<Revision>, r: Revision) returns (i: nat)
    requires r in revs
    ensures i < |Snapshots(revs, r.noteId)| && Snapshots(revs, r.noteId)[i] == r.snapshot
  {
    var n := |revs| - 1;
    if revs[n] == r {
      i := |Snapshots(revs[..n], r.noteId)|;
    } else {
      assert r in revs[..n];
      i := SnapshotIsStored(revs[..n], r);
    }
  }

  // ---- what the tables promise ----

  ghost predicate TablesOk(rows: seq<Note>, revs: seq<Revision>, commits: seq<Note>) {
    && IdsAreUnique(rows) && RevisionsAreFiled(rows, revs) && IsLedger(commits)
    && forall id :: Stored(rows, revs, id) == VersionsIn(commits, id)
  }

  lemma OneMoreVersion(commits: seq<Note>, v: Note, id: string)
    ensures VersionsIn(commits + [v], id) ==
      if id == v.id then VersionsIn(commits, id) + [v] else VersionsIn(commits, id)
  {
    assert (commits + [v])[..|commits|] == commits;
  }

  lemma OneMoreCommit(commits: seq<Note>, v: Note)
    requires IsLedger(commits) && Continues(VersionsIn(commits, v.id), v)
    ensures IsLedger(commits + [v])
  {
    assert (commits + [v])[..|commits|] == commits;
  }

  lemma InsertKeepsUnique(rows: seq<Note>, v: Note)
    requires IdsAreUnique(rows) && FindRow(rows, v.id) == |rows|
    ensures IdsAreUnique(rows + [v])
  {
  }

  lemma InsertKeepsFiled(rows: seq<Note>, revs: seq<Revision>, v: Note)
    requires FindRow(rows, v.id) == |rows| && RevisionsAreFiled(rows, revs)
    ensures RevisionsAreFiled(rows + [v], revs)
  {
    forall r | r in revs
      ensures FindRow(rows + [v], r.noteId) < |rows + [v]|
    {
      InsertedRow(rows, revs, v, r.noteId);
    }
  }

  lemma UpdateKeepsFiled(rows: seq<Note>, revs: seq<Revision>, k: nat, v: Note, r: Revision)
    requires IdsAreUnique(rows) && RevisionsAreFiled(rows, revs)
    requires k < |rows| && rows[k].id == v.id
    requires r == Revision(v.id, rows[k].revision, rows[k], rows[k].author, rows[k].updated)
    ensures RevisionsAreFiled(rows[k := v], revs + [r])
  {
    UniqueRow(rows, k);
    forall q | q in revs + [r]
      ensures FindRow(rows[k := v], q.noteId) < |rows[k := v]|
    {
      UpdatedRow(rows, revs, k, v, r, q.noteId);
      assert q in revs || q == r;
    }
  }

  lemma CommitInserted(rows: seq<Note>, revs: seq<Revision>, commits: seq<Note>, v: Note)
    requires TablesOk(rows, revs, commits) && FindRow(rows, v.id) == |rows| && Continues([], v)
    ensures TablesOk(rows + [v], revs, commits + [v])
  {
    assert Stored(rows, revs, v.id) == VersionsIn(commits, v.id) == [];
    OneMoreCommit(commits, v);
    InsertKeepsFiled(rows, revs, v);
    InsertKeepsUnique(rows, v);
    forall id
      ensures Stored(rows + [v], revs, id) == VersionsIn(commits + [v], id)
    {
      InsertedRow(rows, revs, v, id);
      OneMoreVersion(commits, v, id);
      assert Stored(rows, revs, id) == VersionsIn(commits, id);
    }
  }

  lemma CommitUpdated(rows: seq<Note>, revs: seq<Revision>, commits: seq<Note>, k: nat, v: Note, r: Revision)
    requires TablesOk(rows, revs, commits) && k < |rows| && rows[k].id == v.id
    requires r == Revision(v.id, rows[k].revision, rows[k], rows[k].author, rows[k].updated)
    requires Continues(VersionsIn(commits, v.id), v)
    ensures TablesOk(rows[k := v], revs + [r], commits + [v])
  {
    OneMoreCommit(commits, v);
    UpdateKeepsFiled(rows, revs, k, v, r);
    forall id
      ensures Stored(rows[k := v], revs + [r], id) == VersionsIn(commits + [v], id)
    {
      UpdatedRow(rows, revs, k, v, r, id);
      OneMoreVersion(commits, v, id);
      assert Stored(rows, revs, id) == VersionsIn(commits, id);
    }
  }

  /** The key of the snapshot that an update files is never taken. */
  lemma RevisionKeyIsFree(rows: seq<Note>, revs: seq<Revision>, commits: seq<Note>, k: nat, r: Revision)
    requires TablesOk(rows, revs, commits) && k < |rows| && r in revs && r.noteId == rows[k].id
    ensures r.revision != rows[k].revision
  {
    UniqueRow(rows, k);
    var id := rows[k].id;
    var vs := VersionsIn(commits, id);
    assert Stored(rows, revs, id) == vs;
    var i := SnapshotIsStored(revs, r);
    RevisionsCountUp(commits, id, i);
    RevisionsCountUp(commits, id, |vs| - 1);
  }

  /** A version made from a normalised note continues what the tables hold. */
  lemma NewVersionContinues(
      rows: seq<Note>, revs: seq<Revision>, commits: seq<Note>, k: nat, m: Note, newId: string, now: Instant)
    requires TablesOk(rows, revs, commits) && IsNormal(m)
    ensures Continues([], NewVersion(m, None, newId, now))
    ensures k < |rows| && rows[k].id == m.id ==>
      Continues(VersionsIn(commits, m.id), NewVersion(m, Some(rows[k]), newId, now))
  {
    if k < |rows| && rows[k].id == m.id {
      UniqueRow(rows, k);
      var vs := VersionsIn(commits, m.id);
      assert Stored(rows, revs, m.id) == vs;
      RevisionsCountUp(commits, m.id, |vs| - 1);
      assert vs[|vs| - 1] == rows[k];
    }
  }

  /** The database: the two note tables and the full-text index. */
  datatype Tables = Tables(rows: seq<Note>, revs: seq<Revision>, index: FullText.Index)

  /** The tables hold exactly the committed versions, and the index is what a rebuild would give. */
  ghost predicate StateOk(db: Tables, commits: seq<Note>) {
    TablesOk(db.rows, db.revs, commits) && db.index == FullText.Rebuild(DocsOf(db.rows))
  }

  /** INSERT INTO notes, with its trigger. */
  function InsertRow(db: Tables, v: Note): Tables {
    db.(rows := db.rows + [v], index := FullText.OnInsert(db.index, |db.rows|, DocOf(v)))
  }

  /** UPDATE notes for the row in place `k`, with its trigger. */
  function UpdateRow(db: Tables, k: nat, v: Note): Tables
    requires k < |db.rows|
  {
    db.(rows := db.rows[k := v], index := FullText.OnUpdate(db.index, k, DocOf(db.rows[k]), DocOf(v)))
  }

  /** INSERT INTO note_revisions of the current version. */
  function FileSnapshot(db: Tables, e: Note): Tables {
    db.(revs := db.revs + [Revision(e.id, e.revision, e, e.author, e.updated)])
  }

  predicate HasRevision(revs: seq<Revision>, id: string, revision: nat) {
    exists q :: q in revs && q.noteId == id && q.revision == revision
  }

  lemma InsertKeepsState(db: Tables, commits: seq<Note>, v: Note)
    requires StateOk(db, commits) && FindRow(db.rows, v.id) == |db.rows| && Continues([], v)
    ensures StateOk(InsertRow(db, v), commits + [v]) && InsertRow(db, v).rows == Written(db.rows, v)
  {
    CommitInserted(db.rows, db.revs, commits, v);
    FullText.InsertKeepsIndex(DocsOf(db.rows), DocOf(v));
    DocsAfterInsert(db.rows, v);
  }

  /** Filing the snapshot and updating the row commits the next version, and the snapshot's key is free. */
  lemma UpdateKeepsState(db: Tables, commits: seq<Note>, k: nat, v: Note)
    requires StateOk(db, commits) && k == FindRow(db.rows, v.id) < |db.rows|
    requires Continues(VersionsIn(commits, v.id), v)
    ensures !HasRevision(db.revs, v.id, db.rows[k].revision)
    ensures StateOk(UpdateRow(FileSnapshot(db, db.rows[k]), k, v), commits + [v])
    ensures UpdateRow(FileSnapshot(db, db.rows[k]), k, v).rows == Written(db.rows, v)
  {
    var e := db.rows[k];
    if q :| q in db.revs && q.noteId == e.id && q.revision == e.revision {
      RevisionKeyIsFree(db.rows, db.revs, commits, k, q);
    }
    CommitUpdated(db.rows, db.revs, commits, k, v, Revision(e.id, e.revision, e, e.author, e.updated));
    DocsAfterUpdate(db.rows, k, v, |db.rows|);
    DocsAt(db.rows, |db.rows|, k);
    FullText.UpdateKeepsIndex(DocsOf(db.rows), k, DocOf(v));
  }

  // ---- requests ----

  datatype PutError =
    | Invalid(e: NoteError) | SecretFound
    | IdTaken        // the insert violates the key of notes
    | RevisionTaken  // the insert violates the key of note_revisions
    | Failure        // the database reports any other error

  /** Where the database may fail inside Put's transaction. */
  datatype Stage = Begin | Read | Snapshot | Write | Commit

  /** Why a request that reads gives no answer. */
  datatype ReadError =
    | NotFound
    | AmbiguousColumn // the statement is rejected
    | Unreadable      // the database reports any other error, or a row cannot be decoded

  /** The current version of the note a Put names. */
  function Current(rows: seq<Note>, id: string): Option<Note> {
    var k := FindRow(rows, id);
    if id != "" && k < |rows| then Some(rows[k]) else None
  }

  /** Why Put refuses a note. */
  function Refusal(rows: seq<Note>, n: Note, scan: string -> bool, newId: string): Option<PutError> {
    match Normalize(n)
    case Err(e) => Some(Invalid(e))
    case Ok(m) =>
      if scan(m.title + "\n" + m.body) then Some(SecretFound)
      else if m.id == "" && FindRow(rows, newId) < |rows| then Some(IdTaken)
      else None
  }

  /** The first version of a note. */
  ghost predicate Begins(v: Note, n: Note, newId: string, now: Instant) {
    && v.id == (if n.id == "" then newId else n.id) && v.author == n.author && v.revision == 1
    && v.created == if n.created == Unset then At(now) else n.created
  }

  /** The version after `e`. */
  ghost predicate Follows(v: Note, n: Note, e: Note) {
    && v.id == e.id && v.created == e.created && v.revision == e.revision + 1
    && v.author == if n.author == "" then e.author else n.author
  }

  lemma VersionColumns(db: Tables, commits: seq<Note>, n: Note, newId: string, now: Instant, v: Note)
    requires StateOk(db, commits) && Normalize(n).Ok?
    requires v == NewVersion(Normalize(n).value, Current(db.rows, n.id), newId, now)
    ensures HasNormalColumns(v, n) && v.updated == At(now)
    ensures forall e :: e in db.rows && e.id == n.id != "" ==> Follows(v, n, e)
    ensures (forall e :: e in db.rows ==> e.id != n.id || n.id == "") ==> Begins(v, n, newId, now)
  {
    hide Normalize, StateOk, HasNormalColumns, Current, NewVersion, Follows, Begins;
    NormalizeByColumn(n);
    CurrentIsRow(db, commits, n.id);
    ColumnsOfNewVersion(n, Normalize(n).value, Current(db.rows, n.id), newId, now);
  }

  lemma CurrentIsRow(db: Tables, commits: seq<Note>, id: string)
    requires StateOk(db, commits)
    ensures forall e :: e in db.rows && e.id == id != "" ==> Current(db.rows, id) == Some(e)
    ensures (forall e :: e in db.rows ==> e.id != id || id == "") ==> Current(db.rows, id) == None
    ensures Current(db.rows, id).Some? ==> Current(db.rows, id).value.id == id
  {
    hide FullText.Rebuild, VersionsIn, IsLedger, RevisionsAreFiled, Stored;
    forall e | e in db.rows && e.id == id != ""
      ensures Current(db.rows, id) == Some(e)
    {
      var k :| 0 <= k < |db.rows| && db.rows[k] == e;
      UniqueRow(db.rows, k);
    }
  }

  lemma ColumnsOfNewVersion(n: Note, m: Note, current: Option<Note>, newId: string, now: Instant)
    requires HasNormalColumns(m, n) && m.id == n.id && m.author == n.author && m.created == n.created
    requires current.Some? ==> current.value.id == n.id
    ensures var v := NewVersion(m, current, newId, now);
      && HasNormalColumns(v, n) && v.updated == At(now)
      && (if current.Some? then Follows(v, n, current.value) else Begins(v, n, newId, now))
  {
    hide TrimSpace, ToLower;
  }

  lemma WrittenIsThere(rows: seq<Note>, v: Note)
    ensures v in Written(rows, v) && forall e :: e in rows && e.id != v.id ==> e in Written(rows, v)
  {
    var k, w := FindRow(rows, v.id), Written(rows, v);
    assert w[k] == v;
    forall e | e in rows && e.id != v.id
      ensures e in w
    {
      var j :| 0 <= j < |rows| && rows[j] == e;
      assert w[j] == e;
    }
  }

  lemma NormalizedText(n: Note)
    requires Normalize(n).Ok?
    ensures Normalize(n).value.title == TrimSpace(n.title) && Normalize(n).value.body == TrimSpace(n.body)
  {
    NormalizeByColumn(n);
  }

  function GetFrom(rows: seq<Note>, id: string, viewer: string): Option<Note> {
    var k := FindRow(rows, id);
    if k < |rows| && IsVisible(rows[k], viewer) then Some(rows[k]) else None
  }

  /** The answer of a get. */
  function GetResult(rows: seq<Note>, id: string, viewer: string, fails: bool): Result<Note, ReadError> {
    if fails then Err(Unreadable)
    else
      match GetFrom(rows, id, viewer)
      case None => Err(NotFound)
      case Some(n) => Ok(n)
  }

  const DEPRECATION := "\n\n**Deprecated:** "

  function DeprecatedBody(body: string, reason: string): string {
    if reason != "" then body + DEPRECATION + TrimSpace(reason) else body
  }

  /** What Deprecate puts back after reading a note. */
  function DeprecatedCopy(n: Note, reason: string): Note {
    n.(status := DEPRECATED, body := DeprecatedBody(n.body, reason))
  }

  /** What a search looks for. */
  ghost predicate IsHit(f: Filter, query: string, n: Note) {
    Admits(f, n) && FullText.TextMatches(DocOf(n), query)
  }

  /** The notes that a caller means, newest first, and none left out that is newer than one on a page. */
  ghost predicate IsNewestPage(out: seq<Note>, rows: seq<Note>, f: Filter, limit: nat) {
    && |out| <= limit
    && (forall n :: n in out ==> n in rows && Meets(f, n))
    && (forall i, j :: 0 <= i < j < |out| ==> IsNotAfter(out[j].updated, out[i].updated))
    && (forall m :: m in rows && m !in out && Meets(f, m) ==> |out| == limit)
    && (forall m, n :: m in rows && m !in out && Meets(f, m) && n in out ==> IsNotAfter(m.updated, n.updated))
  }

  /** The hits that a caller means, best first, and none left out that is better than one on a page. */
  ghost predicate IsBestPage(
      out: seq<Note>, rows: seq<Note>, f: Filter, query: string, score: Note -> int, limit: nat)
  {
    && |out| <= limit
    && (forall n :: n in out ==> n in rows && Meets(f, n) && FullText.TextMatches(DocOf(n), query))
    && (forall i, j :: 0 <= i < j < |out| ==> score(out[i]) <= score(out[j]))
    && (forall m :: m in rows && m !in out && Meets(f, m) && FullText.TextMatches(DocOf(m), query) ==> |out| == limit)
    && (forall m, n ::
          m in rows && m !in out && Meets(f, m) && FullText.TextMatches(DocOf(m), query) && n in out ==>
          score(n) <= score(m))
  }

  /** A word in the note starts with the given one, in any case. */
  ghost predicate HasWordLike(n: Note, w: string) {
    || FullText.HasWordLike(n.title, w) || FullText.HasWordLike(n.body, w)
    || FullText.HasWordLike(JsonArray(n.tags), w)
  }

  /** The page shows only notes with such a word, and all that a caller means unless it is full. */
  ghost predicate FindsWord(out: seq<Note>, rows: seq<Note>, f: Filter, w: string, limit: nat) {
    && (forall n :: n in out ==> HasWordLike(n, w))
    && (|out| < limit ==> forall n :: n in rows && Meets(f, n) && HasWordLike(n, w) ==> n in out)
  }

  lemma StoredRowsAreDated(db: Tables, commits: seq<Note>, n: Note)
    requires StateOk(db, commits) && n in db.rows
    ensures n.updated.At?
  {
    hide FullText.Rebuild, VersionsIn, Notes.IsNormal, IsLedger, Snapshots;
    var k :| 0 <= k < |db.rows| && db.rows[k] == n;
    UniqueRow(db.rows, k);
    assert Stored(db.rows, db.revs, n.id) == VersionsIn(commits, n.id);
    RevisionsCountUp(commits, n.id, |VersionsIn(commits, n.id)| - 1);
  }

  lemma PageIsNewest(out: seq<Note>, db: Tables, commits: seq<Note>, f: Filter)
    requires StateOk(db, commits) && IsPage(out, Where(db.rows, (n: Note) => Admits(f, n)), NewestFirst, Limit(f))
    ensures IsNewestPage(out, db.rows, f, if 1 <= f.limit <= 500 then f.limit else 50)
  {
    hide StateOk, Admits, Meets, Ordering.Where, StampText, IsNotAfter, AtMost;
    var cond := (n: Note) => Admits(f, n);
    PageIsFirst(out, Where(db.rows, cond), NewestFirst, Limit(f));
    forall n | n in db.rows
      ensures n.updated.At? && (Admits(f, n) <==> Meets(f, n))
    {
      StoredRowsAreDated(db, commits, n);
      AdmitsMeansMeets(f, n);
    }
    forall m, n | m in db.rows && n in db.rows
      ensures NewestFirst(m, n) <==> IsNotAfter(n.updated, m.updated)
    {
      TextsAreInstants(n.updated, m.updated);
    }
  }

  lemma PageIsBest(out: seq<Note>, db: Tables, commits: seq<Note>, f: Filter, query: string, score: Note -> int)
    requires StateOk(db, commits)
    requires IsPage(out, Where(db.rows, (n: Note) => IsHit(f, query, n)), ByScore(score), Limit(f))
    ensures IsBestPage(out, db.rows, f, query, score, if 1 <= f.limit <= 500 then f.limit else 50)
  {
    hide StateOk, Admits, Meets, Ordering.Where, FullText.TextMatches, DocOf;
    var cond := (n: Note) => IsHit(f, query, n);
    PageIsFirst(out, Where(db.rows, cond), ByScore(score), Limit(f));
    forall n | n in db.rows
      ensures IsHit(f, query, n) <==> Meets(f, n) && FullText.TextMatches(DocOf(n), query)
    {
      StoredRowsAreDated(db, commits, n);
      AdmitsMeansMeets(f, n);
    }
  }

  lemma BestPageFindsWord(
      out: seq<Note>, db: Tables, commits: seq<Note>, f: Filter, w: string, score: Note -> int)
    requires FullText.IsWord(w)
    requires IsBestPage(out, db.rows, f, w, score, if 1 <= f.limit <= 500 then f.limit else 50)
    ensures FindsWord(out, db.rows, f, w, if 1 <= f.limit <= 500 then f.limit else 50)
  {
    hide Meets, FullText.TextMatches, FullText.HasWordLike, JsonArray;
    forall n: Note
      ensures FullText.TextMatches(DocOf(n), w) <==> HasWordLike(n, w)
    {
      FullText.OneWordMatches(DocOf(n), w);
    }
  }

  class Store {
    var db: Tables
    ghost var commits: seq<Note>

    ghost predicate Valid()
      reads this
    {
      StateOk(db, commits)
    }

    constructor ()
      ensures Valid() && commits == [] && db.rows == []
    {
      db, commits := Tables([], [], multiset{}), [];
    }

    /** The statements of Put's transaction, up to COMMIT. They work on a copy of the tables that nobody sees;
        `fault` is where the database fails, if it does. */
    method Statements(m: Note, newId: string, now: Instant, fault: Option<Stage>)
      returns (r: Result<Note, PutError>, tx: Tables)
      requires Valid() && IsNormal(m)
      ensures fault == None ==> (r.Err? <==> m.id == "" && FindRow(db.rows, newId) < |db.rows|)
      ensures r.Err? ==> r.error == IdTaken || (r.error == Failure && fault != None)
      ensures r.Ok? ==>
        && !(m.id == "" && FindRow(db.rows, newId) < |db.rows|)
        && r.value == NewVersion(m, Current(db.rows, m.id), newId, now)
        && StateOk(tx, commits + [r.value]) && tx.rows == Written(db.rows, r.value)
    {
      tx := db;
      if fault == Some(Begin) || (fault == Some(Read) && m.id != "") {
        return Err(Failure), tx;
      }
      var current := Current(tx.rows, m.id);
      var v := NewVersion(m, current, newId, now);
      var k := FindRow(tx.rows, v.id);
      NewVersionContinues(tx.rows, tx.revs, commits, k, m, newId, now);
      if current.None? {
        if k < |tx.rows| {
          return Err(IdTaken), tx;
        }
        InsertKeepsState(db, commits, v);
        tx := InsertRow(tx, v);
      } else {
        UpdateKeepsState(db, commits, k, v);
        if fault == Some(Snapshot) {
          return Err(Failure), tx;
        } else if HasRevision(tx.revs, v.id, current.value.revision) {
          return Err(RevisionTaken), tx;
        }
        tx := FileSnapshot(tx, current.value);
        tx := UpdateRow(tx, k, v);
      }
      r := if fault == Some(Write) then Err(Failure) else Ok(v);
    }

    /** The transaction of Put: what its statements built becomes the database only if they all succeed and
        COMMIT does. */
    method Transact(m: Note, newId: string, now: Instant, fault: Option<Stage>) returns (r: Result<Note, PutError>)
      requires Valid() && IsNormal(m)
      modifies this
      ensures Valid()
      ensures r.Err? ==> unchanged(this)
      ensures fault == None ==> (r.Err? <==> m.id == "" && FindRow(old(db.rows), newId) < |old(db.rows)|)
      ensures r.Err? ==> r.error == IdTaken || (r.error == Failure && fault != None)
      ensures r.Ok? ==>
        && !(m.id == "" && FindRow(old(db.rows), newId) < |old(db.rows)|)
        && r.value == NewVersion(m, Current(old(db.rows), m.id), newId, now)
        && commits == old(commits) + [r.value]
        && db.rows == Written(old(db.rows), r.value)
    {
      var tx: Tables;
      r, tx := Statements(m, newId, now, fault);
      if r.Ok? && fault == Some(Commit) {
        r := Err(Failure);
      }
      if r.Ok? {
        db, commits := tx, commits + [r.value];
      }
    }

    /** Creates a note or commits the next version of one. */
    method Put(n: Note, scan: string -> bool, newId: string, now: Instant, fault: Option<Stage>)
      returns (r: Result<Note, PutError>)
      requires Valid()
      modifies this
      ensures Valid()
      ensures r.Err? ==> unchanged(this)
      ensures fault == None ==> (r.Ok? <==> Refusal(old(db.rows), n, scan, newId).None?)
      ensures fault == None && r.Err? ==> Some(r.error) == Refusal(old(db.rows), n, scan, newId)
      ensures r.Ok? ==>
        && Refusal(old(db.rows), n, scan, newId).None?
        && r.value == NewVersion(Normalize(n).value, Current(old(db.rows), n.id), newId, now)
        && commits == old(commits) + [r.value]
        && db.rows == Written(old(db.rows), r.value)
      ensures forall e :: r == Err(Invalid(e)) <==> Normalize(n) == Err(e)
      ensures r == Err(SecretFound) <==> Normalize(n).Ok? && scan(TrimSpace(n.title) + "\n" + TrimSpace(n.body))
      ensures r.Ok? ==> HasNormalColumns(r.value, n) && r.value.updated == At(now) && r.value in db.rows
      ensures r.Ok? ==> forall e :: e in old(db.rows) && e.id == n.id != "" ==> Follows(r.value, n, e)
      ensures r.Ok? && (forall e :: e in old(db.rows) ==> e.id != n.id || n.id == "") ==> Begins(r.value, n, newId, now)
    {
      hide Normalize, IsNormal, NewVersion, Written, StateOk, HasNormalColumns, Follows, Begins, Current, TrimSpace;
      if Normalize(n).Ok? {
        NormalizedText(n);
      }
      ghost var before := db.rows;
      var normal := Normalize(n);
      if normal.Err? {
        return Err(Invalid(normal.error));
      }
      var m := normal.value;
      NormalizeKeepsId(n);
      if scan(m.title + "\n" + m.body) {
        return Err(SecretFound);
      }
      NormalizeReachesNormalForm(n);
      r := Transact(m, newId, now, fault);
      if r.Ok? {
        VersionColumns(old(db), old(commits), n, newId, now, r.value);
        WrittenIsThere(before, r.value);
      }
    }

    /** The last committed version, unless it is another author's personal note. */
    method Get(id: string, viewer: string, fails: bool) returns (r: Result<Note, ReadError>)
      requires Valid()
      ensures r == GetResult(db.rows, id, viewer, fails)
      ensures var vs := VersionsIn(commits, id);
        r == if fails then Err(Unreadable)
             else if vs == [] || (vs[|vs| - 1].scope == "personal" && vs[|vs| - 1].author != viewer) then Err(NotFound)
             else Ok(vs[|vs| - 1])
    {
      assert Stored(db.rows, db.revs, id) == VersionsIn(commits, id);
      if fails {
        return Err(Unreadable);
      }
      var k := FindRow(db.rows, id);
      if k == |db.rows| {
        return Err(NotFound);
      }
      var n := db.rows[k];
      if n.scope == PERSONAL && n.author != viewer {
        return Err(NotFound);
      }
      r := Ok(n);
    }

    /** The first step of Deprecate: reads the note and prepares what it will put back. Other requests may
        commit before that Put. */
    method ReadForDeprecate(id: string, viewer: string, reason: string, fails: bool)
      returns (r: Result<Note, ReadError>)
      requires Valid()
      ensures r == match GetResult(db.rows, id, viewer, fails)
                   case Err(e) => Err(e)
                   case Ok(n) => Ok(DeprecatedCopy(n, reason))
    {
      var n := Get(id, viewer, fails);
      if n.Err? {
        return n;
      }
      var m := n.value.(status := DEPRECATED);
      if reason != "" {
        m := m.(body := m.body + DEPRECATION + TrimSpace(reason));
      }
      r := Ok(m);
    }

    /** All earlier versions of a note, oldest first. */
    method History(id: string, fails: bool) returns (r: Result<seq<Note>, ReadError>)
      requires Valid()
      ensures var vs := VersionsIn(commits, id);
        r == if fails then Err(Unreadable) else Ok(if vs == [] then [] else vs[..|vs| - 1])
    {
      hide VersionsIn, TablesOk;
      if fails {
        return Err(Unreadable);
      }
      var selected := Where(db.revs, (r: Revision) => r.noteId == id);
      var ordered := OrderBy(selected, OlderRevision);
      HistoryIsInOrder(db.rows, db.revs, commits, id, ordered);
      var out := [];
      for i := 0 to |ordered|
        invariant out == SnapshotsOf(ordered[..i])
      {
        assert ordered[..i + 1][..i] == ordered[..i];
        out := out + [ordered[i].snapshot];
      }
      assert ordered[..|ordered|] == ordered;
      r := Ok(out);
    }

    /** The notes a filter admits, newest text first, up to the limit. */
    method List(f: Filter, fails: bool) returns (r: Result<seq<Note>, ReadError>)
      requires Valid()
      ensures fails ==> r == Err(Unreadable)
      ensures !fails ==>
        r.Ok? && IsPage(r.value, Where(db.rows, (n: Note) => Admits(f, n)), NewestFirst, Limit(f))
      ensures r.Ok? ==> IsNewestPage(r.value, db.rows, f, if 1 <= f.limit <= 500 then f.limit else 50)
    {
      hide Ordering.Where, Admits, StateOk, IsNewestPage;
      if fails {
        return Err(Unreadable);
      }
      var w := WhereClause(f);
      var selected := Select(db.rows, w, f);
      NewestFirstIsPreorder();
      var ordered := OrderBy(selected, NewestFirst);
      r := Ok(Take(ordered, Limit(f)));
      PageIsNewest(r.value, db, commits, f);
    }

    /** Full-text search: the index finds the rows, and the filter's conditions apply to the joined notes.
        With tags in the filter the statement is rejected, because the unqualified column is in both tables. */
    method Search(query: string, f: Filter, score: Note -> int, fails: bool) returns (r: Result<seq<Note>, ReadError>)
      requires Valid()
      ensures r == Err(AmbiguousColumn) <==> FullText.Terms(query) != [] && f.tags != []
      ensures r == Err(Unreadable) <==> fails && r != Err(AmbiguousColumn)
      ensures FullText.Terms(query) == [] && !fails ==>
        r.Ok? && IsPage(r.value, Where(db.rows, (n: Note) => Admits(f, n)), NewestFirst, Limit(f))
      ensures FullText.Terms(query) != [] && f.tags == [] && !fails ==>
        r.Ok? && IsPage(r.value, Where(db.rows, (n: Note) => IsHit(f, query, n)), ByScore(score), Limit(f))
      ensures r.Ok? && FullText.Terms(query) == [] ==>
        IsNewestPage(r.value, db.rows, f, if 1 <= f.limit <= 500 then f.limit else 50)
      ensures r.Ok? && FullText.Terms(query) != [] ==>
        IsBestPage(r.value, db.rows, f, query, score, if 1 <= f.limit <= 500 then f.limit else 50)
      ensures FullText.IsWord(query) && f.tags == [] && !fails ==>
        r.Ok? && FindsWord(r.value, db.rows, f, query, if 1 <= f.limit <= 500 then f.limit else 50)
    {
      hide Ordering.Where, Admits, IsHit, StateOk, FullText.Terms, IsNewestPage, IsBestPage, FindsWord;
      if FullText.IsWord(query) {
        FullText.TermsOfWord(query);
      }
      var match_ := FullText.FtsQuery(query);
      if match_ == "" {
        r := List(f, fails);
        return;
      }
      if f.tags != [] {
        return Err(AmbiguousColumn);
      } else if fails {
        return Err(Unreadable);
      }
      var w := WhereClause(f);
      var hits := SelectHits(query, match_, w, f);
      var ordered := OrderBy(hits, ByScore(score));
      r := Ok(Take(ordered, Limit(f)));
      PageIsBest(r.value, db, commits, f, query, score);
      if FullText.IsWord(query) {
        BestPageFindsWord(r.value, db, commits, f, query, score);
      }
    }

    /** The join of the MATCH with the notes table. */
    method SelectHits(ghost query: string, match_: string, w: seq<Cond>, ghost f: Filter) returns (hits: seq<Note>)
      requires Valid() && forall n :: AllHold(w, n) <==> Admits(f, n)
      requires FullText.ReadExpression(match_) == Some(FullText.Terms(query))
      ensures hits == Where(db.rows, (n: Note) => IsHit(f, query, n))
    {
      hide Ordering.Where, FullText.IndexMatches, FullText.TextMatches, FullText.Rebuild, TablesOk, Admits, DocOf;
      hits := [];
      for i := 0 to |db.rows|
        invariant hits == Where(db.rows[..i], (n: Note) => IsHit(f, query, n))
      {
        assert db.rows[..i + 1] == db.rows[..i] + [db.rows[i]];
        WhereAppend(db.rows[..i], db.rows[i], (n: Note) => IsHit(f, query, n));
        FullText.IndexMatchesText(DocsOf(db.rows), i, query, match_);
        DocsAt(db.rows, |db.rows|, i);
        if FullText.IndexMatches(db.index, i, match_) && AllHold(w, db.rows[i]) {
          hits := hits + [db.rows[i]];
        }
      }
      assert db.rows[..|db.rows|] == db.rows;
    }
  }

  /** A note that is put without a status shows up in the lists of its project: an accepted put, and then a list
      with the default status, for its author or anybody if it is not personal. */
  method PutThenList(st: Store, n: Note, scan: string -> bool, newId: string, now: Instant, viewer: string, limit: int)
    returns (r: Result<Note, PutError>, page: seq<Note>)
    requires st.Valid()
    modifies st
    ensures st.Valid()
    ensures r.Ok? && n.status == "" && (n.scope != "personal" || viewer == r.value.author) ==>
      r.value in page || |page| == if 1 <= limit <= 500 then limit else 50
  {
    hide StateOk, Written, Normalize, Refusal, Current;
    r := st.Put(n, scan, newId, now, None);
    var f := Filter(TrimSpace(n.project), "", "", "", [], Unset, limit, viewer);
    var out := st.List(f, false);
    page := out.value;
  }

  /** A request that may write: a Put, or one of the two steps of a Deprecate. */
  datatype Request =
    | PutNote(n: Note, newId: string, now: Instant, fault: Option<Stage>)
    | ReadCopy(id: string, viewer: string, reason: string, fails: bool)
    | PutCopy(read: nat, newId: string, now: Instant, fault: Option<Stage>) // what the given ReadCopy prepared

  /** Along any run of these requests the tables only gain versions: of every note they hold what they held,
      and more after it. */
  method ServeAll(st: Store, requests: seq<Request>, scan: string -> bool)
    requires st.Valid()
    modifies st
    ensures st.Valid() && old(st.commits) <= st.commits
    ensures forall id :: old(Stored(st.db.rows, st.db.revs, id)) <= Stored(st.db.rows, st.db.revs, id)
  {
    hide StateOk, Stored;
    ghost var db, commits := st.db, st.commits;
    var copies: seq<Result<Note, ReadError>> := [];
    for i := 0 to |requests|
      invariant st.Valid() && commits <= st.commits
    {
      match requests[i] {
        case PutNote(n, newId, now, fault) =>
          var r := st.Put(n, scan, newId, now, fault);
        case ReadCopy(id, viewer, reason, fails) =>
          var copy := st.ReadForDeprecate(id, viewer, reason, fails);
          copies := copies + [copy];
        case PutCopy(read, newId, now, fault) =>
          if read < |copies| && copies[read].Ok? {
            var r := st.Put(copies[read].value, scan, newId, now, fault);
          }
      }
    }
    forall id
      ensures Stored(db.rows, db.revs, id) <= Stored(st.db.rows, st.db.revs, id)
    {
      StoredVersionsOnlyGrow(db, commits, st.db, st.commits, id);
    }
  }

  /** Two states of the tables, one after more commits than the other. */
  lemma StoredVersionsOnlyGrow(db: Tables, commits: seq<Note>, later: Tables, all: seq<Note>, id: string)
    requires StateOk(db, commits) && StateOk(later, all) && commits <= all
    ensures Stored(db.rows, db.revs, id) <= Stored(later.rows, later.revs, id)
  {
    assert all == commits + all[|commits|..];
    VersionsOnlyGrow(commits, all[|commits|..], id);
    assert Stored(db.rows, db.revs, id) == VersionsIn(commits, id);
    assert Stored(later.rows, later.revs, id) == VersionsIn(all, id);
  }

  /** Any ranking of the hits; the real one is bm25. */
  function ByScore(score: Note -> int): (Note, Note) -> bool {
    (a, b) => score(a) <= score(b)
  }

  /** A stored form of a known note can always be committed as its next version. */
  lemma NextVersionCommits(commits: seq<Note>, m: Note, now: Instant)
    requires IsLedger(commits) && IsNormal(m) && VersionsIn(commits, m.id) != []
    ensures var vs := VersionsIn(commits, m.id);
      var v := NewVersion(m, Some(vs[|vs| - 1]), "", now);
      && IsLedger(commits + [v]) && VersionsIn(commits + [v], m.id) == vs + [v]
      && v.revision == |vs| + 1 && v.created == vs[0].created
  {
    hide VersionsIn;
    var vs := VersionsIn(commits, m.id);
    var v := NewVersion(m, Some(vs[|vs| - 1]), "", now);
    RevisionsCountUp(commits, m.id, |vs| - 1);
    OneMoreVersion(commits, v, m.id);
    OneMoreCommit(commits, v);
  }

  /** A stored note can always be deprecated (unless the reason holds a credential). */
  lemma DeprecatedCopyIsStorable(n: Note, reason: string)
    requires IsNormal(n)
    ensures var m := n.(status := DEPRECATED, body := TrimSpace(DeprecatedBody(n.body, reason)));
      Normalize(DeprecatedCopy(n, reason)) == Ok(m) && IsNormal(m)
  {
    var body := DeprecatedBody(n.body, reason);
    assert body[0] == n.body[0];
    TrimSpaceKeepsText(body);
    NormalizeChanged(n, DEPRECATED, body);
    NormalizeReachesNormalForm(DeprecatedCopy(n, reason));
  }

  /** Deprecate writes what it read, whatever was committed in between: the new version follows the last one
      but carries the text of the version that was read, under that version's author, and every version in
      between stays in the history. */
  lemma DeprecateActsOnWhatItRead(commits: seq<Note>, read: Note, reason: string, m: Note, last: Note, now: Instant)
    requires IsLedger(commits) && IsCommitted(commits, read) && IsLast(commits, read.id, last)
    requires Normalize(DeprecatedCopy(read, reason)) == Ok(m)
    ensures var v := NewVersion(m, Some(last), "", now);
      && IsNextAfter(commits, last, v) && IsDeprecationOf(read, reason, v)
      && v.author == (if read.author == "" then last.author else read.author)
      && v.status == "deprecated" && read.body <= v.body
      && (reason == "" ==> v.body == read.body)
      && (!IsBlank(reason) ==> v.body == read.body + "\n\n**Deprecated:** " + TrimSpace(reason))
  {
    hide Strings.TrimSpace, IsLedger, VersionsIn, IsNextAfter, IsLast, IsCommitted, Notes.IsNormal, Notes.Normalize;
    CommittedIsNormal(commits, read);
    DeprecatedCopyIsStorable(read, reason);
    DeprecatedTextIsKept(read, reason);
    NextVersionIsLast(commits, m, last, now);
  }

  /** A deprecated note keeps its text, and the reason stands behind it. */
  lemma DeprecatedTextIsKept(n: Note, reason: string)
    requires IsNormal(n)
    ensures var body := TrimSpace(DeprecatedBody(n.body, reason));
      && n.body <= body && (reason == "" ==> body == n.body)
      && (!IsBlank(reason) ==> body == n.body + "\n\n**Deprecated:** " + TrimSpace(reason))
  {
    hide TrimSpace, IsBlank, Strings.IsSpace;
    var tail := if reason == "" then "" else "\n\n**Deprecated:** " + TrimSpace(reason);
    assert DeprecatedBody(n.body, reason) == n.body + tail;
    TrimSpaceKeepsPrefix(n.body, tail);
    TrimSpaceTrims(n.body);
    var left, right := TrimSpaceRemovesOnlySpace(reason);
    if !IsBlank(reason) {
      TrimSpaceTrims(reason);
      TrimSpaceTrims(n.body + tail);
      assert (n.body + tail)[0] == n.body[0];
      assert tail[|tail| - 1] == TrimSpace(reason)[|TrimSpace(reason)| - 1];
      assert DeprecatedBody(n.body, reason) == n.body + "\n\n**Deprecated:** " + TrimSpace(reason);
    }
  }

  /** `v` has all that a caller of Put determines from `read`, but for its status and the reason added. */
  predicate IsDeprecationOf(read: Note, reason: string, v: Note) {
    v.id == read.id &&
    SameText(v, read.(status := DEPRECATED, body := TrimSpace(DeprecatedBody(read.body, reason))))
  }

  /** Committing `v` makes it the version after `last`. */
  predicate IsNextAfter(commits: seq<Note>, last: Note, v: Note) {
    && IsLast(commits + [v], v.id, v) && IsLedger(commits + [v])
    && v.revision == last.revision + 1 && v.created == last.created
  }

  predicate IsCommitted(commits: seq<Note>, v: Note) {
    v in VersionsIn(commits, v.id)
  }

  /** `v` is the current version of its note. */
  predicate IsLast(commits: seq<Note>, id: string, v: Note) {
    var vs := VersionsIn(commits, id);
    vs != [] && vs[|vs| - 1] == v
  }

  lemma CommittedIsNormal(commits: seq<Note>, v: Note)
    requires IsLedger(commits) && IsCommitted(commits, v)
    ensures IsNormal(v)
  {
    var vs := VersionsIn(commits, v.id);
    var i :| 0 <= i < |vs| && vs[i] == v;
    RevisionsCountUp(commits, v.id, i);
  }

  lemma NextVersionIsLast(commits: seq<Note>, m: Note, last: Note, now: Instant)
    requires IsLedger(commits) && IsNormal(m) && IsLast(commits, m.id, last)
    ensures IsNextAfter(commits, last, NewVersion(m, Some(last), "", now))
  {
    hide IsLedger;
    NextVersionCommits(commits, m, now);
  }

  predicate OlderRevision(a: Revision, b: Revision) {
    a.revision <= b.revision
  }

  function SnapshotsOf(revs: seq<Revision>): seq<Note> {
    if revs == [] then [] else SnapshotsOf(revs[..|revs| - 1]) + [revs[|revs| - 1].snapshot]
  }

  lemma {:induction false} SelectedSnapshots(revs: seq<Revision>, id: string)
    ensures SnapshotsOf(Where(revs, (r: Revision) => r.noteId == id)) == Snapshots(revs, id)
  {
    if revs != [] {
      var sel := Where(revs[..|revs| - 1], (r: Revision) => r.noteId == id);
      SelectedSnapshots(revs[..|revs| - 1], id);
      var r := revs[|revs| - 1];
      assert (sel + [r])[..|sel|] == sel;
    }
  }

  lemma {:induction false} SnapshotAt(revs: seq<Revision>, i: nat)
    requires i < |revs|
    ensures |SnapshotsOf(revs)| == |revs| && SnapshotsOf(revs)[i] == revs[i].snapshot
  {
    if i < |revs| - 1 {
      SnapshotAt(revs[..|revs| - 1], i);
    } else if i > 0 {
      SnapshotAt(revs[..|revs| - 1], i - 1);
    }
  }

  /** Sorting a note's snapshots by revision gives them in the order they were committed. */
  lemma HistoryIsInOrder(rows: seq<Note>, revs: seq<Revision>, commits: seq<Note>, id: string, ordered: seq<Revision>)
    requires TablesOk(rows, revs, commits)
    requires IsArrangement(ordered, Where(revs, (r: Revision) => r.noteId == id), OlderRevision)
    ensures var vs := VersionsIn(commits, id);
      SnapshotsOf(ordered) == if vs == [] then [] else vs[..|vs| - 1]
  {
    hide VersionsIn, IsLedger;
    var selected := Where(revs, (r: Revision) => r.noteId == id);
    var vs := VersionsIn(commits, id);
    assert Stored(rows, revs, id) == vs;
    SelectedSnapshots(revs, id);
    forall i | 0 <= i < |selected|
      ensures selected[i].revision == i + 1 && vs != []
    {
      SnapshotAt(selected, i);
      assert selected[i] in revs && selected[i].noteId == id;
      RevisionsCountUp(commits, id, i);
    }
    ArrangementIsUnique(selected, ordered, OlderRevision);
    if vs == [] {
      assert selected == [];
    }
  }

  /** SELECT ... WHERE over the notes table. */
  method Select(rows: seq<Note>, w: seq<Cond>, ghost f: Filter) returns (selected: seq<Note>)
    requires forall n :: AllHold(w, n) <==> Admits(f, n)
    ensures selected == Where(rows, (n: Note) => Admits(f, n))
  {
    hide Ordering.Where, Admits, AllHold;
    selected := [];
    for i := 0 to |rows|
      invariant selected == Where(rows[..i], (n: Note) => Admits(f, n))
    {
      assert rows[..i + 1] == rows[..i] + [rows[i]];
      WhereAppend(rows[..i], rows[i], (n: Note) => Admits(f, n));
      if AllHold(w, rows[i]) {
        selected := selected + [rows[i]];
      }
    }
    assert rows[..|rows|] == rows;
  }
}
