/** The unit of knowledge and its normalisation (internal/note/note.go). */
module Notes {
  import opened Wrappers
  import opened Strings
  import opened Timestamps

  datatype Source = Source(tool: string, session: string, model: string)

  datatype Note = Note(
    id: string, project: string, title: string, kind: string, scope: string, tags: seq<string>, author: string,
    source: Source, status: string, body: string, created: Stamp, updated: Stamp, revision: nat)

  datatype NoteError = ProjectRequired | TitleRequired | BodyRequired | UnknownScope | UnknownStatus

  const PERSONAL := "personal"
  const PROJECT := "project"
  const TEAM := "team"
  const DRAFT := "draft"
  const ACTIVE := "active"
  const DEPRECATED := "deprecated"

  function OrDefault(s: string, default: string): string {
    if s == "" then default else s
  }

  function CanonTag(t: string): string {
    ToLower(TrimSpace(t))
  }

  function CanonTags(tags: seq<string>): seq<string> {
    seq(|tags|, i requires 0 <= i < |tags| => CanonTag(tags[i]))
  }

  predicate IsScope(s: string) {
    s == PERSONAL || s == PROJECT || s == TEAM
  }

  predicate IsStatus(s: string) {
    s == DRAFT || s == ACTIVE || s == DEPRECATED
  }

  /** Fills defaults, or says why the note cannot be stored. */
  function Normalize(n: Note): Result<Note, NoteError> {
    var m := n.(
      title := TrimSpace(n.title), body := TrimSpace(n.body), project := TrimSpace(n.project),
      kind := OrDefault(n.kind, "project"), scope := OrDefault(n.scope, PROJECT),
      status := OrDefault(n.status, ACTIVE), tags := CanonTags(n.tags));
    if m.project == "" then Err(ProjectRequired)
    else if m.title == "" then Err(TitleRequired)
    else if m.body == "" then Err(BodyRequired)
    else if !IsScope(m.scope) then Err(UnknownScope)
    else if !IsStatus(m.status) then Err(UnknownStatus)
    else Ok(m)
  }

  /** A note as the store holds it. */
  predicate IsNormal(n: Note) {
    && n.project != "" && n.title != "" && n.body != "" && n.kind != ""
    && IsTrimmed(n.project) && IsTrimmed(n.title) && IsTrimmed(n.body)
    && IsScope(n.scope)
    && IsStatus(n.status)
    && forall t :: t in n.tags ==> IsTrimmed(t) && IsLower(t)
  }

  lemma LowerKeepsTrimmed(s: string)
    requires IsTrimmed(s)
    ensures IsTrimmed(ToLower(s)) && IsLower(ToLower(s))
    ensures IsLower(s) ==> ToLower(s) == s
  {
    if s != "" {
      assert IsSpace(LowerChar(s[0])) == IsSpace(s[0]);
      assert IsSpace(LowerChar(s[|s| - 1])) == IsSpace(s[|s| - 1]);
    }
  }

  lemma CanonTagIsFixed(t: string)
    ensures IsTrimmed(CanonTag(t)) && IsLower(CanonTag(t))
    ensures IsTrimmed(t) && IsLower(t) <==> CanonTag(t) == t
  {
    TrimSpaceTrims(t);
    LowerKeepsTrimmed(TrimSpace(t));
  }

  lemma CanonTagsAreFixed(tags: seq<string>)
    ensures forall t :: t in CanonTags(tags) ==> IsTrimmed(t) && IsLower(t)
    ensures (forall t :: t in tags ==> IsTrimmed(t) && IsLower(t)) <==> CanonTags(tags) == tags
  {
    forall i | 0 <= i < |tags|
      ensures IsTrimmed(CanonTags(tags)[i]) && IsLower(CanonTags(tags)[i])
      ensures IsTrimmed(tags[i]) && IsLower(tags[i]) <==> CanonTags(tags)[i] == tags[i]
    {
      CanonTagIsFixed(tags[i]);
    }
  }

  lemma NormalizeYieldsNormal(n: Note)
    requires Normalize(n).Ok?
    ensures IsNormal(Normalize(n).value)
  {
    hide TrimSpace, CanonTag, IsSpace;
    TrimSpaceTrims(n.title);
    TrimSpaceTrims(n.body);
    TrimSpaceTrims(n.project);
    CanonTagsAreFixed(n.tags);
    assert "project"[0] == 'p';
  }

  lemma KnownIsNotEmpty(s: string)
    ensures IsScope(s) || IsStatus(s) ==> s != ""
  {
  }

  /** Normalising yields a storable note, and leaves exactly the storable notes unchanged. */
  lemma NormalizeReachesNormalForm(n: Note)
    ensures Normalize(n).Ok? ==> IsNormal(Normalize(n).value)
    ensures Normalize(n) == Ok(n) <==> IsNormal(n)
  {
    if Normalize(n).Ok? {
      NormalizeYieldsNormal(n);
    }
    if IsNormal(n) {
      TrimSpaceTrims(n.title);
      TrimSpaceTrims(n.body);
      TrimSpaceTrims(n.project);
      CanonTagsAreFixed(n.tags);
      KnownIsNotEmpty(n.scope);
      KnownIsNotEmpty(n.status);
    }
  }

  /** What normalising makes of each column the caller determines. */
  ghost predicate HasNormalColumns(m: Note, n: Note) {
    && m.project == TrimSpace(n.project) && m.title == TrimSpace(n.title) && m.body == TrimSpace(n.body)
    && m.kind == (if n.kind == "" then "project" else n.kind)
    && m.scope == (if n.scope == "" then "project" else n.scope)
    && m.status == (if n.status == "" then "active" else n.status)
    && |m.tags| == |n.tags| && (forall i :: 0 <= i < |m.tags| ==> m.tags[i] == ToLower(TrimSpace(n.tags[i])))
    && m.source == n.source
  }

  /** A normalised note, column by column. */
  lemma NormalizeByColumn(n: Note)
    requires Normalize(n).Ok?
    ensures var m := Normalize(n).value;
      && HasNormalColumns(m, n) && m.id == n.id && m.author == n.author
      && m.created == n.created && m.updated == n.updated && m.revision == n.revision
  {
    hide TrimSpace, ToLower;
  }

  /** What Normalize checks, in this order. */
  lemma NormalizeErrsIff(n: Note)
    ensures Normalize(n) == Err(ProjectRequired) <==> IsBlank(n.project)
    ensures Normalize(n) == Err(TitleRequired) <==> !IsBlank(n.project) && IsBlank(n.title)
    ensures Normalize(n) == Err(BodyRequired) <==> !IsBlank(n.project) && !IsBlank(n.title) && IsBlank(n.body)
    ensures Normalize(n) == Err(UnknownScope) <==>
      && !IsBlank(n.project) && !IsBlank(n.title) && !IsBlank(n.body)
      && n.scope !in ["", "personal", "project", "team"]
    ensures Normalize(n) == Err(UnknownStatus) <==>
      && !IsBlank(n.project) && !IsBlank(n.title) && !IsBlank(n.body)
      && n.scope in ["", "personal", "project", "team"] && n.status !in ["", "draft", "active", "deprecated"]
  {
    hide TrimSpace, IsBlank, CanonTags;
    var a, b := TrimSpaceRemovesOnlySpace(n.project);
    a, b := TrimSpaceRemovesOnlySpace(n.title);
    a, b := TrimSpaceRemovesOnlySpace(n.body);
  }

  lemma NormalizeKeepsId(n: Note)
    ensures Normalize(n).Ok? ==> Normalize(n).value.id == n.id
  {
  }

  /** Exactly the notes with a project, a title, a body and a known scope and status are accepted. */
  lemma NormalizeAcceptsIff(n: Note)
    ensures Normalize(n).Ok? <==>
      && !IsBlank(n.project) && !IsBlank(n.title) && !IsBlank(n.body)
      && n.scope in ["", "personal", "project", "team"] && n.status in ["", "draft", "active", "deprecated"]
  {
    hide TrimSpace, IsBlank, CanonTags;
    var a, b := TrimSpaceRemovesOnlySpace(n.project);
    a, b := TrimSpaceRemovesOnlySpace(n.title);
    a, b := TrimSpaceRemovesOnlySpace(n.body);
  }

  /** A stored note with another body and status is stored with that body trimmed. */
  lemma NormalizeChanged(n: Note, status: string, body: string)
    requires IsNormal(n) && TrimSpace(body) != "" && IsStatus(status)
    ensures Normalize(n.(status := status, body := body)) == Ok(n.(status := status, body := TrimSpace(body)))
  {
    TrimSpaceTrims(n.title);
    TrimSpaceTrims(n.project);
    CanonTagsAreFixed(n.tags);
    KnownIsNotEmpty(n.scope);
    KnownIsNotEmpty(status);
  }

  lemma CanonTagsStep(tags: seq<string>, i: nat)
    requires i < |tags|
    ensures CanonTags(tags[..i + 1]) == CanonTags(tags[..i]) + [CanonTag(tags[i])]
  {
    hide CanonTag;
  }

  lemma CanonTagsAt(tags: seq<string>)
    ensures |CanonTags(tags)| == |tags|
    ensures forall i :: 0 <= i < |tags| ==> CanonTags(tags)[i] == ToLower(TrimSpace(tags[i]))
  {
    hide ToLower, TrimSpace;
  }

  /** The loop of Normalize: overwrites the tags one by one. */
  method CanonicalizeTags(given: seq<string>) returns (tags: seq<string>)
    ensures tags == CanonTags(given)
    ensures |tags| == |given| && forall i :: 0 <= i < |tags| ==> tags[i] == ToLower(TrimSpace(given[i]))
  {
    hide CanonTag, CanonTags, ToLower, TrimSpace;
    tags := given;
    CanonTagsAt(given[..0]);
    for i := 0 to |given|
      invariant |tags| == |given| && tags[i..] == given[i..]
      invariant tags[..i] == CanonTags(given[..i])
    {
      CanonTagsStep(given, i);
      assert tags[i] == tags[i..][0] == given[i];
      assert tags[i..][1..] == tags[i + 1..] && given[i..][1..] == given[i + 1..];
      ghost var before := tags[..i];
      tags := tags[i := CanonTag(tags[i])];
      assert tags[..i + 1] == before + [CanonTag(given[i])];
    }
    assert tags[..|given|] == tags && given[..|given|] == given;
    CanonTagsAt(given);
  }

  /** A note that callers share and Normalize changes in place. */
  class Draft {
    var note: Note

    constructor (note: Note)
      ensures this.note == note
    {
      this.note := note;
    }

    /** The trimming at the start of Normalize, which stays even if the note is then refused. */
    method Trim()
      modifies this
      ensures note == old(note).(
        title := TrimSpace(old(note).title), body := TrimSpace(old(note).body), project := TrimSpace(old(note).project))
    {
      note := note.(title := TrimSpace(note.title));
      note := note.(body := TrimSpace(note.body));
      note := note.(project := TrimSpace(note.project));
    }

    /** Normalize: nothing if the note can be stored, and then it is normalised; otherwise the first error. */
    method NormalizeInPlace() returns (r: Option<NoteError>)
      modifies this
      ensures match r
        case None => Normalize(old(note)) == Ok(note) && HasNormalColumns(note, old(note))
        case Some(e) => Normalize(old(note)) == Err(e)
    {
      hide TrimSpace, CanonTags, IsScope, IsStatus, HasNormalColumns;
      ghost var given := note;
      Trim();
      if note.project == "" {
        return Some(ProjectRequired);
      } else if note.title == "" {
        return Some(TitleRequired);
      } else if note.body == "" {
        return Some(BodyRequired);
      }
      if note.kind == "" {
        note := note.(kind := "project");
      }
      if note.scope == "" {
        note := note.(scope := PROJECT);
      }
      if !IsScope(note.scope) {
        return Some(UnknownScope);
      }
      if note.status == "" {
        note := note.(status := ACTIVE);
      }
      if !IsStatus(note.status) {
        return Some(UnknownStatus);
      }
      var tags := CanonicalizeTags(note.tags);
      note := note.(tags := tags);
      NormalizeByColumn(given);
      r := None;
    }
  }
}
