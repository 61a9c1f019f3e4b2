/** Updating a CLAUDE.md between markers (cmdExport in cmd/openmind/main.go). A text is a string of bytes: each
    character stands for one byte. */
module Splice {
  import opened Wrappers
  import opened Strings
  import opened Notes
  import opened Timestamps

  // Long literals are joined from short ones, whose single characters the verifier sees.
  const BEGIN := "<!-- openmind" + ":begin -->"
  const END := "<!-- openmind" + ":end -->"

  datatype Error =
    | BeginWithoutEnd
    | SliceOutOfRange // no byte follows the end marker, and the program panics

  /** The text with the section in place of the marked one, or appended. */
  function Spliced(text: string, section: string): Result<string, Error> {
    var i, j := Index(text, BEGIN), Index(text, END);
    if i < 0 then Ok(AppendPoint(text) + section)
    else if j <= i then Err(BeginWithoutEnd)
    else if j + |END| + 1 > |text| then Err(SliceOutOfRange)
    else Ok(text[..i] + section + text[j + |END| + 1..])
  }

  function AppendPoint(text: string): string {
    (if text != "" && text[|text| - 1] != '\n' then text + "\n" else text) + "\n"
  }

  /** The part of cmdExport that rewrites the text. */
  method Update(existing: string, section: string) returns (r: Result<string, Error>)
    ensures r == Spliced(existing, section)
  {
    var text := existing;
    var i := Index(text, BEGIN);
    if i >= 0 {
      var j := Index(text, END);
      if j > i {
        if j + |END| + 1 > |text| {
          return Err(SliceOutOfRange);
        }
        text := text[..i] + section + text[j + |END| + 1..];
      } else {
        return Err(BeginWithoutEnd);
      }
    } else {
      if text != "" && text[|text| - 1] != '\n' {
        text := text + "\n";
      }
      text := text + "\n" + section;
      assert text == AppendPoint(existing) + section;
    }
    r := Ok(text);
  }

  // ---- markers ----

  ghost predicate HasMarker(s: string, m: string) {
    exists p :: OccursAt(s, m, p)
  }

  /** The characters that separate the parts of a section are in no marker. */
  predicate IsInMarker(c: char) {
    c != '\n' && c != ',' && c != '#'
  }

  /** A marker opens with its only '<' and lies on one line. */
  predicate IsMarker(m: string) {
    m != "" && m[0] == '<' && forall k :: 0 < k < |m| ==> m[k] != '<' && IsInMarker(m[k])
  }

  lemma MarkersAreMarkers()
    ensures IsMarker(BEGIN) && IsMarker(END)
  {
  }

  /** What an export writes: it starts with the begin marker, and its last line is the end marker. */
  predicate IsSection(s: string) {
    BEGIN <= s && OccursAt(s, END, |s| - |END| - 1) && s[|s| - 1] == '\n'
  }

  /** What stands behind the first end marker's line: nothing, if that is the last line. */
  function Leftover(s: string): string
    requires IsSection(s)
  {
    s[Index(s, END) + |END| + 1..]
  }

  /** No marker matches across a seam before a '<'. */
  lemma NoMatchAcross(a: string, s: string, m: string, p: int)
    requires IsMarker(m) && s != "" && s[0] == '<' && OccursAt(a + s, m, p)
    ensures (p + |m| <= |a| && OccursAt(a, m, p)) || (p >= |a| && OccursAt(s, m, p - |a|))
  {
    if p < |a| < p + |m| {
      OccursChar(a + s, m, p, |a| - p);
    } else if p + |m| <= |a| {
      assert a[p..p + |m|] == (a + s)[p..p + |m|];
    } else {
      assert s[p - |a|..p - |a| + |m|] == (a + s)[p..p + |m|];
    }
  }

  lemma OccursInLonger(a: string, s: string, b: string, m: string, p: int)
    requires OccursAt(s, m, p)
    ensures OccursAt(a + s + b, m, |a| + p)
  {
    assert (a + s + b)[|a| + p..|a| + p + |m|] == s[p..p + |m|];
  }

  lemma OccursInPrefix(s: string, b: string, m: string, p: int)
    requires OccursAt(s + b, m, p) && p + |m| <= |s|
    ensures OccursAt(s, m, p)
  {
    assert s[p..p + |m|] == (s + b)[p..p + |m|];
  }

  lemma IndexIs(s: string, m: string, p: nat)
    requires OccursAt(s, m, p) && forall q :: 0 <= q < p ==> !OccursAt(s, m, q)
    ensures Index(s, m) == p
  {
  }

  /** The first occurrence in a text placed between two others is the first one of all. */
  lemma PlacedIndex(a: string, s: string, b: string, m: string, e: nat)
    requires IsMarker(m) && s != "" && s[0] == '<' && !HasMarker(a, m)
    requires OccursAt(s, m, e) && forall q :: OccursAt(s, m, q) ==> q >= e
    ensures Index(a + s + b, m) == |a| + e
  {
    hide IndexFrom;
    var u := a + s + b;
    assert u == a + (s + b);
    OccursInLonger(a, s, b, m, e);
    forall q | 0 <= q < |a| + e
      ensures !OccursAt(u, m, q)
    {
      if OccursAt(u, m, q) {
        NoMatchAcross(a, s + b, m, q);
        OccursInPrefix(s, b, m, q - |a|);
      }
    }
    IndexIs(u, m, |a| + e);
  }

  /** The end marker is found behind the begin marker. */
  lemma EndComesLater(s: string, e: nat)
    requires BEGIN <= s && OccursAt(s, END, e)
    ensures e > 0
  {
    MarkersDiffer();
    OccursChar(s, END, e, 14);
  }

  lemma MarkersDiffer()
    ensures |BEGIN| == 23 && |END| == 21 && BEGIN[14] == 'b' && END[14] == 'e'
  {
  }

  /** The markers of a placed section are the first ones: up to its first end marker it can be replaced. */
  lemma PlacedSectionIsFound(a: string, s: string, b: string, next: string)
    requires IsSection(s) && !HasMarker(a, BEGIN) && !HasMarker(a, END)
    ensures Spliced(a + s + b, next) == Ok(a + next + (Leftover(s) + b))
  {
    hide IndexFrom;
    MarkersAreMarkers();
    var u, e := a + s + b, Index(s, END);
    assert OccursAt(s, BEGIN, 0);
    PlacedIndex(a, s, b, BEGIN, 0);
    PlacedIndex(a, s, b, END, e);
    EndComesLater(s, e);
    assert u[..|a|] == a;
    BehindPart(a, s, b, e + |END| + 1);
  }

  lemma BehindPart(a: string, s: string, b: string, k: nat)
    requires k <= |s|
    ensures (a + s + b)[|a| + k..] == s[k..] + b
  {
  }

  /** The texts an export can be spliced into again and again. */
  predicate IsSpliceable(t: string) {
    var i, j := Index(t, BEGIN), Index(t, END);
    (i < 0 && j < 0) || 0 <= i < j < |t| - |END|
  }

  function Before(t: string): string {
    if Index(t, BEGIN) < 0 then AppendPoint(t) else t[..Index(t, BEGIN)]
  }

  function After(t: string): string
    requires IsSpliceable(t)
  {
    if Index(t, BEGIN) < 0 then "" else t[Index(t, END) + |END| + 1..]
  }

  lemma NothingBefore(t: string, m: string, n: nat)
    requires n <= |t| && forall q :: OccursAt(t, m, q) ==> q >= n
    requires m != ""
    ensures !HasMarker(t[..n], m)
  {
    assert "" + t[..n] + t[n..] == t;
    forall q
      ensures !OccursAt(t[..n], m, q)
    {
      if OccursAt(t[..n], m, q) {
        OccursInLonger("", t[..n], t[n..], m, q);
      }
    }
  }

  lemma NothingAfterNewline(t: string, m: string)
    requires IsMarker(m) && !HasMarker(t, m)
    ensures !HasMarker(t + "\n", m)
  {
    forall q
      ensures !OccursAt(t + "\n", m, q)
    {
      if OccursAt(t + "\n", m, q) {
        if q + |m| > |t| {
          OccursChar(t + "\n", m, q, |t| - q);
        } else {
          OccursInPrefix(t, "\n", m, q);
        }
      }
    }
  }

  lemma NoMarkerAtAppendPoint(t: string, m: string)
    requires IsMarker(m) && !HasMarker(t, m)
    ensures !HasMarker(AppendPoint(t), m)
  {
    NothingAfterNewline(t, m);
    NothingAfterNewline(t + "\n", m);
  }

  lemma BeforeHasNoMarker(t: string)
    requires IsSpliceable(t)
    ensures !HasMarker(Before(t), BEGIN) && !HasMarker(Before(t), END)
  {
    hide IndexFrom;
    MarkersAreMarkers();
    var i := Index(t, BEGIN);
    if i < 0 {
      NoMarkerAtAppendPoint(t, BEGIN);
      NoMarkerAtAppendPoint(t, END);
    } else {
      NothingBefore(t, BEGIN, i);
      NothingBefore(t, END, i);
    }
  }

  /** A splice puts the section between two texts that do not depend on it: what stands before the first begin
      marker, and what stands after the byte that follows the first end marker. Without markers the text is kept
      whole, on lines of its own. */
  lemma SpliceKeepsTheRest(t: string, s: string)
    requires IsSpliceable(t)
    ensures Spliced(t, s) == Ok(Before(t) + s + After(t))
    ensures Index(t, BEGIN) < 0 ==>
      Before(t) == t + (if t == "" || t[|t| - 1] == '\n' then "\n" else "\n\n") && After(t) == ""
    ensures Index(t, BEGIN) >= 0 ==> IsMarkedPart(t, |Before(t)|, |t| - |After(t)|)
    ensures Index(t, BEGIN) >= 0 ==> t == Before(t) + t[|Before(t)|..|t| - |After(t)|] + After(t)
  {
    hide IndexFrom;
    var i, j := Index(t, BEGIN), Index(t, END);
    if i < 0 {
      AppendPointKeeps(t);
      assert Before(t) + s + "" == Before(t) + s;
    } else {
      NotInside(t, i, j);
      Cut(t, i, j + |END| + 1);
    }
  }

  lemma AppendPointKeeps(t: string)
    ensures AppendPoint(t) == t + if t == "" || t[|t| - 1] == '\n' then "\n" else "\n\n"
  {
    assert t + "\n" + "\n" == t + "\n\n";
  }

  ghost predicate IsFirst(t: string, m: string, i: nat) {
    OccursAt(t, m, i) && forall q :: 0 <= q < i ==> !OccursAt(t, m, q)
  }

  /** An export fails exactly if there is a begin marker, and there is no end marker, or the first one stands
      before the first begin marker, or it ends the text. */
  lemma SpliceFailsIff(t: string, s: string)
    ensures Spliced(t, s) == Err(BeginWithoutEnd) <==>
      exists i: nat :: IsFirst(t, BEGIN, i) && forall j: nat :: IsFirst(t, END, j) ==> j <= i
    ensures Spliced(t, s) == Err(SliceOutOfRange) <==>
      exists i: nat, j: nat :: IsFirst(t, BEGIN, i) && IsFirst(t, END, j) && i < j == |t| - |END|
  {
    hide IndexFrom;
    var b, e := Index(t, BEGIN), Index(t, END);
    if b >= 0 {
      assert IsFirst(t, BEGIN, b);
    }
    if e >= 0 {
      assert IsFirst(t, END, e);
    }
    forall i: nat | IsFirst(t, BEGIN, i)
      ensures i == b
    {
    }
    forall j: nat | IsFirst(t, END, j)
      ensures j == e
    {
    }
  }

  lemma Cut(t: string, i: nat, k: nat)
    requires i <= k <= |t|
    ensures t == t[..i] + t[i..k] + t[k..]
  {
  }

  /** A begin marker, some text, an end marker and one more byte. */
  predicate IsMarkedPart(t: string, i: nat, k: nat) {
    && i + |BEGIN| + |END| < k <= |t|
    && OccursAt(t, BEGIN, i) && OccursAt(t, END, k - |END| - 1)
  }

  /** The first end marker stands after the whole begin marker. */
  lemma NotInside(t: string, i: nat, j: nat)
    requires OccursAt(t, BEGIN, i) && OccursAt(t, END, j) && i < j
    ensures i + |BEGIN| <= j
  {
    MarkersAreMarkers();
    OccursChar(t, END, j, 0);
    if j < i + |BEGIN| {
      OccursChar(t, BEGIN, i, j - i);
    }
  }

  /** An end marker without a begin marker stays in front of the appended section. */
  lemma StrayEndBlocks(t: string, s: string, next: string)
    requires Index(t, BEGIN) < 0 && Index(t, END) >= 0 && BEGIN <= s
    ensures Spliced(t, s).Ok? && Spliced(Spliced(t, s).value, next) == Err(BeginWithoutEnd)
  {
    hide IndexFrom;
    MarkersAreMarkers();
    var a, j := AppendPoint(t), Index(t, END);
    AppendPointKeeps(t);
    NoMarkerAtAppendPoint(t, BEGIN);
    var u := a + s;
    assert u == "" + t + u[|t|..];
    OccursInLonger("", t, u[|t|..], END, j);
    assert OccursAt(s, BEGIN, 0);
    assert u == a + s + "";
    PlacedIndex(a, s, "", BEGIN, 0);
  }

  /** Splicing again leaves what the last section alone would, and the leftover of the section before. */
  lemma SpliceAgain(t: string, s: string, next: string)
    requires IsSpliceable(t) && IsSection(s)
    ensures Spliced(t, s).Ok? && Spliced(Spliced(t, s).value, next) == Ok(Before(t) + next + (Leftover(s) + After(t)))
  {
    hide IndexFrom;
    SpliceKeepsTheRest(t, s);
    BeforeHasNoMarker(t);
    PlacedSectionIsFound(Before(t), s, After(t), next);
  }

  /** So the last splice wins exactly for the spliceable texts and the sections without a leftover. */
  lemma LastSpliceWins(t: string, s: string, next: string)
    requires IsSection(s)
    ensures IsSpliceable(t) && Leftover(s) == "" <==>
      Spliced(t, s).Ok? && Spliced(Spliced(t, s).value, next) == Spliced(t, next)
  {
    hide IndexFrom, Leftover;
    if IsSpliceable(t) {
      SpliceAgain(t, s, next);
      SpliceKeepsTheRest(t, next);
      assert Leftover(s) == "" ==> Leftover(s) + After(t) == After(t);
      if Leftover(s) != "" {
        assert |Before(t) + next + (Leftover(s) + After(t))| > |Before(t) + next + After(t)|;
      }
    } else if Index(t, BEGIN) < 0 {
      StrayEndBlocks(t, s, next);
    }
  }

  /** The text after a run of exports. */
  function SplicedAll(t: string, sections: seq<string>): Result<string, Error> {
    if sections == [] then Ok(t)
    else
      match SplicedAll(t, sections[..|sections| - 1])
      case Err(e) => Err(e)
      case Ok(u) => Spliced(u, sections[|sections| - 1])
  }

  predicate AreSections(sections: seq<string>) {
    forall s :: s in sections ==> IsSection(s)
  }

  /** The leftovers of a run of sections, the latest first. */
  function Leftovers(sections: seq<string>): string
    requires AreSections(sections)
  {
    if sections == [] then ""
    else Leftover(sections[|sections| - 1]) + Leftovers(sections[..|sections| - 1])
  }

  lemma {:induction false} NoLeftoversIff(sections: seq<string>)
    requires AreSections(sections)
    ensures Leftovers(sections) == "" <==> forall s :: s in sections ==> Leftover(s) == ""
  {
    hide Leftover, IsSection;
    if sections != [] {
      var front, last := sections[..|sections| - 1], sections[|sections| - 1];
      assert sections == front + [last];
      NoLeftoversIff(front);
    }
  }

  /** What any run of exports leaves: the rest of the text around the last section and all earlier leftovers. */
  lemma {:induction false} RunLeaves(t: string, front: seq<string>, last: string)
    requires IsSpliceable(t) && AreSections(front)
    ensures SplicedAll(t, front + [last]) == Ok(Before(t) + last + (Leftovers(front) + After(t)))
  {
    hide Spliced, IsSpliceable, IsSection, Leftover, IndexFrom;
    assert (front + [last])[..|front|] == front;
    if front == [] {
      assert SplicedAll(t, front) == Ok(t);
      SpliceKeepsTheRest(t, last);
      assert "" + After(t) == After(t);
    } else {
      var earlier, s := front[..|front| - 1], front[|front| - 1];
      assert front == earlier + [s];
      RunLeaves(t, earlier, s);
      BeforeHasNoMarker(t);
      var rest := Leftovers(earlier) + After(t);
      PlacedSectionIsFound(Before(t), s, rest, last);
      Regroup(Leftover(s), Leftovers(earlier), After(t));
    }
  }

  lemma {:induction false} RunFails(t: string, sections: seq<string>)
    requires !IsSpliceable(t) && |sections| >= 2 && AreSections(sections[..|sections| - 1])
    ensures SplicedAll(t, sections).Err?
  {
    hide Spliced, IsSpliceable, IndexFrom;
    var front, last := sections[..|sections| - 1], sections[|sections| - 1];
    if |sections| > 2 {
      assert AreSections(front[..|front| - 1]);
      RunFails(t, front);
    } else {
      assert SplicedAll(t, []) == Ok(t) && front[..0] == [];
      assert SplicedAll(t, front) == Spliced(t, front[0]);
      SecondSpliceFails(t, front[0], last);
    }
  }

  lemma SecondSpliceFails(t: string, s: string, next: string)
    requires !IsSpliceable(t) && IsSection(s)
    ensures Spliced(t, s).Ok? ==> Spliced(Spliced(t, s).value, next).Err?
  {
    hide IndexFrom;
    if Index(t, BEGIN) < 0 {
      StrayEndBlocks(t, s, next);
    }
  }

  /** A run of two exports or more leaves the text as if only the last one had been made, if and only if the
      text is spliceable and no earlier section has a leftover. */
  lemma RunOfExportsIsTheLastIff(t: string, front: seq<string>, last: string)
    requires AreSections(front) && front != []
    ensures IsSpliceable(t) && (forall s :: s in front ==> Leftover(s) == "") <==>
      SplicedAll(t, front + [last]).Ok? && SplicedAll(t, front + [last]) == Spliced(t, last)
  {
    hide Spliced, IsSpliceable, IsSection, Leftover, SplicedAll, IndexFrom;
    if IsSpliceable(t) {
      RunLeaves(t, front, last);
      SpliceKeepsTheRest(t, last);
      NoLeftoversIff(front);
      var more := Leftovers(front);
      assert more == "" ==> more + After(t) == After(t);
      if more != "" {
        assert |Before(t) + last + (more + After(t))| > |Before(t) + last + After(t)|;
      }
    } else {
      assert (front + [last])[..|front|] == front;
      RunFails(t, front + [last]);
    }
  }

  // ---- the section an export writes ----

  const TITLE := "## Team knowledge " + "(OpenMind, " + "project "
  const NOTICE := "Generated by " + "`openmind export " + "claude-md`; edit " + "notes in OpenMind, " + "not here.\n\n"

  function NoteText(n: Note): string {
    "### " + n.title + "\n\n" + n.body + "\n\n"
  }

  function NoteTexts(notes: seq<Note>): string {
    if notes == [] then "" else NoteTexts(notes[..|notes| - 1]) + NoteText(notes[|notes| - 1])
  }

  /** `now.Format("2006-01-02")`. */
  function DayText(now: Instant): string {
    Pad(now.year, 4) + "-" + Pad(now.month, 2) + "-" + Pad(now.day, 2)
  }

  /** The section up to its end marker. */
  function SectionHead(project: string, now: Instant, notes: seq<Note>): string {
    BEGIN + "\n" + TITLE + project + ", " + DayText(now) + ")\n\n" + NOTICE + NoteTexts(notes)
  }

  function SectionOf(project: string, now: Instant, notes: seq<Note>): string {
    SectionHead(project, now, notes) + END + "\n"
  }

  /** The loop that fills the builder. */
  method BuildSection(project: string, now: Instant, notes: seq<Note>) returns (section: string)
    ensures section == SectionOf(project, now, notes)
  {
    hide NoteText, DayText;
    var b := BEGIN + "\n";
    b := b + TITLE + project + ", " + DayText(now) + ")\n\n";
    b := b + NOTICE;
    b := AddNotes(b, notes);
    section := b + END + "\n";
  }

  /** A section shows its notes in their order: after what it would be for the notes before it, each with its
      title and its whole body. It opens with the project and the date. */
  lemma SectionShows(project: string, now: Instant, notes: seq<Note>, i: nat)
    requires i < |notes|
    ensures var n := notes[i];
      SectionHead(project, now, notes[..i]) + ("### " + n.title + "\n\n" + n.body + "\n\n") <=
      SectionOf(project, now, notes)
    ensures SectionHead(project, now, []) ==
      BEGIN + "\n" + TITLE + project + ", " + Text(now)[..10] + ")\n\n" + NOTICE
  {
    hide Timestamps.Text, DayText;
    DayOpensText(now);
    HeadExtends(project, now, notes[..i], notes[i]);
    assert notes[..i + 1] == notes[..i] + [notes[i]];
    HeadGrows(project, now, notes, i + 1);
    assert BEGIN + "\n" + TITLE + project + ", " + DayText(now) + ")\n\n" + NOTICE + "" ==
      BEGIN + "\n" + TITLE + project + ", " + DayText(now) + ")\n\n" + NOTICE;
  }

  /** The date is that of the printed time. */
  lemma DayOpensText(now: Instant)
    ensures |Text(now)| >= 10 && DayText(now) == Text(now)[..10]
  {
    hide Pad, TrimZeros;
    SecondColumns(now);
    var s := SecondText(now);
    assert Text(now)[..10] == s[..10];
    assert s[..10] == s[..4] + [s[4]] + s[5..7] + [s[7]] + s[8..10];
  }

  lemma HeadExtends(project: string, now: Instant, notes: seq<Note>, n: Note)
    ensures SectionHead(project, now, notes + [n]) ==
      SectionHead(project, now, notes) + ("### " + n.title + "\n\n" + n.body + "\n\n")
  {
    hide DayText;
    assert (notes + [n])[..|notes|] == notes;
    Regroup(BEGIN + "\n" + TITLE + project + ", " + DayText(now) + ")\n\n" + NOTICE, NoteTexts(notes), NoteText(n));
  }

  lemma {:induction false} HeadGrows(project: string, now: Instant, notes: seq<Note>, i: nat)
    requires i <= |notes|
    ensures SectionHead(project, now, notes[..i]) <= SectionHead(project, now, notes)
    decreases |notes| - i
  {
    hide SectionHead;
    if i < |notes| {
      HeadGrows(project, now, notes, i + 1);
      HeadExtends(project, now, notes[..i], notes[i]);
      assert notes[..i + 1] == notes[..i] + [notes[i]];
    } else {
      assert notes[..i] == notes;
    }
  }

  method AddNotes(head: string, notes: seq<Note>) returns (b: string)
    ensures b == head + NoteTexts(notes)
  {
    hide NoteText;
    b := head;
    for i := 0 to |notes|
      invariant b == head + NoteTexts(notes[..i])
    {
      assert notes[..i + 1][..i] == notes[..i];
      Regroup(head, NoteTexts(notes[..i]), NoteText(notes[i]));
      b := b + NoteText(notes[i]);
    }
    assert notes[..|notes|] == notes;
  }

  /** No end marker in the text. */
  ghost predicate IsClean(s: string) {
    !HasMarker(s, END)
  }

  predicate HasNoStart(s: string) {
    forall i :: 0 <= i < |s| ==> s[i] != '<'
  }

  predicate IsSeparated(b: string) {
    b != "" && !IsInMarker(b[0])
  }

  lemma CleanAfter(a: string, b: string)
    requires HasNoStart(a)
    ensures IsClean(a + b) <==> IsClean(b)
  {
    MarkersAreMarkers();
    if p :| OccursAt(a + b, END, p) {
      OccursChar(a + b, END, p, 0);
      assert b[p - |a|..p - |a| + |END|] == (a + b)[p..p + |END|];
      assert OccursAt(b, END, p - |a|);
    }
    if p :| OccursAt(b, END, p) {
      OccursInLonger(a, b, "", END, p);
      assert a + b + "" == a + b;
    }
  }

  lemma CleanParts(a: string, b: string)
    requires IsSeparated(b)
    ensures IsClean(a + b) <==> IsClean(a) && IsClean(b)
  {
    MarkersAreMarkers();
    assert "" + a + b == a + b && a + b + "" == a + b;
    if p :| OccursAt(a + b, END, p) {
      if p < |a| < p + |END| {
        OccursChar(a + b, END, p, |a| - p);
      } else if p + |END| <= |a| {
        OccursInPrefix(a, b, END, p);
      } else {
        assert b[p - |a|..p - |a| + |END|] == (a + b)[p..p + |END|];
        assert OccursAt(b, END, p - |a|);
      }
    }
    if p :| OccursAt(a, END, p) {
      OccursInLonger("", a, b, END, p);
    }
    if p :| OccursAt(b, END, p) {
      OccursInLonger(a, b, "", END, p);
    }
  }

  lemma BeginIsClean()
    ensures IsClean(BEGIN)
  {
    MarkersAreMarkers();
    MarkersDiffer();
    forall p
      ensures !OccursAt(BEGIN, END, p)
    {
      if OccursAt(BEGIN, END, p) {
        OccursChar(BEGIN, END, p, 0);
        OccursChar(BEGIN, END, p, 14);
      }
    }
  }

  lemma NoteIsClean(n: Note)
    ensures IsClean(NoteText(n)) <==> IsClean(n.title) && IsClean(n.body)
  {
    var tail := n.body + "\n\n";
    assert NoteText(n) == "### " + (n.title + ("\n\n" + tail));
    CleanAfter("### ", n.title + ("\n\n" + tail));
    CleanParts(n.title, "\n\n" + tail);
    CleanAfter("\n\n", tail);
    CleanParts(n.body, "\n\n");
    CleanAfter("\n\n", "");
    assert "\n\n" + "" == "\n\n";
  }

  ghost predicate NotesAreClean(notes: seq<Note>) {
    forall n :: n in notes ==> IsClean(n.title) && IsClean(n.body)
  }

  lemma {:induction false} NoteTextsAreClean(notes: seq<Note>)
    ensures IsClean(NoteTexts(notes)) <==> NotesAreClean(notes)
  {
    if notes != [] {
      var front, last := notes[..|notes| - 1], notes[|notes| - 1];
      NoteTextsAreClean(front);
      NoteIsClean(last);
      CleanParts(NoteTexts(front), NoteText(last));
      assert notes == front + [last];
    }
  }

  lemma FixedTextsHaveNoStart()
    ensures HasNoStart(TITLE) && HasNoStart(NOTICE)
  {
    assert HasNoStart("## Team knowledge ") && HasNoStart("(OpenMind, ") && HasNoStart("project ");
    assert HasNoStart("Generated by ") && HasNoStart("`openmind export ") && HasNoStart("claude-md`; edit ");
    assert HasNoStart("notes in OpenMind, ") && HasNoStart("not here.\n\n");
  }

  /** A clean text, a text without '<', any text set off by a separator, and so on. */
  lemma CleanHead(begin: string, title: string, project: string, mid: string, texts: string)
    requires IsClean(begin) && HasNoStart(title) && HasNoStart(mid) && IsSeparated(title) && IsSeparated(mid)
    ensures IsClean(begin + (title + (project + (mid + texts)))) <==> IsClean(project) && IsClean(texts)
  {
    hide IsClean;
    CleanParts(begin, title + (project + (mid + texts)));
    CleanAfter(title, project + (mid + texts));
    CleanParts(project, mid + texts);
    CleanAfter(mid, texts);
  }

  lemma HeadParts(
      a: string, b: string, c: string, d: string, e: string, f: string, g: string, h: string, i: string)
    ensures a + b + c + d + e + f + g + h + i == a + ((b + c) + (d + ((e + f + g + h) + i)))
  {
  }

  lemma DayHasNoStart(now: Instant)
    ensures HasNoStart(DayText(now))
  {
    hide Pad;
  }

  lemma HeadIsClean(project: string, now: Instant, notes: seq<Note>)
    ensures IsClean(SectionHead(project, now, notes)) <==> IsClean(project) && NotesAreClean(notes)
  {
    hide IsClean, NoteTexts, NotesAreClean, DayText;
    var day := DayText(now);
    var title, mid, texts := "\n" + TITLE, ", " + day + ")\n\n" + NOTICE, NoteTexts(notes);
    DayHasNoStart(now);
    FixedTextsHaveNoStart();
    BeginIsClean();
    CleanHead(BEGIN, title, project, mid, texts);
    HeadParts(BEGIN, "\n", TITLE, project, ", ", day, ")\n\n", NOTICE, texts);
    NoteTextsAreClean(notes);
  }

  lemma OnlyLastMarker(head: string, m: string)
    requires IsMarker(m)
    ensures (forall p :: OccursAt(head + m + "\n", m, p) ==> p == |head|) <==> !HasMarker(head, m)
  {
    var s, tail := head + m + "\n", m + "\n";
    assert s == head + tail && s == "" + head + tail;
    forall p | OccursAt(s, m, p)
      ensures p == |head| || OccursAt(head, m, p)
    {
      NoMatchAcross(head, tail, m, p);
      if p > |head| {
        OccursChar(tail, m, p - |head|, 0);
      }
    }
    if p :| OccursAt(head, m, p) {
      OccursInLonger("", head, tail, m, p);
    }
  }

  lemma SectionHasNoLeftoverIff(head: string)
    requires BEGIN <= head
    ensures var s := head + END + "\n"; IsSection(s) && (Leftover(s) == "" <==> IsClean(head))
  {
    hide IndexFrom;
    MarkersAreMarkers();
    OccursInLonger(head, END, "\n", END, 0);
    OnlyLastMarker(head, END);
  }

  /** What an export writes is a section, and it has no leftover if and only if no end marker stands in the
      project's name or in a note. */
  lemma ExportHasNoLeftoverIff(project: string, now: Instant, notes: seq<Note>)
    ensures IsSection(SectionOf(project, now, notes))
    ensures Leftover(SectionOf(project, now, notes)) == "" <==> IsClean(project) && NotesAreClean(notes)
  {
    hide IsSection, Leftover, IsClean, NotesAreClean, NoteTexts, DayText;
    HeadIsClean(project, now, notes);
    SectionHasNoLeftoverIff(SectionHead(project, now, notes));
  }

  /** Exporting again leaves what the last export alone would, if and only if the text is spliceable and no end
      marker stands in the project's name or in a note of the export before. */
  lemma LastExportWinsIff(t: string, project: string, now: Instant, notes: seq<Note>, next: string)
    ensures var s := SectionOf(project, now, notes);
      IsSpliceable(t) && IsClean(project) && NotesAreClean(notes) <==>
      Spliced(t, s).Ok? && Spliced(Spliced(t, s).value, next) == Spliced(t, next)
  {
    hide IsSpliceable, Spliced, IsSection, Leftover, IsClean, NotesAreClean, SectionOf;
    ExportHasNoLeftoverIff(project, now, notes);
    LastSpliceWins(t, SectionOf(project, now, notes), next);
  }

  /** A note that can be stored and that spoils every later export. */
  const SPOILER := Note(
    "1", "p", "t", "project", "project", [], "me", Source("", "", ""), "active", END, Unset, Unset, 1)

  lemma SpoiledExport(t: string, project: string, now: Instant, next: string)
    ensures Normalize(SPOILER) == Ok(SPOILER)
    ensures var s := SectionOf(project, now, [SPOILER]);
      !(Spliced(t, s).Ok? && Spliced(Spliced(t, s).value, next) == Spliced(t, next))
  {
    hide Spliced, IsSpliceable, SectionOf;
    SpoilerIsNormal();
    NormalizeReachesNormalForm(SPOILER);
    assert OccursAt(END, END, 0) && SPOILER in [SPOILER];
    LastExportWinsIff(t, project, now, [SPOILER], next);
  }

  lemma SpoilerIsNormal()
    ensures IsNormal(SPOILER)
  {
  }
}
