/** The context digest an agent loads at the start of a session (internal/digest/digest.go). */
module Digest {
  import opened Strings
  import opened Ordering
  import opened Notes
  import Timestamps

  const MAX_BYTES := 24 * 1024
  // Joined from short literals, whose single characters the verifier sees.
  const TRAILER := "\n_(truncated: " + "more notes " + "available via " + "openmind_search)_\n"
  const FIXED_ORDER: seq<string> := ["decision", "project", "feedback", "reference", "user"]

  // ---- one note's line ----

  /** `s[i..j]` is one of the pieces that splitting `s` at newlines gives. */
  predicate IsLine(s: string, i: nat, j: nat) {
    && i <= j <= |s|
    && (i == 0 || s[i - 1] == '\n') && (j == |s| || s[j] == '\n')
    && forall k :: i <= k < j ==> s[k] != '\n'
  }

  function LineEnd(s: string, from: nat): (j: nat)
    requires from <= |s|
    ensures from <= j <= |s| && (j == |s| || s[j] == '\n')
    ensures forall k :: from <= k < j ==> s[k] != '\n'
    decreases |s| - from
  {
    if from == |s| || s[from] == '\n' then from else LineEnd(s, from + 1)
  }

  /** Blank lines and headings do not summarise a note. */
  predicate IsTelling(trimmed: string) {
    trimmed != "" && trimmed[0] != '#'
  }

  /** The summary of the lines from position `from` on. */
  function SummaryFrom(body: string, from: nat): string
    requires from <= |body|
    decreases |body| - from
  {
    var end := LineEnd(body, from);
    var l := TrimSpace(body[from..end]);
    if IsTelling(l) then Clip(l) else if end == |body| then "" else SummaryFrom(body, end + 1)
  }

  function SummaryOf(body: string): string {
    SummaryFrom(body, 0)
  }

  method Summary(body: string) returns (r: string)
    ensures r == SummaryOf(body)
  {
    hide Strings.TrimSpace;
    var from := 0;
    while true
      invariant from <= |body| && SummaryFrom(body, from) == SummaryOf(body)
      decreases |body| - from
    {
      var end := LineEnd(body, from);
      var l := TrimSpace(body[from..end]);
      if l == "" || l[0] == '#' {
        if end == |body| {
          break;
        }
        from := end + 1;
        continue;
      }
      if |l| > 200 {
        l := l[..200] + "…";
      }
      return l;
    }
    r := "";
  }

  /** A line that can summarise its note. */
  predicate TellsAt(body: string, i: nat, j: nat) {
    IsLine(body, i, j) && var l := TrimSpace(body[i..j]); l != "" && l[0] != '#'
  }

  ghost predicate TellsNothing(body: string, from: nat, to: nat) {
    forall h, k :: from <= h < to ==> !TellsAt(body, h, k)
  }

  /** A summary is the first telling line, trimmed and cut to 200 characters, or empty if no line tells. */
  lemma SummaryIsFirstTellingLine(body: string) returns (i: nat, j: nat)
    ensures TellsNothing(body, 0, i)
    ensures if i > |body| then SummaryOf(body) == ""
            else TellsAt(body, i, j) && var l := TrimSpace(body[i..j]);
              SummaryOf(body) == if |l| > 200 then l[..200] + "…" else l
  {
    i, j := SummaryFromFinds(body, 0);
  }

  lemma {:induction false} SummaryFromFinds(body: string, from: nat) returns (i: nat, j: nat)
    requires from <= |body| && (from == 0 || body[from - 1] == '\n')
    ensures TellsNothing(body, from, i) && from <= i
    ensures if i > |body| then SummaryFrom(body, from) == ""
            else TellsAt(body, i, j) && SummaryFrom(body, from) == Clip(TrimSpace(body[i..j]))
    decreases |body| - from
  {
    hide Strings.TrimSpace;
    var end := LineEnd(body, from);
    OnlyLine(body, from, end);
    if IsTelling(TrimSpace(body[from..end])) {
      i, j := from, end;
    } else if end == |body| {
      i, j := |body| + 1, 0;
    } else {
      i, j := SummaryFromFinds(body, end + 1);
    }
  }

  /** The only line that starts within another one is that line. */
  lemma OnlyLine(s: string, i: nat, j: nat)
    requires IsLine(s, i, j)
    ensures forall h, k :: i <= h <= j && IsLine(s, h, k) ==> h == i && k == j
  {
  }

  // ---- the listing ----

  function Decimal(n: nat): string {
    if n < 10 then [('0' as int + n) as char] else Decimal(n / 10) + [('0' as int + n % 10) as char]
  }

  /** The number of notes is printed in full. */
  lemma {:induction false} DecimalReadsBack(n: nat)
    ensures Timestamps.AreDigits(Decimal(n)) && Timestamps.Value(Decimal(n)) == n
    ensures n > 0 ==> Decimal(n)[0] != '0'
  {
    if n < 10 {
      assert Decimal(n)[..0] == "" && Timestamps.Value("") == 0;
    } else {
      DecimalReadsBack(n / 10);
      var s := Decimal(n);
      assert s[..|s| - 1] == Decimal(n / 10);
    }
  }

  function Preamble(project: string, count: nat): string {
    "# OpenMind context: " + project + "\n\n" + Decimal(count)
    + " active notes." + " Use openmind_get(id) for the full text, openmind_search for more.\n"
  }

  /** A piece of the listing: the heading of a type, or the line of a note. */
  datatype Item = Heading(kind: string) | Entry(note: Note)

  function LineOf(n: Note): string {
    "- **" + n.title + "** (" + n.id + "): " + SummaryOf(n.body) + "\n"
  }

  function TextOf(i: Item): string {
    match i
    case Heading(t) => "\n## " + t + "\n"
    case Entry(n) => LineOf(n)
  }

  function Listing(items: seq<Item>): string {
    if items == [] then "" else Listing(items[..|items| - 1]) + TextOf(items[|items| - 1])
  }

  function OfType(notes: seq<Note>, t: string): seq<Note> {
    Where(notes, (n: Note) => n.kind == t)
  }

  function Entries(notes: seq<Note>): (r: seq<Item>)
    ensures |r| == |notes|
  {
    if notes == [] then [] else Entries(notes[..|notes| - 1]) + [Entry(notes[|notes| - 1])]
  }

  /** The items of one type: nothing, or a heading and the notes in input order. */
  function GroupItems(notes: seq<Note>, t: string): seq<Item> {
    var ns := OfType(notes, t);
    if ns == [] then [] else [Heading(t)] + Entries(ns)
  }

  /** The whole listing, type by type. */
  function Items(order: seq<string>, notes: seq<Note>): seq<Item> {
    if order == [] then [] else Items(order[..|order| - 1], notes) + GroupItems(notes, order[|order| - 1])
  }

  function Kinds(notes: seq<Note>): set<string> {
    set n | n in notes :: n.kind
  }

  ghost predicate IsExtra(extra: seq<string>, notes: seq<Note>) {
    && (forall i, j :: 0 <= i < j < |extra| ==> Less(extra[i], extra[j]))
    && (forall t :: t in extra <==> t in Kinds(notes) && t !in FIXED_ORDER)
  }

  /** The fixed types, then the others in text order. */
  ghost predicate IsTypeOrder(order: seq<string>, notes: seq<Note>) {
    FIXED_ORDER <= order && IsExtra(order[|FIXED_ORDER|..], notes)
  }

  // ---- where the digest stops ----

  /** The item fits when it is written after the ones before it: headings always do. */
  predicate Fits(pre: string, items: seq<Item>, k: nat)
    requires k < |items|
  {
    items[k].Entry? ==> ByteLen(pre + Listing(items[..k + 1])) <= MAX_BYTES
  }

  /** The first item that does not fit, or the number of items. */
  ghost predicate IsCut(pre: string, items: seq<Item>, k: nat) {
    && k <= |items|
    && (forall i :: 0 <= i < k ==> Fits(pre, items, i))
    && (k < |items| ==> !Fits(pre, items, k))
  }

  function Upto(pre: string, items: seq<Item>, k: nat): string
    requires k <= |items|
  {
    pre + Listing(items[..k]) + if k < |items| then TRAILER else ""
  }

  /** The listing up to the first entry that does not fit. */
  ghost predicate IsDigest(out: string, pre: string, items: seq<Item>) {
    exists k :: IsCut(pre, items, k) && out == Upto(pre, items, k)
  }

  /** What Render promises. */
  ghost predicate IsRendering(out: string, project: string, notes: seq<Note>) {
    exists order :: IsTypeOrder(order, notes) && IsDigest(out, Preamble(project, |notes|), Items(order, notes))
  }

  // ---- the shape of a listing ----

  lemma {:induction false} ListingConcat(a: seq<Item>, b: seq<Item>)
    ensures Listing(a + b) == Listing(a) + Listing(b)
  {
    hide TextOf;
    if b == [] {
      assert a + b == a;
    } else {
      ListingConcat(a, b[..|b| - 1]);
      assert (a + b)[..|a + b| - 1] == a + b[..|b| - 1];
    }
  }

  /** Headings are followed by entries: the listing starts with a heading, no two are adjacent, and it ends
      with an entry. */
  predicate IsGrouped(items: seq<Item>) {
    && (items != [] ==> items[0].Heading? && items[|items| - 1].Entry?)
    && forall i :: 0 < i < |items| && items[i].Heading? ==> items[i - 1].Entry?
  }

  lemma {:induction false} EntriesAt(notes: seq<Note>, i: nat)
    requires i < |notes|
    ensures Entries(notes)[i] == Entry(notes[i])
  {
    if i < |notes| - 1 {
      EntriesAt(notes[..|notes| - 1], i);
    }
  }

  lemma GroupIsGrouped(notes: seq<Note>, t: string)
    ensures IsGrouped(GroupItems(notes, t))
    ensures GroupItems(notes, t) == [] <==> OfType(notes, t) == []
  {
    var ns := OfType(notes, t);
    forall i | 0 <= i < |ns|
      ensures Entries(ns)[i].Entry?
    {
      EntriesAt(ns, i);
    }
  }

  lemma GroupedConcat(a: seq<Item>, b: seq<Item>)
    requires IsGrouped(a) && IsGrouped(b)
    ensures IsGrouped(a + b)
  {
    var c := a + b;
    forall i | 0 < i < |c| && c[i].Heading?
      ensures c[i - 1].Entry?
    {
      assert i > |a| ==> c[i - 1] == b[i - |a| - 1];
    }
  }

  lemma {:induction false} ItemsAreGrouped(order: seq<string>, notes: seq<Note>)
    ensures IsGrouped(Items(order, notes))
  {
    if order != [] {
      ItemsAreGrouped(order[..|order| - 1], notes);
      GroupIsGrouped(notes, order[|order| - 1]);
      GroupedConcat(Items(order[..|order| - 1], notes), GroupItems(notes, order[|order| - 1]));
    }
  }

  // ---- sizes ----

  lemma PrefixIsShorter(pre: string, items: seq<Item>, k: nat)
    requires k <= |items|
    ensures ByteLen(pre + Listing(items)) == ByteLen(pre + Listing(items[..k])) + ByteLen(Listing(items[k..]))
  {
    assert items == items[..k] + items[k..];
    ListingConcat(items[..k], items[k..]);
    Regroup(pre, Listing(items[..k]), Listing(items[k..]));
    ByteLenConcat(pre + Listing(items[..k]), Listing(items[k..]));
  }

  lemma OneMoreItem(pre: string, items: seq<Item>, k: nat)
    requires k < |items|
    ensures pre + Listing(items[..k + 1]) == pre + Listing(items[..k]) + TextOf(items[k])
    ensures ByteLen(pre + Listing(items[..k + 1])) == ByteLen(pre + Listing(items[..k])) + ByteLen(TextOf(items[k]))
  {
    hide TextOf;
    assert items[..k + 1][..k] == items[..k];
    ByteLenConcat(pre + Listing(items[..k]), TextOf(items[k]));
  }

  /** Up to the cut, the text is within the limit once an entry has been written. */
  lemma SizeAtEntry(pre: string, items: seq<Item>, k: nat, j: nat)
    requires IsCut(pre, items, k) && j < k && items[j].Entry?
    ensures ByteLen(pre + Listing(items[..j + 1])) <= MAX_BYTES
  {
    assert Fits(pre, items, j);
  }

  /** Everything is listed exactly when there is nothing to list or it all fits. */
  lemma CutIsTheEnd(pre: string, items: seq<Item>, k: nat)
    requires IsGrouped(items) && IsCut(pre, items, k)
    ensures k == |items| <==> items == [] || ByteLen(pre + Listing(items)) <= MAX_BYTES
  {
    hide TextOf, Listing, ByteLen;
    assert items[..|items|] == items;
    if k == |items| && items != [] {
      SizeAtEntry(pre, items, k, |items| - 1);
    } else if k < |items| {
      PrefixIsShorter(pre, items, k + 1);
    }
  }

  lemma EntryStartsWithDash(n: Note)
    ensures |TextOf(Entry(n))| > 0 && TextOf(Entry(n))[0] == '-'
  {
    hide SummaryOf;
    var dash := "- **";
    assert LineOf(n)[0] == dash[0];
  }

  lemma TrailerIsNoItem(pre: string, items: seq<Item>, k: nat)
    requires k < |items| && items[k].Entry?
    ensures Upto(pre, items, k) != pre + Listing(items)
  {
    hide TextOf, Listing;
    assert items == items[..k + 1] + items[k + 1..];
    ListingConcat(items[..k + 1], items[k + 1..]);
    OneMoreItem(pre, items, k);
    EntryStartsWithDash(items[k].note);
    var before, line, rest := pre + Listing(items[..k]), TextOf(items[k]), Listing(items[k + 1..]);
    Regroup(pre, Listing(items[..k + 1]), rest);
    Regroup(before, line, rest);
    TrailerSize();
    DifferAfter(before, TRAILER, line + rest);
  }

  lemma DifferAfter(before: string, a: string, b: string)
    requires a != "" && b != "" && a[0] != b[0]
    ensures before + a != before + b
  {
    assert (before + a)[|before|] == a[0] && (before + b)[|before|] == b[0];
  }

  /** The digest is the whole listing if and only if there is no note or the whole listing fits the budget. */
  lemma DigestIsWholeIff(out: string, pre: string, items: seq<Item>)
    requires IsGrouped(items) && IsDigest(out, pre, items)
    ensures out == pre + Listing(items) <==> items == [] || ByteLen(pre + Listing(items)) <= MAX_BYTES
  {
    hide TextOf, Listing, ByteLen;
    var k: nat :| IsCut(pre, items, k) && out == Upto(pre, items, k);
    CutIsTheEnd(pre, items, k);
    if k < |items| {
      TrailerIsNoItem(pre, items, k);
    } else {
      assert items[..k] == items;
    }
  }

  /** The listing stops before an entry that would exceed the budget. */
  predicate IsStop(pre: string, items: seq<Item>, k: nat) {
    0 < k < |items| && items[k].Entry? && ByteLen(pre + Listing(items[..k + 1])) > MAX_BYTES
  }

  /** A truncated digest is a proper prefix of the whole listing and the trailer; it ends between two items. */
  lemma TruncatedDigestIsPrefix(out: string, pre: string, items: seq<Item>)
    requires IsGrouped(items) && IsDigest(out, pre, items) && out != pre + Listing(items)
    ensures exists k: nat :: IsStop(pre, items, k) && out == pre + Listing(items[..k]) + TRAILER
  {
    hide TextOf, Listing, ByteLen;
    var k: nat :| IsCut(pre, items, k) && out == Upto(pre, items, k);
    assert items[..|items|] == items;
    assert IsStop(pre, items, k);
  }

  function Max(a: nat, b: nat): nat {
    if a < b then b else a
  }

  ghost predicate HeadingsWithin(items: seq<Item>, h: nat) {
    forall i :: 0 <= i < |items| && items[i].Heading? ==> ByteLen(TextOf(items[i])) <= h
  }

  predicate IsAscii(s: string) {
    forall i :: 0 <= i < |s| ==> s[i] as int < 0x80
  }

  lemma TrailerSize()
    ensures TRAILER != "" && TRAILER[0] == '\n' && ByteLen(TRAILER) == 57
  {
    assert IsAscii("\n_(truncated: ") && IsAscii("more notes ") && IsAscii("available via ");
    assert IsAscii("openmind_search)_\n");
    assert IsAscii(TRAILER);
    ByteLenAscii(TRAILER);
  }

  lemma CutIsWithinBudget(pre: string, items: seq<Item>, k: nat, h: nat)
    requires IsGrouped(items) && IsCut(pre, items, k) && HeadingsWithin(items, h)
    ensures ByteLen(pre + Listing(items[..k])) <= Max(MAX_BYTES, ByteLen(pre)) + h
  {
    hide TextOf, ByteLen;
    if k == 0 {
      assert pre + Listing(items[..0]) == pre;
    } else if items[k - 1].Entry? {
      SizeAtEntry(pre, items, k, k - 1);
    } else {
      OneMoreItem(pre, items, k - 1);
      if k == 1 {
        assert pre + Listing(items[..0]) == pre;
      } else {
        SizeAtEntry(pre, items, k, k - 2);
      }
    }
  }

  /** No digest is longer than the budget (or its preamble), one heading and the trailer. */
  lemma DigestIsBounded(out: string, pre: string, items: seq<Item>, h: nat)
    requires IsGrouped(items) && IsDigest(out, pre, items) && HeadingsWithin(items, h)
    ensures ByteLen(out) <= Max(MAX_BYTES, ByteLen(pre)) + h + 57
  {
    hide TextOf, Listing;
    var k: nat :| IsCut(pre, items, k) && out == Upto(pre, items, k);
    CutIsWithinBudget(pre, items, k, h);
    TrailerSize();
    ByteLenConcat(pre + Listing(items[..k]), TRAILER);
    if k == |items| {
      assert out == pre + Listing(items[..k]);
    }
  }

  // ---- a stable grouping ----

  function NotesOf(items: seq<Item>): seq<Note> {
    if items == [] then []
    else
      var last := items[|items| - 1];
      NotesOf(items[..|items| - 1]) + if last.Entry? then [last.note] else []
  }

  lemma {:induction false} NotesOfConcat(a: seq<Item>, b: seq<Item>)
    ensures NotesOf(a + b) == NotesOf(a) + NotesOf(b)
  {
    if b == [] {
      assert a + b == a;
    } else {
      NotesOfConcat(a, b[..|b| - 1]);
      assert (a + b)[..|a + b| - 1] == a + b[..|b| - 1];
    }
  }

  lemma {:induction false} NotesOfEntries(notes: seq<Note>)
    ensures NotesOf(Entries(notes)) == notes
  {
    if notes != [] {
      var front := notes[..|notes| - 1];
      NotesOfEntries(front);
      assert (Entries(front) + [Entry(notes[|notes| - 1])])[..|front|] == Entries(front);
    }
  }

  lemma NotesOfGroup(notes: seq<Note>, t: string)
    ensures NotesOf(GroupItems(notes, t)) == OfType(notes, t)
  {
    var ns := OfType(notes, t);
    if ns != [] {
      NotesOfConcat([Heading(t)], Entries(ns));
      NotesOfEntries(ns);
      assert NotesOf([Heading(t)]) == [];
    }
  }

  predicate IsDistinct(order: seq<string>) {
    forall i, j :: 0 <= i < j < |order| ==> order[i] != order[j]
  }

  lemma HasFirst(notes: seq<Note>)
    ensures notes != [] ==> exists n :: n in notes
  {
    if notes != [] {
      assert notes[0] in notes;
    }
  }

  lemma OtherType(notes: seq<Note>, t: string, u: string)
    ensures OfType(OfType(notes, u), t) == if t == u then OfType(notes, t) else []
  {
    if t == u {
      WhereWithin(notes, (n: Note) => n.kind == u, (n: Note) => n.kind == t);
    } else {
      HasFirst(OfType(OfType(notes, u), t));
    }
  }

  lemma GroupAddsItsType(items: seq<Item>, notes: seq<Note>, u: string, t: string)
    ensures OfType(NotesOf(items + GroupItems(notes, u)), t)
            == OfType(NotesOf(items), t) + if t == u then OfType(notes, t) else []
  {
    hide GroupItems, NotesOf;
    NotesOfConcat(items, GroupItems(notes, u));
    NotesOfGroup(notes, u);
    WhereConcat(NotesOf(items), OfType(notes, u), (n: Note) => n.kind == t);
    OtherType(notes, t, u);
  }

  lemma {:induction false} ListedOfType(order: seq<string>, notes: seq<Note>, t: string)
    requires IsDistinct(order)
    ensures OfType(NotesOf(Items(order, notes)), t) == if t in order then OfType(notes, t) else []
  {
    hide GroupItems, OfType, Items, NotesOf, IsDistinct;
    if order == [] {
      NothingListed(notes, t);
    } else {
      var front, u := order[..|order| - 1], order[|order| - 1];
      FrontIsDistinct(order);
      ListedOfType(front, notes, t);
      GroupAddsItsType(Items(front, notes), notes, u, t);
      LastGroup(order, notes);
    }
  }

  lemma NothingListed(notes: seq<Note>, t: string)
    ensures OfType(NotesOf(Items([], notes)), t) == []
  {
  }

  lemma FrontIsDistinct(order: seq<string>)
    requires IsDistinct(order) && order != []
    ensures var front, u := order[..|order| - 1], order[|order| - 1];
      IsDistinct(front) && u !in front && forall t :: t in order <==> t in front || t == u
  {
    assert order == order[..|order| - 1] + [order[|order| - 1]];
  }

  lemma LastGroup(order: seq<string>, notes: seq<Note>)
    requires order != []
    ensures Items(order, notes) == Items(order[..|order| - 1], notes) + GroupItems(notes, order[|order| - 1])
  {
  }

  lemma TypeOrderIsComplete(order: seq<string>, notes: seq<Note>)
    requires IsTypeOrder(order, notes)
    ensures IsDistinct(order) && forall n :: n in notes ==> n.kind in order
  {
    var extra := order[|FIXED_ORDER|..];
    assert order == FIXED_ORDER + extra;
    forall i, j | 0 <= i < j < |order|
      ensures order[i] != order[j]
    {
      if i < |FIXED_ORDER| <= j {
        assert order[j] in extra && order[i] in FIXED_ORDER;
      } else if |FIXED_ORDER| <= i {
        LessIsTotal(order[i], order[j]);
        assert Less(extra[i - |FIXED_ORDER|], extra[j - |FIXED_ORDER|]);
      }
    }
    forall n | n in notes
      ensures n.kind in order
    {
      assert n.kind in Kinds(notes);
      assert n.kind in FIXED_ORDER || n.kind in extra;
    }
  }

  lemma ListedInOrder(order: seq<string>, notes: seq<Note>, t: string)
    requires IsTypeOrder(order, notes)
    ensures OfType(NotesOf(Items(order, notes)), t) == OfType(notes, t)
  {
    hide Items, NotesOf, IsTypeOrder;
    TypeOrderIsComplete(order, notes);
    ListedOfType(order, notes, t);
    if t !in order {
      HasFirst(OfType(notes, t));
    }
  }

  /** The whole listing groups the notes stably: within each type the notes keep their input order, and every
      note is listed exactly once. */
  lemma ListingIsStableGrouping(order: seq<string>, notes: seq<Note>)
    requires IsTypeOrder(order, notes)
    ensures forall t :: OfType(NotesOf(Items(order, notes)), t) == OfType(notes, t)
    ensures multiset(NotesOf(Items(order, notes))) == multiset(notes)
  {
    hide Items, NotesOf, IsTypeOrder;
    var listed := NotesOf(Items(order, notes));
    forall t
      ensures OfType(listed, t) == OfType(notes, t)
    {
      ListedInOrder(order, notes, t);
    }
    forall x
      ensures multiset(listed)[x] == multiset(notes)[x]
    {
      WhereCount(listed, (n: Note) => n.kind == x.kind, x);
      WhereCount(notes, (n: Note) => n.kind == x.kind, x);
      ListedInOrder(order, notes, x.kind);
    }
  }

  /** The heading an item stands under. */
  function HeadingOver(items: seq<Item>, i: nat): string
    requires i < |items| && items[0].Heading?
  {
    if items[i].Heading? then items[i].kind else HeadingOver(items, i - 1)
  }

  ghost predicate NotesAreUnderTheirTypes(items: seq<Item>) {
    forall i :: 0 <= i < |items| && items[0].Heading? && items[i].Entry? ==> HeadingOver(items, i) == items[i].note.kind
  }

  lemma {:induction false} HeadingInFirst(a: seq<Item>, b: seq<Item>, i: nat)
    requires i < |a| && a[0].Heading?
    ensures HeadingOver(a + b, i) == HeadingOver(a, i)
  {
    if a[i].Entry? {
      HeadingInFirst(a, b, i - 1);
    }
  }

  lemma {:induction false} HeadingInSecond(a: seq<Item>, b: seq<Item>, i: nat)
    requires i < |b| && b[0].Heading? && (a != [] ==> a[0].Heading?)
    ensures HeadingOver(a + b, |a| + i) == HeadingOver(b, i)
  {
    assert (a + b)[|a| + i] == b[i];
    if b[i].Entry? {
      HeadingInSecond(a, b, i - 1);
    }
  }

  lemma {:induction false} HeadingOfGroup(notes: seq<Note>, t: string, i: nat)
    requires i < |GroupItems(notes, t)|
    ensures HeadingOver(GroupItems(notes, t), i) == t
    ensures GroupItems(notes, t)[i].Entry? ==> GroupItems(notes, t)[i].note.kind == t
  {
    if i > 0 {
      EntriesAt(OfType(notes, t), i - 1);
      assert OfType(notes, t)[i - 1] in OfType(notes, t);
      HeadingOfGroup(notes, t, i - 1);
    }
  }

  lemma {:induction false} NotesStandUnderTheirTypes(order: seq<string>, notes: seq<Note>)
    ensures NotesAreUnderTheirTypes(Items(order, notes))
  {
    if order != [] {
      var front, t := order[..|order| - 1], order[|order| - 1];
      var a, b := Items(front, notes), GroupItems(notes, t);
      NotesStandUnderTheirTypes(front, notes);
      ItemsAreGrouped(front, notes);
      GroupIsGrouped(notes, t);
      var all := a + b;
      forall i | 0 <= i < |all| && all[i].Entry?
        ensures HeadingOver(all, i) == all[i].note.kind
      {
        if i < |a| {
          HeadingInFirst(a, b, i);
        } else {
          HeadingInSecond(a, b, i - |a|);
          HeadingOfGroup(notes, t, i - |a|);
        }
      }
    }
  }

  // ---- the order of types does not depend on map iteration ----

  lemma {:induction false} DistinctCount(s: seq<string>, x: string)
    requires IsDistinct(s)
    ensures multiset(s)[x] == if x in s then 1 else 0
  {
    if s != [] {
      DistinctCount(s[..|s| - 1], x);
      assert s == s[..|s| - 1] + [s[|s| - 1]];
    }
  }

  lemma StrictIsDistinct(s: seq<string>)
    requires forall i, j :: 0 <= i < j < |s| ==> Less(s[i], s[j])
    ensures IsDistinct(s) && IsSorted(s, AtMost) && HasNoTies(s, AtMost)
  {
    forall i, j | 0 <= i < j < |s|
      ensures s[i] != s[j] && AtMost(s[i], s[j]) && !AtMost(s[j], s[i])
    {
      LessIsTotal(s[i], s[j]);
    }
  }

  /** There is exactly one order of types for given notes. */
  lemma TypeOrderIsUnique(a: seq<string>, b: seq<string>, notes: seq<Note>)
    requires IsTypeOrder(a, notes) && IsTypeOrder(b, notes)
    ensures a == b
  {
    var x, y := a[|FIXED_ORDER|..], b[|FIXED_ORDER|..];
    StrictIsDistinct(x);
    StrictIsDistinct(y);
    forall t
      ensures multiset(x)[t] == multiset(y)[t]
    {
      DistinctCount(x, t);
      DistinctCount(y, t);
    }
    ArrangementIsUnique(x, y, AtMost);
    assert a == FIXED_ORDER + x && b == FIXED_ORDER + y;
  }

  /** Two renderings of the same notes are equal: map iteration order does not matter. */
  lemma DigestIsDetermined(project: string, notes: seq<Note>, out: string, other: string)
    requires IsRendering(out, project, notes) && IsRendering(other, project, notes)
    ensures out == other
  {
    hide Listing, ByteLen, Items, Preamble;
    var pre := Preamble(project, |notes|);
    var a :| IsTypeOrder(a, notes) && IsDigest(out, pre, Items(a, notes));
    var b :| IsTypeOrder(b, notes) && IsDigest(other, pre, Items(b, notes));
    TypeOrderIsUnique(a, b, notes);
    var k: nat :| IsCut(pre, Items(a, notes), k) && out == Upto(pre, Items(a, notes), k);
    var l: nat :| IsCut(pre, Items(a, notes), l) && other == Upto(pre, Items(a, notes), l);
  }

  // ---- Render ----

  /** What Render fills its map with. */
  ghost predicate IsGrouping(groups: map<string, seq<Note>>, notes: seq<Note>) {
    forall t :: if t in groups then groups[t] == OfType(notes, t) != [] else OfType(notes, t) == []
  }

  method GroupByType(notes: seq<Note>) returns (groups: map<string, seq<Note>>)
    ensures IsGrouping(groups, notes)
  {
    groups := map[];
    for i := 0 to |notes|
      invariant IsGrouping(groups, notes[..i])
    {
      var n := notes[i];
      assert notes[..i + 1] == notes[..i] + [n];
      forall t
        ensures OfType(notes[..i + 1], t) == OfType(notes[..i], t) + if n.kind == t then [n] else []
      {
        WhereAppend(notes[..i], n, (m: Note) => m.kind == t);
      }
      groups := groups[n.kind := (if n.kind in groups then groups[n.kind] else []) + [n]];
    }
    assert notes[..|notes|] == notes;
  }

  lemma GroupKeysAreKinds(groups: map<string, seq<Note>>, notes: seq<Note>, t: string)
    requires IsGrouping(groups, notes)
    ensures t in groups <==> t in Kinds(notes)
  {
    if t in groups {
      assert OfType(notes, t)[0] in notes;
    }
  }

  /** The types to list: the map is read in any order, then sorted. */
  method TypeOrder(groups: map<string, seq<Note>>, ghost notes: seq<Note>) returns (order: seq<string>)
    requires IsGrouping(groups, notes)
    ensures IsTypeOrder(order, notes)
  {
    var extra: seq<string> := [];
    var keys := groups.Keys;
    while keys != {}
      invariant keys <= groups.Keys && IsDistinct(extra)
      invariant forall t :: t in extra <==> t in groups && t !in keys && t !in FIXED_ORDER
    {
      var t :| t in keys;
      keys := keys - {t};
      if t !in FIXED_ORDER {
        extra := extra + [t];
      }
    }
    AtMostIsPreorder();
    var sorted := OrderBy(extra, AtMost);
    SortedDistinct(sorted, extra);
    forall t
      ensures t in groups <==> t in Kinds(notes)
    {
      GroupKeysAreKinds(groups, notes, t);
    }
    order := FIXED_ORDER + sorted;
    assert order[|FIXED_ORDER|..] == sorted;
  }

  lemma AtMostIsPreorder()
    ensures IsTotalPreorder(AtMost)
  {
    forall x, y, z
      ensures AtMost(x, y) || AtMost(y, x)
      ensures AtMost(x, y) && AtMost(y, z) ==> AtMost(x, z)
    {
      AtMostIsTotalOrder(x, y, z);
    }
  }

  lemma SortedDistinct(sorted: seq<string>, s: seq<string>)
    requires IsArrangement(sorted, s, AtMost) && IsDistinct(s)
    ensures forall t :: t in sorted <==> t in s
    ensures forall i, j :: 0 <= i < j < |sorted| ==> Less(sorted[i], sorted[j])
  {
    forall t
      ensures t in sorted <==> t in s
    {
      assert t in multiset(sorted) <==> t in multiset(s);
    }
    forall i, j | 0 <= i < j < |sorted|
      ensures sorted[i] != sorted[j]
    {
      DistinctCount(s, sorted[i]);
      if sorted[i] == sorted[j] {
        TwiceInSequence(sorted, i, j);
      }
    }
  }

  /** What has been written so far: a prefix of the listing, all of which fits. */
  ghost predicate IsWritten(b: string, pre: string, written: seq<Item>) {
    && b == pre + Listing(written)
    && forall i :: 0 <= i < |written| ==> Fits(pre, written, i)
  }

  lemma NothingWritten(pre: string, order: seq<string>, notes: seq<Note>)
    ensures IsWritten(pre, pre, Items(order[..0], notes))
  {
    assert pre + Listing([]) == pre;
  }

  lemma WriteItem(b: string, pre: string, written: seq<Item>, item: Item)
    requires IsWritten(b, pre, written)
    requires item.Entry? ==> ByteLen(b) + ByteLen(TextOf(item)) <= MAX_BYTES
    ensures IsWritten(b + TextOf(item), pre, written + [item])
  {
    hide TextOf, ByteLen, Listing;
    var all := written + [item];
    assert all[..|written|] == written && all[..|all|] == all;
    OneMoreItem(pre, all, |written|);
    assert all[..|written| + 1] == all;
    forall i | 0 <= i < |all|
      ensures Fits(pre, all, i)
    {
      if i < |written| {
        assert all[..i + 1] == written[..i + 1];
        assert Fits(pre, written, i);
      }
    }
  }

  lemma StopBefore(b: string, pre: string, written: seq<Item>, n: Note, items: seq<Item>)
    requires IsWritten(b, pre, written) && written + [Entry(n)] <= items
    requires ByteLen(b) + ByteLen(LineOf(n)) > MAX_BYTES
    ensures IsDigest(b + TRAILER, pre, items)
  {
    hide LineOf, ByteLen;
    var k := |written|;
    assert items[..k] == written && items[k] == Entry(n);
    OneMoreItem(pre, items, k);
    forall i | 0 <= i < k
      ensures Fits(pre, items, i)
    {
      assert items[..i + 1] == written[..i + 1];
      assert Fits(pre, written, i);
    }
    assert IsCut(pre, items, k) && b + TRAILER == Upto(pre, items, k);
  }

  lemma WriteAll(b: string, pre: string, items: seq<Item>)
    requires IsWritten(b, pre, items)
    ensures IsDigest(b, pre, items)
  {
    hide TextOf, ByteLen;
    assert items[..|items|] == items;
    assert IsCut(pre, items, |items|) && b == Upto(pre, items, |items|);
  }

  /** The inner loop: writes the entries of one type until one does not fit. */
  method WriteEntries(b0: string, ns: seq<Note>, ghost pre: string, ghost written: seq<Item>)
    returns (b: string, full: bool, k: nat)
    requires IsWritten(b0, pre, written)
    ensures k <= |ns| && (full <==> k < |ns|)
    ensures IsWritten(b, pre, written + Entries(ns[..k]))
    ensures full ==> ByteLen(b) + ByteLen(LineOf(ns[k])) > MAX_BYTES
  {
    hide Listing, ByteLen, SummaryOf, IsWritten;
    b, full, k := b0, false, 0;
    assert written + Entries(ns[..0]) == written;
    for i := 0 to |ns|
      invariant k == i && !full
      invariant IsWritten(b, pre, written + Entries(ns[..i]))
    {
      var n := ns[i];
      var summary := Summary(n.body);
      var line := "- **" + n.title + "** (" + n.id + "): " + summary + "\n";
      if ByteLen(b) + ByteLen(line) > MAX_BYTES {
        return b, true, i;
      }
      WriteItem(b, pre, written + Entries(ns[..i]), Entry(n));
      assert ns[..i + 1][..i] == ns[..i];
      assert written + Entries(ns[..i + 1]) == written + Entries(ns[..i]) + [Entry(n)];
      b := b + line;
      k := i + 1;
    }
  }

  /** The heading of one type and its entries, until one does not fit. */
  method WriteGroup(b0: string, t: string, ns: seq<Note>, ghost pre: string, ghost written: seq<Item>)
    returns (b: string, full: bool, k: nat)
    requires IsWritten(b0, pre, written)
    ensures !full ==> IsWritten(b, pre, written + ([Heading(t)] + Entries(ns)))
    ensures full ==> k < |ns| && ByteLen(b) + ByteLen(LineOf(ns[k])) > MAX_BYTES
    ensures full ==> IsWritten(b, pre, written + [Heading(t)] + Entries(ns[..k]))
  {
    hide Listing, ByteLen, LineOf, IsWritten, Entries;
    WriteItem(b0, pre, written, Heading(t));
    b, full, k := WriteEntries(b0 + ("\n## " + t + "\n"), ns, pre, written + [Heading(t)]);
    if !full {
      assert ns[..k] == ns;
      assert written + [Heading(t)] + Entries(ns) == written + ([Heading(t)] + Entries(ns));
    }
  }

  lemma {:induction false} ItemsPrefix(order: seq<string>, notes: seq<Note>, i: nat)
    requires i <= |order|
    ensures Items(order[..i], notes) <= Items(order, notes)
  {
    if i < |order| {
      ItemsPrefix(order[..|order| - 1], notes, i);
      assert order[..|order| - 1][..i] == order[..i];
    } else {
      assert order[..i] == order;
    }
  }

  lemma {:induction false} EntriesPrefix(ns: seq<Note>, k: nat)
    requires k < |ns|
    ensures Entries(ns[..k]) + [Entry(ns[k])] <= Entries(ns)
  {
    if k == |ns| - 1 {
      assert Entries(ns) == Entries(ns[..k]) + [Entry(ns[k])];
    } else {
      EntriesPrefix(ns[..|ns| - 1], k);
      assert ns[..|ns| - 1][..k] == ns[..k];
    }
  }

  lemma NextItems(order: seq<string>, notes: seq<Note>, i: nat)
    requires i < |order|
    ensures Items(order[..i + 1], notes) == Items(order[..i], notes) + GroupItems(notes, order[i])
  {
    assert order[..i + 1][..i] == order[..i];
  }

  lemma PrefixAfter(a: seq<Item>, b: seq<Item>, c: seq<Item>, d: seq<Item>, e: seq<Item>)
    requires c + d <= e
    ensures a + b + c + d <= a + (b + e)
  {
    assert a + b + c + d == (a + b) + (c + d);
    assert a + (b + e) == (a + b) + e;
  }

  lemma StopInGroup(order: seq<string>, notes: seq<Note>, i: nat, k: nat)
    requires i < |order| && k < |OfType(notes, order[i])|
    ensures var ns := OfType(notes, order[i]);
      Items(order[..i], notes) + [Heading(order[i])] + Entries(ns[..k]) + [Entry(ns[k])] <= Items(order, notes)
  {
    hide Items, Entries, OfType;
    var ns := OfType(notes, order[i]);
    NextItems(order, notes, i);
    ItemsPrefix(order, notes, i + 1);
    EntriesPrefix(ns, k);
    PrefixAfter(Items(order[..i], notes), [Heading(order[i])], Entries(ns[..k]), [Entry(ns[k])], Entries(ns));
  }

  lemma StopsInGroup(b: string, pre: string, order: seq<string>, notes: seq<Note>, i: nat, k: nat)
    requires i < |order| && k < |OfType(notes, order[i])|
    requires var ns := OfType(notes, order[i]);
      && IsWritten(b, pre, Items(order[..i], notes) + [Heading(order[i])] + Entries(ns[..k]))
      && ByteLen(b) + ByteLen(LineOf(ns[k])) > MAX_BYTES
    ensures IsDigest(b + TRAILER, pre, Items(order, notes))
  {
    hide Listing, ByteLen, Items, Entries, OfType, IsWritten, IsDigest;
    var ns := OfType(notes, order[i]);
    StopInGroup(order, notes, i, k);
    StopBefore(b, pre, Items(order[..i], notes) + [Heading(order[i])] + Entries(ns[..k]), ns[k], Items(order, notes));
  }

  lemma AfterGroup(order: seq<string>, notes: seq<Note>, i: nat)
    requires i < |order|
    ensures var ns := OfType(notes, order[i]);
      Items(order[..i + 1], notes) == if ns == [] then Items(order[..i], notes)
                                      else Items(order[..i], notes) + ([Heading(order[i])] + Entries(ns))
  {
    NextItems(order, notes, i);
  }

  /** Render writes the listing, grouped by type, up to the first note that would exceed the budget. */
  method Render(project: string, notes: seq<Note>) returns (out: string)
    ensures IsRendering(out, project, notes)
  {
    hide Listing, ByteLen, Preamble, Items, Entries, OfType, LineOf, IsWritten, IsDigest;
    var groups := GroupByType(notes);
    var order := TypeOrder(groups, notes);
    var b := Preamble(project, |notes|);
    ghost var pre := b;
    NothingWritten(pre, order, notes);
    for i := 0 to |order|
      invariant IsWritten(b, pre, Items(order[..i], notes))
    {
      AfterGroup(order, notes, i);
      if order[i] !in groups {
        continue;
      }
      var full: bool;
      var k: nat;
      b, full, k := WriteGroup(b, order[i], groups[order[i]], pre, Items(order[..i], notes));
      if full {
        StopsInGroup(b, pre, order, notes, i, k);
        return b + TRAILER;
      }
    }
    assert order[..|order|] == order;
    WriteAll(b, pre, Items(order, notes));
    out := b;
  }

  // ---- what a digest shows ----

  /** The note's line is in the text: its title, its id and its summary. */
  ghost predicate IsShown(out: string, n: Note) {
    exists p: nat :: OccursAt(out, "- **" + n.title + "** (" + n.id + "): " + SummaryOf(n.body) + "\n", p)
  }

  /** The heading of a type is in the text. */
  ghost predicate HasHeading(out: string, kind: string) {
    exists p: nat :: OccursAt(out, "\n## " + kind + "\n", p)
  }

  lemma {:induction false} NotesAreItems(items: seq<Item>, n: Note) returns (i: nat)
    requires n in NotesOf(items)
    ensures i < |items| && items[i] == Entry(n)
  {
    var front, last := items[..|items| - 1], items[|items| - 1];
    if last == Entry(n) {
      i := |items| - 1;
    } else {
      i := NotesAreItems(front, n);
    }
  }

  /** Every item before the cut is in the text. */
  lemma ItemIsShown(pre: string, items: seq<Item>, k: nat, i: nat)
    requires i < k <= |items|
    ensures items[i].Entry? ==> IsShown(Upto(pre, items, k), items[i].note)
    ensures items[i].Heading? ==> HasHeading(Upto(pre, items, k), items[i].kind)
  {
    hide TextOf, Listing;
    var a, t, b := items[..i], items[i], items[i + 1..k];
    assert items[..k] == a + ([t] + b);
    ListingConcat(a, [t] + b);
    ListingConcat([t], b);
    OneItem(t);
    var tail := Listing(b) + if k < |items| then TRAILER else "";
    assert Upto(pre, items, k) == (pre + Listing(a)) + TextOf(t) + tail;
    OccursBetween(pre + Listing(a), TextOf(t), tail);
    ItemText(t);
  }

  lemma ItemText(t: Item)
    ensures t.Entry? ==>
      TextOf(t) == "- **" + t.note.title + "** (" + t.note.id + "): " + SummaryOf(t.note.body) + "\n"
    ensures t.Heading? ==> TextOf(t) == "\n## " + t.kind + "\n"
  {
    hide SummaryOf;
  }

  lemma OccursBetween(a: string, m: string, b: string)
    ensures OccursAt(a + m + b, m, |a|)
  {
    assert (a + m + b)[|a|..|a| + |m|] == m;
  }

  lemma OneItem(t: Item)
    ensures Listing([t]) == TextOf(t)
  {
    hide TextOf;
    assert [t][..0] == [] && Listing([]) == "";
    assert "" + TextOf(t) == TextOf(t);
  }

  /** A digest opens with the project and the number of notes. */
  lemma RenderOpens(out: string, project: string, notes: seq<Note>)
    requires IsRendering(out, project, notes)
    ensures "# OpenMind context: " + project + "\n\n" + Decimal(|notes|) + " active notes." <= out
  {
    hide IsTypeOrder, Items, Listing, Fits, Decimal, Preamble, Upto;
    var pre := Preamble(project, |notes|);
    PreambleOpens(project, |notes|);
    var order :| IsTypeOrder(order, notes) && IsDigest(out, pre, Items(order, notes));
    var k: nat :| IsCut(pre, Items(order, notes), k) && out == Upto(pre, Items(order, notes), k);
    OpensWithPreamble(pre, Items(order, notes), k);
  }

  /** A digest shows every note if the full listing fits the budget. */
  lemma RenderShowsNotes(out: string, project: string, notes: seq<Note>, order: seq<string>)
    requires IsRendering(out, project, notes) && IsTypeOrder(order, notes)
    requires ByteLen(FullListing(project, notes, order)) <= 24 * 1024
    ensures forall n :: n in notes ==> IsShown(out, n) && HasHeading(out, n.kind)
  {
    hide IsTypeOrder, IsRendering, Items, Listing, ByteLen, IsShown, NotesOf, Upto, Preamble, HasHeading;
    var pre, items := Preamble(project, |notes|), Items(order, notes);
    RenderTruncatesIff(out, project, notes, order);
    ListingIsStableGrouping(order, notes);
    WholeListing(pre, items);
    forall n | n in notes
      ensures IsShown(out, n) && HasHeading(out, n.kind)
    {
      assert n in multiset(notes);
      assert n in multiset(NotesOf(items));
      var i := NotesAreItems(items, n);
      ItemIsShown(pre, items, |items|, i);
      ItemsAreGrouped(order, notes);
      NotesStandUnderTheirTypes(order, notes);
      var j := HeadingAt(items, i);
      ItemIsShown(pre, items, |items|, j);
    }
  }

  /** Where the heading over an item stands. */
  lemma {:induction false} HeadingAt(items: seq<Item>, i: nat) returns (j: nat)
    requires i < |items| && items[0].Heading?
    ensures j <= i && items[j] == Heading(HeadingOver(items, i))
  {
    if items[i].Heading? {
      j := i;
    } else {
      j := HeadingAt(items, i - 1);
    }
  }

  lemma PreambleOpens(project: string, count: nat)
    ensures "# OpenMind context: " + project + "\n\n" + Decimal(count) + " active notes." <= Preamble(project, count)
  {
    hide Decimal;
  }

  lemma OpensWithPreamble(pre: string, items: seq<Item>, k: nat)
    requires k <= |items|
    ensures pre <= Upto(pre, items, k)
  {
    hide Listing;
  }

  lemma WholeListing(pre: string, items: seq<Item>)
    ensures Upto(pre, items, |items|) == pre + Listing(items)
  {
    hide Listing;
    assert items[..|items|] == items;
  }

  // ---- the order of the types ----

  /** Decisions come first, then the other standard types, then all others. */
  ghost function Rank(kind: string): nat {
    if kind == "decision" then 0
    else if kind == "project" then 1
    else if kind == "feedback" then 2
    else if kind == "reference" then 3
    else if kind == "user" then 4
    else 5
  }

  lemma {:induction false} HeadingIsInOrder(order: seq<string>, notes: seq<Note>, i: nat) returns (p: nat)
    requires i < |Items(order, notes)| && Items(order, notes)[i].Heading?
    ensures p < |order| && order[p] == Items(order, notes)[i].kind
  {
    hide GroupItems;
    var front, t := order[..|order| - 1], order[|order| - 1];
    if i < |Items(front, notes)| {
      p := HeadingIsInOrder(front, notes, i);
    } else {
      p := |order| - 1;
      OnlyHeading(notes, t, i - |Items(front, notes)|);
    }
  }

  /** A group has one heading, its first item. */
  lemma OnlyHeading(notes: seq<Note>, t: string, i: nat)
    requires i < |GroupItems(notes, t)|
    ensures GroupItems(notes, t)[i].Heading? <==> i == 0
    ensures GroupItems(notes, t)[0] == Heading(t)
  {
    hide OfType;
    if i > 0 {
      EntriesAt(OfType(notes, t), i - 1);
    }
  }

  lemma {:induction false} HeadingsFollowOrder(order: seq<string>, notes: seq<Note>, i: nat, j: nat)
    returns (p: nat, q: nat)
    requires i < j < |Items(order, notes)| && Items(order, notes)[i].Heading? && Items(order, notes)[j].Heading?
    ensures p < q < |order| && order[p] == Items(order, notes)[i].kind && order[q] == Items(order, notes)[j].kind
  {
    hide GroupItems;
    var front, t := order[..|order| - 1], order[|order| - 1];
    var n := |Items(front, notes)|;
    if j < n {
      p, q := HeadingsFollowOrder(front, notes, i, j);
    } else {
      OnlyHeading(notes, t, j - n);
      p := HeadingIsInOrder(front, notes, i);
      q := |order| - 1;
    }
  }

  /** The headings stand in the order of their ranks, and the types that are not standard in text order. */
  lemma HeadingsAreRanked(order: seq<string>, notes: seq<Note>, i: nat, j: nat)
    requires IsTypeOrder(order, notes) && i < j < |Items(order, notes)|
    requires Items(order, notes)[i].Heading? && Items(order, notes)[j].Heading?
    ensures var s, t := Items(order, notes)[i].kind, Items(order, notes)[j].kind;
      Rank(s) < Rank(t) || (Rank(s) == Rank(t) == 5 && Less(s, t))
  {
    hide Items;
    var p, q := HeadingsFollowOrder(order, notes, i, j);
    OrderIsRanked(order, notes, p, q);
  }

  lemma OrderIsRanked(order: seq<string>, notes: seq<Note>, p: nat, q: nat)
    requires IsTypeOrder(order, notes) && p < q < |order|
    ensures Rank(order[p]) < Rank(order[q]) || (Rank(order[p]) == Rank(order[q]) == 5 && Less(order[p], order[q]))
  {
    var extra := order[5..];
    assert forall k :: 0 <= k < 5 ==> order[k] == FIXED_ORDER[k];
    assert forall k :: 5 <= k < |order| ==> order[k] == extra[k - 5] && order[k] in extra;
    if q >= 5 {
      assert order[q] !in FIXED_ORDER;
      OthersRankLast(order[q]);
    }
    if p >= 5 {
      assert order[p] !in FIXED_ORDER;
      OthersRankLast(order[p]);
    }
  }

  lemma OthersRankLast(t: string)
    requires t !in FIXED_ORDER
    ensures Rank(t) == 5
  {
    assert FIXED_ORDER[0] in FIXED_ORDER && FIXED_ORDER[1] in FIXED_ORDER && FIXED_ORDER[2] in FIXED_ORDER
      && FIXED_ORDER[3] in FIXED_ORDER && FIXED_ORDER[4] in FIXED_ORDER;
  }

  // ---- what Render promises, in terms of its arguments ----

  function FullListing(project: string, notes: seq<Note>, order: seq<string>): string {
    Preamble(project, |notes|) + Listing(Items(order, notes))
  }

  lemma {:induction false} HeadingsAreKinds(order: seq<string>, notes: seq<Note>, i: nat)
    requires i < |Items(order, notes)| && Items(order, notes)[i].Heading?
    ensures Items(order, notes)[i].kind in Kinds(notes)
  {
    var front, t := order[..|order| - 1], order[|order| - 1];
    if i < |Items(front, notes)| {
      HeadingsAreKinds(front, notes, i);
    } else {
      var j := i - |Items(front, notes)|;
      assert Items(order, notes)[i] == GroupItems(notes, t)[j];
      HeadingOfGroup(notes, t, j);
      assert OfType(notes, t)[0] in notes;
      if j > 0 {
        EntriesAt(OfType(notes, t), j - 1);
      }
    }
  }

  lemma ListsNothingIff(order: seq<string>, notes: seq<Note>)
    requires IsTypeOrder(order, notes)
    ensures Items(order, notes) == [] <==> notes == []
  {
    hide IsTypeOrder;
    ListingIsStableGrouping(order, notes);
    if Items(order, notes) == [] {
      assert multiset(notes) == multiset{};
      assert |notes| == |multiset(notes)|;
    }
    ItemsAreGrouped(order, notes);
    if Items(order, notes) != [] {
      HeadingsAreKinds(order, notes, 0);
    }
  }

  /** The rendering follows the only order of types there is. */
  lemma RenderingOf(out: string, project: string, notes: seq<Note>, order: seq<string>)
    requires IsRendering(out, project, notes) && IsTypeOrder(order, notes)
    ensures IsDigest(out, Preamble(project, |notes|), Items(order, notes)) && IsGrouped(Items(order, notes))
  {
    hide IsTypeOrder, IsDigest, Items, Preamble;
    var o :| IsTypeOrder(o, notes) && IsDigest(out, Preamble(project, |notes|), Items(o, notes));
    TypeOrderIsUnique(order, o, notes);
    ItemsAreGrouped(order, notes);
  }

  /** Render truncates if and only if there is a note and the full listing exceeds the budget. */
  lemma RenderTruncatesIff(out: string, project: string, notes: seq<Note>, order: seq<string>)
    requires IsRendering(out, project, notes) && IsTypeOrder(order, notes)
    ensures out != FullListing(project, notes, order) <==>
      notes != [] && ByteLen(FullListing(project, notes, order)) > 24 * 1024
  {
    hide IsTypeOrder, IsDigest, IsRendering, Items, Preamble, Listing, ByteLen;
    RenderingOf(out, project, notes, order);
    ListsNothingIff(order, notes);
    DigestIsWholeIff(out, Preamble(project, |notes|), Items(order, notes));
  }

  ghost predicate TypesWithin(notes: seq<Note>, h: nat) {
    forall n :: n in notes ==> ByteLen(TextOf(Heading(n.kind))) <= h
  }

  /** No rendering is longer than the budget (or its preamble), one heading and the trailer. */
  lemma RenderIsBounded(out: string, project: string, notes: seq<Note>, order: seq<string>, h: nat)
    requires IsRendering(out, project, notes) && IsTypeOrder(order, notes) && TypesWithin(notes, h)
    ensures ByteLen(out) <= Max(MAX_BYTES, ByteLen(Preamble(project, |notes|))) + h + 57
  {
    hide IsTypeOrder, IsDigest, IsRendering, Items, Preamble, Listing, ByteLen, TextOf;
    RenderingOf(out, project, notes, order);
    var items := Items(order, notes);
    forall i | 0 <= i < |items| && items[i].Heading?
      ensures ByteLen(TextOf(items[i])) <= h
    {
      HeadingsAreKinds(order, notes, i);
    }
    DigestIsBounded(out, Preamble(project, |notes|), items, h);
  }

  /** With the five standard types and a preamble within the budget, the promised 25 KB always holds. */
  lemma StandardTypesKeepThePromise(out: string, project: string, notes: seq<Note>, order: seq<string>)
    requires IsRendering(out, project, notes) && IsTypeOrder(order, notes)
    requires forall n :: n in notes ==> n.kind in FIXED_ORDER
    requires ByteLen(Preamble(project, |notes|)) <= MAX_BYTES
    ensures ByteLen(out) <= 24647 < 25 * 1024
  {
    hide IsTypeOrder, IsRendering, Preamble, ByteLen, TextOf;
    assert IsAscii("decision") && IsAscii("project") && IsAscii("feedback") && IsAscii("reference") && IsAscii("user");
    forall n | n in notes
      ensures ByteLen(TextOf(Heading(n.kind))) <= 14
    {
      HeadingSize(n.kind);
    }
    RenderIsBounded(out, project, notes, order, 14);
  }

  const PROMISE := 25 * 1024

  /** A heading that starts within the budget and ends too close to the promised size for the trailer. */
  predicate IsOverrun(pre: string, items: seq<Item>, i: nat) {
    && i < |items| && items[i].Heading?
    && (i == 0 || ByteLen(pre + Listing(items[..i])) <= MAX_BYTES)
    && ByteLen(pre + Listing(items[..i + 1])) + 57 > PROMISE
  }

  /** A digest that breaks the promise was cut behind such a heading. */
  lemma BrokenPromiseHasOverrun(pre: string, items: seq<Item>, k: nat)
    requires IsGrouped(items) && IsCut(pre, items, k) && items != [] && ByteLen(Upto(pre, items, k)) > PROMISE
    ensures k > 0 && IsOverrun(pre, items, k - 1)
  {
    hide ByteLen, TextOf, Listing;
    assert Fits(pre, items, 0);
    CutSize(pre, items, k);
    if items[k - 1].Entry? {
      SizeAtEntry(pre, items, k, k - 1);
    } else if k > 1 {
      SizeAtEntry(pre, items, k, k - 2);
    }
  }

  lemma CutSize(pre: string, items: seq<Item>, k: nat)
    requires k <= |items|
    ensures ByteLen(Upto(pre, items, k)) == ByteLen(pre + Listing(items[..k])) + if k < |items| then 57 else 0
  {
    hide ByteLen, TextOf, Listing;
    TrailerSize();
    ByteLenConcat(pre + Listing(items[..k]), TRAILER);
    assert k == |items| ==> Upto(pre, items, k) == pre + Listing(items[..k]);
  }

  /** Behind such a heading every digest is cut. */
  lemma OverrunCutsThere(pre: string, items: seq<Item>, i: nat, k: nat)
    requires IsGrouped(items) && IsCut(pre, items, k) && IsOverrun(pre, items, i)
    ensures k == i + 1 < |items|
  {
    hide ByteLen, TextOf, Listing;
    if k <= i {
      PrefixWithin(pre, items, k + 1, i);
    } else if k > i + 1 {
      PrefixWithin(pre, items, i + 1, i + 2);
      SizeAtEntry(pre, items, k, i + 1);
    }
  }

  lemma PrefixWithin(pre: string, items: seq<Item>, k: nat, n: nat)
    requires k <= n <= |items|
    ensures ByteLen(pre + Listing(items[..k])) <= ByteLen(pre + Listing(items[..n]))
  {
    hide ByteLen, TextOf, Listing;
    PrefixIsShorter(pre, items[..n], k);
    assert items[..n][..k] == items[..k];
  }

  /** A digest of some items breaks the promise exactly behind such a heading. */
  lemma DigestBreaksPromiseIff(out: string, pre: string, items: seq<Item>)
    requires IsGrouped(items) && IsDigest(out, pre, items) && items != []
    ensures ByteLen(out) > PROMISE <==> exists i: nat :: IsOverrun(pre, items, i)
  {
    hide ByteLen, TextOf, Listing, IsGrouped;
    var k: nat :| IsCut(pre, items, k) && out == Upto(pre, items, k);
    if ByteLen(out) > PROMISE {
      BrokenPromiseHasOverrun(pre, items, k);
    }
    if i: nat :| IsOverrun(pre, items, i) {
      OverrunCutsThere(pre, items, i, k);
      CutSize(pre, items, k);
    }
  }

  /** The documented 25 KB bound fails for exactly these notes: there is none and the preamble alone is longer, or
      some heading of the full listing starts within the budget and leaves no room for the trailer. */
  lemma RenderBreaksPromiseIff(out: string, project: string, notes: seq<Note>, order: seq<string>)
    requires IsRendering(out, project, notes) && IsTypeOrder(order, notes)
    ensures ByteLen(out) > PROMISE <==>
      if notes == [] then ByteLen(Preamble(project, 0)) > PROMISE
      else exists i: nat :: IsOverrun(Preamble(project, |notes|), Items(order, notes), i)
  {
    hide IsTypeOrder, IsRendering, Items, Preamble, Listing, ByteLen, TextOf, IsOverrun;
    RenderingOf(out, project, notes, order);
    ListsNothingIff(order, notes);
    if notes == [] {
      DigestOfNothing(out, Preamble(project, 0));
    } else {
      DigestBreaksPromiseIff(out, Preamble(project, |notes|), Items(order, notes));
    }
  }

  lemma DigestOfNothing(out: string, pre: string)
    requires IsDigest(out, pre, [])
    ensures out == pre
  {
  }

  lemma {:induction false} ItemsOfOneType(order: seq<string>, notes: seq<Note>, t: string)
    requires IsDistinct(order) && forall n :: n in notes ==> n.kind == t
    ensures Items(order, notes) == if t in order then GroupItems(notes, t) else []
  {
    if order != [] {
      var front, u := order[..|order| - 1], order[|order| - 1];
      ItemsOfOneType(front, notes, t);
      assert order == front + [u];
      if u != t {
        HasFirst(OfType(notes, u));
      }
    }
  }

  /** Where all notes have one type, the promised 25 KB holds if and only if the preamble, the heading and the
      trailer fit: a long type name is written whatever the budget. */
  lemma OneTypeKeepsThePromiseIff(out: string, project: string, notes: seq<Note>, order: seq<string>, t: string)
    requires IsRendering(out, project, notes) && IsTypeOrder(order, notes)
    requires notes != [] && forall n :: n in notes ==> n.kind == t
    ensures ByteLen(out) <= PROMISE <==>
      ByteLen(Preamble(project, |notes|)) + ByteLen(TextOf(Heading(t))) + 57 <= PROMISE
  {
    hide IsTypeOrder, IsRendering, Items, Preamble, Listing, ByteLen, TextOf;
    RenderBreaksPromiseIff(out, project, notes, order);
    ListsNothingIff(order, notes);
    TypeOrderIsComplete(order, notes);
    ItemsOfOneType(order, notes, t);
    var pre, items := Preamble(project, |notes|), Items(order, notes);
    forall i | 0 < i < |items|
      ensures items[i].Entry?
    {
      EntriesAt(OfType(notes, t), i - 1);
    }
    FirstItemSize(pre, items);
    assert IsOverrun(pre, items, 0) <==> ByteLen(pre) + ByteLen(TextOf(items[0])) + 57 > PROMISE;
  }

  lemma FirstItemSize(pre: string, items: seq<Item>)
    requires items != []
    ensures ByteLen(pre + Listing(items[..1])) == ByteLen(pre) + ByteLen(TextOf(items[0]))
  {
    hide TextOf, ByteLen;
    OneMoreItem(pre, items, 0);
    assert pre + Listing(items[..0]) == pre;
  }

  function Xs(n: nat): (s: string)
    ensures |s| == n && IsAscii(s)
  {
    seq(n, _ => 'x')
  }

  /** A note with a type name of 25600 letters makes a digest that is too long. */
  lemma LongTypeNameBreaksPromise(out: string, project: string, n: Note, order: seq<string>)
    requires n.kind == Xs(PROMISE) && IsRendering(out, project, [n]) && IsTypeOrder(order, [n])
    ensures ByteLen(out) > PROMISE
  {
    hide IsTypeOrder, IsRendering, Preamble, Listing, TextOf, Xs;
    OneTypeKeepsThePromiseIff(out, project, [n], order, n.kind);
    HeadingSize(n.kind);
  }

  lemma HeadingSize(t: string)
    requires IsAscii(t)
    ensures ByteLen(TextOf(Heading(t))) == |t| + 5
  {
    var text := TextOf(Heading(t));
    assert IsAscii("\n## ") && IsAscii("\n");
    assert IsAscii(text);
    ByteLenAscii(text);
  }
}
