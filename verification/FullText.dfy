/** The full-text side of internal/store: query terms, and the inverted index its triggers maintain. */
module FullText {
  import opened Wrappers
  import opened Strings

  // ---- splitting ----

  /** `isAlnum`, which also decides here what the index counts as part of a token. */
  predicate IsAlnum(c: char) {
    '0' <= c <= '9' || 'a' <= c <= 'z' || 'A' <= c <= 'Z' || c as int > 127
  }

  predicate IsJoiner(c: char) {
    c == '_' || c == '-' || c == '.'
  }

  predicate IsQueryChar(c: char) {
    IsJoiner(c) || IsAlnum(c)
  }

  /** Letters of either case, digits and everything beyond ASCII, and the three joiners. */
  lemma CharacterClasses(c: char)
    ensures IsAlnum(c) <==> 'a' <= LowerChar(c) <= 'z' || '0' <= c <= '9' || c > '\U{7F}'
    ensures IsJoiner(c) <==> c in "_-."
    ensures IsQueryChar(c) <==> IsAlnum(c) || c in "_-."
  {
  }

  /** The length of the leading run of kept characters. */
  function RunLength(s: string, keep: char -> bool): (n: nat)
    ensures n <= |s|
    ensures forall i :: 0 <= i < n ==> keep(s[i])
    ensures n < |s| ==> !keep(s[n])
  {
    if s != "" && keep(s[0]) then 1 + RunLength(s[1..], keep) else 0
  }

  /** `strings.FieldsFunc`: the maximal runs of kept characters. */
  function Fields(s: string, keep: char -> bool): (r: seq<string>)
    ensures forall f :: f in r ==> f != "" && forall c :: c in f ==> keep(c)
    decreases |s|
  {
    if s == "" then []
    else if !keep(s[0]) then Fields(s[1..], keep)
    else
      var n := RunLength(s, keep);
      [s[..n]] + Fields(s[n..], keep)
  }

  // ---- what splitting means ----

  /** A maximal run of kept characters. */
  predicate IsRun(s: string, keep: char -> bool, i: nat, j: nat) {
    && i < j <= |s| && (forall k :: i <= k < j ==> keep(s[k]))
    && (i == 0 || !keep(s[i - 1])) && (j == |s| || !keep(s[j]))
  }

  /** A text of kept characters is one field. */
  lemma FieldsOfWord(w: string, keep: char -> bool)
    requires w != "" && forall k :: 0 <= k < |w| ==> keep(w[k])
    ensures Fields(w, keep) == [w]
  {
    hide Fields;
    FieldsStep(w, keep);
    NoFields(keep);
    var n := RunLength(w, keep);
    assert n == |w| && w[..n] == w && w[n..] == "";
  }

  lemma NoFields(keep: char -> bool)
    ensures Fields("", keep) == []
  {
  }

  /** Every other character separates. */
  lemma {:induction false} FieldsSplit(a: string, c: char, b: string, keep: char -> bool)
    requires !keep(c)
    ensures Fields(a + [c] + b, keep) == Fields(a, keep) + Fields(b, keep)
    decreases |a|
  {
    NoFields(keep);
    hide Fields, RunLength;
    var s := a + [c] + b;
    if a == "" {
      assert s[0] == c && s[1..] == b;
      FieldsSkip(s, keep);
    } else if !keep(a[0]) {
      assert s[0] == a[0] && s[1..] == a[1..] + [c] + b;
      FieldsSplit(a[1..], c, b, keep);
      FieldsSkip(s, keep);
      FieldsSkip(a, keep);
    } else {
      var n := RunLength(a, keep);
      SameRun(a, s, keep);
      assert s[..n] == a[..n] && s[n..] == a[n..] + [c] + b;
      FieldsSplit(a[n..], c, b, keep);
      FieldsStep(a, keep);
      FieldsStep(s, keep);
    }
  }

  lemma FieldsStep(s: string, keep: char -> bool)
    requires s != "" && keep(s[0])
    ensures var n := RunLength(s, keep);
      n > 0 && Fields(s, keep) == [s[..n]] + Fields(s[n..], keep)
  {
  }

  lemma FieldsSkip(s: string, keep: char -> bool)
    requires s != "" && !keep(s[0])
    ensures Fields(s, keep) == Fields(s[1..], keep)
  {
  }

  lemma LeadingRun(s: string, keep: char -> bool)
    requires s != "" && keep(s[0])
    ensures RunLength(s, keep) > 0 && IsRun(s, keep, 0, RunLength(s, keep))
  {
  }

  lemma SameRun(a: string, s: string, keep: char -> bool)
    requires a <= s && |a| < |s| && !keep(s[|a|])
    ensures RunLength(s, keep) == RunLength(a, keep)
  {
    hide RunLength;
    var m, n := RunLength(a, keep), RunLength(s, keep);
    assert m < |a| ==> s[m] == a[m];
    assert n < |a| ==> s[n] == a[n];
  }

  /** The fields are exactly the maximal runs. */
  lemma FieldsAreRuns(s: string, keep: char -> bool, f: string)
    ensures f in Fields(s, keep) <==> exists i: nat, j: nat :: IsRun(s, keep, i, j) && s[i..j] == f
  {
    if f in Fields(s, keep) {
      var i, j := FieldIsRun(s, keep, f);
    }
    if i: nat, j: nat :| IsRun(s, keep, i, j) && s[i..j] == f {
      RunIsField(s, keep, i, j);
    }
  }

  lemma {:induction false} FieldIsRun(s: string, keep: char -> bool, f: string) returns (i: nat, j: nat)
    requires f in Fields(s, keep)
    ensures IsRun(s, keep, i, j) && s[i..j] == f
    decreases |s|
  {
    NoFields(keep);
    hide Fields, IsRun;
    if !keep(s[0]) {
      FieldsSkip(s, keep);
      i, j := FieldIsRun(s[1..], keep, f);
      RunInSuffix(s, keep, 1, i, j);
      i, j := i + 1, j + 1;
    } else {
      var n := RunLength(s, keep);
      FieldsStep(s, keep);
      if f == s[..n] {
        i, j := 0, n;
        LeadingRun(s, keep);
      } else {
        i, j := FieldIsRun(s[n..], keep, f);
        RunInSuffix(s, keep, n, i, j);
        i, j := i + n, j + n;
      }
    }
  }

  /** A run of what follows a run, or a character that is not kept, is a run of the whole. */
  lemma RunInSuffix(s: string, keep: char -> bool, n: nat, i: nat, j: nat)
    requires n <= |s| && IsRun(s[n..], keep, i, j)
    requires 0 < n && (!keep(s[n - 1]) || n == |s| || !keep(s[n]))
    ensures IsRun(s, keep, i + n, j + n) && s[i + n..j + n] == s[n..][i..j]
  {
    var t := s[n..];
    assert forall k :: 0 <= k < |t| ==> t[k] == s[k + n];
    assert i == 0 ==> keep(t[0]);
    assert keep(s[i + n]);
    forall k | i + n <= k < j + n
      ensures keep(s[k])
    {
      assert keep(t[k - n]);
    }
  }

  lemma RunComesFirst(b: string, keep: char -> bool, n: nat)
    requires IsRun(b, keep, 0, n)
    ensures b[..n] in Fields(b, keep)
  {
    hide Fields;
    FieldsOfWord(b[..n], keep);
    if n < |b| {
      assert b == b[..n] + [b[n]] + b[n + 1..];
      FieldsSplit(b[..n], b[n], b[n + 1..], keep);
    } else {
      assert b == b[..n];
    }
  }

  lemma RunIsField(s: string, keep: char -> bool, i: nat, j: nat)
    requires IsRun(s, keep, i, j)
    ensures s[i..j] in Fields(s, keep)
  {
    hide Fields;
    var b := s[i..];
    RunComesFirst(b, keep, j - i);
    assert b[..j - i] == s[i..j];
    if i > 0 {
      assert s == s[..i - 1] + [s[i - 1]] + b;
      FieldsSplit(s[..i - 1], s[i - 1], b, keep);
    } else {
      assert s == b;
    }
  }

  // ---- tokens and terms ----

  /** The tokens of an indexed text: lower-cased runs of letters and digits. */
  function Tokens(s: string): seq<string> {
    LowerAll(Fields(s, IsAlnum))
  }

  function LowerAll(ss: seq<string>): seq<string> {
    seq(|ss|, i requires 0 <= i < |ss| => ToLower(ss[i]))
  }

  function TrimJoiners(s: string): (r: string)
    ensures |r| <= |s|
    ensures r != "" ==> !IsJoiner(r[0])
    ensures forall c :: c in r ==> c in s
    decreases |s|
  {
    if s == "" then s
    else if IsJoiner(s[0]) then TrimJoiners(s[1..])
    else if IsJoiner(s[|s| - 1]) then TrimJoiners(s[..|s| - 1])
    else s
  }

  /** The trimmed, non-empty words of a query. */
  function TermsOf(words: seq<string>): (r: seq<string>)
    ensures forall t :: t in r ==> t != "" && !IsJoiner(t[0])
    ensures forall t, c :: t in r && c in t ==> exists w :: w in words && c in w
  {
    if words == [] then []
    else
      var last := words[|words| - 1];
      var rest := TermsOf(words[..|words| - 1]);
      var t := TrimJoiners(last);
      if t == "" then rest else rest + [t]
  }

  function Terms(query: string): seq<string> {
    TermsOf(Fields(query, IsQueryChar))
  }

  /** Trimming takes joiners from both ends, all of them, and nothing else. */
  lemma {:induction false} TrimJoinersIsTrim(s: string) returns (a: string, b: string)
    ensures s == a + TrimJoiners(s) + b
    ensures (forall c :: c in a ==> IsJoiner(c)) && (forall c :: c in b ==> IsJoiner(c))
    ensures var t := TrimJoiners(s); t != "" ==> !IsJoiner(t[0]) && !IsJoiner(t[|t| - 1])
    decreases |s|
  {
    if s == "" {
      a, b := "", "";
    } else if IsJoiner(s[0]) {
      a, b := TrimJoinersIsTrim(s[1..]);
      assert s == [s[0]] + s[1..];
      a := [s[0]] + a;
    } else if IsJoiner(s[|s| - 1]) {
      a, b := TrimJoinersIsTrim(s[..|s| - 1]);
      assert s == s[..|s| - 1] + [s[|s| - 1]];
      b := b + [s[|s| - 1]];
    } else {
      a, b := "", "";
    }
  }

  lemma {:induction false} TermsOfConcat(a: seq<string>, b: seq<string>)
    ensures TermsOf(a + b) == TermsOf(a) + TermsOf(b)
  {
    if b == [] {
      assert a + b == a;
    } else {
      TermsOfConcat(a, b[..|b| - 1]);
      assert (a + b)[..|a + b| - 1] == a + b[..|b| - 1];
    }
  }

  /** Letters and digits only. */
  predicate IsWord(w: string) {
    w != "" && forall k :: 0 <= k < |w| ==> IsAlnum(w[k])
  }

  lemma AlnumIsNoJoiner(c: char)
    ensures IsAlnum(c) ==> !IsJoiner(c) && IsQueryChar(c)
  {
  }

  /** A query of one word has that word as its only term, and that term one token. */
  lemma TermsOfWord(w: string)
    requires IsWord(w)
    ensures Terms(w) == [w] && Tokens(w) == [ToLower(w)]
  {
    hide IsAlnum, IsJoiner, IsQueryChar;
    forall k | 0 <= k < |w|
      ensures IsQueryChar(w[k]) && !IsJoiner(w[k])
    {
      AlnumIsNoJoiner(w[k]);
    }
    FieldsOfWord(w, IsQueryChar);
    FieldsOfWord(w, IsAlnum);
    assert TrimJoiners(w) == w;
    assert [w][..0] == [] && TermsOf([]) == [];
  }

  /** Any character that no word of a query has separates its words. */
  lemma TermsSplit(a: string, c: char, b: string)
    requires !IsQueryChar(c)
    ensures Terms(a + [c] + b) == Terms(a) + Terms(b)
  {
    FieldsSplit(a, c, b, IsQueryChar);
    TermsOfConcat(Fields(a, IsQueryChar), Fields(b, IsQueryChar));
  }

  // ---- the FTS5 expression ----

  function DoubleQuotes(s: string): string {
    if s == "" then "" else (if s[0] == '"' then "\"\"" else [s[0]]) + DoubleQuotes(s[1..])
  }

  /** A quoted prefix term. */
  function PrefixTerm(t: string): string {
    "\"" + DoubleQuotes(t) + "\"*"
  }

  /** `strings.Join` of the prefix terms. */
  function Expression(terms: seq<string>): string {
    if terms == [] then ""
    else if |terms| == 1 then PrefixTerm(terms[0])
    else PrefixTerm(terms[0]) + " " + Expression(terms[1..])
  }

  /** Reads a string of the expression after its opening quote; two quotes stand for one. */
  function ReadString(s: string): (r: Option<(string, string)>)
    ensures r.Some? ==> |r.value.1| < |s|
  {
    if s == "" then None
    else if s[0] != '"' then
      match ReadString(s[1..])
      case None => None
      case Some((t, rest)) => Some(([s[0]] + t, rest))
    else if |s| > 1 && s[1] == '"' then
      match ReadString(s[2..])
      case None => None
      case Some((t, rest)) => Some((['"'] + t, rest))
    else Some(("", s[1..]))
  }

  /** Reads an expression back as a sequence of quoted prefix strings. */
  function ReadExpression(s: string): Option<seq<string>>
    decreases |s|
  {
    if s == "" then Some([])
    else if s[0] != '"' then None
    else
      match ReadString(s[1..])
      case None => None
      case Some((t, rest)) =>
        if rest == "*" then Some([t])
        else if |rest| > 2 && rest[..2] == "* " then
          match ReadExpression(rest[2..])
          case None => None
          case Some(ts) => Some([t] + ts)
        else None
  }

  lemma {:induction false} ReadStringBack(t: string, rest: string)
    requires rest != "" && rest[0] != '"'
    ensures ReadString(DoubleQuotes(t) + "\"" + rest) == Some((t, rest))
  {
    var s := DoubleQuotes(t) + "\"" + rest;
    if t == "" {
      assert s[0] == '"' && s[1] == rest[0] && s[1..] == rest;
    } else {
      var tail := DoubleQuotes(t[1..]) + "\"" + rest;
      ReadStringBack(t[1..], rest);
      if t[0] == '"' {
        assert s == "\"\"" + tail && s[0] == '"' && s[1] == '"' && s[2..] == tail;
      } else {
        assert s == [t[0]] + tail && s[1..] == tail;
      }
      assert [t[0]] + t[1..] == t;
    }
  }

  lemma ReadOneTerm(t: string, rest: string)
    requires rest != "" && rest[0] == '*'
    ensures ReadExpression(("\"" + DoubleQuotes(t) + "\"") + rest) ==
      if rest == "*" then Some([t])
      else if |rest| > 2 && rest[..2] == "* " then
        match ReadExpression(rest[2..])
        case None => None
        case Some(ts) => Some([t] + ts)
      else None
  {
    var s := ("\"" + DoubleQuotes(t) + "\"") + rest;
    assert s[1..] == DoubleQuotes(t) + "\"" + rest;
    ReadStringBack(t, rest);
  }

  /** Whatever the terms contain, the expression reads back as exactly these terms. */
  lemma {:induction false} ExpressionReadsBack(terms: seq<string>)
    ensures ReadExpression(Expression(terms)) == Some(terms)
    ensures terms != [] ==> Expression(terms) != ""
  {
    hide DoubleQuotes, ReadString;
    if |terms| == 1 {
      ReadOneTerm(terms[0], "*");
      assert Expression(terms) == ("\"" + DoubleQuotes(terms[0]) + "\"") + "*";
      assert [terms[0]] == terms;
    } else if |terms| > 1 {
      var rest := "* " + Expression(terms[1..]);
      ExpressionReadsBack(terms[1..]);
      ReadOneTerm(terms[0], rest);
      assert rest[..2] == "* " && rest[2..] == Expression(terms[1..]);
      assert Expression(terms) == ("\"" + DoubleQuotes(terms[0]) + "\"") + rest;
      assert [terms[0]] + terms[1..] == terms;
    }
  }

  /** The loop of ftsQuery. */
  method FtsQuery(query: string) returns (expression: string)
    ensures expression == Expression(Terms(query))
    ensures ReadExpression(expression) == Some(Terms(query))
    ensures expression == "" <==> Terms(query) == []
  {
    var words := Fields(query, IsQueryChar);
    var terms := [];
    for i := 0 to |words|
      invariant terms == TermsOf(words[..i])
    {
      assert words[..i + 1][..i] == words[..i];
      var t := TrimJoiners(words[i]);
      if t != "" {
        terms := terms + [t];
      }
    }
    assert words[..|words|] == words;
    expression := Expression(terms);
    ExpressionReadsBack(terms);
  }

  // ---- the index ----

  datatype Column = Title | Body | Tags

  /** What a row gives to the index. */
  datatype Doc = Doc(title: string, body: string, tags: string) {
    function Text(c: Column): string {
      match c
      case Title => title
      case Body => body
      case Tags => tags
    }
  }

  datatype Posting = Posting(row: nat, col: Column, pos: nat, token: string)

  type Index = multiset<Posting>

  function ColumnPostings(row: nat, col: Column, tokens: seq<string>): Index {
    if tokens == [] then multiset{}
    else
      var n := |tokens| - 1;
      ColumnPostings(row, col, tokens[..n]) + multiset{Posting(row, col, n, tokens[n])}
  }

  /** What inserting a row adds to the index, and the 'delete' command takes out again for the given texts. */
  function RowPostings(row: nat, d: Doc): Index {
    ColumnPostings(row, Title, Tokens(d.title)) + ColumnPostings(row, Body, Tokens(d.body))
    + ColumnPostings(row, Tags, Tokens(d.tags))
  }

  function Sum(parts: seq<Index>): Index {
    if parts == [] then multiset{} else Sum(parts[..|parts| - 1]) + parts[|parts| - 1]
  }

  function AllPostings(docs: seq<Doc>): seq<Index> {
    seq(|docs|, i requires 0 <= i < |docs| => RowPostings(i, docs[i]))
  }

  /** The index built from scratch. */
  function Rebuild(docs: seq<Doc>): Index {
    Sum(AllPostings(docs))
  }

  lemma {:induction false} SumReplace(parts: seq<Index>, i: nat, x: Index)
    requires i < |parts|
    ensures parts[i] <= Sum(parts) && Sum(parts[i := x]) == Sum(parts) - parts[i] + x
  {
    var n := |parts| - 1;
    if i == n {
      assert parts[i := x][..n] == parts[..n];
    } else {
      SumReplace(parts[..n], i, x);
      assert parts[i := x][..n] == parts[..n][i := x];
    }
  }

  lemma {:induction false} SumContains(parts: seq<Index>, p: Posting)
    ensures p in Sum(parts) <==> exists i :: 0 <= i < |parts| && p in parts[i]
  {
    if parts != [] {
      SumContains(parts[..|parts| - 1], p);
    }
  }

  /** The insert trigger. */
  function OnInsert(index: Index, row: nat, new_: Doc): Index {
    index + RowPostings(row, new_)
  }

  /** The update trigger: takes the old texts out, then puts the new ones in. */
  function OnUpdate(index: Index, row: nat, old_: Doc, new_: Doc): Index {
    index - RowPostings(row, old_) + RowPostings(row, new_)
  }

  /** The insert trigger keeps the index equal to a rebuild. */
  lemma InsertKeepsIndex(docs: seq<Doc>, d: Doc)
    ensures OnInsert(Rebuild(docs), |docs|, d) == Rebuild(docs + [d])
  {
    assert AllPostings(docs + [d])[..|docs|] == AllPostings(docs);
  }

  /** So does the update trigger: nothing stale stays and nothing is lost. */
  lemma UpdateKeepsIndex(docs: seq<Doc>, row: nat, d: Doc)
    requires row < |docs|
    ensures RowPostings(row, docs[row]) <= Rebuild(docs)
    ensures OnUpdate(Rebuild(docs), row, docs[row], d) == Rebuild(docs[row := d])
  {
    SumReplace(AllPostings(docs), row, RowPostings(row, d));
    assert AllPostings(docs[row := d]) == AllPostings(docs)[row := RowPostings(row, d)];
  }

  lemma {:induction false} ColumnPostingsAt(row: nat, col: Column, tokens: seq<string>, p: Posting)
    ensures p in ColumnPostings(row, col, tokens) <==>
      p.row == row && p.col == col && p.pos < |tokens| && p.token == tokens[p.pos]
  {
    if tokens != [] {
      ColumnPostingsAt(row, col, tokens[..|tokens| - 1], p);
    }
  }

  /** The index holds exactly these tokens for this column of this row. */
  ghost predicate Lists(index: Index, row: nat, col: Column, tokens: seq<string>) {
    forall p: Posting :: p.row == row && p.col == col ==> (p in index <==> p.pos < |tokens| && p.token == tokens[p.pos])
  }

  /** The rebuilt index holds a posting exactly if the row's text has that token in that place. */
  lemma PostingsAreTokens(docs: seq<Doc>, row: nat, col: Column)
    requires row < |docs|
    ensures Lists(Rebuild(docs), row, col, Tokens(docs[row].Text(col)))
  {
    var tokens := Tokens(docs[row].Text(col));
    forall p: Posting | p.row == row && p.col == col
      ensures p in Rebuild(docs) <==> p.pos < |tokens| && p.token == tokens[p.pos]
    {
      PostingIsInItsRow(docs, p);
      ColumnPostingsAt(row, col, tokens, p);
    }
  }

  lemma PostingIsInItsRow(docs: seq<Doc>, p: Posting)
    requires p.row < |docs|
    ensures p in Rebuild(docs) <==> p in ColumnPostings(p.row, p.col, Tokens(docs[p.row].Text(p.col)))
  {
    var parts := AllPostings(docs);
    SumContains(parts, p);
    forall i | 0 <= i < |docs|
      ensures p in parts[i] <==> i == p.row && p in ColumnPostings(i, p.col, Tokens(docs[i].Text(p.col)))
    {
      InRowPostings(i, docs[i], p);
    }
  }

  lemma InRowPostings(row: nat, d: Doc, p: Posting)
    ensures p in RowPostings(row, d) <==> p.row == row && p in ColumnPostings(row, p.col, Tokens(d.Text(p.col)))
  {
    ColumnPostingsAt(row, Title, Tokens(d.title), p);
    ColumnPostingsAt(row, Body, Tokens(d.body), p);
    ColumnPostingsAt(row, Tags, Tokens(d.tags), p);
  }

  // ---- matching ----

  /** The postings hold the phrase from here on, its last token as a prefix. */
  predicate PhraseInIndex(index: Index, row: nat, col: Column, pos: nat, phrase: seq<string>)
    requires phrase != []
    decreases |phrase|
  {
    if |phrase| == 1 then
      exists p :: p in index && p.row == row && p.col == col && p.pos == pos && phrase[0] <= p.token
    else
      Posting(row, col, pos, phrase[0]) in index && PhraseInIndex(index, row, col, pos + 1, phrase[1..])
  }

  /** How MATCH finds one term: by postings alone. */
  predicate IndexFinds(index: Index, row: nat, phrase: seq<string>)
    requires phrase != []
  {
    exists p :: p in index && p.row == row && PhraseInIndex(index, row, p.col, p.pos, phrase)
  }

  /** The token sequence has the phrase at `pos`, its last token as a prefix. */
  predicate PhraseInTokens(tokens: seq<string>, pos: nat, phrase: seq<string>)
    requires phrase != []
  {
    && pos + |phrase| <= |tokens|
    && (forall k :: 0 <= k < |phrase| - 1 ==> tokens[pos + k] == phrase[k])
    && phrase[|phrase| - 1] <= tokens[pos + |phrase| - 1]
  }

  /** What a term asks for: some column of the row's text has the phrase. */
  ghost predicate TextHas(d: Doc, phrase: seq<string>)
    requires phrase != []
  {
    exists col: Column, pos: nat :: PhraseInTokens(Tokens(d.Text(col)), pos, phrase)
  }

  lemma {:induction false} PhraseByPostings(
      index: Index, row: nat, col: Column, tokens: seq<string>, pos: nat, phrase: seq<string>)
    requires Lists(index, row, col, tokens) && phrase != []
    ensures PhraseInIndex(index, row, col, pos, phrase) <==> PhraseInTokens(tokens, pos, phrase)
    decreases |phrase|
  {
    if |phrase| == 1 {
      if pos < |tokens| {
        assert Posting(row, col, pos, tokens[pos]) in index;
      }
    } else {
      assert Posting(row, col, pos, phrase[0]) in index <==> pos < |tokens| && phrase[0] == tokens[pos];
      PhraseByPostings(index, row, col, tokens, pos + 1, phrase[1..]);
      PhraseTail(tokens, pos, phrase);
    }
  }

  lemma PhraseTail(tokens: seq<string>, pos: nat, phrase: seq<string>)
    requires |phrase| > 1
    ensures PhraseInTokens(tokens, pos, phrase) <==>
      pos < |tokens| && tokens[pos] == phrase[0] && PhraseInTokens(tokens, pos + 1, phrase[1..])
  {
    var tail := phrase[1..];
    if PhraseInTokens(tokens, pos + 1, tail) && pos < |tokens| && tokens[pos] == phrase[0] {
      forall k | 0 <= k < |phrase| - 1
        ensures tokens[pos + k] == phrase[k]
      {
        if k > 0 {
          assert tokens[pos + 1 + (k - 1)] == tail[k - 1];
        }
      }
    }
    if PhraseInTokens(tokens, pos, phrase) {
      assert tokens[pos + 0] == phrase[0];
      forall k | 0 <= k < |tail| - 1
        ensures tokens[pos + 1 + k] == tail[k]
      {
        assert tokens[pos + (k + 1)] == phrase[k + 1];
      }
    }
  }

  /** The index answers a term exactly as a scan of the row's text would. */
  lemma IndexFindsWhatTextHas(docs: seq<Doc>, row: nat, phrase: seq<string>)
    requires row < |docs| && phrase != []
    ensures IndexFinds(Rebuild(docs), row, phrase) <==> TextHas(docs[row], phrase)
  {
    var index := Rebuild(docs);
    forall col: Column, pos: nat
      ensures PhraseInIndex(index, row, col, pos, phrase) <==> PhraseInTokens(Tokens(docs[row].Text(col)), pos, phrase)
    {
      PostingsAreTokens(docs, row, col);
      PhraseByPostings(index, row, col, Tokens(docs[row].Text(col)), pos, phrase);
    }
    if TextHas(docs[row], phrase) {
      var col: Column, pos: nat :| PhraseInTokens(Tokens(docs[row].Text(col)), pos, phrase);
      PostingsAreTokens(docs, row, col);
      var p := Posting(row, col, pos, Tokens(docs[row].Text(col))[pos]);
      assert p in index;
    }
  }

  /** Every term of a query has a token to look for. */
  lemma TermsHaveTokens(query: string, t: string)
    requires t in Terms(query)
    ensures Tokens(t) != []
  {
    var words := Fields(query, IsQueryChar);
    assert t[0] in t;
    assert IsQueryChar(t[0]) && !IsJoiner(t[0]);
    assert Fields(t, IsAlnum) != [];
  }

  /** MATCH: the index finds in the row what every string of the expression asks for. */
  predicate IndexMatches(index: Index, row: nat, expression: string) {
    match ReadExpression(expression)
    case None => false
    case Some(terms) => forall t :: t in terms && Tokens(t) != [] ==> IndexFinds(index, row, Tokens(t))
  }

  /** The row's text has every term of the query. */
  ghost predicate TextMatches(d: Doc, query: string) {
    forall t :: t in Terms(query) ==> (TermsHaveTokens(query, t); TextHas(d, Tokens(t)))
  }

  lemma IndexMatchesText(docs: seq<Doc>, row: nat, query: string, expression: string)
    requires row < |docs| && ReadExpression(expression) == Some(Terms(query))
    ensures IndexMatches(Rebuild(docs), row, expression) <==> TextMatches(docs[row], query)
  {
    forall t | t in Terms(query)
      ensures Tokens(t) != [] && (IndexFinds(Rebuild(docs), row, Tokens(t)) <==> TextHas(docs[row], Tokens(t)))
    {
      TermsHaveTokens(query, t);
      IndexFindsWhatTextHas(docs, row, Tokens(t));
    }
  }

  // ---- what a search finds ----

  /** The text has a word that starts with this one, in any case. */
  ghost predicate HasWordLike(text: string, w: string) {
    exists i: nat, j: nat :: IsRun(text, IsAlnum, i, j) && ToLower(w) <= ToLower(text[i..j])
  }

  lemma TokensAreWords(text: string, t: string)
    ensures t in Tokens(text) <==> exists i: nat, j: nat :: IsRun(text, IsAlnum, i, j) && ToLower(text[i..j]) == t
  {
    hide Fields, ToLower;
    var fs := Fields(text, IsAlnum);
    if t in Tokens(text) {
      var k :| 0 <= k < |fs| && ToLower(fs[k]) == t;
      FieldsAreRuns(text, IsAlnum, fs[k]);
    }
    if i: nat, j: nat :| IsRun(text, IsAlnum, i, j) && ToLower(text[i..j]) == t {
      FieldsAreRuns(text, IsAlnum, text[i..j]);
      var k :| 0 <= k < |fs| && fs[k] == text[i..j];
      assert LowerAll(fs)[k] == t;
    }
  }

  lemma PrefixInTokens(text: string, w: string)
    ensures HasWordLike(text, w) <==> exists t :: t in Tokens(text) && ToLower(w) <= t
  {
    hide Tokens, ToLower;
    if i: nat, j: nat :| IsRun(text, IsAlnum, i, j) && ToLower(w) <= ToLower(text[i..j]) {
      TokensAreWords(text, ToLower(text[i..j]));
    }
    if t :| t in Tokens(text) && ToLower(w) <= t {
      TokensAreWords(text, t);
    }
  }

  lemma OneTokenPhrase(d: Doc, x: string)
    ensures TextHas(d, [x]) <==> exists col: Column, t :: t in Tokens(d.Text(col)) && x <= t
  {
    hide Tokens;
    if TextHas(d, [x]) {
      var col: Column, pos: nat :| PhraseInTokens(Tokens(d.Text(col)), pos, [x]);
      assert Tokens(d.Text(col))[pos] in Tokens(d.Text(col));
    }
    if col: Column, t :| t in Tokens(d.Text(col)) && x <= t {
      var pos :| 0 <= pos < |Tokens(d.Text(col))| && Tokens(d.Text(col))[pos] == t;
      assert PhraseInTokens(Tokens(d.Text(col)), pos, [x]);
    }
  }

  /** A query of one word finds exactly the rows with a word in title, body or tags that starts with it. */
  lemma OneWordMatches(d: Doc, w: string)
    requires IsWord(w)
    ensures TextMatches(d, w) <==> HasWordLike(d.title, w) || HasWordLike(d.body, w) || HasWordLike(d.tags, w)
  {
    hide Tokens, Terms, TextHas, HasWordLike, ToLower;
    TermsOfWord(w);
    assert TextMatches(d, w) <==> TextHas(d, [ToLower(w)]);
    OneTokenPhrase(d, ToLower(w));
    PrefixInTokens(d.title, w);
    PrefixInTokens(d.body, w);
    PrefixInTokens(d.tags, w);
    assert d.Text(Title) == d.title && d.Text(Body) == d.body && d.Text(Tags) == d.tags;
  }

  /** The parts of a query are looked for independently, and all of them must be found. */
  lemma QueryPartsAreAnded(d: Doc, a: string, c: char, b: string)
    requires !IsQueryChar(c)
    ensures TextMatches(d, a + [c] + b) <==> TextMatches(d, a) && TextMatches(d, b)
  {
    hide Tokens, Terms, TextHas;
    TermsSplit(a, c, b);
  }

  /** The example in the documentation of Search. */
  lemma RedisTestFindsRedisTests(body: string, tags: string)
    ensures TextMatches(Doc("Redis tests", body, tags), "redis" + [' '] + "test")
  {
    hide TextMatches, ToLower, HasWordLike;
    var d := Doc("Redis tests", body, tags);
    RedisTests();
    QueryPartsAreAnded(d, "redis", ' ', "test");
    OneWordMatches(d, "redis");
    OneWordMatches(d, "test");
  }

  lemma RedisTests()
    ensures HasWordLike("Redis tests", "redis") && HasWordLike("Redis tests", "test")
  {
    var text := "Redis tests";
    assert IsRun(text, IsAlnum, 0, 5) && text[0..5] == "Redis";
    assert IsRun(text, IsAlnum, 6, 11) && text[6..11] == "tests";
    assert ToLower("Redis") == "redis" && ToLower("tests") == "tests" && ToLower("test") == "test";
  }

  /** The expression of one word, and of more. */
  lemma ExpressionOfWords(w: string, rest: seq<string>)
    requires IsWord(w)
    ensures Expression([w]) == "\"" + w + "\"*"
    ensures rest != [] ==> Expression([w] + rest) == Expression([w]) + " " + Expression(rest)
  {
    NothingDoubled(w);
    assert ([w] + rest)[1..] == rest;
  }

  lemma {:induction false} NothingDoubled(w: string)
    requires forall k :: 0 <= k < |w| ==> IsAlnum(w[k])
    ensures DoubleQuotes(w) == w
  {
    if w != "" {
      NothingDoubled(w[1..]);
      assert w == [w[0]] + w[1..];
    }
  }
}
