/** The tag filter of internal/store: a LIKE test for the quoted tag inside the stored JSON text. */
module TagFilter {
  import opened Wrappers
  import opened Strings

  // ---- the stored text ----

  /** Characters that `encoding/json` does not write as themselves. */
  predicate IsEscaped(c: char) {
    c < ' ' || c == '"' || c == '\\' || c == '<' || c == '>' || c == '&' || c == '\U{2028}' || c == '\U{2029}'
  }

  function Hex(n: nat): char
    requires n < 16
  {
    if n < 10 then ('0' as int + n) as char else ('a' as int + n - 10) as char
  }

  function EscapeChar(c: char): string {
    if !IsEscaped(c) then [c]
    else if c == '"' || c == '\\' then ['\\', c]
    else if c == '\n' then "\\n"
    else if c == '\r' then "\\r"
    else if c == '\t' then "\\t"
    else if c == '\U{08}' then "\\b"
    else if c == '\U{0C}' then "\\f"
    else
      var n := c as int;
      ['\\', 'u', Hex(n / 4096 % 16), Hex(n / 256 % 16), Hex(n / 16 % 16), Hex(n % 16)]
  }

  function Escape(s: string): string {
    if s == "" then "" else EscapeChar(s[0]) + Escape(s[1..])
  }

  function JsonString(s: string): string {
    "\"" + Escape(s) + "\""
  }

  /** The elements and the closing bracket. */
  function JsonTail(tags: seq<string>): string
    decreases tags, 1
  {
    if tags == [] then "]"
    else JsonString(tags[0]) + AfterElement(tags)
  }

  function AfterElement(tags: seq<string>): string
    requires tags != []
    decreases tags, 0
  {
    if |tags| == 1 then "]" else "," + JsonTail(tags[1..])
  }

  /** The text of the tags column. */
  function JsonArray(tags: seq<string>): string {
    "[" + JsonTail(tags)
  }

  // ---- reading the stored text back ----

  function HexValue(c: char): Option<nat> {
    if '0' <= c <= '9' then Some(c as int - '0' as int)
    else if 'a' <= c <= 'f' then Some(c as int - 'a' as int + 10)
    else None
  }

  /** The character of four hexadecimal digits. */
  function ReadHex(s: string): Option<char>
    requires |s| == 4
  {
    var a, b, c, d := HexValue(s[0]), HexValue(s[1]), HexValue(s[2]), HexValue(s[3]);
    if a.None? || b.None? || c.None? || d.None? then None
    else
      var n := ((a.value * 16 + b.value) * 16 + c.value) * 16 + d.value;
      if n < 0xD800 || 0xE000 <= n < 0x1_0000 then Some(n as char) else None
  }

  /** The character after a backslash, and how many characters it takes. */
  function ReadEscape(s: string): Option<(char, nat)> {
    if s == "" then None
    else if s[0] == '"' || s[0] == '\\' then Some((s[0], 1))
    else if s[0] == 'n' then Some(('\n', 1))
    else if s[0] == 'r' then Some(('\r', 1))
    else if s[0] == 't' then Some(('\t', 1))
    else if s[0] == 'b' then Some(('\U{08}', 1))
    else if s[0] == 'f' then Some(('\U{0C}', 1))
    else if s[0] == 'u' && |s| >= 5 then
      match ReadHex(s[1..5])
      case None => None
      case Some(c) => Some((c, 5))
    else None
  }

  /** A JSON string after its opening quote, and what follows it. */
  function ReadJsonString(s: string): (r: Option<(string, string)>)
    ensures r.Some? ==> |r.value.1| < |s|
    decreases |s|
  {
    if s == "" then None
    else if s[0] == '"' then Some(("", s[1..]))
    else if s[0] == '\\' then
      match ReadEscape(s[1..])
      case None => None
      case Some((c, n)) =>
        if n > |s| - 1 then None
        else
          match ReadJsonString(s[1 + n..])
          case None => None
          case Some((t, rest)) => Some(([c] + t, rest))
    else
      match ReadJsonString(s[1..])
      case None => None
      case Some((t, rest)) => Some(([s[0]] + t, rest))
  }

  /** The strings of a JSON array after the opening bracket. */
  function ReadTags(s: string): Option<seq<string>>
    decreases |s|
  {
    if s == "]" then Some([])
    else if s == "" || s[0] != '"' then None
    else
      match ReadJsonString(s[1..])
      case None => None
      case Some((t, rest)) =>
        if rest == "]" then Some([t])
        else if rest == "" || rest[0] != ',' || rest == ",]" then None
        else
          match ReadTags(rest[1..])
          case None => None
          case Some(ts) => Some([t] + ts)
  }

  lemma HexReadsBack(c: char)
    requires c as int < 0x1_0000
    ensures var n := c as int;
      ReadHex([Hex(n / 4096 % 16), Hex(n / 256 % 16), Hex(n / 16 % 16), Hex(n % 16)]) == Some(c)
  {
    hide Hex, HexValue;
    var n := c as int;
    HexDigits(n);
    assert n < 0xD800 || 0xE000 <= n;
    HexDigit(n / 4096 % 16);
    HexDigit(n / 256 % 16);
    HexDigit(n / 16 % 16);
    HexDigit(n % 16);
  }

  lemma HexDigits(n: nat)
    requires n < 0x1_0000
    ensures ((n / 4096 % 16 * 16 + n / 256 % 16) * 16 + n / 16 % 16) * 16 + n % 16 == n
  {
    var m := n / 16;
    var l := m / 16;
    assert n / 256 == l && n / 4096 == l / 16;
  }

  lemma HexDigit(n: nat)
    requires n < 16
    ensures HexValue(Hex(n)) == Some(n)
  {
  }

  lemma EscapeReadsBack(c: char, rest: string)
    requires IsEscaped(c)
    ensures ReadEscape(EscapeChar(c)[1..] + rest) == Some((c, |EscapeChar(c)| - 1)) && EscapeChar(c)[0] == '\\'
  {
    hide ReadHex;
    var e, s := EscapeChar(c)[1..], EscapeChar(c)[1..] + rest;
    assert s[0] == e[0];
    if |e| == 5 {
      HexReadsBack(c);
      assert s[1..5] == e[1..5];
    }
  }

  lemma {:induction false} StringReadsBack(u: string, rest: string)
    ensures ReadJsonString(Escape(u) + ("\"" + rest)) == Some((u, rest))
  {
    hide EscapeChar, ReadEscape, IsEscaped;
    if u == "" {
      assert Escape(u) + ("\"" + rest) == "\"" + rest;
    } else {
      var e, tail := EscapeChar(u[0]), Escape(u[1..]) + ("\"" + rest);
      var s := Escape(u) + ("\"" + rest);
      assert s == e + tail && u == [u[0]] + u[1..];
      StringReadsBack(u[1..], rest);
      OneCharReadsBack(u[0], tail);
    }
  }

  /** One written character is read as it, and reading goes on behind it. */
  lemma OneCharReadsBack(c: char, tail: string)
    requires ReadJsonString(tail).Some?
    ensures var (t, rest) := ReadJsonString(tail).value; ReadJsonString(EscapeChar(c) + tail) == Some(([c] + t, rest))
  {
    hide ReadEscape, Hex;
    var e := EscapeChar(c);
    var s := e + tail;
    assert s[0] == e[0];
    if IsEscaped(c) {
      EscapeReadsBack(c, tail);
      assert s[1..] == e[1..] + tail && s[|e|..] == tail;
    } else {
      QuoteAndBackslashAreEscaped();
      assert s[1..] == tail;
    }
  }

  lemma QuoteAndBackslashAreEscaped()
    ensures IsEscaped('"') && IsEscaped('\\')
  {
  }

  /** The tags of a note read back from the stored text, whatever characters they hold. */
  lemma {:induction false} TagsReadBack(tags: seq<string>)
    ensures ReadTags(JsonTail(tags)) == Some(tags)
  {
    hide Escape, ReadJsonString;
    if tags != [] {
      var e, after := Escape(tags[0]), AfterElement(tags);
      var s := JsonTail(tags);
      assert s == "\"" + (e + ("\"" + after));
      assert s[0] == '"' && s[1..] == e + ("\"" + after);
      StringReadsBack(tags[0], after);
      assert tags == [tags[0]] + tags[1..];
      if |tags| > 1 {
        TagsReadBack(tags[1..]);
        assert after == "," + JsonTail(tags[1..]) && after[1..] == JsonTail(tags[1..]);
        assert JsonTail(tags[1..])[0] == '"';
      } else {
        assert tags == [tags[0]];
      }
    }
  }

  // ---- LIKE ----

  /** SQLite's LIKE: `%` is any text, `_` any character, and ASCII letters match in either case. */
  predicate Like(pattern: string, text: string)
    decreases |pattern| + |text|
  {
    if pattern == "" then text == ""
    else if pattern[0] == '%' then Like(pattern[1..], text) || (text != "" && Like(pattern, text[1..]))
    else text != "" && (pattern[0] == '_' || LowerChar(pattern[0]) == LowerChar(text[0])) && Like(pattern[1..], text[1..])
  }

  function TagPattern(tag: string): string {
    "%\"" + ToLower(tag) + "\"%"
  }

  predicate TagMatches(tag: string, tags: seq<string>) {
    Like(TagPattern(tag), JsonArray(tags))
  }

  predicate IsLiteral(s: string) {
    '%' !in s && '_' !in s
  }

  /** Without wildcards, `lit%` matches the texts that start with `lit` up to case. */
  lemma {:induction false} LikePrefix(lit: string, text: string)
    requires IsLiteral(lit)
    ensures Like(lit + "%", text) <==> |lit| <= |text| && ToLower(lit) == ToLower(text[..|lit|])
  {
    if lit == "" {
      assert lit + "%" == "%";
      LikeAnything(text);
    } else {
      assert lit[0] in lit && (lit + "%")[1..] == lit[1..] + "%";
      if text != "" {
        LikePrefix(lit[1..], text[1..]);
        if |lit| <= |text| {
          assert text[..|lit|][1..] == text[1..][..|lit| - 1];
          LowerEqual(lit, text[..|lit|]);
        }
      }
    }
  }

  lemma LowerTail(s: string)
    requires s != ""
    ensures ToLower(s) == [LowerChar(s[0])] + ToLower(s[1..])
  {
  }

  lemma LowerEqual(a: string, b: string)
    requires a != "" && b != ""
    ensures ToLower(a) == ToLower(b) <==> LowerChar(a[0]) == LowerChar(b[0]) && ToLower(a[1..]) == ToLower(b[1..])
  {
    LowerTail(a);
    LowerTail(b);
    var x, y := ToLower(a), ToLower(b);
    assert x[0] == LowerChar(a[0]) && y[0] == LowerChar(b[0]);
    assert x[1..] == ToLower(a[1..]) && y[1..] == ToLower(b[1..]);
  }

  lemma {:induction false} LikeAnything(text: string)
    ensures Like("%", text)
  {
    if text != "" {
      LikeAnything(text[1..]);
    }
  }

  lemma OccursShifted(text: string, pat: string, i: int)
    requires text != "" && i > 0
    ensures OccursAt(text, pat, i) <==> OccursAt(text[1..], pat, i - 1)
  {
    if i + |pat| <= |text| {
      assert text[1..][i - 1..i - 1 + |pat|] == text[i..i + |pat|];
    }
  }

  lemma OccursHereOrLater(text: string, pat: string)
    requires text != ""
    ensures (exists i :: OccursAt(text, pat, i)) <==> OccursAt(text, pat, 0) || exists i :: OccursAt(text[1..], pat, i)
  {
    if i :| OccursAt(text, pat, i) && i > 0 {
      OccursShifted(text, pat, i);
    }
    if i :| OccursAt(text[1..], pat, i) {
      OccursShifted(text, pat, i + 1);
    }
  }

  /** Without wildcards, `%lit%` looks for `lit` anywhere, up to case. */
  lemma {:induction false} LikeSubstring(lit: string, text: string)
    requires IsLiteral(lit)
    ensures Like("%" + lit + "%", text) <==> exists i :: OccursAt(ToLower(text), ToLower(lit), i)
  {
    var low, pat := ToLower(text), ToLower(lit);
    assert ("%" + lit + "%")[1..] == lit + "%";
    LikePrefix(lit, text);
    assert |lit| <= |text| ==> ToLower(text[..|lit|]) == low[0..|lit|];
    assert Like(lit + "%", text) <==> OccursAt(low, pat, 0);
    if text != "" {
      LikeSubstring(lit, text[1..]);
      OccursHereOrLater(low, pat);
      assert low[1..] == ToLower(text[1..]);
    } else {
      assert forall i :: OccursAt(low, pat, i) ==> i == 0;
    }
  }

  /** A wildcard also stands for itself, so a pattern is found where it is written out. */
  lemma {:induction false} LikeItself(p: string, text: string)
    requires p <= text
    ensures Like(p + "%", text)
    decreases |p|
  {
    if p == "" {
      assert p + "%" == "%";
      LikeAnything(text);
    } else {
      assert (p + "%")[1..] == p[1..] + "%" && p[1..] <= text[1..];
      LikeItself(p[1..], text[1..]);
      if p[0] == '%' {
        LikeOneMore(p[1..] + "%", text);
      }
    }
  }

  lemma LikeOneMore(p: string, text: string)
    requires text != "" && Like(p, text[1..])
    ensures Like("%" + p, text)
  {
    assert ("%" + p)[1..] == p;
    assert Like("%" + p, text[1..]);
  }

  lemma {:induction false} LikeWhereWritten(p: string, text: string, i: nat)
    requires OccursAt(text, p, i)
    ensures Like("%" + p + "%", text)
    decreases i
  {
    assert "%" + p + "%" == "%" + (p + "%") && ("%" + (p + "%"))[1..] == p + "%";
    if i == 0 {
      LikeItself(p, text);
    } else {
      OccursShifted(text, p, i);
      LikeWhereWritten(p, text[1..], i - 1);
    }
  }

  /** The text holds one character right before the other. */
  predicate HasPair(text: string, c: char, d: char) {
    exists i :: 0 < i < |text| && text[i - 1] == c && text[i] == d
  }

  lemma PairInTail(text: string, c: char, d: char)
    requires text != "" && HasPair(text[1..], c, d)
    ensures HasPair(text, c, d)
  {
    var i :| 0 < i < |text[1..]| && text[1..][i - 1] == c && text[1..][i] == d;
    assert text[i] == c && text[i + 1] == d;
  }

  predicate HasNoCase(c: char) {
    !('A' <= c <= 'Z') && !('a' <= c <= 'z') && !IsWildcard(c)
  }

  /** Two plain characters of a pattern side by side are side by side in the text. */
  lemma {:induction false} LikeHasPair(p: string, c: char, d: char, rest: string, text: string)
    requires Like(p + [c, d] + rest, text) && HasNoCase(c) && HasNoCase(d)
    ensures HasPair(text, c, d)
    decreases |p| + |text|
  {
    var pat := p + [c, d] + rest;
    if p == "" {
      assert pat == [c, d] + rest && pat[0] == c && pat[1..][0] == d;
      assert text[0] == c && text[1] == d;
    } else {
      assert pat[0] == p[0] && pat[1..] == p[1..] + [c, d] + rest;
      if p[0] == '%' && Like(pat[1..], text) {
        LikeHasPair(p[1..], c, d, rest, text);
      } else {
        LikeHasPair(if p[0] == '%' then p else p[1..], c, d, rest, text[1..]);
        PairInTail(text, c, d);
      }
    }
  }

  predicate IsWildcard(c: char) {
    c == '%' || c == '_'
  }

  /** A wildcard character in the text is only met by a wildcard of the pattern, so any other would do. */
  lemma {:induction false} LikeAfterReplacing(p: string, text: string, k: nat, c: char)
    requires Like(p, text) && k < |text| && IsWildcard(text[k])
    ensures Like(p, text[k := c])
    decreases |p| + |text|
  {
    if k > 0 {
      assert text[k := c][1..] == text[1..][k - 1 := c];
    } else {
      assert text[k := c][1..] == text[1..];
    }
    if p[0] == '%' && Like(p[1..], text) {
      LikeAfterReplacing(p[1..], text, k, c);
    } else if k > 0 {
      LikeAfterReplacing(if p[0] == '%' then p else p[1..], text[1..], k - 1, c);
    }
  }

  // ---- the written elements ----

  predicate IsPlain(s: string) {
    forall c :: c in s ==> !IsEscaped(c)
  }

  function Quotes(s: string): nat {
    if s == "" then 0 else (if s[0] == '"' then 1 else 0) + Quotes(s[1..])
  }

  /** Every quote follows a backslash. */
  predicate QuotesAreEscaped(e: string) {
    forall k :: 0 <= k < |e| && e[k] == '"' ==> k > 0 && e[k - 1] == '\\'
  }

  lemma {:induction false} QuotesConcat(a: string, b: string)
    ensures Quotes(a + b) == Quotes(a) + Quotes(b)
  {
    if a == "" {
      assert a + b == b;
    } else {
      QuotesConcat(a[1..], b);
      assert (a + b)[1..] == a[1..] + b;
    }
  }

  lemma {:induction false} NoQuotes(s: string, k: nat)
    requires Quotes(s) == 0 && k < |s|
    ensures s[k] != '"'
  {
    if k > 0 {
      NoQuotes(s[1..], k - 1);
    }
  }

  lemma {:induction false} QuoteFreeHasNone(s: string)
    requires forall k :: 0 <= k < |s| ==> s[k] != '"'
    ensures Quotes(s) == 0
  {
    if s != "" {
      QuoteFreeHasNone(s[1..]);
    }
  }

  lemma EscapeCharProperties(c: char)
    ensures !IsEscaped(c) ==> EscapeChar(c) == [c]
    ensures IsEscaped(c) ==> |EscapeChar(c)| > 1 && EscapeChar(c)[0] == '\\'
    ensures LowerChar(c) == c ==> IsLower(EscapeChar(c))
    ensures Quotes(EscapeChar(c)) == if c == '"' then 1 else 0
    ensures QuotesAreEscaped(EscapeChar(c))
    ensures forall k :: 0 <= k < |EscapeChar(c)| && EscapeChar(c)[k] == '"' ==> c == '"' && k == 1 && |EscapeChar(c)| == 2
  {
    if c == '"' {
      assert EscapeChar(c)[1..] == "\"" && Quotes("\"") == 1;
    } else {
      QuoteFreeHasNone(EscapeChar(c));
    }
  }

  lemma {:induction false} EscapeProperties(s: string)
    ensures IsPlain(s) ==> Escape(s) == s
    ensures !IsPlain(s) ==> |Escape(s)| > |s|
    ensures |Escape(s)| >= |s|
    ensures IsLower(s) ==> IsLower(Escape(s))
    ensures QuotesAreEscaped(Escape(s))
  {
    hide EscapeChar;
    if s != "" {
      EscapeProperties(s[1..]);
      assert s == [s[0]] + s[1..];
      EscapeCharProperties(s[0]);
    }
  }

  lemma {:induction false} EscapeKeepsQuotes(s: string)
    ensures Quotes(Escape(s)) == Quotes(s)
  {
    hide EscapeChar;
    if s != "" {
      EscapeKeepsQuotes(s[1..]);
      EscapeCharProperties(s[0]);
      QuotesConcat(EscapeChar(s[0]), Escape(s[1..]));
    }
  }

  lemma EscapeHead(c: char, s: string)
    ensures Escape([c] + s) == EscapeChar(c) + Escape(s)
  {
    assert ([c] + s)[1..] == s;
  }

  lemma HeadOfConcat(a: string, b: string)
    requires a != ""
    ensures a == [a[0]] + a[1..] && a + b == [a[0]] + (a[1..] + b)
  {
  }

  lemma {:induction false} EscapeConcat(a: string, b: string)
    ensures Escape(a + b) == Escape(a) + Escape(b)
  {
    assert Escape("") == "";
    hide Escape, EscapeChar;
    if a == "" {
      assert a + b == b;
    } else {
      var c, rest := a[0], a[1..];
      EscapeConcat(rest, b);
      HeadOfConcat(a, b);
      EscapeHead(c, rest + b);
      EscapeHead(c, rest);
      Regroup(EscapeChar(c), Escape(rest), Escape(b));
    }
  }

  lemma {:induction false} PlainEscapes(s: string)
    requires IsPlain(Escape(s))
    ensures IsPlain(s)
  {
    if s != "" {
      var e, rest := EscapeChar(s[0]), Escape(s[1..]);
      assert forall c :: c in e || c in rest ==> c in Escape(s);
      PlainEscapes(s[1..]);
      assert e[0] in e;
      assert s == [s[0]] + s[1..];
    }
  }

  /** What follows a quote inside a written element is written from what follows a quote of the element. */
  lemma {:induction false} AfterInnerQuote(u: string, i: nat) returns (k: nat)
    requires 0 < i <= |Escape(u)| && Escape(u)[i - 1] == '"'
    ensures k < |u| && u[k] == '"' && Escape(u)[i..] == Escape(u[k + 1..])
  {
    hide EscapeChar;
    var e, rest := EscapeChar(u[0]), Escape(u[1..]);
    EscapeCharProperties(u[0]);
    if i <= |e| {
      k := 0;
      assert Escape(u)[i..] == rest;
    } else {
      k := AfterInnerQuote(u[1..], i - |e|);
      assert Escape(u)[i..] == rest[i - |e|..] && u[1..][k + 1..] == u[k + 2..];
      k := k + 1;
    }
  }

  // ---- where the quoted tag is ----

  function Quoted(t: string): string {
    "\"" + t + "\""
  }

  /** The element is the tag, or ends in a quote and the tag. */
  predicate IsFoundIn(t: string, u: string) {
    u == t || EndsInQuoteAnd(u, t)
  }

  predicate EndsInQuoteAnd(u: string, t: string) {
    |t| < |u| && u[|u| - |t| - 1] == '"' && u[|u| - |t|..] == t
  }

  /** What the text test finds: such an element, or the separator of two. */
  predicate Finds(t: string, tags: seq<string>) {
    (exists u :: u in tags && IsFoundIn(t, u)) || (t == "," && |tags| >= 2)
  }

  /** Two beginnings of a text that end at a quote: if one is plain and the other's quotes are escaped, they
      are the same. */
  lemma PlainUpToQuote(text: string, r: string, t: string)
    requires QuotesAreEscaped(r) && IsPlain(t)
    requires r + "\"" <= text && t + "\"" <= text
    ensures r == t
  {
    assert forall k :: 0 <= k < |r| ==> text[k] == r[k];
    assert forall k :: 0 <= k < |t| ==> text[k] == t[k] && t[k] in t;
    assert text[|r|] == '"' && text[|t|] == '"';
    if |t| < |r| {
      BackslashBefore(r, |t|);
    }
  }

  lemma BackslashBefore(e: string, k: nat)
    requires QuotesAreEscaped(e) && k < |e| && e[k] == '"'
    ensures k > 0 && e[k - 1] == '\\'
  {
  }

  /** From an opening or inner quote of a written element, a plain text and a quote are the rest of it. */
  lemma NextQuoteCloses(e: string, rest: string, t: string, i: nat)
    requires QuotesAreEscaped(e) && IsPlain(t) && i <= |e|
    requires i > 0 ==> e[i - 1] == '"'
    requires OccursAt("\"" + e + "\"" + rest, Quoted(t), i)
    ensures t == e[i..]
  {
    var text, r := "\"" + e + "\"" + rest, e[i..];
    assert forall k :: 0 <= k < |r| ==> r[k] == e[i + k];
    assert text[i + 1..] == r + "\"" + rest;
    assert text[i..i + |t| + 2] == Quoted(t);
    assert text[i..i + |t| + 2][1..] == t + "\"";
    assert text[i + 1..][..|t| + 1] == t + "\"";
    PlainUpToQuote(text[i + 1..], r, t);
  }

  /** A quote that closes an element can only open the separator. */
  lemma AfterClosingQuote(text: string, i: nat, t: string)
    requires OccursAt(text, Quoted(t), i) && IsPlain(t)
    requires i + 1 < |text| ==>
      || (text[i + 1] == ']' && |text| == i + 2)
      || (text[i + 1] == ',' && i + 2 < |text| && text[i + 2] == '"')
    ensures t == "," && i + 2 < |text|
  {
    OccursChar(text, Quoted(t), i, 1);
    assert forall k :: 0 <= k < |t| ==> t[k] in t && Quoted(t)[k + 1] == t[k];
    if t != "" {
      OccursChar(text, Quoted(t), i, 2);
    }
  }

  /** A plain quoted tag is found nowhere else. */
  lemma {:induction false} FoundOnlyThere(tags: seq<string>, t: string, i: nat)
    requires IsPlain(t) && OccursAt(JsonTail(tags), Quoted(t), i)
    ensures Finds(t, tags)
  {
    hide Escape;
    if tags != [] {
      var e, rest := Escape(tags[0]), AfterElement(tags);
      var text := "\"" + e + "\"" + rest;
      assert JsonTail(tags) == text;
      EscapeProperties(tags[0]);
      OccursChar(text, Quoted(t), i, 0);
      if i <= |e| {
        NextQuoteCloses(e, rest, t, i);
        RestIsFound(tags[0], t, i);
        assert tags[0] in tags;
      } else if i == |e| + 1 {
        ClosingQuote(tags, i);
        AfterClosingQuote(text, i, t);
      } else {
        FoundLater(tags, t, i);
        FoundOnlyThere(tags[1..], t, i - |e| - 3);
        FindsMore(t, tags);
      }
    }
  }

  lemma RestIsFound(u: string, t: string, i: nat)
    requires i <= |Escape(u)| && t == Escape(u)[i..] && IsPlain(t) && (i > 0 ==> Escape(u)[i - 1] == '"')
    ensures IsFoundIn(t, u)
  {
    if i == 0 {
      PlainEscapes(u);
      EscapeProperties(u);
    } else {
      var k := AfterInnerQuote(u, i);
      PlainEscapes(u[k + 1..]);
      EscapeProperties(u[k + 1..]);
    }
  }

  /** What stands around the quote that closes the first element. */
  lemma ClosingQuote(tags: seq<string>, i: nat)
    requires tags != [] && i == |Escape(tags[0])| + 1
    ensures var text := JsonTail(tags);
      i + 1 < |text| && if |tags| == 1 then text[i + 1] == ']' && |text| == i + 2
                        else text[i + 1] == ',' && i + 2 < |text| && text[i + 2] == '"'
  {
    hide Escape;
    var head := JsonString(tags[0]);
    assert |head| == i + 1;
    if |tags| > 1 {
      assert JsonTail(tags) == head + ("," + JsonTail(tags[1..]));
      assert JsonTail(tags[1..])[0] == '"';
    }
  }

  lemma FoundLater(tags: seq<string>, t: string, i: nat)
    requires tags != [] && OccursAt(JsonTail(tags), Quoted(t), i) && i > |Escape(tags[0])| + 1
    ensures i >= |Escape(tags[0])| + 3 && OccursAt(JsonTail(tags[1..]), Quoted(t), i - |Escape(tags[0])| - 3)
  {
    hide Escape;
    var head, rest := JsonString(tags[0]), AfterElement(tags);
    assert JsonTail(tags) == head + rest;
    OccursLater(head, rest, Quoted(t), i);
    OccursChar(rest, Quoted(t), i - |head|, 0);
    if |tags| > 1 {
      OccursLater(",", JsonTail(tags[1..]), Quoted(t), i - |head|);
    }
  }

  lemma FindsMore(t: string, tags: seq<string>)
    requires tags != [] && Finds(t, tags[1..])
    ensures Finds(t, tags)
  {
  }

  lemma OccursLater(a: string, b: string, pat: string, i: nat)
    requires |a| <= i && OccursAt(a + b, pat, i)
    ensures OccursAt(b, pat, i - |a|)
  {
    assert (a + b)[i..i + |pat|] == b[i - |a|..i - |a| + |pat|];
  }

  lemma OccursAfter(a: string, b: string, pat: string, i: nat)
    requires OccursAt(b, pat, i)
    ensures OccursAt(a + b, pat, |a| + i)
  {
    assert (a + b)[|a| + i..|a| + i + |pat|] == b[i..i + |pat|];
  }

  lemma {:induction false} ElementOccurs(tags: seq<string>, k: nat) returns (i: nat)
    requires k < |tags|
    ensures OccursAt(JsonTail(tags), JsonString(tags[k]), i)
  {
    hide Escape;
    var first := JsonString(tags[0]);
    if k == 0 {
      i := 0;
      assert (first + AfterElement(tags))[0..|first|] == first;
    } else {
      var j := ElementOccurs(tags[1..], k - 1);
      i := |first + ","| + j;
      OccursAfter(first + ",", JsonTail(tags[1..]), JsonString(tags[k]), j);
      assert JsonTail(tags) == (first + ",") + JsonTail(tags[1..]);
    }
  }

  /** The end of a pattern's text occurs where the text does. */
  lemma OccursWithin(text: string, a: string, b: string, i: nat)
    requires OccursAt(text, a + b, i)
    ensures OccursAt(text, b, i + |a|)
  {
    assert text[i + |a|..i + |a| + |b|] == text[i..i + |a + b|][|a|..];
  }

  /** An element that ends in a quote and the tag is written so that it ends in the quoted written tag. */
  lemma WrittenEnd(u: string, t: string) returns (a: string)
    requires EndsInQuoteAnd(u, t)
    ensures JsonString(u) == a + Quoted(Escape(t))
  {
    hide EscapeChar, Escape;
    var n := |u| - |t| - 1;
    EscapeConcat(u[..n], "\"" + t);
    EscapeConcat("\"", t);
    QuoteIsEscaped();
    assert u == u[..n] + ("\"" + t);
    a := "\"" + Escape(u[..n]) + "\\";
  }

  /** An element that ends in a quote and the written tag holds the quoted tag. */
  lemma WrittenElementIsFound(tags: seq<string>, k: nat, t: string) returns (i: nat)
    requires k < |tags| && (tags[k] == t || EndsInQuoteAnd(tags[k], t))
    ensures OccursAt(JsonTail(tags), Quoted(Escape(t)), i)
  {
    hide Escape, JsonTail;
    i := ElementOccurs(tags, k);
    if tags[k] != t {
      var a := WrittenEnd(tags[k], t);
      OccursWithin(JsonTail(tags), a, Quoted(Escape(t)), i);
      i := i + |a|;
    }
  }

  lemma QuoteIsEscaped()
    ensures Escape("\"") == "\\\""
  {
  }

  /** The separator of two elements. */
  lemma SeparatorIsFound(tags: seq<string>) returns (i: nat)
    requires |tags| >= 2
    ensures OccursAt(JsonTail(tags), Quoted(","), i)
  {
    hide Escape;
    i := |Escape(tags[0])| + 1;
    ClosingQuote(tags, i);
    var text := JsonTail(tags);
    assert text[i] == '"' && text[i..i + 3] == Quoted(",");
  }

  lemma {:induction false} JsonTailIsLower(tags: seq<string>)
    requires forall u :: u in tags ==> IsLower(u)
    ensures IsLower(JsonTail(tags))
  {
    hide Escape;
    if tags != [] {
      EscapeProperties(tags[0]);
      assert IsLower(JsonString(tags[0]));
      JsonTailIsLower(tags[1..]);
      assert IsLower(AfterElement(tags));
    }
  }

  lemma LowerIsFixed(s: string)
    ensures IsLower(ToLower(s))
    ensures IsLower(s) ==> ToLower(s) == s
  {
  }

  // ---- the filter ----

  predicate AreLower(tags: seq<string>) {
    forall u :: u in tags ==> IsLower(u)
  }

  /** Without wildcards, the text test looks for the quoted tag behind the opening bracket. */
  lemma TestFindsQuoted(tag: string, tags: seq<string>)
    requires IsLiteral(ToLower(tag)) && AreLower(tags)
    ensures TagMatches(tag, tags) <==> exists i :: OccursAt(JsonTail(tags), Quoted(ToLower(tag)), i)
  {
    hide Like, JsonTail;
    var pat, text := Quoted(ToLower(tag)), JsonArray(tags);
    assert TagPattern(tag) == "%" + pat + "%";
    LowerIsFixed(tag);
    assert IsLower(pat) && IsLiteral(pat);
    LikeSubstring(pat, text);
    JsonTailIsLower(tags);
    assert text[1..] == JsonTail(tags) && text[0] == '[';
    LowerIsFixed(text);
    LowerIsFixed(pat);
    OccursHereOrLater(text, pat);
  }

  /** A tag without wildcards and without characters that JSON rewrites. */
  predicate IsSimple(t: string) {
    IsLiteral(t) && IsPlain(t)
  }

  /** For a simple tag the test finds the tag itself, any tag that ends in a quote and it, and the separator. */
  lemma SimpleTagFinds(tag: string, tags: seq<string>)
    requires IsSimple(ToLower(tag)) && AreLower(tags)
    ensures TagMatches(tag, tags) <==> Finds(ToLower(tag), tags)
  {
    hide JsonTail, TagMatches, Escape;
    var t := ToLower(tag);
    TestFindsQuoted(tag, tags);
    EscapeProperties(t);
    if i :| OccursAt(JsonTail(tags), Quoted(t), i) {
      FoundOnlyThere(tags, t, i);
    }
    if Finds(t, tags) {
      PlainTagIsFound(tag, tags);
    }
  }

  /** The test is membership for a simple tag and a list if and only if the tag is in the list or nothing else
      in it is found. */
  lemma SimpleTagIsExactIff(tag: string, tags: seq<string>)
    requires IsSimple(ToLower(tag)) && AreLower(tags)
    ensures (TagMatches(tag, tags) <==> ToLower(tag) in tags) <==>
      || ToLower(tag) in tags
      || !((exists u :: u in tags && EndsInQuoteAnd(u, ToLower(tag))) || (ToLower(tag) == "," && |tags| >= 2))
  {
    SimpleTagFinds(tag, tags);
  }

  // ---- tags that are not simple ----

  /** A tag with a character that JSON rewrites, but without wildcards, is not even found where it is. */
  lemma RewrittenTagMissesItself(tag: string)
    requires IsLiteral(ToLower(tag)) && !IsPlain(ToLower(tag))
    ensures !TagMatches(tag, [ToLower(tag)])
  {
    hide JsonTail, TagMatches, Escape;
    var t := ToLower(tag);
    LowerIsFixed(tag);
    TestFindsQuoted(tag, [t]);
    EscapeProperties(t);
    EscapeKeepsQuotes(t);
    var e := Escape(t);
    SingleText(t);
    if i :| OccursAt(Quoted(e) + "]", Quoted(t), i) {
      QuotesPinDown(e, t, i);
    }
  }

  lemma SingleText(u: string)
    ensures JsonTail([u]) == Quoted(Escape(u)) + "]"
  {
  }

  lemma QuotedCount(t: string)
    ensures Quotes(Quoted(t)) == Quotes(t) + 2
  {
    assert Quotes("\"") == 1;
    QuotesConcat("\"", t);
    QuotesConcat("\"" + t, "\"");
  }

  lemma AroundOccurrence(text: string, pat: string, i: nat)
    requires OccursAt(text, pat, i)
    ensures text == text[..i] + pat + text[i + |pat|..]
  {
  }

  lemma NoQuotesAround(a: string, pat: string, b: string)
    requires Quotes(a + pat + b) == Quotes(pat)
    ensures Quotes(a) == 0 && Quotes(b) == 0
  {
    QuotesConcat(a, pat);
    QuotesConcat(a + pat, b);
  }

  /** A text that opens with a quote and ends in a quote and a bracket only has a quoted text with all its
      quotes from one end to the other. */
  lemma AllQuotesInside(text: string, i: nat, n: nat)
    requires |text| > 2 && text[0] == '"' && text[|text| - 2] == '"' && text[|text| - 1] != '"'
    requires 0 < n <= |text| - i && text[i + n - 1] == '"'
    requires Quotes(text[..i]) == 0 && Quotes(text[i + n..]) == 0
    ensures i == 0 && n == |text| - 1
  {
    hide Quotes;
    if i > 0 {
      NoQuotes(text[..i], 0);
    } else if i + n < |text| - 1 {
      NoQuotes(text[i + n..], |text| - 2 - i - n);
    }
  }

  /** With equally many quotes in both, the quoted texts can only coincide. */
  lemma QuotesPinDown(e: string, t: string, i: nat)
    requires Quotes(e) == Quotes(t) && OccursAt(Quoted(e) + "]", Quoted(t), i)
    ensures |e| == |t|
  {
    hide Quotes;
    var text, pat := Quoted(e) + "]", Quoted(t);
    var a, b := text[..i], text[i + |pat|..];
    AroundOccurrence(text, pat, i);
    QuoteFreeHasNone("]");
    QuotedCount(e);
    QuotedCount(t);
    QuotesConcat(Quoted(e), "]");
    NoQuotesAround(a, pat, b);
    AllQuotesInside(text, i, |pat|);
  }

  /** For every other tag some one-element list of lower-case tags shows that the test is not membership. */
  lemma OtherTagErrs(tag: string) returns (u: string)
    requires !IsSimple(ToLower(tag))
    ensures IsLower(u) && |u| == |tag| && (IsTrimmed(ToLower(tag)) ==> IsTrimmed(u))
    ensures TagMatches(tag, [u]) != (u == ToLower(tag))
  {
    hide TagMatches;
    var t := ToLower(tag);
    LowerIsFixed(tag);
    u := t;
    if TagMatches(tag, [t]) {
      if IsLiteral(t) {
        RewrittenTagMissesItself(tag);
      } else {
        var k :| 0 <= k < |t| && IsWildcard(t[k]);
        u := t[k := 'x'];
        WildcardStandsForAny(tag, t, k, 'x');
      }
    }
  }

  /** If a tag finds an element with a wildcard character in it, it finds the element with another one there. */
  lemma WildcardStandsForAny(tag: string, u: string, k: nat, d: char)
    requires TagMatches(tag, [u]) && k < |u| && IsWildcard(u[k]) && !IsEscaped(d)
    ensures TagMatches(tag, [u[k := d]])
  {
    hide Like, Escape;
    var a, c, b := u[..k], [u[k]], u[k + 1..];
    var v := u[k := d];
    assert u == a + (c + b) && v == a + ([d] + b);
    EscapeConcat(a, c + b);
    EscapeConcat(c, b);
    EscapeConcat(a, [d] + b);
    EscapeConcat([d], b);
    OneCharacter(u[k]);
    OneCharacter(d);
    SingleText(u);
    SingleText(v);
    var n := |Escape(a)| + 2;
    assert JsonArray([u])[n] == u[k];
    assert JsonArray([v]) == JsonArray([u])[n := d];
    LikeAfterReplacing(TagPattern(tag), JsonArray([u]), n, d);
  }

  lemma OneCharacter(c: char)
    requires !IsEscaped(c)
    ensures Escape([c]) == [c]
  {
  }

  /** What SimpleTagFinds says of a tag holds of all lists of lower-case tags exactly if the tag is simple. */
  lemma TestIsPredictableIff(tag: string)
    ensures IsSimple(ToLower(tag)) <==>
      forall tags :: AreLower(tags) ==> (TagMatches(tag, tags) <==> Finds(ToLower(tag), tags))
  {
    hide TagMatches;
    if IsSimple(ToLower(tag)) {
      forall tags | AreLower(tags)
        ensures TagMatches(tag, tags) <==> Finds(ToLower(tag), tags)
      {
        SimpleTagFinds(tag, tags);
      }
    } else {
      var u := OtherTagErrs(tag);
      assert AreLower([u]) && u in [u];
    }
  }

  // ---- tags with wildcards ----

  lemma PlainTagOccurs(t: string, tags: seq<string>) returns (i: nat)
    requires IsPlain(t) && Finds(t, tags)
    ensures OccursAt(JsonTail(tags), Quoted(t), i)
  {
    hide JsonTail, Escape;
    EscapeProperties(t);
    if u :| u in tags && IsFoundIn(t, u) {
      var k :| 0 <= k < |tags| && tags[k] == u;
      i := WrittenElementIsFound(tags, k, t);
    } else {
      i := SeparatorIsFound(tags);
    }
  }

  /** A tag in which JSON rewrites nothing is found where SimpleTagFinds says, with wildcards too. */
  lemma PlainTagIsFound(tag: string, tags: seq<string>)
    requires IsPlain(ToLower(tag)) && Finds(ToLower(tag), tags)
    ensures TagMatches(tag, tags)
  {
    hide JsonTail, Like, IsPlain, Finds;
    var t := ToLower(tag);
    var i := PlainTagOccurs(t, tags);
    OccursAfter("[", JsonTail(tags), Quoted(t), i);
    LikeWhereWritten(Quoted(t), JsonArray(tags), 1 + i);
    assert TagPattern(tag) == "%" + Quoted(t) + "%";
  }

  /** And its wildcards find other tags: any with another character in a wildcard's place. */
  lemma WildcardFindsNeighbours(tag: string, k: nat, c: char)
    requires IsPlain(ToLower(tag)) && k < |tag| && IsWildcard(ToLower(tag)[k])
    requires LowerChar(c) == c && !IsEscaped(c)
    ensures var u := ToLower(tag)[k := c];
      TagMatches(tag, [u]) && IsLower(u) && (c != ToLower(tag)[k] ==> u != ToLower(tag))
    ensures var u := ToLower(tag)[k := c];
      IsTrimmed(ToLower(tag)) && !IsSpace(c) ==> IsTrimmed(u)
  {
    hide TagMatches;
    var t := ToLower(tag);
    LowerIsFixed(tag);
    assert t in [t];
    PlainTagIsFound(tag, [t]);
    WildcardStandsForAny(tag, t, k, c);
    assert t[k := c][k] == c;
  }

  /** The filter `api_key` returns a note whose only tag is `api-key`. */
  lemma ApiKeyFindsAnotherTag()
    ensures TagMatches("api_key", ["api_key"]) && TagMatches("api_key", ["api-key"])
  {
    hide TagMatches;
    assert ToLower("api_key") == "api_key" && "api_key" in ["api_key"];
    assert "api_key"[3 := '-'] == "api-key";
    PlainTagIsFound("api_key", ["api_key"]);
    WildcardFindsNeighbours("api_key", 3, '-');
  }

  // ---- the tags that are exact on stored lists ----

  /** The tags of a stored note. */
  predicate AreStored(tags: seq<string>) {
    forall u :: u in tags ==> IsTrimmed(u) && IsLower(u)
  }

  predicate EndsInSpace(t: string) {
    t != "" && IsSpace(t[|t| - 1])
  }

  /** No quote follows a space. */
  predicate HasNoSpaceBeforeQuote(s: string) {
    forall i :: 0 < i < |s| && s[i] == '"' ==> !IsSpace(s[i - 1])
  }

  lemma {:induction false} WrittenEndsInNoSpace(u: string)
    requires u != "" && IsTrimmed(u)
    ensures Escape(u) != "" && !EndsInSpace(Escape(u))
  {
    var n := |u| - 1;
    EscapeConcat(u[..n], u[n..]);
    assert u == u[..n] + u[n..] && u[n..] == [u[n]] && u[n..][1..] == "";
    assert Escape(u[n..]) == EscapeChar(u[n]);
    EscapedEndsInNoSpace(u[n]);
  }

  lemma EscapedEndsInNoSpace(c: char)
    requires !IsSpace(c)
    ensures EscapeChar(c) != "" && !EndsInSpace(EscapeChar(c))
  {
  }

  lemma QuotedElementHasNone(u: string)
    requires IsTrimmed(u)
    ensures HasNoSpaceBeforeQuote(JsonString(u))
  {
    hide Escape, IsSpace;
    var e, s := Escape(u), JsonString(u);
    EscapeProperties(u);
    NoSpaces();
    if u != "" {
      WrittenEndsInNoSpace(u);
    } else {
      NothingToEscape();
    }
    forall i | 0 < i < |s| && s[i] == '"'
      ensures !IsSpace(s[i - 1])
    {
      if i <= |e| {
        assert s[i] == e[i - 1];
        BackslashBefore(e, i - 1);
        assert s[i - 1] == e[i - 2];
      } else if |e| > 0 {
        assert s[i - 1] == e[|e| - 1];
      }
    }
  }

  lemma NothingToEscape()
    ensures Escape("") == ""
  {
  }

  lemma NoSpaces()
    ensures forall c :: c == '"' || c == '\\' || c == ',' || c == '[' || c == ']' ==> !IsSpace(c)
  {
  }

  lemma ConcatHasNone(a: string, b: string)
    requires HasNoSpaceBeforeQuote(a) && HasNoSpaceBeforeQuote(b) && a != "" && !EndsInSpace(a)
    ensures HasNoSpaceBeforeQuote(a + b)
  {
    hide IsSpace;
    var s := a + b;
    forall i | 0 < i < |s| && s[i] == '"'
      ensures !IsSpace(s[i - 1])
    {
      if i > |a| {
        assert s[i] == b[i - |a|] && s[i - 1] == b[i - 1 - |a|];
      }
    }
  }

  lemma {:induction false} StoredTailHasNone(tags: seq<string>)
    requires AreStored(tags)
    ensures HasNoSpaceBeforeQuote(JsonTail(tags))
  {
    hide Escape, IsSpace, HasNoSpaceBeforeQuote;
    NoSpaces();
    ShortHasNone("]");
    if tags != [] {
      QuotedElementHasNone(tags[0]);
      if |tags| > 1 {
        StoredTailHasNone(tags[1..]);
        ShortHasNone(",");
        ConcatHasNone(",", JsonTail(tags[1..]));
      }
      ConcatHasNone(JsonString(tags[0]), AfterElement(tags));
    }
  }

  lemma ShortHasNone(s: string)
    requires |s| == 1
    ensures HasNoSpaceBeforeQuote(s)
  {
  }

  /** A filter tag that ends in a space finds nothing, for the test does not trim it. */
  lemma SpacedTagFindsNothing(tag: string, tags: seq<string>)
    requires EndsInSpace(ToLower(tag)) && AreStored(tags)
    ensures !TagMatches(tag, tags) && ToLower(tag) !in tags
  {
    hide Like, JsonTail, IsSpace, Escape;
    var t, text := ToLower(tag), JsonArray(tags);
    var n := |t| - 1;
    StoredTailHasNone(tags);
    NoSpaces();
    SpacesHaveNoCase();
    ShortHasNone("[");
    ConcatHasNone("[", JsonTail(tags));
    if TagMatches(tag, tags) {
      assert TagPattern(tag) == ("%\"" + t[..n]) + [t[n], '"'] + "%";
      LikeHasPair("%\"" + t[..n], t[n], '"', "%", text);
    }
  }

  lemma SpacesHaveNoCase()
    ensures HasNoCase('"') && forall c :: IsSpace(c) ==> HasNoCase(c)
  {
  }

  /** A stored tag in which the given one follows a quote. */
  lemma QuoteInFront(t: string) returns (u: string)
    requires IsLower(t) && !EndsInSpace(t)
    ensures EndsInQuoteAnd(u, t) && IsLower(u) && IsTrimmed(u) && Finds(t, [u])
  {
    hide IsSpace;
    u := "a\"" + t;
    LettersAreNoSpace();
    assert u[2..] == t;
    assert u in [u];
  }

  lemma LettersAreNoSpace()
    ensures !IsSpace('a') && !IsSpace('"')
  {
  }

  /** For every other tag that is trimmed, or in which JSON rewrites nothing, there is a stored list on which the
      test is not membership. */
  lemma OtherwiseSomeListErrs(tag: string) returns (tags: seq<string>)
    requires !EndsInSpace(ToLower(tag)) && (IsTrimmed(ToLower(tag)) || IsPlain(ToLower(tag)))
    ensures AreStored(tags) && |tags| == 1 && TagMatches(tag, tags) != (ToLower(tag) in tags)
  {
    hide TagMatches, IsSpace;
    var t := ToLower(tag);
    LowerIsFixed(tag);
    var u: string;
    if IsPlain(t) {
      u := QuoteInFront(t);
      PlainTagIsFound(tag, [u]);
    } else {
      u := OtherTagErrs(tag);
    }
    tags := [u];
  }

  /** The test is membership on all stored lists if and only if the tag ends in a space, and so finds nothing. */
  lemma TagIsExactIff(tag: string)
    requires IsTrimmed(ToLower(tag)) || IsPlain(ToLower(tag)) || EndsInSpace(ToLower(tag))
    ensures (forall tags :: AreStored(tags) ==> (TagMatches(tag, tags) <==> ToLower(tag) in tags)) <==>
      EndsInSpace(ToLower(tag))
  {
    hide TagMatches, IsSpace;
    if EndsInSpace(ToLower(tag)) {
      forall tags | AreStored(tags)
        ensures TagMatches(tag, tags) <==> ToLower(tag) in tags
      {
        SpacedTagFindsNothing(tag, tags);
      }
    } else {
      var tags := OtherwiseSomeListErrs(tag);
    }
  }

  /** The filter `go` returns a note whose only tag is `a"go`. */
  lemma GoFindsAnotherTag()
    ensures IsSimple("go") && TagMatches("go", ["a\"go"]) && "go" !in ["a\"go"]
  {
    hide TagMatches;
    assert ToLower("go") == "go";
    assert EndsInQuoteAnd("a\"go", "go") && "a\"go" in ["a\"go"];
    SimpleTagFinds("go", ["a\"go"]);
  }
}
