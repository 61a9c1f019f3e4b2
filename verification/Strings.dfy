/** The string operations of Go's `strings` package and SQLite's default text order. */
module Strings {

  /** SQLite's BINARY collation: the first difference decides, and a proper prefix comes first. */
  predicate Less(a: string, b: string) {
    if a == [] || b == [] then a == [] && b != []
    else if a[0] != b[0] then a[0] < b[0]
    else Less(a[1..], b[1..])
  }

  predicate AtMost(a: string, b: string) {
    a == b || Less(a, b)
  }

  lemma {:induction false} LessIsTotal(a: string, b: string)
    ensures !(Less(a, b) && Less(b, a))
    ensures a == b <==> !Less(a, b) && !Less(b, a)
  {
    if a != [] && b != [] && a[0] == b[0] {
      LessIsTotal(a[1..], b[1..]);
      assert a == [a[0]] + a[1..] && b == [b[0]] + b[1..];
    }
  }

  lemma {:induction false} LessIsTransitive(a: string, b: string, c: string)
    requires Less(a, b) && Less(b, c)
    ensures Less(a, c)
  {
    if a != [] && a[0] == b[0] == c[0] {
      LessIsTransitive(a[1..], b[1..], c[1..]);
    }
  }

  lemma AtMostIsTotalOrder(a: string, b: string, c: string)
    ensures AtMost(a, b) || AtMost(b, a)
    ensures AtMost(a, b) && AtMost(b, a) ==> a == b
    ensures AtMost(a, b) && AtMost(b, c) ==> AtMost(a, c)
  {
    LessIsTotal(a, b);
    if Less(a, b) && Less(b, c) {
      LessIsTransitive(a, b, c);
    }
  }

  /** A common prefix does not take part in the comparison. */
  lemma {:induction false} LessAfterPrefix(p: string, a: string, b: string)
    ensures Less(p + a, p + b) == Less(a, b)
  {
    if p == [] {
      assert p + a == a && p + b == b;
    } else {
      LessAfterPrefix(p[1..], a, b);
      assert (p + a)[1..] == p[1..] + a && (p + b)[1..] == p[1..] + b;
    }
  }

  /** Columns of equal width decide before anything that follows them. */
  lemma {:induction false} LessByColumn(p: string, q: string, a: string, b: string)
    requires |p| == |q|
    ensures Less(p + a, q + b) == if p == q then Less(a, b) else Less(p, q)
  {
    if p == q {
      LessAfterPrefix(p, a, b);
    } else {
      assert (p + a)[0] == p[0] && (q + b)[0] == q[0];
      if p[0] == q[0] {
        assert p == [p[0]] + p[1..] && q == [q[0]] + q[1..];
        LessByColumn(p[1..], q[1..], a, b);
        assert (p + a)[1..] == p[1..] + a && (q + b)[1..] == q[1..] + b;
      }
    }
  }

  /** Go's `unicode.IsSpace`. */
  predicate IsSpace(c: char) {
    || '\t' <= c <= '\r' || c == ' ' || c == '\U{85}' || c == '\U{A0}' || c == '\U{1680}'
    || '\U{2000}' <= c <= '\U{200A}' || c == '\U{2028}' || c == '\U{2029}' || c == '\U{202F}' || c == '\U{205F}'
    || c == '\U{3000}'
  }

  function TrimLeft(s: string): (r: string)
    ensures |r| <= |s|
    ensures r == s[|s| - |r|..]
    ensures r != [] ==> !IsSpace(r[0])
  {
    if s != [] && IsSpace(s[0]) then TrimLeft(s[1..]) else s
  }

  function TrimRight(s: string): (r: string)
    ensures r <= s
    ensures r != [] ==> !IsSpace(r[|r| - 1])
  {
    if s != [] && IsSpace(s[|s| - 1]) then TrimRight(s[..|s| - 1]) else s
  }

  function TrimSpace(s: string): string {
    TrimRight(TrimLeft(s))
  }

  /** No space at either end. */
  predicate IsTrimmed(s: string) {
    s != "" ==> !IsSpace(s[0]) && !IsSpace(s[|s| - 1])
  }

  /** TrimSpace trims, and leaves exactly the trimmed strings unchanged. */
  lemma TrimSpaceTrims(s: string)
    ensures IsTrimmed(TrimSpace(s))
    ensures IsTrimmed(s) <==> TrimSpace(s) == s
  {
    var l := TrimLeft(s);
    var r := TrimRight(l);
    if r != "" {
      assert r[0] == l[0];
    }
  }

  predicate IsBlank(s: string) {
    forall i :: 0 <= i < |s| ==> IsSpace(s[i])
  }

  lemma {:induction false} TrimLeftRemovesSpace(s: string)
    ensures IsBlank(s[..|s| - |TrimLeft(s)|])
  {
    if s != "" && IsSpace(s[0]) {
      TrimLeftRemovesSpace(s[1..]);
      var n := |s| - |TrimLeft(s)|;
      assert s[..n] == [s[0]] + s[1..][..n - 1];
    }
  }

  lemma {:induction false} TrimRightRemovesSpace(s: string)
    ensures IsBlank(s[|TrimRight(s)|..])
  {
    if s != "" && IsSpace(s[|s| - 1]) {
      TrimRightRemovesSpace(s[..|s| - 1]);
      var n := |TrimRight(s)|;
      assert s[n..] == s[..|s| - 1][n..] + [s[|s| - 1]];
    }
  }

  /** TrimSpace removes space from both ends and nothing else. */
  lemma TrimSpaceRemovesOnlySpace(s: string) returns (left: string, right: string)
    ensures s == left + TrimSpace(s) + right && IsBlank(left) && IsBlank(right)
    ensures TrimSpace(s) == "" <==> IsBlank(s)
  {
    hide IsSpace, TrimLeft, TrimRight;
    var l := TrimLeft(s);
    var r := TrimRight(l);
    TrimLeftRemovesSpace(s);
    TrimRightRemovesSpace(l);
    left, right := s[..|s| - |l|], l[|r|..];
    if r != "" {
      assert s[|left| + |r| - 1] == r[|r| - 1];
    }
  }

  lemma {:induction false} TrimRightKeepsText(s: string)
    requires s != "" && !IsSpace(s[0])
    ensures TrimRight(s) != ""
  {
    if IsSpace(s[|s| - 1]) {
      TrimRightKeepsText(s[..|s| - 1]);
    }
  }

  lemma TrimSpaceKeepsText(s: string)
    requires s != "" && !IsSpace(s[0])
    ensures TrimSpace(s) != ""
  {
    assert TrimLeft(s) == s;
    TrimRightKeepsText(s);
  }

  /** Trimming takes nothing of a trimmed text that something was appended to. */
  lemma TrimSpaceKeepsPrefix(a: string, b: string)
    requires a != "" && IsTrimmed(a)
    ensures a <= TrimSpace(a + b)
  {
    assert (a + b)[0] == a[0];
    assert TrimLeft(a + b) == a + b;
    TrimRightKeepsPrefix(a, b);
  }

  lemma {:induction false} TrimRightKeepsPrefix(a: string, b: string)
    requires a != "" && !IsSpace(a[|a| - 1])
    ensures a <= TrimRight(a + b)
  {
    if b == "" {
      assert a + b == a;
    } else if IsSpace(b[|b| - 1]) {
      assert (a + b)[..|a + b| - 1] == a + b[..|b| - 1];
      TrimRightKeepsPrefix(a, b[..|b| - 1]);
    }
  }

  /** A text cut to 200 characters. */
  function Clip(s: string): string {
    if |s| > 200 then s[..200] + "…" else s
  }

  /** `strings.ToLower` on ASCII letters; every other character is kept. */
  function LowerChar(c: char): char {
    if 'A' <= c <= 'Z' then (c as int + 32) as char else c
  }

  function ToLower(s: string): string {
    seq(|s|, i requires 0 <= i < |s| => LowerChar(s[i]))
  }

  predicate IsLower(s: string) {
    forall i :: 0 <= i < |s| ==> LowerChar(s[i]) == s[i]
  }

  /** `pat` occurs in `s` at position `i`. */
  predicate OccursAt(s: string, pat: string, i: int) {
    0 <= i && i + |pat| <= |s| && s[i..i + |pat|] == pat
  }

  lemma OccursChar(text: string, pat: string, i: nat, k: nat)
    requires OccursAt(text, pat, i) && k < |pat|
    ensures text[i + k] == pat[k]
  {
    assert text[i + k] == text[i..i + |pat|][k];
  }

  /** `strings.Index`: the first position where `pat` occurs, or -1. */
  function Index(s: string, pat: string): (r: int)
    ensures -1 <= r <= |s|
    ensures r >= 0 ==> OccursAt(s, pat, r)
    ensures forall i :: 0 <= i && (r < 0 || i < r) ==> !OccursAt(s, pat, i)
  {
    IndexFrom(s, pat, 0)
  }

  function IndexFrom(s: string, pat: string, from: nat): (r: int)
    requires from <= |s|
    ensures -1 <= r <= |s|
    ensures r >= 0 ==> from <= r && OccursAt(s, pat, r)
    ensures forall i :: from <= i && (r < 0 || i < r) ==> !OccursAt(s, pat, i)
    decreases |s| - from
  {
    if OccursAt(s, pat, from) then from
    else if from == |s| then -1
    else IndexFrom(s, pat, from + 1)
  }

  lemma Regroup(a: string, b: string, c: string)
    ensures a + (b + c) == a + b + c
  {
  }

  /** The number of bytes of a character in UTF-8. */
  function CharBytes(c: char): nat {
    var n := c as int;
    if n < 0x80 then 1 else if n < 0x800 then 2 else if n < 0x1_0000 then 3 else 4
  }

  /** Go's `len` of a string: its length in bytes. */
  function ByteLen(s: string): (n: nat)
    ensures n >= |s|
  {
    if s == [] then 0 else ByteLen(s[..|s| - 1]) + CharBytes(s[|s| - 1])
  }

  lemma {:induction false} ByteLenConcat(a: string, b: string)
    ensures ByteLen(a + b) == ByteLen(a) + ByteLen(b)
  {
    if b == [] {
      assert a + b == a;
    } else {
      ByteLenConcat(a, b[..|b| - 1]);
      assert (a + b)[..|a + b| - 1] == a + b[..|b| - 1];
    }
  }

  lemma {:induction false} ByteLenAscii(s: string)
    requires forall i :: 0 <= i < |s| ==> s[i] as int < 0x80
    ensures ByteLen(s) == |s|
  {
    if s != [] {
      ByteLenAscii(s[..|s| - 1]);
    }
  }

  // ---- UTF-8 ----

  /** The bytes of a character (RFC 3629, section 3). */
  function Utf8(c: char): seq<int> {
    var n := c as int;
    var m := n / 64;
    var l := m / 64;
    if n < 0x80 then [n]
    else if n < 0x800 then [0xC0 + m, 0x80 + n % 64]
    else if n < 0x1_0000 then [0xE0 + l, 0x80 + m % 64, 0x80 + n % 64]
    else [0xF0 + l / 64, 0x80 + l % 64, 0x80 + m % 64, 0x80 + n % 64]
  }

  function Utf8Text(s: string): seq<int> {
    if s == [] then [] else Utf8Text(s[..|s| - 1]) + Utf8(s[|s| - 1])
  }

  /** How many bytes a character takes that starts with this one. */
  function LeadLength(b: int): nat {
    if b < 0xC0 then 1 else if b < 0xE0 then 2 else if b < 0xF0 then 3 else 4
  }

  /** The number of a character from its bytes: the bits after the length mark, then six from each byte. */
  function CodeOf(b: seq<int>): int
    requires b != []
  {
    if |b| == 1 then b[0]
    else if |b| == 2 then (b[0] - 0xC0) * 64 + (b[1] - 0x80)
    else if |b| == 3 then ((b[0] - 0xE0) * 64 + (b[1] - 0x80)) * 64 + (b[2] - 0x80)
    else (((b[0] - 0xF0) * 64 + (b[1] - 0x80)) * 64 + (b[2] - 0x80)) * 64 + (b[3] - 0x80)
  }

  /** The bytes of a character read back as it, the first tells how many there are, and they are as many as
      counted. */
  lemma Utf8ReadsBack(c: char)
    ensures CodeOf(Utf8(c)) == c as int && LeadLength(Utf8(c)[0]) == |Utf8(c)| == CharBytes(c)
    ensures forall b :: b in Utf8(c) ==> 0 <= b < 256
  {
    var n := c as int;
    assert n < 0x11_0000;
  }

  /** The length of a text is the number of its bytes. */
  lemma {:induction false} ByteLenCountsBytes(s: string)
    ensures ByteLen(s) == |Utf8Text(s)|
  {
    hide Utf8, CharBytes;
    if s != [] {
      ByteLenCountsBytes(s[..|s| - 1]);
      Utf8ReadsBack(s[|s| - 1]);
    }
  }
}
