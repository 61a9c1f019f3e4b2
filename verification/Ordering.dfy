/** What `SELECT ... WHERE ... ORDER BY ... LIMIT` promises: rows that compare equal come in any order. */
module Ordering {

  ghost predicate IsTotalPreorder<T(!new)>(leq: (T, T) -> bool) {
    && (forall x, y :: leq(x, y) || leq(y, x))
    && (forall x, y, z :: leq(x, y) && leq(y, z) ==> leq(x, z))
  }

  ghost predicate IsSorted<T(!new)>(s: seq<T>, leq: (T, T) -> bool) {
    forall i, j :: 0 <= i < j < |s| ==> leq(s[i], s[j])
  }

  /** No two elements tie. */
  ghost predicate HasNoTies<T(!new)>(s: seq<T>, leq: (T, T) -> bool) {
    forall i, j :: 0 <= i < |s| && 0 <= j < |s| && i != j ==> !(leq(s[i], s[j]) && leq(s[j], s[i]))
  }

  /** `ORDER BY`: some sorted arrangement of the selected rows. */
  ghost predicate IsArrangement<T(!new)>(out: seq<T>, rows: seq<T>, leq: (T, T) -> bool) {
    multiset(out) == multiset(rows) && IsSorted(out, leq)
  }

  function Take<T(!new)>(s: seq<T>, limit: nat): seq<T> {
    if limit < |s| then s[..limit] else s
  }

  /** `ORDER BY ... LIMIT`: the first rows of some sorted arrangement. */
  ghost predicate IsPage<T(!new)>(out: seq<T>, rows: seq<T>, leq: (T, T) -> bool, limit: nat) {
    exists all :: IsArrangement(all, rows, leq) && out == Take(all, limit)
  }

  /** The rows that pass a condition, in table order. */
  function Where<T(!new)>(rows: seq<T>, cond: T -> bool): (r: seq<T>)
    ensures forall x :: x in r <==> x in rows && cond(x)
    ensures |r| <= |rows|
  {
    if rows == [] then []
    else
      var rest := Where(rows[..|rows| - 1], cond);
      assert rows == rows[..|rows| - 1] + [rows[|rows| - 1]];
      if cond(rows[|rows| - 1]) then rest + [rows[|rows| - 1]] else rest
  }

  lemma WhereAppend<T(!new)>(rows: seq<T>, x: T, cond: T -> bool)
    ensures Where(rows + [x], cond) == Where(rows, cond) + if cond(x) then [x] else []
  {
    assert (rows + [x])[..|rows|] == rows;
  }

  lemma {:induction false} WhereConcat<T(!new)>(a: seq<T>, b: seq<T>, cond: T -> bool)
    ensures Where(a + b, cond) == Where(a, cond) + Where(b, cond)
    decreases |b|, 0
  {
    if b == [] {
      assert a + b == a;
    } else {
      WhereConcatStep(a, b[..|b| - 1], b[|b| - 1], cond);
      assert b == b[..|b| - 1] + [b[|b| - 1]];
    }
  }

  lemma {:induction false} WhereConcatStep<T(!new)>(a: seq<T>, front: seq<T>, last: T, cond: T -> bool)
    ensures Where(a + (front + [last]), cond) == Where(a, cond) + Where(front + [last], cond)
    decreases |front|, 1
  {
    hide Where;
    WhereConcat(a, front, cond);
    WhereAppend(a + front, last, cond);
    WhereAppend(front, last, cond);
    assert a + (front + [last]) == (a + front) + [last];
  }

  /** Conditions that agree on the rows select the same. */
  lemma {:induction false} WhereSame<T(!new)>(rows: seq<T>, a: T -> bool, b: T -> bool)
    requires forall x :: x in rows ==> a(x) == b(x)
    ensures Where(rows, a) == Where(rows, b)
  {
    if rows != [] {
      WhereSame(rows[..|rows| - 1], a, b);
    }
  }

  /** A selection that leaves out no row is the whole table. */
  lemma {:induction false} WhereAll<T(!new)>(rows: seq<T>, cond: T -> bool)
    requires |Where(rows, cond)| == |rows|
    ensures Where(rows, cond) == rows
  {
    if rows != [] {
      assert rows == rows[..|rows| - 1] + [rows[|rows| - 1]];
      WhereAll(rows[..|rows| - 1], cond);
    }
  }

  /** How often a row is selected. */
  lemma {:induction false} WhereCount<T(!new)>(rows: seq<T>, cond: T -> bool, x: T)
    ensures multiset(Where(rows, cond))[x] == if cond(x) then multiset(rows)[x] else 0
  {
    if rows != [] {
      WhereCount(rows[..|rows| - 1], cond, x);
      assert rows == rows[..|rows| - 1] + [rows[|rows| - 1]];
    }
  }

  /** A selection depends only on which rows there are, not on where they stand. */
  lemma WhereOfSameRows<T(!new)>(a: seq<T>, b: seq<T>, cond: T -> bool)
    requires multiset(a) == multiset(b)
    ensures multiset(Where(a, cond)) == multiset(Where(b, cond))
  {
    forall x
      ensures multiset(Where(a, cond))[x] == multiset(Where(b, cond))[x]
    {
      WhereCount(a, cond, x);
      WhereCount(b, cond, x);
    }
  }

  /** Selecting within a coarser selection loses nothing. */
  lemma {:induction false} WhereWithin<T(!new)>(rows: seq<T>, coarse: T -> bool, fine: T -> bool)
    requires forall x :: x in rows && fine(x) ==> coarse(x)
    ensures Where(Where(rows, coarse), fine) == Where(rows, fine)
  {
    if rows != [] {
      var last := rows[|rows| - 1];
      WhereWithin(rows[..|rows| - 1], coarse, fine);
      WhereAppend(Where(rows[..|rows| - 1], coarse), last, fine);
    }
  }

  /** Two sorted arrangements without ties end in the same row. */
  lemma SameLast<T(!new)>(a: seq<T>, b: seq<T>, leq: (T, T) -> bool)
    requires a != [] && |a| == |b| && multiset(a) == multiset(b)
    requires IsSorted(a, leq) && IsSorted(b, leq) && HasNoTies(a, leq)
    ensures a[|a| - 1] == b[|b| - 1]
  {
    var n := |a| - 1;
    var x, y := a[n], b[n];
    assert y in multiset(b) && x in multiset(a);
    var i :| 0 <= i < |a| && a[i] == y;
    var j :| 0 <= j < |b| && b[j] == x;
    assert i == n || (leq(y, x) && (j == n || leq(x, y)));
  }

  lemma WithoutLast<T(!new)>(a: seq<T>)
    requires a != []
    ensures multiset(a[..|a| - 1]) == multiset(a) - multiset{a[|a| - 1]}
  {
    assert a == a[..|a| - 1] + [a[|a| - 1]];
  }

  lemma SameSize<T(!new)>(a: seq<T>, b: seq<T>)
    requires multiset(a) == multiset(b)
    ensures |a| == |b|
  {
    assert |a| == |multiset(a)| == |multiset(b)| == |b|;
  }

  /** Without ties there is exactly one sorted arrangement. */
  lemma {:induction false} ArrangementIsUnique<T(!new)>(a: seq<T>, b: seq<T>, leq: (T, T) -> bool)
    requires multiset(a) == multiset(b)
    requires IsSorted(a, leq) && IsSorted(b, leq) && HasNoTies(a, leq)
    ensures a == b
  {
    SameSize(a, b);
    if a != [] {
      var n := |a| - 1;
      SameLast(a, b, leq);
      WithoutLast(a);
      WithoutLast(b);
      ArrangementIsUnique(a[..n], b[..n], leq);
      assert a == a[..n] + [a[n]] && b == b[..n] + [b[n]];
    }
  }

  lemma {:induction false} NoTiesInArrangement<T(!new)>(a: seq<T>, rows: seq<T>, leq: (T, T) -> bool)
    requires multiset(a) == multiset(rows) && HasNoTies(rows, leq)
    ensures HasNoTies(a, leq)
  {
    forall i, j | 0 <= i < |a| && 0 <= j < |a| && i != j
      ensures !(leq(a[i], a[j]) && leq(a[j], a[i]))
    {
      var x, y := a[i], a[j];
      assert x in multiset(rows) && y in multiset(rows);
      if x != y {
        var k :| 0 <= k < |rows| && rows[k] == x;
        var l :| 0 <= l < |rows| && rows[l] == y;
        assert k != l;
      } else {
        TwiceInSequence(a, i, j);
        var k, l := FindTwice(rows, x);
      }
    }
  }

  /** Leaving rows out makes no ties. */
  lemma {:induction false} NoTiesInSelection<T(!new)>(rows: seq<T>, cond: T -> bool, leq: (T, T) -> bool)
    requires HasNoTies(rows, leq)
    ensures HasNoTies(Where(rows, cond), leq)
  {
    if rows != [] {
      var front, last := rows[..|rows| - 1], rows[|rows| - 1];
      NoTiesInSelection(front, cond, leq);
      forall x | x in front
        ensures !(leq(x, last) && leq(last, x))
      {
        var i :| 0 <= i < |front| && front[i] == x;
        assert rows[i] == x;
      }
      OneMoreWithoutTies(Where(front, cond), last, leq);
    }
  }

  lemma OneMoreWithoutTies<T(!new)>(s: seq<T>, x: T, leq: (T, T) -> bool)
    requires HasNoTies(s, leq)
    requires forall y :: y in s ==> !(leq(y, x) && leq(x, y))
    ensures HasNoTies(s + [x], leq)
  {
    forall i, j | 0 <= i <= |s| && 0 <= j <= |s| && i != j
      ensures !(leq((s + [x])[i], (s + [x])[j]) && leq((s + [x])[j], (s + [x])[i]))
    {
      if i == |s| {
        assert s[j] in s;
      } else if j == |s| {
        assert s[i] in s;
      }
    }
  }

  lemma TwiceInSequence<T(!new)>(a: seq<T>, i: nat, j: nat)
    requires i < |a| && j < |a| && i != j && a[i] == a[j]
    ensures multiset(a)[a[i]] >= 2
  {
    var k, l := if i < j then i else j, if i < j then j else i;
    assert a == a[..l] + ([a[l]] + a[l + 1..]);
    assert a[k] in a[..l];
  }

  lemma {:induction false} FindTwice<T(!new)>(a: seq<T>, x: T) returns (k: nat, l: nat)
    requires multiset(a)[x] >= 2
    ensures k < |a| && l < |a| && k != l && a[k] == x && a[l] == x
  {
    assert a == a[..|a| - 1] + [a[|a| - 1]];
    if a[|a| - 1] == x {
      assert x in a[..|a| - 1];
      k :| 0 <= k < |a| - 1 && a[k] == x;
      l := |a| - 1;
    } else {
      k, l := FindTwice(a[..|a| - 1], x);
    }
  }

  /** Two tables with the same rows and no ties give the same page. */
  lemma PageIsDetermined<T(!new)>(p: seq<T>, q: seq<T>, a: seq<T>, b: seq<T>, leq: (T, T) -> bool, limit: nat)
    requires multiset(a) == multiset(b) && HasNoTies(a, leq)
    requires IsPage(p, a, leq, limit) && IsPage(q, b, leq, limit)
    ensures p == q
  {
    var s :| IsArrangement(s, a, leq) && p == Take(s, limit);
    var t :| IsArrangement(t, b, leq) && q == Take(t, limit);
    NoTiesInArrangement(s, a, leq);
    ArrangementIsUnique(s, t, leq);
  }

  /** A whole page contains every selected row and nothing else. */
  lemma PageRows<T(!new)>(p: seq<T>, rows: seq<T>, leq: (T, T) -> bool, limit: nat)
    requires IsPage(p, rows, leq, limit)
    ensures forall x :: x in p ==> x in rows
    ensures |p| == if limit < |rows| then limit else |rows|
    ensures |rows| <= limit ==> multiset(p) == multiset(rows)
  {
    var s :| IsArrangement(s, rows, leq) && p == Take(s, limit);
    assert |s| == |multiset(s)| == |multiset(rows)| == |rows|;
    forall x | x in p
      ensures x in rows
    {
      assert x in multiset(s);
    }
  }

  lemma SameElements<T(!new)>(p: seq<T>, rows: seq<T>)
    requires multiset(p) == multiset(rows)
    ensures forall y :: y in rows ==> y in p
  {
    forall y | y in rows
      ensures y in p
    {
      assert y in multiset(rows);
      assert y in multiset(p);
    }
  }

  /** A page is sorted, and every selected row that is left out comes after every row on it. */
  lemma PageIsFirst<T(!new)>(p: seq<T>, rows: seq<T>, leq: (T, T) -> bool, limit: nat)
    requires IsPage(p, rows, leq, limit)
    ensures IsSorted(p, leq)
    ensures forall x, y :: x in p && y in rows && y !in p ==> leq(x, y)
    ensures forall x :: x in p ==> x in rows
    ensures forall y :: y in rows && y !in p ==> |p| == limit
    ensures |p| <= limit
  {
    PageRows(p, rows, leq, limit);
    if |rows| <= limit {
      SameElements(p, rows);
    }
    var s :| IsArrangement(s, rows, leq) && p == Take(s, limit);
    forall x, y | x in p && y in rows && y !in p
      ensures leq(x, y)
    {
      assert y in multiset(s);
      var i :| 0 <= i < |p| && p[i] == x;
      var j :| 0 <= j < |s| && s[j] == y;
      assert p == s[..|p|];
    }
  }

  lemma InsertKeepsArrangement<T(!new)>(out: seq<T>, rows: seq<T>, k: nat, x: T, leq: (T, T) -> bool)
    requires IsArrangement(out, rows, leq) && k <= |out|
    requires forall j :: 0 <= j < k ==> leq(out[j], x)
    requires forall j :: k <= j < |out| ==> leq(x, out[j])
    ensures IsArrangement(out[..k] + [x] + out[k..], rows + [x], leq)
  {
    var r := out[..k] + [x] + out[k..];
    assert out == out[..k] + out[k..];
    forall i, j | 0 <= i < j < |r|
      ensures leq(r[i], r[j])
    {
      assert r[i] == if i < k then out[i] else if i == k then x else out[i - 1];
      assert r[j] == if j < k then out[j] else if j == k then x else out[j - 1];
    }
  }

  /** The database's sort. Callers see only that the result is an arrangement of the rows. */
  method OrderBy<T(!new)>(rows: seq<T>, leq: (T, T) -> bool) returns (out: seq<T>)
    requires IsTotalPreorder(leq)
    ensures IsArrangement(out, rows, leq)
  {
    out := [];
    for i := 0 to |rows|
      invariant IsArrangement(out, rows[..i], leq)
    {
      var k := |out|;
      while k > 0 && !leq(out[k - 1], rows[i])
        invariant 0 <= k <= |out|
        invariant forall j :: k <= j < |out| ==> leq(rows[i], out[j])
      {
        k := k - 1;
      }
      forall j | 0 <= j < k
        ensures leq(out[j], rows[i])
      {
        assert leq(out[k - 1], rows[i]);
        assert j < k - 1 ==> leq(out[j], out[k - 1]);
      }
      InsertKeepsArrangement(out, rows[..i], k, rows[i], leq);
      assert rows[..i + 1] == rows[..i] + [rows[i]];
      out := out[..k] + [rows[i]] + out[k..];
    }
    assert rows[..|rows|] == rows;
  }
}
