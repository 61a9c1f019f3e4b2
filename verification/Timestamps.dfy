/** The text timestamps of internal/store: what `ORDER BY created` and `updated >= ?` compare. */
module Timestamps {
  import opened Wrappers
  import opened Strings

  /** A UTC wall-clock reading with nanoseconds, as `time.Now().UTC()` gives it. */
  datatype Clock = Clock(year: nat, month: nat, day: nat, hour: nat, minute: nat, second: nat, nano: nat) {
    predicate Valid() {
      && year <= 9999
      && 1 <= month <= 12
      && 1 <= day <= DaysInMonth(year, month)
      && hour < 24 && minute < 60 && second < 60
      && nano < 1_000_000_000
    }
  }

  type Instant = c: Clock | c.Valid() witness Clock(1, 1, 1, 0, 0, 0, 0)

  /** A time column or field that is empty until it is set. */
  datatype Stamp = Unset | At(time: Instant)

  predicate IsLeap(year: nat) {
    year % 4 == 0 && (year % 100 != 0 || year % 400 == 0)
  }

  function DaysInMonth(year: nat, month: nat): nat {
    if month == 2 then (if IsLeap(year) then 29 else 28)
    else if month in {4, 6, 9, 11} then 30
    else 31
  }

  function DaysBeforeYear(year: nat): nat {
    if year == 0 then 0
    else DaysBeforeYear(year - 1) + if IsLeap(year - 1) then 366 else 365
  }

  function DaysBeforeMonth(year: nat, month: nat): nat
    requires month >= 1
  {
    if month == 1 then 0 else DaysBeforeMonth(year, month - 1) + DaysInMonth(year, month - 1)
  }

  /** Whole seconds since the start of year 0 of the Gregorian calendar. */
  function Seconds(t: Instant): nat {
    var days := DaysBeforeYear(t.year) + DaysBeforeMonth(t.year, t.month) + t.day - 1;
    ((days * 24 + t.hour) * 60 + t.minute) * 60 + t.second
  }

  /** The instant itself: nanoseconds on the time line. */
  function Nanos(t: Instant): nat {
    Seconds(t) * 1_000_000_000 + t.nano
  }

  /** Lexicographic order of the calendar fields down to the second. */
  predicate EarlierFields(s: Instant, t: Instant) {
    if s.year != t.year then s.year < t.year
    else if s.month != t.month then s.month < t.month
    else if s.day != t.day then s.day < t.day
    else if s.hour != t.hour then s.hour < t.hour
    else if s.minute != t.minute then s.minute < t.minute
    else s.second < t.second
  }

  predicate SameSecond(s: Instant, t: Instant) {
    s.(nano := 0) == t.(nano := 0)
  }

  lemma {:induction false} YearsAdvance(a: nat, b: nat)
    requires a < b
    ensures DaysBeforeYear(a) + (if IsLeap(a) then 366 else 365) <= DaysBeforeYear(b)
  {
    if a + 1 < b {
      YearsAdvance(a, b - 1);
    }
  }

  lemma {:induction false} MonthsAdvance(year: nat, a: nat, b: nat)
    requires 1 <= a < b
    ensures DaysBeforeMonth(year, a) + DaysInMonth(year, a) <= DaysBeforeMonth(year, b)
  {
    if a + 1 < b {
      MonthsAdvance(year, a, b - 1);
    }
  }

  lemma MonthLength(year: nat, month: nat)
    requires month >= 1
    ensures DaysBeforeMonth(year, month + 1) == DaysBeforeMonth(year, month) + DaysInMonth(year, month)
  {
  }

  lemma YearLength(year: nat)
    ensures DaysBeforeMonth(year, 12) + 31 == if IsLeap(year) then 366 else 365
  {
    MonthLength(year, 1);
    MonthLength(year, 2);
    MonthLength(year, 3);
    MonthLength(year, 4);
    MonthLength(year, 5);
    MonthLength(year, 6);
    MonthLength(year, 7);
    MonthLength(year, 8);
    MonthLength(year, 9);
    MonthLength(year, 10);
    MonthLength(year, 11);
  }

  /** The calendar is monotone: later fields are later seconds. */
  lemma EarlierFieldsAreEarlier(s: Instant, t: Instant)
    requires EarlierFields(s, t)
    ensures Seconds(s) < Seconds(t)
  {
    var ds := DaysBeforeMonth(s.year, s.month) + s.day - 1;
    var dt := DaysBeforeMonth(t.year, t.month) + t.day - 1;
    if s.year != t.year {
      YearLength(s.year);
      if s.month < 12 {
        MonthsAdvance(s.year, s.month, 12);
      }
      YearsAdvance(s.year, t.year);
    } else if s.month != t.month {
      MonthsAdvance(s.year, s.month, t.month);
    }
    assert DaysBeforeYear(s.year) + ds <= DaysBeforeYear(t.year) + dt;
  }

  lemma SecondsOrder(s: Instant, t: Instant)
    ensures EarlierFields(s, t) <==> Seconds(s) < Seconds(t)
    ensures SameSecond(s, t) <==> Seconds(s) == Seconds(t)
  {
    if EarlierFields(s, t) {
      EarlierFieldsAreEarlier(s, t);
    } else if EarlierFields(t, s) {
      EarlierFieldsAreEarlier(t, s);
    }
  }

  // ---- the printed form ----

  function Digit(n: nat): char
    requires n < 10
  {
    ('0' as int + n) as char
  }

  /** The last `width` decimal digits of `n`, zero padded. */
  function Pad(n: nat, width: nat): (r: string)
    ensures |r| == width
    ensures forall i :: 0 <= i < |r| ==> '0' <= r[i] <= '9'
  {
    if width == 0 then "" else Pad(n / 10, width - 1) + [Digit(n % 10)]
  }

  function Pow10(n: nat): nat {
    if n == 0 then 1 else 10 * Pow10(n - 1)
  }

  /** Zero-padded columns compare as numbers. */
  lemma {:induction false} PadOrder(m: nat, n: nat, width: nat)
    requires m < Pow10(width) && n < Pow10(width)
    ensures Less(Pad(m, width), Pad(n, width)) <==> m < n
    ensures Pad(m, width) == Pad(n, width) <==> m == n
  {
    if width > 0 {
      PadOrder(m / 10, n / 10, width - 1);
      var p, q := Pad(m / 10, width - 1), Pad(n / 10, width - 1);
      LessByColumn(p, q, [Digit(m % 10)], [Digit(n % 10)]);
      assert Pad(m, width)[..width - 1] == p && Pad(n, width)[..width - 1] == q;
      assert Pad(m, width)[width - 1] == Digit(m % 10) && Pad(n, width)[width - 1] == Digit(n % 10);
    }
  }

  /** Year to second: nineteen columns of fixed width. */
  function SecondText(t: Instant): string {
    Pad(t.year, 4) + ("-" + (Pad(t.month, 2) + ("-" + (Pad(t.day, 2) + ("T" + (Pad(t.hour, 2) +
    (":" + (Pad(t.minute, 2) + (":" + Pad(t.second, 2))))))))))
  }

  function TrimZeros(digits: string): (r: string)
    ensures r <= digits
    ensures r != [] ==> r[|r| - 1] != '0'
    ensures forall i :: |r| <= i < |digits| ==> digits[i] == '0'
  {
    if digits != [] && digits[|digits| - 1] == '0' then TrimZeros(digits[..|digits| - 1]) else digits
  }

  /** The digits of the fraction that RFC3339Nano prints: none for a whole second. */
  function FractionDigits(t: Instant): string {
    TrimZeros(Pad(t.nano, 9))
  }

  /** `t.Format(time.RFC3339Nano)` of a UTC time. */
  function Text(t: Instant): string {
    var f := FractionDigits(t);
    SecondText(t) + ((if f == "" then "" else "." + f) + "Z")
  }

  lemma SecondTextOrder(s: Instant, t: Instant)
    ensures |SecondText(s)| == |SecondText(t)|
    ensures Less(SecondText(s), SecondText(t)) <==> Seconds(s) < Seconds(t)
    ensures SecondText(s) == SecondText(t) <==> SameSecond(s, t)
  {
    hide Less, Seconds, Pad;
    SecondsOrder(s, t);
    assert Pow10(2) == 100 && Pow10(4) == 10_000;
    PadOrder(s.second, t.second, 2);
    Column(s.minute, t.minute, 2, ":", Pad(s.second, 2), Pad(t.second, 2));
    var s1, t1 := Pad(s.minute, 2) + (":" + Pad(s.second, 2)), Pad(t.minute, 2) + (":" + Pad(t.second, 2));
    Column(s.hour, t.hour, 2, ":", s1, t1);
    var s2, t2 := Pad(s.hour, 2) + (":" + s1), Pad(t.hour, 2) + (":" + t1);
    Column(s.day, t.day, 2, "T", s2, t2);
    var s3, t3 := Pad(s.day, 2) + ("T" + s2), Pad(t.day, 2) + ("T" + t2);
    Column(s.month, t.month, 2, "-", s3, t3);
    var s4, t4 := Pad(s.month, 2) + ("-" + s3), Pad(t.month, 2) + ("-" + t3);
    Column(s.year, t.year, 4, "-", s4, t4);
  }

  /** One padded column, its separator, and the columns after it. */
  lemma Column(m: nat, n: nat, width: nat, sep: string, a: string, b: string)
    requires m < Pow10(width) && n < Pow10(width)
    ensures Less(Pad(m, width) + (sep + a), Pad(n, width) + (sep + b)) <==> if m == n then Less(a, b) else m < n
    ensures |a| == |b| ==> (Pad(m, width) + (sep + a) == Pad(n, width) + (sep + b) <==> m == n && a == b)
  {
    PadOrder(m, n, width);
    LessByColumn(Pad(m, width), Pad(n, width), sep + a, sep + b);
    LessAfterPrefix(sep, a, b);
    LessIsTotal(Pad(m, width), Pad(n, width));
    if |a| == |b| {
      SameParts(Pad(m, width), Pad(n, width), sep, a, b);
    }
  }

  lemma SameParts(p: string, q: string, sep: string, a: string, b: string)
    requires |p| == |q|
    ensures p + (sep + a) == q + (sep + b) <==> p == q && a == b
  {
    var x, y := p + (sep + a), q + (sep + b);
    assert x[..|p|] == p && y[..|q|] == q;
    assert x[|p| + |sep|..] == a && y[|q| + |sep|..] == b;
  }

  predicate ProperPrefix(a: string, b: string) {
    a < b
  }

  /** Both print the same second, and one printed fraction is cut short inside the other. */
  predicate Inverted(s: Instant, t: Instant) {
    SameSecond(s, t) &&
    (ProperPrefix(FractionDigits(s), FractionDigits(t)) || ProperPrefix(FractionDigits(t), FractionDigits(s)))
  }

  /** Trimming the fraction keeps its value. */
  lemma FractionOrder(s: Instant, t: Instant)
    ensures s.nano < t.nano <==> Less(FractionDigits(s), FractionDigits(t))
    ensures s.nano == t.nano <==> FractionDigits(s) == FractionDigits(t)
  {
    assert Pow10(3) == 1000 && Pow10(6) == 1_000_000 && Pow10(9) == 1_000_000_000;
    PadOrder(s.nano, t.nano, 9);
    TrimZerosOrder(Pad(s.nano, 9), Pad(t.nano, 9));
    TrimZerosOrder(Pad(t.nano, 9), Pad(s.nano, 9));
  }

  lemma {:induction false} TrimZerosOrder(a: string, b: string)
    requires |a| == |b|
    requires forall i :: 0 <= i < |a| ==> a[i] >= '0' && b[i] >= '0'
    ensures Less(a, b) <==> Less(TrimZeros(a), TrimZeros(b))
    ensures a == b <==> TrimZeros(a) == TrimZeros(b)
  {
    hide TrimZeros, Headed, Less;
    if a == [] {
      assert b == a;
      LessIsTotal(a, b);
      LessIsTotal(TrimZeros(a), TrimZeros(b));
    } else {
      LessHead(a, b);
      TrimZerosHead(a);
      TrimZerosHead(b);
      SameHeadAndTail(a, b);
      TrimZerosOrder(a[1..], b[1..]);
      HeadOrder(a[0], b[0], TrimZeros(a[1..]), TrimZeros(b[1..]));
    }
  }

  lemma SameHeadAndTail(a: string, b: string)
    requires a != [] && b != []
    ensures a == b <==> a[0] == b[0] && a[1..] == b[1..]
  {
    assert a == [a[0]] + a[1..] && b == [b[0]] + b[1..];
  }

  lemma LessHead(a: string, b: string)
    requires a != [] && b != []
    ensures Less(a, b) <==> if a[0] != b[0] then a[0] < b[0] else Less(a[1..], b[1..])
  {
  }

  function Headed(c: char, rest: string): string {
    if rest == [] && c == '0' then [] else [c] + rest
  }

  /** Putting a digit in front, unless nothing would remain but zeros, keeps the comparison digit by digit. */
  lemma HeadOrder(c: char, d: char, x: string, y: string)
    requires c >= '0' && d >= '0'
    ensures Less(Headed(c, x), Headed(d, y)) <==> if c != d then c < d else Less(x, y)
    ensures Headed(c, x) == Headed(d, y) <==> c == d && x == y
  {
    assert ([c] + x)[1..] == x && ([d] + y)[1..] == y;
  }

  lemma {:induction false} TrimZerosHead(a: string)
    requires a != []
    ensures TrimZeros(a) == Headed(a[0], TrimZeros(a[1..]))
  {
    if a[|a| - 1] == '0' && |a| > 1 {
      TrimZerosHead(a[..|a| - 1]);
      assert a[1..][..|a| - 2] == a[..|a| - 1][1..];
    }
  }

  /** Appending 'Z', which sorts after every digit, turns a prefix from first into last. */
  lemma {:induction false} ZAfterDigits(a: string, b: string)
    requires forall i :: 0 <= i < |a| ==> a[i] <= '9'
    requires forall i :: 0 <= i < |b| ==> b[i] <= '9'
    ensures Less(a + "Z", b + "Z") <==> if a < b || b < a then Less(b, a) else Less(a, b)
  {
    if a == [] || b == [] {
      if a == [] && b != [] {
        assert (b + "Z")[0] == b[0];
      }
      if b == [] && a != [] {
        assert (a + "Z")[0] == a[0];
      }
      LessIsTotal(a, b);
    } else {
      assert (a + "Z")[0] == a[0] && (b + "Z")[0] == b[0];
      if a[0] == b[0] {
        assert (a + "Z")[1..] == a[1..] + "Z" && (b + "Z")[1..] == b[1..] + "Z";
        assert a == [a[0]] + a[1..] && b == [b[0]] + b[1..];
        ZAfterDigits(a[1..], b[1..]);
        PrefixTail(a, b);
        PrefixTail(b, a);
      }
    }
  }

  lemma PrefixTail(a: string, b: string)
    requires a != [] && b != [] && a[0] == b[0]
    ensures a < b <==> a[1..] < b[1..]
  {
    assert a == [a[0]] + a[1..] && b == [b[0]] + b[1..];
    if a[1..] < b[1..] {
      assert b[1..] == a[1..] + b[1..][|a| - 1..];
      assert b == a + b[|a|..];
    }
  }

  lemma PrefixIsLess(a: string, b: string)
    requires a < b
    ensures Less(a, b)
  {
    LessAfterPrefix(a, [], b[|a|..]);
    assert a + [] == a && a + b[|a|..] == b;
  }

  lemma FractionDigitsAreDigits(t: Instant)
    ensures forall i :: 0 <= i < |FractionDigits(t)| ==> '0' <= FractionDigits(t)[i] <= '9'
  {
    var p := Pad(t.nano, 9);
    assert FractionDigits(t) <= p;
    forall i | 0 <= i < |FractionDigits(t)|
      ensures '0' <= FractionDigits(t)[i] <= '9'
    {
      assert FractionDigits(t)[i] == p[i];
    }
  }

  /** The tail after the second: ".", sorting before 'Z', stands for a fraction. */
  lemma TailOrder(s: Instant, t: Instant)
    ensures var f, g := FractionDigits(s), FractionDigits(t);
      Less((if f == "" then "" else "." + f) + "Z", (if g == "" then "" else "." + g) + "Z") ==
      if f < g || g < f then Less(g, f) else Less(f, g)
  {
    var f, g := FractionDigits(s), FractionDigits(t);
    FractionDigitsAreDigits(s);
    FractionDigitsAreDigits(t);
    LessIsTotal(f, g);
    if f != "" && g != "" {
      LessAfterPrefix(".", f + "Z", g + "Z");
      assert ("." + f) + "Z" == "." + (f + "Z") && ("." + g) + "Z" == "." + (g + "Z");
      ZAfterDigits(f, g);
    } else {
      assert g != "" ==> (("." + g) + "Z")[0] == '.';
      assert f != "" ==> (("." + f) + "Z")[0] == '.';
    }
  }

  /** Text order is time order, except for exactly the inverted pairs, where it is the reverse. */
  lemma TextOrder(s: Instant, t: Instant)
    ensures Less(Text(s), Text(t)) <==> if Inverted(s, t) then Nanos(t) < Nanos(s) else Nanos(s) < Nanos(t)
  {
    SecondTextOrder(s, t);
    SecondsOrder(s, t);
    FractionOrder(s, t);
    FractionOrder(t, s);
    TailOrder(s, t);
    var f, g := FractionDigits(s), FractionDigits(t);
    LessByColumn(SecondText(s), SecondText(t),
                 (if f == "" then "" else "." + f) + "Z", (if g == "" then "" else "." + g) + "Z");
  }

  /** An inverted pair is a pair of different instants that text orders the wrong way round. */
  lemma InvertedPairsAreMisordered(s: Instant, t: Instant)
    ensures Inverted(s, t) <==>
      (Less(Text(s), Text(t)) && Nanos(t) < Nanos(s)) || (Less(Text(t), Text(s)) && Nanos(s) < Nanos(t))
  {
    TextOrder(s, t);
    TextOrder(t, s);
    FractionOrder(s, t);
    FractionOrder(t, s);
    SecondsOrder(s, t);
    var f, g := FractionDigits(s), FractionDigits(t);
    if f < g {
      PrefixIsLess(f, g);
    } else if g < f {
      PrefixIsLess(g, f);
    }
  }

  /** No two instants print alike, so a stored text stands for one instant. */
  lemma TextIsInjective(s: Instant, t: Instant)
    ensures Text(s) == Text(t) <==> s == t
    ensures Nanos(s) == Nanos(t) <==> s == t
  {
    SecondsOrder(s, t);
    if Text(s) == Text(t) {
      SecondTextOrder(s, t);
      LessIsTotal(Text(s), Text(t));
      TextOrder(s, t);
      TextOrder(t, s);
    }
  }

  /** RFC 3339, section 5.1: with equally many fraction digits, text sorts as time. */
  lemma EqualDigitsSortAsTime(s: Instant, t: Instant)
    requires |FractionDigits(s)| == |FractionDigits(t)|
    ensures Less(Text(s), Text(t)) <==> Nanos(s) < Nanos(t)
  {
    TextOrder(s, t);
  }

  /** An earlier second always sorts first. */
  lemma EarlierSecondSortsFirst(s: Instant, t: Instant)
    requires Seconds(s) < Seconds(t)
    ensures Less(Text(s), Text(t))
  {
    SecondsOrder(s, t);
    TextOrder(s, t);
  }

  /** Half past a second is later than the second but sorts before it. */
  lemma HalfSecondSortsEarlier()
    ensures exists s: Instant, t: Instant :: Nanos(s) < Nanos(t) && Less(Text(t), Text(s))
  {
    var s: Instant := Clock(2026, 9, 20, 10, 0, 5, 0);
    var t: Instant := Clock(2026, 9, 20, 10, 0, 5, 500_000_000);
    assert FractionDigits(s) == "" by {
      var p := Pad(0, 9);
      PadOfZero(9);
    }
    FractionOrder(s, t);
    assert FractionDigits(s) < FractionDigits(t);
    InvertedPairsAreMisordered(s, t);
  }

  lemma {:induction false} PadOfZero(width: nat)
    ensures TrimZeros(Pad(0, width)) == ""
  {
    if width > 0 {
      PadOfZero(width - 1);
      assert Pad(0, width)[..width - 1] == Pad(0, width - 1);
    }
  }

  // ---- stamps ----

  /** The text of a time column. */
  function StampText(s: Stamp): string {
    if s.At? then Text(s.time) else ""
  }

  /** The first is not after the second: the instants say so, unless they are an inverted pair. */
  ghost predicate IsNotAfter(s: Stamp, t: Stamp) {
    s.At? && t.At? && ((Nanos(s.time) <= Nanos(t.time)) <==> !Inverted(s.time, t.time))
  }

  lemma TextsAreInstants(s: Stamp, t: Stamp)
    requires s.At? && t.At?
    ensures AtMost(StampText(s), StampText(t)) <==> IsNotAfter(s, t)
  {
    hide Text, Inverted;
    TextOrder(s.time, t.time);
    TextIsInjective(s.time, t.time);
    InvertedPairsAreMisordered(s.time, t.time);
  }

  // ---- reading a time back ----

  predicate AreDigits(s: string) {
    forall i :: 0 <= i < |s| ==> '0' <= s[i] <= '9'
  }

  /** The number that digits stand for. */
  function Value(s: string): nat
    requires AreDigits(s)
  {
    if s == "" then 0 else 10 * Value(s[..|s| - 1]) + (s[|s| - 1] as int - '0' as int)
  }

  /** The columns down to the second, in the layout of RFC 3339, section 5.6. */
  function ParseSecond(s: string): Option<Clock>
    requires |s| == 19
  {
    if s[4] == '-' && s[7] == '-' && s[10] == 'T' && s[13] == ':' && s[16] == ':'
      && AreDigits(s[..4]) && AreDigits(s[5..7]) && AreDigits(s[8..10])
      && AreDigits(s[11..13]) && AreDigits(s[14..16]) && AreDigits(s[17..19])
    then Some(Clock(
      Value(s[..4]), Value(s[5..7]), Value(s[8..10]), Value(s[11..13]), Value(s[14..16]), Value(s[17..19]), 0))
    else None
  }

  /** Perhaps a fraction, and the zone Z; in nanoseconds. */
  function ParseFraction(s: string): Option<nat> {
    if s == "Z" then Some(0)
    else if 3 <= |s| <= 11 && s[0] == '.' && s[|s| - 1] == 'Z' && AreDigits(s[1..|s| - 1])
    then Some(Value(s[1..|s| - 1]) * Pow10(11 - |s|))
    else None
  }

  /** `time.Parse(time.RFC3339Nano, s)` for the zone Z; the calendar is not checked here. */
  function Parse(s: string): Option<Clock> {
    if |s| < 19 then None
    else
      match (ParseSecond(s[..19]), ParseFraction(s[19..]))
      case (Some(c), Some(nano)) => Some(c.(nano := nano))
      case _ => None
  }

  lemma {:induction false} PadValue(n: nat, width: nat)
    requires n < Pow10(width)
    ensures AreDigits(Pad(n, width)) && Value(Pad(n, width)) == n
  {
    if width > 0 {
      PadValue(n / 10, width - 1);
      assert Pad(n, width)[..width - 1] == Pad(n / 10, width - 1);
    }
  }

  lemma {:induction false} TrimmedValue(s: string)
    requires AreDigits(s)
    ensures AreDigits(TrimZeros(s)) && Value(TrimZeros(s)) * Pow10(|s| - |TrimZeros(s)|) == Value(s)
  {
    if s != "" && s[|s| - 1] == '0' {
      TrimmedValue(s[..|s| - 1]);
      var r := TrimZeros(s);
      TenTimes(Value(r), Pow10(|s| - 1 - |r|));
    }
  }

  lemma TenTimes(a: nat, b: nat)
    ensures a * (10 * b) == 10 * (a * b)
  {
  }

  /** The columns of the printed second. */
  lemma SecondColumns(t: Instant)
    ensures var s := SecondText(t);
      && |s| == 19 && s[4] == '-' && s[7] == '-' && s[10] == 'T' && s[13] == ':' && s[16] == ':'
      && s[..4] == Pad(t.year, 4) && s[5..7] == Pad(t.month, 2) && s[8..10] == Pad(t.day, 2)
      && s[11..13] == Pad(t.hour, 2) && s[14..16] == Pad(t.minute, 2) && s[17..19] == Pad(t.second, 2)
  {
    hide Pad;
  }

  /** Six padded columns with the numbers of the time. */
  lemma ColumnsReadBack(t: Instant)
    ensures var s := SecondText(t);
      && AreDigits(s[..4]) && AreDigits(s[5..7]) && AreDigits(s[8..10])
      && AreDigits(s[11..13]) && AreDigits(s[14..16]) && AreDigits(s[17..19])
      && Value(s[..4]) == t.year && Value(s[5..7]) == t.month && Value(s[8..10]) == t.day
      && Value(s[11..13]) == t.hour && Value(s[14..16]) == t.minute && Value(s[17..19]) == t.second
  {
    assert Pow10(2) == 100 && Pow10(4) == 10_000;
    hide Pad, Value, SecondText, AreDigits, Pow10;
    SecondColumns(t);
    PadValue(t.year, 4);
    PadValue(t.month, 2);
    PadValue(t.day, 2);
    PadValue(t.hour, 2);
    PadValue(t.minute, 2);
    PadValue(t.second, 2);
  }

  /** The printed fraction has the value of the nanoseconds. */
  lemma FractionReadsBack(t: Instant)
    ensures var f := FractionDigits(t); |f| <= 9 && AreDigits(f) && Value(f) * Pow10(9 - |f|) == t.nano
  {
    assert Pow10(3) == 1000 && Pow10(6) == 1_000_000 && Pow10(9) == 1_000_000_000;
    hide Pad, Value, TrimZeros, Pow10;
    PadValue(t.nano, 9);
    TrimmedValue(Pad(t.nano, 9));
  }

  /** A stored time reads back as itself. */
  lemma TextReadsBack(t: Instant)
    ensures Parse(Text(t)) == Some(t)
  {
    hide SecondText, FractionDigits, ParseSecond, ParseFraction;
    var f := FractionDigits(t);
    var tail := (if f == "" then "" else "." + f) + "Z";
    SecondReadsBack(t);
    TailReadsBack(t);
    assert Text(t)[..19] == SecondText(t) && Text(t)[19..] == tail;
  }

  lemma SecondReadsBack(t: Instant)
    ensures |SecondText(t)| == 19 && ParseSecond(SecondText(t)) == Some(t.(nano := 0))
  {
    hide SecondText, Value, AreDigits;
    SecondColumns(t);
    ColumnsReadBack(t);
  }

  lemma TailReadsBack(t: Instant)
    ensures var f := FractionDigits(t);
      ParseFraction((if f == "" then "" else "." + f) + "Z") == Some(t.nano)
  {
    hide FractionDigits, Value, Pow10;
    FractionReadsBack(t);
    var f := FractionDigits(t);
    if f == "" {
      NoValue();
    } else {
      assert (("." + f) + "Z")[1..1 + |f|] == f;
    }
  }

  lemma NoValue()
    ensures Value("") == 0
  {
  }
}
