/**
  Expiry times are stored as RFC 3339 text with up to nine fraction digits and are
  purged by comparing that text.  This module relates the order of the text to the
  order of the times.
 */
module TimeText {
  import opened Text

  // ----- the calendar -----

  datatype Instant = Instant(year: nat, month: nat, day: nat, hour: nat, minute: nat, second: nat, nano: nat)

  predicate IsLeap(y: nat) {
    y % 4 == 0 && (y % 100 != 0 || y % 400 == 0)
  }

  function DaysInMonth(y: nat, m: nat): nat {
    if m == 2 then (if IsLeap(y) then 29 else 28)
    else if m == 4 || m == 6 || m == 9 || m == 11 then 30
    else 31
  }

  function DaysInYear(y: nat): nat {
    if IsLeap(y) then 366 else 365
  }

  /** A UTC time in a four-digit year. */
  predicate Valid(t: Instant) {
    && t.year <= 9999 && 1 <= t.month <= 12 && 1 <= t.day <= DaysInMonth(t.year, t.month)
    && t.hour < 24 && t.minute < 60 && t.second < 60 && t.nano < 1_000_000_000
  }

  function DaysBeforeYear(y: nat): nat {
    if y == 0 then 0 else DaysBeforeYear(y - 1) + DaysInYear(y - 1)
  }

  function DaysBeforeMonth(y: nat, m: nat): nat {
    if m <= 1 then 0 else DaysBeforeMonth(y, m - 1) + DaysInMonth(y, m - 1)
  }

  function DayNumber(t: Instant): nat {
    DaysBeforeYear(t.year) + DaysBeforeMonth(t.year, t.month) + t.day
  }

  /** Whole seconds since a fixed origin. */
  function Seconds(t: Instant): nat {
    ((DayNumber(t) * 24 + t.hour) * 60 + t.minute) * 60 + t.second
  }

  function Nanos(t: Instant): nat {
    Seconds(t) * 1_000_000_000 + t.nano
  }

  lemma {:induction false} YearsGrow(y: nat, z: nat)
    requires y < z
    ensures DaysBeforeYear(y) + DaysInYear(y) <= DaysBeforeYear(z)
  {
    if y + 1 < z {
      YearsGrow(y, z - 1);
    }
  }

  lemma {:induction false} MonthsGrow(y: nat, m: nat, n: nat)
    requires 1 <= m < n
    ensures DaysBeforeMonth(y, m) + DaysInMonth(y, m) <= DaysBeforeMonth(y, n)
  {
    if m + 1 < n {
      MonthsGrow(y, m, n - 1);
    }
  }

  lemma YearLength(y: nat)
    ensures DaysBeforeMonth(y, 13) == DaysInYear(y)
  {
    assert DaysBeforeMonth(y, 1) == 0;
    assert DaysBeforeMonth(y, 2) == 31;
    assert DaysBeforeMonth(y, 3) == 31 + DaysInMonth(y, 2);
    assert DaysBeforeMonth(y, 5) == DaysBeforeMonth(y, 3) + 61;
    assert DaysBeforeMonth(y, 7) == DaysBeforeMonth(y, 5) + 61;
    assert DaysBeforeMonth(y, 9) == DaysBeforeMonth(y, 7) + 62;
    assert DaysBeforeMonth(y, 11) == DaysBeforeMonth(y, 9) + 61;
    assert DaysBeforeMonth(y, 13) == DaysBeforeMonth(y, 11) + 61;
  }

  /** Comparing calendar fields in turn. */
  predicate FieldsLess(a: seq<nat>, b: seq<nat>)
    requires |a| == |b|
  {
    a != [] && (a[0] < b[0] || (a[0] == b[0] && FieldsLess(a[1..], b[1..])))
  }

  function DateFields(t: Instant): seq<nat> {
    [t.year, t.month, t.day]
  }

  function ClockFields(t: Instant): seq<nat> {
    [t.hour, t.minute, t.second]
  }

  lemma DayOrder(a: Instant, b: Instant)
    requires Valid(a) && Valid(b)
    requires a.year < b.year || (a.year == b.year && (a.month < b.month || (a.month == b.month && a.day < b.day)))
    ensures DayNumber(a) < DayNumber(b)
  {
    if a.year < b.year {
      YearsGrow(a.year, b.year);
      YearLength(a.year);
      MonthsGrow(a.year, a.month, 13);
    } else if a.month < b.month {
      MonthsGrow(a.year, a.month, b.month);
    }
  }

  /** The order of the fields is the order of the seconds. */
  lemma SecondOrder(a: Instant, b: Instant)
    requires Valid(a) && Valid(b)
    ensures Seconds(a) < Seconds(b) <==> FieldsLess(DateFields(a) + ClockFields(a), DateFields(b) + ClockFields(b))
    ensures Seconds(a) == Seconds(b) <==> a == b.(nano := a.nano)
  {
    FieldsLessIs(a, b);
    FieldsLessIs(b, a);
    if DateFields(a) != DateFields(b) {
      if a.year < b.year || (a.year == b.year && (a.month < b.month || (a.month == b.month && a.day < b.day))) {
        DayOrder(a, b);
      } else {
        DayOrder(b, a);
      }
    }
  }

  lemma FieldsLessIs(a: Instant, b: Instant)
    ensures FieldsLess(DateFields(a) + ClockFields(a), DateFields(b) + ClockFields(b)) <==>
      (a.year < b.year || (a.year == b.year && (a.month < b.month || (a.month == b.month && (a.day < b.day || (a.day == b.day
      && (a.hour < b.hour || (a.hour == b.hour && (a.minute < b.minute || (a.minute == b.minute && a.second < b.second))))))))))
  {
    var f := DateFields(a) + ClockFields(a);
    var g := DateFields(b) + ClockFields(b);
    assert f[1..][1..] == f[2..] && g[1..][1..] == g[2..];
    assert f[2..][1..] == f[3..] && g[2..][1..] == g[3..];
    assert f[3..][1..] == f[4..] && g[3..][1..] == g[4..];
    assert f[4..][1..] == f[5..] && g[4..][1..] == g[5..];
    assert FieldsLess(f[5..], g[5..]) <==> f[5] < g[5];
    assert FieldsLess(f[4..], g[4..]) <==> f[4] < g[4] || (f[4] == g[4] && FieldsLess(f[5..], g[5..]));
    assert FieldsLess(f[3..], g[3..]) <==> f[3] < g[3] || (f[3] == g[3] && FieldsLess(f[4..], g[4..]));
    assert FieldsLess(f[2..], g[2..]) <==> f[2] < g[2] || (f[2] == g[2] && FieldsLess(f[3..], g[3..]));
    assert FieldsLess(f[1..], g[1..]) <==> f[1] < g[1] || (f[1] == g[1] && FieldsLess(f[2..], g[2..]));
  }

  // ----- the text -----

  function Digit(d: nat): char
    requires d < 10
  {
    (d + '0' as int) as char
  }

  /** The last `w` decimal digits of `n`, with leading zeros. */
  function Pad(n: nat, w: nat): (s: string)
    ensures |s| == w
  {
    if w == 0 then "" else Pad(n / 10, w - 1) + [Digit(n % 10)]
  }

  function Pow10(w: nat): nat {
    if w == 0 then 1 else 10 * Pow10(w - 1)
  }

  /** Fields of fixed widths, each followed by its separator. */
  function FormatFields(values: seq<nat>, widths: seq<nat>, separators: seq<string>): string
    requires |values| == |widths| == |separators|
  {
    if values == [] then ""
    else (Pad(values[0], widths[0]) + separators[0]) + FormatFields(values[1..], widths[1..], separators[1..])
  }

  function TrimZeros(s: string): string {
    if s != "" && s[|s| - 1] == '0' then TrimZeros(s[..|s| - 1]) else s
  }

  /** The significant fraction digits. */
  function Fraction(nano: nat): string {
    TrimZeros(Pad(nano, 9))
  }

  const WIDTHS: seq<nat> := [4, 2, 2, 2, 2, 2]
  const SEPARATORS := ["-", "-", "T", ":", ":", ""]

  function FractionText(nano: nat): string {
    (if Fraction(nano) == "" then "" else "." + Fraction(nano)) + "Z"
  }

  /** `t.UTC().Format(time.RFC3339Nano)`. */
  function Format(t: Instant): string {
    FormatFields(DateFields(t) + ClockFields(t), WIDTHS, SEPARATORS) + FractionText(t.nano)
  }

  // ----- reading the text -----

  /** Numbers of given widths, each followed by its separator; the result is the numbers and the rest of the text. */
  function ReadFields(widths: seq<nat>, seps: seq<string>, s: string): Option<(seq<nat>, string)>
    requires |widths| == |seps|
  {
    if widths == [] then Some(([], s))
    else
      var n := widths[0] + |seps[0]|;
      if |s| < n || s[widths[0]..n] != seps[0] then None
      else
        match (Decimal(s[..widths[0]]), ReadFields(widths[1..], seps[1..], s[n..]))
        case (Some(v), Some((vs, rest))) => Some(([v] + vs, rest))
        case _ => None
  }

  function Zeros(n: nat): (s: string)
    ensures |s| == n && forall i :: 0 <= i < n ==> s[i] == '0'
  {
    seq(n, i => '0')
  }

  /** The nanoseconds in what stands after the seconds: nothing or a point and up to nine digits, and the letter Z. */
  function ReadFraction(s: string): Option<nat> {
    if s == "Z" then Some(0)
    else if |s| < 3 || |s| > 11 || s[0] != '.' || s[|s| - 1] != 'Z' then None
    else Decimal(s[1..|s| - 1] + Zeros(11 - |s|))
  }

  /** An RFC 3339 date and time in UTC. */
  function ReadInstant(s: string): Option<Instant> {
    match ReadFields([4, 2, 2, 2, 2, 2], ["-", "-", "T", ":", ":", ""], s)
    case None => None
    case Some((f, rest)) =>
      if |f| != 6 then None
      else
        match ReadFraction(rest)
        case None => None
        case Some(nano) => Some(Instant(f[0], f[1], f[2], f[3], f[4], f[5], nano))
  }

  lemma {:induction false} PadValue(n: nat, w: nat)
    requires n < Pow10(w)
    ensures AllDigits(Pad(n, w)) && DigitsValue(Pad(n, w)) == n
  {
    if w > 0 {
      PadValue(n / 10, w - 1);
      var p := Pad(n, w);
      assert p[..|p| - 1] == Pad(n / 10, w - 1);
    }
  }

  lemma OneFieldBack(n: nat, w: nat, sep: string, more: string)
    requires 0 < w && n < Pow10(w)
    ensures var s := (Pad(n, w) + sep) + more;
      |s| >= w + |sep| && Decimal(s[..w]) == Some(n) && s[w..w + |sep|] == sep && s[w + |sep|..] == more
  {
    PadValue(n, w);
    var s := (Pad(n, w) + sep) + more;
    assert s[..w] == Pad(n, w);
  }

  lemma {:induction false} FieldsBack(values: seq<nat>, widths: seq<nat>, seps: seq<string>, rest: string)
    requires |values| == |widths| == |seps| && forall i :: 0 <= i < |values| ==> 0 < widths[i] && values[i] < Pow10(widths[i])
    ensures ReadFields(widths, seps, FormatFields(values, widths, seps) + rest) == Some((values, rest))
  {
    if values == [] {
      assert "" + rest == rest;
    } else {
      var more := FormatFields(values[1..], widths[1..], seps[1..]);
      FieldsBack(values[1..], widths[1..], seps[1..], rest);
      Assoc(Pad(values[0], widths[0]) + seps[0], more, rest);
      OneFieldBack(values[0], widths[0], seps[0], more + rest);
      assert [values[0]] + values[1..] == values;
    }
  }

  lemma FractionBack(nano: nat)
    requires nano < 1_000_000_000
    ensures ReadFraction(FractionText(nano)) == Some(nano)
  {
    Pow10Nine();
    PadValue(nano, 9);
    var f := Fraction(nano);
    TrimZerosIs(Pad(nano, 9));
    assert f + Zeros(9 - |f|) == Pad(nano, 9);
    if f == "" {
      assert FractionText(nano) == "Z";
      ZeroPad(nano);
    } else {
      var s := "." + f + "Z";
      assert s[1..|s| - 1] == f;
    }
  }

  lemma ZeroPad(nano: nat)
    requires nano < 1_000_000_000 && Fraction(nano) == ""
    ensures nano == 0
  {
    Pow10Nine();
    PadValue(nano, 9);
    TrimZerosIs(Pad(nano, 9));
    ZeroValue(Pad(nano, 9));
  }

  lemma {:induction false} ZeroValue(s: string)
    requires forall i :: 0 <= i < |s| ==> s[i] == '0'
    ensures AllDigits(s) && DigitsValue(s) == 0
  {
    if s != "" {
      ZeroValue(s[..|s| - 1]);
    }
  }

  /** What is stored for an expiry is read back as the same instant. */
  lemma FormatReadsBack(t: Instant)
    requires Valid(t)
    ensures ReadInstant(Format(t)) == Some(t)
  {
    Pow10Nine();
    var f := DateFields(t) + ClockFields(t);
    assert t.day <= 31;
    FieldsBack(f, [4, 2, 2, 2, 2, 2], ["-", "-", "T", ":", ":", ""], FractionText(t.nano));
    FractionBack(t.nano);
  }

  // ----- order of the text -----

  lemma {:induction false} LessExtend(a: string, b: string, x: string, y: string)
    requires |a| == |b| && Less(a, b)
    ensures Less(a + x, b + y)
  {
    if a[0] == b[0] {
      LessExtend(a[1..], b[1..], x, y);
      assert (a + x)[1..] == a[1..] + x && (b + y)[1..] == b[1..] + y;
    }
  }

  lemma {:induction false} PadLess(n: nat, m: nat, w: nat)
    requires n < m < Pow10(w)
    ensures Less(Pad(n, w), Pad(m, w))
  {
    var c := Digit(n % 10);
    var d := Digit(m % 10);
    if n / 10 < m / 10 {
      PadLess(n / 10, m / 10, w - 1);
      LessExtend(Pad(n / 10, w - 1), Pad(m / 10, w - 1), [c], [d]);
    } else {
      LessPrefix(Pad(n / 10, w - 1), [c], [d]);
      assert Less([c], [d]);
    }
  }

  lemma LessFramed(p: string, q: string, sep: string, x: string, y: string)
    requires |p| == |q|
    ensures Less(p, q) ==> Less((p + sep) + x, (q + sep) + y)
    ensures p == q ==> Less((p + sep) + x, (q + sep) + y) == Less(x, y)
  {
    if Less(p, q) {
      LessExtend(p, q, sep, sep);
      LessExtend(p + sep, q + sep, x, y);
    }
    LessPrefix(p + sep, x, y);
  }

  /** Text of fixed-width fields is ordered as the fields are, whatever follows. */
  lemma {:induction false} FormatOrder(a: seq<nat>, b: seq<nat>, widths: seq<nat>, seps: seq<string>, x: string, y: string)
    requires |a| == |b| == |widths| == |seps|
    requires forall i :: 0 <= i < |a| ==> a[i] < Pow10(widths[i]) && b[i] < Pow10(widths[i])
    ensures FieldsLess(a, b) ==> Less(FormatFields(a, widths, seps) + x, FormatFields(b, widths, seps) + y)
    ensures a == b ==> Less(FormatFields(a, widths, seps) + x, FormatFields(b, widths, seps) + y) == Less(x, y)
  {
    if a == [] {
      assert "" + x == x && "" + y == y;
    } else {
      var f := FormatFields(a[1..], widths[1..], seps[1..]);
      var g := FormatFields(b[1..], widths[1..], seps[1..]);
      FormatOrder(a[1..], b[1..], widths[1..], seps[1..], x, y);
      LessFramed(Pad(a[0], widths[0]), Pad(b[0], widths[0]), seps[0], f + x, g + y);
      Assoc(Pad(a[0], widths[0]) + seps[0], f, x);
      Assoc(Pad(b[0], widths[0]) + seps[0], g, y);
      if a[0] < b[0] {
        PadLess(a[0], b[0], widths[0]);
      }
    }
  }

  lemma {:induction false} LessAt(a: string, b: string, i: nat)
    requires i < |a| && i < |b| && a[..i] == b[..i] && a[i] < b[i]
    ensures Less(a, b) && !Less(b, a)
  {
    if i > 0 {
      assert a[0] == a[..i][0] && b[0] == b[..i][0];
      assert a[1..][..i - 1] == a[..i][1..] && b[1..][..i - 1] == b[..i][1..];
      LessAt(a[1..], b[1..], i - 1);
    }
  }

  lemma {:induction false} LessWhere(a: string, b: string) returns (i: nat)
    requires |a| == |b| && Less(a, b)
    ensures i < |a| && a[..i] == b[..i] && a[i] < b[i]
  {
    if a[0] < b[0] {
      i := 0;
    } else {
      i := LessWhere(a[1..], b[1..]);
      i := i + 1;
      assert a[..i] == [a[0]] + a[1..][..i - 1] && b[..i] == [b[0]] + b[1..][..i - 1];
    }
  }

  lemma {:induction false} TrimZerosIs(s: string)
    ensures TrimZeros(s) <= s
    ensures forall i :: |TrimZeros(s)| <= i < |s| ==> s[i] == '0'
  {
    if s != "" && s[|s| - 1] == '0' {
      TrimZerosIs(s[..|s| - 1]);
    }
  }

  lemma {:induction false} PadDigits(n: nat, w: nat)
    ensures forall c :: c in Pad(n, w) ==> '0' <= c <= '9'
  {
    if w > 0 {
      PadDigits(n / 10, w - 1);
    }
  }

  lemma FractionFacts(n: nat)
    ensures Fraction(n) <= Pad(n, 9)
    ensures forall i :: |Fraction(n)| <= i < 9 ==> Pad(n, 9)[i] == '0'
    ensures forall i :: 0 <= i < |Fraction(n)| ==> '0' <= Fraction(n)[i] <= '9'
  {
    TrimZerosIs(Pad(n, 9));
    PadDigits(n, 9);
    assert forall i :: 0 <= i < |Fraction(n)| ==> Fraction(n)[i] == Pad(n, 9)[i] && Pad(n, 9)[i] in Pad(n, 9);
  }

  lemma Pow10Nine()
    ensures Pow10(9) == 1_000_000_000 && Pow10(4) == 10_000 && Pow10(2) == 100
  {
    assert Pow10(2) == 100;
    assert Pow10(4) == 100 * Pow10(2);
    assert Pow10(6) == 100 * Pow10(4);
    assert Pow10(8) == 100 * Pow10(6);
  }

  /** Within one second the text is in order unless the earlier fraction is a prefix of the later one. */
  lemma FractionOrder(n: nat, m: nat)
    requires n < m < 1_000_000_000
    ensures Less(FractionText(n), FractionText(m)) <==> !(Fraction(n) <= Fraction(m))
    ensures Less(FractionText(m), FractionText(n)) <==> Fraction(n) <= Fraction(m)
  {
    Pow10Nine();
    PadLess(n, m, 9);
    var i := LessWhere(Pad(n, 9), Pad(m, 9));
    FractionFacts(n);
    FractionFacts(m);
    assert Pad(m, 9)[i] != '0' && i < |Fraction(m)|;
    if i < |Fraction(n)| {
      FractionsDiffer(n, m, i);
    } else {
      FractionsNest(n, m, i);
    }
  }

  lemma FractionsDiffer(n: nat, m: nat, i: nat)
    requires i < |Fraction(n)| && i < |Fraction(m)|
    requires Fraction(n) <= Pad(n, 9) && Fraction(m) <= Pad(m, 9)
    requires Pad(n, 9)[..i] == Pad(m, 9)[..i] && Pad(n, 9)[i] < Pad(m, 9)[i]
    ensures Less(FractionText(n), FractionText(m)) && !Less(FractionText(m), FractionText(n))
    ensures !(Fraction(n) <= Fraction(m))
  {
    var p, q := Fraction(n), Fraction(m);
    assert p[i] == Pad(n, 9)[i] && q[i] == Pad(m, 9)[i];
    assert p[..i] == Pad(n, 9)[..i] && q[..i] == Pad(m, 9)[..i];
    var x, y := FractionText(n), FractionText(m);
    assert x == "." + p + "Z" && y == "." + q + "Z";
    assert x[..i + 1] == "." + p[..i] && y[..i + 1] == "." + q[..i];
    LessAt(x, y, i + 1);
  }

  lemma FractionsNest(n: nat, m: nat, i: nat)
    requires |Fraction(n)| <= i < |Fraction(m)|
    requires Fraction(n) <= Pad(n, 9) && Fraction(m) <= Pad(m, 9)
    requires forall j :: 0 <= j < |Fraction(m)| ==> '0' <= Fraction(m)[j] <= '9'
    requires Pad(n, 9)[..i] == Pad(m, 9)[..i]
    ensures Less(FractionText(m), FractionText(n)) && !Less(FractionText(n), FractionText(m))
    ensures Fraction(n) <= Fraction(m)
  {
    var p, q := Fraction(n), Fraction(m);
    var k := |p|;
    assert p == Pad(n, 9)[..i][..k] && q[..k] == Pad(m, 9)[..i][..k];
    var x, y := FractionText(n), FractionText(m);
    assert y == "." + q + "Z";
    if k == 0 {
      LessAt(y, x, 0);
    } else {
      assert x == "." + p + "Z";
      assert x[..k + 1] == "." + p && y[..k + 1] == "." + q[..k];
      LessAt(y, x, k + 1);
    }
  }

  /**
    The text of `b` sorts before that of the earlier time `a`: both are in the same
    second and the fraction digits of `a` are a prefix of those of `b`.
   */
  predicate Misordered(a: Instant, b: Instant) {
    Seconds(a) == Seconds(b) && a.nano < b.nano && Fraction(a.nano) <= Fraction(b.nano)
  }

  /** The order of the text is the order of the times except for exactly the misordered pairs. */
  lemma TextOrder(a: Instant, b: Instant)
    requires Valid(a) && Valid(b) && Nanos(a) < Nanos(b)
    ensures Less(Format(a), Format(b)) <==> !Misordered(a, b)
    ensures Less(Format(b), Format(a)) <==> Misordered(a, b)
  {
    SecondOrder(a, b);
    Pow10Nine();
    var f := DateFields(a) + ClockFields(a);
    var g := DateFields(b) + ClockFields(b);
    FormatOrder(f, g, WIDTHS, SEPARATORS, FractionText(a.nano), FractionText(b.nano));
    if Seconds(a) == Seconds(b) {
      assert f == g;
      FormatOrder(g, f, WIDTHS, SEPARATORS, FractionText(b.nano), FractionText(a.nano));
      FractionOrder(a.nano, b.nano);
    } else {
      assert Seconds(a) < Seconds(b);
      LessAsymmetric(Format(a), Format(b));
    }
  }

  lemma LessAsymmetric(a: string, b: string)
    requires Less(a, b)
    ensures !Less(b, a)
  {
    if Less(b, a) {
      LessTransitive(a, b, a);
      LessIrreflexive(a);
    }
  }

  // ----- purging -----

  /** The expiry is past and not misordered with the current time, or still to come and misordered with it. */
  predicate PurgedAt(e: Instant, now: Instant) {
    (Nanos(e) < Nanos(now) && !Misordered(e, now)) || (Nanos(now) < Nanos(e) && Misordered(now, e))
  }

  /** A table of expiring rows: key to the stored text of the expiry. */
  class ExpiryTable {
    var rows: map<string, string>

    constructor ()
      ensures rows == map[]
    {
      rows := map[];
    }

    /**
      `DELETE ... WHERE expires_at < ?` with the text of the current time: a row that
      holds the text of a time is deleted exactly when that time says so.
     */
    method PurgeExpired(now: Instant) returns (deleted: nat)
      requires Valid(now)
      modifies this
      ensures forall k, e :: k in old(rows) && Valid(e) && old(rows)[k] == Format(e) ==> (k in rows <==> !PurgedAt(e, now))
      ensures forall k :: k in rows ==> k in old(rows) && rows[k] == old(rows)[k]
      ensures deleted == |old(rows)| - |rows|
    {
      forall e | Valid(e) ensures Less(Format(e), Format(now)) <==> PurgedAt(e, now) {
        PurgedIff(e, now);
      }
      var kept := map k | k in rows && !Less(rows[k], Format(now)) :: rows[k];
      assert kept.Keys <= rows.Keys;
      SmallerKeys(kept.Keys, rows.Keys);
      deleted := |rows| - |kept|;
      rows := kept;
    }
  }

  lemma {:induction false} SmallerKeys<T>(a: set<T>, b: set<T>)
    requires a <= b
    ensures |a| <= |b|
    decreases |a|
  {
    if a != {} {
      var x :| x in a;
      SmallerKeys(a - {x}, b - {x});
    }
  }

  /** Exactly which rows a purge at `now` deletes. */
  lemma PurgedIff(e: Instant, now: Instant)
    requires Valid(e) && Valid(now)
    ensures Less(Format(e), Format(now)) <==> PurgedAt(e, now)
  {
    SecondOrder(e, now);
    if Nanos(e) < Nanos(now) {
      TextOrder(e, now);
    } else if Nanos(now) < Nanos(e) {
      TextOrder(now, e);
    } else {
      assert e == now;
      LessIrreflexive(Format(e));
    }
  }

  /**
    Whatever the fractions, a row whose expiry second is past is deleted and one
    whose expiry second is yet to come is kept.
   */
  lemma PurgeBySecond(e: Instant, now: Instant)
    requires Valid(e) && Valid(now)
    ensures Seconds(e) < Seconds(now) ==> Less(Format(e), Format(now))
    ensures Seconds(e) > Seconds(now) ==> !Less(Format(e), Format(now))
  {
    PurgedIff(e, now);
  }

  /** Half a second before it expires, a row can already be deleted. */
  lemma {:induction false} PurgedTooEarly(t: Instant)
    requires Valid(t) && t.nano == 0
    ensures var e := t.(nano := 500_000_000); Nanos(t) < Nanos(e) && Less(Format(e), Format(t))
  {
    var e := t.(nano := 500_000_000);
    assert Fraction(0) == "" by {
      FractionZero(9);
    }
    PurgedIff(e, t);
  }

  /** Half a second after it expired, a row can still be kept. */
  lemma {:induction false} PurgedTooLate(e: Instant)
    requires Valid(e) && e.nano == 0
    ensures var now := e.(nano := 500_000_000); Nanos(e) < Nanos(now) && !Less(Format(e), Format(now))
  {
    var now := e.(nano := 500_000_000);
    assert Fraction(0) == "" by {
      FractionZero(9);
    }
    PurgedIff(e, now);
  }

  lemma {:induction false} FractionZero(w: nat)
    ensures TrimZeros(Pad(0, w)) == ""
  {
    if w > 0 {
      FractionZero(w - 1);
      assert Pad(0, w)[..w - 1] == Pad(0, w - 1);
    }
  }
}
