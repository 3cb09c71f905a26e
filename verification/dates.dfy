/** Date strings built by the client components from a `Date`'s local-time parts. */
module Dates {
  import opened Strings

  /** What `getFullYear()`, `getMonth()` (0-based) and `getDate()` report. */
  datatype LocalDate = LocalDate(year: int, month: nat, day: nat) {
    predicate Valid() {
      month < 12 && 1 <= day <= 31
    }
  }

  /** The pieces of `a + [c] + b` can be read back by position. */
  lemma Around(a: string, c: char, b: string)
    ensures var r := a + [c] + b;
      |r| == |a| + 1 + |b| && r[..|a|] == a && r[|a|] == c && r[|a| + 1..] == b
  {
    var r := a + [c] + b;
    assert r[..|a|] == a;
    assert r[|a| + 1..] == b;
  }

  /** Two numbers below 100, each as `String(n).padStart(2, "0")`, joined by `sep`. */
  function PaddedPair(a: nat, b: nat, sep: char): (r: string)
    requires a < 100 && b < 100
    ensures |r| == 5 && r[2] == sep
    ensures AllDigits(r[..2]) && DigitsValue(r[..2]) == a
    ensures AllDigits(r[3..]) && DigitsValue(r[3..]) == b
  {
    Pad2RoundTrip(a);
    Pad2RoundTrip(b);
    Around(Pad2(a), sep, Pad2(b));
    Pad2(a) + [sep] + Pad2(b)
  }

  /** `dd/mm`: zero-padded day, then the zero-padded 1-based month. */
  function DayMonth(d: LocalDate): (r: string)
    requires d.Valid()
    ensures |r| == 5 && r[2] == '/'
    ensures AllDigits(r[..2]) && DigitsValue(r[..2]) == d.day
    ensures AllDigits(r[3..]) && DigitsValue(r[3..]) == d.month + 1
  {
    PaddedPair(d.day, d.month + 1, '/')
  }

  /** `dd/mm/yyyy`, the year as `String(year)`. */
  function DayMonthYear(d: LocalDate): (r: string)
    requires d.Valid()
    ensures |r| == 6 + |IntToString(d.year)| && r[..5] == DayMonth(d) && r[5] == '/'
    ensures r[6..] == IntToString(d.year)
  {
    var dm := DayMonth(d);
    var ys := IntToString(d.year);
    Around(dm, '/', ys);
    dm + ['/'] + ys
  }

  /** `yyyy-mm-dd`, the value format of an `<input type="date">`: `String(year)`, then
      the zero-padded 1-based month and the zero-padded day. */
  function IsoDate(d: LocalDate): (r: string)
    requires d.Valid()
    ensures var y := |IntToString(d.year)|;
      && |r| == y + 6 && r[..y] == IntToString(d.year) && r[y] == '-'
      && var md := r[y + 1..];
      && md[2] == '-'
      && AllDigits(md[..2]) && DigitsValue(md[..2]) == d.month + 1
      && AllDigits(md[3..]) && DigitsValue(md[3..]) == d.day
  {
    var ys := IntToString(d.year);
    var md := PaddedPair(d.month + 1, d.day, '-');
    Around(ys, '-', md);
    ys + ['-'] + md
  }

  /** A year from 1000 to 9999 prints as four digits. */
  lemma FourDigitYear(n: nat)
    requires 1000 <= n <= 9999
    ensures |NatToString(n)| == 4
  {
    assert 100 <= n / 10 < 1000;
    assert 10 <= n / 100 < 100;
    assert |NatToString(n / 10)| == |NatToString(n / 100)| + 1;
  }

  /** A four-digit year gives the ten-character `yyyy-mm-dd` form. */
  lemma IsoDateFourDigitYear(d: LocalDate)
    requires d.Valid() && 1000 <= d.year <= 9999
    ensures |IsoDate(d)| == 10 && IsoDate(d)[4] == '-' && IsoDate(d)[7] == '-'
  {
    FourDigitYear(d.year);
    var r := IsoDate(d);
    assert |IntToString(d.year)| == 4;
    var md := r[5..];
    assert md[2] == r[7];
  }

  /** Two dates print the same `dd/mm` exactly when day and month agree. */
  lemma DayMonthInjective(a: LocalDate, b: LocalDate)
    requires a.Valid() && b.Valid()
    ensures DayMonth(a) == DayMonth(b) <==> (a.day == b.day && a.month == b.month)
  {
    if DayMonth(a) == DayMonth(b) {
      assert DayMonth(a)[..2] == DayMonth(b)[..2];
      assert DayMonth(a)[3..] == DayMonth(b)[3..];
    }
  }
}
