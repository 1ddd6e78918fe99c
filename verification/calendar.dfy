/** Calendar dates as Python's `datetime.date` holds them: proleptic Gregorian
    year, month and day with the year in 1..9999, ordered as (year, month, day)
    tuples. Also `date + timedelta(days=1)`, `date.isoformat()` and
    `datetime.strptime(s, "%Y-%m-%d")`. */
module Calendar {
  import opened Wrappers
  import opened Text
  import opened Builtins

  datatype Date = Date(year: int, month: int, day: int)

  predicate IsLeapYear(y: int) {
    y % 4 == 0 && (y % 100 != 0 || y % 400 == 0)
  }

  function DaysInMonth(y: int, m: int): int
    requires 1 <= m <= 12
  {
    if m == 2 then (if IsLeapYear(y) then 29 else 28)
    else if m == 4 || m == 6 || m == 9 || m == 11 then 30
    else 31
  }

  const MaxYear := 9999

  predicate IsValidDate(d: Date) {
    && 1 <= d.year <= MaxYear
    && 1 <= d.month <= 12
    && 1 <= d.day <= DaysInMonth(d.year, d.month)
  }

  type CalendarDate = d: Date | IsValidDate(d) witness Date(2000, 1, 1)

  /** The last date Python can represent (`date.max`). */
  const LastDate: CalendarDate := Date(MaxYear, 12, 31)

  /** Python's `a < b` on dates. */
  predicate Before(a: Date, b: Date) {
    || a.year < b.year
    || (a.year == b.year && a.month < b.month)
    || (a.year == b.year && a.month == b.month && a.day < b.day)
  }

  /** Python's `a <= b` on dates. */
  predicate NotAfter(a: Date, b: Date) {
    !Before(b, a)
  }

  /** The date order is a strict total order. */
  lemma BeforeIsStrictTotalOrder(a: Date, b: Date, c: Date)
    ensures !Before(a, a)
    ensures Before(a, b) && Before(b, c) ==> Before(a, c)
    ensures a == b || Before(a, b) || Before(b, a)
  {
  }

  /** A date before `today` is replaced by `today`; any other date is kept. */
  function ClampToToday(d: CalendarDate, today: CalendarDate): (r: CalendarDate)
    ensures NotAfter(today, r)
    ensures NotAfter(today, d) ==> r == d
    ensures Before(d, today) ==> r == today
  {
    if Before(d, today) then today else d
  }

  /** Python's `d + timedelta(days=1)`: the next calendar date, or OverflowError
      past the last representable date. */
  function NextDay(d: CalendarDate): (r: Result<CalendarDate, Exception>)
    ensures r.Failure? <==> d == LastDate
    ensures r.Success? ==> Before(d, r.value)
    ensures r.Success? ==> forall x :: IsValidDate(x) && Before(d, x) ==> NotAfter(r.value, x)
  {
    if d.day < DaysInMonth(d.year, d.month) then Success(Date(d.year, d.month, d.day + 1))
    else if d.month < 12 then Success(Date(d.year, d.month + 1, 1))
    else if d.year < MaxYear then Success(Date(d.year + 1, 1, 1))
    else Failure(OverflowError("date value out of range"))
  }

  // ---------------------------------------------------------------------------
  // Rendering: date.isoformat()

  /** A run of zeros; prepending one to a digit run leaves its value unchanged. */
  function Zeros(n: nat): (r: string)
    ensures |r| == n && AllDigits(r)
    ensures forall k :: 0 <= k < n ==> r[k] == '0'
  {
    seq(n, _ => '0')
  }

  lemma {:induction false} LeadingZeros(z: string, d: string)
    requires forall k :: 0 <= k < |z| ==> z[k] == '0'
    requires AllDigits(d)
    ensures AllDigits(z + d) && DigitsValue(z + d) == DigitsValue(d)
    decreases |d|
  {
    assert AllDigits(z) && AllDigits(z + d);
    if d == [] {
      assert z + d == z;
      AllZerosValue(z);
    } else {
      assert (z + d)[..|z + d| - 1] == z + d[..|d| - 1];
      LeadingZeros(z, d[..|d| - 1]);
    }
  }

  lemma {:induction false} AllZerosValue(z: string)
    requires forall k :: 0 <= k < |z| ==> z[k] == '0'
    ensures AllDigits(z) && DigitsValue(z) == 0
    decreases |z|
  {
    if z != [] {
      AllZerosValue(z[..|z| - 1]);
    }
  }

  /** A number below 10^w has at most w decimal digits. */
  lemma {:induction false} DecimalLength(n: nat, w: nat)
    requires 0 < w && n < Pow10(w)
    ensures |Decimal(n)| <= w
    decreases n
  {
    if 10 <= n {
      assert 1 < w;
      DecimalLength(n / 10, w - 1);
    }
  }

  /** Python's `'%0<width>d' % n` for a non-negative `n`. */
  function ZeroPad(n: nat, width: nat): (r: string)
    requires 0 < width && n < Pow10(width)
    ensures |r| == width && AllDigits(r) && DigitsValue(r) == n
  {
    var d := Decimal(n);
    DecimalLength(n, width);
    LeadingZeros(Zeros(width - |d|), d);
    Zeros(width - |d|) + d
  }

  /** Python's `date.isoformat()`: `YYYY-MM-DD` with zero padding. */
  function IsoFormat(d: CalendarDate): string {
    assert Pow10(2) == 100 && Pow10(4) == 10000;
    ZeroPad(d.year, 4) + "-" + ZeroPad(d.month, 2) + "-" + ZeroPad(d.day, 2)
  }

  /** An ISO date is ten characters: four digits, a dash, two digits, a dash, two digits. */
  lemma IsoFormatShape(d: CalendarDate)
    ensures var r := IsoFormat(d);
      && |r| == 10 && r[4] == '-' && r[7] == '-'
      && AllDigits(r[..4]) && AllDigits(r[5..7]) && AllDigits(r[8..])
  {
    assert Pow10(2) == 100 && Pow10(4) == 10000;
    var r := IsoFormat(d);
    assert r[..4] == ZeroPad(d.year, 4) && r[5..7] == ZeroPad(d.month, 2) && r[8..] == ZeroPad(d.day, 2);
  }

  // ---------------------------------------------------------------------------
  // Parsing: datetime.strptime(s, "%Y-%m-%d")

  /** The texts the `%m` directive accepts: `1[0-2]`, `0[1-9]` or `[1-9]`. */
  predicate IsMonthText(t: string) {
    || (|t| == 1 && '1' <= t[0] <= '9')
    || (|t| == 2 && t[0] == '0' && '1' <= t[1] <= '9')
    || (|t| == 2 && t[0] == '1' && '0' <= t[1] <= '2')
  }

  /** The texts the `%d` directive accepts: `3[01]`, `[12]\d`, `0[1-9]`, `[1-9]`
      or a space followed by `[1-9]`. */
  predicate IsDayText(t: string) {
    || (|t| == 1 && '1' <= t[0] <= '9')
    || (|t| == 2 && t[0] == ' ' && '1' <= t[1] <= '9')
    || (|t| == 2 && t[0] == '0' && '1' <= t[1] <= '9')
    || (|t| == 2 && (t[0] == '1' || t[0] == '2') && IsDigit(t[1]))
    || (|t| == 2 && t[0] == '3' && (t[1] == '0' || t[1] == '1'))
  }

  function FieldValue(t: string): nat
    requires IsMonthText(t) || IsDayText(t)
  {
    if t[0] == ' ' then DigitValue(t[1]) else DigitsValue(t)
  }

  function IndexOf(s: string, c: char): (r: Option<nat>)
    ensures r.Some? ==> r.value < |s| && s[r.value] == c && c !in s[..r.value]
    ensures r.None? ==> c !in s
    decreases |s|
  {
    if s == [] then None
    else if s[0] == c then Some(0)
    else
      match IndexOf(s[1..], c)
      case None => None
      case Some(i) =>
        assert s[..i + 1] == [s[0]] + s[1..][..i];
        Some(i + 1)
  }

  /** `s` reads as `%Y-%m-%d` with its second dash at `i`: four digits, a dash, a
      month text, a dash and a day text, with nothing left over. */
  predicate SplitsAt(s: string, i: int) {
    && 5 <= i < |s| && AllDigits(s[..4]) && s[4] == '-' && s[i] == '-'
    && IsMonthText(s[5..i]) && IsDayText(s[i + 1..])
  }

  /** The year, month and day that the fields of such a text name. */
  function FieldsAt(s: string, i: int): Date
    requires SplitsAt(s, i)
  {
    Date(DigitsValue(s[..4]), FieldValue(s[5..i]), FieldValue(s[i + 1..]))
  }

  /** `datetime.strptime(s, "%Y-%m-%d")` reduced to its date: Some exactly when `s`
      has the `%Y-%m-%d` shape and its fields name a real calendar date; None where
      Python raises ValueError, whether for a text the directives do not accept,
      for unconverted data left over or for a date that does not exist. */
  function ParseYmd(s: string): (r: Option<CalendarDate>)
    ensures r.Some? ==> exists i :: SplitsAt(s, i) && r.value == FieldsAt(s, i)
    ensures forall i :: SplitsAt(s, i) ==> r == if IsValidDate(FieldsAt(s, i)) then Some(FieldsAt(s, i)) else None
  {
    if |s| < 5 || !AllDigits(s[..4]) || s[4] != '-' then None
    else
      var rest := s[5..];
      match IndexOf(rest, '-')
      case None =>
        assert forall i :: SplitsAt(s, i) ==> rest[i - 5] == '-';
        None
      case Some(j) =>
        SplitIsUnique(s, j + 5);
        var monthText, dayText := rest[..j], rest[j + 1..];
        assert monthText == s[5..j + 5] && dayText == s[j + 6..];
        if !IsMonthText(monthText) || !IsDayText(dayText) then None
        else
          var date := Date(DigitsValue(s[..4]), FieldValue(monthText), FieldValue(dayText));
          assert SplitsAt(s, j + 5) && date == FieldsAt(s, j + 5);
          if IsValidDate(date) then Some(date) else None
  }

  /** A month text holds no dash, so the second dash of a `%Y-%m-%d` text is the
      first dash after the year. */
  lemma SplitIsUnique(s: string, j: int)
    requires 5 <= j < |s| && s[j] == '-' && '-' !in s[5..j]
    ensures forall i :: SplitsAt(s, i) ==> i == j
  {
    forall k | 5 <= k < j ensures s[k] != '-' {
      assert s[5..j][k - 5] == s[k];
    }
    forall i | SplitsAt(s, i) ensures i == j {
      var m := s[5..i];
      assert forall k :: 0 <= k < |m| ==> m[k] != '-';
      forall k | 5 <= k < i ensures s[k] != '-' {
        assert m[k - 5] == s[k];
      }
    }
  }

  lemma TwoDigits(t: string)
    requires |t| == 2 && AllDigits(t)
    ensures DigitsValue(t) == 10 * DigitValue(t[0]) + DigitValue(t[1])
  {
    var head := t[..1];
    assert t[..|t| - 1] == head && head[..|head| - 1] == [];
    assert DigitsValue(head) == DigitValue(t[0]);
  }

  lemma OneDigit(t: string)
    requires |t| == 1 && AllDigits(t)
    ensures DigitsValue(t) == DigitValue(t[0])
  {
    assert t[..0] == [];
  }

  lemma FourDigits(t: string)
    requires |t| == 4 && AllDigits(t)
    ensures DigitsValue(t) == 1000 * DigitValue(t[0]) + 100 * DigitValue(t[1]) + 10 * DigitValue(t[2]) + DigitValue(t[3])
  {
    var t3, t2 := t[..3], t[..2];
    assert t[..|t| - 1] == t3 && t3[..|t3| - 1] == t2;
    TwoDigits(t2);
  }

  /** A zero-padded month renders as a text the `%m` directive reads back. */
  lemma MonthTextRoundTrip(m: nat)
    requires 1 <= m <= 12
    ensures IsMonthText(ZeroPad(m, 2)) && FieldValue(ZeroPad(m, 2)) == m
  {
    assert Pow10(2) == 100;
    TwoDigits(ZeroPad(m, 2));
  }

  /** A zero-padded day renders as a text the `%d` directive reads back. */
  lemma DayTextRoundTrip(d: nat)
    requires 1 <= d <= 31
    ensures IsDayText(ZeroPad(d, 2)) && FieldValue(ZeroPad(d, 2)) == d
  {
    assert Pow10(2) == 100;
    TwoDigits(ZeroPad(d, 2));
  }

  /** A text made of four year digits, a month text and a day text, joined by
      dashes, reads as the date those fields name, when that date exists. */
  lemma ParseOfFields(y: string, m: string, d: string)
    requires |y| == 4 && AllDigits(y) && IsMonthText(m) && IsDayText(d)
    ensures var date := Date(DigitsValue(y), FieldValue(m), FieldValue(d));
      ParseYmd(y + "-" + m + "-" + d) == if IsValidDate(date) then Some(date) else None
  {
    var s := y + "-" + m + "-" + d;
    assert s[..4] == y;
    var rest := s[5..];
    assert rest == m + "-" + d;
    assert IndexOf(rest, '-') == Some(|m|) by {
      if |m| == 2 {
        assert rest[1..][1..] == "-" + d;
      }
    }
    assert rest[..|m|] == m && rest[|m| + 1..] == d;
  }

  /** `strptime(d.isoformat(), "%Y-%m-%d")` gives back `d`. */
  lemma ParseIsoFormat(d: CalendarDate)
    ensures ParseYmd(IsoFormat(d)) == Some(d)
  {
    assert Pow10(2) == 100 && Pow10(4) == 10000;
    var y, m, dd := ZeroPad(d.year, 4), ZeroPad(d.month, 2), ZeroPad(d.day, 2);
    MonthTextRoundTrip(d.month);
    DayTextRoundTrip(d.day);
    ParseOfFields(y, m, dd);
    assert IsoFormat(d) == y + "-" + m + "-" + dd;
  }

  /** February 29th parses exactly in leap years. */
  lemma LeapDayParses(y: nat)
    requires 1 <= y <= MaxYear
    ensures ParseYmd(ZeroPad(y, 4) + "-02-29").Some? <==> IsLeapYear(y)
  {
    assert Pow10(4) == 10000;
    var y4 := ZeroPad(y, 4);
    TwoDigits("02");
    TwoDigits("29");
    ParseOfFields(y4, "02", "29");
    assert y4 + "-02-29" == y4 + "-" + "02" + "-" + "29";
  }

}
