/** Calendar dates and the one `YYYY/MM/DD` parser the importer (`convert_date`) and
    the query validator (`_check_dates`) share: CPython's
    `datetime.strptime(text, "%Y/%m/%d")`. Its pattern reads four digits for the
    year, `1[0-2]|0[1-9]|[1-9]` for the month and `3[01]|[12]\d|0[1-9]|[1-9]| [1-9]`
    for the day, must consume the whole text, and the date built from the fields
    must exist (year at least 1, day within the month). */
module Calendar {
  import opened Wrappers
  import opened PyStr

  datatype Date = Date(year: int, month: int, day: int)

  /** Gregorian leap years. */
  predicate IsLeap(y: int)
  {
    y % 4 == 0 && (y % 100 != 0 || y % 400 == 0)
  }

  function DaysInMonth(y: int, m: int): (n: int)
    requires 1 <= m <= 12
    ensures 28 <= n <= 31
    ensures n == 29 <==> m == 2 && IsLeap(y)
  {
    if m == 2 then (if IsLeap(y) then 29 else 28)
    else if m == 4 || m == 6 || m == 9 || m == 11 then 30
    else 31
  }

  /** A date Python's `datetime.date` can hold. */
  predicate IsValid(d: Date)
  {
    1 <= d.year <= 9999 && 1 <= d.month <= 12 && 1 <= d.day <= DaysInMonth(d.year, d.month)
  }

  /** Python's `a <= b` on dates: by year, then month, then day. */
  predicate NotAfter(a: Date, b: Date)
  {
    || a.year < b.year
    || (a.year == b.year && a.month < b.month)
    || (a.year == b.year && a.month == b.month && a.day <= b.day)
  }

  /** Date order is a total order. */
  lemma NotAfterTotalOrder(a: Date, b: Date, c: Date)
    ensures NotAfter(a, a)
    ensures NotAfter(a, b) || NotAfter(b, a)
    ensures NotAfter(a, b) && NotAfter(b, a) ==> a == b
    ensures NotAfter(a, b) && NotAfter(b, c) ==> NotAfter(a, c)
  {
  }

  /** The month field: one of 1..9, 01..09, 10..12. */
  function MonthField(t: string): (r: Option<int>)
    ensures r.Some? ==> 1 <= r.value <= 12
  {
    if |t| == 1 && '1' <= t[0] <= '9' then Some(DigitValue(t[0]))
    else if |t| == 2 && t[0] == '0' && '1' <= t[1] <= '9' then Some(DigitValue(t[1]))
    else if |t| == 2 && t[0] == '1' && '0' <= t[1] <= '2' then Some(10 + DigitValue(t[1]))
    else None
  }

  /** The day field: the first alternative of `3[01]|[12]\d|0[1-9]|[1-9]| [1-9]`
      that matches must cover the whole rest of the text. */
  function DayField(t: string): (r: Option<int>)
    ensures r.Some? ==> 1 <= r.value <= 31
  {
    if |t| == 2 && t[0] == '3' && '0' <= t[1] <= '1' then Some(30 + DigitValue(t[1]))
    else if |t| == 2 && '1' <= t[0] <= '2' && IsDigit(t[1]) then Some(10 * DigitValue(t[0]) + DigitValue(t[1]))
    else if |t| == 2 && t[0] == '0' && '1' <= t[1] <= '9' then Some(DigitValue(t[1]))
    else if |t| == 1 && '1' <= t[0] <= '9' then Some(DigitValue(t[0]))
    else if |t| == 2 && t[0] == ' ' && '1' <= t[1] <= '9' then Some(DigitValue(t[1]))
    else None
  }

  /** `datetime.strptime(s, "%Y/%m/%d").date()`, with None where Python raises
      ValueError. Whatever it accepts is a date that exists, written as four year
      digits, a slash, one or two month characters, a slash and the day. */
  function ParseDate(s: string): (r: Option<Date>)
    ensures r.Some? ==> IsValid(r.value)
    ensures r.Some? ==> 8 <= |s| <= 10 && s[4] == '/' && forall k :: 0 <= k < 4 ==> IsDigit(s[k])
  {
    if |s| < 5 || !IsDigit(s[0]) || !IsDigit(s[1]) || !IsDigit(s[2]) || !IsDigit(s[3]) || s[4] != '/' then None
    else
      var year := 1000 * DigitValue(s[0]) + 100 * DigitValue(s[1]) + 10 * DigitValue(s[2]) + DigitValue(s[3]);
      var rest := s[5..];
      var slash := if |rest| >= 2 && rest[1] == '/' then 1 else 2;
      if |rest| <= slash || rest[slash] != '/' then None
      else
        var month := MonthField(rest[..slash]);
        var day := DayField(rest[slash + 1..]);
        if month.None? || day.None? then None
        else
          var d := Date(year, month.value, day.value);
          if IsValid(d) then Some(d) else None
  }

  /** Two digits, zero-padded. */
  function Pad2(n: nat): (r: string)
    requires n < 100
    ensures |r| == 2 && IsDigit(r[0]) && IsDigit(r[1])
    ensures 10 * DigitValue(r[0]) + DigitValue(r[1]) == n
  {
    [DigitChar(n / 10), DigitChar(n % 10)]
  }

  /** `%Y` as strftime writes a year: four digits, zero-padded, spelling the year. */
  function YearText(y: int): (r: string)
    requires 0 <= y <= 9999
    ensures |r| == 4 && forall k :: 0 <= k < 4 ==> IsDigit(r[k])
    ensures 1000 * DigitValue(r[0]) + 100 * DigitValue(r[1]) + 10 * DigitValue(r[2]) + DigitValue(r[3]) == y
  {
    Pad2(y / 100) + Pad2(y % 100)
  }

  /** `date.strftime("%Y/%m/%d")` for a valid date. */
  function FormatDate(d: Date): (r: string)
    requires IsValid(d)
    ensures |r| == 10 && r[4] == '/' && r[7] == '/'
  {
    YearText(d.year) + "/" + Pad2(d.month) + "/" + Pad2(d.day)
  }

  /** Every valid date, written zero-padded, parses back to itself. */
  lemma ParseFormatDate(d: Date)
    requires IsValid(d)
    ensures ParseDate(FormatDate(d)) == Some(d)
  {
    var s := FormatDate(d);
    var y := YearText(d.year);
    assert s[0] == y[0] && s[1] == y[1] && s[2] == y[2] && s[3] == y[3];
    var rest := s[5..];
    assert rest == Pad2(d.month) + "/" + Pad2(d.day);
    assert rest[..2] == Pad2(d.month) && rest[3..] == Pad2(d.day);
    assert MonthField(rest[..2]) == Some(d.month);
    assert DayField(rest[3..]) == Some(d.day);
  }

  /** The one-digit forms and the space-padded day are read too. */
  lemma ParseShortForms()
    ensures ParseDate("2022/1/5") == Some(Date(2022, 1, 5))
    ensures ParseDate("2022/12/ 5") == Some(Date(2022, 12, 5))
    ensures ParseDate("2024/02/29") == Some(Date(2024, 2, 29))
  {
    assert "2022/1/5"[5..][..1] == "1" && "2022/1/5"[5..][2..] == "5";
    assert "2022/12/ 5"[5..][..2] == "12" && "2022/12/ 5"[5..][3..] == " 5";
    assert "2024/02/29"[5..][..2] == "02" && "2024/02/29"[5..][3..] == "29";
  }

  /** Texts strptime refuses: a dash separator, a day past the month's end, year 0,
      a three-digit day, trailing text. */
  lemma ParseRejects()
    ensures ParseDate("2022-12-01") == None
    ensures ParseDate("2023/02/29") == None
    ensures ParseDate("0000/01/01") == None
    ensures ParseDate("2022/12/010") == None
    ensures ParseDate("2022/12/01 ") == None
  {
    assert "2023/02/29"[5..][..2] == "02" && "2023/02/29"[5..][3..] == "29";
    assert "2022/12/010"[5..][3..] == "010";
    assert "2022/12/01 "[5..][3..] == "01 ";
  }

  /** The texts `%m` reads as month `m`: its two zero-padded digits, or a single
      digit for the months before October. */
  lemma MonthRenderings(m: int, t: string)
    ensures MonthField(t) == Some(m) <==>
              || (1 <= m <= 12 && t == Pad2(m))
              || (1 <= m <= 9 && t == [DigitChar(m)])
  {
    if 1 <= m <= 12 && t == Pad2(m) {
      assert t[0] == DigitChar(m / 10) && t[1] == DigitChar(m % 10);
    }
    if MonthField(t) == Some(m) {
      if |t| == 1 {
        assert t == [DigitChar(m)];
      } else {
        assert t == [t[0], t[1]];
        assert t == Pad2(m);
      }
    }
  }

  /** The texts `%d` reads as day `d`: its two zero-padded digits, or for the first
      nine days a single digit, with or without a leading space. */
  lemma DayRenderings(d: int, t: string)
    ensures DayField(t) == Some(d) <==>
              || (1 <= d <= 31 && t == Pad2(d))
              || (1 <= d <= 9 && (t == [DigitChar(d)] || t == [' ', DigitChar(d)]))
  {
    if 1 <= d <= 31 && t == Pad2(d) {
      assert t[0] == DigitChar(d / 10) && t[1] == DigitChar(d % 10);
    }
    if DayField(t) == Some(d) {
      if |t| == 1 {
        assert t == [DigitChar(d)];
      } else if t[0] == ' ' {
        assert t == [' ', DigitChar(d)];
      } else {
        assert t == [t[0], t[1]];
        assert t == Pad2(d);
      }
    }
  }

  /** Every way strptime accepts of writing a valid date (the year's four digits,
      then any month and day text `%m` and `%d` read as its month and day) parses
      to that date. */
  lemma ParseRendering(d: Date, month: string, day: string)
    requires IsValid(d) && MonthField(month) == Some(d.month) && DayField(day) == Some(d.day)
    ensures ParseDate(YearText(d.year) + "/" + month + "/" + day) == Some(d)
  {
    var y := YearText(d.year);
    var s := y + "/" + month + "/" + day;
    assert s[0] == y[0] && s[1] == y[1] && s[2] == y[2] && s[3] == y[3] && s[4] == '/';
    var rest := s[5..];
    assert rest == month + "/" + day;
    var slash := |month|;
    assert rest[1] == (if slash == 1 then '/' else month[1]);
    assert rest[..slash] == month && rest[slash] == '/' && rest[slash + 1..] == day;
  }

  /** A year splits into its century and the year within it. */
  lemma Century(hi: nat, lo: nat)
    requires lo < 100
    ensures (100 * hi + lo) / 100 == hi && (100 * hi + lo) % 100 == lo
  {
  }

  /** A two-digit number splits into its digits. */
  lemma Tens(hi: nat, lo: nat)
    requires lo < 10
    ensures (10 * hi + lo) / 10 == hi && (10 * hi + lo) % 10 == lo
  {
  }

  /** Four digits read as a year are that year's `%Y` spelling. */
  lemma YearDigits(s: string)
    requires |s| >= 4 && forall k :: 0 <= k < 4 ==> IsDigit(s[k])
    ensures var y := 1000 * DigitValue(s[0]) + 100 * DigitValue(s[1]) + 10 * DigitValue(s[2]) + DigitValue(s[3]);
            0 <= y <= 9999 && YearText(y) == s[..4]
  {
    var a, b, c, e := DigitValue(s[0]), DigitValue(s[1]), DigitValue(s[2]), DigitValue(s[3]);
    var year := 100 * (10 * a + b) + (10 * c + e);
    Century(10 * a + b, 10 * c + e);
    Tens(a, b);
    Tens(c, e);
    var y := YearText(year);
    assert y[0] == DigitChar(a) == s[0] && y[1] == DigitChar(b) == s[1];
    assert y[2] == DigitChar(c) == s[2] && y[3] == DigitChar(e) == s[3];
  }

  /** Conversely, whatever strptime accepts is such a rendering of the date it yields. */
  lemma ParsedIsRendering(s: string)
    requires ParseDate(s).Some?
    ensures var d := ParseDate(s).value;
            exists month, day ::
              && MonthField(month) == Some(d.month) && DayField(day) == Some(d.day)
              && s == YearText(d.year) + "/" + month + "/" + day
  {
    var d := ParseDate(s).value;
    var rest := s[5..];
    var slash := if |rest| >= 2 && rest[1] == '/' then 1 else 2;
    var month, day := rest[..slash], rest[slash + 1..];
    assert MonthField(month) == Some(d.month) && DayField(day) == Some(d.day);
    YearDigits(s);
    assert s[..4] == YearText(d.year);
    assert s == s[..4] + "/" + month + "/" + day;
  }
}
