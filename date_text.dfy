/** datetime.strptime(text, '%Y-%m-%d').date() and date.isoformat().
    strptime matches %Y as four digits, %m as 1[0-2] | 0[1-9] | [1-9] and %d
    as 3[01] | [12]\d | 0[1-9] | [1-9] | " "[1-9], demands that the match
    consume the whole text, and then builds the date, which fails unless the
    day exists in that month and the year is at least 1. */
module DateText {
  import opened Calendar
  import opened Outcomes

  predicate IsDigit(c: char) {
    '0' <= c <= '9'
  }

  predicate AllDigits(s: string) {
    forall i :: 0 <= i < |s| ==> IsDigit(s[i])
  }

  function DigitValue(c: char): (n: nat)
    requires IsDigit(c)
    ensures n <= 9
  {
    (c as int - '0' as int) as nat
  }

  function DigitChar(n: int): (c: char)
    requires 0 <= n <= 9
    ensures IsDigit(c) && DigitValue(c) == n
  {
    ('0' as int + n) as char
  }

  /** The month text matches 1[0-2] | 0[1-9] | [1-9] as a whole. */
  predicate MonthText(m: string) {
    || (|m| == 2 && m[0] == '1' && '0' <= m[1] <= '2')
    || (|m| == 2 && m[0] == '0' && '1' <= m[1] <= '9')
    || (|m| == 1 && '1' <= m[0] <= '9')
  }

  /** The day text is consumed whole by the first alternative of
      3[01] | [12]\d | 0[1-9] | [1-9] | " "[1-9] that matches it. */
  predicate DayText(d: string) {
    || (|d| == 2 && d[0] == '3' && (d[1] == '0' || d[1] == '1'))
    || (|d| == 2 && (d[0] == '1' || d[0] == '2') && IsDigit(d[1]))
    || (|d| == 2 && d[0] == '0' && '1' <= d[1] <= '9')
    || (|d| == 1 && '1' <= d[0] <= '9')
    || (|d| == 2 && d[0] == ' ' && '1' <= d[1] <= '9')
  }

  /** int() of four digits. */
  function YearValue(y: string): (n: int)
    requires |y| == 4 && AllDigits(y)
    ensures 0 <= n <= 9999
  {
    1000 * DigitValue(y[0]) + 100 * DigitValue(y[1]) + 10 * DigitValue(y[2]) + DigitValue(y[3])
  }

  /** int() of the month text. */
  function MonthValue(m: string): (n: int)
    requires MonthText(m)
    ensures 1 <= n <= 12
  {
    if |m| == 1 then DigitValue(m[0]) else 10 * DigitValue(m[0]) + DigitValue(m[1])
  }

  /** int() of the day text, which ignores the leading blank of " 5". */
  function DayValue(d: string): (n: int)
    requires DayText(d)
    ensures 1 <= n <= 31
  {
    if |d| == 1 then DigitValue(d[0])
    else if d[0] == ' ' then DigitValue(d[1])
    else 10 * DigitValue(d[0]) + DigitValue(d[1])
  }

  /** The position of the first '-' at or after position k, or |s|. */
  function DashFrom(s: string, k: nat): (j: nat)
    requires k <= |s|
    ensures k <= j <= |s|
    ensures j < |s| ==> s[j] == '-'
    ensures forall i :: k <= i < j ==> s[i] != '-'
    decreases |s| - k
  {
    if k == |s| || s[k] == '-' then k else DashFrom(s, k + 1)
  }

  /** strptime(s, '%Y-%m-%d').date(), or None where it raises ValueError. */
  function ParseIsoDate(s: string): (r: Option<Date>)
    ensures r.Some? ==> ValidDate(r.value) && r.value.year <= MaxYear
  {
    if |s| < 5 || !AllDigits(s[..4]) || s[4] != '-' then None
    else
      var j := DashFrom(s, 5);
      if j == |s| then None
      else
        var m, d := s[5..j], s[j + 1..];
        if !MonthText(m) || !DayText(d) then None
        else
          var y := YearValue(s[..4]);
          var month := MonthValue(m);
          var day := DayValue(d);
          if 1 <= y && day <= DaysInMonth(y, month) then Some(Date(y, month, day)) else None
  }

  /** date.isoformat(): the year as four digits, month and day as two. */
  function FormatIsoDate(d: Date): (s: string)
    requires ValidDate(d) && d.year <= MaxYear
    ensures |s| == 10 && s[4] == '-' && s[7] == '-'
  {
    var y, m, day := d.year, d.month, d.day;
    [DigitChar(y / 10 / 10 / 10), DigitChar(y / 10 / 10 % 10), DigitChar(y / 10 % 10), DigitChar(y % 10), '-',
     DigitChar(m / 10), DigitChar(m % 10), '-', DigitChar(day / 10), DigitChar(day % 10)]
  }

  lemma SplitDigits(n: int)
    requires 0 <= n <= 9999
    ensures n / 10 / 10 / 10 <= 9
    ensures 1000 * (n / 10 / 10 / 10) + 100 * (n / 10 / 10 % 10) + 10 * (n / 10 % 10) + n % 10 == n
    ensures n <= 99 ==> 10 * (n / 10) + n % 10 == n && n / 10 <= 9
  {
    var q1 := n / 10;
    var q2 := q1 / 10;
    assert n == 10 * q1 + n % 10;
    assert q1 == 10 * q2 + q1 % 10;
    assert q2 == 10 * (q2 / 10) + q2 % 10;
  }

  /** Every date datetime accepts survives formatting and parsing. */
  lemma ParseFormatRoundTrip(d: Date)
    requires ValidDate(d) && d.year <= MaxYear
    ensures ParseIsoDate(FormatIsoDate(d)) == Some(d)
  {
    var s := FormatIsoDate(d);
    assert DashFrom(s, 5) == 7;
    SplitDigits(d.year);
    SplitDigits(d.month);
    SplitDigits(d.day);
    assert YearValue(s[..4]) == d.year;
    assert MonthText(s[5..7]) && MonthValue(s[5..7]) == d.month;
    assert DayText(s[8..]) && DayValue(s[8..]) == d.day;
  }

  /** Parsing accepts the unpadded and blank-padded forms as well. */
  lemma ParseAcceptsShortForms()
    ensures ParseIsoDate("2024-2-9") == Some(Date(2024, 2, 9))
    ensures ParseIsoDate("2024-02- 9") == Some(Date(2024, 2, 9))
  {
    var s := "2024-2-9";
    assert DashFrom(s, 5) == 6;
    var t := "2024-02- 9";
    assert DashFrom(t, 5) == 7;
  }

  /** Days that do not exist, years before 1 and trailing text are rejected. */
  lemma ParseRejects()
    ensures ParseIsoDate("2023-02-29").None?
    ensures ParseIsoDate("0000-01-01").None?
    ensures ParseIsoDate("2024-13-01").None?
    ensures ParseIsoDate("2024-01-011").None?
  {
    var s := "2023-02-29";
    assert DashFrom(s, 5) == 7;
    var t := "0000-01-01";
    assert DashFrom(t, 5) == 7;
    var u := "2024-13-01";
    assert DashFrom(u, 5) == 7;
    var v := "2024-01-011";
    assert DashFrom(v, 5) == 7;
  }
}
