/** The `YYYY-MM-DD` key under which the activity map stores a day's count,
    built as `${year}-${String(month).padStart(2, "0")}-${String(day).padStart(2, "0")}`.
    The month and day are zero-padded; the year is not. */
module DateKeys {
  import opened Wrappers
  import opened Text

  datatype Date = Date(year: int, month: int, day: int)

  /** The two-character rendering of a month or day number below 100. */
  function Pad2(n: int): string
  {
    PadStart(IntToDecimal(n), 2, '0')
  }

  /** `${year}-${pad(month)}-${pad(day)}`: the year as written, then the month
      and the day as two digits each, separated by '-'. */
  function DateKey(year: int, month: int, day: int): (k: string)
    ensures 0 <= month < 100 && 0 <= day < 100 ==>
              |k| == |IntToDecimal(year)| + 6
  {
    var k := IntToDecimal(year) + "-" + Pad2(month) + "-" + Pad2(day);
    if 0 <= month < 100 && 0 <= day < 100 then
      Pad2RoundTrip(month);
      Pad2RoundTrip(day);
      k
    else
      k
  }

  // ---------------------------------------------------------------------------
  // Reading a key back
  // ---------------------------------------------------------------------------

  function ParseTwoDigits(s: string): Option<nat>
  {
    if |s| == 2 && IsDigit(s[0]) && IsDigit(s[1]) then Some(DigitValue(s[0]) * 10 + DigitValue(s[1]))
    else None
  }

  predicate AllDigits(s: string)
  {
    forall i :: 0 <= i < |s| ==> IsDigit(s[i])
  }

  /** Inverse of `IntToDecimal`: an optional minus sign, then digits. */
  function ParseInt(s: string): Option<int>
  {
    if |s| >= 2 && s[0] == '-' && AllDigits(s[1..]) then Some(0 - DigitsValue(s[1..]) as int)
    else if |s| >= 1 && AllDigits(s) then Some(DigitsValue(s))
    else None
  }

  /** Splits a key into year, month and day: everything before the last six
      characters is the year, then `-MM-DD`. */
  function ParseDateKey(key: string): Option<Date>
  {
    if |key| < 7 || key[|key| - 6] != '-' || key[|key| - 3] != '-' then None
    else
      match (ParseInt(key[..|key| - 6]), ParseTwoDigits(key[|key| - 5..|key| - 3]), ParseTwoDigits(key[|key| - 2..]))
      case (Some(y), Some(m), Some(d)) => Some(Date(y, m, d))
      case _ => None
  }

  lemma Pad2RoundTrip(n: nat)
    requires n < 100
    ensures |Pad2(n)| == 2 && ParseTwoDigits(Pad2(n)) == Some(n)
  {
    assert IntToDecimal(n) == NatToDecimal(n);
    var s := NatToDecimal(n);
    if n >= 10 {
      assert NatToDecimal(n / 10) == [DigitChar(n / 10)];
      assert s == [DigitChar(n / 10), DigitChar(n % 10)];
    }
  }

  lemma IntToDecimalRoundTrip(x: int)
    ensures |IntToDecimal(x)| >= 1 && ParseInt(IntToDecimal(x)) == Some(x)
  {
    if x < 0 {
      var s := IntToDecimal(x);
      assert s[1..] == NatToDecimal(-x);
    }
  }

  /** Reading a key assembled from a year, a month and a day field. */
  lemma ParseAssembledKey(ys: string, ms: string, ds: string)
    requires |ys| >= 1 && |ms| == 2 && |ds| == 2
    ensures var key := ys + "-" + ms + "-" + ds;
            ParseDateKey(key) ==
              match (ParseInt(ys), ParseTwoDigits(ms), ParseTwoDigits(ds))
              case (Some(y), Some(m), Some(d)) => Some(Date(y, m, d))
              case _ => None
  {
    var key := ys + "-" + ms + "-" + ds;
    assert |key| == |ys| + 6;
    assert key[..|key| - 6] == ys;
    assert key[|key| - 5..|key| - 3] == ms;
    assert key[|key| - 2..] == ds;
  }

  /** Every key reads back as the date it was built from, for every year
      (negative ones included) and every month and day below 100. */
  lemma DateKeyRoundTrip(year: int, month: nat, day: nat)
    requires month < 100 && day < 100
    ensures ParseDateKey(DateKey(year, month, day)) == Some(Date(year, month, day))
  {
    Pad2RoundTrip(month);
    Pad2RoundTrip(day);
    IntToDecimalRoundTrip(year);
    ParseAssembledKey(IntToDecimal(year), Pad2(month), Pad2(day));
  }

  /** Distinct dates have distinct keys, so no two calendar cells share a count. */
  lemma DateKeyInjective(a: Date, b: Date)
    requires 0 <= a.month < 100 && 0 <= a.day < 100
    requires 0 <= b.month < 100 && 0 <= b.day < 100
    requires DateKey(a.year, a.month, a.day) == DateKey(b.year, b.month, b.day)
    ensures a == b
  {
    DateKeyRoundTrip(a.year, a.month, a.day);
    DateKeyRoundTrip(b.year, b.month, b.day);
  }

  // ---------------------------------------------------------------------------
  // Agreement with `full-date` of RFC 3339 (section 5.6)
  // ---------------------------------------------------------------------------

  /** `date-fullyear "-" date-month "-" date-mday`: four, two and two digits. */
  predicate IsFullDate(s: string)
  {
    |s| == 10 && s[4] == '-' && s[7] == '-'
    && AllDigits(s[..4]) && AllDigits(s[5..7]) && AllDigits(s[8..])
  }

  lemma AssembledKeyIsFullDate(ys: string, ms: string, ds: string)
    requires |ys| == 4 && AllDigits(ys)
    requires ParseTwoDigits(ms).Some? && ParseTwoDigits(ds).Some?
    ensures IsFullDate(ys + "-" + ms + "-" + ds)
  {
    var key := ys + "-" + ms + "-" + ds;
    assert key[..4] == ys;
    assert key[5..7] == ms;
    assert key[8..] == ds;
  }

  /** For four-digit years every key is an RFC 3339 full-date. */
  lemma FourDigitYearKeyIsFullDate(year: int, month: nat, day: nat)
    requires 1000 <= year <= 9999 && 1 <= month <= 12 && 1 <= day <= 31
    ensures IsFullDate(DateKey(year, month, day))
  {
    assert Pow10(3) == 1000 && Pow10(4) == 10000 by {
      assert Pow10(1) == 10;
      assert Pow10(2) == 100;
    }
    NatToDecimalLength(year, 4);
    NatToDecimalLength(year, 3);
    assert |NatToDecimal(year)| == 4;
    assert IntToDecimal(year) == NatToDecimal(year);
    Pad2RoundTrip(month);
    Pad2RoundTrip(day);
    AssembledKeyIsFullDate(NatToDecimal(year), Pad2(month), Pad2(day));
  }

  /** The year is not padded: year 999 gives a nine-character key. */
  lemma ShortYearKeyIsNotFullDate()
    ensures |DateKey(999, 1, 1)| == 9
    ensures !IsFullDate(DateKey(999, 1, 1))
  {
    assert Pow10(2) == 100 && Pow10(3) == 1000;
    NatToDecimalLength(999, 3);
    NatToDecimalLength(999, 2);
    assert IntToDecimal(999) == NatToDecimal(999);
    Pad2RoundTrip(1);
  }
}
