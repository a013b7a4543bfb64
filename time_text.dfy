/** Timestamps as the tool writes them into snapshot tags: Ruby's Time#to_s of a UTC time,
    "YYYY-MM-DD HH:MM:SS UTC", and the reading of that text back into epoch seconds that
    DateTime.parse(text).strftime("%s").to_i performs. Epoch seconds count from
    1970-01-01 00:00:00 UTC in the proleptic Gregorian calendar, without leap seconds. */
module TimeText {
  import opened Records
  import opened Decimal

  const SecondsPerDay: nat := 86400
  const EpochYear: nat := 1970

  predicate IsLeap(y: int)
  {
    y % 4 == 0 && (y % 100 != 0 || y % 400 == 0)
  }

  function YearLength(y: int): nat
  {
    if IsLeap(y) then 366 else 365
  }

  function MonthLength(y: int, m: int): nat
    requires 1 <= m <= 12
  {
    if m == 2 then (if IsLeap(y) then 29 else 28)
    else if m == 4 || m == 6 || m == 9 || m == 11 then 30
    else 31
  }

  /** Days in the months of year y that precede month m. */
  function DaysBeforeMonth(y: int, m: int): nat
    requires 1 <= m <= 13
  {
    if m == 1 then 0 else DaysBeforeMonth(y, m - 1) + MonthLength(y, m - 1)
  }

  /** The twelve months make up the year. */
  lemma MonthsFillYear(y: int)
    ensures DaysBeforeMonth(y, 13) == YearLength(y)
  {
    var leap := if IsLeap(y) then 1 else 0;
    assert DaysBeforeMonth(y, 2) == 31;
    assert DaysBeforeMonth(y, 3) == 59 + leap;
    assert DaysBeforeMonth(y, 4) == 90 + leap;
    assert DaysBeforeMonth(y, 5) == 120 + leap;
    assert DaysBeforeMonth(y, 6) == 151 + leap;
    assert DaysBeforeMonth(y, 7) == 181 + leap;
    assert DaysBeforeMonth(y, 8) == 212 + leap;
    assert DaysBeforeMonth(y, 9) == 243 + leap;
    assert DaysBeforeMonth(y, 10) == 273 + leap;
    assert DaysBeforeMonth(y, 11) == 304 + leap;
    assert DaysBeforeMonth(y, 12) == 334 + leap;
  }

  /** Days from 1970-01-01 to January 1 of year y (negative before 1970). */
  function DaysBeforeYear(y: int): int
    decreases if y >= EpochYear then y - EpochYear else EpochYear - y
  {
    if y == EpochYear then 0
    else if y > EpochYear then DaysBeforeYear(y - 1) + YearLength(y - 1)
    else DaysBeforeYear(y + 1) - YearLength(y)
  }

  /** A broken-down UTC time; day is 1-based. */
  datatype Civil = Civil(year: nat, month: nat, day: nat, hour: nat, minute: nat, second: nat)

  /** The calendar checks a date/time parser makes: an existing day, a time within the day. */
  predicate Valid(c: Civil)
  {
    1 <= c.month <= 12 && 1 <= c.day <= MonthLength(c.year, c.month)
    && c.hour < 24 && c.minute < 60 && c.second < 60
  }

  /** Epoch seconds of a broken-down UTC time. */
  function ToEpoch(c: Civil): int
    requires Valid(c)
  {
    (DaysBeforeYear(c.year) + DaysBeforeMonth(c.year, c.month) + c.day - 1) * SecondsPerDay
      + c.hour * 3600 + c.minute * 60 + c.second
  }

  /** The year that contains day number `days` counted from January 1 of year y, and the
      0-based day within it. */
  function YearOf(days: nat, y: int): (r: (int, nat))
    ensures y <= r.0 && r.1 < YearLength(r.0)
    ensures DaysBeforeYear(r.0) + r.1 == DaysBeforeYear(y) + days
    decreases days
  {
    if days < YearLength(y) then (y, days)
    else YearOf(days - YearLength(y), y + 1)
  }

  /** The month of year y that contains day `doy` counted from the first day of month m, and
      the 0-based day within that month. */
  function MonthOf(y: int, doy: nat, m: nat): (r: (nat, nat))
    requires 1 <= m <= 12 && DaysBeforeMonth(y, m) + doy < YearLength(y)
    ensures m <= r.0 <= 12 && r.1 < MonthLength(y, r.0)
    ensures DaysBeforeMonth(y, r.0) + r.1 == DaysBeforeMonth(y, m) + doy
    decreases 12 - m
  {
    MonthsFillYear(y);
    if doy < MonthLength(y, m) || m == 12 then (m, doy)
    else MonthOf(y, doy - MonthLength(y, m), m + 1)
  }

  /** The broken-down UTC time of an epoch second (Time.at(t).utc). */
  function ToCivil(t: nat): (c: Civil)
    ensures Valid(c) && ToEpoch(c) == t
  {
    var days, sod := t / SecondsPerDay, t % SecondsPerDay;
    var (y, doy) := YearOf(days, EpochYear);
    var (m, d) := MonthOf(y, doy, 1);
    var c := Civil(y, m, d + 1, sod / 3600, sod % 3600 / 60, sod % 60);
    assert DaysBeforeYear(y) + DaysBeforeMonth(y, m) + d == days;
    assert sod / 3600 * 3600 + sod % 3600 / 60 * 60 + sod % 60 == sod;
    c
  }

  /** The two characters of a number below 100 written as "%02d". */
  function Tens(n: nat): char requires n < 100 { DigitChar(n / 10) }
  function Ones(n: nat): char requires n < 100 { DigitChar(n % 10) }

  /** Everything after the year: "-MM-DD HH:MM:SS UTC", 19 characters. */
  function Tail(c: Civil): (s: string)
    requires Valid(c)
  {
    [ '-', Tens(c.month), Ones(c.month), '-', Tens(c.day), Ones(c.day), ' ',
      Tens(c.hour), Ones(c.hour), ':', Tens(c.minute), Ones(c.minute), ':',
      Tens(c.second), Ones(c.second), ' ', 'U', 'T', 'C' ]
  }

  function Render(c: Civil): string
    requires Valid(c)
  {
    Padded(c.year, 4) + Tail(c)
  }

  /** Ruby's Time#to_s of Time.at(t).utc: "YYYY-MM-DD HH:MM:SS UTC". */
  function Format(t: nat): string
  {
    Render(ToCivil(t))
  }

  /** The value of the two digits s[i], s[i+1], if both are digits. */
  function TwoAt(s: string, i: nat): Option<nat>
    requires i + 1 < |s|
  {
    if IsDigit(s[i]) && IsDigit(s[i + 1]) then Some(CharValue(s[i]) * 10 + CharValue(s[i + 1]))
    else None
  }

  /** The punctuation of "-MM-DD HH:MM:SS UTC" around the digit pairs. */
  predicate TailShape(tail: string)
  {
    |tail| == 19 && tail[0] == '-' && tail[3] == '-' && tail[6] == ' '
    && tail[9] == ':' && tail[12] == ':' && tail[15..] == " UTC"
  }

  /** Reads "-MM-DD HH:MM:SS UTC" after a year, without checking the calendar. */
  function ScanTail(year: nat, tail: string): Option<Civil>
  {
    if !TailShape(tail) then None
    else
      match (TwoAt(tail, 1), TwoAt(tail, 4), TwoAt(tail, 7), TwoAt(tail, 10), TwoAt(tail, 13))
      case (Some(mo), Some(d), Some(h), Some(mi), Some(se)) => Some(Civil(year, mo, d, h, mi, se))
      case _ => None
  }

  /** Splits text of the shape "<year>-MM-DD HH:MM:SS UTC", with at least four year digits,
      into its fields, without checking the calendar. */
  function Scan(s: string): Option<Civil>
  {
    if |s| < 23 || !AllDigits(s[..|s| - 19]) then None
    else ScanTail(Value(s[..|s| - 19]), s[|s| - 19..])
  }

  /** Epoch seconds of a timestamp in the tool's own format; None where DateTime.parse would
      raise (text of another shape, a day the calendar does not have, a time out of range). */
  function Parse(s: string): (r: Option<int>)
    ensures r.Some? ==> Scan(s).Some? && Valid(Scan(s).value) && r.value == ToEpoch(Scan(s).value)
    ensures Scan(s).Some? && Valid(Scan(s).value) ==> r.Some?
  {
    match Scan(s)
    case Some(c) => if Valid(c) then Some(ToEpoch(c)) else None
    case None => None
  }

  lemma TwoAtDigits(s: string, i: nat, n: nat)
    requires n < 100 && i + 1 < |s| && s[i] == Tens(n) && s[i + 1] == Ones(n)
    ensures TwoAt(s, i) == Some(n)
  {
  }

  lemma ScanTailOfTail(c: Civil)
    requires Valid(c)
    ensures ScanTail(c.year, Tail(c)) == Some(c)
  {
    var tail := Tail(c);
    assert TailShape(tail) by {
      assert tail[15..] == [' ', 'U', 'T', 'C'];
    }
    TwoAtDigits(tail, 1, c.month);
    TwoAtDigits(tail, 4, c.day);
    TwoAtDigits(tail, 7, c.hour);
    TwoAtDigits(tail, 10, c.minute);
    TwoAtDigits(tail, 13, c.second);
  }

  /** Scanning rendered text gives back the broken-down time. */
  lemma ScanRender(c: Civil)
    requires Valid(c)
    ensures Scan(Render(c)) == Some(c)
  {
    var s, y, tail := Render(c), Padded(c.year, 4), Tail(c);
    assert |tail| == 19;
    assert s[..|s| - 19] == y && s[|s| - 19..] == tail;
    ScanTailOfTail(c);
  }

  /** The round trip between the tag writer and the tag reader: parsing the text written for
      an epoch second gives back that epoch second. */
  lemma ParseFormat(t: nat)
    ensures Parse(Format(t)) == Some(t)
  {
    ScanRender(ToCivil(t));
  }

  lemma DaysBeforeYearStep(y: int)
    ensures DaysBeforeYear(y + 1) == DaysBeforeYear(y) + YearLength(y)
  {
  }

  /** Every year ends no later than any later year begins. */
  lemma {:induction false} YearsAfter(y1: int, y2: int)
    requires y1 < y2
    ensures DaysBeforeYear(y1) + YearLength(y1) <= DaysBeforeYear(y2)
    decreases y2 - y1
  {
    DaysBeforeYearStep(y2 - 1);
    if y1 < y2 - 1 {
      YearsAfter(y1, y2 - 1);
    }
  }

  /** A day number from 1970-01-01 lies in exactly one year. */
  lemma YearOfUnique(days: nat, y: int, d: nat)
    requires d < YearLength(y) && DaysBeforeYear(y) + d == days
    ensures YearOf(days, EpochYear) == (y, d)
  {
    var r := YearOf(days, EpochYear);
    if r.0 < y {
      YearsAfter(r.0, y);
    } else if y < r.0 {
      YearsAfter(y, r.0);
    }
  }

  /** Every month ends no later than any later month of the same year begins. */
  lemma {:induction false} MonthsAfter(y: int, m1: int, m2: int)
    requires 1 <= m1 < m2 <= 13
    ensures DaysBeforeMonth(y, m1) + MonthLength(y, m1) <= DaysBeforeMonth(y, m2)
    decreases m2 - m1
  {
    if m1 < m2 - 1 {
      MonthsAfter(y, m1, m2 - 1);
    }
  }

  /** A day of the year lies in exactly one month. */
  lemma MonthOfUnique(y: int, m: nat, d: nat)
    requires 1 <= m <= 12 && d < MonthLength(y, m)
    ensures DaysBeforeMonth(y, m) + d < YearLength(y)
    ensures MonthOf(y, DaysBeforeMonth(y, m) + d, 1) == (m, d)
  {
    MonthsFillYear(y);
    MonthsAfter(y, m, 13);
    var r := MonthOf(y, DaysBeforeMonth(y, m) + d, 1);
    if r.0 < m {
      MonthsAfter(y, r.0, m);
    } else if m < r.0 {
      MonthsAfter(y, m, r.0);
    }
  }

  /** An instant at or after the epoch splits uniquely into a day number and a second of the day. */
  lemma DayAndSecond(days: int, sod: nat)
    requires sod < SecondsPerDay && days * SecondsPerDay + sod >= 0
    ensures days >= 0
    ensures (days * SecondsPerDay + sod) / SecondsPerDay == days
    ensures (days * SecondsPerDay + sod) % SecondsPerDay == sod
  {
  }

  /** A second of the day splits uniquely into hour, minute and second. */
  lemma TimeOfDay(hour: nat, minute: nat, second: nat)
    requires hour < 24 && minute < 60 && second < 60
    ensures var sod := hour * 3600 + minute * 60 + second;
      sod < SecondsPerDay && sod / 3600 == hour && sod % 3600 / 60 == minute && sod % 60 == second
  {
  }

  /** Breaking down the epoch second of a valid time at or after the epoch gives that time. */
  lemma ToCivilOfEpoch(c: Civil)
    requires Valid(c) && ToEpoch(c) >= 0
    ensures ToCivil(ToEpoch(c)) == c
  {
    var doy := DaysBeforeMonth(c.year, c.month) + c.day - 1;
    var days := DaysBeforeYear(c.year) + doy;
    var sod := c.hour * 3600 + c.minute * 60 + c.second;
    TimeOfDay(c.hour, c.minute, c.second);
    assert ToEpoch(c) == days * SecondsPerDay + sod;
    DayAndSecond(days, sod);
    MonthOfUnique(c.year, c.month, c.day - 1);
    YearOfUnique(days, c.year, doy);
    assert YearOf(days, EpochYear) == (c.year, doy);
    assert MonthOf(c.year, doy, 1) == (c.month, c.day - 1);
  }

  /** Two digits read as n are the two characters "%02d" writes for n. */
  lemma TwoAtChars(s: string, i: nat, n: nat)
    requires i + 1 < |s| && TwoAt(s, i) == Some(n)
    ensures n < 100 && Tens(n) == s[i] && Ones(n) == s[i + 1]
  {
    DigitCharValue(s[i]);
    DigitCharValue(s[i + 1]);
  }

  /** Text that scans as "-MM-DD HH:MM:SS UTC" is what Tail writes for the scanned fields. */
  lemma TailOfScan(year: nat, tail: string, c: Civil)
    requires ScanTail(year, tail) == Some(c) && Valid(c)
    ensures Tail(c) == tail
  {
    assert TwoAt(tail, 1) == Some(c.month) && TwoAt(tail, 4) == Some(c.day) && TwoAt(tail, 7) == Some(c.hour)
           && TwoAt(tail, 10) == Some(c.minute) && TwoAt(tail, 13) == Some(c.second);
    TwoAtChars(tail, 1, c.month);
    TwoAtChars(tail, 4, c.day);
    TwoAtChars(tail, 7, c.hour);
    TwoAtChars(tail, 10, c.minute);
    TwoAtChars(tail, 13, c.second);
    assert tail[15] == ' ' && tail[16] == 'U' && tail[17] == 'T' && tail[18] == 'C' by {
      assert tail[15..] == " UTC";
      assert tail[15] == tail[15..][0] && tail[16] == tail[15..][1];
      assert tail[17] == tail[15..][2] && tail[18] == tail[15..][3];
    }
  }

  /** Text that scans, with a year written without a leading zero, is the rendering of the
      scanned time. */
  lemma RenderOfScan(s: string, c: Civil)
    requires |s| > 0 && s[0] != '0' && Scan(s) == Some(c) && Valid(c)
    ensures Render(c) == s
  {
    var year, tail := s[..|s| - 19], s[|s| - 19..];
    assert year[0] == s[0];
    DigitsOfValue(year);
    TailOfScan(c.year, tail, c);
    assert s == year + tail;
  }

  /** A year of four digits or more is written without padding. */
  lemma PaddedYear(n: nat)
    requires n >= 1000
    ensures Padded(n, 4) == Digits(n)
  {
    var n1 := n / 10;
    var n2 := n1 / 10;
    DigitsGrow(n);
    DigitsGrow(n1);
    DigitsGrow(n2);
    assert |Digits(n)| >= 4;
  }

  /** The written text never starts with '0': its year is 1970 or later. */
  lemma FormatLead(t: nat)
    ensures Format(t)[0] != '0'
  {
    var c := ToCivil(t);
    assert c.year >= EpochYear;
    PaddedYear(c.year);
    DigitsLead(c.year);
    assert Format(t) == Digits(c.year) + Tail(c);
  }

  /** The reader accepts exactly the texts the writer produces: text reads as epoch second t,
      with its year written without a leading zero, exactly when it is the text written for t. */
  lemma ParseAcceptsOnlyFormat(s: string, t: nat)
    ensures Parse(s) == Some(t) && |s| > 0 && s[0] != '0' <==> s == Format(t)
  {
    if s == Format(t) {
      ParseFormat(t);
      FormatLead(t);
    }
    if Parse(s) == Some(t) && |s| > 0 && s[0] != '0' {
      var c := Scan(s).value;
      ToCivilOfEpoch(c);
      RenderOfScan(s, c);
    }
  }
}
