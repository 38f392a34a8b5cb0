/**
 * The diary's selected date: `datetime.replace` with its range checks, stepping one
 * month forward or back, and the "%Y-%m-%d" key under which entries are stored.
 */
module Calendar {
  import opened Wrappers
  import opened Decimals

  const MinYear := 1
  const MaxYear := 9999

  datatype Date = Date(year: int, month: int, day: int)

  /** The `ValueError`s `datetime.replace` raises. */
  datatype DateError = YearOutOfRange | MonthOutOfRange | DayOutOfRange

  predicate IsLeapYear(y: int) {
    y % 4 == 0 && (y % 100 != 0 || y % 400 == 0)
  }

  /** Days in a month of the proleptic Gregorian calendar. */
  function DaysInMonth(year: int, month: int): (n: int)
    requires 1 <= month <= 12
    ensures 28 <= n <= 31
    ensures month == 2 ==> (n == 29 <==> IsLeapYear(year))
  {
    if month == 2 then (if IsLeapYear(year) then 29 else 28)
    else if month == 4 || month == 6 || month == 9 || month == 11 then 30
    else 31
  }

  predicate ValidDate(d: Date) {
    MinYear <= d.year <= MaxYear && 1 <= d.month <= 12 && 1 <= d.day <= DaysInMonth(d.year, d.month)
  }

  /** The date with the given fields, or the error `datetime` reports first
      (the year is checked, then the month, then the day). */
  function Replace(year: int, month: int, day: int): (r: Result<Date, DateError>)
    ensures r.Ok? <==> ValidDate(Date(year, month, day))
    ensures r.Ok? ==> r.value == Date(year, month, day)
    ensures r.Err? && MinYear <= year <= MaxYear && 1 <= month <= 12 ==> r.error == DayOutOfRange
  {
    if year < MinYear || year > MaxYear then Err(YearOutOfRange)
    else if month < 1 || month > 12 then Err(MonthOutOfRange)
    else if day < 1 || day > DaysInMonth(year, month) then Err(DayOutOfRange)
    else Ok(Date(year, month, day))
  }

  /** Months counted from January of year 0. */
  function MonthNumber(d: Date): int {
    12 * d.year + d.month - 1
  }

  /** `next_month`: the month after, with the year carried at December; the day is kept. */
  function NextMonth(d: Date): (r: Result<Date, DateError>)
    requires ValidDate(d)
    ensures r.Ok? ==> ValidDate(r.value) && r.value.day == d.day && MonthNumber(r.value) == MonthNumber(d) + 1
    ensures r.Ok? <==>
              var m := MonthNumber(d) + 1;
              m / 12 <= MaxYear && d.day <= DaysInMonth(m / 12, m % 12 + 1)
  {
    if d.month == 12 then Replace(d.year + 1, 1, d.day) else Replace(d.year, d.month + 1, d.day)
  }

  /** `prev_month`: the month before, with the year carried at January; the day is kept. */
  function PrevMonth(d: Date): (r: Result<Date, DateError>)
    requires ValidDate(d)
    ensures r.Ok? ==> ValidDate(r.value) && r.value.day == d.day && MonthNumber(r.value) == MonthNumber(d) - 1
    ensures r.Ok? <==>
              var m := MonthNumber(d) - 1;
              MinYear <= m / 12 && d.day <= DaysInMonth(m / 12, m % 12 + 1)
  {
    if d.month == 1 then Replace(d.year - 1, 12, d.day) else Replace(d.year, d.month - 1, d.day)
  }

  /** `select_date(day)`: the day of the month replaced. */
  function SelectDay(d: Date, day: int): (r: Result<Date, DateError>)
    requires ValidDate(d)
    ensures r.Ok? <==> 1 <= day <= DaysInMonth(d.year, d.month)
    ensures r.Ok? ==> r.value == d.(day := day)
  {
    Replace(d.year, d.month, day)
  }

  lemma PrevAfterNext(d: Date)
    requires ValidDate(d) && NextMonth(d).Ok?
    ensures PrevMonth(NextMonth(d).value) == Ok(d)
  {
  }

  lemma NextAfterPrev(d: Date)
    requires ValidDate(d) && PrevMonth(d).Ok?
    ensures NextMonth(PrevMonth(d).value) == Ok(d)
  {
  }

  /** The 31st of January has no counterpart in February: stepping forward fails. */
  lemma ThirtyFirstOfJanuary(year: int)
    requires MinYear <= year <= MaxYear
    ensures NextMonth(Date(year, 1, 31)) == Err(DayOutOfRange)
  {
  }

  /** `%02d` of a number below 100. */
  function Pad2(v: int): (s: string)
    requires 0 <= v < 100
    ensures |s| == 2 && AllDigits(s)
  {
    [Digit(v / 10), Digit(v % 10)]
  }

  /** `%04d` of a number below 10000. */
  function Pad4(v: int): (s: string)
    requires 0 <= v < 10000
    ensures |s| == 4 && AllDigits(s)
  {
    Pad2(v / 100) + Pad2(v % 100)
  }

  /** `strftime("%Y-%m-%d")`, the key of a date's entry. */
  function DateKey(d: Date): (k: string)
    requires ValidDate(d)
    ensures |k| == 10 && k[4] == '-' && k[7] == '-'
    ensures AllDigits(k[..4]) && AllDigits(k[5..7]) && AllDigits(k[8..])
    ensures DigitsValue(k[..4]) == d.year && DigitsValue(k[5..7]) == d.month && DigitsValue(k[8..]) == d.day
  {
    var key := Pad4(d.year) + "-" + Pad2(d.month) + "-" + Pad2(d.day);
    assert key[..4] == Pad4(d.year) && key[5..7] == Pad2(d.month) && key[8..] == Pad2(d.day);
    Pad4Value(d.year);
    Pad2Value(d.month);
    Pad2Value(d.day);
    key
  }

  lemma Pad2Value(v: int)
    requires 0 <= v < 100
    ensures DigitsValue(Pad2(v)) == v
  {
    var s := Pad2(v);
    assert s[..1] == [Digit(v / 10)] && s[..1][..0] == [];
    assert DigitsValue(s[..1]) == v / 10;
    assert DigitsValue(s) == DigitsValue(s[..1]) * 10 + v % 10;
  }

  lemma Pad4Value(v: int)
    requires 0 <= v < 10000
    ensures DigitsValue(Pad4(v)) == v
  {
    var s := Pad4(v);
    var hi, lo := Pad2(v / 100), Pad2(v % 100);
    Pad2Value(v / 100);
    Pad2Value(v % 100);
    assert s[..3] == hi + [lo[0]] && s[..3][..2] == hi;
    assert s[..2] == hi;
    assert DigitsValue(hi + [lo[0]]) == DigitsValue(hi) * 10 + (lo[0] as int - '0' as int);
    assert DigitsValue(s) == DigitsValue(s[..3]) * 10 + (lo[1] as int - '0' as int);
    assert DigitsValue([lo[0]]) == lo[0] as int - '0' as int by { assert [lo[0]][..0] == []; }
    assert lo[..1] == [lo[0]];
  }

  /** Distinct dates have distinct keys, so saving one day's entry never touches another's. */
  lemma DateKeyInjective(d1: Date, d2: Date)
    requires ValidDate(d1) && ValidDate(d2) && DateKey(d1) == DateKey(d2)
    ensures d1 == d2
  {
  }
}
