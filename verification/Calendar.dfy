/** UTC timestamps: how they are printed, how they are read back, and that the two agree from 2020 to 2099. */
module Calendar {
  import opened Core

  const FIRST_YEAR: nat := 2020
  const LAST_YEAR: nat := 2099
  const EARLIEST: nat := 1577836800
  const LATEST: nat := 4102444799
  const DAY: nat := 86400

  datatype Date = Date(year: nat, month: nat, day: nat)

  // ---- Days ----

  function LeapDay(year: nat): nat {
    if year % 4 == 0 then 1 else 0
  }

  const MONTHS: seq<nat> := [31, 28, 31, 30, 31, 30, 31, 31, 30, 31, 30, 31]

  function MonthLength(year: nat, month: nat): (n: nat)
    requires 1 <= month <= 12
    ensures 28 <= n <= 31
  {
    MONTHS[month - 1] + if month == 2 then LeapDay(year) else 0
  }

  function DaysBeforeYear(year: nat): nat
    requires year >= 1970
  {
    if year == 1970 then 0 else DaysBeforeYear(year - 1) + 365 + LeapDay(year - 1)
  }

  function DaysBeforeMonth(year: nat, month: nat): nat
    requires 1 <= month <= 13
  {
    if month == 1 then 0 else DaysBeforeMonth(year, month - 1) + MonthLength(year, month - 1)
  }

  predicate ValidDate(d: Date) {
    d.year >= 1970 && 1 <= d.month <= 12 && 1 <= d.day <= MonthLength(d.year, d.month)
  }

  /** Days since 1970-01-01. */
  function DayNumber(d: Date): nat
    requires ValidDate(d)
  {
    DaysBeforeYear(d.year) + DaysBeforeMonth(d.year, d.month) + d.day - 1
  }

  // ---- The date of a day ----

  function YearFrom(days: nat, year: nat): (y: nat)
    requires year >= 1970 && DaysBeforeYear(year) <= days
    ensures y >= year && DaysBeforeYear(y) <= days < DaysBeforeYear(y + 1)
    decreases days - DaysBeforeYear(year)
  {
    if days < DaysBeforeYear(year + 1) then year else YearFrom(days, year + 1)
  }

  function MonthFrom(year: nat, days: nat, month: nat): (m: nat)
    requires 1 <= month <= 12 && DaysBeforeMonth(year, month) <= days < DaysBeforeMonth(year, 13)
    ensures month <= m <= 12 && DaysBeforeMonth(year, m) <= days < DaysBeforeMonth(year, m + 1)
    decreases 12 - month
  {
    if days < DaysBeforeMonth(year, month + 1) then month else MonthFrom(year, days, month + 1)
  }

  lemma YearLength(year: nat)
    ensures DaysBeforeMonth(year, 13) == 365 + LeapDay(year)
  {
    assert DaysBeforeMonth(year, 2) == 31;
    assert DaysBeforeMonth(year, 3) == 59 + LeapDay(year);
    assert DaysBeforeMonth(year, 4) == 90 + LeapDay(year);
    assert DaysBeforeMonth(year, 5) == 120 + LeapDay(year);
    assert DaysBeforeMonth(year, 6) == 151 + LeapDay(year);
    assert DaysBeforeMonth(year, 7) == 181 + LeapDay(year);
    assert DaysBeforeMonth(year, 8) == 212 + LeapDay(year);
    assert DaysBeforeMonth(year, 9) == 243 + LeapDay(year);
    assert DaysBeforeMonth(year, 10) == 273 + LeapDay(year);
    assert DaysBeforeMonth(year, 11) == 304 + LeapDay(year);
    assert DaysBeforeMonth(year, 12) == 334 + LeapDay(year);
  }

  function DateOf(days: nat): (d: Date)
    ensures ValidDate(d) && DayNumber(d) == days
  {
    var year := YearFrom(days, 1970);
    YearLength(year);
    var rest := days - DaysBeforeYear(year);
    var month := MonthFrom(year, rest, 1);
    Date(year, month, rest - DaysBeforeMonth(year, month) + 1)
  }

  lemma {:induction false} DaysClosed(year: nat)
    requires year >= 1970
    ensures DaysBeforeYear(year) == 365 * (year - 1970) + (year - 1969) / 4
  {
    if year > 1970 {
      DaysClosed(year - 1);
    }
  }

  lemma {:induction false} YearsOrdered(a: nat, b: nat)
    requires 1970 <= a <= b
    ensures DaysBeforeYear(a) <= DaysBeforeYear(b)
    decreases b
  {
    if a < b {
      YearsOrdered(a, b - 1);
    }
  }

  lemma YearInRange(seconds: nat)
    requires EARLIEST <= seconds <= LATEST
    ensures FIRST_YEAR <= DateOf(seconds / DAY).year <= LAST_YEAR
  {
    hide DateOf, DaysBeforeYear;
    var year := DateOf(seconds / DAY).year;
    DaysClosed(FIRST_YEAR);
    DaysClosed(LAST_YEAR + 1);
    YearHolds(seconds / DAY);
    if year < FIRST_YEAR {
      YearsOrdered(year + 1, FIRST_YEAR);
    }
    if year > LAST_YEAR {
      YearsOrdered(LAST_YEAR + 1, year);
    }
  }

  lemma YearHolds(days: nat)
    ensures var year := DateOf(days).year; year >= 1970 && DaysBeforeYear(year) <= days < DaysBeforeYear(year + 1)
  {
    hide MonthFrom, DaysBeforeMonth;
  }

  // ---- Digits ----

  predicate DigitAt(s: string, i: nat) {
    i < |s| && '0' <= s[i] <= '9'
  }

  function Digit(n: nat): (c: char)
    requires n < 10
    ensures '0' <= c <= '9' && (c - '0') as nat == n
  {
    '0' + n as char
  }

  /** n as exactly k digits. */
  function Padded(n: nat, k: nat): (t: string)
    ensures |t| == k && forall i | 0 <= i < k :: '0' <= t[i] <= '9'
  {
    if k == 0 then "" else Padded(n / 10, k - 1) + [Digit(n % 10)]
  }

  function ValueOf(t: string): nat
    requires forall i | 0 <= i < |t| :: '0' <= t[i] <= '9'
  {
    if t == "" then 0 else ValueOf(t[..|t| - 1]) * 10 + (t[|t| - 1] - '0') as nat
  }

  lemma {:induction false} PaddedValue(n: nat, k: nat)
    requires n < Power10(k)
    ensures ValueOf(Padded(n, k)) == n
  {
    if k > 0 {
      PaddedValue(n / 10, k - 1);
      assert Padded(n, k)[..k - 1] == Padded(n / 10, k - 1);
    }
  }

  function Power10(k: nat): nat {
    if k == 0 then 1 else 10 * Power10(k - 1)
  }

  // ---- Reading ----

  predicate AllDigits(t: string) {
    forall i | 0 <= i < |t| :: '0' <= t[i] <= '9'
  }

  /** Twelve digits, YYYYMMDDhhmm, of a minute between 2020 and 2099. */
  function ParseUtc(s: string): Option<nat> {
    if |s| != 12 || !AllDigits(s) then None
    else
      var d := Date(ValueOf(s[..4]), ValueOf(s[4..6]), ValueOf(s[6..8]));
      var hour, minute := ValueOf(s[8..10]), ValueOf(s[10..12]);
      if FIRST_YEAR <= d.year <= LAST_YEAR && ValidDate(d) && hour <= 23 && minute <= 59
      then Some(DayNumber(d) * DAY + hour * 3600 + minute * 60) else None
  }

  method ReadNumber(s: string, at: nat, size: nat) returns (v: nat)
    requires at + size <= |s| && AllDigits(s)
    ensures v == ValueOf(s[at..at + size])
  {
    v := 0;
    for i := 0 to size
      invariant v == ValueOf(s[at..at + i])
    {
      assert s[at..at + i + 1][..i] == s[at..at + i];
      v := v * 10 + (s[at + i] - '0') as nat;
    }
  }

  method ReadUtc(s: string) returns (seconds: Option<nat>)
    ensures seconds == ParseUtc(s)
  {
    hide ValueOf, DaysBeforeYear, DaysBeforeMonth;
    if |s| != 12 {
      return None;
    }
    for i := 0 to |s|
      invariant AllDigits(s[..i])
    {
      if s[i] < '0' || s[i] > '9' {
        return None;
      }
    }
    assert s[..|s|] == s;
    var year := ReadNumber(s, 0, 4);
    var month := ReadNumber(s, 4, 2);
    var day := ReadNumber(s, 6, 2);
    var hour := ReadNumber(s, 8, 2);
    var minute := ReadNumber(s, 10, 2);
    assert s[0..4] == s[..4];
    if year < FIRST_YEAR || year > LAST_YEAR || month < 1 || month > 12 || hour > 23 || minute > 59 {
      return None;
    }
    if day < 1 || day > MONTHS[month - 1] + if month == 2 && year % 4 == 0 then 1 else 0 {
      return None;
    }
    var days := CountDays(year, month);
    return Some((days + day - 1) * DAY + hour * 3600 + minute * 60);
  }

  method CountDays(year: nat, month: nat) returns (days: nat)
    requires year >= 1970 && 1 <= month <= 12
    ensures days == DaysBeforeYear(year) + DaysBeforeMonth(year, month)
  {
    days := 0;
    for y := 1970 to year
      invariant days == DaysBeforeYear(y)
    {
      days := days + 365 + if y % 4 == 0 then 1 else 0;
    }
    for m := 1 to month
      invariant days == DaysBeforeYear(year) + DaysBeforeMonth(year, m)
    {
      days := days + MONTHS[m - 1] + if m == 2 && year % 4 == 0 then 1 else 0;
    }
  }

  // ---- Printing ----

  /** "YYYY-MM-DDThh:mm:ssZ", or nothing outside the years the device knows. */
  function FormatUtc(seconds: nat): string {
    if seconds < EARLIEST || seconds > LATEST then ""
    else
      var d, t := DateOf(seconds / DAY), seconds % DAY;
      Stamp(d, t / 3600, t / 60 % 60, t % 60)
  }

  function Stamp(d: Date, hour: nat, minute: nat, second: nat): (t: string)
    ensures |t| == 20
  {
    Padded(d.year, 4) + "-" + Padded(d.month, 2) + "-" + Padded(d.day, 2) + "T"
    + Padded(hour, 2) + ":" + Padded(minute, 2) + ":" + Padded(second, 2) + "Z"
  }

  /** The shape the log validator asks for, with the digits it hands to parse_utc. */
  predicate StampShape(t: string) {
    && |t| == 20 && t[4] == '-' && t[7] == '-' && t[10] == 'T' && t[13] == ':' && t[16] == ':' && t[19] == 'Z'
    && '0' <= t[17] <= '5' && '0' <= t[18] <= '9'
  }

  function StampDigits(t: string): string
    requires |t| == 20
  {
    t[..4] + t[5..7] + t[8..10] + t[11..13] + t[14..16]
  }

  lemma StampParts(d: Date, hour: nat, minute: nat, second: nat)
    ensures var t := Stamp(d, hour, minute, second);
            && t[..4] == Padded(d.year, 4) && t[5..7] == Padded(d.month, 2) && t[8..10] == Padded(d.day, 2)
            && t[11..13] == Padded(hour, 2) && t[14..16] == Padded(minute, 2) && t[17..19] == Padded(second, 2)
            && t[4] == '-' && t[7] == '-' && t[10] == 'T' && t[13] == ':' && t[16] == ':' && t[19] == 'Z'
  {
    hide Padded;
  }

  lemma TensDigit(n: nat)
    requires n < 60
    ensures '0' <= Padded(n, 2)[0] <= '5'
  {
    assert Padded(n, 2) == Padded(n / 10, 1) + [Digit(n % 10)];
    assert Padded(n / 10, 1) == Padded(n / 10 / 10, 0) + [Digit(n / 10 % 10)];
  }

  lemma DigitsTogether(a: string, b: string, c: string, d: string, e: string)
    requires |a| == 4 && |b| == |c| == |d| == |e| == 2
    ensures var s := a + b + c + d + e;
            |s| == 12 && s[..4] == a && s[4..6] == b && s[6..8] == c && s[8..10] == d && s[10..12] == e
  {
  }

  lemma PowersOfTen()
    ensures Power10(2) == 100 && Power10(4) == 10000
  {
    assert Power10(1) == 10 && Power10(3) == 1000;
  }

  /** What is printed has the shape the validator wants, and is read back as the minute it was printed for. */
  lemma ParsesFormatted(seconds: nat)
    requires EARLIEST <= seconds <= LATEST
    ensures var t := FormatUtc(seconds); StampShape(t) && ParseUtc(StampDigits(t)) == Some(seconds - seconds % 60)
  {
    hide DateOf, Padded, ValueOf, DayNumber, ValidDate, Stamp;
    YearInRange(seconds);
    StampReads(DateOf(seconds / DAY), seconds % DAY / 3600, seconds % DAY / 60 % 60, seconds % DAY % 60);
    MinuteOf(seconds);
  }

  lemma HourMinute(t: nat)
    ensures t / 60 == t / 3600 * 60 + t / 60 % 60
  {
    assert t / 60 / 60 == t / 3600;
  }

  lemma SecondOf(seconds: nat)
    ensures seconds % 60 == seconds % DAY % 60
  {
    assert DAY == 60 * 1440;
  }

  lemma MinuteOf(seconds: nat)
    ensures seconds / DAY * DAY + seconds % DAY / 3600 * 3600 + seconds % DAY / 60 % 60 * 60 == seconds - seconds % 60
    ensures seconds % DAY / 3600 <= 23
  {
    SecondOf(seconds);
    MinuteSum(seconds / DAY, seconds % DAY, seconds % DAY / 60, seconds % DAY / 3600, seconds % DAY / 60 % 60,
        seconds % DAY % 60);
  }

  lemma MinuteSum(days: nat, t: nat, minutes: nat, hour: nat, minute: nat, second: nat)
    requires t < DAY && minutes == t / 60 && hour == t / 3600 && minute == minutes % 60 && second == t % 60
    ensures days * DAY + hour * 3600 + minute * 60 == days * DAY + t - second && hour <= 23
  {
    HourMinute(t);
    assert t == 60 * minutes + second;
  }

  lemma StampReads(d: Date, hour: nat, minute: nat, second: nat)
    requires ValidDate(d) && FIRST_YEAR <= d.year <= LAST_YEAR && hour <= 23 && minute <= 59 && second <= 59
    ensures var t := Stamp(d, hour, minute, second);
            StampShape(t) && ParseUtc(StampDigits(t)) == Some(DayNumber(d) * DAY + hour * 3600 + minute * 60)
  {
    hide Padded, ValueOf, DayNumber, Stamp, Power10;
    StampParts(d, hour, minute, second);
    TensDigit(second);
    var t := Stamp(d, hour, minute, second);
    assert t[17] == t[17..19][0] && t[18] == t[17..19][1];
    PowersOfTen();
    PaddedValue(d.year, 4);
    PaddedValue(d.month, 2);
    PaddedValue(d.day, 2);
    PaddedValue(hour, 2);
    PaddedValue(minute, 2);
    DigitsTogether(t[..4], t[5..7], t[8..10], t[11..13], t[14..16]);
    DigitsAll(t[..4], t[5..7], t[8..10], t[11..13], t[14..16]);
  }

  lemma DigitsAll(a: string, b: string, c: string, d: string, e: string)
    requires AllDigits(a) && AllDigits(b) && AllDigits(c) && AllDigits(d) && AllDigits(e)
    ensures AllDigits(a + b + c + d + e)
  {
  }
}
