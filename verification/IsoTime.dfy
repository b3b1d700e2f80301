/** The text of a time, and why comparing texts compares times. */
module IsoTime {
  import opened Prelude
  import opened Clock
  import opened Text

  // ------------------------------------------------------------------- calendar

  const MS_PER_DAY := 86_400_000

  /** Days from 1970-01-01 to the first day of year `y` of the Gregorian calendar. */
  function DayFromYear(y: int): int {
    365 * (y - 1970) + (y - 1969) / 4 - (y - 1901) / 100 + (y - 1601) / 400
  }

  predicate IsLeap(y: int) {
    y % 4 == 0 && (y % 100 != 0 || y % 400 == 0)
  }

  lemma YearLength(y: int)
    ensures DayFromYear(y + 1) - DayFromYear(y) == if IsLeap(y) then 366 else 365
  {
    QuotientStep(y - 1969, 4);
    QuotientStep(y - 1901, 100);
    QuotientStep(y - 1601, 400);
    LeapDivisors(y);
  }

  /** The counts of leap days step at the years they are meant to. */
  lemma LeapDivisors(y: int)
    ensures (y - 1968) % 4 == y % 4 && (y - 1900) % 100 == y % 100 && (y - 1600) % 400 == y % 400
    ensures y % 400 == 0 ==> y % 100 == 0
    ensures y % 100 == 0 ==> y % 4 == 0
  {
    RemainderIs(y - 1968, 4, y / 4 - 492, y % 4);
    RemainderIs(y - 1900, 100, y / 100 - 19, y % 100);
    RemainderIs(y - 1600, 400, y / 400 - 4, y % 400);
    if y % 400 == 0 { RemainderIs(y, 100, 4 * (y / 400), 0); }
    if y % 100 == 0 { RemainderIs(y, 4, 25 * (y / 100), 0); }
  }

  lemma RemainderIs(n: int, k: int, q: int, r: int)
    requires (k == 4 || k == 100 || k == 400) && n == q * k + r && 0 <= r < k
    ensures n % k == r
  {
    if k == 4 {
    } else if k == 100 {
    }
  }

  /** A quotient grows exactly when the next number is divisible. */
  lemma QuotientStep(n: int, k: int)
    requires k == 4 || k == 100 || k == 400
    ensures (n + 1) / k - n / k == if (n + 1) % k == 0 then 1 else 0
  {
    if k == 4 {
    } else if k == 100 {
    }
  }

  function Distance(day: int, y: int): nat {
    if day < DayFromYear(y) then DayFromYear(y) - day + 1000 else day - DayFromYear(y)
  }

  /** The year a day falls in. */
  function YearOfDay(day: int, guess: int): (y: int)
    ensures DayFromYear(y) <= day < DayFromYear(y + 1)
    decreases Distance(day, guess)
  {
    hide DayFromYear, IsLeap;
    YearLength(guess);
    YearLength(guess - 1);
    if day < DayFromYear(guess) then YearOfDay(day, guess - 1)
    else if day >= DayFromYear(guess + 1) then YearOfDay(day, guess + 1)
    else guess
  }

  const CUMULATIVE_DAYS: seq<int> := [0, 31, 59, 90, 120, 151, 181, 212, 243, 273, 304, 334, 365]

  /** Days of the year before its month `m` (counted from 0). */
  function DaysBefore(m: int, leap: bool): int
    requires 0 <= m <= 12
  {
    CUMULATIVE_DAYS[m] + if leap && m >= 2 then 1 else 0
  }

  /** The month, counted from 0, of the `d`-th day of a year. */
  function MonthOfDay(d: int, leap: bool, guess: int): (m: int)
    requires 0 <= guess <= 11 && DaysBefore(guess, leap) <= d < DaysBefore(12, leap)
    ensures 0 <= m <= 11 && DaysBefore(m, leap) <= d < DaysBefore(m + 1, leap)
    decreases 12 - guess
  {
    if d < DaysBefore(guess + 1, leap) then guess else MonthOfDay(d, leap, guess + 1)
  }

  datatype Date = Date(year: int, month: int, day: int)

  /** The date of the `n`-th day since 1970-01-01. */
  function DateOf(n: int): (date: Date)
    ensures 1 <= date.month <= 12 && 1 <= date.day <= 31
  {
    hide DayFromYear, DaysBefore, IsLeap;
    var year := YearOfDay(n, 1970);
    YearLength(year);
    DaysOfYear(IsLeap(year));
    var leap, d := IsLeap(year), n - DayFromYear(year);
    var month := MonthOfDay(d, leap, 0);
    MonthLength(month, leap);
    Date(year, month + 1, d - DaysBefore(month, leap) + 1)
  }

  function DayOf(date: Date): int
    requires 1 <= date.month <= 12
  {
    DayFromYear(date.year) + DaysBefore(date.month - 1, IsLeap(date.year)) + date.day - 1
  }

  datatype TimeOfDay = TimeOfDay(hour: int, minute: int, second: int, ms: int)

  function ClockOf(n: int): (c: TimeOfDay)
    requires 0 <= n < MS_PER_DAY
    ensures 0 <= c.hour < 24 && 0 <= c.minute < 60 && 0 <= c.second < 60 && 0 <= c.ms < 1000
  {
    TimeOfDay(n / 3_600_000, n / 60_000 % 60, n / 1000 % 60, n % 1000)
  }

  lemma DaysOfYear(leap: bool)
    ensures DaysBefore(0, leap) == 0 && DaysBefore(12, leap) == if leap then 366 else 365
  {
  }

  /** Thirty days have April, June, September and November; February 28, in a leap year 29; all the rest 31. */
  lemma DaysOfMonth(m: int, leap: bool)
    requires 0 <= m <= 11
    ensures DaysBefore(m + 1, leap) - DaysBefore(m, leap) ==
      if m == 3 || m == 5 || m == 8 || m == 10 then 30 else if m == 1 then (if leap then 29 else 28) else 31
  {
  }

  lemma MonthLength(m: int, leap: bool)
    requires 0 <= m <= 11
    ensures 28 <= DaysBefore(m + 1, leap) - DaysBefore(m, leap) <= 31
  {
  }

  // ----------------------------------------------------------------------- text

  /** The last `width` decimal digits of `n`. */
  function Padded(n: nat, width: nat): (s: string)
    ensures |s| == width
  {
    if width == 0 then "" else Padded(n / 10, width - 1) + [Digit(n % 10)]
  }

  /** `new Date(t).toISOString()`: outside the years 0 to 9999 a sign and six digits. */
  function ToIsoString(t: int): string {
    var date := DateOf(t / MS_PER_DAY);
    YearText(date.year) + (DateText(date) + ClockText(ClockOf(t % MS_PER_DAY)))
  }

  function YearText(y: int): string {
    if 0 <= y <= 9999 then Padded(y, 4) else [if y > 0 then '+' else '-'] + Padded(if y > 0 then y else -y, 6)
  }

  function DateText(date: Date): string
    requires date.month >= 0 && date.day >= 0
  {
    "-" + (Padded(date.month, 2) + ("-" + Padded(date.day, 2)))
  }

  function ClockText(c: TimeOfDay): string
    requires c.hour >= 0 && c.minute >= 0 && c.second >= 0 && c.ms >= 0
  {
    "T" + (Padded(c.hour, 2) + (":" + (Padded(c.minute, 2) + (":" + (Padded(c.second, 2) + ("." + (Padded(c.ms, 3) + "Z")))))))
  }

  /** `s` has the shape of `pattern`, in which `d` stands for any digit. */
  predicate Fits(s: string, pattern: string) {
    if pattern == "" then s == ""
    else s != "" && (if pattern[0] == 'd' then '0' <= s[0] <= '9' else s[0] == pattern[0]) && Fits(s[1..], pattern[1..])
  }

  /** What assertUtcIsoTimestamp accepts. */
  predicate MatchesUtcIso(s: string) {
    Fits(s, "dddd-dd-ddTdd:dd:dd.dddZ")
  }

  lemma {:induction false} FitsAppend(a: string, p: string, b: string, q: string)
    requires Fits(a, p) && Fits(b, q)
    ensures Fits(a + b, p + q)
  {
    if p == "" {
      assert a + b == b && p + q == q;
    } else {
      FitsAppend(a[1..], p[1..], b, q);
      assert (a + b)[1..] == a[1..] + b && (p + q)[1..] == p[1..] + q;
    }
  }

  function Digits(width: nat): string {
    if width == 0 then "" else Digits(width - 1) + "d"
  }

  lemma {:induction false} PaddedFits(n: nat, width: nat)
    ensures Fits(Padded(n, width), Digits(width))
  {
    if width > 0 {
      PaddedFits(n / 10, width - 1);
      assert Fits([Digit(n % 10)], "d");
      FitsAppend(Padded(n / 10, width - 1), Digits(width - 1), [Digit(n % 10)], "d");
    }
  }

  /** A separator and a padded field before a text that fits. */
  lemma FieldFits(sep: char, n: nat, width: nat, rest: string, q: string)
    requires Fits(rest, q) && sep != 'd'
    ensures Fits([sep] + (Padded(n, width) + rest), [sep] + (Digits(width) + q))
  {
    PaddedFits(n, width);
    FitsAppend(Padded(n, width), Digits(width), rest, q);
    assert Fits([sep], [sep]);
    FitsAppend([sep], [sep], Padded(n, width) + rest, Digits(width) + q);
  }

  /** The pattern of a time, put together from its fields. */
  lemma PatternParts()
    ensures "." + ("ddd" + "Z") == ".dddZ"
    ensures ":" + ("dd" + ".dddZ") == ":dd.dddZ"
    ensures ":" + ("dd" + ":dd.dddZ") == ":dd:dd.dddZ"
    ensures "T" + ("dd" + ":dd:dd.dddZ") == "Tdd:dd:dd.dddZ"
    ensures "-" + ("dd" + "Tdd:dd:dd.dddZ") == "-ddTdd:dd:dd.dddZ"
    ensures "-" + ("dd" + "-ddTdd:dd:dd.dddZ") == "-dd-ddTdd:dd:dd.dddZ"
  {
  }

  lemma DigitPatterns()
    ensures Digits(2) == "dd" && Digits(3) == "ddd" && Digits(4) == "dddd"
  {
  }

  lemma SecondsFit(second: nat, ms: nat)
    ensures Fits(":" + (Padded(second, 2) + ("." + (Padded(ms, 3) + "Z"))), ":dd.dddZ")
  {
    assert Fits("Z", "Z");
    DigitPatterns();
    PatternParts();
    hide Digits, Fits, Padded;
    FieldFits('.', ms, 3, "Z", "Z");
    FieldFits(':', second, 2, "." + (Padded(ms, 3) + "Z"), ".dddZ");
  }

  lemma ClockTextFits(c: TimeOfDay)
    requires c.hour >= 0 && c.minute >= 0 && c.second >= 0 && c.ms >= 0
    ensures Fits(ClockText(c), "Tdd:dd:dd.dddZ")
  {
    DigitPatterns();
    PatternParts();
    hide Digits, Fits, Padded;
    SecondsFit(c.second, c.ms);
    var b := ":" + (Padded(c.second, 2) + ("." + (Padded(c.ms, 3) + "Z")));
    FieldFits(':', c.minute, 2, b, ":dd.dddZ");
    FieldFits('T', c.hour, 2, ":" + (Padded(c.minute, 2) + b), ":dd:dd.dddZ");
  }

  /** `a < b` on strings. */
  predicate TextLess(a: string, b: string) {
    b != "" && (a == "" || a[0] < b[0] || (a[0] == b[0] && TextLess(a[1..], b[1..])))
  }

  // ------------------------------------------------------------- order of texts

  lemma {:induction false} LessThenAnything(a: string, b: string, x: string, y: string)
    requires |a| == |b| && TextLess(a, b)
    ensures TextLess(a + x, b + y)
  {
    if a[0] == b[0] {
      LessThenAnything(a[1..], b[1..], x, y);
      assert (a + x)[1..] == a[1..] + x && (b + y)[1..] == b[1..] + y;
    }
  }

  lemma {:induction false} SameThenLess(a: string, x: string, y: string)
    requires TextLess(x, y)
    ensures TextLess(a + x, a + y)
  {
    if a == "" {
      assert a + x == x && a + y == y;
    } else {
      SameThenLess(a[1..], x, y);
      assert (a + x)[1..] == a[1..] + x && (a + y)[1..] == a[1..] + y;
    }
  }

  function Power10(n: nat): nat {
    if n == 0 then 1 else 10 * Power10(n - 1)
  }

  lemma {:induction false} PaddedLess(m: nat, n: nat, width: nat)
    requires m < n < Power10(width)
    ensures TextLess(Padded(m, width), Padded(n, width))
  {
    if m / 10 < n / 10 {
      PaddedLess(m / 10, n / 10, width - 1);
      LessThenAnything(Padded(m / 10, width - 1), Padded(n / 10, width - 1), [Digit(m % 10)], [Digit(n % 10)]);
    } else {
      SameThenLess(Padded(m / 10, width - 1), [Digit(m % 10)], [Digit(n % 10)]);
    }
  }

  /** A padded field decides, unless it is equal on both sides. */
  lemma FieldLess(m: nat, n: nat, width: nat, x: string, y: string)
    requires m < Power10(width) && n < Power10(width)
    requires m < n || (m == n && TextLess(x, y))
    ensures TextLess(Padded(m, width) + x, Padded(n, width) + y)
  {
    if m < n {
      PaddedLess(m, n, width);
      LessThenAnything(Padded(m, width), Padded(n, width), x, y);
    } else {
      SameThenLess(Padded(m, width), x, y);
    }
  }

  predicate ClockLess(a: TimeOfDay, b: TimeOfDay) {
    || a.hour < b.hour
    || (a.hour == b.hour && (a.minute < b.minute
        || (a.minute == b.minute && (a.second < b.second || (a.second == b.second && a.ms < b.ms)))))
  }

  predicate DateLess(a: Date, b: Date) {
    a.year < b.year || (a.year == b.year && (a.month < b.month || (a.month == b.month && a.day < b.day)))
  }

  lemma DayOfDate(n: int)
    ensures DayOf(DateOf(n)) == n
  {
  }

  lemma {:induction false} YearsAreOrdered(y: int, z: int)
    requires y <= z
    ensures DayFromYear(y) <= DayFromYear(z)
    decreases z - y
  {
    if y < z {
      YearLength(y);
      YearsAreOrdered(y + 1, z);
    }
  }

  /** Later days have later dates. */
  lemma DatesAreOrdered(d: int, e: int)
    requires d < e
    ensures DateLess(DateOf(d), DateOf(e))
  {
    hide DayFromYear, DateOf, DaysBefore, IsLeap;
    DayOfDate(d);
    DayOfDate(e);
    var a, b := DateOf(d), DateOf(e);
    if a.year > b.year {
      YearsAreOrdered(b.year + 1, a.year);
      DateWithinYear(d);
      DateWithinYear(e);
      assert false;
    }
    if a.year == b.year && a.month > b.month {
      DateWithinMonth(d);
      DateWithinMonth(e);
      MonthsAreOrdered(b.month, a.month - 1, IsLeap(a.year));
      assert false;
    }
  }

  lemma DateWithinYear(n: int)
    ensures DayFromYear(DateOf(n).year) <= n < DayFromYear(DateOf(n).year + 1)
  {
  }

  lemma DateWithinMonth(n: int)
    ensures var date := DateOf(n);
      DaysBefore(date.month - 1, IsLeap(date.year)) <= n - DayFromYear(date.year) < DaysBefore(date.month, IsLeap(date.year))
  {
  }

  lemma MonthsAreOrdered(m: int, n: int, leap: bool)
    requires 0 <= m <= n <= 12
    ensures DaysBefore(m, leap) <= DaysBefore(n, leap)
  {
  }

  /** A time of day is its hours, minutes, seconds and milliseconds. */
  lemma ClockAddsUp(t: int)
    requires 0 <= t < MS_PER_DAY
    ensures var c := ClockOf(t);
      t == 3_600_000 * c.hour + 60_000 * c.minute + 1000 * c.second + c.ms
  {
    var seconds, minutes, hours := t / 1000, t / 60_000, t / 3_600_000;
    assert t == 1000 * seconds + t % 1000;
    assert t == 60_000 * minutes + t % 60_000;
    assert minutes == 60 * hours + minutes % 60;
  }

  lemma ClocksAreOrdered(a: int, b: int)
    requires 0 <= a < b < MS_PER_DAY
    ensures ClockLess(ClockOf(a), ClockOf(b))
  {
    hide ClockOf;
    ClockAddsUp(a);
    ClockAddsUp(b);
  }

  lemma EarlierDateText(a: Date, b: Date, x: string, y: string)
    requires 0 <= a.year <= 9999 && 1 <= a.month <= 12 && 1 <= a.day <= 31
    requires 0 <= b.year <= 9999 && 1 <= b.month <= 12 && 1 <= b.day <= 31
    requires DateLess(a, b)
    ensures TextLess(YearText(a.year) + (DateText(a) + x), YearText(b.year) + (DateText(b) + y))
  {
    hide TextLess, Padded;
    Powers();
    if a.year == b.year {
      if a.month == b.month {
        FieldLess(a.day, b.day, 2, x, y);
        SameThenLess("-", Padded(a.day, 2) + x, Padded(b.day, 2) + y);
      }
      var r, q := "-" + (Padded(a.day, 2) + x), "-" + (Padded(b.day, 2) + y);
      FieldLess(a.month, b.month, 2, r, q);
      SameThenLess("-", Padded(a.month, 2) + r, Padded(b.month, 2) + q);
      assert "-" + (Padded(a.month, 2) + r) == DateText(a) + x;
      assert "-" + (Padded(b.month, 2) + q) == DateText(b) + y;
    }
    FieldLess(a.year, b.year, 4, DateText(a) + x, DateText(b) + y);
  }

  lemma Powers()
    ensures Power10(2) == 100 && Power10(3) == 1000 && Power10(4) == 10000
  {
  }

  lemma EarlierClockText(a: TimeOfDay, b: TimeOfDay)
    requires 0 <= a.hour < 24 && 0 <= a.minute < 60 && 0 <= a.second < 60 && 0 <= a.ms < 1000
    requires 0 <= b.hour < 24 && 0 <= b.minute < 60 && 0 <= b.second < 60 && 0 <= b.ms < 1000
    requires ClockLess(a, b)
    ensures TextLess(ClockText(a), ClockText(b))
  {
    hide TextLess, Padded;
    Powers();
    var a3, b3 := "." + (Padded(a.ms, 3) + "Z"), "." + (Padded(b.ms, 3) + "Z");
    var a2, b2 := ":" + (Padded(a.second, 2) + a3), ":" + (Padded(b.second, 2) + b3);
    var a1, b1 := ":" + (Padded(a.minute, 2) + a2), ":" + (Padded(b.minute, 2) + b2);
    if a.hour == b.hour {
      if a.minute == b.minute {
        if a.second == b.second {
          FieldLess(a.ms, b.ms, 3, "Z", "Z");
          SameThenLess(".", Padded(a.ms, 3) + "Z", Padded(b.ms, 3) + "Z");
        }
        FieldLess(a.second, b.second, 2, a3, b3);
        SameThenLess(":", Padded(a.second, 2) + a3, Padded(b.second, 2) + b3);
      }
      FieldLess(a.minute, b.minute, 2, a2, b2);
      SameThenLess(":", Padded(a.minute, 2) + a2, Padded(b.minute, 2) + b2);
    }
    FieldLess(a.hour, b.hour, 2, a1, b1);
    SameThenLess("T", Padded(a.hour, 2) + a1, Padded(b.hour, 2) + b1);
  }

  lemma {:induction false} TextLessAsymmetric(a: string, b: string)
    requires TextLess(a, b)
    ensures !TextLess(b, a)
  {
    if a != "" && a[0] == b[0] {
      TextLessAsymmetric(a[1..], b[1..]);
    }
  }

  lemma EarlierText(t: int, u: int)
    requires CanonicalTime(t) && CanonicalTime(u) && t < u
    ensures TextLess(ToIsoString(t), ToIsoString(u))
  {
    hide TextLess, DateText, ClockText, YearText, ClockOf, DateOf, DayFromYear;
    RangeIsYears0To9999(t);
    RangeIsYears0To9999(u);
    var d, e := t / MS_PER_DAY, u / MS_PER_DAY;
    var a, b := t % MS_PER_DAY, u % MS_PER_DAY;
    var x, y := ClockText(ClockOf(a)), ClockText(ClockOf(b));
    if d < e {
      DatesAreOrdered(d, e);
      EarlierDateText(DateOf(d), DateOf(e), x, y);
    } else {
      assert d == e;
      ClocksAreOrdered(a, b);
      EarlierClockText(ClockOf(a), ClockOf(b));
      SameThenLess(DateText(DateOf(d)), x, y);
      SameThenLess(YearText(DateOf(d).year), DateText(DateOf(d)) + x, DateText(DateOf(d)) + y);
    }
  }

  // --------------------------------------------------------------------- results

  /** Comparing the texts of canonical times compares the times. */
  lemma TextOrderIsTimeOrder(t: int, u: int)
    requires CanonicalTime(t) && CanonicalTime(u)
    ensures TextLess(ToIsoString(t), ToIsoString(u)) <==> t < u
    ensures ToIsoString(t) == ToIsoString(u) <==> t == u
  {
    hide ToIsoString;
    if t < u {
      EarlierText(t, u);
      TextLessAsymmetric(ToIsoString(t), ToIsoString(u));
    } else if u < t {
      EarlierText(u, t);
      TextLessAsymmetric(ToIsoString(u), ToIsoString(t));
    } else {
      Irreflexive(ToIsoString(t));
    }
  }

  lemma Irreflexive(a: string)
    ensures !TextLess(a, a)
  {
    if TextLess(a, a) { TextLessAsymmetric(a, a); }
  }

  /** The range constants are the first and last milliseconds of years 0 and 9999. */
  lemma RangeIsYears0To9999(t: int)
    ensures MIN_CANONICAL_MS == DayFromYear(0) * MS_PER_DAY
    ensures MAX_CANONICAL_MS == DayFromYear(10000) * MS_PER_DAY - 1
    ensures CanonicalTime(t) <==> 0 <= DateOf(t / MS_PER_DAY).year <= 9999
  {
    var y := DateOf(t / MS_PER_DAY).year;
    if y < 0 { YearsAreOrdered(y + 1, 0); }
    if y >= 0 { YearsAreOrdered(0, y); }
    if y <= 9999 { YearsAreOrdered(y + 1, 10000); }
    if y > 9999 { YearsAreOrdered(10000, y); }
  }

  /** A time is written in the form the stores accept exactly when it is in the canonical range. */
  lemma AcceptedExactlyInRange(t: int)
    ensures MatchesUtcIso(ToIsoString(t)) <==> CanonicalTime(t)
  {
    hide DateText, ClockText, ClockOf, DateOf, DayFromYear, Padded;
    RangeIsYears0To9999(t);
    var date, c := DateOf(t / MS_PER_DAY), ClockOf(t % MS_PER_DAY);
    if CanonicalTime(t) {
      CanonicalTextFits(date, c);
    } else {
      assert ToIsoString(t)[0] == YearText(date.year)[0];
    }
  }

  lemma DayFits(day: nat, c: TimeOfDay)
    requires c.hour >= 0 && c.minute >= 0 && c.second >= 0 && c.ms >= 0
    ensures Fits("-" + (Padded(day, 2) + ClockText(c)), "-ddTdd:dd:dd.dddZ")
  {
    hide Fits, Padded, ClockText, Digits;
    DigitPatterns();
    PatternParts();
    ClockTextFits(c);
    FieldFits('-', day, 2, ClockText(c), "Tdd:dd:dd.dddZ");
  }

  lemma DatesBeforeClocks(month: string, day: string, clock: string)
    ensures "-" + (month + ("-" + (day + clock))) == "-" + (month + ("-" + day)) + clock
  {
    assert "-" + (day + clock) == ("-" + day) + clock;
    assert month + (("-" + day) + clock) == (month + ("-" + day)) + clock;
  }

  lemma MonthFits(date: Date, c: TimeOfDay)
    requires date.month >= 0 && date.day >= 0
    requires c.hour >= 0 && c.minute >= 0 && c.second >= 0 && c.ms >= 0
    ensures Fits(DateText(date) + ClockText(c), "-dd-ddTdd:dd:dd.dddZ")
  {
    hide Fits, Padded, ClockText, Digits;
    DigitPatterns();
    PatternParts();
    DayFits(date.day, c);
    var r := "-" + (Padded(date.day, 2) + ClockText(c));
    FieldFits('-', date.month, 2, r, "-ddTdd:dd:dd.dddZ");
    DatesBeforeClocks(Padded(date.month, 2), Padded(date.day, 2), ClockText(c));
  }

  lemma CanonicalTextFits(date: Date, c: TimeOfDay)
    requires 0 <= date.year <= 9999 && date.month >= 0 && date.day >= 0
    requires c.hour >= 0 && c.minute >= 0 && c.second >= 0 && c.ms >= 0
    ensures MatchesUtcIso(YearText(date.year) + (DateText(date) + ClockText(c)))
  {
    hide Fits, Padded, ClockText, DateText, Digits;
    DigitPatterns();
    PatternParts();
    MonthFits(date, c);
    PaddedFits(date.year, 4);
    FitsAppend(Padded(date.year, 4), "dddd", DateText(date) + ClockText(c), "-dd-ddTdd:dd:dd.dddZ");
    assert "dddd" + "-dd-ddTdd:dd:dd.dddZ" == "dddd-dd-ddTdd:dd:dd.dddZ";
  }

  /** `finiteClockSnapshot`: None models the RangeError. The reading is None when it is no safe integer. */
  function FiniteClockSnapshot(reading: Option<int>, futureOffset: Option<int>): (now: Option<int>) {
    match (reading, futureOffset)
    case (Some(ms), Some(offset)) =>
      if offset < 0 || ms < MIN_CANONICAL_MS || ms > MAX_CANONICAL_MS - offset then None else Some(ms)
    case _ => None
  }

  /** Every time between an accepted reading and its offset has a text the stores accept, and only then is it accepted. */
  lemma AcceptedReadingsAreWritable(ms: int, offset: nat)
    ensures FiniteClockSnapshot(Some(ms), Some(offset)) == Some(ms)
      <==> forall t :: ms <= t <= ms + offset ==> MatchesUtcIso(ToIsoString(t))
  {
    hide MatchesUtcIso, ToIsoString;
    forall t ensures MatchesUtcIso(ToIsoString(t)) <==> CanonicalTime(t) {
      AcceptedExactlyInRange(t);
    }
    if forall t :: ms <= t <= ms + offset ==> MatchesUtcIso(ToIsoString(t)) {
      assert MatchesUtcIso(ToIsoString(ms)) && MatchesUtcIso(ToIsoString(ms + offset));
    }
  }
}
