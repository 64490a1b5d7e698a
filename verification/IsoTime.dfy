/** UTC datetimes, the text `isoformat()` gives them, and text order against time order. */
module IsoTime {
  import opened Common
  import opened Text

  datatype DateTime = DateTime(year: int, month: int, day: int, hour: int, minute: int, second: int, micro: int)

  predicate IsLeap(year: int) {
    year % 4 == 0 && (year % 100 != 0 || year % 400 == 0)
  }

  function DaysIn(year: int, month: int): int {
    if month == 2 then (if IsLeap(year) then 29 else 28)
    else if month in {4, 6, 9, 11} then 30
    else 31
  }

  predicate ValidDate(d: DateTime) {
    && 1 <= d.year <= 9999 && 1 <= d.month <= 12 && 1 <= d.day <= DaysIn(d.year, d.month)
    && 0 <= d.hour < 24 && 0 <= d.minute < 60 && 0 <= d.second < 60 && 0 <= d.micro < 1000000
  }

  // ----- The instant a datetime denotes -----

  function DaysBeforeYear(year: int): int {
    (year - 1) * 365 + (year - 1) / 4 - (year - 1) / 100 + (year - 1) / 400
  }

  function DaysBeforeMonth(year: int, month: int): int
    requires month >= 1
    decreases month
  {
    if month == 1 then 0 else DaysBeforeMonth(year, month - 1) + DaysIn(year, month - 1)
  }

  /** The day number in the proleptic Gregorian calendar; 1 January of year 1 is day 1. */
  function Ordinal(d: DateTime): int
    requires d.month >= 1
  {
    DaysBeforeYear(d.year) + DaysBeforeMonth(d.year, d.month) + d.day
  }

  const DAY := 86400000000

  function TimeOfDay(d: DateTime): int {
    ((d.hour * 60 + d.minute) * 60 + d.second) * 1000000 + d.micro
  }

  /** Microseconds on the UTC time line. */
  function Micros(d: DateTime): int
    requires d.month >= 1
  {
    Ordinal(d) * DAY + TimeOfDay(d)
  }

  lemma YearLength(year: int)
    requires year >= 1
    ensures DaysBeforeYear(year + 1) == DaysBeforeYear(year) + (if IsLeap(year) then 366 else 365)
  {
    NextQuotient(year, 4);
    NextQuotient(year, 100);
    NextQuotient(year, 400);
    CenturiesAreFourths(year);
  }

  lemma CenturiesAreFourths(year: int)
    ensures year % 400 == 0 ==> year % 100 == 0
    ensures year % 100 == 0 ==> year % 4 == 0
  {
  }

  lemma NextQuotient(n: int, k: int)
    requires n >= 1 && k in {4, 100, 400}
    ensures n / k == (n - 1) / k + (if n % k == 0 then 1 else 0)
  {
  }

  lemma MonthsOfYear(year: int)
    ensures DaysBeforeMonth(year, 12) + 31 == if IsLeap(year) then 366 else 365
  {
    assert DaysBeforeMonth(year, 3) == 31 + DaysIn(year, 2);
    assert DaysBeforeMonth(year, 6) == DaysBeforeMonth(year, 3) + 31 + 30 + 31;
    assert DaysBeforeMonth(year, 9) == DaysBeforeMonth(year, 6) + 30 + 31 + 31;
    assert DaysBeforeMonth(year, 12) == DaysBeforeMonth(year, 9) + 30 + 31 + 30;
  }

  lemma {:induction false} LaterMonth(year: int, month: int, month': int)
    requires 1 <= month < month' <= 12
    ensures DaysBeforeMonth(year, month) + DaysIn(year, month) <= DaysBeforeMonth(year, month')
    decreases month'
  {
    if month < month' - 1 {
      LaterMonth(year, month, month' - 1);
    }
  }

  lemma {:induction false} LaterYear(year: int, year': int)
    requires 1 <= year < year'
    ensures DaysBeforeYear(year) + (if IsLeap(year) then 366 else 365) <= DaysBeforeYear(year')
    decreases year'
  {
    YearLength(year' - 1);
    if year < year' - 1 {
      LaterYear(year, year' - 1);
    }
  }

  lemma DayOfYear(d: DateTime)
    requires ValidDate(d)
    ensures 1 <= DaysBeforeMonth(d.year, d.month) + d.day <= if IsLeap(d.year) then 366 else 365
  {
    MonthsOfYear(d.year);
    if d.month < 12 {
      LaterMonth(d.year, d.month, 12);
    }
    if d.month > 1 {
      LaterMonth(d.year, 1, d.month);
    }
  }

  /** The calendar dates compare field by field, year first. */
  predicate DateBefore(a: DateTime, b: DateTime) {
    || a.year < b.year
    || (a.year == b.year && a.month < b.month)
    || (a.year == b.year && a.month == b.month && a.day < b.day)
  }

  lemma DateBeforeIsEarlierDay(a: DateTime, b: DateTime)
    requires ValidDate(a) && ValidDate(b) && DateBefore(a, b)
    ensures Ordinal(a) < Ordinal(b)
  {
    DayOfYear(a);
    DayOfYear(b);
    if a.year < b.year {
      LaterYear(a.year, b.year);
    } else if a.month < b.month {
      LaterMonth(a.year, a.month, b.month);
    }
  }

  lemma TimeOfDayBound(d: DateTime)
    requires ValidDate(d)
    ensures 0 <= TimeOfDay(d) < DAY
  {
  }

  predicate SameDate(a: DateTime, b: DateTime) {
    a.year == b.year && a.month == b.month && a.day == b.day
  }

  /** Earlier means: an earlier date, or the same date and an earlier time of day. */
  lemma EarlierByDateThenTime(a: DateTime, b: DateTime)
    requires ValidDate(a) && ValidDate(b)
    ensures Micros(a) < Micros(b) <==> DateBefore(a, b) || (SameDate(a, b) && TimeOfDay(a) < TimeOfDay(b))
  {
    TimeOfDayBound(a);
    TimeOfDayBound(b);
    if DateBefore(a, b) {
      DateBeforeIsEarlierDay(a, b);
    } else if DateBefore(b, a) {
      DateBeforeIsEarlierDay(b, a);
    }
  }

  /** The lengths of the months and the days before them, as the calendar has them. */
  lemma MonthTable(year: int, month: int)
    requires 1 <= month <= 12
    ensures var leap := year % 4 == 0 && (year % 100 != 0 || year % 400 == 0);
            && DaysIn(year, month)
               == [31, if leap then 29 else 28, 31, 30, 31, 30, 31, 31, 30, 31, 30, 31][month - 1]
            && DaysBeforeMonth(year, month)
               == [0, 31, 59, 90, 120, 151, 181, 212, 243, 273, 304, 334][month - 1]
                  + (if leap && month > 2 then 1 else 0)
  {
    assert DaysBeforeMonth(year, 2) == 31 && DaysBeforeMonth(year, 3) == 31 + DaysIn(year, 2);
    assert DaysBeforeMonth(year, 5) == DaysBeforeMonth(year, 3) + 61;
    assert DaysBeforeMonth(year, 7) == DaysBeforeMonth(year, 5) + 61;
    assert DaysBeforeMonth(year, 9) == DaysBeforeMonth(year, 7) + 62;
    assert DaysBeforeMonth(year, 11) == DaysBeforeMonth(year, 9) + 61;
  }

  /** Anchors of the time line: the first instant of year 1, of 1970 and of 2000. */
  lemma KnownInstants()
    ensures Micros(DateTime(1, 1, 1, 0, 0, 0, 0)) == 86400000000
    ensures Micros(DateTime(1970, 1, 1, 0, 0, 0, 0)) == 719163 * 86400000000
    ensures Micros(DateTime(2000, 1, 1, 0, 0, 0, 0)) - Micros(DateTime(1970, 1, 1, 0, 0, 0, 0))
         == 946684800 * 1000000
  {
    hide Micros;
    NewYear(1);
    NewYear(1970);
    NewYear(2000);
  }

  lemma NewYear(year: int)
    ensures Micros(DateTime(year, 1, 1, 0, 0, 0, 0))
         == ((year - 1) * 365 + (year - 1) / 4 - (year - 1) / 100 + (year - 1) / 400 + 1) * 86400000000
  {
    var d := DateTime(year, 1, 1, 0, 0, 0, 0);
    assert TimeOfDay(d) == 0;
    assert Ordinal(d) == DaysBeforeYear(year) + 1;
    hide Ordinal, TimeOfDay;
  }

  // ----- Text -----

  function Power10(width: nat): nat {
    if width == 0 then 1 else Power10(width - 1) * 10
  }

  /** A number in exactly `width` decimal digits. */
  function Pad(n: int, width: nat): string
    decreases width
  {
    if width == 0 then "" else Pad(n / 10, width - 1) + [('0' as int + n % 10) as char]
  }

  function Offset(): string {
    "+00:00"
  }

  /** `isoformat()` leaves the fraction out when there are no microseconds. */
  function Fraction(micro: int): string {
    (if micro == 0 then "" else "." + Pad(micro, 6)) + Offset()
  }

  function Iso(d: DateTime): string {
    Pad(d.year, 4) + "-" + (Pad(d.month, 2) + "-" + (Pad(d.day, 2) + "T" + (Pad(d.hour, 2) + ":" +
    (Pad(d.minute, 2) + ":" + (Pad(d.second, 2) + "" + Fraction(d.micro))))))
  }

  /** SQLite's comparison of text: character by character, a proper prefix first. */
  predicate TextLess(s: string, t: string) {
    if t == "" then false
    else if s == "" then true
    else s[0] < t[0] || (s[0] == t[0] && TextLess(s[1..], t[1..]))
  }

  lemma {:induction false} TextLessConcat(a: string, b: string, x: string, y: string)
    requires |a| == |b|
    ensures TextLess(a + x, b + y) <==> TextLess(a, b) || (a == b && TextLess(x, y))
  {
    if a == "" {
      assert a + x == x && b + y == y;
    } else {
      assert (a + x)[1..] == a[1..] + x && (b + y)[1..] == b[1..] + y;
      TextLessConcat(a[1..], b[1..], x, y);
      assert a == [a[0]] + a[1..] && b == [b[0]] + b[1..];
    }
  }

  lemma {:induction false} PadLength(n: int, width: nat)
    ensures |Pad(n, width)| == width
    decreases width
  {
    if width > 0 {
      PadLength(n / 10, width - 1);
    }
  }

  /** In a fixed number of digits, text order is number order. */
  lemma {:induction false} PadOrder(n: int, m: int, width: nat)
    requires 0 <= n < Power10(width) && 0 <= m < Power10(width)
    ensures TextLess(Pad(n, width), Pad(m, width)) <==> n < m
    ensures Pad(n, width) == Pad(m, width) <==> n == m
    decreases width
  {
    if width > 0 {
      PadOrder(n / 10, m / 10, width - 1);
      PadLength(n / 10, width - 1);
      PadLength(m / 10, width - 1);
      var c, c' := ('0' as int + n % 10) as char, ('0' as int + m % 10) as char;
      TextLessConcat(Pad(n / 10, width - 1), Pad(m / 10, width - 1), [c], [c']);
      assert TextLess([c], [c']) <==> n % 10 < m % 10;
      assert Pad(n, width)[..width - 1] == Pad(n / 10, width - 1) && Pad(n, width)[width - 1] == c;
      assert Pad(m, width)[..width - 1] == Pad(m / 10, width - 1) && Pad(m, width)[width - 1] == c';
    }
  }

  /** One fixed-width field in front of what follows it. */
  lemma FieldOrder(n: int, m: int, width: nat, separator: string, x: string, y: string)
    requires 0 <= n < Power10(width) && 0 <= m < Power10(width)
    ensures TextLess(Pad(n, width) + separator + x, Pad(m, width) + separator + y)
            <==> n < m || (n == m && TextLess(x, y))
  {
    PadOrder(n, m, width);
    PadLength(n, width);
    PadLength(m, width);
    TextLessConcat(Pad(n, width), Pad(m, width), separator + x, separator + y);
    TextLessConcat(separator, separator, x, y);
    assert Pad(n, width) + separator + x == Pad(n, width) + (separator + x);
    assert Pad(m, width) + separator + y == Pad(m, width) + (separator + y);
    TextNotLessItself(separator);
  }

  lemma {:induction false} TextNotLessItself(s: string)
    ensures !TextLess(s, s)
  {
    if s != "" {
      TextNotLessItself(s[1..]);
    }
  }

  lemma {:induction false} TextLessIsAsymmetric(a: string, b: string)
    ensures TextLess(a, b) ==> !TextLess(b, a)
  {
    if a != "" && b != "" {
      TextLessIsAsymmetric(a[1..], b[1..]);
    }
  }

  lemma {:induction false} NotLessIsTransitive(a: string, b: string, c: string)
    requires !TextLess(b, a) && !TextLess(c, b)
    ensures !TextLess(c, a)
  {
    if a != "" && b != "" && c != "" && a[0] == b[0] == c[0] {
      NotLessIsTransitive(a[1..], b[1..], c[1..]);
    }
  }

  /** The missing fraction is no harm: the offset's '+' sorts before the '.' of a fraction. */
  lemma FractionOrder(micro: int, micro': int)
    requires 0 <= micro < 1000000 && 0 <= micro' < 1000000
    ensures TextLess(Fraction(micro), Fraction(micro')) <==> micro < micro'
  {
    if micro != 0 && micro' != 0 {
      DigitsOrder(micro, micro');
    } else {
      TextNotLessItself(Fraction(micro));
      FractionStart(micro);
      FractionStart(micro');
    }
  }

  lemma FractionStart(micro: int)
    ensures Fraction(micro) != "" && Fraction(micro)[0] == if micro == 0 then '+' else '.'
  {
  }

  lemma DigitsOrder(micro: int, micro': int)
    requires 0 < micro < 1000000 && 0 < micro' < 1000000
    ensures TextLess(Fraction(micro), Fraction(micro')) <==> micro < micro'
  {
    PowersOfTen();
    TextNotLessItself(Offset());
    TextNotLessItself(".");
    hide Pad, TextLess, Power10;
    var x, y := Pad(micro, 6) + "" + Offset(), Pad(micro', 6) + "" + Offset();
    FieldOrder(micro, micro', 6, "", Offset(), Offset());
    TextLessConcat(".", ".", x, y);
    assert Fraction(micro) == "." + x && Fraction(micro') == "." + y;
  }

  lemma PowersOfTen()
    ensures Power10(2) == 100 && Power10(4) == 10000 && Power10(6) == 1000000
  {
    assert Power10(3) == 1000 && Power10(5) == 100000;
  }

  function Clock(d: DateTime): string {
    Pad(d.hour, 2) + ":" + (Pad(d.minute, 2) + ":" + (Pad(d.second, 2) + "" + Fraction(d.micro)))
  }

  lemma ClockOrder(a: DateTime, b: DateTime)
    requires ValidDate(a) && ValidDate(b)
    ensures TextLess(Clock(a), Clock(b)) <==> TimeOfDay(a) < TimeOfDay(b)
  {
    PowersOfTen();
    FractionOrder(a.micro, b.micro);
    hide Pad, TextLess, Fraction, Power10;
    FieldOrder(a.second, b.second, 2, "", Fraction(a.micro), Fraction(b.micro));
    var x, y := Pad(a.second, 2) + "" + Fraction(a.micro), Pad(b.second, 2) + "" + Fraction(b.micro);
    FieldOrder(a.minute, b.minute, 2, ":", x, y);
    FieldOrder(a.hour, b.hour, 2, ":", Pad(a.minute, 2) + ":" + x, Pad(b.minute, 2) + ":" + y);
  }

  predicate IsNumber(s: string, n: int, width: nat) {
    |s| == width && (forall i :: 0 <= i < width ==> '0' <= s[i] <= '9') && NumberOf(s) == n
  }

  lemma {:induction false} PadIsNumber(n: int, width: nat)
    requires 0 <= n < Power10(width)
    ensures IsNumber(Pad(n, width), n, width)
    decreases width
  {
    if width > 0 {
      PadIsNumber(n / 10, width - 1);
      var init, c := Pad(n / 10, width - 1), ('0' as int + n % 10) as char;
      assert '0' <= c <= '9' && c as int - '0' as int == n % 10;
      assert (init + [c])[..width - 1] == init;
    }
  }

  lemma PadsAreNumbers(d: DateTime)
    requires ValidDate(d)
    ensures IsNumber(Pad(d.year, 4), d.year, 4) && IsNumber(Pad(d.month, 2), d.month, 2)
    ensures IsNumber(Pad(d.day, 2), d.day, 2) && IsNumber(Pad(d.hour, 2), d.hour, 2)
    ensures IsNumber(Pad(d.minute, 2), d.minute, 2) && IsNumber(Pad(d.second, 2), d.second, 2)
    ensures IsNumber(Pad(d.micro, 6), d.micro, 6)
  {
    PowersOfTen();
    hide Pad, Power10;
    PadIsNumber(d.year, 4);
    PadIsNumber(d.month, 2);
    PadIsNumber(d.day, 2);
    PadIsNumber(d.hour, 2);
    PadIsNumber(d.minute, 2);
    PadIsNumber(d.second, 2);
    PadIsNumber(d.micro, 6);
  }

  /**
   * The text is YYYY-MM-DDThh:mm:ss+00:00, with .ffffff before the offset exactly when there are
   * microseconds, and every field reads back as the number it shows.
   */
  lemma IsoReadsBack(d: DateTime)
    requires ValidDate(d)
    ensures var s := Iso(d);
            && |s| == (if d.micro == 0 then 25 else 32)
            && IsNumber(s[..4], d.year, 4) && s[4] == '-'
            && IsNumber(s[5..7], d.month, 2) && s[7] == '-'
            && IsNumber(s[8..10], d.day, 2) && s[10] == 'T'
            && IsNumber(s[11..13], d.hour, 2) && s[13] == ':'
            && IsNumber(s[14..16], d.minute, 2) && s[16] == ':'
            && IsNumber(s[17..19], d.second, 2)
            && s[|s| - 6..] == "+00:00"
            && (d.micro != 0 ==> s[19] == '.' && IsNumber(s[20..26], d.micro, 6))
  {
    hide Pad, NumberOf;
    PadsAreNumbers(d);
    var s := Iso(d);
    DateReadsBack(d);
    var date, clock := s[..11], s[11..];
    assert s[17..19] == clock[6..8] && s[14..16] == clock[3..5] && s[11..13] == clock[..2];
    ClockReadsBack(d);
    assert s[|s| - 6..] == clock[|clock| - 6..];
    if d.micro != 0 {
      assert s[20..26] == clock[9..15];
    }
  }

  lemma DateReadsBack(d: DateTime)
    requires |Pad(d.year, 4)| == 4 && |Pad(d.month, 2)| == |Pad(d.day, 2)| == 2
    ensures var s := Iso(d);
            && |s| == 11 + |Clock(d)| && s[11..] == Clock(d)
            && s[..4] == Pad(d.year, 4) && s[4] == '-' && s[5..7] == Pad(d.month, 2) && s[7] == '-'
            && s[8..10] == Pad(d.day, 2) && s[10] == 'T'
  {
    IsoIsDateThenClock(d);
    hide Pad, Clock, Iso;
    var date := Pad(d.year, 4) + "-" + Pad(d.month, 2) + "-" + Pad(d.day, 2) + "T";
    assert Iso(d) == date + Clock(d);
  }

  lemma ClockReadsBack(d: DateTime)
    requires |Pad(d.hour, 2)| == |Pad(d.minute, 2)| == |Pad(d.second, 2)| == 2 && |Pad(d.micro, 6)| == 6
    ensures var s := Clock(d);
            && |s| == (if d.micro == 0 then 14 else 21)
            && s[..2] == Pad(d.hour, 2) && s[2] == ':' && s[3..5] == Pad(d.minute, 2) && s[5] == ':'
            && s[6..8] == Pad(d.second, 2) && s[|s| - 6..] == "+00:00"
            && (d.micro != 0 ==> s[8] == '.' && s[9..15] == Pad(d.micro, 6))
  {
    hide Pad;
    var time := Pad(d.hour, 2) + ":" + Pad(d.minute, 2) + ":" + Pad(d.second, 2);
    var s, fraction := Clock(d), Fraction(d.micro);
    assert s == time + fraction;
    assert time[..2] == Pad(d.hour, 2) && time[3..5] == Pad(d.minute, 2) && time[6..8] == Pad(d.second, 2);
    assert s[..2] == time[..2] && s[3..5] == time[3..5] && s[6..8] == time[6..8];
    FractionReadsBack(d.micro);
    assert s[|s| - 6..] == fraction[|fraction| - 6..];
    if d.micro != 0 {
      assert s[8] == fraction[0] && s[9..15] == fraction[1..7];
    }
  }

  lemma FractionReadsBack(micro: int)
    requires |Pad(micro, 6)| == 6
    ensures var s := Fraction(micro);
            && |s| == (if micro == 0 then 6 else 13)
            && s[|s| - 6..] == "+00:00"
            && (micro != 0 ==> s[0] == '.' && s[1..7] == Pad(micro, 6))
  {
    hide Pad;
    if micro != 0 {
      assert Fraction(micro) == "." + Pad(micro, 6) + "+00:00";
    }
  }

  /**
   * For all UTC datetimes, text order of `isoformat()` is time order, although the texts have two
   * lengths: beyond the fixed number of fractional digits that section 5.1 of RFC 3339 asks for.
   */
  lemma IsoOrderIsTimeOrder(a: DateTime, b: DateTime)
    requires ValidDate(a) && ValidDate(b)
    ensures TextLess(Iso(a), Iso(b)) <==> Micros(a) < Micros(b)
  {
    EarlierByDateThenTime(a, b);
    ClockOrder(a, b);
    PowersOfTen();
    hide Pad, TextLess, Clock, Power10, Micros, TimeOfDay;
    var x, y := Pad(a.day, 2) + "T" + Clock(a), Pad(b.day, 2) + "T" + Clock(b);
    FieldOrder(a.day, b.day, 2, "T", Clock(a), Clock(b));
    FieldOrder(a.month, b.month, 2, "-", x, y);
    FieldOrder(a.year, b.year, 4, "-", Pad(a.month, 2) + "-" + x, Pad(b.month, 2) + "-" + y);
    IsoIsDateThenClock(a);
    IsoIsDateThenClock(b);
  }

  lemma IsoIsDateThenClock(d: DateTime)
    ensures Iso(d) == Pad(d.year, 4) + "-" + (Pad(d.month, 2) + "-" + (Pad(d.day, 2) + "T" + Clock(d)))
  {
  }

  /** Different instants never share a text, and different texts never share an instant. */
  lemma IsoNamesInstant(a: DateTime, b: DateTime)
    requires ValidDate(a) && ValidDate(b)
    ensures Iso(a) == Iso(b) <==> Micros(a) == Micros(b)
    ensures Micros(a) == Micros(b) <==> a == b
  {
    hide TextLess, Iso, Micros;
    IsoOrderIsTimeOrder(a, b);
    IsoOrderIsTimeOrder(b, a);
    TextNotLessItself(Iso(a));
    EarlierByDateThenTime(a, b);
    EarlierByDateThenTime(b, a);
    if Micros(a) == Micros(b) {
      SameTimeOfDay(a, b);
    }
  }

  lemma SameTimeOfDay(a: DateTime, b: DateTime)
    requires ValidDate(a) && ValidDate(b) && SameDate(a, b)
    ensures TimeOfDay(a) == TimeOfDay(b) <==> a == b
  {
  }

  // ----- Subtracting days -----

  /** The same time a day earlier; there is none before 1 January of year 1. */
  function PreviousDay(d: DateTime): Option<DateTime> {
    if d.day > 1 then Some(d.(day := d.day - 1))
    else if d.month > 1 then Some(d.(month := d.month - 1, day := DaysIn(d.year, d.month - 1)))
    else if d.year > 1 then Some(d.(year := d.year - 1, month := 12, day := 31))
    else None
  }

  function MinusDays(d: DateTime, days: nat): Option<DateTime>
    decreases days
  {
    if days == 0 then Some(d)
    else
      match PreviousDay(d)
      case None => None
      case Some(d') => MinusDays(d', days - 1)
  }

  lemma FirstOfYear(d: DateTime)
    requires ValidDate(d)
    ensures Ordinal(d) >= 1 && (Ordinal(d) == 1 <==> d.year == 1 && d.month == 1 && d.day == 1)
  {
    DayOfYear(d);
    if d.month > 1 {
      LaterMonth(d.year, 1, d.month);
    }
    if d.year > 1 {
      LaterYear(1, d.year);
    }
  }

  lemma PreviousDayIsEarlier(d: DateTime)
    requires ValidDate(d)
    ensures PreviousDay(d).None? <==> Ordinal(d) == 1
    ensures PreviousDay(d).Some? ==>
              var d' := PreviousDay(d).value;
              ValidDate(d') && Ordinal(d') == Ordinal(d) - 1 && TimeOfDay(d') == TimeOfDay(d)
  {
    FirstOfYear(d);
    if d.day == 1 && d.month == 1 && d.year > 1 {
      YearLength(d.year - 1);
      MonthsOfYear(d.year - 1);
    }
  }

  /** `now - timedelta(days)` is exact, and overflows exactly when it would leave the calendar. */
  lemma {:induction false} MinusDaysIsExact(d: DateTime, days: nat)
    requires ValidDate(d)
    ensures MinusDays(d, days).Some? ==>
              ValidDate(MinusDays(d, days).value) && Micros(MinusDays(d, days).value) == Micros(d) - days * DAY
    ensures MinusDays(d, days).None? <==> Ordinal(d) <= days
    decreases days
  {
    FirstOfYear(d);
    if days > 0 {
      PreviousDayIsEarlier(d);
      if PreviousDay(d).Some? {
        MinusDaysIsExact(PreviousDay(d).value, days - 1);
      }
    }
  }
}
