/** Date.prototype.toISOString for the dates a DATETIME column holds from 1970 to 9999, and the
    reading of such a text back. */
module IsoDates {
  import opened Wrappers
  import opened Decimal

  const DAY_MS := 86_400_000

  /** 10000-01-01T00:00:00.000Z */
  const END_MS := DaysTo(10_000) * DAY_MS

  // ---------------------------------------------------------------- calendar

  predicate Leap(y: int) {
    y % 4 == 0 && (y % 100 != 0 || y % 400 == 0)
  }

  function YearDays(y: int): nat {
    if Leap(y) then 366 else 365
  }

  function MonthDays(y: int, m: int): nat {
    if m == 2 then (if Leap(y) then 29 else 28)
    else if m == 4 || m == 6 || m == 9 || m == 11 then 30
    else 31
  }

  /** Days from 1 January 1970 to 1 January of year y. */
  function DaysTo(y: int): int {
    365 * (y - 1970) + ((y - 1) / 4 - (y - 1) / 100 + (y - 1) / 400) - 477
  }

  lemma NextYear(y: int)
    ensures DaysTo(y + 1) == DaysTo(y) + YearDays(y)
  {
    LeapCount(y, 4);
    LeapCount(y, 100);
    LeapCount(y, 400);
  }

  lemma LeapCount(y: int, q: int)
    requires q == 4 || q == 100 || q == 400
    ensures y / q == (y - 1) / q + if y % q == 0 then 1 else 0
  {}

  /** The year that day d after 1 January of year y falls in, and the day within that year. */
  function YearAt(y: int, d: nat): (r: (int, nat))
    ensures y <= r.0 && r.1 < YearDays(r.0)
    ensures DaysTo(r.0) + r.1 == DaysTo(y) + d
    decreases d
  {
    NextYear(y);
    if d < YearDays(y) then (y, d) else YearAt(y + 1, d - YearDays(y))
  }

  /** Days of year y before month m. */
  function DaysInto(y: int, m: int): nat
    requires 1 <= m <= 13
  {
    if m == 1 then 0 else DaysInto(y, m - 1) + MonthDays(y, m - 1)
  }

  lemma WholeYear(y: int)
    ensures DaysInto(y, 13) == YearDays(y)
  {
    assert DaysInto(y, 2) == 31;
    assert DaysInto(y, 3) == 31 + MonthDays(y, 2);
    assert DaysInto(y, 5) == DaysInto(y, 3) + 31 + 30;
    assert DaysInto(y, 7) == DaysInto(y, 5) + 31 + 30;
    assert DaysInto(y, 9) == DaysInto(y, 7) + 31 + 31;
    assert DaysInto(y, 11) == DaysInto(y, 9) + 30 + 31;
    assert DaysInto(y, 13) == DaysInto(y, 11) + 30 + 31;
  }

  /** The month, from m on, in which day d of the rest of the year falls, and the day in it. */
  function MonthAt(y: int, m: int, d: nat): (r: (int, nat))
    requires 1 <= m <= 12 && DaysInto(y, m) + d < DaysInto(y, 13)
    ensures m <= r.0 <= 12 && r.1 < MonthDays(y, r.0)
    ensures DaysInto(y, r.0) + r.1 == DaysInto(y, m) + d
    decreases 13 - m
  {
    assert DaysInto(y, m + 1) == DaysInto(y, m) + MonthDays(y, m);
    if d < MonthDays(y, m) then (m, d) else MonthAt(y, m + 1, d - MonthDays(y, m))
  }

  datatype Date = Date(year: int, month: int, day: int)

  predicate ValidDate(x: Date) {
    1 <= x.month <= 12 && 1 <= x.day <= MonthDays(x.year, x.month)
  }

  function Days(x: Date): int
    requires ValidDate(x)
  {
    DaysTo(x.year) + DaysInto(x.year, x.month) + x.day - 1
  }

  lemma Epoch()
    ensures DaysTo(1970) == 0
  {}

  /** The calendar date of a day counted from 1970. */
  function DateOf(days: nat): (x: Date)
    ensures ValidDate(x) && x.year >= 1970 && Days(x) == days
  {
    var (y, rest) := YearAt(1970, days);
    WholeYear(y);
    Epoch();
    var (m, d) := MonthAt(y, 1, rest);
    Date(y, m, d + 1)
  }

  lemma {:induction false} YearsApart(y: int, z: int)
    requires y <= z
    ensures DaysTo(y) <= DaysTo(z)
    decreases z - y
  {
    if y < z {
      YearsApart(y, z - 1);
      NextYear(z - 1);
    }
  }

  // ---------------------------------------------------------------- text

  function Two(n: nat): string
    requires n < 100
  {
    [Digit(n / 10), Digit(n % 10)]
  }

  function Three(n: nat): string
    requires n < 1000
  {
    Two(n / 10) + [Digit(n % 10)]
  }

  function Four(n: nat): string
    requires n < 10_000
  {
    Three(n / 10) + [Digit(n % 10)]
  }

  lemma OneMoreDigit(s: string, n: nat)
    requires s != "" && ParseNat(s) == Some(n / 10)
    ensures ParseNat(s + [Digit(n % 10)]) == Some(n)
  {
    assert (s + [Digit(n % 10)])[..|s|] == s;
  }

  lemma TwoRoundTrip(n: nat)
    requires n < 100
    ensures ParseNat(Two(n)) == Some(n)
  {
    assert Two(n) == [Digit(n / 10)] + [Digit(n % 10)];
    OneMoreDigit([Digit(n / 10)], n);
  }

  lemma ThreeRoundTrip(n: nat)
    requires n < 1000
    ensures ParseNat(Three(n)) == Some(n)
  {
    TwoRoundTrip(n / 10);
    OneMoreDigit(Two(n / 10), n);
  }

  lemma FourRoundTrip(n: nat)
    requires n < 10_000
    ensures ParseNat(Four(n)) == Some(n)
  {
    ThreeRoundTrip(n / 10);
    OneMoreDigit(Three(n / 10), n);
  }

  /** YYYY-MM-DDT */
  function DateText(x: Date): (s: string)
    requires ValidDate(x) && 0 <= x.year < 10_000
    ensures |s| == 11
  {
    Four(x.year) + "-" + Two(x.month) + "-" + Two(x.day) + "T"
  }

  /** HH:mm:ss.sssZ, from the milliseconds of a day */
  function TimeText(t: nat): (s: string)
    requires t < DAY_MS
    ensures |s| == 13
  {
    Clock(t);
    Two(t / 1000 / 60 / 60) + ":" + Two(t / 1000 / 60 % 60) + ":" + Two(t / 1000 % 60) + "." + Three(t % 1000) + "Z"
  }

  lemma Clock(t: nat)
    requires t < DAY_MS
    ensures t / 1000 / 60 / 60 < 24
    ensures t == ((t / 1000 / 60 / 60 * 60 + t / 1000 / 60 % 60) * 60 + t / 1000 % 60) * 1000 + t % 1000
  {
    var a := t / 1000;
    var b := a / 60;
    var c := b / 60;
    assert t == a * 1000 + t % 1000 && a == b * 60 + a % 60 && b == c * 60 + b % 60;
  }

  function Iso(ms: int): (s: string)
    requires 0 <= ms < END_MS
    ensures |s| == 24
  {
    YearsInRange(ms / DAY_MS);
    DateText(DateOf(ms / DAY_MS)) + TimeText(ms % DAY_MS)
  }

  lemma YearsInRange(days: nat)
    requires days < DaysTo(10_000)
    ensures DateOf(days).year < 10_000
  {
    var x := DateOf(days);
    if x.year >= 10_000 { YearsApart(10_000, x.year); }
  }

  function ParseDate(s: string): Option<Date>
    requires |s| == 11
  {
    if s[4] != '-' || s[7] != '-' || s[10] != 'T' then None
    else
      var y, m, d := ParseNat(s[0..4]), ParseNat(s[5..7]), ParseNat(s[8..10]);
      if y.None? || m.None? || d.None? || !ValidDate(Date(y.value, m.value, d.value)) then None
      else Some(Date(y.value, m.value, d.value))
  }

  function ParseTime(s: string): Option<nat>
    requires |s| == 13
  {
    if s[2] != ':' || s[5] != ':' || s[8] != '.' || s[12] != 'Z' then None
    else
      var h, m, sec, ms := ParseNat(s[0..2]), ParseNat(s[3..5]), ParseNat(s[6..8]), ParseNat(s[9..12]);
      if h.None? || m.None? || sec.None? || ms.None? || h.value >= 24 || m.value >= 60 || sec.value >= 60 then None
      else Some(((h.value * 60 + m.value) * 60 + sec.value) * 1000 + ms.value)
  }

  /** The instant the text names, in milliseconds from 1970; None if it is not such a text. */
  function ParseIso(s: string): Option<int> {
    if |s| != 24 then None
    else
      var date, time := ParseDate(s[..11]), ParseTime(s[11..]);
      if date.None? || time.None? then None else Some(Days(date.value) * DAY_MS + time.value)
  }

  lemma DateRoundTrip(x: Date)
    requires ValidDate(x) && 0 <= x.year < 10_000
    ensures ParseDate(DateText(x)) == Some(x)
  {
    FourRoundTrip(x.year);
    TwoRoundTrip(x.month);
    TwoRoundTrip(x.day);
    var s, y, m, d := DateText(x), Four(x.year), Two(x.month), Two(x.day);
    hide ParseNat, Digit, Four, Two, MonthDays;
    assert s[0..4] == y && s[5..7] == m && s[8..10] == d;
  }

  lemma TimeRoundTrip(t: nat)
    requires t < DAY_MS
    ensures ParseTime(TimeText(t)) == Some(t)
  {
    Clock(t);
    TimeLayout(t);
    hide ParseNat, TimeText;
  }

  lemma HalvesRead(x: Date, t: nat)
    requires ValidDate(x) && 0 <= x.year < 10_000 && t < DAY_MS
    ensures ParseIso(DateText(x) + TimeText(t)) == Some(Days(x) * DAY_MS + t)
  {
    DateRoundTrip(x);
    TimeRoundTrip(t);
    hide ParseDate, ParseTime, DateText, TimeText, Days, ValidDate;
    assert (DateText(x) + TimeText(t))[..11] == DateText(x) && (DateText(x) + TimeText(t))[11..] == TimeText(t);
  }

  /** Every instant of the column's range survives rendering and reading. */
  lemma IsoRoundTrip(ms: int)
    requires 0 <= ms < END_MS
    ensures ParseIso(Iso(ms)) == Some(ms)
  {
    hide ParseIso, DateText, TimeText, DateOf, Days, ValidDate, DaysTo;
    YearsInRange(ms / DAY_MS);
    HalvesRead(DateOf(ms / DAY_MS), ms % DAY_MS);
  }

  /** What stands where: year, month and day of the instant's calendar date, hours, minutes,
      seconds and milliseconds of its day. */
  lemma IsoLayout(ms: int)
    requires 0 <= ms < END_MS
    ensures var s, x, t := Iso(ms), DateOf(ms / DAY_MS), ms % DAY_MS;
      && s[4] == '-' && s[7] == '-' && s[10] == 'T' && s[13] == ':' && s[16] == ':' && s[19] == '.' && s[23] == 'Z'
      && ParseNat(s[0..4]) == Some(x.year) && ParseNat(s[5..7]) == Some(x.month) && ParseNat(s[8..10]) == Some(x.day)
      && ParseNat(s[11..13]) == Some(t / 1000 / 60 / 60) && ParseNat(s[14..16]) == Some(t / 1000 / 60 % 60)
      && ParseNat(s[17..19]) == Some(t / 1000 % 60) && ParseNat(s[20..23]) == Some(t % 1000)
  {
    hide DateOf, DateText, TimeText, ParseNat, DaysTo, ValidDate, Days;
    YearsInRange(ms / DAY_MS);
    DateLayout(DateOf(ms / DAY_MS));
    TimeLayout(ms % DAY_MS);
    Slices(DateText(DateOf(ms / DAY_MS)), TimeText(ms % DAY_MS));
  }

  lemma Slices(d: string, c: string)
    requires |d| == 11 && |c| == 13
    ensures var s := d + c;
      && s[0..4] == d[0..4] && s[5..7] == d[5..7] && s[8..10] == d[8..10]
      && s[11..13] == c[0..2] && s[14..16] == c[3..5] && s[17..19] == c[6..8] && s[20..23] == c[9..12]
  {}

  lemma DateLayout(x: Date)
    requires ValidDate(x) && 0 <= x.year < 10_000
    ensures var s := DateText(x);
      && s[4] == '-' && s[7] == '-' && s[10] == 'T'
      && ParseNat(s[0..4]) == Some(x.year) && ParseNat(s[5..7]) == Some(x.month) && ParseNat(s[8..10]) == Some(x.day)
  {
    DateRoundTrip(x);
    hide DateText, ParseNat, ValidDate;
  }

  lemma TimeLayout(t: nat)
    requires t < DAY_MS
    ensures var s := TimeText(t);
      && s[2] == ':' && s[5] == ':' && s[8] == '.' && s[12] == 'Z'
      && ParseNat(s[0..2]) == Some(t / 1000 / 60 / 60) && ParseNat(s[3..5]) == Some(t / 1000 / 60 % 60)
      && ParseNat(s[6..8]) == Some(t / 1000 % 60) && ParseNat(s[9..12]) == Some(t % 1000)
  {
    Clock(t);
    var h, m, sec, ms := t / 1000 / 60 / 60, t / 1000 / 60 % 60, t / 1000 % 60, t % 1000;
    TwoRoundTrip(h);
    TwoRoundTrip(m);
    TwoRoundTrip(sec);
    ThreeRoundTrip(ms);
    var s := TimeText(t);
    hide ParseNat, Digit, Two, Three;
    Colons(Two(h), Two(m), Two(sec), Three(ms));
  }

  lemma Colons(h: string, m: string, sec: string, ms: string)
    requires |h| == 2 && |m| == 2 && |sec| == 2 && |ms| == 3
    ensures var s := h + ":" + m + ":" + sec + "." + ms + "Z";
      && s[0..2] == h && s[3..5] == m && s[6..8] == sec && s[9..12] == ms
      && s[2] == ':' && s[5] == ':' && s[8] == '.' && s[12] == 'Z'
  {
    var a := h + ":" + m;
    var b := a + ":" + sec;
    assert a[0..2] == h && a[3..5] == m && a[2] == ':';
    assert b[0..5] == a && b[6..8] == sec && b[5] == ':';
    assert (b + "." + ms + "Z")[0..8] == b;
  }

  /** No text is both a date and a whole number. */
  lemma DateIsNoNumber(s: string)
    ensures ParseIso(s).None? || ParseInt(s).None?
  {
    if ParseIso(s).Some? && ParseInt(s).Some? {
      assert s[..11][10] == s[10];
      if s[0] == '-' { OnlyDigits(s[1..], 9); } else { OnlyDigits(s, 10); }
    }
  }

  lemma {:induction false} OnlyDigits(s: string, i: nat)
    requires ParseNat(s).Some? && i < |s|
    ensures IsDigit(s[i])
  {
    if i < |s| - 1 { OnlyDigits(s[..|s| - 1], i); }
  }
}
