/**
  Calendar timestamps with the textual forms Python's `datetime` produces and
  reads back: `isoformat(timespec="seconds")`, used for every stored
  timestamp, `str(dt)`, used when a datetime inside a payload is encoded, and
  `datetime.fromisoformat`, used when a stored DTC timestamp is read back.
*/
module Timestamps {
  import opened Common

  /** A `datetime`; `offsetMinutes` is its UTC offset, `None` for a naive value. */
  datatype DateTime = DateTime(
    year: int, month: int, day: int,
    hour: int, minute: int, second: int, microsecond: int,
    offsetMinutes: Option<int>)

  predicate IsLeapYear(y: int) { y % 4 == 0 && (y % 100 != 0 || y % 400 == 0) }

  function DaysInMonth(y: int, m: int): int {
    if m == 2 then (if IsLeapYear(y) then 29 else 28)
    else if m == 4 || m == 6 || m == 9 || m == 11 then 30
    else 31
  }

  predicate ValidDate(y: int, m: int, d: int) {
    1 <= y <= 9999 && 1 <= m <= 12 && 1 <= d <= DaysInMonth(y, m)
  }

  /** Offsets are whole minutes strictly inside one day, as `timezone` requires. */
  predicate ValidOffset(o: Option<int>) {
    o.Some? ==> -1440 < o.value < 1440
  }

  predicate ValidDateTime(dt: DateTime) {
    && ValidDate(dt.year, dt.month, dt.day)
    && 0 <= dt.hour < 24 && 0 <= dt.minute < 60 && 0 <= dt.second < 60
    && 0 <= dt.microsecond < 1000000
    && ValidOffset(dt.offsetMinutes)
  }

  /** A `datetime` value that Python could construct. */
  type Instant = dt: DateTime | ValidDateTime(dt) witness DateTime(1970, 1, 1, 0, 0, 0, 0, None)

  /** `dt` with the sub-second part dropped, as `timespec="seconds"` does. */
  function WholeSeconds(dt: DateTime): DateTime { dt.(microsecond := 0) }

  function DigitChar(d: int): (c: char)
    requires 0 <= d < 10
    ensures '0' <= c <= '9' && c as int - '0' as int == d
  {
    ('0' as int + d) as char
  }

  function Pad2(n: int): (s: string)
    requires 0 <= n < 100
    ensures |s| == 2
  {
    [DigitChar(n / 10), DigitChar(n % 10)]
  }

  function Pad4(n: int): (s: string)
    requires 0 <= n < 10000
    ensures |s| == 4
  {
    [DigitChar(n / 1000), DigitChar(n / 100 % 10), DigitChar(n / 10 % 10), DigitChar(n % 10)]
  }

  function Pad6(n: int): (s: string)
    requires 0 <= n < 1000000
    ensures |s| == 6
  {
    Pad2(n / 10000) + Pad2(n / 100 % 100) + Pad2(n % 100)
  }

  function AbsInt(n: int): nat { if n < 0 then -n else n }

  /** `utcoffset` as `isoformat` writes it: `+HH:MM` or `-HH:MM`, nothing when naive. */
  function OffsetText(o: Option<int>): (s: string)
    requires ValidOffset(o)
    ensures o.Some? ==> |s| == 6
    ensures o.None? ==> s == ""
  {
    match o
    case None => ""
    case Some(m) => (if m < 0 then "-" else "+") + Pad2(AbsInt(m) / 60) + ":" + Pad2(AbsInt(m) % 60)
  }

  function DateText(dt: DateTime): (s: string)
    requires ValidDateTime(dt)
    ensures |s| == 10
  {
    Pad4(dt.year) + "-" + Pad2(dt.month) + "-" + Pad2(dt.day)
  }

  function TimeText(dt: DateTime): (s: string)
    requires ValidDateTime(dt)
    ensures |s| == 8
  {
    Pad2(dt.hour) + ":" + Pad2(dt.minute) + ":" + Pad2(dt.second)
  }

  /** `dt.isoformat(timespec="seconds")`: `YYYY-MM-DDTHH:MM:SS` and the offset. */
  function IsoSeconds(dt: DateTime): (s: string)
    requires ValidDateTime(dt)
    ensures |s| == (if dt.offsetMinutes.Some? then 25 else 19)
  {
    DateText(dt) + "T" + TimeText(dt) + OffsetText(dt.offsetMinutes)
  }

  /** `str(dt)`: a space between date and time, and microseconds when non-zero. */
  function DateTimeStr(dt: DateTime): (s: string)
    requires ValidDateTime(dt)
  {
    DateText(dt) + " " + TimeText(dt)
    + (if dt.microsecond != 0 then "." + Pad6(dt.microsecond) else "")
    + OffsetText(dt.offsetMinutes)
  }

  predicate DigitAt(s: string, i: int) { 0 <= i < |s| && '0' <= s[i] <= '9' }

  function TwoDigits(s: string, i: int): (n: int)
    requires DigitAt(s, i) && DigitAt(s, i + 1)
    ensures 0 <= n < 100
  {
    (s[i] as int - '0' as int) * 10 + (s[i + 1] as int - '0' as int)
  }

  function FourDigits(s: string, i: int): (n: int)
    requires DigitAt(s, i) && DigitAt(s, i + 1) && DigitAt(s, i + 2) && DigitAt(s, i + 3)
    ensures 0 <= n < 10000
  {
    TwoDigits(s, i) * 100 + TwoDigits(s, i + 2)
  }

  function ThreeDigits(s: string, i: int): (n: int)
    requires DigitAt(s, i) && DigitAt(s, i + 1) && DigitAt(s, i + 2)
    ensures 0 <= n < 1000
  {
    TwoDigits(s, i) * 10 + (s[i + 2] as int - '0' as int)
  }

  function SixDigits(s: string, i: int): (n: int)
    requires forall j :: i <= j < i + 6 ==> DigitAt(s, j)
    ensures 0 <= n < 1000000
  {
    TwoDigits(s, i) * 10000 + TwoDigits(s, i + 2) * 100 + TwoDigits(s, i + 4)
  }

  /** `YYYY-MM-DD` in the first ten characters. */
  predicate DateLayout(s: string) {
    && |s| >= 10
    && DigitAt(s, 0) && DigitAt(s, 1) && DigitAt(s, 2) && DigitAt(s, 3) && s[4] == '-'
    && DigitAt(s, 5) && DigitAt(s, 6) && s[7] == '-' && DigitAt(s, 8) && DigitAt(s, 9)
  }

  /** The time of day that `fromisoformat` reads, before the range checks of `datetime`. */
  datatype Clock = Clock(hour: int, minute: int, second: int, microsecond: int)

  /** `HH:MM:SS` at the start of `t`. */
  predicate HmsLayout(t: string) {
    && |t| >= 8
    && DigitAt(t, 0) && DigitAt(t, 1) && t[2] == ':' && DigitAt(t, 3) && DigitAt(t, 4)
    && t[5] == ':' && DigitAt(t, 6) && DigitAt(t, 7)
  }

  /** The time part `HH[:MM[:SS[.fff[fff]]]]`; three fraction digits are milliseconds. */
  function ParseClock(t: string): Option<Clock> {
    if |t| == 2 && DigitAt(t, 0) && DigitAt(t, 1) then Some(Clock(TwoDigits(t, 0), 0, 0, 0))
    else if |t| == 5 && DigitAt(t, 0) && DigitAt(t, 1) && t[2] == ':' && DigitAt(t, 3) && DigitAt(t, 4)
    then Some(Clock(TwoDigits(t, 0), TwoDigits(t, 3), 0, 0))
    else if !HmsLayout(t) then None
    else
      var hms := Clock(TwoDigits(t, 0), TwoDigits(t, 3), TwoDigits(t, 6), 0);
      if |t| == 8 then Some(hms)
      else if |t| == 12 && t[8] == '.' && DigitAt(t, 9) && DigitAt(t, 10) && DigitAt(t, 11)
      then Some(hms.(microsecond := ThreeDigits(t, 9) * 1000))
      else if |t| == 15 && t[8] == '.' && (forall j :: 9 <= j < 15 ==> DigitAt(t, j))
      then Some(hms.(microsecond := SixDigits(t, 9)))
      else None
  }

  /** Where the offset of a time part begins: its first `+` or `-`, or its end. */
  function TzStart(t: string): (k: nat)
    ensures k <= |t|
    ensures forall j :: 0 <= j < k ==> t[j] != '+' && t[j] != '-'
    ensures k < |t| ==> t[k] == '+' || t[k] == '-'
    decreases |t|
  {
    if t == [] || t[0] == '+' || t[0] == '-' then 0
    else
      var k := TzStart(t[1..]);
      assert forall j :: 1 <= j < k + 1 ==> t[j] == t[1..][j - 1];
      1 + k
  }

  /** The offset `+HH:MM` or `-HH:MM`, in minutes; the empty string is a naive time.
      The minutes are not range-checked here: only the total must stay within a day. */
  function ParseTz(z: string): Option<Option<int>> {
    if z == "" then Some(None)
    else if |z| == 6 && (z[0] == '+' || z[0] == '-') && DigitAt(z, 1) && DigitAt(z, 2) && z[3] == ':'
            && DigitAt(z, 4) && DigitAt(z, 5)
    then
      var total := TwoDigits(z, 1) * 60 + TwoDigits(z, 4);
      Some(Some(if z[0] == '-' then -total else total))
    else None
  }

  /** The clock and offset of the text after the date and its separator. */
  function ParseTime(t: string): Option<(Clock, Option<int>)> {
    var k := TzStart(t);
    var clock := ParseClock(t[..k]);
    var tz := ParseTz(t[k..]);
    if clock.Some? && tz.Some? then Some((clock.value, tz.value)) else None
  }

  /** `datetime.fromisoformat` on the forms `datetime.isoformat` and `str`
      write: `YYYY-MM-DD`, optionally followed by any one separator character
      and a time `HH[:MM[:SS[.fff[fff]]]]` with an optional `+HH:MM`/`-HH:MM`
      offset. `None` stands for the `ValueError` it raises on anything else,
      an impossible date or time included. */
  function FromIsoFormat(s: string): (r: Option<DateTime>)
    ensures r.Some? ==> ValidDateTime(r.value)
    ensures r.Some? ==> (
      && DateLayout(s) && r.value.year == FourDigits(s, 0)
      && r.value.month == TwoDigits(s, 5) && r.value.day == TwoDigits(s, 8))
    ensures |s| == 10 && r.Some? ==> r.value == DateTime(r.value.year, r.value.month, r.value.day, 0, 0, 0, 0, None)
  {
    if !DateLayout(s) then None
    else
      var time := if |s| == 10 then Some((Clock(0, 0, 0, 0), None)) else ParseTime(s[11..]);
      if time.None? then None
      else
        var (c, tz) := time.value;
        var dt := DateTime(FourDigits(s, 0), TwoDigits(s, 5), TwoDigits(s, 8),
                           c.hour, c.minute, c.second, c.microsecond, tz);
        if ValidDateTime(dt) then Some(dt) else None
  }

  lemma Pad2Digits(n: int, s: string, i: int)
    requires 0 <= n < 100 && 0 <= i && i + 2 <= |s| && s[i..i + 2] == Pad2(n)
    ensures DigitAt(s, i) && DigitAt(s, i + 1) && TwoDigits(s, i) == n
  {
    assert s[i] == Pad2(n)[0] && s[i + 1] == Pad2(n)[1];
  }

  /** Division by 10 is determined by quotient and remainder. */
  lemma DivTenUnique(n: int, q: int, r: int)
    requires n == 10 * q + r && 0 <= r < 10
    ensures n / 10 == q && n % 10 == r
  {
  }

  /** Division by 1000 is determined by quotient and remainder. */
  lemma DivThousandUnique(n: int, q: int, r: int)
    requires n == 1000 * q + r && 0 <= r < 1000
    ensures n / 1000 == q
  {
  }

  lemma Pad4Split(n: int)
    requires 0 <= n < 10000
    ensures Pad4(n) == Pad2(n / 100) + Pad2(n % 100)
  {
    var h, l := n / 100, n % 100;
    DivTenUnique(h, h / 10, h % 10);
    DivTenUnique(l, l / 10, l % 10);
    DivThousandUnique(n, h / 10, 100 * (h % 10) + l);
    DivTenUnique(n, 10 * h + l / 10, l % 10);
    DivTenUnique(10 * h + l / 10, h, l / 10);
  }

  lemma Pad4Digits(n: int, s: string, i: int)
    requires 0 <= n < 10000 && 0 <= i && i + 4 <= |s| && s[i..i + 4] == Pad4(n)
    ensures DigitAt(s, i) && DigitAt(s, i + 1) && DigitAt(s, i + 2) && DigitAt(s, i + 3)
    ensures FourDigits(s, i) == n
  {
    Pad4Split(n);
    assert s[i..i + 2] == Pad4(n)[..2] == Pad2(n / 100);
    assert s[i + 2..i + 4] == Pad4(n)[2..] == Pad2(n % 100);
    Pad2Digits(n / 100, s, i);
    Pad2Digits(n % 100, s, i + 2);
  }

  /** The date text at the front of a string is read back as the date. */
  lemma DateTextParses(dt: DateTime, s: string)
    requires ValidDateTime(dt) && |s| >= 10 && s[..10] == DateText(dt)
    ensures DateLayout(s)
    ensures FourDigits(s, 0) == dt.year && TwoDigits(s, 5) == dt.month && TwoDigits(s, 8) == dt.day
  {
    var d := DateText(dt);
    assert s[..4] == d[..4] == Pad4(dt.year);
    Pad4Digits(dt.year, s, 0);
    assert s[4] == d[4] == '-' && s[7] == d[7] == '-';
    assert s[5..7] == d[5..7] == Pad2(dt.month);
    Pad2Digits(dt.month, s, 5);
    assert s[8..10] == d[8..10] == Pad2(dt.day);
    Pad2Digits(dt.day, s, 8);
  }

  /** `HH:MM:SS` is read back as hour, minute and second. */
  lemma TimeTextLayout(dt: DateTime, t: string)
    requires ValidDateTime(dt) && |t| >= 8 && t[..8] == TimeText(dt)
    ensures HmsLayout(t)
    ensures TwoDigits(t, 0) == dt.hour && TwoDigits(t, 3) == dt.minute && TwoDigits(t, 6) == dt.second
  {
    var c := TimeText(dt);
    assert t[2] == c[2] == ':' && t[5] == c[5] == ':';
    assert t[..2] == c[..2] == Pad2(dt.hour);
    Pad2Digits(dt.hour, t, 0);
    assert t[3..5] == c[3..5] == Pad2(dt.minute);
    Pad2Digits(dt.minute, t, 3);
    assert t[6..8] == c[6..8] == Pad2(dt.second);
    Pad2Digits(dt.second, t, 6);
  }

  lemma TimeTextParses(dt: DateTime)
    requires ValidDateTime(dt)
    ensures ParseClock(TimeText(dt)) == Some(Clock(dt.hour, dt.minute, dt.second, 0))
  {
    TimeTextLayout(dt, TimeText(dt));
  }

  /** A number below a million is its three pairs of digits. */
  lemma SixSplit(n: int)
    requires 0 <= n < 1000000
    ensures n == n / 10000 * 10000 + n / 100 % 100 * 100 + n % 100
  {
    var a := n / 100;
    assert n == 100 * a + n % 100;
    assert a == 100 * (a / 100) + a % 100;
    assert a / 100 == n / 10000;
  }

  /** Six digits written with `Pad6` read back as the number. */
  lemma Pad6Digits(n: int, s: string, i: int)
    requires 0 <= n < 1000000 && 0 <= i && i + 6 <= |s| && s[i..i + 6] == Pad6(n)
    ensures forall j :: i <= j < i + 6 ==> DigitAt(s, j)
    ensures SixDigits(s, i) == n
  {
    var p, q, r := Pad2(n / 10000), Pad2(n / 100 % 100), Pad2(n % 100);
    assert s[i..i + 6] == p + q + r;
    assert s[i] == p[0] && s[i + 1] == p[1];
    assert s[i + 2] == q[0] && s[i + 3] == q[1];
    assert s[i + 4] == r[0] && s[i + 5] == r[1];
    assert s[i..i + 2] == p && s[i + 2..i + 4] == q && s[i + 4..i + 6] == r;
    SixSplit(n);
    Pad2Digits(n / 10000, s, i);
    Pad2Digits(n / 100 % 100, s, i + 2);
    Pad2Digits(n % 100, s, i + 4);
  }

  /** The time `str` writes, with six fraction digits when there are microseconds. */
  function ClockText(dt: DateTime): (t: string)
    requires ValidDateTime(dt)
    ensures |t| == (if dt.microsecond != 0 then 15 else 8)
  {
    TimeText(dt) + (if dt.microsecond != 0 then "." + Pad6(dt.microsecond) else "")
  }

  lemma ClockTextParses(dt: DateTime)
    requires ValidDateTime(dt)
    ensures ParseClock(ClockText(dt)) == Some(Clock(dt.hour, dt.minute, dt.second, dt.microsecond))
  {
    var t := ClockText(dt);
    TimeTextLayout(dt, t);
    if dt.microsecond != 0 {
      assert t[8] == '.' && t[9..15] == Pad6(dt.microsecond);
      Pad6Digits(dt.microsecond, t, 9);
    }
  }

  /** The offset `isoformat` writes is read back as the same number of minutes. */
  lemma OffsetTextParses(o: Option<int>)
    requires ValidOffset(o)
    ensures ParseTz(OffsetText(o)) == Some(o)
  {
    if o.Some? {
      var m := o.value;
      var z := OffsetText(o);
      assert z[0] == (if m < 0 then '-' else '+') && z[3] == ':';
      assert z[1..3] == Pad2(AbsInt(m) / 60);
      Pad2Digits(AbsInt(m) / 60, z, 1);
      assert z[4..6] == Pad2(AbsInt(m) % 60);
      Pad2Digits(AbsInt(m) % 60, z, 4);
    }
  }

  /** `TzStart` is the only position with no sign before it and a sign or the end at it. */
  lemma TzStartAt(t: string, k: nat)
    requires k <= |t| && (forall j :: 0 <= j < k ==> t[j] != '+' && t[j] != '-')
    requires k < |t| ==> t[k] == '+' || t[k] == '-'
    ensures TzStart(t) == k
  {
  }

  /** A clock text followed by an offset text splits where the offset begins. */
  lemma TimeAndOffsetParse(dt: DateTime, c: string)
    requires ValidDateTime(dt) && ParseClock(c).Some?
    requires forall j :: 0 <= j < |c| ==> c[j] != '+' && c[j] != '-'
    ensures ParseTime(c + OffsetText(dt.offsetMinutes)) == Some((ParseClock(c).value, dt.offsetMinutes))
  {
    var z := OffsetText(dt.offsetMinutes);
    var t := c + z;
    assert forall j :: 0 <= j < |c| ==> t[j] == c[j];
    assert z == "" || t[|c|] == '+' || t[|c|] == '-';
    TzStartAt(t, |c|);
    assert t[..|c|] == c && t[|c|..] == z;
    OffsetTextParses(dt.offsetMinutes);
  }

  /** The date, one separator and a time part with its offset. */
  lemma DateAndTimeParse(dt: DateTime, sep: char, c: string)
    requires ValidDateTime(dt) && ParseClock(c).Some?
    requires ParseClock(c).value == Clock(dt.hour, dt.minute, dt.second, dt.microsecond)
    requires forall j :: 0 <= j < |c| ==> c[j] != '+' && c[j] != '-'
    ensures FromIsoFormat(DateText(dt) + [sep] + c + OffsetText(dt.offsetMinutes)) == Some(dt)
  {
    var s := DateText(dt) + [sep] + c + OffsetText(dt.offsetMinutes);
    assert s[..10] == DateText(dt);
    DateTextParses(dt, s);
    assert s[11..] == c + OffsetText(dt.offsetMinutes);
    TimeAndOffsetParse(dt, c);
  }

  /** A timestamp written with `isoformat(timespec="seconds")` reads back with
      `fromisoformat` as the same instant to the second, offset included. */
  lemma IsoSecondsRoundTrip(dt: DateTime)
    requires ValidDateTime(dt)
    ensures FromIsoFormat(IsoSeconds(dt)) == Some(WholeSeconds(dt))
  {
    var w := WholeSeconds(dt);
    assert TimeText(w) == TimeText(dt) && DateText(w) == DateText(dt);
    TimeTextParses(w);
    var c := TimeText(w);
    assert forall j :: 0 <= j < |c| ==> c[j] != '+' && c[j] != '-';
    DateAndTimeParse(w, 'T', c);
    assert IsoSeconds(dt) == DateText(w) + ['T'] + c + OffsetText(w.offsetMinutes);
  }

  /** `fromisoformat` reads back what `str(datetime)` writes, microseconds
      included: the form a datetime inside a payload is stored in. */
  lemma DateTimeStrRoundTrip(dt: DateTime)
    requires ValidDateTime(dt)
    ensures FromIsoFormat(DateTimeStr(dt)) == Some(dt)
  {
    ClockTextParses(dt);
    var c := ClockText(dt);
    assert forall j :: 0 <= j < |c| ==> c[j] != '+' && c[j] != '-';
    DateAndTimeParse(dt, ' ', c);
    assert DateTimeStr(dt) == DateText(dt) + [' '] + c + OffsetText(dt.offsetMinutes);
  }

  /** A date alone is midnight of that day. */
  lemma DateOnlyExample()
    ensures FromIsoFormat("2024-05-01") == Some(DateTime(2024, 5, 1, 0, 0, 0, 0, None))
  {
  }

  /** Seconds may be left out. */
  lemma MinutesExample()
    ensures FromIsoFormat("2024-05-01T12:30") == Some(DateTime(2024, 5, 1, 12, 30, 0, 0, None))
  {
    var s := "2024-05-01T12:30";
    assert s[11..] == "12:30";
    TzStartAt("12:30", 5);
    assert "12:30"[..5] == "12:30" && "12:30"[5..] == "";
  }

  /** Three fraction digits are milliseconds. */
  lemma MillisecondsClockExample()
    ensures ParseClock("12:30:15.250") == Some(Clock(12, 30, 15, 250000))
  {
    var t := "12:30:15.250";
    assert HmsLayout(t) && ThreeDigits(t, 9) == 250;
  }

  /** An impossible date, a one-digit month and a bare separator are refused. */
  lemma RejectedExamples()
    ensures FromIsoFormat("2023-02-29") == None
    ensures FromIsoFormat("2024-5-01") == None
    ensures FromIsoFormat("2024-05-01T") == None
  {
  }
}
