/**
 * The clock text `formatTime` produces (`toLocaleTimeString` with two-digit hour and
 * minute, 24-hour cycle). A timestamp is an integer count of milliseconds, already in
 * local time; the reading is its hour and minute of the day.
 */
module TimeOfDay {
  import opened Wrappers
  import opened Text

  const MsPerMinute: int := 60 * 1000
  const MsPerHour: int := 60 * MsPerMinute
  const MinutesPerDay: int := 24 * 60

  /** Minutes since midnight; Dafny's `/` and `%` with a positive divisor round down. */
  function MinuteOfDay(t: int): (m: int)
    ensures 0 <= m < MinutesPerDay
  {
    (t / MsPerMinute) % MinutesPerDay
  }

  function Hour(t: int): (h: nat)
    ensures h < 24
  {
    (t / MsPerHour) % 24
  }

  function Minute(t: int): (m: nat)
    ensures m < 60
  {
    (t / MsPerMinute) % 60
  }

  /** True of the five characters `HH:mm`. */
  predicate IsClockText(s: string) {
    |s| == 5 && s[2] == ':' && IsDigits(s[..2]) && IsDigits(s[3..])
  }

  /** `formatTime(date)`: zero-padded hour, a colon, zero-padded minute. */
  function FormatTime(t: int): string {
    Padded(Hour(t)) + ":" + Padded(Minute(t))
  }

  /** Reads `HH:mm` back as minutes since midnight; `None` unless it is a time of day. */
  function ParseClock(s: string): (m: Option<int>)
    ensures m.Some? ==> IsClockText(s)
  {
    if IsClockText(s) && ParseNat(s[..2]) < 24 && ParseNat(s[3..]) < 60
    then Some(ParseNat(s[..2]) * 60 + ParseNat(s[3..]))
    else None
  }

  /** Euclidean division is determined by any quotient/remainder pair in range. */
  lemma DivUnique(t: int, d: int, q: int, r: int)
    requires d > 0 && 0 <= r < d && t == d * q + r
    ensures t / d == q && t % d == r
  {
    var k := q - t / d;
    assert d * k == t % d - r;
    MulAwayFromZero(d, k);
  }

  /** A non-zero multiple of a positive number is at least that number in size. */
  lemma MulAwayFromZero(d: int, k: int)
    requires d > 0
    ensures k >= 1 ==> d * k >= d
    ensures k <= -1 ==> d * k <= -d
  {
  }

  /** The hour and minute fields together name the minute of the day. */
  lemma HourMinute(t: int)
    ensures Hour(t) * 60 + Minute(t) == MinuteOfDay(t)
  {
    var m := t / MsPerMinute;
    var q := m / 60;
    DivUnique(t, MsPerHour, q, MsPerMinute * (m % 60) + t % MsPerMinute);
    var h := q % 24;
    DivUnique(m, MinutesPerDay, q / 24, 60 * h + m % 60);
  }

  /** Reading the clock text back yields the minute of the day the timestamp falls in. */
  lemma ClockRoundTrip(t: int)
    ensures IsClockText(FormatTime(t))
    ensures ParseClock(FormatTime(t)) == Some(MinuteOfDay(t))
  {
    var s := FormatTime(t);
    PaddedValue(Hour(t));
    PaddedValue(Minute(t));
    assert s[..2] == Padded(Hour(t));
    assert s[3..] == Padded(Minute(t));
    HourMinute(t);
  }

  /** Clock text holds no tab, comma or hyphen, the separators of the copied text. */
  lemma ClockSeparatorFree(s: string)
    requires IsClockText(s)
    ensures '\t' !in s && ',' !in s && '-' !in s
  {
  }

  /** A clock text that reads as a timestamp's minute of the day is that timestamp's text. */
  lemma ClockTextUnique(s: string, t: int)
    requires ParseClock(s) == Some(MinuteOfDay(t))
    ensures s == FormatTime(t)
  {
    var hh, mm := s[..2], s[3..];
    var h, m := ParseNat(hh), ParseNat(mm);
    HourMinute(t);
    DivUnique(h * 60 + m, 60, h, m);
    DivUnique(Hour(t) * 60 + Minute(t), 60, Hour(t), Minute(t));
    PaddedValue(Hour(t));
    PaddedValue(Minute(t));
    TwoDigitsUnique(hh, Padded(Hour(t)));
    TwoDigitsUnique(mm, Padded(Minute(t)));
    assert s == hh + ":" + mm;
  }
}
