/**
 * The date and time helpers of src/utils/scheduler.js (lines 269-295). The
 * local calendar itself (dates of instants, ISO 8601 week numbers, the
 * current instant) is an input: a `Clock`.
 */
module Calendar {
  import opened Wrappers
  import opened Intervals
  import opened Text

  /** A local calendar date; `month` is 1-based, as `getMonth() + 1` gives it. */
  datatype LocalDate = LocalDate(year: nat, month: nat, day: nat)

  /** `getLocalDateString`: year, month and day joined by `-`, month and day padded to two digits. */
  function LocalDateString(d: LocalDate): string
  {
    Join([NatToString(d.year), Pad2(d.month), Pad2(d.day)], '-')
  }

  /** Reads a `YYYY-MM-DD` key back. */
  function ParseDateString(s: string): Option<LocalDate>
  {
    var f := Split(s, '-');
    if |f| == 3 && IsDigits(f[0]) && IsDigits(f[1]) && IsDigits(f[2])
    then Some(LocalDate(DigitsValue(f[0]), DigitsValue(f[1]), DigitsValue(f[2])))
    else None
  }

  /** A date key reads back as its date. */
  lemma DateStringRoundTrip(d: LocalDate)
    ensures ParseDateString(LocalDateString(d)) == Some(d)
  {
    var fields := [NatToString(d.year), Pad2(d.month), Pad2(d.day)];
    NatToStringValue(d.year);
    Pad2Value(d.month);
    Pad2Value(d.day);
    forall f | f in fields ensures '-' !in f {
      DigitsExclude(f, '-');
    }
    SplitJoin(fields, '-');
  }

  /** Distinct dates have distinct keys, so grouping events by key groups them by date. */
  lemma DateStringInjective(d1: LocalDate, d2: LocalDate)
    ensures LocalDateString(d1) == LocalDateString(d2) ==> d1 == d2
  {
    DateStringRoundTrip(d1);
    DateStringRoundTrip(d2);
  }

  /** The key of a date with a four-digit year and a calendar month and day has the form `YYYY-MM-DD`. */
  lemma DateStringShape(d: LocalDate)
    requires 1000 <= d.year <= 9999 && 1 <= d.month <= 12 && 1 <= d.day <= 31
    ensures |LocalDateString(d)| == 10
    ensures LocalDateString(d)[4] == '-' && LocalDateString(d)[7] == '-'
  {
    NatToStringLength(d.year);
    Pad2Value(d.month);
    Pad2Value(d.day);
    var fields := [NatToString(d.year), Pad2(d.month), Pad2(d.day)];
    assert fields[1..] == [Pad2(d.month), Pad2(d.day)];
    assert fields[1..][1..] == [Pad2(d.day)];
    assert Join(fields[1..], '-') == Pad2(d.month) + "-" + Pad2(d.day);
    assert LocalDateString(d) == NatToString(d.year) + "-" + (Pad2(d.month) + "-" + Pad2(d.day));
  }

  /** Four-digit numbers have four digits. */
  lemma NatToStringLength(n: nat)
    requires 1000 <= n <= 9999
    ensures |NatToString(n)| == 4
  {
    assert n / 10 / 10 / 10 == n / 1000 < 10;
    assert |NatToString(n / 10 / 10)| == 2;
    assert |NatToString(n / 10)| == 3;
  }

  /**
   * `parseTimeString(s)`, `s.split(':').map(Number)`, as its callers use it:
   * the first two fields as hours and minutes. Where `Number` gives `NaN` or
   * there is no second field, the result is `None` (the instant built from it
   * is then an invalid date). Fields are read as unsigned decimal digits; an
   * empty field is 0, as `Number("")` is.
   */
  function ParseTimeString(s: string): Option<(nat, nat)>
  {
    var f := Split(s, ':');
    if |f| >= 2 && IsDigits(f[0]) && IsDigits(f[1]) then Some((DigitsValue(f[0]), DigitsValue(f[1])))
    else None
  }

  /** An `HH:MM` string, as the preferences store it, reads back as its hour and minute. */
  lemma ParseTimeRoundTrip(h: nat, m: nat)
    ensures ParseTimeString(Pad2(h) + ":" + Pad2(m)) == Some((h, m))
  {
    Pad2Value(h);
    Pad2Value(m);
    var fields := [Pad2(h), Pad2(m)];
    assert forall f :: f in fields ==> ':' !in f by {
      forall f | f in fields ensures ':' !in f {
        DigitsExclude(f, ':');
      }
    }
    assert fields[1..] == [Pad2(m)];
    assert Join(fields, ':') == Pad2(h) + ":" + Pad2(m);
    SplitJoin(fields, ':');
  }

  /** Without a `:` there is no minute field, so there is no time. */
  lemma ParseTimeNeedsSeparator(s: string)
    requires ':' !in s
    ensures ParseTimeString(s) == None
  {
    SplitJoin([s], ':');
  }

  /** Extra fields after the minutes are ignored. */
  lemma ParseTimeIgnoresSeconds(h: nat, m: nat, rest: string)
    ensures ParseTimeString(Pad2(h) + ":" + Pad2(m) + ":" + rest) == Some((h, m))
  {
    var hh, mm := Pad2(h), Pad2(m);
    Pad2Value(h);
    Pad2Value(m);
    TimeFields(hh, mm, rest);
    SplitJoin([hh, mm] + Split(rest, ':'), ':');
  }

  /** Two digit fields and the fields of `rest`, joined by colons. */
  lemma TimeFields(hh: string, mm: string, rest: string)
    requires IsDigits(hh) && IsDigits(mm)
    ensures var fields := [hh, mm] + Split(rest, ':');
      && (forall f :: f in fields ==> ':' !in f)
      && Join(fields, ':') == hh + ":" + mm + ":" + rest
  {
    var tail := Split(rest, ':');
    var fields := [hh, mm] + tail;
    DigitsExclude(hh, ':');
    DigitsExclude(mm, ':');
    forall f | f in fields ensures ':' !in f {
      if f != hh && f != mm {
        assert f in tail;
      }
    }
    JoinSplit(rest, ':');
    assert fields[1..] == [mm] + tail;
    assert fields[1..][1..] == tail;
  }

  /** `setHours(h, m, 0, 0)` on a day starting at `midnight`; hours past 23 run into the next days, as in `Date`. */
  function TimeOn(midnight: int, hm: (nat, nat)): (t: int)
    ensures t >= midnight
  {
    midnight + hm.0 * Hour + hm.1 * Minute
  }

  /**
   * A wall-clock time within the day is set on that day, and its hours and
   * minutes read back from the instant are the ones set.
   */
  lemma TimeOnFields(midnight: int, h: nat, m: nat)
    requires h < 24 && m < 60
    ensures var t := TimeOn(midnight, (h, m));
      && midnight <= t < midnight + 24 * Hour
      && (t - midnight) / Hour == h
      && ((t - midnight) % Hour) / Minute == m
      && (t - midnight) % Minute == 0
  {
  }

  /**
   * The local calendar: the date of an instant, the ISO 8601 week number of
   * an instant (`getWeekNumber`), and the instant at which the run happens.
   */
  datatype Clock = Clock(dateOf: int -> LocalDate, weekOf: int -> int, now: int)

  /** `isThisWeek`: the instant falls in the week of the run. */
  predicate IsThisWeek(c: Clock, t: int)
  {
    c.weekOf(t) == c.weekOf(c.now)
  }

  /** `isNextWeek`: the instant falls in the week after the run's. */
  predicate IsNextWeek(c: Clock, t: int)
  {
    c.weekOf(t) == c.weekOf(c.now) + 1
  }
}
