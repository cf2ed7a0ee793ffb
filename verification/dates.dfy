/**
 * Date display: `formatDate` of lib/formatDate.ts over a calendar date given
 * as integers, and `getRelativeTime` of lib/relativeTime.ts over the
 * millisecond difference between now and the instant.
 */
module Dates {
  import opened Common
  import Text

  // ---------------------------------------------------------------------------
  // formatDate

  /** `pad`: a leading "0" for a number below ten. */
  function Pad(n: int): (s: string)
    ensures 0 <= n < 100 ==> |s| == 2 && Text.AllDigits(s)
    ensures n >= 10 ==> s == Text.NatToString(n)
  {
    if n < 10 then "0" + Text.IntToString(n) else Text.IntToString(n)
  }

  /** Reading a padded number's digits gives the number back. */
  lemma PadValue(n: nat)
    ensures Text.AllDigits(Pad(n))
    ensures Text.DigitsValue(Pad(n)) == n
  {
    Text.NatToStringRoundTrip(n);
    if n < 10 {
      LeadingZero(Text.NatToString(n));
    }
  }

  lemma {:induction false} LeadingZero(t: string)
    requires Text.AllDigits(t)
    ensures Text.AllDigits("0" + t)
    ensures Text.DigitsValue("0" + t) == Text.DigitsValue(t)
    decreases |t|
  {
    if |t| > 0 {
      var s := "0" + t;
      assert s[..|s| - 1] == "0" + t[..|t| - 1];
      LeadingZero(t[..|t| - 1]);
    }
  }

  /** A JavaScript `Date` read through `getDate`, `getMonth` and
      `getFullYear`; the month is zero-based, as `getMonth` returns it. */
  datatype Date = Date(year: int, monthIndex: int, day: int)

  predicate Valid(d: Date) {
    d.year >= 0 && 0 <= d.monthIndex < 12 && 1 <= d.day <= 31
  }

  /** `formatDate`; the format is the stored setting string. */
  function FormatDate(date: Date, format: string): (s: string)
  {
    var d, m, y := date.day, date.monthIndex + 1, date.year;
    if format == "DD.MM.YYYY" then Pad(d) + "." + Pad(m) + "." + Text.IntToString(y)
    else if format == "YYYY-MM-DD" then Text.IntToString(y) + "-" + Pad(m) + "-" + Pad(d)
    else if format == "MM/DD/YYYY" then Pad(m) + "/" + Pad(d) + "/" + Text.IntToString(y)
    else Pad(d) + "." + Pad(m) + "." + Text.IntToString(y)
  }

  /** Any unknown format falls back to the day-first layout. */
  lemma UnknownFormatIsDayFirst(date: Date, format: string)
    requires format != "YYYY-MM-DD" && format != "MM/DD/YYYY"
    ensures FormatDate(date, format) == FormatDate(date, "DD.MM.YYYY")
  {
  }

  /** The day and the month always print as two digits, so a valid date's
      text is six characters longer than its year. */
  lemma FormatDateLength(date: Date, format: string)
    requires Valid(date)
    ensures |FormatDate(date, format)| == |Text.NatToString(date.year)| + 6
  {
  }

  /** Reads a two-digit field. */
  function TwoDigits(s: string): (r: Option<nat>)
    ensures r.Some? ==> r.value < 100
  {
    if |s| == 2 && Text.AllDigits(s) then
      assert Text.DigitsValue(s) == 10 * Text.DigitsValue(s[..1]) + (s[1] as int - '0' as int);
      Some(Text.DigitsValue(s))
    else None
  }

  function Digits(s: string): Option<nat> {
    if |s| > 0 && Text.AllDigits(s) then Some(Text.DigitsValue(s)) else None
  }

  /** Reads a date back from `formatDate`'s text: the inverse of the three
      layouts, giving (day, one-based month, year). */
  function ParseDate(s: string, format: string): (r: Option<(nat, nat, nat)>)
  {
    if |s| < 7 then None
    else if format == "YYYY-MM-DD" then
      var n := |s|;
      if s[n - 6] != '-' || s[n - 3] != '-' then None
      else Both3(TwoDigits(s[n - 2..]), TwoDigits(s[n - 5..n - 3]), Digits(s[..n - 6]))
    else if format == "MM/DD/YYYY" then
      if s[2] != '/' || s[5] != '/' then None
      else Both3(TwoDigits(s[3..5]), TwoDigits(s[..2]), Digits(s[6..]))
    else
      if s[2] != '.' || s[5] != '.' then None
      else Both3(TwoDigits(s[..2]), TwoDigits(s[3..5]), Digits(s[6..]))
  }

  function Both3(a: Option<nat>, b: Option<nat>, c: Option<nat>): (r: Option<(nat, nat, nat)>)
    ensures r.Some? <==> a.Some? && b.Some? && c.Some?
  {
    if a.Some? && b.Some? && c.Some? then Some((a.value, b.value, c.value)) else None
  }

  /** Every layout prints a valid date so that it reads back as
      (day, month + 1, year): the month is printed one-based. */
  lemma FormatDateRoundTrip(date: Date, format: string)
    requires Valid(date)
    ensures ParseDate(FormatDate(date, format), format)
      == Some((date.day as nat, (date.monthIndex + 1) as nat, date.year as nat))
  {
    var d, m, y := date.day, date.monthIndex + 1, date.year;
    PadValue(d);
    PadValue(m);
    Text.NatToStringRoundTrip(y);
    var pd, pm, ys := Pad(d), Pad(m), Text.NatToString(y);
    assert TwoDigits(pd) == Some(d as nat) && TwoDigits(pm) == Some(m as nat) && Digits(ys) == Some(y as nat);
    if format == "YYYY-MM-DD" {
      YearFirstFields(pd, pm, ys);
    } else if format == "MM/DD/YYYY" {
      FieldsAt(pm, pd, ys, '/', format);
    } else {
      FieldsAt(pd, pm, ys, '.', format);
    }
  }

  lemma FieldsAt(a: string, b: string, c: string, sep: char, format: string)
    requires |a| == 2 && |b| == 2 && |c| > 0
    requires format != "YYYY-MM-DD"
    requires sep == (if format == "MM/DD/YYYY" then '/' else '.')
    ensures ParseDate(a + [sep] + b + [sep] + c, format)
      == if format == "MM/DD/YYYY" then Both3(TwoDigits(b), TwoDigits(a), Digits(c))
         else Both3(TwoDigits(a), TwoDigits(b), Digits(c))
  {
    var s := a + [sep] + b + [sep] + c;
    assert s[..2] == a && s[3..5] == b && s[6..] == c && s[2] == sep && s[5] == sep;
  }

  lemma YearFirstFields(pd: string, pm: string, ys: string)
    requires |pd| == 2 && |pm| == 2 && |ys| > 0
    ensures ParseDate(ys + "-" + pm + "-" + pd, "YYYY-MM-DD") == Both3(TwoDigits(pd), TwoDigits(pm), Digits(ys))
  {
    var s := ys + "-" + pm + "-" + pd;
    var n := |s|;
    assert s[n - 2..] == pd && s[n - 5..n - 3] == pm && s[..n - 6] == ys && s[n - 6] == '-' && s[n - 3] == '-';
  }

  // ---------------------------------------------------------------------------
  // getRelativeTime

  const Second := 1000
  const Minute := 60 * Second
  const Hour := 60 * Minute
  const Day := 24 * Hour

  /** How long ago an instant was, as `getRelativeTime` buckets it. */
  datatype Ago =
    | JustNow
    | MinutesAgo(minutes: int)
    | HoursAgo(hours: int)
    | Yesterday
    | DaysAgo(days: int)
    | Older

  /** The bucket of a difference `now - date` in milliseconds, reached
      through the same chain of floored divisions as the source. */
  function Classify(diffMs: int): (a: Ago)
    ensures a == JustNow <==> diffMs < Minute
    ensures a.MinutesAgo? <==> Minute <= diffMs < Hour
    ensures a.MinutesAgo? ==> a.minutes == diffMs / Minute && 1 <= a.minutes < 60
    ensures a.HoursAgo? <==> Hour <= diffMs < Day
    ensures a.HoursAgo? ==> a.hours == diffMs / Hour && 1 <= a.hours < 24
    ensures a == Yesterday <==> Day <= diffMs < 2 * Day
    ensures a.DaysAgo? <==> 2 * Day <= diffMs < 7 * Day
    ensures a.DaysAgo? ==> a.days == diffMs / Day && 2 <= a.days < 7
    ensures a == Older <==> 7 * Day <= diffMs
  {
    // Dafny's division by a positive number floors, as `Math.floor(x / n)` does.
    var diffSec := diffMs / 1000;
    var diffMin := diffSec / 60;
    var diffHour := diffMin / 60;
    var diffDay := diffHour / 24;
    if diffSec < 60 then JustNow
    else if diffMin < 60 then MinutesAgo(diffMin)
    else if diffHour < 24 then HoursAgo(diffHour)
    else if diffDay == 1 then Yesterday
    else if diffDay < 7 then DaysAgo(diffDay)
    else Older
  }

  /** The coarseness of a bucket. */
  function Level(a: Ago): nat {
    match a
    case JustNow => 0
    case MinutesAgo(_) => 1
    case HoursAgo(_) => 2
    case Yesterday => 3
    case DaysAgo(_) => 4
    case Older => 5
  }

  /** An older instant never lands in a finer bucket, and within one bucket
      its count is never smaller. */
  lemma ClassifyMonotone(d1: int, d2: int)
    requires d1 <= d2
    ensures Level(Classify(d1)) <= Level(Classify(d2))
    ensures Classify(d1).MinutesAgo? && Classify(d2).MinutesAgo? ==> Classify(d1).minutes <= Classify(d2).minutes
    ensures Classify(d1).HoursAgo? && Classify(d2).HoursAgo? ==> Classify(d1).hours <= Classify(d2).hours
    ensures Classify(d1).DaysAgo? && Classify(d2).DaysAgo? ==> Classify(d1).days <= Classify(d2).days
  {
  }

  /** The Turkish text of a bucket; an older instant shows its locale date,
      which is a parameter here. */
  function Render(a: Ago, localeDate: string): string {
    match a
    case JustNow => "Az önce"
    case MinutesAgo(n) => Text.IntToString(n) + " dakika önce"
    case HoursAgo(n) => Text.IntToString(n) + " saat önce"
    case Yesterday => "Dün"
    case DaysAgo(n) => Text.IntToString(n) + " gün önce"
    case Older => localeDate
  }

  /** `getRelativeTime(date, now)` with `diffMs = now - date`. */
  function RelativeTime(diffMs: int, localeDate: string): (s: string)
    ensures diffMs < Minute ==> s == "Az önce"
    ensures Day <= diffMs < 2 * Day ==> s == "Dün"
    ensures 7 * Day <= diffMs ==> s == localeDate
  {
    Render(Classify(diffMs), localeDate)
  }

  /** An instant in the future, or less than a minute ago, is "Az önce". */
  lemma FutureIsJustNow(diffMs: int)
    requires diffMs < 0
    ensures RelativeTime(diffMs, "") == "Az önce"
  {
  }
}
