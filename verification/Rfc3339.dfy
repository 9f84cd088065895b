/** The session log's timestamp parser, proved against the RFC 3339 layout
    (section 5.6) of Gregorian dates: what it reads back, and in which order. */
module Rfc3339 {
  import opened Common
  import opened CivilDate

  // ---- The parser ----

  /** `split_once`: the text before and after the first separator. */
  function SplitOnce(s: string, c: char): Option<(string, string)> {
    if s == [] then None
    else if s[0] == c then Some(([], s[1..]))
    else match SplitOnce(s[1..], c)
      case None => None
      case Some((a, b)) => Some(([s[0]] + a, b))
  }

  /** `split`: always at least one part. */
  function Split(s: string, c: char): seq<string>
    decreases |s|
  {
    match SplitOnce(s, c)
    case None => [s]
    case Some((a, b)) =>
      SplitOnceShrinks(s, c);
      [a] + Split(b, c)
  }

  lemma SplitOnceShrinks(s: string, c: char)
    ensures SplitOnce(s, c).Some? ==> |SplitOnce(s, c).value.1| < |s|
  {
  }

  predicate IsDigit(c: char) {
    '0' <= c <= '9'
  }

  function DigitOf(c: char): nat
    requires IsDigit(c)
  {
    var zero, digit := '0' as int, c as int;
    digit - zero
  }

  function DigitsValue(s: string): nat
    requires forall i :: 0 <= i < |s| ==> IsDigit(s[i])
  {
    if s == [] then 0 else 10 * DigitsValue(s[..|s| - 1]) + DigitOf(s[|s| - 1])
  }

  function ParseDigits(s: string): Option<nat> {
    if s != [] && forall i :: 0 <= i < |s| ==> IsDigit(s[i]) then Some(DigitsValue(s)) else None
  }

  /** `parse::<u64>`: an optional plus sign, digits, and no overflow. */
  function ParseU64(s: string): Option<nat> {
    var digits := ParseDigits(if s != [] && s[0] == '+' then s[1..] else s);
    if digits.Some? && digits.value <= U64_MAX then digits else None
  }

  /** `parse::<i64>`: an optional sign, digits, and no overflow. */
  function ParseI64(s: string): Option<int> {
    if s != [] && s[0] == '-' then
      var digits := ParseDigits(s[1..]);
      if digits.Some? && digits.value <= I64_MAX + 1 then Some(0 - digits.value) else None
    else
      var digits := ParseU64(s);
      if digits.Some? && digits.value <= I64_MAX then Some(digits.value) else None
  }

  function ParseDate(date: string): Option<Date> {
    var parts := Split(date, '-');
    if |parts| != 3 then None else
    var year, month, day := ParseI64(parts[0]), ParseI64(parts[1]), ParseI64(parts[2]);
    if year.None? || month.None? || day.None? then None
    else Some(Date(year.value, month.value, day.value))
  }

  function ParseClock(time: string): Option<(nat, nat, nat)> {
    var whole := match SplitOnce(time, '.') case None => time case Some((a, _)) => a;
    var parts := Split(whole, ':');
    if |parts| != 3 then None else
    var hour, minute, second := ParseU64(parts[0]), ParseU64(parts[1]), ParseU64(parts[2]);
    if hour.None? || minute.None? || second.None? then None
    else Some((hour.value, minute.value, second.value))
  }

  /** Days are only checked against 31, and second 60 is let through. */
  function ParseUnix(value: string): Option<nat> {
    var halves := SplitOnce(value, 'T');
    if halves.None? then None else
    var time := halves.value.1;
    if time == [] || time[|time| - 1] != 'Z' then None else
    var date, clock := ParseDate(halves.value.0), ParseClock(time[..|time| - 1]);
    if date.None? || clock.None? then None else
    var d, (hour, minute, second) := date.value, clock.value;
    if !(1 <= d.month <= 12) || !(1 <= d.day <= 31) || hour > 23 || minute > 59 || second > 60 then None else
    var days := Days(d);
    if days < 0 then None else Some(days * 86400 + hour * 3600 + minute * 60 + second)
  }

  /** What is accepted at all: a text with a `T`, ending in `Z`, whose date and clock have
      three parts each, all within range, on or after the epoch. Offsets are refused. */
  lemma AcceptedShape(value: string)
    requires ParseUnix(value).Some?
    ensures 'T' in value && value[|value| - 1] == 'Z'
    ensures ParseUnix(value).value >= 0
    ensures
      var halves := SplitOnce(value, 'T').value;
      var d, c := ParseDate(halves.0), ParseClock(halves.1[..|halves.1| - 1]);
      && d.Some? && 1 <= d.value.month <= 12 && 1 <= d.value.day <= 31 && Days(d.value) >= 0
      && c.Some? && c.value.0 <= 23 && c.value.1 <= 59 && c.value.2 <= 60
  {
    SplitParts(value, 'T');
    hide SplitOnce, Days, ParseDate, ParseClock;
  }

  lemma {:induction false} SplitParts(s: string, c: char)
    requires SplitOnce(s, c).Some?
    ensures s == SplitOnce(s, c).value.0 + ([c] + SplitOnce(s, c).value.1) && c !in SplitOnce(s, c).value.0
  {
    if s[0] != c {
      SplitParts(s[1..], c);
      assert s == [s[0]] + s[1..];
    }
  }

  // ---- The layout ----

  datatype Instant = Instant(date: Date, hour: nat, minute: nat, second: nat)

  /** Fields within the ranges the layout allows, leap seconds included; the day may
      still be one its month does not have. */
  predicate IsLayout(t: Instant) {
    && 0 <= t.date.year <= 9999 && 1 <= t.date.month <= 12 && 1 <= t.date.day <= 31
    && t.hour <= 23 && t.minute <= 59 && t.second <= 60
  }

  /** A real date and time of day. */
  predicate IsInstant(t: Instant) {
    IsLayout(t) && IsDate(t.date)
  }

  function Digit(n: nat): char
    requires n <= 9
  {
    '0' + n as char
  }

  function Pad2(n: nat): string
    requires n <= 99
  {
    [Digit(n / 10), Digit(n % 10)]
  }

  function Pad4(n: nat): string
    requires n <= 9999
  {
    Pad2(n / 100) + Pad2(n % 100)
  }

  function DateText(d: Date): string
    requires 0 <= d.year <= 9999 && 1 <= d.month <= 12 && 1 <= d.day <= 31
  {
    Pad4(d.year) + ("-" + (Pad2(d.month) + ("-" + Pad2(d.day))))
  }

  function ClockText(t: Instant): string
    requires IsLayout(t)
  {
    Pad2(t.hour) + (":" + (Pad2(t.minute) + (":" + Pad2(t.second))))
  }

  function Text(t: Instant, fraction: Option<string>): string
    requires IsLayout(t)
  {
    DateText(t.date) + ("T" + (ClockText(t) + ((if fraction.Some? then "." + fraction.value else "") + "Z")))
  }

  function UnixTime(t: Instant): int {
    Days(t.date) * 86400 + t.hour * 3600 + t.minute * 60 + t.second
  }

  // ---- Reading back ----

  lemma {:induction false} SplitOnceAt(a: string, c: char, b: string)
    requires c !in a
    ensures SplitOnce(a + ([c] + b), c) == Some((a, b))
  {
    var s := a + ([c] + b);
    if a == [] {
      assert s[1..] == b;
    } else {
      assert s[1..] == a[1..] + ([c] + b);
      SplitOnceAt(a[1..], c, b);
      assert [a[0]] + a[1..] == a;
    }
  }

  lemma {:induction false} SplitOnceAbsent(a: string, c: char)
    requires c !in a
    ensures SplitOnce(a, c).None?
  {
    if a != [] {
      SplitOnceAbsent(a[1..], c);
    }
  }

  lemma SplitThree(a: string, b: string, d: string, c: char)
    requires c !in a && c !in b && c !in d
    ensures Split(a + ([c] + (b + ([c] + d))), c) == [a, b, d]
  {
    SplitOnceAt(a, c, b + ([c] + d));
    SplitOnceAt(b, c, d);
    SplitOnceAbsent(d, c);
    assert Split(d, c) == [d];
    assert Split(b + ([c] + d), c) == [b] + [d];
    assert [a] + ([b] + [d]) == [a, b, d];
  }

  lemma Pad2ReadsBack(n: nat)
    requires n <= 99
    ensures ParseU64(Pad2(n)) == Some(n) && ParseI64(Pad2(n)) == Some(n)
    ensures forall i :: 0 <= i < |Pad2(n)| ==> IsDigit(Pad2(n)[i])
  {
    var s := Pad2(n);
    assert s[..1] == [s[0]] && s[..1][..0] == [];
    assert DigitsValue(s[..1]) == n / 10;
  }

  lemma Pad4ReadsBack(n: nat)
    requires n <= 9999
    ensures ParseI64(Pad4(n)) == Some(n)
    ensures forall i :: 0 <= i < |Pad4(n)| ==> IsDigit(Pad4(n)[i])
  {
    var s := Pad4(n);
    var hi := n / 100;
    Pad2ReadsBack(hi);
    Pad2ReadsBack(n % 100);
    assert s[..2] == Pad2(hi);
    assert s[..3][..2] == s[..2] && s[..4] == s;
    assert DigitsValue(s[..2]) == hi;
    assert DigitsValue(s[..3]) == 10 * hi + n % 100 / 10;
  }

  lemma DateReadsBack(d: Date)
    requires 0 <= d.year <= 9999 && 1 <= d.month <= 12 && 1 <= d.day <= 31
    ensures ParseDate(DateText(d)) == Some(d)
    ensures 'T' !in DateText(d)
  {
    Pad4ReadsBack(d.year);
    Pad2ReadsBack(d.month);
    Pad2ReadsBack(d.day);
    SplitThree(Pad4(d.year), Pad2(d.month), Pad2(d.day), '-');
  }

  lemma ClockReadsBack(t: Instant, fraction: Option<string>)
    requires IsLayout(t)
    ensures ParseClock(ClockText(t) + if fraction.Some? then "." + fraction.value else "") == Some((t.hour, t.minute, t.second))
  {
    Pad2ReadsBack(t.hour);
    Pad2ReadsBack(t.minute);
    Pad2ReadsBack(t.second);
    var whole := ClockText(t);
    assert '.' !in whole;
    SplitThree(Pad2(t.hour), Pad2(t.minute), Pad2(t.second), ':');
    match fraction
    case None =>
      assert whole + "" == whole;
      SplitOnceAbsent(whole, '.');
    case Some(f) =>
      SplitOnceAt(whole, '.', f);
  }

  /** The text of any layout is taken apart into its fields again. */
  lemma LayoutReadsBack(t: Instant, fraction: Option<string>)
    requires IsLayout(t)
    ensures ParseUnix(Text(t, fraction)) == if Days(t.date) >= 0 then Some(UnixTime(t)) else None
  {
    hide ParseDate, ParseClock, DateText, ClockText, Days, SplitOnce;
    DateReadsBack(t.date);
    ClockReadsBack(t, fraction);
    var tail := if fraction.Some? then "." + fraction.value else "";
    var time := ClockText(t) + (tail + "Z");
    assert time == (ClockText(t) + tail) + "Z";
    assert time[..|time| - 1] == ClockText(t) + tail;
    SplitOnceAt(DateText(t.date), 'T', time);
    assert Text(t, fraction) == DateText(t.date) + (['T'] + time);
  }

  /** Every well-formed UTC timestamp, with or without a fraction, is read as its
      second count since the epoch, and refused exactly when it lies before it. */
  lemma TimestampReadsBack(t: Instant, fraction: Option<string>)
    requires IsInstant(t)
    ensures ParseUnix(Text(t, fraction)) == if t.date.year >= 1970 then Some(UnixTime(t)) else None
  {
    hide ParseUnix, Text, Days;
    LayoutReadsBack(t, fraction);
    if t.date.year >= 1970 {
      NumberedByCounting(t.date);
    } else {
      YearsRise(t.date.year + 1, 1970);
      WithinYear(t.date);
      EpochIsDayZero();
    }
  }

  predicate Earlier(a: Instant, b: Instant) {
    || Before(a.date, b.date)
    || (a.date == b.date && EarlierInDay(a, b))
  }

  predicate EarlierInDay(a: Instant, b: Instant) {
    a.hour < b.hour || (a.hour == b.hour && (a.minute < b.minute
        || (a.minute == b.minute && a.second < b.second)))
  }

  function SecondOfDay(t: Instant): nat {
    t.hour * 3600 + t.minute * 60 + t.second
  }

  lemma SecondsInDay(a: Instant, b: Instant)
    requires IsLayout(a) && IsLayout(b) && a.second <= 59 && b.second <= 59
    ensures SecondOfDay(a) < 86400
    ensures SecondOfDay(a) < SecondOfDay(b) <==> EarlierInDay(a, b)
    ensures SecondOfDay(a) == SecondOfDay(b) <==> a.hour == b.hour && a.minute == b.minute && a.second == b.second
  {
  }

  lemma UnixTimeOrder(a: Instant, b: Instant)
    requires IsInstant(a) && IsInstant(b) && a.second <= 59 && b.second <= 59
    ensures UnixTime(a) < UnixTime(b) <==> Earlier(a, b)
    ensures UnixTime(a) == UnixTime(b) <==> a == b
  {
    hide Days, Before, EarlierInDay, IsDate;
    SecondsInDay(a, b);
    SecondsInDay(b, a);
    DaysAreStrictlyMonotone(a.date, b.date);
    DaysAreStrictlyMonotone(b.date, a.date);
    assert UnixTime(a) == Days(a.date) * 86400 + SecondOfDay(a);
    assert UnixTime(b) == Days(b.date) * 86400 + SecondOfDay(b);
  }

  /** Outside leap seconds, later instants are read as larger numbers. */
  lemma ParsedOrderIsTimeOrder(a: Instant, b: Instant, fa: Option<string>, fb: Option<string>)
    requires IsInstant(a) && IsInstant(b) && a.date.year >= 1970 && b.date.year >= 1970
    requires a.second <= 59 && b.second <= 59
    ensures ParseUnix(Text(a, fa)).Some? && ParseUnix(Text(b, fb)).Some?
    ensures ParseUnix(Text(a, fa)).value < ParseUnix(Text(b, fb)).value <==> Earlier(a, b)
    ensures ParseUnix(Text(a, fa)) == ParseUnix(Text(b, fb)) <==> a == b
  {
    TimestampReadsBack(a, fa);
    TimestampReadsBack(b, fb);
    UnixTimeOrder(a, b);
    hide UnixTime, ParseUnix, Text, Earlier, IsInstant;
  }

  /** The parser also accepts days no month has, and reads each of them as the day
      that many days into the next month: 31 February is 3 March, or 2 March in a
      leap year. */
  lemma ImpossibleDayRollsOver(t: Instant, fraction: Option<string>)
    requires IsLayout(t) && !IsDate(t.date)
    ensures
      var d := t.date;
      var rolled := t.(date := Date(d.year, d.month + 1, d.day - DaysInMonth(d.year, d.month)));
      IsInstant(rolled) && ParseUnix(Text(t, fraction)) == ParseUnix(Text(rolled, fraction))
  {
    hide ParseUnix, Text, DaysFromCivil, MarchDays;
    var d := t.date;
    var rolled := t.(date := Date(d.year, d.month + 1, d.day - DaysInMonth(d.year, d.month)));
    ClosedForm(d.year, d.month, d.day);
    ClosedForm(rolled.date.year, rolled.date.month, rolled.date.day);
    MarchDaysStep(d.year);
    LayoutReadsBack(t, fraction);
    LayoutReadsBack(rolled, fraction);
  }
}
