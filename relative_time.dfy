/**
 * The unit-and-value choice behind the site's "3 days ago" labels
 * (`formatRelativeTime`). The locale-dependent wording is not modelled:
 * the result is the number and unit handed to the formatter.
 */
module RelativeTime {
  import opened Wrappers

  datatype Unit = Year | Month | Week | Day | Hour | Minute | Second

  /** One row of the threshold table: a unit and its length in seconds. */
  datatype Range = Range(unit: Unit, seconds: nat)

  /** The table, largest unit first; a month counts as 30 days. */
  const Ranges: seq<Range> := [
    Range(Year, 60 * 60 * 24 * 365),
    Range(Month, 60 * 60 * 24 * 30),
    Range(Week, 60 * 60 * 24 * 7),
    Range(Day, 60 * 60 * 24),
    Range(Hour, 60 * 60),
    Range(Minute, 60)
  ]

  /** The largest magnitude, in milliseconds since the epoch, that a JavaScript `Date` accepts. */
  const MaxTimeValue: int := 8_640_000_000_000_000

  /** What `formatRelativeTime` may be handed: nothing, a number of milliseconds
      since the epoch, or a date string; for a string, `parsed` is what `new Date`
      makes of it (`None` for an empty or unparseable string). */
  datatype Stamp = Absent | Number(ms: int) | DateText(parsed: Option<int>)

  /** The outcome: the literal "Unavailable", or a signed count of a unit
      (negative for the past). */
  datatype RelTime = Unavailable | Relative(value: int, unit: Unit)

  /** The instant a stamp denotes, if `formatRelativeTime` accepts it: a falsy
      stamp (absent, the number 0, the empty string) and an invalid date are refused. */
  function TimeValue(t: Stamp): (v: Option<int>)
    ensures v.Some? ==> -MaxTimeValue <= v.value <= MaxTimeValue
    ensures t == Absent || t == Number(0) ==> v == None
    ensures t.Number? && t.ms != 0 && -MaxTimeValue <= t.ms <= MaxTimeValue ==> v == Some(t.ms)
    ensures t.DateText? && t.parsed.Some? && -MaxTimeValue <= t.parsed.value <= MaxTimeValue ==> v == t.parsed
    ensures t.DateText? && t.parsed.None? ==> v == None
  {
    match t
    case Absent => None
    case Number(ms) => if ms != 0 && -MaxTimeValue <= ms <= MaxTimeValue then Some(ms) else None
    case DateText(p) =>
      if p.Some? && -MaxTimeValue <= p.value <= MaxTimeValue then p else None
  }

  function Abs(x: int): (r: nat)
    ensures r == x || r == -x
  {
    if x < 0 then -x else x
  }

  /** `Math.round(n / d)`: the integer nearest to n/d, halves rounded up. */
  function RoundDiv(n: int, d: nat): (r: int)
    requires d > 0
    ensures d * (2 * r - 1) <= 2 * n < d * (2 * r + 1)
  {
    var q := (2 * n + d) / (2 * d);
    assert 2 * d * q <= 2 * n + d < 2 * d * q + 2 * d by {
      var m := (2 * n + d) % (2 * d);
      assert 2 * n + d == 2 * d * q + m && 0 <= m < 2 * d;
    }
    q
  }

  /** The index of the first row, from `i` on, whose threshold does not exceed
      `a`; `|Ranges|` when there is none. */
  function FirstFrom(i: nat, a: nat): (k: nat)
    requires i <= |Ranges|
    ensures i <= k <= |Ranges|
    ensures k < |Ranges| ==> Ranges[k].seconds <= a
    ensures forall j :: i <= j < k ==> Ranges[j].seconds > a
    decreases |Ranges| - i
  {
    if i == |Ranges| then |Ranges|
    else if Ranges[i].seconds <= a then i
    else FirstFrom(i + 1, a)
  }

  /** The whole-second difference between an instant and now (`Math.round(diffMs / 1000)`). */
  function DiffSeconds(ms: int, now: int): int
  {
    RoundDiv(ms - now, 1000)
  }

  /** What `formatRelativeTime(t)` hands to the formatter when the clock reads `now`. */
  function RelativeSpec(t: Stamp, now: int): (r: RelTime)
    ensures r.Unavailable? <==> TimeValue(t).None?
    ensures TimeValue(t) == Some(now) ==> r == Relative(0, Second)
  {
    match TimeValue(t)
    case None => Unavailable
    case Some(ms) =>
      var diff := DiffSeconds(ms, now);
      var k := FirstFrom(0, Abs(diff));
      if k < |Ranges| then Relative(RoundDiv(diff, Ranges[k].seconds), Ranges[k].unit)
      else Relative(diff, Second)
  }

  /** `formatRelativeTime`: walks the table and stops at the first unit whose
      length in seconds the difference reaches; falls back to seconds. */
  method FormatRelativeTime(t: Stamp, now: int) returns (r: RelTime)
    ensures r == RelativeSpec(t, now)
  {
    var v := TimeValue(t);
    if v.None? {
      return Unavailable;
    }
    var diffSeconds := RoundDiv(v.value - now, 1000);
    var i := 0;
    while i < |Ranges|
      invariant 0 <= i <= |Ranges|
      invariant FirstFrom(0, Abs(diffSeconds)) >= i
      invariant forall j :: 0 <= j < i ==> Ranges[j].seconds > Abs(diffSeconds)
    {
      var range := Ranges[i];
      if Abs(diffSeconds) >= range.seconds {
        return Relative(RoundDiv(diffSeconds, range.seconds), range.unit);
      }
      i := i + 1;
    }
    return Relative(diffSeconds, Second);
  }

  /** The thresholds fall strictly from year to minute. */
  lemma RangesDescending()
    ensures forall i, j :: 0 <= i < j < |Ranges| ==> Ranges[i].seconds > Ranges[j].seconds
  {
  }

  /** The length of a unit in seconds, as the table gives it. */
  function UnitSeconds(u: Unit): nat
  {
    match u
    case Year => Ranges[0].seconds
    case Month => Ranges[1].seconds
    case Week => Ranges[2].seconds
    case Day => Ranges[3].seconds
    case Hour => Ranges[4].seconds
    case Minute => Ranges[5].seconds
    case Second => 1
  }

  /** The unit chosen is the largest applicable one: the difference reaches its
      length, no unit the difference reaches is longer, and seconds are chosen
      exactly when the difference is under a minute. */
  lemma ChosenUnitIsLargest(t: Stamp, now: int)
    requires TimeValue(t).Some?
    ensures var diff := DiffSeconds(TimeValue(t).value, now);
            var r := RelativeSpec(t, now);
            && r.Relative?
            && (r.unit == Second <==> Abs(diff) < 60)
            && (r.unit != Second ==> UnitSeconds(r.unit) <= Abs(diff))
            && (forall j :: 0 <= j < |Ranges| && Ranges[j].seconds <= Abs(diff) ==>
                  Ranges[j].seconds <= UnitSeconds(r.unit))
  {
    var diff := DiffSeconds(TimeValue(t).value, now);
    var k := FirstFrom(0, Abs(diff));
    RangesDescending();
    if k < |Ranges| {
      assert UnitSeconds(Ranges[k].unit) == Ranges[k].seconds;
    }
  }

  /** Whatever the unit, the value is the difference measured in that unit,
      rounded to the nearest integer (halves up). */
  lemma ValueIsRounded(t: Stamp, now: int)
    requires TimeValue(t).Some?
    ensures var diff := DiffSeconds(TimeValue(t).value, now);
            var r := RelativeSpec(t, now);
            && r.Relative?
            && UnitSeconds(r.unit) * (2 * r.value - 1) <= 2 * diff < UnitSeconds(r.unit) * (2 * r.value + 1)
  {
    var diff := DiffSeconds(TimeValue(t).value, now);
    var k := FirstFrom(0, Abs(diff));
    if k < |Ranges| {
      assert UnitSeconds(Ranges[k].unit) == Ranges[k].seconds;
    }
  }

  /** A missing or invalid stamp reads "Unavailable", and only such a stamp does. */
  lemma UnavailableIffNoTime(t: Stamp, now: int)
    ensures RelativeSpec(t, now) == Unavailable <==> TimeValue(t).None?
  {
  }

  /** About 25 hours ago (90 000 000 ms) reads as one day ago. */
  lemma TwentyFiveHoursAgo(now: int)
    requires now - 90_000_000 != 0 && -MaxTimeValue <= now - 90_000_000 <= MaxTimeValue
    ensures RelativeSpec(Number(now - 90_000_000), now) == Relative(-1, Day)
  {
    assert DiffSeconds(now - 90_000_000, now) == -90000;
    assert FirstFrom(0, 90000) == 3;
  }

  /** Under a minute away reads in seconds. */
  lemma UnderAMinute(ms: int, now: int)
    requires TimeValue(Number(ms)).Some? && -59_000 < ms - now < 59_000
    ensures RelativeSpec(Number(ms), now).unit == Second
  {
    var diff := DiffSeconds(ms, now);
    assert -60 < diff < 60;
    assert FirstFrom(5, Abs(diff)) == 6;
  }
}
