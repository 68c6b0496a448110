/**
 * NextScheduleRun in a zone with a constant offset. Instants are nanoseconds since the epoch.
 * Excluded dates are local day numbers, day 0 being 1 January 1970, a Thursday.
 */
module ScheduleTime {
  import opened Common
  import opened Counting

  const SECOND: int := 1_000_000_000
  const MINUTE: int := 60_000_000_000
  const HOUR: int := 3_600_000_000_000
  const DAY: int := 86_400_000_000_000
  const MAX_ATTEMPTS: nat := 10000

  datatype Kind = Once | Hourly | Daily | Weekly

  datatype Item = Item(kind: Kind, runAt: Option<int>, hour: int, minute: int, weekday: int, offset: int,
                       excluded: set<int>, endAt: Option<int>, maxRuns: int, runCount: int)

  /** Offset of the run inside its hour. */
  function InHour(item: Item): (phase: int)
    ensures 0 <= phase < HOUR && phase == Clamp(item.minute, 0, 59) * 60_000_000_000
  {
    Clamp(item.minute, 0, 59) * MINUTE
  }

  /** Offset of the run inside its day. */
  function InDay(item: Item): (phase: int)
    ensures 0 <= phase < DAY
    ensures phase == Clamp(item.hour, 0, 23) * 3_600_000_000_000 + InHour(item)
  {
    Clamp(item.hour, 0, 23) * HOUR + InHour(item)
  }

  /** Sunday is 0. */
  function Weekday(day: int): int { (day + 4) % 7 }

  /** nextScheduleCandidate. */
  function Candidate(item: Item, now: int): Option<int> {
    var local := now + item.offset;
    match item.kind
    case Once => if item.runAt.Some? && item.runAt.value > now then item.runAt else None
    case Hourly =>
      var c := local / 3_600_000_000_000 * 3_600_000_000_000 + InHour(item);
      Some((if c > local then c else c + HOUR) - item.offset)
    case Daily =>
      var c := local / 86_400_000_000_000 * 86_400_000_000_000 + InDay(item);
      Some((if c > local then c else c + DAY) - item.offset)
    case Weekly =>
      var today := local / 86_400_000_000_000;
      var days := (Clamp(item.weekday, 0, 6) - Weekday(today) + 7) % 7;
      var c := (today + days) * 86_400_000_000_000 + InDay(item);
      Some((if c > local then c else c + 7 * DAY) - item.offset)
  }

  function Day(item: Item, t: int): int { (t + item.offset) / 86_400_000_000_000 }

  predicate Excluded(item: Item, t: int) { Day(item, t) in item.excluded }

  predicate WithinLimits(item: Item, t: int) {
    !(item.maxRuns > 0 && item.runCount >= item.maxRuns) && !(item.endAt.Some? && t > item.endAt.value)
  }

  /** What the schedule's fields describe, as a property of one instant. */
  predicate Matches(item: Item, t: int) {
    var local := t + item.offset;
    match item.kind
    case Once => item.runAt == Some(t)
    case Hourly => local % 3_600_000_000_000 == InHour(item)
    case Daily => local % 86_400_000_000_000 == InDay(item)
    case Weekly => local % 86_400_000_000_000 == InDay(item) && Weekday(Day(item, t)) == Clamp(item.weekday, 0, 6)
  }

  lemma NextInHour(local: int, phase: int)
    requires 0 <= phase < HOUR
    ensures var c := local / 3_600_000_000_000 * 3_600_000_000_000 + phase;
            var next := if c > local then c else c + HOUR;
            local < next && next % 3_600_000_000_000 == phase
            && forall u :: local < u && u % 3_600_000_000_000 == phase ==> next <= u
  {
  }

  lemma NextInDay(local: int, phase: int)
    requires 0 <= phase < DAY
    ensures var c := local / 86_400_000_000_000 * 86_400_000_000_000 + phase;
            var next := if c > local then c else c + DAY;
            local < next && next % 86_400_000_000_000 == phase
            && forall u :: local < u && u % 86_400_000_000_000 == phase ==> next <= u
  {
  }

  /** Days from one weekday to another: none shorter leads there. */
  lemma DaysAhead(today: int, weekday: int, day: int)
    requires 0 <= weekday <= 6
    ensures var days := (weekday - Weekday(today) + 7) % 7;
            0 <= days <= 6 && Weekday(today + days) == weekday && Weekday(today + days + 7) == weekday
            && (day >= today && Weekday(day) == weekday ==> day == today + days || day >= today + days + 7)
  {
  }

  lemma NextInWeek(local: int, phase: int, weekday: int, u: int)
    requires 0 <= phase < DAY && 0 <= weekday <= 6
    ensures var today := local / 86_400_000_000_000;
            var c := (today + (weekday - Weekday(today) + 7) % 7) * 86_400_000_000_000 + phase;
            var next := if c > local then c else c + 7 * DAY;
            local < next && next % 86_400_000_000_000 == phase && Weekday(next / 86_400_000_000_000) == weekday
            && (local < u && u % 86_400_000_000_000 == phase && Weekday(u / 86_400_000_000_000) == weekday ==> next <= u)
  {
    hide Weekday;
    var today := local / 86_400_000_000_000;
    DaysAhead(today, weekday, u / 86_400_000_000_000);
    var day := today + (weekday - Weekday(today) + 7) % 7;
    Split(day, phase);
    Split(day + 7, phase);
  }

  lemma Split(day: int, phase: int)
    requires 0 <= phase < DAY
    ensures (day * 86_400_000_000_000 + phase) / 86_400_000_000_000 == day
    ensures (day * 86_400_000_000_000 + phase) % 86_400_000_000_000 == phase
  {
  }

  lemma CandidateAgainst(item: Item, now: int, u: int)
    ensures Candidate(item, now).Some? ==> now < Candidate(item, now).value && Matches(item, Candidate(item, now).value)
    ensures now < u && Matches(item, u) ==> Candidate(item, now).Some? && Candidate(item, now).value <= u
  {
    hide Weekday, Clamp, InHour, InDay;
    var local := now + item.offset;
    match item.kind
    case Once =>
    case Hourly => NextInHour(local, InHour(item));
    case Daily => NextInDay(local, InDay(item));
    case Weekly =>
      assert 0 <= Clamp(item.weekday, 0, 6) <= 6 by { ClampRange(item.weekday, 0, 6); }
      NextInWeek(local, InDay(item), Clamp(item.weekday, 0, 6), u + item.offset);
  }

  lemma ClampRange(value: int, min: int, max: int)
    requires min <= max
    ensures min <= Clamp(value, min, max) <= max
  {
  }

  /** The candidate is the next matching instant, and there is one unless a single run is over. */
  lemma CandidateIsNext(item: Item, now: int)
    ensures Candidate(item, now).Some? ==> now < Candidate(item, now).value && Matches(item, Candidate(item, now).value)
    ensures Candidate(item, now).None? ==> item.kind == Once
    ensures forall u :: now < u && Matches(item, u) ==> Candidate(item, now).Some? && Candidate(item, now).value <= u
  {
    CandidateAgainst(item, now, now);
    assert Candidate(item, now).None? ==> item.kind == Once;
    hide Candidate, Matches;
    forall u ensures now < u && Matches(item, u) ==> Candidate(item, now).Some? && Candidate(item, now).value <= u {
      CandidateAgainst(item, now, u);
    }
  }

  /** Two runs of a recurring schedule are at least an hour apart and sit at the same place of their hours. */
  lemma RunsAreSpaced(item: Item, t: int, u: int)
    requires item.kind != Once && Matches(item, t) && Matches(item, u) && t < u
    ensures t + HOUR <= u
  {
    MatchesInHour(item, t);
    MatchesInHour(item, u);
    HoursApart(t + item.offset, u + item.offset);
    hide Matches, InHour;
  }

  lemma HoursApart(x: int, y: int)
    requires x % 3_600_000_000_000 == y % 3_600_000_000_000 && x < y
    ensures x + HOUR <= y
  {
  }

  lemma MatchesInHour(item: Item, t: int)
    requires item.kind != Once && Matches(item, t)
    ensures (t + item.offset) % 3_600_000_000_000 == InHour(item)
  {
    hide Weekday, InHour, InDay, Clamp;
    var local := t + item.offset;
    if item.kind != Hourly { HourInDay(local, Clamp(item.hour, 0, 23), InHour(item)); }
  }

  lemma HourInDay(local: int, hour: int, phase: int)
    requires local % 86_400_000_000_000 == hour * 3_600_000_000_000 + phase && 0 <= phase < HOUR
    ensures local % 3_600_000_000_000 == phase
  {
    var h := local / 86_400_000_000_000 * 24 + hour;
    assert local == h * 3_600_000_000_000 + phase;
  }

  // ---------------------------------------------------------------------------------------------
  // The search past excluded dates

  /** The local hours, counted from the epoch, that lie on excluded dates. */
  function Slots(item: Item): set<int> {
    set d, k | d in item.excluded && k in UpTo(23) :: 24 * d + k
  }

  /** Those whose run is still ahead. */
  function Remaining(item: Item, from: int): set<int> {
    set h | h in Slots(item) && h * 3_600_000_000_000 + InHour(item) - item.offset > from
  }

  lemma SlotCount(item: Item)
    ensures |Slots(item)| <= 24 * |item.excluded|
  {
    hide UpTo;
    forall h | h in Slots(item) ensures h / 24 in item.excluded && h % 24 in UpTo(23) {
      var d, k :| d in item.excluded && k in UpTo(23) && h == 24 * d + k;
    }
    PairBound(Slots(item), item.excluded, UpTo(23), (h: int) => h / 24, (h: int) => (h % 24) as nat);
  }

  /** An excluded candidate uses up one slot. */
  lemma SlotUsed(item: Item, from: int, c: int)
    requires item.kind != Once && from < c && Matches(item, c) && Excluded(item, c)
    ensures |Remaining(item, c + SECOND)| < |Remaining(item, from)|
  {
    hide UpTo, Clamp, Weekday, InHour;
    MatchesInHour(item, c);
    var h := (c + item.offset) / 3_600_000_000_000;
    assert Day(item, c) == h / 24;
    assert h == 24 * Day(item, c) + h % 24 && h % 24 in UpTo(23);
    assert h in Remaining(item, from);
    assert Remaining(item, c + SECOND) <= Remaining(item, from) - {h};
    SubsetSize(Remaining(item, c + SECOND), Remaining(item, from) - {h});
  }

  lemma {:induction false} SubsetSize<T>(a: set<T>, b: set<T>)
    requires a <= b
    ensures |a| <= |b|
  {
    if a == {} {
    } else {
      var x :| x in a;
      SubsetSize(a - {x}, b - {x});
    }
  }

  /** An instant the schedule may run at after `now`, limits aside. */
  ghost predicate Runnable(item: Item, now: int, t: int) { now < t && Matches(item, t) && !Excluded(item, t) }

  ghost predicate FirstRun(item: Item, now: int, t: int) {
    Runnable(item, now, t) && forall u :: Runnable(item, now, u) ==> t <= u
  }

  /** Skipping an excluded candidate skips no run. */
  lemma SkipsNothing(item: Item, now: int, from: int, c: int, t: int)
    requires item.kind != Once && Candidate(item, from) == Some(c) && Excluded(item, c) && now <= from
    requires Runnable(item, now, t) && t > from
    ensures t > c + SECOND
  {
    CandidateIsNext(item, from);
    RunsAreSpaced(item, c, t);
  }

  /** A recurring schedule has a first run, whatever dates are excluded. */
  lemma {:induction false} FirstRunExists(item: Item, now: int) returns (t: int)
    requires item.kind != Once
    ensures FirstRun(item, now, t)
    decreases |Remaining(item, now)|
  {
    hide Matches, Excluded, Candidate, Remaining;
    CandidateIsNext(item, now);
    var c := Candidate(item, now).value;
    if Excluded(item, c) {
      SlotUsed(item, now, c);
      t := FirstRunExists(item, c + SECOND);
      forall u | Runnable(item, now, u) ensures t <= u {
        SkipsNothing(item, now, now, c, u);
        assert Runnable(item, c + SECOND, u);
      }
    } else {
      t := c;
    }
  }

  /** The search of NextScheduleRun with so many attempts left. */
  function Search(item: Item, from: int, attempts: nat): Option<int>
    decreases attempts
  {
    if attempts == 0 then None
    else
      var candidate := Candidate(item, from);
      if candidate.None? || !WithinLimits(item, candidate.value) then None
      else if !Excluded(item, candidate.value) then candidate
      else Search(item, candidate.value + SECOND, attempts - 1)
  }

  function NextRun(item: Item, now: int): Option<int> { Search(item, now, MAX_ATTEMPTS) }

  lemma {:induction false} SearchIsLater(item: Item, from: int, attempts: nat)
    ensures Search(item, from, attempts).Some? ==> Search(item, from, attempts).value > from
    decreases attempts
  {
    hide Candidate, Excluded, Matches;
    CandidateIsNext(item, from);
    if attempts > 0 && Candidate(item, from).Some? { SearchIsLater(item, Candidate(item, from).value + SECOND, attempts - 1); }
  }

  /** A next run is always later. */
  lemma NextRunIsLater(item: Item, now: int)
    ensures NextRun(item, now).Some? ==> NextRun(item, now).value > now
  {
    hide Search;
    SearchIsLater(item, now, MAX_ATTEMPTS);
  }

  /**
   * NextScheduleRun: searches candidate by candidate, at most 10000 times. What it returns is the first run
   * that is on no excluded date, and within the limits. For a recurring schedule with fewer than
   * 10000 / 24 excluded dates it returns nothing only when that first run breaks the limits.
   */
  method NextScheduleRun(item: Item, now: int) returns (r: Option<int>)
    ensures r == NextRun(item, now)
    ensures r.Some? ==> FirstRun(item, now, r.value) && WithinLimits(item, r.value)
    ensures item.kind != Once && 24 * |item.excluded| < MAX_ATTEMPTS ==>
              exists t :: FirstRun(item, now, t) && r == if WithinLimits(item, t) then Some(t) else None
    ensures item.kind == Once ==>
              r == if item.runAt.Some? && Runnable(item, now, item.runAt.value) && WithinLimits(item, item.runAt.value)
                   then item.runAt else None
  {
    hide Slots, Remaining, Weekday, Search;
    var searchFrom := now;
    ghost var first := now;
    if item.kind != Once { first := FirstRunExists(item, now); }
    SlotCount(item);
    RemainingStart(item, now);
    for attempts := 0 to MAX_ATTEMPTS
      invariant now <= searchFrom
      invariant NextRun(item, now) == Search(item, searchFrom, MAX_ATTEMPTS - attempts)
      invariant item.kind != Once ==> first > searchFrom
      invariant item.kind == Once && attempts > 0 ==> item.runAt.Some? && Excluded(item, item.runAt.value) && searchFrom > item.runAt.value
      invariant attempts == 0 ==> searchFrom == now
      invariant item.kind != Once ==> |Remaining(item, searchFrom)| + attempts <= |Slots(item)|
    {
      CandidateIsNext(item, searchFrom);
      SearchStep(item, searchFrom, MAX_ATTEMPTS - attempts);
      var candidate := Candidate(item, searchFrom);
      if candidate.None? || !WithinLimits(item, candidate.value) { return None; }
      if !Excluded(item, candidate.value) { return candidate; }
      if item.kind != Once {
        SlotUsed(item, searchFrom, candidate.value);
        SkipsNothing(item, now, searchFrom, candidate.value, first);
      }
      searchFrom := candidate.value + SECOND;
    }
    SearchEnds(item, searchFrom);
    return None;
  }

  lemma SearchStep(item: Item, from: int, attempts: nat)
    requires attempts > 0
    ensures var c := Candidate(item, from);
            Search(item, from, attempts)
            == if c.None? || !WithinLimits(item, c.value) then None
               else if !Excluded(item, c.value) then c else Search(item, c.value + SECOND, attempts - 1)
  {
  }

  /** The search, from wherever no run has been skipped, with an attempt left for each excluded date and one more. */
  lemma {:induction false} SearchFinds(item: Item, now: int, from: int, attempts: nat, first: int)
    requires item.kind != Once && FirstRun(item, now, first) && now <= from < first && |Remaining(item, from)| < attempts
    ensures Search(item, from, attempts) == if WithinLimits(item, first) then Some(first) else None
    decreases attempts
  {
    hide Remaining, Matches, Candidate, Search, Excluded;
    CandidateIsNext(item, from);
    SearchStep(item, from, attempts);
    var c := Candidate(item, from).value;
    if Excluded(item, c) {
      SlotUsed(item, from, c);
      SkipsNothing(item, now, from, c, first);
      if WithinLimits(item, c) { SearchFinds(item, now, c + SECOND, attempts - 1, first); }
    } else {
      assert Runnable(item, now, c);
    }
  }

  /** The next run of a recurring schedule, in terms of its own fields: its first run, if that breaks no limit. */
  lemma NextRunIsFirst(item: Item, now: int, first: int)
    requires item.kind != Once && 24 * |item.excluded| < MAX_ATTEMPTS && FirstRun(item, now, first)
    ensures NextRun(item, now) ==
            if (item.endAt.Some? ==> first <= item.endAt.value) && (item.maxRuns > 0 ==> item.runCount < item.maxRuns)
            then Some(first) else None
  {
    hide Slots, Remaining, Search;
    SlotCount(item);
    RemainingStart(item, now);
    SearchFinds(item, now, now, MAX_ATTEMPTS, first);
  }

  // ---------------------------------------------------------------------------------------------
  // Clock and calendar

  /** Day 0 was a Thursday, and the days of the week follow one another. */
  lemma WeekdayIsCalendar(day: int)
    ensures Weekday(0) == 4 && Weekday(day + 1) == (if Weekday(day) == 6 then 0 else Weekday(day) + 1)
  {
  }

  /**
   * The runs of a schedule are read off a clock in its zone: at the full minute, at the minute and, unless it is hourly,
   * the hour of the schedule, on its weekday when it is weekly, fields out of range counting as the nearest in range. The
   * excluded dates are days of that clock.
   */
  lemma RunsAreClockReadings(item: Item, t: int)
    requires item.kind != Once
    ensures var minutes := (t + item.offset) / 60_000_000_000;
            Matches(item, t) <==>
              && (t + item.offset) % 60_000_000_000 == 0 && minutes % 60 == Nearest(item.minute, 59)
              && (item.kind != Hourly ==> minutes / 60 % 24 == Nearest(item.hour, 23))
              && (item.kind == Weekly ==> Weekday(minutes / 60 / 24) == Nearest(item.weekday, 6))
    ensures Excluded(item, t) <==> (t + item.offset) / 60_000_000_000 / 60 / 24 in item.excluded
  {
    var local := t + item.offset;
    var minutes := local / 60_000_000_000;
    InHourOf(local);
    InDayOf(local);
    ClampIsNearest(item.minute, 59);
    ClampIsNearest(item.hour, 23);
    ClampIsNearest(item.weekday, 6);
    HourReading(minutes % 60, local % 60_000_000_000, Clamp(item.minute, 0, 59));
    DayReading(minutes / 60 % 24, minutes % 60, local % 60_000_000_000, Clamp(item.hour, 0, 23), Clamp(item.minute, 0, 59));
    hide Clamp, Nearest, Weekday, InHour, InDay;
  }

  /** An instant inside its hour, and inside its day, from its clock reading. */
  lemma InHourOf(local: int)
    ensures local % 3_600_000_000_000 == local / 60_000_000_000 % 60 * 60_000_000_000 + local % 60_000_000_000
    ensures local / 3_600_000_000_000 == local / 60_000_000_000 / 60
  {
    var minutes, rest := local / 60_000_000_000, local % 60_000_000_000;
    assert local == minutes / 60 * 3_600_000_000_000 + (minutes % 60 * 60_000_000_000 + rest);
  }

  lemma InDayOf(local: int)
    ensures var minutes := local / 60_000_000_000;
            && local % 86_400_000_000_000 == minutes / 60 % 24 * 3_600_000_000_000 + minutes % 60 * 60_000_000_000 + local % 60_000_000_000
            && local / 86_400_000_000_000 == minutes / 60 / 24
  {
    InHourOf(local);
    var hours, rest := local / 3_600_000_000_000, local % 3_600_000_000_000;
    assert local == hours / 24 * 86_400_000_000_000 + (hours % 24 * 3_600_000_000_000 + rest);
  }

  lemma HourReading(minute: int, rest: int, m: int)
    requires 0 <= minute < 60 && 0 <= rest < MINUTE && 0 <= m < 60
    ensures minute * 60_000_000_000 + rest == m * 60_000_000_000 <==> minute == m && rest == 0
  {
  }

  lemma DayReading(hour: int, minute: int, rest: int, h: int, m: int)
    requires 0 <= hour < 24 && 0 <= minute < 60 && 0 <= rest < MINUTE && 0 <= h < 24 && 0 <= m < 60
    ensures hour * 3_600_000_000_000 + minute * 60_000_000_000 + rest == h * 3_600_000_000_000 + m * 60_000_000_000
            <==> hour == h && minute == m && rest == 0
  {
  }

  lemma ClampIsNearest(value: int, max: nat)
    ensures Clamp(value, 0, max) == Nearest(value, max)
  {
  }

  /** The number of the range from 0 to max that is nearest. */
  function Nearest(value: int, max: nat): (n: int)
    ensures 0 <= n <= max && forall k :: 0 <= k <= max ==> Distance(value, n) <= Distance(value, k)
  {
    if value < 0 then 0 else if value > max then max else value
  }

  function Distance(a: int, b: int): nat { if a < b then b - a else a - b }

  lemma SearchEnds(item: Item, from: int)
    ensures Search(item, from, 0) == None
  {
  }

  lemma RemainingStart(item: Item, now: int)
    ensures |Remaining(item, now)| <= |Slots(item)|
  {
    SubsetSize(Remaining(item, now), Slots(item));
  }
}
