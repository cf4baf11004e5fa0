/**
 * `zonedDateHourToUtc`: turning a local date and hour into an instant by two corrections, and the
 * day windows built from it. Instants are milliseconds, days are counted from an arbitrary one.
 */
module TimeZones {

  const HOUR := 60 * 60 * 1000
  const DAY := 24 * HOUR

  /** Local wall-clock time, read as if it were UTC. */
  function Local(t: int, off: int -> int): int {
    t + off(t)
  }

  /** The instant the code settles on for a wall-clock target. */
  function Invert(target: int, off: int -> int): int {
    target - off(target - off(target))
  }

  method ZonedToUtc(target: int, off: int -> int) returns (candidate: int)
    ensures candidate == Invert(target, off)
  {
    candidate := target - (Local(target, off) - target);
    candidate := target - (Local(candidate, off) - candidate);
  }

  /** The offset goes from `a` to `b` at instant `x`, and does not change within `reach` of the target otherwise. */
  ghost predicate OneChange(off: int -> int, target: int, reach: int, x: int, a: int, b: int) {
    && (forall t :: -reach <= off(t) <= reach)
    && (forall t :: target - reach <= t <= target + reach ==> off(t) == if t < x then a else b)
  }

  ghost predicate Exists(target: int, off: int -> int) {
    exists t :: Local(t, off) == target
  }

  /** Every candidate for a solution lies where the offset is known. */
  lemma OnlyTwoCandidates(target: int, off: int -> int, reach: int, x: int, a: int, b: int, t: int)
    requires OneChange(off, target, reach, x, a, b)
    ensures Local(t, off) == target
            <==> || (t == target - a && t < x && -reach <= a <= reach)
                 || (t == target - b && t >= x && -reach <= b <= reach)
  {
    if Local(t, off) == target {
      assert -reach <= off(t) <= reach;
    }
  }

  /**
   * With one change of offset nearby, the two corrections find an instant with the wanted local
   * time whenever there is one; what is left is exactly the skipped gap.
   */
  lemma InvertExactly(target: int, off: int -> int, reach: int, x: int, a: int, b: int)
    requires OneChange(off, target, reach, x, a, b)
    ensures Local(Invert(target, off), off) == target <==> Exists(target, off)
    ensures Exists(target, off) <==> !(x + a <= target < x + b)
  {
    var first := target - off(target);
    assert -reach <= off(target) <= reach;
    assert -reach <= off(first) <= reach;
    var found := Invert(target, off);
    if Exists(target, off) {
      var t :| Local(t, off) == target;
      OnlyTwoCandidates(target, off, reach, x, a, b, t);
      OnlyTwoCandidates(target, off, reach, x, a, b, found);
    }
    if !(x + a <= target < x + b) {
      assert Local(found, off) == target;
    }
  }

  /** In the gap the answer is off by the size of the change, to one side or the other. */
  lemma GapError(target: int, off: int -> int, reach: int, x: int, a: int, b: int)
    requires OneChange(off, target, reach, x, a, b)
    requires x + a <= target < x + b
    ensures Local(Invert(target, off), off) == if target < x then target - (b - a) else target + (b - a)
  {
    assert -reach <= off(target) <= reach;
    assert -reach <= off(target - off(target)) <= reach;
  }

  /**
   * A wall-clock time that happens twice is answered by its first instant exactly when the target
   * reads before the change.
   */
  lemma RepeatedTime(target: int, off: int -> int, reach: int, x: int, a: int, b: int)
    requires OneChange(off, target, reach, x, a, b)
    requires x + b <= target < x + a
    ensures Invert(target, off) == if target < x then target - a else target - b
  {
    assert -reach <= off(target) <= reach;
    assert -reach <= off(target - off(target)) <= reach;
  }

  // --------------------------------------------------------------------- day windows

  /** Midnight of a local day; the window of the day ends where the next one starts. */
  function StartOf(day: int, off: int -> int): int {
    Invert(day * DAY, off)
  }

  predicate InDay(t: int, day: int, off: int -> int) {
    StartOf(day, off) <= t < StartOf(day + 1, off)
  }

  ghost predicate ChangesUnderADay(off: int -> int) {
    forall s, t :: off(s) - off(t) < DAY
  }

  /** No day's window runs backwards. */
  ghost predicate StartsInOrder(off: int -> int) {
    forall day :: StartOf(day, off) <= StartOf(day + 1, off)
  }

  ghost predicate Bounded(off: int -> int, reach: int) {
    reach >= 0 && forall s: int :: -reach <= off(s) <= reach
  }

  ghost predicate InSomeDay(t: int, off: int -> int) {
    exists d :: InDay(t, d, off)
  }

  /** Every instant is in the window of exactly one day. */
  ghost predicate Tiles(off: int -> int) {
    && (forall t :: InSomeDay(t, off))
    && (forall t, d, e :: InDay(t, d, off) && InDay(t, e, off) ==> d == e)
  }

  /** A day's window is as long as a day less the change between the two offsets used. */
  lemma WindowLength(day: int, off: int -> int)
    ensures var used := off(day * DAY - off(day * DAY));
            var next := off((day + 1) * DAY - off((day + 1) * DAY));
            && StartOf(day + 1, off) - StartOf(day, off) == DAY - (next - used)
            && (StartOf(day, off) < StartOf(day + 1, off) <==> next - used < DAY)
  {
  }

  /** Where offsets differ by less than a day, no window is even empty. */
  lemma StartIncreases(day: int, off: int -> int)
    requires ChangesUnderADay(off)
    ensures StartOf(day, off) < StartOf(day + 1, off)
  {
    WindowLength(day, off);
  }

  lemma {:induction false} StartsAreOrdered(day: int, later: int, off: int -> int)
    requires StartsInOrder(off) && day <= later
    ensures StartOf(day, off) <= StartOf(later, off)
    decreases later - day
  {
    hide StartOf;
    if day == later {
    } else {
      StartsAreOrdered(day, later - 1, off);
      assert StartOf(later - 1, off) <= StartOf(later - 1 + 1, off);
    }
  }

  lemma {:induction false} SomeDayBetween(t: int, day: int, later: int, off: int -> int) returns (d: int)
    requires day <= later && StartOf(day, off) <= t < StartOf(later, off)
    ensures day <= d < later && InDay(t, d, off)
    decreases later - day
  {
    hide StartOf;
    if t < StartOf(day + 1, off) {
      d := day;
    } else {
      d := SomeDayBetween(t, day + 1, later, off);
    }
  }

  lemma DayBounds(t: int, reach: int) returns (d: int)
    requires reach >= 0
    ensures d * DAY + reach <= t
    ensures (d + 1 + (2 * reach / DAY + 2)) * DAY - reach > t
  {
    d := (t - reach) / DAY;
  }

  lemma StartNearMidnight(day: int, off: int -> int, reach: int)
    requires forall t :: -reach <= off(t) <= reach
    ensures day * DAY - reach <= StartOf(day, off) <= day * DAY + reach
  {
    var first := day * DAY - off(day * DAY);
    assert -reach <= off(first) <= reach;
  }

  /** Far enough back every start is before an instant, far enough on after it. */
  lemma StartsSpread(t: int, off: int -> int, reach: int) returns (low: int, high: int)
    requires Bounded(off, reach)
    ensures low < high
    ensures forall d :: d <= low ==> StartOf(d, off) <= t
    ensures forall d :: d >= high ==> t < StartOf(d, off)
  {
    low := DayBounds(t, reach);
    high := low + 1 + (2 * reach / DAY + 2);
    forall d
      ensures d <= low ==> StartOf(d, off) <= t
      ensures d >= high ==> t < StartOf(d, off)
    {
      StartNearMidnight(d, off, reach);
    }
  }

  lemma SomeDay(t: int, off: int -> int, reach: int)
    requires Bounded(off, reach)
    ensures InSomeDay(t, off)
  {
    hide StartOf, Bounded;
    var low, high := StartsSpread(t, off, reach);
    var d := SomeDayBetween(t, low, high, off);
  }

  lemma OnlyOneDay(t: int, d: int, e: int, off: int -> int)
    requires StartsInOrder(off) && InDay(t, d, off) && InDay(t, e, off)
    ensures d == e
  {
    hide StartOf, StartsInOrder;
    if d < e {
      StartsAreOrdered(d + 1, e, off);
    } else if e < d {
      StartsAreOrdered(e + 1, d, off);
    }
  }

  /** Where a window runs backwards, its later start is claimed by a day before and a day after. */
  lemma BackwardsOverlaps(day: int, off: int -> int, reach: int)
    requires Bounded(off, reach) && StartOf(day, off) > StartOf(day + 1, off)
    ensures !Tiles(off)
  {
    hide StartOf, Bounded;
    var t := StartOf(day + 1, off);
    var low, high := StartsSpread(t, off, reach);
    assert low < day && day + 1 < high;
    var d := SomeDayBetween(t, low, day, off);
    var e := SomeDayBetween(t, day + 1, high, off);
  }

  /**
   * The windows of consecutive local days tile the timeline, every instant in exactly one of them,
   * exactly when no start of day comes after the next.
   */
  lemma TilesExactly(off: int -> int, reach: int)
    requires Bounded(off, reach)
    ensures Tiles(off) <==> StartsInOrder(off)
  {
    hide InDay, Bounded, StartOf, InSomeDay;
    if StartsInOrder(off) {
      forall t
        ensures InSomeDay(t, off)
      {
        SomeDay(t, off, reach);
      }
      forall t, d, e | InDay(t, d, off) && InDay(t, e, off)
        ensures d == e
      {
        OnlyOneDay(t, d, e, off);
      }
    } else {
      var day :| StartOf(day, off) > StartOf(day + 1, off);
      BackwardsOverlaps(day, off, reach);
    }
  }

  /** In particular they tile when no two offsets of the zone are a full day apart. */
  lemma DaysTileTheTimeline(t: int, off: int -> int, reach: int)
    requires ChangesUnderADay(off) && Bounded(off, reach)
    ensures InSomeDay(t, off)
    ensures forall d, e :: InDay(t, d, off) && InDay(t, e, off) ==> d == e
    ensures forall d :: StartOf(d, off) < StartOf(d + 1, off)
  {
    hide StartOf, ChangesUnderADay, Bounded, InDay, InSomeDay;
    forall d
      ensures StartOf(d, off) < StartOf(d + 1, off)
    {
      StartIncreases(d, off);
    }
    TilesExactly(off, reach);
  }

  /** Everything before this midnight locally is before the computed start, and nothing else is. */
  ghost predicate Splits(day: int, off: int -> int) {
    forall t :: t >= StartOf(day, off) <==> Local(t, off) >= day * DAY
  }

  /** The offset is `a` before `x` and `b` from there on. */
  ghost predicate Steps(off: int -> int, x: int, a: int, b: int) {
    forall t :: off(t) == if t < x then a else b
  }

  /** Midnight is neither skipped nor repeated, or is the edge that the corrections land on. */
  predicate CleanMidnight(midnight: int, x: int, a: int, b: int) {
    || (midnight < x + a && midnight < x + b)
    || (midnight >= x + a && midnight >= x + b)
    || (a < b && midnight == x + a && midnight >= x)
    || (b < a && midnight == x + b && midnight < x)
  }

  /** In a zone with one change, a computed start of day is the true one exactly when midnight is clean. */
  lemma SplitsExactly(day: int, off: int -> int, x: int, a: int, b: int)
    requires Steps(off, x, a, b)
    ensures Splits(day, off) <==> CleanMidnight(day * DAY, x, a, b)
  {
    var midnight := day * DAY;
    var start := StartOf(day, off);
    assert start
           == if (if midnight < x then midnight - a < x else midnight - b < x) then midnight - a else midnight - b;
    if CleanMidnight(midnight, x, a, b) {
      forall t
        ensures t >= start <==> Local(t, off) >= midnight
      {
      }
    } else {
      if a < b {
        var t := if midnight < x then start else x;
        assert !(t >= start <==> Local(t, off) >= midnight);
      } else {
        var t := if midnight < x then x else midnight - a;
        assert !(t >= start <==> Local(t, off) >= midnight);
      }
    }
  }

  /** Between two clean midnights the window holds exactly the instants of that local day. */
  lemma WindowIsLocalDay(day: int, off: int -> int, x: int, a: int, b: int, t: int)
    requires Steps(off, x, a, b)
    requires CleanMidnight(day * DAY, x, a, b) && CleanMidnight((day + 1) * DAY, x, a, b)
    ensures InDay(t, day, off) <==> day * DAY <= Local(t, off) < (day + 1) * DAY
  {
    SplitsExactly(day, off, x, a, b);
    SplitsExactly(day + 1, off, x, a, b);
    hide StartOf;
    assert Splits(day, off) && Splits(day + 1, off);
  }

  /** A zone that jumps over a whole day, from ten hours behind UTC to fourteen ahead. */
  function SkippedDay(t: int): int {
    if t < 10 * HOUR then -10 * HOUR else 14 * HOUR
  }

  /** There the day before the jump gets an empty window, and its hours go to the day that never was. */
  lemma SkippedDayEmptiesItsNeighbour()
    ensures StartOf(-1, SkippedDay) == StartOf(0, SkippedDay)
    ensures !ChangesUnderADay(SkippedDay)
    ensures forall t :: InDay(t, 0, SkippedDay) ==> -1 * DAY <= Local(t, SkippedDay) < 0
  {
    assert SkippedDay(10 * HOUR) - SkippedDay(0) == DAY;
  }

  /** Midnight skipped by one hour, three hours behind UTC: the day starts at eleven the evening before. */
  function MidnightJump(t: int): int {
    if t < 3 * HOUR then -3 * HOUR else -2 * HOUR
  }

  lemma SkippedMidnightStartsTheEveningBefore()
    ensures Local(StartOf(0, MidnightJump), MidnightJump) == -HOUR
    ensures !Splits(0, MidnightJump)
  {
    assert StartOf(0, MidnightJump) == 2 * HOUR;
    assert Local(2 * HOUR, MidnightJump) == -HOUR;
  }
}
