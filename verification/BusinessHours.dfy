/**
 Business hours: due instants and elapsed time. Time is counted in whole minutes on one clock; day 0 is a Sunday.
 */
module BusinessHours {

  const DAY: int := 1440

  /** Work starts and ends at these minutes of the day. */
  datatype Settings = Settings(start: int, end: int, excludeWeekends: bool)

  /** Work starts before it ends, on the same day. */
  predicate Usable(c: Settings) {
    0 <= c.start < c.end <= DAY
  }

  function DayOf(t: int): int {
    t / DAY
  }

  function MinuteOf(t: int): int {
    t % DAY
  }

  /** The instant at a minute of a day. */
  function At(day: int, minute: int): int {
    day * DAY + minute
  }

  /** isWorkDay */
  predicate IsWorkDay(c: Settings, day: int) {
    if c.excludeWeekends then day % 7 != 0 && day % 7 != 6 else true
  }

  /** isWithinBusinessHours */
  predicate IsWithin(c: Settings, t: int) {
    IsWorkDay(c, DayOf(t)) && c.start <= MinuteOf(t) < c.end
  }

  /** How many minutes from `a` to `b` are business minutes. */
  function Count(c: Settings, a: int, b: int): nat
    decreases b - a
  {
    if b <= a then 0 else Count(c, a, b - 1) + if IsWithin(c, b - 1) then 1 else 0
  }

  lemma {:induction false} CountAdds(c: Settings, a: int, m: int, b: int)
    requires a <= m <= b
    ensures Count(c, a, b) == Count(c, a, m) + Count(c, m, b)
    decreases b - m
  {
    hide IsWithin;
    if m < b {
      CountAdds(c, a, m, b - 1);
    }
  }

  lemma {:induction false} CountAll(c: Settings, a: int, b: int)
    requires a <= b && forall t :: a <= t < b ==> IsWithin(c, t)
    ensures Count(c, a, b) == b - a
    decreases b - a
  {
    hide IsWithin;
    if a < b {
      CountAll(c, a, b - 1);
    }
  }

  lemma {:induction false} CountNone(c: Settings, a: int, b: int)
    requires forall t :: a <= t < b ==> !IsWithin(c, t)
    ensures Count(c, a, b) == 0
    decreases b - a
  {
    hide IsWithin;
    if a < b {
      CountNone(c, a, b - 1);
    }
  }

  lemma PlaceOf(day: int, minute: int)
    requires 0 <= minute < DAY
    ensures DayOf(At(day, minute)) == day && MinuteOf(At(day, minute)) == minute
  {}

  lemma Placed(t: int)
    ensures t == At(DayOf(t), MinuteOf(t)) && 0 <= MinuteOf(t) < DAY
  {}

  /** The instants of a day. */
  lemma InDay(day: int, t: int)
    requires At(day, 0) <= t < At(day + 1, 0)
    ensures DayOf(t) == day && MinuteOf(t) == t - At(day, 0)
  {}

  /** Within the work hours of a work day every minute counts. */
  lemma WorkHoursCount(c: Settings, day: int, x: int, y: int)
    requires Usable(c) && IsWorkDay(c, day) && At(day, c.start) <= x <= y <= At(day, c.end)
    ensures Count(c, x, y) == y - x
  {
    hide IsWorkDay;
    forall t | x <= t < y ensures IsWithin(c, t) {
      InDay(day, t);
    }
    CountAll(c, x, y);
  }

  /** Outside of them, none. */
  lemma OffHoursCount(c: Settings, day: int, x: int, y: int)
    requires Usable(c) && At(day, 0) <= x && y <= At(day + 1, 0)
    requires !IsWorkDay(c, day) || y <= At(day, c.start) || At(day, c.end) <= x
    ensures Count(c, x, y) == 0
  {
    hide IsWorkDay;
    forall t | x <= t < y ensures !IsWithin(c, t) {
      InDay(day, t);
    }
    CountNone(c, x, y);
  }

  /** From the end of work on one day to the start of work on another, with no work day between. */
  lemma {:induction false} RestDaysCount(c: Settings, day: int, next: int)
    requires Usable(c) && day <= next && forall d :: day <= d < next ==> !IsWorkDay(c, d)
    ensures Count(c, At(day, 0), At(next, c.start)) == 0
    decreases next - day
  {
    hide IsWorkDay, Count;
    if day == next {
      OffHoursCount(c, day, At(day, 0), At(day, c.start));
    } else {
      OffHoursCount(c, day, At(day, 0), At(day + 1, 0));
      RestDaysCount(c, day + 1, next);
      CountAdds(c, At(day, 0), At(day + 1, 0), At(next, c.start));
    }
  }

  // ---- the calendar ----

  /** A minute of a weekday, counted from Sunday, in some week: work is on the five days between the weekends. */
  lemma MinuteOfWeek(c: Settings, week: int, weekday: int, minute: int)
    requires 0 <= weekday < 7 && 0 <= minute < 24 * 60
    ensures IsWithin(c, (week * 7 + weekday) * (24 * 60) + minute) <==>
            c.start <= minute < c.end && (c.excludeWeekends ==> 1 <= weekday <= 5)
  {
    PlaceOf(week * 7 + weekday, minute);
  }

  /** A week later it is the same. */
  lemma SameNextWeek(c: Settings, t: int)
    ensures IsWithin(c, t + 7 * (24 * 60)) <==> IsWithin(c, t)
  {
    Placed(t);
    PlaceOf(DayOf(t) + 7, MinuteOf(t));
  }

  lemma {:induction false} CountNextWeek(c: Settings, a: int, b: int)
    ensures Count(c, a + 7 * (24 * 60), b + 7 * (24 * 60)) == Count(c, a, b)
    decreases b - a
  {
    hide IsWithin;
    if a < b {
      CountNextWeek(c, a, b - 1);
      SameNextWeek(c, b - 1);
      assert b - 1 + 7 * (24 * 60) == b + 7 * (24 * 60) - 1;
    }
  }

  /** One day has all the work hours if it is a work day, none otherwise. */
  lemma DayCounts(c: Settings, day: int)
    requires Usable(c)
    ensures Count(c, At(day, 0), At(day + 1, 0)) == if IsWorkDay(c, day) then c.end - c.start else 0
  {
    hide IsWorkDay, Count;
    if IsWorkDay(c, day) {
      OffHoursCount(c, day, At(day, 0), At(day, c.start));
      WorkHoursCount(c, day, At(day, c.start), At(day, c.end));
      OffHoursCount(c, day, At(day, c.end), At(day + 1, 0));
      CountAdds(c, At(day, 0), At(day, c.start), At(day, c.end));
      CountAdds(c, At(day, 0), At(day, c.end), At(day + 1, 0));
    } else {
      OffHoursCount(c, day, At(day, 0), At(day + 1, 0));
    }
  }

  lemma {:induction false} DaysCount(c: Settings, day: int, n: nat)
    requires Usable(c)
    ensures Count(c, At(day, 0), At(day + n, 0)) == WorkDays(c, day, n) * (c.end - c.start)
  {
    hide IsWorkDay, Count;
    if n == 0 {
      EmptyCount(c, At(day, 0));
    } else {
      DaysCount(c, day, n - 1);
      DayCounts(c, day + n - 1);
      CountAdds(c, At(day, 0), At(day + n - 1, 0), At(day + n, 0));
      var h := c.end - c.start;
      assert (WorkDays(c, day, n - 1) + 1) * h == WorkDays(c, day, n - 1) * h + h;
    }
  }

  function WorkDays(c: Settings, day: int, n: nat): nat {
    if n == 0 then 0 else WorkDays(c, day, n - 1) + if IsWorkDay(c, day + n - 1) then 1 else 0
  }

  lemma {:induction false} WorkDaysOfWeek(c: Settings, week: int, n: nat)
    requires n <= 7
    ensures WorkDays(c, week * 7, n) == if !c.excludeWeekends then n else if n == 0 then 0 else if n == 7 then 5 else n - 1
  {
    if n > 0 {
      WorkDaysOfWeek(c, week, n - 1);
    }
  }

  /** Any week, whenever it starts, has the work hours of five days, or of seven if weekends count. */
  lemma WeekCounts(c: Settings, t: int)
    requires Usable(c)
    ensures Count(c, t, t + 7 * (24 * 60)) == (if c.excludeWeekends then 5 else 7) * (c.end - c.start)
  {
    hide IsWorkDay, Count, WorkDays;
    var week := t / (7 * (24 * 60));
    var a, b := At(week * 7, 0), At(week * 7 + 7, 0);
    assert a <= t < b && b == a + 7 * (24 * 60);
    DaysCount(c, week * 7, 7);
    WorkDaysOfWeek(c, week, 7);
    CountAdds(c, a, t, b);
    CountAdds(c, t, b, t + 7 * (24 * 60));
    CountNextWeek(c, a, t);
  }

  // ---- the next business day ----

  /** `next` is the first work day after `day`. */
  ghost predicate IsNextWorkDay(c: Settings, day: int, next: int) {
    day < next && IsWorkDay(c, next) && forall d :: day < d < next ==> !IsWorkDay(c, d)
  }

  /** getNextBusinessDayStart */
  method GetNextBusinessDayStart(c: Settings, t: int) returns (r: int)
    requires Usable(c)
    ensures IsNextWorkDay(c, DayOf(t), DayOf(r)) && r == At(DayOf(r), c.start)
  {
    var day := DayOf(t) + 1;
    while !IsWorkDay(c, day)
      invariant day > DayOf(t) && forall d :: DayOf(t) < d < day ==> !IsWorkDay(c, d)
      decreases if day % 7 == 6 then 2 else if day % 7 == 0 then 1 else 0
    {
      day := day + 1;
    }
    r := At(day, c.start);
    PlaceOf(day, c.start);
  }

  // ---- due instants ----

  /** The least instant by which exactly `h` business minutes have passed since `s`. */
  ghost predicate IsDue(c: Settings, s: int, h: int, due: int) {
    due > s && Count(c, s, due) == h && forall t :: s <= t < due ==> Count(c, s, t) < h
  }

  lemma CountMonotone(c: Settings, s: int, t: int, u: int)
    requires s <= t <= u
    ensures Count(c, s, t) <= Count(c, s, u)
  {
    CountAdds(c, s, t, u);
  }

  lemma DueIsUnique(c: Settings, s: int, h: int, d: int, e: int)
    requires IsDue(c, s, h, d) && IsDue(c, s, h, e)
    ensures d == e
  {}

  /** As many minutes more as a week has make it due a week later. */
  lemma DueAWeekLater(c: Settings, s: int, h: int, due: int)
    requires Usable(c) && IsDue(c, s, h, due)
    ensures IsDue(c, s, h + (if c.excludeWeekends then 5 else 7) * (c.end - c.start), due + 7 * (24 * 60))
  {
    hide IsWithin, Count;
    var w := 7 * (24 * 60);
    WeekCounts(c, s);
    var more := Count(c, s, s + w);
    forall t | s <= t ensures Count(c, s, t + w) == Count(c, s, t) + more {
      CountNextWeek(c, s, t);
      CountAdds(c, s, s + w, t + w);
    }
    forall t | s <= t < due + w ensures Count(c, s, t) < h + more {
      if t >= s + w {
        assert Count(c, s, t - w + w) == Count(c, s, t - w) + more;
      } else {
        CountMonotone(c, s, t, s + w);
        assert Count(c, s, s) < h;
      }
    }
  }

  /** An instant is due exactly if the minute before it was the last of the business minutes needed. */
  lemma DueByLastMinute(c: Settings, s: int, h: int, due: int)
    requires due > s
    ensures IsDue(c, s, h, due) <==> IsWithin(c, due - 1) && Count(c, s, due) == h
  {
    hide IsWithin;
    assert Count(c, s, due) == Count(c, s, due - 1) + if IsWithin(c, due - 1) then 1 else 0;
    if IsWithin(c, due - 1) && Count(c, s, due) == h {
      forall t | s <= t < due ensures Count(c, s, t) < h {
        CountMonotone(c, s, t, due - 1);
      }
    }
  }

  /** The start of the next business day, seen from a moment after work or on a day without work. */
  lemma NextStartSkipsNothing(c: Settings, t: int, next: int)
    requires Usable(c) && IsNextWorkDay(c, DayOf(t), DayOf(next)) && next == At(DayOf(next), c.start)
    requires !IsWorkDay(c, DayOf(t)) || MinuteOf(t) >= c.end
    ensures t < next && Count(c, t, next) == 0
  {
    hide IsWorkDay, Count;
    var day := DayOf(t);
    Placed(t);
    OffHoursCount(c, day, t, At(day + 1, 0));
    RestDaysCount(c, day + 1, DayOf(next));
    CountAdds(c, t, At(day + 1, 0), next);
  }

  /** The start of the next business day, seen from within the work hours. */
  lemma RestOfDayCounts(c: Settings, t: int, next: int)
    requires Usable(c) && IsNextWorkDay(c, DayOf(t), DayOf(next)) && next == At(DayOf(next), c.start)
    requires IsWorkDay(c, DayOf(t)) && c.start <= MinuteOf(t) <= c.end
    ensures t < next && Count(c, t, next) == c.end - MinuteOf(t)
  {
    hide IsWorkDay, Count;
    var day := DayOf(t);
    Placed(t);
    WorkHoursCount(c, day, t, At(day, c.end));
    OffHoursCount(c, day, At(day, c.end), At(day + 1, 0));
    RestDaysCount(c, day + 1, DayOf(next));
    CountAdds(c, At(day, c.end), At(day + 1, 0), next);
    CountAdds(c, t, At(day, c.end), next);
  }

  /** Where counting begins: at `t` itself within business hours, else when work next starts. */
  ghost predicate Begins(c: Settings, t: int, from: int) {
    t <= from && Count(c, t, from) == 0 && IsWithin(c, from)
  }

  /** The first step of calculateDueDateTime. */
  method MoveToWork(c: Settings, t: int) returns (from: int)
    requires Usable(c)
    ensures Begins(c, t, from)
  {
    hide IsWorkDay, Count, DayOf, MinuteOf, At;
    from := t;
    Placed(t);
    EmptyCount(c, t);
    if !IsWithin(c, t) {
      if IsWorkDay(c, DayOf(t)) {
        if MinuteOf(t) < c.start {
          from := At(DayOf(t), c.start);
          PlaceOf(DayOf(t), c.start);
          BeforeWork(c, t);
        } else {
          from := GetNextBusinessDayStart(c, t);
          NextStartSkipsNothing(c, t, from);
          PlaceOf(DayOf(from), c.start);
        }
      } else {
        from := GetNextBusinessDayStart(c, t);
        NextStartSkipsNothing(c, t, from);
        PlaceOf(DayOf(from), c.start);
      }
    }
  }

  lemma EmptyCount(c: Settings, t: int)
    ensures Count(c, t, t) == 0
  {}

  lemma BeforeWork(c: Settings, t: int)
    requires Usable(c) && MinuteOf(t) < c.start
    ensures t < At(DayOf(t), c.start) && Count(c, t, At(DayOf(t), c.start)) == 0
  {
    Placed(t);
    OffHoursCount(c, DayOf(t), t, At(DayOf(t), c.start));
  }

  /** From an instant in the work hours, `left` more minutes that still fit the day. */
  lemma FinishToday(c: Settings, s: int, h: int, at: int, left: int)
    requires Usable(c) && s <= at && IsWithin(c, at) && Count(c, s, at) + left == h
    requires 0 < left <= c.end - MinuteOf(at)
    ensures IsDue(c, s, h, at + left)
  {
    hide IsWorkDay, Count, IsDue;
    var day := DayOf(at);
    Placed(at);
    WorkHoursCount(c, day, at, at + left);
    CountAdds(c, s, at, at + left);
    InDay(day, at + left - 1);
    DueByLastMinute(c, s, h, at + left);
  }

  /** One more day of work. */
  lemma DayPasses(c: Settings, s: int, h: int, at: int, left: int, next: int)
    requires Usable(c) && s <= at && IsWithin(c, at) && Count(c, s, at) + left == h && left > c.end - MinuteOf(at)
    requires IsNextWorkDay(c, DayOf(at), DayOf(next)) && next == At(DayOf(next), c.start)
    ensures s <= next && IsWithin(c, next) && Count(c, s, next) + (left - (c.end - MinuteOf(at))) == h
    ensures MinuteOf(next) == c.start
  {
    hide IsWorkDay, Count, DayOf, MinuteOf, At;
    RestOfDayCounts(c, at, next);
    CountAdds(c, s, at, next);
    PlaceOf(DayOf(next), c.start);
  }

  /**
   calculateDueDateTime, for a whole number of minutes. Without allocated time it is the end of work of the same day,
   whatever that day is.
   */
  method CalculateDue(c: Settings, s: int, minutes: int) returns (due: int)
    requires Usable(c)
    ensures minutes > 0 ==> IsDue(c, s, minutes, due)
    ensures minutes <= 0 ==> due == At(DayOf(s), c.end)
  {
    hide IsWorkDay, Count, DayOf, MinuteOf, At, IsDue, IsNextWorkDay, IsWithin;
    if minutes <= 0 {
      return At(DayOf(s), c.end);
    }
    var current := MoveToWork(c, s);
    var remaining := minutes;
    WithinMeans(c, current);
    var leftToday := c.end - MinuteOf(current);
    if remaining <= leftToday {
      FinishToday(c, s, minutes, current, remaining);
      return current + remaining;
    }
    var next := GetNextBusinessDayStart(c, current);
    DayPasses(c, s, minutes, current, remaining, next);
    remaining := remaining - leftToday;
    current := next;
    var perDay := c.end - c.start;
    while remaining > perDay
      invariant s <= current && IsWithin(c, current) && MinuteOf(current) == c.start && remaining > 0
      invariant Count(c, s, current) + remaining == minutes
      decreases remaining
    {
      next := GetNextBusinessDayStart(c, current);
      DayPasses(c, s, minutes, current, remaining, next);
      remaining := remaining - perDay;
      current := next;
    }
    FinishToday(c, s, minutes, current, remaining);
    due := current + remaining;
  }

  lemma WithinMeans(c: Settings, t: int)
    requires IsWithin(c, t)
    ensures IsWorkDay(c, DayOf(t)) && c.start <= MinuteOf(t) < c.end
  {}

  // ---- elapsed time ----

  function Least(a: int, b: int): int {
    if a < b then a else b
  }

  /** The business minutes of one day from an instant on, up to `b`. */
  lemma DayPiece(c: Settings, from: int, b: int)
    requires Usable(c) && from < b
    ensures var day := DayOf(from);
            var next, first, last := At(day + 1, c.start), At(day, c.start), Least(b, At(day, c.end));
            var begin := if from > first then from else first;
            && from < next
            && Count(c, from, Least(next, b)) == if IsWorkDay(c, day) && last > begin then last - begin else 0
  {
    hide IsWorkDay, Count;
    var day := DayOf(from);
    var next, first, last := At(day + 1, c.start), At(day, c.start), Least(b, At(day, c.end));
    var begin := if from > first then from else first;
    Placed(from);
    var stop := Least(next, b);
    if IsWorkDay(c, day) && last > begin {
      if from < first {
        OffHoursCount(c, day, from, first);
      } else {
        EmptyCount(c, from);
      }
      WorkHoursCount(c, day, begin, last);
      NightCounts(c, day, last, stop);
      CountAdds(c, begin, last, stop);
      CountAdds(c, from, begin, stop);
    } else {
      NothingToday(c, day, from, stop);
    }
  }

  /** After the last counted minute of a day nothing counts until work starts again. */
  lemma NightCounts(c: Settings, day: int, x: int, stop: int)
    requires Usable(c) && At(day, 0) <= x <= stop <= At(day + 1, c.start) && x <= At(day + 1, 0) && (x >= At(day, c.end) || x == stop)
    ensures Count(c, x, stop) == 0
  {
    if x == stop {
    } else if stop <= At(day + 1, 0) {
      OffHoursCount(c, day, x, stop);
    } else {
      hide Count, IsWorkDay;
      OffHoursCount(c, day, x, At(day + 1, 0));
      OffHoursCount(c, day + 1, At(day + 1, 0), stop);
      CountAdds(c, x, At(day + 1, 0), stop);
    }
  }

  lemma NothingToday(c: Settings, day: int, from: int, stop: int)
    requires Usable(c) && At(day, 0) <= from < At(day + 1, 0) && from <= stop <= At(day + 1, c.start)
    requires !IsWorkDay(c, day) || from >= At(day, c.end) || stop <= At(day, c.start)
    ensures Count(c, from, stop) == 0
  {
    hide Count, IsWorkDay;
    if stop <= At(day + 1, 0) {
      OffHoursCount(c, day, from, stop);
    } else {
      OffHoursCount(c, day, from, At(day + 1, 0));
      OffHoursCount(c, day + 1, At(day + 1, 0), stop);
      CountAdds(c, from, At(day + 1, 0), stop);
    }
  }

  /** calculateElapsedBusinessHours, in minutes. */
  method CalculateElapsed(c: Settings, s: int, e: int) returns (total: int)
    requires Usable(c)
    ensures total == Count(c, s, e)
  {
    hide IsWorkDay, Count, DayOf, At;
    if e <= s {
      NoTime(c, s, e);
      return 0;
    }
    total := 0;
    var current := s;
    EmptyCount(c, s);
    while current < e
      invariant s <= current && total == Count(c, s, Least(current, e))
      decreases e - current
    {
      var day := DayOf(current);
      DayPiece(c, current, e);
      CountAdds(c, s, current, Least(At(day + 1, c.start), e));
      if IsWorkDay(c, day) {
        var dayStart, dayEnd := At(day, c.start), At(day, c.end);
        var effectiveStart := if current > dayStart then current else dayStart;
        var effectiveEnd := if e < dayEnd then e else dayEnd;
        if effectiveEnd > effectiveStart {
          total := total + (effectiveEnd - effectiveStart);
        }
      }
      current := At(day + 1, c.start);
    }
  }

  lemma NoTime(c: Settings, s: int, e: int)
    requires e <= s
    ensures Count(c, s, e) == 0
  {}

  // ---- the two are inverse ----

  /** The business time from the start to the due instant is the time allocated. */
  method ElapsedOfDue(c: Settings, s: int, minutes: int) returns (due: int, elapsed: int)
    requires Usable(c) && minutes > 0
    ensures elapsed == minutes && due > s && IsWithin(c, due - 1)
  {
    hide Count, IsWithin;
    due := CalculateDue(c, s, minutes);
    DueByLastMinute(c, s, minutes, due);
    elapsed := CalculateElapsed(c, s, due);
  }

  /** Allocating the time elapsed until an instant gives that instant, if it ends a business minute. */
  method DueOfElapsed(c: Settings, s: int, e: int) returns (elapsed: int, due: int)
    requires Usable(c) && s < e
    ensures due == e <==> IsWithin(c, e - 1) || (elapsed == 0 && e == At(DayOf(s), c.end))
  {
    hide Count, IsWithin, IsDue, At, DayOf;
    elapsed := CalculateElapsed(c, s, e);
    due := CalculateDue(c, s, elapsed);
    DueByLastMinute(c, s, elapsed, e);
    if elapsed > 0 {
      if IsWithin(c, e - 1) {
        DueIsUnique(c, s, elapsed, due, e);
      }
    } else {
      LastMinuteCounts(c, s, e);
    }
  }

  lemma LastMinuteCounts(c: Settings, s: int, e: int)
    requires s < e && Count(c, s, e) == 0
    ensures !IsWithin(c, e - 1)
  {}
}
