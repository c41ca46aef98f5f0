/**
  The window of creation days whose issues are in the triage queue. Days are counted as Python's
  `date.toordinal` does, so that day 1 is a Monday.
*/
module TriageWindow {

  /** Monday is 1 and Sunday is 7. */
  function Weekday(day: int): (w: int)
    ensures 1 <= w <= 7
  {
    if day % 7 == 0 then 7 else day % 7
  }

  predicate IsBusinessDay(day: int)
  {
    Weekday(day) <= 5
  }

  /** The last business day on or before a day. */
  function OnOrBefore(day: int): (b: int)
    ensures IsBusinessDay(b) && b <= day
    decreases Weekday(day)
  {
    if IsBusinessDay(day) then day else OnOrBefore(day - 1)
  }

  /** The first business day on or after a day. */
  function OnOrAfter(day: int): (b: int)
    ensures IsBusinessDay(b) && day <= b
    decreases 7 - Weekday(day)
  {
    if IsBusinessDay(day) then day else if Weekday(day) == 7 then day + 1 else OnOrAfter(day + 1)
  }

  /** The last day on or before a day that is the given weekday. */
  function LastWeekday(day: int, weekday: int): (d: int)
    requires 1 <= weekday <= 7
    ensures Weekday(d) == weekday && day - 7 < d <= day
  {
    if Weekday(day) == weekday then day
    else if Weekday(day) > weekday then day - Weekday(day) + weekday
    else day - Weekday(day) + weekday - 7
  }

  function WindowEnd(today: int): int
  {
    OnOrBefore(OnOrBefore(OnOrBefore(today) - 1) - 1)
  }

  function WindowStart(today: int): int
  {
    LastWeekday(LastWeekday(OnOrBefore(today), 1), 4)
  }

  // ----- days as a week and a weekday -----

  function Week(day: int): int
  {
    (day - 1) / 7
  }

  lemma WeekAndWeekday(day: int)
    ensures day == 7 * Week(day) + Weekday(day)
  {
  }

  lemma WeekdayAfter(day: int, days: int)
    requires 1 <= Weekday(day) + days <= 7
    ensures Weekday(day + days) == Weekday(day) + days && Week(day + days) == Week(day)
  {
  }

  lemma OnOrBeforeIs(day: int)
    ensures OnOrBefore(day) == if Weekday(day) <= 5 then day else day - Weekday(day) + 5
    ensures Weekday(OnOrBefore(day)) == if Weekday(day) <= 5 then Weekday(day) else 5
  {
    if Weekday(day) == 6 {
      WeekdayAfter(day, -1);
    } else if Weekday(day) == 7 {
      WeekdayAfter(day, -1);
      WeekdayAfter(day, -2);
      assert OnOrBefore(day - 1) == OnOrBefore(day - 2);
    }
  }

  /** The last business day before a business day. */
  lemma BusinessDayBefore(day: int)
    requires IsBusinessDay(day)
    ensures OnOrBefore(day - 1) == if Weekday(day) == 1 then day - 3 else day - 1
    ensures Weekday(OnOrBefore(day - 1)) == if Weekday(day) == 1 then 5 else Weekday(day) - 1
  {
    OnOrBeforeIs(day - 1);
    if Weekday(day) > 1 {
      WeekdayAfter(day, -1);
    } else {
      assert Weekday(day - 1) == 7;
    }
  }

  lemma OnOrAfterIs(day: int)
    ensures OnOrAfter(day) == if Weekday(day) <= 5 then day else day + 8 - Weekday(day)
    ensures Weekday(OnOrAfter(day)) == if Weekday(day) <= 5 then Weekday(day) else 1
  {
  }

  lemma BusinessDayAfter(day: int)
    requires IsBusinessDay(day)
    ensures OnOrAfter(day + 1) == if Weekday(day) == 5 then day + 3 else day + 1
    ensures Weekday(OnOrAfter(day + 1)) == if Weekday(day) == 5 then 1 else Weekday(day) + 1
  {
  }

  lemma WindowEndIs(today: int)
    ensures WindowEnd(today) == OnOrBefore(today) - if Weekday(OnOrBefore(today)) <= 2 then 4 else 2
  {
    BusinessDayBefore(OnOrBefore(today));
    BusinessDayBefore(OnOrBefore(OnOrBefore(today) - 1));
  }

  lemma WindowStartIs(today: int)
    ensures WindowStart(today) == today - Weekday(today) - 3
  {
    OnOrBeforeIs(today);
  }

  /**
    The window ends two business days before today, or before the last business day on a weekend, and
    starts on the Thursday before that day's week.
  */
  method EligibilityWindow(day: int) returns (windowStart: int, windowEnd: int)
    ensures windowStart == WindowStart(day)
    ensures windowEnd == WindowEnd(day)
  {
    var today := day;
    var weekday := Weekday(today);
    if weekday >= 6 {
      today := today - (weekday - 5);
      weekday := 5;
    }
    var thisMonday := today - (weekday - 1);
    windowStart := thisMonday - 4;
    windowEnd := today - if weekday <= 2 then 4 else 2;
    OnOrBeforeIs(day);
    WindowStartIs(day);
    WindowEndIs(day);
  }

  predicate Eligible(created: int, today: int)
  {
    WindowStart(today) <= created <= WindowEnd(today)
  }

  // ----- instants -----

  const DAY := 24 * 60 * 60

  /** Wall-clock seconds in the business-day time zone. */
  function DayStart(day: int): int
  {
    day * DAY
  }

  function DayEnd(day: int): int
  {
    day * DAY + 23 * 60 * 60 + 59 * 60 + 59
  }

  /** The inclusive bounds in seconds take in exactly the days of the window. */
  lemma WindowIsWholeDays(at: int, first: int, last: int)
    ensures DayStart(first) <= at <= DayEnd(last) <==> first <= at / DAY <= last
  {
  }

  // ----- the window over all days -----

  lemma WindowIsOrdered(today: int)
    ensures WindowStart(today) <= WindowEnd(today) < today
  {
    OnOrBeforeIs(today);
    WindowStartIs(today);
    WindowEndIs(today);
  }

  /** Neither bound ever moves backwards. */
  lemma WindowMovesForward(earlier: int, later: int)
    requires earlier <= later
    ensures WindowStart(earlier) <= WindowStart(later)
    ensures WindowEnd(earlier) <= WindowEnd(later)
  {
    WindowStartIs(earlier);
    WindowStartIs(later);
    WindowEndIs(earlier);
    WindowEndIs(later);
    OnOrBeforeIs(earlier);
    OnOrBeforeIs(later);
    WeekAndWeekday(earlier);
    WeekAndWeekday(later);
  }

  /** Two business days after the first business day on or after the creation. */
  function FirstEligible(created: int): int
  {
    OnOrAfter(OnOrAfter(OnOrAfter(created) + 1) + 1)
  }

  /** The Sunday of the week of creation; of the next week for issues created from Thursday on. */
  function LastEligible(created: int): int
  {
    var sunday := created + 7 - Weekday(created);
    if Weekday(created) <= 3 then sunday else sunday + 7
  }

  lemma FirstEligibleIs(created: int)
    ensures FirstEligible(created)
         == OnOrAfter(created) + if Weekday(OnOrAfter(created)) <= 3 then 2 else 4
    ensures IsBusinessDay(FirstEligible(created))
  {
    BusinessDayAfter(OnOrAfter(created));
    BusinessDayAfter(OnOrAfter(OnOrAfter(created) + 1));
  }

  lemma ReachesWindowEnd(created: int, today: int)
    ensures created <= WindowEnd(today) <==> FirstEligible(created) <= today
  {
    WindowEndIs(today);
    OnOrBeforeIs(today);
    FirstEligibleIs(created);
    OnOrAfterIs(created);
    WeekAndWeekday(today);
    WeekAndWeekday(created);
  }

  lemma PassesWindowStart(created: int, today: int)
    ensures WindowStart(today) <= created <==> today <= LastEligible(created)
  {
    WindowStartIs(today);
    WeekAndWeekday(today);
    WeekAndWeekday(created);
  }

  /** An issue is in the queue on exactly one run of days, which includes a business day. */
  lemma EligibleExactly(created: int, today: int)
    ensures Eligible(created, today) <==> FirstEligible(created) <= today <= LastEligible(created)
    ensures FirstEligible(created) <= LastEligible(created) && IsBusinessDay(FirstEligible(created))
  {
    ReachesWindowEnd(created, today);
    PassesWindowStart(created, today);
    FirstEligibleIs(created);
    OnOrAfterIs(created);
  }

  /** A whole business day lies between the creation and today, or the last business day before it. */
  ghost predicate FullBusinessDayElapsed(created: int, today: int)
  {
    exists b :: IsBusinessDay(b) && created < b < OnOrBefore(today)
  }

  lemma ElapsedExactly(created: int, today: int)
    ensures FullBusinessDayElapsed(created, today) <==> created < OnOrBefore(OnOrBefore(today) - 1)
  {
    var last := OnOrBefore(OnOrBefore(today) - 1);
    if created < last {
      assert IsBusinessDay(last) && created < last < OnOrBefore(today);
    }
    forall b | IsBusinessDay(b) && created < b < OnOrBefore(today) ensures b <= last {
      BusinessDayBefore(OnOrBefore(today));
      WeekAndWeekday(b);
      WeekAndWeekday(OnOrBefore(today));
    }
  }

  /**
    An issue has reached the end of the window exactly when a whole business day lies between its
    creation and today, except that one created on a weekend waits through the Tuesday after it.
  */
  lemma WindowEndExactly(created: int, today: int)
    ensures created <= WindowEnd(today)
       <==> FullBusinessDayElapsed(created, today)
            && !(Weekday(created) >= 6 && today == created + 9 - Weekday(created))
  {
    ElapsedExactly(created, today);
    WindowEndIs(today);
    BusinessDayBefore(OnOrBefore(today));
    OnOrBeforeIs(today);
    WeekAndWeekday(today);
    WeekAndWeekday(created);
  }

  /** On that Tuesday the Monday has elapsed, but the window ends on the Friday before. */
  lemma WeekendIssueWaits(saturday: int)
    requires Weekday(saturday) == 6
    ensures FullBusinessDayElapsed(saturday, saturday + 3) && !Eligible(saturday, saturday + 3)
  {
    var tuesday := saturday + 3;
    assert Weekday(saturday + 2) == 1 && Weekday(tuesday) == 2;
    OnOrBeforeIs(tuesday);
    WindowEndIs(tuesday);
    assert IsBusinessDay(saturday + 2);
  }
}
