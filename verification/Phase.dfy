/** The phase of a crowdfunding campaign, from its two dates and today's, all `YYYY-MM-DD`. */
module Phase {
  import opened Wrappers
  import opened Calendar

  datatype Phase = Upcoming | Running | Ended

  const LAST_DAYS := 3

  datatype Campaign = Campaign(startsOn: string, endsOn: string)

  /** Whole days from `from` to `to`, both valid dates. */
  function DaysBetween(from: string, to: string): int
    requires DayNumber(from).Some? && DayNumber(to).Some?
  {
    DayNumber(to).value - DayNumber(from).value
  }

  function PhaseOf(c: Campaign, today: string): Phase {
    if LexLess(today, c.startsOn) then Upcoming
    else if LexLess(c.endsOn, today) then Ended
    else Running
  }

  function DaysLeft(c: Campaign, today: string): Option<int>
    requires DayNumber(today).Some? && DayNumber(c.endsOn).Some?
  {
    if PhaseOf(c, today) == Running then Some(DaysBetween(today, c.endsOn)) else None
  }

  function DaysToStart(c: Campaign, today: string): Option<int>
    requires DayNumber(today).Some? && DayNumber(c.startsOn).Some?
  {
    if PhaseOf(c, today) == Upcoming then Some(DaysBetween(today, c.startsOn)) else None
  }

  predicate IsLastDays(c: Campaign, today: string)
    requires DayNumber(today).Some? && DayNumber(c.endsOn).Some?
  {
    DaysLeft(c, today).Some? && DaysLeft(c, today).value <= LAST_DAYS
  }

  /** The form's refinement, on the dates it accepts. */
  predicate EndNotBeforeStart(c: Campaign) {
    CheckDate(c.startsOn) != Accepts || CheckDate(c.endsOn) != Accepts || !LexLess(c.endsOn, c.startsOn)
  }

  predicate ValidDate(s: string) {
    Read(s).Some? && Real(Read(s).value)
  }

  /** A campaign as stored: two valid dates. */
  predicate Valid(c: Campaign) {
    ValidDate(c.startsOn) && ValidDate(c.endsOn)
  }

  function DayOf(s: string): (n: int)
    requires ValidDate(s)
    ensures DayNumber(s) == Some(n)
  {
    MakeDay(Read(s).value)
  }

  lemma SameOrder(s: string, t: string)
    requires ValidDate(s) && ValidDate(t)
    ensures LexLess(s, t) <==> DayOf(s) < DayOf(t)
  {
    FormatRead(s);
    FormatRead(t);
    DateOrder(Read(s).value, Read(t).value);
  }

  /** The phase, read off the day numbers alone. */
  lemma PhaseByDays(c: Campaign, today: string)
    requires Valid(c) && ValidDate(today)
    ensures var n, start, end := DayOf(today), DayOf(c.startsOn), DayOf(c.endsOn);
            PhaseOf(c, today) == if n < start then Upcoming else if n > end then Ended else Running
  {
    SameOrder(today, c.startsOn);
    SameOrder(c.endsOn, today);
  }

  /** The campaigns the form lets through end no earlier than they start. */
  lemma FormDates(c: Campaign)
    requires CheckDate(c.startsOn) == Accepts && CheckDate(c.endsOn) == Accepts
    ensures Valid(c) && (EndNotBeforeStart(c) <==> DaysBetween(c.startsOn, c.endsOn) >= 0)
  {
    AcceptsExactlyRealDates(c.startsOn);
    AcceptsExactlyRealDates(c.endsOn);
    SameOrder(c.endsOn, c.startsOn);
  }

  /** Dates the form refuses on their own are not compared. */
  lemma FormPasses(c: Campaign)
    requires CheckDate(c.startsOn) != Accepts || CheckDate(c.endsOn) != Accepts
    ensures EndNotBeforeStart(c)
  {
  }

  function Rank(p: Phase): nat {
    match p case Upcoming => 0 case Running => 1 case Ended => 2
  }

  /** As days pass a campaign only moves on, whatever its dates. */
  lemma PhaseMovesOn(c: Campaign, today: string, later: string)
    requires Valid(c) && ValidDate(today) && ValidDate(later) && DayOf(today) <= DayOf(later)
    ensures Rank(PhaseOf(c, today)) <= Rank(PhaseOf(c, later))
  {
    PhaseByDays(c, today);
    PhaseByDays(c, later);
  }

  /** The days, among all a four-digit year can have, on which the campaign runs. */
  ghost function RunningDays(c: Campaign): set<int> {
    set n | DayFromYear(0) <= n < DayFromYear(10_000) && PhaseOf(c, IsoDay(n)) == Running
  }

  /** The days from `first` up to, not including, `beyond`. */
  function Span(first: int, beyond: int): (days: set<int>)
    requires first <= beyond
    ensures forall n :: n in days <==> first <= n < beyond
    ensures |days| == beyond - first
    decreases beyond - first
  {
    if first == beyond then {} else Span(first, beyond - 1) + {beyond - 1}
  }

  /**
   * A campaign runs on as many days as lie between its dates, both counted: over all days a
   * four-digit year can have, `DaysBetween(start, end) + 1` of them, and none if it ends before it starts.
   */
  lemma RunningLength(c: Campaign)
    requires Valid(c)
    ensures |RunningDays(c)|
            == var days := DaysBetween(c.startsOn, c.endsOn) + 1; if days > 0 then days else 0
  {
    var start, end := DayOf(c.startsOn), DayOf(c.endsOn);
    forall n ensures n in RunningDays(c) <==> start <= n < end + 1 {
      RunningDay(c, n);
    }
    if start <= end {
      assert RunningDays(c) == Span(start, end + 1);
    } else {
      assert RunningDays(c) == {};
    }
  }

  lemma RunningDay(c: Campaign, n: int)
    requires Valid(c)
    ensures n in RunningDays(c) <==> DayOf(c.startsOn) <= n <= DayOf(c.endsOn)
  {
    RealIsFourDigit(Read(c.startsOn).value);
    RealIsFourDigit(Read(c.endsOn).value);
    if FourDigitDay(n) {
      PhaseByDays(c, IsoDay(n));
    }
  }

  lemma SameDate(s: string, t: string)
    requires ValidDate(s) && ValidDate(t)
    ensures s == t <==> DayOf(s) == DayOf(t)
  {
    FormatRead(s);
    FormatRead(t);
    DateOrder(Read(s).value, Read(t).value);
  }

  /** Tomorrow's date, as `todayIn` will print it. */
  function DayAfter(today: string): string
    requires ValidDate(today) && Real(Tomorrow(Read(today).value))
  {
    Format(Tomorrow(Read(today).value))
  }

  lemma DayAfterIsNext(today: string)
    requires ValidDate(today) && Real(Tomorrow(Read(today).value))
    ensures ValidDate(DayAfter(today)) && DayOf(DayAfter(today)) == DayOf(today) + 1
  {
    ReadFormat(Tomorrow(Read(today).value));
    NextDay(Read(today).value);
  }

  /** The days left of a running campaign are 0 on its last day and never below; the last four are called out. */
  lemma DaysLeftRunning(c: Campaign, today: string)
    requires Valid(c) && ValidDate(today) && PhaseOf(c, today) == Running
    ensures DaysLeft(c, today).value >= 0
    ensures DaysLeft(c, today).value == 0 <==> today == c.endsOn
    ensures IsLastDays(c, today) <==> DayOf(c.endsOn) - LAST_DAYS <= DayOf(today)
  {
    PhaseByDays(c, today);
    SameDate(today, c.endsOn);
  }

  /** Days are left exactly while the campaign runs. */
  lemma DaysLeftExactly(c: Campaign, today: string)
    requires Valid(c) && ValidDate(today)
    ensures DaysLeft(c, today) ==
            if DayOf(c.startsOn) <= DayOf(today) <= DayOf(c.endsOn) then Some(DayOf(c.endsOn) - DayOf(today)) else None
  {
    PhaseByDays(c, today);
  }

  /** The last day and the three before it are called out, and only of a running campaign. */
  lemma LastDaysExactly(c: Campaign, today: string)
    requires Valid(c) && ValidDate(today)
    ensures IsLastDays(c, today) <==>
              DayOf(c.startsOn) <= DayOf(today) <= DayOf(c.endsOn) && DayOf(c.endsOn) - 3 <= DayOf(today)
  {
    DaysLeftExactly(c, today);
  }

  /** They count down by one a day, and the day after the last the campaign has ended. */
  lemma CountsDown(c: Campaign, today: string)
    requires Valid(c) && ValidDate(today) && PhaseOf(c, today) == Running
    requires Real(Tomorrow(Read(today).value))
    ensures ValidDate(DayAfter(today))
    ensures if today == c.endsOn then PhaseOf(c, DayAfter(today)) == Ended && DaysLeft(c, DayAfter(today)) == None
            else DaysLeft(c, DayAfter(today)) == Some(DaysLeft(c, today).value - 1)
  {
    DayAfterIsNext(today);
    SameDate(today, c.endsOn);
    DayLater(c, today, DayAfter(today));
  }

  lemma DayLater(c: Campaign, today: string, tomorrow: string)
    requires Valid(c) && ValidDate(today) && ValidDate(tomorrow) && PhaseOf(c, today) == Running
    requires DayOf(tomorrow) == DayOf(today) + 1
    ensures if DayOf(today) == DayOf(c.endsOn) then PhaseOf(c, tomorrow) == Ended && DaysLeft(c, tomorrow) == None
            else DaysLeft(c, tomorrow) == Some(DaysLeft(c, today).value - 1)
  {
    PhaseByDays(c, today);
    PhaseByDays(c, tomorrow);
  }

  /** An upcoming campaign is at least a day away, and that many days on it runs, if it ever does. */
  lemma StartsLater(c: Campaign, today: string)
    requires Valid(c) && ValidDate(today)
    ensures PhaseOf(c, today) == Upcoming <==> DaysToStart(c, today).Some?
    ensures PhaseOf(c, today) == Upcoming ==>
              DaysToStart(c, today).value >= 1 &&
              DayOf(today) + DaysToStart(c, today).value == DayOf(c.startsOn) &&
              PhaseOf(c, c.startsOn) == if DaysBetween(c.startsOn, c.endsOn) >= 0 then Running else Ended
  {
    PhaseByDays(c, today);
    PhaseByDays(c, c.startsOn);
  }
}
