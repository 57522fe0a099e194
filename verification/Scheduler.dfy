/**
 * The in-process scheduler: what Cron Triggers do, for a process that has none. Ticks read a clock
 * that never goes back and start jobs; a job ends, well or badly, at any later moment.
 */
module Scheduler {
  import opened Wrappers
  import opened Calendar

  datatype Cron = Sweeper | LogoSearch | DailyImport

  const DAY_MS := 86_400_000
  const HOUR_MS := 3_600_000
  const LOGO_SEARCH_MS := 600_000

  /** A clock reading, in milliseconds, whose UTC year has four digits. */
  type Instant = t: int | FourDigitDay(t / DAY_MS) witness 0

  function UtcHours(t: Instant): int {
    t % DAY_MS / HOUR_MS
  }

  /** `toISOString().slice(0, 10)` */
  function UtcDay(t: Instant): string {
    IsoDay(t / DAY_MS)
  }

  // ---- Specification -------------------------------------------------------

  datatype Options = Options(sweepEverySeconds: real, logoSearch: bool)

  /** What has happened: an attempt to start a job, which fails if it is still going, and a job's end. */
  datatype Mark = Attempt(cron: Cron, at: Instant, started: bool) | Ended(cron: Cron)

  datatype State = State(
    busy: set<Cron>,
    lastSweep: Option<Instant>,
    lastLogoSearch: Option<Instant>,
    lastImportDay: string,
    ticked: Option<Instant>,
    trace: seq<Mark>)

  const IDLE := State({}, None, None, "", None, [])

  function Since(earlier: int, later: int): real {
    (later - earlier) as real
  }

  /** `now - last >= ms`, where nothing yet counts as forever ago. */
  predicate Elapsed(last: Option<Instant>, now: Instant, ms: real) {
    last.None? || Since(last.value, now) >= ms
  }

  function Fire(s: State, cron: Cron, now: Instant): State {
    s.(busy := s.busy + {cron}, trace := s.trace + [Attempt(cron, now, cron !in s.busy)])
  }

  function SweepTick(o: Options, s: State, now: Instant): State {
    if Elapsed(s.lastSweep, now, o.sweepEverySeconds * 1000.0)
    then Fire(s.(lastSweep := Some(now)), Sweeper, now) else s
  }

  function LogoTick(o: Options, s: State, now: Instant): State {
    if o.logoSearch && Elapsed(s.lastLogoSearch, now, LOGO_SEARCH_MS as real)
    then Fire(s.(lastLogoSearch := Some(now)), LogoSearch, now) else s
  }

  function ImportTick(s: State, now: Instant): State {
    if UtcHours(now) >= 4 && s.lastImportDay != UtcDay(now)
    then Fire(s.(lastImportDay := UtcDay(now)), DailyImport, now) else s
  }

  function Ticked(o: Options, s: State, now: Instant): State {
    ImportTick(LogoTick(o, SweepTick(o, s, now), now), now).(ticked := Some(now))
  }

  function Finished(s: State, cron: Cron): State {
    if cron in s.busy then s.(busy := s.busy - {cron}, trace := s.trace + [Ended(cron)]) else s
  }

  // ---- Implementation ------------------------------------------------------

  class Scheduler {
    const options: Options
    var busy: set<Cron>
    var lastSweep: Option<Instant>
    var lastLogoSearch: Option<Instant>
    var lastImportDay: string
    ghost var ticked: Option<Instant>
    ghost var trace: seq<Mark>

    constructor (options: Options)
      ensures this.options == options && Current() == IDLE
    {
      this.options := options;
      busy, lastSweep, lastLogoSearch, lastImportDay, ticked, trace := {}, None, None, "", None, [];
    }

    ghost function Current(): State
      reads this
    {
      State(busy, lastSweep, lastLogoSearch, lastImportDay, ticked, trace)
    }

    /** Starts the job unless it is going already. */
    method FireCron(cron: Cron, ghost now: Instant)
      modifies this`busy, this`trace
      ensures Current() == Fire(old(Current()), cron, now)
    {
      trace := trace + [Attempt(cron, now, cron !in busy)];
      if cron in busy {
        return;
      }
      busy := busy + {cron};
    }

    method Tick(now: Instant)
      modifies this
      ensures Current() == Ticked(options, old(Current()), now)
    {
      if Elapsed(lastSweep, now, options.sweepEverySeconds * 1000.0) {
        lastSweep := Some(now);
        FireCron(Sweeper, now);
      }
      assert Current() == SweepTick(options, old(Current()), now);
      if options.logoSearch && Elapsed(lastLogoSearch, now, LOGO_SEARCH_MS as real) {
        lastLogoSearch := Some(now);
        FireCron(LogoSearch, now);
      }
      assert Current() == LogoTick(options, SweepTick(options, old(Current()), now), now);
      var day := UtcDay(now);
      if UtcHours(now) >= 4 && lastImportDay != day {
        lastImportDay := day;
        FireCron(DailyImport, now);
      }
      ticked := Some(now);
    }

    /** A job that is going ends; whether it failed makes no difference. */
    method Finish(cron: Cron)
      modifies this`busy, this`trace
      ensures Current() == Finished(old(Current()), cron)
    {
      if cron in busy {
        busy := busy - {cron};
        trace := trace + [Ended(cron)];
      }
    }
  }

  // ---- Runs ------------------------------------------------------------------

  datatype Event = Tick(now: Instant) | Settle(cron: Cron)

  function Next(o: Options, s: State, e: Event): State {
    match e
    case Tick(now) => Ticked(o, s, now)
    case Settle(cron) => Finished(s, cron)
  }

  function Run(o: Options, events: seq<Event>): State {
    if events == [] then IDLE else Next(o, Run(o, events[..|events| - 1]), events[|events| - 1])
  }

  function LastTick(events: seq<Event>): Option<Instant> {
    if events == [] then None
    else
      var last := events[|events| - 1];
      if last.Tick? then Some(last.now) else LastTick(events[..|events| - 1])
  }

  predicate NotAfter(t: Option<Instant>, u: Option<Instant>) {
    t.Some? ==> u.Some? && t.value <= u.value
  }

  /** The clock does not go back. */
  predicate Forward(events: seq<Event>) {
    events != [] ==>
      var before, last := events[..|events| - 1], events[|events| - 1];
      Forward(before) && (last.Tick? ==> NotAfter(LastTick(before), Some(last.now)))
  }

  // ---- Exclusion -------------------------------------------------------------

  /** The jobs that are going after `m`, if `going` were before it. */
  function After(going: set<Cron>, m: Mark): set<Cron> {
    match m
    case Attempt(cron, _, started) => if started then going + {cron} else going
    case Ended(cron) => going - {cron}
  }

  /** The jobs that have started and not ended. */
  function InFlight(trace: seq<Mark>): set<Cron> {
    if trace == [] then {} else After(InFlight(trace[..|trace| - 1]), trace[|trace| - 1])
  }

  /** A job starts exactly when it is not in flight, and ends only when it is. */
  predicate Sensible(going: set<Cron>, m: Mark) {
    match m
    case Attempt(cron, _, started) => started <==> cron !in going
    case Ended(cron) => cron in going
  }

  ghost predicate Exclusive(trace: seq<Mark>) {
    forall i | 0 <= i < |trace| :: Sensible(InFlight(trace[..i]), trace[i])
  }

  lemma FireExclusive(s: State, cron: Cron, now: Instant)
    requires s.busy == InFlight(s.trace) && Exclusive(s.trace)
    ensures var t := Fire(s, cron, now); t.busy == InFlight(t.trace) && Exclusive(t.trace)
  {
    OneMoreMark(s.trace, Attempt(cron, now, cron !in s.busy));
  }

  lemma OneMoreMark(trace: seq<Mark>, m: Mark)
    requires Exclusive(trace) && Sensible(InFlight(trace), m)
    ensures Exclusive(trace + [m]) && InFlight(trace + [m]) == After(InFlight(trace), m)
  {
    var longer := trace + [m];
    assert longer[..|trace|] == trace;
    forall i | 0 <= i < |longer| ensures Sensible(InFlight(longer[..i]), longer[i]) {
      assert longer[..i] == trace[..i];
      if i == |trace| {
        assert trace[..i] == trace;
      }
    }
  }

  lemma NextExclusive(o: Options, s: State, e: Event)
    requires s.busy == InFlight(s.trace) && Exclusive(s.trace)
    ensures var t := Next(o, s, e); t.busy == InFlight(t.trace) && Exclusive(t.trace)
  {
    match e
    case Tick(now) =>
      var swept := SweepTick(o, s, now);
      FireExclusive(s.(lastSweep := Some(now)), Sweeper, now);
      var searched := LogoTick(o, swept, now);
      FireExclusive(swept.(lastLogoSearch := Some(now)), LogoSearch, now);
      FireExclusive(searched.(lastImportDay := UtcDay(now)), DailyImport, now);
    case Settle(cron) =>
      if cron in s.busy {
        OneMoreMark(s.trace, Ended(cron));
      }
  }

  /** Under every interleaving `busy` is exactly what is in flight, and nothing starts while it is. */
  lemma {:induction false} BusyIsInFlight(o: Options, events: seq<Event>)
    ensures Run(o, events).busy == InFlight(Run(o, events).trace) && Exclusive(Run(o, events).trace)
  {
    if events != [] {
      BusyIsInFlight(o, events[..|events| - 1]);
      NextExclusive(o, Run(o, events[..|events| - 1]), events[|events| - 1]);
    }
  }

  lemma {:induction false} StaysInFlight(trace: seq<Mark>, cron: Cron, i: nat, j: nat)
    requires i < j <= |trace| && trace[i].Attempt? && trace[i].cron == cron && trace[i].started
    requires forall k | i < k < j :: trace[k] != Ended(cron)
    ensures cron in InFlight(trace[..j])
    decreases j
  {
    assert trace[..j][..j - 1] == trace[..j - 1];
    if i < j - 1 {
      StaysInFlight(trace, cron, i, j - 1);
    }
  }

  /** No job overlaps itself: between two starts of one cron, in any run, the first has ended. */
  lemma NoOverlap(o: Options, events: seq<Event>, i: nat, j: nat)
    requires i < j < |Run(o, events).trace|
    requires Run(o, events).trace[i].Attempt? && Run(o, events).trace[i].started
    requires Run(o, events).trace[j].Attempt? && Run(o, events).trace[j].started
    requires Run(o, events).trace[i].cron == Run(o, events).trace[j].cron
    ensures exists k | i < k < j :: Run(o, events).trace[k] == Ended(Run(o, events).trace[i].cron)
  {
    var trace := Run(o, events).trace;
    BusyIsInFlight(o, events);
    if forall k | i < k < j :: trace[k] != Ended(trace[i].cron) {
      StaysInFlight(trace, trace[i].cron, i, j);
    }
  }

  // ---- Rates -------------------------------------------------------------------

  predicate AttemptOf(m: Mark, cron: Cron) {
    m.Attempt? && m.cron == cron
  }

  /** When the starts of `cron` were attempted, in order. */
  function Times(trace: seq<Mark>, cron: Cron): seq<Instant> {
    if trace == [] then []
    else
      var last := trace[|trace| - 1];
      Times(trace[..|trace| - 1], cron) + if AttemptOf(last, cron) then [last.at] else []
  }

  /** When `cron` did start. */
  function Starts(trace: seq<Mark>, cron: Cron): seq<Instant> {
    if trace == [] then []
    else
      var last := trace[|trace| - 1];
      Starts(trace[..|trace| - 1], cron) + if AttemptOf(last, cron) && last.started then [last.at] else []
  }

  function LastOf(times: seq<Instant>): Option<Instant> {
    if times == [] then None else Some(times[|times| - 1])
  }

  /** Each time is at least `ms` after the one before. */
  ghost predicate Spaced(times: seq<Instant>, ms: real) {
    forall i | 0 < i < |times| :: Since(times[i - 1], times[i]) >= ms
  }

  lemma TimesMore(trace: seq<Mark>, m: Mark, there: bool, cron: Cron)
    ensures Times(trace + (if there then [m] else []), cron)
            == Times(trace, cron) + (if there && AttemptOf(m, cron) then [m.at] else [])
  {
    if there {
      assert (trace + [m])[..|trace|] == trace;
    } else {
      assert trace + [] == trace;
    }
  }

  lemma StartsMore(trace: seq<Mark>, m: Mark, there: bool, cron: Cron)
    ensures Starts(trace + (if there then [m] else []), cron)
            == Starts(trace, cron) + (if there && AttemptOf(m, cron) && m.started then [m.at] else [])
  {
    if there {
      assert (trace + [m])[..|trace|] == trace;
    } else {
      assert trace + [] == trace;
    }
  }

  predicate SweepDue(o: Options, s: State, now: Instant) {
    Elapsed(s.lastSweep, now, o.sweepEverySeconds * 1000.0)
  }

  predicate SearchDue(o: Options, s: State, now: Instant) {
    o.logoSearch && Elapsed(s.lastLogoSearch, now, LOGO_SEARCH_MS as real)
  }

  predicate ImportDue(s: State, now: Instant) {
    UtcHours(now) >= 4 && s.lastImportDay != UtcDay(now)
  }

  /** The jobs a tick attempts: by the time since the last attempt, and by the hour and the day. */
  lemma DueExactly(o: Options, s: State, now: Instant)
    ensures SweepDue(o, s, now) <==>
              s.lastSweep == None || (now - s.lastSweep.value) as real >= o.sweepEverySeconds * 1000.0
    ensures SearchDue(o, s, now) <==>
              o.logoSearch && (s.lastLogoSearch == None || now - s.lastLogoSearch.value >= 600_000)
    ensures ImportDue(s, now) <==> now % 86_400_000 >= 14_400_000 && s.lastImportDay != UtcDay(now)
  {
  }

  lemma SweepMarks(o: Options, s: State, now: Instant)
    ensures SweepTick(o, s, now) ==
            if SweepDue(o, s, now)
            then s.(lastSweep := Some(now), busy := s.busy + {Sweeper},
                    trace := s.trace + [Attempt(Sweeper, now, Sweeper !in s.busy)])
            else s
  {
  }

  lemma SearchMarks(o: Options, s: State, now: Instant)
    ensures LogoTick(o, s, now) ==
            if SearchDue(o, s, now)
            then s.(lastLogoSearch := Some(now), busy := s.busy + {LogoSearch},
                    trace := s.trace + [Attempt(LogoSearch, now, LogoSearch !in s.busy)])
            else s
  {
  }

  lemma ImportMarks(s: State, now: Instant)
    ensures ImportTick(s, now) ==
            if ImportDue(s, now)
            then s.(lastImportDay := UtcDay(now), busy := s.busy + {DailyImport},
                    trace := s.trace + [Attempt(DailyImport, now, DailyImport !in s.busy)])
            else s
  {
  }

  /** Each variable is set by its own job alone. */
  lemma TickSets(o: Options, s: State, now: Instant)
    ensures Ticked(o, s, now).lastSweep == if SweepDue(o, s, now) then Some(now) else s.lastSweep
    ensures Ticked(o, s, now).lastLogoSearch == if SearchDue(o, s, now) then Some(now) else s.lastLogoSearch
    ensures Ticked(o, s, now).lastImportDay == if ImportDue(s, now) then UtcDay(now) else s.lastImportDay
    ensures Ticked(o, s, now).ticked == Some(now)
  {
    SweepMarks(o, s, now);
    SearchMarks(o, SweepTick(o, s, now), now);
    ImportMarks(LogoTick(o, SweepTick(o, s, now), now), now);
  }

  /** A tick attempts the jobs that are due, in this order, and starts those not going at its start. */
  lemma TickMarks(o: Options, s: State, now: Instant)
    ensures Ticked(o, s, now).trace ==
            s.trace + (if SweepDue(o, s, now) then [Attempt(Sweeper, now, Sweeper !in s.busy)] else [])
            + (if SearchDue(o, s, now) then [Attempt(LogoSearch, now, LogoSearch !in s.busy)] else [])
            + (if ImportDue(s, now) then [Attempt(DailyImport, now, DailyImport !in s.busy)] else [])
  {
    var swept := SweepTick(o, s, now);
    var searched := LogoTick(o, swept, now);
    SweepMarks(o, s, now);
    SearchMarks(o, swept, now);
    ImportMarks(searched, now);
    assert (LogoSearch in swept.busy <==> LogoSearch in s.busy) && SearchDue(o, swept, now) == SearchDue(o, s, now);
    assert (DailyImport in searched.busy <==> DailyImport in s.busy) && ImportDue(searched, now) == ImportDue(s, now);
    MarksAdd(s.trace, swept.trace, Attempt(Sweeper, now, Sweeper !in s.busy), SweepDue(o, s, now));
    MarksAdd(swept.trace, searched.trace, Attempt(LogoSearch, now, LogoSearch !in s.busy), SearchDue(o, s, now));
    MarksAdd(searched.trace, ImportTick(searched, now).trace, Attempt(DailyImport, now, DailyImport !in s.busy),
             ImportDue(s, now));
  }

  lemma MarksAdd(before: seq<Mark>, after: seq<Mark>, m: Mark, due: bool)
    requires after == if due then before + [m] else before
    ensures after == before + (if due then [m] else [])
  {
  }

  /** Each cron gains at most its own attempt. */
  lemma ThreeMarks(trace: seq<Mark>, a: Mark, b: Mark, c: Mark, sweep: bool, search: bool, load: bool, cron: Cron)
    requires AttemptOf(a, Sweeper) && AttemptOf(b, LogoSearch) && AttemptOf(c, DailyImport)
    ensures var more := trace + (if sweep then [a] else []) + (if search then [b] else []) + (if load then [c] else []);
            var (m, due) := match cron
              case Sweeper => (a, sweep)
              case LogoSearch => (b, search)
              case DailyImport => (c, load);
            Times(more, cron) == Times(trace, cron) + (if due then [m.at] else [])
  {
    var swept := trace + (if sweep then [a] else []);
    var searched := swept + (if search then [b] else []);
    TimesMore(trace, a, sweep, cron);
    TimesMore(swept, b, search, cron);
    TimesMore(searched, c, load, cron);
    Nothing(Times(trace, cron));
    Nothing(Times(swept, cron));
    Nothing(Times(searched, cron));
  }

  lemma Nothing<T>(s: seq<T>)
    ensures s + [] == s
  {
  }

  /** And starts exactly when that attempt does. */
  lemma ThreeStarts(trace: seq<Mark>, a: Mark, b: Mark, c: Mark, sweep: bool, search: bool, load: bool, cron: Cron)
    requires AttemptOf(a, Sweeper) && AttemptOf(b, LogoSearch) && AttemptOf(c, DailyImport)
    ensures var more := trace + (if sweep then [a] else []) + (if search then [b] else []) + (if load then [c] else []);
            var (m, due) := match cron
              case Sweeper => (a, sweep)
              case LogoSearch => (b, search)
              case DailyImport => (c, load);
            Starts(more, cron) == Starts(trace, cron) + (if due && m.started then [m.at] else [])
  {
    var swept := trace + (if sweep then [a] else []);
    var searched := swept + (if search then [b] else []);
    StartsMore(trace, a, sweep, cron);
    StartsMore(swept, b, search, cron);
    StartsMore(searched, c, load, cron);
    Nothing(Starts(trace, cron));
    Nothing(Starts(swept, cron));
    Nothing(Starts(searched, cron));
  }

  predicate DueNow(o: Options, s: State, now: Instant, cron: Cron) {
    match cron
    case Sweeper => SweepDue(o, s, now)
    case LogoSearch => SearchDue(o, s, now)
    case DailyImport => ImportDue(s, now)
  }

  lemma TickTimes(o: Options, s: State, now: Instant, cron: Cron)
    ensures Times(Ticked(o, s, now).trace, cron)
            == Times(s.trace, cron) + (if DueNow(o, s, now, cron) then [now] else [])
    ensures Starts(Ticked(o, s, now).trace, cron)
            == Starts(s.trace, cron) + (if DueNow(o, s, now, cron) && cron !in s.busy then [now] else [])
  {
    var a, b, c := Attempt(Sweeper, now, Sweeper !in s.busy), Attempt(LogoSearch, now, LogoSearch !in s.busy),
                   Attempt(DailyImport, now, DailyImport !in s.busy);
    TickMarks(o, s, now);
    ThreeMarks(s.trace, a, b, c, SweepDue(o, s, now), SearchDue(o, s, now), ImportDue(s, now), cron);
    ThreeStarts(s.trace, a, b, c, SweepDue(o, s, now), SearchDue(o, s, now), ImportDue(s, now), cron);
  }

  lemma EndTimes(trace: seq<Mark>, ended: Cron, cron: Cron)
    ensures Times(trace + [Ended(ended)], cron) == Times(trace, cron)
    ensures Starts(trace + [Ended(ended)], cron) == Starts(trace, cron)
  {
    TimesMore(trace, Ended(ended), true, cron);
    StartsMore(trace, Ended(ended), true, cron);
  }

  function DayOf(t: Instant): int {
    t / DAY_MS
  }

  /** Attempts on strictly later days, each from 04:00 on, of which `remembered` is the last day. */
  ghost predicate Daily(times: seq<Instant>, remembered: string) {
    && remembered == (if times == [] then "" else UtcDay(times[|times| - 1]))
    && (forall i | 0 <= i < |times| :: UtcHours(times[i]) >= 4)
    && (forall i | 0 < i < |times| :: DayOf(times[i - 1]) < DayOf(times[i]))
  }

  ghost predicate ImportsFit(s: State) {
    Daily(Times(s.trace, DailyImport), s.lastImportDay) && NotAfter(LastOf(Times(s.trace, DailyImport)), s.ticked)
  }

  ghost predicate JobFits(s: State, cron: Cron, last: Option<Instant>, ms: real) {
    LastOf(Times(s.trace, cron)) == last && NotAfter(last, s.ticked) && Spaced(Times(s.trace, cron), ms)
  }

  ghost predicate Paced(o: Options, s: State) {
    && JobFits(s, Sweeper, s.lastSweep, o.sweepEverySeconds * 1000.0)
    && JobFits(s, LogoSearch, s.lastLogoSearch, LOGO_SEARCH_MS as real)
    && ImportsFit(s)
  }

  lemma SpacedMore(times: seq<Instant>, now: Instant, ms: real)
    requires Spaced(times, ms) && (times != [] ==> Since(times[|times| - 1], now) >= ms)
    ensures Spaced(times + [now], ms)
  {
  }

  lemma AttemptFits(s: State, t: State, cron: Cron, last: Option<Instant>, ms: real, due: bool, now: Instant)
    requires JobFits(s, cron, last, ms) && NotAfter(s.ticked, Some(now)) && t.ticked == Some(now)
    requires due ==> Elapsed(last, now, ms)
    requires Times(t.trace, cron) == Times(s.trace, cron) + (if due then [now] else [])
    ensures JobFits(t, cron, if due then Some(now) else last, ms)
  {
    if due {
      SpacedMore(Times(s.trace, cron), now, ms);
    }
  }

  lemma LaterDay(last: Instant, now: Instant)
    requires last <= now && DayOf(last) != DayOf(now)
    ensures DayOf(last) < DayOf(now)
  {
  }

  lemma DaysGrow(times: seq<Instant>, now: Instant)
    requires forall i | 0 < i < |times| :: DayOf(times[i - 1]) < DayOf(times[i])
    requires times != [] ==> DayOf(times[|times| - 1]) < DayOf(now)
    ensures forall i | 0 < i < |times + [now]| :: DayOf((times + [now])[i - 1]) < DayOf((times + [now])[i])
  {
  }

  lemma AnotherDay(times: seq<Instant>, remembered: string, now: Instant)
    requires Daily(times, remembered) && UtcHours(now) >= 4 && remembered != UtcDay(now)
    requires times != [] ==> times[|times| - 1] <= now
    ensures Daily(times + [now], UtcDay(now))
  {
    if times != [] {
      SameUtcDay(times[|times| - 1], now);
      LaterDay(times[|times| - 1], now);
    }
    DaysGrow(times, now);
  }

  lemma ImportFits(times: seq<Instant>, remembered: string, now: Instant)
    requires Daily(times, remembered) && NotAfter(LastOf(times), Some(now))
    ensures var due := UtcHours(now) >= 4 && remembered != UtcDay(now);
            var more := times + (if due then [now] else []);
            Daily(more, if due then UtcDay(now) else remembered) && NotAfter(LastOf(more), Some(now))
  {
    if UtcHours(now) >= 4 && remembered != UtcDay(now) {
      AnotherDay(times, remembered, now);
    } else {
      assert times + [] == times;
    }
  }

  lemma SweepPaced(o: Options, s: State, now: Instant)
    requires JobFits(s, Sweeper, s.lastSweep, o.sweepEverySeconds * 1000.0) && NotAfter(s.ticked, Some(now))
    ensures JobFits(Ticked(o, s, now), Sweeper, Ticked(o, s, now).lastSweep, o.sweepEverySeconds * 1000.0)
  {
    TickSets(o, s, now);
    TickTimes(o, s, now, Sweeper);
    AttemptFits(s, Ticked(o, s, now), Sweeper, s.lastSweep, o.sweepEverySeconds * 1000.0, SweepDue(o, s, now), now);
  }

  lemma SearchPaced(o: Options, s: State, now: Instant)
    requires JobFits(s, LogoSearch, s.lastLogoSearch, LOGO_SEARCH_MS as real) && NotAfter(s.ticked, Some(now))
    ensures JobFits(Ticked(o, s, now), LogoSearch, Ticked(o, s, now).lastLogoSearch, LOGO_SEARCH_MS as real)
  {
    TickSets(o, s, now);
    TickTimes(o, s, now, LogoSearch);
    AttemptFits(s, Ticked(o, s, now), LogoSearch, s.lastLogoSearch, LOGO_SEARCH_MS as real, SearchDue(o, s, now), now);
  }

  lemma ImportPaced(o: Options, s: State, now: Instant)
    requires ImportsFit(s) && NotAfter(s.ticked, Some(now))
    ensures ImportsFit(Ticked(o, s, now))
  {
    TickSets(o, s, now);
    TickTimes(o, s, now, DailyImport);
    ImportFits(Times(s.trace, DailyImport), s.lastImportDay, now);
  }

  lemma TickPaced(o: Options, s: State, now: Instant)
    requires Paced(o, s) && NotAfter(s.ticked, Some(now))
    ensures Paced(o, Ticked(o, s, now))
  {
    SweepPaced(o, s, now);
    SearchPaced(o, s, now);
    ImportPaced(o, s, now);
  }

  lemma SamePaced(o: Options, s: State, t: State)
    requires Paced(o, s) && t == s.(busy := t.busy, trace := t.trace)
    requires forall cron: Cron :: Times(t.trace, cron) == Times(s.trace, cron)
    ensures Paced(o, t)
  {
  }

  lemma SettlePaced(o: Options, s: State, ended: Cron)
    requires Paced(o, s)
    ensures Paced(o, Finished(s, ended))
  {
    forall cron: Cron ensures Times(s.trace + [Ended(ended)], cron) == Times(s.trace, cron) {
      EndTimes(s.trace, ended, cron);
    }
    SamePaced(o, s, Finished(s, ended));
  }

  lemma {:induction false} RunPaced(o: Options, events: seq<Event>)
    requires Forward(events)
    ensures Paced(o, Run(o, events)) && Run(o, events).ticked == LastTick(events)
  {
    if events != [] {
      var before, last := events[..|events| - 1], events[|events| - 1];
      RunPaced(o, before);
      match last
      case Tick(now) => TickPaced(o, Run(o, before), now);
      case Settle(cron) => SettlePaced(o, Run(o, before), cron);
    }
  }

  /** How many of the times lie in the window of `width` milliseconds that opens at `open`. */
  function InWindow(times: seq<Instant>, open: int, width: nat): nat {
    if times == [] then 0
    else
      InWindow(times[..|times| - 1], open, width) + if open <= times[|times| - 1] <= open + width then 1 else 0
  }

  /** `n` times `ms` milliseconds. */
  function Lasting(n: nat, ms: real): real {
    if n == 0 then 0.0 else Lasting(n - 1, ms) + ms
  }

  lemma {:induction false} LastingIsProduct(n: nat, ms: real)
    ensures Lasting(n, ms) == n as real * ms
  {
    if n > 0 {
      LastingIsProduct(n - 1, ms);
    }
  }

  lemma {:induction false} LastingGrows(m: nat, n: nat, ms: real)
    requires m <= n && ms >= 0.0
    ensures Lasting(m, ms) <= Lasting(n, ms)
  {
    if m < n {
      LastingGrows(m, n - 1, ms);
    }
  }

  lemma OneMoreTime(times: seq<Instant>, t: Instant, open: int, width: nat)
    ensures InWindow(times + [t], open, width)
            == InWindow(times, open, width) + if open <= t <= open + width then 1 else 0
  {
    assert (times + [t])[..|times|] == times;
  }

  lemma MaybeOneMore(times: seq<Instant>, t: Instant, there: bool, open: int, width: nat)
    ensures InWindow(times + (if there then [t] else []), open, width)
            == InWindow(times, open, width) + if there && open <= t <= open + width then 1 else 0
  {
    if there {
      OneMoreTime(times, t, open, width);
    } else {
      assert times + [] == times;
    }
  }

  lemma {:induction false} WindowBound(times: seq<Instant>, ms: real, open: int, width: nat)
    requires Spaced(times, ms) && ms >= 0.0
    ensures var count := InWindow(times, open, width);
            count > 0 ==> open <= times[|times| - 1] && Lasting(count - 1, ms) <= Since(open, times[|times| - 1]) &&
                          Lasting(count - 1, ms) <= width as real
  {
    if times != [] {
      var n := |times| - 1;
      WindowBound(times[..n], ms, open, width);
      if InWindow(times[..n], open, width) > 0 {
        assert times[..n][n - 1] == times[n - 1];
        assert Since(times[n - 1], times[n]) >= ms;
      }
    }
  }

  lemma {:induction false} StartsAreAttempts(trace: seq<Mark>, cron: Cron, open: int, width: nat)
    ensures InWindow(Starts(trace, cron), open, width) <= InWindow(Times(trace, cron), open, width)
  {
    if trace != [] {
      var front, last := trace[..|trace| - 1], trace[|trace| - 1];
      StartsAreAttempts(front, cron, open, width);
      if AttemptOf(last, cron) {
        MaybeOneMore(Times(front, cron), last.at, true, open, width);
        MaybeOneMore(Starts(front, cron), last.at, last.started, open, width);
      } else {
        assert Times(trace, cron) == Times(front, cron) && Starts(trace, cron) == Starts(front, cron);
      }
    }
  }

  function Period(o: Options, cron: Cron): real {
    if cron == Sweeper then o.sweepEverySeconds * 1000.0 else 600_000.0
  }

  lemma PeriodsSpace(o: Options, events: seq<Event>, cron: Cron)
    requires Forward(events) && cron != DailyImport
    ensures Spaced(Times(Run(o, events).trace, cron), Period(o, cron))
  {
    RunPaced(o, events);
    assert JobFits(Run(o, events), Sweeper, Run(o, events).lastSweep, Period(o, Sweeper));
    assert JobFits(Run(o, events), LogoSearch, Run(o, events).lastLogoSearch, Period(o, LogoSearch));
  }

  lemma FewerFit(n: nat, m: nat, ms: real, width: nat)
    requires n <= m && ms >= 0.0 && (m > 0 ==> Lasting(m - 1, ms) <= width as real)
    ensures n > 0 ==> Lasting(n - 1, ms) <= width as real
  {
    if n > 0 {
      LastingGrows(n - 1, m - 1, ms);
    }
  }

  /** `n` starts, and the periods between them, fit the window: `n <= width / ms + 1`. */
  predicate Fits(n: nat, ms: real, width: nat) {
    n > 0 ==> n as real * ms <= width as real + ms
  }

  lemma LastingFits(n: nat, ms: real, width: nat)
    requires n > 0 ==> Lasting(n - 1, ms) <= width as real
    ensures Fits(n, ms, width)
  {
    LastingIsProduct(n, ms);
  }

  /**
   * The rate bound, over every run: `n` starts in any window leave at least `n - 1` periods in it,
   * for the sweeper and, at ten minutes, for the logo search.
   */
  lemma StartsAreRare(o: Options, events: seq<Event>, cron: Cron, open: int, width: nat)
    requires Forward(events) && o.sweepEverySeconds >= 0.0 && cron != DailyImport
    ensures Fits(InWindow(Starts(Run(o, events).trace, cron), open, width), Period(o, cron), width)
  {
    PeriodsSpace(o, events, cron);
    StartsFit(Run(o, events).trace, cron, Period(o, cron), open, width);
  }

  lemma StartsFit(trace: seq<Mark>, cron: Cron, ms: real, open: int, width: nat)
    requires Spaced(Times(trace, cron), ms) && ms >= 0.0
    ensures Fits(InWindow(Starts(trace, cron), open, width), ms, width)
  {
    var starts, attempts := InWindow(Starts(trace, cron), open, width), InWindow(Times(trace, cron), open, width);
    WindowBound(Times(trace, cron), ms, open, width);
    StartsAreAttempts(trace, cron, open, width);
    FewerFit(starts, attempts, ms, width);
    LastingFits(starts, ms, width);
  }

  // ---- No slot is missed -------------------------------------------------------

  /** Ticks come at most `gap` milliseconds apart. */
  predicate Regular(events: seq<Event>, gap: nat) {
    events != [] ==>
      var before, last := events[..|events| - 1], events[|events| - 1];
      Regular(before, gap) &&
      (last.Tick? && LastTick(before).Some? ==> last.now <= LastTick(before).value + gap)
  }

  ghost predicate Close(times: seq<Instant>, ms: real) {
    forall i | 0 < i < |times| :: Since(times[i - 1], times[i]) < ms
  }

  lemma CloseMore(times: seq<Instant>, now: Instant, ms: real)
    requires Close(times, ms) && (times != [] ==> Since(times[|times| - 1], now) < ms)
    ensures Close(times + [now], ms)
  {
  }

  /** After a tick the last sweep was attempted less than a period ago. */
  ghost predicate Recent(o: Options, s: State) {
    s.ticked.Some? ==>
      s.lastSweep.Some? && Since(s.lastSweep.value, s.ticked.value) < o.sweepEverySeconds * 1000.0
  }

  lemma SweepRegular(times: seq<Instant>, last: Option<Instant>, ticked: Option<Instant>, now: Instant,
                     every: real, gap: nat)
    requires LastOf(times) == last && NotAfter(last, ticked) && NotAfter(ticked, Some(now))
    requires ticked.Some? ==> last.Some? && Since(last.value, ticked.value) < every && now <= ticked.value + gap
    requires Close(times, every + gap as real)
    ensures Close(times + [now], every + gap as real)
  {
    CloseMore(times, now, every + gap as real);
  }

  lemma TickRegular(o: Options, s: State, now: Instant, gap: nat)
    requires o.sweepEverySeconds > 0.0 && Recent(o, s) && NotAfter(s.ticked, Some(now))
    requires LastOf(Times(s.trace, Sweeper)) == s.lastSweep && NotAfter(s.lastSweep, s.ticked)
    requires s.ticked.Some? ==> now <= s.ticked.value + gap
    requires Close(Times(s.trace, Sweeper), o.sweepEverySeconds * 1000.0 + gap as real)
    ensures Recent(o, Ticked(o, s, now))
    ensures Close(Times(Ticked(o, s, now).trace, Sweeper), o.sweepEverySeconds * 1000.0 + gap as real)
  {
    TickSets(o, s, now);
    TickTimes(o, s, now, Sweeper);
    if SweepDue(o, s, now) {
      SweepRegular(Times(s.trace, Sweeper), s.lastSweep, s.ticked, now, o.sweepEverySeconds * 1000.0, gap);
    } else {
      Nothing(Times(s.trace, Sweeper));
    }
  }

  /**
   * Sweeps are attempted less than a period and a tick apart, and after each tick the last attempt
   * is less than a period ago. An attempt that finds the sweeper busy counts: it uses its slot.
   */
  lemma {:induction false} SweepsAreRegular(o: Options, events: seq<Event>, gap: nat)
    requires Forward(events) && Regular(events, gap) && o.sweepEverySeconds > 0.0
    ensures Close(Times(Run(o, events).trace, Sweeper), o.sweepEverySeconds * 1000.0 + gap as real)
    ensures Recent(o, Run(o, events))
  {
    if events != [] {
      var before, last := events[..|events| - 1], events[|events| - 1];
      SweepsAreRegular(o, before, gap);
      RunPaced(o, before);
      NextRegular(o, Run(o, before), last, gap);
    }
  }

  lemma NextRegular(o: Options, s: State, e: Event, gap: nat)
    requires o.sweepEverySeconds > 0.0 && Recent(o, s) && Paced(o, s)
    requires e.Tick? ==> NotAfter(s.ticked, Some(e.now)) && (s.ticked.Some? ==> e.now <= s.ticked.value + gap)
    requires Close(Times(s.trace, Sweeper), o.sweepEverySeconds * 1000.0 + gap as real)
    ensures Recent(o, Next(o, s, e))
    ensures Close(Times(Next(o, s, e).trace, Sweeper), o.sweepEverySeconds * 1000.0 + gap as real)
  {
    match e
    case Tick(now) => TickRegular(o, s, now, gap);
    case Settle(cron) => EndTimes(s.trace, cron, Sweeper);
  }

  // ---- The daily import --------------------------------------------------------

  function OnDay(times: seq<Instant>, day: int): nat {
    if times == [] then 0
    else OnDay(times[..|times| - 1], day) + if DayOf(times[|times| - 1]) == day then 1 else 0
  }

  /** A tick that may import: in the 20 hours of `day` from 04:00 UTC on. */
  predicate Opens(e: Event, day: int) {
    e.Tick? && day * 86_400_000 + 14_400_000 <= e.now < (day + 1) * 86_400_000
  }

  /** Day `n` is the `n`-th after 1 January 1970. */
  lemma DayIs(now: Instant, day: int)
    ensures DayOf(now) == day <==> day * 86_400_000 <= now < (day + 1) * 86_400_000
  {
  }

  lemma OpensWhen(now: Instant, day: int)
    ensures Opens(Tick(now), day) <==> UtcHours(now) >= 4 && DayOf(now) == day
  {
    DayIs(now, day);
  }

  /** Whether such a tick came, and if so whether the first one found no import in flight. */
  function FirstOpening(o: Options, events: seq<Event>, day: int): Option<bool> {
    if events == [] then None
    else
      var before, last := events[..|events| - 1], events[|events| - 1];
      var earlier := FirstOpening(o, before, day);
      if earlier.None? && Opens(last, day)
      then Some(DailyImport !in InFlight(Run(o, before).trace)) else earlier
  }

  lemma {:induction false} DailyLast(times: seq<Instant>, remembered: string, day: int)
    requires Daily(times, remembered)
    ensures OnDay(times, day) <= 1
    ensures times != [] && day >= DayOf(times[|times| - 1]) ==>
              (OnDay(times, day) == 1 <==> DayOf(times[|times| - 1]) == day)
    ensures times == [] || day > DayOf(times[|times| - 1]) ==> OnDay(times, day) == 0
  {
    if times != [] {
      var front := times[..|times| - 1];
      DailyLast(front, if front == [] then "" else UtcDay(front[|front| - 1]), day);
    }
  }

  lemma SameUtcDay(t: Instant, u: Instant)
    ensures UtcDay(t) == UtcDay(u) <==> DayOf(t) == DayOf(u)
    ensures UtcDay(t) != ""
  {
    IsoDayOrder(DayOf(t), DayOf(u));
    assert Read(UtcDay(t)).Some?;
  }

  /** The scheduler remembers today exactly when it has attempted today's import. */
  lemma RemembersToday(times: seq<Instant>, remembered: string, now: Instant)
    requires Daily(times, remembered) && NotAfter(LastOf(times), Some(now))
    ensures remembered == UtcDay(now) <==> OnDay(times, DayOf(now)) == 1
  {
    DailyLast(times, remembered, DayOf(now));
    SameUtcDay(now, now);
    if times != [] {
      SameUtcDay(times[|times| - 1], now);
    }
  }

  lemma OneMoreDay(times: seq<Instant>, t: Instant, day: int)
    ensures OnDay(times + [t], day) == OnDay(times, day) + if DayOf(t) == day then 1 else 0
  {
    assert (times + [t])[..|times|] == times;
  }

  lemma MaybeThatDay(times: seq<Instant>, t: Instant, there: bool, day: int)
    ensures OnDay(times + (if there then [t] else []), day)
            == OnDay(times, day) + if there && DayOf(t) == day then 1 else 0
  {
    if there {
      OneMoreDay(times, t, day);
    } else {
      assert times + [] == times;
    }
  }

  lemma ImportDueWhen(s: State, now: Instant, day: int)
    requires ImportsFit(s) && NotAfter(s.ticked, Some(now))
    ensures ImportDue(s, now) && DayOf(now) == day <==>
              Opens(Tick(now), day) && OnDay(Times(s.trace, DailyImport), day) == 0
  {
    OpensWhen(now, day);
    RemembersToday(Times(s.trace, DailyImport), s.lastImportDay, now);
    DailyLast(Times(s.trace, DailyImport), s.lastImportDay, day);
  }

  /** A tick adds to a day's attempts, and starts, exactly when it is the first that may import on it. */
  lemma TickImports(o: Options, s: State, now: Instant, day: int)
    requires ImportsFit(s) && NotAfter(s.ticked, Some(now))
    ensures var first := Opens(Tick(now), day) && OnDay(Times(s.trace, DailyImport), day) == 0;
            OnDay(Times(Ticked(o, s, now).trace, DailyImport), day)
              == OnDay(Times(s.trace, DailyImport), day) + (if first then 1 else 0) &&
            OnDay(Starts(Ticked(o, s, now).trace, DailyImport), day)
              == OnDay(Starts(s.trace, DailyImport), day) + (if first && DailyImport !in s.busy then 1 else 0)
  {
    ImportDueWhen(s, now, day);
    TickAdds(o, s, now, day);
  }

  lemma TickAdds(o: Options, s: State, now: Instant, day: int)
    ensures OnDay(Times(Ticked(o, s, now).trace, DailyImport), day)
            == OnDay(Times(s.trace, DailyImport), day) + (if ImportDue(s, now) && DayOf(now) == day then 1 else 0)
    ensures OnDay(Starts(Ticked(o, s, now).trace, DailyImport), day)
            == OnDay(Starts(s.trace, DailyImport), day)
               + (if ImportDue(s, now) && DailyImport !in s.busy && DayOf(now) == day then 1 else 0)
  {
    TickTimes(o, s, now, DailyImport);
    MaybeThatDay(Times(s.trace, DailyImport), now, ImportDue(s, now), day);
    MaybeThatDay(Starts(s.trace, DailyImport), now, ImportDue(s, now) && DailyImport !in s.busy, day);
  }

  /** `day` has seen the attempt and the start that `opening` calls for. */
  ghost predicate ImportedAs(s: State, day: int, opening: Option<bool>) {
    && OnDay(Times(s.trace, DailyImport), day) == (if opening.Some? then 1 else 0)
    && OnDay(Starts(s.trace, DailyImport), day) == (if opening == Some(true) then 1 else 0)
  }

  lemma NextImported(o: Options, s: State, e: Event, day: int, opening: Option<bool>)
    requires ImportsFit(s) && (e.Tick? ==> NotAfter(s.ticked, Some(e.now)))
    requires ImportedAs(s, day, opening)
    ensures ImportedAs(Next(o, s, e), day,
                       if opening.None? && Opens(e, day) then Some(DailyImport !in s.busy) else opening)
  {
    match e
    case Tick(now) => TickImports(o, s, now, day);
    case Settle(cron) => EndTimes(s.trace, cron, DailyImport);
  }

  /**
   * The daily import, over every run: on each UTC day it is attempted once if some tick came at
   * 04:00 or later and never otherwise, and that attempt starts it exactly when no import was still
   * in flight at the first such tick.
   */
  lemma {:induction false} OneImportADay(o: Options, events: seq<Event>, day: int)
    requires Forward(events)
    ensures ImportedAs(Run(o, events), day, FirstOpening(o, events, day))
  {
    if events != [] {
      var before, last := events[..|events| - 1], events[|events| - 1];
      OneImportADay(o, before, day);
      RunPaced(o, before);
      BusyIsInFlight(o, before);
      NextImported(o, Run(o, before), last, day, FirstOpening(o, before, day));
    }
  }
}
