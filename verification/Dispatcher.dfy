/**
 * Leases on an outbox row: any number of dispatchers, in this process or another, claim, run and
 * finish one event. Each step is one UPDATE of the row, so a run is an interleaving of steps.
 */
module Dispatcher {
  import opened Wrappers
  import opened Powers

  /** Milliseconds. */
  type Time = int

  const MAX_ATTEMPTS: nat := 8
  const LEASE_MS := 120_000

  function BackoffSeconds(attempts: nat): nat
    requires attempts >= 1
  {
    if 30 * Pow2(attempts - 1) < 3600 then 30 * Pow2(attempts - 1) else 3600
  }

  datatype Row = Row(
    processedAt: Option<Time>,
    failedAt: Option<Time>,
    attempts: nat,
    nextAttemptAt: Time,
    claimedUntil: Option<Time>,
    claimToken: Option<nat>,
    handledBy: seq<string>)

  function NewRow(now: Time): Row {
    Row(None, None, 0, now, None, None, [])
  }

  predicate Unfinished(row: Row) {
    row.processedAt.None? && row.failedAt.None?
  }

  predicate Unclaimed(row: Row, now: Time) {
    row.claimedUntil.None? || row.claimedUntil.value <= now
  }

  /** What the sweeper and the poller select. */
  predicate Due(row: Row, now: Time) {
    Unfinished(row) && row.nextAttemptAt <= now && Unclaimed(row, now)
  }

  /** What a dispatcher may claim. An event that never failed has no backoff to wait out, whatever its time says. */
  predicate Claimable(row: Row, now: Time) {
    Unfinished(row) && (row.attempts == 0 || row.nextAttemptAt <= now) && Unclaimed(row, now)
  }

  /** A dispatch that holds, or once held, a claim. */
  datatype Runner = Runner(
    token: Option<nat>,        // `None` when it is not fenced
    leaseEnd: Time,
    attempts: nat,
    handlers: seq<string>,     // every handler it has for this event
    pending: seq<string>,      // those it still has to run
    left: nat,                 // those it leaves to someone else
    failures: nat)

  datatype Result = Processed | Deferred | Retried(seconds: nat) | GivenUp | Lost

  datatype World = World(
    row: Row,
    now: Time,
    nextToken: nat,
    runners: map<nat, Runner>,
    results: seq<(nat, Result)>)

  datatype Step =
    | Tick(ms: nat)
    /** Runner `id` tries to claim with the clock reading `at`; `mine` are the handlers it may run. */
    | Claim(id: nat, fenced: bool, at: Time, handlers: seq<string>, mine: set<string>)
    /** Its next handler returned, and is marked on the row; or threw. */
    | Succeed(id: nat)
    | Fail(id: nat)
    /** All its handlers have run: it releases, finishes or reschedules the row. */
    | Conclude(id: nat, at: Time)
    /** An admin's "run it now" makes the row due. */
    | Force(at: Time)

  /** The names that are in `among` (`inside`), or those that are not, in order. */
  function Select(names: seq<string>, among: set<string>, inside: bool): (r: seq<string>)
    ensures forall h :: h in r <==> h in names && (h in among) == inside
  {
    if names == [] then []
    else
      var last := names[|names| - 1];
      assert names == names[..|names| - 1] + [last];
      Select(names[..|names| - 1], among, inside) + if (last in among) == inside then [last] else []
  }

  predicate Distinct(names: seq<string>) {
    forall i, j | 0 <= i < j < |names| :: names[i] != names[j]
  }

  lemma {:induction false} SelectDistinct(names: seq<string>, among: set<string>, inside: bool)
    requires Distinct(names)
    ensures Distinct(Select(names, among, inside))
  {
    if names != [] {
      var front, last := names[..|names| - 1], names[|names| - 1];
      SelectDistinct(front, among, inside);
      assert last !in front;
    }
  }

  /** A dispatch that has just claimed `row`: it runs what nobody has handled yet and is its own. */
  function NewRunner(row: Row, token: Option<nat>, at: Time, handlers: seq<string>, mine: set<string>): Runner {
    var unhandled := Select(handlers, set h | h in row.handledBy, false);
    Runner(token, at + LEASE_MS, row.attempts, handlers,
           Select(unhandled, mine, true), |Select(unhandled, mine, false)|, 0)
  }

  function ClaimStep(w: World, id: nat, fenced: bool, at: Time, handlers: seq<string>, mine: set<string>): World {
    if id in w.runners || at > w.now || !Distinct(handlers) || !Claimable(w.row, at) then w
    else
      var token := if fenced then Some(w.nextToken) else None;
      w.(row := w.row.(claimedUntil := Some(at + LEASE_MS), claimToken := token),
         nextToken := w.nextToken + 1,
         runners := w.runners[id := NewRunner(w.row, token, at, handlers, mine)])
  }

  /** The WHERE of every later update: fenced, the claim must still be this runner's own. */
  predicate Owned(row: Row, r: Runner) {
    r.token.None? || row.claimToken == r.token
  }

  function Leave(w: World, id: nat, row: Row, result: Result): World {
    w.(row := row, runners := w.runners - {id}, results := w.results + [(id, result)])
  }

  function SucceedStep(w: World, id: nat): World {
    if id !in w.runners || w.runners[id].pending == [] then w
    else
      var r := w.runners[id];
      if Owned(w.row, r) then
        w.(row := w.row.(handledBy := w.row.handledBy + [r.pending[0]]),
           runners := w.runners[id := r.(pending := r.pending[1..])])
      else Leave(w, id, w.row, Lost)
  }

  function FailStep(w: World, id: nat): World {
    if id !in w.runners || w.runners[id].pending == [] then w
    else
      var r := w.runners[id];
      w.(runners := w.runners[id := r.(pending := r.pending[1..], failures := r.failures + 1)])
  }

  /** The row as its holder `r` leaves it, and what it reports. */
  function Concluded(row: Row, r: Runner, at: Time): (Row, Result) {
    var free := row.(claimedUntil := None, claimToken := None);
    if r.failures == 0 && r.left > 0 then (free, Deferred)
    else if r.failures == 0 then (free.(processedAt := Some(at)), Processed)
    else
      var attempts := r.attempts + 1;
      if attempts >= MAX_ATTEMPTS then (free.(attempts := attempts, failedAt := Some(at)), GivenUp)
      else
        (free.(attempts := attempts, nextAttemptAt := at + BackoffSeconds(attempts) * 1000),
         Retried(BackoffSeconds(attempts)))
  }

  function ConcludeStep(w: World, id: nat, at: Time): World {
    if id !in w.runners || w.runners[id].pending != [] || at > w.now then w
    else
      var r := w.runners[id];
      if Owned(w.row, r) then
        var (row, result) := Concluded(w.row, r, at);
        Leave(w, id, row, result)
      else Leave(w, id, w.row, Lost)
  }

  function ForceStep(w: World, at: Time): World {
    if w.row.processedAt.Some? || !Unclaimed(w.row, at) || at > w.now then w
    else
      w.(row := w.row.(attempts := if w.row.failedAt.Some? then 0 else w.row.attempts,
                       failedAt := None, nextAttemptAt := at))
  }

  function Next(w: World, step: Step): World {
    match step
    case Tick(ms) => w.(now := w.now + ms)
    case Claim(id, fenced, at, handlers, mine) => ClaimStep(w, id, fenced, at, handlers, mine)
    case Succeed(id) => SucceedStep(w, id)
    case Fail(id) => FailStep(w, id)
    case Conclude(id, at) => ConcludeStep(w, id, at)
    case Force(at) => ForceStep(w, at)
  }

  function Start(now: Time): World {
    World(NewRow(now), now, 0, map[], [])
  }

  function Run(w: World, steps: seq<Step>): World {
    if steps == [] then w else Next(Run(w, steps[..|steps| - 1]), steps[|steps| - 1])
  }

  // ---- One step at a time ------------------------------------------------------

  /** 30 seconds after the first failure, twice as long after each other, and never more than an hour. */
  lemma BackoffDoubles(attempts: nat)
    requires attempts >= 1
    ensures BackoffSeconds(1) == 30
    ensures BackoffSeconds(attempts + 1) ==
            if 2 * BackoffSeconds(attempts) < 3600 then 2 * BackoffSeconds(attempts) else 3600
  {
    assert Pow2(1) == 2 * Pow2(0);
  }

  /** What is due: not finished, not before its time, and under nobody's lease. */
  lemma DueExactly(row: Row, now: Time)
    ensures Due(row, now) <==>
              && row.processedAt == None && row.failedAt == None && row.nextAttemptAt <= now
              && (row.claimedUntil == None || row.claimedUntil.value <= now)
  {
  }

  ghost predicate Free(w: World, id: nat, at: Time, handlers: seq<string>) {
    && id !in w.runners && at <= w.now && Distinct(handlers)
    && w.row.processedAt == None && w.row.failedAt == None
    && (w.row.attempts == 0 || w.row.nextAttemptAt <= at)
    && (w.row.claimedUntil == None || w.row.claimedUntil.value <= at)
  }

  /** A claim takes exactly a row that is free, for two minutes, with a token of its own if it is fenced. */
  lemma ClaimExactly(w: World, id: nat, fenced: bool, at: Time, handlers: seq<string>, mine: set<string>)
    ensures var t := Next(w, Claim(id, fenced, at, handlers, mine));
      if !Free(w, id, at, handlers) then t == w
      else
        && t.row == w.row.(claimedUntil := Some(at + 120_000), claimToken := if fenced then Some(w.nextToken) else None)
        && t.runners.Keys == w.runners.Keys + {id} && (forall i | i in w.runners :: t.runners[i] == w.runners[i])
        && t.nextToken == w.nextToken + 1 && t.now == w.now && t.results == w.results
  {
  }

  lemma LeftIs(row: Row, token: Option<nat>, at: Time, handlers: seq<string>, mine: set<string>)
    requires Distinct(handlers)
    ensures NewRunner(row, token, at, handlers, mine).left ==
            |set h | h in handlers && h !in row.handledBy && h !in mine|
  {
    var handled := set h | h in row.handledBy;
    var left := Select(Select(handlers, handled, false), mine, false);
    SelectDistinct(handlers, handled, false);
    SelectDistinct(Select(handlers, handled, false), mine, false);
    NamesSize(left);
    assert (set h | h in left) == set h | h in handlers && h !in row.handledBy && h !in mine;
  }

  lemma PendingIs(row: Row, token: Option<nat>, at: Time, handlers: seq<string>, mine: set<string>)
    ensures var pending := NewRunner(row, token, at, handlers, mine).pending;
      forall h :: h in pending <==> h in handlers && h !in row.handledBy && h in mine
  {
  }

  /** Its runner runs the handlers that nobody has handled and that are its own, and counts the others not handled. */
  lemma ClaimedExactly(w: World, id: nat, fenced: bool, at: Time, handlers: seq<string>, mine: set<string>)
    requires Free(w, id, at, handlers)
    ensures var r := Next(w, Claim(id, fenced, at, handlers, mine)).runners[id];
      && r.token == (if fenced then Some(w.nextToken) else None) && r.leaseEnd == at + 120_000
      && r.attempts == w.row.attempts && r.handlers == handlers && r.failures == 0
      && Distinct(r.pending)
      && (forall h :: h in r.pending <==> h in handlers && h !in w.row.handledBy && h in mine)
      && r.left == |set h | h in handlers && h !in w.row.handledBy && h !in mine|
  {
    var token := if fenced then Some(w.nextToken) else None;
    LeftIs(w.row, token, at, handlers, mine);
    PendingIs(w.row, token, at, handlers, mine);
    NewPending(w.row, token, at, handlers, mine);
    ClaimRuns(w, id, fenced, at, handlers, mine);
  }

  lemma ClaimRuns(w: World, id: nat, fenced: bool, at: Time, handlers: seq<string>, mine: set<string>)
    requires Free(w, id, at, handlers)
    ensures Next(w, Claim(id, fenced, at, handlers, mine)).runners[id]
            == NewRunner(w.row, if fenced then Some(w.nextToken) else None, at, handlers, mine)
  {
  }

  lemma {:induction false} NamesSize(names: seq<string>)
    requires Distinct(names)
    ensures |set h | h in names| == |names|
  {
    if names != [] {
      var front, last := names[..|names| - 1], names[|names| - 1];
      assert names == front + [last];
      NamesSize(front);
      assert last !in front;
      assert (set h | h in names) == (set h | h in front) + {last};
    }
  }

  /** Handlers run in the order they have. */
  lemma {:induction false} SelectJoins(a: seq<string>, b: seq<string>, among: set<string>, inside: bool)
    ensures Select(a + b, among, inside) == Select(a, among, inside) + Select(b, among, inside)
  {
    if b == [] {
      assert a + b == a;
    } else {
      assert (a + b)[..|a + b| - 1] == a + b[..|b| - 1];
      SelectJoins(a, b[..|b| - 1], among, inside);
    }
  }

  /** The runner's updates land: it has no token, or the one on the row. */
  predicate Lands(w: World, id: nat)
    requires id in w.runners
  {
    w.runners[id].token == None || w.runners[id].token == w.row.claimToken
  }

  /** The next handler returned: it is marked on the row, or the runner finds its lease lost and stops. */
  lemma SucceedExactly(w: World, id: nat)
    requires id in w.runners && w.runners[id].pending != []
    ensures var r := w.runners[id];
      Next(w, Succeed(id)) ==
        if Lands(w, id) then
          w.(row := w.row.(handledBy := w.row.handledBy + [r.pending[0]]),
             runners := w.runners[id := r.(pending := r.pending[1..])])
        else w.(runners := w.runners - {id}, results := w.results + [(id, Lost)])
  {
  }

  /** It threw: the runner counts a failure and goes on. */
  lemma FailExactly(w: World, id: nat)
    requires id in w.runners && w.runners[id].pending != []
    ensures var r := w.runners[id];
      Next(w, Fail(id)) ==
        w.(runners := w.runners[id := r.(pending := r.pending[1..], failures := r.failures + 1)])
  {
  }

  /**
   * A runner with nothing left to run ends. The event is processed exactly when no handler failed
   * and none is left to someone else, however often it failed before; it is handed on exactly when
   * none failed and some are left; otherwise it counts one failure more, and waits out the backoff
   * or, at eight, is given up on. In each case the row is free.
   */
  lemma ConcludeExactly(w: World, id: nat, at: Time)
    requires id in w.runners && w.runners[id].pending == [] && at <= w.now
    ensures var r, t := w.runners[id], Next(w, Conclude(id, at));
      var free := w.row.(claimedUntil := None, claimToken := None);
      && t.runners == w.runners - {id} && t.now == w.now && t.nextToken == w.nextToken
      && (if !Lands(w, id) then t.row == w.row && t.results == w.results + [(id, Lost)]
          else if r.failures == 0 && r.left == 0 then
            t.row == free.(processedAt := Some(at)) && t.results == w.results + [(id, Processed)]
          else if r.failures == 0 then t.row == free && t.results == w.results + [(id, Deferred)]
          else if r.attempts + 1 < 8 then
            && t.row == free.(attempts := r.attempts + 1,
                              nextAttemptAt := at + 1000 * BackoffSeconds(r.attempts + 1))
            && t.results == w.results + [(id, Retried(BackoffSeconds(r.attempts + 1)))]
          else
            && t.row == free.(attempts := r.attempts + 1, failedAt := Some(at))
            && t.results == w.results + [(id, GivenUp)])
  {
  }

  /** An admin's run makes due any row that is not processed and under nobody's lease; one given up on starts over. */
  lemma ForceExactly(w: World, at: Time)
    ensures var free := w.row.processedAt == None && at <= w.now &&
                        (w.row.claimedUntil == None || w.row.claimedUntil.value <= at);
      Next(w, Force(at)) ==
        if !free then w
        else w.(row := w.row.(attempts := if w.row.failedAt == None then w.row.attempts else 0,
                              failedAt := None, nextAttemptAt := at))
  {
  }

  // ---- Safety ----------------------------------------------------------------

  /** At most one running dispatcher holds a lease that is not over. */
  ghost predicate Exclusive(w: World) {
    forall i, j | i in w.runners && j in w.runners && i != j ::
      w.runners[i].leaseEnd <= w.now || w.runners[j].leaseEnd <= w.now
  }

  /** What nobody looking at the row may ever see broken. */
  ghost predicate Safe(w: World) {
    && Exclusive(w)
    && Distinct(w.row.handledBy)
    && !(w.row.processedAt.Some? && w.row.failedAt.Some?)
    && w.row.attempts <= MAX_ATTEMPTS
    && (w.row.failedAt.Some? <==> w.row.attempts == MAX_ATTEMPTS)
  }

  /** The runner that may still write: its token is on the row, or without one its lease is not over. */
  ghost predicate Holds(w: World, r: Runner) {
    if r.token.Some? then w.row.claimToken == r.token else w.now < r.leaseEnd
  }

  ghost predicate HolderFits(row: Row, r: Runner) {
    && row.claimedUntil == Some(r.leaseEnd) && row.claimToken == r.token
    && Unfinished(row)
    && row.attempts == r.attempts
    && Distinct(r.pending)
    && (forall h | h in r.pending :: h !in row.handledBy)
    && (r.failures == 0 && r.left == 0 ==> forall h | h in r.handlers :: h in row.handledBy || h in r.pending)
  }

  /** Every token is one that was handed out, whoever runs. */
  ghost predicate TokensIssued(w: World) {
    && (w.row.claimToken.Some? ==> w.row.claimToken.value < w.nextToken)
    && forall i | i in w.runners && w.runners[i].token.Some? :: w.runners[i].token.value < w.nextToken
  }

  ghost predicate OneHolder(w: World) {
    forall i, j | i in w.runners && j in w.runners && i != j :: !(Holds(w, w.runners[i]) && Holds(w, w.runners[j]))
  }

  ghost predicate RunnersFit(w: World) {
    forall i | i in w.runners ::
      if Holds(w, w.runners[i]) then HolderFits(w.row, w.runners[i]) else w.runners[i].leaseEnd <= w.now
  }

  ghost predicate RowFits(row: Row) {
    && Distinct(row.handledBy)
    && (!Unfinished(row) ==> row.claimToken.None? && row.claimedUntil.None?)
    && !(row.processedAt.Some? && row.failedAt.Some?)
    && row.attempts <= MAX_ATTEMPTS
    && (row.failedAt.Some? <==> row.attempts == MAX_ATTEMPTS)
  }

  /** What holds after every step, as long as nobody without a token writes once its lease is over. */
  ghost predicate Inv(w: World) {
    TokensIssued(w) && OneHolder(w) && RunnersFit(w) && RowFits(w.row)
  }

  lemma InvIsSafe(w: World)
    requires Inv(w)
    ensures Safe(w)
  {
    forall i, j | i in w.runners && j in w.runners && i != j
      ensures w.runners[i].leaseEnd <= w.now || w.runners[j].leaseEnd <= w.now
    {
      assert !(Holds(w, w.runners[i]) && Holds(w, w.runners[j]));
    }
  }

  /** A step is timely unless a runner without a token writes to the row after its lease. */
  predicate Timely(w: World, step: Step) {
    (step.Succeed? || step.Conclude?) && step.id in w.runners && w.runners[step.id].token.None? ==>
      w.now < w.runners[step.id].leaseEnd
  }

  ghost predicate TimelyRun(w: World, steps: seq<Step>) {
    forall k | 0 <= k < |steps| :: Timely(Run(w, steps[..k]), steps[k])
  }

  lemma ClaimOverrules(w: World, id: nat, fenced: bool, at: Time, handlers: seq<string>, mine: set<string>)
    requires Inv(w) && ClaimStep(w, id, fenced, at, handlers, mine) != w
    ensures forall i | i in w.runners ::
              w.runners[i].leaseEnd <= w.now && !Holds(ClaimStep(w, id, fenced, at, handlers, mine), w.runners[i])
  {
    forall i | i in w.runners
      ensures w.runners[i].leaseEnd <= w.now && !Holds(ClaimStep(w, id, fenced, at, handlers, mine), w.runners[i])
    {
      if Holds(w, w.runners[i]) {
        assert HolderFits(w.row, w.runners[i]);
      }
    }
  }

  /** A new runner that leaves none of its handlers to someone else runs every one not yet handled. */
  lemma NothingLeft(row: Row, token: Option<nat>, at: Time, handlers: seq<string>, mine: set<string>, h: string)
    requires NewRunner(row, token, at, handlers, mine).left == 0 && h in handlers
    ensures h in row.handledBy || h in NewRunner(row, token, at, handlers, mine).pending
  {
    var handled := set n | n in row.handledBy;
    assert h !in Select(Select(handlers, handled, false), mine, false);
  }

  lemma NewPending(row: Row, token: Option<nat>, at: Time, handlers: seq<string>, mine: set<string>)
    requires Distinct(handlers)
    ensures Distinct(NewRunner(row, token, at, handlers, mine).pending)
    ensures forall h | h in NewRunner(row, token, at, handlers, mine).pending :: h !in row.handledBy
  {
    var handled := set n | n in row.handledBy;
    SelectDistinct(handlers, handled, false);
    SelectDistinct(Select(handlers, handled, false), mine, true);
  }

  lemma NewRunnerFits(row: Row, token: Option<nat>, at: Time, handlers: seq<string>, mine: set<string>)
    requires Unfinished(row) && Distinct(handlers)
    ensures HolderFits(row.(claimedUntil := Some(at + LEASE_MS), claimToken := token),
                       NewRunner(row, token, at, handlers, mine))
  {
    var r := NewRunner(row, token, at, handlers, mine);
    NewPending(row, token, at, handlers, mine);
    forall h | h in handlers && r.left == 0 ensures h in row.handledBy || h in r.pending {
      NothingLeft(row, token, at, handlers, mine, h);
    }
  }

  lemma ClaimKeeps(w: World, id: nat, fenced: bool, at: Time, handlers: seq<string>, mine: set<string>)
    requires Inv(w)
    ensures Inv(ClaimStep(w, id, fenced, at, handlers, mine))
  {
    if ClaimStep(w, id, fenced, at, handlers, mine) != w {
      ClaimOverrules(w, id, fenced, at, handlers, mine);
      NewRunnerFits(w.row, if fenced then Some(w.nextToken) else None, at, handlers, mine);
    }
  }

  lemma SucceedKeeps(w: World, id: nat)
    requires Inv(w) && Timely(w, Succeed(id))
    ensures Inv(SucceedStep(w, id))
  {
    if id in w.runners && w.runners[id].pending != [] && Owned(w.row, w.runners[id]) {
      var r := w.runners[id];
      assert Holds(w, r) && HolderFits(w.row, r);
      assert r.pending == [r.pending[0]] + r.pending[1..];
      assert r.pending[0] in r.pending;
      forall i | i in w.runners && i != id ensures !Holds(w, w.runners[i]) {
      }
    }
  }

  lemma FailKeeps(w: World, id: nat)
    requires Inv(w)
    ensures Inv(FailStep(w, id))
  {
  }

  lemma ConcludeKeeps(w: World, id: nat, at: Time)
    requires Inv(w) && Timely(w, Conclude(id, at))
    ensures Inv(ConcludeStep(w, id, at))
  {
    if id in w.runners && w.runners[id].pending == [] && at <= w.now && Owned(w.row, w.runners[id]) {
      assert Holds(w, w.runners[id]) && HolderFits(w.row, w.runners[id]);
      forall i | i in w.runners && i != id ensures !Holds(w, w.runners[i]) {
      }
    }
  }

  lemma ForceKeeps(w: World, at: Time)
    requires Inv(w)
    ensures Inv(ForceStep(w, at))
  {
  }

  lemma TickKeeps(w: World, ms: nat)
    requires Inv(w)
    ensures Inv(Next(w, Tick(ms)))
  {
  }

  lemma NextKeeps(w: World, step: Step)
    requires Inv(w) && Timely(w, step)
    ensures Inv(Next(w, step))
  {
    match step
    case Tick(ms) => TickKeeps(w, ms);
    case Claim(id, fenced, at, handlers, mine) => ClaimKeeps(w, id, fenced, at, handlers, mine);
    case Succeed(id) => SucceedKeeps(w, id);
    case Fail(id) => FailKeeps(w, id);
    case Conclude(id, at) => ConcludeKeeps(w, id, at);
    case Force(at) => ForceKeeps(w, at);
  }

  lemma TimelyPrefix(w: World, steps: seq<Step>)
    requires steps != [] && TimelyRun(w, steps)
    ensures TimelyRun(w, steps[..|steps| - 1]) && Timely(Run(w, steps[..|steps| - 1]), steps[|steps| - 1])
  {
    var before := steps[..|steps| - 1];
    forall k | 0 <= k < |before| ensures Timely(Run(w, before[..k]), before[k]) {
      assert before[..k] == steps[..k];
    }
  }

  lemma {:induction false} TimelyRunsKeep(w: World, steps: seq<Step>)
    requires Inv(w) && TimelyRun(w, steps)
    ensures Inv(Run(w, steps))
  {
    if steps != [] {
      TimelyPrefix(w, steps);
      TimelyRunsKeep(w, steps[..|steps| - 1]);
      NextKeeps(Run(w, steps[..|steps| - 1]), steps[|steps| - 1]);
    }
  }

  /**
   * In any mix of dispatchers every interleaving is safe in which those without a token write only
   * within their leases.
   */
  lemma TimelyRunsAreSafe(now: Time, steps: seq<Step>)
    requires TimelyRun(Start(now), steps)
    ensures Safe(Run(Start(now), steps))
  {
    TimelyRunsKeep(Start(now), steps);
    InvIsSafe(Run(Start(now), steps));
  }

  predicate FencedStep(step: Step) {
    step.Claim? ==> step.fenced
  }

  ghost predicate AllFenced(w: World) {
    forall i | i in w.runners :: w.runners[i].token.Some?
  }

  lemma {:induction false} FencedStay(w: World, steps: seq<Step>)
    requires AllFenced(w) && forall i | 0 <= i < |steps| :: FencedStep(steps[i])
    ensures AllFenced(Run(w, steps))
  {
    if steps != [] {
      FencedStay(w, steps[..|steps| - 1]);
    }
  }

  lemma FencedAreTimely(w: World, steps: seq<Step>)
    requires AllFenced(w) && forall i | 0 <= i < |steps| :: FencedStep(steps[i])
    ensures TimelyRun(w, steps)
  {
    forall k | 0 <= k < |steps| ensures Timely(Run(w, steps[..k]), steps[k]) {
      FencedStay(w, steps[..k]);
    }
  }

  /** With fenced leases every interleaving of any number of dispatchers is safe, however late they are. */
  lemma FencedRunsKeep(now: Time, steps: seq<Step>)
    requires forall i | 0 <= i < |steps| :: FencedStep(steps[i])
    ensures Inv(Run(Start(now), steps)) && Safe(Run(Start(now), steps))
  {
    FencedAreTimely(Start(now), steps);
    TimelyRunsKeep(Start(now), steps);
    InvIsSafe(Run(Start(now), steps));
  }

  lemma RunThen(w: World, steps: seq<Step>, last: Step)
    ensures Run(w, steps + [last]) == Next(Run(w, steps), last)
  {
    assert (steps + [last])[..|steps|] == steps;
  }

  // ---- What fencing is for ---------------------------------------------------

  /**
   * A token that lost the row never gets it back, however fenced and unfenced dispatchers mix.
   */
  lemma {:induction false} OvertakenForGood(w: World, token: nat, steps: seq<Step>)
    requires TokensIssued(w) && token < w.nextToken && w.row.claimToken != Some(token)
    ensures TokensIssued(Run(w, steps)) && token < Run(w, steps).nextToken
    ensures Run(w, steps).row.claimToken != Some(token)
  {
    if steps != [] {
      OvertakenForGood(w, token, steps[..|steps| - 1]);
      StaysOvertaken(Run(w, steps[..|steps| - 1]), token, steps[|steps| - 1]);
    }
  }

  lemma StaysOvertaken(w: World, token: nat, step: Step)
    requires TokensIssued(w) && token < w.nextToken && w.row.claimToken != Some(token)
    ensures TokensIssued(Next(w, step)) && token < Next(w, step).nextToken
    ensures Next(w, step).row.claimToken != Some(token)
  {
  }

  /**
   * So none of its holder's updates lands from then on: after any further steps, its next one
   * leaves the row alone and, but for a handler's failure, which updates nothing, reports the loss.
   */
  lemma OvertakenChangesNothing(w: World, token: nat, steps: seq<Step>, step: Step)
    requires TokensIssued(w) && token < w.nextToken && w.row.claimToken != Some(token)
    requires step.Succeed? || step.Fail? || step.Conclude?
    requires step.id in Run(w, steps).runners && Run(w, steps).runners[step.id].token == Some(token)
    ensures var t := Run(w, steps);
            Next(t, step).row == t.row &&
            (Next(t, step) == t || step.Fail? || Next(t, step) == Leave(t, step.id, t.row, Lost))
  {
    OvertakenForGood(w, token, steps);
  }

  /**
   * `processed` is reported exactly when the update lands with no handler failed and none left, and
   * then every handler of the dispatcher is marked on the processed row.
   */
  lemma ProcessedIsTrue(w: World, id: nat, at: Time)
    requires Inv(w) && id in w.runners && w.runners[id].pending == [] && at <= w.now && Timely(w, Conclude(id, at))
    ensures var t := Next(w, Conclude(id, at));
            && |t.results| == |w.results| + 1 && t.results[|w.results|].0 == id
            && (t.results[|w.results|].1.Processed? <==>
                  Lands(w, id) && w.runners[id].failures == 0 && w.runners[id].left == 0)
            && (t.results[|w.results|].1.Processed? ==>
                  t.row.processedAt == Some(at) && forall h | h in w.runners[id].handlers :: h in t.row.handledBy)
  {
    ConcludeExactly(w, id, at);
    if Owned(w.row, w.runners[id]) {
      assert Holds(w, w.runners[id]) && HolderFits(w.row, w.runners[id]);
    }
  }

  lemma NobodyHolds(w: World)
    requires Inv(w) && !Unfinished(w.row)
    ensures forall i | i in w.runners :: !Holds(w, w.runners[i])
  {
  }

  lemma ProcessedStays(w: World, step: Step)
    requires Inv(w) && w.row.processedAt.Some? && Timely(w, step)
    ensures Next(w, step).row == w.row
  {
    NobodyHolds(w);
  }

  /** A processed row is final: no later timely step of any dispatcher, and no admin, changes it. */
  lemma {:induction false} ProcessedIsFinal(w: World, steps: seq<Step>)
    requires Inv(w) && w.row.processedAt.Some? && TimelyRun(w, steps)
    ensures Inv(Run(w, steps)) && Run(w, steps).row == w.row
  {
    if steps != [] {
      var t := Run(w, steps[..|steps| - 1]);
      TimelyPrefix(w, steps);
      ProcessedIsFinal(w, steps[..|steps| - 1]);
      NextKeeps(t, steps[|steps| - 1]);
      ProcessedStays(t, steps[|steps| - 1]);
    }
  }

  /** What a conclusion leaves due at once: only an event, whose time had come, with handlers left to someone else. */
  lemma DueAfterConclusion(w: World, id: nat, at: Time)
    requires Unfinished(w.row) && id in w.runners && w.runners[id].pending == [] && at <= w.now && Lands(w, id)
    ensures Due(Next(w, Conclude(id, at)).row, at) <==>
              w.runners[id].failures == 0 && w.runners[id].left > 0 && w.row.nextAttemptAt <= at
  {
    ConcludeExactly(w, id, at);
    assert BackoffSeconds(w.runners[id].attempts + 1) >= 1;
  }

  // ---- Without fencing -------------------------------------------------------

  /** Dispatcher `id` claims without a token, its lease runs out, and the next one claims the row after it. */
  function Takeover(id: nat, mail: string, fenced: bool, mine: set<string>): seq<Step> {
    [Claim(id, false, 0, [mail], mine), Tick(LEASE_MS), Claim(id + 1, fenced, LEASE_MS, [mail], {mail})]
  }

  lemma SelectMail(mail: string, among: set<string>, inside: bool)
    ensures Select([mail], among, inside) == if (mail in among) == inside then [mail] else []
    ensures Select([], among, inside) == []
  {
    assert [mail][..0] == [];
    assert Select([mail][..0], among, inside) == [];
  }

  function MailRunner(token: Option<nat>, at: Time, mail: string, mine: set<string>): Runner {
    Runner(token, at + LEASE_MS, 0, [mail], if mail in mine then [mail] else [], if mail in mine then 0 else 1, 0)
  }

  lemma ClaimsMail(mail: string, row: Row, token: Option<nat>, at: Time, mine: set<string>)
    requires row.handledBy == [] && row.attempts == 0
    ensures NewRunner(row, token, at, [mail], mine) == MailRunner(token, at, mail, mine)
  {
    var none := set h | h in row.handledBy;
    assert Select([mail], none, false) == [mail] by { SelectMail(mail, none, false); }
    SelectMail(mail, mine, false);
    SelectMail(mail, mine, true);
  }

  /** A row nobody has touched, claimed by a dispatcher that may run `mine`. */
  lemma ClaimMail(mail: string, w: World, id: nat, fenced: bool, mine: set<string>)
    requires w.row.handledBy == [] && w.row.attempts == 0 && id !in w.runners && Claimable(w.row, w.now)
    ensures var token := if fenced then Some(w.nextToken) else None;
      Next(w, Claim(id, fenced, w.now, [mail], mine)) ==
            w.(row := w.row.(claimedUntil := Some(w.now + LEASE_MS), claimToken := token),
               nextToken := w.nextToken + 1,
               runners := w.runners[id := MailRunner(token, w.now, mail, mine)])
  {
    ClaimsMail(mail, w.row, if fenced then Some(w.nextToken) else None, w.now, mine);
  }

  /** The row and the runners once the second dispatcher has taken over from the first. */
  function TakenOver(id: nat, mail: string, fenced: bool, mine: set<string>): World {
    var token := if fenced then Some(1) else None;
    World(NewRow(0).(claimedUntil := Some(2 * LEASE_MS), claimToken := token), LEASE_MS, 2,
          map[id := MailRunner(None, 0, mail, mine), id + 1 := MailRunner(token, LEASE_MS, mail, {mail})], [])
  }

  lemma RunThree(w: World, a: Step, b: Step, c: Step)
    ensures Run(w, [a, b, c]) == Next(Next(Next(w, a), b), c)
  {
    var steps := [a, b, c];
    assert steps[..1] == [] + [a] && steps[..2] == steps[..1] + [b] && steps == steps[..2] + [c];
    RunThen(w, [], a);
    RunThen(w, steps[..1], b);
    RunThen(w, steps[..2], c);
  }

  /** The row under the first dispatcher, its lease over. */
  function Overdue(id: nat, mail: string, mine: set<string>): World {
    World(NewRow(0).(claimedUntil := Some(LEASE_MS)), LEASE_MS, 1, map[id := MailRunner(None, 0, mail, mine)], [])
  }

  lemma FirstClaims(id: nat, mail: string, mine: set<string>)
    ensures Next(Next(Start(0), Claim(id, false, 0, [mail], mine)), Tick(LEASE_MS)) == Overdue(id, mail, mine)
  {
    ClaimMail(mail, Start(0), id, false, mine);
    assert map[][id := MailRunner(None, 0, mail, mine)] == map[id := MailRunner(None, 0, mail, mine)];
  }

  lemma SecondClaims(id: nat, mail: string, fenced: bool, mine: set<string>)
    ensures Next(Overdue(id, mail, mine), Claim(id + 1, fenced, LEASE_MS, [mail], {mail}))
            == TakenOver(id, mail, fenced, mine)
  {
    ClaimMail(mail, Overdue(id, mail, mine), id + 1, fenced, {mail});
  }

  lemma TakeoverRun(id: nat, mail: string, fenced: bool, mine: set<string>)
    ensures Run(Start(0), Takeover(id, mail, fenced, mine)) == TakenOver(id, mail, fenced, mine)
  {
    RunThree(Start(0), Claim(id, false, 0, [mail], mine), Tick(LEASE_MS),
             Claim(id + 1, fenced, LEASE_MS, [mail], {mail}));
    FirstClaims(id, mail, mine);
    SecondClaims(id, mail, fenced, mine);
  }

  lemma RunThenTwo(w: World, steps: seq<Step>, a: Step, b: Step)
    ensures Run(w, steps + [a, b]) == Next(Next(Run(w, steps), a), b)
  {
    assert steps + [a, b] == (steps + [a]) + [b];
    RunThen(w, steps, a);
    RunThen(w, steps + [a], b);
  }

  lemma FreedByTheFirst(id: nat, mail: string, fenced: bool)
    ensures var w := Next(TakenOver(id, mail, fenced, {}), Conclude(id, 0));
            w.row == NewRow(0) && w.now == LEASE_MS && id !in w.runners && id + 2 !in w.runners &&
            id + 1 in w.runners && w.runners[id + 1].leaseEnd == 2 * LEASE_MS
  {
  }

  lemma ThirdClaims(w: World, id: nat, mail: string, fenced: bool)
    requires w.row == NewRow(0) && w.now == LEASE_MS && id + 2 !in w.runners
    requires id + 1 in w.runners && w.runners[id + 1].leaseEnd == 2 * LEASE_MS
    ensures var t := Next(w, Claim(id + 2, fenced, LEASE_MS, [mail], {mail}));
            id + 1 in t.runners && id + 2 in t.runners &&
            t.now < t.runners[id + 1].leaseEnd && t.now < t.runners[id + 2].leaseEnd
  {
    ClaimMail(mail, w, id + 2, fenced, {mail});
  }

  /**
   * Its lease over, one dispatcher without a token still frees the row under the second, and a
   * third claims it: two leases at once, whether the other two are fenced or not.
   */
  lemma UnfencedSharesTheLease(id: nat, mail: string, fenced: bool)
    ensures var steps := Takeover(id, mail, fenced, {}) +
                         [Conclude(id, 0), Claim(id + 2, fenced, LEASE_MS, [mail], {mail})];
            var w := Run(Start(0), steps);
            id + 1 in w.runners && id + 2 in w.runners &&
            w.now < w.runners[id + 1].leaseEnd && w.now < w.runners[id + 2].leaseEnd
  {
    RunThenTwo(Start(0), Takeover(id, mail, fenced, {}), Conclude(id, 0),
               Claim(id + 2, fenced, LEASE_MS, [mail], {mail}));
    TakeoverRun(id, mail, fenced, {});
    FreedByTheFirst(id, mail, fenced);
    ThirdClaims(Next(TakenOver(id, mail, fenced, {}), Conclude(id, 0)), id, mail, fenced);
  }

  /** Nothing stops a dispatcher without a token, or with the one on the row, from marking its one handler. */
  lemma MarksAnyway(w: World, id: nat, name: string)
    requires id in w.runners && Owned(w.row, w.runners[id]) && w.runners[id].pending == [name]
    ensures Next(w, Succeed(id)) ==
            w.(row := w.row.(handledBy := w.row.handledBy + [name]),
               runners := w.runners[id := w.runners[id].(pending := [])])
  {
    assert w.runners[id].pending[1..] == [];
  }

  /** Both mark the same handler. */
  lemma UnfencedRunsTwice(id: nat, mail: string, fenced: bool)
    ensures Run(Start(0), Takeover(id, mail, fenced, {mail}) + [Succeed(id), Succeed(id + 1)]).row.handledBy
            == [mail, mail]
  {
    var w := TakenOver(id, mail, fenced, {mail});
    TakeoverRun(id, mail, fenced, {mail});
    MarksAnyway(w, id, mail);
    MarksAnyway(Next(w, Succeed(id)), id + 1, mail);
    assert [] + [mail] + [mail] == [mail, mail];
    RunThenTwo(Start(0), Takeover(id, mail, fenced, {mail}), Succeed(id), Succeed(id + 1));
  }

  /** The second dispatcher processes the event, while the first still has its handler to run. */
  lemma SecondProcesses(id: nat, mail: string, fenced: bool)
    ensures var w := Next(Next(TakenOver(id, mail, fenced, {mail}), Succeed(id + 1)), Conclude(id + 1, LEASE_MS));
            w.now == LEASE_MS && w.row == NewRow(0).(processedAt := Some(LEASE_MS), handledBy := [mail]) &&
            id in w.runners && w.runners[id] == MailRunner(None, 0, mail, {mail})
  {
    MarksAnyway(TakenOver(id, mail, fenced, {mail}), id + 1, mail);
    assert [] + [mail] == [mail];
  }

  lemma FirstFails(w: World, id: nat, mail: string)
    requires w.now == LEASE_MS && w.row == NewRow(0).(processedAt := Some(LEASE_MS), handledBy := [mail])
    requires id in w.runners && w.runners[id] == MailRunner(None, 0, mail, {mail})
    ensures var t := Next(Next(w, Fail(id)), Conclude(id, 0));
            t.row.processedAt == w.row.processedAt && t.row.attempts == 1
  {
  }

  /** The second processes the event; the first then counts a failure on the processed row. */
  lemma UnfencedReopens(id: nat, mail: string, fenced: bool)
    ensures var steps := Takeover(id, mail, fenced, {mail}) + [Succeed(id + 1), Conclude(id + 1, LEASE_MS)];
            var w := Run(Start(0), steps);
            var t := Run(Start(0), steps + [Fail(id), Conclude(id, 0)]);
            w.row.processedAt.Some? && w.row.attempts == 0 &&
            t.row.processedAt == w.row.processedAt && t.row.attempts == 1
  {
    var takeover := Takeover(id, mail, fenced, {mail});
    TakeoverRun(id, mail, fenced, {mail});
    SecondProcesses(id, mail, fenced);
    var steps := takeover + [Succeed(id + 1), Conclude(id + 1, LEASE_MS)];
    RunThenTwo(Start(0), takeover, Succeed(id + 1), Conclude(id + 1, LEASE_MS));
    FirstFails(Run(Start(0), steps), id, mail);
    RunThenTwo(Start(0), steps, Fail(id), Conclude(id, 0));
  }

  /** Only dispatchers in `unfenced` claim without a token. */
  ghost predicate Fleet(steps: seq<Step>, unfenced: iset<nat>) {
    forall i | 0 <= i < |steps| :: steps[i].Claim? && !steps[i].fenced ==> steps[i].id in unfenced
  }

  /** A run with one dispatcher without a token, and two with one, in which two leases overlap. */
  function Overlap(id: nat): seq<Step> {
    Takeover(id, "", true, {}) + [Conclude(id, 0), Claim(id + 2, true, LEASE_MS, [""], {""})]
  }

  lemma Overlaps(id: nat)
    ensures !Safe(Run(Start(0), Overlap(id)))
  {
    UnfencedSharesTheLease(id, "", true);
    var w := Run(Start(0), Overlap(id));
    assert id + 1 in w.runners && id + 2 in w.runners;
    assert !Exclusive(w);
  }

  lemma OverlapFleet(id: nat, unfenced: iset<nat>)
    requires id in unfenced
    ensures Fleet(Overlap(id), unfenced)
  {
  }

  lemma OneIsEnough(id: nat, unfenced: iset<nat>)
    requires id in unfenced
    ensures exists steps: seq<Step> :: Fleet(steps, unfenced) && !Safe(Run(Start(0), steps))
  {
    OverlapFleet(id, unfenced);
    Overlaps(id);
  }

  /** Every run of a fleet is safe if and only if all its dispatchers are fenced: one without a token is enough. */
  lemma SafeExactlyWhenFenced(unfenced: iset<nat>)
    ensures (forall now: Time, steps: seq<Step> | Fleet(steps, unfenced) :: Safe(Run(Start(now), steps)))
            <==> unfenced == iset{}
  {
    if unfenced == iset{} {
      forall now: Time, steps: seq<Step> | Fleet(steps, unfenced) ensures Safe(Run(Start(now), steps)) {
        FencedRunsKeep(now, steps);
      }
    } else {
      var id :| id in unfenced;
      OneIsEnough(id, unfenced);
    }
  }
}
