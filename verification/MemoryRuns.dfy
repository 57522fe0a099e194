/**
 * Whole runs of the in-process transport: any interleaving of sends, clock advances and drains
 * that do not overlap, with any executor, which may itself send and advance while it runs.
 */
module MemoryRuns {
  import opened Transport
  import opened MemoryTransport

  datatype Op = Send(ref: JobRef, delaySeconds: real) | Wait(seconds: real) | Drain

  function Step(bus: Bus, s: State, op: Op): State {
    match op
    case Send(ref, delaySeconds) => Enqueue(s, ref, delaySeconds)
    case Wait(seconds) => Advance(s, seconds)
    case Drain => Drained(bus, s)
  }

  function Run(bus: Bus, s: State, ops: seq<Op>): State {
    if ops == [] then s else Step(bus, Run(bus, s, ops[..|ops| - 1]), ops[|ops| - 1])
  }

  // ---- The invariant -------------------------------------------------------

  /** How many deliveries a message may get: the first one always happens. */
  function Cap(policy: Policy): (cap: nat) {
    if policy.maxAttempts < 1 then 1 else policy.maxAttempts
  }

  predicate AllAskAgain(answers: seq<Answer>) {
    forall i | 0 <= i < |answers| :: AsksAgain(answers[i])
  }

  predicate Waiting(bus: Bus, e: Entry) {
    && e.attempt == |e.answers| < Cap(bus.policy)
    && AllAskAgain(e.answers)
    && (e.answers != [] ==> Supported(e.ref))
  }

  /** Acknowledged on the first explicit `done`, within the cap. */
  predicate RightlyAcked(bus: Bus, a: Acked) {
    && Supported(a.ref) && 1 <= |a.answers| <= Cap(bus.policy)
    && AllAskAgain(a.answers[..|a.answers| - 1])
    && a.answers[|a.answers| - 1] == Returns(Done)
  }

  /** The three ways, and the only ways, to end among the dead letters. */
  predicate UnreadableVersion(b: Buried) {
    !Supported(b.ref) && b.answers == [] && b.reason == Unsupported(b.ref)
  }

  predicate ToldToFail(bus: Bus, b: Buried) {
    && Supported(b.ref) && 1 <= |b.answers| <= Cap(bus.policy)
    && AllAskAgain(b.answers[..|b.answers| - 1])
    && b.answers[|b.answers| - 1] == Returns(Failed(b.reason))
  }

  predicate WoreOut(bus: Bus, b: Buried) {
    && Supported(b.ref) && |b.answers| == Cap(bus.policy) && AllAskAgain(b.answers)
    && b.reason == GaveUp(Cap(bus.policy), ReasonOf(b.answers[|b.answers| - 1]))
  }

  predicate RightlyBuried(bus: Bus, b: Buried) {
    UnreadableVersion(b) || ToldToFail(bus, b) || WoreOut(bus, b)
  }

  /** What is counted over all messages: the copies of one reference, or the answers recorded. */
  datatype Count = Copies(of: JobRef) | Answers

  function Weigh(c: Count, ref: JobRef, answers: seq<Answer>): nat {
    match c
    case Copies(of) => if ref == of then 1 else 0
    case Answers => |answers|
  }

  function Waitings(c: Count, queue: seq<Entry>): nat {
    if queue == [] then 0
    else var e := queue[|queue| - 1]; Waitings(c, queue[..|queue| - 1]) + Weigh(c, e.ref, e.answers)
  }

  function Ackeds(c: Count, done: seq<Acked>): nat {
    if done == [] then 0
    else var a := done[|done| - 1]; Ackeds(c, done[..|done| - 1]) + Weigh(c, a.ref, a.answers)
  }

  function Burieds(c: Count, dead: seq<Buried>): nat {
    if dead == [] then 0
    else var b := dead[|dead| - 1]; Burieds(c, dead[..|dead| - 1]) + Weigh(c, b.ref, b.answers)
  }

  function Sents(c: Count, s: State): nat {
    match c
    case Copies(of) => multiset(s.sent)[of]
    case Answers => s.calls
  }

  /**
   * What was sent, less what is waiting, acknowledged and dead (`hand` are messages a drain has
   * taken but not delivered yet); or the executor's calls, less the answers recorded on messages.
   */
  function Missing(c: Count, s: State, hand: seq<Entry>): int {
    Sents(c, s) - Waitings(c, hand) - Waitings(c, s.queue) - Ackeds(c, s.done) - Burieds(c, s.dead)
  }

  ghost predicate Fates(bus: Bus, s: State, hand: seq<Entry>) {
    && (forall i | 0 <= i < |hand| :: Waiting(bus, hand[i]))
    && (forall i | 0 <= i < |s.queue| :: Waiting(bus, s.queue[i]))
    && (forall i | 0 <= i < |s.done| :: RightlyAcked(bus, s.done[i]))
    && (forall i | 0 <= i < |s.dead| :: RightlyBuried(bus, s.dead[i]))
  }

  // ---- Conservation --------------------------------------------------------

  lemma OneMoreWaiting(c: Count, queue: seq<Entry>, e: Entry)
    ensures Waitings(c, queue + [e]) == Waitings(c, queue) + Weigh(c, e.ref, e.answers)
  {
    assert (queue + [e])[..|queue|] == queue;
  }

  lemma OneMoreAcked(c: Count, done: seq<Acked>, a: Acked)
    ensures Ackeds(c, done + [a]) == Ackeds(c, done) + Weigh(c, a.ref, a.answers)
  {
    assert (done + [a])[..|done|] == done;
  }

  lemma OneMoreBuried(c: Count, dead: seq<Buried>, b: Buried)
    ensures Burieds(c, dead + [b]) == Burieds(c, dead) + Weigh(c, b.ref, b.answers)
  {
    assert (dead + [b])[..|dead|] == dead;
  }

  lemma {:induction false} FirstWaiting(c: Count, hand: seq<Entry>)
    requires hand != []
    ensures Waitings(c, hand) == Weigh(c, hand[0].ref, hand[0].answers) + Waitings(c, hand[1..])
  {
    if |hand| > 1 {
      FirstWaiting(c, hand[..|hand| - 1]);
      assert hand[1..][..|hand| - 2] == hand[..|hand| - 1][1..];
    }
  }

  lemma PerformConserves(c: Count, s: State, hand: seq<Entry>, effect: Effect)
    ensures Missing(c, Perform(s, effect), hand) == Missing(c, s, hand)
  {
    if effect.Enqueues? {
      OneMoreWaiting(c, s.queue, Entry(effect.ref, 0, s.clock + effect.delaySeconds * 1000.0, []));
    }
  }

  lemma {:induction false} PerformAllConserves(c: Count, s: State, hand: seq<Entry>, effects: seq<Effect>)
    ensures Missing(c, PerformAll(s, effects), hand) == Missing(c, s, hand)
  {
    if effects != [] {
      var before := effects[..|effects| - 1];
      PerformAllConserves(c, s, hand, before);
      PerformConserves(c, PerformAll(s, before), hand, effects[|effects| - 1]);
    }
  }

  lemma RecordConserves(c: Count, s: State, hand: seq<Entry>, v: Verdict)
    requires hand != []
    ensures Missing(c, Record(s, hand[0], v), hand[1..])
            == Missing(c, s, hand) - if c.Answers? && v.reply.Some? then 1 else 0
  {
    var e := hand[0];
    var answers := Heard(e.answers, v);
    FirstWaiting(c, hand);
    match v.outcome
    case Done => OneMoreAcked(c, s.done, Acked(e.ref, answers));
    case Retry(afterSeconds, _) =>
      OneMoreWaiting(c, s.queue, Entry(e.ref, e.attempt + 1, s.clock + afterSeconds * 1000.0, answers));
    case Failed(reason) => OneMoreBuried(c, s.dead, Buried(e.ref, reason, answers));
  }

  lemma RanConserves(c: Count, s: State, hand: seq<Entry>, v: Verdict)
    ensures Missing(c, Ran(s, v), hand) == Missing(c, s, hand) + if c.Answers? && v.reply.Some? then 1 else 0
  {
    if v.reply.Some? {
      PerformAllConserves(c, s.(calls := s.calls + 1), hand, v.reply.value.effects);
    }
  }

  lemma DeliverConserves(c: Count, bus: Bus, s: State, hand: seq<Entry>)
    requires hand != []
    ensures Missing(c, Deliver(bus, s, hand[0]), hand[1..]) == Missing(c, s, hand)
  {
    var v := SettleEntry(bus, s, hand[0]);
    RanConserves(c, s, hand, v);
    RecordConserves(c, Ran(s, v), hand, v);
  }

  lemma {:induction false} DeliverAllConserves(c: Count, bus: Bus, s: State, due: seq<Entry>, n: nat)
    requires n <= |due|
    ensures Missing(c, DeliverAll(bus, s, due[..n]), due[n..]) == Missing(c, s, due)
  {
    if n == 0 {
      assert due[0..] == due;
    } else {
      DeliverAllConserves(c, bus, s, due, n - 1);
      DeliverConserves(c, bus, DeliverAll(bus, s, due[..n - 1]), due[n - 1..]);
      assert due[..n][..n - 1] == due[..n - 1];
      assert due[n - 1..][1..] == due[n..];
    }
  }

  /** Taking the due messages off the queue splits it in two and loses none. */
  lemma {:induction false} PickSplits(c: Count, queue: seq<Entry>, clock: real)
    ensures Waitings(c, Pick(queue, clock, true)) + Waitings(c, Pick(queue, clock, false)) == Waitings(c, queue)
  {
    if queue != [] {
      var front, last := queue[..|queue| - 1], queue[|queue| - 1];
      PickSplits(c, front, clock);
      if last.visibleAt <= clock {
        OneMoreWaiting(c, Pick(front, clock, true), last);
        assert Pick(queue, clock, false) == Pick(front, clock, false);
      } else {
        OneMoreWaiting(c, Pick(front, clock, false), last);
        assert Pick(queue, clock, true) == Pick(front, clock, true);
      }
    }
  }

  lemma AllConserve(c: Count, bus: Bus, s: State, due: seq<Entry>)
    ensures Missing(c, DeliverAll(bus, s, due), []) == Missing(c, s, due)
  {
    DeliverAllConserves(c, bus, s, due, |due|);
    assert due[..|due|] == due && due[|due|..] == [];
  }

  lemma TakingConserves(c: Count, s: State)
    ensures Missing(c, WithoutDue(s), Due(s)) == Missing(c, s, [])
  {
    PickSplits(c, s.queue, s.clock);
  }

  lemma StepConserves(c: Count, bus: Bus, s: State, op: Op)
    ensures Missing(c, Step(bus, s, op), []) == Missing(c, s, [])
  {
    match op
    case Send(ref, delaySeconds) => PerformConserves(c, s, [], Enqueues(ref, delaySeconds));
    case Wait(seconds) =>
    case Drain =>
      TakingConserves(c, s);
      AllConserve(c, bus, WithoutDue(s), Due(s));
  }

  /**
   * Conservation, over every run: each reference was sent exactly as often as it is waiting,
   * acknowledged or dead, and the executor was called once for each answer recorded on a message.
   */
  lemma {:induction false} NothingIsLost(c: Count, bus: Bus, ops: seq<Op>)
    ensures Missing(c, Run(bus, EMPTY, ops), []) == 0
  {
    if ops != [] {
      var before := ops[..|ops| - 1];
      NothingIsLost(c, bus, before);
      StepConserves(c, bus, Run(bus, EMPTY, before), ops[|ops| - 1]);
    }
  }

  // ---- Attempt bound and dead letters ---------------------------------------

  lemma {:induction false} PerformAllFates(bus: Bus, s: State, hand: seq<Entry>, effects: seq<Effect>)
    requires Fates(bus, s, hand)
    ensures Fates(bus, PerformAll(s, effects), hand)
  {
    if effects != [] {
      PerformAllFates(bus, s, hand, effects[..|effects| - 1]);
    }
  }

  lemma RecordFates(bus: Bus, s: State, hand: seq<Entry>, v: Verdict, turn: nat)
    requires hand != [] && Fates(bus, s, hand)
    requires v == Settle(hand[0].ref, bus.executor, turn, hand[0].attempt + 1, bus.policy)
    ensures Fates(bus, Record(s, hand[0], v), hand[1..])
  {
    var e := hand[0];
    var answers := Heard(e.answers, v);
    assert Waiting(bus, e);
    if v.reply.Some? {
      assert answers[..|answers| - 1] == e.answers;
    }
    match v.outcome
    case Done => assert RightlyAcked(bus, Acked(e.ref, answers));
    case Retry(afterSeconds, _) =>
    case Failed(reason) => assert RightlyBuried(bus, Buried(e.ref, reason, answers));
  }

  lemma DeliverFates(bus: Bus, s: State, hand: seq<Entry>)
    requires hand != [] && Fates(bus, s, hand)
    ensures Fates(bus, Deliver(bus, s, hand[0]), hand[1..])
  {
    var v := SettleEntry(bus, s, hand[0]);
    if v.reply.Some? {
      PerformAllFates(bus, s.(calls := s.calls + 1), hand, v.reply.value.effects);
    }
    RecordFates(bus, Ran(s, v), hand, v, s.calls);
  }

  lemma {:induction false} DeliverAllFates(bus: Bus, s: State, due: seq<Entry>, n: nat)
    requires n <= |due| && Fates(bus, s, due)
    ensures Fates(bus, DeliverAll(bus, s, due[..n]), due[n..])
  {
    if n > 0 {
      DeliverAllFates(bus, s, due, n - 1);
      DeliverFates(bus, DeliverAll(bus, s, due[..n - 1]), due[n - 1..]);
      assert due[..n][..n - 1] == due[..n - 1];
      assert due[n - 1..][1..] == due[n..];
    }
  }

  lemma DrainFates(bus: Bus, s: State)
    requires Fates(bus, s, [])
    ensures Fates(bus, Drained(bus, s), [])
  {
    TakingFates(bus, s);
    AllFates(bus, WithoutDue(s), Due(s));
  }

  lemma TakingFates(bus: Bus, s: State)
    requires Fates(bus, s, [])
    ensures Fates(bus, WithoutDue(s), Due(s))
  {
    forall e | e in Due(s) || e in WithoutDue(s).queue ensures Waiting(bus, e) {
      assert e in s.queue;
    }
  }

  lemma AllFates(bus: Bus, s: State, due: seq<Entry>)
    requires Fates(bus, s, due)
    ensures Fates(bus, DeliverAll(bus, s, due), [])
  {
    DeliverAllFates(bus, s, due, |due|);
    assert due[..|due|] == due && due[|due|..] == [];
  }

  lemma StepFates(bus: Bus, s: State, op: Op)
    requires Fates(bus, s, [])
    ensures Fates(bus, Step(bus, s, op), [])
  {
    if op.Drain? {
      DrainFates(bus, s);
    }
  }

  /**
   * The fates of messages, over every run: a waiting message is below the attempt cap and was never
   * answered `done` or `failed`; an acknowledged one was answered `done` exactly once, last; a dead
   * one died of an unreadable version without a call, of an explicit `failed`, or of as many
   * requests to try again as the cap allows.
   */
  lemma {:induction false} EveryFate(bus: Bus, ops: seq<Op>)
    ensures Fates(bus, Run(bus, EMPTY, ops), [])
  {
    if ops != [] {
      EveryFate(bus, ops[..|ops| - 1]);
      StepFates(bus, Run(bus, EMPTY, ops[..|ops| - 1]), ops[|ops| - 1]);
    }
  }

  // ---- Termination ----------------------------------------------------------

  /** Deliveries the waiting messages may still get. */
  function Budget(policy: Policy, queue: seq<Entry>): int {
    if queue == [] then 0
    else Budget(policy, queue[..|queue| - 1]) + Cap(policy) - queue[|queue| - 1].attempt
  }

  /** The executor never puts anything on the transport itself. */
  ghost predicate Quiet(executor: Executor) {
    forall turn, ref, i | 0 <= i < |executor(turn, ref).effects| :: executor(turn, ref).effects[i].Advances?
  }

  /** How many messages the drains of a run deliver, in all. */
  function Deliveries(bus: Bus, s: State, ops: seq<Op>): nat {
    if ops == [] then 0
    else
      var before := ops[..|ops| - 1];
      Deliveries(bus, s, before) + if ops[|ops| - 1].Drain? then |Due(Run(bus, s, before))| else 0
  }

  function Drains(ops: seq<Op>): nat {
    if ops == [] then 0 else Drains(ops[..|ops| - 1]) + if ops[|ops| - 1].Drain? then 1 else 0
  }

  lemma BudgetGrows(policy: Policy, queue: seq<Entry>, e: Entry)
    ensures Budget(policy, queue + [e]) == Budget(policy, queue) + Cap(policy) - e.attempt
  {
    assert (queue + [e])[..|queue|] == queue;
  }

  lemma {:induction false} BudgetSplits(policy: Policy, queue: seq<Entry>, clock: real)
    ensures Budget(policy, Pick(queue, clock, true)) + Budget(policy, Pick(queue, clock, false))
            == Budget(policy, queue)
  {
    if queue != [] {
      var front, last := queue[..|queue| - 1], queue[|queue| - 1];
      BudgetSplits(policy, front, clock);
      if last.visibleAt <= clock {
        BudgetGrows(policy, Pick(front, clock, true), last);
        assert Pick(queue, clock, false) == Pick(front, clock, false);
      } else {
        BudgetGrows(policy, Pick(front, clock, false), last);
        assert Pick(queue, clock, true) == Pick(front, clock, true);
      }
    }
  }

  lemma {:induction false} BudgetCovers(bus: Bus, queue: seq<Entry>)
    requires forall i | 0 <= i < |queue| :: Waiting(bus, queue[i])
    ensures Budget(bus.policy, queue) >= |queue|
  {
    if queue != [] {
      BudgetCovers(bus, queue[..|queue| - 1]);
    }
  }

  lemma {:induction false} QuietPerforms(s: State, effects: seq<Effect>)
    requires forall i | 0 <= i < |effects| :: effects[i].Advances?
    ensures PerformAll(s, effects).queue == s.queue
  {
    if effects != [] {
      QuietPerforms(s, effects[..|effects| - 1]);
    }
  }

  lemma DeliverSpends(bus: Bus, s: State, e: Entry)
    requires Quiet(bus.executor) && Waiting(bus, e)
    ensures Budget(bus.policy, Deliver(bus, s, e).queue) + 1
            <= Budget(bus.policy, s.queue) + Cap(bus.policy) - e.attempt
  {
    var v := SettleEntry(bus, s, e);
    if v.reply.Some? {
      QuietPerforms(s.(calls := s.calls + 1), v.reply.value.effects);
    }
    var ran := Ran(s, v);
    if v.outcome.Retry? {
      BudgetGrows(bus.policy, ran.queue,
                  Entry(e.ref, e.attempt + 1, ran.clock + v.outcome.afterSeconds * 1000.0, Heard(e.answers, v)));
    }
  }

  lemma {:induction false} DeliverAllSpends(bus: Bus, s: State, due: seq<Entry>)
    requires Quiet(bus.executor) && forall i | 0 <= i < |due| :: Waiting(bus, due[i])
    ensures Budget(bus.policy, DeliverAll(bus, s, due).queue) + |due|
            <= Budget(bus.policy, s.queue) + Budget(bus.policy, due)
  {
    if due != [] {
      DeliverAllSpends(bus, s, due[..|due| - 1]);
      DeliverSpends(bus, DeliverAll(bus, s, due[..|due| - 1]), due[|due| - 1]);
    }
  }

  lemma DrainSpends(bus: Bus, s: State)
    requires Quiet(bus.executor) && Fates(bus, s, [])
    ensures Budget(bus.policy, Drained(bus, s).queue) + |Due(s)| <= Budget(bus.policy, s.queue)
  {
    BudgetSplits(bus.policy, s.queue, s.clock);
    DeliverAllSpends(bus, WithoutDue(s), Due(s));
  }

  /**
   * Termination: once nothing new is sent, every delivery of every later drain is paid for from a
   * budget fixed when the sending stopped, so there are only so many of them.
   */
  lemma {:induction false} DeliveriesEnd(bus: Bus, s: State, ops: seq<Op>)
    requires Quiet(bus.executor) && Fates(bus, s, [])
    requires forall i | 0 <= i < |ops| :: !ops[i].Send?
    ensures Fates(bus, Run(bus, s, ops), [])
    ensures Deliveries(bus, s, ops) + Budget(bus.policy, Run(bus, s, ops).queue) <= Budget(bus.policy, s.queue)
  {
    if ops != [] {
      var before := ops[..|ops| - 1];
      DeliveriesEnd(bus, s, before);
      StepFates(bus, Run(bus, s, before), ops[|ops| - 1]);
      if ops[|ops| - 1].Drain? {
        DrainSpends(bus, Run(bus, s, before));
      }
    }
  }

  /** Drains that each find something due, while anything is left, are at most as many as their deliveries. */
  lemma {:induction false} DrainsDeliver(bus: Bus, s: State, ops: seq<Op>)
    requires Quiet(bus.executor) && Fates(bus, s, [])
    requires forall i | 0 <= i < |ops| :: !ops[i].Send?
    requires forall k | 0 <= k < |ops| && ops[k].Drain? ::
               Run(bus, s, ops[..k]).queue == [] || Due(Run(bus, s, ops[..k])) != []
    ensures Run(bus, s, ops).queue == [] || Drains(ops) <= Deliveries(bus, s, ops)
  {
    if ops != [] {
      var last := |ops| - 1;
      var before := ops[..last];
      assert forall k | 0 <= k < last :: before[..k] == ops[..k];
      DrainsDeliver(bus, s, before);
      DeliveriesEnd(bus, s, before);
      var t := Run(bus, s, before);
      if t.queue == [] && ops[last].Drain? {
        DrainSpends(bus, t);
        StepFates(bus, t, ops[last]);
        BudgetCovers(bus, Drained(bus, t).queue);
      }
    }
  }

  /** The queue empties: that many drains, none of them idle while a message waits, leave nothing waiting. */
  lemma QueueEmpties(bus: Bus, s: State, ops: seq<Op>)
    requires Quiet(bus.executor) && Fates(bus, s, [])
    requires forall i | 0 <= i < |ops| :: !ops[i].Send?
    requires forall k | 0 <= k < |ops| && ops[k].Drain? ::
               Run(bus, s, ops[..k]).queue == [] || Due(Run(bus, s, ops[..k])) != []
    requires Drains(ops) >= Budget(bus.policy, s.queue)
    ensures Run(bus, s, ops).queue == []
  {
    DrainsDeliver(bus, s, ops);
    DeliveriesEnd(bus, s, ops);
    BudgetCovers(bus, Run(bus, s, ops).queue);
  }

  // ---- One drain ------------------------------------------------------------

  function Calls(due: seq<Entry>): nat {
    if due == [] then 0 else Calls(due[..|due| - 1]) + if Supported(due[|due| - 1].ref) then 1 else 0
  }

  /** `e` was sent by the executor during the drain, or is one of `due` after exactly one more answer. */
  ghost predicate Fresh(due: seq<Entry>, e: Entry) {
    || (e.attempt == 0 && e.answers == [])
    || exists j | 0 <= j < |due| ::
         e.ref == due[j].ref && e.attempt == due[j].attempt + 1 &&
         |e.answers| == |due[j].answers| + 1 && due[j].answers <= e.answers
  }

  lemma {:induction false} PerformAllAppends(s: State, effects: seq<Effect>)
    ensures PerformAll(s, effects).calls == s.calls
    ensures s.queue <= PerformAll(s, effects).queue
    ensures forall i | |s.queue| <= i < |PerformAll(s, effects).queue| ::
              PerformAll(s, effects).queue[i].attempt == 0 && PerformAll(s, effects).queue[i].answers == []
  {
    if effects != [] {
      PerformAllAppends(s, effects[..|effects| - 1]);
    }
  }

  lemma {:induction false} DeliverAllAppends(bus: Bus, s: State, due: seq<Entry>)
    ensures DeliverAll(bus, s, due).calls == s.calls + Calls(due)
    ensures s.queue <= DeliverAll(bus, s, due).queue
    ensures forall i | |s.queue| <= i < |DeliverAll(bus, s, due).queue| ::
              Fresh(due, DeliverAll(bus, s, due).queue[i])
  {
    if due != [] {
      var before, e := due[..|due| - 1], due[|due| - 1];
      DeliverAllAppends(bus, s, before);
      var t := DeliverAll(bus, s, before);
      var v := SettleEntry(bus, t, e);
      if v.reply.Some? {
        PerformAllAppends(t.(calls := t.calls + 1), v.reply.value.effects);
      }
      var after := DeliverAll(bus, s, due);
      forall i | |s.queue| <= i < |after.queue| ensures Fresh(due, after.queue[i]) {
        if i < |t.queue| {
          assert after.queue[i] == t.queue[i] && Fresh(before, t.queue[i]);
          if t.queue[i].attempt != 0 || t.queue[i].answers != [] {
            var j :| 0 <= j < |before| && t.queue[i].ref == before[j].ref &&
                     t.queue[i].attempt == before[j].attempt + 1 &&
                     |t.queue[i].answers| == |before[j].answers| + 1 && before[j].answers <= t.queue[i].answers;
            assert due[j] == before[j];
          }
        } else if i < |Ran(t, v).queue| {
          assert after.queue[i] == Ran(t, v).queue[i];
        } else {
          assert after.queue[i].ref == due[|due| - 1].ref;
        }
      }
    }
  }

  /**
   * One drain settles each message due at its start once: one outcome each, one executor call for
   * each readable one. What was not due stays in place and in order; what is behind it was sent
   * meanwhile or is a retried message, one delivery on.
   */
  lemma OneDrain(bus: Bus, s: State)
    ensures |Outcomes(bus, WithoutDue(s), Due(s))| == |Due(s)|
    ensures Drained(bus, s).calls == s.calls + Calls(Due(s))
    ensures WithoutDue(s).queue <= Drained(bus, s).queue
    ensures forall i | |WithoutDue(s).queue| <= i < |Drained(bus, s).queue| :: Fresh(Due(s), Drained(bus, s).queue[i])
  {
    DeliverAllAppends(bus, WithoutDue(s), Due(s));
  }

  // ---- When a message comes again -------------------------------------------

  /** The seconds that pass while an executor runs. */
  function Passed(effects: seq<Effect>): real {
    if effects == [] then 0.0
    else
      var last := effects[|effects| - 1];
      Passed(effects[..|effects| - 1]) + if last.Advances? then last.seconds else 0.0
  }

  lemma {:induction false} ClockPasses(s: State, effects: seq<Effect>)
    ensures PerformAll(s, effects).clock == s.clock + 1000.0 * Passed(effects)
  {
    if effects != [] {
      ClockPasses(s, effects[..|effects| - 1]);
    }
  }

  /** The answer asks for another delivery after `seconds`: in words, or by throwing with that backoff. */
  predicate AsksFor(policy: Policy, attempt: nat, answer: Answer, seconds: real) {
    match answer
    case Returns(outcome) => outcome.Retry? && outcome.afterSeconds == seconds
    case Throws(_) => policy.backoffSeconds(attempt) == seconds
  }

  /** The message that comes again, `seconds` after the clock as its own call left it. */
  function Again(bus: Bus, s: State, e: Entry, seconds: real): Entry {
    var reply := bus.executor(s.calls, e.ref);
    Entry(e.ref, e.attempt + 1, s.clock + 1000.0 * Passed(reply.effects) + 1000.0 * seconds, e.answers + [reply.answer])
  }

  /** A delivery below the cap that asks for `seconds` leaves the message waiting for just as long. */
  lemma DeliveryWaits(bus: Bus, s: State, e: Entry, seconds: real)
    requires Supported(e.ref) && e.attempt + 1 < bus.policy.maxAttempts
    requires AsksFor(bus.policy, e.attempt + 1, bus.executor(s.calls, e.ref).answer, seconds)
    ensures var queue := Deliver(bus, s, e).queue;
      queue != [] && queue[|queue| - 1] == Again(bus, s, e, seconds)
  {
    ClockPasses(s.(calls := s.calls + 1), bus.executor(s.calls, e.ref).effects);
  }

  lemma {:induction false} DeliverAllKeeps(bus: Bus, s: State, due: seq<Entry>, j: nat)
    requires j <= |due|
    ensures DeliverAll(bus, s, due[..j]).queue <= DeliverAll(bus, s, due).queue
  {
    if j == |due| {
      assert due[..j] == due;
    } else {
      var before := due[..|due| - 1];
      assert before[..j] == due[..j];
      DeliverAllKeeps(bus, s, before, j);
      DeliverKeeps(bus, DeliverAll(bus, s, before), due[|due| - 1]);
    }
  }

  lemma DeliverKeeps(bus: Bus, s: State, e: Entry)
    ensures s.queue <= Deliver(bus, s, e).queue
  {
    var v := SettleEntry(bus, s, e);
    if v.reply.Some? {
      PerformAllAppends(s.(calls := s.calls + 1), v.reply.value.effects);
    }
  }

  lemma RetryIsLast(bus: Bus, s: State, due: seq<Entry>, j: nat, seconds: real)
    requires j < |due| && Supported(due[j].ref) && due[j].attempt + 1 < bus.policy.maxAttempts
    requires var t := DeliverAll(bus, s, due[..j]);
      AsksFor(bus.policy, due[j].attempt + 1, bus.executor(t.calls, due[j].ref).answer, seconds)
    ensures var queue := DeliverAll(bus, s, due[..j + 1]).queue;
      queue != [] && queue[|queue| - 1] == Again(bus, DeliverAll(bus, s, due[..j]), due[j], seconds)
  {
    assert due[..j + 1][..j] == due[..j];
    DeliveryWaits(bus, DeliverAll(bus, s, due[..j]), due[j], seconds);
  }

  lemma LastIsIn<T>(front: seq<T>, whole: seq<T>)
    requires front != [] && front <= whole
    ensures front[|front| - 1] in whole
  {
    assert whole[|front| - 1] == front[|front| - 1];
  }

  /**
   * After a drain, a message due at its start whose call asked for `seconds`, below the cap, is on
   * the queue and due that long after its own call.
   */
  lemma RetriesWait(bus: Bus, s: State, j: nat, seconds: real)
    requires j < |Due(s)| && Supported(Due(s)[j].ref) && Due(s)[j].attempt + 1 < bus.policy.maxAttempts
    requires var t := DeliverAll(bus, WithoutDue(s), Due(s)[..j]);
      AsksFor(bus.policy, Due(s)[j].attempt + 1, bus.executor(t.calls, Due(s)[j].ref).answer, seconds)
    ensures Again(bus, DeliverAll(bus, WithoutDue(s), Due(s)[..j]), Due(s)[j], seconds) in Drained(bus, s).queue
  {
    RetryIsLast(bus, WithoutDue(s), Due(s), j, seconds);
    DeliverAllKeeps(bus, WithoutDue(s), Due(s), j + 1);
    LastIsIn(DeliverAll(bus, WithoutDue(s), Due(s)[..j + 1]).queue, DeliverAll(bus, WithoutDue(s), Due(s)).queue);
  }

  /** Due messages are taken in their order on the queue, and so are the others. */
  lemma {:induction false} PickJoins(a: seq<Entry>, b: seq<Entry>, clock: real, due: bool)
    ensures Pick(a + b, clock, due) == Pick(a, clock, due) + Pick(b, clock, due)
  {
    if b == [] {
      assert a + b == a;
    } else {
      assert (a + b)[..|a + b| - 1] == a + b[..|b| - 1];
      PickJoins(a, b[..|b| - 1], clock, due);
    }
  }
}
