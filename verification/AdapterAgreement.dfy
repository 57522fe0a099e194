/**
 * The two queueing adapters agree: a redelivering queue driven by the consumer goes through the
 * same states as the in-process transport, step for step.
 */
module AdapterAgreement {
  import opened Wrappers
  import opened Powers
  import opened Transport
  import M = MemoryTransport
  import R = MemoryRuns
  import B = MemoryBackoff
  import opened CloudflareQueues

  function DueStored(backlog: seq<Stored>, clock: real, due: bool): seq<Stored> {
    if backlog == [] then []
    else
      var last := backlog[|backlog| - 1];
      DueStored(backlog[..|backlog| - 1], clock, due) + if (last.visibleAt <= clock) == due then [last] else []
  }

  function KeptBack(q: QueueState): QueueState {
    q.(backlog := DueStored(q.backlog, q.clock, false))
  }

  /** The platform hands everything it may show now to the consumer, as one batch. */
  function Deliver(c: Consumer, q: QueueState): QueueState {
    ConsumeAll(c, KeptBack(q), DueStored(q.backlog, q.clock, true))
  }

  function Step(c: Consumer, q: QueueState, op: R.Op): QueueState {
    match op
    case Send(ref, delaySeconds) => Offer(q, ref, delaySeconds)
    case Wait(seconds) => Elapse(q, seconds)
    case Drain => Deliver(c, q)
  }

  function Run(c: Consumer, q: QueueState, ops: seq<R.Op>): QueueState {
    if ops == [] then q else Step(c, Run(c, q, ops[..|ops| - 1]), ops[|ops| - 1])
  }

  // ---- The simulation relation ---------------------------------------------

  function StoredAs(e: M.Entry): Stored {
    Stored(Body(e.ref), e.attempt, e.visibleAt)
  }

  function StoreAll(queue: seq<M.Entry>): (r: seq<Stored>)
    ensures |r| == |queue|
  {
    if queue == [] then [] else StoreAll(queue[..|queue| - 1]) + [StoredAs(queue[|queue| - 1])]
  }

  function ReportAll(dead: seq<M.Buried>): (r: seq<Report>)
    ensures |r| == |dead|
  {
    if dead == [] then []
    else
      var b := dead[|dead| - 1];
      ReportAll(dead[..|dead| - 1]) + [Report(Some(b.ref), b.reason)]
  }

  /** What the queue looks like from outside when the in-process transport is in state `s`. */
  function Image(s: M.State): QueueState {
    QueueState(StoreAll(s.queue), |s.done| + |s.dead|, ReportAll(s.dead), s.clock, s.calls)
  }

  /** References the consumer takes for references: those with a non-empty id. */
  ghost predicate Named(queue: seq<M.Entry>) {
    forall i | 0 <= i < |queue| :: queue[i].ref.eventId != ""
  }

  predicate TameEffect(effect: Effect) {
    effect.Enqueues? ==> effect.ref.eventId != "" && WholeUpTo12Hours(effect.delaySeconds)
  }

  predicate TameAnswer(answer: Answer) {
    answer.Returns? && answer.outcome.Retry? ==> WholeUpTo12Hours(answer.outcome.afterSeconds)
  }

  predicate TameReply(reply: Reply) {
    TameAnswer(reply.answer) && forall i | 0 <= i < |reply.effects| :: TameEffect(reply.effects[i])
  }

  /** Every delay the executor names itself is a whole number of seconds in 0..43200. */
  ghost predicate Tame(executor: Executor) {
    forall turn, ref :: TameReply(executor(turn, ref))
  }

  predicate TameOp(op: R.Op) {
    op.Send? ==> op.ref.eventId != "" && WholeUpTo12Hours(op.delaySeconds)
  }

  /** Where a throw asks again, both adapters wait as long. */
  ghost predicate SameBackoff(memory: Policy, queue: Policy) {
    && memory.maxAttempts == queue.maxAttempts
    && forall a {:trigger memory.backoffSeconds(a)} | 1 <= a < memory.maxAttempts ::
         memory.backoffSeconds(a) == RetryDelay(queue.backoffSeconds(a)) as real
  }

  // ---- Step for step -------------------------------------------------------

  lemma StoreMore(queue: seq<M.Entry>, e: M.Entry)
    ensures StoreAll(queue + [e]) == StoreAll(queue) + [StoredAs(e)]
  {
    assert (queue + [e])[..|queue|] == queue;
  }

  lemma ReportMore(dead: seq<M.Buried>, b: M.Buried)
    ensures ReportAll(dead + [b]) == ReportAll(dead) + [Report(Some(b.ref), b.reason)]
  {
    assert (dead + [b])[..|dead|] == dead;
  }

  lemma {:induction false} SameDue(queue: seq<M.Entry>, clock: real, due: bool)
    ensures DueStored(StoreAll(queue), clock, due) == StoreAll(M.Pick(queue, clock, due))
  {
    if queue != [] {
      var front, last := queue[..|queue| - 1], queue[|queue| - 1];
      SameDue(front, clock, due);
      assert StoreAll(queue)[..|queue| - 1] == StoreAll(front);
      StoreMore(M.Pick(front, clock, due), last);
      if (last.visibleAt <= clock) != due {
        assert M.Pick(queue, clock, due) == M.Pick(front, clock, due);
      }
    }
  }

  lemma SamePerform(s: M.State, effect: Effect)
    requires TameEffect(effect) && Named(s.queue)
    ensures Image(M.Perform(s, effect)) == Act(Image(s), effect)
    ensures Named(M.Perform(s, effect).queue)
  {
    if effect.Enqueues? {
      DelaySurvives(effect.delaySeconds);
      StoreMore(s.queue, M.Entry(effect.ref, 0, s.clock + effect.delaySeconds * 1000.0, []));
    }
  }

  lemma {:induction false} SamePerformAll(s: M.State, effects: seq<Effect>)
    requires Named(s.queue) && forall i | 0 <= i < |effects| :: TameEffect(effects[i])
    ensures Image(M.PerformAll(s, effects)) == ActAll(Image(s), effects)
    ensures Named(M.PerformAll(s, effects).queue)
  {
    if effects != [] {
      SamePerformAll(s, effects[..|effects| - 1]);
      SamePerform(M.PerformAll(s, effects[..|effects| - 1]), effects[|effects| - 1]);
    }
  }

  /** The same outcome, but for the length of a delay that comes to the same once the queue has rounded it. */
  ghost predicate SameVerdict(v: Verdict, w: Verdict) {
    && v.reply == w.reply
    && if v.outcome.Retry? then
         w.outcome.Retry? && v.outcome.afterSeconds == RetryDelay(w.outcome.afterSeconds) as real
       else v.outcome == w.outcome
  }

  lemma SettlesAlike(bus: M.Bus, c: Consumer, s: M.State, e: M.Entry)
    requires bus.executor == c.executor && Tame(bus.executor) && SameBackoff(bus.policy, c.policy)
    requires e.ref.eventId != ""
    ensures ParseRef(StoredAs(e).body) == Some(e.ref)
    ensures SameVerdict(M.SettleEntry(bus, s, e), VerdictOn(c, Image(s), StoredAs(e)))
  {
    ReadsAs(StoredAs(e).body, e.ref);
    var v := M.SettleEntry(bus, s, e);
    if v.outcome.Retry? {
      assert TameReply(bus.executor(s.calls, e.ref));
      if v.reply.value.answer.Returns? {
        DelaySurvives(v.outcome.afterSeconds);
      } else {
        assert bus.policy.backoffSeconds(e.attempt + 1) == RetryDelay(c.policy.backoffSeconds(e.attempt + 1)) as real;
      }
    }
  }

  lemma SameDisposal(s: M.State, e: M.Entry, v: Verdict, w: Verdict)
    requires SameVerdict(v, w) && Named(s.queue) && e.ref.eventId != "" && ParseRef(StoredAs(e).body) == Some(e.ref)
    ensures Image(M.Record(s, e, v)) == Dispose(Image(s), StoredAs(e), w)
    ensures Named(M.Record(s, e, v).queue)
  {
    var heard := M.Heard(e.answers, v);
    match v.outcome
    case Done =>
    case Retry(afterSeconds, _) =>
      StoreMore(s.queue, M.Entry(e.ref, e.attempt + 1, s.clock + afterSeconds * 1000.0, heard));
    case Failed(reason) =>
      ReportMore(s.dead, M.Buried(e.ref, reason, heard));
  }

  lemma SameRun(executor: Executor, s: M.State, ref: JobRef, v: Verdict, w: Verdict)
    requires Tame(executor) && Named(s.queue) && v.reply == w.reply
    requires v.reply.Some? ==> v.reply.value == executor(s.calls, ref)
    ensures Image(M.Ran(s, v)) == AfterRun(Image(s), w)
    ensures Named(M.Ran(s, v).queue)
  {
    if v.reply.Some? {
      assert TameReply(executor(s.calls, ref));
      SamePerformAll(s.(calls := s.calls + 1), v.reply.value.effects);
    }
  }

  /** One delivery, on both sides: same call, same outcome, same redelivery. */
  lemma SameDelivery(bus: M.Bus, c: Consumer, s: M.State, e: M.Entry)
    requires bus.executor == c.executor && Tame(bus.executor) && SameBackoff(bus.policy, c.policy)
    requires Named(s.queue) && e.ref.eventId != ""
    ensures Image(M.Deliver(bus, s, e)) == Consume(c, Image(s), StoredAs(e))
    ensures Named(M.Deliver(bus, s, e).queue)
  {
    var v, w := M.SettleEntry(bus, s, e), VerdictOn(c, Image(s), StoredAs(e));
    SettlesAlike(bus, c, s, e);
    SameRun(bus.executor, s, e.ref, v, w);
    SameDisposal(M.Ran(s, v), e, v, w);
  }

  lemma {:induction false} SameDeliveries(bus: M.Bus, c: Consumer, s: M.State, due: seq<M.Entry>)
    requires bus.executor == c.executor && Tame(bus.executor) && SameBackoff(bus.policy, c.policy)
    requires Named(s.queue) && Named(due)
    ensures Image(M.DeliverAll(bus, s, due)) == ConsumeAll(c, Image(s), StoreAll(due))
    ensures Named(M.DeliverAll(bus, s, due).queue)
  {
    if due != [] {
      var front := due[..|due| - 1];
      SameDeliveries(bus, c, s, front);
      assert StoreAll(due)[..|due| - 1] == StoreAll(front);
      SameDelivery(bus, c, M.DeliverAll(bus, s, front), due[|due| - 1]);
    }
  }

  lemma NamedPick(queue: seq<M.Entry>, clock: real, due: bool)
    requires Named(queue)
    ensures Named(M.Pick(queue, clock, due))
  {
    forall i | 0 <= i < |M.Pick(queue, clock, due)| ensures M.Pick(queue, clock, due)[i].ref.eventId != "" {
      assert M.Pick(queue, clock, due)[i] in queue;
    }
  }

  lemma SameStart(s: M.State)
    requires Named(s.queue)
    ensures Image(M.WithoutDue(s)) == KeptBack(Image(s))
    ensures StoreAll(M.Due(s)) == DueStored(Image(s).backlog, Image(s).clock, true)
    ensures Named(M.WithoutDue(s).queue) && Named(M.Due(s))
  {
    SameDue(s.queue, s.clock, true);
    SameDue(s.queue, s.clock, false);
    NamedPick(s.queue, s.clock, true);
    NamedPick(s.queue, s.clock, false);
  }

  lemma SameDrain(bus: M.Bus, c: Consumer, s: M.State)
    requires bus.executor == c.executor && Tame(bus.executor) && SameBackoff(bus.policy, c.policy)
    requires Named(s.queue)
    ensures Image(M.Drained(bus, s)) == Deliver(c, Image(s))
    ensures Named(M.Drained(bus, s).queue)
  {
    SameStart(s);
    SameDeliveries(bus, c, M.WithoutDue(s), M.Due(s));
  }

  lemma SameStep(bus: M.Bus, c: Consumer, s: M.State, op: R.Op)
    requires bus.executor == c.executor && Tame(bus.executor) && SameBackoff(bus.policy, c.policy)
    requires TameOp(op) && Named(s.queue)
    ensures Image(R.Step(bus, s, op)) == Step(c, Image(s), op)
    ensures Named(R.Step(bus, s, op).queue)
  {
    match op
    case Send(ref, delaySeconds) => SamePerform(s, Enqueues(ref, delaySeconds));
    case Wait(seconds) =>
    case Drain => SameDrain(bus, c, s);
  }

  /** The simulation, over every run and for every tame executor. */
  lemma {:induction false} AdaptersAgree(bus: M.Bus, c: Consumer, ops: seq<R.Op>)
    requires bus.executor == c.executor && Tame(bus.executor) && SameBackoff(bus.policy, c.policy)
    requires forall i | 0 <= i < |ops| :: TameOp(ops[i])
    ensures Image(R.Run(bus, M.EMPTY, ops)) == Run(c, IDLE, ops)
    ensures Named(R.Run(bus, M.EMPTY, ops).queue)
  {
    if ops != [] {
      var before := ops[..|ops| - 1];
      AdaptersAgree(bus, c, before);
      SameStep(bus, c, R.Run(bus, M.EMPTY, before), ops[|ops| - 1]);
    }
  }

  // ---- The default backoffs --------------------------------------------------

  /** The consumer's default: 30, 60, 120, ... seconds, never above the cap of the queue. */
  function QueueBackoff(attempt: int): real {
    if B.DefaultBackoff(attempt) < MAX_DELAY_SECONDS as real then B.DefaultBackoff(attempt)
    else MAX_DELAY_SECONDS as real
  }

  /** It doubles from 30 seconds on, up to 12 hours. */
  lemma QueueBackoffDoubles(attempt: nat)
    requires attempt >= 1
    ensures QueueBackoff(1) == 30.0
    ensures QueueBackoff(attempt + 1) ==
            if 2.0 * QueueBackoff(attempt) < 43200.0 then 2.0 * QueueBackoff(attempt) else 43200.0
  {
    assert B.DefaultBackoff(attempt + 1) == 2.0 * B.DefaultBackoff(attempt);
  }

  lemma Pow2Ten()
    ensures Pow2(10) == 1024 && Pow2(11) == 2048
  {
    assert Pow2(4) == 16;
    assert Pow2(8) == 256;
  }

  /** The two defaults wait equally long after a throw exactly up to the eleventh delivery. */
  lemma SameWait(attempt: nat)
    requires attempt >= 1
    ensures B.DefaultBackoff(attempt) == RetryDelay(QueueBackoff(attempt)) as real <==> attempt <= 11
  {
    Pow2Ten();
    if attempt <= 11 {
      Pow2Grows(attempt - 1, 10);
      DelaySurvives(B.DefaultBackoff(attempt));
      assert B.DefaultBackoff(attempt) == (30 * Pow2(attempt - 1)) as real;
    } else {
      Pow2Grows(11, attempt - 1);
    }
  }

  lemma SameDefaults(maxAttempts: int)
    ensures SameBackoff(Policy(maxAttempts, B.DefaultBackoff), Policy(maxAttempts, QueueBackoff)) <==> maxAttempts <= 12
  {
    forall a {:trigger B.DefaultBackoff(a)} | 1 <= a < maxAttempts && maxAttempts <= 12
      ensures B.DefaultBackoff(a) == RetryDelay(QueueBackoff(a)) as real
    {
      SameWait(a);
    }
    if maxAttempts > 12 {
      SameWait(12);
      var memory := Policy(maxAttempts, B.DefaultBackoff);
      assert memory.backoffSeconds(12) == B.DefaultBackoff(12);
    }
  }

  /** An executor that asks for eleven immediate retries and then throws. */
  function Stubborn(): Executor {
    (turn, ref) => Reply(if turn < 11 then Returns(Retry(0.0, "")) else Throws("Error"), [])
  }

  const SOME_REF := JobRef("e1", "TableCreated", 1)

  function SendThenDrain(n: nat): seq<R.Op> {
    if n == 0 then [R.Send(SOME_REF, 0.0)] else SendThenDrain(n - 1) + [R.Drain]
  }

  lemma {:induction false} SendThenDrainTame(n: nat)
    ensures forall i | 0 <= i < |SendThenDrain(n)| :: TameOp(SendThenDrain(n)[i])
  {
    if n > 0 {
      SendThenDrainTame(n - 1);
    }
  }

  lemma {:induction false} StubbornRun(policy: Policy, n: nat)
    requires policy.maxAttempts > 12 && n <= 11
    ensures var s := R.Run(M.Bus(Stubborn(), policy), M.EMPTY, SendThenDrain(n));
            |s.queue| == 1 && s.queue[0].ref == SOME_REF && s.queue[0].attempt == n && s.queue[0].visibleAt == 0.0
            && s.clock == 0.0 && s.calls == n
  {
    var bus := M.Bus(Stubborn(), policy);
    if n == 0 {
      assert [R.Send(SOME_REF, 0.0)][..0] == [];
    } else {
      StubbornRun(policy, n - 1);
      assert SendThenDrain(n)[..|SendThenDrain(n)| - 1] == SendThenDrain(n - 1);
      var s := R.Run(bus, M.EMPTY, SendThenDrain(n - 1));
      B.DrainOne(bus, s, s.queue[0]);
    }
  }

  lemma StubbornEnd(policy: Policy)
    requires policy.maxAttempts > 12
    ensures var s := R.Run(M.Bus(Stubborn(), policy), M.EMPTY, SendThenDrain(12));
            |s.queue| == 1 && s.queue[0].visibleAt == policy.backoffSeconds(12) * 1000.0
  {
    var bus := M.Bus(Stubborn(), policy);
    StubbornRun(policy, 11);
    assert SendThenDrain(12)[..|SendThenDrain(12)| - 1] == SendThenDrain(11);
    var s := R.Run(bus, M.EMPTY, SendThenDrain(11));
    B.DrainOne(bus, s, s.queue[0]);
  }

  ghost predicate AgreeOn(executor: Executor, maxAttempts: int, ops: seq<R.Op>) {
    Image(R.Run(M.Bus(executor, Policy(maxAttempts, B.DefaultBackoff)), M.EMPTY, ops))
    == Run(Consumer(executor, Policy(maxAttempts, QueueBackoff)), IDLE, ops)
  }

  lemma StubbornDisagrees(maxAttempts: int)
    requires maxAttempts > 12
    ensures Tame(Stubborn()) && !AgreeOn(Stubborn(), maxAttempts, SendThenDrain(12))
  {
    // The queue behaves as an in-process transport with the queue's own, rounded backoff.
    var rounded := Policy(maxAttempts, a => RetryDelay(QueueBackoff(a)) as real);
    var memory := Policy(maxAttempts, B.DefaultBackoff);
    var c := Consumer(Stubborn(), Policy(maxAttempts, QueueBackoff));
    SendThenDrainTame(12);
    AdaptersAgree(M.Bus(Stubborn(), rounded), c, SendThenDrain(12));
    StubbornEnd(rounded);
    StubbornEnd(memory);
    SameWait(12);
    var s, t := R.Run(M.Bus(Stubborn(), rounded), M.EMPTY, SendThenDrain(12)),
                R.Run(M.Bus(Stubborn(), memory), M.EMPTY, SendThenDrain(12));
    assert StoreAll(s.queue)[0] == StoredAs(s.queue[0]) && StoreAll(t.queue)[0] == StoredAs(t.queue[0]) by {
      assert s.queue[..0] == [] && t.queue[..0] == [];
    }
  }

  /**
   * With the defaults of both adapters, every tame executor and every run agree if and only if the
   * attempt cap is at most 12: at 13 the twelve-hour limit of the queue first bites.
   */
  lemma DefaultsAgreeUpTo12(maxAttempts: int)
    ensures (forall executor: Executor, ops: seq<R.Op> |
               Tame(executor) && (forall i | 0 <= i < |ops| :: TameOp(ops[i])) :: AgreeOn(executor, maxAttempts, ops))
            <==> maxAttempts <= 12
  {
    if maxAttempts <= 12 {
      SameDefaults(maxAttempts);
      forall executor: Executor, ops: seq<R.Op> | Tame(executor) && (forall i | 0 <= i < |ops| :: TameOp(ops[i]))
        ensures AgreeOn(executor, maxAttempts, ops)
      {
        AdaptersAgree(M.Bus(executor, Policy(maxAttempts, B.DefaultBackoff)),
                      Consumer(executor, Policy(maxAttempts, QueueBackoff)), ops);
      }
    } else {
      SendThenDrainTame(12);
      StubbornDisagrees(maxAttempts);
    }
  }
}
