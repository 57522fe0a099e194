/**
 * The Cloudflare Queues adapter: what it sends, how it reads a message's body, and the batch
 * handler that acknowledges or retries each message. The platform is a queue that keeps a message
 * until it is acknowledged and shows it again after the delay of a retry.
 */
module CloudflareQueues {
  import opened Wrappers
  import opened Sets
  import opened Transport

  const MAX_DELAY_SECONDS := 43200

  // ---- Message bodies ------------------------------------------------------

  datatype Json =
    | Null
    | Bool(b: bool)
    | Number(x: real)
    | Text(s: string)
    | Array(items: seq<Json>)
    | Object(fields: map<string, Json>)

  /** `isRef`, and the reference read from a body that is one; other fields of the body are dropped. */
  function ParseRef(body: Json): Option<JobRef> {
    if body.Object? &&
       "eventId" in body.fields && body.fields["eventId"].Text? && body.fields["eventId"].s != "" &&
       "type" in body.fields && body.fields["type"].Text? &&
       "version" in body.fields && body.fields["version"].Number? &&
       body.fields["version"].x == body.fields["version"].x.Floor as real
    then Some(JobRef(body.fields["eventId"].s, body.fields["type"].s, body.fields["version"].x.Floor))
    else None
  }

  /** What the producer sends: the three fields of the reference and nothing else. */
  function Body(ref: JobRef): Json {
    Object(map["eventId" := Text(ref.eventId), "type" := Text(ref.eventType), "version" := Number(ref.version as real)])
  }

  /** A body reads as `ref` exactly when it carries the fields of `ref`, whose id is not empty. */
  lemma ReadsAs(body: Json, ref: JobRef)
    ensures ParseRef(body) == Some(ref) <==>
            ref.eventId != "" && body.Object? &&
            forall k | k in Body(ref).fields :: k in body.fields && body.fields[k] == Body(ref).fields[k]
  {
    var sent := Body(ref).fields;
    assert "eventId" in sent && "type" in sent && "version" in sent;
    if ref.eventId != "" && body.Object? && (forall k | k in sent :: k in body.fields && body.fields[k] == sent[k]) {
      assert body.fields["eventId"] == sent["eventId"];
      assert body.fields["type"] == sent["type"];
      assert body.fields["version"] == sent["version"];
    }
  }

  // ---- Delays --------------------------------------------------------------

  function Ceil(x: real): (n: int)
    ensures x <= n as real < x + 1.0
  {
    -((-x).Floor)
  }

  /** The delay asked of the queue when sending. */
  function SendDelay(delaySeconds: real): int {
    var up := Ceil(delaySeconds);
    var low := if 0 > up then 0 else up;
    if low < MAX_DELAY_SECONDS then low else MAX_DELAY_SECONDS
  }

  /** The delay asked of the queue when retrying. */
  function RetryDelay(afterSeconds: real): int {
    if Ceil(afterSeconds) < MAX_DELAY_SECONDS then Ceil(afterSeconds) else MAX_DELAY_SECONDS
  }

  /** A delay on sending is rounded up to a whole second, and kept within 0 and 12 hours. */
  lemma SendDelayIs(seconds: real)
    ensures 0 <= SendDelay(seconds) <= 43200
    ensures 0.0 <= seconds <= 43200.0 ==> seconds <= SendDelay(seconds) as real < seconds + 1.0
    ensures seconds < 0.0 ==> SendDelay(seconds) == 0
    ensures seconds > 43200.0 ==> SendDelay(seconds) == 43200
  {
  }

  /** On retrying it is rounded up, and kept below 12 hours only. */
  lemma RetryDelayIs(seconds: real)
    ensures seconds <= 43200.0 ==> seconds <= RetryDelay(seconds) as real < seconds + 1.0
    ensures seconds > 43200.0 ==> RetryDelay(seconds) == 43200
  {
  }

  predicate WholeUpTo12Hours(seconds: real) {
    seconds == seconds.Floor as real && 0.0 <= seconds <= MAX_DELAY_SECONDS as real
  }

  /** A delay survives the trip exactly when it is a whole number of seconds the queue accepts. */
  lemma DelaySurvives(seconds: real)
    ensures SendDelay(seconds) as real == seconds <==> WholeUpTo12Hours(seconds)
    ensures seconds >= 0.0 ==> (RetryDelay(seconds) as real == seconds <==> WholeUpTo12Hours(seconds))
  {
    var f := seconds.Floor;
    if seconds == f as real {
      assert Ceil(seconds) == f;
    }
  }

  // ---- Specification -------------------------------------------------------

  /** A message the platform holds, and how often it has shown it so far. */
  datatype Stored = Stored(body: Json, shown: nat, visibleAt: real)

  datatype Report = Report(ref: Option<JobRef>, reason: string)

  datatype QueueState = QueueState(backlog: seq<Stored>, acked: nat, reports: seq<Report>, clock: real, calls: nat)

  const IDLE := QueueState([], 0, [], 0.0, 0)

  datatype Consumer = Consumer(executor: Executor, policy: Policy)

  function Offer(q: QueueState, ref: JobRef, delaySeconds: real): QueueState {
    q.(backlog := q.backlog + [Stored(Body(ref), 0, q.clock + SendDelay(delaySeconds) as real * 1000.0)])
  }

  function Elapse(q: QueueState, seconds: real): QueueState {
    q.(clock := q.clock + seconds * 1000.0)
  }

  /** What an executor running inside the consumer does through the producer side of the same queue. */
  function Act(q: QueueState, effect: Effect): QueueState {
    match effect
    case Enqueues(ref, delaySeconds) => Offer(q, ref, delaySeconds)
    case Advances(seconds) => Elapse(q, seconds)
  }

  function ActAll(q: QueueState, effects: seq<Effect>): QueueState {
    if effects == [] then q
    else Act(ActAll(q, effects[..|effects| - 1]), effects[|effects| - 1])
  }

  function VerdictOn(c: Consumer, q: QueueState, m: Stored): Verdict {
    match ParseRef(m.body)
    case None => Verdict(Failed("malformed message"), None)
    case Some(ref) => Settle(ref, c.executor, q.calls, m.shown + 1, c.policy)
  }

  function AfterRun(q: QueueState, v: Verdict): QueueState {
    if v.reply.None? then q else ActAll(q.(calls := q.calls + 1), v.reply.value.effects)
  }

  /** Only a retry goes back on the queue; everything else is acknowledged, a failure reported too. */
  function Dispose(q: QueueState, m: Stored, v: Verdict): QueueState {
    match v.outcome
    case Done => q.(acked := q.acked + 1)
    case Retry(afterSeconds, _) =>
      q.(backlog := q.backlog + [Stored(m.body, m.shown + 1, q.clock + RetryDelay(afterSeconds) as real * 1000.0)])
    case Failed(reason) => q.(acked := q.acked + 1, reports := q.reports + [Report(ParseRef(m.body), reason)])
  }

  function Consume(c: Consumer, q: QueueState, m: Stored): QueueState {
    var v := VerdictOn(c, q, m);
    Dispose(AfterRun(q, v), m, v)
  }

  function ConsumeAll(c: Consumer, q: QueueState, batch: seq<Stored>): QueueState {
    if batch == [] then q
    else Consume(c, ConsumeAll(c, q, batch[..|batch| - 1]), batch[|batch| - 1])
  }

  /** What each message of the batch came to, in order. */
  function Outcomes(c: Consumer, q: QueueState, batch: seq<Stored>): (r: seq<JobOutcome>)
    ensures |r| == |batch|
  {
    if batch == [] then []
    else
      var before := batch[..|batch| - 1];
      Outcomes(c, q, before) + [VerdictOn(c, ConsumeAll(c, q, before), batch[|batch| - 1]).outcome]
  }

  datatype Summary = Summary(done: nat, retried: nat, failed: nat)

  function Add(s: Summary, outcome: JobOutcome): Summary {
    match outcome
    case Done => s.(done := s.done + 1)
    case Retry(_, _) => s.(retried := s.retried + 1)
    case Failed(_) => s.(failed := s.failed + 1)
  }

  function Tally(outcomes: seq<JobOutcome>): (s: Summary)
    ensures s.done + s.retried + s.failed == |outcomes|
  {
    if outcomes == [] then Summary(0, 0, 0)
    else Add(Tally(outcomes[..|outcomes| - 1]), outcomes[|outcomes| - 1])
  }

  predicate IsDone(outcome: JobOutcome) {
    outcome == Done
  }

  predicate IsRetry(outcome: JobOutcome) {
    outcome.Retry?
  }

  predicate IsFailed(outcome: JobOutcome) {
    outcome.Failed?
  }

  /** Each counter of the summary is the number of outcomes of its own kind. */
  lemma {:induction false} TallyCounts(outcomes: seq<JobOutcome>)
    ensures Tally(outcomes).done == |Places(outcomes, IsDone)|
    ensures Tally(outcomes).retried == |Places(outcomes, IsRetry)|
    ensures Tally(outcomes).failed == |Places(outcomes, IsFailed)|
  {
    if outcomes == [] {
      NoPlaces(IsDone);
      NoPlaces(IsRetry);
      NoPlaces(IsFailed);
    } else {
      TallyCounts(outcomes[..|outcomes| - 1]);
      PlacesMore(outcomes, IsDone);
      PlacesMore(outcomes, IsRetry);
      PlacesMore(outcomes, IsFailed);
    }
  }

  // ---- Implementation ------------------------------------------------------

  datatype Settlement = Open | Acknowledged | Retried(delaySeconds: int)

  function SettlementOf(outcome: JobOutcome): Settlement {
    if outcome.Retry? then Retried(RetryDelay(outcome.afterSeconds)) else Acknowledged
  }

  class QueueMessage {
    const stored: Stored
    var settled: Settlement

    constructor (stored: Stored)
      ensures this.stored == stored && settled == Open
    {
      this.stored, settled := stored, Open;
    }

    function Attempts(): nat {
      stored.shown + 1
    }
  }

  ghost predicate Distinct(batch: seq<QueueMessage>) {
    forall i, j | 0 <= i < j < |batch| :: batch[i] != batch[j]
  }

  function Holds(batch: seq<QueueMessage>): (r: seq<Stored>)
    ensures |r| == |batch|
  {
    seq(|batch|, i requires 0 <= i < |batch| => batch[i].stored)
  }

  /** Where the handler of `held` stands after its first `i` messages. */
  ghost predicate Handled(c: Consumer, start: QueueState, held: seq<Stored>, i: nat,
                          now: QueueState, outcomes: seq<JobOutcome>, summary: Summary)
  {
    && i <= |held|
    && now == ConsumeAll(c, start, held[..i])
    && outcomes == Outcomes(c, start, held[..i])
    && summary == Tally(outcomes)
  }

  lemma OneMore(c: Consumer, start: QueueState, held: seq<Stored>, i: nat,
                now: QueueState, outcomes: seq<JobOutcome>, summary: Summary)
    requires i < |held| && Handled(c, start, held, i, now, outcomes, summary)
    ensures var outcome := VerdictOn(c, now, held[i]).outcome;
            Handled(c, start, held, i + 1, Consume(c, now, held[i]), outcomes + [outcome], Add(summary, outcome))
  {
    assert held[..i + 1][..i] == held[..i];
    var outcome := VerdictOn(c, now, held[i]).outcome;
    assert (outcomes + [outcome])[..i] == outcomes;
  }

  lemma HandledNone(c: Consumer, start: QueueState, held: seq<Stored>)
    ensures Handled(c, start, held, 0, start, [], Summary(0, 0, 0))
  {
    assert held[..0] == [];
  }

  lemma HandledAll(c: Consumer, start: QueueState, held: seq<Stored>, now: QueueState, outcomes: seq<JobOutcome>,
                   summary: Summary)
    requires Handled(c, start, held, |held|, now, outcomes, summary)
    ensures now == ConsumeAll(c, start, held) && outcomes == Outcomes(c, start, held) && summary == Tally(outcomes)
  {
    assert held[..|held|] == held;
  }

  /** How many of the messages were told to come again. */
  ghost function ToldAgain(batch: seq<QueueMessage>): set<nat>
    reads batch
  {
    set i: nat | i < |batch| && batch[i].settled.Retried?
  }

  lemma RetriesAreTold(batch: seq<QueueMessage>, outcomes: seq<JobOutcome>)
    requires |outcomes| == |batch|
    requires forall i | 0 <= i < |batch| :: batch[i].settled.Retried? <==> outcomes[i].Retry?
    ensures ToldAgain(batch) == Places(outcomes, IsRetry)
  {
  }

  /** The consumer, and the platform behind it. */
  class QueueConsumer {
    const consumer: Consumer
    var backlog: seq<Stored>
    var acked: nat
    var reports: seq<Report>
    var clock: real
    var calls: nat

    constructor (executor: Executor, policy: Policy)
      ensures consumer == Consumer(executor, policy) && Current() == IDLE
    {
      consumer := Consumer(executor, policy);
      backlog, acked, reports, clock, calls := [], 0, [], 0.0, 0;
    }

    function Current(): QueueState
      reads this
    {
      QueueState(backlog, acked, reports, clock, calls)
    }

    method Ack(message: QueueMessage)
      requires message.settled == Open
      modifies this`acked, message
      ensures message.settled == Acknowledged
      ensures Current() == old(Current()).(acked := old(acked) + 1)
    {
      acked := acked + 1;
      message.settled := Acknowledged;
    }

    method RetryLater(message: QueueMessage, delaySeconds: int)
      requires message.settled == Open
      modifies this`backlog, message
      ensures message.settled == Retried(delaySeconds)
      ensures Current() == old(Current()).(backlog := old(backlog) +
                [Stored(message.stored.body, message.Attempts(), clock + delaySeconds as real * 1000.0)])
    {
      backlog := backlog +
        [Stored(message.stored.body, message.Attempts(), clock + delaySeconds as real * 1000.0)];
      message.settled := Retried(delaySeconds);
    }

    method OnFailed(ref: Option<JobRef>, reason: string)
      modifies this`reports
      ensures Current() == old(Current()).(reports := old(reports) + [Report(ref, reason)])
    {
      reports := reports + [Report(ref, reason)];
    }

    method Send(ref: JobRef, delaySeconds: real)
      modifies this`backlog
      ensures Current() == Offer(old(Current()), ref, delaySeconds)
    {
      backlog := backlog + [Stored(Body(ref), 0, clock + SendDelay(delaySeconds) as real * 1000.0)];
    }

    method Run(effects: seq<Effect>)
      modifies this`backlog, this`clock
      ensures Current() == ActAll(old(Current()), effects)
    {
      for i := 0 to |effects|
        invariant Current() == ActAll(old(Current()), effects[..i])
      {
        assert effects[..i + 1][..i] == effects[..i];
        match effects[i] {
          case Enqueues(ref, delaySeconds) => Send(ref, delaySeconds);
          case Advances(seconds) => clock := clock + seconds * 1000.0;
        }
      }
      assert effects[..|effects|] == effects;
    }

    method SettleOne(message: QueueMessage) returns (outcome: JobOutcome)
      requires message.settled == Open
      modifies this, message
      ensures outcome == VerdictOn(consumer, old(Current()), message.stored).outcome
      ensures message.settled == if outcome.Retry? then Retried(RetryDelay(outcome.afterSeconds)) else Acknowledged
      ensures Current() == Consume(consumer, old(Current()), message.stored)
    {
      var parsed := ParseRef(message.stored.body);
      if parsed.None? {
        Ack(message);
        outcome := Failed("malformed message");
        OnFailed(None, outcome.reason);
        return;
      }
      var verdict := Settle(parsed.value, consumer.executor, calls, message.Attempts(), consumer.policy);
      outcome := verdict.outcome;
      if verdict.reply.Some? {
        calls := calls + 1;
        Run(verdict.reply.value.effects);
      }
      assert Current() == AfterRun(old(Current()), verdict);
      match outcome {
        case Retry(afterSeconds, _) => RetryLater(message, RetryDelay(afterSeconds));
        case Done => Ack(message);
        case Failed(reason) =>
          Ack(message);
          OnFailed(Some(parsed.value), reason);
      }
    }

    /** One turn of the loop. */
    method HandleOne(message: QueueMessage, before: Summary, ghost start: QueueState, ghost held: seq<Stored>,
                     ghost i: nat, ghost outcomes: seq<JobOutcome>)
      returns (outcome: JobOutcome, summary: Summary)
      requires i < |held| && held[i] == message.stored && message.settled == Open
      requires Handled(consumer, start, held, i, Current(), outcomes, before)
      modifies this, message
      ensures message.settled == SettlementOf(outcome)
      ensures Handled(consumer, start, held, i + 1, Current(), outcomes + [outcome], summary)
    {
      OneMore(consumer, start, held, i, Current(), outcomes, before);
      outcome := SettleOne(message);
      summary := Add(before, outcome);
    }

    /** The loop over a batch. */
    method HandleEach(batch: seq<QueueMessage>) returns (summary: Summary, ghost outcomes: seq<JobOutcome>)
      requires Distinct(batch) && forall i | 0 <= i < |batch| :: batch[i].settled == Open
      modifies this, batch
      ensures Handled(consumer, old(Current()), Holds(batch), |batch|, Current(), outcomes, summary)
      ensures |outcomes| == |batch|
      ensures forall i | 0 <= i < |batch| :: batch[i].settled == SettlementOf(outcomes[i])
    {
      summary := Summary(0, 0, 0);
      ghost var start, held := Current(), Holds(batch);
      outcomes := [];
      HandledNone(consumer, start, held);
      for i := 0 to |batch|
        invariant Handled(consumer, start, held, i, Current(), outcomes, summary)
        invariant |outcomes| == i
        invariant forall k | i <= k < |batch| :: batch[k].settled == Open
        invariant forall k | 0 <= k < i :: batch[k].settled == SettlementOf(outcomes[k])
      {
        assert forall k | 0 <= k < |batch| && k != i :: batch[k] != batch[i];
        var outcome;
        outcome, summary := HandleOne(batch[i], summary, start, held, i, outcomes);
        outcomes := outcomes + [outcome];
      }
    }

    /** Each message is settled once, by what its own delivery came to, and counted under that. */
    method HandleBatch(batch: seq<QueueMessage>) returns (summary: Summary)
      requires Distinct(batch) && forall i | 0 <= i < |batch| :: batch[i].settled == Open
      modifies this, batch
      ensures Current() == ConsumeAll(consumer, old(Current()), Holds(batch))
      ensures var outcomes := Outcomes(consumer, old(Current()), Holds(batch));
        && summary.done == |Places(outcomes, IsDone)|
        && summary.retried == |Places(outcomes, IsRetry)| == |ToldAgain(batch)|
        && summary.failed == |Places(outcomes, IsFailed)|
      ensures forall i | 0 <= i < |batch| ::
                batch[i].settled == SettlementOf(Outcomes(consumer, old(Current()), Holds(batch))[i])
    {
      ghost var outcomes;
      summary, outcomes := HandleEach(batch);
      HandledAll(consumer, old(Current()), Holds(batch), Current(), outcomes, summary);
      TallyCounts(outcomes);
      RetriesAreTold(batch, outcomes);
    }
  }
}
