/**
 * The in-process transport: a queue spliced and appended to while it is drained, a dead-letter
 * list and a virtual clock. `State` and the functions on it specify the class below.
 */
module MemoryTransport {
  import opened Wrappers
  import opened Transport

  // ---- Specification -------------------------------------------------------

  /** A queued message, with the answers the executor has given to it so far. */
  datatype Entry = Entry(ref: JobRef, attempt: nat, visibleAt: real, answers: seq<Answer>)

  datatype Acked = Acked(ref: JobRef, answers: seq<Answer>)

  datatype Buried = Buried(ref: JobRef, reason: string, answers: seq<Answer>)

  /** The transport, and the history its properties speak of: what was sent and what was acknowledged. */
  datatype State = State(
    queue: seq<Entry>,
    dead: seq<Buried>,
    clock: real,
    calls: nat,
    sent: seq<JobRef>,
    done: seq<Acked>)

  const EMPTY := State([], [], 0.0, 0, [], [])

  datatype Bus = Bus(executor: Executor, policy: Policy)

  function Enqueue(s: State, ref: JobRef, delaySeconds: real): State {
    s.(queue := s.queue + [Entry(ref, 0, s.clock + delaySeconds * 1000.0, [])],
       sent := s.sent + [ref])
  }

  function Advance(s: State, seconds: real): State {
    s.(clock := s.clock + seconds * 1000.0)
  }

  function Perform(s: State, effect: Effect): State {
    match effect
    case Enqueues(ref, delaySeconds) => Enqueue(s, ref, delaySeconds)
    case Advances(seconds) => Advance(s, seconds)
  }

  function PerformAll(s: State, effects: seq<Effect>): State {
    if effects == [] then s
    else Perform(PerformAll(s, effects[..|effects| - 1]), effects[|effects| - 1])
  }

  /** The messages of `queue` that are due at `clock` (`due == true`), or those that are not, in order. */
  function Pick(queue: seq<Entry>, clock: real, due: bool): (r: seq<Entry>)
    ensures forall e | e in r :: e in queue && (e.visibleAt <= clock) == due
  {
    if queue == [] then []
    else
      var last := queue[|queue| - 1];
      Pick(queue[..|queue| - 1], clock, due) + if (last.visibleAt <= clock) == due then [last] else []
  }

  function SettleEntry(bus: Bus, s: State, e: Entry): Verdict {
    Settle(e.ref, bus.executor, s.calls, e.attempt + 1, bus.policy)
  }

  /** The state once the executor has run, if it was called at all. */
  function Ran(s: State, v: Verdict): State {
    if v.reply.None? then s else PerformAll(s.(calls := s.calls + 1), v.reply.value.effects)
  }

  function Heard(answers: seq<Answer>, v: Verdict): seq<Answer> {
    if v.reply.None? then answers else answers + [v.reply.value.answer]
  }

  /** What becomes of `e`: acknowledged, on the queue again, or among the dead letters. */
  function Record(s: State, e: Entry, v: Verdict): State {
    var answers := Heard(e.answers, v);
    match v.outcome
    case Done => s.(done := s.done + [Acked(e.ref, answers)])
    case Retry(afterSeconds, _) =>
      s.(queue := s.queue + [Entry(e.ref, e.attempt + 1, s.clock + afterSeconds * 1000.0, answers)])
    case Failed(reason) => s.(dead := s.dead + [Buried(e.ref, reason, answers)])
  }

  /** One delivery of `e`, a message already taken off the queue. */
  function Deliver(bus: Bus, s: State, e: Entry): State {
    var v := SettleEntry(bus, s, e);
    Record(Ran(s, v), e, v)
  }

  function DeliverAll(bus: Bus, s: State, due: seq<Entry>): State {
    if due == [] then s
    else Deliver(bus, DeliverAll(bus, s, due[..|due| - 1]), due[|due| - 1])
  }

  /** What the `k`-th delivery of `due` came to. */
  function OutcomeAt(bus: Bus, s: State, due: seq<Entry>, k: nat): JobOutcome
    requires k < |due|
  {
    SettleEntry(bus, DeliverAll(bus, s, due[..k]), due[k]).outcome
  }

  function Outcomes(bus: Bus, s: State, due: seq<Entry>): (r: seq<JobOutcome>)
    ensures |r| == |due|
  {
    seq(|due|, k requires 0 <= k < |due| => OutcomeAt(bus, s, due, k))
  }

  /** The messages due now, and the state without them. */
  function Due(s: State): seq<Entry> {
    Pick(s.queue, s.clock, true)
  }

  function WithoutDue(s: State): State {
    s.(queue := Pick(s.queue, s.clock, false))
  }

  /** A drain takes the messages due at its start off the queue and delivers them once each, in order. */
  function Drained(bus: Bus, s: State): State {
    DeliverAll(bus, WithoutDue(s), Due(s))
  }

  // ---- Implementation ------------------------------------------------------

  class Message {
    const ref: JobRef
    var attempt: nat
    const visibleAt: real
    ghost var answers: seq<Answer>

    constructor (ref: JobRef, attempt: nat, visibleAt: real, ghost answers: seq<Answer>)
      ensures this.ref == ref && this.attempt == attempt && this.visibleAt == visibleAt
      ensures this.answers == answers
    {
      this.ref, this.attempt, this.visibleAt, this.answers := ref, attempt, visibleAt, answers;
    }
  }

  datatype DeadLetter = DeadLetter(ref: JobRef, reason: string)

  function Letters(dead: seq<Buried>): (r: seq<DeadLetter>)
    ensures |r| == |dead|
  {
    seq(|dead|, i requires 0 <= i < |dead| => DeadLetter(dead[i].ref, dead[i].reason))
  }

  ghost function EntryOf(m: Message): Entry
    reads m
  {
    Entry(m.ref, m.attempt, m.visibleAt, m.answers)
  }

  ghost function View(queue: seq<Message>): (r: seq<Entry>)
    reads queue
    ensures |r| == |queue|
    ensures forall i | 0 <= i < |queue| :: r[i] == EntryOf(queue[i])
  {
    seq(|queue|, i requires 0 <= i < |queue| reads queue => EntryOf(queue[i]))
  }

  ghost predicate Distinct(queue: seq<Message>) {
    forall i, j | 0 <= i < j < |queue| :: queue[i] != queue[j]
  }

  /** `queue.filter((message) => message.visibleAt <= clock)`. */
  function DueMessages(queue: seq<Message>, clock: real): (r: seq<Message>)
    ensures forall i | 0 <= i < |r| :: r[i] in queue && r[i].visibleAt <= clock
  {
    if queue == [] then []
    else
      var last := queue[|queue| - 1];
      DueMessages(queue[..|queue| - 1], clock) + if last.visibleAt <= clock then [last] else []
  }

  /** What is left of a queue once the messages in `taken` are off it. */
  ghost function Left(queue: seq<Message>, taken: set<Message>): (r: seq<Message>) {
    if queue == [] then []
    else
      var last := queue[|queue| - 1];
      Left(queue[..|queue| - 1], taken) + if last in taken then [] else [last]
  }

  lemma {:induction false} LeftMember(queue: seq<Message>, taken: set<Message>, m: Message)
    ensures m in Left(queue, taken) <==> m in queue && m !in taken
  {
    if queue != [] {
      LeftMember(queue[..|queue| - 1], taken, m);
      assert queue == queue[..|queue| - 1] + [queue[|queue| - 1]];
    }
  }

  lemma {:induction false} LeftAll(queue: seq<Message>)
    ensures Left(queue, {}) == queue
  {
    if queue != [] {
      LeftAll(queue[..|queue| - 1]);
    }
  }

  lemma {:induction false} LeftSame(queue: seq<Message>, taken: set<Message>, m: Message)
    requires m !in queue
    ensures Left(queue, taken + {m}) == Left(queue, taken)
  {
    if queue != [] {
      LeftSame(queue[..|queue| - 1], taken, m);
    }
  }

  function Without<T>(s: seq<T>, at: nat): seq<T>
    requires at < |s|
  {
    s[..at] + s[at + 1..]
  }

  lemma WithoutAppend<T>(s: seq<T>, t: seq<T>, at: nat)
    requires at < |s|
    ensures Without(s + t, at) == Without(s, at) + t
  {
  }

  /** Splicing out the one occurrence of `m` leaves exactly what was left, less `m`. */
  lemma {:induction false} LeftWithout(queue: seq<Message>, taken: set<Message>, m: Message, at: nat)
    requires Distinct(queue) && at < |Left(queue, taken)| && Left(queue, taken)[at] == m
    ensures Left(queue, taken + {m}) == Without(Left(queue, taken), at)
  {
    var last, front := queue[|queue| - 1], queue[..|queue| - 1];
    var inner, kept := Left(front, taken), if last in taken then [] else [last];
    LeftMember(queue, taken, m);
    if last == m {
      LeftSame(front, taken, m);
      LeftMember(front, taken, m);
      assert at == |inner|;
    } else {
      LeftWithout(front, taken, m, at);
      WithoutAppend(inner, kept, at);
    }
  }

  lemma SpliceDistinct(queue: seq<Message>, at: nat)
    requires Distinct(queue) && at < |queue|
    ensures Distinct(queue[..at] + queue[at + 1..]) && queue[at] !in queue[..at] + queue[at + 1..]
  {
  }

  lemma OnceOnly(first: seq<Message>, taken: set<Message>, extra: seq<Message>, m: Message)
    requires Distinct(Left(first, taken) + extra) && m in first && m !in taken
    ensures m !in extra
  {
    var left := Left(first, taken);
    LeftMember(first, taken, m);
    var k :| 0 <= k < |left| && left[k] == m;
    forall j | 0 <= j < |extra| ensures extra[j] != m {
      assert (left + extra)[k] == m && (left + extra)[|left| + j] == extra[j];
    }
  }

  lemma SpliceLeft(first: seq<Message>, taken: set<Message>, extra: seq<Message>, m: Message, at: nat)
    requires Distinct(first) && m in first && m !in taken
    requires at < |Left(first, taken) + extra| && (Left(first, taken) + extra)[at] == m
    requires m !in (Left(first, taken) + extra)[..at]
    ensures var q := Left(first, taken) + extra;
            q[..at] + q[at + 1..] == Left(first, taken + {m}) + extra
  {
    var left := Left(first, taken);
    LeftMember(first, taken, m);
    var k :| 0 <= k < |left| && left[k] == m;
    assert (left + extra)[k] == m;
    assert at <= k;
    LeftWithout(first, taken, m, at);
  }

  /** Which messages are due is the same on the objects and on what they hold. */
  lemma DueView(queue: seq<Message>, clock: real)
    ensures View(DueMessages(queue, clock)) == Pick(View(queue), clock, true)
  {
    if queue != [] {
      var front := queue[..|queue| - 1];
      DueView(front, clock);
      assert View(queue)[..|queue| - 1] == View(front);
      var d := DueMessages(queue, clock);
      if queue[|queue| - 1].visibleAt <= clock {
        assert d[..|d| - 1] == DueMessages(front, clock);
      }
    }
  }

  /** `entries` is what the queue held when the drain began; only due messages have changed since. */
  lemma {:induction false} LeftView(queue: seq<Message>, entries: seq<Entry>, clock: real, taken: set<Message>)
    requires |queue| == |entries|
    requires forall i | 0 <= i < |queue| :: queue[i] in taken <==> entries[i].visibleAt <= clock
    requires forall i | 0 <= i < |queue| :: queue[i] !in taken ==> EntryOf(queue[i]) == entries[i]
    ensures View(Left(queue, taken)) == Pick(entries, clock, false)
  {
    if queue != [] {
      var front, last := queue[..|queue| - 1], queue[|queue| - 1];
      LeftView(front, entries[..|queue| - 1], clock, taken);
      var l := Left(queue, taken);
      if last in taken {
        assert l == Left(front, taken);
      } else {
        assert l[..|l| - 1] == Left(front, taken);
      }
    }
  }

  lemma {:induction false} DueDistinct(queue: seq<Message>, clock: real)
    requires Distinct(queue)
    ensures Distinct(DueMessages(queue, clock))
    ensures forall i | 0 <= i < |queue| :: queue[i] in DueMessages(queue, clock) <==> queue[i].visibleAt <= clock
  {
    if queue != [] {
      var front, last := queue[..|queue| - 1], queue[|queue| - 1];
      DueDistinct(front, clock);
      forall i | 0 <= i < |queue| && queue[i].visibleAt <= clock ensures queue[i] in DueMessages(queue, clock) {
        if i < |queue| - 1 {
          assert queue[i] == front[i];
        }
      }
    }
  }

  /** `due` is what a drain that starts in `start`, with the queue `first`, sets out to deliver. */
  ghost predicate Started(first: seq<Message>, due: seq<Message>, start: State) {
    && |due| == |Due(start)| && Distinct(due)
    && |first| == |start.queue| && Distinct(first)
    && (forall j | 0 <= j < |due| :: due[j] in first && due[j].visibleAt <= start.clock)
    && (forall j | 0 <= j < |first| :: first[j].visibleAt == start.queue[j].visibleAt)
    && (forall j | 0 <= j < |first| :: first[j].visibleAt <= start.clock ==> first[j] in due)
  }

  /** The first `i` of them. */
  ghost function Handed(due: seq<Message>, i: nat): (r: set<Message>)
    requires i <= |due|
  {
    set m | m in due[..i]
  }

  twostate lemma ViewUnchanged(queue: seq<Message>)
    requires forall i | 0 <= i < |queue| :: unchanged(queue[i])
    ensures View(queue) == old(View(queue))
  {
    assert forall i | 0 <= i < |queue| :: EntryOf(queue[i]) == old(EntryOf(queue[i]));
  }

  lemma ViewConcat(a: seq<Message>, b: seq<Message>)
    ensures View(a + b) == View(a) + View(b)
  {
  }

  /** What the executor does while it runs only appends to the queue, whatever is on it. */
  lemma {:induction false} PerformAllFrame(s: State, queue: seq<Entry>, effects: seq<Effect>)
    ensures var alone := PerformAll(s.(queue := []), effects);
            PerformAll(s.(queue := queue), effects) == alone.(queue := queue + alone.queue)
  {
    if effects != [] {
      PerformAllFrame(s, queue, effects[..|effects| - 1]);
    }
  }

  /** A delivery appends to the queue and otherwise does not look at it. */
  lemma DeliverFrame(bus: Bus, s: State, queue: seq<Entry>, e: Entry)
    ensures var alone := Deliver(bus, s.(queue := []), e);
            Deliver(bus, s.(queue := queue), e) == alone.(queue := queue + alone.queue)
    ensures SettleEntry(bus, s.(queue := queue), e) == SettleEntry(bus, s, e)
  {
    var v := SettleEntry(bus, s, e);
    if v.reply.Some? {
      PerformAllFrame(s.(calls := s.calls + 1), queue, v.reply.value.effects);
    }
  }

  lemma Associate<T>(a: seq<T>, b: seq<T>, c: seq<T>)
    ensures (a + b) + c == a + (b + c)
  {
  }

  lemma OneMoreOf<T>(s: seq<T>, i: nat)
    requires i < |s|
    ensures s[..i + 1] == s[..i] + [s[i]]
  {
  }

  lemma SamePrefix<T>(a: seq<T>, b: seq<T>, c: seq<T>)
    requires a + b == a + c
    ensures b == c
  {
    assert b == (a + b)[|a|..];
    assert c == (a + c)[|a|..];
  }

  /**
   * The code's queue in a drain is `left + extra`, where `left` shrinks by splicing; the
   * specification's is `rest + extra`. A delivery takes both to the same `extra`.
   */
  lemma DeliverElsewhere(bus: Bus, s: State, e: Entry, left: seq<Entry>, extra: seq<Entry>, rest: seq<Entry>,
                         more: seq<Entry>)
    requires s.queue == left + extra && Deliver(bus, s, e).queue == left + more
    ensures Deliver(bus, s.(queue := rest + extra), e) == Deliver(bus, s, e).(queue := rest + more)
    ensures SettleEntry(bus, s.(queue := rest + extra), e) == SettleEntry(bus, s, e)
  {
    DeliverFrame(bus, s, s.queue, e);
    DeliverFrame(bus, s, rest + extra, e);
    ghost var appended := Deliver(bus, s.(queue := []), e).queue;
    assert s.(queue := s.queue) == s;
    assert left + more == left + (extra + appended);
    SamePrefix(left, more, extra + appended);
    assert rest + extra + appended == rest + more;
  }

  lemma DrainedOneMore(bus: Bus, start: State, i: nat, s: State, left: seq<Entry>, extra: seq<Entry>, more: seq<Entry>)
    requires i < |Due(start)| && s.queue == left + extra
    requires s.(queue := WithoutDue(start).queue + extra) == DeliverAll(bus, WithoutDue(start), Due(start)[..i])
    requires Deliver(bus, s, Due(start)[i]).queue == left + more
    ensures Deliver(bus, s, Due(start)[i]).(queue := WithoutDue(start).queue + more)
            == DeliverAll(bus, WithoutDue(start), Due(start)[..i + 1])
    ensures SettleEntry(bus, s, Due(start)[i])
            == SettleEntry(bus, DeliverAll(bus, WithoutDue(start), Due(start)[..i]), Due(start)[i])
  {
    DeliverElsewhere(bus, s, Due(start)[i], left, extra, WithoutDue(start).queue, more);
    assert Due(start)[..i + 1][..i] == Due(start)[..i];
  }

  /** `queue.indexOf(message)`: the first place of `m`, or -1. */
  method IndexOf(queue: seq<Message>, m: Message) returns (at: int)
    ensures at == -1 <==> m !in queue
    ensures at != -1 ==> 0 <= at < |queue| && queue[at] == m && m !in queue[..at]
  {
    at := 0;
    while at < |queue|
      invariant 0 <= at <= |queue| && m !in queue[..at]
    {
      if queue[at] == m {
        return;
      }
      at := at + 1;
    }
    at := -1;
  }

  class MemoryTransport {
    const bus: Bus
    var queue: seq<Message>
    var deadLetters: seq<DeadLetter>
    var clock: real
    var calls: nat
    ghost var dead: seq<Buried>
    ghost var sent: seq<JobRef>
    ghost var done: seq<Acked>

    ghost predicate Valid()
      reads this
    {
      Distinct(queue) && deadLetters == Letters(dead)
    }

    ghost function Current(): State
      reads this, queue
    {
      State(View(queue), dead, clock, calls, sent, done)
    }

    constructor (executor: Executor, policy: Policy)
      ensures Valid() && bus == Bus(executor, policy) && Current() == EMPTY
    {
      bus := Bus(executor, policy);
      queue, deadLetters, clock, calls := [], [], 0.0, 0;
      dead, sent, done := [], [], [];
    }

    method Send(ref: JobRef, delaySeconds: real) returns (ghost message: Message)
      requires Valid()
      modifies this
      ensures Valid() && deadLetters == old(deadLetters)
      ensures fresh(message) && queue == old(queue) + [message]
      ensures Current() == Enqueue(old(Current()), ref, delaySeconds)
    {
      var m := new Message(ref, 0, clock + delaySeconds * 1000.0, []);
      queue := queue + [m];
      sent := sent + [ref];
      message := m;
    }

    method AdvanceClock(seconds: real)
      requires Valid()
      modifies this`clock
      ensures Valid() && Current() == Advance(old(Current()), seconds)
    {
      clock := clock + seconds * 1000.0;
    }

    /** The messages of the specification's queue are counted, due or not. */
    function Pending(): (n: nat)
      reads this, queue
      ensures n == |Current().queue|
    {
      |queue|
    }

    /** The part of an executor's run that touches this transport. */
    method Run(effects: seq<Effect>) returns (ghost more: seq<Message>)
      requires Valid()
      modifies this
      ensures Valid() && deadLetters == old(deadLetters)
      ensures fresh(more) && queue == old(queue) + more
      ensures Current() == PerformAll(old(Current()), effects)
    {
      more := [];
      for i := 0 to |effects|
        invariant Valid() && deadLetters == old(deadLetters)
        invariant fresh(more) && queue == old(queue) + more
        invariant Current() == PerformAll(old(Current()), effects[..i])
      {
        assert effects[..i + 1][..i] == effects[..i];
        match effects[i] {
          case Enqueues(ref, delaySeconds) =>
            ghost var message := Send(ref, delaySeconds);
            Associate(old(queue), more, [message]);
            more := more + [message];
          case Advances(seconds) =>
            AdvanceClock(seconds);
        }
      }
      assert effects[..|effects|] == effects;
    }

    /** Does with the message what the verdict on its delivery says. */
    method Conclude(message: Message, verdict: Verdict, ghost e: Entry) returns (ghost more: seq<Message>)
      requires Valid()
      requires message.ref == e.ref && message.attempt == e.attempt + 1
      requires message.answers == Heard(e.answers, verdict)
      modifies this
      ensures Valid()
      ensures fresh(more) && queue == old(queue) + more
      ensures Current() == Record(old(Current()), e, verdict)
    {
      more := [];
      match verdict.outcome {
        case Done =>
          done := done + [Acked(message.ref, message.answers)];
        case Retry(afterSeconds, _) =>
          var copy := new Message(message.ref, message.attempt, clock + afterSeconds * 1000.0, message.answers);
          queue := queue + [copy];
          more := [copy];
        case Failed(reason) =>
          deadLetters := deadLetters + [DeadLetter(message.ref, reason)];
          dead := dead + [Buried(message.ref, reason, message.answers)];
      }
    }

    /** One turn of the drain loop, for a message already spliced out of the queue. */
    method DeliverOne(message: Message) returns (outcome: JobOutcome, ghost more: seq<Message>)
      requires Valid() && message !in queue
      modifies this, message
      ensures Valid()
      ensures fresh(more) && queue == old(queue) + more
      ensures Current() == Deliver(bus, old(Current()), old(EntryOf(message)))
      ensures outcome == SettleEntry(bus, old(Current()), old(EntryOf(message))).outcome
    {
      message.attempt := message.attempt + 1;
      var verdict := Settle(message.ref, bus.executor, calls, message.attempt, bus.policy);
      outcome := verdict.outcome;
      message.answers := Heard(message.answers, verdict);
      ghost var sent, rest := [], [];
      if verdict.reply.Some? {
        calls := calls + 1;
        assert Current() == old(Current()).(calls := calls);
        sent := Run(verdict.reply.value.effects);
      }
      rest := Conclude(message, verdict, old(EntryOf(message)));
      Associate(old(queue), sent, rest);
      more := sent + rest;
    }

    /** `queue.splice(queue.indexOf(message), 1)` */
    method Splice(message: Message, ghost first: seq<Message>, ghost taken: set<Message>, ghost extra: seq<Message>)
      requires Valid() && queue == Left(first, taken) + extra
      requires Distinct(first) && message in first && message !in taken && message !in extra
      modifies this`queue
      ensures Valid() && queue == Left(first, taken + {message}) + extra
      ensures message !in queue
    {
      var at := IndexOf(queue, message);
      LeftMember(first, taken, message);
      assert message in Left(first, taken) + extra;
      SpliceLeft(first, taken, extra, message, at);
      SpliceDistinct(queue, at);
      queue := queue[..at] + queue[at + 1..];
    }

    /** The messages not yet delivered, and those that were not due, are as they were in `start`. */
    ghost predicate Still(first: seq<Message>, due: seq<Message>, start: State, i: nat)
      reads first, due
      requires |due| == |Due(start)| && |first| == |start.queue|
    {
      && (forall j | i <= j < |due| :: EntryOf(due[j]) == Due(start)[j])
      && (forall j | 0 <= j < |first| :: first[j].visibleAt > start.clock ==> EntryOf(first[j]) == start.queue[j])
    }

    /** The specification's drain, after `i` deliveries, but for the messages still to deliver. */
    ghost predicate Reached(start: State, i: nat, extra: seq<Message>)
      reads this, queue, extra
      requires i <= |Due(start)|
    {
      Current().(queue := WithoutDue(start).queue + View(extra)) == DeliverAll(bus, WithoutDue(start), Due(start)[..i])
    }

    /** What the deliveries of a drain that begins in `start` come to. */
    ghost function Told(start: State): (told: seq<JobOutcome>)
      ensures |told| == |Due(start)|
    {
      Outcomes(bus, WithoutDue(start), Due(start))
    }

    /** Where a drain that found `due` on the queue `first` stands after `i` deliveries. */
    ghost predicate Draining(first: seq<Message>, due: seq<Message>, start: State, i: nat, extra: seq<Message>)
      reads this, queue, first, due, extra
      requires Started(first, due, start) && i <= |due|
    {
      Valid() && queue == Left(first, Handed(due, i)) + extra && Still(first, due, start, i) && Reached(start, i, extra)
    }

    lemma StartsWith(due: seq<Message>)
      requires Valid() && due == DueMessages(queue, clock)
      ensures Started(queue, due, Current()) && View(due) == Due(Current())
    {
      DueView(queue, clock);
      DueDistinct(queue, clock);
    }

    lemma DrainStarts(due: seq<Message>)
      requires Valid() && due == DueMessages(queue, clock)
      ensures Started(queue, due, Current()) && Draining(queue, due, Current(), 0, [])
    {
      StartsWith(due);
      assert Handed(due, 0) == {};
      LeftAll(queue);
    }

    /** With every due message delivered, what is left of the starting queue is what was not due. */
    lemma DrainEnds(first: seq<Message>, due: seq<Message>, start: State, extra: seq<Message>)
      requires Started(first, due, start) && Draining(first, due, start, |due|, extra)
      ensures Current() == Drained(bus, start)
    {
      var left, taken := Left(first, Handed(due, |due|)), Handed(due, |due|);
      assert forall j | 0 <= j < |due| :: due[j] in taken;
      LeftView(first, start.queue, start.clock, taken);
      ViewConcat(left, extra);
      assert Due(start)[..|due|] == Due(start);
    }

    /** The delivery itself, with `message` spliced out and `less + extra` on the queue. */
    method DrainDeliver(message: Message, ghost less: seq<Message>, ghost extra: seq<Message>,
                        ghost start: State, ghost i: nat)
      returns (outcome: JobOutcome, ghost more: seq<Message>)
      requires Valid() && queue == less + extra && message !in queue
      requires i < |Due(start)| && EntryOf(message) == Due(start)[i]
      requires Current().(queue := WithoutDue(start).queue + View(extra))
               == DeliverAll(bus, WithoutDue(start), Due(start)[..i])
      modifies this, message
      ensures Valid() && fresh(more) && queue == less + (extra + more)
      ensures Current().(queue := WithoutDue(start).queue + View(extra + more))
              == DeliverAll(bus, WithoutDue(start), Due(start)[..i + 1])
      ensures outcome == SettleEntry(bus, DeliverAll(bus, WithoutDue(start), Due(start)[..i]), Due(start)[i]).outcome
    {
      ghost var before, left, tail := Current(), View(less), View(extra);
      ViewConcat(less, extra);
      assert forall k | 0 <= k < |less| :: less[k] != message by {
        assert forall k | 0 <= k < |less| :: queue[k] == less[k];
      }
      outcome, more := DeliverOne(message);
      Associate(less, extra, more);
      ViewConcat(less, extra + more);
      ViewUnchanged(less);
      DrainedOneMore(bus, start, i, before, left, tail, View(extra + more));
    }

    lemma StillOn(first: seq<Message>, due: seq<Message>, start: State, i: nat)
      requires Started(first, due, start) && i < |due| && Still(first, due, start, i)
      ensures due[i] in first && due[i] !in Handed(due, i) && EntryOf(due[i]) == Due(start)[i]
      ensures Handed(due, i + 1) == Handed(due, i) + {due[i]}
    {
    }

    method DrainTurn(message: Message, ghost first: seq<Message>, ghost due: seq<Message>, ghost start: State,
                     ghost i: nat, ghost extra: seq<Message>, ghost told: seq<JobOutcome>)
      returns (outcome: JobOutcome, ghost more: seq<Message>)
      requires Started(first, due, start) && i < |due| && due[i] == message
      requires Draining(first, due, start, i, extra) && told == Told(start)
      modifies this, message
      ensures Draining(first, due, start, i + 1, extra + more)
      ensures outcome == told[i]
    {
      StillOn(first, due, start, i);
      OnceOnly(first, Handed(due, i), extra, message);
      Splice(message, first, Handed(due, i), extra);
      outcome, more := DrainDeliver(message, Left(first, Handed(due, i + 1)), extra, start, i);
    }

    /** The loop of a drain that found `due` on the queue `first`. */
    method DeliverEach(due: seq<Message>, ghost first: seq<Message>, ghost start: State, ghost told: seq<JobOutcome>)
      returns (outcomes: seq<JobOutcome>, ghost extra: seq<Message>)
      requires Started(first, due, start) && Draining(first, due, start, 0, []) && told == Told(start)
      modifies this, due
      ensures Draining(first, due, start, |due|, extra)
      ensures outcomes == told
    {
      outcomes, extra := [], [];
      for i := 0 to |due|
        invariant Draining(first, due, start, i, extra)
        invariant outcomes == told[..i]
      {
        ghost var more;
        var outcome;
        outcome, more := DrainTurn(due[i], first, due, start, i, extra, told);
        OneMoreOf(told, i);
        outcomes := outcomes + [outcome];
        extra := extra + more;
      }
    }

    /** A whole drain, against its specification. */
    method Drain() returns (outcomes: seq<JobOutcome>)
      requires Valid()
      modifies this, queue
      ensures Valid()
      ensures Current() == Drained(bus, old(Current()))
      ensures outcomes == Outcomes(bus, WithoutDue(old(Current())), Due(old(Current())))
    {
      var due := DueMessages(queue, clock);
      ghost var start, first := Current(), queue;
      ghost var extra;
      DrainStarts(due);
      outcomes, extra := DeliverEach(due, first, start, Told(start));
      DrainEnds(first, due, start, extra);
    }
  }
}
