/** How long a message that always throws stays in the in-process transport. */
module MemoryBackoff {
  import opened Powers
  import opened Transport
  import opened MemoryTransport
  import opened MemoryRuns

  /** `2 ** k` */
  function TwoTo(k: int): real {
    if k >= 0 then Pow2(k) as real else 1.0 / Pow2(-k) as real
  }

  /** The default backoff: 30, 60, 120, ... seconds after the first, second, third, ... delivery. */
  function DefaultBackoff(attempt: int): real {
    30.0 * TwoTo(attempt - 1)
  }

  /** The default backoffs after the first `n` deliveries, added up. */
  function TotalWait(n: nat): real {
    if n == 0 then 0.0 else TotalWait(n - 1) + DefaultBackoff(n)
  }

  lemma {:induction false} TotalWaitClosed(n: nat)
    ensures TotalWait(n) == 30.0 * (Pow2(n) as real - 1.0)
  {
    if n > 0 {
      TotalWaitClosed(n - 1);
    }
  }

  function Thrower(name: string, maxAttempts: int): Bus {
    Bus((turn, ref) => Reply(Throws(name), []), Policy(maxAttempts, DefaultBackoff))
  }

  predicate Forward(op: Op) {
    match op
    case Send(_, delaySeconds) => delaySeconds >= 0.0
    case Wait(seconds) => seconds >= 0.0
    case Drain => true
  }

  /** No message has been delivered `n` times before the first `n - 1` backoffs are over. */
  ghost predicate NotEarly(bus: Bus, s: State) {
    && s.clock >= 0.0
    && (forall i | 0 <= i < |s.queue| :: s.queue[i].visibleAt >= 1000.0 * TotalWait(s.queue[i].attempt))
    && (forall i | 0 <= i < |s.dead| && Supported(s.dead[i].ref) ::
          s.clock >= 1000.0 * TotalWait(Cap(bus.policy) - 1))
  }

  lemma DeliverNotEarly(name: string, maxAttempts: int, s: State, e: Entry)
    requires NotEarly(Thrower(name, maxAttempts), s) && Waiting(Thrower(name, maxAttempts), e)
    requires 1000.0 * TotalWait(e.attempt) <= e.visibleAt <= s.clock
    ensures NotEarly(Thrower(name, maxAttempts), Deliver(Thrower(name, maxAttempts), s, e))
    ensures Deliver(Thrower(name, maxAttempts), s, e).clock == s.clock
  {
    var v := SettleEntry(Thrower(name, maxAttempts), s, e);
    assert v.outcome.Retry? ==> v.outcome.afterSeconds == DefaultBackoff(e.attempt + 1);
    assert Ran(s, v).clock == s.clock && Ran(s, v).queue == s.queue;
    if Supported(e.ref) && !v.outcome.Retry? {
      assert e.attempt == Cap(Thrower(name, maxAttempts).policy) - 1;
    }
  }

  lemma {:induction false} DrainNotEarly(name: string, maxAttempts: int, s: State, due: seq<Entry>)
    requires NotEarly(Thrower(name, maxAttempts), s)
    requires forall i | 0 <= i < |due| :: Waiting(Thrower(name, maxAttempts), due[i])
    requires forall i | 0 <= i < |due| :: 1000.0 * TotalWait(due[i].attempt) <= due[i].visibleAt <= s.clock
    ensures NotEarly(Thrower(name, maxAttempts), DeliverAll(Thrower(name, maxAttempts), s, due))
    ensures DeliverAll(Thrower(name, maxAttempts), s, due).clock == s.clock
  {
    if due != [] {
      DrainNotEarly(name, maxAttempts, s, due[..|due| - 1]);
      DeliverNotEarly(name, maxAttempts, DeliverAll(Thrower(name, maxAttempts), s, due[..|due| - 1]), due[|due| - 1]);
    }
  }

  /** In no run can a message that always throws wear out before the backoffs of `cap - 1` deliveries are over. */
  lemma {:induction false} NeverEarly(name: string, maxAttempts: int, ops: seq<Op>)
    requires forall i | 0 <= i < |ops| :: Forward(ops[i])
    ensures NotEarly(Thrower(name, maxAttempts), Run(Thrower(name, maxAttempts), EMPTY, ops))
  {
    if ops != [] {
      var bus, before, last := Thrower(name, maxAttempts), ops[..|ops| - 1], ops[|ops| - 1];
      NeverEarly(name, maxAttempts, before);
      assert Forward(last);
      if last.Drain? {
        var s := Run(bus, EMPTY, before);
        EveryFate(bus, before);
        DrainNotEarly(name, maxAttempts, WithoutDue(s), Due(s));
      }
    }
  }

  /** Draining, then waiting out the backoff, `n` times over. */
  function Patiently(n: nat): seq<Op> {
    if n == 0 then [] else Patiently(n - 1) + [Drain, Wait(DefaultBackoff(n))]
  }

  function Answers(name: string, n: nat): seq<Answer> {
    seq(n, i => Throws(name))
  }

  lemma RunThen(bus: Bus, s: State, a: seq<Op>, op: Op)
    ensures Run(bus, s, a + [op]) == Step(bus, Run(bus, s, a), op)
  {
    assert (a + [op])[..|a|] == a;
  }

  lemma RunSplits(bus: Bus, s: State, a: seq<Op>, op1: Op, op2: Op)
    ensures Run(bus, s, a + [op1, op2]) == Step(bus, Step(bus, Run(bus, s, a), op1), op2)
  {
    RunThen(bus, s, a, op1);
    RunThen(bus, s, a + [op1], op2);
    assert a + [op1] + [op2] == a + [op1, op2];
  }

  lemma PickOne(e: Entry, clock: real, due: bool)
    ensures Pick([e], clock, due) == if (e.visibleAt <= clock) == due then [e] else []
  {
    assert [e][..0] == [];
    assert Pick([e][..0], clock, due) == [];
  }

  lemma DrainOne(bus: Bus, s: State, e: Entry)
    requires s.queue == [e] && e.visibleAt <= s.clock
    ensures Drained(bus, s) == Deliver(bus, s.(queue := []), e)
  {
    PickOne(e, s.clock, true);
    PickOne(e, s.clock, false);
    assert [e][..0] == [];
    assert DeliverAll(bus, WithoutDue(s), []) == WithoutDue(s);
  }

  /** One more throw: a retry below the cap, a dead letter at it. */
  lemma ThrowsOnce(name: string, maxAttempts: int, s: State, n: nat)
    requires |s.queue| == 1 && Supported(s.queue[0].ref) && s.queue[0].visibleAt <= s.clock
    requires s.queue[0].attempt == n && s.queue[0].answers == Answers(name, n)
    ensures Drained(Thrower(name, maxAttempts), s) ==
            var ref, heard := s.queue[0].ref, Answers(name, n + 1);
            if n + 1 < maxAttempts
            then s.(calls := s.calls + 1,
                    queue := [Entry(ref, n + 1, s.clock + 1000.0 * DefaultBackoff(n + 1), heard)])
            else s.(calls := s.calls + 1, queue := [],
                    dead := s.dead + [Buried(ref, GaveUp(n + 1, name), heard)])
  {
    DrainOne(Thrower(name, maxAttempts), s, s.queue[0]);
    assert Answers(name, n + 1) == Answers(name, n) + [Throws(name)];
  }

  /** One message, thrown at `n` times, due at this moment. */
  function Waited(name: string, ref: JobRef, n: nat): State {
    var now := 1000.0 * TotalWait(n);
    State([Entry(ref, n, now, Answers(name, n))], [], now, n, [ref], [])
  }

  lemma PatienceStep(name: string, maxAttempts: int, ref: JobRef, n: nat)
    requires Supported(ref) && n + 1 < maxAttempts
    ensures Advance(Drained(Thrower(name, maxAttempts), Waited(name, ref, n)), DefaultBackoff(n + 1))
            == Waited(name, ref, n + 1)
  {
    ThrowsOnce(name, maxAttempts, Waited(name, ref, n), n);
  }

  lemma PatienceOn(name: string, maxAttempts: int, ref: JobRef, start: State, n: nat)
    requires Supported(ref) && n + 1 < maxAttempts
    requires Run(Thrower(name, maxAttempts), start, Patiently(n)) == Waited(name, ref, n)
    ensures Run(Thrower(name, maxAttempts), start, Patiently(n + 1)) == Waited(name, ref, n + 1)
  {
    RunSplits(Thrower(name, maxAttempts), start, Patiently(n), Drain, Wait(DefaultBackoff(n + 1)));
    PatienceStep(name, maxAttempts, ref, n);
  }

  lemma {:induction false} PatienceWaits(name: string, maxAttempts: int, ref: JobRef, n: nat)
    requires Supported(ref) && n < Cap(Policy(maxAttempts, DefaultBackoff))
    ensures Run(Thrower(name, maxAttempts), Enqueue(EMPTY, ref, 0.0), Patiently(n)) == Waited(name, ref, n)
  {
    if n > 0 {
      PatienceWaits(name, maxAttempts, ref, n - 1);
      PatienceOn(name, maxAttempts, ref, Enqueue(EMPTY, ref, 0.0), n - 1);
    } else {
      assert Answers(name, 0) == [];
    }
  }

  /** A message that always throws, once it has worn out. */
  function WornOut(name: string, ref: JobRef, n: nat): State
    requires n >= 1
  {
    State([], [Buried(ref, GaveUp(n, name), Answers(name, n))], 1000.0 * TotalWait(n - 1), n, [ref], [])
  }

  lemma LastThrow(name: string, maxAttempts: int, ref: JobRef)
    requires Supported(ref) && maxAttempts >= 1
    ensures Drained(Thrower(name, maxAttempts), Waited(name, ref, maxAttempts - 1)) == WornOut(name, ref, maxAttempts)
  {
    ThrowsOnce(name, maxAttempts, Waited(name, ref, maxAttempts - 1), maxAttempts - 1);
  }

  lemma WornOutClosed(name: string, ref: JobRef, n: nat)
    requires n >= 1
    ensures WornOut(name, ref, n) ==
            State([], [Buried(ref, GaveUp(n, name), Answers(name, n))],
                  1000.0 * (30.0 * (Pow2(n - 1) as real - 1.0)), n, [ref], [])
  {
    TotalWaitClosed(n - 1);
  }

  /** ... and draining patiently, it wears out at exactly that time: 30 * (2^(maxAttempts - 1) - 1) seconds. */
  lemma WearsOutThen(name: string, maxAttempts: int, ref: JobRef)
    requires Supported(ref) && maxAttempts >= 1
    ensures Run(Thrower(name, maxAttempts), Enqueue(EMPTY, ref, 0.0), Patiently(maxAttempts - 1) + [Drain]) ==
            State([], [Buried(ref, GaveUp(maxAttempts, name), Answers(name, maxAttempts))],
                  1000.0 * (30.0 * (Pow2(maxAttempts - 1) as real - 1.0)), maxAttempts, [ref], [])
  {
    var bus, start, n := Thrower(name, maxAttempts), Enqueue(EMPTY, ref, 0.0), maxAttempts - 1;
    PatienceWaits(name, maxAttempts, ref, n);
    RunThen(bus, start, Patiently(n), Drain);
    LastThrow(name, maxAttempts, ref);
    WornOutClosed(name, ref, maxAttempts);
  }
}
