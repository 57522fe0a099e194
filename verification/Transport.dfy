/**
 * The transport contract: the reference that travels, the executor's answer to one delivery, and
 * the decision every adapter takes from it.
 */
module Transport {
  import opened Wrappers
  import Decimal

  const SUPPORTED_EVENT_VERSIONS: seq<int> := [1]

  datatype JobRef = JobRef(eventId: string, eventType: string, version: int)

  datatype JobOutcome =
    | Done
    | Retry(afterSeconds: real, reason: string)
    | Failed(reason: string)

  /** How one call of the executor ended: with an outcome, or with an exception of that name. */
  datatype Answer = Returns(outcome: JobOutcome) | Throws(name: string)

  /** What an executor may do to its own transport while it runs. */
  datatype Effect =
    | Enqueues(ref: JobRef, delaySeconds: real)
    | Advances(seconds: real)

  datatype Reply = Reply(answer: Answer, effects: seq<Effect>)

  /**
   * Any executor at all: a script that says what the n-th call does. The code never looks at `n`;
   * it stands for whatever the outside world remembers between calls.
   */
  type Executor = (nat, JobRef) -> Reply

  datatype Policy = Policy(maxAttempts: int, backoffSeconds: int -> real)

  predicate Supported(ref: JobRef) {
    ref.version in SUPPORTED_EVENT_VERSIONS
  }

  /** The executor asked for another delivery, in words or by throwing. */
  predicate AsksAgain(answer: Answer) {
    answer.Throws? || answer.outcome.Retry?
  }

  function ReasonOf(answer: Answer): string
    requires AsksAgain(answer)
  {
    if answer.Throws? then answer.name else answer.outcome.reason
  }

  function Unsupported(ref: JobRef): string {
    "unsupported event version " + Decimal.PrintInt(ref.version)
  }

  function GaveUp(attempt: nat, reason: string): string {
    "gave up after " + Decimal.Print(attempt) + " attempts: " + reason
  }

  /** One delivery, decided. `reply` is empty when the executor was not called. */
  datatype Verdict = Verdict(outcome: JobOutcome, reply: Option<Reply>)

  /**
   * What an answer comes to. Below the cap, what the executor returned stands, delay and reason
   * included, and a throw waits out the backoff; at the cap a request to try again is given up on.
   */
  predicate SettledAs(answer: Answer, attempt: nat, policy: Policy, outcome: JobOutcome) {
    && (answer.Returns? && (answer.outcome.Retry? ==> attempt < policy.maxAttempts) ==> outcome == answer.outcome)
    && (answer.Throws? && attempt < policy.maxAttempts ==>
          outcome == Retry(policy.backoffSeconds(attempt), answer.name))
    && (AsksAgain(answer) && attempt >= policy.maxAttempts ==>
          outcome == Failed("gave up after " + Decimal.Print(attempt) + " attempts: " + ReasonOf(answer)))
  }

  /** The one version there is. */
  lemma OnlyVersionOne(ref: JobRef)
    ensures Supported(ref) <==> ref.version == 1
  {
  }

  function Settle(ref: JobRef, executor: Executor, turn: nat, attempt: nat, policy: Policy): (v: Verdict)
    ensures v.reply.Some? <==> Supported(ref)
    ensures v.outcome.Done? <==> v.reply.Some? && v.reply.value.answer == Returns(Done)
    ensures v.outcome.Retry? <==>
            v.reply.Some? && AsksAgain(v.reply.value.answer) && attempt < policy.maxAttempts
    ensures Supported(ref) ==> v.reply == Some(executor(turn, ref))
    ensures Supported(ref) ==> SettledAs(executor(turn, ref).answer, attempt, policy, v.outcome)
    ensures !Supported(ref) ==>
            v.outcome == Failed("unsupported event version " + Decimal.PrintInt(ref.version))
  {
    if !Supported(ref) then
      Verdict(Failed(Unsupported(ref)), None)
    else
      var reply := executor(turn, ref);
      var outcome := match reply.answer
        case Returns(outcome) => outcome
        case Throws(name) => Retry(policy.backoffSeconds(attempt), name);
      if outcome.Retry? && attempt >= policy.maxAttempts then
        Verdict(Failed(GaveUp(attempt, outcome.reason)), Some(reply))
      else
        Verdict(outcome, Some(reply))
  }
}
