# Verified models of the event bus, the scheduler and the site's canonical forms

A Dafny model of the parts of the repository where a mistake is quiet: an event lost or run twice, a
date compared wrongly, a search that never ends, a redirect that loops, an address that reads back
as something else. Each module follows one source file, in that file's own form: what the source
does by changing objects is a class or a loop proved against a function on values, and the
properties are lemmas about that function, for every input and every run.

| module | models |
|---|---|
| `Transport` | `settle`: one delivery of an event reference, decided |
| `MemoryTransport`, `MemoryRuns`, `MemoryBackoff` | the in-process queue: its objects, whole runs of it, and how long a message can stay |
| `CloudflareQueues`, `AdapterAgreement` | the batch consumer, and the proof that it simulates the in-process queue |
| `Dispatcher` | the lease on an outbox row, with any number of dispatchers, fenced or not |
| `PostgresPoller` | the poll of the outbox, and its fairness |
| `Scheduler` | the closure that replaces cron triggers, over whole runs |
| `Calendar`, `Phase` | `YYYY-MM-DD` dates as strings and as day numbers; campaign phases |
| `Slug` | the cut to 60 characters and the search for a free slug |
| `Routes` | the redirects from old addresses |
| `DirectoryFilters` | the game-master list's filters, read and printed |
| `CampaignUrl` | the canonical form of a campaign link, and its platform |
| `FrontmatterValue`, `Frontmatter` | the block on top of a blog post: its values in every spelling, and the file, read and printed |
| `Pager`, `Changelog` | page numbers, page contents, links to a release |
| `Decimal`, `Powers`, `Text`, `Sets`, `Wrappers` | numerals, powers of two, white space and case, finite sets, the optional value |

## How the outside world appears

- An executor is any function from the number of the call and the reference to an answer (`done`,
  `retry`, `failed`, or an exception) together with what it does to its own transport meanwhile.
  Nothing is assumed of it except where a lemma says so.
- `drain` calls do not overlap, which the code needs: `queue.splice(queue.indexOf(message), 1)` would
  remove another message if a second drain had taken this one. The model's runs are sequences of
  whole drains; what the executor enqueues during a drain is part of that drain.
- The platform behind the batch consumer is a queue that hands over what is due, keeps what was
  retried for as long as it was told to, and counts deliveries from 1.
- Seconds and milliseconds of delays are real numbers; no rounding of floating point is modelled.
- The database gives a poll the rows its query describes, rows of one instant in any order. A poller's
  executor may do anything to the table; fairness is proved for those that change only the row they
  are given. Some rows they may leave due with any answer at all (a throw, a row handed on, a lease
  held elsewhere); the others they take off the due ones.
- Each conditional `UPDATE` of an event is one atomic step, and dispatchers interleave between them.
  A dispatcher's clock may lag behind the world's, but does not run ahead of it.
- The parser of URLs (which makes of a printed canonical form the parts it was printed from), the order of `localeCompare` (any total preorder) and what `@sindresorhus/slugify`
  returns (any well-formed or empty slug) are parameters or preconditions.

## What the proofs found

- **Unfenced leases** (`Dispatcher.SafeExactlyWhenFenced`): every run of a fleet is safe if and only
  if all its dispatchers are fenced; one without a token among fenced ones is enough. Once its lease
  has run out it still frees the row under the next holder, marks the same handler a second time, and
  counts a failure on a processed event; three lemmas give the runs. The comment at
  `packages/db/src/schema.ts:555-556` (an overtaken dispatcher cannot finish or release the new claim)
  holds for fenced claims only. What the unfenced path does promise is `Dispatcher.TimelyRunsAreSafe`:
  in any mix, a run is safe in which those without a token write only within their leases.
- **Adapters** (`AdapterAgreement.DefaultsAgreeUpTo12`): with the default backoffs the two queues
  agree on every run if and only if `maxAttempts <= 12`; the twelve-hour cap first bites at 13.
- **Invalid dates** (`Calendar.AcceptsExactlyRealDates`): both date checks accept exactly the real
  days, but they throw, not return false, on a month or day that no calendar has (`2026-13-01`).
- **Redirect chains** (`Routes.IdempotentExactly`): `canonicalPath` is idempotent exactly when at most
  one locale can be taken off; with more, each redirect takes one.
- **Directory addresses** (`DirectoryFilters.ReaderIsNormalWhen`): what the reader makes of a link need
  not be a form it would read back. Over whole characters it is one exactly when the query, trimmed
  and with one `@` off, has neither a second `@` nor white space in front, and no white space where it
  is cut to 100. `@@x`, `@ x` and a text whose hundredth character is a space fail. Over UTF-16 units
  there is one more failing class, outside the model: a cut through a surrogate pair (99 letters, an
  emoji and more text) leaves half a character, which the address prints as U+FFFD. Within the model
  an address settles after at most a hundred rereadings.
- **Campaign links** (`CampaignUrl.IdempotentExactly`): normalising a canonical form gives it back exactly
  when it has at most 2048 characters, read off the given link, and the given host, in lower case and
  without the dots at its end, does not start with `www.www.`. Only one `www.` comes off, so
  `https://www.www.me/` has a canonical form that is not its own. And printing adds a sign to each
  key without a value, so `https://catarse.me/?a` with 1013 times `&a` behind it (2047 characters) is
  accepted under a form of 3060 that is then refused (`CampaignUrl.GrowsTooLong`).
- **Frontmatter keys** (`Frontmatter.FileRoundTrip`): the key `constructor` is refused as repeated on its
  first use, because `in` finds it on every object.
- **Frontmatter lists** (`FrontmatterValue.ItemReads`): quotes do not keep a comma in a list; a text
  comes back from one exactly when it is not empty and holds none.
- **Changelog links** (`Changelog.LinksLandExactly`): a link lands exactly when a release of its date has
  a change and is, among those that have, on the page of the first release of that date; empty
  releases before it can shift it to an earlier page.

## Model

| member | source | states |
|---|---|---|
| Transport.Settle | packages/events/src/transport.ts:42-73 | the executor is called exactly for a supported version, with this reference; below the cap what it returned stands, delay and reason included, and a throw waits out the backoff; at the cap a request to try again is given up on, with its reason |
| Transport.OnlyVersionOne | packages/events/src/transport.ts:7-8 | version 1 is the one supported |
| MemoryTransport.MemoryTransport.Send | packages/events/src/memory-transport.ts:30-34 | a send appends one message, due after its delay, and touches nothing else |
| MemoryTransport.MemoryTransport.Pending | packages/events/src/memory-transport.ts:62 | the count covers every waiting message, due or not |
| MemoryTransport.MemoryTransport.DeliverOne | packages/events/src/memory-transport.ts:41-53 | one turn of the loop mutates the message's attempt and takes the transport from any state to the specified next one, whatever the executor sends meanwhile |
| MemoryTransport.MemoryTransport.DrainTurn | packages/events/src/memory-transport.ts:40-54 | one turn of the loop splices its message out, delivers it and leaves the rest of the queue as the specification has it, with the specified outcome |
| MemoryTransport.MemoryTransport.DeliverEach | packages/events/src/memory-transport.ts:39-55 | the loop delivers each of the due messages once, and returns their outcomes in order |
| MemoryTransport.MemoryTransport.Drain | packages/events/src/memory-transport.ts:37-56 | the splicing loop ends in the state of the specification, in which the messages due at the start are delivered once each and in order behind the untouched rest, and returns their outcomes |
| MemoryTransport.LeftWithout | packages/events/src/memory-transport.ts:41 | splicing the message out at its index leaves exactly the queue without that message |
| MemoryTransport.DeliverElsewhere | packages/events/src/memory-transport.ts:40-53 | a delivery depends on nothing that waits in the queue, so splicing during the loop and removing all due messages first come to the same |
| MemoryRuns.NothingIsLost | packages/events/src/memory-transport.ts:30-67 | over every run: each reference was sent as often as it waits, was acknowledged or is dead; and the executor was called once per recorded answer |
| MemoryRuns.EveryFate | packages/events/src/transport.ts:54-72 | over every run: what waits is below the cap and was only asked to retry; what was acknowledged was answered `done` once, last; what is dead had an unreadable version and no call, an explicit `failed`, or as many retries or throws as the cap, with the matching reason |
| MemoryRuns.DeliveriesEnd | packages/events/src/memory-transport.ts:37-56 | once sending stops, all later deliveries together fit the attempts left in the queue |
| MemoryRuns.DrainsDeliver | packages/events/src/memory-transport.ts:37-56 | drains that are never idle while a message waits are at most as many as those deliveries, unless the queue is empty |
| MemoryRuns.QueueEmpties | packages/events/src/memory-transport.ts:37-56 | so as many such drains as attempts were left leave the queue empty |
| MemoryRuns.OneDrain | packages/events/src/memory-transport.ts:37-56 | one drain gives one outcome per message due at its start and one call per readable one; the rest keep place and order, and behind them is only what was sent meanwhile or retried once |
| MemoryRuns.DeliveryWaits | packages/events/src/memory-transport.ts:43-50 | a delivery below the cap that asks for a delay, in words or by throwing, leaves the message due that long after the clock as its own call left it |
| MemoryRuns.RetriesWait | packages/events/src/memory-transport.ts:37-56 | so after a drain each message whose call asked for a delay is on the queue, one attempt on, and due exactly then |
| MemoryRuns.PickJoins | packages/events/src/memory-transport.ts:38 | due messages are taken in the order of the queue |
| MemoryRuns.PickSplits | packages/events/src/memory-transport.ts:38 | the due and the other messages make up the queue |
| MemoryBackoff.TotalWaitClosed | packages/events/src/memory-transport.ts:24 | the first n default backoffs add up to 30 (2^n - 1) seconds |
| MemoryBackoff.NeverEarly | packages/events/src/memory-transport.ts:24-56 | in no run does a message that always throws get its n-th delivery, or wear out, before that time |
| MemoryBackoff.PatienceWaits | packages/events/src/memory-transport.ts:24-56 | draining and waiting out each backoff, it is where the closed form says after n deliveries |
| MemoryBackoff.WearsOutThen | packages/events/src/memory-transport.ts:24-56 | and it is dead after exactly 30 (2^(maxAttempts - 1) - 1) seconds and maxAttempts calls |
| CloudflareQueues.ReadsAs | packages/events/src/cloudflare-queues.ts:83-92 | a body reads as a reference exactly when it carries its three fields and a non-empty id |
| CloudflareQueues.DelaySurvives | packages/events/src/cloudflare-queues.ts:52-57 | a delay survives the ceiling and the clamp, on sending and on retrying, exactly when it is a whole number in 0..43200 |
| CloudflareQueues.SendDelayIs | packages/events/src/cloudflare-queues.ts:57 | a delay on sending is rounded up to a whole second and kept within 0 and 43200 |
| CloudflareQueues.RetryDelayIs | packages/events/src/cloudflare-queues.ts:128 | on retrying it is rounded up and kept at most 43200 |
| CloudflareQueues.TallyCounts | packages/events/src/cloudflare-queues.ts:137-144 | done, retried and failed are the numbers of outcomes that are done, retries and failures |
| CloudflareQueues.QueueConsumer.Send | packages/events/src/cloudflare-queues.ts:54-66 | only the reference is offered to the queue, with the clamped delay |
| CloudflareQueues.QueueConsumer.SettleOne | packages/events/src/cloudflare-queues.ts:113-134 | each message is retried, with the delay of its outcome, exactly for a retry, and acknowledged otherwise; a malformed one is acknowledged and reported without a call |
| CloudflareQueues.QueueConsumer.HandleOne | packages/events/src/cloudflare-queues.ts:138-143 | one turn of the loop settles its message by its own outcome and counts it |
| CloudflareQueues.QueueConsumer.HandleBatch | packages/events/src/cloudflare-queues.ts:136-145 | every message of the batch is settled by its own outcome; each counter is the number of outcomes of its kind, and retried the number of messages told to come again |
| AdapterAgreement.SettlesAlike | packages/events/src/cloudflare-queues.ts:120-128 | both adapters reach the same verdict on a stored message, delay included |
| AdapterAgreement.SameDelivery | packages/events/src/cloudflare-queues.ts:113-134 | one delivery takes corresponding states to corresponding states |
| AdapterAgreement.SameDrain | packages/events/src/cloudflare-queues.ts:136-145 | one batch corresponds to one drain |
| AdapterAgreement.AdaptersAgree | packages/events/src/cloudflare-queues.ts:102-146 | over every run, for every executor whose own delays are whole seconds in 0..43200, the consumer's queue is the image of the in-process one: references, attempts, delays, dead letters, calls and clock |
| AdapterAgreement.SameWait | packages/events/src/cloudflare-queues.ts:105 | the two default backoffs are equal exactly up to the eleventh delivery |
| AdapterAgreement.QueueBackoffDoubles | packages/events/src/cloudflare-queues.ts:105 | the consumer's default backoff doubles from 30 seconds to 12 hours |
| AdapterAgreement.SameDefaults | packages/events/src/cloudflare-queues.ts:104-105 | they agree below the cap exactly when maxAttempts is at most 12 |
| AdapterAgreement.StubbornDisagrees | packages/events/src/cloudflare-queues.ts:104-128 | above 12 one executor and one run tell the adapters apart |
| AdapterAgreement.DefaultsAgreeUpTo12 | packages/events/src/cloudflare-queues.ts:102-146 | with the defaults, all executors and runs agree if and only if maxAttempts is at most 12 |
| Dispatcher.BackoffDoubles | packages/core/src/server/events/dispatcher.ts:16-17 | 30 seconds, doubled per failure, at most 3600 |
| Dispatcher.ClaimExactly | packages/core/src/server/events/dispatcher.ts:36-42 | a claim takes exactly a row that is unfinished, on its first attempt or due, and under nobody's lease, for two minutes, and otherwise changes nothing |
| Dispatcher.ClaimedExactly | packages/core/src/server/events/dispatcher.ts:154-165 | it runs the handlers not yet handled that are its own, and counts the others not handled |
| Dispatcher.SelectJoins | packages/core/src/server/events/dispatcher.ts:154-165 | in their order |
| Dispatcher.SucceedExactly | packages/core/src/server/events/dispatcher.ts:184-194 | a handler that returns is marked on the row, or the dispatcher finds its lease lost and stops |
| Dispatcher.FailExactly | packages/core/src/server/events/dispatcher.ts:201-210 | one that throws is counted, and the next one runs |
| Dispatcher.ConcludeExactly | packages/core/src/server/events/dispatcher.ts:213-275 | processed exactly when no handler failed and none is left, whatever failed before; handed on exactly when none failed and some are left; else one attempt more, with the backoff below eight and given up on at eight; nothing when the lease is lost |
| Dispatcher.ForceExactly | packages/core/src/server/events/dispatcher.ts:307-325 | an admin's run makes due exactly a row that is not processed and under nobody's lease, and starts a given-up one over |
| Dispatcher.FencedRunsKeep | packages/core/src/server/events/dispatcher.ts:99-276 | fenced, after every interleaving of claims, handler successes and failures, conclusions and forced retries: at most one unexpired lease, no handler marked twice, never processed and given up, given up exactly at eight attempts |
| Dispatcher.TimelyRunsKeep | packages/core/src/server/events/dispatcher.ts:99-276 | in any mix, the invariant behind that is kept by every run in which dispatchers without a token write only within their leases |
| Dispatcher.TimelyRunsAreSafe | packages/core/src/server/events/dispatcher.ts:107-142 | so those runs are safe too |
| Dispatcher.OvertakenForGood | packages/core/src/server/events/dispatcher.ts:109-117 | a token that lost the row never owns it again, however fenced and unfenced dispatchers mix |
| Dispatcher.OvertakenChangesNothing | packages/core/src/server/events/dispatcher.ts:141-144 | so its holder's later steps leave the row alone and report the loss, but for a handler's failure, which updates nothing |
| Dispatcher.ProcessedIsTrue | packages/core/src/server/events/dispatcher.ts:228-239 | a dispatcher that is fenced, or within its lease, reports `done` exactly when its update lands with no failure and none left, and then every one of its handlers is marked on the processed row |
| Dispatcher.ProcessedIsFinal | packages/core/src/server/events/dispatcher.ts:19-42 | no step of any later run changes a processed row, unless a dispatcher without a token writes after its lease |
| Dispatcher.DueAfterConclusion | packages/core/src/server/events/dispatcher.ts:213-267 | a row its holder concludes is due at once exactly when no handler failed, some are left to someone else, and its time had come |
| Dispatcher.UnfencedSharesTheLease | packages/core/src/server/events/dispatcher.ts:142 | one dispatcher without a token, its lease over, frees the row under the next: two unexpired leases at once, whether the other two are fenced or not |
| Dispatcher.UnfencedRunsTwice | packages/core/src/server/events/dispatcher.ts:184-189 | it marks a handler that a second dispatcher, fenced or not, marks as well |
| Dispatcher.UnfencedReopens | packages/core/src/server/events/dispatcher.ts:241-267 | it counts a failure on an event that a second dispatcher, fenced or not, has processed |
| Dispatcher.SafeExactlyWhenFenced | packages/core/src/server/events/dispatcher.ts:107-142 | for every set of dispatchers that may claim without a token, all runs are safe if and only if the set is empty |
| PostgresPoller.SelectableExactly | packages/events/src/postgres-poller.ts:33-39 | a row is selected by version 1, neither processed nor given up on, its time and an open lease |
| PostgresPoller.OldestFirst | packages/events/src/postgres-poller.ts:41-42 | a poll takes its rows oldest first, and leaves a row only when it is full of rows no younger |
| PostgresPoller.CountsAll | packages/events/src/postgres-poller.ts:44-60 | tried is the number of answers; done, retry and failed are the numbers of those that say done, throw or ask again, and say failed |
| PostgresPoller.Outbox.TryRow | packages/events/src/postgres-poller.ts:45-58 | one turn of the loop hands the row over on the table the one before left, and counts the answer |
| PostgresPoller.Outbox.Poll | packages/events/src/postgres-poller.ts:24-61 | each selected row is handed to the executor once, in order, on the table the one before left; each counter is the number of answers of its kind, a throw among the retries |
| PostgresPoller.RowsLeave | packages/events/src/postgres-poller.ts:45-56 | handing out rows changes at most those, and takes those not stuck off the due ones |
| PostgresPoller.PollTakes | packages/events/src/postgres-poller.ts:45-59 | a poll takes exactly the waiting rows it tried off the waiting ones |
| PostgresPoller.PollProgress | packages/events/src/postgres-poller.ts:32-42 | it tries all that wait, or at least the limit less the stuck rows |
| PostgresPoller.OthersUntouched | packages/events/src/postgres-poller.ts:33-39 | rows that are not due, are leased, or have an unsupported version are never tried nor changed, over any number of polls |
| PostgresPoller.WaitingShrinks | packages/events/src/postgres-poller.ts:24-61 | over n polls the waiting rows shrink by that much each time, and exactly those that left were tried, once |
| PostgresPoller.EveryRowHasItsTurn | packages/events/src/postgres-poller.ts:24-61 | with fewer stuck rows than the limit, whatever the executor answers on those, each other waiting row is tried exactly once within ceil(M / (limit - stuck)) polls |
| Scheduler.Scheduler.FireCron | apps/worker/src/scheduler.ts:30-38 | a job starts exactly when it is not busy |
| Scheduler.Scheduler.Tick | apps/worker/src/scheduler.ts:41-60 | a tick takes the closure's four variables to the specified next state |
| Scheduler.Scheduler.Finish | apps/worker/src/scheduler.ts:33-37 | a job that ends, well or badly, is no longer busy, and nothing else changes |
| Scheduler.DueExactly | apps/worker/src/scheduler.ts:45-55 | the sweep is due after sweepEverySeconds, the logo search after 600 seconds if it is on, the import from 04:00 UTC on a new day |
| Scheduler.OpensWhen | apps/worker/src/scheduler.ts:54-55 | in milliseconds: day * 86400000 + 14400000 up to the end of the day |
| Scheduler.TickSets | apps/worker/src/scheduler.ts:45-58 | each of the three times is set exactly when its own job is due, busy or not |
| Scheduler.TickMarks | apps/worker/src/scheduler.ts:45-58 | a tick attempts exactly the due jobs, in order, and starts those not busy |
| Scheduler.BusyIsInFlight | apps/worker/src/scheduler.ts:25-38 | under every interleaving of ticks and endings `busy` is exactly the set of jobs in flight |
| Scheduler.NoOverlap | apps/worker/src/scheduler.ts:25-38 | between two starts of one cron, in any run, the first has ended |
| Scheduler.StartsAreRare | apps/worker/src/scheduler.ts:45-53 | n starts of the sweeper or the logo search in a window need n - 1 periods of it, so there are at most floor(W / period) + 1 |
| Scheduler.SweepsAreRegular | apps/worker/src/scheduler.ts:45-48 | with ticks at most d apart, sweep attempts are less than a period and d apart |
| Scheduler.SameUtcDay | apps/worker/src/scheduler.ts:54-55 | two instants print the same day exactly when they are in the same UTC day |
| Scheduler.OneImportADay | apps/worker/src/scheduler.ts:54-58 | for each UTC day the import is attempted once if a tick came in the window from 14400000 ms after midnight to its end and not otherwise, and starts exactly when none was in flight at the first such tick |
| Calendar.StringOrder | packages/core/src/crowdfunding/phase.ts:32-33 | dates of four, two and two digits are in string order exactly when in order by year, month and day |
| Calendar.DateOrder | packages/core/src/crowdfunding/phase.ts:20-35 | the date order theorem: real dates compare as strings exactly as their day numbers do |
| Calendar.NextDay | packages/core/src/crowdfunding/phase.ts:20 | the next calendar date has the next day number |
| Calendar.Epoch | packages/core/src/crowdfunding/phase.ts:20 | counted from 1 January 1970 |
| Calendar.MonthLengths | packages/core/src/crowdfunding/schema.ts:12-14 | how long each month is |
| Calendar.DateOf | packages/core/src/crowdfunding/schema.ts:14 | every day number of the years 0 to 9999 has a real date with that number |
| Calendar.DateOfMakeDay | packages/core/src/crowdfunding/schema.ts:12-14 | and a real date is that of its number |
| Calendar.ComesBack | packages/core/src/crowdfunding/schema.ts:12-14 | a day 1..31 of a month 1..12, rolled over and printed back, returns exactly when it is a real date |
| Calendar.AcceptsExactlyRealDates | packages/core/src/crowdfunding/schema.ts:12-14 | the check accepts a string exactly when it is a Gregorian date, and throws exactly on a shaped one with an impossible month or day |
| Calendar.IsoDayOrder | apps/web/src/lib/blog.ts:11-12 | printed days are ordered and distinct as their numbers are |
| Phase.PhaseByDays | packages/core/src/crowdfunding/phase.ts:30-35 | the phase by string comparison is the phase by day numbers |
| Phase.FormDates | packages/core/src/crowdfunding/schema.ts:26-37 | what the form lets through is two real dates, the end no earlier than the start |
| Phase.FormPasses | packages/core/src/crowdfunding/schema.ts:31-32 | dates refused on their own are not compared |
| Phase.PhaseMovesOn | packages/core/src/crowdfunding/phase.ts:30-35 | as days pass the phase only moves from upcoming to running to ended |
| Phase.RunningLength | packages/core/src/crowdfunding/phase.ts:23-35 | a campaign runs on exactly daysBetween(start, end) + 1 of all days |
| Phase.DaysLeftRunning | packages/core/src/crowdfunding/phase.ts:37-52 | the days left of a running campaign are never negative and 0 exactly on its last day; the last four days are called out |
| Phase.DaysLeftExactly | packages/core/src/crowdfunding/phase.ts:37-40 | days are left exactly while it runs, as many as up to its last day |
| Phase.LastDaysExactly | packages/core/src/crowdfunding/phase.ts:49-52 | the last days are the last and the three before it, of a running campaign only |
| Phase.CountsDown | packages/core/src/crowdfunding/phase.ts:37-40 | they fall by one a day until the campaign ends |
| Phase.StartsLater | packages/core/src/crowdfunding/phase.ts:42-47 | days to the start exist exactly while upcoming, are at least 1, and are exact |
| Slug.TrimDashesIs | packages/core/src/slug.ts:14 | trimming takes off the dashes at both ends and nothing else |
| Slug.SlugifyIs | packages/core/src/slug.ts:29 | a slug is kept as far as it fits in 60 characters, and the fallback stands for nothing |
| Slug.SlugifyShape | packages/core/src/slug.ts:22-30 | a slug cut to 60 characters and trimmed is a slug, and short ones are kept |
| Slug.CandidatesDiffer | packages/core/src/slug.ts:40-43 | different numbers give different candidates, despite cut and trim |
| Slug.CandidateIs | packages/core/src/slug.ts:41-42 | a candidate is the base as far as it fits, a dash and the number |
| Slug.ShortCandidate | packages/core/src/slug.ts:41-42 | a base with room for the suffix stands whole before it |
| Slug.NextFreeSlug | packages/core/src/slug.ts:37-45 | the search ends for every finite set of taken slugs; the result is free, and is the base or the candidate with the least free number |
| Slug.CandidateShape | packages/core/src/slug.ts:41-42 | a candidate of a slug is a slug of at most 60 characters exactly for numbers below 10^58 |
| Slug.FreeSlugShape | packages/core/src/slug.ts:37-45 | so the result is one when fewer than 10^58 - 2 are taken |
| Slug.TableSlug | packages/core/src/slug.ts:51-63 | a table's slug is its title's, or `mesa`, or the first free candidate of it; never taken, `new` or `edit`; a slug of at most 60 characters while fewer than 10^58 - 4 are taken |
| Routes.LocaleComesOff | packages/core/src/routes.ts:63-69 | one locale comes off up to the slash behind it or the end, unless two slashes would be left in front |
| Routes.LocaleCounts | packages/core/src/routes.ts:63-69 | and the address goes where the one without it goes |
| Routes.NoLocaleStays | packages/core/src/routes.ts:64 | what merely starts like a locale keeps it |
| Routes.AccountMoves | packages/core/src/routes.ts:38-42 | where the account pages went, with all below them |
| Routes.ItemsMove | packages/core/src/routes.ts:46-48 | items under the words go to their letters, but for the lists and forms |
| Routes.OthersMove | packages/core/src/routes.ts:43-51 | where the other old addresses went |
| Routes.PagesMove | packages/core/src/routes.ts:24-31 | where the letters alone went, and that their new addresses stay |
| Routes.OnlyWholeSegments | packages/core/src/routes.ts:73-76 | a path that only starts like an old address is left alone |
| Routes.OneMoveAtMost | packages/core/src/routes.ts:37-52 | no path is under two entries of the table |
| Routes.ScanMoves | packages/core/src/routes.ts:73-76 | so any matching entry decides, whatever the order, and what follows the prefix is kept |
| Routes.RewriteLands | packages/core/src/routes.ts:70-77 | where a path is sent it stays, and it starts with one slash and no locale |
| Routes.Chain | packages/core/src/routes.ts:66-69 | each redirect takes one locale off while there are any |
| Routes.ChainsEnd | packages/core/src/routes.ts:66-78 | a chain has ended after n >= 1 redirects exactly when n is at least the number of locales, and at the canonical address of the bare path |
| Routes.IdempotentExactly | packages/core/src/routes.ts:66-78 | canonicalPath is idempotent exactly on paths with at most one locale to take |
| Routes.CanonicalIsLocal | packages/core/src/routes.ts:67-69 | a changed path starts with exactly one slash |
| Routes.RedirectIsLocal | packages/core/src/routes.ts:81-87 | exactly reads of a path that is not canonical redirect; the location stays on this host and keeps query and fragment |
| DirectoryFilters.GmDirectoryQuery | packages/core/src/gms/directory-filters.ts:58-70 | setting the parameters one by one gives the pairs of the specification, defaults left out |
| DirectoryFilters.GetKept | packages/core/src/gms/directory-filters.ts:58-70 | under each key the printed address holds what was put there, and nothing for a default |
| DirectoryFilters.GetIs | packages/core/src/gms/directory-filters.ts:44-53 | a key reads the first value under it, or nothing |
| DirectoryFilters.SetReads | packages/core/src/gms/directory-filters.ts:60-66 | setting a key changes what it reads, and no other |
| DirectoryFilters.SlugReads | packages/core/src/gms/directory-filters.ts:44-51 | a slug is read in any capitals and between white space |
| DirectoryFilters.QueryReads | packages/core/src/gms/directory-filters.ts:47 | a normal query is read between white space and behind one `@` |
| DirectoryFilters.QueryIsCut | packages/core/src/gms/directory-filters.ts:47 | a longer text is cut to its first hundred characters |
| DirectoryFilters.OthersRead | packages/core/src/gms/directory-filters.ts:49-52 | the values each other key knows; any other value is dropped |
| DirectoryFilters.PageIs | packages/core/src/admin/catalog.ts:26-27 | a page other than the first is read from its numeral alone |
| DirectoryFilters.CleanQueryFixes | packages/core/src/gms/directory-filters.ts:47 | cleaning a query leaves exactly the normal ones alone and shortens every other |
| DirectoryFilters.CleanSlugFixes | packages/core/src/gms/directory-filters.ts:44-51 | reading a slug gives a slug or nothing, and keeps exactly those |
| DirectoryFilters.PageRoundTrip | packages/core/src/admin/catalog.ts:26-27 | a page survives printing and reading exactly in 1..9999999 |
| DirectoryFilters.PageInRange | packages/core/src/admin/catalog.ts:26-27 | a page read from anything is in that range |
| DirectoryFilters.RoundTrip | packages/core/src/gms/directory-filters.ts:43-70 | reading a printed address gives the same filters and page if and only if they are in normal form |
| DirectoryFilters.OneAddress | packages/core/src/gms/directory-filters.ts:57-70 | different lists have different addresses |
| DirectoryFilters.CleanIsNormalWhen | packages/core/src/gms/directory-filters.ts:47 | the cleaned text is a normal query exactly when, trimmed and with one `@` off, it has no second `@` or white space in front and none where it is cut |
| DirectoryFilters.ReaderIsNormalWhen | packages/core/src/gms/directory-filters.ts:43-56 | what the reader makes of a link is in normal form exactly when the text of its query is so |
| DirectoryFilters.SecondMark | packages/core/src/gms/directory-filters.ts:47 | every link fails whose query is `@@`, or `@` and white space, and more text behind |
| DirectoryFilters.CutLeavesSpace | packages/core/src/gms/directory-filters.ts:47 | so does every one whose hundredth character is a space with more behind it |
| DirectoryFilters.Settles | packages/core/src/gms/directory-filters.ts:43-70 | reading and printing again settles, for every link, within a hundred rounds |
| CampaignUrl.NormalizeCampaignUrl | packages/core/src/crowdfunding/url.ts:13-39 | rewriting the URL object part by part gives the canonical form of the specification, or nothing for what is refused |
| CampaignUrl.RefusedExactly | packages/core/src/crowdfunding/url.ts:14-23 | what is refused: empty or longer than 2048, no address, not https, with credentials |
| CampaignUrl.HostKeptIs | packages/core/src/crowdfunding/url.ts:27-30 | a host is kept in lower case, without one `www.` and the dots behind it |
| CampaignUrl.PlainHostIs | packages/core/src/crowdfunding/url.ts:27-30 | the same without a `www.` |
| CampaignUrl.PortIs | packages/core/src/crowdfunding/url.ts:31 | 443 goes unsaid and every other port stays |
| CampaignUrl.TrackingIs | packages/core/src/crowdfunding/url.ts:3 | which keys are tracking, in any capitals |
| CampaignUrl.UntrackedIs | packages/core/src/crowdfunding/url.ts:32-33 | tracking parameters are dropped and the others keep their order |
| CampaignUrl.PrintedIs | packages/core/src/crowdfunding/url.ts:38 | the text of a canonical form |
| CampaignUrl.QueryIs | packages/core/src/crowdfunding/url.ts:36-38 | and of its query, pair by pair |
| CampaignUrl.SortedUnique | packages/core/src/crowdfunding/url.ts:32-34 | sorted queries that agree key by key are equal |
| CampaignUrl.SortsAlike | packages/core/src/crowdfunding/url.ts:32-34 | two queries sort to the same exactly when each key has the same values in the same order |
| CampaignUrl.SameCampaign | packages/core/src/crowdfunding/url.ts:25-38 | two links are one campaign exactly when host, port, path and, tracking aside, the values of each key agree |
| CampaignUrl.OrderIsIgnored | packages/core/src/crowdfunding/url.ts:32-36 | swapping two neighbouring parameters changes nothing exactly when they are equal, one is tracking, or their keys do not compare equal |
| CampaignUrl.TrackingIsIgnored | packages/core/src/crowdfunding/url.ts:3-33 | a tracking parameter anywhere makes no difference |
| CampaignUrl.TrailingSlash | packages/core/src/crowdfunding/url.ts:37 | nor does one more slash after the path |
| CampaignUrl.TrailingDot | packages/core/src/crowdfunding/url.ts:26-30 | nor one more dot after the host, exactly when the host is more than dots |
| CampaignUrl.KeepsWwwWhen | packages/core/src/crowdfunding/url.ts:27-30 | a normalised host starts with `www.` exactly when the given one, in lower case and without the dots at its end, starts with two |
| CampaignUrl.CanonizedTwice | packages/core/src/crowdfunding/url.ts:22-38 | so the parts of a canonical form come back from it exactly when the given host does not |
| CampaignUrl.PrintedIsAsLong | packages/core/src/crowdfunding/url.ts:32-38 | how long a canonical form is, read off the given link: sorting changes nothing, and each pair has its sign |
| CampaignUrl.IdempotentExactly | packages/core/src/crowdfunding/url.ts:13-39 | for texts, guard included: normalising a canonical form gives it back exactly when it has at most 2048 characters and the given host does not start with two `www.` |
| CampaignUrl.TooLongIsRefused | packages/core/src/crowdfunding/url.ts:15 | past that length it is refused |
| CampaignUrl.GrowsTooLong | packages/core/src/crowdfunding/url.ts:15-38 | to every host without `www.`, links with enough bare keys are accepted under a canonical form that is refused |
| CampaignUrl.OneWwwAtATime | packages/core/src/crowdfunding/url.ts:30 | every accepted plain link to such a host has a canonical form that loses another `www.` when normalised again |
| CampaignUrl.TwoWww | packages/core/src/crowdfunding/url.ts:30 | `www.www.me` is such a host |
| CampaignUrl.AtIs | packages/core/src/crowdfunding/platforms.ts:37-39 | a host is at a domain when it is the domain, or ends in it behind a dot |
| CampaignUrl.AtNothingElse | packages/core/src/crowdfunding/platforms.ts:37-39 | and not otherwise |
| CampaignUrl.PlatformIs | packages/core/src/crowdfunding/platforms.ts:12-42 | each platform is that of exactly the hosts at its domain, catarse of two |
| CampaignUrl.PlatformStays | packages/core/src/crowdfunding/platforms.ts:30-42 | a link and its canonical form belong to the same platform |
| FrontmatterValue.BareReads | apps/web/src/lib/blog.ts:30-41 | plain text reads as itself exactly when it is trimmed, no flag, not in brackets and not in quotes |
| FrontmatterValue.QuotedReads | apps/web/src/lib/blog.ts:39-40 | text in quotes of either kind, whatever quotes it holds, reads as itself exactly when it is of one line |
| FrontmatterValue.SpellingReads | apps/web/src/lib/blog.ts:30-41 | every spelling of a value reads as that value: flags, plain text, either quotes, and lists of these with any spaces, lists in lists included |
| FrontmatterValue.PartReads | apps/web/src/lib/blog.ts:31 | white space around it makes no difference |
| FrontmatterValue.ItemReads | apps/web/src/lib/blog.ts:33-38 | a quoted text comes back from a list exactly when it is not empty and holds no comma |
| FrontmatterValue.CommasRejoin | apps/web/src/lib/blog.ts:36 | a list is taken apart at its commas and nowhere else |
| Frontmatter.FencedIs | apps/web/src/lib/blog.ts:48 | the block ends at the first line break with three dashes behind it |
| Frontmatter.NotFenced | apps/web/src/lib/blog.ts:48 | and without one there is none |
| Frontmatter.BlockMissingExactly | apps/web/src/lib/blog.ts:48-49 | a file is refused for its block exactly when it does not open with one, or no such place follows |
| Frontmatter.LinesAre | apps/web/src/lib/blog.ts:51 | a block comes apart at its line breaks of either kind and nowhere else |
| Frontmatter.IgnoredIs | apps/web/src/lib/blog.ts:52 | blank lines and lines that show a `#` first do not count, and no others |
| Frontmatter.PairExactly | apps/web/src/lib/blog.ts:53-54 | a pair is lower-case letters, a colon and the rest of one line |
| Frontmatter.BlockFenced | apps/web/src/lib/blog.ts:48 | the lazy match ends the block at the closing dashes and not before |
| Frontmatter.BlockLines | apps/web/src/lib/blog.ts:51 | the block comes apart into the lines it was made of, with either line break |
| Frontmatter.ReadFields | apps/web/src/lib/blog.ts:50-57 | the loop over the lines collects the fields of the specification, or stops at its first error |
| Frontmatter.SplitFrontmatter | apps/web/src/lib/blog.ts:44-59 | the function splits a file as the specification does |
| Frontmatter.PairReads | apps/web/src/lib/blog.ts:53-56 | a line with a key and any spelling of a value is read as that key and value |
| Frontmatter.FileReads | apps/web/src/lib/blog.ts:44-59 | a printed file, each value in any spelling, reads back as what its lines say and its trimmed body, or as the first key that is not new |
| Frontmatter.FileRoundTrip | apps/web/src/lib/blog.ts:44-59 | it is accepted exactly when no key is repeated or `constructor`, and then with exactly its fields and body |
| Frontmatter.CollectsWhen | apps/web/src/lib/blog.ts:51-57 | the lines of any block are accepted exactly when each one that counts is a pair with a new key |
| Pager.PageWindow | packages/core/src/admin/list.ts:72-81 | the numbers shown are exactly 1, the last and the three around the page, in order, with a gap exactly where some are missing, never first, last or doubled, and at most seven entries |
| Pager.RangesTile | packages/core/src/admin/list.ts:63-66 | the ranges of the pages tile 1..total: each row is on exactly one page |
| Pager.PagesRebuild | apps/web/src/lib/blog.ts:92-96 | the pages one after the other are the list, and beyond the last there is nothing |
| Changelog.OfKindIs | apps/web/src/lib/changelog.ts:22 | a change is kept exactly when it has the kind asked for, or none is |
| Changelog.OfKindJoins | apps/web/src/lib/changelog.ts:22 | in their order |
| Changelog.PageHolds | apps/web/src/lib/changelog.ts:25-31 | a page holds five of the listed releases, those after the pages before it |
| Changelog.PageAsked | apps/web/src/lib/changelog.ts:25 | every positive numeral asks for its page, and anything else for the first |
| Changelog.ListedAt | apps/web/src/lib/changelog.ts:19-24 | a release is listed once, behind the listed ones before it, exactly when it has a change of the kind |
| Changelog.LinkedPageReads | apps/web/src/lib/changelog.ts:46-49 | the page a link names reads back as the release's index says |
| Changelog.ListedFrom | apps/web/src/lib/changelog.ts:19-24 | each listed release is one with a change, after as many others as its place says |
| Changelog.LinksLandExactly | apps/web/src/lib/changelog.ts:17-49 | in any list, a link lands on its date exactly when some release of the date has a change and is, among those that have, on the page of the first of the date |
| Changelog.LinksLand | apps/web/src/lib/changelog.ts:17-49 | with distinct dates: exactly when the release has a change and empty ones before it shift no page |
| Changelog.AllLinksLand | apps/web/src/lib/changelog.ts:46-49 | so when every release has a change, every link lands on a release of its date, dates repeated or not |
| Decimal.ValueOfPrint | packages/core/src/admin/catalog.ts:26-27 | a printed number reads back as itself |
| Decimal.PrintOfValue | packages/core/src/admin/catalog.ts:26-27 | a numeral without a leading zero is what its number prints as |
| Decimal.PrintInjective | packages/core/src/slug.ts:41 | different numbers print differently |
| Decimal.PrintLength | packages/core/src/slug.ts:42 | a number has at most k digits exactly when it is below 10^k |
| Decimal.Numerals | packages/core/src/gms/directory-filters.ts:66 | a few numerals, written out |
| Text.SpacesAre | packages/core/src/gms/directory-filters.ts:44-47 | which characters `trim` takes off |
| Text.LowerIs | packages/core/src/crowdfunding/url.ts:28 | what lower case makes of each character |
| Text.TrimIs | packages/core/src/gms/directory-filters.ts:44-47 | what is left of a text is what stands between white space |

## Left out

- Overlapping calls of `drain`: outside what the code supports.
- The order of the keys of a parsed frontmatter block, zod's checks of the fields, `parsePost`'s minutes and `loadPosts`' sorting.
- Percent-encoding in the game-master list's address: it is ordered pairs of keys and values.
- Strings are sequences of characters, not UTF-16 units: `slice` cuts between characters, and lengths count them.
- `toLowerCase` beyond ASCII and the Kelvin sign: no other character lowers into a slug, a host or a tracking key.
- The URL parser (IPv4 hosts, default ports) and the encoding of a query's parts are parameters: a parsed address is an input, and setting a host to nothing is ignored as it is for https.
- `Intl` and time zones: today is any valid date, and clock readings have a four-digit UTC year, beyond which `slice(0, 10)` cuts the day itself.
- The bodies of event handlers, the live and shadow queues, pruning and logging in `dispatcher.ts`: a handler succeeds or fails. Two handlers of one event have different names.
- `createDeadLetterConsumer` and `queueBacklog`: a report and an acknowledgement for each message, and one read of metrics.
- `showMore`, `nextSort`, `sortOf`, `listQuery`, `hostOf` and the other filter readers: each is one expression.
- `@sindresorhus/slugify` and `localeCompare`: their results are assumed well formed, or ordered.
- The API's routes and guards, the pages, and everything that only moves data to the database or a provider.
