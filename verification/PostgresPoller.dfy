/**
 * The Postgres poller: the outbox table is the queue. A poll asks the database for the oldest due
 * rows, hands each reference to the executor and counts what it answered; the executor alone
 * changes rows.
 */
module PostgresPoller {
  import opened Wrappers
  import opened Transport
  import opened Sets
  import D = Dispatcher

  datatype EventRow = EventRow(eventType: string, version: int, createdAt: int, state: D.Row)

  type Table = map<string, EventRow>

  /** What one call of the executor answers, and the table as it leaves it. */
  datatype Ran = Ran(answer: Answer, table: Table)

  type Worker = (nat, JobRef, Table) -> Ran

  datatype Summary = Summary(tried: nat, done: nat, retry: nat, failed: nat)

  // ---- Specification -------------------------------------------------------

  predicate Selectable(row: EventRow, now: int) {
    D.Due(row.state, now) && row.version in SUPPORTED_EVENT_VERSIONS
  }

  /** The query's conditions, on the columns. */
  lemma SelectableExactly(row: EventRow, now: int)
    ensures Selectable(row, now) <==>
              && row.version == 1
              && row.state.processedAt == None && row.state.failedAt == None && row.state.nextAttemptAt <= now
              && (row.state.claimedUntil == None || row.state.claimedUntil.value <= now)
  {
  }

  ghost predicate Distinct(ids: seq<string>) {
    forall i, j | 0 <= i < j < |ids| :: ids[i] != ids[j]
  }

  /** An answer of the database to the poll's query; rows of one instant may come in any order. */
  ghost predicate Selects(table: Table, now: int, limit: nat, ids: seq<string>) {
    && Distinct(ids) && |ids| <= limit
    && (forall i | 0 <= i < |ids| :: ids[i] in table && Selectable(table[ids[i]], now))
    && (forall i, j | 0 <= i < j < |ids| :: table[ids[i]].createdAt <= table[ids[j]].createdAt)
    && (forall id | id in table && Selectable(table[id], now) && id !in ids ::
          |ids| == limit && forall i | 0 <= i < |ids| :: table[ids[i]].createdAt <= table[id].createdAt)
  }

  /** A poll that leaves a selectable row is full, of rows no younger, and takes its own oldest first. */
  lemma OldestFirst(table: Table, now: int, limit: nat, ids: seq<string>, id: string, i: nat, j: nat)
    requires Selects(table, now, limit, ids) && i < j < |ids|
    ensures table[ids[i]].createdAt <= table[ids[j]].createdAt
    ensures id in table && Selectable(table[id], now) && id !in ids ==>
              |ids| == limit && table[ids[j]].createdAt <= table[id].createdAt
  {
  }

  function RefOf(table: Table, id: string): JobRef
    requires id in table
  {
    JobRef(id, table[id].eventType, table[id].version)
  }

  function Refs(table: Table, ids: seq<string>): (r: seq<JobRef>)
    requires forall i | 0 <= i < |ids| :: ids[i] in table
    ensures |r| == |ids|
  {
    seq(|ids|, i requires 0 <= i < |ids| => RefOf(table, ids[i]))
  }

  /** The table once the executor has had each reference once, in order. */
  function TableAfter(work: Worker, turn: nat, table: Table, refs: seq<JobRef>): Table {
    if refs == [] then table
    else
      var before := refs[..|refs| - 1];
      work(turn + |before|, refs[|refs| - 1], TableAfter(work, turn, table, before)).table
  }

  function Answers(work: Worker, turn: nat, table: Table, refs: seq<JobRef>): (r: seq<Answer>)
    ensures |r| == |refs|
  {
    if refs == [] then []
    else
      var before := refs[..|refs| - 1];
      Answers(work, turn, table, before)
        + [work(turn + |before|, refs[|refs| - 1], TableAfter(work, turn, table, before)).answer]
  }

  /** A throw counts as a retry: nothing was persisted, so the next poll finds the row again. */
  function Count(s: Summary, answer: Answer): Summary {
    var tried := s.(tried := s.tried + 1);
    if answer.Throws? || answer.outcome.Retry? then tried.(retry := s.retry + 1)
    else if answer.outcome.Done? then tried.(done := s.done + 1)
    else tried.(failed := s.failed + 1)
  }

  function CountAll(answers: seq<Answer>): (s: Summary)
    ensures s.tried == |answers| == s.done + s.retry + s.failed
  {
    if answers == [] then Summary(0, 0, 0, 0)
    else Count(CountAll(answers[..|answers| - 1]), answers[|answers| - 1])
  }

  predicate SaysDone(answer: Answer) {
    answer == Returns(Done)
  }

  predicate SaysFailed(answer: Answer) {
    answer.Returns? && answer.outcome.Failed?
  }

  /** Each counter is the number of answers of its own kind; a throw is a request to try again. */
  lemma {:induction false} CountsAll(answers: seq<Answer>)
    ensures CountAll(answers).tried == |answers|
    ensures CountAll(answers).done == |Places(answers, SaysDone)|
    ensures CountAll(answers).retry == |Places(answers, AsksAgain)|
    ensures CountAll(answers).failed == |Places(answers, SaysFailed)|
  {
    if answers == [] {
      NoPlaces(SaysDone);
      NoPlaces(AsksAgain);
      NoPlaces(SaysFailed);
    } else {
      CountsAll(answers[..|answers| - 1]);
      PlacesMore(answers, SaysDone);
      PlacesMore(answers, AsksAgain);
      PlacesMore(answers, SaysFailed);
    }
  }

  // ---- Implementation ------------------------------------------------------

  /** Where a poll that began with `table` stands after the first `i` rows. */
  ghost predicate Polled(work: Worker, turn: nat, table: Table, rows: seq<JobRef>, i: nat,
                         now: Table, summary: Summary)
  {
    && i <= |rows|
    && now == TableAfter(work, turn, table, rows[..i])
    && summary == CountAll(Answers(work, turn, table, rows[..i]))
  }

  lemma OneMore(work: Worker, turn: nat, table: Table, rows: seq<JobRef>, i: nat, now: Table, summary: Summary)
    requires i < |rows| && Polled(work, turn, table, rows, i, now, summary)
    ensures var ran := work(turn + i, rows[i], now);
            Polled(work, turn, table, rows, i + 1, ran.table, Count(summary, ran.answer))
  {
    assert rows[..i + 1][..i] == rows[..i];
    var answers := Answers(work, turn, table, rows[..i]);
    assert (answers + [work(turn + i, rows[i], now).answer])[..i] == answers;
  }

  lemma PolledNone(work: Worker, turn: nat, table: Table, rows: seq<JobRef>)
    ensures Polled(work, turn, table, rows, 0, table, Summary(0, 0, 0, 0))
  {
    assert rows[..0] == [];
  }

  /** Where it stands after the last. */
  lemma PolledAll(work: Worker, turn: nat, table: Table, rows: seq<JobRef>, now: Table, summary: Summary)
    requires Polled(work, turn, table, rows, |rows|, now, summary)
    ensures now == TableAfter(work, turn, table, rows) && summary == CountAll(Answers(work, turn, table, rows))
  {
    assert rows[..|rows|] == rows;
  }

  class Outbox {
    const work: Worker
    var table: Table
    var turn: nat

    constructor (work: Worker, table: Table)
      ensures this.work == work && this.table == table && turn == 0
    {
      this.work, this.table, turn := work, table, 0;
    }

    /** One turn of the loop. */
    method TryRow(row: JobRef, before: Summary, ghost first: nat, ghost start: Table, ghost rows: seq<JobRef>,
                  ghost i: nat)
      returns (summary: Summary)
      requires i < |rows| && rows[i] == row && turn == first + i
      requires Polled(work, first, start, rows, i, table, before)
      modifies this
      ensures turn == first + i + 1
      ensures Polled(work, first, start, rows, i + 1, table, summary)
    {
      OneMore(work, first, start, rows, i, table, before);
      var ran := work(turn, row, table);
      table, turn := ran.table, turn + 1;
      summary := Count(before, ran.answer);
    }

    /** `ids` is what the database selected. */
    method Poll(ids: seq<string>, now: int, limit: nat) returns (summary: Summary)
      requires Selects(table, now, limit, ids)
      modifies this
      ensures table == TableAfter(work, old(turn), old(table), Refs(old(table), ids))
      ensures turn == old(turn) + |ids|
      ensures var answers := Answers(work, old(turn), old(table), Refs(old(table), ids));
        && summary.tried == |ids|
        && summary.done == |Places(answers, SaysDone)|
        && summary.retry == |Places(answers, AsksAgain)|
        && summary.failed == |Places(answers, SaysFailed)|
    {
      var rows := Refs(table, ids);
      ghost var first, start := turn, table;
      summary := Summary(0, 0, 0, 0);
      PolledNone(work, turn, table, rows);
      for i := 0 to |rows|
        invariant Polled(work, first, start, rows, i, table, summary)
        invariant turn == first + i
      {
        summary := TryRow(rows[i], summary, first, start, rows, i);
      }
      PolledAll(work, first, start, rows, table, summary);
      CountsAll(Answers(work, first, start, rows));
    }
  }

  // ---- Fairness --------------------------------------------------------------

  /**
   * An executor that changes only the row it is given. On the rows in `stuck` it may answer anything
   * and leave them due: it throws, it finds them busy, or it hands them on. Any other row it takes
   * off the due ones at `now`.
   */
  ghost predicate Persists(work: Worker, now: int, stuck: set<string>) {
    forall turn: nat, ref: JobRef, table: Table | ref.eventId in table ::
      Persisted(work(turn, ref, table), now, stuck, ref.eventId, table)
  }

  ghost predicate Persisted(ran: Ran, now: int, stuck: set<string>, id: string, table: Table) {
    && id in ran.table && ran.table == table[id := ran.table[id]]
    && (id in stuck || !Selectable(ran.table[id], now))
  }

  /** The rows a poll should get to. */
  ghost function Waiting(table: Table, now: int, stuck: set<string>): set<string> {
    set id | id in table && Selectable(table[id], now) && id !in stuck
  }

  ghost function Members(ids: seq<string>): (r: set<string>)
    ensures forall id :: id in r <==> id in ids
  {
    if ids == [] then {}
    else
      assert ids == ids[..|ids| - 1] + [ids[|ids| - 1]];
      Members(ids[..|ids| - 1]) + {ids[|ids| - 1]}
  }

  lemma {:induction false} DistinctSize(ids: seq<string>)
    requires Distinct(ids)
    ensures |Members(ids)| == |ids|
  {
    if ids != [] {
      var front, last := ids[..|ids| - 1], ids[|ids| - 1];
      DistinctSize(front);
      assert last !in front;
    }
  }

  ghost predicate Names(refs: seq<JobRef>, id: string) {
    exists i :: 0 <= i < |refs| && refs[i].eventId == id
  }

  /** `after` is `table` but for rows in `refs`, and those not in `stuck` are off the due ones. */
  ghost predicate OnlyTook(table: Table, after: Table, now: int, stuck: set<string>, refs: seq<JobRef>) {
    && after.Keys == table.Keys
    && (forall id | id in table :: Names(refs, id) || after[id] == table[id])
    && (forall id | id in table && id !in stuck :: Names(refs, id) ==> !Selectable(after[id], now))
  }

  lemma NamesMore(refs: seq<JobRef>, last: JobRef, id: string)
    ensures Names(refs + [last], id) <==> Names(refs, id) || last.eventId == id
  {
    if Names(refs, id) {
      var i :| 0 <= i < |refs| && refs[i].eventId == id;
      assert (refs + [last])[i].eventId == id;
    }
    assert (refs + [last])[|refs|] == last;
  }

  lemma OneMoreTook(table: Table, middle: Table, ran: Ran, now: int, stuck: set<string>,
                    refs: seq<JobRef>, last: JobRef)
    requires OnlyTook(table, middle, now, stuck, refs) && last.eventId in table
    requires Persisted(ran, now, stuck, last.eventId, middle)
    ensures OnlyTook(table, ran.table, now, stuck, refs + [last])
  {
    forall id ensures Names(refs + [last], id) <==> Names(refs, id) || last.eventId == id {
      NamesMore(refs, last, id);
    }
  }

  /** Handing out some rows changes at most those, and takes those not stuck off the due ones. */
  lemma {:induction false} RowsLeave(work: Worker, turn: nat, table: Table, now: int, stuck: set<string>,
                                     refs: seq<JobRef>)
    requires Persists(work, now, stuck)
    requires forall i | 0 <= i < |refs| :: refs[i].eventId in table
    ensures OnlyTook(table, TableAfter(work, turn, table, refs), now, stuck, refs)
  {
    if refs != [] {
      var before, last := refs[..|refs| - 1], refs[|refs| - 1];
      RowsLeave(work, turn, table, now, stuck, before);
      var middle := TableAfter(work, turn, table, before);
      var ran := work(turn + |before|, last, middle);
      assert Persisted(ran, now, stuck, last.eventId, middle);
      OneMoreTook(table, middle, ran, now, stuck, before, last);
      assert before + [last] == refs;
    }
  }

  /** A poll takes the waiting rows it hands out, and no others, off the waiting ones. */
  lemma PollTakes(work: Worker, turn: nat, table: Table, now: int, stuck: set<string>, ids: seq<string>)
    requires Persists(work, now, stuck) && forall i | 0 <= i < |ids| :: ids[i] in table
    ensures Waiting(TableAfter(work, turn, table, Refs(table, ids)), now, stuck)
            == Waiting(table, now, stuck) - Members(ids)
  {
    var refs := Refs(table, ids);
    var after := TableAfter(work, turn, table, refs);
    RowsLeave(work, turn, table, now, stuck, refs);
    forall id ensures id in Waiting(after, now, stuck) <==> id in Waiting(table, now, stuck) && id !in Members(ids) {
      RefsName(table, ids, id);
    }
  }

  lemma RefsName(table: Table, ids: seq<string>, id: string)
    requires forall i | 0 <= i < |ids| :: ids[i] in table
    ensures Names(Refs(table, ids), id) <==> id in ids
  {
    if id in ids {
      var i :| 0 <= i < |ids| && ids[i] == id;
      assert Refs(table, ids)[i].eventId == id;
    }
  }

  /** It takes all of them, or at least `limit - |stuck|`. */
  lemma PollProgress(table: Table, now: int, limit: nat, stuck: set<string>, ids: seq<string>)
    requires Selects(table, now, limit, ids)
    ensures var waiting := Waiting(table, now, stuck);
            waiting <= Members(ids) || |waiting - Members(ids)| + limit - |stuck| <= |waiting|
  {
    var waiting, tried := Waiting(table, now, stuck), Members(ids);
    if !(waiting <= tried) {
      var id :| id in waiting && id !in tried;
      assert |ids| == limit;
      DistinctSize(ids);
      forall t | t in tried ensures t in waiting * tried + stuck {
        var i :| 0 <= i < |ids| && ids[i] == t;
      }
      SubsetSize(tried, waiting * tried + stuck);
      assert waiting - tried == waiting - waiting * tried;
    }
  }

  ghost predicate OnePoll(work: Worker, now: int, limit: nat, table: Table, ids: seq<string>, after: Table) {
    Selects(table, now, limit, ids) && exists turn :: after == TableAfter(work, turn, table, Refs(table, ids))
  }

  /** Successive polls of one table at one `now`: `selected[k]` is what the k-th was given. */
  ghost predicate Polling(work: Worker, now: int, limit: nat, tables: seq<Table>, selected: seq<seq<string>>) {
    && |tables| == |selected| + 1
    && forall k | 0 <= k < |selected| :: OnePoll(work, now, limit, tables[k], selected[k], tables[k + 1])
  }

  /** How many of the first `n` polls try the row `id`. */
  function Tries(selected: seq<seq<string>>, n: nat, id: string): nat
    requires n <= |selected|
  {
    if n == 0 then 0 else Tries(selected, n - 1, id) + if id in selected[n - 1] then 1 else 0
  }

  lemma OnePollWaiting(work: Worker, now: int, limit: nat, stuck: set<string>, table: Table, ids: seq<string>,
                       after: Table)
    requires Persists(work, now, stuck) && OnePoll(work, now, limit, table, ids, after)
    ensures var waiting, left := Waiting(table, now, stuck), Waiting(after, now, stuck);
            && left <= waiting && (forall id | id in waiting :: id in left <==> id !in ids)
            && (left == {} || |left| + limit - |stuck| <= |waiting|)
  {
    var turn :| after == TableAfter(work, turn, table, Refs(table, ids));
    PollTakes(work, turn, table, now, stuck, ids);
    PollProgress(table, now, limit, stuck, ids);
  }

  lemma OnePollOthers(work: Worker, now: int, limit: nat, stuck: set<string>, table: Table, ids: seq<string>,
                      after: Table, id: string)
    requires Persists(work, now, stuck) && OnePoll(work, now, limit, table, ids, after)
    requires id in table && !Selectable(table[id], now)
    ensures id in after && after[id] == table[id] && id !in ids
  {
    var turn :| after == TableAfter(work, turn, table, Refs(table, ids));
    RowsLeave(work, turn, table, now, stuck, Refs(table, ids));
    RefsName(table, ids, id);
  }

  lemma {:induction false} WaitingShrinks(work: Worker, now: int, limit: nat, stuck: set<string>,
                                          tables: seq<Table>, selected: seq<seq<string>>, n: nat)
    requires Persists(work, now, stuck) && Polling(work, now, limit, tables, selected)
    requires |stuck| < limit && n <= |selected|
    ensures var first, left := Waiting(tables[0], now, stuck), Waiting(tables[n], now, stuck);
            && left <= first
            && (left == {} || |left| + n * (limit - |stuck|) <= |first|)
            && (forall id | id in first :: Tries(selected, n, id) == if id in left then 0 else 1)
  {
    if n > 0 {
      WaitingShrinks(work, now, limit, stuck, tables, selected, n - 1);
      OnePollWaiting(work, now, limit, stuck, tables[n - 1], selected[n - 1], tables[n]);
      SelectedWait(work, now, limit, stuck, tables[n - 1], selected[n - 1], tables[n]);
      assert n * (limit - |stuck|) == (n - 1) * (limit - |stuck|) + (limit - |stuck|);
    }
  }

  /** A poll only tries what waits, or is stuck. */
  lemma SelectedWait(work: Worker, now: int, limit: nat, stuck: set<string>, table: Table, ids: seq<string>,
                     after: Table)
    requires OnePoll(work, now, limit, table, ids, after)
    ensures forall id | id in ids :: id in Waiting(table, now, stuck) || id in stuck
  {
  }

  /** Rows that were not selectable, those of a version this build cannot read among them, stay as they are. */
  lemma {:induction false} OthersUntouched(work: Worker, now: int, limit: nat, stuck: set<string>,
                                           tables: seq<Table>, selected: seq<seq<string>>, n: nat, id: string)
    requires Persists(work, now, stuck) && Polling(work, now, limit, tables, selected) && n <= |selected|
    requires id in tables[0] && !Selectable(tables[0][id], now)
    ensures id in tables[n] && tables[n][id] == tables[0][id] && Tries(selected, n, id) == 0
  {
    if n > 0 {
      OthersUntouched(work, now, limit, stuck, tables, selected, n - 1, id);
      OnePollOthers(work, now, limit, stuck, tables[n - 1], selected[n - 1], tables[n], id);
    }
  }

  /**
   * Fairness: with fewer stuck rows than the limit, every waiting row is tried exactly once within
   * as many polls as it takes at `limit - |stuck|` a poll, and none is tried twice.
   */
  lemma EveryRowHasItsTurn(work: Worker, now: int, limit: nat, stuck: set<string>,
                           tables: seq<Table>, selected: seq<seq<string>>, id: string)
    requires Persists(work, now, stuck) && Polling(work, now, limit, tables, selected) && |stuck| < limit
    requires id in Waiting(tables[0], now, stuck)
    ensures Tries(selected, |selected|, id) <= 1
    ensures |selected| * (limit - |stuck|) >= |Waiting(tables[0], now, stuck)| ==>
              Tries(selected, |selected|, id) == 1
  {
    WaitingShrinks(work, now, limit, stuck, tables, selected, |selected|);
    var left := Waiting(tables[|selected|], now, stuck);
    if id in left {
      assert |left - {id}| + 1 == |left|;
    }
  }
}
