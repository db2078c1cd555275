/**
 The outbox workers. `PublishPendingOnce` is the worker of the asset, tenant, PKI and enrollment
 services (one transaction an event); `PublishBatch` is the worker of the command service (up to
 100 publishes, then one commit). SQL picks the rows; the broker's answers are a parameter.
 */
module Outbox {
  import opened Common
  import opened Text
  import opened Normalize

  datatype Answer = Acked(at: Time) | Refused(error: string)

  /** What publishing each event would lead to. */
  type Broker = string -> Answer

  const COMMAND_BATCH := 100

  type Rows = map<string, OutboxRow>

  predicate Pending(rows: Rows, id: string) {
    id in rows && rows[id].publishedAt.None?
  }

  function PendingIds(rows: Rows): set<string> {
    set id | id in rows && Pending(rows, id)
  }

  /** `ORDER BY created_at, event_id`. */
  predicate Before(rows: Rows, a: string, b: string)
    requires a in rows && b in rows
  {
    rows[a].createdAt < rows[b].createdAt || (rows[a].createdAt == rows[b].createdAt && Less(a, b))
  }

  /** The row the worker's query returns. */
  predicate IsNext(rows: Rows, attempted: set<string>, id: string) {
    && Pending(rows, id) && id !in attempted
    && forall other :: other in rows && Pending(rows, other) && other !in attempted && other != id ==>
         Before(rows, id, other)
  }

  function Truncate(s: string, n: nat): string {
    if |s| <= n then s else s[..n]
  }

  /** One attempt, as the per-event worker commits it. */
  function Attempt(row: OutboxRow, answer: Answer): (r: OutboxRow)
    ensures r.createdAt == row.createdAt && Envelope(r) == Envelope(row)
    ensures row.publishedAt.None? ==> (r.publishedAt.Some? <==> answer.Acked?)
  {
    match answer
    case Acked(at) => row.(attempts := row.attempts + 1, publishedAt := Some(at), lastError := None)
    case Refused(error) => row.(attempts := row.attempts + 1, lastError := Some(Truncate(error, 2000)))
  }

  /** One attempt, as the batch worker commits it: only failures are counted. */
  function BatchAttempt(row: OutboxRow, answer: Answer): OutboxRow {
    match answer
    case Acked(at) => row.(publishedAt := Some(at), lastError := None)
    case Refused(error) => row.(attempts := row.attempts + 1, lastError := Some(Truncate(error, 512)))
  }

  /** The beginning of an error message, `n` characters at most. */
  predicate Begins(short: string, s: string, n: nat) {
    short <= s && |short| == Min(|s|, n)
  }

  /**
   What an attempt leaves in the row: a success dates it and clears the error, a failure keeps the beginning of
   the error. The per-event worker counts every attempt, the batch worker only failures.
   */
  lemma AttemptTells(row: OutboxRow, answer: Answer)
    ensures var one, batch := Attempt(row, answer), BatchAttempt(row, answer);
            match answer
            case Acked(at) =>
              && one == row.(publishedAt := Some(at), lastError := None, attempts := row.attempts + 1)
              && batch == row.(publishedAt := Some(at), lastError := None)
            case Refused(error) =>
              && one == row.(lastError := one.lastError, attempts := row.attempts + 1)
              && one.lastError.Some? && Begins(one.lastError.value, error, 2000)
              && batch == row.(lastError := batch.lastError, attempts := row.attempts + 1)
              && batch.lastError.Some? && Begins(batch.lastError.value, error, 512)
  {
  }

  function Elements(ids: seq<string>): set<string> {
    set id | id in ids
  }

  function AckedIn(ids: seq<string>, broker: Broker): set<string> {
    set id | id in ids && broker(id).Acked?
  }

  /** Every pending row is attempted in order, and the ones left over come later than all attempted ones. */
  ghost predicate OldestFirst(rows: Rows, attempted: seq<string>) {
    && (forall i :: 0 <= i < |attempted| ==> Pending(rows, attempted[i]))
    && (forall i, j :: 0 <= i < j < |attempted| ==>
        attempted[i] != attempted[j] && Before(rows, attempted[i], attempted[j]))
    && (forall i, id :: 0 <= i < |attempted| && id in rows && Pending(rows, id) && id !in attempted ==>
        Before(rows, attempted[i], id))
  }

  /** `after` is `before` with one attempt recorded on each of `ids`, and every other row as it was. */
  ghost predicate Marked(before: Rows, after: Rows, ids: seq<string>, broker: Broker) {
    && after.Keys == before.Keys
    && forall id :: id in before ==> after[id] == if id in ids then Attempt(before[id], broker(id)) else before[id]
  }

  lemma MarkedPending(before: Rows, after: Rows, ids: seq<string>, broker: Broker)
    requires Marked(before, after, ids, broker)
    requires forall i :: 0 <= i < |ids| ==> Pending(before, ids[i])
    ensures PendingIds(after) == PendingIds(before) - AckedIn(ids, broker)
  {
  }

  lemma OldestFirstExtends(rows: Rows, attempted: seq<string>, event: string)
    requires OldestFirst(rows, attempted)
    requires IsNext(rows, Elements(attempted), event)
    ensures OldestFirst(rows, attempted + [event])
  {
  }

  lemma AckedExtends(attempted: seq<string>, event: string, broker: Broker)
    requires event !in attempted
    ensures |AckedIn(attempted + [event], broker)|
        == |AckedIn(attempted, broker)| + (if broker(event).Acked? then 1 else 0)
  {
    if broker(event).Acked? {
      assert AckedIn(attempted + [event], broker) == AckedIn(attempted, broker) + {event};
    } else {
      assert AckedIn(attempted + [event], broker) == AckedIn(attempted, broker);
    }
  }

  /** An answer to the batch worker's query, which leaves the order of equal times open. */
  ghost predicate IsBatch(rows: Rows, batch: seq<string>) {
    && Distinct(batch)
    && (forall i :: 0 <= i < |batch| ==> Pending(rows, batch[i]))
    && (forall i, j :: 0 <= i < j < |batch| ==> rows[batch[i]].createdAt <= rows[batch[j]].createdAt)
    && |batch| == Min(COMMAND_BATCH, |PendingIds(rows)|)
    && (forall i, id :: 0 <= i < |batch| && id in rows && Pending(rows, id) && id !in batch ==>
        rows[batch[i]].createdAt <= rows[id].createdAt)
  }

  /** The worker's query: the first pending row not yet attempted, if there is one. */
  method SelectNext(rows: Rows, attempted: set<string>) returns (event: Option<string>)
    ensures event.Some? ==> IsNext(rows, attempted, event.value)
    ensures event.Some? ==>
              forall id :: id in PendingIds(rows) - attempted && id != event.value ==>
                || rows[event.value].createdAt < rows[id].createdAt
                || (rows[event.value].createdAt == rows[id].createdAt && Less(event.value, id))
    ensures event.None? ==> PendingIds(rows) <= attempted
  {
    var rest := PendingIds(rows) - attempted;
    assert forall id :: id in PendingIds(rows) ==> id in attempted || id in rest;
    if rest == {} {
      return None;
    }
    var first :| first in rest;
    ghost var seen := {first};
    rest := rest - {first};
    while rest != {}
      invariant seen + rest == PendingIds(rows) - attempted && first in seen && seen !! rest
      invariant forall id :: id in seen && id != first ==> Before(rows, first, id)
      decreases rest
    {
      var id :| id in rest;
      LessTotal(first, id);
      if Before(rows, id, first) {
        BeforeTransitive(rows, id, first, seen);
        first := id;
      }
      seen, rest := seen + {id}, rest - {id};
    }
    return Some(first);
  }

  lemma BeforeTransitive(rows: Rows, a: string, b: string, ids: set<string>)
    requires a in rows && b in rows && ids <= rows.Keys && Before(rows, a, b)
    requires forall id :: id in ids && id != b ==> Before(rows, b, id)
    ensures forall id :: id in ids ==> Before(rows, a, id)
  {
    forall id | id in ids ensures Before(rows, a, id) {
      if id != b && Less(a, b) && Less(b, id) {
        LessTransitive(a, b, id);
      }
    }
  }

  lemma MarkedExtends(before: Rows, after: Rows, attempted: seq<string>, broker: Broker, event: string)
    requires Marked(before, after, attempted, broker)
    requires event in before && event !in attempted
    ensures after[event] == before[event]
    ensures Marked(before, after[event := Attempt(after[event], broker(event))], attempted + [event], broker)
  {
  }

  /** Rows already tried apart, the query sees the same table all through a call. */
  lemma SameQuery(before: Rows, after: Rows, attempted: seq<string>, broker: Broker, event: string)
    requires Marked(before, after, attempted, broker)
    ensures IsNext(after, Elements(attempted), event) <==> IsNext(before, Elements(attempted), event)
  {
  }

  lemma SamePending(before: Rows, after: Rows, attempted: seq<string>, broker: Broker)
    requires Marked(before, after, attempted, broker)
    ensures PendingIds(after) - Elements(attempted) == PendingIds(before) - Elements(attempted)
  {
  }

  lemma ElementsExtend(attempted: seq<string>, event: string)
    requires event !in attempted
    ensures Elements(attempted + [event]) == Elements(attempted) + {event}
    ensures |Elements(attempted + [event])| == |Elements(attempted)| + 1
  {
  }

  /** What the loop of `PublishPendingOnce` keeps. */
  ghost predicate Progress(start: Rows, rows: Rows, attempted: seq<string>, broker: Broker, published: nat) {
    && OldestFirst(start, attempted)
    && Marked(start, rows, attempted, broker)
    && published == |AckedIn(attempted, broker)|
    && |Elements(attempted)| == |attempted|
  }

  lemma Progresses(start: Rows, rows: Rows, attempted: seq<string>, broker: Broker, published: nat, event: string)
    requires Progress(start, rows, attempted, broker, published)
    requires IsNext(rows, Elements(attempted), event)
    ensures Elements(attempted + [event]) == Elements(attempted) + {event}
    ensures Progress(start, rows[event := Attempt(rows[event], broker(event))], attempted + [event], broker,
                     published + if broker(event).Acked? then 1 else 0)
  {
    SameQuery(start, rows, attempted, broker, event);
    OldestFirstExtends(start, attempted, event);
    AckedExtends(attempted, event, broker);
    MarkedExtends(start, rows, attempted, broker, event);
    ElementsExtend(attempted, event);
  }

  class OutboxTable {
    var rows: Rows

    constructor (rows: Rows)
      ensures this.rows == rows
    {
      this.rows := rows;
    }

    /**
     One call attempts the oldest `batchSize` pending events, each once and in order. Exactly the
     acknowledged ones leave the pending set; every other row is as it was.
     */
    method PublishPendingOnce(broker: Broker, batchSize: nat)
      returns (published: nat, failed: nat, ghost attempted: seq<string>)
      modifies this
      ensures OldestFirst(old(rows), attempted)
      ensures published + failed == |attempted| == Min(batchSize, |PendingIds(old(rows))|)
      ensures published == |AckedIn(attempted, broker)|
      ensures Marked(old(rows), rows, attempted, broker)
      ensures PendingIds(rows) == PendingIds(old(rows)) - AckedIn(attempted, broker)
    {
      published, failed, attempted := 0, 0, [];
      var attemptedIds: set<string> := {};
      ghost var start := rows;
      for n := 0 to batchSize
        invariant n == |attempted| == published + failed
        invariant attemptedIds == Elements(attempted)
        invariant Progress(start, rows, attempted, broker, published)
      {
        var event := SelectNext(rows, attemptedIds);
        if event.None? {
          SamePending(start, rows, attempted, broker);
          break;
        }
        Progresses(start, rows, attempted, broker, published, event.value);
        attemptedIds, attempted := attemptedIds + {event.value}, attempted + [event.value];
        var answer := broker(event.value);
        rows := rows[event.value := Attempt(rows[event.value], answer)];
        if answer.Refused? {
          failed := failed + 1;
          continue;
        }
        published := published + 1;
      }
      MarkedPending(start, rows, attempted, broker);
      CountAttempts(start, attemptedIds, batchSize);
    }

    /** One pass over a batch: the marks of all its publishes are committed together. */
    method PublishBatch(batch: seq<string>, broker: Broker)
      requires IsBatch(rows, batch)
      modifies this
      ensures rows.Keys == old(rows).Keys
      ensures forall id :: id in rows ==>
          rows[id] == if id in batch then BatchAttempt(old(rows)[id], broker(id)) else old(rows)[id]
      ensures PendingIds(rows) == PendingIds(old(rows)) - AckedIn(batch, broker)
    {
      var session := rows;
      for i := 0 to |batch|
        invariant session.Keys == rows.Keys
        invariant forall id :: id in rows ==>
            session[id] == if id in batch[..i] then BatchAttempt(rows[id], broker(id)) else rows[id]
      {
        assert batch[i] !in batch[..i];
        session := session[batch[i] := BatchAttempt(session[batch[i]], broker(batch[i]))];
      }
      rows := session;
    }
  }

  lemma CountAttempts(rows: Rows, ids: set<string>, batchSize: nat)
    requires ids <= PendingIds(rows) && |ids| <= batchSize
    requires |ids| == batchSize || PendingIds(rows) <= ids
    ensures |ids| == Min(batchSize, |PendingIds(rows)|)
  {
    assert PendingIds(rows) == ids + (PendingIds(rows) - ids);
  }
}
