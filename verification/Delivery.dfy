/**
 Event delivery end to end: outbox rows, workers of both kinds, the bus and the audit consumer,
 with a crash possible between any two steps. Steps that are not enabled change nothing, so a run
 is any sequence of steps.
 */
module Delivery {
  import opened Common
  import opened Normalize
  import Outbox
  import AuditChain

  /** A stored message: the `Nats-Msg-Id` header and the body. */
  datatype Message = Message(msgId: string, body: Json)

  /** What becomes of one publish call: whether the bus stored it, and whether the worker learned so. */
  datatype Fate = StoredAndAcked | Deduplicated | StoredUnacked | Lost

  datatype System = System(
    outbox: Outbox.Rows,
    marks: map<nat, set<string>>,      // per worker: publishes acknowledged since its last commit
    stream: seq<Message>,              // every copy the bus ever stored
    acked: set<nat>,                   // copies the bus will not deliver again
    ingested: set<nat>,                // copies the running consumer has committed but not acked
    audit: AuditChain.Tables)

  const INITIAL := System(map[], map[], [], {}, {}, AuditChain.EMPTY)

  datatype Step =
    | Emit(row: OutboxRow)
    | Publish(worker: nat, id: string, fate: Fate)
    | CommitMarks(worker: nat, perEvent: bool, at: Time)
    | CommitFailure(perEvent: bool, id: string, error: string)
    | WorkerCrash(worker: nat)
    | Ingest(copy: nat, recordId: string, now: Time)
    | Ack(copy: nat)
    | ConsumerCrash

  function MarksOf(s: System, worker: nat): set<string> {
    if worker in s.marks then s.marks[worker] else {}
  }

  /** Whether the bus holds or held a copy of the event. */
  predicate Sent(s: System, id: string) {
    exists i :: 0 <= i < |s.stream| && s.stream[i].msgId == id
  }

  predicate Recorded(s: System, id: string) {
    exists i :: 0 <= i < |s.audit.records| && s.audit.records[i].entry.sourceEventId == id
  }

  function AfterAnswer(perEvent: bool, row: OutboxRow, answer: Outbox.Answer): OutboxRow {
    if perEvent then Outbox.Attempt(row, answer) else Outbox.BatchAttempt(row, answer)
  }

  function MarkPublished(rows: Outbox.Rows, ids: set<string>, perEvent: bool, at: Time): (out: Outbox.Rows)
    ensures out.Keys == rows.Keys
  {
    map id | id in rows :: if id in ids then AfterAnswer(perEvent, rows[id], Outbox.Acked(at)) else rows[id]
  }

  function StepPublish(s: System, worker: nat, id: string, fate: Fate): System {
    if !Outbox.Pending(s.outbox, id) then s
    else
      var row := s.outbox[id];
      var stored := Audited(row) && (fate.StoredAndAcked? || fate.StoredUnacked?);
      var learned := fate.StoredAndAcked? || (fate.Deduplicated? && (Audited(row) ==> Sent(s, id)));
      s.(stream := if stored then s.stream + [Message(id, Envelope(row))] else s.stream,
         marks := if learned then s.marks[worker := MarksOf(s, worker) + {id}] else s.marks)
  }

  /** `ingest_message` up to its commit. A message that is refused or fails leaves no trace and stays unacked. */
  function StepIngest(hash: AuditChain.Hash, s: System, copy: nat, recordId: string, now: Time): System {
    if copy >= |s.stream| then s
    else
      var normalized := NormalizeEvent(s.stream[copy].body);
      if normalized.Err? then s
      else
        var (audit, result) := AuditChain.Append(hash, s.audit, normalized.value, recordId, now);
        if result.IdCollision? then s else s.(audit := audit, ingested := s.ingested + {copy})
  }

  datatype IngestStatus = Inserted | Repeated | Failed

  /**
   `ingest_message` as written: normalise, append, commit, and only then acknowledge. `databaseFails`
   and `ackFails` say which outside call raises. An acknowledged message is on record.
   */
  method IngestMessage(store: AuditChain.AuditStore, body: Json, recordId: string, now: Time, databaseFails: bool,
                       ackFails: bool)
    returns (status: IngestStatus, acked: bool)
    modifies store
    ensures status.Failed? <==> !acked
    ensures acked <==>
              && NormalizeEvent(body).Ok? && !databaseFails && !ackFails
              && !AuditChain.Append(store.hash, old(store.Contents()), NormalizeEvent(body).value,
                                    recordId, now).1.IdCollision?
    ensures acked ==>
              NormalizeEvent(body).Ok? &&
              AuditChain.FindEvent(store.records, NormalizeEvent(body).value.sourceEventId).Some?
    ensures acked ==> (status.Repeated? <==> store.Contents() == old(store.Contents()))
    ensures forall s: System, copy: nat ::
        copy < |s.stream| && s.stream[copy].body == body && s.audit == old(store.Contents()) ==>
          store.Contents() == if databaseFails then s.audit
                              else StepIngest(store.hash, s, copy, recordId, now).audit
  {
    var normalized := NormalizeEvent(body);
    if normalized.Err? || databaseFails {
      return Failed, false;
    }
    var result := store.AppendRecord(normalized.value, recordId, now);
    if result.IdCollision? {
      return Failed, false;
    }
    assert result.record in store.records;
    if ackFails {
      return Failed, false;
    }
    return if result.Created? then Inserted else Repeated, true;
  }

  function Apply(hash: AuditChain.Hash, s: System, step: Step): System {
    match step
    case Emit(row) =>
      if row.eventId in s.outbox || !WellFormed(row) || row.publishedAt.Some? then s
      else s.(outbox := s.outbox[row.eventId := row])
    case Publish(worker, id, fate) => StepPublish(s, worker, id, fate)
    case CommitMarks(worker, perEvent, at) =>
      s.(outbox := MarkPublished(s.outbox, MarksOf(s, worker), perEvent, at), marks := s.marks[worker := {}])
    case CommitFailure(perEvent, id, error) =>
      if Outbox.Pending(s.outbox, id)
      then s.(outbox := s.outbox[id := AfterAnswer(perEvent, s.outbox[id], Outbox.Refused(error))]) else s
    case WorkerCrash(worker) => s.(marks := s.marks[worker := {}])
    case Ingest(copy, recordId, now) => StepIngest(hash, s, copy, recordId, now)
    case Ack(copy) =>
      if copy in s.ingested then s.(acked := s.acked + {copy}, ingested := s.ingested - {copy}) else s
    case ConsumerCrash => s.(ingested := {})
  }

  function Run(hash: AuditChain.Hash, s: System, steps: seq<Step>): System
    decreases |steps|
  {
    if steps == [] then s else Run(hash, Apply(hash, s, steps[0]), steps[1..])
  }

  // ---------------------------------------------------------------- the invariant

  ghost predicate OutboxInv(s: System) {
    forall id :: id in s.outbox ==> s.outbox[id].eventId == id && WellFormed(s.outbox[id])
  }

  ghost predicate Genuine(outbox: Outbox.Rows, m: Message) {
    m.msgId in outbox && Audited(outbox[m.msgId]) && m.body == Envelope(outbox[m.msgId])
  }

  ghost predicate StreamInv(s: System) {
    forall i {:trigger Genuine(s.outbox, s.stream[i])} :: 0 <= i < |s.stream| ==> Genuine(s.outbox, s.stream[i])
  }

  /** Whoever believes an audited event is out is right. */
  ghost predicate BelievedSent(s: System) {
    && (forall id :: id in s.outbox && Audited(s.outbox[id]) && s.outbox[id].publishedAt.Some? ==> Sent(s, id))
    && (forall w, id :: w in s.marks && id in s.marks[w] && id in s.outbox && Audited(s.outbox[id]) ==> Sent(s, id))
  }

  ghost predicate AckInv(s: System) {
    forall i :: i in s.acked || i in s.ingested ==> i < |s.stream| && Recorded(s, s.stream[i].msgId)
  }

  /** The entry reports the outbox row it names, in every field. */
  ghost predicate FromOutbox(outbox: Outbox.Rows, entry: AuditChain.AuditEntry) {
    && entry.sourceEventId in outbox && Audited(outbox[entry.sourceEventId])
    && Reports(outbox[entry.sourceEventId], entry)
  }

  ghost predicate AuditInv(s: System) {
    forall i {:trigger FromOutbox(s.outbox, s.audit.records[i].entry)} ::
      0 <= i < |s.audit.records| ==> FromOutbox(s.outbox, s.audit.records[i].entry)
  }

  ghost predicate Inv(hash: AuditChain.Hash, s: System) {
    OutboxInv(s) && StreamInv(s) && BelievedSent(s) && AckInv(s) && AuditInv(s) && AuditChain.Inv(hash, s.audit)
  }

  /** A worker writes to a row only what became of its publication. */
  predicate SameEvent(row: OutboxRow, after: OutboxRow) {
    after == row.(publishedAt := after.publishedAt, attempts := after.attempts, lastError := after.lastError)
  }

  /** The outbox changed, but no row lost its event. */
  ghost predicate SameMessages(before: Outbox.Rows, after: Outbox.Rows) {
    forall id :: id in before ==>
      id in after && SameEvent(before[id], after[id])
  }

  lemma AnswerKeepsMessage(perEvent: bool, row: OutboxRow, answer: Outbox.Answer)
    ensures var r := AfterAnswer(perEvent, row, answer);
            && SameEvent(row, r) && (WellFormed(row) ==> WellFormed(r))
            && (answer.Refused? ==> r.publishedAt == row.publishedAt)
  {
  }

  /** Replacing the outbox keeps the invariant if messages stay and newly published rows were sent. */
  lemma OutboxReplaced(hash: AuditChain.Hash, s: System, rows: Outbox.Rows)
    requires Inv(hash, s)
    requires SameMessages(s.outbox, rows)
    requires forall id :: id in rows ==> rows[id].eventId == id && WellFormed(rows[id])
    requires forall id :: id in rows && Audited(rows[id]) && rows[id].publishedAt.Some? ==> Sent(s, id)
    requires forall w, id :: w in s.marks && id in s.marks[w] && id in rows && Audited(rows[id]) ==> Sent(s, id)
    ensures Inv(hash, s.(outbox := rows))
  {
    var t := s.(outbox := rows);
    assert StreamInv(t) by {
      forall i | 0 <= i < |t.stream| ensures Genuine(t.outbox, t.stream[i]) {
        assert Genuine(s.outbox, s.stream[i]);
      }
    }
    assert AuditInv(t) by {
      forall i | 0 <= i < |t.audit.records| ensures FromOutbox(t.outbox, t.audit.records[i].entry) {
        assert FromOutbox(s.outbox, s.audit.records[i].entry);
      }
    }
    forall id ensures Sent(t, id) == Sent(s, id) && Recorded(t, id) == Recorded(s, id) {
    }
    assert BelievedSent(t);
    assert AckInv(t);
  }

  /** Marks that an earlier run cannot have left behind: a new event's identifier was never sent. */
  ghost predicate MarksInOutbox(s: System) {
    forall w, id :: w in s.marks && id in s.marks[w] ==> id in s.outbox
  }

  lemma EmitKeepsInv(hash: AuditChain.Hash, s: System, row: OutboxRow)
    requires Inv(hash, s) && MarksInOutbox(s)
    ensures Inv(hash, Apply(hash, s, Emit(row))) && MarksInOutbox(Apply(hash, s, Emit(row)))
  {
    if row.eventId !in s.outbox && WellFormed(row) && row.publishedAt.None? {
      OutboxReplaced(hash, s, s.outbox[row.eventId := row]);
    }
  }

  lemma CommitKeepsInv(hash: AuditChain.Hash, s: System, worker: nat, perEvent: bool, at: Time)
    requires Inv(hash, s) && MarksInOutbox(s)
    ensures var t := Apply(hash, s, CommitMarks(worker, perEvent, at)); Inv(hash, t) && MarksInOutbox(t)
  {
    var ids := MarksOf(s, worker);
    var rows := MarkPublished(s.outbox, ids, perEvent, at);
    forall id | id in s.outbox
      ensures SameEvent(s.outbox[id], rows[id]) && rows[id].eventId == id && WellFormed(rows[id])
      ensures Audited(rows[id]) && rows[id].publishedAt.Some? ==> Sent(s, id)
    {
      AnswerKeepsMessage(perEvent, s.outbox[id], Outbox.Acked(at));
    }
    OutboxReplaced(hash, s, rows);
    MarksShrink(hash, s.(outbox := rows), worker);
  }

  lemma MarksShrink(hash: AuditChain.Hash, s: System, worker: nat)
    requires Inv(hash, s) && MarksInOutbox(s)
    ensures var t := s.(marks := s.marks[worker := {}]); Inv(hash, t) && MarksInOutbox(t)
  {
  }

  lemma FailureKeepsInv(hash: AuditChain.Hash, s: System, perEvent: bool, id: string, error: string)
    requires Inv(hash, s) && MarksInOutbox(s)
    ensures var t := Apply(hash, s, CommitFailure(perEvent, id, error)); Inv(hash, t) && MarksInOutbox(t)
  {
    if Outbox.Pending(s.outbox, id) {
      AnswerKeepsMessage(perEvent, s.outbox[id], Outbox.Refused(error));
      OutboxReplaced(hash, s, s.outbox[id := AfterAnswer(perEvent, s.outbox[id], Outbox.Refused(error))]);
    }
  }

  lemma PublishKeepsInv(hash: AuditChain.Hash, s: System, worker: nat, id: string, fate: Fate)
    requires Inv(hash, s) && MarksInOutbox(s)
    ensures var t := StepPublish(s, worker, id, fate); Inv(hash, t) && MarksInOutbox(t)
  {
    var t := StepPublish(s, worker, id, fate);
    if Outbox.Pending(s.outbox, id) {
      if |t.stream| > |s.stream| {
        assert t.stream[|s.stream|].msgId == id && Sent(t, id);
      }
      assert StreamInv(t) by {
        forall i | 0 <= i < |t.stream| ensures Genuine(t.outbox, t.stream[i]) {
          if i < |s.stream| {
            assert Genuine(s.outbox, s.stream[i]);
          }
        }
      }
      StreamGrew(s, t, worker, id);
    }
  }

  /** More copies on the bus take nothing from what was sent, and a worker notes only what was sent. */
  lemma StreamGrew(s: System, t: System, worker: nat, id: string)
    requires t == s.(stream := t.stream, marks := t.marks) && s.stream <= t.stream
    requires t.marks == s.marks || (t.marks == s.marks[worker := MarksOf(s, worker) + {id}]
                                    && (id in s.outbox && Audited(s.outbox[id]) ==> Sent(t, id)))
    requires AckInv(s) && BelievedSent(s) && AuditInv(s)
    ensures AckInv(t) && BelievedSent(t) && AuditInv(t)
  {
  }

  lemma IngestKeepsInv(hash: AuditChain.Hash, s: System, copy: nat, recordId: string, now: Time)
    requires Inv(hash, s) && MarksInOutbox(s)
    ensures var t := StepIngest(hash, s, copy, recordId, now); Inv(hash, t) && MarksInOutbox(t)
  {
    var t := StepIngest(hash, s, copy, recordId, now);
    if copy < |s.stream| {
      var m := s.stream[copy];
      assert Genuine(s.outbox, m);
      EnvelopeAccepted(s.outbox[m.msgId]);
      var entry := NormalizeEvent(m.body).value;
      var (audit, result) := AuditChain.Append(hash, s.audit, entry, recordId, now);
      AuditChain.AppendKeepsInv(hash, s.audit, entry, recordId, now);
      if !result.IdCollision? {
        AppendRecords(hash, s.audit, entry, recordId, now);
        assert AuditInv(t) by {
          forall i | 0 <= i < |t.audit.records| ensures FromOutbox(t.outbox, t.audit.records[i].entry) {
            if i < |s.audit.records| {
              assert FromOutbox(s.outbox, s.audit.records[i].entry);
            }
          }
        }
        AuditGrew(s, t, copy);
      }
    }
  }

  /** More records take nothing from what is recorded. */
  lemma AuditGrew(s: System, t: System, copy: nat)
    requires t == s.(audit := t.audit, ingested := s.ingested + {copy}) && s.audit.records <= t.audit.records
    requires copy < |s.stream| && Recorded(t, s.stream[copy].msgId)
    requires AckInv(s) && BelievedSent(s) && StreamInv(s)
    ensures AckInv(t) && BelievedSent(t) && StreamInv(t)
  {
  }

  /** What an append that goes through does to the record list. */
  lemma AppendRecords(hash: AuditChain.Hash, a: AuditChain.Tables, entry: AuditChain.AuditEntry, id: string, now: Time)
    requires !AuditChain.Append(hash, a, entry, id, now).1.IdCollision?
    ensures var records := AuditChain.Append(hash, a, entry, id, now).0.records;
            && a.records <= records
            && (forall i :: |a.records| <= i < |records| ==> records[i].entry == entry)
            && exists i :: 0 <= i < |records| && records[i].entry.sourceEventId == entry.sourceEventId
  {
    var (b, result) := AuditChain.Append(hash, a, entry, id, now);
    assert result.record in b.records;
  }

  lemma AckKeepsInv(hash: AuditChain.Hash, s: System, acked: set<nat>, ingested: set<nat>)
    requires Inv(hash, s) && MarksInOutbox(s)
    requires acked + ingested <= s.acked + s.ingested
    ensures var t := s.(acked := acked, ingested := ingested); Inv(hash, t) && MarksInOutbox(t)
  {
    var t := s.(acked := acked, ingested := ingested);
    forall id ensures Sent(t, id) == Sent(s, id) && Recorded(t, id) == Recorded(s, id) {
    }
    assert AckInv(t) && BelievedSent(t) && StreamInv(t) && AuditInv(t);
  }

  lemma StepKeepsInv(hash: AuditChain.Hash, s: System, step: Step)
    requires Inv(hash, s) && MarksInOutbox(s)
    ensures Inv(hash, Apply(hash, s, step)) && MarksInOutbox(Apply(hash, s, step))
  {
    match step
    case Emit(row) => EmitKeepsInv(hash, s, row);
    case Publish(worker, id, fate) => PublishKeepsInv(hash, s, worker, id, fate);
    case CommitMarks(worker, perEvent, at) => CommitKeepsInv(hash, s, worker, perEvent, at);
    case CommitFailure(perEvent, id, error) => FailureKeepsInv(hash, s, perEvent, id, error);
    case WorkerCrash(worker) => MarksShrink(hash, s, worker);
    case Ingest(copy, recordId, now) => IngestKeepsInv(hash, s, copy, recordId, now);
    case Ack(copy) => if copy in s.ingested { AckKeepsInv(hash, s, s.acked + {copy}, s.ingested - {copy}); }
    case ConsumerCrash => AckKeepsInv(hash, s, s.acked, {});
  }

  lemma {:induction false} RunKeepsInv(hash: AuditChain.Hash, s: System, steps: seq<Step>)
    requires Inv(hash, s) && MarksInOutbox(s)
    ensures Inv(hash, Run(hash, s, steps))
    decreases |steps|
  {
    if steps != [] {
      StepKeepsInv(hash, s, steps[0]);
      RunKeepsInv(hash, Apply(hash, s, steps[0]), steps[1..]);
    }
  }

  // ---------------------------------------------------------------- the guarantees

  /** A stored copy the bus will still deliver. */
  ghost predicate StillQueued(s: System, id: string) {
    exists i :: 0 <= i < |s.stream| && i !in s.acked && s.stream[i].msgId == id
  }

  /**
   Exactly once, over every run: no event has two audit records; an event its service counts as
   published is recorded or still queued; and what is recorded is what the event says.
   */
  lemma ExactlyOnce(hash: AuditChain.Hash, steps: seq<Step>)
    ensures var s := Run(hash, INITIAL, steps);
            && (forall i, j :: 0 <= i < j < |s.audit.records| ==>
                  s.audit.records[i].entry.sourceEventId != s.audit.records[j].entry.sourceEventId)
            && (forall id :: id in s.outbox && Audited(s.outbox[id]) && s.outbox[id].publishedAt.Some?
                             ==> StillQueued(s, id) || Recorded(s, id))
            && (forall i :: 0 <= i < |s.audit.records| ==> FromOutbox(s.outbox, s.audit.records[i].entry))
  {
    var s := Run(hash, INITIAL, steps);
    InitialInv(hash);
    RunKeepsInv(hash, INITIAL, steps);
    forall i, j | 0 <= i < j < |s.audit.records|
      ensures s.audit.records[i].entry.sourceEventId != s.audit.records[j].entry.sourceEventId
    {
      assert AuditChain.Apart(s.audit.records[i], s.audit.records[j]);
    }
    forall id | id in s.outbox && Audited(s.outbox[id]) && s.outbox[id].publishedAt.Some?
      ensures StillQueued(s, id) || Recorded(s, id)
    {
      var i :| 0 <= i < |s.stream| && s.stream[i].msgId == id;
      assert i in s.acked ==> Recorded(s, s.stream[i].msgId);
    }
  }

  /** The row after a commit that marks it published. */
  predicate PublishedAs(row: OutboxRow, after: OutboxRow, perEvent: bool, at: Time) {
    && SameEvent(row, after) && after.publishedAt == Some(at) && after.lastError.None?
    && after.attempts == row.attempts + if perEvent then 1 else 0
  }

  /** The audit tables have one more record, and it reports the row. */
  ghost predicate RecordsRow(before: AuditChain.Tables, after: AuditChain.Tables, row: OutboxRow, recordId: string,
                             now: Time) {
    && |after.records| == |before.records| + 1 && before.records <= after.records
    && var r := after.records[|before.records|];
       r.id == recordId && r.ingestedAt == now && Reports(row, r.entry)
  }

  /** A copy of a well-formed row that is delivered, under a fresh record id, leaves the event on record. */
  lemma IngestRecords(hash: AuditChain.Hash, s: System, copy: nat, row: OutboxRow, recordId: string, now: Time)
    requires AuditChain.Inv(hash, s.audit) && WellFormed(row)
    requires copy < |s.stream| && s.stream[copy].body == Envelope(row)
    requires forall r :: r in s.audit.records ==> r.id != recordId
    ensures var after := StepIngest(hash, s, copy, recordId, now);
            && after == s.(audit := after.audit, ingested := s.ingested + {copy}) && Recorded(after, row.eventId)
            && (!Recorded(s, row.eventId) ==> RecordsRow(s.audit, after.audit, row, recordId, now))
  {
    EnvelopeAccepted(row);
    var entry := NormalizeEvent(Envelope(row)).value;
    AuditChain.AppendExactlyWhen(hash, s.audit, entry, recordId, now);
    forall r | r in s.audit.records && r.entry.sourceEventId == row.eventId ensures Recorded(s, row.eventId) {
      var i :| 0 <= i < |s.audit.records| && s.audit.records[i] == r;
      assert s.audit.records[i].entry.sourceEventId == row.eventId;
    }
    if Recorded(s, row.eventId) {
      var i :| 0 <= i < |s.audit.records| && s.audit.records[i].entry.sourceEventId == row.eventId;
      assert s.audit.records[i] in s.audit.records;
    } else {
      var after := StepIngest(hash, s, copy, recordId, now);
      assert after.audit.records[|s.audit.records|].entry.sourceEventId == row.eventId;
    }
  }

  lemma OneStep(hash: AuditChain.Hash, s: System, step: Step, rest: seq<Step>)
    ensures Run(hash, s, [step] + rest) == Run(hash, Apply(hash, s, step), rest)
  {
    assert ([step] + rest)[1..] == rest;
  }

  /** A pending audited event is published; the bus stores it and the worker learns so. */
  lemma ThenPublished(hash: AuditChain.Hash, s: System, worker: nat, id: string, rest: seq<Step>)
    returns (after: System)
    requires Outbox.Pending(s.outbox, id) && Audited(s.outbox[id])
    ensures Run(hash, s, [Publish(worker, id, StoredAndAcked)] + rest) == Run(hash, after, rest)
    ensures after == s.(stream := s.stream + [Message(id, Envelope(s.outbox[id]))],
                        marks := s.marks[worker := MarksOf(s, worker) + {id}])
  {
    after := Apply(hash, s, Publish(worker, id, StoredAndAcked));
    OneStep(hash, s, Publish(worker, id, StoredAndAcked), rest);
  }

  /** Its copy is delivered and recorded, and then acknowledged. */
  lemma ThenRecorded(hash: AuditChain.Hash, s: System, copy: nat, row: OutboxRow, recordId: string, now: Time,
                     rest: seq<Step>) returns (after: System)
    requires AuditChain.Inv(hash, s.audit) && WellFormed(row)
    requires copy < |s.stream| && s.stream[copy].body == Envelope(row)
    requires forall r :: r in s.audit.records ==> r.id != recordId
    ensures Run(hash, s, [Ingest(copy, recordId, now)] + rest) == Run(hash, after, rest)
    ensures after == s.(audit := after.audit, ingested := s.ingested + {copy}) && Recorded(after, row.eventId)
    ensures !Recorded(s, row.eventId) ==> RecordsRow(s.audit, after.audit, row, recordId, now)
  {
    IngestRecords(hash, s, copy, row, recordId, now);
    after := Apply(hash, s, Ingest(copy, recordId, now));
    OneStep(hash, s, Ingest(copy, recordId, now), rest);
  }

  lemma ThenAcked(hash: AuditChain.Hash, s: System, copy: nat, rest: seq<Step>) returns (after: System)
    requires copy in s.ingested
    ensures Run(hash, s, [Ack(copy)] + rest) == Run(hash, after, rest)
    ensures after == s.(acked := s.acked + {copy}, ingested := s.ingested - {copy})
  {
    after := Apply(hash, s, Ack(copy));
    OneStep(hash, s, Ack(copy), rest);
  }

  /** The worker commits what it has noted. */
  lemma ThenCommitted(hash: AuditChain.Hash, s: System, worker: nat, id: string, perEvent: bool, at: Time)
    returns (after: System)
    requires id in s.outbox && id in MarksOf(s, worker)
    ensures Run(hash, s, [CommitMarks(worker, perEvent, at)]) == after
    ensures after == s.(outbox := after.outbox, marks := s.marks[worker := {}])
    ensures id in after.outbox && PublishedAs(s.outbox[id], after.outbox[id], perEvent, at)
  {
    after := Apply(hash, s, CommitMarks(worker, perEvent, at));
    assert [CommitMarks(worker, perEvent, at)] + [] == [CommitMarks(worker, perEvent, at)];
    OneStep(hash, s, CommitMarks(worker, perEvent, at), []);
  }

  /**
   Whenever an audited event is pending, the next publication, delivery and commit get it through: it has a
   record, of this event if it had none before, its copy is acknowledged, and the outbox counts it as published.
   */
  lemma PendingGetsThrough(hash: AuditChain.Hash, steps: seq<Step>, worker: nat, id: string, perEvent: bool,
                           recordId: string, now: Time, at: Time)
    returns (after: System)
    requires var s := Run(hash, INITIAL, steps);
             && Outbox.Pending(s.outbox, id) && Audited(s.outbox[id])
             && forall r :: r in s.audit.records ==> r.id != recordId
    ensures var s := Run(hash, INITIAL, steps);
            && after == Run(hash, s, [Publish(worker, id, StoredAndAcked)]
                                     + ([Ingest(|s.stream|, recordId, now)]
                                        + ([Ack(|s.stream|)] + [CommitMarks(worker, perEvent, at)])))
            && Recorded(after, id) && |s.stream| in after.acked
            && after.stream == s.stream + [Message(id, Envelope(s.outbox[id]))]
            && id in after.outbox && PublishedAs(s.outbox[id], after.outbox[id], perEvent, at)
            && (!Recorded(s, id) ==> RecordsRow(s.audit, after.audit, s.outbox[id], recordId, now))
  {
    var s := Run(hash, INITIAL, steps);
    InitialInv(hash);
    RunKeepsInv(hash, INITIAL, steps);
    var last := [CommitMarks(worker, perEvent, at)];
    var published := ThenPublished(hash, s, worker, id,
                                   [Ingest(|s.stream|, recordId, now)] + ([Ack(|s.stream|)] + last));
    var recorded := ThenRecorded(hash, published, |s.stream|, s.outbox[id], recordId, now, [Ack(|s.stream|)] + last);
    var acked := ThenAcked(hash, recorded, |s.stream|, last);
    after := ThenCommitted(hash, acked, worker, id, perEvent, at);
    assert Recorded(after, id) && (Recorded(s, id) <==> Recorded(published, id));
  }

  /** Once the bus has nothing left to deliver, every audited event that was ever stored has a record. */
  lemma DrainedMeansRecorded(hash: AuditChain.Hash, steps: seq<Step>, id: string)
    requires Sent(Run(hash, INITIAL, steps), id) && !StillQueued(Run(hash, INITIAL, steps), id)
    ensures Recorded(Run(hash, INITIAL, steps), id)
  {
    var s := Run(hash, INITIAL, steps);
    InitialInv(hash);
    RunKeepsInv(hash, INITIAL, steps);
    var i :| 0 <= i < |s.stream| && s.stream[i].msgId == id;
    assert i in s.acked;
  }

  /** Throughout, the trail of every tenant passes its own verification. */
  lemma EveryChainVerifies(hash: AuditChain.Hash, steps: seq<Step>, key: string)
    ensures AuditChain.Valid(hash, Run(hash, INITIAL, steps).audit, key)
  {
    InitialInv(hash);
    RunKeepsInv(hash, INITIAL, steps);
    AuditChain.InvImpliesValid(hash, Run(hash, INITIAL, steps).audit, key);
  }

  lemma InitialInv(hash: AuditChain.Hash)
    ensures Inv(hash, INITIAL) && MarksInOutbox(INITIAL)
  {
  }
}
