/**
 The audit trail: one append-only hash chain per tenant (`services/audit-service/app/chain.py`).

 SHA-256 over canonical JSON is a parameter `hash`, any function of the hashed fields. Nothing
 is assumed of it: where the guarantee rests on collision-freedom, the theorem hands the
 caller a collision instead.
 */
module AuditChain {
  import opened Common

  const ZERO_HASH: string := "0000000000000000000000000000000000000000000000000000000000000000"

  datatype Scalar = Null | Bool(b: bool) | Number(n: real) | Text(s: string)

  datatype AuditEntry = AuditEntry(
    tenantId: Option<string>,
    sourceEventId: string,
    sourceType: string,
    sourceService: string,
    actorUserId: Option<string>,
    actorType: string,
    action: string,
    resourceType: string,
    resourceId: Option<string>,
    outcome: string,
    requestId: Option<string>,
    occurredAt: Time,
    metadata: map<string, Scalar>)

  datatype AuditRecord = AuditRecord(
    id: string,
    sequence: int,
    chainKey: string,
    entry: AuditEntry,
    ingestedAt: Time,
    prevHash: string,
    recordHash: string)

  /** The fields of a record that its hash covers: all of them but the hash itself. */
  datatype HashInput = HashInput(id: string, sequence: int, chainKey: string, entry: AuditEntry, ingestedAt: Time,
                                 prevHash: string)

  type Hash = HashInput -> string

  datatype ChainHead = ChainHead(tenantId: Option<string>, lastSequence: int, lastHash: string, updatedAt: Time)

  /** The two tables: records in insertion order, and the head of every chain. */
  datatype Tables = Tables(records: seq<AuditRecord>, heads: map<string, ChainHead>)

  datatype Appended = Duplicate(record: AuditRecord) | Created(record: AuditRecord) | IdCollision

  const EMPTY := Tables([], map[])

  function ChainKey(tenantId: Option<string>): string {
    if tenantId.Some? && tenantId.value != "" then "tenant:" + tenantId.value else "platform"
  }

  function HashFields(r: AuditRecord): HashInput {
    HashInput(r.id, r.sequence, r.chainKey, r.entry, r.ingestedAt, r.prevHash)
  }

  /** The record the unique index on `source_event_id` finds. */
  function FindEvent(records: seq<AuditRecord>, eventId: string): (r: Option<AuditRecord>)
    ensures r.Some? ==> r.value in records && r.value.entry.sourceEventId == eventId
    ensures r.None? <==> forall x :: x in records ==> x.entry.sourceEventId != eventId
  {
    if records == [] then None
    else if records[0].entry.sourceEventId == eventId then Some(records[0])
    else FindEvent(records[1..], eventId)
  }

  /** The rows of one chain, in table order. */
  function OfChain(records: seq<AuditRecord>, key: string): seq<AuditRecord> {
    if records == [] then []
    else
      var n := |records| - 1;
      if records[n].chainKey == key then OfChain(records[..n], key) + [records[n]] else OfChain(records[..n], key)
  }

  predicate Ascending(rows: seq<AuditRecord>) {
    forall i, j :: 0 <= i < j < |rows| ==> rows[i].sequence <= rows[j].sequence
  }

  function Insert(r: AuditRecord, rows: seq<AuditRecord>): seq<AuditRecord> {
    if rows == [] then [r]
    else
      var n := |rows| - 1;
      if rows[n].sequence <= r.sequence then rows + [r] else Insert(r, rows[..n]) + [rows[n]]
  }

  /** `ORDER BY sequence ASC`. */
  function OrderBySequence(rows: seq<AuditRecord>): seq<AuditRecord> {
    if rows == [] then []
    else
      var n := |rows| - 1;
      Insert(rows[n], OrderBySequence(rows[..n]))
  }

  /** The rows `verify_chain` reads. */
  function Chain(records: seq<AuditRecord>, key: string): seq<AuditRecord> {
    OrderBySequence(OfChain(records, key))
  }

  function LastHash(rows: seq<AuditRecord>): string {
    if rows == [] then ZERO_HASH else rows[|rows| - 1].recordHash
  }

  /** Row `i` is number `i + 1`, points at the row before it and carries its own hash. */
  predicate Links(hash: Hash, rows: seq<AuditRecord>, i: nat)
    requires i < |rows|
  {
    && rows[i].sequence == i + 1
    && rows[i].prevHash == LastHash(rows[..i])
    && rows[i].recordHash == hash(HashFields(rows[i]))
  }

  predicate Linked(hash: Hash, rows: seq<AuditRecord>) {
    forall i :: 0 <= i < |rows| ==> Links(hash, rows, i)
  }

  predicate HeadAgrees(rows: seq<AuditRecord>, head: Option<ChainHead>) {
    head.Some? ==> head.value.lastSequence == |rows| && head.value.lastHash == LastHash(rows)
  }

  function HeadOf(t: Tables, key: string): Option<ChainHead> {
    if key in t.heads then Some(t.heads[key]) else None
  }

  /** What `verify_chain` accepts. */
  predicate Valid(hash: Hash, t: Tables, key: string) {
    Linked(hash, Chain(t.records, key)) && HeadAgrees(Chain(t.records, key), HeadOf(t, key))
  }

  /** `append_record`: the tables afterwards and what the caller gets. */
  function Append(hash: Hash, t: Tables, entry: AuditEntry, id: string, now: Time): (Tables, Appended) {
    var existing := FindEvent(t.records, entry.sourceEventId);
    if existing.Some? then (t, Duplicate(existing.value))
    else if exists r :: r in t.records && r.id == id then (t, IdCollision)
    else
      var key := ChainKey(entry.tenantId);
      var head := if key in t.heads then t.heads[key] else ChainHead(entry.tenantId, 0, ZERO_HASH, now);
      var draft := AuditRecord(id, head.lastSequence + 1, key, entry, now, head.lastHash, ZERO_HASH);
      var record := draft.(recordHash := hash(HashFields(draft)));
      (Tables(t.records + [record],
              t.heads[key := ChainHead(head.tenantId, record.sequence, record.recordHash, now)]),
       Created(record))
  }

  datatype ChainVerification = ChainVerification(
    valid: bool,
    recordCount: nat,
    lastSequence: int,
    lastHash: string,
    firstInvalidSequence: Option<int>,
    firstInvalidRecordId: Option<string>)

  class AuditStore {
    const hash: Hash
    var records: seq<AuditRecord>
    var heads: map<string, ChainHead>

    constructor (hash: Hash)
      ensures this.hash == hash && Contents() == EMPTY
    {
      this.hash := hash;
      records, heads := [], map[];
    }

    function Contents(): Tables
      reads this
    {
      Tables(records, heads)
    }

    /** One transaction; a clash on the primary key rolls it back. */
    method AppendRecord(entry: AuditEntry, id: string, now: Time) returns (result: Appended)
      modifies this
      ensures (Contents(), result) == Append(hash, old(Contents()), entry, id, now)
    {
      var key := ChainKey(entry.tenantId);
      var existing := FindEvent(records, entry.sourceEventId);
      if existing.Some? {
        return Duplicate(existing.value);
      }
      var head := ChainHead(entry.tenantId, 0, ZERO_HASH, now);
      if key in heads {
        head := heads[key];
      }
      var record := AuditRecord(id, head.lastSequence + 1, key, entry, now, head.lastHash, ZERO_HASH);
      record := record.(recordHash := hash(HashFields(record)));
      if exists r :: r in records && r.id == id {
        return IdCollision;
      }
      records := records + [record];
      head := head.(lastSequence := record.sequence, lastHash := record.recordHash, updatedAt := now);
      heads := heads[key := head];
      return Created(record);
    }

    /** Accepts exactly the valid chains; otherwise names the first row that breaks the chain, or the head. */
    method VerifyChain(key: string) returns (v: ChainVerification)
      ensures v.valid <==> Valid(hash, Contents(), key)
      ensures v.recordCount == |Chain(records, key)|
      ensures v.valid ==>
                && v.lastSequence == v.recordCount && v.lastHash == LastHash(Chain(records, key))
                && v.firstInvalidSequence.None? && v.firstInvalidRecordId.None?
      ensures forall k :: 0 <= k < |Chain(records, key)|
                && !Links(hash, Chain(records, key), k)
                && (forall j :: 0 <= j < k ==> Links(hash, Chain(records, key), j))
                ==> var broken := Chain(records, key)[k];
                    v == ChainVerification(false, v.recordCount, broken.sequence, broken.recordHash,
                                           Some(broken.sequence), Some(broken.id))
      ensures Linked(hash, Chain(records, key)) && !v.valid ==>
                var rows := Chain(records, key);
                v == ChainVerification(false, |rows|, |rows|, LastHash(rows), Some(|rows|),
                                       if rows == [] then None else Some(rows[|rows| - 1].id))
    {
      var rows := Chain(records, key);
      var expectedPrev, expectedSequence, lastHash := ZERO_HASH, 1, ZERO_HASH;
      for i := 0 to |rows|
        invariant expectedSequence == i + 1
        invariant expectedPrev == lastHash == LastHash(rows[..i])
        invariant forall j :: 0 <= j < i ==> Links(hash, rows, j)
      {
        var record := rows[i];
        var recomputed := hash(HashFields(record));
        if record.sequence != expectedSequence || record.prevHash != expectedPrev || record.recordHash != recomputed {
          assert !Links(hash, rows, i);
          return ChainVerification(false, |rows|, record.sequence, record.recordHash, Some(record.sequence),
                                   Some(record.id));
        }
        expectedPrev, lastHash, expectedSequence := record.recordHash, record.recordHash, expectedSequence + 1;
      }
      assert rows[..|rows|] == rows;
      if key in heads && (heads[key].lastSequence != |rows| || heads[key].lastHash != lastHash) {
        return ChainVerification(false, |rows|, |rows|, lastHash, Some(|rows|),
                                 if rows == [] then None else Some(rows[|rows| - 1].id));
      }
      return ChainVerification(true, |rows|, |rows|, lastHash, None, None);
    }
  }

  // ---------------------------------------------------------------- append and verify agree

  predicate Apart(a: AuditRecord, b: AuditRecord) {
    a.entry.sourceEventId != b.entry.sourceEventId && a.id != b.id
  }

  /** One record an event, one record an identifier. */
  ghost predicate Unique(t: Tables) {
    forall i, j {:trigger Apart(t.records[i], t.records[j])} :: 0 <= i < j < |t.records| ==>
        Apart(t.records[i], t.records[j])
  }

  /** What every run keeps: unique keys, and for every chain a linked list of rows that its head sums up. */
  ghost predicate Inv(hash: Hash, t: Tables) {
    Unique(t) && forall key :: ChainInv(hash, t, key)
  }

  ghost predicate ChainInv(hash: Hash, t: Tables, key: string) {
    var rows := OfChain(t.records, key);
    && Linked(hash, rows)
    && HeadAgrees(rows, HeadOf(t, key))
    && (key !in t.heads ==> rows == [])
  }

  /** The place where `Insert` puts the row: after the last one that is not larger. */
  lemma {:induction false} InsertPlace(r: AuditRecord, rows: seq<AuditRecord>) returns (p: nat)
    requires Ascending(rows)
    ensures p <= |rows| && Insert(r, rows) == rows[..p] + [r] + rows[p..]
    ensures forall i :: 0 <= i < |rows| ==> (rows[i].sequence <= r.sequence <==> i < p)
  {
    if rows == [] || rows[|rows| - 1].sequence <= r.sequence {
      p := |rows|;
      assert rows[..p] == rows && rows[p..] == [];
    } else {
      var before, last := rows[..|rows| - 1], rows[|rows| - 1];
      p := InsertPlace(r, before);
      assert before[..p] == rows[..p] && before[p..] + [last] == rows[p..];
      assert Insert(r, rows) == before[..p] + [r] + (before[p..] + [last]);
      assert forall i :: 0 <= i < |before| ==> before[i] == rows[i];
    }
  }

  lemma InsertSorts(r: AuditRecord, rows: seq<AuditRecord>)
    requires Ascending(rows)
    ensures Ascending(Insert(r, rows))
    ensures multiset(Insert(r, rows)) == multiset(rows) + multiset{r}
  {
    var p := InsertPlace(r, rows);
    var out := Insert(r, rows);
    forall i, j | 0 <= i < j < |out| ensures out[i].sequence <= out[j].sequence {
      assert out[i] == if i < p then rows[i] else if i == p then r else rows[i - 1];
      assert out[j] == if j < p then rows[j] else if j == p then r else rows[j - 1];
    }
    InsertedMultiset(rows, p, r);
  }

  /** `OrderBySequence` is a sort: ascending, and nothing added or lost. */
  lemma {:induction false} OrderBySequenceSorts(rows: seq<AuditRecord>)
    ensures Ascending(OrderBySequence(rows))
    ensures multiset(OrderBySequence(rows)) == multiset(rows)
  {
    if rows != [] {
      var n := |rows| - 1;
      assert rows == rows[..n] + [rows[n]];
      OrderBySequenceSorts(rows[..n]);
      InsertSorts(rows[n], OrderBySequence(rows[..n]));
    }
  }

  lemma {:induction false} OrderBySequenceFixesSorted(rows: seq<AuditRecord>)
    requires Ascending(rows)
    ensures OrderBySequence(rows) == rows
  {
    if rows != [] {
      var n := |rows| - 1;
      assert rows == rows[..n] + [rows[n]];
      OrderBySequenceFixesSorted(rows[..n]);
    }
  }

  lemma InvImpliesValid(hash: Hash, t: Tables, key: string)
    requires Inv(hash, t)
    ensures Valid(hash, t, key)
    ensures Chain(t.records, key) == OfChain(t.records, key)
  {
    var rows := OfChain(t.records, key);
    assert ChainInv(hash, t, key);
    forall i, j | 0 <= i < j < |rows| ensures rows[i].sequence <= rows[j].sequence {
      assert Links(hash, rows, i) && Links(hash, rows, j);
    }
    OrderBySequenceFixesSorted(rows);
  }

  lemma OfChainAppend(records: seq<AuditRecord>, r: AuditRecord, key: string)
    ensures OfChain(records + [r], key)
            == if r.chainKey == key then OfChain(records, key) + [r] else OfChain(records, key)
  {
  }

  lemma LinkedAppend(hash: Hash, rows: seq<AuditRecord>, r: AuditRecord)
    requires Linked(hash, rows)
    requires r.sequence == |rows| + 1 && r.prevHash == LastHash(rows) && r.recordHash == hash(HashFields(r))
    ensures Linked(hash, rows + [r])
  {
    var out := rows + [r];
    forall i | 0 <= i < |out| ensures Links(hash, out, i) {
      if i < |rows| {
        assert Links(hash, rows, i);
        assert out[..i] == rows[..i];
      } else {
        assert out[..i] == rows;
      }
    }
  }

  lemma AppendKeepsUnique(hash: Hash, t: Tables, entry: AuditEntry, id: string, now: Time)
    requires Unique(t)
    ensures Unique(Append(hash, t, entry, id, now).0)
  {
  }

  lemma AppendKeepsInv(hash: Hash, t: Tables, entry: AuditEntry, id: string, now: Time)
    requires Inv(hash, t)
    ensures Inv(hash, Append(hash, t, entry, id, now).0)
  {
    var (t', result) := Append(hash, t, entry, id, now);
    AppendKeepsUnique(hash, t, entry, id, now);
    if result.Created? {
      forall key ensures ChainInv(hash, t', key) {
        assert ChainInv(hash, t, key);
        OfChainAppend(t.records, result.record, key);
        if key == result.record.chainKey {
          LinkedAppend(hash, OfChain(t.records, key), result.record);
        }
      }
    }
  }

  /**
   In every state that keeps the invariant: an event on record is answered by its record; otherwise a record
   with a fresh id is added at the end of its chain, numbered by its length and pointing at its last hash, and
   the head follows; a taken id changes nothing.
   */
  lemma AppendExactlyWhen(hash: Hash, t: Tables, entry: AuditEntry, id: string, now: Time)
    requires Inv(hash, t)
    ensures var (after, result) := Append(hash, t, entry, id, now);
            var known := exists r :: r in t.records && r.entry.sourceEventId == entry.sourceEventId;
            && (forall r :: r in t.records && r.entry.sourceEventId == entry.sourceEventId ==>
                  result == Duplicate(r) && after == t)
            && (!known && (exists r :: r in t.records && r.id == id) ==> result.IdCollision? && after == t)
            && (!known && (forall r :: r in t.records ==> r.id != id) ==>
                  && result.Created? && after.records == t.records + [result.record]
                  && var r, rows := result.record, OfChain(t.records, ChainKey(entry.tenantId));
                     && r.id == id && r.entry == entry && r.ingestedAt == now && r.chainKey == ChainKey(entry.tenantId)
                     && r.sequence == |rows| + 1 && r.prevHash == LastHash(rows) && r.recordHash == hash(HashFields(r))
                     && var tenant := if r.chainKey in t.heads then t.heads[r.chainKey].tenantId else entry.tenantId;
                        after.heads == t.heads[r.chainKey := ChainHead(tenant, r.sequence, r.recordHash, now)])
  {
    assert ChainInv(hash, t, ChainKey(entry.tenantId));
    var existing := FindEvent(t.records, entry.sourceEventId);
    if existing.Some? {
      var i :| 0 <= i < |t.records| && t.records[i] == existing.value;
      forall j | 0 <= j < |t.records| && t.records[j].entry.sourceEventId == entry.sourceEventId ensures j == i {
        assert i < j ==> Apart(t.records[i], t.records[j]);
        assert j < i ==> Apart(t.records[j], t.records[i]);
      }
    }
  }

  /** An append touches one chain only: rows and head of every other chain are the same. */
  lemma AppendFrame(hash: Hash, t: Tables, entry: AuditEntry, id: string, now: Time, key: string)
    requires key != ChainKey(entry.tenantId)
    ensures var t' := Append(hash, t, entry, id, now).0;
            Chain(t'.records, key) == Chain(t.records, key) && HeadOf(t', key) == HeadOf(t, key)
  {
  }

  /** Chains are separated by tenant: two entries share a chain exactly when they name the same tenant or none. */
  lemma ChainKeySeparatesTenants(a: Option<string>, b: Option<string>)
    ensures ChainKey(a) == ChainKey(b) <==>
              a == b || (a in {None, Some("")} && b in {None, Some("")})
  {
    var prefix := "tenant:";
    if ChainKey(a) == ChainKey(b) {
      assert "platform"[0] == 'p' && prefix[0] == 't';
      if a.Some? && a.value != "" {
        assert ChainKey(a)[0] == 't';
        assert b.Some? && b.value != "";
        assert a.value == ChainKey(a)[7..] == ChainKey(b)[7..] == b.value;
      }
    }
  }

  datatype Ingest = Ingest(entry: AuditEntry, id: string, now: Time)

  function AppendAll(hash: Hash, t: Tables, run: seq<Ingest>): Tables
    decreases |run|
  {
    if run == [] then t
    else AppendAll(hash, Append(hash, t, run[0].entry, run[0].id, run[0].now).0, run[1..])
  }

  lemma {:induction false} AppendAllKeepsInv(hash: Hash, t: Tables, run: seq<Ingest>)
    requires Inv(hash, t)
    ensures Inv(hash, AppendAll(hash, t, run))
    decreases |run|
  {
    if run != [] {
      AppendKeepsInv(hash, t, run[0].entry, run[0].id, run[0].now);
      AppendAllKeepsInv(hash, Append(hash, t, run[0].entry, run[0].id, run[0].now).0, run[1..]);
    }
  }

  /** After any interleaving of appends over any tenants, every chain verifies and is numbered 1..n. */
  lemma AppendAndVerifyAgree(hash: Hash, run: seq<Ingest>, key: string)
    ensures var t := AppendAll(hash, EMPTY, run);
            && Valid(hash, t, key)
            && (forall i :: 0 <= i < |Chain(t.records, key)| ==> Chain(t.records, key)[i].sequence == i + 1)
            && (key in t.heads <==> Chain(t.records, key) != [])
            && (key in t.heads ==> t.heads[key].lastSequence == |Chain(t.records, key)|)
  {
    var t := AppendAll(hash, EMPTY, run);
    assert Inv(hash, EMPTY) by {
      forall k ensures ChainInv(hash, EMPTY, k) {
      }
    }
    AppendAllKeepsInv(hash, EMPTY, run);
    InvImpliesValid(hash, t, key);
    assert ChainInv(hash, t, key);
    forall i | 0 <= i < |Chain(t.records, key)| ensures Chain(t.records, key)[i].sequence == i + 1 {
      assert Links(hash, Chain(t.records, key), i);
    }
    assert HeadsNonEmpty(t) by { AppendAllHeads(hash, EMPTY, run); }
  }

  ghost predicate HeadsNonEmpty(t: Tables) {
    forall key :: key in t.heads ==> OfChain(t.records, key) != []
  }

  lemma {:induction false} AppendAllHeads(hash: Hash, t: Tables, run: seq<Ingest>)
    requires HeadsNonEmpty(t)
    ensures HeadsNonEmpty(AppendAll(hash, t, run))
    decreases |run|
  {
    if run != [] {
      var (t', result) := Append(hash, t, run[0].entry, run[0].id, run[0].now);
      if result.Created? {
        forall key | key in t'.heads ensures OfChain(t'.records, key) != [] {
          OfChainAppend(t.records, result.record, key);
        }
      }
      AppendAllHeads(hash, t', run[1..]);
    }
  }

  // ---------------------------------------------------------------- tamper evidence

  /** Two different field tuples with one hash. */
  predicate Collision(hash: Hash, x: HashInput, y: HashInput) {
    x != y && hash(x) == hash(y)
  }

  /** Row `i` of the one list and row `i` of the other are such a pair. */
  predicate CollideAt(hash: Hash, a: seq<AuditRecord>, b: seq<AuditRecord>, i: nat) {
    i < |a| && i < |b| && Collision(hash, HashFields(a[i]), HashFields(b[i]))
  }

  ghost predicate Collide(hash: Hash, a: seq<AuditRecord>, b: seq<AuditRecord>) {
    exists i: nat :: CollideAt(hash, a, b, i)
  }

  /**
   Two linked lists of one length that end in one hash are equal row by row, or some row collides with its
   counterpart.
   */
  lemma {:induction false} SameEndSameRows(hash: Hash, a: seq<AuditRecord>, b: seq<AuditRecord>)
    requires Linked(hash, a) && Linked(hash, b)
    requires |a| == |b| && LastHash(a) == LastHash(b)
    ensures a == b || Collide(hash, a, b)
    decreases |a|
  {
    if a != [] {
      var n := |a| - 1;
      assert Links(hash, a, n) && Links(hash, b, n);
      if HashFields(a[n]) != HashFields(b[n]) {
        assert CollideAt(hash, a, b, n);
      } else {
        assert a[n] == b[n];
        LinkedPrefix(hash, a, n);
        LinkedPrefix(hash, b, n);
        SameEndSameRows(hash, a[..n], b[..n]);
        if i: nat :| CollideAt(hash, a[..n], b[..n], i) {
          assert CollideAt(hash, a, b, i);
        }
        assert a == a[..n] + [a[n]] && b == b[..n] + [b[n]];
      }
    }
  }

  lemma LinkedPrefix(hash: Hash, rows: seq<AuditRecord>, n: nat)
    requires Linked(hash, rows) && n <= |rows|
    ensures Linked(hash, rows[..n])
  {
    forall i | 0 <= i < n ensures Links(hash, rows[..n], i) {
      assert Links(hash, rows, i);
      assert rows[..n][..i] == rows[..i];
    }
  }

  /**
   Tamper evidence: if two states of the tables both verify for a chain whose heads exist and agree,
   the chain holds the same records in both. So no edit, renumbering, insertion or removal of rows
   under an unchanged head passes `verify_chain`, unless two rows at one place of the two chains
   are different and hash alike.
   */
  lemma TamperEvidence(hash: Hash, t: Tables, u: Tables, key: string)
    requires Valid(hash, t, key) && Valid(hash, u, key)
    requires key in t.heads && key in u.heads
    requires t.heads[key].lastSequence == u.heads[key].lastSequence && t.heads[key].lastHash == u.heads[key].lastHash
    ensures Collide(hash, Chain(t.records, key), Chain(u.records, key)) ||
            (Chain(t.records, key) == Chain(u.records, key)
             && multiset(OfChain(t.records, key)) == multiset(OfChain(u.records, key)))
  {
    SameEndSameRows(hash, Chain(t.records, key), Chain(u.records, key));
    OrderBySequenceSorts(OfChain(t.records, key));
    OrderBySequenceSorts(OfChain(u.records, key));
  }

  /**
   The head is what makes truncation visible: cutting a valid chain after `n` rows is accepted
   exactly when nothing is cut or the head row is gone too.
   */
  lemma TruncationNeedsTheHead(hash: Hash, rows: seq<AuditRecord>, head: Option<ChainHead>, n: nat)
    requires Linked(hash, rows) && HeadAgrees(rows, head) && n <= |rows|
    ensures Linked(hash, rows[..n]) && HeadAgrees(rows[..n], head) <==> n == |rows| || head.None?
  {
    LinkedPrefix(hash, rows, n);
    if n == |rows| {
      assert rows[..n] == rows;
    }
  }
}
