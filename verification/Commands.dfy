/**
 The command service (`services/command-service/app`): commands are created once per idempotency
 key, handed to their device at most once under a lease, and finished by at most one result.

 Every handler is one transaction over three tables. SHA-256 digests are parameters. The answers
 of the two row-selecting queries of `acquire_commands` are parameters too, bound by what the SQL says.
 */
module Commands {
  import opened Common

  const MAX_ACQUIRE_LIMIT := 10
  const LEASE_SECONDS := 120
  const CLOCK_TOLERANCE_SECONDS := 120

  datatype Principal = Principal(tenantId: string, assetId: string, deviceId: string)

  datatype Task = InventoryRefresh | Reboot(delaySeconds: nat) | RestartService(serviceName: string)

  datatype State = Queued | Dispatched | Running | Succeeded | Failed | Cancelled | Expired

  datatype Status = StatusSucceeded | StatusFailed

  datatype Request = Request(assetId: string, deviceId: string, task: Task, idempotencyKey: string,
                             expiresInSeconds: nat)

  /** The fields `_semantic_digest` covers. */
  datatype RequestKey = RequestKey(deviceId: string, assetId: string, task: Task, expiresInSeconds: nat)

  /** The fields `_payload_digest` covers. */
  datatype PayloadKey = PayloadKey(sequence: nat, status: Status, exitCode: Option<int>, summary: string,
                                   startedAt: Time, finishedAt: Time)

  datatype Payload = Payload(token: string, key: PayloadKey)

  datatype Digests = Digests(token: string -> string, request: RequestKey -> string, payload: PayloadKey -> string)

  /** The columns of a command that are written once. */
  datatype Order = Order(
    commandId: string,
    target: Principal,
    createdBy: string,
    task: Task,
    idempotencyKey: string,
    requestDigest: string,
    createdAt: Time,
    expiresAt: Time)

  datatype Command = Command(
    order: Order,
    state: State,
    dispatchAttempts: nat,
    tokenHash: Option<string>,
    leaseExpiresAt: Option<Time>)

  datatype ResultRow = ResultRow(commandId: string, key: PayloadKey, digest: string, receivedAt: Time)

  datatype EventKind =
    | CommandCreated | CommandWakeup | CommandDispatched | CommandRunning
    | CommandSucceeded | CommandFailed | CommandCancelled | CommandExpired

  datatype Event = Event(kind: EventKind, commandId: string, target: Principal, at: Time)

  /** The tables; `byKey` is the unique index on tenant and idempotency key, results are grouped by command. */
  datatype Db = Db(commands: map<string, Command>, byKey: map<(string, string), string>,
                   results: map<string, seq<ResultRow>>, events: seq<Event>)

  datatype Acquired = Acquired(commandId: string, task: Task, token: string, leaseExpiresAt: Time, expiresAt: Time)

  datatype Error =
    | IdempotencyConflict | IdCollision | CommandNotFound | PrincipalMismatch | TokenInvalid
    | LeaseExpired | StateConflict | ResultConflict | TimestampInvalid

  const EMPTY := Db(map[], map[], map[], [])

  predicate Terminal(state: State) {
    state in {Succeeded, Failed, Cancelled, Expired}
  }

  function StateOf(status: Status): State {
    if status.StatusSucceeded? then Succeeded else Failed
  }

  function ResultEvent(status: Status): EventKind {
    if status.StatusSucceeded? then CommandSucceeded else CommandFailed
  }

  /** Writes a changed row and appends its event. */
  function Record(db: Db, id: string, c: Command, kind: EventKind, at: Time): Db {
    db.(commands := db.commands[id := c], events := db.events + [Event(kind, id, c.order.target, at)])
  }

  // ---------------------------------------------------------------- create

  function DigestOf(d: Digests, r: Request): string {
    d.request(RequestKey(r.deviceId, r.assetId, r.task, r.expiresInSeconds))
  }

  function NewCommand(d: Digests, tenantId: string, actor: string, r: Request, now: Time, id: string): Command {
    Command(Order(id, Principal(tenantId, r.assetId, r.deviceId), actor, r.task, r.idempotencyKey, DigestOf(d, r),
                  now, now + r.expiresInSeconds),
            Queued, 0, None, None)
  }

  /** The new row, its index entry and its two events. */
  function Insert(db: Db, id: string, c: Command, now: Time): Db {
    Db(db.commands[id := c], db.byKey[(c.order.target.tenantId, c.order.idempotencyKey) := id], db.results,
       db.events + [Event(CommandCreated, id, c.order.target, now)] + [Event(CommandWakeup, id, c.order.target, now)])
  }

  /** `create_command`: the row the unique key already names, or a new one. */
  function Create(d: Digests, db: Db, tenantId: string, actor: string, r: Request, now: Time, id: string)
    : (Db, Result<Command, Error>)
  {
    var key := (tenantId, r.idempotencyKey);
    if key in db.byKey && db.byKey[key] in db.commands then
      var existing := db.commands[db.byKey[key]];
      (db, if existing.order.requestDigest != DigestOf(d, r) then Err(IdempotencyConflict) else Ok(existing))
    else if id in db.commands then (db, Err(IdCollision))
    else
      var c := NewCommand(d, tenantId, actor, r, now, id);
      (Insert(db, id, c, now), Ok(c))
  }

  // ---------------------------------------------------------------- acquire

  predicate Waiting(c: Command, p: Principal) {
    c.order.target == p && c.state.Queued?
  }

  predicate Overdue(db: Db, p: Principal, now: Time, id: string) {
    id in db.commands && Waiting(db.commands[id], p) && db.commands[id].order.expiresAt <= now
  }

  predicate Ready(db: Db, p: Principal, now: Time, locked: set<string>, id: string) {
    id in db.commands && Waiting(db.commands[id], p) && db.commands[id].order.expiresAt > now && id !in locked
  }

  function ReadyIds(db: Db, p: Principal, now: Time, locked: set<string>): set<string> {
    set id | id in db.commands && Ready(db, p, now, locked, id)
  }

  /** The first query: every queued command of the device whose time is up. */
  predicate OverdueAnswer(db: Db, p: Principal, now: Time, ids: seq<string>) {
    && Distinct(ids)
    && (forall id :: id in ids ==> Overdue(db, p, now, id))
    && (forall id :: id in db.commands && Overdue(db, p, now, id) ==> id in ids)
  }

  /** The second query: the oldest queued commands, rows locked by others skipped. */
  predicate ReadyAnswer(db: Db, p: Principal, now: Time, limit: nat, locked: set<string>, ids: seq<string>) {
    && Distinct(ids)
    && (forall i :: 0 <= i < |ids| ==> Ready(db, p, now, locked, ids[i]))
    && (forall i, j :: 0 <= i < j < |ids| ==>
        db.commands[ids[i]].order.createdAt <= db.commands[ids[j]].order.createdAt)
    && |ids| == Min(limit, |ReadyIds(db, p, now, locked)|)
    && (forall i, id :: 0 <= i < |ids| && id in db.commands && Ready(db, p, now, locked, id) && id !in ids
                        ==> db.commands[ids[i]].order.createdAt <= db.commands[id].order.createdAt)
  }

  function EffectiveLimit(limit: int): nat {
    Max(0, Min(limit, MAX_ACQUIRE_LIMIT))
  }

  function Lease(c: Command, now: Time): Time {
    Min(c.order.expiresAt, now + LEASE_SECONDS)
  }

  function DispatchedRow(d: Digests, c: Command, token: string, now: Time): Command {
    c.(state := Dispatched, tokenHash := Some(d.token(token)), leaseExpiresAt := Some(Lease(c, now)),
       dispatchAttempts := c.dispatchAttempts + 1)
  }

  function Expire(db: Db, ids: seq<string>, now: Time): Db
    requires forall i :: 0 <= i < |ids| ==> ids[i] in db.commands
    ensures Expire(db, ids, now).commands.Keys == db.commands.Keys
  {
    if ids == [] then db
    else
      var n := |ids| - 1;
      var rest := Expire(db, ids[..n], now);
      Record(rest, ids[n], rest.commands[ids[n]].(state := Expired), CommandExpired, now)
  }

  function Dispatch(d: Digests, db: Db, ids: seq<string>, tokens: seq<string>, now: Time): Db
    requires |tokens| == |ids| && forall i :: 0 <= i < |ids| ==> ids[i] in db.commands
    ensures Dispatch(d, db, ids, tokens, now).commands.Keys == db.commands.Keys
  {
    if ids == [] then db
    else
      var n := |ids| - 1;
      var rest := Dispatch(d, db, ids[..n], tokens[..n], now);
      Record(rest, ids[n], DispatchedRow(d, rest.commands[ids[n]], tokens[n], now), CommandDispatched, now)
  }

  function Handout(db: Db, ids: seq<string>, tokens: seq<string>, now: Time): (out: seq<Acquired>)
    requires |tokens| == |ids| && forall i :: 0 <= i < |ids| ==> ids[i] in db.commands
    ensures |out| == |ids|
    ensures forall i :: 0 <= i < |ids| ==>
              var c := db.commands[ids[i]];
              out[i] == Acquired(ids[i], c.order.task, tokens[i], Lease(c, now), c.order.expiresAt)
  {
    seq(|ids|, i requires 0 <= i < |ids| =>
      var c := db.commands[ids[i]]; Acquired(ids[i], c.order.task, tokens[i], Lease(c, now), c.order.expiresAt))
  }

  /** The answers of both queries and the tokens drawn, one per candidate. */
  datatype Picks = Picks(overdue: seq<string>, locked: set<string>, ready: seq<string>, tokens: seq<string>)

  predicate GoodPicks(db: Db, p: Principal, now: Time, limit: int, picks: Picks) {
    && OverdueAnswer(db, p, now, picks.overdue)
    && ReadyAnswer(db, p, now, EffectiveLimit(limit), picks.locked, picks.ready)
    && |picks.tokens| == |picks.ready|
  }

  ghost function Acquire(d: Digests, db: Db, p: Principal, now: Time, limit: int, picks: Picks): (Db, seq<Acquired>)
    requires GoodPicks(db, p, now, limit, picks)
  {
    if EffectiveLimit(limit) == 0 then (db, [])
    else
      assert forall i :: 0 <= i < |picks.overdue| ==> picks.overdue[i] in picks.overdue;
      (Dispatch(d, Expire(db, picks.overdue, now), picks.ready, picks.tokens, now),
       Handout(db, picks.ready, picks.tokens, now))
  }

  // ---------------------------------------------------------------- running, result, cancel

  /** `_load_bound_command` and `_verify_execution_token`. */
  function Guarded(d: Digests, db: Db, p: Principal, id: string, token: string): Option<Error> {
    if id !in db.commands then Some(CommandNotFound)
    else if db.commands[id].order.target != p then Some(PrincipalMismatch)
    else if db.commands[id].tokenHash != Some(d.token(token)) then Some(TokenInvalid)
    else None
  }

  predicate LeaseHolds(c: Command, now: Time) {
    c.leaseExpiresAt.Some? && now <= c.leaseExpiresAt.value
  }

  function MarkRunning(d: Digests, db: Db, p: Principal, id: string, token: string, now: Time)
    : (Db, Result<Command, Error>)
  {
    var refused := Guarded(d, db, p, id, token);
    if refused.Some? then (db, Err(refused.value))
    else
      var c := db.commands[id];
      if !LeaseHolds(c, now) then (db, Err(LeaseExpired))
      else if c.state.Dispatched? then
        var after := Record(db, id, c.(state := Running), CommandRunning, now);
        (after, Ok(after.commands[id]))
      else if !c.state.Running? then (db, Err(StateConflict))
      else (db, Ok(c))
  }

  function ResultsOf(results: map<string, seq<ResultRow>>, id: string): seq<ResultRow> {
    if id in results then results[id] else []
  }

  /** The row the unique key on command and sequence finds. */
  function FindResult(rows: seq<ResultRow>, sequence: nat): (r: Option<ResultRow>)
    ensures r.Some? ==> r.value in rows && r.value.key.sequence == sequence
    ensures r.None? ==> forall x :: x in rows ==> x.key.sequence != sequence
  {
    if rows == [] then None
    else if rows[0].key.sequence == sequence then Some(rows[0])
    else FindResult(rows[1..], sequence)
  }

  /** The result row, the final state and its event. */
  function Finish(db: Db, id: string, row: ResultRow): Db
    requires id in db.commands
  {
    Record(db.(results := db.results[id := ResultsOf(db.results, id) + [row]]),
           id, db.commands[id].(state := StateOf(row.key.status)), ResultEvent(row.key.status), row.receivedAt)
  }

  function Submit(d: Digests, db: Db, p: Principal, id: string, payload: Payload, now: Time)
    : (Db, Result<ResultRow, Error>)
  {
    var refused := Guarded(d, db, p, id, payload.token);
    if refused.Some? then (db, Err(refused.value))
    else
      var c, digest := db.commands[id], d.payload(payload.key);
      var existing := FindResult(ResultsOf(db.results, id), payload.key.sequence);
      if existing.Some? then (db, if existing.value.digest != digest then Err(ResultConflict) else Ok(existing.value))
      else if Terminal(c.state) then (db, Err(StateConflict))
      else if !LeaseHolds(c, now) then (db, Err(LeaseExpired))
      else if payload.key.startedAt > now + CLOCK_TOLERANCE_SECONDS
        || payload.key.finishedAt > now + CLOCK_TOLERANCE_SECONDS
      then (db, Err(TimestampInvalid))
      else
        var row := ResultRow(id, payload.key, digest, now);
        (Finish(db, id, row), Ok(row))
  }

  function Cancel(db: Db, id: string, now: Time): (Db, Result<Command, Error>) {
    if id !in db.commands then (db, Err(CommandNotFound))
    else if Terminal(db.commands[id].state) then (db, Err(StateConflict))
    else
      var after := Record(db, id, db.commands[id].(state := Cancelled), CommandCancelled, now);
      (after, Ok(after.commands[id]))
  }

  lemma OverdueNotReady(db: Db, p: Principal, now: Time, limit: int, picks: Picks)
    requires GoodPicks(db, p, now, limit, picks)
    ensures forall i :: 0 <= i < |picks.overdue| ==> picks.overdue[i] in db.commands && picks.overdue[i] !in picks.ready
    ensures forall i :: 0 <= i < |picks.ready| ==> picks.ready[i] in db.commands
  {
    forall i | 0 <= i < |picks.overdue| ensures picks.overdue[i] in db.commands && picks.overdue[i] !in picks.ready {
      assert picks.overdue[i] in picks.overdue;
      assert Overdue(db, p, now, picks.overdue[i]);
    }
  }

  lemma {:induction false} ExpireFrame(db: Db, ids: seq<string>, others: seq<string>, now: Time)
    requires forall i :: 0 <= i < |ids| ==> ids[i] in db.commands && ids[i] !in others
    ensures forall id :: id in db.commands && id in others ==> Expire(db, ids, now).commands[id] == db.commands[id]
  {
    if ids != [] {
      ExpireFrame(db, ids[..|ids| - 1], others, now);
    }
  }

  lemma HandoutFrame(db: Db, swept: Db, ids: seq<string>, tokens: seq<string>, now: Time)
    requires |tokens| == |ids| && forall i :: 0 <= i < |ids| ==> ids[i] in db.commands && ids[i] in swept.commands
    requires forall i :: 0 <= i < |ids| ==> swept.commands[ids[i]] == db.commands[ids[i]]
    ensures Handout(swept, ids, tokens, now) == Handout(db, ids, tokens, now)
  {
  }

  // ---------------------------------------------------------------- the service as written

  class CommandStore {
    const digests: Digests
    var commands: map<string, Command>
    var byKey: map<(string, string), string>
    var results: map<string, seq<ResultRow>>
    var events: seq<Event>

    constructor (digests: Digests)
      ensures this.digests == digests && Contents() == EMPTY
    {
      this.digests := digests;
      commands, byKey, results, events := map[], map[], map[], [];
    }

    function Contents(): Db
      reads this
    {
      Db(commands, byKey, results, events)
    }

    method Emit(kind: EventKind, id: string, at: Time)
      requires id in commands
      modifies this`events
      ensures events == old(events) + [Event(kind, id, commands[id].order.target, at)]
    {
      events := events + [Event(kind, id, commands[id].order.target, at)];
    }

    method CreateCommand(tenantId: string, actor: string, request: Request, now: Time, id: string)
      returns (result: Result<Command, Error>)
      modifies this
      ensures (Contents(), result) == Create(digests, old(Contents()), tenantId, actor, request, now, id)
    {
      var digest := DigestOf(digests, request);
      var key := (tenantId, request.idempotencyKey);
      if key in byKey && byKey[key] in commands {
        var existing := commands[byKey[key]];
        return if existing.order.requestDigest != digest then Err(IdempotencyConflict) else Ok(existing);
      }
      if id in commands {
        return Err(IdCollision);
      }
      var command := NewCommand(digests, tenantId, actor, request, now, id);
      commands, byKey := commands[id := command], byKey[key := id];
      Emit(CommandCreated, id, now);
      Emit(CommandWakeup, id, now);
      assert commands[id := command] == commands;
      return Ok(command);
    }

    method ExpireOverdue(ids: seq<string>, now: Time)
      requires forall i :: 0 <= i < |ids| ==> ids[i] in commands
      modifies this
      ensures Contents() == Expire(old(Contents()), ids, now)
    {
      for i := 0 to |ids|
        invariant Contents() == Expire(old(Contents()), ids[..i], now)
      {
        assert ids[..i + 1][..i] == ids[..i];
        commands := commands[ids[i] := commands[ids[i]].(state := Expired)];
        Emit(CommandExpired, ids[i], now);
      }
      assert ids[..|ids|] == ids;
    }

    /** One round of the dispatch loop. */
    method DispatchOne(id: string, token: string, now: Time) returns (item: Acquired)
      requires id in commands
      modifies this
      ensures Contents() == Record(old(Contents()), id, DispatchedRow(digests, old(commands)[id], token, now),
                                   CommandDispatched, now)
      ensures var c := old(commands)[id]; item == Acquired(id, c.order.task, token, Lease(c, now), c.order.expiresAt)
    {
      var command := commands[id];
      var leaseExpiresAt := Min(command.order.expiresAt, now + LEASE_SECONDS);
      item := Acquired(id, command.order.task, token, leaseExpiresAt, command.order.expiresAt);
      command := command.(state := Dispatched, tokenHash := Some(digests.token(token)),
                          leaseExpiresAt := Some(leaseExpiresAt), dispatchAttempts := command.dispatchAttempts + 1);
      commands := commands[id := command];
      Emit(CommandDispatched, id, now);
    }

    method DispatchReady(ids: seq<string>, tokens: seq<string>, now: Time) returns (acquired: seq<Acquired>)
      requires Distinct(ids) && |tokens| == |ids|
      requires forall i :: 0 <= i < |ids| ==> ids[i] in commands
      modifies this
      ensures Contents() == Dispatch(digests, old(Contents()), ids, tokens, now)
      ensures acquired == Handout(old(Contents()), ids, tokens, now)
    {
      acquired := [];
      for i := 0 to |ids|
        invariant Contents() == Dispatch(digests, old(Contents()), ids[..i], tokens[..i], now)
        invariant forall j :: i <= j < |ids| ==> commands[ids[j]] == old(commands)[ids[j]]
        invariant acquired == Handout(old(Contents()), ids[..i], tokens[..i], now)
      {
        assert ids[..i + 1][..i] == ids[..i] && tokens[..i + 1][..i] == tokens[..i];
        var item := DispatchOne(ids[i], tokens[i], now);
        acquired := acquired + [item];
      }
      assert ids[..|ids|] == ids && tokens[..|ids|] == tokens;
    }

    method AcquireCommands(p: Principal, now: Time, limit: int, picks: Picks) returns (acquired: seq<Acquired>)
      requires GoodPicks(Contents(), p, now, limit, picks)
      modifies this
      ensures (Contents(), acquired) == Acquire(digests, old(Contents()), p, now, limit, picks)
    {
      var effectiveLimit := Max(0, Min(limit, MAX_ACQUIRE_LIMIT));
      if effectiveLimit == 0 {
        return [];
      }
      OverdueNotReady(Contents(), p, now, limit, picks);
      ExpireFrame(Contents(), picks.overdue, picks.ready, now);
      HandoutFrame(Contents(), Expire(Contents(), picks.overdue, now), picks.ready, picks.tokens, now);
      ExpireOverdue(picks.overdue, now);
      acquired := DispatchReady(picks.ready, picks.tokens, now);
    }

    method MarkCommandRunning(p: Principal, id: string, token: string, now: Time)
      returns (result: Result<Command, Error>)
      modifies this
      ensures (Contents(), result) == MarkRunning(digests, old(Contents()), p, id, token, now)
    {
      var refused := Guarded(digests, Contents(), p, id, token);
      if refused.Some? {
        return Err(refused.value);
      }
      if !LeaseHolds(commands[id], now) {
        return Err(LeaseExpired);
      }
      if commands[id].state.Dispatched? {
        commands := commands[id := commands[id].(state := Running)];
        Emit(CommandRunning, id, now);
      } else if !commands[id].state.Running? {
        return Err(StateConflict);
      }
      return Ok(commands[id]);
    }

    method CancelCommand(id: string, now: Time) returns (result: Result<Command, Error>)
      modifies this
      ensures (Contents(), result) == Cancel(old(Contents()), id, now)
    {
      if id !in commands {
        return Err(CommandNotFound);
      }
      if commands[id].state in {Succeeded, Failed, Cancelled, Expired} {
        return Err(StateConflict);
      }
      commands := commands[id := commands[id].(state := Cancelled)];
      Emit(CommandCancelled, id, now);
      return Ok(commands[id]);
    }

    method SubmitResult(p: Principal, id: string, payload: Payload, now: Time)
      returns (result: Result<ResultRow, Error>)
      modifies this
      ensures (Contents(), result) == Submit(digests, old(Contents()), p, id, payload, now)
    {
      if id !in commands {
        return Err(CommandNotFound);
      }
      var command := commands[id];
      if command.order.target.tenantId != p.tenantId || command.order.target.assetId != p.assetId
        || command.order.target.deviceId != p.deviceId
      {
        return Err(PrincipalMismatch);
      }
      if command.tokenHash.None? || digests.token(payload.token) != command.tokenHash.value {
        return Err(TokenInvalid);
      }
      var digest := digests.payload(payload.key);
      var existing := FindResult(ResultsOf(results, id), payload.key.sequence);
      if existing.Some? {
        return if existing.value.digest != digest then Err(ResultConflict) else Ok(existing.value);
      }
      if command.state in {Succeeded, Failed, Cancelled, Expired} {
        return Err(StateConflict);
      }
      if command.leaseExpiresAt.None? || now > command.leaseExpiresAt.value {
        return Err(LeaseExpired);
      }
      if payload.key.startedAt > now + CLOCK_TOLERANCE_SECONDS
        || payload.key.finishedAt > now + CLOCK_TOLERANCE_SECONDS
      {
        return Err(TimestampInvalid);
      }
      var row := ResultRow(id, payload.key, digest, now);
      results := results[id := ResultsOf(results, id) + [row]];
      command := command.(state := StateOf(payload.key.status));
      commands := commands[id := command];
      Emit(ResultEvent(payload.key.status), id, now);
      return Ok(row);
    }
  }
}
