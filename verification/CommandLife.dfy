/** What every run of the command service keeps: lifecycles, leases, single results, stable replays. */
module CommandLife {
  import opened Common
  import opened Commands

  datatype Op =
    | DoCreate(tenantId: string, actor: string, request: Request, now: Time, id: string)
    | DoAcquire(p: Principal, now: Time, limit: int, picks: Picks)
    | DoRunning(p: Principal, id: string, token: string, now: Time)
    | DoSubmit(p: Principal, id: string, payload: Payload, now: Time)
    | DoCancel(id: string, now: Time)

  /** One transaction. Query answers that the SQL could not give leave the tables alone. */
  ghost function Apply(d: Digests, db: Db, op: Op): Db {
    match op
    case DoCreate(tenantId, actor, request, now, id) => Create(d, db, tenantId, actor, request, now, id).0
    case DoAcquire(p, now, limit, picks) =>
      if GoodPicks(db, p, now, limit, picks) then Acquire(d, db, p, now, limit, picks).0 else db
    case DoRunning(p, id, token, now) => MarkRunning(d, db, p, id, token, now).0
    case DoSubmit(p, id, payload, now) => Submit(d, db, p, id, payload, now).0
    case DoCancel(id, now) => Cancel(db, id, now).0
  }

  ghost function Run(d: Digests, db: Db, ops: seq<Op>): Db
    decreases |ops|
  {
    if ops == [] then db else Run(d, Apply(d, db, ops[0]), ops[1..])
  }

  // ---------------------------------------------------------------- the lifecycle, told by events

  datatype Life = Unborn | In(state: State) | Broken

  /** The only legal moves. */
  function Advance(life: Life, kind: EventKind): Life {
    match kind
    case CommandCreated => if life.Unborn? then In(Queued) else Broken
    case CommandWakeup => if life == In(Queued) then life else Broken
    case CommandExpired => if life == In(Queued) then In(Expired) else Broken
    case CommandDispatched => if life == In(Queued) then In(Dispatched) else Broken
    case CommandRunning => if life == In(Dispatched) then In(Running) else Broken
    case CommandSucceeded => if life in {In(Dispatched), In(Running)} then In(Succeeded) else Broken
    case CommandFailed => if life in {In(Dispatched), In(Running)} then In(Failed) else Broken
    case CommandCancelled => if life in {In(Queued), In(Dispatched), In(Running)} then In(Cancelled) else Broken
  }

  /** Folds the events of one command, oldest first. */
  function Replay(events: seq<Event>, id: string): Life {
    if events == [] then Unborn
    else
      var n := |events| - 1;
      var life := Replay(events[..n], id);
      if events[n].commandId == id then Advance(life, events[n].kind) else life
  }

  // ---------------------------------------------------------------- the invariant

  predicate NeverSent(c: Command) {
    c.dispatchAttempts == 0 && c.tokenHash.None? && c.leaseExpiresAt.None?
  }

  predicate SentOnce(c: Command) {
    && c.dispatchAttempts == 1 && c.tokenHash.Some?
    && c.leaseExpiresAt.Some? && c.leaseExpiresAt.value <= c.order.expiresAt
  }

  predicate RowOk(c: Command) {
    match c.state
    case Queued => NeverSent(c)
    case Expired => NeverSent(c)
    case Cancelled => NeverSent(c) || SentOnce(c)
    case _ => SentOnce(c)
  }

  /** An unfinished command has no result; a finished one has one, and that one says how it finished. */
  predicate ResultsOk(d: Digests, c: Command, rows: seq<ResultRow>) {
    if c.state in {Succeeded, Failed} then
      && |rows| == 1 && rows[0].commandId == c.order.commandId
      && StateOf(rows[0].key.status) == c.state && rows[0].digest == d.payload(rows[0].key)
    else rows == []
  }

  predicate InIndex(byKey: map<(string, string), string>, c: Command) {
    var key := (c.order.target.tenantId, c.order.idempotencyKey);
    key in byKey && byKey[key] == c.order.commandId
  }

  predicate RowInv(d: Digests, db: Db, id: string)
    requires id in db.commands
  {
    var c := db.commands[id];
    c.order.commandId == id && RowOk(c) && ResultsOk(d, c, ResultsOf(db.results, id)) && InIndex(db.byKey, c)
  }

  /** The index entry of `key` leads to a command with that key. */
  predicate PointsBack(db: Db, key: (string, string))
    requires key in db.byKey
  {
    var id := db.byKey[key];
    id in db.commands && (db.commands[id].order.target.tenantId, db.commands[id].order.idempotencyKey) == key
  }

  ghost predicate RowsInv(d: Digests, db: Db) {
    && (forall id {:trigger RowInv(d, db, id)} :: id in db.commands ==> RowInv(d, db, id))
    && (forall key {:trigger PointsBack(db, key)} :: key in db.byKey ==> PointsBack(db, key))
    && db.results.Keys <= db.commands.Keys
  }

  function LifeOf(db: Db, id: string): Life {
    if id in db.commands then In(db.commands[id].state) else Unborn
  }

  ghost predicate EventsInv(db: Db) {
    forall id :: Replay(db.events, id) == LifeOf(db, id)
  }

  /** An event names its command's device, and its time is the one that the command or its result carries. */
  predicate EventTrue(db: Db, e: Event) {
    && e.commandId in db.commands
    && var c, rows := db.commands[e.commandId], ResultsOf(db.results, e.commandId);
       && e.target == c.order.target
       && (e.kind in {CommandCreated, CommandWakeup} ==> e.at == c.order.createdAt)
       && (e.kind.CommandDispatched? ==>
             c.tokenHash.Some? && c.leaseExpiresAt == Some(Min(c.order.expiresAt, e.at + LEASE_SECONDS)))
       && (e.kind in {CommandSucceeded, CommandFailed} ==>
             c.state in {Succeeded, Failed} && |rows| == 1 && rows[0].receivedAt == e.at)
  }

  ghost predicate LogTrue(db: Db) {
    forall k {:trigger EventTrue(db, db.events[k])} :: 0 <= k < |db.events| ==> EventTrue(db, db.events[k])
  }

  ghost predicate Inv(d: Digests, db: Db) {
    RowsInv(d, db) && EventsInv(db) && LogTrue(db)
  }

  /** What a later database may have changed: rows gain a token once, and end once. */
  predicate RowExtends(c: Command, after: Command) {
    && after.order == c.order
    && (c.tokenHash.Some? ==> after.tokenHash == c.tokenHash && after.leaseExpiresAt == c.leaseExpiresAt
                              && after.dispatchAttempts == c.dispatchAttempts)
    && (Terminal(c.state) ==> after == c)
  }

  predicate Kept(db: Db, after: Db, id: string)
    requires id in db.commands
  {
    && id in after.commands && RowExtends(db.commands[id], after.commands[id])
    && (Terminal(db.commands[id].state) ==> ResultsOf(after.results, id) == ResultsOf(db.results, id))
  }

  ghost predicate Extends(db: Db, after: Db) {
    forall id {:trigger Kept(db, after, id)} :: id in db.commands ==> Kept(db, after, id)
  }

  /** Appending one legal event of one command keeps the log in step with the states. */
  lemma LogKeeps(db: Db, after: Db, e: Event)
    requires EventsInv(db) && after.events == db.events + [e]
    requires forall i :: i != e.commandId ==> LifeOf(after, i) == LifeOf(db, i)
    requires Advance(LifeOf(db, e.commandId), e.kind) == LifeOf(after, e.commandId)
    ensures EventsInv(after)
  {
  }

  lemma LogStaysTrue(db: Db, after: Db, e: Event)
    requires LogTrue(db) && Extends(db, after) && after.events == db.events + [e] && EventTrue(after, e)
    ensures LogTrue(after)
  {
    forall k | 0 <= k < |after.events| ensures EventTrue(after, after.events[k]) {
      if k < |db.events| {
        assert EventTrue(db, db.events[k]) && Kept(db, after, db.events[k].commandId);
      }
    }
  }

  /** A step that rewrites one row, and perhaps its results, keeps the tables in order. */
  lemma OneRowChanged(d: Digests, db: Db, after: Db, id: string)
    requires RowsInv(d, db) && id in db.commands && id in after.commands
    requires after.commands == db.commands[id := after.commands[id]] && after.byKey == db.byKey
    requires forall i :: i != id ==> ResultsOf(after.results, i) == ResultsOf(db.results, i)
    requires after.results.Keys <= db.results.Keys + {id}
    requires RowExtends(db.commands[id], after.commands[id]) && !Terminal(db.commands[id].state)
    requires RowOk(after.commands[id]) && ResultsOk(d, after.commands[id], ResultsOf(after.results, id))
    ensures RowsInv(d, after) && Extends(db, after)
  {
    assert RowInv(d, db, id);
    forall i | i in after.commands ensures RowInv(d, after, i) {
      assert RowInv(d, db, i);
    }
    forall key | key in after.byKey ensures PointsBack(after, key) {
      assert PointsBack(db, key);
    }
    forall i | i in db.commands ensures Kept(db, after, i) {
    }
  }

  /** One legal move of one unfinished command, other than finishing it. */
  lemma RecordKeeps(d: Digests, db: Db, id: string, c: Command, kind: EventKind, at: Time)
    requires Inv(d, db) && id in db.commands
    requires RowExtends(db.commands[id], c) && RowOk(c) && c.state !in {Succeeded, Failed}
    requires !Terminal(db.commands[id].state) && Advance(In(db.commands[id].state), kind) == In(c.state)
    requires kind !in {CommandCreated, CommandWakeup}
    requires kind.CommandDispatched? ==>
               c.tokenHash.Some? && c.leaseExpiresAt == Some(Min(c.order.expiresAt, at + LEASE_SECONDS))
    ensures Inv(d, Record(db, id, c, kind, at)) && Extends(db, Record(db, id, c, kind, at))
  {
    var after := Record(db, id, c, kind, at);
    assert RowInv(d, db, id);
    LogKeeps(db, after, Event(kind, id, c.order.target, at));
    OneRowChanged(d, db, after, id);
    LogStaysTrue(db, after, Event(kind, id, c.order.target, at));
  }

  lemma FinishKeeps(d: Digests, db: Db, id: string, row: ResultRow)
    requires Inv(d, db) && id in db.commands && db.commands[id].state in {Dispatched, Running}
    requires row.commandId == id && row.digest == d.payload(row.key)
    ensures Inv(d, Finish(db, id, row)) && Extends(db, Finish(db, id, row))
    ensures ResultsOf(Finish(db, id, row).results, id) == [row]
  {
    var after := Finish(db, id, row);
    assert RowInv(d, db, id);
    var e := Event(ResultEvent(row.key.status), id, db.commands[id].order.target, row.receivedAt);
    LogKeeps(db, after, e);
    OneRowChanged(d, db, after, id);
    LogStaysTrue(db, after, e);
  }

  lemma InsertKeeps(d: Digests, db: Db, id: string, c: Command, now: Time)
    requires Inv(d, db) && id !in db.commands
    requires c.order.commandId == id && c.state.Queued? && NeverSent(c) && c.order.createdAt == now
    requires forall other :: other in db.commands ==>
               (db.commands[other].order.target.tenantId, db.commands[other].order.idempotencyKey)
               != (c.order.target.tenantId, c.order.idempotencyKey)
    ensures Inv(d, Insert(db, id, c, now)) && Extends(db, Insert(db, id, c, now))
  {
    var after := Insert(db, id, c, now);
    var once := after.(events := db.events + [Event(CommandCreated, id, c.order.target, now)]);
    LogKeeps(db, once, Event(CommandCreated, id, c.order.target, now));
    LogKeeps(once, after, Event(CommandWakeup, id, c.order.target, now));
    forall i | i in after.commands ensures RowInv(d, after, i) {
      if i != id {
        assert RowInv(d, db, i);
      }
    }
    forall key | key in after.byKey ensures PointsBack(after, key) {
      if key in db.byKey {
        assert PointsBack(db, key);
      }
    }
    forall i | i in db.commands ensures Kept(db, after, i) {
    }
    assert Extends(db, once);
    LogStaysTrue(db, once, Event(CommandCreated, id, c.order.target, now));
    assert Extends(once, after);
    LogStaysTrue(once, after, Event(CommandWakeup, id, c.order.target, now));
  }

  lemma ExtendsTransitive(a: Db, b: Db, c: Db)
    requires Extends(a, b) && Extends(b, c)
    ensures Extends(a, c)
  {
    forall id | id in a.commands ensures Kept(a, c, id) {
      assert Kept(a, b, id) && Kept(b, c, id);
    }
  }

  lemma {:induction false} ExpireKeeps(d: Digests, db: Db, ids: seq<string>, now: Time)
    requires Inv(d, db) && Distinct(ids)
    requires forall i :: 0 <= i < |ids| ==> ids[i] in db.commands && db.commands[ids[i]].state.Queued?
    ensures Inv(d, Expire(db, ids, now)) && Extends(db, Expire(db, ids, now))
    ensures forall id :: id in db.commands && id !in ids ==> Expire(db, ids, now).commands[id] == db.commands[id]
  {
    if ids != [] {
      var n := |ids| - 1;
      ExpireKeeps(d, db, ids[..n], now);
      var rest := Expire(db, ids[..n], now);
      assert ids[n] !in ids[..n];
      assert RowInv(d, db, ids[n]);
      RecordKeeps(d, rest, ids[n], rest.commands[ids[n]].(state := Expired), CommandExpired, now);
      ExtendsTransitive(db, rest, Expire(db, ids, now));
    }
  }

  /** Dispatching writes the rows it names, once each, and no others. */
  lemma {:induction false} DispatchRows(d: Digests, db: Db, ids: seq<string>, tokens: seq<string>, now: Time)
    requires Distinct(ids) && |tokens| == |ids| && forall i :: 0 <= i < |ids| ==> ids[i] in db.commands
    ensures var after := Dispatch(d, db, ids, tokens, now);
            && (forall id :: id in db.commands && id !in ids ==> after.commands[id] == db.commands[id])
            && (forall i :: 0 <= i < |ids| ==>
                after.commands[ids[i]] == DispatchedRow(d, db.commands[ids[i]], tokens[i], now))
  {
    if ids != [] {
      var n := |ids| - 1;
      DispatchRows(d, db, ids[..n], tokens[..n], now);
      assert ids[n] !in ids[..n];
    }
  }

  lemma {:induction false} DispatchKeeps(d: Digests, db: Db, ids: seq<string>, tokens: seq<string>, now: Time)
    requires Inv(d, db) && Distinct(ids) && |tokens| == |ids|
    requires forall i :: 0 <= i < |ids| ==> ids[i] in db.commands && db.commands[ids[i]].state.Queued?
    ensures var after := Dispatch(d, db, ids, tokens, now); Inv(d, after) && Extends(db, after)
  {
    if ids != [] {
      var n := |ids| - 1;
      DispatchKeeps(d, db, ids[..n], tokens[..n], now);
      var rest := Dispatch(d, db, ids[..n], tokens[..n], now);
      assert ids[n] !in ids[..n];
      DispatchRows(d, db, ids[..n], tokens[..n], now);
      assert RowInv(d, db, ids[n]);
      RecordKeeps(d, rest, ids[n], DispatchedRow(d, rest.commands[ids[n]], tokens[n], now), CommandDispatched, now);
      ExtendsTransitive(db, rest, Dispatch(d, db, ids, tokens, now));
    }
  }

  /** A poll: what was queued for the device is expired or dispatched, and nothing else moves. */
  lemma AcquireKeeps(d: Digests, db: Db, p: Principal, now: Time, limit: int, picks: Picks)
    requires Inv(d, db) && GoodPicks(db, p, now, limit, picks)
    ensures var (after, out) := Acquire(d, db, p, now, limit, picks);
            && Inv(d, after) && Extends(db, after)
            && (forall i :: 0 <= i < |out| ==>
                  && out[i].commandId in db.commands && db.commands[out[i].commandId].state.Queued?
                  && after.commands[out[i].commandId]
                     == DispatchedRow(d, db.commands[out[i].commandId], out[i].token, now))
            && (forall i, j :: 0 <= i < j < |out| ==> out[i].commandId != out[j].commandId)
            && (forall id :: id in db.commands && !Waiting(db.commands[id], p) ==>
                after.commands[id] == db.commands[id])
  {
    AcquireKeepsInv(d, db, p, now, limit, picks);
    if EffectiveLimit(limit) != 0 {
      SweepKeeps(d, db, p, now, limit, picks);
      DispatchRows(d, Expire(db, picks.overdue, now), picks.ready, picks.tokens, now);
      forall id | id in db.commands && !Waiting(db.commands[id], p)
        ensures id !in picks.overdue && id !in picks.ready
      {
        NotWaitingNotPicked(db, p, now, limit, picks, id);
      }
    }
  }

  lemma AcquireKeepsInv(d: Digests, db: Db, p: Principal, now: Time, limit: int, picks: Picks)
    requires Inv(d, db) && GoodPicks(db, p, now, limit, picks)
    ensures var after := Acquire(d, db, p, now, limit, picks).0; Inv(d, after) && Extends(db, after)
  {
    if EffectiveLimit(limit) != 0 {
      SweepKeeps(d, db, p, now, limit, picks);
      var swept := Expire(db, picks.overdue, now);
      DispatchKeeps(d, swept, picks.ready, picks.tokens, now);
      ExtendsTransitive(db, swept, Dispatch(d, swept, picks.ready, picks.tokens, now));
    }
  }

  /** The sweep before a dispatch leaves the commands about to be dispatched alone. */
  lemma SweepKeeps(d: Digests, db: Db, p: Principal, now: Time, limit: int, picks: Picks)
    requires Inv(d, db) && GoodPicks(db, p, now, limit, picks) && EffectiveLimit(limit) != 0
    ensures forall i :: 0 <= i < |picks.overdue| ==> picks.overdue[i] in db.commands
    ensures var swept := Expire(db, picks.overdue, now);
            && Inv(d, swept) && Extends(db, swept)
            && (forall id :: id in db.commands && id !in picks.overdue ==> swept.commands[id] == db.commands[id])
            && (forall i :: 0 <= i < |picks.ready| ==>
                  picks.ready[i] in db.commands && db.commands[picks.ready[i]].state.Queued?
                  && swept.commands[picks.ready[i]] == db.commands[picks.ready[i]])
  {
    OverdueNotReady(db, p, now, limit, picks);
    assert forall i :: 0 <= i < |picks.overdue| ==>
        picks.overdue[i] in picks.overdue && Overdue(db, p, now, picks.overdue[i]);
    ExpireKeeps(d, db, picks.overdue, now);
    var swept := Expire(db, picks.overdue, now);
    forall i | 0 <= i < |picks.ready|
      ensures picks.ready[i] in db.commands && db.commands[picks.ready[i]].state.Queued?
              && swept.commands[picks.ready[i]] == db.commands[picks.ready[i]]
    {
      assert picks.ready[i] in picks.ready;
      assert Ready(db, p, now, picks.locked, picks.ready[i]);
      assert picks.ready[i] !in picks.overdue;
    }
  }

  lemma NotWaitingNotPicked(db: Db, p: Principal, now: Time, limit: int, picks: Picks, id: string)
    requires GoodPicks(db, p, now, limit, picks) && id in db.commands && !Waiting(db.commands[id], p)
    ensures id !in picks.overdue && id !in picks.ready
  {
  }

  lemma CreateKeeps(d: Digests, db: Db, tenantId: string, actor: string, r: Request, now: Time, id: string)
    requires Inv(d, db)
    ensures var after := Create(d, db, tenantId, actor, r, now, id).0; Inv(d, after) && Extends(db, after)
  {
    var key := (tenantId, r.idempotencyKey);
    if !(key in db.byKey && db.byKey[key] in db.commands) && id !in db.commands {
      forall other | other in db.commands
        ensures (db.commands[other].order.target.tenantId, db.commands[other].order.idempotencyKey) != key
      {
        assert RowInv(d, db, other);
      }
      InsertKeeps(d, db, id, NewCommand(d, tenantId, actor, r, now, id), now);
    }
  }

  lemma SubmitKeeps(d: Digests, db: Db, p: Principal, id: string, payload: Payload, now: Time)
    requires Inv(d, db)
    ensures var (after, result) := Submit(d, db, p, id, payload, now);
            && Inv(d, after) && Extends(db, after)
            && (result.Ok? ==> id in after.commands && ResultsOf(after.results, id) == [result.value])
  {
    var (after, result) := Submit(d, db, p, id, payload, now);
    if id in db.commands {
      assert RowInv(d, db, id);
      if result.Ok? && FindResult(ResultsOf(db.results, id), payload.key.sequence).None? {
        FinishKeeps(d, db, id, result.value);
      }
    }
  }

  lemma ApplyKeeps(d: Digests, db: Db, op: Op)
    requires Inv(d, db)
    ensures Inv(d, Apply(d, db, op)) && Extends(db, Apply(d, db, op))
  {
    match op
    case DoCreate(tenantId, actor, request, now, id) => CreateKeeps(d, db, tenantId, actor, request, now, id);
    case DoAcquire(p, now, limit, picks) =>
      if GoodPicks(db, p, now, limit, picks) { AcquireKeeps(d, db, p, now, limit, picks); }
    case DoRunning(p, id, token, now) =>
      if MarkRunning(d, db, p, id, token, now).0 != db {
        assert RowInv(d, db, id);
        RecordKeeps(d, db, id, db.commands[id].(state := Running), CommandRunning, now);
      }
    case DoSubmit(p, id, payload, now) => SubmitKeeps(d, db, p, id, payload, now);
    case DoCancel(id, now) =>
      if Cancel(db, id, now).0 != db {
        assert RowInv(d, db, id);
        RecordKeeps(d, db, id, db.commands[id].(state := Cancelled), CommandCancelled, now);
      }
  }

  lemma {:induction false} RunKeeps(d: Digests, db: Db, ops: seq<Op>)
    requires Inv(d, db)
    ensures Inv(d, Run(d, db, ops)) && Extends(db, Run(d, db, ops))
    decreases |ops|
  {
    if ops != [] {
      ApplyKeeps(d, db, ops[0]);
      RunKeeps(d, Apply(d, db, ops[0]), ops[1..]);
      ExtendsTransitive(db, Apply(d, db, ops[0]), Run(d, db, ops));
    }
  }

  // ---------------------------------------------------------------- the guarantees

  ghost predicate Later(d: Digests, db: Db, after: Db) {
    exists ops :: after == Run(d, db, ops)
  }

  ghost predicate Reachable(d: Digests, db: Db) {
    Later(d, EMPTY, db)
  }

  lemma LaterKeeps(d: Digests, db: Db, after: Db)
    requires Inv(d, db) && Later(d, db, after)
    ensures Inv(d, after) && Extends(db, after)
  {
    var ops :| after == Run(d, db, ops);
    RunKeeps(d, db, ops);
  }

  lemma ReachableInv(d: Digests, db: Db)
    requires Reachable(d, db)
    ensures Inv(d, db)
  {
    LaterKeeps(d, EMPTY, db);
  }

  /**
   In every reachable state, replaying the event log gives each command's stored state, and no illegal move;
   and each event names its command's device and the time of what it tells: of the creation, of the dispatch
   the lease was counted from, of the result.
   */
  lemma EventsTellTheState(d: Digests, db: Db, id: string)
    requires Reachable(d, db)
    ensures Replay(db.events, id) == if id in db.commands then In(db.commands[id].state) else Unborn
    ensures forall k :: 0 <= k < |db.events| ==> EventTrue(db, db.events[k])
  {
    ReachableInv(d, db);
  }

  /** Dispatched at most once, under a lease within its life; finished exactly when its one result says so. */
  lemma OneDispatchOneResult(d: Digests, db: Db, id: string)
    requires Reachable(d, db) && id in db.commands
    ensures var c, rows := db.commands[id], ResultsOf(db.results, id);
            && c.dispatchAttempts <= 1
            && (c.leaseExpiresAt.Some? ==> c.leaseExpiresAt.value <= c.order.expiresAt)
            && |rows| <= 1
            && (c.state in {Succeeded, Failed} <==> |rows| == 1)
            && (|rows| == 1 ==> c.state == StateOf(rows[0].key.status))
  {
    ReachableInv(d, db);
    assert RowInv(d, db, id);
  }

  /** The caller's command, opened with the token it was dispatched with. */
  predicate Opened(d: Digests, db: Db, p: Principal, id: string, token: string) {
    id in db.commands && db.commands[id].order.target == p && db.commands[id].tokenHash == Some(d.token(token))
  }

  /** The lease of the command is not over. */
  predicate Leased(db: Db, id: string, now: Time)
    requires id in db.commands
  {
    db.commands[id].leaseExpiresAt.Some? && now <= db.commands[id].leaseExpiresAt.value
  }

  /** The error of a request that is not for a command of the caller's, or not with its token. */
  predicate NotOpened(d: Digests, db: Db, p: Principal, id: string, token: string, e: Error) {
    match e
    case CommandNotFound => id !in db.commands
    case PrincipalMismatch => id in db.commands && db.commands[id].order.target != p
    case TokenInvalid => id in db.commands && db.commands[id].order.target == p && !Opened(d, db, p, id, token)
    case _ => false
  }

  /**
   In every reachable state a running request succeeds exactly for the caller's command, opened with its
   token, dispatched or running, no later than its lease, which is within its life. Only a dispatched
   command changes, to running; and each refusal has its own condition.
   */
  lemma RunningExactlyWhen(d: Digests, db: Db, p: Principal, id: string, token: string, now: Time)
    requires Reachable(d, db)
    ensures var (after, r) := MarkRunning(d, db, p, id, token, now);
            && (r.Ok? <==>
                  && Opened(d, db, p, id, token) && Leased(db, id, now)
                  && db.commands[id].state in {Dispatched, Running})
            && (r.Ok? ==>
                  && db.commands[id].leaseExpiresAt.Some?
                  && now <= db.commands[id].leaseExpiresAt.value <= db.commands[id].order.expiresAt
                  && r.value == db.commands[id].(state := Running)
                  && after.commands == db.commands[id := r.value]
                  && after.events == db.events + if db.commands[id].state.Running? then []
                                                 else [Event(CommandRunning, id, p, now)])
            && after == db.(commands := after.commands, events := after.events) && (r.Err? ==> after == db)
            && (r.Err? ==>
                  match r.error
                  case LeaseExpired => Opened(d, db, p, id, token) && !Leased(db, id, now)
                  case StateConflict =>
                    && Opened(d, db, p, id, token) && Leased(db, id, now)
                    && db.commands[id].state in {Succeeded, Failed, Cancelled}
                  case e => NotOpened(d, db, p, id, token, e))
  {
    ReachableInv(d, db);
    if id in db.commands {
      assert RowInv(d, db, id);
    }
  }

  predicate RecordedFor(db: Db, id: string, key: PayloadKey) {
    |ResultsOf(db.results, id)| == 1 && ResultsOf(db.results, id)[0].key.sequence == key.sequence
  }

  /** More than the tolerance of two minutes ahead of the clock. */
  predicate FromTheFuture(key: PayloadKey, now: Time) {
    key.startedAt > now + 120 || key.finishedAt > now + 120
  }

  /**
   In every reachable state a submission for the caller's command, opened with its token, is answered from
   the row of its sequence if there is one. Otherwise it is accepted exactly while the command is dispatched
   or running, within its lease, with timestamps not from the future; then it is recorded as submitted and
   finishes the command as it says. Each refusal has its own condition and changes nothing.
   */
  lemma SubmitExactlyWhen(d: Digests, db: Db, p: Principal, id: string, payload: Payload, now: Time)
    requires Reachable(d, db)
    ensures var (after, r) := Submit(d, db, p, id, payload, now);
            var key := payload.key;
            var mine := Opened(d, db, p, id, payload.token);
            && (r.Ok? <==>
                  && mine
                  && if RecordedFor(db, id, key) then ResultsOf(db.results, id)[0].digest == d.payload(key)
                     else db.commands[id].state in {Dispatched, Running} && Leased(db, id, now)
                          && !FromTheFuture(key, now))
            && (r.Ok? && RecordedFor(db, id, key) ==> r.value == ResultsOf(db.results, id)[0] && after == db)
            && (r.Ok? && !RecordedFor(db, id, key) ==>
                  var state := if key.status.StatusSucceeded? then Succeeded else Failed;
                  var kind := if key.status.StatusSucceeded? then CommandSucceeded else CommandFailed;
                  && r.value == ResultRow(id, key, d.payload(key), now)
                  && after == Db(db.commands[id := db.commands[id].(state := state)], db.byKey,
                                 db.results[id := [r.value]], db.events + [Event(kind, id, p, now)]))
            && (r.Err? ==>
                  && after == db
                  && match r.error
                     case ResultConflict => mine && RecordedFor(db, id, key)
                     case StateConflict => mine && !RecordedFor(db, id, key) && Terminal(db.commands[id].state)
                     case LeaseExpired =>
                       && mine && db.commands[id].state in {Dispatched, Running} && !Leased(db, id, now)
                     case TimestampInvalid =>
                       && mine && db.commands[id].state in {Dispatched, Running} && Leased(db, id, now)
                     case e => NotOpened(d, db, p, id, payload.token, e))
  {
    ReachableInv(d, db);
    if id in db.commands {
      assert RowInv(d, db, id);
      var row := ResultRow(id, payload.key, d.payload(payload.key), now);
      assert [] + [row] == [row];
      var done := db.(results := db.results[id := [row]]);
      assert ResultsOf(db.results, id) == [] ==>
          Finish(db, id, row) == Record(done, id, db.commands[id].(state := StateOf(row.key.status)),
                                        ResultEvent(row.key.status), now);
    }
  }

  predicate HasKey(c: Command, tenantId: string, idempotencyKey: string) {
    c.order.target.tenantId == tenantId && c.order.idempotencyKey == idempotencyKey
  }

  /**
   In every reachable state a creation finds the tenant's command with the same key, and answers it if the
   request is the same by its digest; otherwise it makes a queued command that says what the request says.
   */
  lemma CreateExactlyWhen(d: Digests, db: Db, tenantId: string, actor: string, r: Request, now: Time, id: string)
    requires Reachable(d, db)
    ensures var (after, reply) := Create(d, db, tenantId, actor, r, now, id);
            var digest := d.request(RequestKey(r.deviceId, r.assetId, r.task, r.expiresInSeconds));
            && (forall x :: x in db.commands && HasKey(db.commands[x], tenantId, r.idempotencyKey) ==>
                  && after == db
                  && reply == if db.commands[x].order.requestDigest == digest then Ok(db.commands[x])
                              else Err(IdempotencyConflict))
            && ((forall x :: x in db.commands ==> !HasKey(db.commands[x], tenantId, r.idempotencyKey)) ==>
                  if id in db.commands then after == db && reply == Err(IdCollision)
                  else
                    && reply.Ok? && after.commands == db.commands[id := reply.value] && after.results == db.results
                    && var c := reply.value;
                       && c.state.Queued? && NeverSent(c) && c.order.commandId == id && c.order.createdBy == actor
                       && c.order.target == Principal(tenantId, r.assetId, r.deviceId) && c.order.task == r.task
                       && c.order.idempotencyKey == r.idempotencyKey && c.order.requestDigest == digest
                       && c.order.createdAt == now && c.order.expiresAt == now + r.expiresInSeconds
                       && after.events == db.events + [Event(CommandCreated, id, c.order.target, now)]
                                            + [Event(CommandWakeup, id, c.order.target, now)])
  {
    ReachableInv(d, db);
    var key := (tenantId, r.idempotencyKey);
    forall x | x in db.commands && HasKey(db.commands[x], tenantId, r.idempotencyKey)
      ensures key in db.byKey && db.byKey[key] == x
    {
      assert RowInv(d, db, x);
    }
    if key in db.byKey {
      assert PointsBack(db, key);
      assert HasKey(db.commands[db.byKey[key]], tenantId, r.idempotencyKey);
    }
  }

  /** The item hands out a queued command of the device that is in time, and its row is dispatched as the item says. */
  predicate HandedOut(d: Digests, db: Db, after: Db, p: Principal, now: Time, item: Acquired) {
    && item.commandId in db.commands && item.commandId in after.commands
    && var c := db.commands[item.commandId];
       && c.order.target == p && c.state.Queued? && now < c.order.expiresAt
       && item.task == c.order.task && item.expiresAt == c.order.expiresAt
       && item.leaseExpiresAt == (if c.order.expiresAt <= now + 120 then c.order.expiresAt else now + 120)
       && after.commands[item.commandId]
          == Command(c.order, Dispatched, 1, Some(d.token(item.token)), Some(item.leaseExpiresAt))
  }

  /** A command that is not handed out is expired if it is queued for the device and out of time. */
  predicate Passed(db: Db, after: Db, p: Principal, now: Time, id: string)
    requires id in db.commands
  {
    && id in after.commands
    && var c := db.commands[id];
       after.commands[id] == if c.order.target == p && c.state.Queued? && c.order.expiresAt <= now
                             then c.(state := Expired) else c
  }

  predicate Names(out: seq<Acquired>, id: string) {
    exists i :: 0 <= i < |out| && out[i].commandId == id
  }

  /** The hand-out is oldest first, and a command that could have been handed out too is no older. */
  ghost predicate OldestFirst(db: Db, p: Principal, now: Time, locked: set<string>, out: seq<Acquired>)
    requires forall i :: 0 <= i < |out| ==> out[i].commandId in db.commands
  {
    && (forall i, j :: 0 <= i < j < |out| ==>
          && out[i].commandId != out[j].commandId
          && db.commands[out[i].commandId].order.createdAt <= db.commands[out[j].commandId].order.createdAt)
    && (forall i, id :: 0 <= i < |out| && LeftWaiting(db, p, now, locked, out, id) ==>
          db.commands[out[i].commandId].order.createdAt <= db.commands[id].order.createdAt)
  }

  /** A queued command of the device that is in time, locked by nobody else, and not handed out. */
  predicate LeftWaiting(db: Db, p: Principal, now: Time, locked: set<string>, out: seq<Acquired>, id: string) {
    && id in db.commands && db.commands[id].order.target == p && db.commands[id].state.Queued?
    && now < db.commands[id].order.expiresAt && id !in locked && !Names(out, id)
  }

  /**
   In every reachable state a poll with a positive limit expires exactly what is queued for the device and
   out of time, and dispatches what it hands out; no other command changes. It hands out the oldest that are
   in time and not locked, at most ten, and leaves one only when it has handed out as many as it may.
   */
  lemma PollExactlyWhen(d: Digests, db: Db, p: Principal, now: Time, limit: int, picks: Picks)
    requires Reachable(d, db) && GoodPicks(db, p, now, limit, picks)
    ensures var (after, out) := Acquire(d, db, p, now, limit, picks);
            && (limit <= 0 ==> after == db && out == [])
            && (limit > 0 ==>
                  && (forall i :: 0 <= i < |out| ==>
                        HandedOut(d, db, after, p, now, out[i]) && out[i].commandId !in picks.locked)
                  && (forall id :: id in db.commands && !Names(out, id) ==> Passed(db, after, p, now, id))
                  && OldestFirst(db, p, now, picks.locked, out) && |out| <= Min(limit, 10)
                  && (forall id :: LeftWaiting(db, p, now, picks.locked, out, id) ==> |out| == Min(limit, 10)))
  {
    ReachableInv(d, db);
    if limit > 0 {
      var (after, out) := Acquire(d, db, p, now, limit, picks);
      forall i | 0 <= i < |out|
        ensures HandedOut(d, db, after, p, now, out[i]) && out[i].commandId == picks.ready[i]
        ensures out[i].commandId !in picks.locked
      {
        OneHandedOut(d, db, p, now, limit, picks, i);
      }
      forall id | id in db.commands && !Names(out, id) ensures Passed(db, after, p, now, id) {
        OnePassed(d, db, p, now, limit, picks, id);
      }
      HandedOutOldestFirst(db, p, now, limit, picks, out);
    }
  }

  lemma HandedOutOldestFirst(db: Db, p: Principal, now: Time, limit: int, picks: Picks, out: seq<Acquired>)
    requires GoodPicks(db, p, now, limit, picks) && limit > 0 && |out| == |picks.ready|
    requires forall i :: 0 <= i < |out| ==> out[i].commandId == picks.ready[i] && out[i].commandId in db.commands
    ensures OldestFirst(db, p, now, picks.locked, out) && |out| <= Min(limit, 10)
    ensures forall id :: LeftWaiting(db, p, now, picks.locked, out, id) ==> |out| == Min(limit, 10)
  {
    forall id | LeftWaiting(db, p, now, picks.locked, out, id)
      ensures |out| == Min(limit, 10) && id !in picks.ready && Ready(db, p, now, picks.locked, id)
    {
      if i :| 0 <= i < |picks.ready| && picks.ready[i] == id {
        assert out[i].commandId == id;
      }
      AllHandedOut(db, p, now, limit, picks, id);
    }
  }

  lemma OneHandedOut(d: Digests, db: Db, p: Principal, now: Time, limit: int, picks: Picks, i: nat)
    requires Inv(d, db) && GoodPicks(db, p, now, limit, picks) && limit > 0 && i < |picks.ready|
    ensures var (after, out) := Acquire(d, db, p, now, limit, picks);
            && |out| == |picks.ready| && out[i].commandId == picks.ready[i]
            && HandedOut(d, db, after, p, now, out[i])
  {
    SweepKeeps(d, db, p, now, limit, picks);
    DispatchRows(d, Expire(db, picks.overdue, now), picks.ready, picks.tokens, now);
    assert Ready(db, p, now, picks.locked, picks.ready[i]);
    assert RowInv(d, db, picks.ready[i]);
  }

  lemma OnePassed(d: Digests, db: Db, p: Principal, now: Time, limit: int, picks: Picks, id: string)
    requires Inv(d, db) && GoodPicks(db, p, now, limit, picks) && limit > 0 && id in db.commands
    requires !Names(Acquire(d, db, p, now, limit, picks).1, id)
    ensures Passed(db, Acquire(d, db, p, now, limit, picks).0, p, now, id)
  {
    var out := Acquire(d, db, p, now, limit, picks).1;
    assert forall i :: 0 <= i < |picks.ready| ==> picks.ready[i] == out[i].commandId;
    SweepKeeps(d, db, p, now, limit, picks);
    ExpiredRows(db, picks.overdue, now, id);
    DispatchRows(d, Expire(db, picks.overdue, now), picks.ready, picks.tokens, now);
    assert Overdue(db, p, now, id) <==> id in picks.overdue;
  }

  /** If the candidates left one out, they are as many as the limit allows. */
  lemma AllHandedOut(db: Db, p: Principal, now: Time, limit: int, picks: Picks, id: string)
    requires GoodPicks(db, p, now, limit, picks) && Ready(db, p, now, picks.locked, id) && id !in picks.ready
    ensures |picks.ready| == EffectiveLimit(limit)
  {
    var chosen := set x | x in picks.ready;
    var all := ReadyIds(db, p, now, picks.locked);
    DistinctSize(picks.ready, chosen);
    forall x | x in chosen ensures x in all {
      var i :| 0 <= i < |picks.ready| && picks.ready[i] == x;
      assert Ready(db, p, now, picks.locked, picks.ready[i]);
    }
    assert id in all - chosen && all == chosen + (all - chosen);
  }

  lemma {:induction false} DistinctSize(ids: seq<string>, all: set<string>)
    requires Distinct(ids) && all == set x | x in ids
    ensures |all| == |ids|
  {
    if ids != [] {
      var n := |ids| - 1;
      var rest := set x | x in ids[..n];
      DistinctSize(ids[..n], rest);
      assert all == rest + {ids[n]} && ids[n] !in rest;
    }
  }

  lemma {:induction false} ExpiredRows(db: Db, ids: seq<string>, now: Time, id: string)
    requires Distinct(ids) && id in db.commands && forall i :: 0 <= i < |ids| ==> ids[i] in db.commands
    ensures Expire(db, ids, now).commands[id]
         == if id in ids then db.commands[id].(state := Expired) else db.commands[id]
  {
    if ids != [] {
      var n := |ids| - 1;
      ExpiredRows(db, ids[..n], now, id);
      ExpiredRows(db, ids[..n], now, ids[n]);
      assert ids == ids[..n] + [ids[n]] && ids[n] !in ids[..n];
    }
  }

  /** A cancellation succeeds exactly for a command that has not ended, and ends it. */
  lemma CancelExactlyWhen(db: Db, id: string, now: Time)
    ensures var (after, r) := Cancel(db, id, now);
            && (r.Ok? <==> id in db.commands && db.commands[id].state in {Queued, Dispatched, Running})
            && (r.Ok? ==>
                  && r.value == db.commands[id].(state := Cancelled)
                  && after == db.(commands := db.commands[id := r.value],
                                  events := db.events + [Event(CommandCancelled, id, r.value.order.target, now)]))
            && (r.Err? ==> after == db && r.error == if id in db.commands then StateConflict else CommandNotFound)
  {
    if id in db.commands {
      match db.commands[id].state {
        case Queued | Dispatched | Running =>
        case _ =>
      }
    }
  }

  /** A finished, cancelled or expired command never changes again. */
  lemma TerminalIsFinal(d: Digests, db: Db, after: Db, id: string)
    requires Reachable(d, db) && Later(d, db, after)
    requires id in db.commands && Terminal(db.commands[id].state)
    ensures id in after.commands && after.commands[id] == db.commands[id]
  {
    ReachableInv(d, db);
    LaterKeeps(d, db, after);
    assert Kept(db, after, id);
  }

  /**
   Result replay: a submission once accepted is accepted for ever with the same row, whatever
   happened since and however late it is, and repeating it writes nothing.
   */
  lemma ResultReplayIsStable(d: Digests, db: Db, p: Principal, id: string, payload: Payload, now: Time, after: Db,
                             later: Time)
    requires Reachable(d, db) && Submit(d, db, p, id, payload, now).1.Ok?
    requires Later(d, Submit(d, db, p, id, payload, now).0, after)
    ensures Submit(d, after, p, id, payload, later) == (after, Submit(d, db, p, id, payload, now).1)
  {
    ReachableInv(d, db);
    SubmitKeeps(d, db, p, id, payload, now);
    var (accepted, result) := Submit(d, db, p, id, payload, now);
    LaterKeeps(d, accepted, after);
    RecordedForGood(d, accepted, after, id);
  }

  /** The row of a finished command, and the token that opens it, are the same in every later state. */
  lemma RecordedForGood(d: Digests, db: Db, after: Db, id: string)
    requires Inv(d, db) && Inv(d, after) && Extends(db, after)
    requires id in db.commands && ResultsOf(db.results, id) != []
    ensures id in after.commands && after.commands[id] == db.commands[id]
    ensures ResultsOf(after.results, id) == ResultsOf(db.results, id)
    ensures |ResultsOf(db.results, id)| == 1
  {
    assert RowInv(d, db, id);
    assert Kept(db, after, id);
    assert RowInv(d, after, id);
  }

  /** Idempotent creation: the same key later yields the same command or a conflict, and never a second row. */
  lemma CreationIsIdempotent(d: Digests, db: Db, tenantId: string, actor: string, r: Request, now: Time, id: string,
                             after: Db, actor2: string, r2: Request, now2: Time, id2: string)
    requires Reachable(d, db) && Create(d, db, tenantId, actor, r, now, id).1.Ok?
    requires Later(d, Create(d, db, tenantId, actor, r, now, id).0, after)
    requires r2.idempotencyKey == r.idempotencyKey
    ensures var first := Create(d, db, tenantId, actor, r, now, id).1.value.order.commandId;
            && first in after.commands
            && Create(d, after, tenantId, actor2, r2, now2, id2) ==
                 (after, if DigestOf(d, r2) == DigestOf(d, r) then Ok(after.commands[first])
                  else Err(IdempotencyConflict))
  {
    ReachableInv(d, db);
    CreateKeeps(d, db, tenantId, actor, r, now, id);
    var (created, result) := Create(d, db, tenantId, actor, r, now, id);
    if (tenantId, r.idempotencyKey) in db.byKey {
      assert PointsBack(db, (tenantId, r.idempotencyKey));
      assert RowInv(d, db, db.byKey[(tenantId, r.idempotencyKey)]);
    }
    var first := result.value.order.commandId;
    assert first in created.commands && created.commands[first] == result.value;
    LaterKeeps(d, created, after);
    assert Kept(created, after, first);
    assert RowInv(d, after, first);
  }

  lemma {:induction false} ExpireResults(db: Db, ids: seq<string>, now: Time)
    requires forall i :: 0 <= i < |ids| ==> ids[i] in db.commands
    ensures Expire(db, ids, now).results == db.results
  {
    if ids != [] {
      ExpireResults(db, ids[..|ids| - 1], now);
    }
  }

  lemma {:induction false} DispatchResults(d: Digests, db: Db, ids: seq<string>, tokens: seq<string>, now: Time)
    requires |tokens| == |ids| && forall i :: 0 <= i < |ids| ==> ids[i] in db.commands
    ensures Dispatch(d, db, ids, tokens, now).results == db.results
  {
    if ids != [] {
      var n := |ids| - 1;
      DispatchResults(d, db, ids[..n], tokens[..n], now);
    }
  }

  lemma AcquireResults(d: Digests, db: Db, p: Principal, now: Time, limit: int, picks: Picks)
    requires GoodPicks(db, p, now, limit, picks)
    ensures Acquire(d, db, p, now, limit, picks).0.results == db.results
  {
    if EffectiveLimit(limit) != 0 {
      OverdueNotReady(db, p, now, limit, picks);
      ExpireResults(db, picks.overdue, now);
      DispatchResults(d, Expire(db, picks.overdue, now), picks.ready, picks.tokens, now);
    }
  }
}
