/**
 Agents and the command service together (`agents/windows-agent/internal/runner/runner.go`):
 acquire, mark running, execute, submit or spool, drain. Replies may be lost, requests may be
 served late or again, and an agent may crash between any two steps; its spool survives.
 */
module AgentProtocol {
  import opened Common
  import opened Commands
  import CommandLife
  import Spool

  const RESULT_SEQUENCE := 1

  /** What a spool file holds. */
  datatype Body = ResultBody(commandId: string, payload: Payload) | TelemetryBody(batchId: string)

  datatype Agent = Agent(todo: seq<Acquired>, finished: Option<Body>, spool: Spool.Files<Body>)

  const IDLE := Agent([], None, [])

  datatype Setup = Setup(digests: Digests, limits: Spool.Limits, encode: Spool.Encoding<Body>)

  datatype Outcome = Outcome(status: Status, exitCode: int, summary: string, startedAt: Time, finishedAt: Time)

  /**
   An execution: whose, of what, when the service served its running request, the agent's own clock, and how
   it ended.
   */
  datatype Start = Start(agent: Principal, task: Task, served: Time, clock: Time, outcome: Outcome)

  /**
   `executed` lists every command any agent ever ran, `starts` how; `kept` has every result whose `Enqueue`
   returned success.
   */
  datatype World = World(db: Db, agents: map<Principal, Agent>, executed: seq<string>, starts: map<string, Start>,
                         kept: set<(Principal, Body)>)

  const INITIAL := World(EMPTY, map[], [], map[], {})

  datatype Step =
    | Server(op: CommandLife.Op)                            // any request served, its reply lost or for someone else
    | Poll(p: Principal, now: Time, limit: int, picks: Picks)     // an acquire whose reply arrives
    | Skip(p: Principal, clock: Time)
    | StartFails(p: Principal)
    | Execute(p: Principal, clock: Time, now: Time, outcome: Outcome)
    | SubmitSucceeds(p: Principal, now: Time)
    | SubmitFails(p: Principal, clock: Time, faults: Spool.Faults)
    | DrainResult(p: Principal, now: Time, ackFails: bool)
    | DrainTelemetry(p: Principal, ackFails: bool)
    | SpoolTelemetry(p: Principal, batchId: string, createdAt: Time, clock: Time, faults: Spool.Faults)
    | Crash(p: Principal)

  /** `json.Marshal` loses nothing: what `drain` reads back is what was stored. */
  ghost predicate Lossless(encode: Spool.Encoding<Body>) {
    forall x, y :: encode(x) == encode(y) ==> x == y
  }

  function AgentOf(w: World, p: Principal): Agent {
    if p in w.agents then w.agents[p] else IDLE
  }

  predicate Over(item: Acquired, clock: Time) {
    clock >= item.leaseExpiresAt || clock >= item.expiresAt
  }

  function ResultItem(body: Body): Spool.Item<Body>
    requires body.ResultBody?
  {
    Spool.Item(Spool.CommandResult, body.commandId + ".1", body, Some(body.payload.key.finishedAt))
  }

  function ResultOf(item: Acquired, outcome: Outcome): Body {
    ResultBody(item.commandId, Payload(item.token,
      PayloadKey(RESULT_SEQUENCE, outcome.status, Some(outcome.exitCode), outcome.summary, outcome.startedAt,
                 outcome.finishedAt)))
  }

  function SetAgent(w: World, p: Principal, a: Agent): World {
    w.(agents := w.agents[p := a])
  }

  function Started(w: World, p: Principal, item: Acquired, served: Time, clock: Time, outcome: Outcome): World {
    w.(executed := w.executed + [item.commandId],
       starts := w.starts[item.commandId := Start(p, item.task, served, clock, outcome)])
  }

  function StepExecute(s: Setup, w: World, p: Principal, clock: Time, now: Time, outcome: Outcome): World {
    var a := AgentOf(w, p);
    if a.todo == [] || a.finished.Some? || Over(a.todo[0], clock) then w
    else
      var item := a.todo[0];
      var (db, reply) := MarkRunning(s.digests, w.db, p, item.commandId, item.token, now);
      if reply.Err? then w.(db := db)
      else
        SetAgent(Started(w.(db := db), p, item, now, clock, outcome), p,
                 a.(todo := a.todo[1..], finished := Some(ResultOf(item, outcome))))
  }

  function StepSubmit(s: Setup, w: World, p: Principal, now: Time): World {
    var a := AgentOf(w, p);
    if a.finished.None? || !a.finished.value.ResultBody? then w
    else
      var (db, reply) := Submit(s.digests, w.db, p, a.finished.value.commandId, a.finished.value.payload, now);
      if reply.Err? then w.(db := db) else SetAgent(w.(db := db), p, a.(finished := None))
  }

  /** The submission failed, or its reply was lost: the result goes to disk, or is lost with the rest of the cycle. */
  function StepSpool(s: Setup, w: World, p: Principal, clock: Time, faults: Spool.Faults): World {
    var a := AgentOf(w, p);
    if a.finished.None? || !a.finished.value.ResultBody? then w
    else
      var (spool, error) := Spool.AfterEnqueue(s.limits, s.encode, a.spool, ResultItem(a.finished.value), true, clock,
                                               faults);
      if error.Some? then SetAgent(w, p, Agent([], None, spool))
      else SetAgent(w.(kept := w.kept + {(p, a.finished.value)}), p, a.(finished := None, spool := spool))
  }

  /** `drain` takes command results first; the file goes only after the server has answered with success. */
  function StepDrain(s: Setup, w: World, p: Principal, now: Time, ackFails: bool): World {
    var a := AgentOf(w, p);
    var results := Spool.OfKind(a.spool, Spool.CommandResult);
    if results == [] || !results[0].payload.ResultBody? then w
    else
      var body := results[0].payload;
      var (db, reply) := Submit(s.digests, w.db, p, body.commandId, body.payload, now);
      if reply.Err? then w.(db := db)
      else SetAgent(w.(db := db), p, a.(spool := Spool.AfterAck(a.spool, Spool.CommandResult, results[0].id, ackFails)))
  }

  ghost function Apply(s: Setup, w: World, step: Step): World {
    match step
    case Server(op) => w.(db := CommandLife.Apply(s.digests, w.db, op))
    case Poll(p, now, limit, picks) =>
      if AgentOf(w, p).todo == [] && AgentOf(w, p).finished.None? && GoodPicks(w.db, p, now, limit, picks) then
        var (db, out) := Acquire(s.digests, w.db, p, now, limit, picks);
        SetAgent(w.(db := db), p, AgentOf(w, p).(todo := out))
      else w
    case Skip(p, clock) =>
      var a := AgentOf(w, p);
      if a.todo != [] && a.finished.None? && Over(a.todo[0], clock) then SetAgent(w, p, a.(todo := a.todo[1..])) else w
    case StartFails(p) => SetAgent(w, p, AgentOf(w, p).(todo := []))
    case Execute(p, clock, now, outcome) => StepExecute(s, w, p, clock, now, outcome)
    case SubmitSucceeds(p, now) => StepSubmit(s, w, p, now)
    case SubmitFails(p, clock, faults) => StepSpool(s, w, p, clock, faults)
    case DrainResult(p, now, ackFails) => StepDrain(s, w, p, now, ackFails)
    case DrainTelemetry(p, ackFails) =>
      var a := AgentOf(w, p);
      var waiting := Spool.OfKind(a.spool, Spool.Telemetry);
      if Spool.OfKind(a.spool, Spool.CommandResult) != [] || waiting == [] then w
      else SetAgent(w, p, a.(spool := Spool.AfterAck(a.spool, Spool.Telemetry, waiting[0].id, ackFails)))
    case SpoolTelemetry(p, batchId, createdAt, clock, faults) =>
      var a := AgentOf(w, p);
      var item := Spool.Item(Spool.Telemetry, batchId, TelemetryBody(batchId), Some(createdAt));
      SetAgent(w, p, a.(spool := Spool.AfterEnqueue(s.limits, s.encode, a.spool, item, true, clock, faults).0))
    case Crash(p) => SetAgent(w, p, Agent([], None, AgentOf(w, p).spool))
  }

  ghost function Run(s: Setup, w: World, steps: seq<Step>): World
    decreases |steps|
  {
    if steps == [] then w else Run(s, Apply(s, w, steps[0]), steps[1..])
  }

  // ---------------------------------------------------------------- the invariant

  /** The command has left the queue for this device, with this token. */
  predicate HandedTo(d: Digests, db: Db, p: Principal, id: string, token: string) {
    Guarded(d, db, p, id, token).None?
  }

  /** The command was dispatched to who ran it, for what was run, and had its lease on both clocks. */
  predicate StartedInTime(db: Db, starts: map<string, Start>, id: string) {
    && id in db.commands && id in starts
    && var c, start := db.commands[id], starts[id];
       && c.tokenHash.Some? && c.order.target == start.agent && c.order.task == start.task
       && c.leaseExpiresAt.Some? && start.served <= c.leaseExpiresAt.value && start.clock < c.leaseExpiresAt.value
  }

  ghost predicate ExecutedInv(w: World) {
    && Distinct(w.executed)
    && (forall i {:trigger StartedInTime(w.db, w.starts, w.executed[i])} :: 0 <= i < |w.executed| ==>
          StartedInTime(w.db, w.starts, w.executed[i]))
    && forall id :: id in w.starts ==> id in w.executed
  }

  /** The body tells how the execution of its command ended. */
  predicate TellsOutcome(starts: map<string, Start>, body: Body) {
    && body.ResultBody? && body.commandId in starts
    && var o := starts[body.commandId].outcome;
       body.payload.key == PayloadKey(1, o.status, Some(o.exitCode), o.summary, o.startedAt, o.finishedAt)
  }

  predicate FileTells(starts: map<string, Start>, item: Spool.Item<Body>) {
    item.kind.CommandResult? ==> TellsOutcome(starts, item.payload)
  }

  /** Every result that an agent holds tells how its execution ended. */
  ghost predicate AgentTells(starts: map<string, Start>, a: Agent) {
    && (a.finished.Some? ==> TellsOutcome(starts, a.finished.value))
    && forall x {:trigger FileTells(starts, x)} :: x in a.spool ==> FileTells(starts, x)
  }

  /** The item tells what the command's row says. */
  predicate ItemOf(db: Db, item: Acquired) {
    && item.commandId in db.commands
    && var c := db.commands[item.commandId];
       && c.order.task == item.task && c.order.expiresAt == item.expiresAt
       && c.leaseExpiresAt == Some(item.leaseExpiresAt)
  }

  /** What an agent still has to do is its own, without repetition, and not done yet. */
  ghost predicate TodoInv(d: Digests, w: World, p: Principal) {
    var todo := AgentOf(w, p).todo;
    && (forall i :: 0 <= i < |todo| ==>
        HandedTo(d, w.db, p, todo[i].commandId, todo[i].token) && todo[i].commandId !in w.executed
        && ItemOf(w.db, todo[i]))
    && (forall i, j :: 0 <= i < j < |todo| ==> todo[i].commandId != todo[j].commandId)
  }

  predicate ResultFile(item: Spool.Item<Body>) {
    item.kind.CommandResult? ==> item.payload.ResultBody? && item == ResultItem(item.payload)
  }

  ghost predicate SpoolInv(s: Setup, files: Spool.Files<Body>) {
    && Spool.Valid(files)
    && Spool.WithinLimits(s.limits, s.encode, files)
    && forall i :: 0 <= i < |files| ==> ResultFile(files[i])
  }

  /** The server has a result for the command whose digest is that of this payload. */
  predicate RecordedAs(d: Digests, db: Db, body: Body)
    requires body.ResultBody?
  {
    exists row :: row in ResultsOf(db.results, body.commandId)
      && row.key.sequence == body.payload.key.sequence && row.digest == d.payload(body.payload.key)
  }

  ghost predicate Safe(s: Setup, w: World, p: Principal, body: Body) {
    && body.ResultBody? && body.commandId in w.db.commands
    && (ResultItem(body) in AgentOf(w, p).spool || RecordedAs(s.digests, w.db, body))
  }

  ghost predicate KeptInv(s: Setup, w: World) {
    forall k {:trigger Safe(s, w, k.0, k.1)} :: k in w.kept ==> Safe(s, w, k.0, k.1)
  }

  predicate BodyHanded(d: Digests, db: Db, p: Principal, body: Body) {
    body.ResultBody? && HandedTo(d, db, p, body.commandId, body.payload.token)
  }

  predicate FileHanded(d: Digests, db: Db, p: Principal, item: Spool.Item<Body>) {
    item.kind.CommandResult? ==> BodyHanded(d, db, p, item.payload)
  }

  ghost predicate FilesHanded(d: Digests, db: Db, p: Principal, files: Spool.Files<Body>) {
    forall x {:trigger FileHanded(d, db, p, x)} :: x in files ==> FileHanded(d, db, p, x)
  }

  predicate FinishedInv(d: Digests, w: World, p: Principal) {
    AgentOf(w, p).finished.Some? ==> BodyHanded(d, w.db, p, AgentOf(w, p).finished.value)
  }

  ghost predicate AgentInv(s: Setup, w: World, p: Principal) {
    && TodoInv(s.digests, w, p) && FinishedInv(s.digests, w, p)
    && SpoolInv(s, AgentOf(w, p).spool) && FilesHanded(s.digests, w.db, p, AgentOf(w, p).spool)
    && AgentTells(w.starts, AgentOf(w, p))
  }

  ghost predicate Inv(s: Setup, w: World) {
    && Lossless(s.encode)
    && CommandLife.Inv(s.digests, w.db)
    && ExecutedInv(w)
    && (forall p {:trigger AgentInv(s, w, p)} :: AgentInv(s, w, p))
    && KeptInv(s, w)
  }

  lemma HandedExtends(d: Digests, db: Db, after: Db, p: Principal, id: string, token: string)
    requires CommandLife.Extends(db, after) && HandedTo(d, db, p, id, token)
    ensures HandedTo(d, after, p, id, token)
  {
    assert CommandLife.Kept(db, after, id);
  }

  lemma RecordedExtends(d: Digests, db: Db, after: Db, body: Body)
    requires CommandLife.Inv(d, db) && CommandLife.Inv(d, after) && CommandLife.Extends(db, after)
    requires body.ResultBody? && body.commandId in db.commands && RecordedAs(d, db, body)
    ensures RecordedAs(d, after, body)
  {
    CommandLife.RecordedForGood(d, db, after, body.commandId);
  }

  /** Whatever the server does by itself, the agents' side of the invariant stands. */
  lemma ServerMoves(s: Setup, w: World, db: Db)
    requires Inv(s, w) && CommandLife.Inv(s.digests, db) && CommandLife.Extends(w.db, db)
    ensures Inv(s, w.(db := db))
  {
    var after := w.(db := db);
    forall i | 0 <= i < |w.executed|
      ensures StartedInTime(after.db, after.starts, w.executed[i])
    {
      assert StartedInTime(w.db, w.starts, w.executed[i]);
      assert CommandLife.Kept(w.db, db, w.executed[i]);
    }
    forall p ensures AgentInv(s, after, p) {
      assert AgentInv(s, w, p);
      var a := AgentOf(w, p);
      forall i | 0 <= i < |a.todo|
        ensures HandedTo(s.digests, db, p, a.todo[i].commandId, a.todo[i].token) && ItemOf(db, a.todo[i])
      {
        HandedExtends(s.digests, w.db, db, p, a.todo[i].commandId, a.todo[i].token);
        assert CommandLife.Kept(w.db, db, a.todo[i].commandId);
      }
      if a.finished.Some? {
        HandedExtends(s.digests, w.db, db, p, a.finished.value.commandId, a.finished.value.payload.token);
      }
      forall x | x in a.spool ensures FileHanded(s.digests, db, p, x) {
        assert FileHanded(s.digests, w.db, p, x);
        if x.kind.CommandResult? {
          HandedExtends(s.digests, w.db, db, p, x.payload.commandId, x.payload.payload.token);
        }
      }
    }
    forall k | k in w.kept ensures Safe(s, after, k.0, k.1) {
      assert Safe(s, w, k.0, k.1);
      assert CommandLife.Kept(w.db, db, k.1.commandId);
      if RecordedAs(s.digests, w.db, k.1) {
        RecordedExtends(s.digests, w.db, db, k.1);
      }
    }
  }

  /** One agent changes its own state; its spool loses no result that is not recorded. */
  lemma AgentMoves(s: Setup, w: World, p: Principal, a: Agent)
    requires Inv(s, w) && AgentInv(s, SetAgent(w, p, a), p)
    requires forall body: Body ::
        body.ResultBody? && body.commandId in w.db.commands && ResultItem(body) in AgentOf(w, p).spool ==>
          ResultItem(body) in a.spool || RecordedAs(s.digests, w.db, body)
    ensures Inv(s, SetAgent(w, p, a))
  {
    var after := SetAgent(w, p, a);
    forall q ensures AgentInv(s, after, q) {
      if q != p {
        assert AgentInv(s, w, q);
        assert AgentOf(after, q) == AgentOf(w, q);
      }
    }
    forall k | k in w.kept ensures Safe(s, after, k.0, k.1) {
      assert Safe(s, w, k.0, k.1);
      assert k.0 != p ==> AgentOf(after, k.0) == AgentOf(w, k.0);
    }
  }

  lemma PollKeeps(s: Setup, w: World, p: Principal, now: Time, limit: int, picks: Picks)
    requires Inv(s, w) && AgentOf(w, p).todo == [] && GoodPicks(w.db, p, now, limit, picks)
    ensures var (db, out) := Acquire(s.digests, w.db, p, now, limit, picks);
            Inv(s, SetAgent(w.(db := db), p, AgentOf(w, p).(todo := out)))
  {
    var (db, out) := Acquire(s.digests, w.db, p, now, limit, picks);
    CommandLife.AcquireKeeps(s.digests, w.db, p, now, limit, picks);
    var served := w.(db := db);
    ServerMoves(s, w, db);
    assert AgentInv(s, served, p);
    var a := AgentOf(w, p).(todo := out);
    assert AgentOf(SetAgent(served, p, a), p) == a;
    forall i | 0 <= i < |out|
      ensures HandedTo(s.digests, db, p, out[i].commandId, out[i].token) && out[i].commandId !in w.executed
      ensures ItemOf(db, out[i])
    {
      AcquiredForCaller(s.digests, w.db, p, now, limit, picks, i);
      assert CommandLife.RowInv(s.digests, w.db, out[i].commandId);
      assert out[i].commandId in w.executed ==> StartedInTime(w.db, w.starts, out[i].commandId);
    }
    AgentMoves(s, served, p, a);
  }

  lemma AcquiredForCaller(d: Digests, db: Db, p: Principal, now: Time, limit: int, picks: Picks, i: nat)
    requires GoodPicks(db, p, now, limit, picks) && i < |Acquire(d, db, p, now, limit, picks).1|
    ensures var id := Acquire(d, db, p, now, limit, picks).1[i].commandId;
            && id in db.commands && db.commands[id].order.target == p && db.commands[id].state.Queued?
            && var c, item := db.commands[id], Acquire(d, db, p, now, limit, picks).1[i];
               item == Acquired(id, c.order.task, item.token, Lease(c, now), c.order.expiresAt)
  {
  }

  lemma ExecuteKeeps(s: Setup, w: World, p: Principal, clock: Time, now: Time, outcome: Outcome)
    requires Inv(s, w)
    ensures Inv(s, StepExecute(s, w, p, clock, now, outcome))
  {
    var a := AgentOf(w, p);
    assert AgentInv(s, w, p);
    if a.todo != [] && a.finished.None? && !Over(a.todo[0], clock) {
      var item := a.todo[0];
      var (db, reply) := MarkRunning(s.digests, w.db, p, item.commandId, item.token, now);
      CommandLife.ApplyKeeps(s.digests, w.db, CommandLife.DoRunning(p, item.commandId, item.token, now));
      ServerMoves(s, w, db);
      if reply.Ok? {
        var served := w.(db := db);
        assert AgentInv(s, served, p);
        var ran := Started(served, p, item, now, clock, outcome);
        Executed(s, served, p, now, clock, outcome);
        var middle := ran.(agents := w.agents[p := a.(todo := a.todo[1..])]);
        assert AgentInv(s, middle, p) && AgentOf(middle, p).spool == a.spool;
        var done := a.(todo := a.todo[1..], finished := Some(ResultOf(item, outcome)));
        AgentMoves(s, middle, p, done);
        assert w.agents[p := a.(todo := a.todo[1..])][p := done] == w.agents[p := done];
      }
    }
  }

  /** Moving the first item of one agent's list to the executed ones: it was nobody else's. */
  lemma Executed(s: Setup, w: World, p: Principal, served: Time, clock: Time, outcome: Outcome)
    requires Inv(s, w) && AgentOf(w, p).todo != [] && !Over(AgentOf(w, p).todo[0], clock)
    requires served <= AgentOf(w, p).todo[0].leaseExpiresAt
    ensures var a := AgentOf(w, p);
            Inv(s, Started(w, p, a.todo[0], served, clock, outcome).(agents := w.agents[p := a.(todo := a.todo[1..])]))
  {
    var a := AgentOf(w, p);
    var id := a.todo[0].commandId;
    var after := Started(w, p, a.todo[0], served, clock, outcome).(agents := w.agents[p := a.(todo := a.todo[1..])]);
    assert AgentInv(s, w, p);
    assert HandedTo(s.digests, w.db, p, id, a.todo[0].token) && id !in w.executed && ItemOf(w.db, a.todo[0]);
    forall i | 0 <= i < |after.executed| ensures StartedInTime(after.db, after.starts, after.executed[i]) {
      assert i < |w.executed| ==> StartedInTime(w.db, w.starts, w.executed[i]);
    }
    assert ExecutedInv(after);
    forall q ensures AgentInv(s, after, q) {
      assert AgentInv(s, w, q);
      var todo := AgentOf(after, q).todo;
      forall i | 0 <= i < |todo|
        ensures HandedTo(s.digests, after.db, q, todo[i].commandId, todo[i].token)
        ensures todo[i].commandId !in after.executed && ItemOf(after.db, todo[i])
      {
        if q == p {
          assert todo[i] == a.todo[i + 1];
        } else {
          assert HandedTo(s.digests, w.db, q, todo[i].commandId, todo[i].token);
        }
      }
      forall x | x in AgentOf(after, q).spool ensures FileTells(after.starts, x) {
        assert FileTells(w.starts, x);
        assert AgentOf(after, q).spool == AgentOf(w, q).spool;
      }
    }
    forall k | k in w.kept ensures Safe(s, after, k.0, k.1) {
      assert Safe(s, w, k.0, k.1);
      assert AgentOf(after, k.0).spool == AgentOf(w, k.0).spool;
    }
  }

  /** A submission that succeeds leaves the payload on record. */
  lemma SubmitRecords(d: Digests, db: Db, p: Principal, body: Body, now: Time)
    requires CommandLife.Inv(d, db) && body.ResultBody?
    ensures var (after, reply) := Submit(d, db, p, body.commandId, body.payload, now);
            && CommandLife.Inv(d, after) && CommandLife.Extends(db, after)
            && (reply.Ok? ==> RecordedAs(d, after, body))
  {
    CommandLife.SubmitKeeps(d, db, p, body.commandId, body.payload, now);
    var (after, reply) := Submit(d, db, p, body.commandId, body.payload, now);
    if reply.Ok? {
      assert reply.value in ResultsOf(after.results, body.commandId);
    }
  }

  lemma SubmitKeeps(s: Setup, w: World, p: Principal, now: Time)
    requires Inv(s, w)
    ensures Inv(s, StepSubmit(s, w, p, now))
  {
    var a := AgentOf(w, p);
    assert AgentInv(s, w, p);
    if a.finished.Some? {
      SubmitRecords(s.digests, w.db, p, a.finished.value, now);
      var (db, reply) := Submit(s.digests, w.db, p, a.finished.value.commandId, a.finished.value.payload, now);
      ServerMoves(s, w, db);
      if reply.Ok? {
        assert AgentInv(s, w.(db := db), p);
        AgentMoves(s, w.(db := db), p, a.(finished := None));
      }
    }
  }

  lemma SpoolKeeps(s: Setup, w: World, p: Principal, clock: Time, faults: Spool.Faults)
    requires Inv(s, w)
    ensures Inv(s, StepSpool(s, w, p, clock, faults))
  {
    var a := AgentOf(w, p);
    assert AgentInv(s, w, p);
    if a.finished.Some? {
      var item := ResultItem(a.finished.value);
      var (spool, error) := Spool.AfterEnqueue(s.limits, s.encode, a.spool, item, true, clock, faults);
      EnqueueKeeps(s, a.spool, item, clock, faults);
      if error.Some? {
        AgentMoves(s, w, p, Agent([], None, spool));
      } else {
        var after := SetAgent(w, p, a.(finished := None, spool := spool));
        AgentMoves(s, w, p, a.(finished := None, spool := spool));
        var kept := after.(kept := w.kept + {(p, a.finished.value)});
        forall q ensures AgentInv(s, kept, q) {
          assert AgentInv(s, after, q);
        }
        forall k | k in kept.kept ensures Safe(s, kept, k.0, k.1) {
          assert k in w.kept ==> Safe(s, after, k.0, k.1);
        }
      }
    }
  }

  /** Putting a well-formed item in keeps the spool's invariant and every command result already there. */
  lemma EnqueueKeeps(s: Setup, files: Spool.Files<Body>, item: Spool.Item<Body>, clock: Time, faults: Spool.Faults)
    requires Lossless(s.encode) && SpoolInv(s, files) && ResultFile(item) && item.createdAt.Some?
    ensures var (after, error) := Spool.AfterEnqueue(s.limits, s.encode, files, item, true, clock, faults);
            && SpoolInv(s, after)
            && (forall x :: x in after ==> x in files || x == item)
            && (forall body: Body :: body.ResultBody? && ResultItem(body) in files ==> ResultItem(body) in after)
            && (error.None? && item.kind.CommandResult? ==> item in after)
  {
    var (after, error) := Spool.AfterEnqueue(s.limits, s.encode, files, item, true, clock, faults);
    Spool.ApplyKeeps(s.limits, s.encode, files, Spool.Put(item, true, clock, faults));
    Spool.EnqueueMembers(s.limits, s.encode, files, item, clock, faults);
    forall i | 0 <= i < |after| ensures ResultFile(after[i]) {
      assert after[i] in after;
      if after[i] in files {
        var j :| 0 <= j < |files| && files[j] == after[i];
      }
    }
  }

  lemma DrainKeeps(s: Setup, w: World, p: Principal, now: Time, ackFails: bool)
    requires Inv(s, w)
    ensures Inv(s, StepDrain(s, w, p, now, ackFails))
  {
    var a := AgentOf(w, p);
    assert AgentInv(s, w, p);
    var results := Spool.OfKind(a.spool, Spool.CommandResult);
    if results != [] {
      Spool.OfKindMembers(a.spool, Spool.CommandResult, results[0]);
      var n :| 0 <= n < |a.spool| && a.spool[n] == results[0];
      assert ResultFile(a.spool[n]);
      var body := results[0].payload;
      SubmitRecords(s.digests, w.db, p, body, now);
      var (db, reply) := Submit(s.digests, w.db, p, body.commandId, body.payload, now);
      ServerMoves(s, w, db);
      if reply.Ok? {
        var spool := Spool.AfterAck(a.spool, Spool.CommandResult, results[0].id, ackFails);
        AckKeeps(s, a.spool, results[0], ackFails);
        assert AgentInv(s, w.(db := db), p);
        AgentMoves(s, w.(db := db), p, a.(spool := spool));
      }
    }
  }

  lemma AckKeeps(s: Setup, files: Spool.Files<Body>, item: Spool.Item<Body>, fails: bool)
    requires SpoolInv(s, files) && item in files
    ensures var after := Spool.AfterAck(files, item.kind, item.id, fails);
            && SpoolInv(s, after)
            && (forall x :: x in after ==> x in files)
            && (forall x :: x in files && x != item ==> x in after)
            && (!fails ==> item !in after)
  {
    var after := Spool.AfterAck(files, item.kind, item.id, fails);
    Spool.ApplyKeeps(s.limits, s.encode, files, Spool.Done(item.kind, item.id, fails));
    var at := Spool.Find(files, item.kind, item.id);
    var n :| 0 <= n < |files| && files[n] == item;
    assert at == n;
    Spool.RemoveAtMembers(files, at);
    forall i | 0 <= i < |after| ensures ResultFile(after[i]) {
      assert after[i] in after;
      var j :| 0 <= j < |files| && files[j] == after[i];
    }
  }

  lemma TelemetryKeeps(s: Setup, w: World, p: Principal, ackFails: bool)
    requires Inv(s, w)
    ensures Inv(s, Apply(s, w, DrainTelemetry(p, ackFails)))
  {
    var a := AgentOf(w, p);
    assert AgentInv(s, w, p);
    var waiting := Spool.OfKind(a.spool, Spool.Telemetry);
    if Spool.OfKind(a.spool, Spool.CommandResult) == [] && waiting != [] {
      Spool.OfKindMembers(a.spool, Spool.Telemetry, waiting[0]);
      AckKeeps(s, a.spool, waiting[0], ackFails);
      AgentMoves(s, w, p, a.(spool := Spool.AfterAck(a.spool, Spool.Telemetry, waiting[0].id, ackFails)));
    }
  }

  lemma SpoolTelemetryKeeps(s: Setup, w: World, p: Principal, batchId: string, createdAt: Time, clock: Time,
                            faults: Spool.Faults)
    requires Inv(s, w)
    ensures Inv(s, Apply(s, w, SpoolTelemetry(p, batchId, createdAt, clock, faults)))
  {
    var a, item := AgentOf(w, p), Spool.Item(Spool.Telemetry, batchId, TelemetryBody(batchId), Some(createdAt));
    assert AgentInv(s, w, p);
    EnqueueKeeps(s, a.spool, item, clock, faults);
    AgentMoves(s, w, p, a.(spool := Spool.AfterEnqueue(s.limits, s.encode, a.spool, item, true, clock, faults).0));
  }

  /** Skipping the first item, giving the rest up, or dying: the list shrinks, the spool stays. */
  lemma DroppingKeeps(s: Setup, w: World, p: Principal, a: Agent)
    requires Inv(s, w) && a.spool == AgentOf(w, p).spool && (a.finished == AgentOf(w, p).finished || a.finished.None?)
    requires a.todo == [] || (AgentOf(w, p).todo != [] && a.todo == AgentOf(w, p).todo[1..])
    ensures Inv(s, SetAgent(w, p, a))
  {
    assert AgentInv(s, w, p);
    AgentMoves(s, w, p, a);
  }

  lemma StepKeeps(s: Setup, w: World, step: Step)
    requires Inv(s, w)
    ensures Inv(s, Apply(s, w, step))
  {
    match step
    case Server(op) =>
      CommandLife.ApplyKeeps(s.digests, w.db, op);
      ServerMoves(s, w, CommandLife.Apply(s.digests, w.db, op));
    case Poll(p, now, limit, picks) =>
      if AgentOf(w, p).todo == [] && AgentOf(w, p).finished.None? && GoodPicks(w.db, p, now, limit, picks) {
        PollKeeps(s, w, p, now, limit, picks);
      }
    case Skip(p, clock) =>
      var a := AgentOf(w, p);
      if a.todo != [] && a.finished.None? && Over(a.todo[0], clock) {
        DroppingKeeps(s, w, p, a.(todo := a.todo[1..]));
      }
    case StartFails(p) => DroppingKeeps(s, w, p, AgentOf(w, p).(todo := []));
    case Execute(p, clock, now, outcome) => ExecuteKeeps(s, w, p, clock, now, outcome);
    case SubmitSucceeds(p, now) => SubmitKeeps(s, w, p, now);
    case SubmitFails(p, clock, faults) => SpoolKeeps(s, w, p, clock, faults);
    case DrainResult(p, now, ackFails) => DrainKeeps(s, w, p, now, ackFails);
    case DrainTelemetry(p, ackFails) => TelemetryKeeps(s, w, p, ackFails);
    case SpoolTelemetry(p, batchId, createdAt, clock, faults) =>
      SpoolTelemetryKeeps(s, w, p, batchId, createdAt, clock, faults);
    case Crash(p) => DroppingKeeps(s, w, p, Agent([], None, AgentOf(w, p).spool));
  }

  lemma {:induction false} RunKeeps(s: Setup, w: World, steps: seq<Step>)
    requires Inv(s, w)
    ensures Inv(s, Run(s, w, steps))
    decreases |steps|
  {
    if steps != [] {
      StepKeeps(s, w, steps[0]);
      RunKeeps(s, Apply(s, w, steps[0]), steps[1..]);
    }
  }

  // ---------------------------------------------------------------- the guarantees

  ghost predicate Reachable(s: Setup, w: World) {
    exists steps :: w == Run(s, INITIAL, steps)
  }

  lemma ReachableInv(s: Setup, w: World)
    requires Lossless(s.encode) && Reachable(s, w)
    ensures Inv(s, w)
  {
    var steps :| w == Run(s, INITIAL, steps);
    assert CommandLife.Inv(s.digests, EMPTY);
    forall p ensures AgentInv(s, INITIAL, p) {
    }
    RunKeeps(s, INITIAL, steps);
  }

  /** No command is ever executed twice, by one agent or by two; and each executed one was dispatched exactly once. */
  lemma AtMostOnceExecution(s: Setup, w: World)
    requires Lossless(s.encode) && Reachable(s, w)
    ensures Distinct(w.executed)
    ensures forall i :: 0 <= i < |w.executed| ==>
              w.executed[i] in w.db.commands && w.db.commands[w.executed[i]].dispatchAttempts == 1
    ensures forall id :: |ResultsOf(w.db.results, id)| <= 1
  {
    ReachableInv(s, w);
    forall i | 0 <= i < |w.executed|
      ensures w.executed[i] in w.db.commands && w.db.commands[w.executed[i]].dispatchAttempts == 1
    {
      assert StartedInTime(w.db, w.starts, w.executed[i]);
      assert CommandLife.RowInv(s.digests, w.db, w.executed[i]);
    }
    forall id ensures |ResultsOf(w.db.results, id)| <= 1 {
      if id in w.db.results {
        assert CommandLife.RowInv(s.digests, w.db, id);
      }
    }
  }

  /**
   What any agent executes is a command for it, and its own task. The service served the running request no
   later than the lease, the agent's own clock was before it, and the lease is within the command's life.
   */
  lemma ExecutedWithinTheLease(s: Setup, w: World, i: nat)
    requires Lossless(s.encode) && Reachable(s, w) && i < |w.executed|
    ensures w.executed[i] in w.db.commands && w.executed[i] in w.starts
    ensures var c, start := w.db.commands[w.executed[i]], w.starts[w.executed[i]];
            && start.agent == c.order.target && start.task == c.order.task && c.leaseExpiresAt.Some?
            && start.served <= c.leaseExpiresAt.value <= c.order.expiresAt && start.clock < c.leaseExpiresAt.value
  {
    ReachableInv(s, w);
    assert StartedInTime(w.db, w.starts, w.executed[i]);
    assert CommandLife.RowInv(s.digests, w.db, w.executed[i]);
  }

  /** The result is just in, or in the spool. */
  predicate Holds(a: Agent, body: Body) {
    a.finished == Some(body) || exists x :: x in a.spool && x.kind.CommandResult? && x.payload == body
  }

  /** A result that an agent holds is of an execution of its own, tells how that ended, and has the command's token. */
  lemma HeldResultsTellTheOutcome(s: Setup, w: World, p: Principal, body: Body)
    requires Lossless(s.encode) && Reachable(s, w) && Holds(AgentOf(w, p), body)
    ensures body.ResultBody? && body.commandId in w.executed && body.commandId in w.starts
    ensures var start := w.starts[body.commandId];
            && start.agent == p
            && body.payload.key == PayloadKey(1, start.outcome.status, Some(start.outcome.exitCode),
                                              start.outcome.summary, start.outcome.startedAt, start.outcome.finishedAt)
    ensures body.commandId in w.db.commands
            && w.db.commands[body.commandId].tokenHash == Some(s.digests.token(body.payload.token))
  {
    ReachableInv(s, w);
    assert AgentInv(s, w, p);
    if AgentOf(w, p).finished != Some(body) {
      var x :| x in AgentOf(w, p).spool && x.kind.CommandResult? && x.payload == body;
      assert FileTells(w.starts, x) && FileHanded(s.digests, w.db, p, x);
    }
    var i :| 0 <= i < |w.executed| && w.executed[i] == body.commandId;
    assert StartedInTime(w.db, w.starts, w.executed[i]);
  }

  /** In every reachable state an item in an agent's hands is over on its clock exactly when its lease is. */
  lemma OverExactlyWhen(s: Setup, w: World, p: Principal, i: nat, clock: Time)
    requires Lossless(s.encode) && Reachable(s, w) && i < |AgentOf(w, p).todo|
    ensures var item := AgentOf(w, p).todo[i];
            && item.commandId in w.db.commands && w.db.commands[item.commandId].leaseExpiresAt.Some?
            && (Over(item, clock) <==> w.db.commands[item.commandId].leaseExpiresAt.value <= clock)
  {
    ReachableInv(s, w);
    assert AgentInv(s, w, p);
    assert ItemOf(w.db, AgentOf(w, p).todo[i]);
    assert CommandLife.RowInv(s.digests, w.db, AgentOf(w, p).todo[i].commandId);
  }

  /** A result that made it to disk stays in that agent's spool until the server has it on record. */
  lemma SpooledUntilRecorded(s: Setup, w: World, p: Principal, body: Body)
    requires Lossless(s.encode) && Reachable(s, w) && (p, body) in w.kept
    ensures body.ResultBody?
    ensures ResultItem(body) in AgentOf(w, p).spool || RecordedAs(s.digests, w.db, body)
    ensures Spool.WithinLimits(s.limits, s.encode, AgentOf(w, p).spool)
  {
    ReachableInv(s, w);
    assert Safe(s, w, p, body) by {
      assert (p, body) in w.kept;
      assert Safe(s, w, (p, body).0, (p, body).1);
    }
    assert AgentInv(s, w, p);
  }
}
