/**
 When a spooled command result is never delivered (`submit_result` in
 `services/command-service/app/results.py`, `drain` in `agents/windows-agent/internal/runner/runner.go`):
 the exact condition under which the service refuses a result for ever, and what that does to the spool,
 where draining always starts with the oldest result and stops at the first refusal.

 Time enters as the time `t` from which on submissions are made.
 */
module Undelivered {
  import opened Common
  import opened Text
  import opened Commands
  import opened AgentProtocol
  import CommandLife
  import Runner
  import Spool

  // ---------------------------------------------------------------- the service refuses for ever

  /** A submission of this result would be answered from the stored row. */
  predicate OnRecord(d: Digests, db: Db, id: string, key: PayloadKey) {
    var row := FindResult(ResultsOf(db.results, id), key.sequence);
    row.Some? && row.value.digest == d.payload(key)
  }

  /** The result says it was made more than the tolerated time after the end of the lease. */
  predicate PostDated(c: Command, key: PayloadKey) {
    c.leaseExpiresAt.Some?
    && Max(key.startedAt, key.finishedAt) > c.leaseExpiresAt.value + CLOCK_TOLERANCE_SECONDS
  }

  /** Not on record, and the command is over, or its lease is, or the result is dated after it. */
  predicate Doomed(d: Digests, db: Db, id: string, key: PayloadKey, t: Time) {
    id in db.commands && !OnRecord(d, db, id, key)
    && (Terminal(db.commands[id].state) || !LeaseHolds(db.commands[id], t) || PostDated(db.commands[id], key))
  }

  /** Submissions come no earlier than `t`, and none for this command has another key with the digest of `key`. */
  predicate Timely(d: Digests, t: Time, id: string, key: PayloadKey, op: CommandLife.Op) {
    op.DoSubmit? ==>
      op.now >= t && (op.id == id && d.payload(op.payload.key) == d.payload(key) ==> op.payload.key == key)
  }

  /** Only submissions for a command change its results. */
  lemma OtherOpsKeepResults(d: Digests, db: Db, op: CommandLife.Op, id: string)
    requires !(op.DoSubmit? && op.id == id)
    ensures ResultsOf(CommandLife.Apply(d, db, op).results, id) == ResultsOf(db.results, id)
  {
    if op.DoAcquire? && GoodPicks(db, op.p, op.now, op.limit, op.picks) {
      CommandLife.AcquireResults(d, db, op.p, op.now, op.limit, op.picks);
    }
  }

  lemma DoomedRefused(d: Digests, db: Db, p: Principal, id: string, payload: Payload, t: Time, now: Time)
    requires Doomed(d, db, id, payload.key, t) && now >= t
    ensures Submit(d, db, p, id, payload, now).1.Err?
  {
  }

  /** What is accepted for an open command while its lease holds is not the doomed result. */
  lemma SubmissionKeepsDoom(d: Digests, db: Db, q: Principal, id: string, other: Payload, now: Time, key: PayloadKey,
                            t: Time)
    requires CommandLife.Inv(d, db) && Doomed(d, db, id, key, t)
    requires now >= t && (d.payload(other.key) == d.payload(key) ==> other.key == key)
    ensures Doomed(d, Submit(d, db, q, id, other, now).0, id, key, t)
  {
    assert CommandLife.RowInv(d, db, id);
    var (after, reply) := Submit(d, db, q, id, other, now);
    if after != db {
      CommandLife.SubmitKeeps(d, db, q, id, other, now);
      assert ResultsOf(after.results, id) == [reply.value];
    }
  }

  lemma DoomedStep(d: Digests, db: Db, id: string, key: PayloadKey, t: Time, op: CommandLife.Op)
    requires CommandLife.Inv(d, db) && Doomed(d, db, id, key, t) && Timely(d, t, id, key, op)
    requires db.commands[id].tokenHash.Some?
    ensures Doomed(d, CommandLife.Apply(d, db, op), id, key, t)
  {
    var after := CommandLife.Apply(d, db, op);
    CommandLife.ApplyKeeps(d, db, op);
    assert CommandLife.Kept(db, after, id);
    if op.DoSubmit? && op.id == id {
      SubmissionKeepsDoom(d, db, op.p, id, op.payload, op.now, key, t);
    } else {
      OtherOpsKeepResults(d, db, op, id);
    }
  }

  ghost predicate AllTimely(d: Digests, t: Time, id: string, key: PayloadKey, ops: seq<CommandLife.Op>) {
    forall i {:trigger ops[i]} :: 0 <= i < |ops| ==> Timely(d, t, id, key, ops[i])
  }

  lemma {:induction false} DoomedRun(d: Digests, db: Db, id: string, key: PayloadKey, t: Time, ops: seq<CommandLife.Op>)
    requires CommandLife.Inv(d, db) && Doomed(d, db, id, key, t) && AllTimely(d, t, id, key, ops)
    requires db.commands[id].tokenHash.Some?
    ensures Doomed(d, CommandLife.Run(d, db, ops), id, key, t)
    decreases |ops|
  {
    if ops != [] {
      var next := CommandLife.Apply(d, db, ops[0]);
      DoomedStep(d, db, id, key, t, ops[0]);
      CommandLife.ApplyKeeps(d, db, ops[0]);
      assert CommandLife.Kept(db, next, id);
      DoomedRun(d, next, id, key, t, ops[1..]);
    }
  }

  /** The time at which a result that is not doomed is accepted. */
  function AcceptedAt(d: Digests, db: Db, id: string, key: PayloadKey, t: Time): Time
    requires id in db.commands
  {
    if OnRecord(d, db, id, key) || db.commands[id].leaseExpiresAt.None? then t else db.commands[id].leaseExpiresAt.value
  }

  lemma NotDoomedAccepted(d: Digests, db: Db, p: Principal, id: string, payload: Payload, t: Time)
    requires CommandLife.Inv(d, db) && HandedTo(d, db, p, id, payload.token) && !Doomed(d, db, id, payload.key, t)
    ensures AcceptedAt(d, db, id, payload.key, t) >= t
    ensures Submit(d, db, p, id, payload, AcceptedAt(d, db, id, payload.key, t)).1.Ok?
  {
    assert CommandLife.RowInv(d, db, id);
  }

  ghost predicate RefusedForGood(d: Digests, db: Db, p: Principal, id: string, payload: Payload, t: Time) {
    forall ops, now {:trigger Submit(d, CommandLife.Run(d, db, ops), p, id, payload, now)} ::
      AllTimely(d, t, id, payload.key, ops) && now >= t ==>
        Submit(d, CommandLife.Run(d, db, ops), p, id, payload, now).1.Err?
  }

  /**
   A result with the dispatched token is refused whatever the service does from `t` on exactly when it is
   not on record by then and the command is over, or its lease has lapsed, or the result is dated after it.
   */
  lemma RefusedForGoodExactlyWhen(d: Digests, db: Db, p: Principal, id: string, payload: Payload, t: Time)
    requires CommandLife.Reachable(d, db) && HandedTo(d, db, p, id, payload.token)
    ensures RefusedForGood(d, db, p, id, payload, t) <==> Doomed(d, db, id, payload.key, t)
  {
    CommandLife.ReachableInv(d, db);
    if Doomed(d, db, id, payload.key, t) {
      forall ops, now | AllTimely(d, t, id, payload.key, ops) && now >= t
        ensures Submit(d, CommandLife.Run(d, db, ops), p, id, payload, now).1.Err?
      {
        DoomedRun(d, db, id, payload.key, t, ops);
        DoomedRefused(d, CommandLife.Run(d, db, ops), p, id, payload, t, now);
      }
    } else {
      NotDoomedAccepted(d, db, p, id, payload, t);
      assert CommandLife.Run(d, db, []) == db;
      assert Submit(d, CommandLife.Run(d, db, []), p, id, payload, AcceptedAt(d, db, id, payload.key, t)).1.Ok?;
    }
  }

  // ---------------------------------------------------------------- the file stays in the spool

  /** What a step asks of the service. */
  ghost function OpOf(w: World, step: Step): Option<CommandLife.Op> {
    match step
    case Server(op) => Some(op)
    case Poll(p, now, limit, picks) =>
      if AgentOf(w, p).todo == [] && AgentOf(w, p).finished.None? && GoodPicks(w.db, p, now, limit, picks)
      then Some(CommandLife.DoAcquire(p, now, limit, picks)) else None
    case Execute(p, clock, now, outcome) =>
      var a := AgentOf(w, p);
      if a.todo == [] || a.finished.Some? || Over(a.todo[0], clock) then None
      else Some(CommandLife.DoRunning(p, a.todo[0].commandId, a.todo[0].token, now))
    case SubmitSucceeds(p, now) =>
      var f := AgentOf(w, p).finished;
      if f.None? || !f.value.ResultBody? then None
      else Some(CommandLife.DoSubmit(p, f.value.commandId, f.value.payload, now))
    case DrainResult(p, now, ackFails) =>
      var results := Spool.OfKind(AgentOf(w, p).spool, Spool.CommandResult);
      if results == [] || !results[0].payload.ResultBody? then None
      else Some(CommandLife.DoSubmit(p, results[0].payload.commandId, results[0].payload.payload, now))
    case _ => None
  }

  lemma StepServes(s: Setup, w: World, step: Step)
    ensures Apply(s, w, step).db
         == if OpOf(w, step).Some? then CommandLife.Apply(s.digests, w.db, OpOf(w, step).value) else w.db
  {
  }

  predicate TimelyFor(d: Digests, t: Time, x: Spool.Item<Body>, op: CommandLife.Op) {
    x.kind.CommandResult? && x.payload.ResultBody? ==> Timely(d, t, x.payload.commandId, x.payload.payload.key, op)
  }

  /** The step is timely with respect to every one of `files`. */
  ghost predicate TimelyStep(s: Setup, w: World, t: Time, files: Spool.Files<Body>, step: Step) {
    OpOf(w, step).Some? ==>
      forall x {:trigger TimelyFor(s.digests, t, x, OpOf(w, step).value)} :: x in files ==>
          TimelyFor(s.digests, t, x, OpOf(w, step).value)
  }

  ghost predicate TimelySteps(s: Setup, w: World, t: Time, files: Spool.Files<Body>, steps: seq<Step>)
    decreases |steps|
  {
    steps == [] || (TimelyStep(s, w, t, files, steps[0]) && TimelySteps(s, Apply(s, w, steps[0]), t, files, steps[1..]))
  }

  predicate DoomedFile(s: Setup, w: World, t: Time, x: Spool.Item<Body>) {
    && x.kind.CommandResult? && x.payload.ResultBody?
    && Doomed(s.digests, w.db, x.payload.commandId, x.payload.payload.key, t)
  }

  /** Drained at or before `x`. */
  predicate NotAfter(y: Spool.Item<Body>, x: Spool.Item<Body>) {
    y == x || Spool.Earlier(y, x)
  }

  lemma EarlierOneWay(x: Spool.Item<Body>, y: Spool.Item<Body>)
    ensures !(Spool.Earlier(x, y) && Spool.Earlier(y, x))
  {
    LessTotal(Spool.Path(x.kind, x.id), Spool.Path(y.kind, y.id));
  }

  lemma {:induction false} FirstIsEarliest(files: Spool.Files<Body>, kind: Spool.Kind, x: Spool.Item<Body>)
    requires Spool.Ordered(files) && x in files && x.kind == kind
    ensures Spool.OfKind(files, kind) != [] && NotAfter(Spool.OfKind(files, kind)[0], x)
    decreases |files|
  {
    var i :| 0 <= i < |files| && files[i] == x;
    if files[0].kind != kind {
      assert files[1..][i - 1] == x;
      FirstIsEarliest(files[1..], kind, x);
    }
  }

  lemma SpoolFacts(s: Setup, w: World, p: Principal, x: Spool.Item<Body>)
    requires Inv(s, w) && x in AgentOf(w, p).spool && x.kind.CommandResult?
    ensures x.payload.ResultBody? && x == ResultItem(x.payload)
    ensures HandedTo(s.digests, w.db, p, x.payload.commandId, x.payload.payload.token)
    ensures Spool.Ordered(AgentOf(w, p).spool) && Spool.OneFileEach(AgentOf(w, p).spool)
  {
    assert AgentInv(s, w, p);
    var files := AgentOf(w, p).spool;
    var i :| 0 <= i < |files| && files[i] == x;
    assert ResultFile(files[i]) && FileHanded(s.digests, w.db, p, x);
  }

  /** A drain that removes a file has its result accepted, so neither the doomed file nor one behind it goes. */
  lemma DrainSpares(s: Setup, w: World, p: Principal, now: Time, ackFails: bool, t: Time, y: Spool.Item<Body>,
                    x: Spool.Item<Body>)
    requires Inv(s, w) && now >= t && DoomedFile(s, w, t, y) && NotAfter(y, x) && x.kind.CommandResult?
    requires y in AgentOf(w, p).spool && x in AgentOf(w, p).spool
    ensures y in AgentOf(StepDrain(s, w, p, now, ackFails), p).spool
    ensures x in AgentOf(StepDrain(s, w, p, now, ackFails), p).spool
  {
    var files := AgentOf(w, p).spool;
    SpoolFacts(s, w, p, x);
    FirstIsEarliest(files, Spool.CommandResult, x);
    FirstIsEarliest(files, Spool.CommandResult, y);
    var first := Spool.OfKind(files, Spool.CommandResult)[0];
    Spool.OfKindMembers(files, Spool.CommandResult, first);
    SpoolFacts(s, w, p, first);
    if Submit(s.digests, w.db, p, first.payload.commandId, first.payload.payload, now).1.Ok? {
      if first == y {
        DoomedRefused(s.digests, w.db, p, y.payload.commandId, y.payload.payload, t, now);
      }
      EarlierOneWay(y, x);
      assert AgentInv(s, w, p);
      AckKeeps(s, files, first, ackFails);
    }
  }

  lemma StoringSpares(s: Setup, w: World, p: Principal, item: Spool.Item<Body>, clock: Time, faults: Spool.Faults,
                      x: Spool.Item<Body>)
    requires Inv(s, w) && x in AgentOf(w, p).spool && x.kind.CommandResult? && ResultFile(item) && item.createdAt.Some?
    ensures x in Spool.AfterEnqueue(s.limits, s.encode, AgentOf(w, p).spool, item, true, clock, faults).0
  {
    SpoolFacts(s, w, p, x);
    assert AgentInv(s, w, p);
    EnqueueKeeps(s, AgentOf(w, p).spool, item, clock, faults);
    assert ResultItem(x.payload) in AgentOf(w, p).spool;
  }

  /** Only draining a result removes one. */
  lemma OtherStepsSpare(s: Setup, w: World, p: Principal, step: Step, x: Spool.Item<Body>)
    requires Inv(s, w) && x in AgentOf(w, p).spool && x.kind.CommandResult? && !(step.DrainResult? && step.p == p)
    ensures x in AgentOf(Apply(s, w, step), p).spool
  {
    if step.SubmitFails? && step.p == p {
      assert AgentInv(s, w, p);
      if AgentOf(w, p).finished.Some? {
        StoringSpares(s, w, p, ResultItem(AgentOf(w, p).finished.value), step.clock, step.faults, x);
      }
    } else if step.SpoolTelemetry? && step.p == p {
      var item := Spool.Item(Spool.Telemetry, step.batchId, TelemetryBody(step.batchId), Some(step.createdAt));
      StoringSpares(s, w, p, item, step.clock, step.faults, x);
    } else if step.DrainTelemetry? && step.p == p {
      SpoolFacts(s, w, p, x);
      FirstIsEarliest(AgentOf(w, p).spool, Spool.CommandResult, x);
    }
  }

  /** A doomed file and what is behind it outlast any timely step, and the doomed file stays doomed. */
  lemma BlockedStep(s: Setup, w: World, p: Principal, t: Time, files: Spool.Files<Body>, y: Spool.Item<Body>,
                    x: Spool.Item<Body>, step: Step)
    requires Inv(s, w) && TimelyStep(s, w, t, files, step) && y in files
    requires DoomedFile(s, w, t, y) && NotAfter(y, x) && x.kind.CommandResult?
    requires y in AgentOf(w, p).spool && x in AgentOf(w, p).spool
    ensures var after := Apply(s, w, step);
            DoomedFile(s, after, t, y) && y in AgentOf(after, p).spool && x in AgentOf(after, p).spool
  {
    SpoolFacts(s, w, p, y);
    StepServes(s, w, step);
    if OpOf(w, step).Some? {
      assert TimelyFor(s.digests, t, y, OpOf(w, step).value);
      DoomedStep(s.digests, w.db, y.payload.commandId, y.payload.payload.key, t, OpOf(w, step).value);
    }
    if step.DrainResult? && step.p == p {
      SpoolFacts(s, w, p, x);
      FirstIsEarliest(AgentOf(w, p).spool, Spool.CommandResult, x);
      var first := Spool.OfKind(AgentOf(w, p).spool, Spool.CommandResult)[0];
      Spool.OfKindMembers(AgentOf(w, p).spool, Spool.CommandResult, first);
      SpoolFacts(s, w, p, first);
      DrainSpares(s, w, p, step.now, step.ackFails, t, y, x);
    } else {
      OtherStepsSpare(s, w, p, step, x);
      OtherStepsSpare(s, w, p, step, y);
    }
  }

  lemma {:induction false} BlockedRun(s: Setup, w: World, p: Principal, t: Time, files: Spool.Files<Body>,
                                      y: Spool.Item<Body>, x: Spool.Item<Body>, steps: seq<Step>)
    requires Inv(s, w) && TimelySteps(s, w, t, files, steps) && y in files
    requires DoomedFile(s, w, t, y) && NotAfter(y, x) && x.kind.CommandResult?
    requires y in AgentOf(w, p).spool && x in AgentOf(w, p).spool
    ensures x in AgentOf(Run(s, w, steps), p).spool
    decreases |steps|
  {
    if steps != [] {
      BlockedStep(s, w, p, t, files, y, x, steps[0]);
      StepKeeps(s, w, steps[0]);
      BlockedRun(s, Apply(s, w, steps[0]), p, t, files, y, x, steps[1..]);
    }
  }

  // ---------------------------------------------------------------- otherwise it can be delivered

  /** No result up to `x` is doomed. */
  ghost predicate Clear(s: Setup, w: World, p: Principal, t: Time, x: Spool.Item<Body>) {
    forall y {:trigger DoomedFile(s, w, t, y)} :: y in AgentOf(w, p).spool && NotAfter(y, x) ==> !DoomedFile(s, w, t, y)
  }

  lemma OneFilePerCommand(s: Setup, w: World, p: Principal, x: Spool.Item<Body>, y: Spool.Item<Body>)
    requires Inv(s, w) && x in AgentOf(w, p).spool && y in AgentOf(w, p).spool && x.kind.CommandResult?
    requires y.kind.CommandResult?
    ensures x.payload.ResultBody? && y.payload.ResultBody?
    ensures x.payload.commandId == y.payload.commandId ==> x == y
  {
    SpoolFacts(s, w, p, x);
    SpoolFacts(s, w, p, y);
    var files := AgentOf(w, p).spool;
    var i, j :| 0 <= i < |files| && files[i] == x && 0 <= j < |files| && files[j] == y;
    if x.payload.commandId == y.payload.commandId {
      assert i == j;
    }
  }

  /** The oldest result, not doomed, goes when it is drained at the right time; the others are as doomed as before. */
  lemma DrainFirst(s: Setup, w: World, p: Principal, t: Time) returns (step: Step)
    requires Inv(s, w) && Spool.OfKind(AgentOf(w, p).spool, Spool.CommandResult) != []
    requires !DoomedFile(s, w, t, Spool.OfKind(AgentOf(w, p).spool, Spool.CommandResult)[0])
    ensures var results, after := Spool.OfKind(AgentOf(w, p).spool, Spool.CommandResult), Apply(s, w, step);
            && step.DrainResult? && step.p == p && step.now >= t
            && Spool.OfKind(AgentOf(after, p).spool, Spool.CommandResult) == results[1..]
            && results[0] !in AgentOf(after, p).spool
            && (forall y :: y in AgentOf(after, p).spool ==> y in AgentOf(w, p).spool)
            && (forall y :: y in AgentOf(w, p).spool && y != results[0] ==> y in AgentOf(after, p).spool)
            && (forall y {:trigger DoomedFile(s, after, t, y)} :: y in AgentOf(after, p).spool ==>
                  (DoomedFile(s, after, t, y) <==> DoomedFile(s, w, t, y)))
  {
    var files := AgentOf(w, p).spool;
    var first := Spool.OfKind(files, Spool.CommandResult)[0];
    Spool.OfKindMembers(files, Spool.CommandResult, first);
    SpoolFacts(s, w, p, first);
    NotDoomedAccepted(s.digests, w.db, p, first.payload.commandId, first.payload.payload, t);
    step := DrainResult(p, AcceptedAt(s.digests, w.db, first.payload.commandId, first.payload.payload.key, t), false);
    assert AgentInv(s, w, p);
    AckKeeps(s, files, first, false);
    Runner.AckFirst(files, Spool.CommandResult);
    var after := Apply(s, w, step);
    forall y | y in AgentOf(after, p).spool ensures DoomedFile(s, after, t, y) <==> DoomedFile(s, w, t, y) {
      if y.kind.CommandResult? {
        OneFilePerCommand(s, w, p, y, first);
      }
    }
  }

  lemma {:induction false} DeliverInTurn(s: Setup, w: World, p: Principal, t: Time, files: Spool.Files<Body>,
                                         x: Spool.Item<Body>)
    returns (steps: seq<Step>)
    requires Inv(s, w) && Clear(s, w, p, t, x) && x in AgentOf(w, p).spool && x.kind.CommandResult?
    requires forall y, z {:trigger SameCommand(y, z)} :: y in files && z in AgentOf(w, p).spool && SameCommand(y, z) ==>
        y == z
    ensures TimelySteps(s, w, t, files, steps) && x !in AgentOf(Run(s, w, steps), p).spool
    decreases |Spool.OfKind(AgentOf(w, p).spool, Spool.CommandResult)|
  {
    var spool := AgentOf(w, p).spool;
    SpoolFacts(s, w, p, x);
    FirstIsEarliest(spool, Spool.CommandResult, x);
    var first := Spool.OfKind(spool, Spool.CommandResult)[0];
    Spool.OfKindMembers(spool, Spool.CommandResult, first);
    SpoolFacts(s, w, p, first);
    assert !DoomedFile(s, w, t, first);
    var step := DrainFirst(s, w, p, t);
    var after := Apply(s, w, step);
    assert TimelyStep(s, w, t, files, step) by {
      forall y | y in files ensures TimelyFor(s.digests, t, y, OpOf(w, step).value) {
        if y.kind.CommandResult? && y.payload.ResultBody? && y.payload.commandId == first.payload.commandId {
          assert SameCommand(y, first);
        }
      }
    }
    StepKeeps(s, w, step);
    if first == x {
      steps := [step];
      assert steps[1..] == [];
      assert Run(s, w, steps) == Run(s, after, []);
      assert TimelySteps(s, after, t, files, []);
    } else {
      forall y | y in AgentOf(after, p).spool && NotAfter(y, x) ensures !DoomedFile(s, after, t, y) {
        assert !DoomedFile(s, w, t, y);
      }
      var rest := DeliverInTurn(s, after, p, t, files, x);
      steps := [step] + rest;
      assert steps[1..] == rest;
    }
  }

  predicate SameCommand(y: Spool.Item<Body>, z: Spool.Item<Body>) {
    && y.kind.CommandResult? && z.kind.CommandResult? && y.payload.ResultBody? && z.payload.ResultBody?
    && y.payload.commandId == z.payload.commandId
  }

  // ---------------------------------------------------------------- the theorem

  /** In every timely continuation the file is still in the spool. */
  ghost predicate StaysForGood(s: Setup, w: World, p: Principal, t: Time, x: Spool.Item<Body>) {
    forall steps :: TimelySteps(s, w, t, AgentOf(w, p).spool, steps) ==> x in AgentOf(Run(s, w, steps), p).spool
  }

  /**
   A spooled result stays in the spool for good exactly when it, or a result that is drained before it, is
   doomed. So one refused result keeps every later one on disk, however long the agent runs.
   */
  lemma StaysForGoodExactlyWhen(s: Setup, w: World, p: Principal, t: Time, x: Spool.Item<Body>)
    requires Lossless(s.encode) && Reachable(s, w) && x in AgentOf(w, p).spool && x.kind.CommandResult?
    ensures StaysForGood(s, w, p, t, x)
       <==> exists y :: y in AgentOf(w, p).spool && NotAfter(y, x) && DoomedFile(s, w, t, y)
  {
    ReachableInv(s, w);
    var files := AgentOf(w, p).spool;
    if y :| y in files && NotAfter(y, x) && DoomedFile(s, w, t, y) {
      forall steps | TimelySteps(s, w, t, files, steps) ensures x in AgentOf(Run(s, w, steps), p).spool {
        BlockedRun(s, w, p, t, files, y, x, steps);
      }
    } else {
      forall y, z | y in files && z in files && SameCommand(y, z) ensures y == z {
        OneFilePerCommand(s, w, p, y, z);
      }
      var steps := DeliverInTurn(s, w, p, t, files, x);
      assert x !in AgentOf(Run(s, w, steps), p).spool;
    }
  }
}
