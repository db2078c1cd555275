/**
 The agent's loops as written (`commands` and `drain` in `agents/windows-agent/internal/runner/runner.go`),
 run against the command service and the spool. Each call is shown to be a run of the protocol,
 so everything proved of the protocol holds of them. What the outside decides (clocks, replies
 that do not arrive, how an execution ends, failing file operations) is drawn arbitrarily.
 */
module Runner {
  import opened Common
  import opened Commands
  import opened AgentProtocol
  import CommandLife
  import Spool

  lemma {:induction false} RunAppend(s: Setup, w: World, steps: seq<Step>, step: Step)
    ensures Run(s, w, steps + [step]) == Apply(s, Run(s, w, steps), step)
    decreases |steps|
  {
    if steps == [] {
      assert Run(s, Apply(s, w, step), []) == Apply(s, w, step);
      assert steps + [step] == [step];
    } else {
      assert (steps + [step])[1..] == steps[1..] + [step];
      RunAppend(s, Apply(s, w, steps[0]), steps[1..], step);
    }
  }

  lemma ReachableStep(s: Setup, w: World, step: Step)
    requires Reachable(s, w)
    ensures Reachable(s, Apply(s, w, step))
  {
    var steps :| w == Run(s, INITIAL, steps);
    RunAppend(s, INITIAL, steps, step);
  }

  /** Acknowledging the first file of its kind leaves the others of that kind in order, and all of the other kind. */
  lemma {:induction false} AckFirst(files: Spool.Files<Body>, kind: Spool.Kind)
    requires Spool.OneFileEach(files) && Spool.OfKind(files, kind) != []
    ensures var after := Spool.AfterAck(files, kind, Spool.OfKind(files, kind)[0].id, false);
            && Spool.OfKind(after, kind) == Spool.OfKind(files, kind)[1..]
            && (forall other :: other != kind ==> Spool.OfKind(after, other) == Spool.OfKind(files, other))
    decreases |files|
  {
    var first := Spool.OfKind(files, kind)[0];
    if files[0].kind == kind {
      assert Spool.Find(files, kind, first.id) == 0;
      assert Spool.RemoveAt(files, 0) == files[1..];
    } else {
      AckFirst(files[1..], kind);
      Spool.OfKindMembers(files[1..], kind, first);
      var at := Spool.Find(files[1..], kind, first.id);
      assert Spool.Find(files, kind, first.id) == at + 1;
      assert Spool.RemoveAt(files, at + 1) == [files[0]] + Spool.RemoveAt(files[1..], at);
    }
  }

  /** The items of a hand-out that are not over, in order. */
  function Runnable(items: seq<Acquired>, clock: Time): seq<string>
    decreases |items|
  {
    if items == [] then []
    else
      var before, last := Runnable(items[..|items| - 1], clock), items[|items| - 1];
      if Over(last, clock) then before else before + [last.commandId]
  }

  lemma RunnableGrows(items: seq<Acquired>, clock: Time, i: nat)
    requires i < |items|
    ensures items[i..][0] == items[i] && items[i..][1..] == items[i + 1..]
    ensures Runnable(items[..i + 1], clock)
         == Runnable(items[..i], clock) + if Over(items[i], clock) then [] else [items[i].commandId]
  {
    assert items[..i + 1][..i] == items[..i];
  }

  /** What becomes of one request: whether and when it is served, and whether its answer arrives. */
  datatype Exchange = Exchange(served: bool, arrives: bool, now: Time)

  class Agent {
    const setup: Setup
    const p: Principal
    const service: CommandStore
    const queue: Spool.Queue<Body>
    ghost var world: World
    ghost var faults: nat  // requests unserved or refused, replies lost, file operations failed

    constructor (setup: Setup, p: Principal, service: CommandStore, queue: Spool.Queue<Body>, ghost world: World)
      ensures this.setup == setup && this.p == p && this.service == service && this.queue == queue
      ensures this.world == world
    {
      this.setup, this.p, this.service, this.queue, this.world, faults := setup, p, service, queue, world, 0;
    }

    /** The objects are the state of a protocol run, and this agent is as `todo` and `finished` say. */
    ghost predicate At(todo: seq<Acquired>, finished: Option<Body>)
      reads this, service, queue
    {
      && service.digests == setup.digests && queue.limits == setup.limits && queue.encode == setup.encode
      && Lossless(setup.encode) && Reachable(setup, world)
      && world.db == service.Contents()
      && AgentOf(world, p) == AgentProtocol.Agent(todo, finished, queue.files)
    }

    /** Records in the run what the objects have just done. */
    ghost method Advance(step: Step)
      requires Reachable(setup, world)
      modifies this`world
      ensures world == Apply(setup, old(world), step) && Reachable(setup, world)
    {
      ReachableStep(setup, world, step);
      world := Apply(setup, world, step);
    }

    /** One transaction of any client of the service. */
    method Serve(op: CommandLife.Op)
      modifies service
      ensures service.Contents() == CommandLife.Apply(service.digests, old(service.Contents()), op)
    {
      match op
      case DoCreate(tenantId, actor, request, now, id) =>
        var _ := service.CreateCommand(tenantId, actor, request, now, id);
      case DoAcquire(q, now, limit, picks) =>
        if GoodPicks(service.Contents(), q, now, limit, picks) {
          var _ := service.AcquireCommands(q, now, limit, picks);
        }
      case DoRunning(q, id, token, now) =>
        var _ := service.MarkCommandRunning(q, id, token, now);
      case DoSubmit(q, id, payload, now) =>
        var _ := service.SubmitResult(q, id, payload, now);
      case DoCancel(id, now) =>
        var _ := service.CancelCommand(id, now);
    }

    /** Before a request of this agent is served, others may have had any number of theirs served. */
    method Others(ghost todo: seq<Acquired>, ghost finished: Option<Body>)
      requires At(todo, finished)
      modifies this`world, service
      ensures At(todo, finished) && world.executed == old(world.executed) && world.kept == old(world.kept)
    {
      var ops: seq<CommandLife.Op> := *;
      for i := 0 to |ops|
        invariant At(todo, finished) && world.executed == old(world.executed) && world.kept == old(world.kept)
      {
        Serve(ops[i]);
        Advance(Server(ops[i]));
      }
    }

    /** One `running` request; `ok` when the answer is success and arrives. On failure the cycle ends. */
    method StartAndExecute(items: seq<Acquired>, clock: Time, call: Exchange, outcome: Outcome)
      returns (ok: bool, body: Body)
      requires items != [] && !Over(items[0], clock) && At(items, None)
      modifies this, service
      ensures ok ==> At(items[1..], Some(body)) && body.ResultBody? && body.commandId == items[0].commandId
      ensures !ok ==> At([], None)
      ensures world.executed == if ok then old(world.executed) + [items[0].commandId] else old(world.executed)
      ensures var (db, reply) := MarkRunning(setup.digests, old(service.Contents()), p, items[0].commandId,
                                             items[0].token, call.now);
              && (ok <==> call.served && reply.Ok? && call.arrives)
              && service.Contents() == if call.served then db else old(service.Contents())
      ensures body == ResultOf(items[0], outcome) && faults == old(faults) + if ok then 0 else 1
    {
      var item := items[0];
      body := ResultOf(item, outcome);
      ok := false;
      if call.served {
        var reply := service.MarkCommandRunning(p, item.commandId, item.token, call.now);
        if reply.Ok? && call.arrives {
          Advance(Execute(p, clock, call.now, outcome));
          return true, body;
        }
        Advance(Server(CommandLife.DoRunning(p, item.commandId, item.token, call.now)));
      }
      Advance(StartFails(p));
      faults := faults + 1;
    }

    /** Submit, and on any failure put the result into the spool: afterwards it is on record or on disk. */
    method SubmitOrSpool(todo: seq<Acquired>, body: Body, call: Exchange, clock: Time, storage: Spool.Faults)
      returns (ok: bool)
      requires At(todo, Some(body)) && body.ResultBody?
      modifies this, service, queue
      ensures At(if ok then todo else [], None)
      ensures ok ==> RecordedAs(setup.digests, world.db, body) || (p, body) in world.kept
      ensures world.executed == old(world.executed)
      ensures var (db, reply) :=
          Submit(setup.digests, old(service.Contents()), p, body.commandId, body.payload, call.now);
              && service.Contents() == (if call.served then db else old(service.Contents()))
              && if call.served && reply.Ok? && call.arrives then
                   ok && queue.files == old(queue.files) && faults == old(faults)
                 else
                   && queue.files == Stored(old(queue.files), body, clock, storage).0
                   && (ok <==> Stored(old(queue.files), body, clock, storage).1.None?) && faults == old(faults) + 1
    {
      if call.served {
        ReachableInv(setup, world);
        SubmitRecords(setup.digests, world.db, p, body, call.now);
        var reply := service.SubmitResult(p, body.commandId, body.payload, call.now);
        if reply.Ok? && call.arrives {
          Advance(SubmitSucceeds(p, call.now));
          return true;
        }
        Advance(Server(CommandLife.DoSubmit(p, body.commandId, body.payload, call.now)));
      }
      faults := faults + 1;
      ok := KeepOnDisk(todo, body, clock, storage);
    }

    /** What storing the result leaves of the directory, and the error. */
    function Stored(files: Spool.Files<Body>, body: Body, clock: Time, storage: Spool.Faults)
      : (Spool.Files<Body>, Option<Spool.EnqueueError>)
      reads this
      requires body.ResultBody?
    {
      Spool.AfterEnqueue(setup.limits, setup.encode, files, ResultItem(body), true, clock, storage)
    }

    /** The submission failed: the result goes into the spool. */
    method KeepOnDisk(todo: seq<Acquired>, body: Body, clock: Time, storage: Spool.Faults) returns (ok: bool)
      requires At(todo, Some(body)) && body.ResultBody?
      modifies this`world, queue
      ensures At(if ok then todo else [], None)
      ensures ok ==> (p, body) in world.kept
      ensures world.executed == old(world.executed)
      ensures queue.files == Stored(old(queue.files), body, clock, storage).0
      ensures ok <==> Stored(old(queue.files), body, clock, storage).1.None?
    {
      var error := queue.Enqueue(ResultItem(body), true, clock, storage);
      Advance(SubmitFails(p, clock, storage));
      return error.None?;
    }

    /** The acquire request; what it hands out is the agent's to do if the answer arrives. */
    method AcquireItems(now: Time, limit: int, picks: Picks, arrives: bool) returns (items: seq<Acquired>)
      requires At([], None) && GoodPicks(service.Contents(), p, now, limit, picks)
      modifies this, service
      ensures At(if arrives then items else [], None)
      ensures items == Acquire(setup.digests, old(world.db), p, now, limit, picks).1
      ensures world.executed == old(world.executed)
      ensures service.Contents() == Acquire(setup.digests, old(world.db), p, now, limit, picks).0
      ensures faults == old(faults) + if arrives then 0 else 1
    {
      items := service.AcquireCommands(p, now, limit, picks);
      if arrives {
        Advance(Poll(p, now, limit, picks));
      } else {
        Advance(Server(CommandLife.DoAcquire(p, now, limit, picks)));
        faults := faults + 1;
      }
    }

    /** One round of the loop: skip what is over, otherwise start, execute and hand in; false ends the cycle. */
    method HandleFirst(items: seq<Acquired>, clock: Time) returns (ok: bool)
      requires items != [] && At(items, None)
      modifies this, service, queue
      ensures At(if ok then items[1..] else [], None)
      ensures ok ==> world.executed == old(world.executed) + if Over(items[0], clock) then [] else [items[0].commandId]
      ensures faults >= old(faults) && (ok || faults > old(faults))
    {
      if Over(items[0], clock) {
        Advance(Skip(p, clock));
        return true;
      }
      Others(items, None);
      var call: Exchange, outcome: Outcome := *, *;
      var started, body := StartAndExecute(items, clock, call, outcome);
      if !started {
        return false;
      }
      Others(items[1..], Some(body));
      var last: Exchange, now: Time, storage: Spool.Faults := *, *, *;
      ok := SubmitOrSpool(items[1..], body, last, now, storage);
    }

    /** The loop: unless something fails, exactly the items that are not over are executed, in order. */
    method HandleAll(items: seq<Acquired>, clock: Time) returns (ok: bool)
      requires At(items, None)
      modifies this, service, queue
      ensures At([], None)
      ensures ok ==> (world.executed == old(world.executed) + Runnable(items, clock))
      ensures faults >= old(faults) && (ok || faults > old(faults))
    {
      ghost var before := world.executed;
      for i := 0 to |items|
        invariant At(items[i..], None)
        invariant world.executed == before + Runnable(items[..i], clock)
        invariant faults >= old(faults)
      {
        RunnableGrows(items, clock, i);
        ok := HandleFirst(items[i..], clock);
        if !ok {
          return false;
        }
      }
      assert items[..|items|] == items;
      return true;
    }

    method Commands(now: Time, limit: int, picks: Picks, clock: Time) returns (ok: bool)
      requires At([], None) && GoodPicks(service.Contents(), p, now, limit, picks)
      modifies this, service, queue
      ensures At([], None)
      ensures ok ==> (world.executed
                      == old(world.executed) +
                         Runnable(Acquire(setup.digests, old(world.db), p, now, limit, picks).1, clock))
      ensures faults >= old(faults) && (ok || faults > old(faults))
    {
      var arrives: bool := *;
      var items := AcquireItems(now, limit, picks, arrives);
      if !arrives {
        return false;
      }
      ok := HandleAll(items, clock);
    }

    /** The oldest spooled result: submitted, and its file removed once the server has answered with success. */
    method DrainOneResult(item: Spool.Item<Body>, call: Exchange, ackFails: bool) returns (ok: bool)
      requires At([], None) && Spool.OfKind(queue.files, Spool.CommandResult) != []
      requires item == Spool.OfKind(queue.files, Spool.CommandResult)[0]
      modifies this, service, queue
      ensures At([], None)
      ensures ok ==>
                Spool.OfKind(queue.files, Spool.CommandResult)
                == Spool.OfKind(old(queue.files), Spool.CommandResult)[1..]
      ensures ok ==> Spool.OfKind(queue.files, Spool.Telemetry) == Spool.OfKind(old(queue.files), Spool.Telemetry)
      ensures !ok ==> queue.files == old(queue.files)
      ensures faults == old(faults) + if ok then 0 else 1
      ensures item.payload.ResultBody?
      ensures var (db, reply) := Submit(setup.digests, old(service.Contents()), p, item.payload.commandId,
                                        item.payload.payload, call.now);
              && (ok <==> call.served && reply.Ok? && call.arrives && !ackFails)
              && service.Contents() == if call.served then db else old(service.Contents())
    {
      FirstIsAResult(item);
      if !call.served {
        faults := faults + 1;
        return false;
      }
      var reply := service.SubmitResult(p, item.payload.commandId, item.payload.payload, call.now);
      if reply.Err? || !call.arrives {
        Advance(Server(CommandLife.DoSubmit(p, item.payload.commandId, item.payload.payload, call.now)));
        faults := faults + 1;
        return false;
      }
      RemoveFirst(item, call.now, ackFails);
      faults := faults + if ackFails then 1 else 0;
      return !ackFails;
    }

    /** The service has accepted the result: its file goes, unless the removal fails. */
    method RemoveFirst(item: Spool.Item<Body>, ghost now: Time, ackFails: bool)
      requires Before(now, item)
      modifies this`world, queue
      ensures At([], None)
      ensures !ackFails ==>
                && Spool.OfKind(queue.files, Spool.CommandResult)
                   == Spool.OfKind(old(queue.files), Spool.CommandResult)[1..]
                && Spool.OfKind(queue.files, Spool.Telemetry) == Spool.OfKind(old(queue.files), Spool.Telemetry)
      ensures ackFails ==> queue.files == old(queue.files)
    {
      AckFirst(queue.files, Spool.CommandResult);
      queue.Ack(Spool.CommandResult, item.id, ackFails);
      Advance(DrainResult(p, now, ackFails));
    }

    /** The service has just accepted the first spooled result; the run has yet to record it. */
    ghost predicate Before(now: Time, item: Spool.Item<Body>)
      reads this, service, queue
    {
      && service.digests == setup.digests && queue.limits == setup.limits && queue.encode == setup.encode
      && Lossless(setup.encode) && Reachable(setup, world)
      && AgentOf(world, p) == AgentProtocol.Agent([], None, queue.files)
      && Spool.OneFileEach(queue.files)
      && Spool.OfKind(queue.files, Spool.CommandResult) != []
      && item == Spool.OfKind(queue.files, Spool.CommandResult)[0] && item.payload.ResultBody?
      && var (db, reply) := Submit(setup.digests, world.db, p, item.payload.commandId, item.payload.payload, now);
         db == service.Contents() && reply.Ok?
    }

    method DrainOneTelemetry(item: Spool.Item<Body>, sent: bool, ackFails: bool) returns (ok: bool)
      requires At([], None) && Spool.OfKind(queue.files, Spool.CommandResult) == []
      requires Spool.OfKind(queue.files, Spool.Telemetry) != [] && item == Spool.OfKind(queue.files, Spool.Telemetry)[0]
      modifies this, queue
      ensures At([], None)
      ensures ok ==> Spool.OfKind(queue.files, Spool.CommandResult) == []
      ensures ok ==> Spool.OfKind(queue.files, Spool.Telemetry) == Spool.OfKind(old(queue.files), Spool.Telemetry)[1..]
      ensures !ok ==> queue.files == old(queue.files)
      ensures (ok <==> sent && !ackFails) && faults == old(faults) + if ok then 0 else 1
    {
      SpoolIsValid();
      if !sent {
        faults := faults + 1;
        return false;
      }
      AckFirst(queue.files, Spool.Telemetry);
      queue.Ack(Spool.Telemetry, item.id, ackFails);
      Advance(DrainTelemetry(p, ackFails));
      faults := faults + if ackFails then 1 else 0;
      return !ackFails;
    }

    lemma SpoolIsValid()
      requires At([], None)
      ensures Spool.OneFileEach(queue.files) && forall i :: 0 <= i < |queue.files| ==> ResultFile(queue.files[i])
    {
      ReachableInv(setup, world);
      assert AgentInv(setup, world, p);
    }

    lemma FirstIsAResult(item: Spool.Item<Body>)
      requires At([], None) && Spool.OfKind(queue.files, Spool.CommandResult) != []
      requires item == Spool.OfKind(queue.files, Spool.CommandResult)[0]
      ensures Spool.OneFileEach(queue.files) && item.payload.ResultBody?
    {
      SpoolIsValid();
      Spool.OfKindMembers(queue.files, Spool.CommandResult, item);
      var n :| 0 <= n < |queue.files| && queue.files[n] == item;
      assert ResultFile(queue.files[n]);
    }

    /** Sends what the spool holds, results first, and stops at the first failure. */
    method Drain() returns (ok: bool)
      requires At([], None)
      modifies this, service, queue
      ensures At([], None)
      ensures ok ==>
                Spool.OfKind(queue.files, Spool.CommandResult) == [] && Spool.OfKind(queue.files, Spool.Telemetry) == []
      ensures faults >= old(faults) && (ok <==> faults == old(faults))
    {
      var results := Spool.OfKind(queue.files, Spool.CommandResult);
      var telemetry := Spool.OfKind(queue.files, Spool.Telemetry);
      var items := results + telemetry;
      for i := 0 to |items|
        invariant At([], None)
        invariant Spool.OfKind(queue.files, Spool.CommandResult) == Drop(results, i)
        invariant Spool.OfKind(queue.files, Spool.Telemetry) == Drop(telemetry, i - |results|)
        invariant faults == old(faults)
      {
        Others([], None);
        if i < |results| {
          DropNext(results, i);
          assert Drop(telemetry, i - |results|) == Drop(telemetry, i + 1 - |results|);
          var call: Exchange, ackFails: bool := *, *;
          ok := DrainOneResult(items[i], call, ackFails);
        } else {
          DropNext(telemetry, i - |results|);
          assert Drop(results, i) == [] == Drop(results, i + 1);
          var sent: bool, ackFails: bool := *, *;
          ok := DrainOneTelemetry(items[i], sent, ackFails);
        }
        if !ok {
          return false;
        }
      }
      return true;
    }
  }

  /** What is left of `s` after `n` steps. */
  function Drop<T>(s: seq<T>, n: int): seq<T> {
    if n <= 0 then s else if n >= |s| then [] else s[n..]
  }

  lemma DropNext<T>(s: seq<T>, n: nat)
    requires n < |s|
    ensures Drop(s, n) != [] && Drop(s, n)[0] == s[n] && Drop(s, n)[1..] == Drop(s, n + 1)
  {
  }
}
