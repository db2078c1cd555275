/**
 Several calls of `enroll_device` for one token at the same time
 (`services/enrollment-service/app/enrollment_api.py`): each reserves or resumes, asks the authority, and
 writes down the outcome in a last transaction that does not look whether another call has been faster.
 What the authority answers each call is arbitrary.
 */
module EnrollmentRace {
  import opened Common
  import opened Enrollment
  import EnrollmentLife

  /** The token, its row, and the calls in flight: asking, or with the outcome they are about to write down. */
  datatype Race = Race(token: Token, row: Option<Enrollment>, calls: map<Id, Option<Outcome>>)

  datatype Step =
    | Enter(call: Id, request: Request, now: Time, device: Id, issuance: Id)
    | Answer(call: Id, outcome: Outcome)
    | Finish(call: Id, now: Time)
    | Crash(call: Id)
    | Revoke(now: Time)

  function Entered(s: Race, call: Id, r: Request, now: Time, device: Id, issuance: Id): Race {
    var answer := Reserve(s.token, s.row, r, now);
    if Fresh(answer) then
      Race(s.token.(reservedAt := Some(now)), Some(NewRow(s.token, r, device, issuance)), s.calls[call := None])
    else if answer == Ok(Reservation(true, false)) then s.(calls := s.calls[call := None])
    else s
  }

  function Finished(s: Race, call: Id, now: Time): Race
    requires call in s.calls && s.calls[call].Some? && s.row.Some?
  {
    var a := EnrollmentLife.Finished(EnrollmentLife.Account(s.token, s.row, Some(Done(s.calls[call].value))), now);
    Race(a.token, a.row, s.calls - {call})
  }

  function Apply(s: Race, step: Step): Race {
    match step
    case Enter(call, r, now, device, issuance) =>
      if call in s.calls then s else Entered(s, call, r, now, device, issuance)
    case Answer(call, outcome) =>
      if call in s.calls && s.calls[call].None? then s.(calls := s.calls[call := Some(outcome)]) else s
    case Finish(call, now) =>
      if call in s.calls && s.calls[call].Some? && s.row.Some? then Finished(s, call, now) else s
    case Crash(call) => s.(calls := s.calls - {call})
    case Revoke(now) => s.(token := Withdrawn(s.token, now))
  }

  function Run(s: Race, steps: seq<Step>): Race
    decreases |steps|
  {
    if steps == [] then s else Run(Apply(s, steps[0]), steps[1..])
  }

  /** The token is consumed and its result can be fetched. */
  predicate Complete(s: Race) {
    s.token.consumedAt.Some? && s.row.Some? && ResultOf(s.row.value).Ok?
  }

  /** The call has its certificate, and only has to write it down. */
  predicate Successful(s: Race, call: Id) {
    call in s.calls ==> s.calls[call].Some? && s.calls[call].value.Success?
  }

  ghost predicate AllSuccessful(s: Race) {
    forall call {:trigger Successful(s, call)} :: Successful(s, call)
  }

  lemma SuccessfulStays(s: Race, step: Step)
    requires Complete(s) && AllSuccessful(s)
    ensures Complete(Apply(s, step)) && AllSuccessful(Apply(s, step)) && Apply(s, step).row == s.row
  {
    var after := Apply(s, step);
    forall call ensures Successful(after, call) {
      assert Successful(s, call);
    }
    if step.Finish? {
      assert Successful(s, step.call);
    }
  }

  lemma {:induction false} SuccessfulRun(s: Race, steps: seq<Step>)
    requires Complete(s) && AllSuccessful(s)
    ensures Complete(Run(s, steps)) && Run(s, steps).row == s.row
    decreases |steps|
  {
    if steps != [] {
      SuccessfulStays(s, steps[0]);
      SuccessfulRun(Apply(s, steps[0]), steps[1..]);
    }
  }

  ghost predicate CompleteForGood(s: Race) {
    forall steps :: Complete(Run(s, steps))
  }

  lemma {:induction false} UndoneByFailure(s: Race, call: Id) returns (steps: seq<Step>)
    requires Complete(s) && !Successful(s, call)
    ensures !Complete(Run(s, steps))
  {
    if s.calls[call].None? {
      steps := [Answer(call, Failure(PkiUnavailable)), Finish(call, 0)];
      assert steps[1..] == [Finish(call, 0)] && steps[1..][1..] == [];
      var answered := Apply(s, steps[0]);
      assert Run(s, steps) == Run(answered, [Finish(call, 0)]) == Run(Apply(answered, Finish(call, 0)), []);
    } else {
      steps := [Finish(call, 0)];
      assert steps[1..] == [];
      assert Run(s, steps) == Run(Apply(s, steps[0]), []);
    }
  }

  /**
   A completed enrollment stays complete whatever happens exactly when every other call for the token
   that is still in flight has its certificate already. So it does when calls are serialised; and a call
   that still asks, or has failed, may mark the enrollment pending again.
   */
  lemma CompleteForGoodExactlyWhen(s: Race)
    requires Complete(s)
    ensures CompleteForGood(s) <==> AllSuccessful(s)
  {
    if AllSuccessful(s) {
      forall steps ensures Complete(Run(s, steps)) {
        SuccessfulRun(s, steps);
      }
    } else {
      var call :| !Successful(s, call);
      var steps := UndoneByFailure(s, call);
      assert !Complete(Run(s, steps));
    }
  }

  /** Consumed, not complete, and nobody left to complete it. */
  predicate Stuck(s: Race) {
    s.token.consumedAt.Some? && s.row.Some? && !Complete(s) && s.calls == map[]
  }

  /** Then no request, no matter how often it is repeated, ever gets the result: a consumed token opens no new call. */
  lemma {:induction false} StuckForGood(s: Race, steps: seq<Step>)
    requires Stuck(s)
    ensures Stuck(Run(s, steps)) && Run(s, steps).row == s.row
    decreases |steps|
  {
    if steps != [] {
      var next := Apply(s, steps[0]);
      assert next.calls == map[];
      StuckForGood(next, steps[1..]);
    }
  }

  /** A token as created or after a release: it can be reserved now. */
  predicate Available(s: Race, r: Request, now: Time) {
    s.calls == map[] && Fresh(Reserve(s.token, s.row, r, now)) && s.token.consumedAt.None?
  }

  /** The second call resumes what the first has reserved. */
  lemma BothEnter(s: Race, r: Request, now: Time, device: Id, issuance: Id) returns (both: Race)
    requires Available(s, r, now)
    ensures both == Run(s, [Enter("first", r, now, device, issuance), Enter("second", r, now, device, issuance)])
    ensures both.calls == map["first" := None, "second" := None]
    ensures both.token.consumedAt.None? && both.row == Some(NewRow(s.token, r, device, issuance))
  {
    var enter := [Enter("first", r, now, device, issuance), Enter("second", r, now, device, issuance)];
    var first := Apply(s, enter[0]);
    both := Apply(first, enter[1]);
    assert enter[1..] == [enter[1]] && enter[1..][1..] == [];
    assert Run(first, enter[1..]) == Run(both, []);
  }

  /** One gets its certificate and completes the enrollment; the other gives up and marks it pending again. */
  lemma OneUndoesTheOther(s: Race, now: Time, c: Issued)
    requires s.calls == map["first" := None, "second" := None]
    requires s.token.consumedAt.None? && s.row.Some?
    ensures Stuck(Run(Run(s, [Answer("first", Success(c)), Finish("first", now)]),
                      [Answer("second", Failure(PkiUnavailable)), Finish("second", now)]))
  {
    var done := AnsweredAndFinished(s, "first", Success(c), now);
    assert done.calls == map["second" := None] && Complete(done);
    var undone := AnsweredAndFinished(done, "second", Failure(PkiUnavailable), now);
    assert undone.calls == map[];
  }

  lemma AnsweredAndFinished(s: Race, call: Id, outcome: Outcome, now: Time) returns (after: Race)
    requires call in s.calls && s.calls[call].None? && s.row.Some?
    ensures after == Run(s, [Answer(call, outcome), Finish(call, now)])
    ensures after == Finished(s.(calls := s.calls[call := Some(outcome)]), call, now)
  {
    var steps := [Answer(call, outcome), Finish(call, now)];
    var answered := Apply(s, steps[0]);
    assert steps[1..] == [steps[1]] && steps[1..][1..] == [];
    after := Apply(answered, steps[1]);
    assert Run(answered, steps[1..]) == Run(after, []);
  }

  lemma {:induction false} RunsOn(s: Race, steps: seq<Step>, more: seq<Step>)
    ensures Run(s, steps + more) == Run(Run(s, steps), more)
    decreases |steps|
  {
    if steps == [] {
      assert steps + more == more;
    } else {
      assert (steps + more)[1..] == steps[1..] + more;
      RunsOn(Apply(s, steps[0]), steps[1..], more);
    }
  }

  function TwoCalls(r: Request, now: Time, device: Id, issuance: Id, c: Issued): seq<Step> {
    [Enter("first", r, now, device, issuance), Enter("second", r, now, device, issuance)]
    + [Answer("first", Success(c)), Finish("first", now)]
    + [Answer("second", Failure(PkiUnavailable)), Finish("second", now)]
  }

  /**
   Every available token gets stuck in a run of two calls with one request: the slower one does not reach the
   authority.
   */
  lemma TwoCallsGetStuck(s: Race, r: Request, now: Time, device: Id, issuance: Id, c: Issued)
    requires Available(s, r, now)
    ensures Stuck(Run(s, TwoCalls(r, now, device, issuance, c)))
  {
    var enter := [Enter("first", r, now, device, issuance), Enter("second", r, now, device, issuance)];
    var one := [Answer("first", Success(c)), Finish("first", now)];
    var other := [Answer("second", Failure(PkiUnavailable)), Finish("second", now)];
    var both := BothEnter(s, r, now, device, issuance);
    OneUndoesTheOther(both, now, c);
    RunsOn(s, enter, one);
    RunsOn(s, enter + one, other);
  }
}
