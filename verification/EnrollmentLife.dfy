/**
 Enrollment end to end: the token tables, calls of `enroll_device` (at most one at a time for a token)
 that may die between any two transactions, requests to the certificate authority that are lost, answered
 or handled long after the caller gave up, and everything else the authority does meanwhile.
 */
module EnrollmentLife {
  import opened Common
  import opened Text
  import opened Enrollment
  import Pki

  /** A token with its row (the token id is unique among the rows) and the call in progress. */
  datatype Account = Account(token: Token, row: Option<Enrollment>, call: Option<Phase>)

  /** `sent` holds every body ever sent to the authority, `owner` the token each issuance id was drawn for. */
  datatype System = System(accounts: map<Id, Account>, sent: set<Pki.Body>, owner: map<Id, Id>, certs: Pki.Table)

  const START := System(map[], {}, map[], [])

  datatype Step =
    | CreateToken(t: Id, tenant: Id, asset: Id, expiresAt: Time)
    | RevokeToken(t: Id, now: Time)
    | Begin(t: Id, request: Request, now: Time, device: Id, issuance: Id)
    | AttemptLost(t: Id)
    | AttemptAnswered(t: Id, ca: Pki.Authority, draw: Pki.Draw)
    | HandledLate(b: Pki.Body, ca: Pki.Authority, draw: Pki.Draw)
    | Finish(t: Id, now: Time)
    | Crash(t: Id)
    | Elsewhere(op: Pki.Op)

  function Put(s: System, t: Id, a: Account): System {
    s.(accounts := s.accounts[t := a])
  }

  /** The reservation of a fresh attempt, with a new issuance id. */
  function Reserved(cfg: Config, s: System, t: Id, r: Request, now: Time, device: Id, issuance: Id): System
    requires t in s.accounts
  {
    var a := s.accounts[t];
    var reserved := Account(a.token.(reservedAt := Some(now)), Some(NewRow(a.token, r, device, issuance)),
                            Some(Calling(Max(1, cfg.attempts))));
    s.(accounts := s.accounts[t := reserved], owner := s.owner[issuance := t])
  }

  function Begun(cfg: Config, s: System, t: Id, r: Request, now: Time, device: Id, issuance: Id): System
    requires t in s.accounts
  {
    var a := s.accounts[t];
    var answer := Reserve(a.token, a.row, r, now);
    if Fresh(answer) then
      (if issuance in s.owner || !Unissued(s.certs, issuance) then s else Reserved(cfg, s, t, r, now, device, issuance))
    else if answer == Ok(Reservation(true, false)) then Put(s, t, a.(call := Some(Calling(Max(1, cfg.attempts)))))
    else s
  }

  /** A row with a call that still asks. */
  predicate Asking(s: System, t: Id) {
    t in s.accounts && s.accounts[t].row.Some? && s.accounts[t].call.Some? && s.accounts[t].call.value.Calling?
  }

  function Attempted(cfg: Config, s: System, t: Id, reply: Reply, certs: Pki.Table): System
    requires Asking(s, t)
  {
    var a := s.accounts[t];
    var b := BodyOf(cfg, a.row.value);
    System(s.accounts[t := a.(call := Some(NextPhase(b, a.call.value.left, reply)))], s.sent + {b}, s.owner, certs)
  }

  function Finished(a: Account, now: Time): Account
    requires a.row.Some? && a.call.Some? && a.call.value.Done?
  {
    match a.call.value.outcome
    case Success(c) =>
      Account(CompletedToken(a.token, a.row.value, now), Some(CompletedRow(a.token, a.row.value, c, now)), None)
    case Failure(code) => Account(FailedToken(a.token, a.row.value, code), Some(FailedRow(a.row.value, code)), None)
  }

  /** The authority's other work never names an issuance id of an enrollment: those need our grant. */
  predicate Unrelated(s: System, op: Pki.Op) {
    match op
    case IssueOp(b, _, _, _) => b.issuance !in s.owner
    case RotateOp(_, b, _, _, _) => b.issuance !in s.owner
    case RevokeOp(_, _, _, _) => true
  }

  function Apply(cfg: Config, s: System, step: Step): System {
    match step
    case CreateToken(t, tenant, asset, expiresAt) =>
      if t in s.accounts then s
      else Put(s, t, Account(Token(tenant, asset, expiresAt, None, None, None, None), None, None))
    case RevokeToken(t, now) =>
      if t !in s.accounts then s else Put(s, t, s.accounts[t].(token := Withdrawn(s.accounts[t].token, now)))
    case Begin(t, r, now, device, issuance) =>
      if t !in s.accounts || s.accounts[t].call.Some? then s else Begun(cfg, s, t, r, now, device, issuance)
    case AttemptLost(t) =>
      if Asking(s, t) then Attempted(cfg, s, t, NoReply, s.certs) else s
    case AttemptAnswered(t, ca, draw) =>
      if Asking(s, t) then
        var (r, certs) := Asked(s.certs, BodyOf(cfg, s.accounts[t].row.value), ca, draw);
        Attempted(cfg, s, t, ReplyOf(r), certs)
      else s
    case HandledLate(b, ca, draw) =>
      if b in s.sent then s.(certs := Asked(s.certs, b, ca, draw).1) else s
    case Finish(t, now) =>
      if t in s.accounts && s.accounts[t].row.Some? && s.accounts[t].call.Some? && s.accounts[t].call.value.Done?
      then Put(s, t, Finished(s.accounts[t], now)) else s
    case Crash(t) =>
      if t in s.accounts then Put(s, t, s.accounts[t].(call := None)) else s
    case Elsewhere(op) =>
      if Unrelated(s, op) then s.(certs := Pki.Apply(s.certs, op)) else s
  }

  function Run(cfg: Config, s: System, steps: seq<Step>): System
    decreases |steps|
  {
    if steps == [] then s else Run(cfg, Apply(cfg, s, steps[0]), steps[1..])
  }

  // ---------------------------------------------------------------- the invariant

  predicate RecordedAt(certs: Pki.Table, i: nat, c: Issued) {
    i < |certs| && IssuedOf(certs[i]) == c
  }

  /** `c` is what the authority's table says, and it is for this row. */
  ghost predicate Recorded(certs: Pki.Table, row: Enrollment, c: Issued) {
    && c.issuance == row.issuance && c.tenant == row.tenant && c.asset == row.asset && c.device == row.device
    && exists i :: RecordedAt(certs, i, c)
  }

  predicate TokenMatchesRow(a: Account) {
    && (a.token.consumedAt.Some? <==> a.row.Some? && a.row.value.status.Enrolled?)
    && (a.token.reservedAt.Some? <==> a.row.Some? && (a.row.value.status.Pending? || a.row.value.status.Enrolled?))
  }

  ghost predicate RowOk(cfg: Config, owner: map<Id, Id>, certs: Pki.Table, t: Id, token: Token, row: Enrollment) {
    && row.issuance in owner && owner[row.issuance] == t
    && row.tenant == token.tenant && row.asset == token.asset
    && !row.status.CertificateIssued?
    && (row.certificate.Some? <==> row.status.Enrolled?)
    && (row.certificate.Some? ==> Recorded(certs, row, row.certificate.value))
    && (row.status.Failed? ==> Hopeless(BodyOf(cfg, row)))
    && (Hopeless(BodyOf(cfg, row)) ==> Unissued(certs, row.issuance))
  }

  ghost predicate CallOk(cfg: Config, certs: Pki.Table, row: Enrollment, call: Phase) {
    && row.status.Pending?
    && (call.Done? && call.outcome.Success? ==> Recorded(certs, row, call.outcome.certificate))
    && (call.Done? && call.outcome == Failure(PkiRejected) ==> Hopeless(BodyOf(cfg, row)))
  }

  ghost predicate AccountOk(cfg: Config, owner: map<Id, Id>, certs: Pki.Table, t: Id, a: Account) {
    && TokenMatchesRow(a)
    && (a.row.Some? ==> RowOk(cfg, owner, certs, t, a.token, a.row.value))
    && (a.call.Some? ==> a.row.Some? && CallOk(cfg, certs, a.row.value, a.call.value))
  }

  /** The row of the token an issuance id was drawn for. */
  predicate Owned(s: System, issuance: Id) {
    issuance in s.owner && s.owner[issuance] in s.accounts && s.accounts[s.owner[issuance]].row.Some?
  }

  function OwnerRow(s: System, issuance: Id): Enrollment
    requires Owned(s, issuance)
  {
    s.accounts[s.owner[issuance]].row.value
  }

  /** A body of the present attempt is the row's; a body of an abandoned attempt is turned down for ever. */
  predicate SentOk(cfg: Config, s: System, b: Pki.Body) {
    && Owned(s, b.issuance)
    && if OwnerRow(s, b.issuance).issuance == b.issuance then b == BodyOf(cfg, OwnerRow(s, b.issuance)) else Hopeless(b)
  }

  /** A certificate of an enrollment is of the present attempt. */
  predicate CertOk(s: System, i: nat)
    requires i < |s.certs|
  {
    s.certs[i].issuance in s.owner ==>
      Owned(s, s.certs[i].issuance) && OwnerRow(s, s.certs[i].issuance).issuance == s.certs[i].issuance
  }

  predicate OwnerOk(s: System, issuance: Id) {
    issuance in s.owner ==> Owned(s, issuance)
  }

  ghost predicate Inv(cfg: Config, s: System) {
    && Pki.Inv(s.certs)
    && (forall t {:trigger AccountOk(cfg, s.owner, s.certs, t, s.accounts[t])} :: t in s.accounts ==>
          AccountOk(cfg, s.owner, s.certs, t, s.accounts[t]))
    && (forall b {:trigger SentOk(cfg, s, b)} :: b in s.sent ==> SentOk(cfg, s, b))
    && (forall i {:trigger CertOk(s, i)} :: 0 <= i < |s.certs| ==> CertOk(s, i))
    && (forall x {:trigger OwnerOk(s, x)} :: OwnerOk(s, x))
  }

  // ---------------------------------------------------------------- the authority's table grows

  lemma RecordedStays(certs: Pki.Table, after: Pki.Table, row: Enrollment, c: Issued)
    requires Recorded(certs, row, c) && Pki.Kept(certs, after)
    ensures Recorded(after, row, c)
  {
    var i: nat :| RecordedAt(certs, i, c);
    assert Pki.KeptAt(certs, after, i);
    assert RecordedAt(after, i, c);
  }

  /** The issuance ids of the rows that `after` adds. */
  predicate AddsOnly(certs: Pki.Table, after: Pki.Table, issuance: Id) {
    |certs| <= |after| && forall i {:trigger after[i]} :: |certs| <= i < |after| ==> after[i].issuance == issuance
  }

  /** A row may be added for an issuance id that is nobody's, or for the present attempt of a sound body. */
  ghost predicate MayAdd(cfg: Config, s: System, added: Id) {
    added !in s.owner
    || (Owned(s, added) && OwnerRow(s, added).issuance == added && !Hopeless(BodyOf(cfg, OwnerRow(s, added))))
  }

  /** Unless the new rows are for a body that is turned down for ever, such a body stays without rows. */
  lemma HopelessStaysUnissued(cfg: Config, s: System, after: Pki.Table, added: Id, t: Id)
    requires Inv(cfg, s) && Pki.Kept(s.certs, after) && AddsOnly(s.certs, after, added)
    requires |after| == |s.certs| || MayAdd(cfg, s, added)
    requires t in s.accounts && s.accounts[t].row.Some? && Hopeless(BodyOf(cfg, s.accounts[t].row.value))
    ensures Unissued(after, s.accounts[t].row.value.issuance)
  {
    var row := s.accounts[t].row.value;
    assert AccountOk(cfg, s.owner, s.certs, t, s.accounts[t]);
    forall i | 0 <= i < |after| ensures after[i].issuance != row.issuance {
      if i < |s.certs| {
        assert Pki.KeptAt(s.certs, after, i) && s.certs[i].issuance != row.issuance;
      }
    }
  }

  lemma AccountKeeps(cfg: Config, s: System, after: Pki.Table, t: Id, a: Account)
    requires AccountOk(cfg, s.owner, s.certs, t, a) && Pki.Kept(s.certs, after)
    requires a.row.Some? && Hopeless(BodyOf(cfg, a.row.value)) ==> Unissued(after, a.row.value.issuance)
    ensures AccountOk(cfg, s.owner, after, t, a)
  {
    if a.row.Some? {
      var row := a.row.value;
      if row.certificate.Some? {
        RecordedStays(s.certs, after, row, row.certificate.value);
      }
      if a.call.Some? && a.call.value.Done? && a.call.value.outcome.Success? {
        RecordedStays(s.certs, after, row, a.call.value.outcome.certificate);
      }
    }
  }

  lemma CertsGrow(cfg: Config, s: System, after: Pki.Table, added: Id)
    requires Inv(cfg, s) && Pki.Inv(after) && Pki.Kept(s.certs, after) && AddsOnly(s.certs, after, added)
    requires |after| == |s.certs| || MayAdd(cfg, s, added)
    ensures Inv(cfg, s.(certs := after))
  {
    var s' := s.(certs := after);
    forall t | t in s'.accounts ensures AccountOk(cfg, s'.owner, s'.certs, t, s'.accounts[t]) {
      assert AccountOk(cfg, s.owner, s.certs, t, s.accounts[t]);
      if s.accounts[t].row.Some? && Hopeless(BodyOf(cfg, s.accounts[t].row.value)) {
        HopelessStaysUnissued(cfg, s, after, added, t);
      }
      AccountKeeps(cfg, s, after, t, s.accounts[t]);
    }
    forall b | b in s'.sent ensures SentOk(cfg, s', b) {
      assert SentOk(cfg, s, b);
    }
    forall i | 0 <= i < |s'.certs| ensures CertOk(s', i) {
      if i < |s.certs| {
        assert CertOk(s, i) && Pki.KeptAt(s.certs, after, i);
      }
    }
    forall x ensures OwnerOk(s', x) {
      assert OwnerOk(s, x);
    }
  }

  /** Handling a body that was sent adds at most its own certificate, and only for the present attempt. */
  lemma AskedGrows(cfg: Config, s: System, b: Pki.Body, ca: Pki.Authority, draw: Pki.Draw)
    requires Inv(cfg, s) && SentOk(cfg, s, b)
    ensures var after := Asked(s.certs, b, ca, draw).1;
            Inv(cfg, s.(certs := after)) && Pki.Kept(s.certs, after)
  {
    var after := Asked(s.certs, b, ca, draw).1;
    Pki.IssueKeeps(s.certs, b, Some(GrantFor(b)), ca, draw);
    assert AddsOnly(s.certs, after, b.issuance);
    if |after| != |s.certs| {
      assert !Hopeless(b);
    }
    CertsGrow(cfg, s, after, b.issuance);
  }

  lemma ElsewhereGrows(cfg: Config, s: System, op: Pki.Op)
    requires Inv(cfg, s) && Unrelated(s, op)
    ensures Inv(cfg, s.(certs := Pki.Apply(s.certs, op)))
  {
    var after := Pki.Apply(s.certs, op);
    Pki.ApplyKeeps(s.certs, op);
    match op
    case IssueOp(b, _, _, _) => CertsGrow(cfg, s, after, b.issuance);
    case RotateOp(_, b, _, _, _) => CertsGrow(cfg, s, after, b.issuance);
    case RevokeOp(_, _, _, _) => CertsGrow(cfg, s, after, "");
  }

  // ---------------------------------------------------------------- one account changes

  /** A step on one account that leaves the body of its row alone. */
  lemma AccountChanges(cfg: Config, s: System, t: Id, a: Account)
    requires Inv(cfg, s) && AccountOk(cfg, s.owner, s.certs, t, a)
    requires t in s.accounts && s.accounts[t].row.Some? ==>
        a.row.Some? && BodyOf(cfg, a.row.value) == BodyOf(cfg, s.accounts[t].row.value)
    ensures Inv(cfg, Put(s, t, a))
  {
    var s' := Put(s, t, a);
    forall x | x in s'.accounts ensures AccountOk(cfg, s'.owner, s'.certs, x, s'.accounts[x]) {
      if x != t {
        assert AccountOk(cfg, s.owner, s.certs, x, s.accounts[x]);
      }
    }
    forall b | b in s'.sent ensures SentOk(cfg, s', b) {
      assert SentOk(cfg, s, b);
    }
    forall i | 0 <= i < |s'.certs| ensures CertOk(s', i) {
      assert CertOk(s, i);
    }
    forall x ensures OwnerOk(s', x) {
      assert OwnerOk(s, x);
    }
  }

  /** The row of a token that can be reserved anew failed for good: nothing was or will be issued for it. */
  ghost predicate Abandoned(cfg: Config, s: System, t: Id) {
    t in s.accounts && s.accounts[t].call.None?
    && (s.accounts[t].row.Some? ==>
          Hopeless(BodyOf(cfg, s.accounts[t].row.value)) && Unissued(s.certs, s.accounts[t].row.value.issuance))
  }

  lemma FreshMeansAbandoned(cfg: Config, s: System, t: Id, r: Request, now: Time)
    requires Inv(cfg, s) && t in s.accounts && s.accounts[t].call.None?
    requires Fresh(Reserve(s.accounts[t].token, s.accounts[t].row, r, now))
    ensures Abandoned(cfg, s, t)
  {
    assert AccountOk(cfg, s.owner, s.certs, t, s.accounts[t]);
  }

  lemma SentAfterReserving(cfg: Config, s: System, s': System, t: Id, issuance: Id, a: Account, b: Pki.Body)
    requires Abandoned(cfg, s, t) && SentOk(cfg, s, b) && issuance !in s.owner
    requires a.row.Some? && a.row.value.issuance == issuance
    requires s'.accounts == s.accounts[t := a] && s'.owner == s.owner[issuance := t]
    ensures SentOk(cfg, s', b)
  {
  }

  lemma CertAfterReserving(cfg: Config, s: System, s': System, t: Id, issuance: Id, a: Account, i: nat)
    requires Abandoned(cfg, s, t) && i < |s.certs| && CertOk(s, i) && issuance !in s.owner
    requires Unissued(s.certs, issuance)
    requires s'.accounts == s.accounts[t := a] && s'.owner == s.owner[issuance := t] && s'.certs == s.certs
    ensures CertOk(s', i)
  {
  }

  lemma NewAccountOk(cfg: Config, s: System, t: Id, r: Request, now: Time, device: Id, issuance: Id)
    requires t in s.accounts && TokenMatchesRow(s.accounts[t])
    requires Fresh(Reserve(s.accounts[t].token, s.accounts[t].row, r, now))
    requires Unissued(s.certs, issuance)
    ensures var s' := Reserved(cfg, s, t, r, now, device, issuance);
            AccountOk(cfg, s'.owner, s'.certs, t, s'.accounts[t])
  {
  }

  lemma OtherAccountOk(cfg: Config, s: System, issuance: Id, t: Id, x: Id)
    requires x in s.accounts && AccountOk(cfg, s.owner, s.certs, x, s.accounts[x]) && issuance !in s.owner
    ensures AccountOk(cfg, s.owner[issuance := t], s.certs, x, s.accounts[x])
  {
  }

  /** A released token is reserved anew: what was sent for the old issuance id is turned down for ever. */
  lemma ReservedKeeps(cfg: Config, s: System, t: Id, r: Request, now: Time, device: Id, issuance: Id)
    requires Inv(cfg, s) && t in s.accounts && s.accounts[t].call.None?
    requires Fresh(Reserve(s.accounts[t].token, s.accounts[t].row, r, now)) && issuance !in s.owner
    requires Unissued(s.certs, issuance)
    ensures Inv(cfg, Reserved(cfg, s, t, r, now, device, issuance))
  {
    var s' := Reserved(cfg, s, t, r, now, device, issuance);
    FreshMeansAbandoned(cfg, s, t, r, now);
    assert AccountOk(cfg, s.owner, s.certs, t, s.accounts[t]);
    NewAccountOk(cfg, s, t, r, now, device, issuance);
    forall x | x in s'.accounts ensures AccountOk(cfg, s'.owner, s'.certs, x, s'.accounts[x]) {
      if x != t {
        assert AccountOk(cfg, s.owner, s.certs, x, s.accounts[x]);
        OtherAccountOk(cfg, s, issuance, t, x);
      }
    }
    forall b | b in s'.sent ensures SentOk(cfg, s', b) {
      assert SentOk(cfg, s, b);
      SentAfterReserving(cfg, s, s', t, issuance, s'.accounts[t], b);
    }
    forall i | 0 <= i < |s'.certs| ensures CertOk(s', i) {
      assert CertOk(s, i);
      CertAfterReserving(cfg, s, s', t, issuance, s'.accounts[t], i);
    }
    forall x ensures OwnerOk(s', x) {
      assert OwnerOk(s, x);
    }
  }

  // ---------------------------------------------------------------- every step

  lemma BeginKeeps(cfg: Config, s: System, t: Id, r: Request, now: Time, device: Id, issuance: Id)
    requires Inv(cfg, s) && t in s.accounts && s.accounts[t].call.None?
    ensures Inv(cfg, Begun(cfg, s, t, r, now, device, issuance))
  {
    var a := s.accounts[t];
    var answer := Reserve(a.token, a.row, r, now);
    assert AccountOk(cfg, s.owner, s.certs, t, a);
    if Fresh(answer) {
      if issuance !in s.owner && Unissued(s.certs, issuance) {
        ReservedKeeps(cfg, s, t, r, now, device, issuance);
      }
    } else if answer == Ok(Reservation(true, false)) {
      AccountChanges(cfg, s, t, a.(call := Some(Calling(Max(1, cfg.attempts)))));
    }
  }

  /** The body of the call in progress joins what was sent. */
  lemma SendingKeeps(cfg: Config, s: System, t: Id)
    requires Inv(cfg, s) && Asking(s, t)
    ensures var b := BodyOf(cfg, s.accounts[t].row.value);
            SentOk(cfg, s, b) && Inv(cfg, s.(sent := s.sent + {b}))
  {
    var b, s' := BodyOf(cfg, s.accounts[t].row.value), s.(sent := s.sent + {BodyOf(cfg, s.accounts[t].row.value)});
    assert AccountOk(cfg, s.owner, s.certs, t, s.accounts[t]);
    assert SentOk(cfg, s, b);
    forall x | x in s'.accounts ensures AccountOk(cfg, s'.owner, s'.certs, x, s'.accounts[x]) {
      assert AccountOk(cfg, s.owner, s.certs, x, s.accounts[x]);
    }
    forall x | x in s'.sent ensures SentOk(cfg, s', x) {
      assert SentOk(cfg, s, x);
    }
    forall i | 0 <= i < |s'.certs| ensures CertOk(s', i) {
      assert CertOk(s, i);
    }
    forall x ensures OwnerOk(s', x) {
      assert OwnerOk(s, x);
    }
  }

  /** A certificate the client accepts is in the authority's table, for the row it was asked for. */
  lemma AcceptedIsRecorded(cfg: Config, certs: Pki.Table, row: Enrollment, ca: Pki.Authority, draw: Pki.Draw)
    requires Pki.Inv(certs)
    ensures var b := BodyOf(cfg, row);
            var (r, after) := Asked(certs, b, ca, draw);
            Settled(b, ReplyOf(r)).Some? && Settled(b, ReplyOf(r)).value.Success? ==>
              Recorded(after, row, Settled(b, ReplyOf(r)).value.certificate)
  {
    var b := BodyOf(cfg, row);
    var (r, after) := Asked(certs, b, ca, draw);
    if r.Ok? {
      Pki.IssueStores(certs, b, Some(GrantFor(b)), ca, draw);
      var i: nat :| i < |after| && after[i] == r.value;
      assert RecordedAt(after, i, IssuedOf(r.value));
    }
  }

  lemma AttemptKeeps(cfg: Config, s: System, t: Id, ca: Pki.Authority, draw: Pki.Draw)
    requires Inv(cfg, s) && Asking(s, t)
    ensures var (r, certs) := Asked(s.certs, BodyOf(cfg, s.accounts[t].row.value), ca, draw);
            Inv(cfg, Attempted(cfg, s, t, ReplyOf(r), certs))
  {
    var a := s.accounts[t];
    var b := BodyOf(cfg, a.row.value);
    var (r, certs) := Asked(s.certs, b, ca, draw);
    SendingKeeps(cfg, s, t);
    var sent := s.(sent := s.sent + {b});
    assert SentOk(cfg, sent, b);
    AskedGrows(cfg, sent, b, ca, draw);
    var grown := sent.(certs := certs);
    assert AccountOk(cfg, grown.owner, grown.certs, t, grown.accounts[t]);
    AcceptedIsRecorded(cfg, s.certs, a.row.value, ca, draw);
    if Settled(b, ReplyOf(r)) == Some(Failure(PkiRejected)) {
      RejectedMeansHopeless(s.certs, b, ca, draw);
    }
    AccountChanges(cfg, grown, t, a.(call := Some(NextPhase(b, a.call.value.left, ReplyOf(r)))));
    assert Attempted(cfg, s, t, ReplyOf(r), certs)
        == Put(grown, t, a.(call := Some(NextPhase(b, a.call.value.left, ReplyOf(r)))));
  }

  lemma LostAttemptKeeps(cfg: Config, s: System, t: Id)
    requires Inv(cfg, s) && Asking(s, t)
    ensures Inv(cfg, Attempted(cfg, s, t, NoReply, s.certs))
  {
    var a := s.accounts[t];
    var b := BodyOf(cfg, a.row.value);
    SendingKeeps(cfg, s, t);
    var sent := s.(sent := s.sent + {b});
    assert AccountOk(cfg, sent.owner, sent.certs, t, a);
    AccountChanges(cfg, sent, t, a.(call := Some(NextPhase(b, a.call.value.left, NoReply))));
    assert Attempted(cfg, s, t, NoReply, s.certs)
        == Put(sent, t, a.(call := Some(NextPhase(b, a.call.value.left, NoReply))));
  }

  lemma FinishedOk(cfg: Config, owner: map<Id, Id>, certs: Pki.Table, t: Id, a: Account, now: Time)
    requires AccountOk(cfg, owner, certs, t, a) && a.row.Some? && a.call.Some? && a.call.value.Done?
    ensures AccountOk(cfg, owner, certs, t, Finished(a, now))
    ensures BodyOf(cfg, Finished(a, now).row.value) == BodyOf(cfg, a.row.value)
  {
  }

  lemma ApplyKeeps(cfg: Config, s: System, step: Step)
    requires Inv(cfg, s)
    ensures Inv(cfg, Apply(cfg, s, step))
  {
    match step
    case CreateToken(t, tenant, asset, expiresAt) =>
      if t !in s.accounts {
        AccountChanges(cfg, s, t, Account(Token(tenant, asset, expiresAt, None, None, None, None), None, None));
      }
    case RevokeToken(t, now) =>
      if t in s.accounts {
        assert AccountOk(cfg, s.owner, s.certs, t, s.accounts[t]);
        AccountChanges(cfg, s, t, s.accounts[t].(token := Withdrawn(s.accounts[t].token, now)));
      }
    case Begin(t, r, now, device, issuance) =>
      if t in s.accounts && s.accounts[t].call.None? {
        BeginKeeps(cfg, s, t, r, now, device, issuance);
      }
    case AttemptLost(t) =>
      if Asking(s, t) {
        LostAttemptKeeps(cfg, s, t);
      }
    case AttemptAnswered(t, ca, draw) =>
      if Asking(s, t) {
        AttemptKeeps(cfg, s, t, ca, draw);
      }
    case HandledLate(b, ca, draw) =>
      if b in s.sent {
        assert SentOk(cfg, s, b);
        AskedGrows(cfg, s, b, ca, draw);
      }
    case Finish(t, now) =>
      if t in s.accounts && s.accounts[t].row.Some? && s.accounts[t].call.Some? && s.accounts[t].call.value.Done? {
        assert AccountOk(cfg, s.owner, s.certs, t, s.accounts[t]);
        FinishedOk(cfg, s.owner, s.certs, t, s.accounts[t], now);
        AccountChanges(cfg, s, t, Finished(s.accounts[t], now));
      }
    case Crash(t) =>
      if t in s.accounts {
        assert AccountOk(cfg, s.owner, s.certs, t, s.accounts[t]);
        AccountChanges(cfg, s, t, s.accounts[t].(call := None));
      }
    case Elsewhere(op) =>
      if Unrelated(s, op) {
        ElsewhereGrows(cfg, s, op);
      }
  }

  lemma {:induction false} RunKeeps(cfg: Config, s: System, steps: seq<Step>)
    requires Inv(cfg, s)
    ensures Inv(cfg, Run(cfg, s, steps))
    decreases |steps|
  {
    if steps != [] {
      ApplyKeeps(cfg, s, steps[0]);
      RunKeeps(cfg, Apply(cfg, s, steps[0]), steps[1..]);
    }
  }

  ghost predicate Reachable(cfg: Config, s: System) {
    exists steps :: s == Run(cfg, START, steps)
  }

  lemma ReachableInv(cfg: Config, s: System)
    requires Reachable(cfg, s)
    ensures Inv(cfg, s)
  {
    var steps :| s == Run(cfg, START, steps);
    RunKeeps(cfg, START, steps);
  }

  // ---------------------------------------------------------------- the theorems

  /** Row `i` of the authority's table was issued for token `t`. */
  predicate IssuedFor(s: System, t: Id, i: nat) {
    i < |s.certs| && s.certs[i].issuance in s.owner && s.owner[s.certs[i].issuance] == t
  }

  /**
   Over every run, with crashes anywhere, lost and late requests and retries after releases: the
   authority issues at most one certificate for a token.
   */
  lemma OneCertificatePerToken(cfg: Config, s: System, t: Id, i: nat, j: nat)
    requires Reachable(cfg, s) && IssuedFor(s, t, i) && IssuedFor(s, t, j)
    ensures i == j
  {
    ReachableInv(cfg, s);
    assert CertOk(s, i) && CertOk(s, j);
    Pki.OneRowPerValue(s.certs, i, j);
  }

  predicate Consumed(s: System, t: Id) {
    t in s.accounts && s.accounts[t].token.consumedAt.Some?
  }

  /** A consumed token's row carries the one certificate issued for it, with the row's identity. */
  lemma ConsumedMeansIssued(cfg: Config, s: System, t: Id)
    requires Reachable(cfg, s) && Consumed(s, t)
    ensures s.accounts[t].row.Some? && ResultOf(s.accounts[t].row.value).Ok?
    ensures var result := ResultOf(s.accounts[t].row.value).value;
            && result.certificate.tenant == result.tenant == s.accounts[t].token.tenant
            && result.certificate.asset == result.asset == s.accounts[t].token.asset
            && result.certificate.device == result.device
            && exists i :: IssuedFor(s, t, i) && RecordedAt(s.certs, i, result.certificate)
  {
    ReachableInv(cfg, s);
    assert AccountOk(cfg, s.owner, s.certs, t, s.accounts[t]);
    var row := s.accounts[t].row.value;
    assert Recorded(s.certs, row, row.certificate.value);
    var i: nat :| RecordedAt(s.certs, i, row.certificate.value);
    assert IssuedFor(s, t, i);
  }

  lemma ConsumedStays(cfg: Config, s: System, step: Step, t: Id)
    requires Inv(cfg, s) && Consumed(s, t)
    ensures var after := Apply(cfg, s, step);
            Consumed(after, t) && after.accounts[t].row == s.accounts[t].row
            && after.accounts[t].token == s.accounts[t].token.(revokedAt := after.accounts[t].token.revokedAt)
  {
    assert AccountOk(cfg, s.owner, s.certs, t, s.accounts[t]);
    assert s.accounts[t].call.None?;
  }

  lemma {:induction false} ConsumedForGood(cfg: Config, s: System, steps: seq<Step>, t: Id)
    requires Inv(cfg, s) && Consumed(s, t)
    ensures var after := Run(cfg, s, steps);
            Consumed(after, t) && after.accounts[t].row == s.accounts[t].row
            && after.accounts[t].token == s.accounts[t].token.(revokedAt := after.accounts[t].token.revokedAt)
    decreases |steps|
  {
    if steps != [] {
      ConsumedStays(cfg, s, steps[0], t);
      ApplyKeeps(cfg, s, steps[0]);
      ConsumedForGood(cfg, Apply(cfg, s, steps[0]), steps[1..], t);
    }
  }

  /**
   After a token is consumed, whatever happens and at whatever time: a request with the fingerprint it
   was consumed for is answered with the same result, and any other request is a replay.
   */
  lemma ConsumedAnswersAreFixed(cfg: Config, s: System, steps: seq<Step>, t: Id, r: Request, now: Time)
    requires Reachable(cfg, s) && Consumed(s, t)
    ensures Consumed(Run(cfg, s, steps), t) && s.accounts[t].row.Some?
    ensures var before, after := s.accounts[t], Run(cfg, s, steps).accounts[t];
            && after.row == before.row && ResultOf(before.row.value).Ok?
            && Reserve(after.token, after.row, r, now)
               == if RequestFingerprint(before.token.tenant, before.token.asset, r) == before.row.value.fingerprint
                  then Ok(Reservation(true, true)) else Err(TokenReplay)
  {
    ReachableInv(cfg, s);
    ConsumedMeansIssued(cfg, s, t);
    ConsumedForGood(cfg, s, steps, t);
  }

  // ---------------------------------------------------------------- an enrollment gets through

  /** The certificate is what the authority makes of this row's body. */
  predicate CertifiesRow(cfg: Config, c: Pki.Certificate, row: Enrollment) {
    && c.issuance == row.issuance && c.tenant == row.tenant && c.asset == row.asset && c.device == row.device
    && c.platform == row.platform && c.subjectCn == Strip(row.hostname) && c.csrSha == row.csrSha
    && cfg.keys(row.csrSha).Some?
  }

  /** Consumed, complete, and with all that the authority says of the certificate. */
  predicate CompleteWith(s: System, t: Id, row: Enrollment, c: Pki.Certificate, now: Time) {
    && t in s.accounts && s.accounts[t].call.None? && s.accounts[t].token.consumedAt == Some(now)
    && s.accounts[t].token.consumedDevice == Some(row.device) && s.accounts[t].row.Some?
    && ResultOf(s.accounts[t].row.value)
       == Ok(EnrollmentResult(row.device, row.tenant, row.asset,
                              Issued(c.id, c.issuance, c.tenant, c.asset, c.device, c.serialHex, c.fingerprint,
                                     c.notBefore, c.notAfter)))
  }

  /** What the authority draws is an identifier and a digest of 64 digits. */
  predicate Printed(draw: Pki.Draw) {
    draw.id != "" && |draw.fingerprint| == 64
  }

  /**
   Whenever a call asks and the authority has nothing against the body, one answered attempt and the last
   transaction consume the token, with the certificate the authority has for the attempt: the one it made
   before, if an earlier answer was lost, or else a new one.
   */
  lemma AnsweredAttemptCompletes(cfg: Config, s: System, t: Id, ca: Pki.Authority, draw: Pki.Draw, now: Time)
    returns (c: Pki.Certificate)
    requires Reachable(cfg, s) && Asking(s, t) && s.accounts[t].row.value.issuance != "" && Printed(draw)
    requires Asked(s.certs, BodyOf(cfg, s.accounts[t].row.value), ca, draw).0.Ok?
    requires forall i {:trigger s.certs[i]} ::
               0 <= i < |s.certs| && s.certs[i].issuance == s.accounts[t].row.value.issuance ==>
                 s.certs[i].id != "" && |s.certs[i].fingerprint| == 64 && s.certs[i].serialHex != ""
    ensures var row, after := s.accounts[t].row.value, Run(cfg, s, [AttemptAnswered(t, ca, draw), Finish(t, now)]);
            && CompleteWith(after, t, row, c, now) && CertifiesRow(cfg, c, row) && c in after.certs
            && after.certs == if c in s.certs then s.certs else s.certs + [c]
  {
    ReachableInv(cfg, s);
    assert AccountOk(cfg, s.owner, s.certs, t, s.accounts[t]);
    var a := s.accounts[t];
    var b := BodyOf(cfg, a.row.value);
    var (r, certs) := Asked(s.certs, b, ca, draw);
    c := r.value;
    Pki.IssueStores(s.certs, b, Some(GrantFor(b)), ca, draw);
    var asked := Attempted(cfg, s, t, ReplyOf(r), certs);
    assert asked.accounts[t].call == Some(Done(Success(IssuedOf(c))));
    TwoSteps(cfg, s, AttemptAnswered(t, ca, draw), Finish(t, now));
  }

  lemma TwoSteps(cfg: Config, s: System, a: Step, b: Step)
    ensures Run(cfg, s, [a, b]) == Apply(cfg, Apply(cfg, s, a), b)
  {
    assert [a, b][1..] == [b] && [b][1..] == [];
    assert Run(cfg, Apply(cfg, s, a), [b]) == Run(cfg, Apply(cfg, Apply(cfg, s, a), b), []);
  }

  /** A first request for a usable token begins a call, and so does the same request for one that is reserved. */
  lemma CallsBegin(cfg: Config, s: System, t: Id, r: Request, now: Time, device: Id, issuance: Id)
    requires t in s.accounts && s.accounts[t].call.None?
    requires issuance !in s.owner && Unissued(s.certs, issuance)
    ensures var a, after := s.accounts[t], Apply(cfg, s, Begin(t, r, now, device, issuance));
            var unused := a.token.consumedAt.None? && a.token.revokedAt.None?;
            && (unused && a.token.reservedAt.None? && now < a.token.expiresAt && NothingIssued(a.row) ==>
                  && Asking(after, t) && after.accounts[t].row == Some(NewRow(a.token, r, device, issuance))
                  && after.accounts[t].token.reservedAt == Some(now))
            && (unused && a.token.reservedAt.Some? && SameRequest(a.token, a.row, r) ==>
                  Asking(after, t) && after.accounts[t].row == a.row && after.accounts[t].token == a.token)
            && (Asking(after, t) ==>
                  after.accounts[t].call.value.left >= 1 && after.accounts[t].call.value.left >= cfg.attempts)
  {
  }

  /** What a token that can begin no call may still become: nothing, unless a call was in progress. */
  predicate Idle(s: System, t: Id, after: System) {
    && t in s.accounts && t in after.accounts
    && after.accounts[t].token.revokedAt.Some?
    && (s.accounts[t].call.None? ==> after.accounts[t] == s.accounts[t])
  }

  lemma WithdrawnStep(cfg: Config, s: System, step: Step, t: Id)
    requires t in s.accounts && s.accounts[t].token.revokedAt.Some?
    ensures Idle(s, t, Apply(cfg, s, step))
  {
  }

  lemma {:induction false} WithdrawnStays(cfg: Config, s: System, steps: seq<Step>, t: Id)
    requires t in s.accounts && s.accounts[t].token.revokedAt.Some?
    ensures Idle(s, t, Run(cfg, s, steps))
    decreases |steps|
  {
    if steps != [] {
      WithdrawnStep(cfg, s, steps[0], t);
      WithdrawnStays(cfg, Apply(cfg, s, steps[0]), steps[1..], t);
    }
  }

  /**
   Once a token is withdrawn, no call for it begins, whatever happens in between; only a call already in
   progress can change its row and consume it. With no call in progress it never changes again.
   */
  lemma WithdrawnForGood(cfg: Config, s: System, steps: seq<Step>, t: Id, r: Request, now: Time, device: Id,
                         issuance: Id)
    requires t in s.accounts && s.accounts[t].token.revokedAt.Some?
    ensures var after := Run(cfg, s, steps);
            && t in after.accounts && Apply(cfg, after, Begin(t, r, now, device, issuance)) == after
            && (s.accounts[t].call.None? ==> after.accounts[t] == s.accounts[t])
  {
    WithdrawnStays(cfg, s, steps, t);
  }

  /** No call for `t` is begun before `time`. */
  predicate BegunFrom(steps: seq<Step>, t: Id, time: Time) {
    forall i :: 0 <= i < |steps| && steps[i].Begin? && steps[i].t == t ==> time <= steps[i].now
  }

  /** Neither reserved nor consumed, and out of time. */
  predicate Unclaimed(s: System, t: Id) {
    t in s.accounts && s.accounts[t].token.reservedAt.None? && s.accounts[t].token.consumedAt.None?
  }

  lemma UnclaimedStep(cfg: Config, s: System, step: Step, t: Id)
    requires Inv(cfg, s) && Unclaimed(s, t)
    requires step.Begin? && step.t == t ==> s.accounts[t].token.expiresAt <= step.now
    ensures var after := Apply(cfg, s, step);
            && Unclaimed(after, t) && after.accounts[t].row == s.accounts[t].row
            && after.accounts[t].token.expiresAt == s.accounts[t].token.expiresAt
  {
    assert AccountOk(cfg, s.owner, s.certs, t, s.accounts[t]);
  }

  lemma {:induction false} UnclaimedStays(cfg: Config, s: System, steps: seq<Step>, t: Id)
    requires Inv(cfg, s) && Unclaimed(s, t) && BegunFrom(steps, t, s.accounts[t].token.expiresAt)
    ensures var after := Run(cfg, s, steps);
            && Inv(cfg, after) && Unclaimed(after, t) && after.accounts[t].row == s.accounts[t].row
            && after.accounts[t].token.expiresAt == s.accounts[t].token.expiresAt
    decreases |steps|
  {
    if steps != [] {
      UnclaimedStep(cfg, s, steps[0], t);
      ApplyKeeps(cfg, s, steps[0]);
      UnclaimedStays(cfg, Apply(cfg, s, steps[0]), steps[1..], t);
    }
  }

  /** A token that nobody has reserved when it expires is never reserved, and its calls never begin. */
  lemma ExpiredForGood(cfg: Config, s: System, steps: seq<Step>, t: Id, r: Request, now: Time, device: Id,
                       issuance: Id)
    requires Reachable(cfg, s) && Unclaimed(s, t)
    requires BegunFrom(steps, t, s.accounts[t].token.expiresAt) && s.accounts[t].token.expiresAt <= now
    ensures var after := Run(cfg, s, steps);
            && Unclaimed(after, t) && after.accounts[t].row == s.accounts[t].row
            && Apply(cfg, after, Begin(t, r, now, device, issuance)) == after
  {
    ReachableInv(cfg, s);
    UnclaimedStays(cfg, s, steps, t);
  }

  /** The answers "state inconsistent" and "not complete" are never given. */
  lemma NeverInconsistent(cfg: Config, s: System, t: Id, r: Request, now: Time)
    requires Reachable(cfg, s) && t in s.accounts
    ensures var a := s.accounts[t];
            var answer := Reserve(a.token, a.row, r, now);
            && answer != Err(StateInconsistent) && answer != Err(NotComplete)
            && (answer.Ok? && answer.value.consumed ==> ResultOf(a.row.value).Ok?)
  {
    ReachableInv(cfg, s);
    assert AccountOk(cfg, s.owner, s.certs, t, s.accounts[t]);
  }

  /** A token is released only when nothing was issued for the attempt, and nothing ever will be. */
  lemma ReleasedMeansNeverIssued(cfg: Config, s: System, steps: seq<Step>, t: Id)
    requires Reachable(cfg, s) && t in s.accounts && s.accounts[t].row.Some? && s.accounts[t].row.value.status.Failed?
    ensures Unissued(Run(cfg, s, steps).certs, s.accounts[t].row.value.issuance)
  {
    ReachableInv(cfg, s);
    assert AccountOk(cfg, s.owner, s.certs, t, s.accounts[t]);
    NeverUsedAgain(cfg, s, steps, s.accounts[t].row.value.issuance);
  }

  /** Of the present attempt only if that is hopeless. */
  predicate NotInUse(cfg: Config, s: System, issuance: Id) {
    Owned(s, issuance) && (OwnerRow(s, issuance).issuance == issuance ==> Hopeless(BodyOf(cfg, OwnerRow(s, issuance))))
  }

  lemma NotInUseStays(cfg: Config, s: System, step: Step, issuance: Id)
    requires Inv(cfg, s) && NotInUse(cfg, s, issuance)
    ensures NotInUse(cfg, Apply(cfg, s, step), issuance)
  {
    assert AccountOk(cfg, s.owner, s.certs, s.owner[issuance], s.accounts[s.owner[issuance]]);
  }

  lemma NotInUseIsUnissued(cfg: Config, s: System, issuance: Id)
    requires Inv(cfg, s) && NotInUse(cfg, s, issuance)
    ensures Unissued(s.certs, issuance)
  {
    var t := s.owner[issuance];
    assert AccountOk(cfg, s.owner, s.certs, t, s.accounts[t]);
    forall i | 0 <= i < |s.certs| ensures s.certs[i].issuance != issuance {
      assert CertOk(s, i);
    }
  }

  lemma {:induction false} NeverUsedAgain(cfg: Config, s: System, steps: seq<Step>, issuance: Id)
    requires Inv(cfg, s) && NotInUse(cfg, s, issuance)
    ensures Unissued(Run(cfg, s, steps).certs, issuance)
    decreases |steps|
  {
    if steps == [] {
      NotInUseIsUnissued(cfg, s, issuance);
    } else {
      ApplyKeeps(cfg, s, steps[0]);
      NotInUseStays(cfg, s, steps[0], issuance);
      NeverUsedAgain(cfg, Apply(cfg, s, steps[0]), steps[1..], issuance);
    }
  }
}
