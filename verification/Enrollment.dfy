/**
 Device enrollment (`services/enrollment-service/app`): a one-time token is reserved for a request, the
 certificate authority is asked for a certificate under a fresh issuance id, and the token is consumed,
 kept for a retry, or released. The tables, the authority and the network form one state machine.
 */
module Enrollment {
  import opened Common
  import opened Text
  import Pki

  type Id = string

  datatype Token = Token(tenant: Id, asset: Id, expiresAt: Time, revokedAt: Option<Time>, reservedAt: Option<Time>,
                         consumedAt: Option<Time>, consumedDevice: Option<Id>)

  datatype Request = Request(platform: string, hostname: string, agentVersion: Option<string>, csrSha: string)

  /** The canonical request that the service hashes. */
  datatype Fingerprint = Fingerprint(tenant: Id, asset: Id, csrSha: string, platform: string, hostname: string,
                                     agentVersion: string)

  datatype Status = Pending | CertificateIssued | Enrolled | Failed

  /** What the authority's answer carries. */
  datatype Issued = Issued(id: Id, issuance: Id, tenant: Id, asset: Id, device: Id, serialHex: string,
                           fingerprint: string, notBefore: Time, notAfter: Time)

  datatype FailureCode = PkiRejected | PkiConflict | PkiUnavailable | PkiInvalidResponse

  datatype Enrollment = Enrollment(device: Id, tenant: Id, asset: Id, platform: string, hostname: string,
                                   agentVersion: Option<string>, csrSha: string, fingerprint: Fingerprint, issuance: Id,
                                   status: Status, certificate: Option<Issued>, failureCode: Option<FailureCode>,
                                   enrolledAt: Option<Time>)

  datatype EnrollmentResult = EnrollmentResult(device: Id, tenant: Id, asset: Id, certificate: Issued)

  datatype Error = TokenNotFound | TokenRevoked | TokenExpired | TokenReplay | StateInconsistent | NotComplete

  datatype Reservation = Reservation(resumed: bool, consumed: bool)

  // ---------------------------------------------------------------- the identity of a request

  function OrEmpty(s: Option<string>): string {
    if s.Some? then s.value else ""
  }

  /** `request_fingerprint`, before hashing. */
  function RequestFingerprint(tenant: Id, asset: Id, r: Request): Fingerprint {
    Fingerprint(Strip(tenant), Strip(asset), Lower(Strip(r.csrSha)), Lower(Strip(r.platform)), Lower(Strip(r.hostname)),
                Strip(OrEmpty(r.agentVersion)))
  }

  function NewRow(t: Token, r: Request, device: Id, issuance: Id): Enrollment {
    var version := Strip(OrEmpty(r.agentVersion));
    Enrollment(device, t.tenant, t.asset, Lower(Strip(r.platform)), Strip(r.hostname),
               if version == "" then None else Some(version), Lower(Strip(r.csrSha)),
               RequestFingerprint(t.tenant, t.asset, r), issuance, Pending, None, None, None)
  }

  /** A new attempt is of the token's tenant and asset, and tells what the request says, without blanks. */
  lemma NewRowTells(t: Token, r: Request, device: Id, issuance: Id)
    ensures var row := NewRow(t, r, device, issuance);
            && row.device == device && row.issuance == issuance && row.tenant == t.tenant && row.asset == t.asset
            && row.platform == Lower(Strip(r.platform)) && row.hostname == Strip(r.hostname)
            && row.csrSha == Lower(Strip(r.csrSha)) && OrEmpty(row.agentVersion) == Strip(OrEmpty(r.agentVersion))
            && row.agentVersion != Some("") && row.status.Pending? && row.certificate.None? && row.enrolledAt.None?
            && (r.agentVersion.Some? ==> OrEmpty(row.agentVersion) == Strip(r.agentVersion.value))
  {
  }

  lemma StripTwice(s: string)
    ensures Strip(Strip(s)) == Strip(s)
    ensures Strip(Lower(Strip(s))) == Lower(Strip(s))
    ensures Lower(Strip(Lower(Strip(s)))) == Lower(Strip(s))
  {
  }

  /** A request made of what was stored is the same request: the stored fields lose nothing that identifies it. */
  lemma StoredRequestIsTheSame(t: Token, r: Request, device: Id, issuance: Id)
    ensures var row := NewRow(t, r, device, issuance);
            RequestFingerprint(t.tenant, t.asset, Request(row.platform, row.hostname, row.agentVersion, row.csrSha))
              == row.fingerprint
  {
    StripTwice(r.csrSha);
    StripTwice(r.platform);
    StripTwice(r.hostname);
    StripTwice(OrEmpty(r.agentVersion));
  }

  /** Two requests have one fingerprint exactly when nothing that identifies them differs but case and blanks. */
  lemma SameFingerprintExactlyWhen(tenant: Id, asset: Id, r: Request, r': Request)
    ensures RequestFingerprint(tenant, asset, r) == RequestFingerprint(tenant, asset, r')
       <==> && Lower(Strip(r.csrSha)) == Lower(Strip(r'.csrSha))
            && Lower(Strip(r.platform)) == Lower(Strip(r'.platform))
            && Lower(Strip(r.hostname)) == Lower(Strip(r'.hostname))
            && Strip(OrEmpty(r.agentVersion)) == Strip(OrEmpty(r'.agentVersion))
  {
  }

  // ---------------------------------------------------------------- reserving, failing, completing

  /** `_resume_or_replay`. */
  function Resume(t: Token, row: Option<Enrollment>, r: Request, consumed: bool): Result<Reservation, Error> {
    if row.None? then Err(StateInconsistent)
    else if row.value.fingerprint != RequestFingerprint(t.tenant, t.asset, r) then Err(TokenReplay)
    else Ok(Reservation(true, consumed))
  }

  /** What `reserve_or_resume` answers; it writes exactly when the answer is a new reservation. */
  function Reserve(t: Token, row: Option<Enrollment>, r: Request, now: Time): Result<Reservation, Error> {
    if t.consumedAt.Some? then Resume(t, row, r, true)
    else if t.revokedAt.Some? then Err(TokenRevoked)
    else if t.reservedAt.Some? then Resume(t, row, r, false)
    else if t.expiresAt <= now then Err(TokenExpired)
    else if row.Some? && (!row.value.status.Failed? || row.value.certificate.Some?) then Err(StateInconsistent)
    else Ok(Reservation(false, false))
  }

  predicate Fresh(answer: Result<Reservation, Error>) {
    answer == Ok(Reservation(false, false))
  }

  /** A request is the one the row was made for. */
  predicate SameRequest(t: Token, row: Option<Enrollment>, r: Request) {
    row.Some? && row.value.fingerprint == RequestFingerprint(t.tenant, t.asset, r)
  }

  /** Any earlier attempt failed without a certificate. */
  predicate NothingIssued(row: Option<Enrollment>) {
    row.Some? ==> row.value.status.Failed? && row.value.certificate.None?
  }

  /**
   A fresh reservation is given exactly for a token that is neither consumed nor withdrawn nor reserved nor
   expired, and whose earlier attempt, if any, came to nothing; each other answer has its own condition.
   */
  lemma ReserveExactlyWhen(t: Token, row: Option<Enrollment>, r: Request, now: Time)
    ensures var answer := Reserve(t, row, r, now);
            var unused := t.consumedAt.None? && t.revokedAt.None?;
            && (Fresh(answer) <==> unused && t.reservedAt.None? && now < t.expiresAt && NothingIssued(row))
            && (answer == Ok(Reservation(true, true)) <==> t.consumedAt.Some? && SameRequest(t, row, r))
            && (answer == Ok(Reservation(true, false)) <==> unused && t.reservedAt.Some? && SameRequest(t, row, r))
            && answer != Ok(Reservation(false, true))
            && (answer == Err(TokenRevoked) <==> t.consumedAt.None? && t.revokedAt.Some?)
            && (answer == Err(TokenExpired) <==> unused && t.reservedAt.None? && t.expiresAt <= now)
            && (answer == Err(TokenReplay) <==>
                  (t.consumedAt.Some? || (unused && t.reservedAt.Some?)) && row.Some? && !SameRequest(t, row, r))
            && (answer == Err(StateInconsistent) <==>
                  || ((t.consumedAt.Some? || (unused && t.reservedAt.Some?)) && row.None?)
                  || (unused && t.reservedAt.None? && now < t.expiresAt && !NothingIssued(row)))
  {
  }

  /** `_result`. */
  function ResultOf(row: Enrollment): Result<EnrollmentResult, Error> {
    if row.status.Enrolled? && row.certificate.Some?
    then Ok(EnrollmentResult(row.device, row.tenant, row.asset, row.certificate.value)) else Err(NotComplete)
  }

  predicate Releases(row: Enrollment, code: FailureCode) {
    code.PkiRejected? && row.certificate.None?
  }

  /** `_persist_pki_failure`. */
  function FailedRow(row: Enrollment, code: FailureCode): Enrollment {
    row.(failureCode := Some(code), status := if Releases(row, code) then Failed else Pending)
  }

  function FailedToken(t: Token, row: Enrollment, code: FailureCode): Token {
    if Releases(row, code) then t.(reservedAt := None) else t
  }

  /**
   A failure is written down with its code. Only a rejection before any certificate gives the token back and
   fails the attempt; after any other the token stays reserved and the attempt pending.
   */
  lemma FailureExactlyWhen(t: Token, row: Enrollment, code: FailureCode)
    ensures var released := code.PkiRejected? && row.certificate.None?;
            && FailedRow(row, code) == row.(failureCode := Some(code), status := if released then Failed else Pending)
            && FailedToken(t, row, code) == t.(reservedAt := if released then None else t.reservedAt)
  {
  }

  predicate AlreadyDone(t: Token, row: Enrollment) {
    row.status.Enrolled? && t.consumedAt.Some?
  }

  /** The last transaction of `enroll_device`. */
  function CompletedRow(t: Token, row: Enrollment, c: Issued, now: Time): Enrollment {
    if AlreadyDone(t, row) then row
    else row.(status := Enrolled, certificate := Some(c), failureCode := None, enrolledAt := Some(now))
  }

  function CompletedToken(t: Token, row: Enrollment, now: Time): Token {
    if AlreadyDone(t, row) then t else t.(consumedAt := Some(now), consumedDevice := Some(row.device))
  }

  /** A completion that finds the enrollment complete changes nothing; any other writes the whole outcome down. */
  lemma CompletionExactlyWhen(t: Token, row: Enrollment, c: Issued, now: Time)
    ensures var done := row.status.Enrolled? && t.consumedAt.Some?;
            && (done ==> CompletedRow(t, row, c, now) == row && CompletedToken(t, row, now) == t)
            && (!done ==>
                  && CompletedRow(t, row, c, now)
                     == row.(status := Enrolled, certificate := Some(c), failureCode := None, enrolledAt := Some(now))
                  && CompletedToken(t, row, now) == t.(consumedAt := Some(now), consumedDevice := Some(row.device)))
  {
  }

  class EnrollmentTables {
    var tokens: map<Id, Token>
    var enrollments: map<Id, Enrollment>

    function RowOf(t: Id): Option<Enrollment>
      reads this
    {
      if t in enrollments then Some(enrollments[t]) else None
    }

    constructor ()
      ensures tokens == map[] && enrollments == map[]
    {
      tokens, enrollments := map[], map[];
    }

    method CreateToken(t: Id, tenant: Id, asset: Id, now: Time, expiresInMinutes: Time) returns (ok: bool)
      modifies this
      ensures ok <==> t !in old(tokens)
      ensures var token := Token(tenant, asset, now + expiresInMinutes * 60, None, None, None, None);
              tokens == if ok then old(tokens)[t := token] else old(tokens)
      ensures enrollments == old(enrollments)
    {
      ok := t !in tokens;
      if ok {
        tokens := tokens[t := Token(tenant, asset, now + expiresInMinutes * 60, None, None, None, None)];
      }
    }

    method RevokeToken(t: Id, now: Time) returns (r: Result<Token, Error>)
      modifies this
      ensures enrollments == old(enrollments)
      ensures r.Err? <==> t !in old(tokens)
      ensures t !in old(tokens) ==> r.error.TokenNotFound? && tokens == old(tokens)
      ensures t in old(tokens) ==> r.value == Withdrawn(old(tokens)[t], now) && tokens == old(tokens)[t := r.value]
    {
      if t !in tokens {
        return Err(TokenNotFound);
      }
      if tokens[t].revokedAt.None? {
        tokens := tokens[t := tokens[t].(revokedAt := Some(now))];
      }
      return Ok(tokens[t]);
    }

    method ReserveOrResume(t: Id, r: Request, now: Time, device: Id, issuance: Id)
      returns (answer: Result<Reservation, Error>)
      modifies this
      ensures t !in old(tokens) ==>
          answer == Err(TokenNotFound) && tokens == old(tokens) && enrollments == old(enrollments)
      ensures t in old(tokens) ==>
                && answer == Reserve(old(tokens)[t], old(RowOf(t)), r, now)
                && (Fresh(answer) ==>
                      && tokens == old(tokens)[t := old(tokens)[t].(reservedAt := Some(now))]
                      && enrollments == old(enrollments)[t := NewRow(old(tokens)[t], r, device, issuance)])
                && (!Fresh(answer) ==> tokens == old(tokens) && enrollments == old(enrollments))
    {
      if t !in tokens {
        return Err(TokenNotFound);
      }
      var token := tokens[t];
      if token.consumedAt.Some? {
        return Resume(token, RowOf(t), r, true);
      }
      if token.revokedAt.Some? {
        return Err(TokenRevoked);
      }
      if token.reservedAt.Some? {
        return Resume(token, RowOf(t), r, false);
      }
      if token.expiresAt <= now {
        return Err(TokenExpired);
      }
      if t in enrollments {
        if !enrollments[t].status.Failed? || enrollments[t].certificate.Some? {
          return Err(StateInconsistent);
        }
      }
      enrollments := enrollments[t := NewRow(token, r, device, issuance)];
      tokens := tokens[t := token.(reservedAt := Some(now))];
      return Ok(Reservation(false, false));
    }

    method PersistPkiFailure(t: Id, code: FailureCode)
      modifies this
      ensures t !in old(tokens) || t !in old(enrollments) ==> tokens == old(tokens) && enrollments == old(enrollments)
      ensures t in old(tokens) && t in old(enrollments) ==>
                && tokens == old(tokens)[t := FailedToken(old(tokens)[t], old(enrollments)[t], code)]
                && enrollments == old(enrollments)[t := FailedRow(old(enrollments)[t], code)]
    {
      if t !in tokens || t !in enrollments {
        return;
      }
      var row := enrollments[t].(failureCode := Some(code));
      if code.PkiRejected? && row.certificate.None? {
        row := row.(status := Failed);
        tokens := tokens[t := tokens[t].(reservedAt := None)];
      } else {
        row := row.(status := Pending);
      }
      enrollments := enrollments[t := row];
    }

    method CompleteEnrollment(t: Id, c: Issued, now: Time) returns (r: Result<EnrollmentResult, Error>)
      modifies this
      ensures t !in old(tokens) || t !in old(enrollments) ==>
                r == Err(StateInconsistent) && tokens == old(tokens) && enrollments == old(enrollments)
      ensures t in old(tokens) && t in old(enrollments) ==>
                && tokens == old(tokens)[t := CompletedToken(old(tokens)[t], old(enrollments)[t], now)]
                && enrollments == old(enrollments)[t := CompletedRow(old(tokens)[t], old(enrollments)[t], c, now)]
                && r == ResultOf(enrollments[t])
    {
      if t !in tokens || t !in enrollments {
        return Err(StateInconsistent);
      }
      if enrollments[t].status.Enrolled? && tokens[t].consumedAt.Some? {
        return ResultOf(enrollments[t]);
      }
      enrollments := enrollments[t := enrollments[t].(status := Enrolled, certificate := Some(c), failureCode := None,
                                                      enrolledAt := Some(now))];
      tokens := tokens[t := tokens[t].(consumedAt := Some(now), consumedDevice := Some(enrollments[t].device))];
      return ResultOf(enrollments[t]);
    }
  }

  function Withdrawn(t: Token, now: Time): Token {
    if t.revokedAt.Some? then t else t.(revokedAt := Some(now))
  }

  /** A token is withdrawn when it first is, and stays so. */
  lemma WithdrawnOnce(t: Token, now: Time, later: Time)
    ensures t.revokedAt.None? ==> Withdrawn(t, now).revokedAt == Some(now)
    ensures Withdrawn(Withdrawn(t, now), later) == Withdrawn(t, now)
  {
  }

  // ---------------------------------------------------------------- asking the authority

  datatype Config = Config(keys: string -> Option<Pki.Key>, attempts: nat)

  /** One HTTP exchange: nothing came back, or a response, with a certificate if its body parses. */
  datatype Reply = NoReply | Response(status: int, certificate: Option<Issued>)

  datatype Outcome = Success(certificate: Issued) | Failure(code: FailureCode)

  function IssuedOf(c: Pki.Certificate): Issued {
    Issued(c.id, c.issuance, c.tenant, c.asset, c.device, c.serialHex, c.fingerprint, c.notBefore, c.notAfter)
  }

  /** `_parse_success`. */
  function ParseSuccess(b: Pki.Body, certificate: Option<Issued>): Outcome {
    if certificate.None? then Failure(PkiInvalidResponse)
    else
      var c := certificate.value;
      if c.issuance != b.issuance || c.tenant != b.tenant || c.asset != b.asset || c.device != b.device then
        Failure(PkiInvalidResponse)
      else if "" in [c.id, c.issuance, c.tenant, c.asset, c.device, c.serialHex] || |c.fingerprint| != 64 then
        Failure(PkiInvalidResponse)
      else Success(c)
  }

  /** What a reply settles; nothing means that the client tries again. */
  function Settled(b: Pki.Body, reply: Reply): Option<Outcome> {
    if reply.NoReply? then None
    else if reply.status == 200 || reply.status == 201 then Some(ParseSuccess(b, reply.certificate))
    else if reply.status == 409 then Some(Failure(PkiConflict))
    else if 400 <= reply.status < 500 then Some(Failure(PkiRejected))
    else if reply.status >= 500 then None
    else Some(Failure(PkiUnavailable))
  }

  /** The certificate is for the body, and complete. */
  predicate Answers(c: Issued, b: Pki.Body) {
    && c.issuance == b.issuance && c.tenant == b.tenant && c.asset == b.asset && c.device == b.device
    && c.id != "" && c.issuance != "" && c.tenant != "" && c.asset != "" && c.device != "" && c.serialHex != ""
    && |c.fingerprint| == 64
  }

  /**
   A reply settles the call unless it is missing or a server error. It is a success exactly if it says so
   with a complete certificate for the body, a conflict at 409, and a rejection at any other client error.
   */
  lemma SettledExactlyWhen(b: Pki.Body, reply: Reply)
    ensures var success := reply.Response? && reply.status in {200, 201};
            var answer := success && reply.certificate.Some? && Answers(reply.certificate.value, b);
            && (Settled(b, reply) == None <==> reply.NoReply? || reply.status >= 500)
            && (answer ==> Settled(b, reply) == Some(Success(reply.certificate.value)))
            && (success && !answer <==> Settled(b, reply) == Some(Failure(PkiInvalidResponse)))
            && (Settled(b, reply) == Some(Failure(PkiConflict)) <==> reply.Response? && reply.status == 409)
            && (Settled(b, reply) == Some(Failure(PkiRejected)) <==>
                  reply.Response? && 400 <= reply.status < 500 && reply.status != 409)
            && (Settled(b, reply).Some? && Settled(b, reply).value.Success? ==> answer)
  {
  }

  /** The first reply that settles the matter does; if none does, the authority is unavailable. */
  function FirstSettled(b: Pki.Body, replies: seq<Reply>): Outcome
    decreases |replies|
  {
    if replies == [] then Failure(PkiUnavailable)
    else if Settled(b, replies[0]).Some? then Settled(b, replies[0]).value
    else FirstSettled(b, replies[1..])
  }

  /** `PKIClient.issue`; `replies` is what the network does with the successive attempts. */
  method IssueWithRetries(b: Pki.Body, retryAttempts: int, replies: seq<Reply>) returns (outcome: Outcome)
    requires |replies| >= Max(1, retryAttempts)
    ensures outcome == FirstSettled(b, replies[..Max(1, retryAttempts)])
  {
    var attempts := Max(1, retryAttempts);
    for attempt := 0 to attempts
      invariant FirstSettled(b, replies[..attempts]) == FirstSettled(b, replies[..attempts][attempt..])
    {
      assert replies[..attempts][attempt..][1..] == replies[..attempts][attempt + 1..];
      var reply := replies[attempt];
      match reply
      case NoReply =>
      case Response(status, certificate) =>
        if status == 200 || status == 201 {
          return ParseSuccess(b, certificate);
        }
        if status == 409 {
          return Failure(PkiConflict);
        }
        if 400 <= status < 500 {
          return Failure(PkiRejected);
        }
        if status < 500 {
          return Failure(PkiUnavailable);
        }
    }
    return Failure(PkiUnavailable);
  }

  /** The state of a call: attempts left, or settled and about to be written down. */
  datatype Phase = Calling(left: nat) | Done(outcome: Outcome)

  function NextPhase(b: Pki.Body, left: nat, reply: Reply): Phase {
    if Settled(b, reply).Some? then Done(Settled(b, reply).value)
    else if left <= 1 then Done(Failure(PkiUnavailable))
    else Calling(left - 1)
  }

  function Phases(b: Pki.Body, left: nat, replies: seq<Reply>): Phase
    requires left > 0
    decreases |replies|
  {
    if replies == [] then Calling(left)
    else
      var next := NextPhase(b, left, replies[0]);
      if next.Done? then next else Phases(b, next.left, replies[1..])
  }

  /** Attempt by attempt, a call settles as the client's loop does. */
  lemma {:induction false} PhasesFollowTheLoop(b: Pki.Body, replies: seq<Reply>)
    requires replies != []
    ensures Phases(b, |replies|, replies) == Done(FirstSettled(b, replies))
    decreases |replies|
  {
    if Settled(b, replies[0]).None? && |replies| > 1 {
      PhasesFollowTheLoop(b, replies[1..]);
    } else if Settled(b, replies[0]).None? {
      assert replies[1..] == [];
    }
  }

  /** The body sent for a row. */
  function BodyOf(cfg: Config, row: Enrollment): Pki.Body {
    var key := cfg.keys(row.csrSha);
    Pki.Body(row.issuance, row.tenant, row.asset, row.device, row.platform, row.hostname,
             if key.None? then Pki.BadCsr else Pki.Csr(row.csrSha, key.value))
  }

  /** The grant the service signs for a body; it is valid throughout the call. */
  function GrantFor(b: Pki.Body): Pki.Grant {
    Pki.Grant(Pki.ForIssue, b.tenant, b.asset, b.device, b.issuance, if b.csr.Csr? then b.csr.sha else "")
  }

  function Asked(certs: Pki.Table, b: Pki.Body, ca: Pki.Authority, draw: Pki.Draw)
    : (Result<Pki.Certificate, Pki.Error>, Pki.Table)
  {
    Pki.Issue(certs, b, Some(GrantFor(b)), ca, draw)
  }

  /**
   The authority makes a certificate for a row it has none for exactly if it can read the request, is at hand
   and in force, and its policy and fresh draws allow it.
   */
  lemma FirstAskedExactlyWhen(cfg: Config, certs: Pki.Table, row: Enrollment, ca: Pki.Authority, draw: Pki.Draw)
    requires Unissued(certs, row.issuance)
    ensures Asked(certs, BodyOf(cfg, row), ca, draw).0.Ok?
       <==> && cfg.keys(row.csrSha).Some? && ca.available && 1 <= ca.lifetimeDays <= 90 && draw.now < ca.notAfter
            && row.tenant != "" && row.asset != "" && row.device != "" && row.platform != ""
            && 1 <= |Strip(row.hostname)| <= 255 && Pki.Undrawn(certs, draw)
  {
    if cfg.keys(row.csrSha).Some? && ca.available {
      Pki.SignedExactlyWhen(certs, BodyOf(cfg, row), None, ca, draw);
    }
  }

  function ReplyOf(r: Result<Pki.Certificate, Pki.Error>): Reply {
    match r
    case Ok(c) => Response(201, Some(IssuedOf(c)))
    case Err(e) => Response(Pki.HttpStatus(e), None)
  }

  /** The authority turns the body down whenever it looks at it. */
  predicate Hopeless(b: Pki.Body) {
    || b.csr.BadCsr? || b.tenant == "" || b.asset == "" || b.device == "" || b.platform == ""
    || Strip(b.subjectCn) == "" || |Strip(b.subjectCn)| > 255
  }

  predicate Unissued(certs: Pki.Table, issuance: Id) {
    forall i {:trigger certs[i]} :: 0 <= i < |certs| ==> certs[i].issuance != issuance
  }

  lemma RejectedMeansHopeless(certs: Pki.Table, b: Pki.Body, ca: Pki.Authority, draw: Pki.Draw)
    requires Settled(b, ReplyOf(Asked(certs, b, ca, draw).0)) == Some(Failure(PkiRejected))
    ensures Hopeless(b)
  {
  }

  lemma HopelessIsNeverIssued(certs: Pki.Table, b: Pki.Body, ca: Pki.Authority, draw: Pki.Draw)
    requires Hopeless(b) && Unissued(certs, b.issuance)
    ensures Asked(certs, b, ca, draw).1 == certs && Asked(certs, b, ca, draw).0.Err?
  {
  }
}
