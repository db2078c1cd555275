/**
 The certificate authority's table (`services/pki-service/app/api.py`, `rotation_api.py` and
 `certificates.py`): issuing, rotating and revoking device certificates. Rows are kept in the order of
 insertion. Parsing requests, verifying grants and signing are outside; only what they decide comes in.
 */
module Pki {
  import opened Common
  import opened Text

  type Id = string
  type Key = string

  /** A signing request as parsed: rejected, or its digest and public key. */
  datatype Csr = BadCsr | Csr(sha: string, key: Key)

  datatype Body = Body(issuance: Id, tenant: Id, asset: Id, device: Id, platform: string, subjectCn: string, csr: Csr)

  datatype GrantKind = ForIssue | ForRotation

  datatype Grant = Grant(kind: GrantKind, tenant: Id, asset: Id, device: Id, issuance: Id, sha: string)

  datatype Status = Active | Revoked

  datatype Certificate = Certificate(
    id: Id, issuance: Id, tenant: Id, asset: Id, device: Id, platform: string, serialHex: string, csrSha: string,
    fingerprint: string, subjectCn: string, key: Key, notBefore: Time, notAfter: Time,
    status: Status, supersedes: Option<Id>, revokedAt: Option<Time>, reason: Option<string>)

  /** The signing material and the policy in force at a call. */
  datatype Authority = Authority(available: bool, notAfter: Time, lifetimeDays: int, clockSkew: Time)

  /** What a call draws at random, and its clock reading. */
  datatype Draw = Draw(id: Id, serial: nat, fingerprint: string, now: Time)

  datatype Error =
    | InvalidCsr | GrantRequired | GrantMismatch | CaUnavailable | IssuanceConflict | ProfileInvalid | IdentityInvalid
    | CertificateNotFound | RotationIdentityMismatch | AlreadyRevoked | KeyReuse

  type Table = seq<Certificate>

  const DAY: Time := 86400

  // ---------------------------------------------------------------- lookups

  function ByIssuance(certs: Table, issuance: Id): (r: Option<nat>)
    ensures r.Some? ==> r.value < |certs| && certs[r.value].issuance == issuance
    ensures r.None? ==> forall i :: 0 <= i < |certs| ==> certs[i].issuance != issuance
    decreases |certs|
  {
    if certs == [] then None
    else if certs[|certs| - 1].issuance == issuance then Some(|certs| - 1)
    else ByIssuance(certs[..|certs| - 1], issuance)
  }

  function ById(certs: Table, id: Id): (r: Option<nat>)
    ensures r.Some? ==> r.value < |certs| && certs[r.value].id == id
    ensures r.None? ==> forall i :: 0 <= i < |certs| ==> certs[i].id != id
    decreases |certs|
  {
    if certs == [] then None
    else if certs[|certs| - 1].id == id then Some(|certs| - 1)
    else ById(certs[..|certs| - 1], id)
  }

  // ---------------------------------------------------------------- what the handlers compute

  function HttpStatus(e: Error): int {
    match e
    case InvalidCsr => 422
    case GrantRequired => 401
    case GrantMismatch => 403
    case CaUnavailable => 503
    case IssuanceConflict => 409
    case ProfileInvalid => 500
    case IdentityInvalid => 422
    case CertificateNotFound => 404
    case RotationIdentityMismatch => 409
    case AlreadyRevoked => 409
    case KeyReuse => 409
  }

  predicate Covers(g: Grant, b: Body)
    requires b.csr.Csr?
  {
    g.tenant == b.tenant && g.asset == b.asset && g.device == b.device && g.issuance == b.issuance && g.sha == b.csr.sha
  }

  /** The checks before the table is consulted. */
  function Refused(b: Body, grant: Option<Grant>, kind: GrantKind): Option<Error> {
    if b.csr.BadCsr? then Some(InvalidCsr)
    else if grant.None? || grant.value.kind != kind then Some(GrantRequired)
    else if !Covers(grant.value, b) then Some(GrantMismatch)
    else None
  }

  /** `_same_issuance`. */
  predicate SameIssuance(c: Certificate, b: Body)
    requires b.csr.Csr?
  {
    && c.issuance == b.issuance && c.tenant == b.tenant && c.asset == b.asset && c.device == b.device
    && c.platform == b.platform && c.subjectCn == Strip(b.subjectCn) && c.csrSha == b.csr.sha
  }

  predicate SameIdentity(c: Certificate, b: Body) {
    c.tenant == b.tenant && c.asset == b.asset && c.device == b.device && c.platform == b.platform
  }

  /** `issue_device_certificate`. */
  function Signed(b: Body, supersedes: Option<Id>, ca: Authority, draw: Draw): Result<Certificate, Error>
    requires b.csr.Csr?
  {
    var cn, notAfter := Strip(b.subjectCn), Min(draw.now + ca.lifetimeDays * DAY, ca.notAfter);
    if !(1 <= ca.lifetimeDays <= 90) then Err(ProfileInvalid)
    else if b.tenant == "" || b.asset == "" || b.device == "" || b.platform == "" then Err(IdentityInvalid)
    else if cn == "" || |cn| > 255 then Err(IdentityInvalid)
    else if notAfter <= draw.now then Err(CaUnavailable)
    else Ok(Certificate(draw.id, b.issuance, b.tenant, b.asset, b.device, b.platform, Hex(draw.serial, 'A'), b.csr.sha,
                        draw.fingerprint, cn, b.csr.key, draw.now - ca.clockSkew, notAfter, Active,
                        supersedes, None, None))
  }

  /** The unique columns. */
  predicate Apart(a: Certificate, b: Certificate) {
    a.id != b.id && a.issuance != b.issuance && a.serialHex != b.serialHex && a.fingerprint != b.fingerprint
  }

  predicate Fits(certs: Table, c: Certificate) {
    forall i {:trigger Apart(certs[i], c)} :: 0 <= i < |certs| ==> Apart(certs[i], c)
  }

  function RevokedAs(c: Certificate, now: Time, reason: string): Certificate {
    c.(status := Revoked, revokedAt := Some(now), reason := Some(reason))
  }

  /** Signing and inserting; a unique column that is taken rolls back. */
  function Inserted(certs: Table, signed: Result<Certificate, Error>): (Result<Certificate, Error>, Table) {
    if signed.Err? then (signed, certs)
    else if !Fits(certs, signed.value) then (Err(IssuanceConflict), certs)
    else (signed, certs + [signed.value])
  }

  function Issue(certs: Table, b: Body, grant: Option<Grant>, ca: Authority, draw: Draw)
    : (Result<Certificate, Error>, Table)
  {
    var refused := Refused(b, grant, ForIssue);
    if refused.Some? then (Err(refused.value), certs)
    else if !ca.available then (Err(CaUnavailable), certs)
    else
      var existing := ByIssuance(certs, b.issuance);
      if existing.Some? then
        (if SameIssuance(certs[existing.value], b) then Ok(certs[existing.value]) else Err(IssuanceConflict), certs)
      else Inserted(certs, Signed(b, None, ca, draw))
  }

  /** The part of a rotation after the prior certificate is found. */
  function Replace(certs: Table, prior: nat, b: Body, ca: Authority, draw: Draw): (Result<Certificate, Error>, Table)
    requires prior < |certs| && b.csr.Csr?
  {
    if certs[prior].status.Revoked? then (Err(AlreadyRevoked), certs)
    else if certs[prior].key == b.csr.key then (Err(KeyReuse), certs)
    else
      var (r, after) := Inserted(certs, Signed(b, Some(certs[prior].id), ca, draw));
      (r, if r.Ok? then certs[prior := RevokedAs(certs[prior], draw.now, "superseded")] + [r.value] else certs)
  }

  function Rotate(certs: Table, id: Id, b: Body, grant: Option<Grant>, ca: Authority, draw: Draw)
    : (Result<Certificate, Error>, Table)
  {
    var refused, prior := Refused(b, grant, ForRotation), ById(certs, id);
    if refused.Some? then (Err(refused.value), certs)
    else if prior.None? then (Err(CertificateNotFound), certs)
    else if !SameIdentity(certs[prior.value], b) then (Err(RotationIdentityMismatch), certs)
    else if !ca.available then (Err(CaUnavailable), certs)
    else
      var existing := ByIssuance(certs, b.issuance);
      if existing.Some? then
        (if certs[existing.value].supersedes == Some(id) && SameIssuance(certs[existing.value], b)
         then Ok(certs[existing.value]) else Err(IssuanceConflict), certs)
      else Replace(certs, prior.value, b, ca, draw)
  }

  function Revoke(certs: Table, id: Id, reason: string, ca: Authority, now: Time): (Result<Certificate, Error>, Table) {
    var i := ById(certs, id);
    if i.None? then (Err(CertificateNotFound), certs)
    else if !ca.available then (Err(CaUnavailable), certs)
    else if certs[i.value].status.Revoked? then (Ok(certs[i.value]), certs)
    else (Ok(RevokedAs(certs[i.value], now, reason)), certs[i.value := RevokedAs(certs[i.value], now, reason)])
  }

  class CertificateTable {
    var certs: Table

    constructor ()
      ensures certs == []
    {
      certs := [];
    }

    method IssueCertificate(b: Body, grant: Option<Grant>, ca: Authority, draw: Draw)
      returns (r: Result<Certificate, Error>)
      modifies this
      ensures (r, certs) == Issue(old(certs), b, grant, ca, draw)
    {
      var refused := Refused(b, grant, ForIssue);
      if refused.Some? {
        return Err(refused.value);
      }
      if !ca.available {
        return Err(CaUnavailable);
      }
      var existing := ByIssuance(certs, b.issuance);
      if existing.Some? {
        if !SameIssuance(certs[existing.value], b) {
          return Err(IssuanceConflict);
        }
        return Ok(certs[existing.value]);
      }
      r := Signed(b, None, ca, draw);
      if r.Ok? {
        if Fits(certs, r.value) {
          certs := certs + [r.value];
        } else {
          r := Err(IssuanceConflict);
        }
      }
    }

    method RotateCertificate(id: Id, b: Body, grant: Option<Grant>, ca: Authority, draw: Draw)
      returns (r: Result<Certificate, Error>)
      modifies this
      ensures (r, certs) == Rotate(old(certs), id, b, grant, ca, draw)
    {
      var refused := Refused(b, grant, ForRotation);
      if refused.Some? {
        return Err(refused.value);
      }
      var previous := ById(certs, id);
      if previous.None? {
        return Err(CertificateNotFound);
      }
      if !SameIdentity(certs[previous.value], b) {
        return Err(RotationIdentityMismatch);
      }
      if !ca.available {
        return Err(CaUnavailable);
      }
      var existing := ByIssuance(certs, b.issuance);
      if existing.Some? {
        if certs[existing.value].supersedes != Some(id) || !SameIssuance(certs[existing.value], b) {
          return Err(IssuanceConflict);
        }
        return Ok(certs[existing.value]);
      }
      if certs[previous.value].status.Revoked? {
        return Err(AlreadyRevoked);
      }
      if certs[previous.value].key == b.csr.key {
        return Err(KeyReuse);
      }
      r := Signed(b, Some(certs[previous.value].id), ca, draw);
      if r.Ok? {
        if Fits(certs, r.value) {
          certs := certs[previous.value := RevokedAs(certs[previous.value], draw.now, "superseded")] + [r.value];
        } else {
          r := Err(IssuanceConflict);
        }
      }
    }

    method RevokeCertificate(id: Id, reason: string, ca: Authority, now: Time) returns (r: Result<Certificate, Error>)
      modifies this
      ensures (r, certs) == Revoke(old(certs), id, reason, ca, now)
    {
      var i := ById(certs, id);
      if i.None? {
        return Err(CertificateNotFound);
      }
      if !ca.available {
        return Err(CaUnavailable);
      }
      if !certs[i.value].status.Revoked? {
        certs := certs[i.value := RevokedAs(certs[i.value], now, reason)];
      }
      return Ok(certs[i.value]);
    }
  }

  // ---------------------------------------------------------------- the invariant of the table

  predicate UniqueAt(certs: Table, i: nat, j: nat)
    requires i < j < |certs|
  {
    Apart(certs[i], certs[j]) && (certs[j].supersedes.Some? ==> certs[i].supersedes != certs[j].supersedes)
  }

  /** What row `i` supersedes is an earlier, revoked row for the same device with another key. */
  predicate LinkSound(certs: Table, i: nat)
    requires i < |certs|
  {
    certs[i].supersedes.Some? ==>
      var j := ById(certs, certs[i].supersedes.value);
      && j.Some? && j.value < i && certs[j.value].status.Revoked? && certs[j.value].key != certs[i].key
      && certs[j.value].tenant == certs[i].tenant && certs[j.value].asset == certs[i].asset
      && certs[j.value].device == certs[i].device && certs[j.value].platform == certs[i].platform
  }

  predicate DatedAt(certs: Table, i: nat)
    requires i < |certs|
  {
    certs[i].status.Revoked? <==> certs[i].revokedAt.Some?
  }

  ghost predicate Inv(certs: Table) {
    && (forall i, j {:trigger UniqueAt(certs, i, j)} :: 0 <= i < j < |certs| ==> UniqueAt(certs, i, j))
    && (forall i {:trigger LinkSound(certs, i)} :: 0 <= i < |certs| ==> LinkSound(certs, i))
    && (forall i {:trigger DatedAt(certs, i)} :: 0 <= i < |certs| ==> DatedAt(certs, i))
  }

  /** A unique column names one row. */
  lemma OneRowPerValue(certs: Table, i: nat, j: nat)
    requires Inv(certs) && i < |certs| && j < |certs|
    ensures || certs[i].id == certs[j].id || certs[i].issuance == certs[j].issuance
            || certs[i].serialHex == certs[j].serialHex
            || (certs[i].supersedes.Some? && certs[i].supersedes == certs[j].supersedes)
            ==> i == j
  {
    if i < j {
      assert UniqueAt(certs, i, j);
    } else if j < i {
      assert UniqueAt(certs, j, i);
    }
  }

  lemma FoundById(certs: Table, i: nat)
    requires Inv(certs) && i < |certs|
    ensures ById(certs, certs[i].id) == Some(i)
  {
    OneRowPerValue(certs, ById(certs, certs[i].id).value, i);
  }

  lemma FoundByIssuance(certs: Table, i: nat)
    requires Inv(certs) && i < |certs|
    ensures ByIssuance(certs, certs[i].issuance) == Some(i)
  {
    OneRowPerValue(certs, ByIssuance(certs, certs[i].issuance).value, i);
  }

  /** `after` has every row of `certs`, unchanged but for a revocation of an active one. */
  predicate RowKept(c: Certificate, d: Certificate) {
    || d == c
    || (c.status.Active? && d.status.Revoked?
        && d == c.(status := Revoked, revokedAt := d.revokedAt, reason := d.reason))
  }

  predicate KeptAt(certs: Table, after: Table, i: nat)
    requires i < |certs| <= |after|
  {
    RowKept(certs[i], after[i])
  }

  predicate Kept(certs: Table, after: Table) {
    |certs| <= |after| && forall i {:trigger KeptAt(certs, after, i)} :: 0 <= i < |certs| ==> KeptAt(certs, after, i)
  }

  lemma SameIdsSameRow(certs: Table, after: Table, id: Id)
    requires Inv(certs) && |certs| <= |after|
    requires forall i {:trigger certs[i]} :: 0 <= i < |certs| ==> after[i].id == certs[i].id
    requires forall i {:trigger after[i]} :: |certs| <= i < |after| ==> after[i].id != id
    ensures ById(after, id) == ById(certs, id)
  {
    var a, c := ById(after, id), ById(certs, id);
    if c.Some? {
      assert after[c.value].id == id;
    }
    if a.Some? {
      assert certs[a.value].id == id;
      FoundById(certs, a.value);
    }
  }

  lemma RevokeRowKeeps(certs: Table, k: nat, now: Time, reason: string)
    requires Inv(certs) && k < |certs| && certs[k].status.Active?
    ensures Inv(certs[k := RevokedAs(certs[k], now, reason)])
    ensures Kept(certs, certs[k := RevokedAs(certs[k], now, reason)])
  {
    var after := certs[k := RevokedAs(certs[k], now, reason)];
    forall i, j | 0 <= i < j < |after| ensures UniqueAt(after, i, j) {
      assert UniqueAt(certs, i, j);
    }
    forall i | 0 <= i < |after| ensures LinkSound(after, i) {
      assert LinkSound(certs, i);
      if certs[i].supersedes.Some? {
        SameIdsSameRow(certs, after, certs[i].supersedes.value);
      }
    }
    forall i | 0 <= i < |after| ensures DatedAt(after, i) && KeptAt(certs, after, i) {
      assert DatedAt(certs, i);
    }
  }

  /** A new row that fits, and supersedes nothing or a revoked row nothing else supersedes. */
  predicate Appendable(certs: Table, c: Certificate) {
    && Fits(certs, c) && c.status.Active? && c.revokedAt.None?
    && (c.supersedes.Some? ==>
          && (forall i {:trigger certs[i]} :: 0 <= i < |certs| ==> certs[i].supersedes != c.supersedes)
          && var j := ById(certs, c.supersedes.value);
             && j.Some? && certs[j.value].status.Revoked? && certs[j.value].key != c.key
             && certs[j.value].tenant == c.tenant && certs[j.value].asset == c.asset
             && certs[j.value].device == c.device && certs[j.value].platform == c.platform)
  }

  lemma AppendKeeps(certs: Table, c: Certificate)
    requires Inv(certs) && Appendable(certs, c)
    ensures Inv(certs + [c]) && Kept(certs, certs + [c])
  {
    var after := certs + [c];
    forall i, j | 0 <= i < j < |after| ensures UniqueAt(after, i, j) {
      if j < |certs| {
        assert UniqueAt(certs, i, j);
      } else {
        assert Apart(certs[i], c);
      }
    }
    forall i | 0 <= i < |after| ensures LinkSound(after, i) {
      if after[i].supersedes.Some? {
        if i < |certs| {
          assert LinkSound(certs, i);
        }
        var j := ById(certs, after[i].supersedes.value).value;
        assert Apart(certs[j], c);
        SameIdsSameRow(certs, after, after[i].supersedes.value);
      }
    }
    forall i | 0 <= i < |after| ensures DatedAt(after, i) && (i < |certs| ==> KeptAt(certs, after, i)) {
      if i < |certs| {
        assert DatedAt(certs, i);
      }
    }
  }

  /** What is replaced is revoked, so an active row is replaced by nothing. */
  lemma ActiveIsNotReplaced(certs: Table, k: nat)
    requires Inv(certs) && k < |certs| && certs[k].status.Active?
    ensures forall i {:trigger certs[i]} :: 0 <= i < |certs| ==> certs[i].supersedes != Some(certs[k].id)
  {
    forall i | 0 <= i < |certs| ensures certs[i].supersedes != Some(certs[k].id) {
      assert LinkSound(certs, i);
      FoundById(certs, k);
    }
  }

  lemma KeptTransitive(a: Table, b: Table, c: Table)
    requires Kept(a, b) && Kept(b, c)
    ensures Kept(a, c)
  {
    forall i | 0 <= i < |a| ensures KeptAt(a, c, i) {
      assert KeptAt(a, b, i) && KeptAt(b, c, i);
    }
  }

  lemma KeptSelf(certs: Table)
    ensures Kept(certs, certs)
  {
  }

  lemma ReplaceKeeps(certs: Table, k: nat, b: Body, ca: Authority, draw: Draw)
    requires Inv(certs) && k < |certs| && b.csr.Csr? && SameIdentity(certs[k], b)
    ensures Inv(Replace(certs, k, b, ca, draw).1) && Kept(certs, Replace(certs, k, b, ca, draw).1)
  {
    var (r, after) := Replace(certs, k, b, ca, draw);
    KeptSelf(certs);
    if r.Ok? {
      var middle := certs[k := RevokedAs(certs[k], draw.now, "superseded")];
      RevokeRowKeeps(certs, k, draw.now, "superseded");
      ActiveIsNotReplaced(certs, k);
      FoundById(middle, k);
      forall i | 0 <= i < |middle| ensures Apart(middle[i], r.value) {
        assert Apart(certs[i], r.value);
      }
      AppendKeeps(middle, r.value);
      KeptTransitive(certs, middle, after);
    }
  }

  // ---------------------------------------------------------------- every run

  datatype Op =
    | IssueOp(body: Body, grant: Option<Grant>, ca: Authority, draw: Draw)
    | RotateOp(id: Id, body: Body, grant: Option<Grant>, ca: Authority, draw: Draw)
    | RevokeOp(id: Id, reason: string, ca: Authority, now: Time)

  function Apply(certs: Table, op: Op): Table {
    match op
    case IssueOp(b, grant, ca, draw) => Issue(certs, b, grant, ca, draw).1
    case RotateOp(id, b, grant, ca, draw) => Rotate(certs, id, b, grant, ca, draw).1
    case RevokeOp(id, reason, ca, now) => Revoke(certs, id, reason, ca, now).1
  }

  function Run(certs: Table, ops: seq<Op>): Table
    decreases |ops|
  {
    if ops == [] then certs else Run(Apply(certs, ops[0]), ops[1..])
  }

  lemma IssueKeeps(certs: Table, b: Body, grant: Option<Grant>, ca: Authority, draw: Draw)
    requires Inv(certs)
    ensures Inv(Issue(certs, b, grant, ca, draw).1) && Kept(certs, Issue(certs, b, grant, ca, draw).1)
  {
    var (r, after) := Issue(certs, b, grant, ca, draw);
    KeptSelf(certs);
    if after != certs {
      AppendKeeps(certs, r.value);
    }
  }

  lemma ApplyKeeps(certs: Table, op: Op)
    requires Inv(certs)
    ensures Inv(Apply(certs, op)) && Kept(certs, Apply(certs, op))
  {
    KeptSelf(certs);
    match op
    case IssueOp(b, grant, ca, draw) => IssueKeeps(certs, b, grant, ca, draw);
    case RotateOp(id, b, grant, ca, draw) =>
      var k := ById(certs, id);
      if b.csr.Csr? && k.Some? && SameIdentity(certs[k.value], b) {
        ReplaceKeeps(certs, k.value, b, ca, draw);
      }
    case RevokeOp(id, reason, ca, now) =>
      var k := ById(certs, id);
      if k.Some? && certs[k.value].status.Active? {
        RevokeRowKeeps(certs, k.value, now, reason);
      }
  }

  /**
   Rows are never lost or altered except to be revoked, once and for all, and the invariant holds:
   unique columns, sound links, no certificate replaced twice.
   */
  lemma {:induction false} RunKeeps(certs: Table, ops: seq<Op>)
    requires Inv(certs)
    ensures Inv(Run(certs, ops)) && Kept(certs, Run(certs, ops))
    decreases |ops|
  {
    if ops == [] {
      KeptSelf(certs);
    } else {
      ApplyKeeps(certs, ops[0]);
      RunKeeps(Apply(certs, ops[0]), ops[1..]);
      KeptTransitive(certs, Apply(certs, ops[0]), Run(certs, ops));
    }
  }

  ghost predicate Reachable(certs: Table) {
    exists ops :: certs == Run([], ops)
  }

  lemma ReachableInv(certs: Table)
    requires Reachable(certs)
    ensures Inv(certs)
  {
    var ops :| certs == Run([], ops);
    RunKeeps([], ops);
  }

  // ---------------------------------------------------------------- grants

  /** The grant is of this kind, and names what the certificate certifies. */
  predicate GrantNames(grant: Option<Grant>, kind: GrantKind, c: Certificate) {
    && grant.Some? && grant.value.kind == kind
    && grant.value.tenant == c.tenant && grant.value.asset == c.asset && grant.value.device == c.device
    && grant.value.issuance == c.issuance && grant.value.sha == c.csrSha
  }

  /**
   No certificate is answered or added without a grant for issuing, respectively rotating, that names its
   tenant, asset, device, issuance id and signing request.
   */
  lemma NothingWithoutAGrant(certs: Table, id: Id, b: Body, grant: Option<Grant>, ca: Authority, draw: Draw)
    ensures var (r, after) := Issue(certs, b, grant, ca, draw);
            && (after != certs ==> r.Ok? && after == certs + [r.value])
            && (r.Ok? ==> GrantNames(grant, ForIssue, r.value))
    ensures var (r, after) := Rotate(certs, id, b, grant, ca, draw);
            && (after != certs ==> r.Ok? && |after| == |certs| + 1 && after[|certs|] == r.value)
            && (r.Ok? ==> GrantNames(grant, ForRotation, r.value) && r.value.supersedes == Some(id))
  {
    if Rotate(certs, id, b, grant, ca, draw).0.Ok? {
      var _ := RotateStores(certs, id, b, grant, ca, draw);
    }
  }

  /**
   The certificate says what was asked for and drawn. It is in force when it is made, for the time the policy
   gives, at most 90 days, but no longer than the authority's own certificate.
   */
  predicate Certifies(c: Certificate, b: Body, ca: Authority, draw: Draw) {
    && c.issuance == b.issuance && c.tenant == b.tenant && c.asset == b.asset && c.device == b.device
    && c.platform == b.platform && c.subjectCn == Strip(b.subjectCn) && b.csr == Csr(c.csrSha, c.key)
    && c.tenant != "" && c.asset != "" && c.device != "" && c.platform != "" && 1 <= |c.subjectCn| <= 255
    && c.id == draw.id && c.serialHex == Hex(draw.serial, 'A') && c.fingerprint == draw.fingerprint
    && ca.available && c.notBefore == draw.now - ca.clockSkew && draw.now < c.notAfter <= ca.notAfter
    && c.notAfter <= draw.now + 90 * DAY
    && (c.notAfter == ca.notAfter || c.notAfter == draw.now + ca.lifetimeDays * DAY)
    && c.notAfter <= draw.now + ca.lifetimeDays * DAY
  }

  /** The operation has a grant of its kind for the certificate, and asked for it. */
  predicate Grants(op: Op, c: Certificate) {
    match op
    case IssueOp(b, grant, ca, draw) =>
      GrantNames(grant, ForIssue, c) && c.supersedes.None? && Certifies(c, b, ca, draw)
    case RotateOp(id, b, grant, ca, draw) =>
      GrantNames(grant, ForRotation, c) && c.supersedes == Some(id) && Certifies(c, b, ca, draw)
    case RevokeOp(_, _, _, _) => false
  }

  /** The row was asked for with this body: nothing that identifies a request differs. */
  predicate AskedFor(c: Certificate, b: Body) {
    && c.issuance == b.issuance && c.tenant == b.tenant && c.asset == b.asset && c.device == b.device
    && c.platform == b.platform && c.subjectCn == Strip(b.subjectCn) && b.csr.Csr? && b.csr.sha == c.csrSha
  }

  /** The policy and the authority's own certificate allow a certificate for this body. */
  predicate Signable(b: Body, ca: Authority, now: Time) {
    && 1 <= ca.lifetimeDays <= 90 && now < ca.notAfter && 1 <= |Strip(b.subjectCn)| <= 255
    && b.tenant != "" && b.asset != "" && b.device != "" && b.platform != ""
  }

  /** Nothing that was drawn is in the table already. */
  predicate Undrawn(certs: Table, draw: Draw) {
    forall i {:trigger certs[i]} :: 0 <= i < |certs| ==>
      && certs[i].id != draw.id && certs[i].serialHex != Hex(draw.serial, 'A')
      && certs[i].fingerprint != draw.fingerprint
  }

  predicate GrantNamesBody(grant: Option<Grant>, kind: GrantKind, b: Body) {
    && grant.Some? && grant.value.kind == kind && b.csr.Csr?
    && grant.value == Grant(kind, b.tenant, b.asset, b.device, b.issuance, b.csr.sha)
  }

  predicate Knows(certs: Table, issuance: Id) {
    exists i {:trigger certs[i]} :: 0 <= i < |certs| && certs[i].issuance == issuance
  }

  lemma SignedExactlyWhen(certs: Table, b: Body, supersedes: Option<Id>, ca: Authority, draw: Draw)
    requires b.csr.Csr? && ca.available && !Knows(certs, b.issuance)
    ensures var (r, after) := Inserted(certs, Signed(b, supersedes, ca, draw));
            && (r.Ok? <==> Signable(b, ca, draw.now) && Undrawn(certs, draw))
            && (r.Ok? ==>
                  && after == certs + [r.value] && Certifies(r.value, b, ca, draw) && r.value.supersedes == supersedes
                  && r.value.status.Active? && r.value.revokedAt.None? && r.value.reason.None?)
            && (r.Err? ==> after == certs)
            && (r == Err(ProfileInvalid) <==> !(1 <= ca.lifetimeDays <= 90))
            && (r == Err(IssuanceConflict) <==> Signable(b, ca, draw.now) && !Undrawn(certs, draw))
  {
    var signed := Signed(b, supersedes, ca, draw);
    if signed.Ok? {
      forall i | 0 <= i < |certs|
        ensures Apart(certs[i], signed.value)
           <==> && certs[i].id != draw.id && certs[i].serialHex != Hex(draw.serial, 'A')
                && certs[i].fingerprint != draw.fingerprint
      {
        assert certs[i].issuance != b.issuance;
      }
      assert Undrawn(certs, draw) ==> Fits(certs, signed.value);
    }
  }

  /**
   In every reachable table an issuance succeeds exactly with a grant for issuing that names the body, an
   authority at hand, and either a row for the same request, which is the answer, or no row for its issuance
   id, a body the policy allows and fresh draws: then the row that certifies the body is added.
   */
  lemma IssueExactlyWhen(certs: Table, b: Body, grant: Option<Grant>, ca: Authority, draw: Draw)
    requires Reachable(certs)
    ensures var (r, after) := Issue(certs, b, grant, ca, draw);
            var allowed := GrantNamesBody(grant, ForIssue, b) && ca.available;
            && (r.Ok? ==> allowed) && (r.Err? ==> after == certs)
            && (allowed && Knows(certs, b.issuance) ==>
                  && after == certs && (r.Ok? ==> r.value in certs)
                  && forall i {:trigger certs[i]} :: 0 <= i < |certs| && certs[i].issuance == b.issuance ==>
                       r == if AskedFor(certs[i], b) then Ok(certs[i]) else Err(IssuanceConflict))
            && (allowed && !Knows(certs, b.issuance) ==>
                  && (r.Ok? <==> Signable(b, ca, draw.now) && Undrawn(certs, draw))
                  && (r.Ok? ==>
                        && after == certs + [r.value] && Certifies(r.value, b, ca, draw)
                        && r.value.supersedes.None? && r.value.status.Active?))
            && (r == Err(InvalidCsr) <==> b.csr.BadCsr?)
            && (r == Err(GrantRequired) <==> b.csr.Csr? && (grant.None? || !grant.value.kind.ForIssue?))
            && (r == Err(GrantMismatch) <==>
                  b.csr.Csr? && grant.Some? && grant.value.kind.ForIssue? && !GrantNamesBody(grant, ForIssue, b))
            && (GrantNamesBody(grant, ForIssue, b) && !ca.available ==> r == Err(CaUnavailable))
  {
    ReachableInv(certs);
    var existing := ByIssuance(certs, b.issuance);
    if existing.Some? {
      forall i | 0 <= i < |certs| && certs[i].issuance == b.issuance ensures i == existing.value {
        FoundByIssuance(certs, i);
      }
    } else if b.csr.Csr? && ca.available {
      SignedExactlyWhen(certs, b, None, ca, draw);
    }
  }

  /**
   In every reachable table a rotation succeeds exactly with a grant for rotating that names the body, a row
   with the given id for the same device, an authority at hand, and either a row that replaced it for the
   same request, which is the answer, or no row for its issuance id, an active row to replace, another key, a
   body the policy allows and fresh draws: then the row is revoked as superseded and its successor added.
   */
  lemma RotateExactlyWhen(certs: Table, k: nat, b: Body, grant: Option<Grant>, ca: Authority, draw: Draw)
    requires Reachable(certs) && k < |certs|
    ensures var c := certs[k];
            var (r, after) := Rotate(certs, c.id, b, grant, ca, draw);
            var named := GrantNamesBody(grant, ForRotation, b);
            var same := && c.tenant == b.tenant && c.asset == b.asset && c.device == b.device
                        && c.platform == b.platform;
            var allowed := named && same && ca.available;
            && (r == Err(RotationIdentityMismatch) <==> named && !same)
            && (named && same && !ca.available ==> r == Err(CaUnavailable))
            && (r.Ok? ==> allowed) && (r.Err? ==> after == certs)
            && (allowed && Knows(certs, b.issuance) ==>
                  && after == certs && (r.Ok? ==> r.value in certs)
                  && forall i {:trigger certs[i]} :: 0 <= i < |certs| && certs[i].issuance == b.issuance ==>
                       r == if AskedFor(certs[i], b) && certs[i].supersedes == Some(c.id) then Ok(certs[i])
                            else Err(IssuanceConflict))
            && (allowed && !Knows(certs, b.issuance) ==>
                  && (r.Ok? <==>
                        c.status.Active? && c.key != b.csr.key && Signable(b, ca, draw.now) && Undrawn(certs, draw))
                  && (r.Ok? ==>
                        && Certifies(r.value, b, ca, draw) && r.value.supersedes == Some(c.id)
                        && r.value.status.Active? && after == certs[k := after[k]] + [r.value]
                        && after[k] == c.(status := Revoked, revokedAt := Some(draw.now), reason := Some("superseded")))
                  && (r == Err(AlreadyRevoked) <==> c.status.Revoked?)
                  && (r == Err(KeyReuse) <==> c.status.Active? && c.key == b.csr.key))
  {
    ReachableInv(certs);
    FoundById(certs, k);
    var existing := ByIssuance(certs, b.issuance);
    if existing.Some? {
      forall i | 0 <= i < |certs| && certs[i].issuance == b.issuance ensures i == existing.value {
        FoundByIssuance(certs, i);
      }
    } else if b.csr.Csr? && ca.available {
      SignedExactlyWhen(certs, b, Some(certs[k].id), ca, draw);
    }
  }

  /** A certificate that is not in the table can be neither rotated nor revoked. */
  lemma NotFoundExactlyWhen(certs: Table, id: Id, b: Body, grant: Option<Grant>, ca: Authority, draw: Draw)
    ensures var known := exists i {:trigger certs[i]} :: 0 <= i < |certs| && certs[i].id == id;
            && (Rotate(certs, id, b, grant, ca, draw).0 == Err(CertificateNotFound) <==>
                  GrantNamesBody(grant, ForRotation, b) && !known)
            && (Revoke(certs, id, "", ca, draw.now).0 == Err(CertificateNotFound) <==> !known)
            && (!known ==> Rotate(certs, id, b, grant, ca, draw).1 == Revoke(certs, id, "", ca, draw.now).1 == certs)
  {
  }

  /** A revocation revokes the row it names, once; another one is answered by the row as it is. */
  lemma RevokeExactlyWhen(certs: Table, k: nat, reason: string, ca: Authority, now: Time)
    requires Reachable(certs) && k < |certs|
    ensures var c := certs[k];
            var (r, after) := Revoke(certs, c.id, reason, ca, now);
            && (r.Ok? <==> ca.available) && (r.Err? ==> r.error == CaUnavailable && after == certs)
            && (r.Ok? ==>
                  && after == certs[k := r.value]
                  && r.value == if c.status.Revoked? then c
                                else c.(status := Revoked, revokedAt := Some(now), reason := Some(reason)))
  {
    ReachableInv(certs);
    FoundById(certs, k);
  }

  /** Operation `k` adds row `i`, and has a grant for it. */
  predicate GrantedAt(certs: Table, ops: seq<Op>, k: nat, i: nat)
    requires k < |ops| && i < |Run(certs, ops)|
  {
    && |Run(certs, ops[..k])| <= i < |Run(certs, ops[..k + 1])|
    && Grants(ops[k], Run(certs, ops)[i])
  }

  lemma AddedIsGranted(certs: Table, op: Op, i: nat)
    requires Inv(certs) && |certs| <= i < |Apply(certs, op)|
    ensures Grants(op, Apply(certs, op)[i])
  {
    match op
    case IssueOp(b, grant, ca, draw) => NothingWithoutAGrant(certs, "", b, grant, ca, draw);
    case RotateOp(id, b, grant, ca, draw) => NothingWithoutAGrant(certs, id, b, grant, ca, draw);
    case RevokeOp(_, _, _, _) =>
  }

  /** Over every run each row was added by an operation with a grant for it. */
  lemma {:induction false} EveryRowWasGranted(certs: Table, ops: seq<Op>, i: nat) returns (k: nat)
    requires Inv(certs) && |certs| <= i < |Run(certs, ops)|
    ensures k < |ops| && GrantedAt(certs, ops, k, i)
    decreases |ops|
  {
    var next := Apply(certs, ops[0]);
    ApplyKeeps(certs, ops[0]);
    RunKeeps(next, ops[1..]);
    if i < |next| {
      k := 0;
      assert KeptAt(next, Run(certs, ops), i);
      AddedIsGranted(certs, ops[0], i);
      assert ops[..1] == [ops[0]] && ops[..0] == [] && [ops[0]][1..] == [];
      assert Run(certs, ops[..1]) == Run(next, []) == next;
    } else {
      var j := EveryRowWasGranted(next, ops[1..], i);
      k := j + 1;
      assert ops[..k][1..] == ops[1..][..j] && ops[..k + 1][1..] == ops[1..][..j + 1];
    }
  }

  // ---------------------------------------------------------------- lineages

  /** The row that row `i` supersedes. */
  function Parent(certs: Table, i: nat): (r: Option<nat>)
    requires i < |certs|
    ensures r.Some? ==> r.value < i
  {
    if certs[i].supersedes.None? then None
    else
      var j := ById(certs, certs[i].supersedes.value);
      if j.Some? && j.value < i then j else None
  }

  /** The certificate the lineage of row `i` started with. */
  function Root(certs: Table, i: nat): (r: nat)
    requires i < |certs|
    ensures r <= i
    decreases i
  {
    if Parent(certs, i).None? then i else Root(certs, Parent(certs, i).value)
  }

  /** How many rotations lead to row `i`. */
  function Generation(certs: Table, i: nat): nat
    requires i < |certs|
    decreases i
  {
    if Parent(certs, i).None? then 0 else 1 + Generation(certs, Parent(certs, i).value)
  }

  /** A lineage is a path: it has one certificate in each generation. */
  lemma {:induction false} OnePerGeneration(certs: Table, i: nat, j: nat)
    requires Inv(certs) && i < |certs| && j < |certs|
    requires Root(certs, i) == Root(certs, j) && Generation(certs, i) == Generation(certs, j)
    ensures i == j
    decreases i
  {
    if Parent(certs, i).Some? {
      OnePerGeneration(certs, Parent(certs, i).value, Parent(certs, j).value);
      OneRowPerValue(certs, i, j);
    }
  }

  /** A certificate with a later generation in its lineage is revoked. */
  lemma {:induction false} SupersededIsRevoked(certs: Table, i: nat, j: nat)
    requires Inv(certs) && i < |certs| && j < |certs|
    requires Root(certs, i) == Root(certs, j) && Generation(certs, i) < Generation(certs, j)
    ensures certs[i].status.Revoked?
    decreases j
  {
    var p := Parent(certs, j).value;
    assert LinkSound(certs, j);
    if Generation(certs, p) == Generation(certs, i) {
      OnePerGeneration(certs, i, p);
    } else {
      SupersededIsRevoked(certs, i, p);
    }
  }

  /** After any run: each lineage has at most one active certificate, and it is the last of its line. */
  lemma OneActivePerLineage(certs: Table, i: nat, j: nat)
    requires Reachable(certs) && i < |certs| && j < |certs| && Root(certs, i) == Root(certs, j)
    requires certs[i].status.Active?
    ensures certs[j].status.Active? ==> i == j
    ensures Generation(certs, j) <= Generation(certs, i)
  {
    ReachableInv(certs);
    if Generation(certs, i) < Generation(certs, j) {
      SupersededIsRevoked(certs, i, j);
    } else if Generation(certs, j) < Generation(certs, i) {
      SupersededIsRevoked(certs, j, i);
    } else {
      OnePerGeneration(certs, i, j);
    }
  }

  // ---------------------------------------------------------------- replays

  /** A certificate as issued, whatever became of its status since. */
  predicate SameCertificate(c: Certificate, d: Certificate) {
    d == c.(status := d.status, revokedAt := d.revokedAt, reason := d.reason)
  }

  /** Asking again is answered from the table. */
  predicate Replayable(b: Body, grant: Option<Grant>, ca: Authority) {
    Refused(b, grant, ForIssue).None? && ca.available
  }

  lemma IssueStores(certs: Table, b: Body, grant: Option<Grant>, ca: Authority, draw: Draw)
    requires Inv(certs) && Issue(certs, b, grant, ca, draw).0.Ok?
    ensures var (r, after) := Issue(certs, b, grant, ca, draw);
            exists i :: 0 <= i < |after| && after[i] == r.value && SameIssuance(after[i], b)
  {
    var (r, after) := Issue(certs, b, grant, ca, draw);
    var existing := ByIssuance(certs, b.issuance);
    if existing.Some? {
      assert after[existing.value] == r.value;
    } else {
      assert after[|certs|] == r.value;
    }
  }

  /**
   Once an issuance has succeeded, repeating the request after any other operations returns the same
   certificate and changes nothing; using its issuance id for other data is a conflict.
   */
  lemma IssuanceReplays(certs: Table, b: Body, grant: Option<Grant>, ca: Authority, draw: Draw, ops: seq<Op>,
                        again: Body, grant': Option<Grant>, ca': Authority, draw': Draw)
    requires Reachable(certs) && Issue(certs, b, grant, ca, draw).0.Ok?
    requires again.issuance == b.issuance && Replayable(again, grant', ca')
    ensures var first := Issue(certs, b, grant, ca, draw);
            var later := Run(first.1, ops);
            var second := Issue(later, again, grant', ca', draw');
            && second.1 == later
            && if SameIssuance(first.0.value, again) then second.0.Ok? && SameCertificate(first.0.value, second.0.value)
               else second.0 == Err(IssuanceConflict)
  {
    var (r, after) := Issue(certs, b, grant, ca, draw);
    var later := Run(after, ops);
    ReachableInv(certs);
    IssueStores(certs, b, grant, ca, draw);
    IssueKeeps(certs, b, grant, ca, draw);
    RunKeeps(after, ops);
    var i: nat :| 0 <= i < |after| && after[i] == r.value && SameIssuance(after[i], b);
    assert KeptAt(after, later, i);
    FoundByIssuance(later, i);
  }

  /** The same for a rotation, although the rotation revoked the certificate it names. */
  lemma RotationReplays(certs: Table, id: Id, b: Body, grant: Option<Grant>, ca: Authority, draw: Draw, ops: seq<Op>,
                        ca': Authority, draw': Draw)
    requires Reachable(certs) && Rotate(certs, id, b, grant, ca, draw).0.Ok? && ca'.available
    ensures var first := Rotate(certs, id, b, grant, ca, draw);
            var later := Run(first.1, ops);
            var second := Rotate(later, id, b, grant, ca', draw');
            second.1 == later && second.0.Ok? && SameCertificate(first.0.value, second.0.value)
  {
    var (r, after) := Rotate(certs, id, b, grant, ca, draw);
    var later := Run(after, ops);
    ReachableInv(certs);
    ApplyKeeps(certs, RotateOp(id, b, grant, ca, draw));
    RunKeeps(after, ops);
    var i := RotateStores(certs, id, b, grant, ca, draw);
    assert KeptAt(after, later, i);
    FoundByIssuance(later, i);
    var k := ById(certs, id).value;
    assert KeptAt(certs, after, k) && KeptAt(after, later, k);
    FoundById(later, k);
  }

  lemma RotateStores(certs: Table, id: Id, b: Body, grant: Option<Grant>, ca: Authority, draw: Draw) returns (i: nat)
    requires Rotate(certs, id, b, grant, ca, draw).0.Ok?
    ensures var (r, after) := Rotate(certs, id, b, grant, ca, draw);
            i < |after| && after[i] == r.value && SameIssuance(r.value, b) && r.value.supersedes == Some(id)
  {
    var existing := ByIssuance(certs, b.issuance);
    i := if existing.Some? then existing.value else |certs|;
  }

  /** Once revoked, revoked at the same time for the same reason, whatever runs. */
  lemma RevocationIsPermanent(certs: Table, ops: seq<Op>, i: nat)
    requires Reachable(certs) && i < |certs| && certs[i].status.Revoked?
    ensures i < |Run(certs, ops)| && Run(certs, ops)[i] == certs[i] && certs[i].revokedAt.Some?
  {
    ReachableInv(certs);
    RunKeeps(certs, ops);
    assert KeptAt(certs, Run(certs, ops), i) && DatedAt(certs, i);
  }
}
