/**
 Revocation from the authority to the edge: the list the authority publishes
 (`services/pki-service/app/certificates.py`), the store the edge keeps it in
 (`services/device-edge-service/internal/revocation/crl.go`) and the checks a request passes before it
 is forwarded (`internal/proxy/proxy.go`). Serial numbers are printed, parsed and printed again on the
 way (RFC 5280 sections 4.1.2.2 and 5.1.2.6).
 */
module Revocation {
  import opened Common
  import opened Text
  import Pki

  datatype Entry = Entry(serial: nat, revokedAt: Time, reason: string)

  datatype Crl = Crl(thisUpdate: Option<Time>, nextUpdate: Option<Time>, entries: seq<Entry>)

  /** What a fetch brings: bytes that do not parse, or a list and who signed it. */
  datatype Der = Garbage | Signed(signer: string, crl: Crl)

  datatype LoadError = IssuerMissing | ParseFailed | BadSignature | NotYetValid | Expired

  const HOUR: Time := 3600
  const BACKDATED: Time := 30
  const TOLERANCE: Time := 120

  const KNOWN_REASONS := {"unspecified", "key_compromise", "affiliation_changed", "superseded",
                          "cessation_of_operation", "privilege_withdrawn"}

  // ---------------------------------------------------------------- serial numbers

  function Upper(s: string): (t: string)
    ensures |t| == |s| && forall i :: 0 <= i < |s| ==>
        t[i] == if 'a' <= s[i] <= 'z' then (s[i] as int - 32) as char else s[i]
  {
    seq(|s|, i requires 0 <= i < |s| => if 'a' <= s[i] <= 'z' then (s[i] as int - 32) as char else s[i])
  }

  /** The edge's upper-cased print is the authority's print. */
  lemma {:induction false} SerialPrintsAgree(n: nat)
    ensures Upper(Hex(n, 'a')) == Hex(n, 'A')
  {
    if n >= 16 {
      SerialPrintsAgree(n / 16);
      assert Hex(n, 'a') == Hex(n / 16, 'a') + [Digit(n % 16, 'a')]
          && Hex(n, 'A') == Hex(n / 16, 'A') + [Digit(n % 16, 'A')];
    } else {
      assert Hex(n, 'a') == [Digit(n, 'a')] && Hex(n, 'A') == [Digit(n, 'A')];
    }
  }

  /** Different serial numbers are never printed alike. */
  lemma PrintsDiffer(m: nat, n: nat)
    ensures Hex(m, 'a') == Hex(n, 'a') <==> m == n
  {
    ParseHexOfHex(m, 'a');
    ParseHexOfHex(n, 'a');
  }

  // ---------------------------------------------------------------- publishing

  function ReasonOf(c: Pki.Certificate): string {
    if c.reason.Some? && c.reason.value in KNOWN_REASONS then c.reason.value else "unspecified"
  }

  function EntryOf(c: Pki.Certificate): Entry
    requires c.revokedAt.Some?
  {
    Entry(ParseHex(c.serialHex), c.revokedAt.value, ReasonOf(c))
  }

  /** One entry for each dated row, in order. */
  function Entries(certs: seq<Pki.Certificate>): seq<Entry>
    decreases |certs|
  {
    if certs == [] then []
    else
      var before, last := Entries(certs[..|certs| - 1]), certs[|certs| - 1];
      if last.revokedAt.Some? then before + [EntryOf(last)] else before
  }

  function CrlOf(certs: seq<Pki.Certificate>, now: Time, lifetimeHours: Time): Crl {
    Crl(Some(now - BACKDATED), Some(now + lifetimeHours * HOUR), Entries(certs))
  }

  /** `build_crl`. */
  method BuildCrl(revoked: seq<Pki.Certificate>, now: Time, lifetimeHours: Time) returns (crl: Crl)
    ensures crl == CrlOf(revoked, now, lifetimeHours)
  {
    crl := Crl(Some(now - BACKDATED), Some(now + lifetimeHours * HOUR), []);
    for i := 0 to |revoked|
      invariant crl == CrlOf(revoked[..i], now, lifetimeHours)
    {
      assert revoked[..i + 1][..i] == revoked[..i];
      var certificate := revoked[i];
      if certificate.revokedAt.None? {
        continue;
      }
      var reason := if certificate.reason.Some? && certificate.reason.value in KNOWN_REASONS then
                      certificate.reason.value
                    else "unspecified";
      var entry := Entry(ParseHex(certificate.serialHex), certificate.revokedAt.value, reason);
      crl := crl.(entries := crl.entries + [entry]);
    }
    assert revoked[..|revoked|] == revoked;
  }

  /** The rows `ca_crl` selects, in some order. */
  ghost predicate ListsRevoked(certs: Pki.Table, revoked: seq<Pki.Certificate>) {
    forall c {:trigger c in revoked} :: c in revoked <==> c in certs && c.status.Revoked?
  }

  /** The entry tells the serial number that the row prints, its date, and its reason if that is a known one. */
  predicate Enters(e: Entry, c: Pki.Certificate) {
    && e.serial == ParseHex(c.serialHex) && c.revokedAt == Some(e.revokedAt)
    && (c.reason.Some? && c.reason.value in KNOWN_REASONS ==> e.reason == c.reason.value)
    && (c.reason.None? || c.reason.value !in KNOWN_REASONS ==> e.reason == "unspecified")
  }

  /** A list is dated half a minute back and expires its lifetime after it is made. */
  lemma ListIsDated(certs: seq<Pki.Certificate>, now: Time, lifetimeHours: Time)
    ensures var crl := CrlOf(certs, now, lifetimeHours);
            crl.thisUpdate == Some(now - 30) && crl.nextUpdate == Some(now + lifetimeHours * 3600)
  {
  }

  lemma {:induction false} EntryOfEachRow(certs: seq<Pki.Certificate>, c: Pki.Certificate)
    requires c in certs && c.revokedAt.Some?
    ensures EntryOf(c) in Entries(certs) && Enters(EntryOf(c), c)
    decreases |certs|
  {
    var last := certs[|certs| - 1];
    if c != last {
      assert certs == certs[..|certs| - 1] + [last];
      EntryOfEachRow(certs[..|certs| - 1], c);
    }
  }

  lemma {:induction false} RowOfEachEntry(certs: seq<Pki.Certificate>, e: Entry)
    requires e in Entries(certs)
    ensures exists c :: c in certs && c.revokedAt.Some? && EntryOf(c) == e && Enters(e, c)
    decreases |certs|
  {
    var last := certs[|certs| - 1];
    if !(last.revokedAt.Some? && e == EntryOf(last)) {
      RowOfEachEntry(certs[..|certs| - 1], e);
      var c :| c in certs[..|certs| - 1] && c.revokedAt.Some? && EntryOf(c) == e;
      assert c in certs;
    }
  }

  // ---------------------------------------------------------------- the store at the edge

  function SerialsOf(entries: seq<Entry>): set<string> {
    set i | 0 <= i < |entries| :: Hex(entries[i].serial, 'a')
  }

  /** Why `LoadDER` refuses, if it does. */
  function Refusal(issuer: Option<string>, der: Der, now: Time): Option<LoadError> {
    if issuer.None? then Some(IssuerMissing)
    else if der.Garbage? then Some(ParseFailed)
    else if der.signer != issuer.value then Some(BadSignature)
    else if der.crl.thisUpdate.Some? && now < der.crl.thisUpdate.value - TOLERANCE then Some(NotYetValid)
    else if der.crl.nextUpdate.None? || now > der.crl.nextUpdate.value then Some(Expired)
    else None
  }

  datatype Held = Held(serials: set<string>, next: Option<Time>)

  function Loaded(issuer: Option<string>, held: Held, der: Der, now: Time): Held {
    if Refusal(issuer, der, now).Some? then held else Held(SerialsOf(der.crl.entries), der.crl.nextUpdate)
  }

  predicate Lists(held: Held, serial: nat) {
    Hex(serial, 'a') in held.serials
  }

  predicate Fresh(held: Held, now: Time) {
    held.next.Some? && now < held.next.value
  }

  class Store {
    const issuer: Option<string>
    var serial: set<string>
    var next: Option<Time>

    ghost function Contents(): Held
      reads this
    {
      Held(serial, next)
    }

    constructor (issuer: Option<string>)
      ensures this.issuer == issuer && Contents() == Held({}, None)
    {
      this.issuer, serial, next := issuer, {}, None;
    }

    method LoadDER(der: Der, now: Time) returns (error: Option<LoadError>)
      modifies this
      ensures error == Refusal(issuer, der, now) && Contents() == Loaded(issuer, old(Contents()), der, now)
    {
      if issuer.None? {
        return Some(IssuerMissing);
      }
      if der.Garbage? {
        return Some(ParseFailed);
      }
      if der.signer != issuer.value {
        return Some(BadSignature);
      }
      var crl := der.crl;
      if crl.thisUpdate.Some? && now < crl.thisUpdate.value - TOLERANCE {
        return Some(NotYetValid);
      }
      if crl.nextUpdate.None? || now > crl.nextUpdate.value {
        return Some(Expired);
      }
      var listed: set<string> := {};
      for i := 0 to |crl.entries|
        invariant listed == SerialsOf(crl.entries[..i])
      {
        assert SerialsOf(crl.entries[..i + 1]) == SerialsOf(crl.entries[..i]) + {Hex(crl.entries[i].serial, 'a')} by {
          assert crl.entries[..i + 1] == crl.entries[..i] + [crl.entries[i]];
          SerialsGrow(crl.entries[..i], crl.entries[i]);
        }
        listed := listed + {Hex(crl.entries[i].serial, 'a')};
      }
      assert crl.entries[..|crl.entries|] == crl.entries;
      serial, next := listed, crl.nextUpdate;
      return None;
    }

    method IsRevoked(number: nat) returns (revoked: bool)
      ensures revoked <==> Lists(Contents(), number)
    {
      revoked := Hex(number, 'a') in serial;
    }

    method Valid(now: Time) returns (valid: bool)
      ensures valid <==> Fresh(Contents(), now)
    {
      valid := next.Some? && now < next.value;
    }
  }

  lemma SerialsGrow(entries: seq<Entry>, e: Entry)
    ensures SerialsOf(entries + [e]) == SerialsOf(entries) + {Hex(e.serial, 'a')}
  {
    var all := entries + [e];
    forall x | x in SerialsOf(entries) + {Hex(e.serial, 'a')} ensures x in SerialsOf(all) {
      if x in SerialsOf(entries) {
        var i :| 0 <= i < |entries| && Hex(entries[i].serial, 'a') == x;
        assert Hex(all[i].serial, 'a') == x;
      } else {
        assert Hex(all[|entries|].serial, 'a') == x;
      }
    }
    forall x | x in SerialsOf(all) ensures x in SerialsOf(entries) + {Hex(e.serial, 'a')} {
      var i :| 0 <= i < |all| && Hex(all[i].serial, 'a') == x;
      if i < |entries| {
        assert Hex(entries[i].serial, 'a') == x;
      }
    }
  }

  /** The authority vouches for the list, and it is in time on a clock that may be two minutes behind. */
  predicate InForce(issuer: Option<string>, der: Der, now: Time) {
    && issuer.Some? && der.Signed? && der.signer == issuer.value
    && (der.crl.thisUpdate.Some? ==> der.crl.thisUpdate.value <= now + 2 * 60)
    && der.crl.nextUpdate.Some? && now <= der.crl.nextUpdate.value
  }

  /**
   A load takes effect exactly for a list in force: then the edge turns away exactly the serials of its
   entries, until it expires. Anything else leaves what was held, and the error says what is wrong.
   */
  lemma LoadedExactlyWhen(issuer: Option<string>, held: Held, der: Der, now: Time, serial: nat)
    ensures Refusal(issuer, der, now).None? <==> InForce(issuer, der, now)
    ensures var after := Loaded(issuer, held, der, now);
            if InForce(issuer, der, now) then
              && (Lists(after, serial) <==>
                    exists i :: 0 <= i < |der.crl.entries| && der.crl.entries[i].serial == serial)
              && after.next == der.crl.nextUpdate
            else after == held
    ensures match Refusal(issuer, der, now)
            case None => true
            case Some(IssuerMissing) => issuer.None?
            case Some(ParseFailed) => issuer.Some? && der.Garbage?
            case Some(BadSignature) => issuer.Some? && der.Signed? && der.signer != issuer.value
            case Some(NotYetValid) =>
              && der.Signed? && der.signer == issuer.value
              && der.crl.thisUpdate.Some? && now + 2 * 60 < der.crl.thisUpdate.value
            case Some(Expired) =>
              && der.Signed? && der.signer == issuer.value
              && (der.crl.nextUpdate.None? || der.crl.nextUpdate.value < now)
  {
    if der.Signed? {
      ListedExactly(der.crl.entries, der.crl.nextUpdate, serial);
    }
  }

  /** A serial is held exactly when some entry of the list has it: printing confuses no two. */
  lemma ListedExactly(entries: seq<Entry>, next: Option<Time>, serial: nat)
    ensures Lists(Held(SerialsOf(entries), next), serial) <==>
        exists i :: 0 <= i < |entries| && entries[i].serial == serial
  {
    if Lists(Held(SerialsOf(entries), next), serial) {
      var i :| 0 <= i < |entries| && Hex(entries[i].serial, 'a') == Hex(serial, 'a');
      PrintsDiffer(entries[i].serial, serial);
    }
  }

  // ---------------------------------------------------------------- the edge's handler

  datatype Body = Unreadable | Body(length: nat)

  /** A request as far as the checks look at it; the chain is verified, or there is none. */
  datatype Request = Request(routeAllowed: bool, mutualTls: bool, serial: nat, identity: bool, body: Body)

  datatype Response = RouteNotAllowed | MtlsRequired | CrlUnavailable | CertificateRevoked | IdentityInvalid
                    | BodyReadFailed | BodyTooLarge | Forwarded(serialHeader: string)

  /** Reloads that take effect in turn, each with the clock reading it uses. */
  function AfterReloads(issuer: Option<string>, held: Held, reloads: seq<(Der, Time)>): Held
    decreases |reloads|
  {
    if reloads == [] then held else AfterReloads(issuer, Loaded(issuer, held, reloads[0].0, reloads[0].1), reloads[1..])
  }

  class Handler {
    const store: Store
    const maxBody: nat

    constructor (store: Store, maxBody: nat)
      ensures this.store == store && this.maxBody == maxBody
    {
      this.store, this.maxBody := store, maxBody;
    }

    /** `ServeHTTP`; `reloads` are those that fall between the validity and the revocation check. */
    method ServeHTTP(r: Request, now: Time, reloads: seq<(Der, Time)>) returns (response: Response)
      modifies store
      ensures response == RouteNotAllowed <==> !r.routeAllowed
      ensures response == MtlsRequired <==> r.routeAllowed && !r.mutualTls
      ensures response == CrlUnavailable <==>
                r.routeAllowed && r.mutualTls && !(old(store.next).Some? && now < old(store.next).value)
      ensures store.Contents() == if r.routeAllowed && r.mutualTls && Fresh(old(store.Contents()), now)
                                  then AfterReloads(store.issuer, old(store.Contents()), reloads)
                                  else old(store.Contents())
      ensures response == CertificateRevoked <==>
                r.routeAllowed && r.mutualTls && Fresh(old(store.Contents()), now) && Lists(store.Contents(), r.serial)
      ensures response == IdentityInvalid <==>
                && r.routeAllowed && r.mutualTls && Fresh(old(store.Contents()), now)
                && !Lists(store.Contents(), r.serial)
                && (r.serial == 0 || !r.identity)
      ensures response == BodyReadFailed <==>
                && r.routeAllowed && r.mutualTls && Fresh(old(store.Contents()), now)
                && !Lists(store.Contents(), r.serial)
                && r.serial > 0 && r.identity && r.body.Unreadable?
      ensures response == BodyTooLarge <==>
                && r.routeAllowed && r.mutualTls && Fresh(old(store.Contents()), now)
                && !Lists(store.Contents(), r.serial)
                && r.serial > 0 && r.identity && r.body.Body? && r.body.length > maxBody
      ensures response.Forwarded? <==>
                && r.routeAllowed && r.mutualTls && Fresh(old(store.Contents()), now)
                && !Lists(store.Contents(), r.serial)
                && r.serial > 0 && r.identity && r.body.Body? && r.body.length <= maxBody
      ensures response.Forwarded? ==> response.serialHeader == Hex(r.serial, 'A')
    {
      if !r.routeAllowed {
        return RouteNotAllowed;
      }
      if !r.mutualTls {
        return MtlsRequired;
      }
      var valid := store.Valid(now);
      if !valid {
        return CrlUnavailable;
      }
      ghost var before := store.Contents();
      for i := 0 to |reloads|
        invariant AfterReloads(store.issuer, before, reloads)
            == AfterReloads(store.issuer, store.Contents(), reloads[i..])
      {
        var _ := store.LoadDER(reloads[i].0, reloads[i].1);
        assert reloads[i..][1..] == reloads[i + 1..];
      }
      var revoked := store.IsRevoked(r.serial);
      if revoked {
        return CertificateRevoked;
      }
      if r.serial <= 0 || !r.identity {
        return IdentityInvalid;
      }
      if r.body.Unreadable? {
        return BodyReadFailed;
      }
      if r.body.length > maxBody {
        return BodyTooLarge;
      }
      SerialPrintsAgree(r.serial);
      return Forwarded(Upper(Hex(r.serial, 'a')));
    }
  }
}
