/**
 How stale a revocation can be: the authority's table, the lists it ever published, the edge's store and
 the requests between their two checks, over every run. A revocation is dated before it is committed, a
 list is stamped after its rows were read, and a load puts its list in place after it has read the clock;
 each of these may pause in between. Refreshes may fail, come late, bring an older list back, or fall
 between the validity and the revocation check of a request.
 */
module Staleness {
  import opened Common
  import opened Text
  import opened Revocation
  import Pki

  type Id = string

  const AUTHORITY := "authority"

  /** A publication that has read the revoked rows and has yet to stamp its list. */
  datatype Reading = Reading(rows: seq<Pki.Certificate>, at: Time)

  /** A list, and when its rows were read. */
  datatype Published = Published(crl: Crl, rowsAt: Time)

  /** A load that has read the clock and accepted its list, and has yet to put it in place. */
  datatype Loading = Loading(list: nat, readAt: Time)

  /** A request that was found in time, with the clock reading of that check. */
  datatype Passed = Passed(serial: nat, at: Time)

  /**
   A forwarded request: the clock reading of its validity check, and of the list its revocation check
   consulted the expiry, the clock reading of its load and the time its rows were read.
   */
  datatype Forward = Forward(serial: nat, at: Time, next: Option<Time>, loadedAt: Time, rowsAt: Time)

  /** `committed` has the commit time of every revoked row. */
  datatype World = World(
    clock: Time, certs: Pki.Table, committed: map<nat, Time>, reading: map<Id, Reading>, lists: seq<Published>,
    loading: map<Id, Loading>, held: Held, heldAt: Time, heldRowsAt: Time,
    passed: map<Id, Passed>, forwarded: seq<Forward>)

  datatype Step =
    | Tick(d: nat)
    | Commit(op: Pki.Op)
    | ReadRows(publication: Id, revoked: seq<Pki.Certificate>)
    | Stamp(publication: Id)
    | ReadClock(load: Id, i: nat)
    | Swap(load: Id)
    | LoadForeign(der: Der)
    | CheckValidity(request: Id, serial: nat)
    | CheckRevocation(request: Id)

  /** The clock reading a handler of the authority dates its rows with. */
  function OpTime(op: Pki.Op): Time {
    match op
    case IssueOp(_, _, _, draw) => draw.now
    case RotateOp(_, _, _, _, draw) => draw.now
    case RevokeOp(_, _, _, now) => now
  }

  /** The rows after a commit, with the commit time of those that it revokes. */
  function Committed(w: World, after: Pki.Table): World {
    w.(certs := after,
       committed := map i: nat | i < |after| && after[i].revokedAt.Some? ::
         if i in w.committed then w.committed[i] else w.clock)
  }

  function HeldOf(crl: Crl): Held {
    Held(SerialsOf(crl.entries), crl.nextUpdate)
  }

  ghost function Apply(lifetimeHours: nat, w: World, step: Step): World {
    match step
    case Tick(d) => w.(clock := w.clock + d)
    case Commit(op) => if OpTime(op) <= w.clock then Committed(w, Pki.Apply(w.certs, op)) else w
    case ReadRows(publication, revoked) =>
      if ListsRevoked(w.certs, revoked) then w.(reading := w.reading[publication := Reading(revoked, w.clock)]) else w
    case Stamp(publication) =>
      if publication in w.reading then
        var r := w.reading[publication];
        w.(reading := w.reading - {publication},
           lists := w.lists + [Published(CrlOf(r.rows, w.clock, lifetimeHours), r.at)])
      else w
    case ReadClock(load, i) =>
      if i < |w.lists| && Refusal(Some(AUTHORITY), Signed(AUTHORITY, w.lists[i].crl), w.clock).None?
      then w.(loading := w.loading[load := Loading(i, w.clock)]) else w
    case Swap(load) =>
      if load in w.loading && w.loading[load].list < |w.lists| then
        var l := w.loading[load];
        w.(loading := w.loading - {load}, held := HeldOf(w.lists[l.list].crl), heldAt := l.readAt,
           heldRowsAt := w.lists[l.list].rowsAt)
      else w
    case LoadForeign(der) =>
      if der.Signed? && der.signer == AUTHORITY then w else w.(held := Loaded(Some(AUTHORITY), w.held, der, w.clock))
    case CheckValidity(request, serial) =>
      if Fresh(w.held, w.clock) then w.(passed := w.passed[request := Passed(serial, w.clock)]) else w
    case CheckRevocation(request) =>
      if request !in w.passed then w
      else
        var p := w.passed[request];
        var rest := w.(passed := w.passed - {request});
        if Lists(w.held, p.serial) then rest
        else rest.(forwarded := w.forwarded + [ForwardOf(w, p)])
  }

  function ForwardOf(w: World, p: Passed): Forward {
    Forward(p.serial, p.at, w.held.next, w.heldAt, w.heldRowsAt)
  }

  ghost function Run(lifetimeHours: nat, w: World, steps: seq<Step>): World
    decreases |steps|
  {
    if steps == [] then w else Run(lifetimeHours, Apply(lifetimeHours, w, steps[0]), steps[1..])
  }

  // ---------------------------------------------------------------- the invariant

  predicate CommittedBefore(w: World, i: nat, t: Time) {
    i in w.committed && w.committed[i] < t
  }

  /** A revoked row is dated no later than it was committed. */
  predicate RowDated(w: World, i: nat)
    requires i < |w.certs|
  {
    && (i in w.committed <==> w.certs[i].revokedAt.Some?)
    && (i in w.committed ==> w.certs[i].revokedAt.value <= w.committed[i] <= w.clock)
  }

  predicate ReadsRow(w: World, r: Reading, i: nat)
    requires i < |w.certs|
  {
    CommittedBefore(w, i, r.at) ==> w.certs[i] in r.rows
  }

  /** The rows read are all that were committed before. */
  ghost predicate ReadingOk(w: World, r: Reading) {
    && r.at <= w.clock
    && forall i {:trigger ReadsRow(w, r, i)} :: 0 <= i < |w.certs| ==> ReadsRow(w, r, i)
  }

  ghost predicate HasSerial(crl: Crl, serial: nat) {
    exists k :: 0 <= k < |crl.entries| && crl.entries[k].serial == serial
  }

  ghost predicate CoversRow(w: World, l: Published, i: nat)
    requires i < |w.certs|
  {
    CommittedBefore(w, i, l.rowsAt) ==> HasSerial(l.crl, ParseHex(w.certs[i].serialHex))
  }

  /** When the list was stamped. */
  function StampedAt(lifetimeHours: nat, next: Time): Time {
    next - lifetimeHours * HOUR
  }

  /** The list has every serial whose revocation was committed before its rows were read. */
  ghost predicate ListOk(lifetimeHours: nat, w: World, l: Published) {
    && l.crl.nextUpdate.Some? && l.rowsAt <= StampedAt(lifetimeHours, l.crl.nextUpdate.value) <= w.clock
    && forall i {:trigger CoversRow(w, l, i)} :: 0 <= i < |w.certs| ==> CoversRow(w, l, i)
  }

  predicate HeldFrom(w: World, i: nat) {
    && i < |w.lists| && w.held == HeldOf(w.lists[i].crl) && w.heldRowsAt == w.lists[i].rowsAt
    && w.held.next.Some? && w.heldAt <= w.held.next.value
  }

  ghost predicate HeldOk(w: World) {
    w.held.next.None? || exists i :: HeldFrom(w, i)
  }

  predicate LoadingOk(w: World, l: Loading) {
    && l.list < |w.lists| && w.lists[l.list].crl.nextUpdate.Some?
    && l.readAt <= w.lists[l.list].crl.nextUpdate.value
  }

  /** Something is held ever since the first check that was passed. */
  predicate HeldOnceChecked(w: World) {
    w.passed != map[] ==> w.held.next.Some?
  }

  /** A row with the serial of `f` was not committed as revoked before the rows of the consulted list were read. */
  predicate NotLongRevoked(w: World, f: Forward, i: nat)
    requires i < |w.certs|
  {
    w.certs[i].serialHex == Hex(f.serial, 'A') ==> !CommittedBefore(w, i, f.rowsAt)
  }

  ghost predicate ForwardOk(lifetimeHours: nat, w: World, f: Forward) {
    && f.next.Some? && f.loadedAt <= f.next.value && f.rowsAt <= StampedAt(lifetimeHours, f.next.value) <= w.clock
    && forall i {:trigger NotLongRevoked(w, f, i)} :: 0 <= i < |w.certs| ==> NotLongRevoked(w, f, i)
  }

  ghost predicate Inv(lifetimeHours: nat, w: World) {
    && Pki.Inv(w.certs)
    && (forall i {:trigger RowDated(w, i)} :: 0 <= i < |w.certs| ==> RowDated(w, i))
    && (forall x {:trigger ReadingOk(w, w.reading[x])} :: x in w.reading ==> ReadingOk(w, w.reading[x]))
    && (forall i {:trigger ListOk(lifetimeHours, w, w.lists[i])} :: 0 <= i < |w.lists| ==>
        ListOk(lifetimeHours, w, w.lists[i]))
    && (forall x {:trigger LoadingOk(w, w.loading[x])} :: x in w.loading ==> LoadingOk(w, w.loading[x]))
    && HeldOk(w) && HeldOnceChecked(w)
    && (forall i {:trigger ForwardOk(lifetimeHours, w, w.forwarded[i])} :: 0 <= i < |w.forwarded| ==>
          ForwardOk(lifetimeHours, w, w.forwarded[i]))
  }

  // ---------------------------------------------------------------- a commit

  /** An operation dates what it revokes with its own time and leaves every other row's date alone. */
  predicate DatedBy(certs: Pki.Table, after: Pki.Table, i: nat, now: Time)
    requires i < |after|
  {
    if i < |certs| then
      && after[i].serialHex == certs[i].serialHex
      && (after[i] == certs[i] || (certs[i].revokedAt.None? && after[i].revokedAt == Some(now)))
    else after[i].revokedAt.None?
  }

  lemma OpDates(certs: Pki.Table, op: Pki.Op)
    requires Pki.Inv(certs)
    ensures var after := Pki.Apply(certs, op);
            && |certs| <= |after|
            && forall i {:trigger DatedBy(certs, after, i, OpTime(op))} :: 0 <= i < |after| ==>
                 DatedBy(certs, after, i, OpTime(op))
  {
    var after := Pki.Apply(certs, op);
    Pki.ApplyKeeps(certs, op);
    forall i | 0 <= i < |after| ensures DatedBy(certs, after, i, OpTime(op)) {
      if i < |certs| {
        assert Pki.KeptAt(certs, after, i) && Pki.DatedAt(certs, i);
      }
    }
  }

  /** What is committed at the clock was not committed before any time up to it. */
  lemma CommitAddsNow(w: World, op: Pki.Op, i: nat)
    requires Pki.Inv(w.certs) && OpTime(op) <= w.clock
    requires forall j {:trigger RowDated(w, j)} :: 0 <= j < |w.certs| ==> RowDated(w, j)
    requires i < |Pki.Apply(w.certs, op)|
    ensures var w' := Committed(w, Pki.Apply(w.certs, op));
            && RowDated(w', i)
            && (i < |w.certs| ==> w'.certs[i].serialHex == w.certs[i].serialHex)
            && (forall t: Time :: t <= w.clock && CommittedBefore(w', i, t) ==>
                  i < |w.certs| && CommittedBefore(w, i, t) && w'.certs[i] == w.certs[i])
  {
    OpDates(w.certs, op);
    assert DatedBy(w.certs, Pki.Apply(w.certs, op), i, OpTime(op));
    if i < |w.certs| {
      assert RowDated(w, i);
    }
  }

  /** The commit time of a revocation is the time of the step that made it, and never changes. */
  lemma CommitTimesStay(lifetimeHours: nat, w: World, step: Step, i: nat)
    requires Inv(lifetimeHours, w) && i < |w.certs|
    ensures var after := Apply(lifetimeHours, w, step);
            && (i in w.committed ==> i in after.committed && after.committed[i] == w.committed[i])
            && (i !in w.committed && i in after.committed ==> step.Commit? && after.committed[i] == w.clock)
  {
    if step.Commit? && OpTime(step.op) <= w.clock {
      assert RowDated(w, i);
      OpDates(w.certs, step.op);
      assert DatedBy(w.certs, Pki.Apply(w.certs, step.op), i, OpTime(step.op));
      CommitAddsNow(w, step.op, i);
    }
  }

  lemma CommitKeeps(lifetimeHours: nat, w: World, op: Pki.Op)
    requires Inv(lifetimeHours, w) && OpTime(op) <= w.clock
    ensures Inv(lifetimeHours, Committed(w, Pki.Apply(w.certs, op)))
  {
    var w' := Committed(w, Pki.Apply(w.certs, op));
    Pki.ApplyKeeps(w.certs, op);
    forall i | 0 <= i < |w'.certs| ensures RowDated(w', i) {
      CommitAddsNow(w, op, i);
    }
    forall x | x in w'.reading ensures ReadingOk(w', w'.reading[x]) {
      assert ReadingOk(w, w.reading[x]);
      forall i | 0 <= i < |w'.certs| ensures ReadsRow(w', w.reading[x], i) {
        CommitAddsNow(w, op, i);
        assert i < |w.certs| ==> ReadsRow(w, w.reading[x], i);
      }
    }
    forall k | 0 <= k < |w'.lists| ensures ListOk(lifetimeHours, w', w'.lists[k]) {
      assert ListOk(lifetimeHours, w, w.lists[k]);
      forall i | 0 <= i < |w'.certs| ensures CoversRow(w', w.lists[k], i) {
        CommitAddsNow(w, op, i);
        assert i < |w.certs| ==> CoversRow(w, w.lists[k], i);
      }
    }
    forall k | 0 <= k < |w'.forwarded| ensures ForwardOk(lifetimeHours, w', w'.forwarded[k]) {
      assert ForwardOk(lifetimeHours, w, w.forwarded[k]);
      forall i | 0 <= i < |w'.certs| ensures NotLongRevoked(w', w.forwarded[k], i) {
        CommitAddsNow(w, op, i);
        assert i < |w.certs| ==> NotLongRevoked(w, w.forwarded[k], i);
      }
    }
    forall x | x in w'.loading ensures LoadingOk(w', w'.loading[x]) {
      assert LoadingOk(w, w.loading[x]);
    }
    SameHeld(w, w');
  }

  // ---------------------------------------------------------------- the other steps

  lemma SameHeld(w: World, w': World)
    requires HeldOk(w) && w.lists <= w'.lists
    requires w'.held == w.held && w'.heldAt == w.heldAt && w'.heldRowsAt == w.heldRowsAt
    ensures HeldOk(w')
  {
    if w.held.next.Some? {
      var i: nat :| HeldFrom(w, i);
      assert HeldFrom(w', i);
    }
  }

  /** With the same rows, whatever held of a reading, a list or a forwarded request holds still. */
  lemma SameRows(lifetimeHours: nat, w: World, w': World)
    requires Inv(lifetimeHours, w) && w'.certs == w.certs && w'.committed == w.committed && w'.clock >= w.clock
    ensures forall i {:trigger RowDated(w', i)} :: 0 <= i < |w'.certs| ==> RowDated(w', i)
    ensures forall x {:trigger w.reading[x]} :: x in w.reading ==> ReadingOk(w', w.reading[x])
    ensures forall i {:trigger w.lists[i]} :: 0 <= i < |w.lists| ==> ListOk(lifetimeHours, w', w.lists[i])
    ensures forall i {:trigger w.forwarded[i]} :: 0 <= i < |w.forwarded| ==>
        ForwardOk(lifetimeHours, w', w.forwarded[i])
  {
    forall i | 0 <= i < |w'.certs| ensures RowDated(w', i) {
      assert RowDated(w, i);
    }
    forall x | x in w.reading ensures ReadingOk(w', w.reading[x]) {
      assert ReadingOk(w, w.reading[x]);
      forall i | 0 <= i < |w'.certs| ensures ReadsRow(w', w.reading[x], i) {
        assert ReadsRow(w, w.reading[x], i);
      }
    }
    forall k | 0 <= k < |w.lists| ensures ListOk(lifetimeHours, w', w.lists[k]) {
      assert ListOk(lifetimeHours, w, w.lists[k]);
      forall i | 0 <= i < |w'.certs| ensures CoversRow(w', w.lists[k], i) {
        assert CoversRow(w, w.lists[k], i);
      }
    }
    forall k | 0 <= k < |w.forwarded| ensures ForwardOk(lifetimeHours, w', w.forwarded[k]) {
      SameForward(lifetimeHours, w, w', w.forwarded[k]);
    }
  }

  lemma SameForward(lifetimeHours: nat, w: World, w': World, f: Forward)
    requires w'.certs == w.certs && w'.committed == w.committed && w'.clock >= w.clock && ForwardOk(lifetimeHours, w, f)
    ensures ForwardOk(lifetimeHours, w', f)
  {
    forall i | 0 <= i < |w'.certs| ensures NotLongRevoked(w', f, i) {
      assert NotLongRevoked(w, f, i);
    }
  }

  /** The query returns every row that is committed as revoked. */
  lemma RowsAreRead(lifetimeHours: nat, w: World, revoked: seq<Pki.Certificate>)
    requires Inv(lifetimeHours, w) && ListsRevoked(w.certs, revoked)
    ensures ReadingOk(w, Reading(revoked, w.clock))
  {
    forall i | 0 <= i < |w.certs| ensures ReadsRow(w, Reading(revoked, w.clock), i) {
      assert RowDated(w, i) && Pki.DatedAt(w.certs, i);
      assert w.certs[i] in w.certs;
    }
  }

  /** A list has the serial of every row it was stamped from. */
  lemma StampedIsOk(lifetimeHours: nat, w: World, r: Reading)
    requires Inv(lifetimeHours, w) && ReadingOk(w, r)
    ensures ListOk(lifetimeHours, w, Published(CrlOf(r.rows, w.clock, lifetimeHours), r.at))
  {
    var l := Published(CrlOf(r.rows, w.clock, lifetimeHours), r.at);
    forall i | 0 <= i < |w.certs| ensures CoversRow(w, l, i) {
      assert ReadsRow(w, r, i) && RowDated(w, i);
      if CommittedBefore(w, i, r.at) {
        EntryOfEachRow(r.rows, w.certs[i]);
        var k :| 0 <= k < |l.crl.entries| && l.crl.entries[k] == EntryOf(w.certs[i]);
        assert l.crl.entries[k].serial == ParseHex(w.certs[i].serialHex);
      }
    }
  }

  lemma UnlistedRow(w: World, l: Published, i: nat, serial: nat)
    requires i < |w.certs| && CoversRow(w, l, i) && !Lists(HeldOf(l.crl), serial)
    ensures w.certs[i].serialHex == Hex(serial, 'A') ==> !CommittedBefore(w, i, l.rowsAt)
  {
    ParseHexOfHex(serial, 'A');
    ListedExactly(l.crl.entries, l.crl.nextUpdate, serial);
  }

  /**
   The heart of it: the consulted list has every serial whose revocation was committed before its rows
   were read, it was stamped after that, and its load read the clock before it expired.
   */
  lemma UnlistedIsRecentAtMost(lifetimeHours: nat, w: World, p: Passed)
    requires Inv(lifetimeHours, w) && w.held.next.Some? && !Lists(w.held, p.serial)
    ensures ForwardOk(lifetimeHours, w, ForwardOf(w, p))
  {
    var k: nat :| HeldFrom(w, k);
    assert ListOk(lifetimeHours, w, w.lists[k]);
    forall i | 0 <= i < |w.certs| ensures NotLongRevoked(w, ForwardOf(w, p), i) {
      assert CoversRow(w, w.lists[k], i);
      UnlistedRow(w, w.lists[k], i, p.serial);
    }
  }

  lemma DecisionKeeps(lifetimeHours: nat, w: World, request: Id)
    requires Inv(lifetimeHours, w) && request in w.passed
    ensures Inv(lifetimeHours, Apply(lifetimeHours, w, CheckRevocation(request)))
  {
    var w', p := Apply(lifetimeHours, w, CheckRevocation(request)), w.passed[request];
    assert request in w.passed;
    SameRows(lifetimeHours, w, w');
    SameHeld(w, w');
    forall x | x in w'.loading ensures LoadingOk(w', w'.loading[x]) {
      assert LoadingOk(w, w.loading[x]);
    }
    forall k | 0 <= k < |w'.forwarded| ensures ForwardOk(lifetimeHours, w', w'.forwarded[k]) {
      if k < |w.forwarded| {
        assert w'.forwarded[k] == w.forwarded[k];
      } else {
        UnlistedIsRecentAtMost(lifetimeHours, w, p);
        SameForward(lifetimeHours, w, w', w'.forwarded[k]);
      }
    }
  }

  lemma SwapKeeps(lifetimeHours: nat, w: World, load: Id)
    requires Inv(lifetimeHours, w)
    ensures HeldOk(Apply(lifetimeHours, w, Swap(load)))
    ensures w.held.next.Some? ==> Apply(lifetimeHours, w, Swap(load)).held.next.Some?
  {
    var w' := Apply(lifetimeHours, w, Swap(load));
    if load in w.loading && w.loading[load].list < |w.lists| {
      assert LoadingOk(w, w.loading[load]);
      assert HeldFrom(w', w.loading[load].list);
    }
  }

  /** The two steps of a publication. */
  lemma PublicationKeeps(lifetimeHours: nat, w: World, step: Step)
    requires Inv(lifetimeHours, w) && (step.ReadRows? || step.Stamp?)
    ensures Inv(lifetimeHours, Apply(lifetimeHours, w, step))
  {
    var w' := Apply(lifetimeHours, w, step);
    SameRows(lifetimeHours, w, w');
    SameHeld(w, w');
    if step.ReadRows? && ListsRevoked(w.certs, step.revoked) {
      RowsAreRead(lifetimeHours, w, step.revoked);
      SameReading(w, w', Reading(step.revoked, w.clock));
    }
    if step.Stamp? && step.publication in w.reading {
      assert ReadingOk(w, w.reading[step.publication]);
      StampedIsOk(lifetimeHours, w, w.reading[step.publication]);
      SameList(lifetimeHours, w, w', w'.lists[|w.lists|]);
    }
    forall x | x in w'.reading ensures ReadingOk(w', w'.reading[x]) {
      assert x in w.reading && w'.reading[x] == w.reading[x] ==> ReadingOk(w', w.reading[x]);
    }
    forall k | 0 <= k < |w'.lists| ensures ListOk(lifetimeHours, w', w'.lists[k]) {
      assert k < |w.lists| ==> w'.lists[k] == w.lists[k];
    }
    forall x | x in w'.loading ensures LoadingOk(w', w'.loading[x]) {
      assert LoadingOk(w, w.loading[x]);
    }
    forall k | 0 <= k < |w'.forwarded| ensures ForwardOk(lifetimeHours, w', w'.forwarded[k]) {
      assert w'.forwarded[k] == w.forwarded[k];
    }
  }

  lemma SameReading(w: World, w': World, r: Reading)
    requires w'.certs == w.certs && w'.committed == w.committed && w'.clock == w.clock && ReadingOk(w, r)
    ensures ReadingOk(w', r)
  {
    forall i | 0 <= i < |w'.certs| ensures ReadsRow(w', r, i) {
      assert ReadsRow(w, r, i);
    }
  }

  lemma SameList(lifetimeHours: nat, w: World, w': World, l: Published)
    requires w'.certs == w.certs && w'.committed == w.committed && w'.clock == w.clock && ListOk(lifetimeHours, w, l)
    ensures ListOk(lifetimeHours, w', l)
  {
    forall i | 0 <= i < |w'.certs| ensures CoversRow(w', l, i) {
      assert CoversRow(w, l, i);
    }
  }

  /** The two steps of a load. */
  lemma LoadKeeps(lifetimeHours: nat, w: World, step: Step)
    requires Inv(lifetimeHours, w) && (step.ReadClock? || step.Swap?)
    ensures Inv(lifetimeHours, Apply(lifetimeHours, w, step))
  {
    var w' := Apply(lifetimeHours, w, step);
    if step.Swap? {
      SwapKeeps(lifetimeHours, w, step.load);
    } else {
      SameHeld(w, w');
    }
    forall x | x in w'.loading ensures LoadingOk(w', w'.loading[x]) {
      if x in w.loading && w'.loading[x] == w.loading[x] {
        assert LoadingOk(w, w.loading[x]);
      }
    }
    OnlyLoads(lifetimeHours, w, w');
  }

  /** A step that changes only what is being loaded and what is held. */
  lemma OnlyLoads(lifetimeHours: nat, w: World, w': World)
    requires Inv(lifetimeHours, w)
    requires w' == w.(loading := w'.loading, held := w'.held, heldAt := w'.heldAt, heldRowsAt := w'.heldRowsAt)
    requires HeldOk(w') && HeldOnceChecked(w')
    requires forall x {:trigger LoadingOk(w', w'.loading[x])} :: x in w'.loading ==> LoadingOk(w', w'.loading[x])
    ensures Inv(lifetimeHours, w')
  {
    SameRows(lifetimeHours, w, w');
    forall x | x in w'.reading ensures ReadingOk(w', w'.reading[x]) {
      assert w'.reading[x] == w.reading[x];
    }
    forall k | 0 <= k < |w'.lists| ensures ListOk(lifetimeHours, w', w'.lists[k]) {
      assert w'.lists[k] == w.lists[k];
    }
    forall k | 0 <= k < |w'.forwarded| ensures ForwardOk(lifetimeHours, w', w'.forwarded[k]) {
      assert w'.forwarded[k] == w.forwarded[k];
    }
  }

  /** The clock, a foreign list, and the first check of a request. */
  lemma QuietKeeps(lifetimeHours: nat, w: World, step: Step)
    requires Inv(lifetimeHours, w) && (step.Tick? || step.LoadForeign? || step.CheckValidity?)
    ensures Inv(lifetimeHours, Apply(lifetimeHours, w, step))
  {
    var w' := Apply(lifetimeHours, w, step);
    SameRows(lifetimeHours, w, w');
    SameHeld(w, w');
    forall x | x in w'.reading ensures ReadingOk(w', w'.reading[x]) {
      assert w'.reading[x] == w.reading[x];
    }
    forall k | 0 <= k < |w'.lists| ensures ListOk(lifetimeHours, w', w'.lists[k]) {
      assert w'.lists[k] == w.lists[k];
    }
    forall x | x in w'.loading ensures LoadingOk(w', w'.loading[x]) {
      assert LoadingOk(w, w.loading[x]);
    }
    forall k | 0 <= k < |w'.forwarded| ensures ForwardOk(lifetimeHours, w', w'.forwarded[k]) {
      assert w'.forwarded[k] == w.forwarded[k];
    }
  }

  lemma ApplyKeeps(lifetimeHours: nat, w: World, step: Step)
    requires Inv(lifetimeHours, w)
    ensures Inv(lifetimeHours, Apply(lifetimeHours, w, step))
  {
    match step
    case Commit(op) =>
      if OpTime(op) <= w.clock {
        CommitKeeps(lifetimeHours, w, op);
      }
    case CheckRevocation(request) =>
      if request in w.passed {
        DecisionKeeps(lifetimeHours, w, request);
      }
    case ReadRows(_, _) => PublicationKeeps(lifetimeHours, w, step);
    case Stamp(_) => PublicationKeeps(lifetimeHours, w, step);
    case ReadClock(_, _) => LoadKeeps(lifetimeHours, w, step);
    case Swap(_) => LoadKeeps(lifetimeHours, w, step);
    case _ => QuietKeeps(lifetimeHours, w, step);
  }

  lemma {:induction false} RunKeeps(lifetimeHours: nat, w: World, steps: seq<Step>)
    requires Inv(lifetimeHours, w)
    ensures Inv(lifetimeHours, Run(lifetimeHours, w, steps))
    decreases |steps|
  {
    if steps != [] {
      ApplyKeeps(lifetimeHours, w, steps[0]);
      RunKeeps(lifetimeHours, Apply(lifetimeHours, w, steps[0]), steps[1..]);
    }
  }

  function Start(clock: Time): World {
    World(clock, [], map[], map[], [], map[], Held({}, None), clock, clock, map[], [])
  }

  // ---------------------------------------------------------------- the bound

  /** Row `i` is the certificate of the `k`-th forwarded request, and it is revoked. */
  predicate RevokedForward(w: World, k: nat, i: nat) {
    && k < |w.forwarded| && i < |w.certs| && w.certs[i].serialHex == Hex(w.forwarded[k].serial, 'A')
    && w.certs[i].revokedAt.Some? && i in w.committed && w.forwarded[k].next.Some?
  }

  /**
   How long after its expiry the consulted list still counted at the validity check; negative when it had
   time left.
   */
  function Gap(f: Forward): int
    requires f.next.Some?
  {
    f.at - f.next.value
  }

  /** How long the publication of the consulted list paused between reading the rows and stamping the list. */
  function PublicationPause(lifetimeHours: nat, f: Forward): int
    requires f.next.Some?
  {
    StampedAt(lifetimeHours, f.next.value) - f.rowsAt
  }

  /** How long the revocation took from its date to its commit. */
  function CommitDelay(w: World, i: nat): int
    requires i < |w.certs| && w.certs[i].revokedAt.Some? && i in w.committed
  {
    w.committed[i] - w.certs[i].revokedAt.value
  }

  /**
   Over every run: the revocation of a serial that is forwarded was not committed before the rows of the
   consulted list were read. So it is not dated earlier than one lifetime, one publication pause and one
   commit delay before the clock reading of the load that brought the list, nor before the earlier of the
   validity check and the expiry of the list.
   */
  lemma ForwardedWasNotLongRevoked(lifetimeHours: nat, clock: Time, steps: seq<Step>, k: nat, i: nat)
    requires var w := Run(lifetimeHours, Start(clock), steps);
             k < |w.forwarded| && i < |w.certs| && w.certs[i].serialHex == Hex(w.forwarded[k].serial, 'A')
             && w.certs[i].revokedAt.Some?
    ensures RevokedForward(Run(lifetimeHours, Start(clock), steps), k, i)
    ensures var w := Run(lifetimeHours, Start(clock), steps);
            var f := w.forwarded[k];
            var slack := lifetimeHours * HOUR + PublicationPause(lifetimeHours, w.forwarded[k]) + CommitDelay(w, i);
            && w.committed[i] >= f.rowsAt
            && PublicationPause(lifetimeHours, f) >= 0 && CommitDelay(w, i) >= 0
            && w.certs[i].revokedAt.value >= f.loadedAt - slack
            && w.certs[i].revokedAt.value >= Min(f.at, f.next.value) - slack
  {
    RunKeeps(lifetimeHours, Start(clock), steps);
    var w := Run(lifetimeHours, Start(clock), steps);
    assert RowDated(w, i);
    assert ForwardOk(lifetimeHours, w, w.forwarded[k]);
    assert NotLongRevoked(w, w.forwarded[k], i);
  }

  // ---------------------------------------------------------------- exactly when one lifetime is the bound

  /** This forward with this gap, pause and delay keeps to one lifetime before the validity check. */
  predicate BoundKept(lifetimeHours: nat, w: World, k: nat, i: nat, gap: int, pause: nat, delay: nat) {
    RevokedForward(w, k, i) && Gap(w.forwarded[k]) == gap && PublicationPause(lifetimeHours, w.forwarded[k]) == pause
    && CommitDelay(w, i) == delay ==>
      w.certs[i].revokedAt.value >= w.forwarded[k].at - lifetimeHours * HOUR
  }

  ghost predicate BoundAt(lifetimeHours: nat, gap: int, pause: nat, delay: nat) {
    forall clock, steps, k: nat, i: nat {:trigger RevokedForward(Run(lifetimeHours, Start(clock), steps), k, i)} ::
      BoundKept(lifetimeHours, Run(lifetimeHours, Start(clock), steps), k, i, gap, pause, delay)
  }

  /**
   A forwarded serial is never dated as revoked more than one lifetime before its validity check, over
   every run with this gap, pause and delay, exactly when they do not add up to more than nothing: the
   time the consulted list had left at the check makes up for the pause of its publication and for the
   delay of the commit. It does not if a load read the clock in time and put its list in place after the
   check, or if a publication or a commit paused.
   */
  lemma BoundFromTheCheckExactlyWhen(lifetimeHours: nat, gap: int, pause: nat, delay: nat)
    requires lifetimeHours > 0
    ensures BoundAt(lifetimeHours, gap, pause, delay) <==> gap + pause + delay <= 0
  {
    if gap + pause + delay <= 0 {
      forall clock, steps, k: nat, i: nat
        ensures BoundKept(lifetimeHours, Run(lifetimeHours, Start(clock), steps), k, i, gap, pause, delay)
      {
        if RevokedForward(Run(lifetimeHours, Start(clock), steps), k, i) {
          ForwardedWasNotLongRevoked(lifetimeHours, clock, steps, k, i);
        }
      }
    } else {
      var start, steps := PausedRun(lifetimeHours, gap, pause, delay);
      var w := Run(lifetimeHours, Start(start), steps);
      assert RevokedForward(w, 0, 0);
      assert !BoundKept(lifetimeHours, w, 0, 0, gap, pause, delay);
    }
  }

  // ---------------------------------------------------------------- a run for every gap, pause and delay

  const SERIAL := 7

  function DeviceBody(): Pki.Body {
    Pki.Body("i", "t", "a", "d", "p", "n", Pki.Csr("s", "k"))
  }

  function TheGrant(): Pki.Grant {
    Pki.Grant(Pki.ForIssue, "t", "a", "d", "i", "s")
  }

  function TheAuthority(now: Time): Pki.Authority {
    Pki.Authority(true, now + Pki.DAY, 1, 0)
  }

  function TheDraw(now: Time): Pki.Draw {
    Pki.Draw("c", SERIAL, "f", now)
  }

  function TheCertificate(now: Time): Pki.Certificate {
    Pki.Certificate("c", "i", "t", "a", "d", "p", Hex(SERIAL, 'A'), "s", "f", "n", "k", now, now + Pki.DAY, Pki.Active,
                    None, None, None)
  }

  function TheRevoked(issued: Time, revoked: Time): Pki.Certificate {
    Pki.RevokedAs(TheCertificate(issued), revoked, "key_compromise")
  }

  lemma Issues(now: Time)
    ensures Pki.Issue([], DeviceBody(), Some(TheGrant()), TheAuthority(now), TheDraw(now)).1 == [TheCertificate(now)]
  {
    StripFixesStripped("n");
  }

  lemma Revokes(issued: Time, now: Time)
    ensures Pki.Revoke([TheCertificate(issued)], "c", "key_compromise", TheAuthority(issued), now).1
        == [TheRevoked(issued, now)]
  {
    assert Pki.ById([TheCertificate(issued)], "c") == Some(0);
  }

  /** One more step of a run. */
  lemma {:induction false} OneMore(lifetimeHours: nat, start: World, steps: seq<Step>, step: Step)
    ensures Run(lifetimeHours, start, steps + [step]) == Apply(lifetimeHours, Run(lifetimeHours, start, steps), step)
    decreases |steps|
  {
    if steps == [] {
      assert [] + [step] == [step] && [step][1..] == [];
    } else {
      assert (steps + [step])[1..] == steps[1..] + [step];
      OneMore(lifetimeHours, Apply(lifetimeHours, start, steps[0]), steps[1..], step);
    }
  }

  ghost predicate Reaches(lifetimeHours: nat, start: Time, w: World) {
    exists steps :: Run(lifetimeHours, Start(start), steps) == w
  }

  lemma Next(lifetimeHours: nat, start: Time, w: World, step: Step) returns (after: World)
    requires Reaches(lifetimeHours, start, w)
    ensures after == Apply(lifetimeHours, w, step) && Reaches(lifetimeHours, start, after)
  {
    var steps :| Run(lifetimeHours, Start(start), steps) == w;
    OneMore(lifetimeHours, Start(start), steps, step);
    after := Apply(lifetimeHours, w, step);
  }

  /** The certificate is issued. */
  lemma IssuedAt(lifetimeHours: nat, start: Time) returns (after: World)
    ensures Reaches(lifetimeHours, start, after) && after == Start(start).(certs := [TheCertificate(start)])
  {
    Issues(start);
    assert Run(lifetimeHours, Start(start), []) == Start(start);
    after := Next(lifetimeHours, start, Start(start),
                  Commit(Pki.IssueOp(DeviceBody(), Some(TheGrant()), TheAuthority(start), TheDraw(start))));
    assert after.committed == map[];
  }

  lemma WaitUntil(lifetimeHours: nat, start: Time, w: World, t: Time) returns (after: World)
    requires Reaches(lifetimeHours, start, w) && t >= w.clock
    ensures Reaches(lifetimeHours, start, after) && after == w.(clock := t)
  {
    after := Next(lifetimeHours, start, w, Tick(t - w.clock));
  }

  /** A publication reads the rows; then the certificate is committed as revoked, dated `delay` earlier. */
  lemma ReadThenRevoked(lifetimeHours: nat, start: Time, w: World, delay: nat) returns (after: World)
    requires Reaches(lifetimeHours, start, w) && w.certs == [TheCertificate(start)] && w.committed == map[]
    requires w.reading == map[]
    ensures Reaches(lifetimeHours, start, after)
    ensures after == w.(certs := [TheRevoked(start, w.clock - delay)], committed := map[0 := w.clock],
                        reading := map["old" := Reading([], w.clock)])
  {
    assert ListsRevoked(w.certs, []);
    var read := Next(lifetimeHours, start, w, ReadRows("old", []));
    Revokes(start, w.clock - delay);
    after := Next(lifetimeHours, start, read,
                  Commit(Pki.RevokeOp("c", "key_compromise", TheAuthority(start), w.clock - delay)));
    assert after.committed == map[0 := w.clock];
  }

  /** The publication stamps its list, and a load of that list reads the clock. */
  lemma StampedAndLoading(lifetimeHours: nat, start: Time, w: World, rowsAt: Time) returns (after: World)
    requires Reaches(lifetimeHours, start, w) && w.reading == map["old" := Reading([], rowsAt)] && w.loading == map[]
    ensures Reaches(lifetimeHours, start, after)
    ensures after == w.(reading := map[], lists := w.lists + [Published(CrlOf([], w.clock, lifetimeHours), rowsAt)],
                        loading := map["old" := Loading(|w.lists|, w.clock)])
  {
    var stamped := Next(lifetimeHours, start, w, Stamp("old"));
    assert stamped.reading == map[];
    after := Next(lifetimeHours, start, stamped, ReadClock("old", |w.lists|));
  }

  /** The list another publication makes right now. */
  function NewList(lifetimeHours: nat, w: World, rows: seq<Pki.Certificate>): Published {
    Published(CrlOf(rows, w.clock, lifetimeHours), w.clock)
  }

  /** Another list is made and loaded at once. */
  lemma AnotherIsHeld(lifetimeHours: nat, start: Time, w: World, rows: seq<Pki.Certificate>) returns (after: World)
    requires Reaches(lifetimeHours, start, w) && ListsRevoked(w.certs, rows) && "new" !in w.reading
    requires "new" !in w.loading
    ensures Reaches(lifetimeHours, start, after)
    ensures after == w.(lists := w.lists + [NewList(lifetimeHours, w, rows)],
                        held := HeldOf(NewList(lifetimeHours, w, rows).crl),
                        heldAt := w.clock, heldRowsAt := w.clock)
  {
    var read := Next(lifetimeHours, start, w, ReadRows("new", rows));
    var stamped := Next(lifetimeHours, start, read, Stamp("new"));
    assert stamped.reading == w.reading;
    var loading := Next(lifetimeHours, start, stamped, ReadClock("new", |w.lists|));
    after := Next(lifetimeHours, start, loading, Swap("new"));
    assert after.loading == w.loading;
  }

  /** With another list in place, a request with the certificate passes its validity check. */
  lemma PassesWithAnother(lifetimeHours: nat, start: Time, w: World, rows: seq<Pki.Certificate>) returns (after: World)
    requires lifetimeHours > 0 && w.passed == map[]
    requires Reaches(lifetimeHours, start, w) && ListsRevoked(w.certs, rows) && "new" !in w.reading
    requires "new" !in w.loading
    ensures Reaches(lifetimeHours, start, after)
    ensures after == w.(lists := w.lists + [NewList(lifetimeHours, w, rows)],
                        held := HeldOf(NewList(lifetimeHours, w, rows).crl),
                        heldAt := w.clock, heldRowsAt := w.clock, passed := map["r" := Passed(SERIAL, w.clock)])
  {
    var held := AnotherIsHeld(lifetimeHours, start, w, rows);
    after := Next(lifetimeHours, start, held, CheckValidity("r", SERIAL));
  }

  /** The load puts its list, which has no entry, in place, and the request is forwarded. */
  lemma ForwardedByOldList(lifetimeHours: nat, start: Time, w: World, n: nat, stampedAt: Time, at: Time)
    returns (after: World)
    requires Reaches(lifetimeHours, start, w) && n < |w.lists| && w.lists[n].crl == CrlOf([], stampedAt, lifetimeHours)
    requires w.loading == map["old" := Loading(n, stampedAt)] && w.passed == map["r" := Passed(SERIAL, at)]
    requires w.forwarded == []
    ensures Reaches(lifetimeHours, start, after) && after.certs == w.certs && after.committed == w.committed
    ensures after.forwarded == [Forward(SERIAL, at, Some(stampedAt + lifetimeHours * HOUR), stampedAt,
                                        w.lists[n].rowsAt)]
  {
    var swapped := Next(lifetimeHours, start, w, Swap("old"));
    assert SerialsOf([]) == {};
    after := Next(lifetimeHours, start, swapped, CheckRevocation("r"));
  }

  /** What the run is for: the rows read at 0, the list stamped at `pause`, the check at `at`, the commit at 0. */
  predicate BrokenBy(lifetimeHours: nat, w: World, start: Time, pause: nat, delay: nat, at: Time) {
    && w.certs == [TheRevoked(start, 0 - delay)] && w.committed == map[0 := 0]
    && w.forwarded == [Forward(SERIAL, at, Some(pause + lifetimeHours * HOUR), pause, 0)]
  }

  /** The check comes after the list was stamped. */
  lemma CheckedLast(lifetimeHours: nat, start: Time, pause: nat, delay: nat, at: Time) returns (w: World)
    requires lifetimeHours > 0 && start <= 0 && pause <= at
    ensures Reaches(lifetimeHours, start, w) && BrokenBy(lifetimeHours, w, start, pause, delay, at)
  {
    w := IssuedAt(lifetimeHours, start);
    w := WaitUntil(lifetimeHours, start, w, 0);
    w := ReadThenRevoked(lifetimeHours, start, w, delay);
    w := WaitUntil(lifetimeHours, start, w, pause);
    w := StampedAndLoading(lifetimeHours, start, w, 0);
    w := WaitUntil(lifetimeHours, start, w, at);
    assert ListsRevoked(w.certs, [TheRevoked(start, 0 - delay)]);
    w := PassesWithAnother(lifetimeHours, start, w, [TheRevoked(start, 0 - delay)]);
    w := ForwardedByOldList(lifetimeHours, start, w, 0, pause, at);
  }

  /** The check comes between reading the rows and stamping the list. */
  lemma CheckedBetween(lifetimeHours: nat, start: Time, pause: nat, delay: nat, at: Time) returns (w: World)
    requires lifetimeHours > 0 && start <= 0 && 0 <= at <= pause
    ensures Reaches(lifetimeHours, start, w) && BrokenBy(lifetimeHours, w, start, pause, delay, at)
  {
    w := IssuedAt(lifetimeHours, start);
    w := WaitUntil(lifetimeHours, start, w, 0);
    w := ReadThenRevoked(lifetimeHours, start, w, delay);
    w := WaitUntil(lifetimeHours, start, w, at);
    assert ListsRevoked(w.certs, [TheRevoked(start, 0 - delay)]);
    w := PassesWithAnother(lifetimeHours, start, w, [TheRevoked(start, 0 - delay)]);
    w := WaitUntil(lifetimeHours, start, w, pause);
    w := StampedAndLoading(lifetimeHours, start, w, 0);
    w := ForwardedByOldList(lifetimeHours, start, w, 1, pause, at);
  }

  /** The check comes before the rows are read. */
  lemma CheckedFirst(lifetimeHours: nat, start: Time, pause: nat, delay: nat, at: Time) returns (w: World)
    requires lifetimeHours > 0 && start <= at <= 0
    ensures Reaches(lifetimeHours, start, w) && BrokenBy(lifetimeHours, w, start, pause, delay, at)
  {
    w := IssuedAt(lifetimeHours, start);
    w := WaitUntil(lifetimeHours, start, w, at);
    assert ListsRevoked(w.certs, []);
    w := PassesWithAnother(lifetimeHours, start, w, []);
    w := WaitUntil(lifetimeHours, start, w, 0);
    w := ReadThenRevoked(lifetimeHours, start, w, delay);
    w := WaitUntil(lifetimeHours, start, w, pause);
    w := StampedAndLoading(lifetimeHours, start, w, 0);
    w := ForwardedByOldList(lifetimeHours, start, w, 1, pause, at);
  }

  /** For every gap, pause and delay that add up to more than nothing, a run that breaks the bound. */
  lemma PausedRun(lifetimeHours: nat, gap: int, pause: nat, delay: nat) returns (start: Time, steps: seq<Step>)
    requires lifetimeHours > 0 && gap + pause + delay > 0
    ensures var w := Run(lifetimeHours, Start(start), steps);
            && RevokedForward(w, 0, 0)
            && Gap(w.forwarded[0]) == gap && PublicationPause(lifetimeHours, w.forwarded[0]) == pause
            && CommitDelay(w, 0) == delay
            && w.certs[0].revokedAt.value < w.forwarded[0].at - lifetimeHours * HOUR
  {
    var at := pause + lifetimeHours * HOUR + gap;
    start := Min(at, 0 - delay);
    var w;
    if at >= pause {
      w := CheckedLast(lifetimeHours, start, pause, delay, at);
    } else if at >= 0 {
      w := CheckedBetween(lifetimeHours, start, pause, delay, at);
    } else {
      w := CheckedFirst(lifetimeHours, start, pause, delay, at);
    }
    steps :| Run(lifetimeHours, Start(start), steps) == w;
  }

  /** Each of the three alone breaks the bound: a load, a publication and a commit that pause. */
  lemma EachPauseBreaksTheBound(lifetimeHours: nat, pause: nat)
    requires lifetimeHours > 0 && pause > 1
    ensures !BoundAt(lifetimeHours, pause, 0, 0)
    ensures !BoundAt(lifetimeHours, -1, pause, 0)
    ensures !BoundAt(lifetimeHours, -1, 0, pause)
  {
    BoundFromTheCheckExactlyWhen(lifetimeHours, pause, 0, 0);
    BoundFromTheCheckExactlyWhen(lifetimeHours, -1, pause, 0);
    BoundFromTheCheckExactlyWhen(lifetimeHours, -1, 0, pause);
  }
}
