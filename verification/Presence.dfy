/**
 Device presence (`services/agent-control-service/app/heartbeat.py` and `offline.py`): heartbeats bring a
 device online and record its capabilities, a sweep takes silent devices offline, and both leave events.
 */
module Presence {
  import opened Common
  import opened Text

  type Id = string

  datatype State = Online | Offline | Disabled

  datatype Principal = Principal(device: Id, tenant: Id, asset: Id, serial: string)

  datatype Payload = Payload(session: Id, agentVersion: string, platform: string, platformVersion: string,
                             capabilities: seq<string>, capabilityVersion: int)

  datatype Session = Session(tenant: Id, asset: Id, serial: string, session: Id, state: State, agentVersion: string,
                             platform: string, platformVersion: string, capabilities: seq<string>,
                             capabilityVersion: int, lastSeen: Time)

  datatype Snapshot = Snapshot(device: Id, version: int, capabilities: seq<string>, createdAt: Time)

  datatype Kind = WentOnline(agentVersion: string, platform: string, platformVersion: string)
                | WentOffline
                | CapabilitiesChanged(version: int, capabilities: seq<string>)

  datatype Event = Event(kind: Kind, tenant: Id, asset: Id, device: Id, at: Time)

  datatype Db = Db(sessions: map<Id, Session>, snapshots: seq<Snapshot>, events: seq<Event>)

  datatype Outcome = Outcome(state: State, onlineTransition: bool, capabilitiesChanged: bool)

  datatype Error = BindingConflict | DeviceDisabled

  const EMPTY := Db(map[], [], [])

  // ---------------------------------------------------------------- capabilities

  predicate Ascending(s: seq<string>) {
    forall i {:trigger s[i]} :: 0 < i < |s| ==> Less(s[i - 1], s[i])
  }

  function Insert(x: string, s: seq<string>): (r: seq<string>)
    requires Ascending(s)
    ensures Ascending(r)
    ensures forall y :: y in r <==> y == x || y in s
    ensures s != [] && r != [] ==> r[0] == x || r[0] == s[0]
    decreases |s|
  {
    if s == [] then [x]
    else if x == s[0] then s
    else if Less(x, s[0]) then [x] + s
    else
      LessTotal(x, s[0]);
      assert forall i {:trigger s[1..][i]} :: 0 <= i < |s[1..]| ==> s[1..][i] == s[i + 1];
      var rest := Insert(x, s[1..]);
      assert s == [s[0]] + s[1..];
      [s[0]] + rest
  }

  /** `sorted(set(values))`. */
  function Normalized(values: seq<string>): (r: seq<string>)
    ensures Ascending(r)
    ensures forall y :: y in r <==> y in values
    decreases |values|
  {
    if values == [] then []
    else
      assert values == [values[0]] + values[1..];
      Insert(values[0], Normalized(values[1..]))
  }

  lemma {:induction false} AscendingFirst(s: seq<string>, i: nat)
    requires Ascending(s) && 0 < i < |s|
    ensures Less(s[0], s[i])
    decreases i
  {
    assert Less(s[i - 1], s[i]);
    if i > 1 {
      AscendingFirst(s, i - 1);
      LessTransitive(s[0], s[i - 1], s[i]);
    }
  }

  lemma {:induction false} AscendingUnique(s: seq<string>, t: seq<string>)
    requires Ascending(s) && Ascending(t) && forall y :: y in s <==> y in t
    ensures s == t
    decreases |s|
  {
    assert t == [] || t[0] in t;
    if s == [] {
    } else {
      assert s[0] in t && (t[0] in s);
      var i, j :| 0 <= i < |t| && t[i] == s[0] && 0 <= j < |s| && s[j] == t[0];
      if i > 0 {
        AscendingFirst(t, i);
        LessTotal(t[0], s[0]);
        if j > 0 {
          AscendingFirst(s, j);
        }
      }
      assert s[0] == t[0];
      RestSame(s, t);
      AscendingUnique(s[1..], t[1..]);
    }
  }

  lemma RestSame(s: seq<string>, t: seq<string>)
    requires s != [] && t != [] && s[0] == t[0] && Ascending(s) && Ascending(t) && forall y :: y in s <==> y in t
    ensures Ascending(s[1..]) && Ascending(t[1..]) && forall y :: y in s[1..] <==> y in t[1..]
  {
    forall y ensures y in s[1..] <==> y in t[1..] {
      RestIsTheOthers(s, y);
      RestIsTheOthers(t, y);
    }
  }

  lemma RestIsTheOthers(s: seq<string>, y: string)
    requires s != [] && Ascending(s)
    ensures y in s[1..] <==> y in s && y != s[0]
  {
    assert s == [s[0]] + s[1..];
    if y in s[1..] {
      var i :| 0 <= i < |s[1..]| && s[1..][i] == y;
      AscendingFirst(s, i + 1);
      LessTotal(s[0], y);
    }
  }

  /** Two reports compare equal exactly when they name the same capabilities. */
  lemma NormalizedIsCanonical(a: seq<string>, b: seq<string>)
    ensures Normalized(a) == Normalized(b) <==> forall y :: y in a <==> y in b
  {
    if forall y :: y in a <==> y in b {
      AscendingUnique(Normalized(a), Normalized(b));
    } else {
      var y :| !(y in a <==> y in b);
      assert y in Normalized(a) <==> y in a;
      assert y in Normalized(b) <==> y in b;
    }
  }

  // ---------------------------------------------------------------- what the handlers compute

  function FirstSession(p: Principal, payload: Payload, now: Time): Session {
    Session(p.tenant, p.asset, p.serial, payload.session, Online, payload.agentVersion, payload.platform,
            payload.platformVersion, Normalized(payload.capabilities), payload.capabilityVersion, now)
  }

  function NextSession(s: Session, p: Principal, payload: Payload, now: Time): Session {
    Session(s.tenant, s.asset, p.serial, payload.session, Online, payload.agentVersion, payload.platform,
            payload.platformVersion, Normalized(payload.capabilities), payload.capabilityVersion, now)
  }

  function OnlineEvent(p: Principal, payload: Payload, now: Time): Event {
    Event(WentOnline(payload.agentVersion, payload.platform, payload.platformVersion), p.tenant, p.asset, p.device, now)
  }

  function CapabilityEvent(p: Principal, payload: Payload, now: Time): Event {
    Event(CapabilitiesChanged(payload.capabilityVersion, Normalized(payload.capabilities)), p.tenant, p.asset, p.device,
          now)
  }

  function SnapshotOf(p: Principal, payload: Payload, now: Time): Snapshot {
    Snapshot(p.device, payload.capabilityVersion, Normalized(payload.capabilities), now)
  }

  function Emitted(db: Db, e: Event): Db {
    db.(events := db.events + [e])
  }

  function Snapped(db: Db, s: Snapshot): Db {
    db.(snapshots := db.snapshots + [s])
  }

  function Stored(db: Db, d: Id, s: Session): Db {
    db.(sessions := db.sessions[d := s])
  }

  /** `apply_heartbeat`. */
  function Heartbeat(db: Db, p: Principal, payload: Payload, now: Time): (Result<Outcome, Error>, Db) {
    if p.device !in db.sessions then
      var stored := Snapped(Stored(db, p.device, FirstSession(p, payload, now)), SnapshotOf(p, payload, now));
      (Ok(Outcome(Online, true, true)),
       Emitted(Emitted(stored, OnlineEvent(p, payload, now)), CapabilityEvent(p, payload, now)))
    else
      var s := db.sessions[p.device];
      if s.tenant != p.tenant || s.asset != p.asset then (Err(BindingConflict), db)
      else if s.state.Disabled? then (Err(DeviceDisabled), db)
      else
        var cameOnline, changed := !s.state.Online?, s.capabilities != Normalized(payload.capabilities);
        var stored := Stored(db, p.device, NextSession(s, p, payload, now));
        var announced := if cameOnline then Emitted(stored, OnlineEvent(p, payload, now)) else stored;
        (Ok(Outcome(Online, cameOnline, changed)),
         if changed then Emitted(Snapped(announced, SnapshotOf(p, payload, now)), CapabilityEvent(p, payload, now))
         else announced)
  }

  predicate Silent(db: Db, d: Id, cutoff: Time) {
    d in db.sessions && db.sessions[d].state.Online? && db.sessions[d].lastSeen < cutoff
  }

  /** The rows the sweep's query returns: the silent online devices, longest silent first. */
  ghost predicate SilentDevices(db: Db, cutoff: Time, ids: seq<Id>) {
    && Distinct(ids)
    && (forall i {:trigger Silent(db, ids[i], cutoff)} :: 0 <= i < |ids| ==> Silent(db, ids[i], cutoff))
    && (forall d {:trigger Silent(db, d, cutoff)} :: Silent(db, d, cutoff) ==> d in ids)
    && (forall i {:trigger ids[i]} :: 0 <= i < |ids| ==> ids[i] in db.sessions)
    && forall i, j :: 0 <= i < j < |ids| ==> db.sessions[ids[i]].lastSeen <= db.sessions[ids[j]].lastSeen
  }

  function TakenOffline(db: Db, d: Id, now: Time): Db
    requires d in db.sessions
  {
    var s := db.sessions[d];
    Emitted(Stored(db, d, s.(state := Offline)), Event(WentOffline, s.tenant, s.asset, d, now))
  }

  function Swept(db: Db, ids: seq<Id>, now: Time): (after: Db)
    requires forall i :: 0 <= i < |ids| ==> ids[i] in db.sessions
    ensures after.sessions.Keys == db.sessions.Keys
    decreases |ids|
  {
    if ids == [] then db
    else TakenOffline(Swept(db, ids[..|ids| - 1], now), ids[|ids| - 1], now)
  }

  class PresenceStore {
    var sessions: map<Id, Session>
    var snapshots: seq<Snapshot>
    var events: seq<Event>

    function Contents(): Db
      reads this
    {
      Db(sessions, snapshots, events)
    }

    constructor ()
      ensures Contents() == EMPTY
    {
      sessions, snapshots, events := map[], [], [];
    }

    method ApplyHeartbeat(p: Principal, payload: Payload, now: Time) returns (r: Result<Outcome, Error>)
      modifies this
      ensures (r, Contents()) == Heartbeat(old(Contents()), p, payload, now)
    {
      var normalized := Normalized(payload.capabilities);
      if p.device !in sessions {
        var session := Session(p.tenant, p.asset, p.serial, payload.session, Online, payload.agentVersion,
                               payload.platform, payload.platformVersion, normalized, payload.capabilityVersion, now);
        sessions := sessions[p.device := session];
        snapshots := snapshots + [Snapshot(p.device, payload.capabilityVersion, normalized, now)];
        events := events + [OnlineEvent(p, payload, now)];
        events := events + [CapabilityEvent(p, payload, now)];
        return Ok(Outcome(Online, true, true));
      }
      var current := sessions[p.device];
      if current.tenant != p.tenant || current.asset != p.asset {
        return Err(BindingConflict);
      }
      if current.state.Disabled? {
        return Err(DeviceDisabled);
      }
      var onlineTransition := !current.state.Online?;
      var capabilitiesChanged := current.capabilities != normalized;
      current := current.(serial := p.serial, session := payload.session, state := Online,
                          agentVersion := payload.agentVersion, platform := payload.platform,
                          platformVersion := payload.platformVersion, capabilityVersion := payload.capabilityVersion,
                          lastSeen := now);
      if onlineTransition {
        events := events + [OnlineEvent(p, payload, now)];
      }
      if capabilitiesChanged {
        current := current.(capabilities := normalized);
        snapshots := snapshots + [Snapshot(p.device, payload.capabilityVersion, normalized, now)];
        events := events + [CapabilityEvent(p, payload, now)];
      }
      sessions := sessions[p.device := current];
      return Ok(Outcome(Online, onlineTransition, capabilitiesChanged));
    }

    /** `ids` is what the query returned. */
    method MarkStaleDevicesOffline(ids: seq<Id>, cutoff: Time, now: Time) returns (changed: seq<Id>)
      requires SilentDevices(Contents(), cutoff, ids)
      modifies this
      ensures Contents() == Swept(old(Contents()), ids, now) && changed == ids
    {
      assert forall i :: 0 <= i < |ids| ==> Silent(Contents(), ids[i], cutoff);
      changed := [];
      for i := 0 to |ids|
        invariant Contents() == Swept(old(Contents()), ids[..i], now)
        invariant changed == ids[..i]
      {
        assert ids[..i + 1][..i] == ids[..i];
        var device := sessions[ids[i]];
        sessions := sessions[ids[i] := device.(state := Offline)];
        changed := changed + [ids[i]];
        events := events + [Event(WentOffline, device.tenant, device.asset, ids[i], now)];
      }
      assert ids[..|ids|] == ids;
    }
  }

  // ---------------------------------------------------------------- reading the log back

  /** The online (true) and offline (false) events of `d`, oldest first. */
  function PresenceLog(events: seq<Event>, d: Id): seq<bool>
    decreases |events|
  {
    if events == [] then []
    else
      var e, before := events[|events| - 1], PresenceLog(events[..|events| - 1], d);
      if e.device == d && !e.kind.CapabilitiesChanged? then before + [e.kind.WentOnline?] else before
  }

  function CapabilityLog(events: seq<Event>, d: Id): seq<(int, seq<string>)>
    decreases |events|
  {
    if events == [] then []
    else
      var e, before := events[|events| - 1], CapabilityLog(events[..|events| - 1], d);
      if e.device == d && e.kind.CapabilitiesChanged? then before + [(e.kind.version, e.kind.capabilities)] else before
  }

  function SnapshotLog(snapshots: seq<Snapshot>, d: Id): seq<(int, seq<string>)>
    decreases |snapshots|
  {
    if snapshots == [] then []
    else
      var s, before := snapshots[|snapshots| - 1], SnapshotLog(snapshots[..|snapshots| - 1], d);
      if s.device == d then before + [(s.version, s.capabilities)] else before
  }

  predicate BoundTo(e: Event, d: Id, tenant: Id, asset: Id) {
    e.device == d ==> e.tenant == tenant && e.asset == asset
  }

  ghost predicate EventsBoundTo(events: seq<Event>, d: Id, tenant: Id, asset: Id) {
    forall i {:trigger BoundTo(events[i], d, tenant, asset)} :: 0 <= i < |events| ==>
        BoundTo(events[i], d, tenant, asset)
  }

  /** Online first, then strictly in turn. */
  predicate Alternating(log: seq<bool>) {
    forall i {:trigger log[i]} :: 0 <= i < |log| ==> log[i] == (i % 2 == 0)
  }

  predicate Changing(log: seq<(int, seq<string>)>) {
    forall i {:trigger log[i]} :: 0 < i < |log| ==> log[i].1 != log[i - 1].1
  }

  function SessionOf(db: Db, d: Id): Option<Session> {
    if d in db.sessions then Some(db.sessions[d]) else None
  }

  /** The events alternate from online on, and the last one is the stored state. */
  predicate PresenceTells(log: seq<bool>, s: Option<Session>) {
    && Alternating(log)
    && (s.None? <==> log == [])
    && (s.Some? ==> s.value.state == if |log| > 0 && log[|log| - 1] then Online else Offline)
  }

  /** Every snapshot has its event and differs from the one before; the last is the stored list. */
  predicate CapabilitiesTell(snapshots: seq<(int, seq<string>)>, events: seq<(int, seq<string>)>, s: Option<Session>) {
    && Changing(snapshots)
    && snapshots == events
    && (s.None? <==> snapshots == [])
    && (s.Some? && snapshots != [] ==>
        s.value.capabilities == snapshots[|snapshots| - 1].1 && Ascending(s.value.capabilities))
  }

  /** The log of one device tells the stored session. */
  ghost predicate Faithful(db: Db, d: Id) {
    && PresenceTells(PresenceLog(db.events, d), SessionOf(db, d))
    && CapabilitiesTell(SnapshotLog(db.snapshots, d), CapabilityLog(db.events, d), SessionOf(db, d))
    && (d in db.sessions ==> EventsBoundTo(db.events, d, db.sessions[d].tenant, db.sessions[d].asset))
  }

  ghost predicate Inv(db: Db) {
    forall d {:trigger Faithful(db, d)} :: Faithful(db, d)
  }

  lemma LogsGrow(db: Db, e: Event, d: Id)
    ensures var after := Emitted(db, e);
            && PresenceLog(after.events, d) == (if e.device == d && !e.kind.CapabilitiesChanged?
                                                then PresenceLog(db.events, d) + [e.kind.WentOnline?]
                                                else PresenceLog(db.events, d))
            && CapabilityLog(after.events, d)
               == (if e.device == d && e.kind.CapabilitiesChanged?
                   then CapabilityLog(db.events, d) + [(e.kind.version, e.kind.capabilities)]
                   else CapabilityLog(db.events, d))
  {
  }

  lemma SnapshotsGrow(db: Db, s: Snapshot, d: Id)
    ensures SnapshotLog(Snapped(db, s).snapshots, d)
         == (if s.device == d then SnapshotLog(db.snapshots, d) + [(s.version, s.capabilities)]
             else SnapshotLog(db.snapshots, d))
  {
  }

  lemma BindingGrows(events: seq<Event>, e: Event, d: Id, tenant: Id, asset: Id)
    requires EventsBoundTo(events, d, tenant, asset) && BoundTo(e, d, tenant, asset)
    ensures EventsBoundTo(events + [e], d, tenant, asset)
  {
  }

  // ---------------------------------------------------------------- every handler keeps the log faithful

  lemma EmittedElsewhere(db: Db, e: Event, d: Id)
    requires Faithful(db, d) && e.device != d
    ensures Faithful(Emitted(db, e), d)
  {
  }

  lemma SnappedElsewhere(db: Db, s: Snapshot, d: Id)
    requires Faithful(db, d) && s.device != d
    ensures Faithful(Snapped(db, s), d)
  {
  }

  lemma StoredElsewhere(db: Db, x: Id, s: Session, d: Id)
    requires Faithful(db, d) && x != d
    ensures Faithful(Stored(db, x, s), d)
  {
  }

  lemma FirstHeartbeat(db: Db, p: Principal, payload: Payload, now: Time)
    requires Faithful(db, p.device) && p.device !in db.sessions
    requires forall i {:trigger db.events[i]} :: 0 <= i < |db.events| ==> db.events[i].device != p.device
    ensures Faithful(Heartbeat(db, p, payload, now).1, p.device)
  {
  }

  /** No events for `d` means an empty log, and the other way round. */
  lemma {:induction false} NoEvents(events: seq<Event>, d: Id)
    requires PresenceLog(events, d) == [] && CapabilityLog(events, d) == []
    ensures forall i {:trigger events[i]} :: 0 <= i < |events| ==> events[i].device != d
    decreases |events|
  {
    if events != [] {
      NoEvents(events[..|events| - 1], d);
      assert events == events[..|events| - 1] + [events[|events| - 1]];
    }
  }

  /** What a later heartbeat adds to the logs of its device. */
  lemma LaterLogs(db: Db, p: Principal, payload: Payload, now: Time)
    requires Heartbeat(db, p, payload, now).0.Ok? && p.device in db.sessions
    ensures var d, s, after, entry := p.device, db.sessions[p.device], Heartbeat(db, p, payload, now).1,
                                      (payload.capabilityVersion, Normalized(payload.capabilities));
            && PresenceLog(after.events, d)
               == (if s.state.Online? then PresenceLog(db.events, d) else PresenceLog(db.events, d) + [true])
            && (if s.capabilities == entry.1 then
                  && CapabilityLog(after.events, d) == CapabilityLog(db.events, d)
                  && SnapshotLog(after.snapshots, d) == SnapshotLog(db.snapshots, d)
                else
                  && CapabilityLog(after.events, d) == CapabilityLog(db.events, d) + [entry]
                  && SnapshotLog(after.snapshots, d) == SnapshotLog(db.snapshots, d) + [entry])
  {
    var d, s := p.device, db.sessions[p.device];
    var online, changed := OnlineEvent(p, payload, now), CapabilityEvent(p, payload, now);
    var stored := Stored(db, d, NextSession(s, p, payload, now));
    LogsGrow(stored, online, d);
    var announced := if s.state.Online? then stored else Emitted(stored, online);
    SnapshotsGrow(announced, SnapshotOf(p, payload, now), d);
    LogsGrow(Snapped(announced, SnapshotOf(p, payload, now)), changed, d);
  }

  lemma LaterBinding(db: Db, p: Principal, payload: Payload, now: Time)
    requires Heartbeat(db, p, payload, now).0.Ok? && p.device in db.sessions
    requires EventsBoundTo(db.events, p.device, p.tenant, p.asset)
    ensures EventsBoundTo(Heartbeat(db, p, payload, now).1.events, p.device, p.tenant, p.asset)
  {
  }

  lemma PresenceStep(log: seq<bool>, s: Session, next: Session)
    requires PresenceTells(log, Some(s)) && next.state.Online?
    ensures PresenceTells(if s.state.Online? then log else log + [true], Some(next))
  {
  }

  lemma CapabilitiesStep(log: seq<(int, seq<string>)>, s: Session, next: Session, version: int)
    requires CapabilitiesTell(log, log, Some(s)) && Ascending(next.capabilities)
    ensures var after := if s.capabilities == next.capabilities then log else log + [(version, next.capabilities)];
            CapabilitiesTell(after, after, Some(next))
  {
  }

  lemma LaterHeartbeat(db: Db, p: Principal, payload: Payload, now: Time)
    requires Faithful(db, p.device) && Heartbeat(db, p, payload, now).0.Ok? && p.device in db.sessions
    ensures Faithful(Heartbeat(db, p, payload, now).1, p.device)
  {
    var s := db.sessions[p.device];
    var next := NextSession(s, p, payload, now);
    LaterLogs(db, p, payload, now);
    LaterBinding(db, p, payload, now);
    assert SessionOf(Heartbeat(db, p, payload, now).1, p.device) == Some(next);
    PresenceStep(PresenceLog(db.events, p.device), s, next);
    CapabilitiesStep(SnapshotLog(db.snapshots, p.device), s, next, payload.capabilityVersion);
  }

  lemma HeartbeatKeepsInv(db: Db, p: Principal, payload: Payload, now: Time)
    requires Inv(db)
    ensures Inv(Heartbeat(db, p, payload, now).1)
  {
    var after := Heartbeat(db, p, payload, now).1;
    forall d ensures Faithful(after, d) {
      assert Faithful(db, d);
      if d == p.device {
        if d !in db.sessions {
          NoEvents(db.events, d);
          FirstHeartbeat(db, p, payload, now);
        } else if Heartbeat(db, p, payload, now).0.Ok? {
          LaterHeartbeat(db, p, payload, now);
        }
      } else {
        HeartbeatElsewhere(db, p, payload, now, d);
      }
    }
  }

  lemma FirstElsewhere(db: Db, p: Principal, payload: Payload, now: Time, d: Id)
    requires Faithful(db, d) && d != p.device && p.device !in db.sessions
    ensures Faithful(Heartbeat(db, p, payload, now).1, d)
  {
  }

  lemma HeartbeatElsewhere(db: Db, p: Principal, payload: Payload, now: Time, d: Id)
    requires Faithful(db, d) && d != p.device
    ensures Faithful(Heartbeat(db, p, payload, now).1, d)
  {
    if p.device !in db.sessions {
      FirstElsewhere(db, p, payload, now, d);
    } else if Heartbeat(db, p, payload, now).0.Ok? {
      var s := db.sessions[p.device];
      var stored := Stored(db, p.device, NextSession(s, p, payload, now));
      StoredElsewhere(db, p.device, NextSession(s, p, payload, now), d);
      EmittedElsewhere(stored, OnlineEvent(p, payload, now), d);
      var announced := if s.state.Online? then stored else Emitted(stored, OnlineEvent(p, payload, now));
      assert Faithful(announced, d);
      SnappedElsewhere(announced, SnapshotOf(p, payload, now), d);
      EmittedElsewhere(Snapped(announced, SnapshotOf(p, payload, now)), CapabilityEvent(p, payload, now), d);
    }
  }

  lemma OfflineLogs(db: Db, x: Id, now: Time)
    requires Faithful(db, x) && x in db.sessions && db.sessions[x].state.Online?
    ensures Faithful(TakenOffline(db, x, now), x)
  {
    var s := db.sessions[x];
    var stored, e := Stored(db, x, s.(state := Offline)), Event(WentOffline, s.tenant, s.asset, x, now);
    LogsGrow(stored, e, x);
    BindingGrows(db.events, e, x, s.tenant, s.asset);
  }

  lemma OfflineKeepsInv(db: Db, x: Id, now: Time)
    requires Inv(db) && x in db.sessions && db.sessions[x].state.Online?
    ensures Inv(TakenOffline(db, x, now))
  {
    var s := db.sessions[x];
    var stored, e := Stored(db, x, s.(state := Offline)), Event(WentOffline, s.tenant, s.asset, x, now);
    forall d ensures Faithful(TakenOffline(db, x, now), d) {
      assert Faithful(db, d);
      if d == x {
        OfflineLogs(db, x, now);
      } else {
        StoredElsewhere(db, x, s.(state := Offline), d);
        EmittedElsewhere(stored, e, d);
      }
    }
  }

  lemma {:induction false} SweepKeepsInv(db: Db, ids: seq<Id>, now: Time)
    requires Inv(db) && Distinct(ids)
    requires forall i {:trigger ids[i]} :: 0 <= i < |ids| ==> ids[i] in db.sessions && db.sessions[ids[i]].state.Online?
    ensures Inv(Swept(db, ids, now))
    ensures forall d {:trigger d in ids} :: d in db.sessions && d !in ids ==>
        Swept(db, ids, now).sessions[d] == db.sessions[d]
    ensures forall d {:trigger d in ids} :: d in db.sessions ==>
              && Swept(db, ids, now).sessions[d].tenant == db.sessions[d].tenant
              && Swept(db, ids, now).sessions[d].asset == db.sessions[d].asset
    decreases |ids|
  {
    if ids != [] {
      var last, before := ids[|ids| - 1], ids[..|ids| - 1];
      SweepKeepsInv(db, before, now);
      assert last !in before;
      OfflineKeepsInv(Swept(db, before, now), last, now);
      assert ids == before + [last];
      forall d | d in db.sessions ensures d in before ==> d in ids {
      }
    }
  }

  // ---------------------------------------------------------------- every run

  datatype Op =
    | HeartbeatOp(p: Principal, payload: Payload, now: Time)
    | SweepOp(ids: seq<Id>, cutoff: Time, now: Time)

  ghost function Apply(db: Db, op: Op): Db {
    match op
    case HeartbeatOp(p, payload, now) => Heartbeat(db, p, payload, now).1
    case SweepOp(ids, cutoff, now) => if SilentDevices(db, cutoff, ids) then Swept(db, ids, now) else db
  }

  ghost function Run(db: Db, ops: seq<Op>): Db
    decreases |ops|
  {
    if ops == [] then db else Run(Apply(db, ops[0]), ops[1..])
  }

  predicate KeepsBinding(db: Db, after: Db, d: Id) {
    d in db.sessions ==>
      && d in after.sessions && after.sessions[d].tenant == db.sessions[d].tenant
      && after.sessions[d].asset == db.sessions[d].asset
  }

  lemma ApplyKeeps(db: Db, op: Op, d: Id)
    requires Inv(db)
    ensures Inv(Apply(db, op)) && KeepsBinding(db, Apply(db, op), d)
  {
    match op
    case HeartbeatOp(p, payload, now) => HeartbeatKeepsInv(db, p, payload, now);
    case SweepOp(ids, cutoff, now) =>
      if SilentDevices(db, cutoff, ids) {
        assert forall i :: 0 <= i < |ids| ==> Silent(db, ids[i], cutoff);
        SweepKeepsInv(db, ids, now);
        assert d in ids || d !in ids;
      }
  }

  /** A device never moves to another tenant or asset, and the log stays faithful. */
  lemma {:induction false} RunKeeps(db: Db, ops: seq<Op>, d: Id)
    requires Inv(db)
    ensures Inv(Run(db, ops)) && KeepsBinding(db, Run(db, ops), d)
    decreases |ops|
  {
    if ops != [] {
      ApplyKeeps(db, ops[0], d);
      RunKeeps(Apply(db, ops[0]), ops[1..], d);
    }
  }

  /**
   From the empty tables, after any run: the online and offline events of a device alternate starting
   with online and end in its stored state; its capability snapshots match its capability events,
   each differs from the one before, and the last is the stored, sorted, duplicate-free list; all its
   events name the one tenant and asset it is bound to.
   */
  lemma TheLogTellsTheState(ops: seq<Op>, d: Id)
    ensures Faithful(Run(EMPTY, ops), d)
  {
    forall x ensures Faithful(EMPTY, x) {
    }
    RunKeeps(EMPTY, ops, d);
  }

  /** A device that was disabled by hand stays so: its heartbeats are refused and leave no trace. */
  lemma DisabledIsRefused(db: Db, p: Principal, payload: Payload, now: Time)
    requires p.device in db.sessions && db.sessions[p.device].state.Disabled?
    ensures var (r, after) := Heartbeat(db, p, payload, now);
            && r.Err? && after == db
            && (r.error.DeviceDisabled? <==>
                  db.sessions[p.device].tenant == p.tenant && db.sessions[p.device].asset == p.asset)
  {
  }

  /** No run ever answers "disabled"; a heartbeat is refused exactly when it names another binding. */
  lemma RefusedExactlyOnForeignBinding(ops: seq<Op>, p: Principal, payload: Payload, now: Time)
    ensures var db := Run(EMPTY, ops);
            var answer := Heartbeat(db, p, payload, now).0;
            && (answer.Err? <==> p.device in db.sessions
                                 && (db.sessions[p.device].tenant != p.tenant
                                     || db.sessions[p.device].asset != p.asset))
            && (answer.Err? ==> answer.error == BindingConflict && Heartbeat(db, p, payload, now).1 == db)
  {
    TheLogTellsTheState(ops, p.device);
  }

  // ---------------------------------------------------------------- what the stored row says

  /** The last accepted heartbeat of `d` in a run from `db`; `last` is the one before the run. */
  ghost function LastAccepted(db: Db, ops: seq<Op>, d: Id, last: Option<Op>): Option<Op>
    decreases |ops|
  {
    if ops == [] then last
    else
      var op := ops[0];
      var accepted := op.HeartbeatOp? && op.p.device == d && Heartbeat(db, op.p, op.payload, op.now).0.Ok?;
      LastAccepted(Apply(db, op), ops[1..], d, if accepted then Some(op) else last)
  }

  /** The row is what the heartbeat said, whether the device is online or not. */
  ghost predicate SaysWhat(s: Session, op: Op) {
    && op.HeartbeatOp?
    && s.tenant == op.p.tenant && s.asset == op.p.asset && s.serial == op.p.serial
    && s.session == op.payload.session && s.agentVersion == op.payload.agentVersion
    && s.platform == op.payload.platform && s.platformVersion == op.payload.platformVersion
    && s.capabilityVersion == op.payload.capabilityVersion && s.lastSeen == op.now
    && Ascending(s.capabilities) && forall c :: c in s.capabilities <==> c in op.payload.capabilities
  }

  ghost predicate RowSays(db: Db, d: Id, last: Option<Op>) {
    if d in db.sessions then last.Some? && SaysWhat(db.sessions[d], last.value) else last.None?
  }

  lemma {:induction false} SweepChanges(db: Db, ids: seq<Id>, now: Time, d: Id)
    requires Distinct(ids) && forall i {:trigger ids[i]} :: 0 <= i < |ids| ==> ids[i] in db.sessions
    requires d in db.sessions
    ensures Swept(db, ids, now).sessions[d] == if d in ids then db.sessions[d].(state := Offline) else db.sessions[d]
    decreases |ids|
  {
    if ids != [] {
      var last, before := ids[|ids| - 1], ids[..|ids| - 1];
      assert ids == before + [last] && last !in before;
      SweepChanges(db, before, now, d);
      SweepChanges(db, before, now, last);
    }
  }

  lemma {:induction false} RowKeepsSaying(db: Db, ops: seq<Op>, d: Id, last: Option<Op>)
    requires RowSays(db, d, last)
    ensures RowSays(Run(db, ops), d, LastAccepted(db, ops, d, last))
    decreases |ops|
  {
    if ops != [] {
      var op := ops[0];
      if op.SweepOp? && SilentDevices(db, op.cutoff, op.ids) && d in db.sessions {
        SweepChanges(db, op.ids, op.now, d);
      }
      var accepted := op.HeartbeatOp? && op.p.device == d && Heartbeat(db, op.p, op.payload, op.now).0.Ok?;
      RowKeepsSaying(Apply(db, op), ops[1..], d, if accepted then Some(op) else last);
    }
  }

  /**
   After any run a device has a row exactly if a heartbeat of it was accepted, and the row says what the last
   one did.
   */
  lemma TheRowIsTheLastHeartbeat(ops: seq<Op>, d: Id)
    ensures RowSays(Run(EMPTY, ops), d, LastAccepted(EMPTY, ops, d, None))
  {
    RowKeepsSaying(EMPTY, ops, d, None);
  }

  /**
   After any run a sweep takes a device offline exactly if it is online and its last accepted heartbeat is
   older than the cutoff; nothing else of its row changes.
   */
  lemma SweepsExactlyTheSilent(ops: seq<Op>, ids: seq<Id>, cutoff: Time, now: Time, d: Id)
    requires SilentDevices(Run(EMPTY, ops), cutoff, ids) && d in Run(EMPTY, ops).sessions
    ensures var last := LastAccepted(EMPTY, ops, d, None);
            var before, after := Run(EMPTY, ops).sessions[d], Swept(Run(EMPTY, ops), ids, now).sessions[d];
            && last.Some? && last.value.HeartbeatOp?
            && after == if before.state.Online? && last.value.now < cutoff then before.(state := Offline) else before
  {
    var db := Run(EMPTY, ops);
    TheRowIsTheLastHeartbeat(ops, d);
    SweepChanges(db, ids, now, d);
    assert Silent(db, d, cutoff) ==> d in ids;
    if d in ids {
      var i :| 0 <= i < |ids| && ids[i] == d;
      assert Silent(db, ids[i], cutoff);
    }
  }

  /** The device's row has these capabilities, in whatever order and however often they are named. */
  ghost predicate HasCapabilities(db: Db, d: Id, capabilities: seq<string>) {
    d in db.sessions && forall c :: c in db.sessions[d].capabilities <==> c in capabilities
  }

  /** What is logged of a heartbeat that does, or does not, bring its device online and change its capabilities. */
  predicate Logs(db: Db, after: Db, p: Principal, payload: Payload, now: Time, online: bool, changed: bool)
    requires p.device in after.sessions
  {
    var capabilities := after.sessions[p.device].capabilities;
    var came := Event(WentOnline(payload.agentVersion, payload.platform, payload.platformVersion),
                      p.tenant, p.asset, p.device, now);
    var reported := Event(CapabilitiesChanged(payload.capabilityVersion, capabilities),
                          p.tenant, p.asset, p.device, now);
    var snapshot := Snapshot(p.device, payload.capabilityVersion, capabilities, now);
    && after.events == db.events + (if online then [came] else []) + (if changed then [reported] else [])
    && after.snapshots == db.snapshots + (if changed then [snapshot] else [])
  }

  lemma HeartbeatLogs(db: Db, p: Principal, payload: Payload, now: Time)
    requires Heartbeat(db, p, payload, now).0.Ok?
    ensures var (r, after) := Heartbeat(db, p, payload, now);
            && p.device in after.sessions
            && Logs(db, after, p, payload, now, r.value.onlineTransition, r.value.capabilitiesChanged)
  {
  }

  /**
   An accepted heartbeat answers and logs that the device came online exactly if it was not online, and that
   its capabilities changed exactly if it now names others; with a snapshot of these, and what it reports.
   */
  lemma HeartbeatTells(ops: seq<Op>, p: Principal, payload: Payload, now: Time)
    requires Heartbeat(Run(EMPTY, ops), p, payload, now).0.Ok?
    ensures var db := Run(EMPTY, ops);
            var (r, after) := Heartbeat(db, p, payload, now);
            && p.device in after.sessions && after.sessions[p.device].state.Online? && r.value.state.Online?
            && (r.value.onlineTransition <==> !(p.device in db.sessions && db.sessions[p.device].state.Online?))
            && (r.value.capabilitiesChanged <==> !HasCapabilities(db, p.device, payload.capabilities))
            && Logs(db, after, p, payload, now, r.value.onlineTransition, r.value.capabilitiesChanged)
  {
    var db := Run(EMPTY, ops);
    HeartbeatLogs(db, p, payload, now);
    TheLogTellsTheState(ops, p.device);
    if p.device in db.sessions {
      var stored, reported := db.sessions[p.device].capabilities, Normalized(payload.capabilities);
      if HasCapabilities(db, p.device, payload.capabilities) {
        AscendingUnique(stored, reported);
      }
      assert forall c :: c in reported <==> c in payload.capabilities;
    }
  }
}
