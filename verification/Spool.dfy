/**
 The agent's disk spool (`agents/windows-agent/internal/spool/spool.go`): a bounded store that gives
 up its oldest telemetry to make room, and never a command result.

 The directory is the list of its `*.json` files in the order `entries` sorts them. `json.Marshal`
 is a parameter; a file's size is the length of what it prints.
 */
module Spool {
  import opened Common
  import opened Text

  datatype Kind = Telemetry | CommandResult | UnknownKind

  datatype Item<P> = Item(kind: Kind, id: string, payload: P, createdAt: Option<Time>)

  datatype EnqueueError = InvalidKind | InvalidId | InvalidPayload | Conflict | Full | InputOutput

  type Encoding<!P> = Item<P> -> string

  datatype Limits = Limits(maxBytes: nat, maxItems: nat)

  /** Which calls into the file system fail: reading the directory, the `n`-th removal, storing the new file. */
  datatype Faults = Faults(read: bool, removal: Option<nat>, store: bool)

  function KindName(kind: Kind): string {
    match kind
    case Telemetry => "telemetry"
    case CommandResult => "command-result"
    case UnknownKind => "unknown"
  }

  function Path(kind: Kind, id: string): string {
    KindName(kind) + "-" + id + ".json"
  }

  /** What stands between the same prefix and the same suffix is the same. */
  lemma SameAfter(prefix: string, i: string, j: string, suffix: string)
    requires prefix + i + suffix == prefix + j + suffix
    ensures i == j
  {
    var whole, n := prefix + i + suffix, |prefix|;
    assert |i| == |j|;
    assert i == whole[n..n + |i|] == j;
  }

  /** No two items share a file. */
  lemma PathInjective(k: Kind, i: string, l: Kind, j: string)
    requires Path(k, i) == Path(l, j)
    ensures k == l && i == j
  {
    assert Path(k, i)[0] == KindName(k)[0] && Path(l, j)[0] == KindName(l)[0];
    assert k == l;
    SameAfter(KindName(k) + "-", i, j, ".json");
  }

  predicate Alphanumeric(c: char) {
    'A' <= c <= 'Z' || 'a' <= c <= 'z' || '0' <= c <= '9'
  }

  predicate ValidId(id: string) {
    && 1 <= |id| <= 128 && Alphanumeric(id[0])
    && forall i :: 0 <= i < |id| ==> Alphanumeric(id[i]) || id[i] in {'.', '_', '-'}
  }

  type Files<P> = seq<Item<P>>

  function CreatedAt<P>(item: Item<P>): Time {
    if item.createdAt.Some? then item.createdAt.value else 0
  }

  predicate Earlier<P>(a: Item<P>, b: Item<P>) {
    CreatedAt(a) < CreatedAt(b) || (CreatedAt(a) == CreatedAt(b) && Less(Path(a.kind, a.id), Path(b.kind, b.id)))
  }

  ghost predicate Ordered<P>(files: Files<P>) {
    forall i, j :: 0 <= i < j < |files| ==> Earlier(files[i], files[j])
  }

  /** At most one file for each kind and identifier. */
  ghost predicate OneFileEach<P>(files: Files<P>) {
    forall i, j :: 0 <= i < j < |files| ==> files[i].kind != files[j].kind || files[i].id != files[j].id
  }

  function Find<P>(files: Files<P>, kind: Kind, id: string): (i: nat)
    ensures i <= |files|
    ensures i < |files| ==> files[i].kind == kind && files[i].id == id
    ensures i == |files| ==> forall j :: 0 <= j < |files| ==> files[j].kind != kind || files[j].id != id
  {
    if files == [] then 0
    else if files[0].kind == kind && files[0].id == id then 0
    else
      var i := 1 + Find(files[1..], kind, id);
      i
  }

  function Bytes<P>(encode: Encoding<P>, files: Files<P>): nat {
    if files == [] then 0 else |encode(files[0])| + Bytes(encode, files[1..])
  }

  predicate Fits<P>(limits: Limits, encode: Encoding<P>, files: Files<P>, item: Item<P>) {
    |files| + 1 <= limits.maxItems && Bytes(encode, files) + |encode(item)| <= limits.maxBytes
  }

  predicate WithinLimits<P>(limits: Limits, encode: Encoding<P>, files: Files<P>) {
    |files| <= limits.maxItems && Bytes(encode, files) <= limits.maxBytes
  }

  function RemoveAt<P>(files: Files<P>, i: nat): Files<P>
    requires i < |files|
  {
    files[..i] + files[i + 1..]
  }

  /** The place of the oldest telemetry, or the length of the list. */
  function FirstTelemetry<P>(files: Files<P>): (i: nat)
    ensures i <= |files| && (i < |files| ==> files[i].kind.Telemetry?)
    ensures forall j :: 0 <= j < i ==> !files[j].kind.Telemetry?
  {
    if files == [] || files[0].kind.Telemetry? then 0 else 1 + FirstTelemetry(files[1..])
  }

  function OfKind<P>(files: Files<P>, kind: Kind): Files<P> {
    if files == [] then []
    else if files[0].kind == kind then [files[0]] + OfKind(files[1..], kind)
    else OfKind(files[1..], kind)
  }

  function DropOldest<P>(files: Files<P>): Files<P>
    requires FirstTelemetry(files) < |files|
  {
    RemoveAt(files, FirstTelemetry(files))
  }

  datatype Eviction<P> = Eviction(kept: Files<P>, error: Option<EnqueueError>)

  /** The eviction loop; `evicted` removals have been done. */
  function Evict<P>(limits: Limits, encode: Encoding<P>, files: Files<P>, item: Item<P>, failing: Option<nat>,
                    evicted: nat): Eviction<P>
    decreases |files|
  {
    if Fits(limits, encode, files, item) then Eviction(files, None)
    else if FirstTelemetry(files) == |files| then Eviction(files, Some(Full))
    else if failing == Some(evicted) then Eviction(files, Some(InputOutput))
    else Evict(limits, encode, DropOldest(files), item, failing, evicted + 1)
  }

  function InsertOrdered<P>(item: Item<P>, files: Files<P>): Files<P> {
    if files == [] || Earlier(item, files[0]) then [item] + files else [files[0]] + InsertOrdered(item, files[1..])
  }

  function Stamped<P>(item: Item<P>, now: Time): Item<P> {
    if item.createdAt.None? then item.(createdAt := Some(now)) else item
  }

  /** What `Enqueue` leaves: the directory afterwards and the error, if any. */
  function AfterEnqueue<P>(limits: Limits, encode: Encoding<P>, files: Files<P>, raw: Item<P>, wellFormed: bool,
                           now: Time, faults: Faults)
    : (Files<P>, Option<EnqueueError>)
  {
    if raw.kind.UnknownKind? then (files, Some(InvalidKind))
    else if !ValidId(raw.id) then (files, Some(InvalidId))
    else if !wellFormed then (files, Some(InvalidPayload))
    else
      var item := Stamped(raw, now);
      var at := Find(files, item.kind, item.id);
      if at < |files| then
        (files, if encode(files[at]) == encode(item) then None else Some(Conflict))
      else if faults.read then (files, Some(InputOutput))
      else
        var eviction := Evict(limits, encode, files, item, faults.removal, 0);
        if eviction.error.Some? then (eviction.kept, eviction.error)
        else if faults.store then (eviction.kept, Some(InputOutput))
        else (InsertOrdered(item, eviction.kept), None)
  }

  function AfterAck<P>(files: Files<P>, kind: Kind, id: string, fails: bool): Files<P> {
    var at := Find(files, kind, id);
    if at < |files| && !fails then RemoveAt(files, at) else files
  }

  class Queue<P(==)> {
    const limits: Limits
    const encode: Encoding<P>
    var files: Files<P>

    constructor (limits: Limits, encode: Encoding<P>)
      requires limits.maxBytes > 0 && limits.maxItems > 0
      ensures this.limits == limits && this.encode == encode && files == []
    {
      this.limits, this.encode, files := limits, encode, [];
    }

    method Enqueue(raw: Item<P>, wellFormed: bool, now: Time, faults: Faults) returns (error: Option<EnqueueError>)
      modifies this
      ensures (files, error) == AfterEnqueue(limits, encode, old(files), raw, wellFormed, now, faults)
    {
      if raw.kind.UnknownKind? {
        return Some(InvalidKind);
      }
      if !ValidId(raw.id) {
        return Some(InvalidId);
      }
      if !wellFormed {
        return Some(InvalidPayload);
      }
      var item := Stamped(raw, now);
      var payload := encode(item);
      var existing := Find(files, item.kind, item.id);
      if existing < |files| {
        return if encode(files[existing]) == payload then None else Some(Conflict);
      }
      if faults.read {
        return Some(InputOutput);
      }
      var entries, total := files, Bytes(encode, files);
      var removals := 0;
      while |entries| + 1 > limits.maxItems || total + |payload| > limits.maxBytes
        invariant files == entries && total == Bytes(encode, entries)
        invariant Evict(limits, encode, old(files), item, faults.removal, 0)
            == Evict(limits, encode, entries, item, faults.removal, removals)
        decreases |OfKind(entries, Telemetry)|
      {
        var idx := 0;
        while idx < |entries| && !entries[idx].kind.Telemetry?
          invariant idx <= |entries| && forall j :: 0 <= j < idx ==> !entries[j].kind.Telemetry?
        {
          idx := idx + 1;
        }
        assert idx == FirstTelemetry(entries);
        if idx == |entries| {
          return Some(Full);
        }
        if faults.removal == Some(removals) {
          return Some(InputOutput);
        }
        BytesRemoveAt(encode, entries, idx);
        OfKindDropOldest(entries);
        total := total - |encode(entries[idx])|;
        entries := entries[..idx] + entries[idx + 1..];
        files := entries;
        removals := removals + 1;
      }
      if faults.store {
        return Some(InputOutput);
      }
      files := InsertOrdered(item, files);
      return None;
    }

    method Ack(kind: Kind, id: string, fails: bool)
      modifies this
      ensures files == AfterAck(old(files), kind, id, fails)
    {
      var at := Find(files, kind, id);
      if at < |files| && !fails {
        files := RemoveAt(files, at);
      }
    }
  }

  // ---------------------------------------------------------------- bookkeeping

  lemma {:induction false} BytesConcat<P>(encode: Encoding<P>, a: Files<P>, b: Files<P>)
    ensures Bytes(encode, a + b) == Bytes(encode, a) + Bytes(encode, b)
    decreases |a|
  {
    if a == [] {
      assert a + b == b;
    } else {
      assert (a + b)[1..] == a[1..] + b;
      BytesConcat(encode, a[1..], b);
    }
  }

  lemma BytesRemoveAt<P>(encode: Encoding<P>, files: Files<P>, i: nat)
    requires i < |files|
    ensures Bytes(encode, files) == Bytes(encode, RemoveAt(files, i)) + |encode(files[i])|
  {
    BytesConcat(encode, files[..i], files[i + 1..]);
    BytesConcat(encode, files[..i], [files[i]] + files[i + 1..]);
    assert files == files[..i] + ([files[i]] + files[i + 1..]);
    assert ([files[i]] + files[i + 1..])[1..] == files[i + 1..];
  }

  lemma {:induction false} OfKindDropOldest<P>(files: Files<P>)
    requires FirstTelemetry(files) < |files|
    ensures OfKind(files, Telemetry) == [files[FirstTelemetry(files)]] + OfKind(DropOldest(files), Telemetry)
    ensures OfKind(DropOldest(files), CommandResult) == OfKind(files, CommandResult)
    decreases |files|
  {
    var rest := DropOldest(files);
    if files[0].kind.Telemetry? {
      assert rest == files[1..];
    } else {
      OfKindDropOldest(files[1..]);
      var i := FirstTelemetry(files);
      assert files[..i] == [files[0]] + files[1..][..i - 1] && files[1..][i..] == files[i + 1..];
      assert rest == [files[0]] + DropOldest(files[1..]);
      assert rest[1..] == DropOldest(files[1..]);
    }
  }

  lemma {:induction false} OfKindMembers<P>(files: Files<P>, kind: Kind, item: Item<P>)
    ensures item in OfKind(files, kind) <==> item in files && item.kind == kind
    decreases |files|
  {
    if files != [] {
      OfKindMembers(files[1..], kind, item);
    }
  }

  lemma {:induction false} InsertOrderedPlace<P>(item: Item<P>, files: Files<P>) returns (p: nat)
    ensures p <= |files| && InsertOrdered(item, files) == files[..p] + [item] + files[p..]
    ensures forall i :: 0 <= i < p ==> !Earlier(item, files[i])
    ensures p < |files| ==> Earlier(item, files[p])
    decreases |files|
  {
    p := 0;
    if files != [] && !Earlier(item, files[0]) {
      var q := InsertOrderedPlace(item, files[1..]);
      p := q + 1;
      assert files[..p] == [files[0]] + files[1..][..q];
      assert files[1..][q..] == files[p..];
      forall i | 0 <= i < p ensures !Earlier(item, files[i]) {
        if i > 0 {
          assert files[i] == files[1..][i - 1];
        }
      }
    }
  }

  // ---------------------------------------------------------------- one enqueue

  /** `k` oldest telemetry items taken out. */
  function DropOldestN<P>(files: Files<P>, k: nat): Files<P>
    decreases k
  {
    if k == 0 || FirstTelemetry(files) == |files| then files else DropOldestN(DropOldest(files), k - 1)
  }

  /** Dropping `k` removes exactly the first `k` telemetry items of the order, and no command result. */
  lemma {:induction false} DropOldestNIsPrefix<P>(files: Files<P>, k: nat)
    requires k <= |OfKind(files, Telemetry)|
    ensures OfKind(DropOldestN(files, k), Telemetry) == OfKind(files, Telemetry)[k..]
    ensures OfKind(DropOldestN(files, k), CommandResult) == OfKind(files, CommandResult)
    decreases k
  {
    NoTelemetry(files);
    if k > 0 {
      OfKindDropOldest(files);
      DropOldestNIsPrefix(DropOldest(files), k - 1);
    }
  }

  lemma {:induction false} NoTelemetry<P>(files: Files<P>)
    ensures FirstTelemetry(files) == |files| <==> OfKind(files, Telemetry) == []
    decreases |files|
  {
    if files != [] && !files[0].kind.Telemetry? {
      NoTelemetry(files[1..]);
    }
  }

  /**
   The loop drops the shortest oldest-first run of telemetry that makes the item fit. `Full` means
   that nothing but command results is left and the item still does not fit.
   */
  lemma {:induction false} EvictsLeast<P>(limits: Limits, encode: Encoding<P>, files: Files<P>, item: Item<P>,
                                          failing: Option<nat>, evicted: nat)
    returns (k: nat)
    ensures k <= |OfKind(files, Telemetry)|
    ensures var e := Evict(limits, encode, files, item, failing, evicted);
            && e.kept == DropOldestN(files, k)
            && (forall j :: 0 <= j < k ==> !Fits(limits, encode, DropOldestN(files, j), item))
            && (e.error.None? <==> Fits(limits, encode, DropOldestN(files, k), item))
            && (e.error == Some(Full) ==> k == |OfKind(files, Telemetry)| && OfKind(e.kept, Telemetry) == [])
            && (failing.None? && e.error.Some? ==> e.error == Some(Full))
            && e.error in {None, Some(Full), Some(InputOutput)}
    decreases |files|
  {
    NoTelemetry(files);
    k := 0;
    if !Fits(limits, encode, files, item) && FirstTelemetry(files) < |files| && failing != Some(evicted) {
      OfKindDropOldest(files);
      var n := EvictsLeast(limits, encode, DropOldest(files), item, failing, evicted + 1);
      k := n + 1;
      forall j | 0 <= j < k ensures !Fits(limits, encode, DropOldestN(files, j), item) {
        if j > 0 {
          assert DropOldestN(files, j) == DropOldestN(DropOldest(files), j - 1);
        }
      }
    }
  }

  lemma FitsWithinLimits<P>(limits: Limits, encode: Encoding<P>, files: Files<P>, item: Item<P>)
    ensures Fits(limits, encode, files, item) <==> WithinLimits(limits, encode, files + [item])
  {
    BytesConcat(encode, files, [item]);
    assert Bytes(encode, [item]) == |encode(item)| + Bytes(encode, []);
  }

  /**
   What `Enqueue` does to a directory in which the item is new and no call fails. The stored item is the given
   one, with the time of the call if it came without. As little telemetry is dropped, oldest first, as the
   limits ask for with the item added; it is refused if even all of it is not enough.
   */
  lemma EnqueueNew<P>(limits: Limits, encode: Encoding<P>, files: Files<P>, raw: Item<P>, now: Time) returns (k: nat)
    requires !raw.kind.UnknownKind? && ValidId(raw.id)
    requires Find(files, raw.kind, raw.id) == |files|
    ensures k <= |OfKind(files, Telemetry)|
    ensures var item := Item(raw.kind, raw.id, raw.payload,
                             Some(if raw.createdAt.Some? then raw.createdAt.value else now));
            var (after, error) := AfterEnqueue(limits, encode, files, raw, true, now, Faults(false, None, false));
            && (forall j :: 0 <= j < k ==> !WithinLimits(limits, encode, DropOldestN(files, j) + [item]))
            && if WithinLimits(limits, encode, DropOldestN(files, k) + [item])
               then error.None? && after == InsertOrdered(item, DropOldestN(files, k))
               else error == Some(Full) && after == DropOldestN(files, k) && OfKind(after, Telemetry) == []
  {
    var item := Stamped(raw, now);
    k := EvictsLeast(limits, encode, files, item, None, 0);
    forall j | 0 <= j <= k
      ensures Fits(limits, encode, DropOldestN(files, j), item)
         <==> WithinLimits(limits, encode, DropOldestN(files, j) + [item])
    {
      FitsWithinLimits(limits, encode, DropOldestN(files, j), item);
    }
  }

  lemma {:induction false} OfKindPlace<P>(files: Files<P>, kind: Kind, i: nat, j: nat) returns (x: nat, y: nat)
    requires i < j < |OfKind(files, kind)|
    ensures x < y < |files| && files[x] == OfKind(files, kind)[i] && files[y] == OfKind(files, kind)[j]
    decreases |files|
  {
    if files[0].kind != kind {
      x, y := OfKindPlace(files[1..], kind, i, j);
      x, y := x + 1, y + 1;
    } else if i > 0 {
      x, y := OfKindPlace(files[1..], kind, i - 1, j - 1);
      x, y := x + 1, y + 1;
    } else {
      x := 0;
      OfKindMembers(files[1..], kind, OfKind(files[1..], kind)[j - 1]);
      y :| 0 <= y < |files[1..]| && files[1..][y] == OfKind(files[1..], kind)[j - 1];
      y := y + 1;
    }
  }

  /** What is dropped to make room is telemetry no younger than any that is kept. */
  lemma DropsTheOldest<P>(files: Files<P>, k: nat, i: nat, j: nat)
    requires Ordered(files) && i < k <= j < |OfKind(files, Telemetry)|
    ensures var dropped, kept := OfKind(files, Telemetry)[i], OfKind(files, Telemetry)[j];
            && kept in OfKind(DropOldestN(files, k), Telemetry)
            && (dropped.createdAt.Some? && kept.createdAt.Some? ==> dropped.createdAt.value <= kept.createdAt.value)
  {
    DropOldestNIsPrefix(files, k);
    assert OfKind(files, Telemetry)[j] == OfKind(files, Telemetry)[k..][j - k];
    var x, y := OfKindPlace(files, Telemetry, i, j);
    assert Earlier(files[x], files[y]);
  }

  /** An item whose file is there already changes nothing, fits or not: equal contents are fine, others conflict. */
  lemma EnqueueAgain<P>(limits: Limits, encode: Encoding<P>, files: Files<P>, raw: Item<P>, now: Time, faults: Faults)
    requires !raw.kind.UnknownKind? && ValidId(raw.id)
    requires Find(files, raw.kind, raw.id) < |files|
    ensures var (after, error) := AfterEnqueue(limits, encode, files, raw, true, now, faults);
            && after == files
            && error == if encode(files[Find(files, raw.kind, raw.id)]) == encode(Stamped(raw, now)) then None
                        else Some(Conflict)
  {
  }

  /** A letter of either case or a digit. */
  predicate LetterOrDigit(c: char) {
    'a' <= LowerChar(c) <= 'z' || '0' <= c <= '9'
  }

  /**
   What is refused before the directory is looked at: an unknown kind, an identifier that is not a letter or
   digit and up to 127 letters, digits, dots, dashes and underscores, and a payload that is not well formed.
   */
  lemma RefusedUnseenExactlyWhen<P>(limits: Limits, encode: Encoding<P>, files: Files<P>, raw: Item<P>,
                                    wellFormed: bool, now: Time, faults: Faults)
    ensures var (after, error) := AfterEnqueue(limits, encode, files, raw, wellFormed, now, faults);
            var named := raw.id != "" && |raw.id| <= 128 && LetterOrDigit(raw.id[0])
                         && forall c :: c in raw.id[1..] ==> LetterOrDigit(c) || c == '.' || c == '_' || c == '-';
            && (error == Some(InvalidKind) <==> raw.kind.UnknownKind?)
            && (error == Some(InvalidId) <==> !raw.kind.UnknownKind? && !named)
            && (error == Some(InvalidPayload) <==> !raw.kind.UnknownKind? && named && !wellFormed)
            && (error in {Some(InvalidKind), Some(InvalidId), Some(InvalidPayload)} ==> after == files)
  {
    if !raw.kind.UnknownKind? && ValidId(raw.id) && wellFormed {
      var _ := EvictsLeast(limits, encode, files, Stamped(raw, now), faults.removal, 0);
    }
    NamedIsValid(raw.id);
  }

  lemma NamedIsValid(id: string)
    ensures ValidId(id) <==>
              && id != "" && |id| <= 128 && LetterOrDigit(id[0])
              && forall c :: c in id[1..] ==> LetterOrDigit(c) || c == '.' || c == '_' || c == '-'
  {
    if id != "" {
      forall i | 0 < i < |id| ensures id[i] in id[1..] {
        assert id[i] == id[1..][i - 1];
      }
      forall c | c in id[1..] ensures c in id {
        var i :| 0 <= i < |id[1..]| && id[1..][i] == c;
        assert id[i + 1] == c;
      }
    }
  }

  // ---------------------------------------------------------------- every run

  datatype Op<P> =
    | Put(item: Item<P>, wellFormed: bool, now: Time, faults: Faults)
    | Done(kind: Kind, id: string, fails: bool)

  function Apply<P>(limits: Limits, encode: Encoding<P>, files: Files<P>, op: Op<P>): Files<P> {
    match op
    case Put(item, wellFormed, now, faults) => AfterEnqueue(limits, encode, files, item, wellFormed, now, faults).0
    case Done(kind, id, fails) => AfterAck(files, kind, id, fails)
  }

  function Run<P>(limits: Limits, encode: Encoding<P>, files: Files<P>, ops: seq<Op<P>>): Files<P>
    decreases |ops|
  {
    if ops == [] then files else Run(limits, encode, Apply(limits, encode, files, ops[0]), ops[1..])
  }

  ghost predicate Valid<P>(files: Files<P>) {
    Ordered(files) && OneFileEach(files)
  }

  lemma RemoveAtKeepsValid<P>(files: Files<P>, i: nat)
    requires Valid(files) && i < |files|
    ensures Valid(RemoveAt(files, i))
  {
  }

  lemma RemoveAtMembers<P>(files: Files<P>, i: nat)
    requires i < |files|
    ensures forall x :: x in files <==> x in RemoveAt(files, i) || x == files[i]
  {
  }

  lemma {:induction false} EvictKeepsValid<P>(limits: Limits, encode: Encoding<P>, files: Files<P>, item: Item<P>,
                                              failing: Option<nat>, evicted: nat)
    requires Valid(files)
    ensures var e := Evict(limits, encode, files, item, failing, evicted);
            && Valid(e.kept)
            && (e.error.None? ==> Fits(limits, encode, e.kept, item))
            && (WithinLimits(limits, encode, files) ==> WithinLimits(limits, encode, e.kept))
            && (forall x :: x in e.kept ==> x in files)
            && (forall x :: x in files && x.kind.CommandResult? ==> x in e.kept)
    decreases |files|
  {
    if !Fits(limits, encode, files, item) && FirstTelemetry(files) < |files| && failing != Some(evicted) {
      var i := FirstTelemetry(files);
      RemoveAtKeepsValid(files, i);
      BytesRemoveAt(encode, files, i);
      EvictKeepsValid(limits, encode, DropOldest(files), item, failing, evicted + 1);
      RemoveAtMembers(files, i);
    }
  }

  lemma EarlierTransitive<P>(a: Item<P>, b: Item<P>, c: Item<P>)
    requires Earlier(a, b) && Earlier(b, c)
    ensures Earlier(a, c)
  {
    if CreatedAt(a) == CreatedAt(b) == CreatedAt(c) {
      LessTransitive(Path(a.kind, a.id), Path(b.kind, b.id), Path(c.kind, c.id));
    }
  }

  /** Where an item of its own file goes, it has only earlier ones before it and later ones after it. */
  lemma InsertOrderedSplits<P>(item: Item<P>, files: Files<P>) returns (p: nat)
    requires Valid(files)
    requires forall i :: 0 <= i < |files| ==> files[i].kind != item.kind || files[i].id != item.id
    ensures p <= |files| && InsertOrdered(item, files) == files[..p] + [item] + files[p..]
    ensures forall i :: 0 <= i < p ==> Earlier(files[i], item)
    ensures forall i :: p <= i < |files| ==> Earlier(item, files[i])
  {
    p := InsertOrderedPlace(item, files);
    forall i | 0 <= i < p ensures Earlier(files[i], item) {
      LessTotal(Path(item.kind, item.id), Path(files[i].kind, files[i].id));
      if Path(item.kind, item.id) == Path(files[i].kind, files[i].id) {
        PathInjective(item.kind, item.id, files[i].kind, files[i].id);
      }
    }
    forall i | p < i < |files| ensures Earlier(item, files[i]) {
      EarlierTransitive(item, files[p], files[i]);
    }
  }

  lemma InsertKeepsValid<P>(item: Item<P>, files: Files<P>)
    requires Valid(files)
    requires forall i :: 0 <= i < |files| ==> files[i].kind != item.kind || files[i].id != item.id
    ensures Valid(InsertOrdered(item, files))
    ensures forall x :: x in InsertOrdered(item, files) <==> x in files || x == item
  {
    var p := InsertOrderedSplits(item, files);
    var out := InsertOrdered(item, files);
    forall i, j | 0 <= i < j < |out|
      ensures Earlier(out[i], out[j]) && (out[i].kind != out[j].kind || out[i].id != out[j].id)
    {
      assert out[i] == if i < p then files[i] else if i == p then item else files[i - 1];
      assert out[j] == if j < p then files[j] else if j == p then item else files[j - 1];
    }
    forall x ensures x in out <==> x in files || x == item {
      assert files == files[..p] + files[p..];
    }
  }

  lemma InsertBytes<P>(encode: Encoding<P>, item: Item<P>, files: Files<P>)
    ensures |InsertOrdered(item, files)| == |files| + 1
    ensures Bytes(encode, InsertOrdered(item, files)) == Bytes(encode, files) + |encode(item)|
  {
  }

  /** One call keeps order, uniqueness and both limits; a command result goes only when it is the one acknowledged. */
  lemma ApplyKeeps<P>(limits: Limits, encode: Encoding<P>, files: Files<P>, op: Op<P>)
    requires Valid(files)
    ensures var after := Apply(limits, encode, files, op);
            && Valid(after)
            && (WithinLimits(limits, encode, files) ==> WithinLimits(limits, encode, after))
            && (forall x :: x in files && x.kind.CommandResult? && op != Done(x.kind, x.id, false) ==> x in after)
  {
    match op
    case Put(raw, wellFormed, now, faults) =>
      var item := Stamped(raw, now);
      if !raw.kind.UnknownKind? && ValidId(raw.id) && wellFormed && Find(files, item.kind, item.id) == |files|
        && !faults.read
      {
        var e := Evict(limits, encode, files, item, faults.removal, 0);
        EvictKeepsValid(limits, encode, files, item, faults.removal, 0);
        if e.error.None? && !faults.store {
          forall i | 0 <= i < |e.kept| ensures e.kept[i].kind != item.kind || e.kept[i].id != item.id {
            assert e.kept[i] in files;
          }
          InsertKeepsValid(item, e.kept);
          InsertBytes(encode, item, e.kept);
        }
      }
    case Done(kind, id, fails) =>
      var at := Find(files, kind, id);
      if at < |files| && !fails {
        RemoveAtKeepsValid(files, at);
        BytesRemoveAt(encode, files, at);
        RemoveAtMembers(files, at);
      }
  }

  /** Where the items of a directory come from, and that a successful call leaves the item in it. */
  lemma EnqueueMembers<P>(limits: Limits, encode: Encoding<P>, files: Files<P>, item: Item<P>, now: Time,
                          faults: Faults)
    requires Valid(files) && item.createdAt.Some?
    ensures var (after, error) := AfterEnqueue(limits, encode, files, item, true, now, faults);
            && (forall x :: x in after ==> x in files || x == item)
            && (error.None? ==> exists x ::
                x in after && x.kind == item.kind && x.id == item.id && encode(x) == encode(item))
  {
    var (after, error) := AfterEnqueue(limits, encode, files, item, true, now, faults);
    var at := Find(files, item.kind, item.id);
    if !item.kind.UnknownKind? && ValidId(item.id) && at < |files| {
      assert files[at] in after || error.Some?;
    } else if !item.kind.UnknownKind? && ValidId(item.id) && !faults.read {
      var e := Evict(limits, encode, files, item, faults.removal, 0);
      EvictKeepsValid(limits, encode, files, item, faults.removal, 0);
      if e.error.None? && !faults.store {
        forall i | 0 <= i < |e.kept| ensures e.kept[i].kind != item.kind || e.kept[i].id != item.id {
          assert e.kept[i] in files;
        }
        InsertKeepsValid(item, e.kept);
      }
    }
  }

  /**
   Over every run: the limits hold, and a stored command result that is never acknowledged is still there at
   the end.
   */
  lemma {:induction false} RunKeepsCommandResults<P>(limits: Limits, encode: Encoding<P>, files: Files<P>,
                                                     ops: seq<Op<P>>, result: Item<P>)
    requires Valid(files) && WithinLimits(limits, encode, files)
    requires result in files && result.kind.CommandResult?
    requires forall i :: 0 <= i < |ops| ==> ops[i] != Done(CommandResult, result.id, false)
    ensures var after := Run(limits, encode, files, ops);
            Valid(after) && WithinLimits(limits, encode, after) && result in after
    decreases |ops|
  {
    if ops != [] {
      ApplyKeeps(limits, encode, files, ops[0]);
      RunKeepsCommandResults(limits, encode, Apply(limits, encode, files, ops[0]), ops[1..], result);
    }
  }

  /** From an empty directory no run ever exceeds a limit. */
  lemma {:induction false} RunKeepsLimits<P>(limits: Limits, encode: Encoding<P>, files: Files<P>, ops: seq<Op<P>>)
    requires Valid(files) && WithinLimits(limits, encode, files)
    ensures WithinLimits(limits, encode, Run(limits, encode, files, ops)) && Valid(Run(limits, encode, files, ops))
    decreases |ops|
  {
    if ops != [] {
      ApplyKeeps(limits, encode, files, ops[0]);
      RunKeepsLimits(limits, encode, Apply(limits, encode, files, ops[0]), ops[1..]);
    }
  }
}
