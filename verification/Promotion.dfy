/**
 Agent self-update (`agents/windows-agent/internal/update/rollback.go`, `apply.go` and
 `internal/app/update_paths.go`): swap in a staged binary, wait for it to report healthy, otherwise
 swap the original back.

 Any file operation may fail, and the helper may die between any two operations. Between two calls,
 and within a call where it looks for the health marker, others may change the directory. A ghost trace
 keeps the state every operation finds, so dying before an operation is: the run ends at that state of
 the trace.
 */
module Promotion {
  import opened Common
  import opened Text

  type Binary = string
  type Files = map<string, Binary>

  const MARKER: Binary := "ok\n"
  const ZERO_TIME: Time := 0
  const MAX_POLL_INTERVAL: Time := 1_000_000_000

  datatype Promotion = Promotion(current: string, staged: string, previous: string, health: string, deadline: Time)

  datatype Action = Pending | Committed | RolledBack

  datatype UpdateError =
    | InvalidPromotion | BadArguments | MissingBinary | PreviousExists | FileError | ServiceError | UnexpectedAction

  function FailedPath(p: Promotion): string {
    p.staged + ".failed"
  }

  // ---------------------------------------------------------------- paths

  predicate IsSeparator(c: char) {
    c == '\\' || c == '/'
  }

  function Dir(path: string): string {
    if path == "" || IsSeparator(path[|path| - 1]) then path else Dir(path[..|path| - 1])
  }

  /** The extension of `path[..i]`, seen as part of `path`. */
  function Ext(path: string, i: nat): (e: string)
    requires i <= |path|
    ensures |e| <= |path| && e == path[|path| - |e|..]
  {
    if i == 0 || IsSeparator(path[i - 1]) then []
    else if path[i - 1] == '.' then path[i - 1..]
    else Ext(path, i - 1)
  }

  datatype UpdatePaths = UpdatePaths(staged: string, previous: string, helper: string, health: string)

  /** `buildUpdatePaths`. */
  function BuildUpdatePaths(rawCurrent: string, rawState: string): Option<UpdatePaths> {
    var current, state := Strip(rawCurrent), Strip(rawState);
    if current == "" || state == "" || Lower(Ext(current, |current|)) != ".exe" then None
    else Some(UpdatePaths(current + ".staged", current + ".previous", current + ".update-helper",
                          Dir(state) + "update-healthy"))
  }

  /** `validate`. */
  predicate Accepted(p: Promotion) {
    && p.current != "" && p.staged != "" && p.previous != "" && p.health != "" && p.deadline != ZERO_TIME
    && p.current != p.staged && p.current != p.previous && p.staged != p.previous
    && Dir(p.current) == Dir(p.staged) && Dir(p.current) == Dir(p.previous)
  }

  /** A directory: nothing, or a path that ends in a separator. */
  predicate IsDirectory(d: string) {
    d == "" || IsSeparator(d[|d| - 1])
  }

  /** A name in a directory, without a separator of its own. */
  predicate IsName(x: string) {
    forall i :: 0 <= i < |x| ==> !IsSeparator(x[i])
  }

  /** What comes up to the last separator is the directory. */
  lemma {:induction false} DirSplits(path: string, d: string, x: string)
    ensures IsDirectory(Dir(path)) && Dir(path) <= path && IsName(path[|Dir(path)|..])
    ensures path == d + x && IsDirectory(d) && IsName(x) ==> d == Dir(path)
    decreases |path|
  {
    if path != "" && !IsSeparator(path[|path| - 1]) {
      var rest := path[..|path| - 1];
      DirSplits(rest, d, if x == "" then "" else x[..|x| - 1]);
      assert path[|Dir(path)|..] == rest[|Dir(path)|..] + [path[|path| - 1]];
      if path == d + x && IsDirectory(d) && IsName(x) {
        assert x != "";
        assert rest == d + x[..|x| - 1];
      }
    } else if path == d + x {
      assert x != "" ==> path[|path| - 1] == x[|x| - 1];
    }
  }

  /** The path is a name in the directory. */
  predicate InDirectory(path: string, d: string) {
    IsDirectory(d) && d <= path && IsName(path[|d|..])
  }

  /**
   A promotion is accepted exactly when all its paths and its deadline are given, the three binaries are
   different, and there is one directory that they are all in.
   */
  lemma AcceptedExactlyWhen(p: Promotion)
    ensures Accepted(p) <==>
              && "" !in {p.current, p.staged, p.previous, p.health} && p.deadline != 0
              && p.current != p.staged && p.current != p.previous && p.staged != p.previous
              && exists d :: InDirectory(p.current, d) && InDirectory(p.staged, d) && InDirectory(p.previous, d)
  {
    forall path, d | path in {p.current, p.staged, p.previous}
      ensures InDirectory(path, d) <==> d == Dir(path)
    {
      DirSplits(path, d, if d <= path then path[|d|..] else "");
    }
    assert InDirectory(p.current, Dir(p.current));
  }

  /** The paths an update itself renames files to and from. */
  function OwnPaths(p: Promotion): set<string> {
    {p.current, p.staged, p.previous, FailedPath(p)}
  }

  lemma {:induction false} ExtEnds(path: string, i: nat)
    requires i <= |path|
    requires forall j :: i <= j < |path| ==> path[j] != '.' && !IsSeparator(path[j])
    ensures Lower(Ext(path, i)) == ".exe" <==> |path| >= 4 && |path| - 4 < i && Lower(path[|path| - 4..]) == ".exe"
    decreases i
  {
    if i > 0 && !IsSeparator(path[i - 1]) && path[i - 1] != '.' {
      ExtEnds(path, i - 1);
    }
  }

  /**
   Paths are generated exactly for a current path that ends in ".exe", in letters of either case, and a state
   path: three names beside the current one, and the marker beside the state.
   */
  lemma PathsExactlyWhen(rawCurrent: string, rawState: string)
    ensures var current, state, paths := Strip(rawCurrent), Strip(rawState), BuildUpdatePaths(rawCurrent, rawState);
            && (paths.Some? <==> state != "" && |current| >= 4 && Lower(current[|current| - 4..]) == ".exe")
            && (paths.Some? ==>
                  && paths.value.staged == current + ".staged" && paths.value.previous == current + ".previous"
                  && paths.value.helper == current + ".update-helper"
                  && paths.value.health == Dir(state) + "update-healthy")
  {
    var current := Strip(rawCurrent);
    ExtEnds(current, |current|);
  }

  /** No operation on one of the files is an operation on another. */
  predicate Separate(p: Promotion) {
    && p.current != p.staged && p.current != p.previous && p.staged != p.previous
    && FailedPath(p) !in {p.current, p.previous}
    && p.health !in OwnPaths(p)
  }

  /** What a promotion needs, on top of being accepted, for the original to survive. */
  predicate KeepsOriginal(p: Promotion) {
    p.health !in OwnPaths(p) && FailedPath(p) != p.previous
  }

  lemma {:induction false} DirOfSuffix(path: string, suffix: string)
    requires forall i :: 0 <= i < |suffix| ==> !IsSeparator(suffix[i])
    ensures Dir(path + suffix) == Dir(path)
    decreases |suffix|
  {
    if suffix == [] {
      assert path + suffix == path;
    } else {
      var n := |suffix| - 1;
      assert (path + suffix)[..|path + suffix| - 1] == path + suffix[..n];
      DirOfSuffix(path, suffix[..n]);
    }
  }

  predicate EndsIn(path: string, c: char) {
    path != "" && path[|path| - 1] == c
  }

  lemma LastCharOfExe(current: string, ext: string)
    requires |ext| <= |current| && ext == current[|current| - |ext|..] && Lower(ext) == ".exe"
    ensures EndsIn(current, 'e') || EndsIn(current, 'E')
  {
  }

  lemma EndOf(path: string, suffix: string, c: char)
    requires EndsIn(suffix, c)
    ensures EndsIn(path + suffix, c)
  {
  }

  lemma SeparateByEnds(p: Promotion, helper: string)
    requires (EndsIn(p.current, 'e') || EndsIn(p.current, 'E')) && EndsIn(p.staged, 'd') && EndsIn(p.previous, 's')
    requires EndsIn(p.health, 'y') && EndsIn(FailedPath(p), 'd') && EndsIn(helper, 'r')
    ensures Separate(p) && KeepsOriginal(p)
    ensures helper !in {p.current, p.staged, p.previous, p.health, FailedPath(p)}
  {
  }

  predicate PathsApart(p: Promotion, helper: string) {
    && Accepted(p) && Separate(p) && KeepsOriginal(p)
    && helper !in {p.current, p.staged, p.previous, p.health, FailedPath(p)}
  }

  lemma SuffixedPathsApart(current: string, stateDir: string, deadline: Time)
    requires (EndsIn(current, 'e') || EndsIn(current, 'E')) && deadline != ZERO_TIME
    ensures PathsApart(Promotion(current, current + ".staged", current + ".previous", stateDir + "update-healthy",
                                 deadline),
                       current + ".update-helper")
  {
    var p := Promotion(current, current + ".staged", current + ".previous", stateDir + "update-healthy", deadline);
    EndOf(stateDir, "update-healthy", 'y');
    EndOf(current, ".staged", 'd');
    EndOf(current, ".previous", 's');
    EndOf(current, ".update-helper", 'r');
    EndOf(p.staged, ".failed", 'd');
    SeparateByEnds(p, current + ".update-helper");
    DirOfSuffix(current, ".staged");
    DirOfSuffix(current, ".previous");
  }

  /** The generated paths are accepted and pairwise apart, the set-aside file and the marker included. */
  lemma GeneratedPathsSeparate(rawCurrent: string, rawState: string, deadline: Time)
    requires BuildUpdatePaths(rawCurrent, rawState).Some? && deadline != ZERO_TIME
    ensures var paths := BuildUpdatePaths(rawCurrent, rawState).value;
            PathsApart(Promotion(Strip(rawCurrent), paths.staged, paths.previous, paths.health, deadline), paths.helper)
  {
    var current := Strip(rawCurrent);
    LastCharOfExe(current, Ext(current, |current|));
    SuffixedPathsApart(current, Dir(Strip(rawState)), deadline);
  }

  // ---------------------------------------------------------------- what one call can leave behind

  function Without(f: Files, path: string): Files {
    map k | k in f && k != path :: f[k]
  }

  function Move(f: Files, a: string, b: string): Files
    requires a in f
  {
    Without(f, a)[b := f[a]]
  }

  /**
   The directory, and whether the helper has seen a health marker: what the new agent writes, not any file at
   that path.
   */
  datatype World = World(files: Files, seen: bool)

  predicate MarkerIn(p: Promotion, f: Files) {
    p.health in f && f[p.health] == MARKER
  }

  ghost predicate SwapStage(p: Promotion, h: Files, g: Files) {
    || g == h
    || (p.current in h && g == Move(h, p.current, p.previous))
    || (p.current in h && p.staged in Move(h, p.current, p.previous)
        && g == Move(Move(h, p.current, p.previous), p.staged, p.current))
  }

  /** Where a call of `Activate`, finished or not, can leave the directory. */
  ghost predicate ActivateLeaves(p: Promotion, f: Files, g: Files) {
    || g == f
    || (p.current in f && p.staged in f && p.previous !in f
        && exists h {:trigger SwapStage(p, h, g)} :: (h == f || h == Without(f, p.health)) && SwapStage(p, h, g))
  }

  ghost predicate RollbackStage(p: Promotion, h: Files, g: Files) {
    || g == h
    || (p.current in h && g == Move(h, p.current, FailedPath(p)))
    || (p.current in h && p.previous in Move(h, p.current, FailedPath(p))
        && g == Move(Move(h, p.current, FailedPath(p)), p.previous, p.current))
  }

  /** Where a call of `Evaluate` can leave the directory and the knowledge of the marker. */
  ghost predicate EvaluateLeaves(p: Promotion, w: World, after: World) {
    || (p.health in w.files && after.seen == (w.seen || MarkerIn(p, w.files))
        && after.files in {w.files, Without(w.files, p.previous), Without(Without(w.files, p.previous), p.health)})
    || (p.health !in w.files && after.seen == w.seen && p.previous in w.files
        && exists h {:trigger RollbackStage(p, h, after.files)} ::
             (h == w.files || h == Without(w.files, FailedPath(p))) && RollbackStage(p, h, after.files))
  }

  predicate SameAt(f: Files, g: Files, path: string) {
    (path in g <==> path in f) && (path in f ==> g[path] == f[path])
  }

  /** Nothing but a marker is put at a marker path that has no other use. */
  predicate MarkersOnly(p: Promotion, f: Files, g: Files) {
    p.health in g && p.health !in OwnPaths(p) ==> SameAt(f, g, p.health) || g[p.health] == MARKER
  }

  /** Everybody else: a marker appears, and files other than the two binaries come and go. */
  predicate Elsewhere(p: Promotion, f: Files, g: Files) {
    || (SameAt(f, g, p.current) && SameAt(f, g, p.previous) && MarkersOnly(p, f, g))
    || (p.health !in f && g == f[p.health := MARKER])
  }

  ghost predicate Touch(p: Promotion, w: World, after: World) {
    || (after.seen == w.seen && ActivateLeaves(p, w.files, after.files))
    || EvaluateLeaves(p, w, after)
    || (after.seen == w.seen && Elsewhere(p, w.files, after.files))
  }

  ghost predicate TouchAt(p: Promotion, h: seq<World>, i: nat)
    requires i + 1 < |h|
  {
    Touch(p, h[i], h[i + 1])
  }

  /** Any sequence of calls, each finished, failed or cut short, with outside changes in between. */
  ghost predicate History(p: Promotion, h: seq<World>) {
    |h| > 0 && forall i {:trigger TouchAt(p, h, i)} :: 0 <= i < |h| - 1 ==> TouchAt(p, h, i)
  }

  ghost predicate Reaches(p: Promotion, w: World, after: World) {
    exists h :: History(p, h) && h[0] == w && h[|h| - 1] == after
  }

  lemma ReachesSelf(p: Promotion, w: World)
    ensures Reaches(p, w, w)
  {
    assert History(p, [w]);
  }

  lemma ReachesOn(p: Promotion, w: World, middle: World, after: World)
    requires Reaches(p, w, middle) && Touch(p, middle, after)
    ensures Reaches(p, w, after)
  {
    var h :| History(p, h) && h[0] == w && h[|h| - 1] == middle;
    var longer := h + [after];
    forall i | 0 <= i < |longer| - 1 ensures TouchAt(p, longer, i) {
      if i < |h| - 1 {
        assert TouchAt(p, h, i);
      }
    }
    assert History(p, longer);
  }

  // ---------------------------------------------------------------- the guarantee over every history

  predicate Holds(f: Files, path: string, binary: Binary) {
    path in f && f[path] == binary
  }

  /** A marker path that has no other use holds a marker or nothing. */
  predicate Genuine(p: Promotion, f: Files) {
    p.health in f && p.health !in OwnPaths(p) ==> f[p.health] == MARKER
  }

  /** Before an update: the original is in place, nothing is set aside, no marker has been seen. */
  predicate Settled(p: Promotion, w: World, original: Binary) {
    !w.seen && Holds(w.files, p.current, original) && p.previous !in w.files && Genuine(p, w.files)
  }

  /** The original is still there, unless a marker was seen. */
  predicate Kept(p: Promotion, w: World, original: Binary) {
    w.seen || Holds(w.files, p.current, original) || Holds(w.files, p.previous, original)
  }

  /** What makes `Kept` survive: something set aside that could be rolled back to is the original. */
  predicate Protected(p: Promotion, w: World, original: Binary) {
    && Genuine(p, w.files)
    && (w.seen
        || (Holds(w.files, p.current, original) && p.previous !in w.files)
        || Holds(w.files, p.previous, original))
  }

  lemma TouchKeeps(p: Promotion, w: World, after: World, original: Binary)
    requires Accepted(p) && KeepsOriginal(p) && Protected(p, w, original) && Touch(p, w, after)
    ensures Protected(p, after, original)
  {
  }

  lemma {:induction false} HistoryKeeps(p: Promotion, h: seq<World>, original: Binary)
    requires Accepted(p) && KeepsOriginal(p) && History(p, h) && Settled(p, h[0], original)
    ensures Protected(p, h[|h| - 1], original)
    decreases |h|
  {
    if |h| > 1 {
      var n := |h| - 1;
      assert History(p, h[..n]) by {
        forall i | 0 <= i < n - 1 ensures TouchAt(p, h[..n], i) {
          assert TouchAt(p, h, i);
        }
      }
      HistoryKeeps(p, h[..n], original);
      assert TouchAt(p, h, n - 1);
      TouchKeeps(p, h[n - 1], h[n], original);
    }
  }

  /**
   Whatever sequence of activations, evaluations and outside changes happens, each finished, failed
   or cut short anywhere, the original binary is at its own path or set aside until a marker is seen.
   */
  lemma OriginalIsNeverLost(p: Promotion, w: World, after: World, original: Binary)
    requires Accepted(p) && KeepsOriginal(p) && Settled(p, w, original) && Reaches(p, w, after)
    ensures Kept(p, after, original)
  {
    var h :| History(p, h) && h[0] == w && h[|h| - 1] == after;
    HistoryKeeps(p, h, original);
  }

  ghost predicate NeverLost(p: Promotion) {
    forall w, after, original :: Settled(p, w, original) && Reaches(p, w, after) ==> Kept(p, after, original)
  }

  /**
   `validate` alone does not make an update safe: among the promotions it accepts, those that never
   lose the original are exactly the ones with `KeepsOriginal`.
   */
  lemma NeverLostExactlyWhen(p: Promotion)
    requires Accepted(p)
    ensures NeverLost(p) <==> KeepsOriginal(p)
  {
    if KeepsOriginal(p) {
      forall w, after, original | Settled(p, w, original) && Reaches(p, w, after) ensures Kept(p, after, original) {
        OriginalIsNeverLost(p, w, after, original);
      }
    } else {
      var before, after := LosesOriginal(p);
      assert !Kept(p, after, "original");
    }
  }

  /** `Activate` starts by clearing the marker path: the running binary is there. */
  lemma ClearedAsMarker(p: Promotion, w: World) returns (after: World)
    requires Accepted(p) && p.health == p.current && w == World(map[p.current := "original", p.staged := "new"], false)
    ensures Reaches(p, w, after) && !Kept(p, after, "original")
  {
    var g := Without(w.files, p.health);
    after := World(g, false);
    assert SwapStage(p, g, g);
    ReachesSelf(p, w);
    ReachesOn(p, w, w, after);
  }

  /** The staged file, left where it was by a helper that died between the two renames, is taken for a marker. */
  lemma StagedAsMarker(p: Promotion, w: World) returns (after: World)
    requires Accepted(p) && p.health == p.staged && w == World(map[p.current := "original", p.staged := "new"], false)
    ensures Reaches(p, w, after) && !Kept(p, after, "original")
  {
    var half := Move(w.files, p.current, p.previous);
    assert SwapStage(p, w.files, half);
    ReachesSelf(p, w);
    ReachesOn(p, w, w, World(half, false));
    after := World(Without(half, p.previous), false);
    ReachesOn(p, w, World(half, false), after);
  }

  /** A completed activation. */
  lemma ActivationReaches(p: Promotion, w: World) returns (swapped: World)
    requires Accepted(p) && w == World(map[p.current := "original", p.staged := "new"], false)
    ensures swapped == World(map[p.current := "new", p.previous := "original"], false) && Reaches(p, w, swapped)
  {
    var g := map[p.current := "new", p.previous := "original"];
    assert g == Move(Move(w.files, p.current, p.previous), p.staged, p.current);
    assert SwapStage(p, w.files, g);
    swapped := World(g, false);
    ReachesSelf(p, w);
    ReachesOn(p, w, w, swapped);
  }

  /** The original itself, set aside at the marker path, is taken for a marker: no fault and no crash is needed. */
  lemma OriginalAsMarker(p: Promotion, w: World) returns (after: World)
    requires Accepted(p) && p.health == p.previous && w == World(map[p.current := "original", p.staged := "new"], false)
    ensures Reaches(p, w, after) && !Kept(p, after, "original")
  {
    var swapped := ActivationReaches(p, w);
    after := World(Without(swapped.files, p.previous), false);
    ReachesOn(p, w, swapped, after);
  }

  /** The rejected binary, left at the marker path by a helper that died in a rollback, is taken for a marker. */
  lemma RejectedAsMarker(p: Promotion, w: World) returns (after: World)
    requires Accepted(p) && p.health == FailedPath(p) && p.health !in {p.current, p.previous}
    requires w == World(map[p.current := "original", p.staged := "new"], false)
    ensures Reaches(p, w, after) && !Kept(p, after, "original")
  {
    var swapped := ActivationReaches(p, w);
    var half := Move(swapped.files, p.current, FailedPath(p));
    assert RollbackStage(p, swapped.files, half);
    ReachesOn(p, w, swapped, World(half, false));
    after := World(Without(half, p.previous), false);
    ReachesOn(p, w, World(half, false), after);
  }

  /** A rollback starts by clearing the place for the rejected binary: the original is there. */
  lemma ClearedForRejected(p: Promotion, w: World) returns (after: World)
    requires Accepted(p) && FailedPath(p) == p.previous && p.health !in {p.current, p.previous}
    requires w == World(map[p.current := "original", p.staged := "new"], false)
    ensures Reaches(p, w, after) && !Kept(p, after, "original")
  {
    var swapped := ActivationReaches(p, w);
    var g := Without(swapped.files, FailedPath(p));
    after := World(g, false);
    assert RollbackStage(p, g, g);
    ReachesOn(p, w, swapped, after);
  }

  /** Every other accepted promotion has a run without any marker that loses the original. */
  lemma LosesOriginal(p: Promotion) returns (w: World, after: World)
    requires Accepted(p) && !KeepsOriginal(p)
    ensures Settled(p, w, "original") && Reaches(p, w, after) && !Kept(p, after, "original")
  {
    w := World(map[p.current := "original", p.staged := "new"], false);
    if p.health == p.current {
      after := ClearedAsMarker(p, w);
    } else if p.health == p.staged {
      after := StagedAsMarker(p, w);
    } else if p.health == p.previous {
      after := OriginalAsMarker(p, w);
    } else if p.health == FailedPath(p) {
      after := RejectedAsMarker(p, w);
    } else {
      after := ClearedForRejected(p, w);
    }
  }

  /** Paths `validate` accepts and an update loses the original with: one for each way above but the first. */
  function WeakPromotions(): seq<Promotion> {
    [Promotion("a.exe", "a.exe.staged", "a.exe.previous", "a.exe.staged", 1),
     Promotion("a.exe", "a.exe.staged", "a.exe.previous", "a.exe.previous", 1),
     Promotion("a.exe", "a.exe.staged", "a.exe.previous", "a.exe.staged.failed", 1),
     Promotion("a.exe", "a.exe.staged", "a.exe.staged.failed", "h", 1)]
  }

  lemma ValidateAloneIsNotEnough(i: nat)
    requires i < |WeakPromotions()|
    ensures Accepted(WeakPromotions()[i]) && !NeverLost(WeakPromotions()[i])
  {
    var p := WeakPromotions()[i];
    WeakDirs();
    assert |p.current| < |p.staged| < |p.previous|;
    assert "a.exe.staged" + ".failed" == "a.exe.staged.failed";
    NeverLostExactlyWhen(p);
  }

  lemma WeakDirs()
    ensures Dir("a.exe.staged") == Dir("a.exe.previous") == Dir("a.exe.staged.failed") == Dir("a.exe")
  {
    assert "a.exe" + ".staged" == "a.exe.staged" && "a.exe" + ".previous" == "a.exe.previous";
    assert "a.exe" + ".staged.failed" == "a.exe.staged.failed";
    DirOfSuffix("a.exe", ".staged");
    DirOfSuffix("a.exe", ".previous");
    DirOfSuffix("a.exe", ".staged.failed");
  }

  // ---------------------------------------------------------------- the code

  /** Undoing a rename onto a free name restores the directory. */
  lemma MoveBack(f: Files, a: string, b: string)
    requires a in f && b !in f && a != b
    ensures Move(Move(f, a, b), b, a) == f
  {
  }

  /** Undoing a rename that replaced a file restores all but that file. */
  lemma MoveBackOver(f: Files, a: string, b: string)
    requires a in f && a != b
    ensures Move(Move(f, a, b), b, a) == Without(f, b)
  {
  }

  lemma ActivateReaches(p: Promotion, origin: World, base: World, h: Files, g: Files)
    requires Reaches(p, origin, base) && p.current in base.files && p.staged in base.files && p.previous !in base.files
    requires (h == base.files || h == Without(base.files, p.health)) && SwapStage(p, h, g)
    ensures Reaches(p, origin, World(g, base.seen))
  {
    ReachesOn(p, origin, base, World(g, base.seen));
  }

  lemma RollbackReaches(p: Promotion, origin: World, base: World, h: Files, g: Files)
    requires Reaches(p, origin, base) && p.health !in base.files && p.previous in base.files
    requires (h == base.files || h == Without(base.files, FailedPath(p))) && RollbackStage(p, h, g)
    ensures Reaches(p, origin, World(g, base.seen))
  {
    ReachesOn(p, origin, base, World(g, base.seen));
  }

  lemma CommitReaches(p: Promotion, origin: World, base: World, g: Files)
    requires Reaches(p, origin, base) && p.health in base.files
    requires g in {base.files, Without(base.files, p.previous), Without(Without(base.files, p.previous), p.health)}
    ensures Reaches(p, origin, World(g, base.seen || MarkerIn(p, base.files)))
  {
    ReachesOn(p, origin, base, World(g, base.seen || MarkerIn(p, base.files)));
  }

  /** The new binary runs and the original is set aside. */
  predicate Swapped(p: Promotion, f: Files, g: Files) {
    && p.current in f && p.staged in f && p.previous !in f
    && Holds(g, p.current, f[p.staged]) && Holds(g, p.previous, f[p.current]) && p.staged !in g
  }

  lemma SwappedBy(p: Promotion, f: Files, h: Files, g: Files)
    requires Accepted(p) && p.current in f && p.staged in f && p.previous !in f
    requires (h == f || h == Without(f, p.health)) && p.current in h && p.staged in Move(h, p.current, p.previous)
    requires g == Move(Move(h, p.current, p.previous), p.staged, p.current)
    ensures Swapped(p, f, g)
  {
  }

  /** The set-aside binary is back in place, and the one it replaces is kept apart. */
  predicate Restored(p: Promotion, f: Files, g: Files) {
    && p.previous in f && p.current in f && p.previous !in g
    && Holds(g, p.current, f[p.previous]) && Holds(g, FailedPath(p), f[p.current])
  }

  lemma RestoredBy(p: Promotion, f: Files, h: Files, g: Files)
    requires Separate(p) && p.current in h && p.previous in f && (h == f || h == Without(f, FailedPath(p)))
    requires p.previous in Move(h, p.current, FailedPath(p))
    requires g == Move(Move(h, p.current, FailedPath(p)), p.previous, p.current)
    ensures Restored(p, f, g)
  {
  }

  /** Nothing half done: the binaries are where they were, or the swap is complete. */
  predicate WholeSwap(p: Promotion, f: Files, g: Files) {
    (SameAt(f, g, p.current) && SameAt(f, g, p.previous)) || Swapped(p, f, g)
  }

  predicate WholeRollback(p: Promotion, f: Files, g: Files) {
    (SameAt(f, g, p.current) && (SameAt(f, g, p.previous) || p.health in f)) || Restored(p, f, g)
  }

  /** What `Activate` answers about a directory when nothing fails. */
  function ActivateAnswer(p: Promotion, f: Files): Option<UpdateError> {
    if p.current !in f || p.staged !in f then Some(MissingBinary)
    else if p.previous in f then Some(PreviousExists)
    else None
  }

  /** What `Evaluate` does with a directory when nothing fails. */
  predicate Evaluated(p: Promotion, f: Files, now: Time, result: Result<Action, UpdateError>, g: Files) {
    if p.health in f then result == Ok(Committed) && g == Without(Without(f, p.previous), p.health)
    else if now < p.deadline then result == Ok(Pending) && g == f
    else if p.previous !in f then result == Err(MissingBinary) && g == f
    else if p.current !in f then result == Err(FileError) && g == Without(f, FailedPath(p))
    else result == Ok(RolledBack) && Restored(p, f, g)
  }

  datatype Lookup = Exists | Missing | Unknown

  /** What the helper does besides file operations, when it works. */
  datatype Deed = ParentGone | Stopped | Started | Synced | Ticked

  /** One round of the polling loop: the clock reading, and what the look for the marker found. */
  datatype Look = Look(at: Time, marker: Lookup)

  /** In every round before `now` the marker was missing and the deadline ahead, and the clock moved on. */
  predicate Waited(p: Promotion, looks: seq<Look>, now: Time) {
    forall i {:trigger looks[i]} :: 0 <= i < |looks| ==>
      && looks[i].marker.Missing? && looks[i].at < p.deadline && looks[i].at < now
      && (i > 0 ==> looks[i - 1].at < looks[i].at)
  }

  /** How a polling loop may end: a marker ends it, and so does the deadline, but nothing before either. */
  predicate EndsBy(p: Promotion, looks: seq<Look>, result: Result<Action, UpdateError>) {
    && looks != []
    && var last := looks[|looks| - 1];
       && Waited(p, looks[..|looks| - 1], last.at)
       && (result == Ok(Committed) ==> last.marker.Exists?)
       && (result == Ok(RolledBack) ==> last.marker.Missing? && last.at >= p.deadline)
       && result != Ok(Pending)
  }

  /** What is set aside is there still, or was put back. */
  predicate NotCommitted(p: Promotion, before: Files, after: Files)
    requires p.current in before && p.previous in before
  {
    || SameAt(before, after, p.previous)
    || (Holds(after, p.current, before[p.previous]) && Holds(after, FailedPath(p), before[p.current]))
  }

  /** A marker turned up at the very end: the new binary stays, and nothing is set aside any more. */
  predicate LateCommit(p: Promotion, before: Files, after: Files) {
    SameAt(before, after, p.current) && p.previous !in after && p.health !in after
  }

  /**
   With no fault the loop ends only by a marker or at the deadline. A marker that was found means commit, unless
   it has vanished again; the deadline means rollback, unless a marker turns up before it begins.
   */
  predicate EndsDuly(p: Promotion, looks: seq<Look>, result: Result<Action, UpdateError>, before: Files, after: Files)
    requires p.current in before && p.previous in before
  {
    && looks != []
    && var last := looks[|looks| - 1];
       && (last.marker.Exists? ==>
             || result == Ok(Committed)
             || (result == Err(UnexpectedAction) && p.health !in after && NotCommitted(p, before, after)))
       && (!last.marker.Exists? ==>
             && last.marker.Missing? && last.at >= p.deadline
             && (result == Ok(RolledBack) || (result == Err(UnexpectedAction) && LateCommit(p, before, after))))
  }

  /** The errors of an update under way. */
  predicate UnderWay(e: UpdateError) {
    !e.InvalidPromotion? && !e.BadArguments?
  }

  /** The binaries are as the answer says: the running one stays, or what was set aside is back. */
  predicate SettledAs(p: Promotion, before: Files, result: Result<Action, UpdateError>, after: Files)
    requires p.current in before && p.previous in before
  {
    && (result == Ok(Committed) ==> Holds(after, p.current, before[p.current]))
    && (result == Ok(RolledBack) ==>
          Holds(after, p.current, before[p.previous]) && Holds(after, FailedPath(p), before[p.current]))
  }

  /** Between two rounds only the marker may change. */
  predicate Untouched(p: Promotion, before: World, after: World) {
    Separate(p) ==>
      && SameAt(before.files, after.files, p.current) && SameAt(before.files, after.files, p.previous)
      && (Genuine(p, before.files) ==> Genuine(p, after.files))
  }

  /** The loop is to look again at `now`: so far it has waited one tick a round, and left the binaries alone. */
  predicate Polling(p: Promotion, looks: seq<Look>, start: Time, now: Time, before: World, after: World,
                    earlier: seq<Deed>, deeds: seq<Deed>)
  {
    && Untouched(p, before, after) && Waited(p, looks, now)
    && (if looks == [] then now == start else looks[0].at == start)
    && deeds == earlier + Ticks(|looks|)
  }

  lemma NextRound(p: Promotion, looks: seq<Look>, start: Time, now: Time, next: Time, before: World, middle: World,
                  after: World, earlier: seq<Deed>, deeds: seq<Deed>)
    requires Polling(p, looks, start, now, before, middle, earlier, deeds) && Untouched(p, middle, after)
    requires now < p.deadline && now < next
    ensures Polling(p, looks + [Look(now, Missing)], start, next, before, after, earlier, deeds + [Ticked])
  {
    OneMoreTick(earlier, |looks|);
    StillWaiting(p, looks, now, next);
  }

  /** How the polling loop ends: by what it saw, with the binaries as it says, and duly if there was no fault. */
  predicate Ended(p: Promotion, looks: seq<Look>, result: Result<Action, UpdateError>, before: World, after: World,
                  faultless: bool)
  {
    && EndsBy(p, looks, result)
    && (result.Ok? ==> p.previous !in after.files)
    && (Separate(p) && Genuine(p, before.files) && result == Ok(Committed) ==> after.seen)
    && (Accepted(p) && result.Err? ==> UnderWay(result.error))
    && (Separate(p) && p.current in before.files && p.previous in before.files ==>
          && SettledAs(p, before.files, result, after.files)
          && (Accepted(p) && faultless ==> EndsDuly(p, looks, result, before.files, after.files)))
  }

  /** How the last round ends is how the loop does, if the binaries were left alone before it. */
  lemma LastRound(p: Promotion, looks: seq<Look>, last: Look, result: Result<Action, UpdateError>, before: World,
                  middle: World, after: World, faultless: bool, allFaultless: bool)
    requires Untouched(p, before, middle) && Ended(p, [last], result, middle, after, faultless)
    requires Waited(p, looks, last.at) && (allFaultless ==> faultless)
    ensures Ended(p, looks + [last], result, before, after, allFaultless)
  {
    var all := looks + [last];
    assert all[..|all| - 1] == looks && all[|all| - 1] == last;
  }

  function Ticks(n: nat): seq<Deed> {
    seq(n, _ => Ticked)
  }

  lemma OneMoreTick(deeds: seq<Deed>, n: nat)
    ensures deeds + Ticks(n) + [Ticked] == deeds + Ticks(n + 1)
  {
    assert Ticks(n) + [Ticked] == Ticks(n + 1);
    assert deeds + Ticks(n) + [Ticked] == deeds + (Ticks(n) + [Ticked]);
  }

  /** A commit is flushed to disk; a rollback stops the service, is flushed, and starts the service again. */
  function LastDeeds(action: Action): seq<Deed> {
    if action.Committed? then [Synced] else [Stopped, Synced, Started]
  }

  /** A round that found no marker before the deadline may be followed by another. */
  lemma StillWaiting(p: Promotion, looks: seq<Look>, now: Time, next: Time)
    requires Waited(p, looks, now) && now < p.deadline && now < next
    ensures Waited(p, looks + [Look(now, Missing)], next)
  {
    var more := looks + [Look(now, Missing)];
    forall i | 0 <= i < |more|
      ensures more[i].marker.Missing? && more[i].at < p.deadline && more[i].at < next
      ensures i > 0 ==> more[i - 1].at < more[i].at
    {
      assert i < |looks| ==> more[i] == looks[i];
      assert i > 0 ==> more[i - 1] == looks[i - 1];
    }
  }

  class UpdateDirectory {
    const p: Promotion
    var files: Files
    ghost const origin: World
    ghost var seen: bool
    ghost var trace: seq<World>
    ghost var faults: nat  // operations, service calls and waits that failed so far
    ghost var deeds: seq<Deed>

    /** Every state an operation found is one the histories from `origin` account for. */
    ghost predicate Traced()
      reads this
    {
      forall w {:trigger w in trace} :: w in trace ==> Reaches(p, origin, w)
    }

    ghost predicate Valid()
      reads this
    {
      Traced() && Reaches(p, origin, Now())
    }

    ghost function Now(): World
      reads this
    {
      World(files, seen)
    }

    constructor (p: Promotion, files: Files)
      ensures Valid() && this.p == p && this.files == files && !seen && trace == [] && origin == Now()
    {
      this.p, this.files, this.origin, seen, trace, faults := p, files, World(files, false), false, [], 0;
      deeds := [];
      new;
      ReachesSelf(p, origin);
    }

    method Rename(a: string, b: string) returns (ok: bool)
      requires Valid()
      modifies this
      ensures Traced() && trace == old(trace) + [old(Now())] && seen == old(seen) && deeds == old(deeds)
      ensures ok ==> a in old(files) && files == Move(old(files), a, b)
      ensures !ok ==> files == old(files)
      ensures faults == old(faults) + if !ok && a in old(files) then 1 else 0
    {
      trace := trace + [Now()];
      var works: bool := *;
      ok := works && a in files;
      if ok {
        files := Move(files, a, b);
      } else if a in files {
        faults := faults + 1;
      }
    }

    method Remove(a: string) returns (r: Lookup)
      requires Valid()
      modifies this
      ensures Traced() && trace == old(trace) + [old(Now())] && seen == old(seen) && deeds == old(deeds)
      ensures r.Exists? ==> files == Without(old(files), a)
      ensures r.Missing? ==> a !in files
      ensures !r.Exists? ==> files == old(files)
      ensures faults == old(faults) + if r.Unknown? then 1 else 0
    {
      trace := trace + [Now()];
      var works: bool := *;
      r := if !works then Unknown else if a in files then Exists else Missing;
      if r.Exists? {
        files := Without(files, a);
      } else if r.Unknown? {
        faults := faults + 1;
      }
    }

    method Stat(a: string) returns (r: Lookup)
      modifies this`faults
      ensures r.Exists? ==> a in files
      ensures r.Missing? ==> a !in files
      ensures faults == old(faults) + if r.Unknown? then 1 else 0
    {
      var works: bool := *;
      r := if !works then Unknown else if a in files then Exists else Missing;
      if r.Unknown? {
        faults := faults + 1;
      }
    }

    /** Anything else that may fail: flushing the directory, stopping or starting the service, waiting. */
    method Outside(deed: Deed) returns (ok: bool)
      modifies this`faults, this`deeds
      ensures faults == old(faults) + if ok then 0 else 1
      ensures deeds == old(deeds) + if ok then [deed] else []
    {
      ok := *;
      if ok {
        deeds := deeds + [deed];
      } else {
        faults := faults + 1;
      }
    }

    /** Other programs may have been at work since; finding the marker is what counts as seeing it. */
    method StatMarker() returns (r: Lookup)
      requires Valid()
      modifies this
      ensures Valid() && trace == old(trace) + [old(Now())] && deeds == old(deeds)
      ensures Elsewhere(p, old(files), files)
      ensures r.Exists? ==> p.health in files && seen == (old(seen) || MarkerIn(p, files))
      ensures r.Missing? ==> p.health !in files
      ensures !r.Exists? ==> seen == old(seen)
      ensures r.Exists? ==> Reaches(p, origin, World(files, old(seen)))
      ensures faults == old(faults) + if r.Unknown? then 1 else 0
    {
      ghost var before := Now();
      trace := trace + [Now()];
      var others: Files := *;
      if Elsewhere(p, files, others) {
        files := others;
      }
      ReachesOn(p, origin, before, Now());
      ghost var base := Now();
      r := Stat(p.health);
      if r.Exists? {
        seen := seen || MarkerIn(p, files);
        CommitReaches(p, origin, base, files);
      }
    }

    method Activate() returns (error: Option<UpdateError>)
      requires Valid()
      modifies this
      ensures Valid() && seen == old(seen) && old(trace) <= trace
      ensures p.previous in old(files) ==> error.Some? && files == old(files) && trace == old(trace)
      ensures error == Some(InvalidPromotion) <==> !Accepted(p)
      ensures error.None? ==> Swapped(p, old(files), files)
      ensures faults >= old(faults)
      ensures Accepted(p) && Separate(p) && faults == old(faults) ==>
                error == ActivateAnswer(p, old(files)) && (error.None? ==> p.health !in files)
      ensures Separate(p) && faults <= old(faults) + 1 ==> WholeSwap(p, old(files), files)
      ensures Separate(p) && Genuine(p, old(files)) ==> Genuine(p, files)
      ensures deeds == old(deeds) + (if error.None? then [Synced] else [])
      ensures error.Some? && Accepted(p) ==> UnderWay(error.value)
    {
      if !Accepted(p) {
        return Some(InvalidPromotion);
      }
      var current := Stat(p.current);
      if !current.Exists? {
        return Some(MissingBinary);
      }
      var staged := Stat(p.staged);
      if !staged.Exists? {
        return Some(MissingBinary);
      }
      var previous := Stat(p.previous);
      if previous.Exists? {
        return Some(PreviousExists);
      }
      if !previous.Missing? {
        return Some(FileError);
      }
      error := Swap();
    }

    /** The last part of `Activate`: both binaries are there and nothing is set aside. */
    method Swap() returns (error: Option<UpdateError>)
      requires Valid() && Accepted(p) && p.current in files && p.staged in files && p.previous !in files
      modifies this
      ensures Valid() && seen == old(seen) && old(trace) <= trace
      ensures error.Some? ==> error.value.FileError?
      ensures error.None? ==> Swapped(p, old(files), files)
      ensures faults >= old(faults)
      ensures Separate(p) && faults == old(faults) ==> error.None? && p.health !in files
      ensures Separate(p) && faults <= old(faults) + 1 ==> WholeSwap(p, old(files), files)
      ensures Separate(p) && Genuine(p, old(files)) ==> Genuine(p, files)
      ensures deeds == old(deeds) + (if error.None? then [Synced] else [])
    {
      ghost var base := Now();
      var _ := Remove(p.health);
      ghost var h := files;
      ActivateReaches(p, origin, base, h, files);
      var saved := Rename(p.current, p.previous);
      ActivateReaches(p, origin, base, h, files);
      if !saved {
        return Some(FileError);
      }
      error := InstallStaged(base, h);
    }

    /** The original is set aside: install the staged binary, or put the original back. */
    method InstallStaged(ghost base: World, ghost h: Files) returns (error: Option<UpdateError>)
      requires Valid() && Reaches(p, origin, base) && seen == base.seen
      requires Accepted(p) && p.current in base.files && p.staged in base.files && p.previous !in base.files
      requires (h == base.files || h == Without(base.files, p.health)) && p.current in h
      requires files == Move(h, p.current, p.previous)
      modifies this
      ensures Valid() && seen == old(seen) && old(trace) <= trace
      ensures error.Some? ==> error.value.FileError?
      ensures error.None? ==> Swapped(p, base.files, files)
      ensures faults >= old(faults)
      ensures Separate(p) && faults == old(faults) ==> error.None? && (p.health !in h ==> p.health !in files)
      ensures Separate(p) && faults <= old(faults) + 1 ==> WholeSwap(p, base.files, files)
      ensures Separate(p) && Genuine(p, h) ==> Genuine(p, files)
      ensures deeds == old(deeds) + (if error.None? then [Synced] else [])
    {
      var swapped := Rename(p.staged, p.current);
      ActivateReaches(p, origin, base, h, files);
      if !swapped {
        var undone := Rename(p.previous, p.current);
        MoveBack(h, p.current, p.previous);
        ActivateReaches(p, origin, base, h, files);
        return Some(FileError);
      }
      SwappedBy(p, base.files, h, files);
      var synced := Outside(Synced);
      return if synced then None else Some(FileError);
    }

    method Evaluate(now: Time) returns (result: Result<Action, UpdateError>)
      requires Valid()
      modifies this
      ensures Valid() && old(trace) <= trace
      ensures result == Ok(Pending) ==> now < p.deadline && seen == old(seen) && Elsewhere(p, old(files), files)
      ensures result == Ok(Committed) ==>
                && p.previous !in files && (Separate(p) ==> SameAt(old(files), files, p.current))
                && (Separate(p) && Genuine(p, old(files)) ==> seen)
      ensures result == Ok(RolledBack) ==>
                now >= p.deadline && seen == old(seen) && p.previous !in files
                && (Separate(p) ==> exists f :: Elsewhere(p, old(files), f) && Restored(p, f, files))
      ensures result == Err(InvalidPromotion) <==> !Accepted(p)
      ensures faults >= old(faults)
      ensures Accepted(p) && Separate(p) && faults == old(faults) ==>
                exists f :: Elsewhere(p, old(files), f) && Evaluated(p, f, now, result, files)
      ensures Accepted(p) && Separate(p) && faults <= old(faults) + 1 ==>
                exists f :: Elsewhere(p, old(files), f) && WholeRollback(p, f, files)
      ensures deeds == old(deeds) + if result.Ok? && !result.value.Pending? then [Synced] else []
      ensures Separate(p) && result.Ok? && !result.value.Committed? ==> p.health !in files
      ensures result.Err? ==> result.error in {InvalidPromotion, FileError, MissingBinary}
    {
      if !Accepted(p) {
        return Err(InvalidPromotion);
      }
      ghost var knew := seen;
      var marker := StatMarker();
      ghost var f := files;
      if marker.Exists? {
        result := Commit(World(files, knew));
        return;
      }
      if !marker.Missing? {
        return Err(FileError);
      }
      if now < p.deadline {
        return Ok(Pending);
      }
      var previous := Stat(p.previous);
      if !previous.Exists? {
        return Err(MissingBinary);
      }
      result := RollBack();
    }

    /** The middle part of `Evaluate`: the marker is there. */
    method Commit(ghost base: World) returns (result: Result<Action, UpdateError>)
      requires Valid() && p.health in files && seen == (base.seen || MarkerIn(p, files))
      requires base.files == files && Reaches(p, origin, base)
      modifies this
      ensures Valid() && seen == old(seen) && old(trace) <= trace
      ensures result.Ok? ==> result.value.Committed? && p.previous !in files
      ensures result.Err? ==> result.error.FileError?
      ensures Separate(p) ==> SameAt(old(files), files, p.current)
      ensures faults >= old(faults)
      ensures faults == old(faults) ==> result.Ok? && files == Without(Without(old(files), p.previous), p.health)
      ensures deeds == old(deeds) + if result.Ok? then [Synced] else []
    {
      var removed := Remove(p.previous);
      CommitReaches(p, origin, base, files);
      if removed.Unknown? {
        return Err(FileError);
      }
      assert files == Without(base.files, p.previous);
      var cleared := Remove(p.health);
      CommitReaches(p, origin, base, files);
      var synced := Outside(Synced);
      return if synced then Ok(Committed) else Err(FileError);
    }

    /** The last part of `Evaluate`: the marker is missing, the deadline is past, something is set aside. */
    method RollBack() returns (result: Result<Action, UpdateError>)
      requires Valid() && Accepted(p) && p.health !in files && p.previous in files
      modifies this
      ensures Valid() && seen == old(seen) && old(trace) <= trace
      ensures result.Ok? ==>
                result.value.RolledBack? && p.previous !in files && (Separate(p) ==> Restored(p, old(files), files))
      ensures result.Err? ==> result.error.FileError?
      ensures faults >= old(faults)
      ensures Separate(p) && faults == old(faults) ==>
                if p.current in old(files) then result.Ok?
                else result.Err? && files == Without(old(files), FailedPath(p))
      ensures Separate(p) && faults <= old(faults) + 1 ==> WholeRollback(p, old(files), files)
      ensures deeds == old(deeds) + if result.Ok? then [Synced] else []
      ensures Separate(p) ==> p.health !in files
    {
      ghost var base := Now();
      var cleared := Remove(FailedPath(p));
      ghost var h := files;
      RollbackReaches(p, origin, base, h, files);
      var aside := Rename(p.current, FailedPath(p));
      RollbackReaches(p, origin, base, h, files);
      if !aside {
        return Err(FileError);
      }
      result := PutBack(base, h);
    }

    /** The rejected binary is out of the way: put the original back, or undo. */
    method PutBack(ghost base: World, ghost h: Files) returns (result: Result<Action, UpdateError>)
      requires Valid() && Accepted(p) && Reaches(p, origin, base) && seen == base.seen
      requires p.health !in base.files && p.previous in base.files && p.current in h
      requires h == base.files || h == Without(base.files, FailedPath(p))
      requires files == Move(h, p.current, FailedPath(p))
      modifies this
      ensures Valid() && seen == old(seen) && old(trace) <= trace
      ensures result.Ok? ==>
                result.value.RolledBack? && p.previous !in files && (Separate(p) ==> Restored(p, base.files, files))
      ensures result.Err? ==> result.error.FileError?
      ensures faults >= old(faults)
      ensures Separate(p) && faults == old(faults) ==> result.Ok?
      ensures Separate(p) && faults <= old(faults) + 1 ==> WholeRollback(p, base.files, files)
      ensures deeds == old(deeds) + if result.Ok? then [Synced] else []
      ensures Separate(p) ==> p.health !in files
    {
      var restored := Rename(p.previous, p.current);
      if !restored {
        RollbackReaches(p, origin, base, h, files);
        var undone := Rename(FailedPath(p), p.current);
        UndoneReaches(base, h, undone);
        if undone && Separate(p) {
          MoveBackOver(h, p.current, FailedPath(p));
        }
        return Err(FileError);
      }
      RollbackReaches(p, origin, base, h, files);
      if Separate(p) {
        RestoredBy(p, base.files, h, files);
      }
      var synced := Outside(Synced);
      return if synced then Ok(RolledBack) else Err(FileError);
    }

    lemma UndoneReaches(base: World, h: Files, undone: bool)
      requires Reaches(p, origin, base) && p.health !in base.files && p.previous in base.files
      requires (h == base.files || h == Without(base.files, FailedPath(p))) && p.current in h
      requires var aside := Move(h, p.current, FailedPath(p));
               files == if undone then Move(aside, FailedPath(p), p.current) else aside
      requires seen == base.seen
      ensures Reaches(p, origin, Now())
    {
      if !undone {
        RollbackReaches(p, origin, base, h, files);
      } else if p.current == FailedPath(p) {
        assert files == h;
        RollbackReaches(p, origin, base, h, files);
      } else {
        MoveBackOver(h, p.current, FailedPath(p));
        assert files == Without(base.files, FailedPath(p));
        RollbackReaches(p, origin, base, files, files);
      }
    }

    /** `forceRollback`: the deadline is past or the new agent does not start. */
    method ForceRollback() returns (result: Result<Action, UpdateError>)
      requires Valid()
      modifies this
      ensures Valid() && old(trace) <= trace
      ensures result.Ok? ==>
                result.value.RolledBack? && seen == old(seen) && p.previous !in files
                && (Separate(p) ==> exists f :: Elsewhere(p, old(files), f) && Restored(p, f, files))
      ensures faults >= old(faults)
      ensures Accepted(p) && Separate(p) && p.current in old(files) && p.previous in old(files)
              && faults == old(faults) ==>
                result.Ok? || (result == Err(UnexpectedAction) && LateCommit(p, old(files), files))
      ensures result.Ok? ==> deeds == old(deeds) + [Stopped, Synced, Started]
      ensures result == Err(UnexpectedAction) ==> deeds != [] && !deeds[|deeds| - 1].Started?
      ensures Accepted(p) && result.Err? ==> UnderWay(result.error)
    {
      var stopped := Outside(Stopped);
      if !stopped {
        return Err(ServiceError);
      }
      result := Evaluate(p.deadline + 1);
      if result.Err? {
        return;
      }
      if !result.value.RolledBack? {
        return Err(UnexpectedAction);
      }
      var started := Outside(Started);
      if !started {
        return Err(ServiceError);
      }
    }

    /**
     `FinalizeUpdate`: wait for the parent, stop the service, activate, start it, and poll until the marker
     appears or the deadline passes. Between two polls the clock moves on.
     */
    method FinalizeUpdate(parentPid: int, pollInterval: Time, start: Time)
      returns (result: Result<Action, UpdateError>, ghost looks: seq<Look>)
      requires Valid()
      modifies this
      ensures Valid() && old(trace) <= trace
      ensures result.Ok? ==> p.current in old(files) && p.staged in old(files) && p.previous !in old(files)
      ensures result.Ok? ==> p.previous !in files
      ensures Separate(p) && result == Ok(Committed) ==> Holds(files, p.current, old(files)[p.staged])
      ensures Separate(p) && Genuine(p, old(files)) && result == Ok(Committed) ==> seen
      ensures Separate(p) && result == Ok(RolledBack) ==>
                Holds(files, p.current, old(files)[p.current]) && Holds(files, FailedPath(p), old(files)[p.staged])
      ensures faults >= old(faults)
      ensures Accepted(p) && Separate(p) && parentPid > 0 && 0 < pollInterval <= MAX_POLL_INTERVAL
              && ActivateAnswer(p, old(files)).None? && faults == old(faults) ==>
                exists running :: Swapped(p, old(files), running) && EndsDuly(p, looks, result, running, files)
      ensures result == Err(BadArguments) <==> parentPid <= 0 || !(0 < pollInterval <= MAX_POLL_INTERVAL)
      ensures result == Err(InvalidPromotion) <==>
                parentPid > 0 && 0 < pollInterval <= MAX_POLL_INTERVAL && !Accepted(p)
      ensures result.Err? && !UnderWay(result.error) ==> files == old(files) && deeds == old(deeds)
      ensures result.Ok? ==> EndsBy(p, looks, result) && looks[0].at == start
      ensures result.Ok? ==>
                deeds == old(deeds) + [ParentGone, Stopped, Synced, Started] + Ticks(|looks| - 1)
                         + LastDeeds(result.value)
    {
      if parentPid <= 0 || pollInterval <= 0 || pollInterval > MAX_POLL_INTERVAL {
        return Err(BadArguments), [];
      }
      if !Accepted(p) {
        return Err(InvalidPromotion), [];
      }
      result, looks := Promote(start);
    }

    /** All of `FinalizeUpdate` but the check of its arguments. */
    method Promote(start: Time) returns (result: Result<Action, UpdateError>, ghost looks: seq<Look>)
      requires Valid() && Accepted(p)
      modifies this
      ensures Valid() && old(trace) <= trace && faults >= old(faults)
      ensures result.Ok? ==> p.current in old(files) && p.staged in old(files) && p.previous !in old(files)
      ensures result.Ok? ==> p.previous !in files && EndsBy(p, looks, result) && looks[0].at == start
      ensures Separate(p) && result == Ok(Committed) ==> Holds(files, p.current, old(files)[p.staged])
      ensures Separate(p) && Genuine(p, old(files)) && result == Ok(Committed) ==> seen
      ensures Separate(p) && result == Ok(RolledBack) ==>
                Holds(files, p.current, old(files)[p.current]) && Holds(files, FailedPath(p), old(files)[p.staged])
      ensures result.Ok? ==>
                deeds == old(deeds) + [ParentGone, Stopped, Synced, Started] + Ticks(|looks| - 1)
                         + LastDeeds(result.value)
      ensures Separate(p) && ActivateAnswer(p, old(files)).None? && faults == old(faults) ==>
                exists running :: Swapped(p, old(files), running) && EndsDuly(p, looks, result, running, files)
      ensures result.Err? ==> UnderWay(result.error)
    {
      var failed := StopAndActivate();
      if failed.Some? {
        return Err(failed.value), [];
      }
      ghost var running := files;
      assert Swapped(p, old(files), running);
      result, looks := StartAndAwait(start);
      if result.Ok? {
        assert [ParentGone, Stopped, Synced] + [Started] == [ParentGone, Stopped, Synced, Started];
        assert deeds == old(deeds) + ([ParentGone, Stopped, Synced] + [Started]) + Ticks(|looks| - 1)
                             + LastDeeds(result.value);
      }
    }

    /** The first part of `FinalizeUpdate`: the parent is gone, the service stops, and the staged binary goes in. */
    method StopAndActivate() returns (error: Option<UpdateError>)
      requires Valid() && Accepted(p)
      modifies this
      ensures Valid() && seen == old(seen) && old(trace) <= trace && faults >= old(faults)
      ensures error.None? ==> Swapped(p, old(files), files)
      ensures error.None? ==> deeds == old(deeds) + [ParentGone, Stopped, Synced]
      ensures Separate(p) && Genuine(p, old(files)) ==> Genuine(p, files)
      ensures Separate(p) && faults == old(faults) ==> error == ActivateAnswer(p, old(files))
      ensures error.Some? ==> UnderWay(error.value)
    {
      var parentGone := Outside(ParentGone);
      if !parentGone {
        return Some(ServiceError);
      }
      var stopped := Outside(Stopped);
      if !stopped {
        return Some(ServiceError);
      }
      error := Activate();
    }

    /** The last part of `FinalizeUpdate`: the staged binary is in place, start it and poll. */
    method StartAndAwait(start: Time) returns (result: Result<Action, UpdateError>, ghost looks: seq<Look>)
      requires Valid() && Accepted(p)
      modifies this
      ensures Valid() && old(trace) <= trace && faults >= old(faults)
      ensures looks == [] ==> result.Err? && UnderWay(result.error) && faults > old(faults)
      ensures looks != [] ==> Ended(p, looks, result, old(Now()), Now(), faults == old(faults)) && looks[0].at == start
      ensures result.Ok? ==> deeds == old(deeds) + [Started] + Ticks(|looks| - 1) + LastDeeds(result.value)
    {
      var started := Outside(Started);
      if !started {
        result := ForceRollback();
        return Err(if result.Err? then result.error else ServiceError), [];
      }
      result, looks := AwaitMarker(start);
    }

    /** The polling loop of `FinalizeUpdate`. */
    method AwaitMarker(start: Time) returns (result: Result<Action, UpdateError>, ghost looks: seq<Look>)
      requires Valid()
      modifies this
      ensures Valid() && old(trace) <= trace && faults >= old(faults)
      ensures Ended(p, looks, result, old(Now()), Now(), faults == old(faults)) && looks[0].at == start
      ensures result.Ok? ==> deeds == old(deeds) + Ticks(|looks| - 1) + LastDeeds(result.value)
    {
      var now := start;
      looks := [];
      while true
        invariant Valid() && old(trace) <= trace && faults >= old(faults)
        invariant Polling(p, looks, start, now, old(Now()), Now(), old(deeds), deeds)
        decreases p.deadline - now
      {
        ghost var middle, quiet, waited := Now(), faults, deeds;
        var answer, marker := PollOnce(now);
        if answer.Some? {
          LastRound(p, looks, Look(now, marker), answer.value, old(Now()), middle, Now(), faults == quiet,
                    faults == old(faults));
          return answer.value, looks + [Look(now, marker)];
        }
        var reading: Time := *;
        var next := Max(now + 1, reading);
        NextRound(p, looks, start, now, next, old(Now()), middle, Now(), old(deeds), waited);
        looks, now := looks + [Look(now, Missing)], next;
      }
    }

    /** One round of the loop: no answer means to wait for the next tick. */
    method PollOnce(now: Time) returns (answer: Option<Result<Action, UpdateError>>, ghost marker: Lookup)
      requires Valid()
      modifies this
      ensures Valid() && old(trace) <= trace && faults >= old(faults)
      ensures answer.None? ==>
                && marker.Missing? && now < p.deadline && deeds == old(deeds) + [Ticked]
                && Untouched(p, old(Now()), Now())
      ensures answer.Some? ==>
                && Ended(p, [Look(now, marker)], answer.value, old(Now()), Now(), faults == old(faults))
                && (answer.value.Ok? ==> deeds == old(deeds) + LastDeeds(answer.value.value))
    {
      var found := StatMarker();
      marker := found;
      if found.Exists? {
        var result := Evaluate(now);
        return Some(if result.Ok? && !result.value.Committed? then Err(UnexpectedAction) else result), marker;
      }
      if !found.Missing? {
        return Some(Err(FileError)), marker;
      }
      if now >= p.deadline {
        var result := ForceRollback();
        return Some(result), marker;
      }
      var ticked := Outside(Ticked);
      return if ticked then None else Some(Err(ServiceError)), marker;
    }
  }
}
