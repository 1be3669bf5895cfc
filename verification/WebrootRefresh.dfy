/**
 Refreshing the web root: a download into a sibling directory, swapped into place.
 The protocol is a system of single file-system operations, so that a failure or a
 crash can come between any two of them.
 */
module WebrootRefresh {
  import opened Wrappers
  import opened WebrootPaths

  const STAMP := ".restreamair-webroot.json"
  const INDEX := "index.html"
  const PART := ".part"

  /** The files below a directory. */
  type Tree = map<string, string>

  /** What a download brings: paths in the listing's order, a body for each, and the stamp. */
  datatype Download = Download(files: seq<string>, bodies: seq<string>, stamp: string)

  // --- what a download leaves ---------------------------------------------------------

  /** Writing beside the target and renaming: the temporary name is free afterwards. */
  function Written(t: Tree, path: string, body: string): Tree {
    (t - {path + PART})[path := body]
  }

  /** The tree after the first `n` files. */
  function Loaded(d: Download, n: nat): Tree
    requires n <= |d.files| == |d.bodies|
  {
    if n == 0 then map[] else Written(Loaded(d, n - 1), d.files[n - 1], d.bodies[n - 1])
  }

  /** The tree of a finished download. */
  function Snapshot(d: Download): Tree
    requires |d.files| == |d.bodies|
  {
    Written(Loaded(d, |d.files|), STAMP, d.stamp)
  }

  /** The file written as number `i` is neither written again nor in the way of a later temporary file. */
  predicate LastWrite(files: seq<string>, i: nat, n: nat)
    requires i < n <= |files|
  {
    forall j :: i < j < n ==> files[j] != files[i] && files[j] + PART != files[i]
  }

  /** The path is there exactly when it has such a write among the first `n`, and with the body of that one. */
  ghost predicate AsWritten(d: Download, n: nat, path: string)
    requires n <= |d.files| == |d.bodies|
  {
    && (path in Loaded(d, n) <==> exists i :: 0 <= i < n && d.files[i] == path && LastWrite(d.files, i, n))
    && forall i :: 0 <= i < n && d.files[i] == path && LastWrite(d.files, i, n) ==>
         path in Loaded(d, n) && Loaded(d, n)[path] == d.bodies[i]
  }

  /** After the first `n` files a path holds the body of its last write, if nothing took it away since. */
  lemma {:induction false} LoadedHolds(d: Download, n: nat, path: string)
    requires n <= |d.files| == |d.bodies|
    ensures AsWritten(d, n, path)
  {
    if n > 0 {
      hide AsWritten, Loaded, LastWrite;
      LoadedHolds(d, n - 1, path);
      if path == d.files[n - 1] {
        WrittenLast(d, n, path);
      } else if path == d.files[n - 1] + PART {
        TakenLast(d, n, path);
      } else {
        NotTouched(d, n, path);
      }
    }
  }

  lemma WrittenLast(d: Download, n: nat, path: string)
    requires 0 < n <= |d.files| == |d.bodies| && path == d.files[n - 1]
    ensures AsWritten(d, n, path)
  {
    OneWriteMore(d, n, path);
    hide Loaded;
    assert LastWrite(d.files, n - 1, n);
    assert forall i :: 0 <= i < n - 1 && d.files[i] == path ==> !LastWrite(d.files, i, n);
  }

  lemma TakenLast(d: Download, n: nat, path: string)
    requires 0 < n <= |d.files| == |d.bodies| && path == d.files[n - 1] + PART
    ensures AsWritten(d, n, path)
  {
    OneWriteMore(d, n, path);
    hide Loaded;
    assert forall i :: 0 <= i < n && d.files[i] == path ==> !LastWrite(d.files, i, n);
  }

  lemma NotTouched(d: Download, n: nat, path: string)
    requires 0 < n <= |d.files| == |d.bodies| && path != d.files[n - 1] && path != d.files[n - 1] + PART
    requires AsWritten(d, n - 1, path)
    ensures AsWritten(d, n, path)
  {
    OneWriteMore(d, n, path);
    forall i | 0 <= i < n - 1 && d.files[i] == path
      ensures LastWrite(d.files, i, n) <==> LastWrite(d.files, i, n - 1)
    {
      LastWriteStep(d.files, i, n);
    }
    hide Loaded, LastWrite;
  }

  lemma OneWriteMore(d: Download, n: nat, path: string)
    requires 0 < n <= |d.files| == |d.bodies|
    ensures var last := d.files[n - 1];
            && (path in Loaded(d, n) <==> path == last || (path in Loaded(d, n - 1) && path != last + PART))
            && (path == last ==> Loaded(d, n)[path] == d.bodies[n - 1])
            && (path in Loaded(d, n) && path != last ==> Loaded(d, n)[path] == Loaded(d, n - 1)[path])
            && last + PART != last
  {
    var last := d.files[n - 1];
    assert last + PART != last by { assert |last + PART| == |last| + 5; }
  }

  lemma LastWriteStep(files: seq<string>, i: nat, n: nat)
    requires i < n - 1 && n <= |files|
    ensures LastWrite(files, i, n)
            <==> LastWrite(files, i, n - 1) && files[n - 1] != files[i] && files[n - 1] + PART != files[i]
  {
  }

  /** No path is followed by the one whose temporary file has its name, unless it is written again. */
  predicate NoneTakenAway(files: seq<string>) {
    forall i, j :: 0 <= i < j < |files| && files[j] + PART == files[i] ==> WrittenAgain(files, i, j)
  }

  predicate WrittenAgain(files: seq<string>, i: nat, j: nat)
    requires i < |files|
  {
    exists k :: j < k < |files| && files[k] == files[i]
  }

  predicate HoldsAll(t: Tree, files: seq<string>) {
    forall i :: 0 <= i < |files| ==> files[i] in t
  }

  /** The last place at or after `i` where the path of place `i` stands. */
  lemma {:induction false} LastPlace(files: seq<string>, i: nat, n: nat) returns (k: nat)
    requires i < n <= |files|
    ensures i <= k < n && files[k] == files[i] && forall j :: k < j < n ==> files[j] != files[i]
    decreases n
  {
    if files[n - 1] == files[i] { k := n - 1; } else { k := LastPlace(files, i, n - 1); }
  }

  /**
   A finished download has every listed file exactly when the listing names no path
   after the one whose temporary file has that name. (The stamp alone does not tell.)
   */
  lemma StampMeansAllPresent(d: Download)
    requires |d.files| == |d.bodies| && AllSafe(d.files)
    ensures HoldsAll(Snapshot(d), d.files) <==> NoneTakenAway(d.files)
  {
    hide SafeRelative, Loaded, WrittenAgain, Snapshot;
    var n := |d.files|;
    forall i | 0 <= i < n ensures d.files[i] in Snapshot(d) <==> d.files[i] in Loaded(d, n) {
      StampAside(d, d.files[i]);
    }
    if NoneTakenAway(d.files) {
      forall i | 0 <= i < n ensures d.files[i] in Loaded(d, n) {
        KeptIsThere(d, i);
      }
    }
    if HoldsAll(Snapshot(d), d.files) {
      forall i, j | 0 <= i < j < n && d.files[j] + PART == d.files[i] ensures WrittenAgain(d.files, i, j) {
        ThereIsKept(d, i, j);
      }
    }
  }

  lemma StampAside(d: Download, path: string)
    requires |d.files| == |d.bodies| && SafeRelative(path)
    ensures path in Snapshot(d) <==> path in Loaded(d, |d.files|)
  {
    NotTheStamp(path);
  }

  lemma KeptIsThere(d: Download, i: nat)
    requires i < |d.files| == |d.bodies| && NoneTakenAway(d.files)
    ensures d.files[i] in Loaded(d, |d.files|)
  {
    hide Loaded;
    var n := |d.files|;
    var k := LastPlace(d.files, i, n);
    assert LastWrite(d.files, k, n) by {
      forall j | k < j < n ensures d.files[j] + PART != d.files[k] {
        assert !WrittenAgain(d.files, k, j);
      }
    }
    LoadedHolds(d, n, d.files[i]);
  }

  lemma ThereIsKept(d: Download, i: nat, j: nat)
    requires i < j < |d.files| == |d.bodies| && d.files[j] + PART == d.files[i]
    requires d.files[i] in Loaded(d, |d.files|)
    ensures WrittenAgain(d.files, i, j)
  {
    hide Loaded;
    var k := LastWriteOf(d, d.files[i]);
    assert d.files[j] != d.files[i] by { assert |d.files[j] + PART| == |d.files[j]| + 5; }
    assert k > j;
  }

  lemma LastWriteOf(d: Download, path: string) returns (k: nat)
    requires |d.files| == |d.bodies| && path in Loaded(d, |d.files|)
    ensures k < |d.files| && d.files[k] == path && LastWrite(d.files, k, |d.files|)
  {
    hide Loaded, LastWrite;
    LoadedHolds(d, |d.files|, path);
    k :| 0 <= k < |d.files| && d.files[k] == path && LastWrite(d.files, k, |d.files|);
  }

  /** A single plain name is a safe path. */
  lemma NameIsSafe(name: string)
    requires |name| <= PATH_MAX && PlainName(name)
    ensures SafeRelative(name)
  {
    assert '/' !in name;
    assert name[0..|name|] == name && name[0..] == name;
    SlashAt(name, 0, |name|);
    assert PartsFrom(name, 0) == [name];
  }

  lemma IndexIsSafe()
    ensures SafeRelative(INDEX)
  {
    NameIsSafe(INDEX);
  }

  const MISORDERED: seq<string> := [INDEX, "a.part", "a"]

  lemma MisorderedIsSafe()
    ensures AllSafe(MISORDERED)
  {
    IndexIsSafe();
    NameIsSafe("a.part");
    NameIsSafe("a");
    hide SafeRelative;
  }

  lemma MisorderedTakesAway()
    ensures !NoneTakenAway(MISORDERED) && LastWrite(MISORDERED, 0, 3)
  {
    var files := MISORDERED;
    assert files[2] + PART == files[1];
    assert files[2] != files[1];
    assert !WrittenAgain(files, 1, 2);
    assert |files[0]| == 10 && |files[1]| == 6 && |files[2]| == 1 && |PART| == 5;
    assert files[1] + PART != files[0] && files[2] + PART != files[0];
  }

  /** A listing of safe paths after which the stamp stands beside a missing file: writing "a" takes "a.part" away. */
  lemma StampWithoutTheFile(d: Download)
    requires |d.files| == |d.bodies| && d.files == MISORDERED
    ensures AllSafe(d.files) && STAMP in Snapshot(d) && INDEX in Snapshot(d)
    ensures !NoneTakenAway(d.files) && !HoldsAll(Snapshot(d), d.files)
  {
    MisorderedIsSafe();
    MisorderedTakesAway();
    hide SafeRelative, NoneTakenAway;
    StampMeansAllPresent(d);
    NotTheStamp(INDEX);
    LoadedHolds(d, 3, d.files[0]);
  }

  /** Files fetched from one commit make a tree of that commit, whatever order they came in. */
  lemma OneCommit(d: Download, site: map<string, string>, path: string)
    requires |d.files| == |d.bodies| && AllSafe(d.files)
    requires forall i :: 0 <= i < |d.files| ==> d.files[i] in site && d.bodies[i] == site[d.files[i]]
    requires path in Snapshot(d) && path != STAMP
    ensures path in d.files && path in site && Snapshot(d)[path] == site[path]
  {
    var n := |d.files|;
    LoadedHolds(d, n, path);
    var i :| 0 <= i < n && d.files[i] == path && LastWrite(d.files, i, n);
  }

  /** No path comes after a longer one that begins with it, as in any sorted listing. */
  predicate PrefixesFirst(files: seq<string>) {
    forall i, j :: 0 <= i < j < |files| ==> !(files[j] < files[i])
  }

  lemma SortedListingsAreComplete(d: Download)
    requires |d.files| == |d.bodies| && AllSafe(d.files) && PrefixesFirst(d.files)
    ensures HoldsAll(Snapshot(d), d.files)
  {
    forall i, j | 0 <= i < j < |d.files| ensures d.files[j] + PART != d.files[i] {
      assert d.files[j] < d.files[j] + PART;
    }
    StampMeansAllPresent(d);
  }

  predicate AllSafe(files: seq<string>) { forall i :: 0 <= i < |files| ==> SafeRelative(files[i]) }

  /** The stamp and its temporary file are dotfiles, which no safe path is. */
  lemma NotTheStamp(path: string)
    requires SafeRelative(path)
    ensures path != STAMP && path != STAMP + PART
  {
    PlainEverywhere(path, 0);
  }

  // --- the directories ------------------------------------------------------------------

  /** The live directory, the one being filled and the previous one; `complete` is every finished download so far. */
  datatype World = World(live: Option<Tree>, stage: Option<Tree>, backup: Option<Tree>, complete: set<Tree>)

  /** Where a refresh is: each step below is one operation of the file system. */
  datatype Pc =
    | Idle
    | ClearStage
    | Loading(d: Download, n: nat)
    | Stamping(d: Download)
    | ClearBackup
    | SetAside
    | Activate(hadOld: bool)
    | Restore
    | DropBackup
    | DropStage

  datatype State = State(pc: Pc, w: World)

  /** One step of removing a directory with everything in it. */
  predicate Shrinks(before: Option<Tree>, after: Option<Tree>) {
    after.Some? ==> before.Some? && after.value.Keys <= before.value.Keys
                    && forall p :: p in after.value ==> after.value[p] == before.value[p]
  }

  /**
   What can be seen of a file being written: nothing yet, its temporary file, the
   target gone, the target in place.
   */
  predicate Writing(base: Tree, t: Tree, path: string, body: string) {
    || t == base
    || t == base - {path + PART}
    || (exists n :: 0 <= n <= |body| && t == base[path + PART := body[..n]])
    || t == (base - {path})[path + PART := body]
    || t == base - {path} - {path + PART}
    || t == Written(base, path, body)
  }

  predicate CanStep(s: State, t: State) {
    var v, w := s.w, t.w;
    match s.pc
    case Idle => t.pc.ClearStage? && w == v
    case ClearStage =>
      || (t.pc.ClearStage? && w == v.(stage := w.stage) && Shrinks(v.stage, w.stage))
      || (t.pc.Idle? && w == v)
      || (t.pc.Loading? && v.stage.None? && t.pc.n == 0 && |t.pc.d.files| == |t.pc.d.bodies|
          && (w == v || w == v.(stage := Some(map[]))))
    case Loading(d, n) =>
      && n <= |d.files| == |d.bodies|
      && ((t.pc.DropStage? && w == v)
          || (t.pc == s.pc && w == v.(stage := Some(map[])) && n == 0 && v.stage.None?)
          || (n < |d.files| && SafeRelative(d.files[n]) && w == v.(stage := w.stage) && w.stage.Some?
              && t.pc == s.pc
              && Writing(Loaded(d, n), w.stage.value, d.files[n], d.bodies[n]))
          || (n < |d.files| && SafeRelative(d.files[n]) && t.pc == Loading(d, n + 1)
              && w == v.(stage := Some(Loaded(d, n + 1))))
          || (n == |d.files| && v.stage == Some(Loaded(d, n)) && INDEX in Loaded(d, n)
              && t.pc == Stamping(d) && w == v))
    case Stamping(d) =>
      && |d.files| == |d.bodies|
      && ((t.pc.DropStage? && w == v)
          || (t.pc == s.pc && w == v.(stage := w.stage) && w.stage.Some?
           && Writing(Loaded(d, |d.files|), w.stage.value, STAMP, d.stamp))
          || (t.pc.ClearBackup? && w == v.(stage := Some(Snapshot(d)), complete := v.complete + {Snapshot(d)})))
    case ClearBackup =>
      || (t.pc.ClearBackup? && w == v.(backup := w.backup) && Shrinks(v.backup, w.backup))
      || (t.pc.SetAside? && v.backup.None? && w == v)
      || (t.pc.DropStage? && w == v)
    case SetAside =>
      || (t.pc == Activate(true) && v.live.Some? && w == v.(live := None, backup := v.live))
      || (t.pc == Activate(false) && v.live.None? && w == v)
      || (t.pc.DropStage? && v.live.Some? && w == v)
    case Activate(hadOld) =>
      || (t.pc.DropBackup? && v.live.None? && w == v.(live := v.stage, stage := None))
      || (t.pc == (if hadOld then Restore else DropStage) && w == v)
    case Restore =>
      || (t.pc.DropStage? && v.live.None? && w == v.(live := v.backup, backup := None))
      || (t.pc.DropStage? && w == v)
    case DropBackup =>
      || (t.pc.DropBackup? && w == v.(backup := w.backup) && Shrinks(v.backup, w.backup))
      || (t.pc.Idle? && w == v)
    case DropStage =>
      || (t.pc.DropStage? && w == v.(stage := w.stage) && Shrinks(v.stage, w.stage))
      || (t.pc.Idle? && w == v)
  }

  /** The program stops and is started again; the directories stay. */
  predicate Crashes(s: State, t: State) {
    t.pc.Idle? && t.w == s.w
  }

  /** Any sequence of refreshes, with a crash wherever one comes. */
  ghost predicate Path(trace: seq<State>) {
    && trace != []
    && forall i :: 0 <= i < |trace| - 1 ==> CanStep(trace[i], trace[i + 1]) || Crashes(trace[i], trace[i + 1])
  }

  // --- all or nothing ---------------------------------------------------------------------

  ghost predicate IsComplete(o: Option<Tree>, w: World) {
    o.Some? && o.value in w.complete
  }

  /** The live directory is absent or a finished download, and what is about to replace it is one too. */
  ghost predicate Inv(s: State) {
    && (s.w.live.Some? ==> s.w.live.value in s.w.complete)
    && (s.pc.ClearBackup? || s.pc.SetAside? || s.pc.Activate? ==> IsComplete(s.w.stage, s.w))
    && (s.pc.Activate? ==> s.w.live.None?)
    && (s.pc == Activate(true) || s.pc.Restore? ==> IsComplete(s.w.backup, s.w))
  }

  lemma StepKeepsInv(s: State, t: State)
    requires Inv(s) && (CanStep(s, t) || Crashes(s, t))
    ensures Inv(t) && s.w.complete <= t.w.complete
  {
    hide Writing, Loaded, Snapshot, Shrinks, SafeRelative;
  }

  /** At every point of any sequence of refreshes and crashes the live directory is absent or one finished download. */
  lemma {:induction false} LiveIsNeverMixed(trace: seq<State>, i: nat)
    requires Path(trace) && trace[0].pc.Idle? && Inv(trace[0]) && i < |trace|
    ensures Inv(trace[i]) && (trace[i].w.live.Some? ==> trace[i].w.live.value in trace[i].w.complete)
  {
    if i > 0 {
      LiveIsNeverMixed(trace, i - 1);
      StepKeepsInv(trace[i - 1], trace[i]);
    }
  }

  /** A finished download is live, or has been set aside by the refresh that is under way. */
  ghost predicate Kept(s: State) {
    IsComplete(s.w.live, s.w)
    || (IsComplete(s.w.backup, s.w) && (s.pc == Activate(true) || s.pc.Restore? || s.pc.DropStage? || s.pc.Idle?))
  }

  lemma StepKeepsKept(s: State, t: State)
    requires Inv(s) && Kept(s) && CanStep(s, t) && (s.pc.Idle? ==> IsComplete(s.w.live, s.w))
    ensures Kept(t)
  {
    StepKeepsInv(s, t);
    hide Writing, Loaded, Snapshot, Shrinks, SafeRelative;
  }

  /**
   From a live directory that is a finished download, every crash point of one refresh
   leaves a finished download in the live directory or the backup.
   */
  lemma {:induction false} OneRefreshKeepsACopy(trace: seq<State>, i: nat)
    requires Path(trace) && trace[0].pc.Idle? && Inv(trace[0]) && i < |trace|
    requires IsComplete(trace[0].w.live, trace[0].w)
    requires forall j :: 0 <= j < |trace| - 1 ==> CanStep(trace[j], trace[j + 1])
    requires forall j :: 0 < j < |trace| - 1 ==> !trace[j].pc.Idle?
    ensures IsComplete(trace[i].w.live, trace[i].w) || IsComplete(trace[i].w.backup, trace[i].w)
    ensures Kept(trace[i])
  {
    if i > 0 {
      OneRefreshKeepsACopy(trace, i - 1);
      LiveIsNeverMixed(trace, i - 1);
      StepKeepsKept(trace[i - 1], trace[i]);
    }
  }

  // --- when a copy is kept ------------------------------------------------------------------

  const SMALL := Download([INDEX], [""], "")

  lemma SmallTree()
    ensures Loaded(SMALL, 0) == map[] && INDEX in Loaded(SMALL, 1) && INDEX in Snapshot(SMALL)
  {
    assert INDEX != STAMP && INDEX != STAMP + PART by {
      IndexIsSafe();
      NotTheStamp(INDEX);
    }
  }

  /** A refresh that fills an empty stage with the small download and has cleared the old backup. */
  function Clearing(w: World): (trace: seq<State>)
    ensures |trace| == 8
  {
    var empty := w.(stage := None);
    var full := w.(stage := Some(Snapshot(SMALL)), complete := w.complete + {Snapshot(SMALL)});
    [State(Idle, w),
     State(ClearStage, w),
     State(ClearStage, empty),
     State(Loading(SMALL, 0), w.(stage := Some(map[]))),
     State(Loading(SMALL, 1), w.(stage := Some(Loaded(SMALL, 1)))),
     State(Stamping(SMALL), w.(stage := Some(Loaded(SMALL, 1)))),
     State(ClearBackup, full),
     State(ClearBackup, full.(backup := None))]
  }

  /** Steps of the program only, and no refresh is over before the last of them. */
  ghost predicate OneRefresh(trace: seq<State>) {
    && trace != []
    && (forall i :: 0 <= i < |trace| - 1 ==> CanStep(trace[i], trace[i + 1]))
    && (forall i :: 0 < i < |trace| - 1 ==> !trace[i].pc.Idle?)
  }

  lemma ClearingIsRefresh(w: World)
    ensures OneRefresh(Clearing(w))
  {
    IndexIsSafe();
    SmallTree();
    assert Shrinks(w.stage, None) && Shrinks(w.backup, None);
    hide Loaded, Snapshot, SafeRelative, Writing, Shrinks;
    var t := Clearing(w);
    assert CanStep(t[0], t[1]);
    assert CanStep(t[1], t[2]);
    assert CanStep(t[2], t[3]);
    assert CanStep(t[3], t[4]);
    assert CanStep(t[4], t[5]);
    assert CanStep(t[5], t[6]);
    assert CanStep(t[6], t[7]);
  }

  ghost predicate HasCopy(w: World) {
    IsComplete(w.live, w) || IsComplete(w.backup, w)
  }

  /** However far a refresh that starts in `s` has come, a finished download is live or in the backup. */
  ghost predicate KeepsACopy(s: State) {
    forall trace: seq<State> :: OneRefresh(trace) && trace[0] == s ==> HasCopy(trace[|trace| - 1].w)
  }

  /**
   Which starts are safe: every crash point of every refresh keeps a finished download
   in the live directory or the backup exactly when the live directory is one. A
   backup alone does not do, since the refresh removes it before its own is in place.
   */
  lemma CopyIsKeptExactlyWhenLive(s: State)
    requires s.pc.Idle? && Inv(s)
    ensures KeepsACopy(s) <==> IsComplete(s.w.live, s.w)
  {
    if IsComplete(s.w.live, s.w) {
      forall trace: seq<State> | OneRefresh(trace) && trace[0] == s ensures HasCopy(trace[|trace| - 1].w) {
        OneRefreshKeepsACopy(trace, |trace| - 1);
      }
    } else {
      ClearingIsRefresh(s.w);
      assert !HasCopy(Clearing(s.w)[7].w);
    }
  }

  // --- over two refreshes -------------------------------------------------------------------

  lemma PathsJoin(a: seq<State>, b: seq<State>)
    requires Path(a) && Path(b) && a != [] && b != [] && (CanStep(a[|a| - 1], b[0]) || Crashes(a[|a| - 1], b[0]))
    ensures Path(a + b)
  {
    hide CanStep, Crashes;
    var t := a + b;
    forall i | 0 <= i < |t| - 1 ensures CanStep(t[i], t[i + 1]) || Crashes(t[i], t[i + 1]) {
      if i >= |a| { assert t[i] == b[i - |a|] && t[i + 1] == b[i - |a| + 1]; }
      if i == |a| - 1 { assert t[i + 1] == b[0]; }
    }
  }

  /** Where a crash between the two renames leaves the directories. */
  function Between(w: World): World {
    World(None, Some(Snapshot(SMALL)), w.live, w.complete + {Snapshot(SMALL)})
  }

  lemma CrashBetweenRenames(w: World)
    requires w.live.Some?
    ensures var full := Between(w).(live := w.live, backup := None);
            Path(Clearing(w) + [State(SetAside, full), State(Activate(true), Between(w))])
  {
    ClearingIsRefresh(w);
    hide Snapshot, Loaded, Writing, Shrinks, SafeRelative;
    var full := Between(w).(live := w.live, backup := None);
    var tail := [State(SetAside, full), State(Activate(true), Between(w))];
    assert CanStep(tail[0], tail[1]);
    assert CanStep(Clearing(w)[7], tail[0]);
    PathsJoin(Clearing(w), tail);
  }

  /**
   The guarantee never extends to a second refresh: from every finished download, after
   a crash between the two renames the next refresh can remove the only copy.
   */
  lemma SecondRefreshMayLoseBoth(s: State)
    requires s.pc.Idle? && Inv(s) && IsComplete(s.w.live, s.w)
    ensures exists trace :: LosesBoth(trace, s)
  {
    var full := Between(s.w).(live := s.w.live, backup := None);
    var a := Clearing(s.w) + [State(SetAside, full), State(Activate(true), Between(s.w))];
    var b := Clearing(Between(s.w));
    CrashBetweenRenames(s.w);
    ClearingIsRefresh(Between(s.w));
    assert Crashes(a[|a| - 1], b[0]);
    PathsJoin(a, b);
    assert b[7].w.live.None? && b[7].w.backup.None?;
    hide Path;
    assert (a + b)[|a + b| - 1] == b[7];
    assert LosesBoth(a + b, s);
  }

  /** From `s` to a state with no finished download in the live directory or the backup. */
  ghost predicate LosesBoth(trace: seq<State>, s: State) {
    && Path(trace) && trace[0] == s && !HasCopy(trace[|trace| - 1].w)
  }
}
