/**
 The refresh as it is carried out on a disk where any operation may fail. Every state
 the disk is in on the way is noted, and each is a step of WebrootRefresh.
 */
module WebrootFiles {
  import opened Wrappers
  import opened WebrootPaths
  import opened WebrootRefresh

  const MAX_TOTAL: nat := 96 * 1024 * 1024

  ghost predicate Steps(trace: seq<State>) {
    trace != [] && forall i :: 0 <= i < |trace| - 1 ==> CanStep(trace[i], trace[i + 1])
  }

  /** The trace goes on, without coming to rest in between. */
  ghost predicate Extends(before: seq<State>, after: seq<State>) {
    && before <= after && forall i :: |before| <= i < |after| - 1 ==> !after[i].pc.Idle?
  }

  lemma OneMore(trace: seq<State>, s: State)
    requires Steps(trace) && CanStep(trace[|trace| - 1], s)
    ensures Steps(trace + [s])
  {
    hide CanStep;
  }

  /** What the rest of the program and the disk decide. */
  method Decide() returns (yes: bool)
  {
    var any: bool :| true;
    yes := any;
  }

  class Disk {
    var w: World
    ghost var trace: seq<State>

    ghost predicate Valid()
      reads this
    {
      Steps(trace) && trace[|trace| - 1].w == w
    }

    ghost function At(): Pc
      requires Valid()
      reads this
    {
      trace[|trace| - 1].pc
    }

    constructor (w: World)
      ensures Valid() && this.w == w && trace == [State(Idle, w)]
    {
      this.w, trace := w, [State(Idle, w)];
    }

    /** One operation: the directories change and the refresh moves on. */
    method Do(ghost pc: Pc, next: World)
      requires Valid() && CanStep(State(At(), w), State(pc, next))
      modifies this
      ensures Valid() && At() == pc && w == next && trace == old(trace) + [State(pc, next)]
    {
      OneMore(trace, State(pc, next));
      w := next;
      trace := trace + [State(pc, next)];
    }

    /** remove_all on the stage: file by file, and possibly not to the end. */
    method RemoveStage() returns (gone: bool)
      requires Valid() && (At().ClearStage? || At().DropStage?)
      modifies this
      ensures Valid() && At() == old(At()) && w == old(w).(stage := w.stage) && (gone ==> w.stage.None?)
      ensures old(trace) <= trace && forall i :: |old(trace)| <= i < |trace| ==> trace[i].pc == old(At())
    {
      ghost var pc := At();
      gone := w.stage.None?;
      while w.stage.Some?
        invariant Valid() && At() == pc && w == old(w).(stage := w.stage) && gone == w.stage.None?
        invariant old(trace) <= trace && forall i :: |old(trace)| <= i < |trace| ==> trace[i].pc == pc
        decreases if w.stage.Some? then 1 + |w.stage.value| else 0
      {
        var fails := Decide();
        if fails { return false; }
        if w.stage.value == map[] {
          Do(pc, w.(stage := None));
        } else {
          var p :| p in w.stage.value;
          Smaller(w.stage.value, p);
          Do(pc, w.(stage := Some(w.stage.value - {p})));
        }
        gone := w.stage.None?;
      }
    }

    /** remove_all on the backup. */
    method RemoveBackup() returns (gone: bool)
      requires Valid() && (At().ClearBackup? || At().DropBackup?)
      modifies this
      ensures Valid() && At() == old(At()) && w == old(w).(backup := w.backup) && (gone ==> w.backup.None?)
      ensures old(trace) <= trace && forall i :: |old(trace)| <= i < |trace| ==> trace[i].pc == old(At())
    {
      ghost var pc := At();
      gone := w.backup.None?;
      while w.backup.Some?
        invariant Valid() && At() == pc && w == old(w).(backup := w.backup) && gone == w.backup.None?
        invariant old(trace) <= trace && forall i :: |old(trace)| <= i < |trace| ==> trace[i].pc == pc
        decreases if w.backup.Some? then 1 + |w.backup.value| else 0
      {
        var fails := Decide();
        if fails { return false; }
        if w.backup.value == map[] {
          Do(pc, w.(backup := None));
        } else {
          var p :| p in w.backup.value;
          Smaller(w.backup.value, p);
          Do(pc, w.(backup := Some(w.backup.value - {p})));
        }
        gone := w.backup.None?;
      }
    }

    /** One change to a file of the stage while file `n` (or the stamp) is written. */
    method Touch(ghost base: Tree, t: Tree, ghost path: string, ghost body: string)
      requires Valid() && w.stage.Some? && Writing(base, t, path, body) && IsTurn(At(), base, path, body)
      modifies this
      ensures Valid() && At() == old(At()) && w == old(w).(stage := Some(t))
      ensures trace == old(trace) + [State(At(), w)]
    {
      hide Loaded;
      hide CanStep, IsTurn, Writing;
      TouchSteps(State(At(), w), base, t, path, body);
      Do(At(), w.(stage := Some(t)));
    }

    /** The temporary file is written, as far as it goes. */
    method WritePart(path: string, body: string) returns (ok: bool)
      requires Valid() && w.stage.Some? && IsTurn(At(), w.stage.value, path, body)
      modifies this
      ensures Valid() && At() == old(At()) && w == old(w).(stage := w.stage) && w.stage.Some?
      ensures ok ==> w.stage.value == (old(w).stage.value - {path + PART})[path + PART := body]
      ensures |trace| > |old(trace)| && old(trace) <= trace
      ensures forall i :: |old(trace)| <= i < |trace| ==> trace[i].pc == old(At())
    {
      hide Writing, Written, CanStep, IsTurn, Steps;
      ghost var base := w.stage.value;
      var part := path + PART;
      var t0 := w.stage.value - {part};
      WritingForms(base, path, body);
      Touch(base, t0, path, body);
      var canOpen := Decide();
      if !canOpen { return false; }
      var n: nat :| n <= |body|;
      PartForms(base, path, body, n);
      var t1 := t0[part := body[..n]];
      Touch(base, t1, path, body);
      if n < |body| {
        Touch(base, t1 - {part}, path, body);
        return false;
      }
      assert body[..n] == body;
      ok := true;
    }

    /**
     Written beside the target, then renamed over it. A failure leaves what Writing
     allows; success moves the refresh on.
     */
    method WriteFile(path: string, body: string, ghost next: Pc, complete: set<Tree>) returns (ok: bool)
      requires Valid() && w.stage.Some? && IsTurn(At(), w.stage.value, path, body)
      requires forall t :: CanStep(State(At(), w.(stage := Some(t))),
                                   State(next, World(w.live, Some(Written(w.stage.value, path, body)), w.backup,
                                                     complete)))
      modifies this
      ensures Valid() && w.live == old(w).live && w.backup == old(w).backup && w.stage.Some?
      ensures ok ==> At() == next && w.complete == complete && w.stage.value == Written(old(w).stage.value, path, body)
      ensures !ok ==> At() == old(At()) && w.complete == old(w).complete
      ensures old(trace) <= trace && forall i :: |old(trace)| <= i < |trace| - 1 ==> trace[i].pc == old(At())
    {
      hide Writing, Written, CanStep, IsTurn, Steps;
      ghost var base := w.stage.value;
      var part := path + PART;
      WritingForms(base, path, body);
      ok := WritePart(path, body);
      if !ok { return; }
      var t2 := w.stage.value - {path};
      Touch(base, t2, path, body);
      var renamed := Decide();
      if !renamed {
        Touch(base, t2 - {part}, path, body);
        return false;
      }
      Do(next, World(w.live, Some((t2 - {part})[path := body]), w.backup, complete));
      ok := true;
    }

    /** Gives up on the download: what is in the stage goes. */
    method GiveUp()
      requires Valid() && (At().Loading? ==> At().n <= |At().d.files| == |At().d.bodies|)
      requires At().Stamping? ==> |At().d.files| == |At().d.bodies|
      requires At().Loading? || At().Stamping? || At().ClearBackup? || (At().SetAside? && w.live.Some?)
               || At() == Activate(false) || At().Restore?
      modifies this
      ensures Valid() && At().DropStage? && w == old(w) && trace == old(trace) + [State(DropStage, w)]
    {
      Do(DropStage, w);
    }

    /** One file of the listing, fetched and put in its place. */
    method LoadFile(d: Download, n: nat, answer: Option<string>, total: nat) returns (ok: bool)
      requires Valid() && At() == Loading(d, n) && n < |d.files| == |d.bodies| && w.stage == Some(Loaded(d, n))
      requires answer.Some? ==> d.bodies[n] == answer.value
      modifies this
      ensures Valid() && w.live == old(w).live && w.backup == old(w).backup && w.complete == old(w).complete
      ensures ok ==> At() == Loading(d, n + 1) && w.stage == Some(Loaded(d, n + 1))
                     && SafeRelative(d.files[n]) && answer.Some?
      ensures !ok ==> At().DropStage?
      ensures Extends(old(trace), trace) && |trace| > |old(trace)|
    {
      hide Writing, Written, SafeRelative, CanStep, Steps, Loaded;
      var safe := IsSafeRelative(d.files[n]);
      var parents := Decide();
      if !safe || answer.None? || total > MAX_TOTAL || !parents {
        GiveUp();
        return false;
      }
      MayWrite(w, d, n);
      ok := WriteFile(d.files[n], answer.value, Loading(d, n + 1), w.complete);
      if !ok { GiveUp(); }
    }

    /** Fetches every file into the stage, and writes the stamp when all are there. */
    method Download(files: seq<string>, answers: seq<Option<string>>, stamp: string) returns (ok: bool)
      requires Valid() && At().ClearStage? && w.stage.None? && |answers| == |files|
      modifies this
      ensures Valid() && w.live == old(w).live && w.backup == old(w).backup
      ensures ok ==> var d := Requested(files, answers, stamp);
                     && At().ClearBackup? && w.stage == Some(Snapshot(d))
                     && w.complete == old(w).complete + {Snapshot(d)}
                     && AllSafe(files) && INDEX in Snapshot(d) && None !in answers
      ensures !ok ==> At().DropStage? && w.complete == old(w).complete
      ensures Extends(old(trace), trace) && |trace| > |old(trace)|
    {
      hide Writing, Written, SafeRelative, CanStep, Steps;
      var d := Requested(files, answers, stamp);
      var made := Decide();
      MayLoad(w, d);
      if !made {
        Do(Loading(d, 0), w);
        GiveUp();
        return false;
      }
      Do(Loading(d, 0), w.(stage := Some(map[])));
      ok := LoadAll(d, answers);
      if ok { ok := Finish(d); }
    }

    method LoadAll(d: Download, answers: seq<Option<string>>) returns (ok: bool)
      requires Valid() && |d.files| == |d.bodies| == |answers| && At() == Loading(d, 0) && w.stage == Some(map[])
      requires forall i :: 0 <= i < |answers| && answers[i].Some? ==> d.bodies[i] == answers[i].value
      modifies this
      ensures Valid() && w.live == old(w).live && w.backup == old(w).backup && w.complete == old(w).complete
      ensures ok ==> At() == Loading(d, |d.files|) && w.stage == Some(Loaded(d, |d.files|))
                     && AllSafe(d.files) && None !in answers
      ensures !ok ==> At().DropStage?
      ensures Extends(old(trace), trace)
    {
      hide Writing, Written, SafeRelative, CanStep, Steps;
      var n: nat, total: nat := 0, 0;
      ok := true;
      while n < |d.files|
        invariant Valid() && n <= |d.files| && At() == Loading(d, n) && w.stage == Some(Loaded(d, n))
        invariant w.live == old(w).live && w.backup == old(w).backup && w.complete == old(w).complete && ok
        invariant forall i :: 0 <= i < n ==> SafeRelative(d.files[i]) && answers[i].Some?
        invariant Extends(old(trace), trace)
      {
        if answers[n].Some? { total := total + |answers[n].value|; }
        ok := LoadFile(d, n, answers[n], total);
        if !ok { return; }
        n := n + 1;
      }
    }

    /** With every file in place and a start page among them, the stamp. */
    method Finish(d: Download) returns (ok: bool)
      requires Valid() && |d.files| == |d.bodies| && At() == Loading(d, |d.files|)
      requires w.stage == Some(Loaded(d, |d.files|))
      modifies this
      ensures Valid() && w.live == old(w).live && w.backup == old(w).backup
      ensures ok ==> At().ClearBackup? && w.stage == Some(Snapshot(d)) && INDEX in Snapshot(d)
                     && w.complete == old(w).complete + {Snapshot(d)}
      ensures !ok ==> At().DropStage? && w.complete == old(w).complete
      ensures Extends(old(trace), trace)
    {
      hide Writing, Written, SafeRelative, CanStep, Steps;
      if INDEX !in w.stage.value {
        GiveUp();
        return false;
      }
      MayStamp(w, d);
      Do(Stamping(d), w);
      ok := WriteFile(STAMP, d.stamp, ClearBackup, w.complete + {Snapshot(d)});
      if !ok { GiveUp(); }
    }

    // --- the swap ------------------------------------------------------------------

    /** What is left of a refresh that failed is cleared away, as far as the disk lets it. */
    method Abandon()
      requires Valid() && At().DropStage?
      modifies this
      ensures Valid() && At().Idle? && w == old(w).(stage := w.stage) && Extends(old(trace), trace)
    {
      var gone := RemoveStage();
      Do(Idle, w);
    }

    /**
     A refresh. When it succeeds the live directory is the new download; when it fails
     it is what it was, or absent with what it was in the backup.
     */
    method Refresh(ours: bool, files: seq<string>, answers: seq<Option<string>>, stamp: string) returns (ok: bool)
      requires Valid() && At().Idle? && |answers| == |files|
      modifies this
      ensures Valid() && At().Idle? && Extends(old(trace), trace)
      ensures ok ==> var d := Requested(files, answers, stamp);
                     && w.live == Some(Snapshot(d)) && w.stage.None? && AllSafe(files) && None !in answers
      ensures !ok ==> w.live == old(w).live || (w.live.None? && w.backup == old(w).live)
    {
      hide Steps, Snapshot, Writing;
      if !ours { return false; }
      Do(ClearStage, w);
      var gone := RemoveStage();
      if !gone {
        Do(Idle, w);
        return false;
      }
      ok := Download(files, answers, stamp);
      if !ok {
        Abandon();
        return;
      }
      gone := RemoveBackup();
      if !gone {
        GiveUp();
        Abandon();
        return false;
      }
      Do(SetAside, w);
      ok := Swap();
    }

    /** Two renames; when the second fails the first is undone if the disk lets it. */
    method Swap() returns (ok: bool)
      requires Valid() && At().SetAside? && w.stage.Some? && w.backup.None?
      modifies this
      ensures Valid() && At().Idle? && Extends(old(trace), trace)
      ensures ok ==> w.live == old(w).stage && w.stage.None?
      ensures !ok ==> w.live == old(w).live || (w.live.None? && w.backup == old(w).live)
    {
      hide Steps;
      var hadOld := w.live.Some?;
      if hadOld {
        var moved := Decide();
        if !moved {
          GiveUp();
          Abandon();
          return false;
        }
        Do(Activate(true), w.(live := None, backup := w.live));
      } else {
        Do(Activate(false), w);
      }
      var activated := Decide();
      if !activated {
        if hadOld {
          Do(Restore, w);
          var restored := Decide();
          if restored { Do(DropStage, w.(live := w.backup, backup := None)); } else { GiveUp(); }
        } else {
          GiveUp();
        }
        Abandon();
        return false;
      }
      Do(DropBackup, w.(live := w.stage, stage := None));
      var gone := RemoveBackup();
      Do(Idle, w);
      ok := true;
    }
  }

  /** The download these answers make; a file that could not be fetched stops it before its body matters. */
  function Requested(files: seq<string>, answers: seq<Option<string>>, stamp: string): (d: Download)
    requires |answers| == |files|
    ensures d.files == files && d.stamp == stamp && |d.bodies| == |files|
    ensures forall i :: 0 <= i < |files| && answers[i].Some? ==> d.bodies[i] == answers[i].value
  {
    Download(files, seq(|answers|, i requires 0 <= i < |answers| =>
                                     if answers[i].Some? then answers[i].value else ""), stamp)
  }

  lemma MayLoad(w: World, d: Download)
    requires w.stage.None? && |d.files| == |d.bodies|
    ensures CanStep(State(ClearStage, w), State(Loading(d, 0), w))
    ensures CanStep(State(ClearStage, w), State(Loading(d, 0), w.(stage := Some(map[]))))
  {
  }

  lemma MayWrite(w: World, d: Download, n: nat)
    requires n < |d.files| == |d.bodies| && SafeRelative(d.files[n]) && w.stage == Some(Loaded(d, n))
    ensures IsTurn(Loading(d, n), Loaded(d, n), d.files[n], d.bodies[n])
    ensures Written(w.stage.value, d.files[n], d.bodies[n]) == Loaded(d, n + 1)
    ensures forall t :: CanStep(State(Loading(d, n), w.(stage := Some(t))),
                                State(Loading(d, n + 1), World(w.live, Some(Loaded(d, n + 1)), w.backup, w.complete)))
  {
    hide Writing, SafeRelative;
  }

  lemma MayStamp(w: World, d: Download)
    requires |d.files| == |d.bodies| && w.stage == Some(Loaded(d, |d.files|)) && INDEX in w.stage.value
    ensures CanStep(State(Loading(d, |d.files|), w), State(Stamping(d), w))
    ensures IsTurn(Stamping(d), Loaded(d, |d.files|), STAMP, d.stamp)
    ensures Written(w.stage.value, STAMP, d.stamp) == Snapshot(d) && INDEX in Snapshot(d)
    ensures forall t :: CanStep(State(Stamping(d), w.(stage := Some(t))),
                                State(ClearBackup, World(w.live, Some(Snapshot(d)), w.backup,
                                                         w.complete + {Snapshot(d)})))
  {
    hide Writing, Loaded;
    IndexIsSafe();
    NotTheStamp(INDEX);
  }

  lemma TouchSteps(s: State, base: Tree, t: Tree, path: string, body: string)
    requires s.w.stage.Some? && Writing(base, t, path, body) && IsTurn(s.pc, base, path, body)
    ensures CanStep(s, State(s.pc, s.w.(stage := Some(t))))
  {
    hide Writing, Loaded;
  }

  lemma WritingForms(base: Tree, path: string, body: string)
    ensures var part := path + PART;
            && Writing(base, base - {part}, path, body)
            && (base - {part})[part := body] - {path} == (base - {path})[part := body]
            && Writing(base, (base - {part})[part := body] - {path}, path, body)
            && Writing(base, (base - {part})[part := body] - {path} - {part}, path, body)
            && ((base - {part})[part := body] - {path} - {part})[path := body] == Written(base, path, body)
  {
    var part := path + PART;
    assert part != path by { assert |part| == |path| + 5; }
    assert (base - {part})[part := body] - {path} == (base - {path})[part := body];
    assert (base - {part})[part := body] - {path} - {part} == base - {path} - {part};
    assert ((base - {part})[part := body] - {path} - {part})[path := body] == Written(base, path, body);
  }

  lemma PartForms(base: Tree, path: string, body: string, n: nat)
    requires n <= |body|
    ensures var part := path + PART;
            && Writing(base, (base - {part})[part := body[..n]], path, body)
            && Writing(base, (base - {part})[part := body[..n]] - {part}, path, body)
  {
    var part := path + PART;
    assert (base - {part})[part := body[..n]] == base[part := body[..n]];
    assert (base - {part})[part := body[..n]] - {part} == base - {part};
  }

  /** The file whose turn it is: number `n` of the listing, or the stamp. */
  ghost predicate IsTurn(pc: Pc, base: Tree, path: string, body: string) {
    match pc
    case Loading(d, n) =>
      n < |d.files| == |d.bodies| && SafeRelative(d.files[n]) && base == Loaded(d, n)
      && path == d.files[n] && body == d.bodies[n]
    case Stamping(d) =>
      |d.files| == |d.bodies| && base == Loaded(d, |d.files|) && path == STAMP && body == d.stamp
    case _ => false
  }

  lemma Smaller(t: Tree, p: string)
    requires p in t
    ensures |t - {p}| < |t|
  {
    assert t.Keys == (t - {p}).Keys + {p};
  }

  /**
   What the noted states say: stopped at any of them, a refresh that found a finished
   download live leaves one in the live directory or the backup, and the live
   directory is never anything else.
   */
  lemma EveryPointIsSafe(trace: seq<State>, from: nat, i: nat)
    requires Steps(trace) && from <= i < |trace|
    requires trace[from].pc.Idle? && Inv(trace[from]) && IsComplete(trace[from].w.live, trace[from].w)
    requires forall j :: from < j < |trace| - 1 ==> !trace[j].pc.Idle?
    ensures var w := trace[i].w;
            && (IsComplete(w.live, w) || IsComplete(w.backup, w))
            && (w.live.Some? ==> w.live.value in w.complete)
  {
    hide CanStep, Inv, IsComplete;
    var rest := trace[from..];
    assert forall j :: 0 <= j < |rest| ==> rest[j] == trace[from + j];
    assert Path(rest);
    OneRefreshKeepsACopy(rest, i - from);
    LiveIsNeverMixed(rest, i - from);
  }
}
