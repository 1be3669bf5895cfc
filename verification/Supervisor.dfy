/**
 The ffmpeg supervisor: a fixed table of entries, each owning at most one pipeline
 (a main process, a feeder piped into it, the read end of its stderr). Processes and
 descriptors are those of an operating system that may refuse any request.
 */
module Supervisor {
  import opened Wrappers
  import opened RestartPolicy

  const MAX_STREAMS: nat := 64

  type Fd = nat
  type Pid = nat

  // --- the operating system --------------------------------------------------------

  /** What the supervisor has open, and its children that have not been waited for. */
  class Os {
    var fds: set<Fd>
    var children: set<Pid>
    var killed: set<Pid>

    constructor ()
      ensures fds == {} && children == {} && killed == {}
    {
      fds, children, killed := {}, {}, {};
    }

    /** Both ends of a new pipe, or neither. */
    method OpenPipe() returns (ends: Option<(Fd, Fd)>)
      modifies this`fds
      ensures ends.None? ==> fds == old(fds)
      ensures ends.Some? ==>
                && ends.value.0 != ends.value.1 && ends.value.0 !in old(fds) && ends.value.1 !in old(fds)
                && fds == old(fds) + {ends.value.0, ends.value.1}
    {
      var refused: bool :| true;
      if refused { return None; }
      var r := Unused(fds);
      var w := Unused(fds + {r});
      fds := fds + {r, w};
      return Some((r, w));
    }

    method Close(fd: Option<Fd>)
      modifies this`fds
      ensures fds == old(fds) - Just(fd)
    {
      if fd.Some? { fds := fds - {fd.value}; }
    }

    /** A new child, or none. */
    method Spawn() returns (pid: Option<Pid>)
      modifies this`children, this`killed
      ensures pid.None? ==> children == old(children) && killed == old(killed)
      ensures pid.Some? ==> pid.value !in old(children) && children == old(children) + {pid.value}
                            && killed == old(killed) - {pid.value}
    {
      var refused: bool :| true;
      if refused { return None; }
      var next := Unused(children);
      children := children + {next};
      killed := killed - {next};
      return Some(next);
    }

    /** Some(failed) when the child has ended; it is then no longer ours. */
    method TryWait(pid: Pid) returns (exit: Option<bool>)
      requires pid in children
      modifies this`children
      ensures children == if exit.Some? then old(children) - {pid} else old(children)
    {
      var any: Option<bool> :| true;
      exit := any;
      if exit.Some? { children := children - {pid}; }
    }

    method Kill(pid: Pid)
      requires pid in children
      modifies this`killed
      ensures killed == old(killed) + {pid}
    {
      killed := killed + {pid};
    }

    /** Blocks until the child ends, which a killed one does. */
    method Wait(pid: Pid)
      requires pid in children && pid in killed
      modifies this`children
      ensures children == old(children) - {pid}
    {
      children := children - {pid};
    }
  }

  function Just<T(!new)>(o: Option<T>): (s: set<T>)
    ensures forall x :: x in s <==> o == Some(x)
  {
    if o.Some? then {o.value} else {}
  }

  method Unused(s: set<nat>) returns (n: nat)
    ensures n !in s
  {
    n := 0;
    ghost var rest := s;
    while n in s
      invariant rest <= s && forall x :: x in s ==> x < n || x in rest
      decreases |rest|
    {
      rest := rest - {n};
      n := n + 1;
    }
  }

  // --- one entry ---------------------------------------------------------------------

  datatype Entry = Entry(
    used: bool,
    streamId: string,
    argv: seq<string>,
    feederArgv: seq<string>,
    policy: Policy,
    proc: Option<Pid>,
    feeder: Option<Pid>,
    stderr: Option<Fd>,
    control: Control)

  const NO_POLICY := Policy(false, false, false, 0, 0)
  const DEFAULT_POLICY := Policy(false, true, false, 1, 0)
  const NEW_CONTROL := Control(false, 0, 0.0, 0.0, 0.0, 0)
  const EMPTY := Entry(false, "", [], [], NO_POLICY, None, None, None, NEW_CONTROL)

  function Pids(e: Entry): set<Pid> { Just(e.proc) + Just(e.feeder) }

  function Fds(e: Entry): set<Fd> { Just(e.stderr) }

  /** A pipeline is whole: stderr is read exactly while ffmpeg lives, and no feeder outlives it. */
  predicate Whole(e: Entry) {
    && (e.proc.Some? <==> e.stderr.Some?)
    && (e.feeder.Some? ==> e.proc.Some? && e.feeder != e.proc && e.feederArgv != [])
    && (!e.used ==> e.proc.None?)
  }

  /** Every exit of the spawn: a whole pipeline, or nothing gained and nothing lost. */
  method SpawnPipeline(os: Os, e: Entry, now: real) returns (ok: bool, e': Entry)
    requires Whole(e) && e.used && e.proc.None?
    modifies os
    ensures !ok ==> e' == e && os.fds == old(os.fds) && os.children == old(os.children)
    ensures ok ==>
              && Whole(e') && e'.proc.Some? && (e'.feeder.Some? <==> e.feederArgv != [])
              && Pids(e') !! old(os.children) && os.children == old(os.children) + Pids(e')
              && Fds(e') !! old(os.fds) && os.fds == old(os.fds) + Fds(e')
              && e' == e.(proc := e'.proc, feeder := e'.feeder, stderr := e'.stderr,
                          control := e.control.(startedAt := now, lastProgress := now))
  {
    ok, e' := false, e;
    var errPipe := os.OpenPipe();
    if errPipe.None? { return; }
    var errRead, errWrite := Some(errPipe.value.0), Some(errPipe.value.1);
    var feedRead: Option<Fd>, feedWrite: Option<Fd> := None, None;
    if e.feederArgv != [] {
      var feedPipe := os.OpenPipe();
      if feedPipe.None? {
        os.Close(errRead);
        os.Close(errWrite);
        return;
      }
      feedRead, feedWrite := Some(feedPipe.value.0), Some(feedPipe.value.1);
    }
    var feeder: Option<Pid> := None;
    var noEnvironment: bool :| true;
    if !noEnvironment && e.feederArgv != [] { feeder := os.Spawn(); }
    if noEnvironment || (e.feederArgv != [] && feeder.None?) {
      os.Close(errRead);
      os.Close(errWrite);
      os.Close(feedRead);
      os.Close(feedWrite);
      return;
    }
    var proc := os.Spawn();
    os.Close(errWrite);
    os.Close(feedRead);
    os.Close(feedWrite);
    if proc.None? {
      os.Close(errRead);
      if feeder.Some? {
        os.Kill(feeder.value);
        os.Wait(feeder.value);
      }
      return;
    }
    ok := true;
    e' := e.(proc := proc, feeder := feeder, stderr := errRead,
             control := e.control.(startedAt := now, lastProgress := now));
  }

  /** Ends whatever of the pipeline is left. */
  method KillPipeline(os: Os, e: Entry) returns (e': Entry)
    requires Pids(e) <= os.children && (e.feeder.Some? ==> e.feeder != e.proc)
    modifies os
    ensures e' == e.(proc := None, feeder := None, stderr := None)
    ensures os.children == old(os.children) - Pids(e) && os.fds == old(os.fds) - Fds(e)
  {
    e' := e;
    if e.proc.Some? {
      // Asked to stop, it has a moment to do so.
      var exit := os.TryWait(e.proc.value);
      if exit.None? {
        os.Kill(e.proc.value);
        os.Wait(e.proc.value);
      }
      e' := e'.(proc := None);
    }
    if e.feeder.Some? {
      var exit := os.TryWait(e.feeder.value);
      if exit.None? {
        os.Kill(e.feeder.value);
        os.Wait(e.feeder.value);
      }
      e' := e'.(feeder := None);
    }
    os.Close(e.stderr);
    e' := e'.(stderr := None);
  }

  method Release(os: Os, e: Entry) returns (e': Entry)
    requires Pids(e) <= os.children && (e.feeder.Some? ==> e.feeder != e.proc)
    modifies os
    ensures e' == EMPTY
    ensures os.children == old(os.children) - Pids(e) && os.fds == old(os.fds) - Fds(e)
  {
    var dead := KillPipeline(os, e);
    e' := EMPTY;
  }

  method RetryPipeline(e: Entry, now: real, error: bool) returns (e': Entry)
    ensures e' == e.(control := Retry(e.control, e.policy, now, error))
  {
    if (error && e.policy.noRestartError) || (!error && !e.policy.restartFinished) {
      return e.(control := e.control.(halted := true));
    }
    var failures := if error then e.control.failures + 1 else 0;
    var wait := ComputeWait(e.policy, error, failures);
    e' := e.(control := e.control.(failures := failures, retryAt := now + wait as real));
  }

  method DrainStderr(e: Entry) returns (progressed: bool)
    ensures progressed ==> e.stderr.Some?
  {
    var any: bool :| true;
    progressed := any && e.stderr.Some?;
  }

  /** What became of an entry's processes and descriptors: its old ones are gone, its new ones are its own. */
  ghost predicate Exchanged(e: Entry, e': Entry, fds: set<Fd>, fds': set<Fd>, children: set<Pid>, children': set<Pid>) {
    && Pids(e') !! children - Pids(e) && children' == children - Pids(e) + Pids(e')
    && Fds(e') !! fds - Fds(e) && fds' == fds - Fds(e) + Fds(e')
  }

  predicate SameConfig(e: Entry, e': Entry) {
    e'.used == e.used && e'.streamId == e.streamId && e'.argv == e.argv && e'.feederArgv == e.feederArgv
    && e'.policy == e.policy
  }

  /** Looks at the processes of a pipeline: what is left of it, and whether it is over. */
  method CheckPipeline(os: Os, e: Entry, now: real) returns (e': Entry, over: bool, error: bool, ghost o: Observed)
    requires Whole(e) && Pids(e) <= os.children
    modifies os`children
    ensures SameConfig(e, e') && e'.stderr == e.stderr && (e'.feeder.Some? ==> e'.feeder == e.feeder)
    ensures e'.proc.Some? ==> e'.proc == e.proc
    ensures Pids(e') <= Pids(e) && os.children == old(os.children) - (Pids(e) - Pids(e'))
    ensures var running := e.proc.Some?;
            var seen := if running && o.progressed then e.control.(lastProgress := now) else e.control;
            var exited := o.feederExit != Some(true) && running && o.exit.Some?;
            && Verdict(seen, e.policy, running, now, o) == (if over then Some(error) else None)
            && e'.control == if exited && o.progressedAtExit then seen.(lastProgress := now) else seen
    ensures !over ==> e'.proc == e.proc
  {
    var progressed := DrainStderr(e);
    var control := if progressed then e.control.(lastProgress := now) else e.control;
    e' := e.(control := control);
    over, error := false, false;
    o := Observed(progressed, None, None, false, false);
    if e.feeder.Some? {
      var exit := os.TryWait(e.feeder.value);
      o := o.(feederExit := exit);
      if exit.Some? {
        e' := e'.(feeder := None);
        if exit.value { over, error := true, true; }
      }
    }
    if !over && e.proc.Some? {
      var exit := os.TryWait(e.proc.value);
      o := o.(exit := exit);
      if exit.Some? {
        var late := DrainStderr(e);
        o := o.(progressedAtExit := late);
        if late { control := control.(lastProgress := now); }
        e' := e'.(proc := None, control := control);
        over, error := true, exit.value;
      } else if e.policy.stalledSeconds > 0 && now - control.lastProgress >= e.policy.stalledSeconds as real {
        over, error := true, true;
      }
    }
  }

  lemma ExchangedTwice(e: Entry, e1: Entry, e2: Entry, fds: set<Fd>, fds1: set<Fd>, fds2: set<Fd>,
                       children: set<Pid>, children1: set<Pid>, children2: set<Pid>)
    requires Exchanged(e, e1, fds, fds1, children, children1) && Exchanged(e1, e2, fds1, fds2, children1, children2)
    ensures Exchanged(e, e2, fds, fds2, children, children2)
  {
    hide Pids, Fds;
    assert children1 - Pids(e1) == children - Pids(e);
    assert fds1 - Fds(e1) == fds - Fds(e);
  }

  /** The first part of a poll: a pipeline that is over is cleared away and its restart scheduled. */
  method EndIfOver(os: Os, e: Entry, now: real) returns (e': Entry, ghost o: Observed)
    requires Whole(e) && e.used && !e.control.halted && Pids(e) <= os.children && Fds(e) <= os.fds
    modifies os
    ensures Whole(e') && SameConfig(e, e')
    ensures Exchanged(e, e', old(os.fds), os.fds, old(os.children), os.children)
    ensures var q := Seen(e.control, e.policy, e.proc.Some?, now, o);
            e'.control == q.control && e'.proc.Some? == q.running
  {
    hide Ended, Verdict, Retry;
    var over, error;
    e', over, error, o := CheckPipeline(os, e, now);
    if over {
      e' := EndPipeline(os, e', now, error);
    }
  }

  method EndPipeline(os: Os, e: Entry, now: real, error: bool) returns (e': Entry)
    requires Pids(e) <= os.children && (e.feeder.Some? ==> e.feeder != e.proc)
    modifies os
    ensures e' == e.(proc := None, feeder := None, stderr := None, control := Ended(e.control, e.policy, now, error))
    ensures os.children == old(os.children) - Pids(e) && os.fds == old(os.fds) - Fds(e)
  {
    e' := e;
    if now - e.control.startedAt >= HEALTHY_AFTER { e' := e.(control := e.control.(failures := 0)); }
    e' := KillPipeline(os, e');
    e' := RetryPipeline(e', now, error);
  }

  /** The second part: an entry without a pipeline whose time has come is started. */
  method StartIfDue(os: Os, e: Entry, now: real) returns (e': Entry, ok: bool, attempted: bool)
    requires Whole(e) && e.used && Pids(e) <= os.children && Fds(e) <= os.fds
    modifies os
    ensures Whole(e') && SameConfig(e, e')
    ensures Exchanged(e, e', old(os.fds), os.fds, old(os.children), os.children)
    ensures Polled(e'.control, e'.proc.Some?, attempted) == Due(e.control, e.policy, e.proc.Some?, now, ok)
  {
    e', ok, attempted := e, false, false;
    if !e.control.halted && e.proc.None? && now >= e.control.retryAt {
      attempted := true;
      ok, e' := SpawnPipeline(os, e, now);
      if ok {
        e' := e'.(control := e'.control.(restarts := e'.control.restarts + 1));
      } else {
        e' := RetryPipeline(e', now, true);
      }
    }
  }

  /** One entry's share of a poll. */
  method PollEntry(os: Os, e: Entry, now: real) returns (e': Entry, ghost o: Observed, ghost attempted: bool)
    requires Whole(e) && Pids(e) <= os.children && Fds(e) <= os.fds
    modifies os
    ensures Whole(e') && SameConfig(e, e')
    ensures Exchanged(e, e', old(os.fds), os.fds, old(os.children), os.children)
    ensures !e.used ==> e' == e && !attempted
    ensures e.used ==> Polled(e'.control, e'.proc.Some?, attempted)
                       == PollOnce(e.control, e.policy, e.proc.Some?, now, o)
  {
    hide Whole, SameConfig, Exchanged, Due, Seen;
    e', attempted := e, false;
    o := Observed(false, None, None, false, false);
    if !e.used || e.control.halted {
      Untouched(e, os.fds, os.children);
      return;
    }
    ghost var fds, children := os.fds, os.children;
    e', o := EndIfOver(os, e, now);
    ghost var e1, fds1, children1 := e', os.fds, os.children;
    SameConfigUsed(e, e1);
    ExchangedOwns(e, e1, fds, fds1, children, children1);
    var ok, tried;
    e', ok, tried := StartIfDue(os, e', now);
    attempted := tried;
    SeenIgnoresSpawns(e.control, e.policy, e.proc.Some?, now, o, ok);
    o := o.(spawns := ok);
    SameConfigTwice(e, e1, e');
    ExchangedTwice(e, e1, e', fds, fds1, os.fds, children, children1, os.children);
  }

  lemma Untouched(e: Entry, fds: set<Fd>, children: set<Pid>)
    requires Pids(e) <= children && Fds(e) <= fds
    ensures SameConfig(e, e) && Exchanged(e, e, fds, fds, children, children)
  {
  }

  lemma ExchangedOwns(e: Entry, e1: Entry, fds: set<Fd>, fds1: set<Fd>, children: set<Pid>, children1: set<Pid>)
    requires Exchanged(e, e1, fds, fds1, children, children1)
    ensures Pids(e1) <= children1 && Fds(e1) <= fds1
  {
  }

  lemma SameConfigUsed(e: Entry, e1: Entry)
    requires SameConfig(e, e1)
    ensures e1.used == e.used && e1.policy == e.policy
  {
  }

  lemma SameConfigTwice(e: Entry, e1: Entry, e2: Entry)
    requires SameConfig(e, e1) && SameConfig(e1, e2)
    ensures SameConfig(e, e2)
  {
  }

  lemma SeenIgnoresSpawns(c: Control, p: Policy, running: bool, now: real, o: Observed, ok: bool)
    ensures Seen(c, p, running, now, o) == Seen(c, p, running, now, o.(spawns := ok))
  {
  }

  // --- the table ------------------------------------------------------------------------

  ghost function AllPids(es: seq<Entry>): (s: set<Pid>)
    ensures forall x :: x in s <==> exists i :: 0 <= i < |es| && x in Pids(es[i])
  {
    set i, x | 0 <= i < |es| && x in Pids(es[i]) :: x
  }

  ghost function AllFds(es: seq<Entry>): (s: set<Fd>)
    ensures forall x :: x in s <==> exists i :: 0 <= i < |es| && x in Fds(es[i])
  {
    set i, x | 0 <= i < |es| && x in Fds(es[i]) :: x
  }

  ghost predicate Apart(es: seq<Entry>) {
    forall i, j :: 0 <= i < j < |es| ==> Pids(es[i]) !! Pids(es[j]) && Fds(es[i]) !! Fds(es[j])
  }

  ghost predicate UniqueIds(es: seq<Entry>) {
    forall i, j :: 0 <= i < j < |es| && es[i].used && es[j].used ==> es[i].streamId != es[j].streamId
  }

  /**
   The open descriptors are one stderr each of the entries with a live ffmpeg, the
   children are the processes of the entries, and a stream has at most one entry.
   */
  ghost predicate Sound(es: seq<Entry>, fds: set<Fd>, children: set<Pid>) {
    && (forall i :: 0 <= i < |es| ==> Whole(es[i]))
    && Apart(es) && UniqueIds(es)
    && children == AllPids(es) && fds == AllFds(es)
  }

  lemma Owned(es: seq<Entry>, fds: set<Fd>, children: set<Pid>, i: nat)
    requires Sound(es, fds, children) && i < |es|
    ensures Whole(es[i]) && Pids(es[i]) <= children && Fds(es[i]) <= fds
  {
  }

  /** One entry exchanges its processes; the table stays sound. */
  lemma ReplaceOne(es: seq<Entry>, fds: set<Fd>, children: set<Pid>, i: nat, e': Entry,
                   fds': set<Fd>, children': set<Pid>)
    requires Sound(es, fds, children) && i < |es|
    requires Whole(e') && Exchanged(es[i], e', fds, fds', children, children')
    requires e'.used ==> forall j :: 0 <= j < |es| && j != i && es[j].used ==> es[j].streamId != e'.streamId
    ensures Sound(es[i := e'], fds', children')
  {
    ApartAfter(es, fds, children, i, e', fds', children');
    ReplacedPids(es, i, e');
    ReplacedFds(es, i, e');
    assert UniqueIds(es[i := e']);
    hide AllPids, AllFds, Whole, Pids, Fds, Exchanged, Apart, UniqueIds;
  }

  lemma ApartAfter(es: seq<Entry>, fds: set<Fd>, children: set<Pid>, i: nat, e': Entry,
                   fds': set<Fd>, children': set<Pid>)
    requires Sound(es, fds, children) && i < |es| && Exchanged(es[i], e', fds, fds', children, children')
    ensures Apart(es[i := e'])
  {
    forall j | 0 <= j < |es| && j != i ensures Pids(es[j]) !! Pids(e') && Fds(es[j]) !! Fds(e') {
      Rest(es, fds, children, i, j);
    }
    hide AllPids, AllFds, Whole, Pids, Fds, Exchanged;
  }

  lemma Rest(es: seq<Entry>, fds: set<Fd>, children: set<Pid>, i: nat, j: nat)
    requires Sound(es, fds, children) && i < |es| && j < |es| && i != j
    ensures Pids(es[j]) <= children - Pids(es[i]) && Fds(es[j]) <= fds - Fds(es[i])
  {
    Owned(es, fds, children, j);
    hide AllPids, AllFds, Whole, Pids, Fds;
    assert Pids(es[i]) !! Pids(es[j]) && Fds(es[i]) !! Fds(es[j]);
  }

  lemma ReplacedPids(es: seq<Entry>, i: nat, e': Entry)
    requires Apart(es) && i < |es|
    ensures AllPids(es[i := e']) == AllPids(es) - Pids(es[i]) + Pids(e')
  {
    hide Pids, Fds;
    var es' := es[i := e'];
    forall x ensures x in AllPids(es') <==> x in AllPids(es) - Pids(es[i]) + Pids(e') {
      if x in Pids(e') { assert x in Pids(es'[i]); }
      if x in AllPids(es) && x !in Pids(es[i]) {
        var j :| 0 <= j < |es| && x in Pids(es[j]);
        assert x in Pids(es'[j]);
      }
      if x in AllPids(es') && x !in Pids(e') {
        var j :| 0 <= j < |es'| && x in Pids(es'[j]);
        assert j != i && Pids(es[j]) !! Pids(es[i]);
      }
    }
  }

  lemma ReplacedFds(es: seq<Entry>, i: nat, e': Entry)
    requires Apart(es) && i < |es|
    ensures AllFds(es[i := e']) == AllFds(es) - Fds(es[i]) + Fds(e')
  {
    hide Pids, Fds;
    var es' := es[i := e'];
    forall x ensures x in AllFds(es') <==> x in AllFds(es) - Fds(es[i]) + Fds(e') {
      if x in Fds(e') { assert x in Fds(es'[i]); }
      if x in AllFds(es) && x !in Fds(es[i]) {
        var j :| 0 <= j < |es| && x in Fds(es[j]);
        assert x in Fds(es'[j]);
      }
      if x in AllFds(es') && x !in Fds(e') {
        var j :| 0 <= j < |es'| && x in Fds(es'[j]);
        assert j != i && Fds(es[j]) !! Fds(es[i]);
      }
    }
  }

  /** A new entry for a stream, before its pipeline is started. */
  function Configured(streamId: string, argv: seq<string>, feederArgv: seq<string>, policy: Option<Policy>): Entry {
    EMPTY.(used := true, streamId := streamId, argv := argv, feederArgv := feederArgv,
           policy := if policy.Some? then policy.value else DEFAULT_POLICY)
  }

  class Supervisor {
    const os: Os
    const entries: array<Entry>

    ghost predicate Valid()
      reads os, entries
    {
      entries.Length == MAX_STREAMS && Sound(entries[..], os.fds, os.children)
    }

    constructor ()
      ensures Valid() && fresh(os) && fresh(entries)
      ensures forall i :: 0 <= i < MAX_STREAMS ==> entries[i] == EMPTY
    {
      var system := new Os();
      var table := new Entry[MAX_STREAMS](_ => EMPTY);
      os, entries := system, table;
      new;
      assert forall i :: 0 <= i < MAX_STREAMS ==> entries[..][i] == EMPTY;
      assert AllPids(entries[..]) == {} && AllFds(entries[..]) == {};
    }

    /** The slot of a stream, MAX_STREAMS when it has none. */
    method Find(streamId: string) returns (i: nat)
      requires Valid()
      ensures i <= MAX_STREAMS
      ensures i < MAX_STREAMS ==> entries[i].used && entries[i].streamId == streamId
      ensures i == MAX_STREAMS ==>
                forall j :: 0 <= j < MAX_STREAMS && entries[j].used ==> entries[j].streamId != streamId
    {
      i := 0;
      while i < MAX_STREAMS && !(entries[i].used && entries[i].streamId == streamId)
        invariant i <= MAX_STREAMS
        invariant forall j :: 0 <= j < i && entries[j].used ==> entries[j].streamId != streamId
      {
        i := i + 1;
      }
    }

    method FirstUnused() returns (i: nat)
      requires Valid()
      ensures i <= MAX_STREAMS && (i < MAX_STREAMS ==> !entries[i].used)
      ensures i == MAX_STREAMS ==>
                forall j :: 0 <= j < MAX_STREAMS ==> entries[j].used
    {
      i := 0;
      while i < MAX_STREAMS && entries[i].used
        invariant i <= MAX_STREAMS && forall j :: 0 <= j < i ==> entries[j].used
      {
        i := i + 1;
      }
    }

    /** Kills what the entry owns and clears it. */
    method ReleaseEntry(i: nat)
      requires Valid() && i < MAX_STREAMS
      modifies os, entries
      ensures Valid() && entries[..] == old(entries[..])[i := EMPTY]
    {
      hide Sound;
      ghost var es, fds, children := entries[..], os.fds, os.children;
      Owned(es, fds, children, i);
      var e := Release(os, entries[i]);
      ReplaceOne(es, fds, children, i, EMPTY, os.fds, os.children);
      entries[i] := e;
      assert entries[..] == es[i := EMPTY];
    }

    /**
     Starts a stream, replacing its pipeline if it has one. When the start fails the
     entry stays to be retried, unless its policy forbids that.
     */
    method Start(streamId: string, argv: seq<string>, feederArgv: seq<string>, policy: Option<Policy>, now: real)
      returns (rc: int, ghost slot: nat)
      requires Valid()
      modifies os, entries
      ensures Valid() && slot <= MAX_STREAMS
      ensures slot == MAX_STREAMS ==> rc == -1 && entries[..] == old(entries[..])
      ensures slot == MAX_STREAMS <==> argv == [] || forall j :: 0 <= j < MAX_STREAMS ==>
                                                         old(entries[j]).used && old(entries[j]).streamId != streamId
      ensures slot < MAX_STREAMS ==>
                && (forall j :: 0 <= j < MAX_STREAMS && j != slot ==> entries[j] == old(entries[j]))
                && Started(entries[slot], Configured(streamId, argv, feederArgv, policy), rc, now)
    {
      slot := MAX_STREAMS;
      if argv == [] { return -1, slot; }
      var i := Find(streamId);
      if i < MAX_STREAMS {
        ReleaseEntry(i);
      } else {
        i := FirstUnused();
        if i == MAX_STREAMS { return -1, slot; }
      }
      slot := i;
      assert forall j :: 0 <= j < MAX_STREAMS && j != i && entries[j].used ==> entries[j].streamId != streamId;
      rc := StartIn(i, Configured(streamId, argv, feederArgv, policy), now);
    }

    method StartIn(i: nat, e: Entry, now: real) returns (rc: int)
      requires Valid() && i < MAX_STREAMS && !entries[i].used
      requires Whole(e) && e.used && e.proc.None?
      requires forall j :: 0 <= j < MAX_STREAMS && j != i && entries[j].used ==> entries[j].streamId != e.streamId
      modifies os, entries
      ensures Valid() && forall j :: 0 <= j < MAX_STREAMS && j != i ==> entries[j] == old(entries[j])
      ensures Started(entries[i], e, rc, now)
    {
      hide Sound;
      ghost var es, fds, children := entries[..], os.fds, os.children;
      Owned(es, fds, children, i);
      var ok, e' := SpawnPipeline(os, e, now);
      rc := if ok then 0 else -1;
      if !ok {
        e' := if e.policy.noRestartError then EMPTY
              else e.(control := e.control.(failures := 1, retryAt := now + e.policy.restartDelay as real));
      }
      ReplaceOne(es, fds, children, i, e', os.fds, os.children);
      entries[i] := e';
      assert entries[..] == es[i := e'];
    }

    method Stop(streamId: string) returns (ghost slot: nat)
      requires Valid()
      modifies os, entries
      ensures Valid() && slot <= MAX_STREAMS
      ensures entries[..] == if slot < MAX_STREAMS then old(entries[..])[slot := EMPTY] else old(entries[..])
      ensures slot < MAX_STREAMS ==> old(entries[slot]).used && old(entries[slot]).streamId == streamId
      ensures forall j :: 0 <= j < MAX_STREAMS && entries[j].used ==> entries[j].streamId != streamId
    {
      var i := Find(streamId);
      slot := i;
      if i < MAX_STREAMS {
        ghost var es := entries[..];
        assert UniqueIds(es);
        assert forall j :: 0 <= j < MAX_STREAMS ==> es[j] == entries[j];
        ReleaseEntry(i);
        forall j | 0 <= j < MAX_STREAMS && entries[j].used ensures entries[j].streamId != streamId {
          assert entries[j] == entries[..][j] == es[i := EMPTY][j];
        }
      }
    }

    /** Looks at every entry in turn; what each sees is in `seen`, whether it tried to start in `tried`. */
    method Poll(now: real) returns (ghost seen: seq<Observed>, ghost tried: seq<bool>)
      requires Valid()
      modifies os, entries
      ensures Valid() && |seen| == |tried| == MAX_STREAMS
      ensures forall i :: 0 <= i < MAX_STREAMS ==> PolledEntry(old(entries[i]), entries[i], now, seen[i], tried[i])
    {
      hide Sound, PolledEntry;
      seen, tried := [], [];
      ghost var was := entries[..];
      for i := 0 to MAX_STREAMS
        invariant Valid() && |seen| == |tried| == i
        invariant forall j :: i <= j < MAX_STREAMS ==> entries[j] == was[j]
        invariant forall j :: 0 <= j < i ==> PolledEntry(was[j], entries[j], now, seen[j], tried[j])
      {
        ghost var o, attempted := PollSlot(i, now);
        seen, tried := seen + [o], tried + [attempted];
      }
    }

    method PollSlot(i: nat, now: real) returns (ghost o: Observed, ghost attempted: bool)
      requires Valid() && i < MAX_STREAMS
      modifies os, entries
      ensures Valid() && forall j :: 0 <= j < MAX_STREAMS && j != i ==> entries[j] == old(entries[j])
      ensures PolledEntry(old(entries[i]), entries[i], now, o, attempted)
    {
      ghost var es, fds, children := entries[..], os.fds, os.children;
      Owned(es, fds, children, i);
      Unique(es, fds, children);
      hide Sound, Exchanged, PollOnce, UniqueIds;
      var e';
      e', o, attempted := PollEntry(os, entries[i], now);
      OthersDiffer(es, i, e');
      ReplaceOne(es, fds, children, i, e', os.fds, os.children);
      entries[i] := e';
      assert entries[..] == es[i := e'];
    }

    method Destroy()
      requires Valid()
      modifies os, entries
      ensures Valid() && os.fds == {} && os.children == {}
    {
      hide Sound;
      for i := 0 to MAX_STREAMS
        invariant Valid() && forall j :: 0 <= j < i ==> !entries[j].used
      {
        if entries[i].used {
          ghost var es := entries[..];
          ReleaseEntry(i);
          assert forall j :: 0 <= j < i ==> entries[j] == entries[..][j] == es[j];
        }
      }
      NothingOwned(entries[..], os.fds, os.children);
    }
  }

  /** The entry after a start: running, or waiting to be retried, or gone when its policy says so. */
  predicate Started(e: Entry, blank: Entry, rc: int, now: real) {
    if rc == 0
    then SameConfig(blank, e) && e.proc.Some? && (e.feeder.Some? <==> e.feederArgv != [])
         && e.control == blank.control.(startedAt := now, lastProgress := now)
    else rc == -1
         && e == if blank.policy.noRestartError then EMPTY
                 else blank.(control := FailedStart(blank.control, blank.policy, now))
  }

  /** One entry before and after a poll. */
  predicate PolledEntry(e: Entry, e': Entry, now: real, o: Observed, tried: bool) {
    && SameConfig(e, e')
    && (!e.used ==> e' == e && !tried)
    && (e.used ==> Polled(e'.control, e'.proc.Some?, tried) == PollOnce(e.control, e.policy, e.proc.Some?, now, o))
  }

  lemma Unique(es: seq<Entry>, fds: set<Fd>, children: set<Pid>)
    requires Sound(es, fds, children)
    ensures UniqueIds(es)
  {
  }

  lemma OthersDiffer(es: seq<Entry>, i: nat, e': Entry)
    requires UniqueIds(es) && i < |es| && SameConfig(es[i], e')
    ensures e'.used ==> forall j :: 0 <= j < |es| && j != i && es[j].used ==> es[j].streamId != e'.streamId
  {
  }

  lemma NothingOwned(es: seq<Entry>, fds: set<Fd>, children: set<Pid>)
    requires Sound(es, fds, children) && forall i :: 0 <= i < |es| ==> !es[i].used
    ensures fds == {} && children == {}
  {
    assert forall i :: 0 <= i < |es| ==> Whole(es[i]);
  }
}
