/**
 When a supervised pipeline is started again: the control state of one entry over
 any run of polls, apart from the processes it stands for.
 */
module RestartPolicy {
  import opened Wrappers
  import opened Powers

  const HEALTHY_AFTER: real := 10.0
  const COOLDOWN_CEILING: nat := 300

  datatype Policy = Policy(
    noRestartError: bool,
    restartFinished: bool,
    cooldown: bool,
    restartDelay: int,
    stalledSeconds: int)

  /** `failures` counts failed runs in a row; `retryAt` is when the entry may start again. */
  datatype Control = Control(
    halted: bool,
    failures: nat,
    retryAt: real,
    startedAt: real,
    lastProgress: real,
    restarts: nat)

  /** What one poll sees; `exit` and `feederExit` say whether the process failed. */
  datatype Observed = Observed(
    progressed: bool,
    feederExit: Option<bool>,
    exit: Option<bool>,
    progressedAtExit: bool,
    spawns: bool)

  // --- the delay -----------------------------------------------------------------

  function Max(a: int, b: int): int { if a > b then a else b }

  function Min(a: int, b: int): int { if a < b then a else b }

  /** The cooldown after the k-th failure in a row. */
  function Backoff(b: nat, k: nat): nat
    requires k > 0
  {
    Min(b * Pow2(k - 1), Max(COOLDOWN_CEILING, b))
  }

  function Wait(p: Policy, error: bool, failures: nat): nat
    requires error ==> failures > 0
  {
    var wait := Max(p.restartDelay, 0);
    if p.cooldown && error then Backoff(Max(wait, 1), failures) else wait
  }

  /** The doubling loop, which stops at the ceiling. */
  method ComputeWait(p: Policy, error: bool, failures: nat) returns (wait: nat)
    requires error ==> failures > 0
    ensures wait == Wait(p, error, failures)
  {
    wait := if p.restartDelay < 0 then 0 else p.restartDelay;
    if p.cooldown && error {
      if wait < 1 { wait := 1; }
      var b := wait;
      var ceiling := if wait > COOLDOWN_CEILING then wait else COOLDOWN_CEILING;
      var k := 1;
      while k < failures && wait < ceiling
        invariant 1 <= k <= failures && wait == b * Pow2(k - 1)
      {
        Doubled(b, Pow2(k - 1));
        wait := wait * 2;
        k := k + 1;
      }
      StillAbove(b, k - 1, failures - 1);
      if wait > ceiling { wait := ceiling; }
    }
  }

  lemma Doubled(b: nat, x: nat)
    ensures b * x * 2 == b * (2 * x)
  {
  }

  lemma StillAbove(b: nat, j: nat, k: nat)
    requires j <= k
    ensures b * Pow2(j) <= b * Pow2(k)
  {
    Pow2Grows(j, k);
    Product(b, Pow2(j), Pow2(k));
  }

  lemma Product(b: nat, x: nat, y: nat)
    requires x <= y
    ensures b * x <= b * y
  {
  }

  // --- one entry, one poll ----------------------------------------------------------

  /** What follows the end of a run, or a start that failed. */
  function Retry(c: Control, p: Policy, now: real, error: bool): Control {
    if (error && p.noRestartError) || (!error && !p.restartFinished) then c.(halted := true)
    else
      var failures := if error then c.failures + 1 else 0;
      c.(failures := failures, retryAt := now + Wait(p, error, failures) as real)
  }

  /**
   The verdict on the pipeline: None while it runs on, otherwise whether it failed. A
   feeder that ends well is no verdict, and there is no feeder without a main process.
   */
  function Verdict(c: Control, p: Policy, running: bool, now: real, o: Observed): Option<bool> {
    if !running then None
    else if o.feederExit == Some(true) then Some(true)
    else if o.exit.Some? then o.exit
    else if p.stalledSeconds > 0 && now - c.lastProgress >= p.stalledSeconds as real then Some(true)
    else None
  }

  function Ended(c: Control, p: Policy, now: real, error: bool): Control {
    Retry(if now - c.startedAt >= HEALTHY_AFTER then c.(failures := 0) else c, p, now, error)
  }

  /** The entry after a poll, whether it runs, and whether a start was attempted. */
  datatype Polled = Polled(control: Control, running: bool, attempted: bool)

  /** What the poll finds out: a pipeline that is over is ended and its restart scheduled. */
  function Seen(c: Control, p: Policy, running: bool, now: real, o: Observed): Polled {
    var seen := if running && o.progressed then c.(lastProgress := now) else c;
    var exited := o.feederExit != Some(true) && running && o.exit.Some?;
    var late := if exited && o.progressedAtExit then seen.(lastProgress := now) else seen;
    match Verdict(seen, p, running, now, o)
    case None => Polled(late, running, false)
    case Some(error) => Polled(Ended(late, p, now, error), false, false)
  }

  /** A start, when the entry does not run and its time has come. */
  function Due(c: Control, p: Policy, running: bool, now: real, spawns: bool): Polled {
    if c.halted || running || now < c.retryAt then Polled(c, running, false)
    else if spawns then Polled(c.(startedAt := now, lastProgress := now, restarts := c.restarts + 1), true, true)
    else Polled(Retry(c, p, now, true), false, true)
  }

  function PollOnce(c: Control, p: Policy, running: bool, now: real, o: Observed): Polled {
    if c.halted then Polled(c, running, false)
    else
      var q := Seen(c, p, running, now, o);
      Due(q.control, p, q.running, now, o.spawns)
  }

  // --- whole runs -----------------------------------------------------------------------

  datatype Poll = Poll(now: real, o: Observed)

  function After(c: Control, p: Policy, running: bool, run: seq<Poll>): Polled {
    if run == [] then Polled(c, running, false)
    else
      var before := After(c, p, running, run[..|run| - 1]);
      var last := run[|run| - 1];
      PollOnce(before.control, p, before.running, last.now, last.o)
  }

  /** A halted entry stays as it is, and is never started again. */
  lemma {:induction false} HaltedNeverStarts(c: Control, p: Policy, running: bool, run: seq<Poll>)
    requires c.halted
    ensures After(c, p, running, run) == Polled(c, running, false)
  {
    if run != [] { HaltedNeverStarts(c, p, running, run[..|run| - 1]); }
  }

  /**
   However often it is polled, an entry that is not running is not started before its
   retry time: until the first attempt nothing about it changes, and that attempt
   comes no earlier.
   */
  lemma {:induction false} NoStartBeforeRetry(c: Control, p: Policy, run: seq<Poll>)
    requires !c.halted && run != []
    requires forall n :: 0 < n < |run| ==> !After(c, p, false, run[..n]).attempted
    ensures After(c, p, false, run).attempted <==> run[|run| - 1].now >= c.retryAt
    ensures !After(c, p, false, run).attempted ==> After(c, p, false, run) == Polled(c, false, false)
  {
    var n := |run| - 1;
    var before := run[..n];
    if n > 0 {
      assert forall m :: 0 < m < n ==> before[..m] == run[..m];
      NoStartBeforeRetry(c, p, before);
    }
    assert After(c, p, false, before) == Polled(c, false, false);
  }

  /** The end of a run, or a start that failed: with an error or without, and for how long it had run. */
  datatype Fall = Fall(at: real, error: bool, healthy: bool)

  predicate Halts(p: Policy, f: Fall) {
    if f.error then p.noRestartError else !p.restartFinished
  }

  predicate SomeHalts(p: Policy, falls: seq<Fall>) {
    falls != [] && (Halts(p, falls[|falls| - 1]) || SomeHalts(p, falls[..|falls| - 1]))
  }

  function Fell(c: Control, p: Policy, f: Fall): Control {
    if c.halted then c else Retry(if f.healthy then c.(failures := 0) else c, p, f.at, f.error)
  }

  /** The entry after these; a halted one is never looked at again. */
  function Fallen(c: Control, p: Policy, falls: seq<Fall>): Control {
    if falls == [] then c
    else Fell(Fallen(c, p, falls[..|falls| - 1]), p, falls[|falls| - 1])
  }

  /** Errors in a row at the end of `falls`, after `n` before them; a healthy run starts the count again. */
  function Streak(n: nat, falls: seq<Fall>): nat {
    if falls == [] then n
    else if !falls[|falls| - 1].error then 0
    else if falls[|falls| - 1].healthy then 1
    else Streak(n, falls[..|falls| - 1]) + 1
  }

  lemma {:induction false} DelayOverFalls(c: Control, p: Policy, falls: seq<Fall>)
    requires !c.halted
    ensures var d, k := Fallen(c, p, falls), Streak(c.failures, falls);
            && (d.halted <==> SomeHalts(p, falls))
            && (!d.halted ==> d.failures == k)
            && (!d.halted && falls != [] ==>
                  d.retryAt - falls[|falls| - 1].at
                  == (if p.cooldown && k > 0 then Backoff(Max(1, p.restartDelay), k)
                      else Max(0, p.restartDelay)) as real)
  {
    hide Backoff;
    if falls != [] { DelayOverFalls(c, p, falls[..|falls| - 1]); }
  }

  /** The pipeline's run, when this poll finds it over. */
  function EndSeen(c: Control, p: Policy, running: bool, now: real, o: Observed): seq<Fall> {
    match Verdict(if running && o.progressed then c.(lastProgress := now) else c, p, running, now, o)
    case None => []
    case Some(error) => [Fall(now, error, now - c.startedAt >= HEALTHY_AFTER)]
  }

  /** A start that was due and failed. */
  function FailedStarts(c: Control, running: bool, now: real, spawns: bool): seq<Fall> {
    if c.halted || running || now < c.retryAt || spawns then [] else [Fall(now, true, false)]
  }

  /** What comes to an end in one poll: the run of the pipeline, and after it a start that fails. */
  function FallsOf(c: Control, p: Policy, running: bool, now: real, o: Observed): seq<Fall> {
    if c.halted then []
    else
      var q := Seen(c, p, running, now, o);
      EndSeen(c, p, running, now, o) + FailedStarts(q.control, q.running, now, o.spawns)
  }

  /** All that came to an end in a run of polls. */
  function FallsOver(c: Control, p: Policy, running: bool, run: seq<Poll>): seq<Fall> {
    if run == [] then []
    else
      var before := run[..|run| - 1];
      var q := After(c, p, running, before);
      FallsOver(c, p, running, before) + FallsOf(q.control, p, q.running, run[|run| - 1].now, run[|run| - 1].o)
  }

  /** The parts of the control state that ends and failed starts decide. */
  predicate SameRetry(c: Control, d: Control) {
    c.halted == d.halted && c.failures == d.failures && c.retryAt == d.retryAt
  }

  lemma FallenMore(c: Control, p: Policy, falls: seq<Fall>, more: seq<Fall>)
    requires |more| <= 1
    ensures Fallen(c, p, falls + more) == Fallen(Fallen(c, p, falls), p, more)
  {
    if more == [] {
      assert falls + more == falls;
    } else {
      assert (falls + more)[..|falls|] == falls;
      assert Fallen(Fallen(c, p, falls), p, more[..0]) == Fallen(c, p, falls);
    }
  }

  lemma SeenIsFall(c: Control, d: Control, p: Policy, running: bool, now: real, o: Observed)
    requires SameRetry(c, d) && !c.halted
    ensures SameRetry(Seen(c, p, running, now, o).control, Fallen(d, p, EndSeen(c, p, running, now, o)))
  {
    hide Wait;
    var ended := EndSeen(c, p, running, now, o);
    assert ended != [] ==> Fallen(d, p, ended[..0]) == d;
  }

  lemma DueIsFall(c: Control, d: Control, p: Policy, running: bool, now: real, spawns: bool)
    requires SameRetry(c, d)
    ensures SameRetry(Due(c, p, running, now, spawns).control, Fallen(d, p, FailedStarts(c, running, now, spawns)))
  {
    hide Wait;
    var failed := FailedStarts(c, running, now, spawns);
    assert failed != [] ==> Fallen(d, p, failed[..0]) == d;
  }

  /** One poll changes the retry state by what ended in it, and by nothing else. */
  lemma PollIsFalls(c: Control, p: Policy, falls: seq<Fall>, q: Polled, now: real, o: Observed)
    requires SameRetry(q.control, Fallen(c, p, falls))
    ensures SameRetry(PollOnce(q.control, p, q.running, now, o).control,
                      Fallen(c, p, falls + FallsOf(q.control, p, q.running, now, o)))
  {
    if q.control.halted {
      assert falls + [] == falls;
    } else {
      var ended := EndSeen(q.control, p, q.running, now, o);
      var seen := Seen(q.control, p, q.running, now, o);
      var failed := FailedStarts(seen.control, seen.running, now, o.spawns);
      assert falls + (ended + failed) == falls + ended + failed;
      assert |ended| <= 1 && |failed| <= 1;
      hide Seen, Due, Fallen, EndSeen, FailedStarts;
      FallenMore(c, p, falls, ended);
      FallenMore(c, p, falls + ended, failed);
      SeenIsFall(q.control, Fallen(c, p, falls), p, q.running, now, o);
      DueIsFall(seen.control, Fallen(c, p, falls + ended), p, seen.running, now, o.spawns);
    }
  }

  /** After any run of polls the entry's retry state is that of what ended in the run. */
  lemma {:induction false} PollsAreFalls(c: Control, p: Policy, running: bool, run: seq<Poll>)
    ensures SameRetry(After(c, p, running, run).control, Fallen(c, p, FallsOver(c, p, running, run)))
  {
    if run != [] {
      var before, last := run[..|run| - 1], run[|run| - 1];
      PollsAreFalls(c, p, running, before);
      hide PollOnce, FallsOf, Fallen;
      PollIsFalls(c, p, FallsOver(c, p, running, before), After(c, p, running, before), last.now, last.o);
    }
  }

  /**
   Over any run of polls: the entry is halted exactly when some end told it to; while
   it is not, the delay after k errors in a row is min(b * 2^(k-1), max(300, b)) with
   b = max(1, restart delay) when the cooldown is on, and otherwise the restart delay.
   */
  lemma DelayOverRuns(c: Control, p: Policy, running: bool, run: seq<Poll>)
    requires !c.halted
    ensures var d, falls := After(c, p, running, run).control, FallsOver(c, p, running, run);
            var k := Streak(c.failures, falls);
            && (d.halted <==> SomeHalts(p, falls))
            && (!d.halted ==> d.failures == k)
            && (!d.halted && falls != [] ==>
                  d.retryAt - falls[|falls| - 1].at
                  == (if p.cooldown && k > 0 then Backoff(Max(1, p.restartDelay), k)
                      else Max(0, p.restartDelay)) as real)
            && (falls == [] ==> d.retryAt == c.retryAt)
  {
    hide Backoff, SomeHalts, Streak, FallsOver, After;
    PollsAreFalls(c, p, running, run);
    DelayOverFalls(c, p, FallsOver(c, p, running, run));
  }

  /** A new entry whose first start failed. */
  function FailedStart(c: Control, p: Policy, now: real): Control {
    c.(failures := 1, retryAt := now + p.restartDelay as real)
  }

  /**
   That one waits for the restart delay as it is, which is the cooldown of one failure
   unless it is below a second.
   */
  lemma FailedStartDelay(c: Control, p: Policy, now: real)
    ensures FailedStart(c, p, now).retryAt - now == Backoff(Max(1, p.restartDelay), 1) as real <==> p.restartDelay >= 1
  {
    assert Pow2(0) == 1;
    assert Backoff(Max(1, p.restartDelay), 1) == Max(1, p.restartDelay);
  }
}
