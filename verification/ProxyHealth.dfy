/**
 The health of one proxy over a whole run of releases: exponential cooldown, and
 at most one alert per outage.
 */
module ProxyHealth {
  import opened Powers
  import opened ProxyChoice

  datatype Outcome = Ok | Failed | NoVerdict

  const COOLDOWN_STEP: nat := 15
  const COOLDOWN_MAX: nat := 300
  const ALERT_BENCHES: nat := 3
  const FAILURES_MAX: nat := 6

  /** What a release does to the entry; `change` is the cooldown when it was benched, -1 when it came back. */
  datatype Verdict = Verdict(proxy: Proxy, change: int, benches: nat)

  function Delay(failures: nat): nat
    requires failures > 0
  {
    var d := COOLDOWN_STEP * Pow2(failures - 1);
    if d > COOLDOWN_MAX then COOLDOWN_MAX else d
  }

  /** The end of one attempt. Releases are serialised by the pool's lock. */
  function Release(proxy: Proxy, outcome: Outcome, now: int): Verdict {
    var h := proxy.(inFlight := if proxy.inFlight > 0 then proxy.inFlight - 1 else 0);
    match outcome
    case NoVerdict => Verdict(h, 0, 0)
    case Ok =>
      Verdict(h.(known := true, healthy := true, failures := 0, benches := 0, retryAt := 0),
              if h.known && !h.healthy then -1 else 0, h.benches)
    case Failed =>
      var alreadyBenched := h.known && !h.healthy && h.retryAt > now;
      var failures := if h.failures < FAILURES_MAX then h.failures + 1 else h.failures;
      var delay := Delay(failures);
      var benches := if alreadyBenched then h.benches else h.benches + 1;
      Verdict(h.(known := true, healthy := false, failures := failures, retryAt := now + delay, benches := benches),
              if alreadyBenched then 0 else delay, benches)
  }

  predicate IsAlert(v: Verdict) {
    v.change > 0 && v.benches == ALERT_BENCHES
  }

  // --- whole runs ---------------------------------------------------------------

  datatype Event = Event(outcome: Outcome, at: int)

  /** The entry after a run of releases, starting from an entry nobody has tried. */
  function After(run: seq<Event>): Proxy {
    if run == [] then FRESH
    else Release(After(run[..|run| - 1]), run[|run| - 1].outcome, run[|run| - 1].at).proxy
  }

  /** Failures since the last success; cancelled requests say nothing. */
  function Streak(run: seq<Event>): nat {
    if run == [] then 0
    else
      match run[|run| - 1].outcome
      case Ok => 0
      case Failed => Streak(run[..|run| - 1]) + 1
      case NoVerdict => Streak(run[..|run| - 1])
  }

  /** When the last request that said something ended. */
  function LastVerdictAt(run: seq<Event>): int {
    if run == [] then 0
    else if run[|run| - 1].outcome.NoVerdict? then LastVerdictAt(run[..|run| - 1])
    else run[|run| - 1].at
  }

  /** Alerts raised since the last success. */
  function AlertsSince(run: seq<Event>): nat {
    if run == [] || run[|run| - 1].outcome.Ok? then 0
    else
      var e := run[|run| - 1];
      AlertsSince(run[..|run| - 1])
      + if IsAlert(Release(After(run[..|run| - 1]), e.outcome, e.at)) then 1 else 0
  }

  /** The cooldown after `k` failures in a row. */
  function Cooldown(k: nat): nat
    requires k > 0
  {
    var d := 15 * Pow2(k - 1);
    if d < 300 then d else 300
  }

  /** Stopping the count at six failures does not show: by then the cooldown is at its maximum. */
  lemma CappedDelay(k: nat)
    requires k > 0
    ensures Delay(if k < FAILURES_MAX then k else FAILURES_MAX) == Cooldown(k)
  {
    if k >= FAILURES_MAX {
      Pow2Grows(5, k - 1);
      assert Pow2(5) == 2 * Pow2(4) == 4 * Pow2(3) == 8 * Pow2(2) == 32;
    }
  }

  /**
   After any run: the failure count is the streak, capped; a proxy whose last
   verdict was a failure is benched until that time plus min(300, 15 * 2^(k-1)); one
   whose last verdict was a success is healthy.
   */
  lemma {:induction false} BackoffOverRuns(run: seq<Event>)
    ensures var h, k := After(run), Streak(run);
            && h.failures == (if k < FAILURES_MAX then k else FAILURES_MAX)
            && (k > 0 ==> h.known && !h.healthy && h.retryAt == LastVerdictAt(run) + Cooldown(k))
            && (k == 0 && h.known ==> h.healthy && h.retryAt == 0)
            && (h.healthy ==> h.known)
  {
    if run != [] {
      BackoffOverRuns(run[..|run| - 1]);
      if Streak(run) > 0 { CappedDelay(Streak(run)); }
    }
  }

  /**
   Between two successes there is at most one alert, however many requests fail:
   it is raised by the release that benches the proxy for the third time.
   */
  lemma {:induction false} OneAlertPerOutage(run: seq<Event>)
    ensures AlertsSince(run) == if After(run).benches >= ALERT_BENCHES then 1 else 0
  {
    if run != [] {
      OneAlertPerOutage(run[..|run| - 1]);
      BackoffOverRuns(run[..|run| - 1]);
    }
  }

  /** The cooldown still grows until the sixth failure in a row. */
  lemma CooldownGrows(k: nat)
    requires k > 0
    ensures if k < FAILURES_MAX then Cooldown(k) < Cooldown(k + 1) else Cooldown(k) == Cooldown(k + 1) == 300
  {
    assert Pow2(5) == 2 * Pow2(4) == 4 * Pow2(3) == 8 * Pow2(2) == 16 * Pow2(1) == 32;
    if k < FAILURES_MAX {
      Pow2Grows(k - 1, 4);
      assert Pow2(k) == 2 * Pow2(k - 1) && Pow2(k - 1) <= 16;
    } else {
      Pow2Grows(5, k - 1);
      Pow2Grows(5, k);
    }
  }

  /**
   A failure that arrives while the proxy is benched is not reported and is not
   counted as another bench. It moves the end of the cooldown exactly when it comes
   later than the last verdict, or the cooldown has not reached its maximum yet.
   */
  lemma LateFailureExtends(run: seq<Event>, at: int)
    requires Streak(run) > 0 && LastVerdictAt(run) <= at < After(run).retryAt
    ensures var v := Release(After(run), Failed, at);
            && v.change == 0 && v.proxy.benches == After(run).benches
            && v.proxy.retryAt == at + Cooldown(Streak(run) + 1)
            && v.proxy.retryAt >= After(run).retryAt
            && (v.proxy.retryAt > After(run).retryAt <==> at > LastVerdictAt(run) || Streak(run) < FAILURES_MAX)
  {
    BackoffOverRuns(run);
    CappedDelay(Streak(run) + 1);
    CooldownGrows(Streak(run));
    hide Cooldown, Pow2;
  }

  /** A success is reported exactly when it ends an outage, with the benches it took. */
  lemma RecoveryIsReported(run: seq<Event>, at: int)
    ensures var v := Release(After(run), Ok, at);
            && (v.change == -1 <==> Streak(run) > 0) && (v.change != -1 ==> v.change == 0)
            && v.benches == After(run).benches && v.proxy.benches == 0
  {
    BackoffOverRuns(run);
  }
}
