/**
 One fetch over a proxy list: entries are tried until one of them settles the
 request, and when every entry left is at its connection limit the fetch waits,
 up to a deadline, for a slot.
 */
module Failover {
  import opened Wrappers
  import opened ProxyChoice
  import opened ProxyHealth

  /** What one attempt came to: the transfer's code, the HTTP status, and whether the caller cancelled. */
  datatype Attempt = Attempt(rc: int, status: int, cancelRequested: bool)

  predicate Cancelled(a: Attempt) { a.rc != 0 && a.cancelRequested }

  /** An answer from the origin that every other proxy would repeat. */
  predicate OriginFinal(a: Attempt) {
    a.rc != 0 && 400 <= a.status < 500 && a.status !in {403, 407, 408, 429}
  }

  function OutcomeOf(a: Attempt): Outcome {
    if a.rc == 0 || OriginFinal(a) then Ok else if Cancelled(a) then NoVerdict else Failed
  }

  predicate Settles(a: Attempt) {
    a.rc == 0 || Cancelled(a) || OriginFinal(a)
  }

  /** What a hand-out may answer when `tried` has been tried already. */
  predicate Sound(c: Choice, tried: set<nat>, count: nat, limit: int) {
    match c
    case Entry(i) => i < count && i !in tried
    case NoneLeft => forall i :: 0 <= i < count ==> i in tried
    case AllFull => limit > 0 && exists i :: 0 <= i < count && i !in tried
  }

  /** The hand-out of ProxyChoice answers in this way, whatever the state of the pool. */
  lemma HandOutIsSound(pool: Pool, c: Caller, r: Request)
    ensures Sound(Choose(pool, c, r).0, r.tried, |pool.proxies|, r.limit)
  {
    ChoiceIsSound(pool, c, r);
  }

  const SLEEP_MS: nat := 50
  const DEFAULT_WAIT_MS: nat := 30000

  /** The rest of the program as one fetch sees it: any hand-outs, answers, times and cancellations. */
  class Env {
    var now: nat
    var waiting: int
    const count: nat
    const limit: int
    ghost var sleeps: seq<nat>
    ghost var cancelSeen: bool

    constructor (count: nat, limit: int, now: nat, waiting: int)
      ensures this.count == count && this.limit == limit && this.now == now && this.waiting == waiting
      ensures sleeps == [] && !cancelSeen
    {
      this.count, this.limit, this.now, this.waiting := count, limit, now, waiting;
      sleeps, cancelSeen := [], false;
    }

    method Clock() returns (t: nat)
      modifies this`now
      ensures t == now >= old(now)
    {
      var later: nat :| later >= now;
      now := later;
      t := now;
    }

    method Sleep()
      modifies this`now, this`sleeps
      ensures now >= old(now) + SLEEP_MS && sleeps == old(sleeps) + [old(now)]
    {
      sleeps := sleeps + [now];
      var later: nat :| later >= now + SLEEP_MS;
      now := later;
    }

    method Acquire(tried: set<nat>) returns (c: Choice)
      modifies this`now
      ensures Sound(c, tried, count, limit) && now >= old(now)
    {
      if forall i :: 0 <= i < count ==> i in tried {
        c := NoneLeft;
      } else {
        var i :| 0 <= i < count && i !in tried;
        c := Entry(i);
        if limit > 0 {
          var full: bool :| true;
          if full { c := AllFull; }
        }
      }
    }

    method Fetch(index: nat) returns (a: Attempt)
      modifies this`now, this`cancelSeen
      ensures now >= old(now) && (cancelSeen <==> old(cancelSeen) || a.cancelRequested)
    {
      var any: Attempt :| true;
      a := any;
      cancelSeen := cancelSeen || a.cancelRequested;
    }

    method ShouldCancel() returns (yes: bool)
      modifies this`cancelSeen
      ensures cancelSeen <==> old(cancelSeen) || yes
    {
      var any: bool :| true;
      yes := any;
      cancelSeen := cancelSeen || yes;
    }
  }

  ghost predicate Distinct(s: seq<nat>) {
    forall i, j :: 0 <= i < j < |s| ==> s[i] != s[j]
  }

  function Below(n: nat): (s: set<nat>)
    ensures |s| == n
    ensures forall i: nat :: i in s <==> i < n
  {
    if n == 0 then {}
    else
      var less := Below(n - 1);
      assert n - 1 !in less;
      less + {n - 1}
  }

  function Members(s: seq<nat>): (r: set<nat>)
    ensures forall x :: x in r <==> x in s
  {
    set x | x in s
  }

  lemma {:induction false} MembersSize(s: seq<nat>)
    requires Distinct(s)
    ensures |Members(s)| == |s|
  {
    if s != [] {
      var rest, last := s[..|s| - 1], s[|s| - 1];
      MembersSize(rest);
      assert forall i :: 0 <= i < |rest| ==> rest[i] == s[i] && rest[i] != last;
      hide Distinct;
      assert last !in rest && last !in Members(rest);
      assert s == rest + [last];
      assert Members(s) == Members(rest) + {last};
    }
  }

  /** Entries tried without repetition: at most all of them, and all of them when there are as many. */
  lemma DistinctBelow(s: seq<nat>, count: nat)
    requires Distinct(s) && forall i :: 0 <= i < |s| ==> s[i] < count
    ensures |s| <= count
    ensures |s| == count ==> forall k :: 0 <= k < count ==> k in s
  {
    MembersSize(s);
    var rest := Below(count) - Members(s);
    assert Below(count) == Members(s) + rest;
    if |s| == count {
      assert rest == {};
      forall k | 0 <= k < count ensures k in s {
        assert k in Below(count);
      }
    }
  }

  /** Every attempt so far went to an entry not tried before, and none settled the request. */
  ghost predicate StillOpen(order: seq<nat>, results: seq<Attempt>, tried: set<nat>, count: nat) {
    && |results| == |order| && Distinct(order) && tried == Members(order)
    && (forall i :: 0 <= i < |order| ==> order[i] < count)
    && (forall i :: 0 <= i < |results| ==> OutcomeOf(results[i]) == Failed)
  }

  /** What a fetch may look like when it is over. */
  ghost predicate Finished(order: seq<nat>, results: seq<Attempt>, count: nat, rc: int) {
    && |results| == |order| <= count && Distinct(order)
    && (forall i :: 0 <= i < |order| ==> order[i] < count)
    && (forall i :: 0 <= i < |order| - 1 ==> OutcomeOf(results[i]) == Failed)
    && rc == if order == [] then -1 else results[|results| - 1].rc
  }

  lemma OneMore(order: seq<nat>, results: seq<Attempt>, tried: set<nat>, count: nat, index: nat, a: Attempt)
    requires StillOpen(order, results, tried, count) && index < count && index !in tried
    ensures !Settles(a) ==> StillOpen(order + [index], results + [a], tried + {index}, count)
    ensures Finished(order + [index], results + [a], count, a.rc)
  {
    assert Distinct(order + [index]);
    assert Members(order + [index]) == Members(order) + {index};
    DistinctBelow(order + [index], count);
  }

  lemma StoppedEarly(order: seq<nat>, results: seq<Attempt>, tried: set<nat>, count: nat)
    requires StillOpen(order, results, tried, count)
    ensures Finished(order, results, count, if results == [] then -1 else results[|results| - 1].rc)
    ensures |results| == |order| <= count
    ensures |order| == count ==> forall k :: 0 <= k < count ==> k in order
  {
    DistinctBelow(order, count);
  }

  /** No sleep begins at or after the deadline, and the deadline is `wait` from the first. */
  ghost predicate SleepsInTime(sleeps: seq<nat>, deadline: nat, wait: nat) {
    && (forall i :: 0 <= i < |sleeps| ==> sleeps[i] < deadline)
    && (sleeps != [] ==> deadline <= sleeps[0] + wait)
  }

  /** The wait for a slot: when it ends, and whether this fetch is counted as waiting. */
  datatype Wait = Wait(until: Option<nat>, waiting: bool)

  ghost predicate WaitOk(w: Wait, env: Env, wait: nat)
    reads env
  {
    match w.until
    case None => env.sleeps == [] && !w.waiting
    case Some(t) => SleepsInTime(env.sleeps, t, wait) && (env.sleeps == [] ==> t <= env.now + wait)
  }

  /** Every entry left is full: sleep a little, unless the deadline has passed or the caller cancelled. */
  method AwaitSlot(env: Env, w: Wait, wait: nat) returns (w': Wait, giveUp: bool)
    requires WaitOk(w, env, wait)
    modifies env
    ensures w'.until.Some? && w'.waiting && WaitOk(w', env, wait)
    ensures w.until.Some? ==> w'.until == w.until
    ensures env.waiting == old(env.waiting) + if w.waiting then 0 else 1
    ensures old(env.cancelSeen) ==> env.cancelSeen
    ensures giveUp ==> env.cancelSeen || w'.until.value <= env.now
    ensures !giveUp ==> env.now > old(env.now) && old(env.now) < w'.until.value
  {
    var now := env.Clock();
    if !w.waiting { env.waiting := env.waiting + 1; }
    var until := if w.until.Some? then w.until.value else now + wait;
    w' := Wait(Some(until), true);
    giveUp := now >= until;
    if !giveUp { giveUp := env.ShouldCancel(); }
    if !giveUp { env.Sleep(); }
  }

  /**
   The retry loop. `order` is the entries tried, `results` what each came to.
   Nothing is tried twice; every attempt but the last was the proxy's fault; no
   sleep begins at or after the deadline; and the fetch leaves no waiting mark.
   */
  method FetchWithProxies(env: Env, timeoutMs: int)
    returns (rc: int, order: seq<nat>, results: seq<Attempt>, ghost deadline: nat)
    requires !env.cancelSeen && env.sleeps == []
    modifies env
    ensures Finished(order, results, env.count, rc)
    ensures env.waiting == old(env.waiting)
    ensures SleepsInTime(env.sleeps, deadline, if timeoutMs > 0 then timeoutMs else DEFAULT_WAIT_MS)
    // With no limit, nobody cancelling and only proxy faults, every entry is tried.
    ensures env.limit <= 0 && !env.cancelSeen
            && (forall i :: 0 <= i < |results| ==> OutcomeOf(results[i]) == Failed) ==>
              |order| == env.count && forall k :: 0 <= k < env.count ==> k in order
  {
    hide StillOpen, Finished;
    NothingTried(env.count);
    rc, order, results := -1, [], [];
    var tried: set<nat> := {};
    var w := Wait(None, false);
    var wait: nat := if timeoutMs > 0 then timeoutMs else DEFAULT_WAIT_MS;
    ghost var settled := false;
    while |order| < env.count
      invariant !settled && StillOpen(order, results, tried, env.count)
      invariant rc == if results == [] then -1 else results[|results| - 1].rc
      invariant env.waiting == old(env.waiting) + if w.waiting then 1 else 0
      invariant WaitOk(w, env, wait)
      decreases env.count - |order|, w.until.None?,
                if w.until.Some? && env.now < w.until.value then w.until.value - env.now else 0
    {
      StoppedEarly(order, results, tried, env.count);
      if |order| > 0 {
        var cancel := env.ShouldCancel();
        if cancel { break; }
      }
      var choice := env.Acquire(tried);
      if choice.AllFull? {
        var giveUp;
        w, giveUp := AwaitSlot(env, w, wait);
        if giveUp { break; }
      } else {
        if w.waiting {
          env.waiting := env.waiting - 1;
          w := w.(waiting := false);
        }
        if choice.NoneLeft? {
          NothingLeft(order, results, tried, env.count);
          break;
        }
        var a := env.Fetch(choice.index);
        OneMore(order, results, tried, env.count, choice.index, a);
        tried := tried + {choice.index};
        order, results, rc := order + [choice.index], results + [a], a.rc;
        if Settles(a) {
          settled := true;
          break;
        }
      }
    }
    if w.waiting { env.waiting := env.waiting - 1; }
    deadline := if w.until.Some? then w.until.value else 0;
    if !settled { StoppedEarly(order, results, tried, env.count); }
  }

  lemma NothingTried(count: nat)
    ensures StillOpen([], [], {}, count)
  {
    assert Members([]) == {};
  }

  lemma NothingLeft(order: seq<nat>, results: seq<Attempt>, tried: set<nat>, count: nat)
    requires StillOpen(order, results, tried, count) && forall i :: 0 <= i < count ==> i in tried
    ensures |order| == count
  {
    assert Members(order) == Below(count);
    MembersSize(order);
  }
}
