/**
 How many URLs the cache is good for: while there are no more of them than entries, a
 shared answer was fetched for the caller's own URL, and with any larger set there is
 a run in which a waiter gets another URL's manifest.
 */
module MpdEviction {
  import opened Wrappers
  import opened MpdCache

  predicate FetchedFor(f: Fetch, pc: Pc)
    requires pc.Answered?
  {
    f.r.key.url == pc.r.key.url && pc.result == Shared(f.result, pc.r.errorRoom)
  }

  ghost predicate IsOwn(pc: Pc, log: seq<Fetch>)
    requires pc.Answered?
  {
    exists f :: f in log && FetchedFor(f, pc)
  }

  /** Every answer given from the cache is the result of a fetch for the caller's own URL. */
  ghost predicate OwnAnswers(w: World) {
    forall t :: t in w.threads && w.threads[t].Answered? && w.threads[t].cached ==> IsOwn(w.threads[t], w.log)
  }

  ghost predicate EndsWithOwn(run: seq<Step>, urls: set<string>) {
    Legal(Start(), run) && AllAsk(run, urls) ==> OwnAnswers(End(Start(), run))
  }

  /** So it is in every run that asks for these URLs only. */
  ghost predicate SharingIsSound(urls: set<string>) {
    forall run :: EndsWithOwn(run, urls)
  }

  // --- no more URLs than entries -------------------------------------------------

  lemma StillOwn(pc: Pc, log: seq<Fetch>, more: seq<Fetch>)
    requires pc.Answered? && IsOwn(pc, log)
    ensures IsOwn(pc, log + more)
  {
    var f :| f in log && FetchedFor(f, pc);
    assert f in log + more;
  }

  /** A step answers its own thread only, and no fetch is ever taken off the record. */
  lemma OthersStay(w: World, e: Step)
    requires Sane(w) && Enabled(w, e)
    ensures var w' := Next(w, e);
            && (forall t :: t in w'.threads && t != e.t ==> t in w.threads && w'.threads[t] == w.threads[t])
            && e.t in w'.threads && w.log <= w'.log
  {
  }

  lemma AnswersStayOwn(w: World, e: Step, urls: set<string>)
    requires Inv(w, urls) && |urls| <= SIZE && Enabled(w, e) && Asks(e, urls) && OwnAnswers(w)
    ensures Sane(w) && OwnAnswers(Next(w, e))
  {
    HitIsRecent(w, e, urls);
    OthersStay(w, e);
    var w' := Next(w, e);
    var pc := w'.threads[e.t];
    var more := w'.log[|w.log|..];
    assert w'.log == w.log + more;
    if pc.Answered? && pc.cached {
      var f :| f in w.log && IsSource(f, pc);
      assert FetchedFor(f, pc);
    }

    forall t | t in w'.threads && w'.threads[t].Answered? && w'.threads[t].cached
      ensures IsOwn(w'.threads[t], w'.log)
    {
      StillOwn(w'.threads[t], w.log, more);
    }
  }

  lemma {:induction false} AnswersAreOwn(w: World, run: seq<Step>, urls: set<string>)
    requires Inv(w, urls) && |urls| <= SIZE && Legal(w, run) && AllAsk(run, urls) && OwnAnswers(w)
    ensures OwnAnswers(End(w, run))
    decreases |run|
  {
    if run != [] {
      NextKeepsInv(w, run[0], urls);
      AnswersStayOwn(w, run[0], urls);
      AnswersAreOwn(Next(w, run[0]), run[1..], urls);
    }
  }

  // --- nine URLs -----------------------------------------------------------------

  predicate Nine(us: seq<string>) {
    |us| == SIZE + 1 && forall i, j :: 0 <= i < j < |us| ==> us[i] != us[j]
  }

  function Ask(url: string): Request {
    Request(Key(url, None, None, false), false, 0)
  }

  function Claimed(url: string): Entry {
    Claim(Reset(UNUSED, url), Ask(url))
  }

  /** The first `k` URLs are being fetched. */
  function Filled(us: seq<string>, k: nat): World
    requires Nine(us) && k <= SIZE
  {
    World(seq(SIZE, i requires 0 <= i < SIZE => if i < k then Claimed(us[i]) else UNUSED),
          map i: nat | i < k :: Fetching(i, Ask(us[i])), [], 0)
  }

  lemma FillOneMore(us: seq<string>, k: nat)
    requires Nine(us) && k < SIZE
    ensures Sane(Filled(us, k)) && Enabled(Filled(us, k), Arrive(k, Ask(us[k]), 0))
    ensures Next(Filled(us, k), Arrive(k, Ask(us[k]), 0)) == Filled(us, k + 1)
  {
    var w := Filled(us, k);
    assert Place(w.entries, us[k]) == (k, true) by { FirstUnused(us, w.entries, k, SIZE); }
    assert w.entries[k] == UNUSED;
    assert w.entries[k := Claimed(us[k])] == Filled(us, k + 1).entries;
    assert w.threads[k := Fetching(k, Ask(us[k]))] == Filled(us, k + 1).threads;
    hide Filled, Place;
  }

  lemma {:induction false} FirstUnused(us: seq<string>, entries: seq<Entry>, k: nat, n: nat)
    requires Nine(us) && k < SIZE && n <= |entries| <= SIZE
    requires forall i :: 0 <= i < |entries| ==> entries[i].url == if i < k then Some(us[i]) else None
    ensures ScanOf(entries, us[k], n).found.None?
    ensures ScanOf(entries, us[k], n).unused == if n <= k then None else Some(k)
  {
    if n > 0 {
      FirstUnused(us, entries, k, n - 1);
      assert us[n - 1] == us[k] ==> n - 1 == k;
    }
  }

  function Fill(us: seq<string>, k: nat): seq<Step>
    requires k <= |us|
  {
    if k == 0 then [] else Fill(us, k - 1) + [Arrive(k - 1, Ask(us[k - 1]), 0)]
  }

  lemma {:induction false} FillRun(us: seq<string>, k: nat)
    requires Nine(us) && k <= SIZE
    ensures Legal(Start(), Fill(us, k)) && End(Start(), Fill(us, k)) == Filled(us, k)
  {
    if k == 0 {
      assert Start().entries == Filled(us, 0).entries;
      assert Filled(us, 0).threads == map[];
    } else {
      FillRun(us, k - 1);
      FillOneMore(us, k - 1);
      RunOn(Start(), Fill(us, k - 1), Arrive(k - 1, Ask(us[k - 1]), 0));
    }
  }

  lemma {:induction false} RunOn(w: World, run: seq<Step>, e: Step)
    requires Legal(w, run) && Sane(End(w, run)) && Enabled(End(w, run), e)
    ensures Legal(w, run + [e]) && End(w, run + [e]) == Next(End(w, run), e)
    decreases |run|
  {
    var more := run + [e];
    if run == [] {
      assert more[1..] == [];
    } else {
      assert more[1..] == run[1..] + [e];
      RunOn(Next(w, run[0]), run[1..], e);
    }
  }

  lemma {:induction false} Joined(w: World, a: seq<Step>, b: seq<Step>)
    requires Legal(w, a) && Legal(End(w, a), b)
    ensures Legal(w, a + b) && End(w, a + b) == End(End(w, a), b)
    decreases |a|
  {
    hide Sane, Enabled, Next;
    if a == [] {
      assert a + b == b;
    } else {
      assert (a + b)[1..] == a[1..] + b;
      Joined(Next(w, a[0]), a[1..], b);
    }
  }

  lemma TwoSteps(w: World, w1: World, a: Step, b: Step)
    requires Sane(w) && Enabled(w, a) && w1 == Next(w, a) && Sane(w1) && Enabled(w1, b)
    ensures Legal(w, [a, b]) && End(w, [a, b]) == Next(w1, b)
  {
    hide Sane, Enabled, Next;
    var run := [a, b];
    assert run[1..] == [b] && [b][1..] == [];
    assert Legal(w1, [b]) && End(w1, [b]) == Next(w1, b);
  }

  /** With every entry in use and none written yet, a ninth URL goes to the first entry. */
  lemma {:induction false} NinthTakesFirst(us: seq<string>, entries: seq<Entry>, n: nat)
    requires Nine(us) && 0 < n <= SIZE && entries == Filled(us, SIZE).entries
    ensures ScanOf(entries, us[SIZE], n) == Scan(None, None, Some(0))
  {
    if n > 1 { NinthTakesFirst(us, entries, n - 1); }
  }

  lemma {:induction false} FirstIsFound(us: seq<string>, entries: seq<Entry>, n: nat)
    requires Nine(us) && 0 < n <= SIZE && entries == Filled(us, SIZE).entries
    ensures ScanOf(entries, us[0], n).found == Some(0)
  {
    if n > 1 { FirstIsFound(us, entries, n - 1); }
  }

  const FIRST := Body(Some("the first"), None)
  const NINTH := Body(Some("the ninth"), None)

  /** What two threads do after the entries are full: one waits for the first URL, one for its entry. */
  function Tail(us: seq<string>): (tail: seq<Step>)
    requires Nine(us)
  {
    [Arrive(SIZE, Ask(us[0]), 0), Arrive(SIZE + 1, Ask(us[SIZE]), 0), Finish(0, FIRST, 0),
     Wake(SIZE + 1, 0), Finish(SIZE + 1, NINTH, 0), Wake(SIZE, 0)]
  }

  /** All entries are being fetched, and two threads wait for the first: one for its URL, one to take it over. */
  ghost predicate BothWait(us: seq<string>, w: World)
    requires Nine(us)
  {
    && Sane(w) && w.entries == Filled(us, SIZE).entries && w.log == [] && w.clock == 0
    && 0 in w.threads && w.threads[0] == Fetching(0, Ask(us[0]))
    && SIZE in w.threads && w.threads[SIZE] == Waiting(0, Ask(us[0]))
    && SIZE + 1 in w.threads && w.threads[SIZE + 1] == Evicting(0, Ask(us[SIZE]))
  }

  /** With all entries being fetched, one more thread waits for the first URL and one for its entry. */
  lemma TwoMoreWait(us: seq<string>)
    requires Nine(us)
    ensures var run := [Arrive(SIZE, Ask(us[0]), 0), Arrive(SIZE + 1, Ask(us[SIZE]), 0)];
            Legal(Filled(us, SIZE), run) && BothWait(us, End(Filled(us, SIZE), run))
  {
    var w0 := Filled(us, SIZE);
    FirstIsFound(us, w0.entries, SIZE);
    var w1 := Next(w0, Arrive(SIZE, Ask(us[0]), 0));
    assert w1 == w0.(threads := w0.threads[SIZE := Waiting(0, Ask(us[0]))]);
    NinthTakesFirst(us, w1.entries, SIZE);
    TwoSteps(w0, w1, Arrive(SIZE, Ask(us[0]), 0), Arrive(SIZE + 1, Ask(us[SIZE]), 0));
  }

  /** The first fetch ends, and its entry goes to the thread that waits for it. */
  lemma NinthTakesOver(us: seq<string>, w2: World)
    requires Nine(us) && BothWait(us, w2)
    ensures var run := [Finish(0, FIRST, 0), Wake(SIZE + 1, 0)];
            Legal(w2, run)
            && var w := End(w2, run);
               && Sane(w) && SIZE in w.threads && w.threads[SIZE] == Waiting(0, Ask(us[0]))
               && SIZE + 1 in w.threads && w.threads[SIZE + 1] == Fetching(0, Ask(us[SIZE]))
               && !w.entries[0].guarded && !w.entries[0].ipv6
               && w.log == [Fetch(Ask(us[0]), FIRST, 0)] && w.clock == 0
  {
    var w3 := Next(w2, Finish(0, FIRST, 0));
    assert w3.entries[0] == Publish(Claimed(us[0]), Ask(us[0]), FIRST, 0);
    TwoSteps(w2, w3, Finish(0, FIRST, 0), Wake(SIZE + 1, 0));
  }

  /** The ninth URL's answer is what the first waiter then finds in the entry. */
  lemma WaiterIsAnswered(us: seq<string>, w4: World)
    requires Nine(us) && Sane(w4) && SIZE in w4.threads && SIZE + 1 in w4.threads
    requires w4.threads[SIZE] == Waiting(0, Ask(us[0])) && w4.threads[SIZE + 1] == Fetching(0, Ask(us[SIZE]))
    requires !w4.entries[0].guarded && !w4.entries[0].ipv6
    requires w4.log == [Fetch(Ask(us[0]), FIRST, 0)] && w4.clock == 0
    ensures var run := [Finish(SIZE + 1, NINTH, 0), Wake(SIZE, 0)];
            Legal(w4, run)
            && var w := End(w4, run);
               && SIZE in w.threads && w.threads[SIZE] == Answered(Ask(us[0]), NINTH, true, 0)
               && w.log == [Fetch(Ask(us[0]), FIRST, 0), Fetch(Ask(us[SIZE]), NINTH, 0)]
  {
    var w5 := Next(w4, Finish(SIZE + 1, NINTH, 0));
    assert w5.entries[0].xml == NINTH.xml;
    TwoSteps(w4, w5, Finish(SIZE + 1, NINTH, 0), Wake(SIZE, 0));
  }

  lemma TailRuns(us: seq<string>)
    requires Nine(us)
    ensures Legal(Filled(us, SIZE), Tail(us))
    ensures var w := End(Filled(us, SIZE), Tail(us));
            && SIZE in w.threads && w.threads[SIZE] == Answered(Ask(us[0]), NINTH, true, 0)
            && w.log == [Fetch(Ask(us[0]), FIRST, 0), Fetch(Ask(us[SIZE]), NINTH, 0)]
  {
    var w0 := Filled(us, SIZE);
    var a := [Arrive(SIZE, Ask(us[0]), 0), Arrive(SIZE + 1, Ask(us[SIZE]), 0)];
    var b := [Finish(0, FIRST, 0), Wake(SIZE + 1, 0)];
    var c := [Finish(SIZE + 1, NINTH, 0), Wake(SIZE, 0)];
    TwoMoreWait(us);
    assert Tail(us) == a + (b + c);
    hide *;
    NinthTakesOver(us, End(w0, a));
    WaiterIsAnswered(us, End(End(w0, a), b));
    Joined(End(w0, a), b, c);
    Joined(w0, a, b + c);
  }

  /**
   With a ninth URL a thread that waited for one URL is answered, from the cache, with
   what was fetched for another, since it does not look at the entry's URL again after
   the wait.
   */
  lemma NinthUrlIsMixedUp(us: seq<string>, urls: set<string>)
    requires Nine(us) && forall u :: u in us ==> u in urls
    ensures !SharingIsSound(urls)
  {
    var run := Fill(us, SIZE) + Tail(us);
    assert AllAsk(run, urls) by { FillAsks(us, SIZE, urls); }
    assert !EndsWithOwn(run, urls) by {
      hide Legal, AllAsk, OwnAnswers, Fill, Tail, Filled;
      FillRun(us, SIZE);
      TailRuns(us);
      Joined(Start(), Fill(us, SIZE), Tail(us));
      MixedUp(us, End(Start(), run));
    }
  }

  /** The one thread with the first URL and the ninth's manifest. */
  lemma MixedUp(us: seq<string>, w: World)
    requires Nine(us) && SIZE in w.threads && w.threads[SIZE] == Answered(Ask(us[0]), NINTH, true, 0)
    requires w.log == [Fetch(Ask(us[0]), FIRST, 0), Fetch(Ask(us[SIZE]), NINTH, 0)]
    ensures !OwnAnswers(w)
  {
    assert us[0] != us[SIZE];
    assert FIRST.xml.value[4] != NINTH.xml.value[4];
    assert forall f :: f in w.log ==> f == w.log[0] || f == w.log[1];
    assert !IsOwn(w.threads[SIZE], w.log);
  }

  lemma {:induction false} FillAsks(us: seq<string>, k: nat, urls: set<string>)
    requires k <= |us| && forall u :: u in us ==> u in urls
    ensures AllAsk(Fill(us, k), urls)
  {
    if k > 0 { FillAsks(us, k - 1, urls); }
  }

  lemma {:induction false} Listed(urls: set<string>, k: nat) returns (us: seq<string>)
    requires k <= |urls|
    ensures |us| == k && (forall i, j :: 0 <= i < j < k ==> us[i] != us[j]) && forall u :: u in us ==> u in urls
  {
    us := [];
    if k > 0 {
      var u :| u in urls;
      var rest := Listed(urls - {u}, k - 1);
      us := [u] + rest;
    }
  }

  /**
   Which URLs can share the cache: in all runs that ask only for `urls` every answer
   from the cache was fetched for the caller's own URL exactly when there are no more
   of them than entries.
   */
  lemma SharingNeedsRoom(urls: set<string>)
    ensures SharingIsSound(urls) <==> |urls| <= SIZE
  {
    if |urls| <= SIZE {
      StartOk(urls);
      forall run ensures EndsWithOwn(run, urls) {
        if Legal(Start(), run) && AllAsk(run, urls) { AnswersAreOwn(Start(), run, urls); }
      }
    } else {
      var us := Listed(urls, SIZE + 1);
      NinthUrlIsMixedUp(us, urls);
    }
  }
}
