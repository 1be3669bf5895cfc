/**
 What every step of every thread keeps: each counter of a proxy is the number of
 threads it stands for, and no connection limit is exceeded.
 */
module ProxyThreads {
  import opened Wrappers
  import opened ProxyChoice
  import opened ProxyHealth
  import opened ProxySteps

  // --- the invariant --------------------------------------------------------------------

  /** The threads whose hold names `s`. */
  ghost function Holding(threads: map<Tid, Thread>, s: Slot): set<Tid> {
    set t | t in threads && threads[t].hold == Some(s)
  }

  /** The threads between taking `s` and releasing it. */
  ghost function Using(threads: map<Tid, Thread>, s: Slot): set<Tid> {
    set t | t in threads && Working(threads[t].pc) && Slot(threads[t].list, IndexOf(threads[t].pc)) == s
  }

  ghost function Waiting(threads: map<Tid, Thread>, l: List): set<Tid> {
    set t | t in threads && threads[t].waiting && threads[t].list == l
  }

  /** The counters of a slot are the numbers of threads they stand for, within the limit. */
  ghost predicate SlotOk(w: World, s: Slot) {
    HasSlot(w.pools, s) ==>
      && At(w.pools, s).holders == |Holding(w.threads, s)|
      && At(w.pools, s).inFlight == |Using(w.threads, s)|
      && (s.list.limit > 0 ==> At(w.pools, s).holders <= s.list.limit)
  }

  ghost predicate PoolOk(w: World, l: List) {
    l in w.pools ==>
      && |w.pools[l].proxies| == l.count
      && w.pools[l].waiting == |Waiting(w.threads, l)|
  }

  ghost predicate ThreadOk(w: World, th: Thread) {
    && (th.hold.Some? ==> HasSlot(w.pools, th.hold.value) && th.hold.value.list.limit > 0)
    && (th.waiting ==> th.list in w.pools && !th.pc.Idle?)
    && (th.pc.Blocked? ==> th.list in w.pools)
    && (Working(th.pc) ==>
          && IndexOf(th.pc) < th.list.count && IndexOf(th.pc) in th.tried
          && (th.list in w.pools || |w.pools| >= POOL_MAX))
    && (forall i :: i in th.tried ==> i < th.list.count)
  }

  ghost predicate Inv(w: World) {
    && |w.pools| <= POOL_MAX
    && (forall s :: SlotOk(w, s))
    && (forall l :: PoolOk(w, l))
    && (forall t :: t in w.threads ==> ThreadOk(w, w.threads[t]))
  }

  // --- one thread changes: how the numbers move ------------------------------------------

  function Replace(threads: map<Tid, Thread>, t: Tid, th: Option<Thread>): map<Tid, Thread> {
    if th.Some? then threads[t := th.value] else threads - {t}
  }

  function Find(threads: map<Tid, Thread>, t: Tid): Option<Thread> {
    if t in threads then Some(threads[t]) else None
  }

  /** Whether the thread is one of those counted as holders of `s`, users of `s`, waiters on `l`. */
  predicate Holds(th: Option<Thread>, s: Slot) { th.Some? && th.value.hold == Some(s) }

  predicate Uses(th: Option<Thread>, s: Slot) {
    th.Some? && Working(th.value.pc) && Slot(th.value.list, IndexOf(th.value.pc)) == s
  }

  predicate Waits(th: Option<Thread>, l: List) { th.Some? && th.value.waiting && th.value.list == l }

  lemma Recount(threads: map<Tid, Thread>, t: Tid, th: Option<Thread>, s: Slot)
    ensures var threads', was := Replace(threads, t, th), Find(threads, t);
            && |Holding(threads', s)| == |Holding(threads, s)| - OneIf(Holds(was, s)) + OneIf(Holds(th, s))
            && |Using(threads', s)| == |Using(threads, s)| - OneIf(Uses(was, s)) + OneIf(Uses(th, s))
  {
    hide Working, IndexOf;
    var threads' := Replace(threads, t, th);
    HoldingMoves(threads, t, th, s);
    MemberCount(Holding(threads, s), Holding(threads', s), t, Holds(th, s));
    UsingMoves(threads, t, th, s);
    MemberCount(Using(threads, s), Using(threads', s), t, Uses(th, s));
  }

  lemma HoldingMoves(threads: map<Tid, Thread>, t: Tid, th: Option<Thread>, s: Slot)
    ensures Holding(Replace(threads, t, th), s)
            == if Holds(th, s) then Holding(threads, s) + {t} else Holding(threads, s) - {t}
  {
  }

  lemma UsingMoves(threads: map<Tid, Thread>, t: Tid, th: Option<Thread>, s: Slot)
    ensures Using(Replace(threads, t, th), s)
            == if Uses(th, s) then Using(threads, s) + {t} else Using(threads, s) - {t}
  {
    hide Working, IndexOf;
  }

  lemma RecountWaiting(threads: map<Tid, Thread>, t: Tid, th: Option<Thread>, l: List)
    ensures |Waiting(Replace(threads, t, th), l)|
            == |Waiting(threads, l)| - OneIf(Waits(Find(threads, t), l)) + OneIf(Waits(th, l))
  {
    var threads' := Replace(threads, t, th);
    assert Waiting(threads', l) == if Waits(th, l) then Waiting(threads, l) + {t} else Waiting(threads, l) - {t};
    MemberCount(Waiting(threads, l), Waiting(threads', l), t, Waits(th, l));
  }

  /** The pools keep their shape: the same slots, or also those of one new pool. */
  ghost predicate Grows(pools: map<List, Pool>, pools': map<List, Pool>) {
    && |pools'| <= POOL_MAX && |pools| <= |pools'|
    && (forall l :: l in pools ==> l in pools' && |pools'[l].proxies| == |pools[l].proxies|)
    && (forall l :: l in pools' && l !in pools ==>
          |pools| < POOL_MAX && |pools'[l].proxies| == l.count)
  }

  function HoldersAt(pools: map<List, Pool>, s: Slot): nat {
    if HasSlot(pools, s) then At(pools, s).holders else 0
  }

  function InFlightAt(pools: map<List, Pool>, s: Slot): nat {
    if HasSlot(pools, s) then At(pools, s).inFlight else 0
  }

  function WaitingAt(pools: map<List, Pool>, l: List): nat {
    if l in pools then pools[l].waiting else 0
  }

  /** The counters change as one thread's share in them does. */
  ghost predicate Moves(pools: map<List, Pool>, pools': map<List, Pool>, was: Option<Thread>, th: Option<Thread>) {
    && (forall s :: HasSlot(pools', s) ==>
          && HoldersAt(pools', s) == HoldersAt(pools, s) - OneIf(Holds(was, s)) + OneIf(Holds(th, s))
          && InFlightAt(pools', s) == InFlightAt(pools, s) - OneIf(Uses(was, s)) + OneIf(Uses(th, s)))
    && (forall l :: l in pools' ==>
          WaitingAt(pools', l) == WaitingAt(pools, l) - OneIf(Waits(was, l)) + OneIf(Waits(th, l)))
  }

  /** While no pool exists for a list that could get one, no thread is inside a request for it. */
  lemma NobodyOnNewPool(w: World, l: List, s: Slot)
    requires Inv(w) && l !in w.pools && |w.pools| < POOL_MAX && s.list == l
    ensures Holding(w.threads, s) == {} && Using(w.threads, s) == {} && Waiting(w.threads, l) == {}
  {
    forall t | t in w.threads ensures t !in Holding(w.threads, s) + Using(w.threads, s) + Waiting(w.threads, l) {
      assert ThreadOk(w, w.threads[t]);
    }
  }

  /** Counters that move with one thread still count what they should. */
  lemma StepKeepsInv(w: World, t: Tid, th: Option<Thread>, pools': map<List, Pool>)
    requires Inv(w)
    requires Grows(w.pools, pools') && Moves(w.pools, pools', Find(w.threads, t), th)
    requires forall s :: HasSlot(pools', s) && s.list.limit > 0 && Holds(th, s) && !Holds(Find(w.threads, t), s) ==>
               At(pools', s).holders <= s.list.limit
    requires th.Some? ==> ThreadOk(World(pools', Replace(w.threads, t, th)), th.value)
    ensures Inv(World(pools', Replace(w.threads, t, th)))
  {
    var w' := World(pools', Replace(w.threads, t, th));
    forall s ensures SlotOk(w', s) { StepSlot(w, t, th, pools', s); }
    forall l ensures PoolOk(w', l) { StepPool(w, t, th, pools', l); }
    forall u | u in w'.threads ensures ThreadOk(w', w'.threads[u]) {
      if u != t { StepOthers(w, pools', Replace(w.threads, t, th), u); }
    }
    hide SlotOk, PoolOk, ThreadOk, Moves, Grows;
  }

  lemma StepSlot(w: World, t: Tid, th: Option<Thread>, pools': map<List, Pool>, s: Slot)
    requires Inv(w) && Grows(w.pools, pools') && Moves(w.pools, pools', Find(w.threads, t), th)
    requires HasSlot(pools', s) && s.list.limit > 0 && Holds(th, s) && !Holds(Find(w.threads, t), s) ==>
               At(pools', s).holders <= s.list.limit
    ensures SlotOk(World(pools', Replace(w.threads, t, th)), s)
  {
    assert SlotOk(w, s);
    Recount(w.threads, t, th, s);
    if HasSlot(pools', s) && !HasSlot(w.pools, s) {
      assert PoolOk(w, s.list);
      NobodyOnNewPool(w, s.list, s);
    }
    if HasSlot(pools', s) {
      assert HoldersAt(pools', s)
             == HoldersAt(w.pools, s) - OneIf(Holds(Find(w.threads, t), s)) + OneIf(Holds(th, s));
      assert InFlightAt(pools', s)
             == InFlightAt(w.pools, s) - OneIf(Uses(Find(w.threads, t), s)) + OneIf(Uses(th, s));
    }
    hide Replace, Holding, Using, Holds, Uses, Find, Inv, Moves, Grows;
  }

  lemma StepPool(w: World, t: Tid, th: Option<Thread>, pools': map<List, Pool>, l: List)
    requires Inv(w) && Grows(w.pools, pools') && Moves(w.pools, pools', Find(w.threads, t), th)
    ensures PoolOk(World(pools', Replace(w.threads, t, th)), l)
  {
    assert PoolOk(w, l);
    RecountWaiting(w.threads, t, th, l);
    if l in pools' && l !in w.pools { NobodyOnNewPool(w, l, Slot(l, 0)); }
    hide Replace, Holding, Using, Waiting, Holds, Uses, Find, Inv;
  }

  lemma StepOthers(w: World, pools': map<List, Pool>, threads': map<Tid, Thread>, u: Tid)
    requires Inv(w) && Grows(w.pools, pools') && u in w.threads
    ensures ThreadOk(World(pools', threads'), w.threads[u])
  {
    assert ThreadOk(w, w.threads[u]);
  }

  // --- every step keeps the invariant ---------------------------------------------------

  lemma InvThread(w: World, t: Tid)
    requires Inv(w) && t in w.threads
    ensures ThreadOk(w, w.threads[t]) && |w.pools| <= POOL_MAX
  {
  }

  lemma HolderCounted(w: World, t: Tid, s: Slot)
    requires Inv(w) && t in w.threads && w.threads[t].hold == Some(s)
    ensures HasSlot(w.pools, s) && s.list.limit > 0 && 0 < At(w.pools, s).holders <= s.list.limit
  {
    assert ThreadOk(w, w.threads[t]);
    assert SlotOk(w, s);
    assert t in Holding(w.threads, s);
  }

  lemma UserCounted(w: World, t: Tid, s: Slot)
    requires Inv(w) && t in w.threads && Working(w.threads[t].pc)
    requires s == Slot(w.threads[t].list, IndexOf(w.threads[t].pc)) && s.list in w.pools
    ensures HasSlot(w.pools, s) && At(w.pools, s).inFlight > 0
  {
    assert ThreadOk(w, w.threads[t]);
    assert SlotOk(w, s) && PoolOk(w, s.list);
    assert t in Using(w.threads, s);
  }

  lemma WaiterCounted(w: World, t: Tid)
    requires Inv(w) && t in w.threads && w.threads[t].waiting
    ensures w.threads[t].list in w.pools && w.pools[w.threads[t].list].waiting > 0
  {
    assert ThreadOk(w, w.threads[t]);
    assert PoolOk(w, w.threads[t].list);
    assert t in Waiting(w.threads, w.threads[t].list);
  }

  /** Steps that touch no pool and change no count. */
  lemma LocalStep(w: World, t: Tid, th: Thread)
    requires Inv(w) && t in w.threads
    requires th.hold == w.threads[t].hold && th.waiting == w.threads[t].waiting
    requires th.waiting ==> th.list == w.threads[t].list
    requires Working(th.pc) == Working(w.threads[t].pc)
    requires Working(th.pc) ==> th.list == w.threads[t].list && IndexOf(th.pc) == IndexOf(w.threads[t].pc)
    requires ThreadOk(w, th)
    ensures Inv(World(w.pools, w.threads[t := th]))
  {
    StepKeepsInv(w, t, Some(th), w.pools);
  }

  /** Giving up the hold, and at most moving on within the same use of an entry. */
  predicate Drops(was: Thread, th: Option<Thread>) {
    match th
    case None => was.pc.Idle?
    case Some(x) =>
      && x == was.(hold := None, pc := x.pc)
      && Working(x.pc) == Working(was.pc)
      && (Working(x.pc) ==> IndexOf(x.pc) == IndexOf(was.pc))
      && (x.pc.Blocked? || x.pc.Idle? ==> x.pc == was.pc)
  }

  /** The thread's hold stops counting. */
  lemma DropStep(w: World, t: Tid, th: Option<Thread>)
    requires Inv(w) && t in w.threads && Drops(w.threads[t], th)
    ensures Inv(World(DropHold(w.pools, w.threads[t].hold), Replace(w.threads, t, th)))
  {
    hide Moves, Grows, DropHold, Inv, ThreadOk, Drops;
    DropMoves(w, t, th);
    NoNewHold(w.threads[t], th);
    StepKeepsInv(w, t, th, DropHold(w.pools, w.threads[t].hold));
  }

  /** Pools with the same slots, whose counters differ by one thread's share. */
  lemma MovesFrom(pools: map<List, Pool>, pools': map<List, Pool>, was: Thread, th: Option<Thread>)
    requires pools'.Keys == pools.Keys && |pools'| == |pools| <= POOL_MAX
    requires forall l :: l in pools ==> |pools'[l].proxies| == |pools[l].proxies|
    requires forall l :: l in pools ==>
               pools'[l].waiting == pools[l].waiting - OneIf(Waits(Some(was), l)) + OneIf(Waits(th, l))
    requires forall x :: HasSlot(pools, x) ==>
               && At(pools', x).holders == At(pools, x).holders - OneIf(Holds(Some(was), x)) + OneIf(Holds(th, x))
               && At(pools', x).inFlight == At(pools, x).inFlight - OneIf(Uses(Some(was), x)) + OneIf(Uses(th, x))
    ensures Grows(pools, pools') && Moves(pools, pools', Some(was), th)
  {
    hide Holds, Uses, Waits, OneIf;
  }

  lemma NoNewHold(was: Thread, th: Option<Thread>)
    requires Drops(was, th)
    ensures th.Some? ==> th.value.hold == None
  {
  }

  lemma DropMoves(w: World, t: Tid, th: Option<Thread>)
    requires Inv(w) && t in w.threads && Drops(w.threads[t], th)
    ensures var pools' := DropHold(w.pools, w.threads[t].hold);
            && Grows(w.pools, pools') && Moves(w.pools, pools', Some(w.threads[t]), th)
            && (th.Some? ==> ThreadOk(World(pools', Replace(w.threads, t, th)), th.value))
  {
    var was := w.threads[t];
    var pools' := DropHold(w.pools, was.hold);
    InvThread(w, t);
    assert Grows(w.pools, pools') && Moves(w.pools, pools', Some(was), th) by {
      if was.hold.Some? { HolderCounted(w, t, was.hold.value); }
      DropHoldCounts(w.pools, was.hold);
      hide DropHold, Inv, Grows, Moves, At, HasSlot;
      MovesFrom(w.pools, pools', was, th);
    }
    assert th.Some? ==> ThreadOk(World(pools', Replace(w.threads, t, th)), th.value) by {
      hide DropHold, Inv, Moves, At;
    }
  }

  /** The thread starts or stops being counted as waiting. */
  lemma WaitStep(w: World, t: Tid, th: Thread)
    requires Inv(w) && t in w.threads && w.threads[t].list in w.pools
    requires var was := w.threads[t];
             && th == was.(waiting := !was.waiting, pc := th.pc)
             && Working(th.pc) == Working(was.pc)
             && (Working(th.pc) ==> IndexOf(th.pc) == IndexOf(was.pc))
             && (th.waiting ==> !th.pc.Idle?)
    ensures Inv(World(AddWaiting(w.pools, th.list, th.waiting), w.threads[t := th]))
  {
    var was := w.threads[t];
    assert ThreadOk(w, was);
    if was.waiting { WaiterCounted(w, t); }
    var pools' := AddWaiting(w.pools, th.list, th.waiting);
    assert |pools'.Keys| == |pools'| && |w.pools.Keys| == |w.pools|;
    assert ThreadOk(World(pools', w.threads[t := th]), th);
    assert |w.pools| <= POOL_MAX;
    hide Inv, ThreadOk;
    MovesFrom(w.pools, pools', was, Some(th));
    hide Moves, Grows;
    StepKeepsInv(w, t, Some(th), pools');
  }

  lemma ReleaseKeepsInv(w: World, t: Tid, now: int)
    requires Inv(w) && t in w.threads && w.threads[t].pc.Releasing?
    ensures Inv(ReleaseStep(w, t, now))
  {
    ReleaseMoves(w, t, now);
    hide Moves, Grows, Inv, ThreadOk;
    StepKeepsInv(w, t, Some(ReleaseStep(w, t, now).threads[t]), ReleaseStep(w, t, now).pools);
  }

  lemma ReleaseMoves(w: World, t: Tid, now: int)
    requires Inv(w) && t in w.threads && w.threads[t].pc.Releasing?
    ensures var w' := ReleaseStep(w, t, now);
            && t in w'.threads && w'.threads == w.threads[t := w'.threads[t]]
            && w'.threads[t].hold == w.threads[t].hold
            && Grows(w.pools, w'.pools) && Moves(w.pools, w'.pools, Some(w.threads[t]), Some(w'.threads[t]))
            && ThreadOk(w', w'.threads[t])
  {
    hide Release, Put, Inv, At;
    var was := w.threads[t];
    var s := Slot(was.list, was.pc.index);
    InvThread(w, t);
    assert WithPool(w.pools, was.list) == w.pools;
    var w' := ReleaseStep(w, t, now);
    var th := w'.threads[t];
    assert Grows(w.pools, w'.pools) && Moves(w.pools, w'.pools, Some(was), Some(th)) by {
      if was.list in w.pools {
        UserCounted(w, t, s);
        ReleaseCounts(w.pools, s, was.pc.outcome, now);
      }
      hide Grows, Moves;
      MovesFrom(w.pools, w'.pools, was, Some(th));
    }
    assert ThreadOk(w', th) by { hide Moves; }
  }

  lemma ReleaseCounts(pools: map<List, Pool>, s: Slot, outcome: Outcome, now: int)
    requires HasSlot(pools, s) && At(pools, s).inFlight > 0
    ensures var q := Put(pools, s, Release(At(pools, s), outcome, now).proxy);
            && q.Keys == pools.Keys && |q| == |pools|
            && (forall l :: l in pools ==> |q[l].proxies| == |pools[l].proxies| && q[l].waiting == pools[l].waiting)
            && (forall x :: HasSlot(pools, x) ==>
                  && At(q, x).holders == At(pools, x).holders
                  && At(q, x).inFlight == At(pools, x).inFlight - OneIf(x == s))
  {
    var q := Put(pools, s, Release(At(pools, s), outcome, now).proxy);
    assert |q.Keys| == |q| && |pools.Keys| == |pools|;
  }

  lemma AcquireKeepsInv(w: World, t: Tid, now: int)
    requires Inv(w) && t in w.threads && w.threads[t].pc.Trying?
    ensures Inv(AcquireStep(w, t, now))
  {
    var l := w.threads[t].list;
    if HasPool(w.pools, l) {
      LookupKeepsInv(w, t);
      AcquireAfterLookup(w, t, now);
      AcquireFromPool(World(WithPool(w.pools, l), w.threads), t, now);
    } else {
      AcquireUncounted(w, t, now);
    }
  }

  lemma AcquireAfterLookup(w: World, t: Tid, now: int)
    requires t in w.threads && HasPool(w.pools, w.threads[t].list)
    ensures AcquireStep(w, t, now) == AcquireStep(World(WithPool(w.pools, w.threads[t].list), w.threads), t, now)
  {
    hide Choose, MoveHold, CallerOf;
    var th := w.threads[t];
    var pools := WithPool(w.pools, th.list);
    ChoiceIsSound(pools[th.list], CallerOf(th), Request(th.rotate, th.tried, th.list.limit, now));
  }

  /** Past the limit on pools, an entry is taken without being counted. */
  lemma AcquireUncounted(w: World, t: Tid, now: int)
    requires Inv(w) && t in w.threads && w.threads[t].pc.Trying? && !HasPool(w.pools, w.threads[t].list)
    ensures Inv(AcquireStep(w, t, now))
  {
    var was := w.threads[t];
    assert ThreadOk(w, was);
    var w' := AcquireStep(w, t, now);
    var th := w'.threads[t];
    assert ThreadOk(w', th);
    assert Moves(w.pools, w.pools, Some(was), Some(th));
    StepKeepsInv(w, t, Some(th), w.pools);
  }

  lemma LookupKeepsInv(w: World, t: Tid)
    requires Inv(w) && t in w.threads && HasPool(w.pools, w.threads[t].list)
    ensures Inv(World(WithPool(w.pools, w.threads[t].list), w.threads))
  {
    var th := w.threads[t];
    var pools' := WithPool(w.pools, th.list);
    assert ThreadOk(w, th);
    assert w.threads[t := th] == w.threads;
    assert Moves(w.pools, pools', Some(th), Some(th));
    assert ThreadOk(World(pools', w.threads), th);
    StepKeepsInv(w, t, Some(th), pools');
  }

  lemma AcquireFromPool(w: World, t: Tid, now: int)
    requires Inv(w) && t in w.threads && w.threads[t].pc.Trying? && w.threads[t].list in w.pools
    ensures Inv(AcquireStep(w, t, now))
  {
    var was := w.threads[t];
    var l := was.list;
    var pool := w.pools[l];
    var r := Request(was.rotate, was.tried, l.limit, now);
    assert ThreadOk(w, was) && PoolOk(w, l);
    ChoiceIsSound(pool, CallerOf(was), r);
    var choice := Choose(pool, CallerOf(was), r).0;
    match choice {
      case AllFull => LocalStep(w, t, was.(pc := Blocked));
      case NoneLeft => LocalStep(w, t, was.(pc := Leaving));
      case Entry(i) => TakeEntry(w, t, now, i, Choose(pool, CallerOf(was), r).1);
    }
  }

  /** The entry's use, and under a limit the hold, are counted; the limit is respected. */
  lemma TakeEntry(w: World, t: Tid, now: int, i: nat, next: nat)
    requires Inv(w) && t in w.threads && w.threads[t].pc.Trying? && w.threads[t].list in w.pools
    requires var th := w.threads[t];
             var r := Request(th.rotate, th.tried, th.list.limit, now);
             && Choose(w.pools[th.list], CallerOf(th), r) == (Entry(i), next)
             && Open(w.pools[th.list], i, CallerOf(th), r)
    ensures Inv(AcquireStep(w, t, now))
  {
    hide Moves, Grows, AcquireStep, Choose, TakenPools, Inv, ThreadOk, Taker, CallerOf, HasRoom;
    var th := Taker(w.threads[t], i);
    TakeEntryResult(w, t, now, i, next);
    TakeEntryCounts(w, t, i, next);
    ListHasCount(w, t, i);
    TakerOk(w, t, i, TakenPools(w, t, i, next));
    StepKeepsInv(w, t, Some(th), TakenPools(w, t, i, next));
  }

  lemma ListHasCount(w: World, t: Tid, i: nat)
    requires Inv(w) && t in w.threads && HasSlot(w.pools, Slot(w.threads[t].list, i))
    ensures i < w.threads[t].list.count
  {
    assert PoolOk(w, w.threads[t].list);
  }

  function TakenPools(w: World, t: Tid, i: nat, next: nat): map<List, Pool>
    requires t in w.threads && HasSlot(w.pools, Slot(w.threads[t].list, i))
  {
    var was := w.threads[t];
    var s := Slot(was.list, i);
    if was.list.limit > 0 then MoveHold(Taken(w.pools, s, next), was.hold, s) else Taken(w.pools, s, next)
  }

  lemma TakeEntryResult(w: World, t: Tid, now: int, i: nat, next: nat)
    requires t in w.threads && HasSlot(w.pools, Slot(w.threads[t].list, i))
    requires var th := w.threads[t];
             Choose(w.pools[th.list], CallerOf(th), Request(th.rotate, th.tried, th.list.limit, now))
             == (Entry(i), next)
    ensures AcquireStep(w, t, now)
            == World(TakenPools(w, t, i, next), w.threads[t := Taker(w.threads[t], i)])
  {
    hide Choose, MoveHold, CallerOf;
  }

  lemma {:induction false} TakeEntryCounts(w: World, t: Tid, i: nat, next: nat)
    requires Inv(w) && t in w.threads && w.threads[t].pc.Trying?
    requires var th := w.threads[t];
             HasSlot(w.pools, Slot(th.list, i)) && HasRoom(w.pools[th.list], i, CallerOf(th), th.list.limit)
    ensures var pools', th := TakenPools(w, t, i, next), Taker(w.threads[t], i);
            && Grows(w.pools, pools') && Moves(w.pools, pools', Some(w.threads[t]), Some(th))
            && forall s :: HasSlot(pools', s) && s.list.limit > 0 && Holds(Some(th), s)
                           && !Holds(Some(w.threads[t]), s) ==>
                 At(pools', s).holders <= s.list.limit
  {
    var was := w.threads[t];
    var s := Slot(was.list, i);
    var pools', th := TakenPools(w, t, i, next), Taker(was, i);
    if was.hold.Some? { HolderCounted(w, t, was.hold.value); }
    TakenCount(w, t, i, next);
    TakerShare(was, i);
    assert |w.pools| <= POOL_MAX;
    assert |pools'.Keys| == |pools'| && |w.pools.Keys| == |w.pools|;
    assert was.list.limit > 0 && was.hold != Some(s) ==> At(w.pools, s).holders < was.list.limit;
    hide TakenPools, Inv, HasRoom, Taker, Holds, Uses, Waits;
    MovesFrom(w.pools, pools', was, Some(th));
  }

  /** What taking an entry changes about what the thread is counted for. */
  lemma TakerShare(was: Thread, i: nat)
    requires was.pc.Trying?
    ensures var s, th := Slot(was.list, i), Taker(was, i);
            && (forall l :: Waits(Some(th), l) == Waits(Some(was), l))
            && (forall x :: Uses(Some(th), x) == (x == s) && !Uses(Some(was), x))
            && (forall x :: Holds(Some(was), x) == (was.hold == Some(x)))
            && (forall x :: Holds(Some(th), x) == if was.list.limit > 0 then x == s else was.hold == Some(x))
  {
  }

  lemma TakenCount(w: World, t: Tid, i: nat, next: nat)
    requires t in w.threads
    requires HasSlot(w.pools, Slot(w.threads[t].list, i))
    requires w.threads[t].hold.Some? ==>
               HasSlot(w.pools, w.threads[t].hold.value) && At(w.pools, w.threads[t].hold.value).holders > 0
    ensures var was, q := w.threads[t], TakenPools(w, t, i, next);
            var s := Slot(was.list, i);
            && q.Keys == w.pools.Keys
            && (forall l :: l in w.pools ==>
                  |q[l].proxies| == |w.pools[l].proxies| && q[l].waiting == w.pools[l].waiting)
            && (forall x :: HasSlot(w.pools, x) ==>
                  && At(q, x).inFlight == At(w.pools, x).inFlight + OneIf(x == s)
                  && At(q, x).holders == if was.list.limit > 0
                                         then At(w.pools, x).holders - OneIf(was.hold == Some(x)) + OneIf(x == s)
                                         else At(w.pools, x).holders)
  {
    var was := w.threads[t];
    var s := Slot(was.list, i);
    TakenCounts(w.pools, s, next);
    if was.list.limit > 0 { MoveHoldCounts(Taken(w.pools, s, next), was.hold, s); }
    hide Taken, MoveHold;
  }

  function Taker(was: Thread, i: nat): Thread {
    was.(hold := if was.list.limit > 0 then Some(Slot(was.list, i)) else was.hold,
         tried := was.tried + {i}, pc := Chosen(i))
  }

  lemma TakerOk(w: World, t: Tid, i: nat, pools': map<List, Pool>)
    requires Inv(w) && t in w.threads && w.threads[t].pc.Trying? && i < w.threads[t].list.count
    requires w.threads[t].list in w.pools && Grows(w.pools, pools')
    ensures ThreadOk(World(pools', w.threads[t := Taker(w.threads[t], i)]), Taker(w.threads[t], i))
  {
    assert ThreadOk(w, w.threads[t]) && PoolOk(w, w.threads[t].list);
  }

  lemma TakenCounts(pools: map<List, Pool>, s: Slot, next: nat)
    requires HasSlot(pools, s)
    ensures var q := Taken(pools, s, next);
            && q.Keys == pools.Keys && |q| == |pools|
            && (forall l :: l in pools ==> |q[l].proxies| == |pools[l].proxies| && q[l].waiting == pools[l].waiting)
            && (forall x :: HasSlot(pools, x) ==>
                  && At(q, x).holders == At(pools, x).holders
                  && At(q, x).inFlight == At(pools, x).inFlight + OneIf(x == s))
  {
    assert |Taken(pools, s, next).Keys| == |Taken(pools, s, next)| && |pools.Keys| == |pools|;
  }

  /** Moving a hold takes one from where it was and adds one where it goes. */
  lemma MoveHoldCounts(pools: map<List, Pool>, hold: Option<Slot>, s: Slot)
    requires HasSlot(pools, s)
    requires hold.Some? ==> HasSlot(pools, hold.value) && At(pools, hold.value).holders > 0
    ensures var q := MoveHold(pools, hold, s);
            && q.Keys == pools.Keys && |q| == |pools|
            && (forall l :: l in pools ==> |q[l].proxies| == |pools[l].proxies| && q[l].waiting == pools[l].waiting)
            && (forall x :: HasSlot(pools, x) ==>
                  && At(q, x).holders == At(pools, x).holders - OneIf(hold == Some(x)) + OneIf(x == s)
                  && At(q, x).inFlight == At(pools, x).inFlight)
  {
    var q := MoveHold(pools, hold, s);
    assert q.Keys == pools.Keys;
    assert |q.Keys| == |q| && |pools.Keys| == |pools|;
  }

  /** Dropping a hold takes one from where it was. */
  lemma DropHoldCounts(pools: map<List, Pool>, hold: Option<Slot>)
    requires hold.Some? ==> HasSlot(pools, hold.value) && At(pools, hold.value).holders > 0
    ensures var q := DropHold(pools, hold);
            && q.Keys == pools.Keys && |q| == |pools|
            && (forall l :: l in pools ==> |q[l].proxies| == |pools[l].proxies| && q[l].waiting == pools[l].waiting)
            && (forall x :: HasSlot(pools, x) ==>
                  && At(q, x).holders == At(pools, x).holders - OneIf(hold == Some(x))
                  && At(q, x).inFlight == At(pools, x).inFlight)
  {
    var q := DropHold(pools, hold);
    assert q.Keys == pools.Keys;
    assert |q.Keys| == |q| && |pools.Keys| == |pools|;
  }

  /** No interleaving of the threads breaks the counters or a limit. */
  lemma NextKeepsInv(w: World, e: Step)
    requires Inv(w) && Enabled(w, e)
    ensures Inv(Next(w, e))
  {
    match e {
      case Spawn(t) =>
        StepKeepsInv(w, t, Some(Thread(None, None, List("", 0, 0), false, {}, false, Idle)), w.pools);
      case Acquire(t, now) => AcquireKeepsInv(w, t, now);
      case ReleaseEntry(t, now) => ReleaseKeepsInv(w, t, now);
      case CloseConnection(t) => DropStep(w, t, Some(w.threads[t].(hold := None)));
      case Exit(t) => DropStep(w, t, None);
      case Yield(t) => DropStep(w, t, Some(Next(w, e).threads[t]));
      case MarkWaiting(t) => WaitingStep(w, e);
      case StartFetch(t) => WaitingStep(w, e);
      case Leave(t) => WaitingStep(w, e);
      case Begin(t, _, _) => assert ThreadOk(w, w.threads[t]); LocalStep(w, t, Next(w, e).threads[t]);
      case EndFetch(t, _, _) => assert ThreadOk(w, w.threads[t]); LocalStep(w, t, Next(w, e).threads[t]);
      case CheckYield(t) => assert ThreadOk(w, w.threads[t]); LocalStep(w, t, Next(w, e).threads[t]);
      case GiveUp(t) => assert ThreadOk(w, w.threads[t]); LocalStep(w, t, Next(w, e).threads[t]);
    }
  }

  lemma WaitingStep(w: World, e: Step)
    requires Inv(w) && Enabled(w, e) && (e.MarkWaiting? || e.StartFetch? || e.Leave?)
    ensures Inv(Next(w, e))
  {
    var was := w.threads[e.t];
    var th := Next(w, e).threads[e.t];
    assert ThreadOk(w, was);
    if th.waiting == was.waiting {
      LocalStep(w, e.t, th);
    } else {
      if was.waiting { WaiterCounted(w, e.t); }
      WaitStep(w, e.t, th);
    }
  }

  // --- whole runs -----------------------------------------------------------------------

  /** A run the program can make: every step is one its thread may take there. */
  ghost predicate Legal(w: World, run: seq<Step>)
    decreases |run|
  {
    run == [] || (Enabled(w, run[0]) && Legal(Next(w, run[0]), run[1..]))
  }

  ghost function End(w: World, run: seq<Step>): World
    requires Legal(w, run)
    decreases |run|
  {
    if run == [] then w else End(Next(w, run[0]), run[1..])
  }

  const START := World(map[], map[])

  lemma StartOk()
    ensures Inv(START)
  {
    forall s ensures SlotOk(START, s) {}
  }

  lemma {:induction false} InvOverRuns(w: World, run: seq<Step>)
    requires Inv(w) && Legal(w, run)
    ensures Inv(End(w, run))
    decreases |run|
  {
    if run != [] {
      NextKeepsInv(w, run[0]);
      InvOverRuns(Next(w, run[0]), run[1..]);
    }
  }

  /**
   In every interleaving, from the start: each counter of each proxy is the number
   of threads it stands for, and a connection limit is never exceeded.
   */
  lemma CountersAreExact(run: seq<Step>, s: Slot)
    requires Legal(START, run) && HasSlot(End(START, run).pools, s)
    ensures var w := End(START, run);
            && At(w.pools, s).holders == |Holding(w.threads, s)|
            && At(w.pools, s).inFlight == |Using(w.threads, s)|
            && w.pools[s.list].waiting == |Waiting(w.threads, s.list)|
            && (s.list.limit > 0 ==> |Holding(w.threads, s)| <= s.list.limit)
  {
    StartOk();
    InvOverRuns(START, run);
    assert SlotOk(End(START, run), s) && PoolOk(End(START, run), s.list);
  }

  /** One fetch is never handed an entry it has tried, and remembers the one it gets. */
  lemma AcquireTriesNewEntry(w: World, t: Tid, now: int)
    requires Inv(w) && t in w.threads && w.threads[t].pc.Trying?
    ensures var was, th := w.threads[t], AcquireStep(w, t, now).threads[t];
            th.pc.Chosen? ==> th.pc.index !in was.tried && th.tried == was.tried + {th.pc.index}
    ensures AcquireStep(w, t, now).threads[t].pc.Leaving? ==>
              forall i :: 0 <= i < w.threads[t].list.count ==> i in w.threads[t].tried
  {
    var th := w.threads[t];
    assert ThreadOk(w, th) && PoolOk(w, th.list);
    if HasPool(w.pools, th.list) {
      var pool := WithPool(w.pools, th.list)[th.list];
      ChoiceIsSound(pool, CallerOf(th), Request(th.rotate, th.tried, th.list.limit, now));
    }
  }
}
