/**
 All the threads that fetch through proxy pools, as a system of steps. Each step is
 what one thread does while it holds the pool lock, together with the local work
 around it; the steps of different threads interleave in any order.

 A `List` stands for a configured proxy list together with what is fixed about it:
 how many entries it has and how many connections each may have (0 or less for no
 limit).
 */
module ProxySteps {
  import opened Wrappers
  import opened ProxyChoice
  import opened ProxyHealth

  type Tid = nat

  datatype List = List(name: string, count: nat, limit: int)

  datatype Slot = Slot(list: List, index: nat)

  const POOL_MAX: nat := 64

  /** Where a thread is in its fetch. */
  datatype Pc =
    | Idle
    | Trying
    | Blocked
    | Chosen(index: nat)
    | Fetching(index: nat)
    | Fetched(index: nat, outcome: Outcome, final: bool)
    | Yielding(index: nat, outcome: Outcome, final: bool)
    | Releasing(index: nat, outcome: Outcome, final: bool)
    | Leaving

  /** `hold` is the connection counted against a limit, `used` the entry that last worked. */
  datatype Thread = Thread(
    hold: Option<Slot>,
    used: Option<Slot>,
    list: List,
    rotate: bool,
    tried: set<nat>,
    waiting: bool,
    pc: Pc)

  datatype World = World(pools: map<List, Pool>, threads: map<Tid, Thread>)

  predicate Working(pc: Pc) {
    !pc.Idle? && !pc.Trying? && !pc.Blocked? && !pc.Leaving?
  }

  function IndexOf(pc: Pc): nat
    requires Working(pc)
  {
    match pc
    case Chosen(i) => i
    case Fetching(i) => i
    case Fetched(i, _, _) => i
    case Yielding(i, _, _) => i
    case Releasing(i, _, _) => i
  }

  // --- the pools -----------------------------------------------------------------

  predicate HasPool(pools: map<List, Pool>, l: List) {
    l in pools || |pools| < POOL_MAX
  }

  function NewPool(l: List): Pool {
    Pool(0, 0, seq(l.count, _ => FRESH))
  }

  /** The pools after looking up `l`, which creates its pool if there is room for one. */
  function WithPool(pools: map<List, Pool>, l: List): map<List, Pool> {
    if l in pools || |pools| >= POOL_MAX then pools else pools[l := NewPool(l)]
  }

  predicate HasSlot(pools: map<List, Pool>, s: Slot) {
    s.list in pools && s.index < |pools[s.list].proxies|
  }

  function At(pools: map<List, Pool>, s: Slot): Proxy
    requires HasSlot(pools, s)
  {
    pools[s.list].proxies[s.index]
  }

  function Put(pools: map<List, Pool>, s: Slot, p: Proxy): map<List, Pool>
    requires HasSlot(pools, s)
  {
    var pool := pools[s.list];
    pools[s.list := pool.(proxies := pool.proxies[s.index := p])]
  }

  function Less(n: nat): nat { if n > 0 then n - 1 else 0 }

  /** proxy_hold_drop: the thread's hold no longer counts. */
  function DropHold(pools: map<List, Pool>, hold: Option<Slot>): map<List, Pool> {
    if hold.Some? && HasSlot(pools, hold.value)
    then var p := At(pools, hold.value); Put(pools, hold.value, p.(holders := Less(p.holders)))
    else pools
  }

  /** proxy_hold_move_locked: the thread's hold moves to `s`. */
  function MoveHold(pools: map<List, Pool>, hold: Option<Slot>, s: Slot): map<List, Pool>
    requires HasSlot(pools, s)
  {
    if hold == Some(s) then pools
    else
      var q := DropHold(pools, hold);
      var p := At(q, s);
      Put(q, s, p.(holders := p.holders + 1))
  }

  function AddWaiting(pools: map<List, Pool>, l: List, more: bool): map<List, Pool>
    requires l in pools
  {
    var pool := pools[l];
    pools[l := pool.(waiting := if more then pool.waiting + 1 else Less(pool.waiting))]
  }

  // --- the steps ---------------------------------------------------------------------

  datatype Step =
    | Spawn(t: Tid)
    | Begin(t: Tid, list: List, rotate: bool)
    | Acquire(t: Tid, now: int)
    | MarkWaiting(t: Tid)
    | StartFetch(t: Tid)
    | EndFetch(t: Tid, outcome: Outcome, final: bool)
    | CheckYield(t: Tid)
    | Yield(t: Tid)
    | ReleaseEntry(t: Tid, now: int)
    | GiveUp(t: Tid)
    | Leave(t: Tid)
    | CloseConnection(t: Tid)
    | Exit(t: Tid)

  function CallerOf(th: Thread): Caller {
    Caller(if th.hold.Some? && th.hold.value.list == th.list then Some(th.hold.value.index) else None,
           if th.used.Some? && th.used.value.list == th.list then Some(th.used.value.index) else None)
  }

  /** Which steps the program lets a thread take. */
  predicate Enabled(w: World, e: Step) {
    if e.Spawn? then e.t !in w.threads
    else
      && e.t in w.threads
      && var th := w.threads[e.t];
         match e
         case Begin(_, l, _) => th.pc.Idle? && 0 < l.count
         case Acquire(_, _) => th.pc.Trying?
         case MarkWaiting(_) => th.pc.Blocked?
         case StartFetch(_) => th.pc.Chosen?
         case EndFetch(_, _, _) => th.pc.Fetching?
         case CheckYield(_) => th.pc.Fetched?
         case Yield(_) => th.pc.Yielding?
         case ReleaseEntry(_, _) => th.pc.Releasing?
         case GiveUp(_) => th.pc.Blocked? || (th.pc.Trying? && (th.tried != {} || th.waiting))
         case Leave(_) => th.pc.Leaving?
         case CloseConnection(_) => th.pc.Idle? || th.pc.Fetching?
         case Exit(_) => th.pc.Idle?
  }

  /** With no room for another pool, the entries are taken in order and nothing is counted. */
  function FirstUntried(tried: set<nat>, i: nat, n: nat): (r: Option<nat>)
    requires i <= n
    ensures r.Some? ==> r.value < n && r.value !in tried
    ensures r.None? ==> forall j :: i <= j < n ==> j in tried
    decreases n - i
  {
    if i == n then None else if i !in tried then Some(i) else FirstUntried(tried, i + 1, n)
  }

  /** The entry counted as in use, and the rotation moved on. */
  function Taken(pools: map<List, Pool>, s: Slot, next: nat): map<List, Pool>
    requires HasSlot(pools, s)
  {
    var pool := pools[s.list];
    var p := pool.proxies[s.index];
    pools[s.list := pool.(nextRotate := next, proxies := pool.proxies[s.index := p.(inFlight := p.inFlight + 1)])]
  }

  /** proxy_acquire and what the caller notes down about its result. */
  function AcquireStep(w: World, t: Tid, now: int): World
    requires t in w.threads
  {
    var th := w.threads[t];
    var l := th.list;
    if HasPool(w.pools, l) then
      var pools := WithPool(w.pools, l);
      var pool := pools[l];
      var (choice, next) := Choose(pool, CallerOf(th), Request(th.rotate, th.tried, l.limit, now));
      match choice
      case AllFull => World(pools, w.threads[t := th.(pc := Blocked)])
      case NoneLeft => World(pools, w.threads[t := th.(pc := Leaving)])
      case Entry(i) =>
        if i >= |pool.proxies| then w
        else
          var s := Slot(l, i);
          var pools' := Taken(pools, s, next);
          if l.limit > 0 then
            World(MoveHold(pools', th.hold, s),
                  w.threads[t := th.(hold := Some(s), tried := th.tried + {i}, pc := Chosen(i))])
          else
            World(pools', w.threads[t := th.(tried := th.tried + {i}, pc := Chosen(i))])
    else
      match FirstUntried(th.tried, 0, l.count)
      case None => World(w.pools, w.threads[t := th.(pc := Leaving)])
      case Some(i) => World(w.pools, w.threads[t := th.(tried := th.tried + {i}, pc := Chosen(i))])
  }

  /** proxy_release, then either another round of the loop or the way out. */
  function ReleaseStep(w: World, t: Tid, now: int): World
    requires t in w.threads && w.threads[t].pc.Releasing?
  {
    var th := w.threads[t];
    var Releasing(i, outcome, final) := th.pc;
    var s := Slot(th.list, i);
    var pc := if final || |th.tried| >= th.list.count then Leaving else Trying;
    var pools := WithPool(w.pools, th.list);
    if HasSlot(pools, s) then
      World(Put(pools, s, Release(At(pools, s), outcome, now).proxy),
            w.threads[t := th.(used := if outcome.Ok? then Some(s) else th.used, pc := pc)])
    else World(pools, w.threads[t := th.(pc := pc)])
  }

  function Next(w: World, e: Step): World
    requires Enabled(w, e)
  {
    if e.Spawn? then
      World(w.pools, w.threads[e.t := Thread(None, None, List("", 0, 0), false, {}, false, Idle)])
    else
      var th := w.threads[e.t];
      match e
      case Begin(t, l, rotate) =>
        World(w.pools, w.threads[t := th.(list := l, rotate := rotate, tried := {}, waiting := false, pc := Trying)])
      case Acquire(t, now) => AcquireStep(w, t, now)
      case MarkWaiting(t) =>
        if !th.waiting && th.list in w.pools
        then World(AddWaiting(w.pools, th.list, true), w.threads[t := th.(waiting := true, pc := Trying)])
        else World(w.pools, w.threads[t := th.(pc := Trying)])
      case StartFetch(t) =>
        World(if th.waiting && th.list in w.pools then AddWaiting(w.pools, th.list, false) else w.pools,
              w.threads[t := th.(waiting := false, pc := Fetching(th.pc.index))])
      case EndFetch(t, outcome, final) =>
        World(w.pools, w.threads[t := th.(pc := Fetched(th.pc.index, outcome, final))])
      case CheckYield(t) =>
        var handsOver := th.list.limit > 0 && th.list in w.pools && w.pools[th.list].waiting > 0
                      && th.hold.Some? && th.hold.value.list == th.list;
        World(w.pools, w.threads[t := th.(pc := if handsOver then Yielding(th.pc.index, th.pc.outcome, th.pc.final)
                                                else Releasing(th.pc.index, th.pc.outcome, th.pc.final))])
      case Yield(t) =>
        World(DropHold(w.pools, th.hold),
              w.threads[t := th.(hold := None, pc := Releasing(th.pc.index, th.pc.outcome, th.pc.final))])
      case ReleaseEntry(t, now) => ReleaseStep(w, t, now)
      case GiveUp(t) => World(w.pools, w.threads[t := th.(pc := Leaving)])
      case Leave(t) =>
        World(if th.waiting && th.list in w.pools then AddWaiting(w.pools, th.list, false) else w.pools,
              w.threads[t := th.(waiting := false, pc := Idle)])
      case CloseConnection(t) => World(DropHold(w.pools, th.hold), w.threads[t := th.(hold := None)])
      case Exit(t) => World(DropHold(w.pools, th.hold), w.threads - {t})
  }
}
