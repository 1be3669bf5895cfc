/**
 The pools and the thread-local fields as they are updated in place, one lock
 section a method. Each method is the step of the same name in ProxySteps, so
 what ProxyThreads proves about every interleaving holds of these calls.
 */
module ProxyRegistry {
  import opened Wrappers
  import opened ProxyChoice
  import opened ProxyHealth
  import opened ProxySteps
  import opened ProxyThreads

  class Registry {
    var pools: map<List, Pool>
    var threads: map<Tid, Thread>

    constructor ()
      ensures Now() == START
    {
      pools, threads := map[], map[];
    }

    function Now(): World
      reads this
    {
      World(pools, threads)
    }

    /** Finds the pool of a list, creating it while there is room. */
    method Lookup(l: List) returns (found: bool)
      modifies this`pools
      ensures pools == WithPool(old(pools), l) && (found <==> l in pools)
      ensures found <==> HasPool(old(pools), l)
    {
      if l in pools { return true; }
      if |pools| >= POOL_MAX { return false; }
      pools := pools[l := NewPool(l)];
      return true;
    }

    /** One hand-out: the choice, its counters, and the caller's notes about it. */
    method Acquire(t: Tid, now: int)
      requires Inv(Now()) && t in threads && threads[t].pc.Trying?
      modifies this
      ensures Now() == AcquireStep(old(Now()), t, now) && Inv(Now())
    {
      AcquireKeepsInv(Now(), t, now);
      hide Inv, Choose, HasRoom, Taken, MoveHold, WithPool, FirstUntried;
      var th := threads[t];
      var l := th.list;
      var found := Lookup(l);
      if found {
        var pool := pools[l];
        var r := Request(th.rotate, th.tried, l.limit, now);
        ChoiceIsSound(pool, CallerOf(th), r);
        var choice, next := ChooseEntry(pool, CallerOf(th), r);
        match choice
        case AllFull => threads := threads[t := th.(pc := Blocked)];
        case NoneLeft => threads := threads[t := th.(pc := Leaving)];
        case Entry(i) =>
          TakeEntry(Slot(l, i), next, th.hold);
          threads := threads[t := th.(hold := if l.limit > 0 then Some(Slot(l, i)) else th.hold,
                                      tried := th.tried + {i}, pc := Chosen(i))];
      } else {
        var i := FirstNotTried(th.tried, l.count);
        threads := threads[t := if i < l.count then th.(tried := th.tried + {i}, pc := Chosen(i))
                                else th.(pc := Leaving)];
      }
    }

    method FirstNotTried(tried: set<nat>, n: nat) returns (i: nat)
      ensures i == match FirstUntried(tried, 0, n) case Some(j) => j case None => n
    {
      i := 0;
      while i < n && i in tried
        invariant i <= n && FirstUntried(tried, 0, n) == FirstUntried(tried, i, n)
      {
        i := i + 1;
      }
    }

    method TakeEntry(s: Slot, next: nat, hold: Option<Slot>)
      requires HasSlot(pools, s)
      modifies this`pools
      ensures pools == if s.list.limit > 0 then MoveHold(Taken(old(pools), s, next), hold, s)
                       else Taken(old(pools), s, next)
    {
      var pool := pools[s.list];
      var p := pool.proxies[s.index];
      pools := pools[s.list := pool.(nextRotate := next,
                                     proxies := pool.proxies[s.index := p.(inFlight := p.inFlight + 1)])];
      if s.list.limit > 0 { MoveHoldTo(hold, s); }
    }

    method MoveHoldTo(hold: Option<Slot>, s: Slot)
      requires HasSlot(pools, s)
      modifies this`pools
      ensures pools == MoveHold(old(pools), hold, s)
    {
      if hold == Some(s) { return; }
      if hold.Some? && HasSlot(pools, hold.value) {
        var before := At(pools, hold.value);
        pools := Put(pools, hold.value, before.(holders := Less(before.holders)));
      }
      var p := At(pools, s);
      pools := Put(pools, s, p.(holders := p.holders + 1));
    }

    /** A hold that is given up no longer counts. */
    method HoldDrop(hold: Option<Slot>)
      modifies this`pools
      ensures pools == DropHold(old(pools), hold)
    {
      if hold.Some? && HasSlot(pools, hold.value) {
        var p := At(pools, hold.value);
        pools := Put(pools, hold.value, p.(holders := Less(p.holders)));
      }
    }

    /** The thread's cached connection has closed. */
    method CloseConnection(t: Tid)
      requires Inv(Now()) && Enabled(Now(), Step.CloseConnection(t))
      modifies this
      ensures Now() == Next(old(Now()), Step.CloseConnection(t)) && Inv(Now())
    {
      NextKeepsInv(Now(), Step.CloseConnection(t));
      var th := threads[t];
      HoldDrop(th.hold);
      threads := threads[t := th.(hold := None)];
    }

    /** The thread ends, and its connection with it. */
    method Exit(t: Tid)
      requires Inv(Now()) && Enabled(Now(), Step.Exit(t))
      modifies this
      ensures Now() == Next(old(Now()), Step.Exit(t)) && Inv(Now())
    {
      NextKeepsInv(Now(), Step.Exit(t));
      HoldDrop(threads[t].hold);
      threads := threads - {t};
    }

    /** Whether another request waits for the slot the thread has just finished with. */
    method CheckYield(t: Tid) returns (handsOver: bool)
      requires Inv(Now()) && Enabled(Now(), Step.CheckYield(t))
      modifies this
      ensures Now() == Next(old(Now()), Step.CheckYield(t)) && Inv(Now())
      ensures handsOver <==> threads[t].pc.Yielding?
    {
      NextKeepsInv(Now(), Step.CheckYield(t));
      InvThread(Now(), t);
      hide Inv;
      var th := threads[t];
      var Fetched(i, outcome, final) := th.pc;
      handsOver := false;
      if th.list.limit > 0 {
        var found := Lookup(th.list);
        handsOver := found && pools[th.list].waiting > 0 && th.hold.Some? && th.hold.value.list == th.list;
      }
      threads := threads[t := th.(pc := if handsOver then Yielding(i, outcome, final)
                                        else Releasing(i, outcome, final))];
    }

    /** It hands the slot over instead of keeping its connection. */
    method Yield(t: Tid)
      requires Inv(Now()) && Enabled(Now(), Step.Yield(t))
      modifies this
      ensures Now() == Next(old(Now()), Step.Yield(t)) && Inv(Now())
    {
      NextKeepsInv(Now(), Step.Yield(t));
      var th := threads[t];
      HoldDrop(th.hold);
      threads := threads[t := th.(hold := None, pc := Releasing(th.pc.index, th.pc.outcome, th.pc.final))];
    }

    /** One request more or fewer is counted as waiting on a list. */
    method WaitMark(l: List, more: bool)
      modifies this`pools
      ensures var q := WithPool(old(pools), l); pools == if l in q then AddWaiting(q, l, more) else q
    {
      var found := Lookup(l);
      if found {
        var pool := pools[l];
        pools := pools[l := pool.(waiting := if more then pool.waiting + 1
                                             else if pool.waiting > 0 then pool.waiting - 1 else 0)];
      }
    }

    /** A request finds every proxy full and is counted as waiting, once. */
    method MarkWaiting(t: Tid)
      requires Inv(Now()) && Enabled(Now(), Step.MarkWaiting(t))
      modifies this
      ensures Now() == Next(old(Now()), Step.MarkWaiting(t)) && Inv(Now())
    {
      NextKeepsInv(Now(), Step.MarkWaiting(t));
      InvThread(Now(), t);
      hide Inv;
      var th := threads[t];
      if !th.waiting { WaitMark(th.list, true); }
      threads := threads[t := th.(waiting := true, pc := Trying)];
    }

    /** A request that has an entry waits no longer. */
    method StartFetch(t: Tid)
      requires Inv(Now()) && Enabled(Now(), Step.StartFetch(t))
      modifies this
      ensures Now() == Next(old(Now()), Step.StartFetch(t)) && Inv(Now())
    {
      NextKeepsInv(Now(), Step.StartFetch(t));
      InvThread(Now(), t);
      hide Inv;
      var th := threads[t];
      if th.waiting { WaitMark(th.list, false); }
      threads := threads[t := th.(waiting := false, pc := Fetching(th.pc.index))];
    }

    /** Nor does one that has given up. */
    method Leave(t: Tid)
      requires Inv(Now()) && Enabled(Now(), Step.Leave(t))
      modifies this
      ensures Now() == Next(old(Now()), Step.Leave(t)) && Inv(Now())
    {
      NextKeepsInv(Now(), Step.Leave(t));
      InvThread(Now(), t);
      hide Inv;
      var th := threads[t];
      if th.waiting { WaitMark(th.list, false); }
      threads := threads[t := th.(waiting := false, pc := Idle)];
    }

    /** The end of an attempt: health, counters, and whether another entry is tried. */
    method ReleaseEntry(t: Tid, now: int) returns (change: int, benches: nat)
      requires Inv(Now()) && t in threads && threads[t].pc.Releasing?
      modifies this
      ensures Now() == ReleaseStep(old(Now()), t, now) && Inv(Now())
      ensures var s := Slot(old(threads)[t].list, old(threads)[t].pc.index);
              if HasSlot(old(pools), s)
              then var v := Release(At(old(pools), s), old(threads)[t].pc.outcome, now);
                   change == v.change && benches == v.benches
              else change == 0 && benches == 0
    {
      ReleaseKeepsInv(Now(), t, now);
      InvThread(Now(), t);
      var th := threads[t];
      var Releasing(i, outcome, final) := th.pc;
      var s := Slot(th.list, i);
      var pc := if final || |th.tried| >= th.list.count then Leaving else Trying;
      var found := Lookup(th.list);
      change, benches := 0, 0;
      if HasSlot(pools, s) {
        var v := Release(At(pools, s), outcome, now);
        pools := Put(pools, s, v.proxy);
        change, benches := v.change, v.benches;
        threads := threads[t := th.(used := if outcome.Ok? then Some(s) else th.used, pc := pc)];
      } else {
        threads := threads[t := th.(pc := pc)];
      }
    }
  }
}
