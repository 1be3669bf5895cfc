/**
 Which proxy of a pool a request gets: the choice made under the pool's lock, and
 the fairness of the rotation.
 */
module ProxyChoice {
  import opened Wrappers

  datatype Proxy = Proxy(
    known: bool,
    healthy: bool,
    failures: nat,
    benches: nat,
    inFlight: nat,
    holders: nat,
    retryAt: int)

  const FRESH := Proxy(false, false, 0, 0, 0, 0, 0)

  datatype Pool = Pool(nextRotate: nat, waiting: nat, proxies: seq<Proxy>)

  /** What the calling thread brings: the entry it holds and the entry it last used, in this pool. */
  datatype Caller = Caller(held: Option<nat>, last: Option<nat>)

  datatype Request = Request(rotate: bool, tried: set<nat>, limit: int, now: int)

  datatype Choice = Entry(index: nat) | NoneLeft | AllFull

  predicate HasRoom(pool: Pool, i: nat, caller: Caller, limit: int)
    requires i < |pool.proxies|
  {
    limit <= 0 || caller.held == Some(i) || pool.proxies[i].holders < limit
  }

  /** Entries this request may still be given. */
  predicate Open(pool: Pool, i: nat, caller: Caller, r: Request) {
    i < |pool.proxies| && i !in r.tried && HasRoom(pool, i, caller, r.limit)
  }

  predicate Unchecked(pool: Pool, i: nat)
    requires i < |pool.proxies|
  {
    !pool.proxies[i].known && pool.proxies[i].inFlight == 0
  }

  /** Benched, its cooldown over, and nobody is trying it. */
  predicate Due(pool: Pool, i: nat, now: int)
    requires i < |pool.proxies|
  {
    var h := pool.proxies[i];
    h.known && !h.healthy && h.retryAt <= now && h.inFlight == 0
  }

  predicate Healthy(pool: Pool, i: nat)
    requires i < |pool.proxies|
  {
    pool.proxies[i].healthy
  }

  predicate Cooling(pool: Pool, i: nat, now: int)
    requires i < |pool.proxies|
  {
    var h := pool.proxies[i];
    h.known && !h.healthy && h.retryAt > now
  }

  // --- the choice, tier by tier ---------------------------------------------

  function UncheckedSet(pool: Pool, c: Caller, r: Request): set<nat> {
    set i | 0 <= i < |pool.proxies| && Open(pool, i, c, r) && Unchecked(pool, i)
  }

  function DueSet(pool: Pool, c: Caller, r: Request): set<nat> {
    set i | 0 <= i < |pool.proxies| && Open(pool, i, c, r) && Due(pool, i, r.now)
  }

  function HealthySet(pool: Pool, c: Caller, r: Request): set<nat> {
    set i | 0 <= i < |pool.proxies| && Open(pool, i, c, r) && Healthy(pool, i)
  }

  function OpenSet(pool: Pool, c: Caller, r: Request): set<nat> {
    set i | 0 <= i < |pool.proxies| && Open(pool, i, c, r)
  }

  /** The least element of `s` in [i, n). */
  function Least(s: set<nat>, i: nat, n: nat): (r: Option<nat>)
    requires i <= n
    ensures r.Some? ==> i <= r.value < n && r.value in s && forall j :: i <= j < r.value ==> j !in s
    ensures r.None? ==> forall j :: i <= j < n ==> j !in s
    decreases n - i
  {
    if i == n then None else if i in s then Some(i) else Least(s, i + 1, n)
  }

  /** `step` places on from `start`, going round. */
  function Place(start: nat, step: nat, n: nat): (i: nat)
    requires start < n && step < n
    ensures i < n && i == if start + step < n then start + step else start + step - n
  {
    Modulo(start + step, n);
    (start + step) % n
  }

  lemma Modulo(x: nat, n: nat)
    requires 0 < n && x < 2 * n
    ensures x % n == if x < n then x else x - n
  {
    if x >= n { assert x / n == 1; }
  }

  /** The first element of `s` met going round from `start`, `step` places already passed. */
  function Round(s: set<nat>, start: nat, step: nat, n: nat): (r: Option<nat>)
    requires start < n && step <= n
    ensures r.Some? ==> r.value < n && r.value in s
    ensures r.Some? ==> exists j :: step <= j < n && r.value == Place(start, j, n)
                                    && forall k :: step <= k < j ==> Place(start, k, n) !in s
    ensures r.None? ==> forall j :: step <= j < n ==> Place(start, j, n) !in s
    decreases n - step
  {
    if step == n then None
    else if Place(start, step, n) in s then Some(Place(start, step, n))
    else Round(s, start, step + 1, n)
  }

  /** Of the entries of `s` below `i`, the first with the earliest retry time. */
  function Earliest(pool: Pool, s: set<nat>, i: nat): (r: Option<nat>)
    requires i <= |pool.proxies|
    ensures r.Some? ==> r.value < i && r.value in s
    ensures r.Some? ==> forall j :: 0 <= j < i && j in s ==> pool.proxies[r.value].retryAt <= pool.proxies[j].retryAt
    ensures r.None? ==> forall j :: 0 <= j < i ==> j !in s
  {
    if i == 0 then None
    else
      var best := Earliest(pool, s, i - 1);
      if i - 1 in s && (best.None? || pool.proxies[i - 1].retryAt < pool.proxies[best.value].retryAt)
      then Some(i - 1) else best
  }

  predicate Sticks(pool: Pool, c: Caller, r: Request) {
    r.rotate && c.last.Some? && Open(pool, c.last.value, c, r) && Healthy(pool, c.last.value)
  }

  /** The entry handed out, and the pool's rotation point afterwards. */
  function Choose(pool: Pool, c: Caller, r: Request): (out: (Choice, nat)) {
    var n := |pool.proxies|;
    if Sticks(pool, c, r) then (Entry(c.last.value), pool.nextRotate)
    else
      var unchecked := Least(UncheckedSet(pool, c, r), 0, n);
      if unchecked.Some? then (Entry(unchecked.value), pool.nextRotate)
      else
        var due := Least(DueSet(pool, c, r), 0, n);
        if due.Some? then (Entry(due.value), pool.nextRotate)
        else
          var start := if r.rotate && n > 0 then pool.nextRotate % n else 0;
          var healthy := if n == 0 then None else if r.rotate then Round(HealthySet(pool, c, r), start, 0, n)
                         else Least(HealthySet(pool, c, r), 0, n);
          if healthy.Some? then
            (Entry(healthy.value), if r.rotate then (healthy.value + 1) % n else pool.nextRotate)
          else
            var earliest := Earliest(pool, OpenSet(pool, c, r), n);
            if earliest.Some? then (Entry(earliest.value), pool.nextRotate)
            else if exists i :: 0 <= i < n && i !in r.tried then (AllFull, pool.nextRotate)
            else (NoneLeft, pool.nextRotate)
  }

  // --- what the choice guarantees --------------------------------------------

  /** Going round meets every place. */
  lemma RoundMeetsAll(s: set<nat>, start: nat, n: nat, i: nat)
    requires i < n && i in s && start < n
    ensures Round(s, start, 0, n).Some?
  {
    assert Place(start, if i >= start then i - start else i + n - start, n) == i;
  }

  lemma FullIsLimited(pool: Pool, i: nat, c: Caller, r: Request)
    requires i < |pool.proxies| && i !in r.tried && !Open(pool, i, c, r)
    ensures r.limit > 0
  {
  }

  /**
   The hand-out: an entry not tried before, with room under the limit; "none left"
   exactly when everything was tried; "all full" exactly when something is
   untried and all of that is full.
   */
  lemma ChoiceIsSound(pool: Pool, c: Caller, r: Request)
    ensures var choice := Choose(pool, c, r).0;
            && (choice.Entry? ==> Open(pool, choice.index, c, r))
            && (choice.NoneLeft? <==> forall i :: 0 <= i < |pool.proxies| ==> i in r.tried)
            && (choice.AllFull? <==>
                  && (exists i :: 0 <= i < |pool.proxies| && i !in r.tried)
                  && forall i :: 0 <= i < |pool.proxies| ==> !Open(pool, i, c, r))
    ensures Choose(pool, c, r).0.AllFull? ==> r.limit > 0
  {
    var n := |pool.proxies|;
    var choice := Choose(pool, c, r).0;
    if choice.AllFull? {
      forall i | 0 <= i < n ensures !Open(pool, i, c, r) {
        assert i !in OpenSet(pool, c, r);
      }
      var i :| 0 <= i < n && i !in r.tried;
      FullIsLimited(pool, i, c, r);
    } else if choice.Entry? {
      assert Open(pool, choice.index, c, r);
    }
  }

  /**
   A proxy inside its cooldown is handed out only when no untried entry with room
   is healthy, unchecked and idle, or due for a re-check; and then it is one with
   the earliest retry time.
   */
  lemma CooldownIsLastResort(pool: Pool, c: Caller, r: Request)
    requires Choose(pool, c, r).0.Entry?
    ensures var i := Choose(pool, c, r).0.index;
            i < |pool.proxies| && (Cooling(pool, i, r.now) ==>
              forall j {:trigger pool.proxies[j]} :: 0 <= j < |pool.proxies| && Open(pool, j, c, r) ==>
                && !Healthy(pool, j) && !Unchecked(pool, j) && !Due(pool, j, r.now)
                && pool.proxies[i].retryAt <= pool.proxies[j].retryAt)
  {
    var n := |pool.proxies|;
    var i := Choose(pool, c, r).0.index;
    if Cooling(pool, i, r.now) {
      var start := if r.rotate && n > 0 then pool.nextRotate % n else 0;
      forall j | 0 <= j < n && j in HealthySet(pool, c, r) ensures false {
        if r.rotate { RoundMeetsAll(HealthySet(pool, c, r), start, n, j); }
      }
      forall j | 0 <= j < n && Open(pool, j, c, r)
        ensures !Healthy(pool, j) && !Unchecked(pool, j) && !Due(pool, j, r.now)
                && pool.proxies[i].retryAt <= pool.proxies[j].retryAt
      {
        assert j in OpenSet(pool, c, r);
        assert j !in HealthySet(pool, c, r) && j !in UncheckedSet(pool, c, r) && j !in DueSet(pool, c, r);
      }
    }
  }

  /**
   The order of the tiers: the thread's own entry, then one nobody has checked, then
   one due for a re-check, then a healthy one; within the first two the lowest index.
   */
  lemma TiersInOrder(pool: Pool, c: Caller, r: Request, j: nat)
    requires Open(pool, j, c, r)
    ensures var choice := Choose(pool, c, r).0;
            && (Sticks(pool, c, r) ==> choice == Entry(c.last.value))
            && (!Sticks(pool, c, r) && Unchecked(pool, j) ==>
                  choice.Entry? && choice.index <= j && Open(pool, choice.index, c, r) && Unchecked(pool, choice.index))
            && (!Sticks(pool, c, r) && Due(pool, j, r.now) ==>
                  choice.Entry? && Open(pool, choice.index, c, r)
                  && (Unchecked(pool, choice.index) || (Due(pool, choice.index, r.now) && choice.index <= j)))
            && (!Sticks(pool, c, r) && Healthy(pool, j) ==>
                  choice.Entry? && Open(pool, choice.index, c, r)
                  && (Unchecked(pool, choice.index) || Due(pool, choice.index, r.now) || Healthy(pool, choice.index)))
  {
    var n := |pool.proxies|;
    var start := if r.rotate then pool.nextRotate % n else 0;
    assert Unchecked(pool, j) ==> j in UncheckedSet(pool, c, r);
    assert Due(pool, j, r.now) ==> j in DueSet(pool, c, r);
    if Healthy(pool, j) && r.rotate { RoundMeetsAll(HealthySet(pool, c, r), start, n, j); }
    assert Healthy(pool, j) ==> j in HealthySet(pool, c, r);
  }

  // --- the choice as it is computed -------------------------------------------

  /** The scan over the entries, tier by tier, as it runs under the lock. */
  method ChooseEntry(pool: Pool, c: Caller, r: Request) returns (choice: Choice, nextRotate: nat)
    ensures (choice, nextRotate) == Choose(pool, c, r)
  {
    var n := |pool.proxies|;
    var chosen := n;
    nextRotate := pool.nextRotate;
    if r.rotate && c.last.Some? && c.last.value < n && c.last.value !in r.tried
       && pool.proxies[c.last.value].healthy && HasRoom(pool, c.last.value, c, r.limit) {
      chosen := c.last.value;
    }
    if chosen == n { chosen := FirstUnchecked(pool, c, r); }
    if chosen == n { chosen := FirstDue(pool, c, r); }
    if chosen == n {
      var start := if r.rotate && n > 0 then pool.nextRotate % n else 0;
      chosen := FirstHealthy(pool, c, r, start);
      if r.rotate && chosen < n {
        nextRotate := if chosen + 1 == n then 0 else chosen + 1;
        Modulo(chosen + 1, n);
      }
    }
    var full := false;
    if chosen == n { chosen, full := FirstEarliest(pool, c, r); }
    if chosen == n && full { choice := AllFull; }
    else if chosen == n { choice := NoneLeft; }
    else { choice := Entry(chosen); }
  }

  method FirstUnchecked(pool: Pool, c: Caller, r: Request) returns (chosen: nat)
    ensures match Least(UncheckedSet(pool, c, r), 0, |pool.proxies|)
            case None => chosen == |pool.proxies|
            case Some(i) => chosen == i
  {
    var n := |pool.proxies|;
    ghost var s := UncheckedSet(pool, c, r);
    for i := 0 to n
      invariant Least(s, 0, n) == Least(s, i, n)
    {
      if i !in r.tried && !pool.proxies[i].known && pool.proxies[i].inFlight == 0
         && HasRoom(pool, i, c, r.limit) {
        return i;
      }
    }
    return n;
  }

  method FirstDue(pool: Pool, c: Caller, r: Request) returns (chosen: nat)
    ensures match Least(DueSet(pool, c, r), 0, |pool.proxies|)
            case None => chosen == |pool.proxies|
            case Some(i) => chosen == i
  {
    var n := |pool.proxies|;
    ghost var s := DueSet(pool, c, r);
    for i := 0 to n
      invariant Least(s, 0, n) == Least(s, i, n)
    {
      var h := pool.proxies[i];
      if i !in r.tried && h.known && !h.healthy && h.retryAt <= r.now && h.inFlight == 0
         && HasRoom(pool, i, c, r.limit) {
        return i;
      }
    }
    return n;
  }

  method FirstHealthy(pool: Pool, c: Caller, r: Request, start: nat) returns (chosen: nat)
    requires r.rotate && |pool.proxies| > 0 ==> start < |pool.proxies|
    ensures var n := |pool.proxies|;
            match if n == 0 then None else if r.rotate then Round(HealthySet(pool, c, r), start, 0, n)
                  else Least(HealthySet(pool, c, r), 0, n)
            case None => chosen == n
            case Some(i) => chosen == i
  {
    var n := |pool.proxies|;
    ghost var s := HealthySet(pool, c, r);
    assert forall i: nat :: i in s <==>
                              i < n && i !in r.tried && pool.proxies[i].healthy && HasRoom(pool, i, c, r.limit);
    hide HealthySet, HasRoom;
    for step := 0 to n
      invariant r.rotate && n > 0 ==> Round(s, start, 0, n) == Round(s, start, step, n)
      invariant !r.rotate ==> Least(s, 0, n) == Least(s, step, n)
    {
      var i := if r.rotate then Place(start, step, n) else step;
      if i !in r.tried && pool.proxies[i].healthy && HasRoom(pool, i, c, r.limit) {
        return i;
      }
    }
    return n;
  }

  method FirstEarliest(pool: Pool, c: Caller, r: Request) returns (chosen: nat, full: bool)
    ensures match Earliest(pool, OpenSet(pool, c, r), |pool.proxies|)
            case None => chosen == |pool.proxies| && (full <==> exists i :: 0 <= i < |pool.proxies| && i !in r.tried)
            case Some(i) => chosen == i
  {
    var n := |pool.proxies|;
    ghost var s := OpenSet(pool, c, r);
    var earliest := 0;
    chosen, full := n, false;
    for i := 0 to n
      invariant match Earliest(pool, s, i)
                case None => chosen == n
                case Some(j) => chosen == j && earliest == pool.proxies[j].retryAt
      invariant full <==> exists j :: 0 <= j < i && j !in r.tried && !HasRoom(pool, j, c, r.limit)
    {
      if i in r.tried { continue; }
      if !HasRoom(pool, i, c, r.limit) {
        full := true;
        continue;
      }
      if chosen == n || pool.proxies[i].retryAt < earliest {
        chosen := i;
        earliest := pool.proxies[i].retryAt;
      }
    }
    if chosen == n {
      forall i | 0 <= i < n && i !in r.tried ensures !HasRoom(pool, i, c, r.limit) {
        assert i !in s;
      }
    }
  }
}
