/**
 The cache's table of entries, scanned and changed in place under the lock. Arrive, Wake
 and Finish are what a thread does between taking the lock and waiting for it or giving it
 back; each is the step of MpdCache of the same name, so what is proved there of every
 interleaving holds of these calls.
 */
module MpdTable {
  import opened Wrappers
  import opened MpdCache

  class Cache {
    const entries: array<Entry>
    ghost var threads: map<Tid, Pc>
    ghost var log: seq<Fetch>
    ghost var clock: int

    predicate Valid() { entries.Length == SIZE }

    /** The table together with the threads that use it and the fetches that have ended. */
    ghost function Now(): World
      reads this, entries
    {
      World(entries[..], threads, log, clock)
    }

    constructor ()
      ensures Valid() && fresh(entries) && Now() == Start()
    {
      entries := new Entry[SIZE](_ => UNUSED);
      threads, log, clock := map[], [], Start().clock;
    }

    /** The scan for the URL, which also notes the first unused entry and the least recently written one. */
    method Find(url: string) returns (index: nat, evict: bool)
      requires Valid()
      ensures (index, evict) == Place(entries[..], url)
    {
      var unused, oldest := SIZE, SIZE;
      ghost var all := entries[..];
      for i := 0 to SIZE
        invariant entries[..] == all && unused <= SIZE && oldest <= SIZE
        invariant ScanOf(all, url, i).found.None?
        invariant ScanOf(all, url, i).unused == if unused < SIZE then Some(unused) else None
        invariant ScanOf(all, url, i).oldest == if oldest < SIZE then Some(oldest) else None
      {
        if entries[i].url == Some(url) {
          FoundStays(all, url, i + 1, SIZE);
          return i, false;
        }
        if entries[i].url.None? && unused == SIZE { unused := i; }
        if entries[i].url.Some? && (oldest == SIZE || entries[i].time < entries[oldest].time) { oldest := i; }
      }
      return if unused < SIZE then unused else oldest, true;
    }

    /** Once nobody fetches for the entry: take it over if need be, then answer from it or claim it. */
    method Enter(index: nat, evict: bool, r: Request, now: int) returns (answer: Option<Result>)
      requires Valid() && index < SIZE && !entries[index].fetching
      modifies entries
      ensures var e := if evict then Reset(old(entries[index]), r.key.url) else old(entries[index]);
              && answer == (if Hits(e, r, now) then Some(Answer(e, r)) else None)
              && entries[..] == old(entries[..])[index := if Hits(e, r, now) then e else Claim(e, r)]
    {
      if evict {
        entries[index] := entries[index].(url := Some(r.key.url), proxy := None, headers := None, xml := None,
                                          effectiveUrl := None, time := 0, failed := false, error := "");
      }
      var e := entries[index];
      var same := !r.guarded && !e.guarded && e.ipv6 == r.key.ipv6 && e.proxy == r.key.proxy
               && e.headers == r.key.headers;
      if same && now - e.time <= FRESH_SECONDS && (e.xml.Some? || e.failed) {
        answer := Some(if e.failed then Error(Cut(e.error, r.errorRoom)) else Body(e.xml, e.effectiveUrl));
      } else {
        entries[index] := e.(fetching := true);
        entries[index] := entries[index].(guarded := r.guarded);
        answer := None;
      }
    }

    /** The request waits while somebody fetches for its entry; otherwise it enters. */
    method Continue(ghost t: Tid, index: nat, evict: bool, r: Request, now: int) returns (answer: Option<Result>)
      requires Valid() && index < SIZE
      modifies this, entries
      ensures Now() == Proceed(old(Now()), t, index, evict, r, now)
      ensures t in threads && answer == (if threads[t].Answered? then Some(threads[t].result) else None)
    {
      clock := now;
      if entries[index].fetching {
        threads := threads[t := if evict then Evicting(index, r) else Waiting(index, r)];
        return None;
      }
      answer := Enter(index, evict, r, now);
      threads := threads[t := match answer
                              case Some(result) => Answered(r, result, true, now)
                              case None => Fetching(index, r)];
    }

    /** A request comes in. */
    method Arrive(ghost t: Tid, r: Request, now: int) returns (index: nat, evict: bool, answer: Option<Result>)
      requires Valid() && Sane(Now()) && Enabled(Now(), Step.Arrive(t, r, now))
      modifies this, entries
      ensures Sane(Now()) && Now() == Next(old(Now()), Step.Arrive(t, r, now))
      ensures index < SIZE && t in threads
      ensures match threads[t]
              case Evicting(i, _) => evict && i == index && answer == None
              case Waiting(i, _) => !evict && i == index && answer == None
              case Fetching(i, _) => i == index && answer == None
              case Answered(_, result, _, _) => answer == Some(result)
    {
      index, evict := Find(r.key.url);
      answer := Continue(t, index, evict, r, now);
    }

    /** A waiting request is woken. */
    method Wake(ghost t: Tid, index: nat, evict: bool, r: Request, now: int) returns (answer: Option<Result>)
      requires Valid() && Sane(Now()) && Enabled(Now(), Step.Wake(t, now))
      requires threads[t] == if evict then Evicting(index, r) else Waiting(index, r)
      modifies this, entries
      ensures Sane(Now()) && Now() == Next(old(Now()), Step.Wake(t, now))
      ensures t in threads && answer == (if threads[t].Answered? then Some(threads[t].result) else None)
    {
      answer := Continue(t, index, evict, r, now);
    }

    /** The end of a fetch: its result replaces what the entry held. */
    method Finish(ghost t: Tid, index: nat, r: Request, result: Result, now: int)
      requires Valid() && Sane(Now()) && Enabled(Now(), Step.Finish(t, result, now))
      requires threads[t] == Fetching(index, r)
      modifies this, entries
      ensures Sane(Now()) && Now() == Next(old(Now()), Step.Finish(t, result, now))
    {
      Store(index, r, result, now);
      threads, log, clock := threads[t := Answered(r, result, false, now)], log + [Fetch(r, result, now)], now;
    }

    /** The entry under the fetch's key, with its time and what it brought. */
    method Store(index: nat, r: Request, result: Result, now: int)
      requires Valid() && index < SIZE
      modifies entries
      ensures entries[..] == old(entries[..])[index := Publish(old(entries[index]), r, result, now)]
    {
      entries[index] := entries[index].(fetching := false);
      entries[index] := entries[index].(proxy := r.key.proxy, headers := r.key.headers, ipv6 := r.key.ipv6);
      if result.Body? {
        entries[index] := entries[index].(xml := result.xml, effectiveUrl := result.effectiveUrl,
                                          failed := false, error := "");
      } else {
        var message := if result.message == "" then DEFAULT_ERROR else result.message;
        entries[index] := entries[index].(xml := None, effectiveUrl := None, failed := true,
                                          error := Cut(message, ERROR_MAX));
      }
      entries[index] := entries[index].(time := now);
    }
  }

  lemma {:induction false} FoundStays(entries: seq<Entry>, url: string, i: nat, n: nat)
    requires i <= n <= |entries| && ScanOf(entries, url, i).found.Some?
    ensures ScanOf(entries, url, n).found == ScanOf(entries, url, i).found
    decreases n
  {
    if i < n { FoundStays(entries, url, i, n - 1); }
  }
}
