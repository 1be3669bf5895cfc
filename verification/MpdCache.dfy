/**
 The shared cache of manifest reads: eight entries, one fetch at a time for each,
 and a result that later requests for the same thing are answered with for two
 seconds. Each step is what one thread does while it holds the cache lock.
 */
module MpdCache {
  import opened Wrappers

  type Tid = nat

  const SIZE: nat := 8
  const FRESH_SECONDS: int := 2
  const ERROR_MAX: nat := 255
  const DEFAULT_ERROR := "The MPD fetch failed."

  datatype Key = Key(url: string, proxy: Option<string>, headers: Option<string>, ipv6: bool)

  /** `guarded` is set for a request made under a source policy; `errorRoom` is the caller's error buffer. */
  datatype Request = Request(key: Key, guarded: bool, errorRoom: nat)

  datatype Result = Body(xml: Option<string>, effectiveUrl: Option<string>) | Error(message: string)

  datatype Entry = Entry(
    url: Option<string>,
    proxy: Option<string>,
    headers: Option<string>,
    ipv6: bool,
    xml: Option<string>,
    effectiveUrl: Option<string>,
    failed: bool,
    error: string,
    guarded: bool,
    fetching: bool,
    time: int)

  const UNUSED := Entry(None, None, None, false, None, None, false, "", false, false, 0)

  // --- one entry ---------------------------------------------------------------

  /** The entry given over to another URL; the marks of the last fetch stay. */
  function Reset(e: Entry, url: string): Entry {
    e.(url := Some(url), proxy := None, headers := None, xml := None, effectiveUrl := None,
       time := 0, failed := false, error := "")
  }

  predicate Hits(e: Entry, r: Request, now: int) {
    && !r.guarded && !e.guarded && e.ipv6 == r.key.ipv6 && e.proxy == r.key.proxy && e.headers == r.key.headers
    && now - e.time <= FRESH_SECONDS && (e.xml.Some? || e.failed)
  }

  function Answer(e: Entry, r: Request): Result {
    if e.failed then Error(Cut(e.error, r.errorRoom)) else Body(e.xml, e.effectiveUrl)
  }

  function Claim(e: Entry, r: Request): Entry {
    e.(fetching := true, guarded := r.guarded)
  }

  function Publish(e: Entry, r: Request, result: Result, now: int): Entry {
    var kept := e.(fetching := false, proxy := r.key.proxy, headers := r.key.headers, ipv6 := r.key.ipv6, time := now);
    match result
    case Body(xml, effectiveUrl) =>
      kept.(xml := xml, effectiveUrl := effectiveUrl, failed := false, error := "")
    case Error(message) =>
      kept.(xml := None, effectiveUrl := None, failed := true,
            error := Cut(if message == "" then DEFAULT_ERROR else message, ERROR_MAX))
  }

  /** What a finished fetch tells a later request for the same thing. */
  function Shared(result: Result, room: nat): Result {
    match result
    case Body(_, _) => result
    case Error(message) => Error(Cut(Cut(if message == "" then DEFAULT_ERROR else message, ERROR_MAX), room))
  }

  // --- finding the entry ---------------------------------------------------------

  /** Where a scan of entries `i` on ends: the match, the first unused one, the least recently written one. */
  datatype Scan = Scan(found: Option<nat>, unused: Option<nat>, oldest: Option<nat>)

  function ScanOf(entries: seq<Entry>, url: string, i: nat): (s: Scan)
    requires i <= |entries|
    ensures s.found.Some? ==> s.found.value < i && entries[s.found.value].url == Some(url)
    ensures s.found.None? ==>
              && (forall j :: 0 <= j < i ==> entries[j].url != Some(url))
              && (s.unused.Some? ==> s.unused.value < i && entries[s.unused.value].url.None?)
              && (s.unused.None? ==> forall j :: 0 <= j < i ==> entries[j].url.Some?)
              && (s.oldest.Some? ==> s.oldest.value < i
                                     && forall j :: 0 <= j < i && entries[j].url.Some? ==>
                                          entries[s.oldest.value].time <= entries[j].time)
              && (s.oldest.None? ==> forall j :: 0 <= j < i ==> entries[j].url.None?)
  {
    if i == 0 then Scan(None, None, None)
    else
      var s := ScanOf(entries, url, i - 1);
      var e := entries[i - 1];
      if s.found.Some? then s
      else if e.url == Some(url) then s.(found := Some(i - 1))
      else if e.url.None? then s.(unused := if s.unused.None? then Some(i - 1) else s.unused)
      else if s.oldest.None? || e.time < entries[s.oldest.value].time then s.(oldest := Some(i - 1))
      else s
  }

  /** The entry a request goes to, and whether it has to be given over to the request's URL. */
  function Place(entries: seq<Entry>, url: string): (p: (nat, bool))
    requires |entries| == SIZE
    ensures p.0 < SIZE
    ensures !p.1 ==> entries[p.0].url == Some(url)
    ensures p.1 ==> forall j :: 0 <= j < SIZE ==> entries[j].url != Some(url)
  {
    var s := ScanOf(entries, url, SIZE);
    if s.found.Some? then (s.found.value, false)
    else if s.unused.Some? then (s.unused.value, true)
    else (s.oldest.value, true)
  }

  // --- the steps --------------------------------------------------------------------

  datatype Pc =
    | Evicting(index: nat, r: Request)
    | Waiting(index: nat, r: Request)
    | Fetching(index: nat, r: Request)
    | Answered(r: Request, result: Result, cached: bool, at: int)

  /** A fetch that has ended. */
  datatype Fetch = Fetch(r: Request, result: Result, at: int)

  datatype World = World(entries: seq<Entry>, threads: map<Tid, Pc>, log: seq<Fetch>, clock: int)

  datatype Step =
    | Arrive(t: Tid, r: Request, now: int)
    | Wake(t: Tid, now: int)
    | Finish(t: Tid, result: Result, now: int)

  predicate Sane(w: World) {
    && |w.entries| == SIZE
    && (forall t :: t in w.threads && !w.threads[t].Answered? ==> w.threads[t].index < SIZE)
  }

  predicate Enabled(w: World, e: Step) {
    && e.now >= w.clock
    && match e
       case Arrive(t, _, _) => t !in w.threads || w.threads[t].Answered?
       case Wake(t, _) => t in w.threads && (w.threads[t].Evicting? || w.threads[t].Waiting?)
       case Finish(t, _, _) => t in w.threads && w.threads[t].Fetching?
  }

  /** The test after the waits: answered from the entry, or the one to fetch. */
  function Decide(w: World, t: Tid, i: nat, r: Request, now: int): World
    requires i < |w.entries|
  {
    if Hits(w.entries[i], r, now)
    then w.(threads := w.threads[t := Answered(r, Answer(w.entries[i], r), true, now)], clock := now)
    else w.(entries := w.entries[i := Claim(w.entries[i], r)], threads := w.threads[t := Fetching(i, r)], clock := now)
  }

  function Proceed(w: World, t: Tid, i: nat, evict: bool, r: Request, now: int): World
    requires i < |w.entries|
  {
    if w.entries[i].fetching
    then w.(threads := w.threads[t := if evict then Evicting(i, r) else Waiting(i, r)], clock := now)
    else
      var w' := if evict then w.(entries := w.entries[i := Reset(w.entries[i], r.key.url)]) else w;
      Decide(w', t, i, r, now)
  }

  function Next(w: World, e: Step): World
    requires Sane(w) && Enabled(w, e)
  {
    match e
    case Arrive(t, r, now) =>
      var (i, evict) := Place(w.entries, r.key.url);
      Proceed(w, t, i, evict, r, now)
    case Wake(t, now) =>
      var pc := w.threads[t];
      Proceed(w, t, pc.index, pc.Evicting?, pc.r, now)
    case Finish(t, result, now) =>
      var Fetching(i, r) := w.threads[t];
      World(w.entries[i := Publish(w.entries[i], r, result, now)],
            w.threads[t := Answered(r, result, false, now)],
            w.log + [Fetch(r, result, now)], now)
  }

  // --- the invariant, while there are no more URLs than entries --------------------------

  /** The threads fetching for entry `i`. */
  ghost function Fetchers(threads: map<Tid, Pc>, i: nat): set<Tid> {
    set t | t in threads && threads[t].Fetching? && threads[t].index == i
  }

  /** A finished fetch without a policy that what the entry holds came from. */
  ghost predicate Recorded(e: Entry, log: seq<Fetch>) {
    exists f :: f in log && Explains(f, e)
  }

  predicate Explains(f: Fetch, e: Entry) {
    && !f.r.guarded && e.url == Some(f.r.key.url)
    && e.proxy == f.r.key.proxy && e.headers == f.r.key.headers && e.ipv6 == f.r.key.ipv6 && e.time == f.at
    && match f.result
       case Body(xml, effectiveUrl) => !e.failed && e.xml == xml && e.effectiveUrl == effectiveUrl
       case Error(message) =>
         e.failed && e.error == Cut(if message == "" then DEFAULT_ERROR else message, ERROR_MAX)
  }

  ghost predicate EntryOk(w: World, i: nat)
    requires i < |w.entries|
  {
    var e := w.entries[i];
    && |Fetchers(w.threads, i)| == (if e.fetching then 1 else 0)
    && (e.url.None? ==> !e.fetching && e.xml.None? && !e.failed)
    && (!e.fetching && !e.guarded && (e.xml.Some? || e.failed) ==> Recorded(e, w.log))
  }

  ghost predicate PcOk(w: World, pc: Pc)
    requires |w.entries| == SIZE
  {
    match pc
    case Evicting(_, _) => false
    case Waiting(i, r) => i < SIZE && w.entries[i].url == Some(r.key.url)
    case Fetching(i, r) =>
      i < SIZE && w.entries[i].url == Some(r.key.url) && w.entries[i].guarded == r.guarded && w.entries[i].fetching
    case Answered(_, _, _, _) => true
  }

  /** Every fetch on record ended by now, and the entries' URLs are different ones of `urls`. */
  ghost predicate Inv(w: World, urls: set<string>) {
    && |w.entries| == SIZE
    && (forall i :: 0 <= i < SIZE ==> EntryOk(w, i))
    && (forall t :: t in w.threads ==> PcOk(w, w.threads[t]))
    && Distinct(w.entries, urls)
    && (forall f :: f in w.log ==> f.at <= w.clock)
  }

  ghost predicate Distinct(entries: seq<Entry>, urls: set<string>) {
    && (forall i :: 0 <= i < |entries| && entries[i].url.Some? ==> entries[i].url.value in urls)
    && (forall i, j :: 0 <= i < j < |entries| && entries[i].url.Some? ==> entries[i].url != entries[j].url)
  }

  predicate Asks(e: Step, urls: set<string>) {
    e.Arrive? ==> e.r.key.url in urls
  }

  // --- room for every URL --------------------------------------------------------------------

  ghost function UrlsOf(entries: seq<Entry>): set<string>
    requires forall i :: 0 <= i < |entries| ==> entries[i].url.Some?
  {
    set i | 0 <= i < |entries| :: entries[i].url.value
  }

  lemma {:induction false} AllUsed(entries: seq<Entry>, urls: set<string>)
    requires Distinct(entries, urls) && forall i :: 0 <= i < |entries| ==> entries[i].url.Some?
    ensures UrlsOf(entries) <= urls && |UrlsOf(entries)| == |entries|
  {
    if entries != [] {
      var n := |entries| - 1;
      var rest := entries[..n];
      AllUsed(rest, urls);
      assert UrlsOf(entries) == UrlsOf(rest) + {entries[n].url.value} by {
        assert entries == rest + [entries[n]];
      }
      assert entries[n].url.value !in UrlsOf(rest);
    }
  }

  /** A URL without an entry finds an unused one: nothing is ever taken from another URL. */
  lemma UnusedEntryLeft(entries: seq<Entry>, urls: set<string>, url: string)
    requires |entries| == SIZE && Distinct(entries, urls) && |urls| <= SIZE && url in urls
    requires forall j :: 0 <= j < SIZE ==> entries[j].url != Some(url)
    ensures entries[Place(entries, url).0].url.None?
  {
    if forall i :: 0 <= i < SIZE ==> entries[i].url.Some? {
      AllUsed(entries, urls);
      assert url !in UrlsOf(entries);
      assert urls == (urls - {url}) + {url} && UrlsOf(entries) <= urls - {url};
      Subset(UrlsOf(entries), urls - {url});
    }
  }

  lemma Subset(a: set<string>, b: set<string>)
    requires a <= b
    ensures |a| <= |b|
  {
    assert b == a + (b - a);
  }

  // --- every step keeps the invariant ----------------------------------------------------------

  predicate FetchesFor(pc: Pc, i: nat) {
    pc.Fetching? && pc.index == i
  }

  lemma FetchersPut(threads: map<Tid, Pc>, t: Tid, pc: Pc, i: nat)
    ensures Fetchers(threads[t := pc], i)
            == if FetchesFor(pc, i) then Fetchers(threads, i) + {t} else Fetchers(threads, i) - {t}
  {
  }

  /** Where a thread has no part in the fetches, putting it elsewhere changes no count but its own. */
  lemma OnlyAdds(threads: map<Tid, Pc>, t: Tid, pc: Pc, i: nat)
    requires t in threads ==> !threads[t].Fetching?
    ensures |Fetchers(threads[t := pc], i)| == |Fetchers(threads, i)| + if FetchesFor(pc, i) then 1 else 0
  {
    FetchersPut(threads, t, pc, i);
    assert t !in Fetchers(threads, i);
    assert Fetchers(threads, i) - {t} == Fetchers(threads, i);
  }

  lemma NobodyFetches(w: World, i: nat)
    requires i < |w.entries| && EntryOk(w, i) && !w.entries[i].fetching
    ensures forall t :: t in w.threads ==> !FetchesFor(w.threads[t], i)
  {
    assert Fetchers(w.threads, i) == {};
    assert forall t :: t in w.threads && FetchesFor(w.threads[t], i) ==> t in Fetchers(w.threads, i);
  }

  ghost predicate Idle(w: World, t: Tid) {
    t in w.threads ==> !w.threads[t].Fetching?
  }

  lemma ParkKeepsInv(w: World, t: Tid, pc: Pc, now: int, urls: set<string>)
    requires Inv(w, urls) && Idle(w, t) && now >= w.clock && PcOk(w, pc) && !pc.Fetching?
    ensures Inv(w.(threads := w.threads[t := pc], clock := now), urls)
  {
    var w' := w.(threads := w.threads[t := pc], clock := now);
    forall i | 0 <= i < SIZE ensures EntryOk(w', i) {
      assert EntryOk(w, i);
      OnlyAdds(w.threads, t, pc, i);
    }
  }

  lemma ClaimKeepsInv(w: World, t: Tid, i: nat, r: Request, now: int, urls: set<string>)
    requires Inv(w, urls) && Idle(w, t) && now >= w.clock
    requires i < SIZE && !w.entries[i].fetching && w.entries[i].url == Some(r.key.url)
    ensures Inv(w.(entries := w.entries[i := Claim(w.entries[i], r)], threads := w.threads[t := Fetching(i, r)],
                   clock := now), urls)
  {
    var w' := w.(entries := w.entries[i := Claim(w.entries[i], r)], threads := w.threads[t := Fetching(i, r)],
                 clock := now);
    forall j | 0 <= j < SIZE ensures EntryOk(w', j) {
      assert EntryOk(w, j);
      OnlyAdds(w.threads, t, Fetching(i, r), j);
    }
    NobodyFetches(w, i);
    forall u | u in w'.threads ensures PcOk(w', w'.threads[u]) {
      if u != t { assert PcOk(w, w.threads[u]) && !FetchesFor(w.threads[u], i); }
    }
  }

  lemma ResetKeepsInv(w: World, i: nat, url: string, urls: set<string>)
    requires Inv(w, urls) && url in urls && i < SIZE && w.entries[i].url.None?
    requires forall j :: 0 <= j < SIZE ==> w.entries[j].url != Some(url)
    ensures Inv(w.(entries := w.entries[i := Reset(w.entries[i], url)]), urls)
  {
    var w' := w.(entries := w.entries[i := Reset(w.entries[i], url)]);
    forall j | 0 <= j < SIZE ensures EntryOk(w', j) {
      assert EntryOk(w, j);
    }
    forall u | u in w'.threads ensures PcOk(w', w'.threads[u]) {
      assert PcOk(w, w.threads[u]);
    }
  }

  lemma ProceedKeepsInv(w: World, t: Tid, i: nat, evict: bool, r: Request, now: int, urls: set<string>)
    requires Inv(w, urls) && Idle(w, t) && now >= w.clock && i < SIZE && r.key.url in urls
    requires !evict ==> w.entries[i].url == Some(r.key.url)
    requires evict ==> w.entries[i].url.None? && forall j :: 0 <= j < SIZE ==> w.entries[j].url != Some(r.key.url)
    ensures Inv(Proceed(w, t, i, evict, r, now), urls)
  {
    assert EntryOk(w, i);
    var w' := w;
    if evict {
      ResetKeepsInv(w, i, r.key.url, urls);
      w' := w.(entries := w.entries[i := Reset(w.entries[i], r.key.url)]);
    }
    hide EntryOk, PcOk, Distinct;
    if w.entries[i].fetching {
      assert PcOk(w, Waiting(i, r)) by { Parkable(w, i, r); }
      ParkKeepsInv(w, t, Waiting(i, r), now, urls);
    } else if Hits(w'.entries[i], r, now) {
      var done := Answered(r, Answer(w'.entries[i], r), true, now);
      Finished(w', done);
      ParkKeepsInv(w', t, done, now, urls);
    } else {
      ClaimKeepsInv(w', t, i, r, now, urls);
    }
  }

  lemma Parkable(w: World, i: nat, r: Request)
    requires |w.entries| == SIZE && i < SIZE && w.entries[i].url == Some(r.key.url)
    ensures PcOk(w, Waiting(i, r))
  {
  }

  lemma Finished(w: World, pc: Pc)
    requires |w.entries| == SIZE && pc.Answered?
    ensures PcOk(w, pc)
  {
  }

  lemma FinishKeepsInv(w: World, t: Tid, result: Result, now: int, urls: set<string>)
    requires Inv(w, urls) && Enabled(w, Finish(t, result, now))
    ensures Sane(w) && Inv(Next(w, Finish(t, result, now)), urls)
  {
    InvIsSane(w, urls);
    assert PcOk(w, w.threads[t]);
    var w' := Next(w, Finish(t, result, now));
    forall j | 0 <= j < SIZE ensures EntryOk(w', j) {
      assert EntryOk(w, j) && EntryOk(w, w.threads[t].index);
      FinishEntry(w, t, result, now, j);
    }
    forall u | u in w'.threads ensures PcOk(w', w'.threads[u]) {
      assert PcOk(w, w.threads[u]);
      assert EntryOk(w, w.threads[t].index);
      if u != t { FinishThread(w, t, result, now, u); }
    }
    hide PcOk, EntryOk;
  }

  lemma FinishEntry(w: World, t: Tid, result: Result, now: int, j: nat)
    requires Sane(w) && Enabled(w, Finish(t, result, now)) && PcOk(w, w.threads[t])
    requires j < SIZE && EntryOk(w, j) && EntryOk(w, w.threads[t].index)
    ensures EntryOk(Next(w, Finish(t, result, now)), j)
  {
    var Fetching(i, r) := w.threads[t];
    var w' := Next(w, Finish(t, result, now));
    var fetch := Fetch(r, result, now);
    FetchersPut(w.threads, t, Answered(r, result, false, now), j);
    if j == i {
      OnlyOne(Fetchers(w.threads, i), t);
      assert Fetchers(w'.threads, i) == {};
      assert fetch in w'.log;
      assert !r.guarded ==> Explains(fetch, w'.entries[i]);
    } else {
      assert Fetchers(w.threads, j) - {t} == Fetchers(w.threads, j);
      if Recorded(w.entries[j], w.log) { StillRecorded(w.entries[j], w.log, fetch); }
    }
  }

  lemma FinishThread(w: World, t: Tid, result: Result, now: int, u: Tid)
    requires Sane(w) && Enabled(w, Finish(t, result, now)) && PcOk(w, w.threads[t])
    requires u in w.threads && u != t && PcOk(w, w.threads[u]) && EntryOk(w, w.threads[t].index)
    ensures PcOk(Next(w, Finish(t, result, now)), w.threads[u])
  {
    var i := w.threads[t].index;
    assert t in Fetchers(w.threads, i);
    OnlyOne(Fetchers(w.threads, i), t);
    assert FetchesFor(w.threads[u], i) ==> u in Fetchers(w.threads, i);
  }

  lemma OnlyOne(s: set<Tid>, t: Tid)
    requires |s| == 1 && t in s
    ensures s == {t}
  {
    assert s == {t} + (s - {t});
  }

  lemma StillRecorded(e: Entry, log: seq<Fetch>, fetch: Fetch)
    requires Recorded(e, log)
    ensures Recorded(e, log + [fetch])
  {
    var f :| f in log && Explains(f, e);
    assert f in log + [fetch];
  }

  lemma InvIsSane(w: World, urls: set<string>)
    requires Inv(w, urls)
    ensures Sane(w)
  {
    forall t | t in w.threads && !w.threads[t].Answered? ensures w.threads[t].index < SIZE {
      assert PcOk(w, w.threads[t]);
    }
  }

  /** With no more URLs than entries, every step of every thread keeps the invariant. */
  lemma NextKeepsInv(w: World, e: Step, urls: set<string>)
    requires Inv(w, urls) && |urls| <= SIZE && Enabled(w, e) && Asks(e, urls)
    ensures Sane(w) && Inv(Next(w, e), urls)
  {
    InvIsSane(w, urls);
    match e {
      case Arrive(t, r, now) =>
        var (i, evict) := Place(w.entries, r.key.url);
        if evict { UnusedEntryLeft(w.entries, urls, r.key.url); }
        ProceedKeepsInv(w, t, i, evict, r, now, urls);
      case Wake(t, now) =>
        var pc := w.threads[t];
        assert PcOk(w, pc);
        ProceedKeepsInv(w, t, pc.index, false, pc.r, now, urls);
      case Finish(t, result, now) => FinishKeepsInv(w, t, result, now, urls);
    }
  }

  /** An entry keeps the URL it was first used for. */
  lemma UrlNeverChanges(w: World, e: Step, urls: set<string>, i: nat)
    requires Inv(w, urls) && |urls| <= SIZE && Enabled(w, e) && Asks(e, urls)
    requires i < SIZE && w.entries[i].url.Some?
    ensures Sane(w) && i < |Next(w, e).entries| && Next(w, e).entries[i].url == w.entries[i].url
  {
    InvIsSane(w, urls);
    match e {
      case Arrive(t, r, now) =>
        if Place(w.entries, r.key.url).1 { UnusedEntryLeft(w.entries, urls, r.key.url); }
      case Wake(t, now) => assert PcOk(w, w.threads[t]);
      case Finish(t, result, now) =>
    }
  }

  /**
   An answer from the cache is the result of a fetch without a policy for the same
   URL, proxy, headers and address family, which ended at most two seconds before.
   */
  lemma HitIsRecent(w: World, e: Step, urls: set<string>)
    requires Inv(w, urls) && |urls| <= SIZE && Enabled(w, e) && Asks(e, urls)
    ensures Sane(w)
    ensures var pc := Next(w, e).threads[e.t];
            pc.Answered? && pc.cached ==>
              && pc.at == e.now && !pc.r.guarded
              && exists f :: f in w.log && IsSource(f, pc)
  {
    InvIsSane(w, urls);
    match e {
      case Arrive(t, r, now) =>
        var (i, evict) := Place(w.entries, r.key.url);
        if evict {
          UnusedEntryLeft(w.entries, urls, r.key.url);
        } else if !w.entries[i].fetching && Hits(w.entries[i], r, now) {
          HitExplained(w, i, r, now, urls);
        }
      case Wake(t, now) =>
        var pc := w.threads[t];
        assert PcOk(w, pc);
        if !w.entries[pc.index].fetching && Hits(w.entries[pc.index], pc.r, now) {
          HitExplained(w, pc.index, pc.r, now, urls);
        }
      case Finish(t, result, now) =>
    }
  }

  predicate IsSource(f: Fetch, pc: Pc)
    requires pc.Answered?
  {
    && !f.r.guarded && f.r.key == pc.r.key && pc.result == Shared(f.result, pc.r.errorRoom)
    && 0 <= pc.at - f.at <= FRESH_SECONDS
  }

  lemma HitExplained(w: World, i: nat, r: Request, now: int, urls: set<string>)
    requires Inv(w, urls) && i < SIZE && now >= w.clock
    requires w.entries[i].url == Some(r.key.url) && !w.entries[i].fetching && Hits(w.entries[i], r, now)
    ensures exists f :: f in w.log && IsSource(f, Answered(r, Answer(w.entries[i], r), true, now))
  {
    assert EntryOk(w, i);
    var f :| f in w.log && Explains(f, w.entries[i]);
    assert IsSource(f, Answered(r, Answer(w.entries[i], r), true, now));
  }

  // --- whole runs ---------------------------------------------------------------------------------

  ghost predicate Legal(w: World, run: seq<Step>)
    decreases |run|
  {
    run == [] || (Sane(w) && Enabled(w, run[0]) && Legal(Next(w, run[0]), run[1..]))
  }

  ghost function End(w: World, run: seq<Step>): World
    requires Legal(w, run)
    decreases |run|
  {
    if run == [] then w else End(Next(w, run[0]), run[1..])
  }

  function Start(): World {
    World(seq(SIZE, _ => UNUSED), map[], [], 0)
  }

  ghost predicate AllAsk(run: seq<Step>, urls: set<string>) {
    forall i :: 0 <= i < |run| ==> Asks(run[i], urls)
  }

  lemma {:induction false} InvOverRuns(w: World, run: seq<Step>, urls: set<string>)
    requires Inv(w, urls) && |urls| <= SIZE && Legal(w, run) && AllAsk(run, urls)
    ensures Inv(End(w, run), urls)
    decreases |run|
  {
    if run != [] {
      NextKeepsInv(w, run[0], urls);
      InvOverRuns(Next(w, run[0]), run[1..], urls);
    }
  }

  lemma StartOk(urls: set<string>)
    ensures Inv(Start(), urls)
  {
    forall i | 0 <= i < SIZE ensures EntryOk(Start(), i) {
      assert Fetchers(Start().threads, i) == {};
    }
  }

  /** At no time do two threads fetch for the same entry. */
  lemma OneFetchPerEntry(run: seq<Step>, urls: set<string>, t: Tid, u: Tid)
    requires |urls| <= SIZE && Legal(Start(), run) && AllAsk(run, urls)
    requires var w := End(Start(), run);
             && t in w.threads && u in w.threads && w.threads[t].Fetching? && w.threads[u].Fetching?
             && w.threads[t].index == w.threads[u].index
    ensures t == u
  {
    StartOk(urls);
    InvOverRuns(Start(), run, urls);
    var w := End(Start(), run);
    assert PcOk(w, w.threads[t]);
    assert EntryOk(w, w.threads[t].index);
    OnlyOne(Fetchers(w.threads, w.threads[t].index), t);
    assert u in Fetchers(w.threads, w.threads[t].index);
  }

  /** Over whole runs: two fetches for the same URL are never in flight together. */
  lemma OneFetchPerUrl(run: seq<Step>, urls: set<string>, t: Tid, u: Tid)
    requires |urls| <= SIZE && Legal(Start(), run) && AllAsk(run, urls)
    requires var w := End(Start(), run);
             && t in w.threads && u in w.threads && w.threads[t].Fetching? && w.threads[u].Fetching?
             && w.threads[t].r.key.url == w.threads[u].r.key.url
    ensures t == u
  {
    StartOk(urls);
    InvOverRuns(Start(), run, urls);
    var w := End(Start(), run);
    assert PcOk(w, w.threads[t]) && PcOk(w, w.threads[u]);
    OneFetchPerEntry(run, urls, t, u);
  }

  /** Over whole runs: every answer from the cache is recent, for the same thing, and never a private one. */
  lemma HitsAreRecent(run: seq<Step>, e: Step, urls: set<string>)
    requires |urls| <= SIZE && Legal(Start(), run) && AllAsk(run, urls)
    requires Enabled(End(Start(), run), e) && Asks(e, urls)
    ensures var w := End(Start(), run);
            && Sane(w)
            && var pc := Next(w, e).threads[e.t];
               pc.Answered? && pc.cached ==> !pc.r.guarded && exists f :: f in w.log && IsSource(f, pc)
  {
    StartOk(urls);
    InvOverRuns(Start(), run, urls);
    HitIsRecent(End(Start(), run), e, urls);
  }
}
