/**
 The media segments of one manifest poll: a timeline expanded from its newest end
 only, or a window on the wall clock when the template has just a duration.
 */
module DashPlan {

  const MAX_SEGMENTS: nat := 5000
  const MAX_REPEAT: nat := 1000000
  const DEFAULT_WINDOW: nat := 10

  /** One S element; a negative `t` is an absent one. */
  datatype Run = Run(t: int, d: int, r: int)

  datatype Template = Template(
    timeline: seq<Run>,
    duration: real,
    timescale: nat,
    startNumber: int,
    pto: int)

  datatype Segment = Segment(number: int, time: int, duration: real)

  /** What the poll knows about time, in seconds; a negative availability start is an absent one. */
  datatype Clock = Clock(
    isDynamic: bool,
    now: real,
    availabilityStart: real,
    periodStart: real,
    periodDuration: real,
    mpdDuration: real,
    timeShiftBuffer: real)

  function FirstNumber(t: Template): int {
    if t.startNumber != 0 then t.startNumber else 1
  }

  // --- the timeline, written out in full ------------------------------------------

  function Repeats(r: int): (n: nat)
    ensures n <= MAX_REPEAT
  {
    if r < 0 then 0 else if r > MAX_REPEAT then MAX_REPEAT else r
  }

  function Seconds(d: int, timescale: nat): real {
    if timescale > 0 then d as real / timescale as real else 0.0
  }

  /** The time `n` segments of length `d` on. */
  function Later(time: int, n: nat, d: int): int {
    time + n * d
  }

  lemma LaterTwice(time: int, a: nat, b: nat, d: int)
    ensures Later(Later(time, a, d), b, d) == Later(time, a + b, d)
  {
    Distribute(a, b, d);
  }

  lemma LaterStep(time: int, n: nat, d: int)
    ensures Later(time, n + 1, d) == Later(time + d, n, d)
  {
    Distribute(1, n, d);
  }

  lemma LaterNone(time: int, d: int)
    ensures Later(time, 0, d) == time
  {
  }

  lemma Distribute(a: int, b: int, d: int)
    ensures a * d + b * d == (a + b) * d
  {
  }

  /** `n` segments of the same length, one after the other. */
  function Repeated(number: int, time: int, d: int, seconds: real, n: nat): (s: seq<Segment>)
    ensures |s| == n
    decreases n
  {
    if n == 0 then [] else [Segment(number, time, seconds)] + Repeated(number + 1, time + d, d, seconds, n - 1)
  }

  /** Every segment the runs from `i` on describe, when the next one is `number` at `cur`. */
  function Full(runs: seq<Run>, timescale: nat, i: nat, number: int, cur: int): seq<Segment>
    requires i <= |runs|
    decreases |runs| - i
  {
    if i == |runs| then []
    else
      var e := runs[i];
      var time := if e.t >= 0 then e.t else cur;
      var n := Repeats(e.r) + 1;
      Repeated(number, time, e.d, Seconds(e.d, timescale), n)
      + Full(runs, timescale, i + 1, number + n, Later(time, n, e.d))
  }

  function Expansion(t: Template): seq<Segment> {
    Full(t.timeline, t.timescale, 0, FirstNumber(t), t.pto)
  }

  function Last<T>(s: seq<T>, n: nat): seq<T> {
    if |s| <= n then s else s[|s| - n..]
  }

  // --- the tail alone ----------------------------------------------------------------

  /** How many segments the timeline describes. */
  method CountSegments(runs: seq<Run>, timescale: nat, ghost number: int, ghost cur: int)
    returns (total: nat, ghost steps: nat)
    ensures steps == |runs| && total == |Full(runs, timescale, 0, number, cur)|
  {
    total, steps := 0, 0;
    ghost var m, c := number, cur;
    for i := 0 to |runs|
      invariant steps == i
      invariant total + |Full(runs, timescale, i, m, c)| == |Full(runs, timescale, 0, number, cur)|
    {
      var r := runs[i].r;
      var reps := if r <= 0 then 0 else r;
      if reps > MAX_REPEAT { reps := MAX_REPEAT; }
      ghost var time := if runs[i].t >= 0 then runs[i].t else c;
      m, c := m + reps + 1, Later(time, reps + 1, runs[i].d);
      total, steps := total + reps + 1, steps + 1;
    }
  }

  lemma {:induction false} RepeatedDrop(number: int, time: int, d: int, seconds: real, n: nat, k: nat)
    requires k <= n
    ensures Repeated(number, time, d, seconds, n)[k..] == Repeated(number + k, Later(time, k, d), d, seconds, n - k)
    decreases n
  {
    if k > 0 {
      RepeatedDrop(number + 1, time + d, d, seconds, n - 1, k - 1);
      assert Repeated(number, time, d, seconds, n)[k..] == Repeated(number + 1, time + d, d, seconds, n - 1)[k - 1..];
      LaterStep(time, k - 1, d);
    }
  }

  /** Of one run's segments, those after the first `skip`, and where the next run starts. */
  ghost predicate OneRun(e: Run, timescale: nat, number: int, cur: int, skip: nat,
                         made: seq<Segment>, number': int, cur': int, skip': nat)
  {
    var time := if e.t >= 0 then e.t else cur;
    var n := Repeats(e.r) + 1;
    && number' == number + n && cur' == Later(time, n, e.d)
    && skip' == (if skip >= n then skip - n else 0)
    && made == if skip >= n then [] else Repeated(number, time, e.d, Seconds(e.d, timescale), n)[skip..]
  }

  /** One run: stepped over as a whole, or its repeats from the first one kept. */
  method ExpandRun(e: Run, timescale: nat, number: int, cur: int, skip: nat)
    returns (made: seq<Segment>, number': int, cur': int, skip': nat)
    ensures OneRun(e, timescale, number, cur, skip, made, number', cur', skip')
  {
    hide Later, Repeated, Seconds;
    number', cur' := number, cur;
    if e.t >= 0 { cur' := e.t; }
    var reps := if e.r < 0 then 0 else e.r;
    if reps > MAX_REPEAT { reps := MAX_REPEAT; }
    var here := reps + 1;
    if skip >= here {
      return [], number' + here, Later(cur', here, e.d), skip - here;
    }
    RepeatedDrop(number', cur', e.d, Seconds(e.d, timescale), here, skip);
    LaterTwice(cur', skip, here - skip, e.d);
    number', cur' := number' + skip, Later(cur', skip, e.d);
    made, number', cur' := Emit(number', cur', e.d, timescale, here - skip);
    skip' := 0;
  }

  /**
   The timeline branch: the oldest segments are stepped over a whole run at a time.
   `steps` counts the rounds of all three loops.
   */
  method ExpandTail(t: Template) returns (segments: seq<Segment>, ghost steps: nat)
    ensures segments == Last(Expansion(t), MAX_SEGMENTS)
    ensures steps <= 2 * |t.timeline| + MAX_SEGMENTS
  {
    hide Full, Joined, OneRun;
    var number, cur := FirstNumber(t), t.pto;
    var total;
    total, steps := CountSegments(t.timeline, t.timescale, number, cur);
    var skip: nat := if total > MAX_SEGMENTS then total - MAX_SEGMENTS else 0;
    segments := [];
    ghost var tail := Last(Expansion(t), MAX_SEGMENTS);
    JoinedStart(Expansion(t), skip);
    for i := 0 to |t.timeline|
      invariant skip <= |Full(t.timeline, t.timescale, i, number, cur)|
      invariant Joined(segments, Full(t.timeline, t.timescale, i, number, cur), skip) == tail
      invariant steps == |t.timeline| + i + |segments|
    {
      ghost var m, c, k := number, cur, skip;
      var made;
      made, number, cur, skip := ExpandRun(t.timeline[i], t.timescale, number, cur, skip);
      RunJoined(t.timeline, t.timescale, i, m, c, k, made, number, cur, skip, segments);
      segments := segments + made;
      steps := steps + 1 + |made|;
    }
    JoinedEnd(t, segments, number, cur, skip);
  }

  lemma JoinedStart(s: seq<Segment>, k: nat)
    requires k <= |s|
    ensures Joined([], s, k) == s[k..]
  {
  }

  lemma JoinedEnd(t: Template, segments: seq<Segment>, number: int, cur: int, skip: nat)
    requires skip <= |Full(t.timeline, t.timescale, |t.timeline|, number, cur)|
    ensures Joined(segments, Full(t.timeline, t.timescale, |t.timeline|, number, cur), skip) == segments
  {
  }

  /** One round of the loop moves segments from what is left to what is done. */
  lemma RunJoined(runs: seq<Run>, timescale: nat, i: nat, number: int, cur: int, skip: nat,
                  made: seq<Segment>, number': int, cur': int, skip': nat, done: seq<Segment>)
    requires i < |runs| && OneRun(runs[i], timescale, number, cur, skip, made, number', cur', skip')
    requires skip <= |Full(runs, timescale, i, number, cur)|
    ensures skip' <= |Full(runs, timescale, i + 1, number', cur')|
    ensures Joined(done, Full(runs, timescale, i, number, cur), skip)
            == Joined(done + made, Full(runs, timescale, i + 1, number', cur'), skip')
  {
    hide Repeated, Later, Seconds, Joined, Repeats;
    var e := runs[i];
    var time := if e.t >= 0 then e.t else cur;
    var block := Repeated(number, time, e.d, Seconds(e.d, timescale), Repeats(e.r) + 1);
    SkipAcross(done, block, Full(runs, timescale, i + 1, number', cur'), skip);
  }

  /** What is done, and what is left of `s` once `k` of it are skipped. */
  ghost function Joined(done: seq<Segment>, s: seq<Segment>, k: nat): seq<Segment>
    requires k <= |s|
  {
    done + s[k..]
  }

  lemma SkipAcross(done: seq<Segment>, a: seq<Segment>, b: seq<Segment>, k: nat)
    requires k <= |a| + |b|
    ensures k >= |a| ==> Joined(done, a + b, k) == Joined(done + [], b, k - |a|)
    ensures k < |a| ==> Joined(done, a + b, k) == Joined(done + a[k..], b, 0)
  {
    if k < |a| {
      assert (a + b)[k..] == a[k..] + b;
      assert b[0..] == b;
    } else {
      assert (a + b)[k..] == b[k - |a|..];
    }
  }

  /** The inner loop: the remaining repeats of one run. */
  method Emit(number: int, cur: int, d: int, timescale: nat, n: nat)
    returns (made: seq<Segment>, number': int, cur': int)
    ensures made == Repeated(number, cur, d, Seconds(d, timescale), n)
    ensures number' == number + n && cur' == Later(cur, n, d)
  {
    hide Later;
    made, number', cur' := [], number, cur;
    for k := 0 to n
      invariant number' == number + k && Later(cur', n - k, d) == Later(cur, n, d)
      invariant made + Repeated(number', cur', d, Seconds(d, timescale), n - k)
                == Repeated(number, cur, d, Seconds(d, timescale), n)
    {
      LaterStep(cur', n - k - 1, d);
      made := made + [Segment(number', cur', Seconds(d, timescale))];
      number', cur' := number' + 1, cur' + d;
    }
    LaterNone(cur', d);
  }

  // --- what the expansion describes ------------------------------------------------------

  /** Segment numbers go up by one. */
  lemma {:induction false} NumbersAreConsecutive(runs: seq<Run>, timescale: nat, i: nat, number: int, cur: int, k: nat)
    requires i <= |runs| && k < |Full(runs, timescale, i, number, cur)|
    ensures Full(runs, timescale, i, number, cur)[k].number == number + k
    decreases |runs| - i
  {
    var e := runs[i];
    var time := if e.t >= 0 then e.t else cur;
    var n := Repeats(e.r) + 1;
    if k < n {
      RepeatedAt(number, time, e.d, Seconds(e.d, timescale), n, k);
    } else {
      NumbersAreConsecutive(runs, timescale, i + 1, number + n, Later(time, n, e.d), k - n);
    }
  }

  /** The run that makes segment `k` of those of the runs from `i` on. */
  function RunOf(runs: seq<Run>, i: nat, k: nat): nat
    requires i <= |runs|
    decreases |runs| - i
  {
    if i == |runs| || k <= Repeats(runs[i].r) then i else RunOf(runs, i + 1, k - Repeats(runs[i].r) - 1)
  }

  /**
   A segment lasts as long as its run says. The next one starts where it ended, in ticks,
   unless it is the first of the next run and that run gives a time: then it starts there.
   */
  lemma {:induction false} SegmentsFollow(runs: seq<Run>, timescale: nat, i: nat, number: int, cur: int, k: nat)
    requires i <= |runs| && k + 1 < |Full(runs, timescale, i, number, cur)|
    ensures var all, j, j' := Full(runs, timescale, i, number, cur), RunOf(runs, i, k), RunOf(runs, i, k + 1);
            && j <= j' <= j + 1 && j' < |runs|
            && all[k].duration == Seconds(runs[j].d, timescale)
            && all[k + 1].time == if j' == j + 1 && runs[j'].t >= 0 then runs[j'].t else all[k].time + runs[j].d
    decreases |runs| - i
  {
    hide Repeated, Later, Seconds;
    var e := runs[i];
    var time := if e.t >= 0 then e.t else cur;
    var n := Repeats(e.r) + 1;
    var seconds := Seconds(e.d, timescale);
    if k < n {
      RepeatedAt(number, time, e.d, seconds, n, k);
      LaterOne(time, k, e.d);
    }
    if k + 1 < n {
      RepeatedAt(number, time, e.d, seconds, n, k + 1);
    } else if k + 1 == n {
      FirstTime(runs, timescale, i + 1, number + n, Later(time, n, e.d));
    } else {
      SegmentsFollow(runs, timescale, i + 1, number + n, Later(time, n, e.d), k - n);
    }
  }

  lemma FirstTime(runs: seq<Run>, timescale: nat, i: nat, number: int, cur: int)
    requires i <= |runs| && |Full(runs, timescale, i, number, cur)| > 0
    ensures i < |runs| && RunOf(runs, i, 0) == i
    ensures Full(runs, timescale, i, number, cur)[0].time == if runs[i].t >= 0 then runs[i].t else cur
  {
  }

  lemma LaterOne(time: int, k: nat, d: int)
    ensures Later(time, k + 1, d) == Later(time, k, d) + d
  {
    Distribute(k, 1, d);
  }

  lemma RepeatedAt(number: int, time: int, d: int, seconds: real, n: nat, k: nat)
    requires k < n
    ensures Repeated(number, time, d, seconds, n)[k] == Segment(number + k, Later(time, k, d), seconds)
  {
    RepeatedDrop(number, time, d, seconds, n, k);
    assert Repeated(number, time, d, seconds, n)[k] == Repeated(number, time, d, seconds, n)[k..][0];
  }

  // --- a window on the wall clock ---------------------------------------------------------

  /** Truncation towards zero. */
  function Whole(x: real): int {
    if x >= 0.0 then x.Floor else -(-x).Floor
  }

  function SegmentSeconds(t: Template): real {
    t.duration / if t.timescale > 0 then t.timescale as real else 1.0
  }

  /** The time that has passed since the first segment began. */
  function Elapsed(c: Clock): real {
    if c.isDynamic then (if c.availabilityStart >= 0.0 then c.now - c.availabilityStart - c.periodStart else 0.0)
    else if c.periodDuration > 0.0 then c.periodDuration else c.mpdDuration
  }

  /** The index of the newest complete segment, -1 when there is none. */
  function Newest(t: Template, c: Clock): int
    requires t.duration > 0.0
  {
    if Elapsed(c) > 0.0 then Whole(Elapsed(c) / SegmentSeconds(t)) - 1 else -1
  }

  function WindowSize(t: Template, c: Clock, want: int): (n: nat)
    requires t.duration > 0.0
    ensures 1 <= n <= MAX_SEGMENTS
    ensures 1 <= want <= MAX_SEGMENTS ==> n == want
  {
    var n := if want > 0 then want
             else if c.timeShiftBuffer > 0.0 then Whole(c.timeShiftBuffer / SegmentSeconds(t))
             else DEFAULT_WINDOW;
    if n < 1 then 1 else if n > MAX_SEGMENTS then MAX_SEGMENTS else n
  }

  function SegmentAt(t: Template, index: int): Segment
    requires t.duration > 0.0
  {
    Segment(FirstNumber(t) + index, t.pto + index * Whole(t.duration), SegmentSeconds(t))
  }

  /** Segments `from` up to, not including, `to`. */
  function Window(t: Template, from: int, to: int): (s: seq<Segment>)
    requires t.duration > 0.0 && from <= to
    ensures |s| == to - from
    ensures forall k {:trigger s[k]} :: 0 <= k < |s| ==> s[k] == SegmentAt(t, from + k)
  {
    seq(to - from, k requires 0 <= k => SegmentAt(t, from + k))
  }

  /** The duration branch. */
  method ExpandWindow(t: Template, c: Clock, want: int) returns (segments: seq<Segment>)
    requires t.duration > 0.0
    ensures |segments| == if Newest(t, c) + 1 < WindowSize(t, c, want) then Newest(t, c) + 1 else WindowSize(t, c, want)
    ensures forall k :: 0 <= k < |segments| ==>
              segments[k] == SegmentAt(t, Newest(t, c) - |segments| + 1 + k)
  {
    var seconds := SegmentSeconds(t);
    var newest := -1;
    if c.isDynamic {
      if c.availabilityStart >= 0.0 {
        var elapsed := c.now - c.availabilityStart - c.periodStart;
        if elapsed > 0.0 { newest := Whole(elapsed / seconds) - 1; }
      }
    } else {
      var total := if c.periodDuration > 0.0 then c.periodDuration else c.mpdDuration;
      if total > 0.0 { newest := Whole(total / seconds) - 1; }
    }
    segments := [];
    if newest < 0 {
      NewestAtLeast(t, c);
      return;
    }
    var n := if want > 0 then want
             else if c.timeShiftBuffer > 0.0 then Whole(c.timeShiftBuffer / seconds)
             else DEFAULT_WINDOW;
    if n < 1 { n := 1; }
    if n > MAX_SEGMENTS { n := MAX_SEGMENTS; }
    var start := newest - n + 1;
    if start < 0 { start := 0; }
    for index := start to newest + 1
      invariant segments == Window(t, start, index)
    {
      segments := segments + [SegmentAt(t, index)];
    }
  }

  lemma SegmentSecondsPositive(t: Template)
    requires t.duration > 0.0
    ensures SegmentSeconds(t) > 0.0
  {
  }

  lemma NewestAtLeast(t: Template, c: Clock)
    requires t.duration > 0.0
    ensures Newest(t, c) >= -1
  {
    if Elapsed(c) > 0.0 { Quotient(Elapsed(c), SegmentSeconds(t)); }
  }

  /** Division rounded down, in terms of multiplication. */
  lemma Quotient(x: real, d: real)
    requires x > 0.0 && d > 0.0
    ensures var w := Whole(x / d); w >= 0 && w as real * d <= x < w as real * d + d
  {
    hide Whole;
    DividedBack(x, d);
    WholeBounds(x / d);
    Bounds(x, x / d, Whole(x / d) as real, d);
  }

  lemma DividedBack(x: real, d: real)
    requires x > 0.0 && d > 0.0
    ensures x / d >= 0.0 && x / d * d == x
  {
  }

  lemma WholeBounds(q: real)
    requires q >= 0.0
    ensures Whole(q) >= 0 && Whole(q) as real <= q < Whole(q) as real + 1.0
  {
  }

  lemma Bounds(x: real, q: real, w: real, d: real)
    requires d > 0.0 && x == q * d && w <= q < w + 1.0
    ensures w * d <= x < w * d + d
  {
    Above(x, q, w, w + 1.0, d);
  }

  lemma Above(x: real, q: real, w: real, h: real, d: real)
    requires d > 0.0 && x == q * d && q < h && h == w + 1.0
    ensures x < w * d + d
  {
    Less(x, q, h, d);
    PlusOne(h, w, d);
  }

  lemma Less(x: real, q: real, h: real, d: real)
    requires d > 0.0 && x == q * d && q < h
    ensures x < h * d
  {
  }

  lemma PlusOne(h: real, w: real, d: real)
    requires h == w + 1.0
    ensures h * d == w * d + d
  {
  }

  lemma Scale(a: real, b: real, d: real)
    requires d > 0.0
    ensures a <= b ==> a * d <= b * d
    ensures a < b ==> a * d < b * d
  {
  }

  /** The newest segment of the window is complete, and the one after it is not. */
  lemma NewestIsComplete(t: Template, c: Clock)
    requires t.duration > 0.0 && Elapsed(c) > 0.0
    ensures (Newest(t, c) + 1) as real * SegmentSeconds(t) <= Elapsed(c)
            < (Newest(t, c) + 1) as real * SegmentSeconds(t) + SegmentSeconds(t)
  {
    SegmentSecondsPositive(t);
    Quotient(Elapsed(c), SegmentSeconds(t));
  }

  /**
   Two polls of a live stream no further apart than the window is long: every
   segment that became complete in between is in the second poll's window.
   */
  lemma PollsSkipNothing(t: Template, before: Clock, after: Clock, want: int, index: int)
    requires t.duration > 0.0
    requires Elapsed(before) <= Elapsed(after)
               <= Elapsed(before) + WindowSize(t, after, want) as real * SegmentSeconds(t)
    requires Newest(t, before) < index <= Newest(t, after)
    ensures Newest(t, after) - WindowSize(t, after, want) + 1 <= index
  {
    hide SegmentSeconds, WindowSize, Elapsed;
    var d, n := SegmentSeconds(t), WindowSize(t, after, want);
    SegmentSecondsPositive(t);
    NewestAtLeast(t, before);
    NewestIsComplete(t, after);
    if Elapsed(before) > 0.0 { NewestIsComplete(t, before); }
    hide Newest;
    StepsApart(Newest(t, before), Newest(t, after), n, d, Elapsed(before), Elapsed(after));
  }

  lemma StepsApart(b: int, a: int, n: int, d: real, x: real, y: real)
    requires d > 0.0 && x < (b + 1) as real * d + d && (a + 1) as real * d <= y <= x + n as real * d
    ensures a - b <= n
  {
    var low, high := (b + 1) as real, (a + 1) as real;
    Sum(low, n as real, d);
    Sum(low + n as real, 1.0, d);
    Scale(low + n as real + 1.0, high, d);
  }

  lemma Sum(a: real, b: real, d: real)
    ensures (a + b) * d == a * d + b * d
  {
  }

  // --- the plan ---------------------------------------------------------------------------

  /** The media segments of one poll; the caller's `want` keeps the newest ones. */
  method BuildSegments(t: Template, c: Clock, want: int) returns (segments: seq<Segment>)
    ensures t.timeline != [] ==>
              segments == Last(Expansion(t), if 0 < want < MAX_SEGMENTS then want else MAX_SEGMENTS)
    ensures t.timeline == [] && t.duration > 0.0 ==>
              && |segments| == (if Newest(t, c) + 1 < WindowSize(t, c, want) then Newest(t, c) + 1
                                else WindowSize(t, c, want))
              && forall k :: 0 <= k < |segments| ==> segments[k] == SegmentAt(t, Newest(t, c) - |segments| + 1 + k)
    ensures t.timeline == [] && t.duration <= 0.0 ==> segments == []
  {
    hide Expansion, Newest, WindowSize, SegmentAt;
    segments := [];
    if t.timeline != [] {
      ghost var steps;
      segments, steps := ExpandTail(t);
      LastOfLast(Expansion(t), MAX_SEGMENTS, want);
    } else if t.duration > 0.0 {
      segments := ExpandWindow(t, c, want);
    }
    if want > 0 && |segments| > want {
      segments := segments[|segments| - want..];
    }
  }

  lemma LastOfLast(s: seq<Segment>, max: nat, want: int)
    ensures want > 0 ==> Last(Last(s, max), want) == Last(s, if want < max then want else max)
  {
  }
}
