/**
 A stream's traffic as the panel shows it: a ring of its latest requests and one
 bucket for each of the last sixty seconds, standing in for the full history.
 */
module Traffic {

  const RECENT: nat := 60
  const SECONDS: nat := 60

  datatype Request = Request(
    at: real,
    ms: real,
    status: int,
    bytes: int,
    ok: bool,
    manifest: bool,
    proxy: string,
    name: string,
    error: string)

  type History = seq<Request>

  /** The second a request ended in; the clock does not go below zero. */
  function Second(r: Request): nat {
    if r.at >= 0.0 then r.at.Floor else 0
  }

  /** What is added up: requests, failed requests, or the bytes of good ones. */
  datatype Kind = Requests | Errors | Bytes

  function Weight(r: Request, k: Kind): nat {
    match k
    case Requests => 1
    case Errors => if r.ok then 0 else 1
    case Bytes => if r.ok && r.bytes > 0 then r.bytes else 0
  }

  /** The full history added up over the seconds from `lo` to `hi`. */
  function Total(h: History, k: Kind, lo: int, hi: int): nat {
    if h == [] then 0
    else
      var last := h[|h| - 1];
      Total(h[..|h| - 1], k, lo, hi) + if lo <= Second(last) <= hi then Weight(last, k) else 0
  }

  /** The second of the last request noted in bucket `b`; 0 when there is none. */
  function Stamp(h: History, b: nat): nat {
    if h == [] then 0
    else if Second(h[|h| - 1]) % SECONDS == b then Second(h[|h| - 1])
    else Stamp(h[..|h| - 1], b)
  }

  /** Nothing of another second was noted in the bucket of request `i` after it. */
  predicate IsKept(h: History, i: nat)
    requires i < |h|
  {
    forall j :: i < j < |h| && Second(h[j]) % SECONDS == Second(h[i]) % SECONDS ==> Second(h[j]) == Second(h[i])
  }

  /** What is added up of the first `m` requests, as far as they are kept in bucket `b`. */
  function Held(h: History, m: nat, k: Kind, b: nat): nat
    requires m <= |h|
  {
    if m == 0 then 0
    else Held(h, m - 1, k, b) + if Second(h[m - 1]) % SECONDS == b && IsKept(h, m - 1) then Weight(h[m - 1], k) else 0
  }

  /** A bucket holds the second it was last used for, and what is kept there. */
  predicate BucketHolds(h: History, b: nat, stamp: nat, bytes: nat, requests: nat, errors: nat) {
    && stamp == Stamp(h, b)
    && bytes == Held(h, |h|, Bytes, b)
    && requests == Held(h, |h|, Requests, b)
    && errors == Held(h, |h|, Errors, b)
  }

  // --- one more request ----------------------------------------------------------------

  lemma {:induction false} InBucket(h: History, b: nat)
    ensures forall i :: 0 <= i < |h| && Second(h[i]) % SECONDS == b && IsKept(h, i) ==> Second(h[i]) == Stamp(h, b)
    decreases |h|
  {
    if h != [] {
      var rest := h[..|h| - 1];
      InBucket(rest, b);
      forall i | 0 <= i < |rest| && Second(h[i]) % SECONDS == b && IsKept(h, i)
        ensures Second(h[i]) == Stamp(h, b)
      {
        assert rest[i] == h[i];
        if Second(h[|h| - 1]) % SECONDS != b { assert IsKept(rest, i); }
      }
    }
  }

  /** A new request takes its bucket from all requests of other seconds, and from no others. */
  lemma StillKept(h: History, r: Request, i: nat)
    requires i < |h|
    ensures IsKept(h + [r], i)
            <==> IsKept(h, i) && (Second(h[i]) % SECONDS == Second(r) % SECONDS ==> Second(h[i]) == Second(r))
  {
    var all := h + [r];
    assert all[|h|] == r;
    assert forall j :: 0 <= j < |h| ==> all[j] == h[j];
  }

  lemma {:induction false} StillHeld(h: History, r: Request, m: nat, k: Kind, b: nat)
    requires m <= |h|
    ensures Held(h + [r], m, k, b)
            == if b == Second(r) % SECONDS && Stamp(h, b) != Second(r) then 0 else Held(h, m, k, b)
  {
    if m > 0 {
      hide IsKept, Stamp, Weight;
      StillHeld(h, r, m - 1, k, b);
      StillKept(h, r, m - 1);
      InBucket(h, b);
      assert (h + [r])[m - 1] == h[m - 1];
    }
  }

  /** The bucket of the new request adds it, from nothing if it was last used for another second; the others stay. */
  lemma OneMore(h: History, r: Request, b: nat, stamp: nat, bytes: nat, requests: nat, errors: nat)
    requires BucketHolds(h, b, stamp, bytes, requests, errors)
    ensures b != Second(r) % SECONDS ==> BucketHolds(h + [r], b, stamp, bytes, requests, errors)
    ensures var s := Second(r);
            b == s % SECONDS ==>
              BucketHolds(h + [r], b, s,
                          (if stamp == s then bytes else 0) + Weight(r, Bytes),
                          (if stamp == s then requests else 0) + Weight(r, Requests),
                          (if stamp == s then errors else 0) + Weight(r, Errors))
  {
    assert (h + [r])[..|h|] == h;
    StillHeld(h, r, |h|, Bytes, b);
    StillHeld(h, r, |h|, Requests, b);
    StillHeld(h, r, |h|, Errors, b);
  }

  // --- requests noted late -----------------------------------------------------------------

  /** The latest second in the history that shares bucket `b`; 0 when there is none. */
  function Latest(h: History, b: nat): (s: nat)
    ensures s != 0 ==> s % SECONDS == b && exists i :: 0 <= i < |h| && Second(h[i]) == s
    ensures forall i :: 0 <= i < |h| && Second(h[i]) % SECONDS == b ==> Second(h[i]) <= s
  {
    if h == [] then 0
    else
      var before := Latest(h[..|h| - 1], b);
      var s := Second(h[|h| - 1]);
      assert forall i :: 0 <= i < |h| - 1 ==> h[..|h| - 1][i] == h[i];
      if s % SECONDS == b && s > before then s else before
  }

  /** No request of a later second has been noted in the bucket this one goes to. */
  ghost predicate InOrder(h: History, r: Request) {
    forall i :: 0 <= i < |h| && Second(h[i]) % SECONDS == Second(r) % SECONDS ==> Second(h[i]) <= Second(r)
  }

  /** Requests may be noted in any order, as long as none is noted a minute or more after a later one. */
  lemma LessThanAMinuteLate(h: History, r: Request)
    requires forall i :: 0 <= i < |h| ==> Second(h[i]) < Second(r) + SECONDS
    ensures InOrder(h, r)
  {
    forall i | 0 <= i < |h| && Second(h[i]) % SECONDS == Second(r) % SECONDS ensures Second(h[i]) <= Second(r) {
      NotLater(Second(r), Second(h[i]));
    }
  }

  lemma NotLater(s: nat, t: nat)
    requires s % SECONDS == t % SECONDS && t < s + SECONDS
    ensures t <= s
  {
    if t > s { SameBucket(s, t); }
  }

  /** Two seconds in one bucket less than a minute apart are the same. */
  lemma SameBucket(s: nat, t: nat)
    requires s % SECONDS == t % SECONDS && s <= t < s + SECONDS
    ensures s == t
  {
    assert s == s / SECONDS * SECONDS + s % SECONDS;
    assert t == t / SECONDS * SECONDS + t % SECONDS;
  }

  /** A request leaves the latest second of its bucket as the stamp exactly when it is in order. */
  lemma InOrderIsNeeded(h: History, r: Request)
    ensures var b := Second(r) % SECONDS;
            InOrder(h, r) <==> Stamp(h + [r], b) == Latest(h + [r], b)
  {
    var all := h + [r];
    assert all[..|h|] == h && all[|h|] == r;
    assert forall i :: 0 <= i < |h| ==> all[i] == h[i];
  }

  // --- the buckets tell the history ---------------------------------------------------------

  /** Total, of the first `m` requests alone that are kept in one of the first `n` buckets. */
  function Bucketed(h: History, m: nat, k: Kind, lo: int, hi: int, n: nat): nat
    requires m <= |h|
  {
    if m == 0 then 0
    else
      var last := h[m - 1];
      Bucketed(h, m - 1, k, lo, hi, n)
      + if lo <= Second(last) <= hi && Second(last) % SECONDS < n && IsKept(h, m - 1) then Weight(last, k) else 0
  }

  /** What the buckets still tell of the seconds from `lo` to `hi`. */
  function Shown(h: History, k: Kind, lo: int, hi: int): nat { Bucketed(h, |h|, k, lo, hi, SECONDS) }

  /** One bucket more adds what it holds, if its second is in the window, and nothing otherwise. */
  lemma {:induction false} NextBucket(h: History, m: nat, k: Kind, lo: int, hi: int, b: nat)
    requires b < SECONDS && m <= |h|
    ensures Bucketed(h, m, k, lo, hi, b + 1)
            == Bucketed(h, m, k, lo, hi, b) + if lo <= Stamp(h, b) <= hi then Held(h, m, k, b) else 0
  {
    if m > 0 {
      NextBucket(h, m - 1, k, lo, hi, b);
      InBucket(h, b);
      hide IsKept, Stamp, Weight;
    }
  }

  lemma BucketAdds(h: History, b: nat, stamp: nat, bytes: nat, requests: nat, errors: nat, lo: int, hi: int)
    requires b < SECONDS && BucketHolds(h, b, stamp, bytes, requests, errors)
    ensures Bucketed(h, |h|, Bytes, lo, hi, b + 1)
            == Bucketed(h, |h|, Bytes, lo, hi, b) + if lo <= stamp <= hi then bytes else 0
    ensures Bucketed(h, |h|, Requests, lo, hi, b + 1)
            == Bucketed(h, |h|, Requests, lo, hi, b) + if lo <= stamp <= hi then requests else 0
    ensures Bucketed(h, |h|, Errors, lo, hi, b + 1)
            == Bucketed(h, |h|, Errors, lo, hi, b) + if lo <= stamp <= hi then errors else 0
  {
    hide Bucketed, Held, Stamp;
    NextBucket(h, |h|, Bytes, lo, hi, b);
    NextBucket(h, |h|, Requests, lo, hi, b);
    NextBucket(h, |h|, Errors, lo, hi, b);
  }

  lemma {:induction false} NoBuckets(h: History, m: nat, k: Kind, lo: int, hi: int)
    requires m <= |h|
    ensures Bucketed(h, m, k, lo, hi, 0) == 0
  {
    if m > 0 { NoBuckets(h, m - 1, k, lo, hi); }
  }

  /** Of the first `m` requests, every one of these seconds still has its bucket. */
  predicate AllKept(h: History, m: nat, lo: int, hi: int)
    requires m <= |h|
  {
    forall i :: 0 <= i < m && lo <= Second(h[i]) <= hi ==> IsKept(h, i)
  }

  lemma {:induction false} KeptIsTotal(h: History, m: nat, k: Kind, lo: int, hi: int)
    requires m <= |h|
    ensures var shown, total := Bucketed(h, m, k, lo, hi, SECONDS), Total(h[..m], k, lo, hi);
            && shown <= total
            && (AllKept(h, m, lo, hi) ==> shown == total)
            && (k == Requests && shown == total ==> AllKept(h, m, lo, hi))
  {
    if m > 0 {
      hide IsKept;
      assert h[..m][..m - 1] == h[..m - 1];
      KeptIsTotal(h, m - 1, k, lo, hi);
      assert AllKept(h, m, lo, hi) ==> AllKept(h, m - 1, lo, hi);
    }
  }

  /**
   What the buckets tell is what the history holds, exactly when no request of the
   window has lost its bucket to another second.
   */
  lemma ShownIsTotal(h: History, k: Kind, lo: int, hi: int)
    ensures Shown(h, k, lo, hi) <= Total(h, k, lo, hi)
    ensures AllKept(h, |h|, lo, hi) ==> Shown(h, k, lo, hi) == Total(h, k, lo, hi)
    ensures AllKept(h, |h|, lo, hi) <==> Shown(h, Requests, lo, hi) == Total(h, Requests, lo, hi)
  {
    assert h[..|h|] == h;
    KeptIsTotal(h, |h|, k, lo, hi);
    KeptIsTotal(h, |h|, Requests, lo, hi);
  }

  /** No request was noted behind one of the window that lies a minute or more after it. */
  ghost predicate NoneIsLate(h: History, lo: int, hi: int) {
    forall i, j :: 0 <= i < j < |h| && lo <= Second(h[i]) <= hi ==> Second(h[i]) < Second(h[j]) + SECONDS
  }

  /** None has, as long as none is so late and no second a minute after the window's first, or later, has been noted. */
  lemma WindowIsKept(h: History, lo: int, hi: int)
    requires NoneIsLate(h, lo, hi) && forall i :: 0 <= i < |h| ==> Second(h[i]) < lo + SECONDS
    ensures AllKept(h, |h|, lo, hi)
  {
    forall i, j | 0 <= i < j < |h| && lo <= Second(h[i]) <= hi && Second(h[j]) % SECONDS == Second(h[i]) % SECONDS
      ensures Second(h[j]) == Second(h[i])
    {
      NotLater(Second(h[j]), Second(h[i]));
      NotLater(Second(h[i]), Second(h[j]));
    }
  }

  // --- the ring ------------------------------------------------------------------------------

  function Newest(h: History, k: nat): Request
    requires k < |h|
  {
    h[|h| - 1 - k]
  }

  class StreamTraffic {
    const recent: array<Request>
    const stamps: array<nat>
    const bytes: array<nat>
    const requests: array<nat>
    const errors: array<nat>
    var next: nat
    var count: nat
    ghost var history: History

    ghost predicate Valid()
      reads this, recent, stamps, bytes, requests, errors
    {
      Shape() && RingOk() && forall b :: 0 <= b < SECONDS ==> BucketOk(b)
    }

    ghost predicate Shape() {
      && recent.Length == RECENT
      && stamps.Length == bytes.Length == requests.Length == errors.Length == SECONDS
      && bytes != requests && bytes != errors && bytes != stamps && requests != errors
      && requests != stamps && errors != stamps
    }

    /** Slot `next` is to be written, and going back from it are the newest requests. */
    ghost predicate RingOk()
      requires Shape()
      reads this, recent
    {
      && next == |history| % RECENT
      && count == (if |history| < RECENT then |history| else RECENT)
      && forall k :: 0 <= k < count ==> recent[(next + RECENT - 1 - k) % RECENT] == Newest(history, k)
    }

    ghost predicate BucketOk(b: nat)
      requires Shape() && b < SECONDS
      reads this`history, stamps, bytes, requests, errors
    {
      BucketHolds(history, b, stamps[b], bytes[b], requests[b], errors[b])
    }

    constructor ()
      ensures Valid() && history == []
    {
      recent := new Request[RECENT](_ => Request(0.0, 0.0, 0, 0, false, false, "", "", ""));
      stamps := new nat[SECONDS](_ => 0);
      bytes := new nat[SECONDS](_ => 0);
      requests := new nat[SECONDS](_ => 0);
      errors := new nat[SECONDS](_ => 0);
      next, count, history := 0, 0, [];
    }

    /** A request has ended. */
    method End(r: Request)
      requires Valid()
      modifies this, recent, stamps, bytes, requests, errors
      ensures Valid() && history == old(history) + [r]
    {
      PushRecent(r);
      assert forall b :: 0 <= b < SECONDS ==> BucketOk(b);
      AddToBucket(r);
      history := history + [r];
    }

    method PushRecent(r: Request)
      requires Shape() && RingOk()
      modifies this`next, this`count, recent
      ensures Shape()
      ensures next == |history + [r]| % RECENT
      ensures count == (if |history + [r]| < RECENT then |history + [r]| else RECENT)
      ensures forall k :: 0 <= k < count ==> recent[(next + RECENT - 1 - k) % RECENT] == Newest(history + [r], k)
    {
      ghost var n, h := next, history + [r];
      recent[next] := r;
      next := (next + 1) % RECENT;
      if count < RECENT { count := count + 1; }
      NextSlot(|history|);
      forall k | 0 <= k < count ensures recent[(next + RECENT - 1 - k) % RECENT] == Newest(h, k) {
        SlotBack(n, k);
        if k > 0 {
          assert Newest(h, k) == Newest(history, k - 1);
        }
      }
    }

    method AddToBucket(r: Request)
      requires Shape() && forall b :: 0 <= b < SECONDS ==> BucketOk(b)
      modifies stamps, bytes, requests, errors
      ensures forall b :: 0 <= b < SECONDS ==>
                BucketHolds(history + [r], b, stamps[b], bytes[b], requests[b], errors[b])
    {
      hide BucketHolds;
      var sec := Second(r);
      var b := sec % SECONDS;
      assert BucketOk(b);
      OneMore(history, r, b, stamps[b], bytes[b], requests[b], errors[b]);
      forall c | 0 <= c < SECONDS && c != b
        ensures BucketHolds(history + [r], c, stamps[c], bytes[c], requests[c], errors[c])
      {
        assert BucketOk(c);
        OneMore(history, r, c, stamps[c], bytes[c], requests[c], errors[c]);
      }
      UpdateBucket(b, sec, r);
    }

    /** A bucket last used for another second starts again. */
    method UpdateBucket(b: nat, sec: nat, r: Request)
      requires Shape() && b < SECONDS
      modifies stamps, bytes, requests, errors
      ensures stamps[b] == sec
      ensures bytes[b] == (if old(stamps[b]) == sec then old(bytes[b]) else 0) + Weight(r, Bytes)
      ensures requests[b] == (if old(stamps[b]) == sec then old(requests[b]) else 0) + Weight(r, Requests)
      ensures errors[b] == (if old(stamps[b]) == sec then old(errors[b]) else 0) + Weight(r, Errors)
      ensures forall c :: 0 <= c < SECONDS && c != b ==>
                && stamps[c] == old(stamps[c]) && bytes[c] == old(bytes[c])
                && requests[c] == old(requests[c]) && errors[c] == old(errors[c])
    {
      if stamps[b] != sec {
        stamps[b] := sec;
        bytes[b] := 0;
        requests[b] := 0;
        errors[b] := 0;
      }
      if r.ok && r.bytes > 0 { bytes[b] := bytes[b] + r.bytes; }
      requests[b] := requests[b] + 1;
      if !r.ok { errors[b] := errors[b] + 1; }
    }

    /**
     What the panel shows at `now`: requests and errors of the last sixty seconds and
     the bytes of the ten seconds before this one, as far as the buckets still tell,
     and the newest requests, newest first. The clock is read before the lock is
     taken, so requests of a later second may have been noted.
     */
    method Query(now: real) returns (bytes10: nat, requests60: nat, errors60: nat, newest: seq<Request>)
      requires Valid() && now >= 0.0
      ensures requests60 == Shown(history, Requests, Since(now.Floor - 59), now.Floor)
      ensures errors60 == Shown(history, Errors, Since(now.Floor - 59), now.Floor)
      ensures bytes10 == Shown(history, Bytes, Since(now.Floor - 10), now.Floor - 1)
      ensures |newest| == if |history| < RECENT then |history| else RECENT
      ensures forall k :: 0 <= k < |newest| ==> newest[k] == Newest(history, k)
    {
      var sec := now.Floor;
      bytes10, requests60, errors60 := AddBuckets(sec);
      newest := [];
      for k := 0 to count
        invariant |newest| == k && forall j :: 0 <= j < k ==> newest[j] == Newest(history, j)
      {
        newest := newest + [recent[(next + RECENT - 1 - k) % RECENT]];
      }
    }

    method AddBuckets(sec: int) returns (bytes10: nat, requests60: nat, errors60: nat)
      requires Valid() && sec >= 0
      ensures requests60 == Shown(history, Requests, Since(sec - 59), sec)
      ensures errors60 == Shown(history, Errors, Since(sec - 59), sec)
      ensures bytes10 == Shown(history, Bytes, Since(sec - 10), sec - 1)
    {
      bytes10, requests60, errors60 := 0, 0, 0;
      NoBuckets(history, |history|, Requests, Since(sec - 59), sec);
      NoBuckets(history, |history|, Errors, Since(sec - 59), sec);
      NoBuckets(history, |history|, Bytes, Since(sec - 10), sec - 1);
      for b := 0 to SECONDS
        invariant requests60 == Bucketed(history, |history|, Requests, Since(sec - 59), sec, b)
        invariant errors60 == Bucketed(history, |history|, Errors, Since(sec - 59), sec, b)
        invariant bytes10 == Bucketed(history, |history|, Bytes, Since(sec - 10), sec - 1, b)
      {
        assert BucketOk(b);
        hide Bucketed, BucketHolds;
        BucketAdds(history, b, stamps[b], bytes[b], requests[b], errors[b], Since(sec - 59), sec);
        BucketAdds(history, b, stamps[b], bytes[b], requests[b], errors[b], Since(sec - 10), sec - 1);
        var age := sec - stamps[b];
        if age < 0 || age >= SECONDS || stamps[b] == 0 { continue; }
        requests60 := requests60 + requests[b];
        errors60 := errors60 + errors[b];
        if 1 <= age <= 10 { bytes10 := bytes10 + bytes[b]; }
      }
    }
  }

  /**
   While no request is a minute late and no noted second lies after the query's clock, all
   three are the totals of the full history; the bytes are even with requests up to 49
   seconds after it.
   */
  lemma QueryIsTotal(h: History, sec: int)
    ensures NoneIsLate(h, Since(sec - 59), sec) && (forall i :: 0 <= i < |h| ==> Second(h[i]) <= sec) ==>
              && Shown(h, Requests, Since(sec - 59), sec) == Total(h, Requests, Since(sec - 59), sec)
              && Shown(h, Errors, Since(sec - 59), sec) == Total(h, Errors, Since(sec - 59), sec)
    ensures NoneIsLate(h, Since(sec - 10), sec - 1) && (forall i :: 0 <= i < |h| ==> Second(h[i]) < sec + 50) ==>
              Shown(h, Bytes, Since(sec - 10), sec - 1) == Total(h, Bytes, Since(sec - 10), sec - 1)
  {
    hide NoneIsLate, Shown, Total;
    if NoneIsLate(h, Since(sec - 59), sec) && forall i :: 0 <= i < |h| ==> Second(h[i]) <= sec {
      WindowIsKept(h, Since(sec - 59), sec);
      ShownIsTotal(h, Requests, Since(sec - 59), sec);
      ShownIsTotal(h, Errors, Since(sec - 59), sec);
    }
    if NoneIsLate(h, Since(sec - 10), sec - 1) && forall i :: 0 <= i < |h| ==> Second(h[i]) < sec + 50 {
      WindowIsKept(h, Since(sec - 10), sec - 1);
      ShownIsTotal(h, Bytes, Since(sec - 10), sec - 1);
    }
  }

  /** The first second of the clock is the mark of an unused bucket, so it is never counted. */
  function Since(t: int): int { if t < 1 then 1 else t }

  lemma NextSlot(n: nat)
    ensures (n % RECENT + 1) % RECENT == (n + 1) % RECENT
  {
  }

  /** Counting back from the slot after `n`: `n` itself, and before it what was counted back from `n`. */
  lemma SlotBack(n: nat, k: nat)
    requires n < RECENT && k < RECENT
    ensures k == 0 ==> ((n + 1) % RECENT + RECENT - 1 - k) % RECENT == n
    ensures k > 0 ==> ((n + 1) % RECENT + RECENT - 1 - k) % RECENT == (n + RECENT - 1 - (k - 1)) % RECENT != n
  {
  }
}
