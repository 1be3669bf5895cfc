/**
 Fairness of the rotation: while the same proxies stay healthy, each of them is
 handed out once before any is handed out again.
 */
module ProxyRotation {
  import opened Wrappers
  import opened ProxyChoice

  /** One hand-out: the pool as it was found, the calling thread, and what it asked for. */
  datatype Turn = Turn(pool: Pool, caller: Caller, request: Request)

  /**
   A rotating hand-out with nothing tried and nothing to stick to, when the entries
   that may be handed out for being healthy are `H`, and none is waiting for a
   first check or a re-check.
   */
  ghost predicate Plain(t: Turn, H: set<nat>) {
    && t.request.rotate && t.request.tried == {} && t.caller.last == None
    && UncheckedSet(t.pool, t.caller, t.request) == {}
    && DueSet(t.pool, t.caller, t.request) == {}
    && HealthySet(t.pool, t.caller, t.request) == H
  }

  /** Each hand-out finds the rotation point where the one before left it. */
  ghost predicate Consecutive(turns: seq<Turn>) {
    forall k :: 0 < k < |turns| ==>
      turns[k].pool.nextRotate
      == Choose(turns[k - 1].pool, turns[k - 1].caller, turns[k - 1].request).1
  }

  ghost function HandedOut(t: Turn): Choice {
    Choose(t.pool, t.caller, t.request).0
  }

  /** How many places `x` lies ahead of `start`. */
  function Distance(start: nat, x: nat, n: nat): (d: nat)
    requires start < n && x < n
    ensures d < n && Place(start, d, n) == x
  {
    if x >= start then x - start else x + n - start
  }

  lemma DistanceOfPlace(start: nat, d: nat, n: nat)
    requires start < n && d < n
    ensures Distance(start, Place(start, d, n), n) == d
  {
  }

  /** The members of `H` at least `from` places ahead of `start`. */
  ghost function Ahead(H: set<nat>, start: nat, from: nat, n: nat): set<nat>
    requires start < n && forall x :: x in H ==> x < n
  {
    set x | x in H && Distance(start, x, n) >= from
  }

  /** Going round from `from` places ahead finds the nearest member that is still ahead. */
  lemma NextAhead(H: set<nat>, start: nat, from: nat, n: nat) returns (h: nat)
    requires start < n && from < n && (forall x :: x in H ==> x < n)
    requires Ahead(H, start, from, n) != {}
    ensures Round(H, Place(start, from, n), 0, n) == Some(h)
    ensures h in Ahead(H, start, from, n)
    ensures Ahead(H, start, Distance(start, h, n) + 1, n) == Ahead(H, start, from, n) - {h}
    ensures Distance(start, h, n) + 1 < n ==>
              (if h + 1 == n then 0 else h + 1) == Place(start, Distance(start, h, n) + 1, n)
  {
    hide Place;
    var s := Place(start, from, n);
    var x :| x in Ahead(H, start, from, n);
    RoundMeetsAll(H, s, n, x);
    h := Round(H, s, 0, n).value;
    var j :| 0 <= j < n && h == Place(s, j, n) && forall k :: 0 <= k < j ==> Place(s, k, n) !in H;
    hide Round;
    NearestAhead(H, start, from, n, x, j);
    DistanceOfPlace(start, from + j, n);
    AheadShrinks(H, start, from, n, h);
  }

  /** Where the round first meets a member, there is none ahead that is nearer. */
  lemma NearestAhead(H: set<nat>, start: nat, from: nat, n: nat, x: nat, j: nat)
    requires start < n && from < n && (forall x :: x in H ==> x < n) && x in Ahead(H, start, from, n) && j < n
    requires var s := Place(start, from, n); s < n && forall k :: 0 <= k < j ==> Place(s, k, n) !in H
    ensures forall y :: y in Ahead(H, start, from, n) ==> from + j <= Distance(start, y, n)
    ensures from + j < n && Place(Place(start, from, n), j, n) == Place(start, from + j, n)
  {
    hide Place;
    var s := Place(start, from, n);
    forall y | y in Ahead(H, start, from, n) ensures from + j <= Distance(start, y, n) {
      var k := Distance(start, y, n) - from;
      assert Place(s, k, n) == y;
    }
    assert from + j <= Distance(start, x, n);
  }

  lemma AheadShrinks(H: set<nat>, start: nat, from: nat, n: nat, h: nat)
    requires start < n && (forall x :: x in H ==> x < n) && h in H && from <= Distance(start, h, n)
    requires forall y :: y in Ahead(H, start, from, n) ==> Distance(start, h, n) <= Distance(start, y, n)
    ensures Ahead(H, start, Distance(start, h, n) + 1, n) == Ahead(H, start, from, n) - {h}
  {
    forall y | y in Ahead(H, start, from, n) && Distance(start, y, n) == Distance(start, h, n) ensures y == h {
      assert y == Place(start, Distance(start, y, n), n);
    }
  }

  lemma AheadIsNear(H: set<nat>, start: nat, from: nat, n: nat, x: nat)
    requires start < n && (forall y :: y in H ==> y < n) && x in Ahead(H, start, from, n)
    ensures from < n && x < n
  {
  }

  /** A plain hand-out takes the healthy entry met first from the rotation point. */
  lemma PlainTurn(t: Turn, H: set<nat>, n: nat)
    requires Plain(t, H) && |t.pool.proxies| == n && H != {}
    ensures n > 0 && (forall x :: x in H ==> x < n)
    ensures var start := t.pool.nextRotate % n;
            var h := Round(H, start, 0, n);
            h.Some? && Choose(t.pool, t.caller, t.request)
                       == (Entry(h.value), if h.value + 1 == n then 0 else h.value + 1)
  {
    var x :| x in H;
    assert x < n;
    var start := t.pool.nextRotate % n;
    RoundMeetsAll(H, start, n, x);
    Modulo(Round(H, start, 0, n).value + 1, n);
  }

  /** The hand-outs from `k` on give out exactly the members still ahead, each once. */
  lemma {:induction false} TurnsFrom(turns: seq<Turn>, k: nat, H: set<nat>, start: nat, from: nat, n: nat)
    requires k <= |turns| && start < n && (forall x :: x in H ==> x < n)
    requires forall i :: 0 <= i < |turns| ==> Plain(turns[i], H) && |turns[i].pool.proxies| == n
    requires Consecutive(turns)
    requires from <= n && |Ahead(H, start, from, n)| == |turns| - k
    requires k < |turns| && from < n ==> turns[k].pool.nextRotate % n == Place(start, from, n)
    ensures forall i :: k <= i < |turns| ==>
              HandedOut(turns[i]).Entry? && HandedOut(turns[i]).index in Ahead(H, start, from, n)
    ensures forall i, j :: k <= i < j < |turns| ==> HandedOut(turns[i]) != HandedOut(turns[j])
    decreases |turns| - k
  {
    hide Plain, Choose, Round, Place, Distance, Ahead;
    if k < |turns| {
      var ahead := Ahead(H, start, from, n);
      assert ahead != {};
      var x :| x in ahead;
      AheadIsNear(H, start, from, n, x);
      var h := NextAhead(H, start, from, n);
      PlainTurn(turns[k], H, n);
      assert HandedOut(turns[k]) == Entry(h);
      var next := Distance(start, h, n) + 1;
      assert Ahead(H, start, next, n) == ahead - {h} && |ahead - {h}| == |turns| - k - 1;
      if k + 1 < |turns| {
        var y :| y in Ahead(H, start, next, n);
        AheadIsNear(H, start, next, n, y);
        Modulo(turns[k + 1].pool.nextRotate, n);
        assert turns[k + 1].pool.nextRotate == Place(start, next, n);
      }
      TurnsFrom(turns, k + 1, H, start, next, n);
      assert forall i :: k < i < |turns| ==> HandedOut(turns[i]).index in ahead - {h};
      assert forall j :: k < j < |turns| ==> HandedOut(turns[k]) != HandedOut(turns[j]);
    }
  }

  /**
   Any |H| consecutive plain hand-outs are a permutation of H: all different, and
   all of H.
   */
  lemma RotationIsFair(turns: seq<Turn>, H: set<nat>, n: nat)
    requires forall i :: 0 <= i < |turns| ==> Plain(turns[i], H) && |turns[i].pool.proxies| == n
    requires Consecutive(turns) && |turns| == |H|
    ensures forall i :: 0 <= i < |turns| ==> HandedOut(turns[i]).Entry?
    ensures forall i, j :: 0 <= i < j < |turns| ==> HandedOut(turns[i]) != HandedOut(turns[j])
    ensures (set i | 0 <= i < |turns| :: HandedOut(turns[i])) == (set h | h in H :: Entry(h))
  {
    if H != {} {
      PlainTurn(turns[0], H, n);
      var start := turns[0].pool.nextRotate % n;
      assert Ahead(H, start, 0, n) == H;
      TurnsFrom(turns, 0, H, start, 0, n);
      var given := set i | 0 <= i < |turns| :: HandedOut(turns[i]);
      var wanted := set h | h in H :: Entry(h);
      DistinctCount(turns, |turns|);
      assert (set i | 0 <= i < |turns| :: HandedOut(turns[i])) == given;
      EntryCount(H);
      assert given <= wanted;
      SubsetOfSameSize(given, wanted);
    }
  }

  lemma {:induction false} DistinctCount(turns: seq<Turn>, k: nat)
    requires k <= |turns|
    requires forall i, j :: 0 <= i < j < |turns| ==> HandedOut(turns[i]) != HandedOut(turns[j])
    ensures |set i | 0 <= i < k :: HandedOut(turns[i])| == k
  {
    hide HandedOut;
    if k > 0 {
      DistinctCount(turns, k - 1);
      assert (set i | 0 <= i < k :: HandedOut(turns[i]))
             == (set i | 0 <= i < k - 1 :: HandedOut(turns[i])) + {HandedOut(turns[k - 1])};
    }
  }

  lemma {:induction false} EntryCount(H: set<nat>)
    ensures |set h | h in H :: Entry(h)| == |H|
    decreases |H|
  {
    if H != {} {
      var x :| x in H;
      EntryCount(H - {x});
      assert (set h | h in H :: Entry(h)) == (set h | h in H - {x} :: Entry(h)) + {Entry(x)};
    }
  }

  lemma SubsetOfSameSize<T>(a: set<T>, b: set<T>)
    requires a <= b && |a| == |b|
    ensures a == b
  {
    assert b == a + (b - a);
  }
}
