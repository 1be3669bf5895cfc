/**
 The per-provider download budget: reference-counted limiter nodes in a list,
 used by many threads. Each step is what one thread does while it holds the
 budget lock; the steps of different threads interleave in any order.
 */
module Budget {
  import opened Wrappers

  type Tid = nat

  datatype Node = Node(id: string, active: int, users: int)

  /** The allocated nodes by address, and the list that links them. */
  datatype Table<A(==)> = Table(heap: map<A, Node>, list: seq<A>)

  datatype Policy = Policy(id: string, cookies: bool, maxDownloads: int)

  /** A thread between entering and leaving: the node it points to and how far it is. */
  datatype Stage = Blocked | Sleeping | Running

  datatype Thread<A> = Thread(node: A, policy: Policy, manifest: bool, stage: Stage)

  /** `wild` records that a freed node was used. */
  datatype World<A(==)> = World(table: Table<A>, threads: map<Tid, Thread<A>>, wild: bool)

  // --- the limit -----------------------------------------------------------------

  function Slots(p: Policy): (n: int)
    ensures n >= 1 && (p.cookies ==> n == 1)
  {
    var n := if p.cookies then 1 else p.maxDownloads;
    if n < 1 then 1 else n
  }

  /** What a playlist read may use above the download budget. */
  function Headroom(p: Policy): (n: int)
    ensures p.cookies <==> n == 0
    ensures !p.cookies ==> n >= 2
  {
    if p.cookies then 0 else if Slots(p) / 4 > 2 then Slots(p) / 4 else 2
  }

  function Limit(p: Policy, manifest: bool): int {
    if manifest then Slots(p) + Headroom(p) else Slots(p)
  }

  // --- the list --------------------------------------------------------------------

  function FindFrom<A(==)>(t: Table<A>, id: string, i: nat): (r: Option<A>)
    requires i <= |t.list|
    ensures r.Some? ==> r.value in t.heap && t.heap[r.value].id == id && r.value in t.list[i..]
    ensures r.None? ==> forall j :: i <= j < |t.list| && t.list[j] in t.heap ==> t.heap[t.list[j]].id != id
    decreases |t.list| - i
  {
    if i == |t.list| then None
    else if t.list[i] in t.heap && t.heap[t.list[i]].id == id then Some(t.list[i])
    else FindFrom(t, id, i + 1)
  }

  /** `spare` is where a new node would be put; it matters only when `id` has none yet. */
  predicate IsSpare<A(==)>(t: Table<A>, id: string, spare: A) {
    FindFrom(t, id, 0).None? ==> spare !in t.heap
  }

  /** The node for `id`, a new one at the head of the list if there is none, with one more user. */
  function Enter<A(==)>(t: Table<A>, id: string, spare: A): (Table<A>, A) {
    match FindFrom(t, id, 0)
    case Some(a) =>
      var n := t.heap[a];
      (t.(heap := t.heap[a := n.(users := n.users + 1)]), a)
    case None =>
      (Table(t.heap[spare := Node(id, 0, 1)], [spare] + t.list), spare)
  }

  function Without<A(==)>(list: seq<A>, a: A): seq<A> {
    if list == [] then [] else if list[0] == a then list[1..] else [list[0]] + Without(list[1..], a)
  }

  /** One user less; the last one unlinks and frees the node. */
  function Drop<A(==)>(t: Table<A>, a: A): Table<A>
    requires a in t.heap
  {
    var n := t.heap[a];
    if n.users != 1 then t.(heap := t.heap[a := n.(users := n.users - 1)])
    else Table(t.heap - {a}, Without(t.list, a))
  }

  function AddActive<A(==)>(t: Table<A>, a: A, delta: int): Table<A>
    requires a in t.heap
  {
    var n := t.heap[a];
    t.(heap := t.heap[a := n.(active := n.active + delta)])
  }

  // --- the steps -------------------------------------------------------------------

  datatype Step<A> =
    | EnterStep(t: Tid, policy: Policy, manifest: bool, spare: A)
    | Expire(t: Tid)
    | Rest(t: Tid)
    | Wake(t: Tid)
    | Leave(t: Tid)

  predicate Enabled<A(==)>(w: World<A>, e: Step<A>) {
    if e.EnterStep? then e.t !in w.threads && e.policy.id != "" && IsSpare(w.table, e.policy.id, e.spare)
    else
      && e.t in w.threads
      && var stage := w.threads[e.t].stage;
         match e
         case Expire(_) => stage.Blocked?
         case Rest(_) => stage.Blocked?
         case Wake(_) => stage.Sleeping?
         case Leave(_) => stage.Running?
  }

  /** The check at the top of the waiting loop: a free slot is taken, a full budget blocks. */
  function Check<A(==)>(w: World<A>, t: Tid, th: Thread<A>): World<A> {
    if th.node !in w.table.heap then w.(wild := true)
    else if w.table.heap[th.node].active >= Limit(th.policy, th.manifest)
    then w.(threads := w.threads[t := th.(stage := Blocked)])
    else World(AddActive(w.table, th.node, 1), w.threads[t := th.(stage := Running)], w.wild)
  }

  function Next<A(==)>(w: World<A>, e: Step<A>): World<A>
    requires Enabled(w, e)
  {
    if e.EnterStep? then
      var (table, a) := Enter(w.table, e.policy.id, e.spare);
      Check(w.(table := table), e.t, Thread(a, e.policy, e.manifest, Blocked))
    else
      var th := w.threads[e.t];
      match e
      case Expire(t) =>
        if th.node !in w.table.heap then w.(wild := true)
        else World(Drop(w.table, th.node), w.threads - {t}, w.wild)
      case Rest(t) => w.(threads := w.threads[t := th.(stage := Sleeping)])
      case Wake(t) => Check(w, t, th)
      case Leave(t) =>
        if th.node !in w.table.heap then w.(wild := true)
        else World(Drop(AddActive(w.table, th.node, -1), th.node), w.threads - {t}, w.wild)
  }

  // --- the invariant ------------------------------------------------------------------

  /** What a thread is counted as at a node: a user (waiting or running), or a running fetch of some kind. */
  datatype Kind = User | Active | Segment | Manifest

  predicate Is<A(==)>(th: Thread<A>, a: A, k: Kind) {
    th.node == a && (k.User? || th.stage.Running?) && (k.Segment? ==> !th.manifest) && (k.Manifest? ==> th.manifest)
  }

  ghost function Counted<A>(threads: map<Tid, Thread<A>>, a: A, k: Kind): set<Tid> {
    set t | t in threads && Is(threads[t], a, k)
  }

  ghost predicate Linked<A>(t: Table<A>) {
    && (forall a :: a in t.heap ==> a in t.list)
    && (forall a :: a in t.list ==> a in t.heap)
    && (forall i, j :: 0 <= i < j < |t.list| ==> t.list[i] != t.list[j])
    && (forall a, b :: a in t.heap && b in t.heap && a != b ==> t.heap[a].id != t.heap[b].id)
  }

  ghost predicate NodeOk<A>(w: World<A>, a: A) {
    a in w.table.heap ==>
      && w.table.heap[a].users == |Counted(w.threads, a, User)| > 0
      && w.table.heap[a].active == |Counted(w.threads, a, Active)|
  }

  ghost predicate ThreadOk<A>(w: World<A>, th: Thread<A>) {
    th.node in w.table.heap && w.table.heap[th.node].id == th.policy.id
  }

  ghost predicate Inv<A>(w: World<A>) {
    && !w.wild
    && Linked(w.table)
    && (forall a :: a in w.table.heap ==> NodeOk(w, a))
    && (forall t :: t in w.threads ==> ThreadOk(w, w.threads[t]))
  }

  // --- how the numbers move --------------------------------------------------------------

  ghost function Was<A>(threads: map<Tid, Thread<A>>, t: Tid, a: A, k: Kind): nat {
    OneIf(t in threads && Is(threads[t], a, k))
  }

  lemma PutCount<A>(threads: map<Tid, Thread<A>>, t: Tid, th: Thread<A>, a: A, k: Kind)
    ensures |Counted(threads[t := th], a, k)| == |Counted(threads, a, k)| - Was(threads, t, a, k) + OneIf(Is(th, a, k))
  {
    var before, after := Counted(threads, a, k), Counted(threads[t := th], a, k);
    assert after == if Is(th, a, k) then before + {t} else before - {t} by { hide Is; }
    MemberCount(before, after, t, Is(th, a, k));
  }

  lemma RemoveCount<A>(threads: map<Tid, Thread<A>>, t: Tid, a: A, k: Kind)
    ensures |Counted(threads - {t}, a, k)| == |Counted(threads, a, k)| - Was(threads, t, a, k)
  {
    var before, after := Counted(threads, a, k), Counted(threads - {t}, a, k);
    assert after == before - {t} by { hide Is; }
    MemberCount(before, after, t, false);
  }

  // --- every step keeps the invariant -------------------------------------------------------

  lemma {:induction false} WithoutIsOneLess<A>(list: seq<A>, a: A)
    requires forall i, j :: 0 <= i < j < |list| ==> list[i] != list[j]
    ensures var r := Without(list, a);
            && (forall b :: b in r ==> b in list && b != a)
            && (forall b :: b in list && b != a ==> b in r)
            && (forall i, j :: 0 <= i < j < |r| ==> r[i] != r[j])
  {
    if list != [] {
      var first, rest := list[0], list[1..];
      assert list == [first] + rest;
      assert first !in rest;
      if first != a {
        WithoutIsOneLess(rest, a);
      }
    }
  }

  /** One thread goes: its counts leave its node and nothing else changes. */
  lemma DropKeepsInv<A>(w: World<A>, t: Tid)
    requires Inv(w) && t in w.threads
    ensures var th := w.threads[t];
            && th.node in w.table.heap
            && var table := if th.stage.Running? then AddActive(w.table, th.node, -1) else w.table;
               Inv(World(Drop(table, th.node), w.threads - {t}, false))
  {
    var th := w.threads[t];
    assert ThreadOk(w, th);
    var table := if th.stage.Running? then AddActive(w.table, th.node, -1) else w.table;
    var w' := World(Drop(table, th.node), w.threads - {t}, false);
    assert NodeOk(w, th.node);
    DropLinked(w.table, table, th.node);
    forall a | a in w'.table.heap ensures NodeOk(w', a) {
      DropNodeOk(w, t, a);
    }
    forall u | u in w'.threads ensures ThreadOk(w', w'.threads[u]) {
      DropThreadOk(w, t, u);
    }
  }

  lemma DropLinked<A>(before: Table<A>, t: Table<A>, a: A)
    requires Linked(before) && t.list == before.list && t.heap.Keys == before.heap.Keys
    requires forall b :: b in t.heap ==> t.heap[b].id == before.heap[b].id
    requires a in t.heap
    ensures Linked(Drop(t, a))
  {
    WithoutIsOneLess(t.list, a);
  }

  lemma DropNodeOk<A>(w: World<A>, t: Tid, a: A)
    requires t in w.threads && ThreadOk(w, w.threads[t]) && NodeOk(w, a) && NodeOk(w, w.threads[t].node)
    ensures var th := w.threads[t];
            var table := if th.stage.Running? then AddActive(w.table, th.node, -1) else w.table;
            NodeOk(World(Drop(table, th.node), w.threads - {t}, false), a)
  {
    RemoveCount(w.threads, t, a, User);
    RemoveCount(w.threads, t, a, Active);
    hide Counted;
  }

  /** Another thread at the same node keeps it allocated. */
  lemma DropThreadOk<A>(w: World<A>, t: Tid, u: Tid)
    requires t in w.threads && ThreadOk(w, w.threads[t]) && NodeOk(w, w.threads[t].node)
    requires u in w.threads && u != t && ThreadOk(w, w.threads[u])
    ensures var th := w.threads[t];
            var table := if th.stage.Running? then AddActive(w.table, th.node, -1) else w.table;
            ThreadOk(World(Drop(table, th.node), w.threads - {t}, false), w.threads[u])
  {
    var th := w.threads[t];
    if w.threads[u].node == th.node {
      var both := {t, u};
      assert both <= Counted(w.threads, th.node, User);
      assert Counted(w.threads, th.node, User) == both + (Counted(w.threads, th.node, User) - both);
      assert w.table.heap[th.node].users >= 2;
    }
  }

  /** As Inv, but `t` already counts as a user of `th.node` while it is not yet among the threads. */
  ghost predicate Entering<A>(w: World<A>, t: Tid, th: Thread<A>) {
    && t !in w.threads && !w.wild && Linked(w.table) && ThreadOk(w, th)
    && (forall a :: a in w.table.heap ==>
          && w.table.heap[a].users == |Counted(w.threads, a, User)| + OneIf(a == th.node) > 0
          && w.table.heap[a].active == |Counted(w.threads, a, Active)|)
    && (forall u :: u in w.threads ==> ThreadOk(w, w.threads[u]))
  }

  lemma EnterIsEntering<A>(w: World<A>, t: Tid, p: Policy, manifest: bool, spare: A)
    requires Inv(w) && t !in w.threads && IsSpare(w.table, p.id, spare)
    ensures var (table, a) := Enter(w.table, p.id, spare);
            Entering(w.(table := table), t, Thread(a, p, manifest, Blocked))
  {
    var (table, a) := Enter(w.table, p.id, spare);
    EnterLinked(w.table, p.id, spare);
    EnterKeepsIds(w.table, p.id, spare);
    forall b | b in table.heap
      ensures table.heap[b].users == |Counted(w.threads, b, User)| + OneIf(b == a) > 0
              && table.heap[b].active == |Counted(w.threads, b, Active)|
    {
      EnterCounts(w, p.id, spare, b);
    }
    forall u | u in w.threads ensures ThreadOk(w.(table := table), w.threads[u]) {
      assert ThreadOk(w, w.threads[u]);
    }
    hide Counted, Linked, Inv, NodeOk, Enter;
  }

  lemma EnterKeepsIds<A>(t: Table<A>, id: string, spare: A)
    requires IsSpare(t, id, spare)
    ensures var (table, a) := Enter(t, id, spare);
            && a in table.heap && table.heap[a].id == id
            && forall b :: b in t.heap ==> b in table.heap && table.heap[b].id == t.heap[b].id
  {
  }

  lemma EnterCounts<A>(w: World<A>, id: string, spare: A, b: A)
    requires Inv(w) && IsSpare(w.table, id, spare) && b in Enter(w.table, id, spare).0.heap
    ensures var (table, a) := Enter(w.table, id, spare);
            && table.heap[b].users == |Counted(w.threads, b, User)| + OneIf(b == a) > 0
            && table.heap[b].active == |Counted(w.threads, b, Active)|
  {
    if b in w.table.heap { assert NodeOk(w, b); } else { NobodyAt(w, b); }
    hide Counted, Linked, Inv;
  }

  lemma NobodyAt<A>(w: World<A>, a: A)
    requires Inv(w) && a !in w.table.heap
    ensures forall k :: Counted(w.threads, a, k) == {}
  {
    assert forall t :: t in w.threads ==> ThreadOk(w, w.threads[t]);
  }

  lemma EnterLinked<A>(t: Table<A>, id: string, spare: A)
    requires Linked(t) && IsSpare(t, id, spare)
    ensures Linked(Enter(t, id, spare).0)
  {
    var found := FindFrom(t, id, 0);
    if found.None? {
      forall a | a in t.heap ensures t.heap[a].id != id {
        var i :| 0 <= i < |t.list| && t.list[i] == a;
      }
    }
  }

  lemma CheckKeepsInv<A>(w: World<A>, t: Tid, th: Thread<A>)
    requires Entering(w, t, th)
    ensures Inv(Check(w, t, th))
  {
    hide NodeOk, ThreadOk, Counted, Linked, Check, Entering;
    var w' := Check(w, t, th);
    CheckKeepsTable(w, t, th);
    forall a | a in w'.table.heap ensures NodeOk(w', a) {
      CheckNodeOk(w, t, th, a);
    }
    forall u | u in w'.threads ensures ThreadOk(w', w'.threads[u]) {
      CheckThreadOk(w, t, th, u);
    }
  }

  lemma CheckThreadOk<A>(w: World<A>, t: Tid, th: Thread<A>, u: Tid)
    requires Entering(w, t, th) && u in Check(w, t, th).threads
    ensures ThreadOk(Check(w, t, th), Check(w, t, th).threads[u])
  {
    assert u in w.threads ==> ThreadOk(w, w.threads[u]);
    hide Counted, Linked;
  }

  lemma CheckKeepsTable<A>(w: World<A>, t: Tid, th: Thread<A>)
    requires Entering(w, t, th)
    ensures var w' := Check(w, t, th);
            && Linked(w'.table) && !w'.wild && w'.table.heap.Keys == w.table.heap.Keys
            && forall a :: a in w'.table.heap ==> w'.table.heap[a].id == w.table.heap[a].id
  {
  }

  lemma CheckNodeOk<A>(w: World<A>, t: Tid, th: Thread<A>, a: A)
    requires Entering(w, t, th) && a in w.table.heap
    ensures NodeOk(Check(w, t, th), a)
  {
    hide Counted, Linked;
    var w' := Check(w, t, th);
    PutCount(w.threads, t, w'.threads[t], a, User);
    PutCount(w.threads, t, w'.threads[t], a, Active);
  }

  /** A thread that wakes up checks as one that has just entered does. */
  lemma WakeChecks<A>(w: World<A>, t: Tid)
    requires Inv(w) && Enabled(w, Wake(t))
    ensures w.threads[t].node in w.table.heap
    ensures Next(w, Wake(t)) == Check(w, t, w.threads[t].(stage := Blocked))
  {
    assert ThreadOk(w, w.threads[t]);
  }

  function Apart<A(==)>(w: World<A>, t: Tid): World<A> {
    w.(threads := w.threads - {t})
  }

  /** A thread that wakes up stands where one that has just entered stands. */
  lemma WakeIsEntering<A>(w: World<A>, t: Tid)
    requires Inv(w) && t in w.threads && !w.threads[t].stage.Running?
    ensures Entering(Apart(w, t), t, w.threads[t])
    ensures Check(Apart(w, t), t, w.threads[t]) == Check(w, t, w.threads[t])
  {
    hide Counted, Linked, NodeOk;
    var th, v := w.threads[t], Apart(w, t);
    assert ThreadOk(w, th);
    forall a | a in v.table.heap
      ensures v.table.heap[a].users == |Counted(v.threads, a, User)| + OneIf(a == th.node) > 0
              && v.table.heap[a].active == |Counted(v.threads, a, Active)|
    {
      WakeCounts(w, t, a);
    }
    forall u | u in v.threads ensures ThreadOk(v, v.threads[u]) {
      assert ThreadOk(w, w.threads[u]);
    }
    var x := Check(w, t, th).threads[t];
    assert v.threads[t := x] == w.threads[t := x];
  }

  lemma WakeCounts<A>(w: World<A>, t: Tid, a: A)
    requires t in w.threads && !w.threads[t].stage.Running? && a in w.table.heap && NodeOk(w, a)
    ensures w.table.heap[a].users == |Counted(w.threads - {t}, a, User)| + OneIf(a == w.threads[t].node) > 0
    ensures w.table.heap[a].active == |Counted(w.threads - {t}, a, Active)|
  {
    RemoveCount(w.threads, t, a, User);
    RemoveCount(w.threads, t, a, Active);
    hide Counted;
  }

  lemma RestKeepsInv<A>(w: World<A>, t: Tid)
    requires Inv(w) && Enabled(w, Rest(t))
    ensures Inv(Next(w, Rest(t)))
  {
    var w' := Next(w, Rest(t));
    forall a | a in w'.table.heap ensures NodeOk(w', a) {
      PutCount(w.threads, t, w'.threads[t], a, User);
      PutCount(w.threads, t, w'.threads[t], a, Active);
      hide Counted;
      assert NodeOk(w, a);
    }
    forall u | u in w'.threads ensures ThreadOk(w', w'.threads[u]) {
      assert ThreadOk(w, w.threads[u]);
    }
  }

  /**
   No interleaving uses a freed node or breaks a count: a node is in the list
   exactly while somebody uses it, its users are the threads waiting and running, and
   no provider has two nodes.
   */
  lemma NextKeepsInv<A>(w: World<A>, e: Step<A>)
    requires Inv(w) && Enabled(w, e)
    ensures Inv(Next(w, e))
  {
    match e {
      case EnterStep(t, p, manifest, spare) =>
        EnterIsEntering(w, t, p, manifest, spare);
        var (table, a) := Enter(w.table, p.id, spare);
        CheckKeepsInv(w.(table := table), t, Thread(a, p, manifest, Blocked));
      case Expire(t) => DropKeepsInv(w, t);
      case Leave(t) => DropKeepsInv(w, t);
      case Wake(t) =>
        WakeIsEntering(w, t);
        CheckKeepsInv(Apart(w, t), t, w.threads[t]);
      case Rest(t) => RestKeepsInv(w, t);
    }
  }

  // --- the limit over whole runs ----------------------------------------------------------

  /** Everybody who asks for this provider asks with the same settings. */
  ghost predicate Uniform<A>(w: World<A>, p: Policy) {
    forall t :: t in w.threads && w.threads[t].policy.id == p.id ==> w.threads[t].policy == p
  }

  /** The budget of `p` is kept: segments within the slots, everything within slots and headroom. */
  ghost predicate WithinBudget<A>(w: World<A>, p: Policy) {
    forall a :: a in w.table.heap && w.table.heap[a].id == p.id ==>
      && |Counted(w.threads, a, Segment)| <= Slots(p)
      && |Counted(w.threads, a, Active)| <= Slots(p) + Headroom(p)
  }

  /** If `t` reads a manifest and is made to wait, the headroom is in use by such reads. */
  ghost predicate WaitsForManifests<A>(w: World<A>, t: Tid, p: Policy) {
    && t in w.threads
    && var th := w.threads[t];
       th.stage.Blocked? && th.policy == p && th.manifest && !p.cookies ==>
         |Counted(w.threads, th.node, Manifest)| >= Headroom(p)
  }

  predicate Asks<A>(e: Step<A>, p: Policy) {
    e.EnterStep? && e.policy.id == p.id ==> e.policy == p
  }

  lemma Kinds<A>(threads: map<Tid, Thread<A>>, a: A)
    ensures |Counted(threads, a, Active)| == |Counted(threads, a, Segment)| + |Counted(threads, a, Manifest)|
  {
    assert Counted(threads, a, Active) == Counted(threads, a, Segment) + Counted(threads, a, Manifest);
    assert Counted(threads, a, Segment) !! Counted(threads, a, Manifest);
  }

  lemma CheckKeepsUniform<A>(w: World<A>, t: Tid, th: Thread<A>, p: Policy)
    requires th.node in w.table.heap && Uniform(w, p) && (th.policy.id == p.id ==> th.policy == p)
    ensures Uniform(Check(w, t, th), p)
  {
  }

  lemma CheckKeepsBudget<A>(w: World<A>, t: Tid, th: Thread<A>, p: Policy)
    requires Entering(w, t, th) && WithinBudget(w, p) && (th.policy.id == p.id ==> th.policy == p)
    ensures WithinBudget(Check(w, t, th), p)
  {
    forall a | a in w.table.heap && w.table.heap[a].id == p.id
      ensures |Counted(Check(w, t, th).threads, a, Segment)| <= Slots(p)
      ensures |Counted(Check(w, t, th).threads, a, Active)| <= Slots(p) + Headroom(p)
    {
      CheckBoundAt(w, t, th, p, a);
    }
    CheckKeepsTable(w, t, th);
    hide Check, Counted, Linked;
  }

  lemma CheckWithinBudget<A>(w: World<A>, t: Tid, th: Thread<A>, p: Policy)
    requires Entering(w, t, th) && Uniform(w, p) && WithinBudget(w, p)
    requires th.policy.id == p.id ==> th.policy == p
    ensures var w' := Check(w, t, th);
            && Uniform(w', p) && WithinBudget(w', p)
            && WaitsForManifests(w', t, p)
  {
    CheckKeepsUniform(w, t, th, p);
    CheckKeepsBudget(w, t, th, p);
    if Check(w, t, th).threads[t].stage.Blocked? && th.policy == p && th.manifest && !p.cookies {
      assert |Counted(w.threads, th.node, Segment)| <= Slots(p);
      hide Uniform, Counted, Linked, WithinBudget;
      CheckBlocks(w, t, th);
    }
  }

  /** A manifest read that has to wait finds the headroom in use by others. */
  lemma CheckBlocks<A>(w: World<A>, t: Tid, th: Thread<A>)
    requires t !in w.threads && th.node in w.table.heap && th.manifest
    requires w.table.heap[th.node].active == |Counted(w.threads, th.node, Active)|
    requires |Counted(w.threads, th.node, Segment)| <= Slots(th.policy)
    requires Check(w, t, th).threads[t].stage.Blocked?
    ensures |Counted(Check(w, t, th).threads, th.node, Manifest)| >= Headroom(th.policy)
  {
    Kinds(w.threads, th.node);
    PutCount(w.threads, t, Check(w, t, th).threads[t], th.node, Manifest);
    hide Counted;
  }

  lemma CheckBoundAt<A>(w: World<A>, t: Tid, th: Thread<A>, p: Policy, a: A)
    requires Entering(w, t, th) && a in w.table.heap && w.table.heap[a].id == p.id
    requires |Counted(w.threads, a, Segment)| <= Slots(p)
    requires |Counted(w.threads, a, Active)| <= Slots(p) + Headroom(p)
    requires th.policy.id == p.id ==> th.policy == p
    ensures |Counted(Check(w, t, th).threads, a, Segment)| <= Slots(p)
    ensures |Counted(Check(w, t, th).threads, a, Active)| <= Slots(p) + Headroom(p)
  {
    Kinds(w.threads, a);
    PutCount(w.threads, t, Check(w, t, th).threads[t], a, Segment);
    PutCount(w.threads, t, Check(w, t, th).threads[t], a, Active);
    assert w.table.heap[a].active == |Counted(w.threads, a, Active)|;
    hide Counted;
  }

  lemma EnterKeepsBudget<A>(w: World<A>, p: Policy, id: string, spare: A)
    requires Inv(w) && WithinBudget(w, p) && IsSpare(w.table, id, spare)
    ensures WithinBudget(w.(table := Enter(w.table, id, spare).0), p)
  {
    var w' := w.(table := Enter(w.table, id, spare).0);
    forall a | a in w'.table.heap && w'.table.heap[a].id == p.id
      ensures |Counted(w'.threads, a, Segment)| <= Slots(p)
      ensures |Counted(w'.threads, a, Active)| <= Slots(p) + Headroom(p)
    {
      if a !in w.table.heap {
        NobodyAt(w, a);
      }
    }
  }

  lemma ApartWithinBudget<A>(w: World<A>, t: Tid, p: Policy)
    requires WithinBudget(w, p) && Uniform(w, p)
    ensures WithinBudget(Apart(w, t), p) && Uniform(Apart(w, t), p)
  {
    forall a | a in w.table.heap && w.table.heap[a].id == p.id
      ensures |Counted(w.threads - {t}, a, Segment)| <= Slots(p)
      ensures |Counted(w.threads - {t}, a, Active)| <= Slots(p) + Headroom(p)
    {
      RemoveCount(w.threads, t, a, Segment);
      RemoveCount(w.threads, t, a, Active);
    }
  }

  /** Taking a node away, or changing its counters, cannot break a bound on the threads. */
  lemma TableWithinBudget<A>(w: World<A>, table: Table<A>, p: Policy)
    requires WithinBudget(w, p)
    requires forall a :: a in table.heap ==> a in w.table.heap && table.heap[a].id == w.table.heap[a].id
    ensures WithinBudget(w.(table := table), p)
  {
  }

  /**
   With fixed settings: segment fetches never exceed the slots, all fetches never
   exceed slots and headroom, and a manifest read is made to wait only while at
   least the headroom's worth of manifest reads is running.
   */
  lemma NextWithinBudget<A>(w: World<A>, e: Step<A>, p: Policy)
    requires Inv(w) && Enabled(w, e) && Uniform(w, p) && WithinBudget(w, p) && Asks(e, p)
    ensures var w' := Next(w, e);
            && Uniform(w', p) && WithinBudget(w', p)
            && (e.EnterStep? || e.Wake? ==> WaitsForManifests(w', e.t, p))
  {
    match e {
      case EnterStep(_, _, _, _) => EnterWithinBudget(w, e, p);
      case Wake(t) => WakeWithinBudget(w, t, p);
      case Rest(t) => RestWithinBudget(w, t, p);
      case Expire(t) => GoneWithinBudget(w, e, p);
      case Leave(t) => GoneWithinBudget(w, e, p);
    }
    hide Next, Inv, Uniform, WithinBudget, WaitsForManifests;
  }

  lemma EnterWithinBudget<A>(w: World<A>, e: Step<A>, p: Policy)
    requires e.EnterStep? && Inv(w) && Enabled(w, e) && Uniform(w, p) && WithinBudget(w, p) && Asks(e, p)
    ensures Uniform(Next(w, e), p) && WithinBudget(Next(w, e), p) && WaitsForManifests(Next(w, e), e.t, p)
  {
    var (table, a) := Enter(w.table, e.policy.id, e.spare);
    EnterIsEntering(w, e.t, e.policy, e.manifest, e.spare);
    EnterKeepsBudget(w, p, e.policy.id, e.spare);
    hide Check, Enter, Inv, WithinBudget, Entering;
    CheckWithinBudget(w.(table := table), e.t, Thread(a, e.policy, e.manifest, Blocked), p);
  }

  lemma WakeWithinBudget<A>(w: World<A>, t: Tid, p: Policy)
    requires Inv(w) && Enabled(w, Wake(t)) && Uniform(w, p) && WithinBudget(w, p)
    ensures var w' := Next(w, Wake(t));
            Uniform(w', p) && WithinBudget(w', p) && WaitsForManifests(w', t, p)
  {
    WakeIsEntering(w, t);
    ApartWithinBudget(w, t, p);
    hide Check, Inv, WithinBudget, Entering;
    CheckWithinBudget(Apart(w, t), t, w.threads[t], p);
  }

  lemma RestWithinBudget<A>(w: World<A>, t: Tid, p: Policy)
    requires Enabled(w, Rest(t)) && Uniform(w, p) && WithinBudget(w, p)
    ensures Uniform(Next(w, Rest(t)), p) && WithinBudget(Next(w, Rest(t)), p)
  {
    var w' := Next(w, Rest(t));
    forall a | a in w'.table.heap && w'.table.heap[a].id == p.id
      ensures |Counted(w'.threads, a, Segment)| <= Slots(p)
      ensures |Counted(w'.threads, a, Active)| <= Slots(p) + Headroom(p)
    {
      PutCount(w.threads, t, w'.threads[t], a, Segment);
      PutCount(w.threads, t, w'.threads[t], a, Active);
    }
  }

  lemma GoneWithinBudget<A>(w: World<A>, e: Step<A>, p: Policy)
    requires Inv(w) && Enabled(w, e) && Uniform(w, p) && WithinBudget(w, p) && (e.Expire? || e.Leave?)
    ensures Uniform(Next(w, e), p) && WithinBudget(Next(w, e), p)
  {
    assert ThreadOk(w, w.threads[e.t]);
    ApartWithinBudget(w, e.t, p);
    TableWithinBudget(Apart(w, e.t), Next(w, e).table, p);
  }

  // --- whole runs ---------------------------------------------------------------------------

  ghost predicate Legal<A>(w: World<A>, run: seq<Step<A>>)
    decreases |run|
  {
    run == [] || (Enabled(w, run[0]) && Legal(Next(w, run[0]), run[1..]))
  }

  ghost function End<A>(w: World<A>, run: seq<Step<A>>): World<A>
    requires Legal(w, run)
    decreases |run|
  {
    if run == [] then w else End(Next(w, run[0]), run[1..])
  }

  function Start<A(==)>(): World<A> {
    World(Table(map[], []), map[], false)
  }

  lemma {:induction false} InvOverRuns<A>(w: World<A>, run: seq<Step<A>>)
    requires Inv(w) && Legal(w, run)
    ensures Inv(End(w, run))
    decreases |run|
  {
    if run != [] {
      NextKeepsInv(w, run[0]);
      InvOverRuns(Next(w, run[0]), run[1..]);
    }
  }

  /** What the list says is what the threads do, and no freed node is ever used. */
  lemma ListIsExact<A>(run: seq<Step<A>>, a: A)
    requires Legal(Start(), run)
    ensures var w := End(Start(), run);
            && !w.wild
            && (forall t :: t in w.threads ==> w.threads[t].node in w.table.heap)
            && (a in w.table.list <==> Counted(w.threads, a, User) != {})
            && (a in w.table.list ==>
                  && a in w.table.heap
                  && w.table.heap[a].users == |Counted(w.threads, a, User)|
                  && w.table.heap[a].active == |Counted(w.threads, a, Active)|)
  {
    InvOverRuns(Start(), run);
    var w := End(Start(), run);
    assert NodeOk(w, a);
    forall t | t in w.threads ensures w.threads[t].node in w.table.heap {
      assert ThreadOk(w, w.threads[t]);
    }
  }

  lemma {:induction false} BudgetOverRuns<A>(w: World<A>, run: seq<Step<A>>, p: Policy)
    requires Inv(w) && Uniform(w, p) && WithinBudget(w, p) && Legal(w, run)
    requires forall i :: 0 <= i < |run| ==> Asks(run[i], p)
    ensures WithinBudget(End(w, run), p) && Inv(End(w, run))
    decreases |run|
  {
    if run != [] {
      NextKeepsInv(w, run[0]);
      NextWithinBudget(w, run[0], p);
      assert forall i :: 0 <= i < |run[1..]| ==> run[1..][i] == run[i + 1];
      BudgetOverRuns(Next(w, run[0]), run[1..], p);
    }
  }

  /** From the start, in every interleaving; with the cookie jar at most one fetch runs. */
  lemma BudgetIsKept<A>(run: seq<Step<A>>, p: Policy, a: A)
    requires Legal(Start(), run) && forall i :: 0 <= i < |run| ==> Asks(run[i], p)
    requires var t := End(Start(), run).table; a in t.heap && t.heap[a].id == p.id
    ensures var threads := End(Start(), run).threads;
            && |Counted(threads, a, Segment)| <= Slots(p)
            && |Counted(threads, a, Active)| <= Slots(p) + Headroom(p)
            && (p.cookies ==> |Counted(threads, a, Active)| <= 1)
  {
    BudgetOverRuns(Start(), run, p);
  }
}
