/**
 The budget list as it lies in memory: nodes linked by `next`, changed in place under the
 lock. Admit, Retry, Expire and Release are what a thread does between taking the lock and
 giving it back or waiting. Each is proved to be the step of Budget that its contract names,
 so what is proved there of every interleaving holds of these calls.
 */
module BudgetList {
  import opened Wrappers
  import B = Budget

  class Node {
    const id: string
    var active: int
    var users: int
    var next: Node?

    constructor (id: string, next: Node?)
      ensures this.id == id && this.active == 0 && this.users == 0 && this.next == next
    {
      this.id, this.active, this.users, this.next := id, 0, 0, next;
    }
  }

  ghost predicate Distinct(s: seq<Node>) {
    forall i, j :: 0 <= i < j < |s| ==> s[i] != s[j]
  }

  /** `next` leads through `nodes` in order and ends in null. */
  ghost predicate Linked(nodes: seq<Node>)
    reads (set x | x in nodes)`next
  {
    && (forall i {:trigger nodes[i].next} :: 0 <= i < |nodes| - 1 ==> nodes[i].next == nodes[i + 1])
    && (nodes != [] ==> nodes[|nodes| - 1].next == null)
  }

  ghost predicate Chain(head: Node?, nodes: seq<Node>)
    reads (set x | x in nodes)`next
  {
    && Distinct(nodes) && Linked(nodes)
    && (if nodes == [] then head == null else head == nodes[0])
  }

  /** The node at place `i`, null past the end. */
  ghost function NodeAt(nodes: seq<Node>, i: nat): Node? {
    if i < |nodes| then nodes[i] else null
  }

  function Front(s: seq<Node>): seq<Node> {
    if s == [] then [] else s[..|s| - 1]
  }

  /** The links inside `s`; they say nothing of where its last node points. */
  ghost predicate Inner(s: seq<Node>)
    reads (set x | x in Front(s))`next
  {
    forall i {:trigger s[i].next} :: 0 <= i < |s| - 1 ==> s[i].next == s[i + 1]
  }

  /** Pointing the last of `left` at the first of `right` makes one list. */
  lemma Joined(left: seq<Node>, right: seq<Node>)
    requires left != [] && Inner(left) && Linked(right) && left[|left| - 1].next == NodeAt(right, 0)
    ensures Linked(left + right)
  {
    var s := left + right;
    forall i {:trigger s[i].next} | 0 <= i < |s| - 1 ensures s[i].next == s[i + 1] {
      if i >= |left| { assert right[i - |left|].next == right[i - |left| + 1]; }
    }
  }

  /** The parts of a list on both sides of place `i`. */
  lemma Parts(nodes: seq<Node>, i: nat)
    requires Distinct(nodes) && Linked(nodes) && i < |nodes|
    ensures var left, right := nodes[..i], nodes[i + 1..];
            && Inner(left) && Linked(right) && Distinct(left + right)
            && nodes[i].next == NodeAt(right, 0)
            && (i > 0 ==> nodes[i - 1] !in right && nodes[i - 1] !in Front(left))
            && (forall x :: x in left + right ==> x in nodes)
  {
    var right := nodes[i + 1..];
    forall j {:trigger right[j].next} | 0 <= j < |right| - 1 ensures right[j].next == right[j + 1] {
      assert nodes[j + i + 1].next == nodes[j + i + 2];
    }
  }

  lemma NextAt(nodes: seq<Node>, i: nat)
    requires Linked(nodes) && i < |nodes|
    ensures nodes[i].next == NodeAt(nodes, i + 1)
  {
  }

  ghost function Record(n: Node): B.Node
    reads n
  {
    B.Node(n.id, n.active, n.users)
  }

  ghost function TableOf(nodes: seq<Node>): (t: B.Table<Node>)
    reads nodes
  {
    B.Table(map n | n in nodes :: Record(n), nodes)
  }

  /** The search looks at node `i` and then goes on. */
  lemma FindStep(nodes: seq<Node>, id: string, i: nat)
    requires i <= |nodes|
    ensures B.FindFrom(TableOf(nodes), id, i)
            == if i == |nodes| then None
               else if nodes[i].id == id then Some(nodes[i])
               else B.FindFrom(TableOf(nodes), id, i + 1)
  {
  }

  class Budgets {
    var head: Node?
    ghost var nodes: seq<Node>
    ghost var threads: map<B.Tid, B.Thread<Node>>

    ghost predicate Valid()
      reads this, (set x | x in nodes)`next
    {
      Chain(head, nodes)
    }

    ghost function Table(): B.Table<Node>
      reads this, nodes
    {
      TableOf(nodes)
    }

    /** The list together with the threads that use it. */
    ghost function Now(): B.World<Node>
      reads this, nodes
    {
      B.World(Table(), threads, false)
    }

    constructor ()
      ensures Valid() && Now() == B.Start() && B.Inv(Now())
    {
      head, nodes, threads := null, [], map[];
    }

    method Find(id: string) returns (n: Node?)
      requires Valid()
      ensures n == match B.FindFrom(Table(), id, 0) case Some(a) => a case None => null
      ensures n != null ==> n in nodes
    {
      hide B.FindFrom;
      n := head;
      ghost var i := 0;
      while n != null && n.id != id
        invariant 0 <= i <= |nodes| && n == NodeAt(nodes, i)
        invariant B.FindFrom(Table(), id, 0) == B.FindFrom(Table(), id, i)
        decreases |nodes| - i
      {
        FindStep(nodes, id, i);
        NextAt(nodes, i);
        n := n.next;
        i := i + 1;
      }
      FindStep(nodes, id, i);
    }

    method Push(id: string) returns (n: Node)
      requires Valid()
      modifies this
      ensures Valid() && fresh(n) && nodes == [n] + old(nodes) && threads == old(threads)
      ensures Record(n) == B.Node(id, 0, 0)
    {
      n := new Node(id, head);
      head, nodes := n, [n] + nodes;
    }

    /** The node of this provider, new if need be, with the caller as one more user. */
    method Enter(id: string) returns (b: Node)
      requires Valid()
      modifies this, nodes
      ensures Valid() && threads == old(threads) && b in nodes && (b in old(nodes) || fresh(b))
      ensures B.IsSpare(old(Table()), id, b)
      ensures (Table(), b) == B.Enter(old(Table()), id, b)
    {
      hide Chain, B.FindFrom;
      ghost var was := Table();
      var n := Find(id);
      if n == null { n := Push(id); }
      n.users := n.users + 1;
      b := n;
      SameTable(nodes, B.Enter(was, id, b).0);
    }

    /** The wait loop's test: take a slot if one is free. */
    method TryTake(ghost t: B.Tid, b: Node, policy: B.Policy, manifest: bool) returns (taken: bool)
      requires Valid() && b in nodes
      modifies this`threads, b`active
      ensures Valid() && taken == (old(b.active) < B.Limit(policy, manifest))
      ensures Now() == B.Check(old(Now()), t, B.Thread(b, policy, manifest, B.Blocked))
      ensures t in threads && threads[t].node == b && taken == threads[t].stage.Running?
    {
      hide Linked, Distinct, B.Limit;
      ghost var was := Table();
      taken := b.active < B.Limit(policy, manifest);
      if taken { b.active := b.active + 1; }
      threads := threads[t := B.Thread(b, policy, manifest, if taken then B.Running else B.Blocked)];
      SameTable(nodes, if taken then B.AddActive(was, b, 1) else was);
    }

    /** One user less; the last one takes the node out of the list. */
    method Drop(b: Node)
      requires Valid() && b in nodes
      modifies this, nodes
      ensures Valid() && threads == old(threads) && Table() == B.Drop(old(Table()), b)
    {
      ghost var was := Table();
      b.users := b.users - 1;
      if b.users == 0 {
        Unlink(b);
        B.WithoutIsOneLess(was.list, b);
      }
      SameTable(nodes, B.Drop(was, b));
    }

    /** The walk to the link that points at `b`: it is in `before`, or is the head. */
    method LinkTo(b: Node) returns (before: Node?, ghost i: nat)
      requires Valid() && b in nodes
      ensures i < |nodes| && nodes[i] == b && b !in nodes[..i]
      ensures if i > 0 then before == nodes[i - 1] else before == null
    {
      before := null;
      var n := head;
      i := 0;
      while n != b
        invariant 0 <= i < |nodes| && n == nodes[i]
        invariant if i > 0 then before == nodes[i - 1] else before == null
        invariant b in nodes[i..] && b !in nodes[..i]
        decreases |nodes| - i
      {
        NextAt(nodes, i);
        before := n;
        n := n.next;
        i := i + 1;
      }
    }

    method Unlink(b: Node)
      requires Valid() && b in nodes
      modifies this, (set x | x in nodes)`next
      ensures Valid() && threads == old(threads) && nodes == B.Without(old(nodes), b)
    {
      hide Linked, Distinct, Inner, B.Without, Front;
      var before, i := LinkTo(b);
      Parts(nodes, i);
      WithoutAt(nodes, b, i);
      ghost var left, right := nodes[..i], nodes[i + 1..];
      if before == null {
        head := b.next;
        assert left == [] && left + right == right;
      } else {
        hide NodeAt;
        Bypass(before, b.next, left, right);
        assert (left + right)[0] == nodes[0];
      }
      nodes := left + right;
    }

    method Leave(b: Node)
      requires Valid() && b in nodes
      modifies this, nodes
      ensures Valid() && threads == old(threads) && Table() == B.Drop(B.AddActive(old(Table()), b, -1), b)
    {
      ghost var was := Table();
      b.active := b.active - 1;
      SameTable(nodes, B.AddActive(was, b, -1));
      Drop(b);
    }

    /** A thread comes for a slot of its provider and either has one or has to wait. */
    method Admit(ghost t: B.Tid, policy: B.Policy, manifest: bool) returns (b: Node, admitted: bool)
      requires Valid() && B.Inv(Now()) && t !in threads && policy.id != ""
      modifies this, nodes
      ensures Valid() && B.Inv(Now())
      ensures var e := B.EnterStep(t, policy, manifest, b);
              B.Enabled(old(Now()), e) && Now() == B.Next(old(Now()), e)
      ensures t in threads && threads[t].node == b && admitted == threads[t].stage.Running?
    {
      hide B.Inv, B.Enter, B.IsSpare, B.Check, Linked, Distinct, TableOf;
      ghost var was := Now();
      b := Enter(policy.id);
      B.NextKeepsInv(was, B.EnterStep(t, policy, manifest, b));
      admitted := TryTake(t, b, policy, manifest);
    }

    /** The thread is back from a wait and looks again. */
    method Retry(ghost t: B.Tid, b: Node, policy: B.Policy, manifest: bool) returns (admitted: bool)
      requires Valid() && B.Inv(Now()) && B.Enabled(Now(), B.Wake(t))
      requires threads[t] == B.Thread(b, policy, manifest, B.Sleeping)
      modifies this`threads, b`active
      ensures Valid() && B.Inv(Now()) && Now() == B.Next(old(Now()), B.Wake(t))
      ensures t in threads && admitted == threads[t].stage.Running?
    {
      hide B.Inv, B.Check, B.Next, B.Limit, Chain, TableOf;
      NodeInUse(t);
      B.NextKeepsInv(Now(), B.Wake(t));
      B.WakeChecks(Now(), t);
      admitted := TryTake(t, b, policy, manifest);
    }

    /** The thread's time is up, or it is cancelled, before it has a slot. */
    method Expire(ghost t: B.Tid, b: Node)
      requires Valid() && B.Inv(Now()) && B.Enabled(Now(), B.Expire(t)) && threads[t].node == b
      modifies this, nodes
      ensures Valid() && B.Inv(Now()) && Now() == B.Next(old(Now()), B.Expire(t))
    {
      hide B.Inv, B.Drop, Linked, Distinct, TableOf;
      NodeInUse(t);
      B.NextKeepsInv(Now(), B.Expire(t));
      Drop(b);
      threads := threads - {t};
    }

    /** The thread has finished its request. */
    method Release(ghost t: B.Tid, b: Node)
      requires Valid() && B.Inv(Now()) && B.Enabled(Now(), B.Leave(t)) && threads[t].node == b
      modifies this, nodes
      ensures Valid() && B.Inv(Now()) && Now() == B.Next(old(Now()), B.Leave(t))
    {
      hide B.Inv, B.Drop, B.AddActive, Linked, Distinct, TableOf;
      NodeInUse(t);
      B.NextKeepsInv(Now(), B.Leave(t));
      Leave(b);
      threads := threads - {t};
    }

    /** A thread's node is in the list. */
    lemma NodeInUse(t: B.Tid)
      requires B.Inv(Now()) && t in threads
      ensures threads[t].node in nodes && threads[t].node in Table().heap
    {
      assert B.ThreadOk(Now(), threads[t]);
    }
  }

  /** The last node of `left` points at the first of `right`. */
  method Bypass(before: Node, after: Node?, ghost left: seq<Node>, ghost right: seq<Node>)
    requires left != [] && left[|left| - 1] == before && before !in Front(left) && before !in right
    requires Inner(left) && Linked(right) && after == NodeAt(right, 0)
    modifies before`next
    ensures Linked(left + right)
  {
    hide Linked, Inner, NodeAt;
    before.next := after;
    Joined(left, right);
  }

  /** A table is read off the list, node by node. */
  lemma SameTable(nodes: seq<Node>, t: B.Table<Node>)
    requires t.list == nodes
    requires forall n :: n in t.heap <==> n in nodes
    requires forall n :: n in nodes ==> t.heap[n] == Record(n)
    ensures TableOf(nodes) == t
  {
  }

  lemma {:induction false} WithoutAt(s: seq<Node>, b: Node, i: nat)
    requires i < |s| && s[i] == b && b !in s[..i]
    ensures B.Without(s, b) == s[..i] + s[i + 1..]
  {
    if i > 0 {
      assert s[0] == s[..i][0];
      assert s[1..][..i - 1] == s[1..i] && s[1..][i..] == s[i + 1..];
      WithoutAt(s[1..], b, i - 1);
      assert s[..i] == [s[0]] + s[1..i];
    }
  }
}
