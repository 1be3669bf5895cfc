/**
 Trees of items. A whole tree in memory is described by a ghost `Shape`; its value is
 the tree of the data the items hold. A list of children is built by attaching one
 complete tree after the other and closing the list.
 */
module JsonTree {
  import opened JsonList

  datatype Shape = Shape(root: Item, kids: seq<Shape>)

  datatype Tree = Tree(data: Payload, kids: seq<Tree>)

  ghost function Roots(kids: seq<Shape>): (s: seq<Item>)
    ensures |s| == |kids| && forall i :: 0 <= i < |kids| ==> s[i] == kids[i].root
  {
    seq(|kids|, i requires 0 <= i < |kids| => kids[i].root)
  }

  ghost function Nodes(t: Shape): (r: set<Item>)
    ensures t.root in r && NodesBelow(t.kids) <= r
    decreases t, 1
  {
    {t.root} + NodesBelow(t.kids)
  }

  ghost function NodesBelow(kids: seq<Shape>): (r: set<Item>)
    decreases kids, 0
  {
    if kids == [] then {} else NodesBelow(kids[..|kids| - 1]) + Nodes(kids[|kids| - 1])
  }

  /** No item occurs in two of the trees. */
  ghost predicate Separate(kids: seq<Shape>) {
    kids == []
    || (var rest, last := kids[..|kids| - 1], kids[|kids| - 1];
        Separate(rest) && NodesBelow(rest) !! Nodes(last))
  }

  /** No item occurs twice, and every list of children is in order. */
  ghost predicate IsTree(t: Shape)
    reads Nodes(t)`child, NodesBelow(t.kids)`next, NodesBelow(t.kids)`prev
    decreases t
  {
    RootsAreNodes(t.kids);
    NodesAreBelow(t.kids);
    && t.root !in NodesBelow(t.kids)
    && Children(t.root, Roots(t.kids))
    && Separate(t.kids)
    && forall i :: 0 <= i < |t.kids| ==> IsTree(t.kids[i])
  }

  ghost function Value(t: Shape): Tree
    decreases t, 1
  {
    Tree(t.root.data, Values(t.kids))
  }

  ghost function Values(kids: seq<Shape>): seq<Tree>
    decreases kids, 0
  {
    if kids == [] then [] else Values(kids[..|kids| - 1]) + [Value(kids[|kids| - 1])]
  }

  lemma {:induction false} RootsAreNodes(kids: seq<Shape>)
    ensures forall i :: 0 <= i < |kids| ==> kids[i].root in NodesBelow(kids)
    ensures (set x | x in Roots(kids)) <= NodesBelow(kids)
    decreases |kids|
  {
    if kids != [] { RootsAreNodes(kids[..|kids| - 1]); }
  }

  lemma {:induction false} NodesAreBelow(kids: seq<Shape>)
    ensures forall i :: 0 <= i < |kids| ==> Nodes(kids[i]) <= NodesBelow(kids)
    decreases |kids|
  {
    if kids != [] { NodesAreBelow(kids[..|kids| - 1]); }
  }

  /** Different trees of a list have no item in common. */
  lemma {:induction false} Apart(kids: seq<Shape>, i: nat, j: nat)
    requires Separate(kids) && i < |kids| && j < |kids| && i != j
    ensures Nodes(kids[i]) !! Nodes(kids[j])
    decreases |kids|
  {
    hide Nodes, NodesBelow;
    var rest, n := kids[..|kids| - 1], |kids| - 1;
    NodesAreBelow(rest);
    if i < n && j < n {
      Apart(rest, i, j);
    } else {
      var other := if i < n then i else j;
      assert Nodes(rest[other]) <= NodesBelow(rest) && NodesBelow(rest) !! Nodes(kids[n]);
    }
  }

  /**
   A list under construction: every tree in it is complete, the roots are linked,
   the last one is known, and the head's `prev` is not set yet.
   */
  ghost predicate Open(parent: Item, last: Item?, done: seq<Shape>)
    reads parent, NodesBelow(done)
  {
    RootsAreNodes(done);
    NodesAreBelow(done);
    && Separate(done) && parent !in NodesBelow(done)
    && (forall i :: 0 <= i < |done| ==> IsTree(done[i]))
    && Linked(Roots(done))
    && (if done == [] then parent.child == null && last == null
        else parent.child == done[0].root && last == done[|done| - 1].root && last.next == null)
  }

  /** Cross-wires `newchild` behind `last`, or makes it the first child. */
  method Attach(parent: Item, last: Item?, newchild: Item, ghost done: seq<Shape>, ghost nc: Shape)
    requires Open(parent, last, done) && IsTree(nc)
    requires nc.root == newchild && newchild.next == null && newchild.prev == null
    requires parent !in Nodes(nc) && NodesBelow(done) !! Nodes(nc)
    modifies parent`child, (if last == null then {} else {last})`next, newchild`prev
    ensures Open(parent, newchild, done + [nc])
  {
    hide IsTree, Children, Nodes, NodesBelow, Separate, Linked, Roots;
    if last != null {
      AttachBehind(last, newchild, done, nc);
    } else {
      NoneLinked(done);
      parent.child := newchild;
    }
    OneMoreTree(parent, last, newchild, done, nc);
  }

  lemma NoneLinked(done: seq<Shape>)
    ensures done == [] ==> Roots(done) == []
  {
  }

  /** Behind the last of the list: no tree and no earlier link is touched. */
  method AttachBehind(last: Item, newchild: Item, ghost done: seq<Shape>, ghost nc: Shape)
    requires Separate(done) && (forall i :: 0 <= i < |done| ==> IsTree(done[i])) && Linked(Roots(done))
    requires done != [] && last == done[|done| - 1].root
    requires IsTree(nc) && nc.root == newchild && newchild.next == null && NodesBelow(done) !! Nodes(nc)
    modifies last`next, newchild`prev
    ensures last.next == newchild && newchild.prev == last && newchild.next == null
    ensures (forall i :: 0 <= i < |done| ==> IsTree(done[i])) && IsTree(nc) && Linked(Roots(done))
  {
    hide IsTree, Children, Nodes, NodesBelow, Separate;
    RootsAreNodes(done);
    NodesAreBelow(done);
    RootIsAbove(nc);
    ghost var roots := Roots(done);
    forall i | 0 <= i < |done|
      ensures last !in NodesBelow(done[i].kids) && (i < |done| - 1 ==> last != roots[i])
    {
      if i < |done| - 1 { Apart(done, i, |done| - 1); } else { RootIsAbove(done[i]); }
    }
    assert last in NodesBelow(done) && newchild in Nodes(nc);
    assert forall i :: 0 <= i < |done| ==> newchild !in Nodes(done[i]) && newchild != roots[i];
    last.next := newchild;
    newchild.prev := last;
    assert forall i {:trigger roots[i].next} :: 0 <= i < |roots| - 1 ==> roots[i].next == roots[i + 1];
    assert forall i {:trigger roots[i].prev} :: 1 <= i < |roots| ==> roots[i].prev == roots[i - 1];
  }

  lemma RootIsAbove(t: Shape)
    requires IsTree(t)
    ensures t.root !in NodesBelow(t.kids)
  {
  }

  lemma OneMoreTree(parent: Item, last: Item?, newchild: Item, done: seq<Shape>, nc: Shape)
    requires Separate(done) && parent !in NodesBelow(done) && parent !in Nodes(nc) && NodesBelow(done) !! Nodes(nc)
    requires (forall i :: 0 <= i < |done| ==> IsTree(done[i])) && IsTree(nc)
    requires Linked(Roots(done)) && nc.root == newchild && newchild.next == null
    requires if done == [] then parent.child == newchild
             else parent.child == done[0].root && last == done[|done| - 1].root
                  && last.next == newchild && newchild.prev == last
    ensures Open(parent, newchild, done + [nc])
  {
    hide IsTree, Children, Nodes, Roots, NodesBelow, Separate;
    Appended(done, nc);
    assert done != [] ==> Roots(done)[|done| - 1] == last;
    var kids := done + [nc];
    assert forall i :: 0 <= i < |kids| ==> IsTree(kids[i]);
  }

  lemma Appended(done: seq<Shape>, nc: Shape)
    ensures Roots(done + [nc]) == Roots(done) + [nc.root]
    ensures NodesBelow(done + [nc]) == NodesBelow(done) + Nodes(nc)
    ensures Separate(done + [nc]) <==> Separate(done) && NodesBelow(done) !! Nodes(nc)
  {
    assert (done + [nc])[..|done|] == done;
  }

  /** Setting the head's `prev` closes the list. */
  method Close(parent: Item, last: Item?, ghost done: seq<Shape>)
    requires Open(parent, last, done)
    modifies (if parent.child == null then {} else {parent.child})`prev
    ensures IsTree(Shape(parent, done))
  {
    hide IsTree, Children, Nodes, NodesBelow, Separate;
    RootsAreNodes(done);
    forall i | 0 <= i < |done| ensures done[0].root !in NodesBelow(done[i].kids) {
      if i > 0 { Apart(done, 0, i); } else { RootIsAbove(done[0]); }
    }
    ghost var roots := Roots(done);
    assert parent.child != null ==> done != [] && parent.child == done[0].root;
    DifferentRoots(done);
    if parent.child != null { parent.child.prev := last; }
    assert forall i :: 0 <= i < |done| ==> IsTree(done[i]);
    assert forall i :: 1 <= i < |roots| ==> roots[i] != roots[0] && roots[i].prev == roots[i - 1];
    assert Linked(roots);
    ClosedTree(parent, last, done);
  }

  lemma DifferentRoots(done: seq<Shape>)
    requires Separate(done)
    ensures Distinct(Roots(done))
  {
    forall i, j | 0 <= i < j < |done| ensures done[i].root != done[j].root {
      Apart(done, i, j);
    }
  }

  lemma {:induction false} ClosedTree(parent: Item, last: Item?, done: seq<Shape>)
    requires Separate(done) && parent !in NodesBelow(done)
    requires forall i :: 0 <= i < |done| ==> IsTree(done[i])
    requires Linked(Roots(done)) && Distinct(Roots(done))
    requires if done == [] then parent.child == null
             else
               && parent.child == done[0].root && done[0].root.prev == last == done[|done| - 1].root
               && last.next == null
    ensures IsTree(Shape(parent, done))
  {
    hide Separate, Nodes, NodesBelow, Linked, Distinct;
    RootsAreNodes(done);
    NodesAreBelow(done);
    assert done == [] ==> Roots(done) == [];
    assert parent !in Roots(done);
  }

  lemma {:induction false} NodesExist(t: Shape)
    ensures forall x :: x in Nodes(t) ==> allocated(x)
    decreases t, 1
  {
    NodesBelowExist(t.kids);
  }

  lemma {:induction false} NodesBelowExist(kids: seq<Shape>)
    ensures forall x :: x in NodesBelow(kids) ==> allocated(x)
    decreases kids, 0
  {
    if kids != [] {
      NodesBelowExist(kids[..|kids| - 1]);
      NodesExist(kids[|kids| - 1]);
    }
  }

  lemma {:induction false} ValuesAt(kids: seq<Shape>, k: nat)
    ensures |Values(kids)| == |kids| && (k < |kids| ==> Values(kids)[k] == Value(kids[k]))
    decreases |kids|
  {
    hide Value;
    if kids != [] {
      ValuesAt(kids[..|kids| - 1], if k < |kids| - 1 then k else 0);
    }
  }

  lemma TreeParts(t: Shape)
    requires IsTree(t)
    ensures Children(t.root, Roots(t.kids)) && forall i :: 0 <= i < |t.kids| ==> IsTree(t.kids[i])
  {
    hide Children, Separate, Nodes, NodesBelow;
  }

  lemma NextInList(parent: Item, s: seq<Item>)
    requires Children(parent, s)
    ensures parent.child == if s == [] then null else s[0]
    ensures forall k :: 0 <= k < |s| ==> s[k].next == if k + 1 < |s| then s[k + 1] else null
  {
    Links(parent, s);
    hide Children;
  }

  lemma {:induction false} TreeChildren(t: Shape)
    requires IsTree(t)
    ensures Children(t.root, Roots(t.kids)) && forall i :: 0 <= i < |t.kids| ==> IsTree(t.kids[i])
    ensures t.root.child == if t.kids == [] then null else Roots(t.kids)[0]
    ensures forall k :: 0 <= k < |t.kids| ==>
              Roots(t.kids)[k].next == if k + 1 < |t.kids| then Roots(t.kids)[k + 1] else null
  {
    TreeParts(t);
    NextInList(t.root, Roots(t.kids));
    hide *;
    assert |Roots(t.kids)| == |t.kids|;
  }

  lemma OpenEmpty(parent: Item)
    requires parent.child == null
    ensures Open(parent, null, [])
  {
  }

  lemma OpenLast(parent: Item, last: Item?, done: seq<Shape>)
    requires Open(parent, last, done)
    ensures last != null ==> last in NodesBelow(done)
    ensures parent.child != null ==> parent.child in NodesBelow(done)
    ensures parent !in NodesBelow(done)
  {
    RootsAreNodes(done);
  }

  lemma FreshNodes(c: Shape)
    ensures Nodes(c) == {c.root} + NodesBelow(c.kids)
  {
  }

  /** One complete tree more, behind the others. */
  method AddTree(parent: Item, last: Item?, child: Item, ghost done: seq<Shape>, ghost nc: Shape)
    requires Open(parent, last, done) && IsTree(nc)
    requires nc.root == child && child.next == null && child.prev == null
    requires parent !in Nodes(nc) && NodesBelow(done) !! Nodes(nc)
    modifies parent`child, (if last == null then {} else {last})`next, child`prev
    ensures Open(parent, child, done + [nc])
    ensures NodesBelow(done + [nc]) == NodesBelow(done) + Nodes(nc)
    ensures Values(done + [nc]) == Values(done) + [Value(nc)]
  {
    hide IsTree, Children, Nodes, NodesBelow, Separate, Value, Open;
    Attach(parent, last, child, done, nc);
    Appended(done, nc);
    assert (done + [nc])[..|done|] == done;
  }
}
