/** Deep copies of trees of items. */
module JsonDuplicate {
  import opened JsonList
  import opened JsonTree

  const CIRCULAR_LIMIT: nat := 10000

  /** Some item at depth CIRCULAR_LIMIT or more, counted from `depth`, has children. */
  ghost predicate TooDeep(t: Shape, depth: nat)
    decreases t, 1
  {
    t.kids != [] && (depth >= CIRCULAR_LIMIT || AnyTooDeep(t.kids, depth + 1))
  }

  ghost predicate AnyTooDeep(kids: seq<Shape>, depth: nat)
    decreases kids, 0
  {
    kids != [] && (AnyTooDeep(kids[..|kids| - 1], depth) || TooDeep(kids[|kids| - 1], depth))
  }

  lemma {:induction false} PickDeep(kids: seq<Shape>, k: nat, depth: nat)
    requires k < |kids| && TooDeep(kids[k], depth)
    ensures AnyTooDeep(kids, depth)
    decreases |kids|
  {
    if k < |kids| - 1 { PickDeep(kids[..|kids| - 1], k, depth); }
  }

  lemma NothingYet(t: Shape, depth: nat)
    ensures !AnyTooDeep(t.kids[..0], depth + 1) && Values([]) == Values(t.kids[..0]) && NodesBelow([]) == {}
  {
  }

  lemma DeepBelow(t: Shape, depth: nat)
    ensures TooDeep(t, depth) <==> t.kids != [] && (depth >= CIRCULAR_LIMIT || AnyTooDeep(t.kids, depth + 1))
  {
  }

  lemma SameSoFar(done: seq<Shape>, nc: Shape, kids: seq<Shape>, k: nat, depth: nat)
    requires k < |kids| && Values(done) == Values(kids[..k]) && Value(nc) == Value(kids[k])
    requires !AnyTooDeep(kids[..k], depth) && !TooDeep(kids[k], depth)
    ensures Values(done + [nc]) == Values(kids[..k + 1]) && !AnyTooDeep(kids[..k + 1], depth)
  {
    assert (done + [nc])[..|done|] == done;
    assert kids[..k + 1][..k] == kids[..k];
  }

  lemma SameValue(c: Shape, t: Shape)
    requires c.root.data == t.root.data && Values(c.kids) == Values(t.kids)
    ensures Value(c) == Value(t)
  {
  }

  /** A copy with no item in common with anything that existed, or null when the tree is too deep. */
  method Duplicate(item: Item, depth: nat, ghost t: Shape) returns (copy: Item?, ghost c: Shape)
    requires t.root == item && IsTree(t)
    ensures copy == null <==> TooDeep(t, depth)
    ensures copy != null ==>
              && c.root == copy && fresh(Nodes(c)) && IsTree(c)
              && Value(c) == Value(t)
              && copy.next == null && copy.prev == null
    decreases t
  {
    hide IsTree, Children, Nodes, NodesBelow, Separate, Open, Value, Values, TooDeep, AnyTooDeep, Roots;
    TreeChildren(t);
    NothingYet(t, depth);
    NodesExist(t);
    assert NodesBelow(t.kids) <= Nodes(t);
    var newitem := new Item(item.data);
    assert newitem !in Nodes(t);
    assert IsTree(t);
    c := Shape(newitem, []);
    OpenEmpty(newitem);
    var child := item.child;
    var last: Item? := null;
    ghost var k: nat := 0;
    ghost var done: seq<Shape> := [];
    assert t.kids == [] ==> Roots(t.kids) == [];
    while child != null
      invariant k <= |t.kids| && |done| == k && IsTree(t)
      invariant child == if k < |t.kids| then Roots(t.kids)[k] else null
      invariant k > 0 ==> depth < CIRCULAR_LIMIT
      invariant !AnyTooDeep(t.kids[..k], depth + 1)
      invariant fresh(NodesBelow(done)) && fresh(newitem) && newitem.next == null && newitem.prev == null
      invariant Values(done) == Values(t.kids[..k])
      invariant Open(newitem, last, done)
      decreases |t.kids| - k
    {
      if depth >= CIRCULAR_LIMIT {
        DeepBelow(t, depth);
        return null, c;
      }
      NodesBelowExist(done);
      OpenLast(newitem, last, done);
      TreeChildren(t);
      ghost var nc;
      var newchild;
      newchild, nc := Duplicate(child, depth + 1, t.kids[k]);
      DeepBelow(t, depth);
      if newchild == null {
        PickDeep(t.kids, k, depth + 1);
        return null, c;
      }
      Attach(newitem, last, newchild, done, nc);
      last := newchild;
      Appended(done, nc);
      SameSoFar(done, nc, t.kids, k, depth + 1);
      done := done + [nc];
      TreeChildren(t);
      assert child == Roots(t.kids)[k] && child.next == if k + 1 < |t.kids| then Roots(t.kids)[k + 1] else null;
      child := child.next;
      k := k + 1;
    }
    OpenLast(newitem, last, done);
    Close(newitem, last, done);
    assert t.kids[..|t.kids|] == t.kids;
    c := Shape(newitem, done);
    DeepBelow(t, depth);
    SameValue(c, t);
    FreshNodes(c);
    copy := newitem;
  }
}
