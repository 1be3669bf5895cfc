/** What a JSON value looks like as a tree of items. */
module JsonItems {
  import opened JsonList
  import opened JsonText
  import opened JsonTree
  import opened Wrappers

  const FALSE_KIND: int := 1
  const TRUE_KIND: int := 2
  const NULL_KIND: int := 4
  const NUMBER_KIND: int := 8
  const STRING_KIND: int := 16
  const ARRAY_KIND: int := 32
  const OBJECT_KIND: int := 64

  /** The fields of the item itself; an array or object has its content in its children. */
  function PayloadOf(key: Option<CString>, v: Json): Payload {
    match v
    case Null => Payload(NULL_KIND, 0.0, 0, None, key)
    case False => Payload(FALSE_KIND, 0.0, 0, None, key)
    case True => Payload(TRUE_KIND, 0.0, 1, None, key)
    case Number(d) => Payload(NUMBER_KIND, d, ValueInt(d), None, key)
    case String(s) => Payload(STRING_KIND, 0.0, 0, Some(s), key)
    case Array(_) => Payload(ARRAY_KIND, 0.0, 0, None, key)
    case Object(_) => Payload(OBJECT_KIND, 0.0, 0, None, key)
  }

  function TreeOf(key: Option<CString>, v: Json): Tree
    decreases v, 1
  {
    Tree(PayloadOf(key, v), match v
                            case Array(items) => ItemTrees(items)
                            case Object(members) => MemberTrees(members)
                            case _ => [])
  }

  function ItemTrees(items: seq<Json>): (ts: seq<Tree>)
    ensures |ts| == |items|
    decreases items, 0
  {
    if items == [] then [] else ItemTrees(items[..|items| - 1]) + [TreeOf(None, items[|items| - 1])]
  }

  function MemberTrees(members: seq<Member>): (ts: seq<Tree>)
    ensures |ts| == |members|
    decreases members, 0
  {
    if members == [] then []
    else
      var last := members[|members| - 1];
      MemberTrees(members[..|members| - 1]) + [TreeOf(Some(last.key), last.value)]
  }

  /** `t` is a tree of items for `v` under `key`, with `item` at its root. */
  ghost predicate Means(item: Item, t: Shape, key: Option<CString>, v: Json)
    reads Nodes(t)
  {
    t.root == item && IsTree(t) && Value(t) == TreeOf(key, v)
  }

  /** Such a tree that stands alone. */
  ghost predicate Built(r: Item, t: Shape, key: Option<CString>, v: Json)
    reads r, Nodes(t)
  {
    Means(r, t, key, v) && r.next == null && r.prev == null
  }

  lemma MeansPayload(item: Item, t: Shape, key: Option<CString>, v: Json)
    requires Means(item, t, key, v)
    ensures item.data == PayloadOf(key, v) && t.root == item && IsTree(t)
  {
  }

  /** The children of an array's item are trees for its elements. */
  lemma ElementMeans(item: Item, t: Shape, key: Option<CString>, items: seq<Json>, k: nat)
    requires Means(item, t, key, Array(items))
    ensures |t.kids| == |items|
    ensures k < |items| ==> Means(Roots(t.kids)[k], t.kids[k], None, items[k])
  {
    ValuesAt(t.kids, k);
    TreeParts(t);
    if k < |items| { ItemTreeAt(items, k); }
    hide IsTree, Children, Nodes;
  }

  lemma MemberMeans(item: Item, t: Shape, key: Option<CString>, members: seq<Member>, k: nat)
    requires Means(item, t, key, Object(members))
    ensures |t.kids| == |members|
    ensures k < |members| ==> Means(Roots(t.kids)[k], t.kids[k], Some(members[k].key), members[k].value)
  {
    ValuesAt(t.kids, k);
    TreeParts(t);
    if k < |members| { MemberTreeAt(members, k); }
    hide IsTree, Children, Nodes;
  }

  /** The items tell the value and its key: nothing of either is lost. */
  lemma {:induction false} ItemsTellTheValue(key: Option<CString>, v: Json, key': Option<CString>, v': Json)
    requires TreeOf(key, v) == TreeOf(key', v')
    ensures key == key' && v == v'
    decreases v, 1
  {
    assert PayloadOf(key, v) == PayloadOf(key', v');
    match v {
      case Array(items) => ItemTreesTell(items, v'.items);
      case Object(members) => MemberTreesTell(members, v'.members);
      case _ =>
    }
  }

  lemma {:induction false} ItemTreesTell(items: seq<Json>, items': seq<Json>)
    requires ItemTrees(items) == ItemTrees(items')
    ensures items == items'
    decreases items, 0
  {
    hide ItemTrees, TreeOf;
    assert |items| == |items'|;
    forall i | 0 <= i < |items| ensures items[i] == items'[i] {
      ItemTreeAt(items, i);
      ItemTreeAt(items', i);
      ItemsTellTheValue(None, items[i], None, items'[i]);
    }
  }

  lemma {:induction false} ItemTreeAt(items: seq<Json>, i: nat)
    requires i < |items|
    ensures ItemTrees(items)[i] == TreeOf(None, items[i])
    decreases |items|
  {
    hide TreeOf;
    if i < |items| - 1 { ItemTreeAt(items[..|items| - 1], i); }
  }

  lemma {:induction false} MemberTreesTell(members: seq<Member>, members': seq<Member>)
    requires MemberTrees(members) == MemberTrees(members')
    ensures members == members'
    decreases members, 0
  {
    hide MemberTrees, TreeOf;
    assert |members| == |members'|;
    forall i | 0 <= i < |members| ensures members[i] == members'[i] {
      MemberTreeAt(members, i);
      MemberTreeAt(members', i);
      ItemsTellTheValue(Some(members[i].key), members[i].value, Some(members'[i].key), members'[i].value);
    }
  }

  lemma {:induction false} MemberTreeAt(members: seq<Member>, i: nat)
    requires i < |members|
    ensures MemberTrees(members)[i] == TreeOf(Some(members[i].key), members[i].value)
    decreases |members|
  {
    hide TreeOf;
    if i < |members| - 1 { MemberTreeAt(members[..|members| - 1], i); }
  }

  lemma OneMoreItem(items: seq<Json>, v: Json)
    ensures ItemTrees(items + [v]) == ItemTrees(items) + [TreeOf(None, v)]
  {
    assert (items + [v])[..|items|] == items;
  }

  lemma OneMoreMember(members: seq<Member>, m: Member)
    ensures MemberTrees(members + [m]) == MemberTrees(members) + [TreeOf(Some(m.key), m.value)]
  {
    assert (members + [m])[..|members|] == members;
  }

  /** An item without children. */
  method NewLeaf(key: Option<CString>, v: Json) returns (item: Item, ghost t: Shape)
    requires (v.Array? ==> v.items == []) && (v.Object? ==> v.members == [])
    ensures Built(item, t, key, v) && fresh(Nodes(t))
  {
    item := new Item(PayloadOf(key, v));
    t := Shape(item, []);
    OpenEmpty(item);
    assert Roots([]) == [];
  }

  /** An array or object whose first children are complete; it stands alone itself. */
  ghost predicate Building(item: Item, last: Item?, done: seq<Shape>, trees: seq<Tree>)
    reads item, NodesBelow(done)
  {
    Open(item, last, done) && Values(done) == trees && item.next == null && item.prev == null
  }

  lemma NothingBuilt(item: Item)
    requires item.next == null && item.prev == null && item.child == null
    ensures Building(item, null, [], []) && NodesBelow([]) == {}
  {
    OpenEmpty(item);
  }

  lemma BuildingLast(item: Item, last: Item?, done: seq<Shape>, trees: seq<Tree>)
    requires Building(item, last, done, trees)
    ensures last != null ==> last in NodesBelow(done)
    ensures item.child != null ==> item.child in NodesBelow(done)
    ensures item !in NodesBelow(done)
  {
    OpenLast(item, last, done);
  }

  /** One child more. */
  method AddChild(item: Item, last: Item?, child: Item, ghost done: seq<Shape>, ghost nc: Shape,
                  ghost trees: seq<Tree>, ghost key: Option<CString>, ghost v: Json)
    requires Building(item, last, done, trees) && Built(child, nc, key, v)
    requires item !in Nodes(nc) && NodesBelow(done) !! Nodes(nc)
    modifies item`child, (if last == null then {} else {last})`next, child`prev
    ensures Building(item, child, done + [nc], trees + [TreeOf(key, v)])
    ensures NodesBelow(done + [nc]) == NodesBelow(done) + Nodes(nc)
  {
    hide IsTree, Nodes, NodesBelow, Value, Values, Open, TreeOf;
    BuildingLast(item, last, done, trees);
    RootIsNode(nc);
    AddTree(item, last, child, done, nc);
  }

  lemma RootIsNode(t: Shape)
    ensures t.root in Nodes(t)
  {
  }

  /** What an array or object holds itself does not depend on its children. */
  lemma SamePayload(key: Option<CString>, items: seq<Json>, members: seq<Member>)
    ensures PayloadOf(key, Array(items)) == PayloadOf(key, Array([]))
    ensures PayloadOf(key, Object(members)) == PayloadOf(key, Object([]))
  {
  }

  /** All children are there. */
  method Finish(item: Item, last: Item?, ghost done: seq<Shape>, ghost key: Option<CString>, ghost v: Json)
    requires v.Array? || v.Object?
    requires Building(item, last, done, if v.Array? then ItemTrees(v.items) else MemberTrees(v.members))
    requires item.data == PayloadOf(key, v)
    modifies (if item.child == null then {} else {item.child})`prev
    ensures Built(item, Shape(item, done), key, v)
    ensures Nodes(Shape(item, done)) == {item} + NodesBelow(done)
  {
    hide IsTree, Nodes, NodesBelow, Values, Open, ItemTrees, MemberTrees, PayloadOf;
    OpenLast(item, last, done);
    Close(item, last, done);
    FreshNodes(Shape(item, done));
  }
}
