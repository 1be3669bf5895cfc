/**
 The in-place sibling list under an array or object. A parent points at the first
 child; each child points at its neighbours, except that the first child's `prev`
 points at the last one, so that appending needs no walk.

 Each operation takes, as a ghost argument, the sequence the list stands for and
 says which sequence it stands for afterwards.
 */
module JsonList {
  import opened Wrappers

  /** What an item holds besides its links; it is set when the item is created. */
  datatype Payload = Payload(kind: int, number: real, valueInt: int, text: Option<string>, key: Option<string>)

  class Item {
    var next: Item?
    var prev: Item?
    var child: Item?
    const data: Payload

    constructor (data: Payload)
      ensures next == null && prev == null && child == null && this.data == data
    {
      next, prev, child := null, null, null;
      this.data := data;
    }
  }

  ghost predicate Distinct(s: seq<Item>) {
    forall i, j :: 0 <= i < j < |s| ==> s[i] != s[j]
  }

  /** The items of `s`, in order, are linked to each other. */
  ghost predicate Linked(s: seq<Item>)
    reads (set x | x in s)`next, (set x | x in s)`prev
  {
    && (forall i {:trigger s[i].next} :: 0 <= i < |s| - 1 ==> s[i].next == s[i + 1])
    && (forall i {:trigger s[i].prev} :: 1 <= i < |s| ==> s[i].prev == s[i - 1])
  }

  /** The children of `parent` are exactly `s`, in order. */
  ghost predicate Children(parent: Item, s: seq<Item>)
    reads parent`child, (set x | x in s)`next, (set x | x in s)`prev
  {
    && parent !in s && Distinct(s)
    && Linked(s)
    && (if s == [] then parent.child == null
        else parent.child == s[0] && s[0].prev == s[|s| - 1] && s[|s| - 1].next == null)
  }

  /** One list stands for at most one sequence. */
  lemma {:induction false} ChildrenUnique(parent: Item, s: seq<Item>, t: seq<Item>)
    requires Children(parent, s) && Children(parent, t)
    ensures s == t
  {
    var n := if |s| < |t| then |s| else |t|;
    SamePrefix(s, t, n, parent);
    assert n > 0 ==> s[..n][n - 1] == t[..n][n - 1];
  }

  lemma {:induction false} SamePrefix(s: seq<Item>, t: seq<Item>, n: nat, parent: Item)
    requires Children(parent, s) && Children(parent, t) && n <= |s| && n <= |t|
    ensures s[..n] == t[..n]
  {
    if n > 0 {
      SamePrefix(s, t, n - 1, parent);
      if n > 1 {
        assert s[n - 2] == s[..n - 1][n - 2] == t[..n - 1][n - 2];
        assert s[n - 2].next == s[n - 1] && t[n - 2].next == t[n - 1];
      }
    }
  }

  method GetArrayItem(parent: Item?, index: int, ghost s: seq<Item>) returns (r: Item?)
    requires parent != null ==> Children(parent, s)
    ensures r == if parent != null && 0 <= index < |s| then s[index] else null
  {
    if parent == null || index < 0 { return null; }
    var current, left := parent.child, index;
    ghost var k := 0;
    while current != null && left > 0
      invariant 0 <= k <= |s| && 0 <= left && k + left == index
      invariant current == if k < |s| then s[k] else null
      decreases left
    {
      left := left - 1;
      assert k + 1 < |s| ==> s[k].next == s[k + 1];
      current := current.next;
      k := k + 1;
    }
    return current;
  }

  /**
   Appending. When the list is not empty the item's own `next` is left as it was. The
   result is a proper list exactly when that was null and the item was not in the list
   already; an item that was makes the list run in a circle.
   */
  method AddItemToArray(parent: Item?, item: Item?, ghost s: seq<Item>) returns (ok: bool)
    requires parent != null ==> Children(parent, s)
    modifies if parent != null then {parent} else {}, if item != null then {item} else {}, s
    ensures ok <==> parent != null && item != null && parent != item
    ensures ok ==> (Children(parent, s + [item]) <==> item !in s && (s == [] || old(item.next) == null))
    ensures ok && item in s ==> forall t: seq<Item> :: !Children(parent, t)
    ensures !ok && parent != null ==> Children(parent, s)
    ensures forall x :: x in s ==> x.child == old(x.child)
    ensures item != null && item != parent ==> item.child == old(item.child)
  {
    if item == null || parent == null || parent == item { return false; }
    var child := parent.child;
    if child == null {
      parent.child := item;
      item.prev := item;
      item.next := null;
    } else if child.prev != null {
      child.prev.next := item;
      item.prev := child.prev;
      parent.child.prev := item;
    }
    if item in s {
      InCircle(parent, s);
      assert forall t: seq<Item> :: Children(parent, t) ==> t != s + [item];
    }
    return true;
  }

  /** Items that all lead to items of `s` never come to an end. */
  lemma InCircle(parent: Item, s: seq<Item>)
    requires parent.child in s && forall x :: x in s ==> x.next in s
    ensures forall t: seq<Item> :: !Children(parent, t)
  {
    forall t: seq<Item> ensures !Children(parent, t) {
      if Children(parent, t) {
        StaysInside(parent, s, t, |t| - 1);
      }
    }
  }

  lemma {:induction false} StaysInside(parent: Item, s: seq<Item>, t: seq<Item>, n: nat)
    requires parent.child in s && (forall x :: x in s ==> x.next in s)
    requires Children(parent, t) && n < |t|
    ensures t[n] in s
  {
    if n > 0 {
      StaysInside(parent, s, t, n - 1);
      assert t[n - 1].next == t[n];
    }
  }

  ghost function Without(s: seq<Item>, k: nat): seq<Item>
    requires k < |s|
  {
    s[..k] + s[k + 1..]
  }

  /**
   Where an item stands: in no list, among the children `s` of `parent`, or as
   number `k` of the children `u` of another parent.
   */
  ghost predicate Stands(item: Item, parent: Item, s: seq<Item>, owner: Item?, u: seq<Item>, k: nat)
    reads item, parent, s, owner, u
  {
    if owner == null then item !in s && item.prev == null
    else
      && k < |u| && u[k] == item && Children(owner, u)
      && (if owner == parent then u == s else forall x :: x in s ==> x !in u)
  }

  /**
   Detaching. An item of the parent's own list is taken out of it. One of another
   parent's list is accepted too; that goes well exactly when it is neither the
   first nor the last there. One that is in no list is refused.
   */
  method DetachItemViaPointer(parent: Item?, item: Item?, ghost s: seq<Item>, ghost owner: Item?, ghost u: seq<Item>,
                              ghost k: nat) returns (r: Item?)
    requires parent != null ==> Children(parent, s)
    requires parent != null && item != null ==> Stands(item, parent, s, owner, u, k)
    requires parent != null && item != null && owner != null && owner != parent && k == |u| - 1 ==> s != []
    modifies if parent != null then {parent} else {}, s, u
    ensures r == if parent != null && item != null && owner != null then item else null
    ensures r != null ==> item.next == null && item.prev == null
    ensures r != null && owner == parent ==> Children(parent, Without(s, k))
    ensures r != null && owner != parent ==>
              (Children(parent, s) && Children(owner, Without(u, k)) <==> 0 < k < |u| - 1)
    ensures r == null && parent != null ==> Children(parent, s)
    ensures forall x :: x in s ==> x.child == old(x.child)
  {
    if parent == null || item == null || (item != parent.child && item.prev == null) {
      return null;
    }
    Links(parent, s);
    Links(owner, u);
    assert item == parent.child <==> owner == parent && k == 0 by {
      assert owner != parent && s != [] ==> s[0] in s && u[k] in u;
    }
    if item == parent.child {
      DetachFirst(parent, item, s);
    } else if item.next == null {
      DetachLast(parent, item, s, owner, u);
    } else {
      DetachInner(parent, item, s, owner, u, k);
    }
    return item;
  }

  method DetachFirst(parent: Item, item: Item, ghost s: seq<Item>)
    requires Children(parent, s) && s != [] && s[0] == item
    modifies parent`child, item`next, item`prev, (if item.next == null then {} else {item.next})`prev
    ensures Children(parent, Without(s, 0)) && item.next == null && item.prev == null
  {
    Links(parent, s);
    if item.next != null {
      item.next.prev := item.prev;
    }
    parent.child := item.next;
    item.prev := null;
    item.next := null;
    TakenOut(parent, s, 0);
  }

  /** The last of several, or the only one of another parent. */
  method DetachLast(parent: Item, item: Item, ghost s: seq<Item>, ghost owner: Item, ghost u: seq<Item>)
    requires Children(parent, s) && u != [] && Stands(item, parent, s, owner, u, |u| - 1) && item != parent.child
    requires s != []
    modifies item`next, item`prev, (if item.prev == null then {} else {item.prev})`next
    modifies (if parent.child == null then {} else {parent.child})`prev
    ensures item.next == null && item.prev == null
    ensures if owner == parent then Children(parent, Without(s, |s| - 1)) else !Children(owner, Without(u, |u| - 1))
  {
    Links(parent, s);
    Links(owner, u);
    ghost var n := |u| - 1;
    Neighbours(u, n);
    assert item.prev == u[if n > 0 then n - 1 else n] && s[0] in s && u[0] in u;
    hide Children, Linked, Without, Stands, Distinct;
    item.prev.next := item.next;
    parent.child.prev := item.prev;
    item.prev := null;
    item.next := null;
    if owner == parent {
      TakenOut(owner, u, n);
    } else {
      assert n > 0 ==> u[0].prev == u[n];
      StillThere(owner, u, n);
    }
  }

  /** One with another one after it. */
  method DetachInner(parent: Item, item: Item, ghost s: seq<Item>, ghost owner: Item, ghost u: seq<Item>, ghost k: nat)
    requires Children(parent, s) && Stands(item, parent, s, owner, u, k) && k < |u| - 1 && item != parent.child
    modifies item`next, item`prev, (if item.prev == null then {} else {item.prev})`next
    modifies (if item.next == null then {} else {item.next})`prev
    ensures item.next == null && item.prev == null
    ensures if owner == parent then Children(parent, Without(s, k))
            else Children(parent, s) && (Children(owner, Without(u, k)) <==> k > 0)
  {
    Links(parent, s);
    Links(owner, u);
    Neighbours(u, k);
    assert item.prev == u[if k > 0 then k - 1 else |u| - 1] && item.next == u[k + 1];
    assert item in u && item.prev in u && item.next in u;
    hide Children, Linked, Without, Stands, Distinct;
    item.prev.next := item.next;
    item.next.prev := item.prev;
    item.prev := null;
    item.next := null;
    if k > 0 {
      TakenOut(owner, u, k);
    } else {
      StillThere(owner, u, k);
    }
  }

  /** What it means for `s` to be the children. */
  lemma Links(parent: Item, s: seq<Item>)
    requires Children(parent, s)
    ensures parent !in s && Distinct(s)
    ensures forall i {:trigger s[i].next} :: 0 <= i < |s| - 1 ==> s[i].next == s[i + 1]
    ensures forall i {:trigger s[i].prev} :: 1 <= i < |s| ==> s[i].prev == s[i - 1]
    ensures if s == [] then parent.child == null
            else parent.child == s[0] && s[0].prev == s[|s| - 1] && s[|s| - 1].next == null
  {
  }

  /** An item of the list is only itself, and only its neighbours are its neighbours. */
  lemma Neighbours(u: seq<Item>, k: nat)
    requires k < |u| && Distinct(u)
    ensures forall i :: 0 <= i < |u| && i != k ==> u[i] != u[k]
    ensures forall i :: 0 <= i < |u| && k < |u| - 1 && i != k + 1 ==> u[i] != u[k + 1]
    ensures var before := if k > 0 then k - 1 else |u| - 1;
            forall i :: 0 <= i < |u| && i != before ==> u[i] != u[before]
    ensures forall i :: 0 < i < |u| ==> u[i] != u[0]
  {
  }

  /** The links lead round number `k`. */
  lemma TakenOut(owner: Item, u: seq<Item>, k: nat)
    requires k < |u| && Distinct(u) && owner !in u
    requires forall i :: 0 <= i < |u| - 1 && i != k && i != k - 1 ==> u[i].next == u[i + 1]
    requires forall i :: 1 <= i < |u| && i != k && i != k + 1 ==> u[i].prev == u[i - 1]
    requires 0 < k < |u| - 1 ==> u[k - 1].next == u[k + 1] && u[k + 1].prev == u[k - 1]
    requires |u| > 1 ==>
               var first, last := if k == 0 then 1 else 0, if k == |u| - 1 then k - 1 else |u| - 1;
               owner.child == u[first] && u[first].prev == u[last] && u[last].next == null
    requires |u| == 1 ==> owner.child == null
    ensures Children(owner, Without(u, k))
  {
    var w := Without(u, k);
    assert forall i :: 0 <= i < |w| ==> w[i] == u[if i < k then i else i + 1];
  }

  /** The list still begins, or still ends, with what is no longer in it. */
  lemma StillThere(owner: Item, u: seq<Item>, k: nat)
    requires k < |u| && Distinct(u)
    requires if k == 0 then owner.child == u[0] else k == |u| - 1 && u[0].prev == u[k]
    ensures !Children(owner, Without(u, k))
  {
    var w := Without(u, k);
    assert forall i :: 0 <= i < |w| ==> w[i] == u[if i < k then i else i + 1];
  }

  /**
   Inserting before position `which`; past the end it appends, on the terms of
   AddItemToArray. Where it inserts it refuses neither the parent nor an item that is in
   the list already, and the parent then has no proper list at all.
   */
  method InsertItemInArray(parent: Item?, which: int, newitem: Item?, ghost s: seq<Item>) returns (ok: bool)
    requires parent != null ==> Children(parent, s)
    modifies if parent != null then {parent} else {}, if newitem != null then {newitem} else {}, s
    ensures ok <==> parent != null && newitem != null && which >= 0 && (which < |s| || newitem != parent)
    ensures ok && which < |s| && newitem !in s && newitem != parent ==>
              Children(parent, s[..which] + [newitem] + s[which..])
    ensures ok && which >= |s| ==>
              (Children(parent, s + [newitem]) <==> newitem !in s && (s == [] || old(newitem.next) == null))
    ensures ok && (newitem in s || newitem == parent) ==> forall t: seq<Item> :: !Children(parent, t)
    ensures !ok && parent != null ==> Children(parent, s)
    ensures forall x :: x in s ==> x.child == old(x.child)
  {
    if which < 0 || newitem == null { return false; }
    var after := GetArrayItem(parent, which, s);
    if after == null {
      ok := AddItemToArray(parent, newitem, s);
      return;
    }
    assert which > 0 ==> s[which].prev == s[which - 1];
    if after != parent.child && after.prev == null { return false; }
    LinkBefore(parent, after, newitem, s, which);
    return true;
  }

  method LinkBefore(parent: Item, after: Item, newitem: Item, ghost s: seq<Item>, ghost k: nat)
    requires Children(parent, s) && k < |s| && s[k] == after
    modifies parent, newitem, s
    ensures newitem !in s && newitem != parent ==> Children(parent, s[..k] + [newitem] + s[k..])
    ensures newitem in s || newitem == parent ==> forall t: seq<Item> :: !Children(parent, t)
    ensures forall x :: x in s ==> x.child == old(x.child)
  {
    Links(parent, s);
    hide Children, Linked;
    assert k > 0 ==> s[k].prev == s[k - 1];
    newitem.next := after;
    newitem.prev := after.prev;
    after.prev := newitem;
    if after == parent.child {
      parent.child := newitem;
    } else {
      newitem.prev.next := newitem;
    }
    if newitem == parent {
      if k == 0 { OwnChild(parent); } else { LeadsToParent(parent, s, k); }
    } else if newitem in s {
      ghost var j: nat :| j < |s| && s[j] == newitem;
      LinkedTwice(parent, s, j, k);
    } else {
      LinkedIn(parent, newitem, s, k);
    }
  }

  /** The links lead from number `k - 1` to the new item and on to number `k`. */
  lemma LinkedIn(parent: Item, newitem: Item, s: seq<Item>, k: nat)
    requires k < |s| && Distinct(s) && parent !in s && newitem !in s && newitem != parent
    requires forall i :: 0 <= i < |s| - 1 && i != k - 1 ==> s[i].next == s[i + 1]
    requires forall i :: 1 <= i < |s| && i != k ==> s[i].prev == s[i - 1]
    requires newitem.next == s[k] && s[k].prev == newitem && s[|s| - 1].next == null
    requires if k == 0 then parent.child == newitem && newitem.prev == s[|s| - 1]
             else parent.child == s[0] && s[0].prev == s[|s| - 1]
                  && s[k - 1].next == newitem && newitem.prev == s[k - 1]
    ensures Children(parent, s[..k] + [newitem] + s[k..])
  {
    var t := s[..k] + [newitem] + s[k..];
    assert forall i :: 0 <= i < k ==> t[i] == s[i];
    assert forall i :: k < i < |t| ==> t[i] == s[i - 1];
    forall i | 0 <= i < |t| - 1 ensures t[i].next == t[i + 1] {
      if i < k - 1 { assert s[i].next == s[i + 1]; }
      else if i > k { assert s[i - 1].next == s[i]; }
    }
    forall i | 1 <= i < |t| ensures t[i].prev == t[i - 1] {
      if i < k { assert s[i].prev == s[i - 1]; }
      else if i > k + 1 { assert s[i - 1].prev == s[i - 2]; }
    }
  }

  lemma OwnChild(parent: Item)
    requires parent.child == parent
    ensures forall t: seq<Item> :: !Children(parent, t)
  {
  }

  /** A list that begins like `s` has its first items. */
  lemma {:induction false} BeginsLike(parent: Item, s: seq<Item>, t: seq<Item>, n: nat)
    requires Children(parent, t) && n < |s| && parent.child == s[0]
    requires forall i :: 0 <= i < n ==> s[i].next == s[i + 1]
    ensures n < |t| && t[n] == s[n]
  {
    if n > 0 {
      BeginsLike(parent, s, t, n - 1);
      assert t[n - 1].next == s[n];
      assert n < |t|;
    }
  }

  lemma LeadsToParent(parent: Item, s: seq<Item>, k: nat)
    requires 0 < k <= |s| && parent.child == s[0] && s[k - 1].next == parent
    requires forall i :: 0 <= i < k - 1 ==> s[i].next == s[i + 1]
    ensures forall t: seq<Item> :: !Children(parent, t)
  {
    var way := s[..k] + [parent];
    assert forall i :: 0 <= i < k ==> way[i] == s[i];
    forall t: seq<Item> ensures !Children(parent, t) {
      if Children(parent, t) { BeginsLike(parent, way, t, k); }
    }
  }

  /** In such a list the first items point back at each other, and the first at the last. */
  lemma BackLink(parent: Item, s: seq<Item>, t: seq<Item>, n: nat)
    requires Children(parent, t) && n < |s| && parent.child == s[0]
    requires forall i :: 0 <= i < n ==> s[i].next == s[i + 1]
    ensures if n > 0 then s[n].prev == s[n - 1] else s[0].prev != null && s[0].prev.next == null
  {
    BeginsLike(parent, s, t, n);
    if n > 0 { BeginsLike(parent, s, t, n - 1); }
  }

  /** Item `j` is linked in before item `k` while its old neighbours still point at it. */
  lemma LinkedTwice(parent: Item, s: seq<Item>, j: nat, k: nat)
    requires j < |s| && k < |s| && Distinct(s)
    requires forall i :: 0 <= i < |s| - 1 && i != j && i != k - 1 ==> s[i].next == s[i + 1]
    requires parent.child == if k == 0 then s[j] else s[0]
    requires s[j].next == if j == k || j == k - 1 then s[j] else s[k]
    requires k > 0 ==> s[k - 1].next == s[j]
    requires 0 < j < k - 1 || (j == 0 && k > 1) ==> s[j].prev == s[k - 1]
    ensures forall t: seq<Item> :: !Children(parent, t)
  {
    if j < k - 1 {
      hide Children;
      forall t: seq<Item> ensures !Children(parent, t) {
        if Children(parent, t) {
          BackLink(parent, s, t, j);
        }
      }
    } else {
      Circle(parent, s, j, k);
    }
  }

  lemma Circle(parent: Item, s: seq<Item>, j: nat, k: nat)
    requires j < |s| && k < |s| && j >= k - 1 && parent.child == if k == 0 then s[j] else s[0]
    requires forall i :: 0 <= i < j && i != k - 1 ==> s[i].next == s[i + 1]
    requires s[j].next == if j == k || j == k - 1 then s[j] else s[k]
    requires k > 0 ==> s[k - 1].next == s[j]
    ensures forall t: seq<Item> :: !Children(parent, t)
  {
    hide Children;
    var round := s[..j + 1];
    forall x | x in round ensures x.next in round {
      var i: nat :| i < |round| && round[i] == x;
      assert x == s[i];
      var next := if i == j then (if j == k || j == k - 1 then j else k) else if i == k - 1 then j else i + 1;
      assert x.next == s[next] == round[next];
    }
    assert parent.child == round[if k == 0 then j else 0];
    InCircle(parent, round);
  }

  /**
   Replacing. An item of the parent's own list gives its place to the replacement, and
   the result is a proper list exactly when that was not in it. An item of another
   parent's list is accepted too, and that goes well exactly when it is neither the
   first nor the last there and the replacement is new to both lists; with an item that
   is in no list it does only when the replacement is the one child there is.
   */
  method ReplaceItemViaPointer(parent: Item?, item: Item?, replacement: Item?, ghost s: seq<Item>, ghost owner: Item?,
                               ghost u: seq<Item>, ghost k: nat) returns (ok: bool)
    requires parent != null ==> Children(parent, s)
    requires parent != null && item != null ==> Stands(item, parent, s, owner, u, k)
    requires item != null && owner == null ==> item.next == null
    modifies if parent != null then {parent} else {}, if replacement != null then {replacement} else {}
    modifies if item != null then {item} else {}, s, u
    ensures ok <==> parent != null && s != [] && replacement != null && item != null
    ensures ok && replacement != item ==> item.next == null && item.prev == null
    ensures ok && replacement != item && owner == parent ==>
              (Children(parent, s[k := replacement]) <==> replacement !in s && replacement != parent)
    ensures ok && replacement != item && owner != null && owner != parent ==>
              (Children(parent, s) && Children(owner, u[k := replacement])
               <==> 0 < k < |u| - 1 && replacement !in s && replacement !in u && replacement != owner)
    ensures ok && replacement != item && owner == null ==> (Children(parent, s) <==> s == [replacement])
    ensures (!ok || replacement == item) && parent != null ==> Children(parent, s)
    ensures forall x :: x in s ==> x.child == old(x.child)
  {
    if parent == null || parent.child == null || replacement == null || item == null { return false; }
    if replacement == item { return true; }
    Links(parent, s);
    if owner != null { Links(owner, u); }
    assert item == parent.child <==> owner == parent && k == 0 by {
      assert owner != null && owner != parent ==> s[0] in s && u[k] in u;
    }
    if parent.child == item {
      ReplaceFirst(parent, item, replacement, s);
    } else if item.prev == null {
      ReplaceLone(parent, item, replacement, s);
    } else if item.next == null {
      ReplaceLast(parent, item, replacement, s, owner, u);
    } else {
      ReplaceInner(parent, item, replacement, s, owner, u, k);
    }
    return true;
  }

  method ReplaceFirst(parent: Item, item: Item, replacement: Item, ghost s: seq<Item>)
    requires Children(parent, s) && s != [] && s[0] == item && replacement != item
    modifies parent`child, replacement`next, replacement`prev, item`next, item`prev
    modifies (if item.next == null then {} else {item.next})`prev
    ensures Children(parent, s[0 := replacement]) <==> replacement !in s && replacement != parent
    ensures item.next == null && item.prev == null
  {
    Links(parent, s);
    replacement.next := item.next;
    replacement.prev := item.prev;
    if replacement.next != null {
      replacement.next.prev := replacement;
    }
    if parent.child.prev == parent.child {
      replacement.prev := replacement;
    }
    parent.child := replacement;
    item.next := null;
    item.prev := null;
    if replacement in s || replacement == parent {
      AlreadyThere(parent, s, 0, replacement);
    } else {
      PutIn(parent, s, 0, replacement);
    }
  }

  /** An item that is in no list. */
  method ReplaceLone(parent: Item, item: Item, replacement: Item, ghost s: seq<Item>)
    requires Children(parent, s) && s != [] && item !in s && item.prev == null && item.next == null
    requires replacement != item
    modifies replacement`next, replacement`prev, item`next, item`prev
    modifies (if parent.child == null then {} else {parent.child})`prev
    ensures item.next == null && item.prev == null
    ensures Children(parent, s) <==> s == [replacement]
  {
    Links(parent, s);
    replacement.next := item.next;
    replacement.prev := item.prev;
    parent.child.prev := replacement;
    item.next := null;
    item.prev := null;
    LoneReplaced(parent, s, replacement);
  }

  /** The last item of a list. */
  method ReplaceLast(parent: Item, item: Item, replacement: Item, ghost s: seq<Item>,
                     ghost owner: Item, ghost u: seq<Item>)
    requires Children(parent, s) && s != [] && u != [] && Stands(item, parent, s, owner, u, |u| - 1)
    requires replacement != item && item != s[0]
    modifies replacement`next, replacement`prev, item`next, item`prev
    modifies (if parent.child == null then {} else {parent.child})`prev
    modifies (if item.prev == null then {} else {item.prev})`next
    ensures item.next == null && item.prev == null
    ensures if owner == parent
            then Children(parent, s[|s| - 1 := replacement]) <==> replacement !in s && replacement != parent
            else !Children(owner, u[|u| - 1 := replacement])
  {
    Links(parent, s);
    Links(owner, u);
    ghost var n := |u| - 1;
    Neighbours(u, n);
    assert item.prev == u[if n > 0 then n - 1 else n];
    assert s[0] in s && u[0] in u;
    hide Children, Linked, Stands, Distinct;
    replacement.next := item.next;
    replacement.prev := item.prev;
    replacement.prev.next := replacement;
    parent.child.prev := replacement;
    item.next := null;
    item.prev := null;
    if replacement in u || replacement == owner {
      AlreadyThere(owner, u, n, replacement);
    } else if owner == parent {
      PutIn(owner, u, n, replacement);
    } else {
      assert n > 0 ==> u[0].prev == u[n];
      NotThere(owner, u, n, replacement);
    }
  }

  /** An item of a list with another one after it. */
  method ReplaceInner(parent: Item, item: Item, replacement: Item, ghost s: seq<Item>, ghost owner: Item,
                      ghost u: seq<Item>, ghost k: nat)
    requires Children(parent, s) && s != [] && Stands(item, parent, s, owner, u, k) && k < |u| - 1
    requires replacement != item && item != s[0]
    modifies replacement`next, replacement`prev, item`next, item`prev
    modifies (if item.prev == null then {} else {item.prev})`next
    modifies (if item.next == null then {} else {item.next})`prev
    ensures item.next == null && item.prev == null
    ensures if owner == parent
            then Children(parent, s[k := replacement]) <==> replacement !in s && replacement != parent
            else (Children(parent, s) && Children(owner, u[k := replacement])
                  <==> k > 0 && replacement !in s && replacement !in u && replacement != owner)
  {
    Links(parent, s);
    Links(owner, u);
    Neighbours(u, k);
    assert item.prev == u[if k > 0 then k - 1 else |u| - 1] && item.next == u[k + 1];
    assert item in u && item.prev in u && item.next in u;
    hide Children, Linked, Stands, Distinct;
    replacement.next := item.next;
    replacement.prev := item.prev;
    replacement.next.prev := replacement;
    if replacement.prev != null { replacement.prev.next := replacement; }
    item.next := null;
    item.prev := null;
    if replacement in u || replacement == owner {
      AlreadyThere(owner, u, k, replacement);
    } else if k == 0 {
      NotThere(owner, u, k, replacement);
    } else if owner == parent || replacement !in s {
      PutIn(owner, u, k, replacement);
    } else {
      LeadsAway(parent, s, replacement);
    }
  }

  /** No list has an item twice, or its own parent. */
  lemma AlreadyThere(owner: Item, u: seq<Item>, k: nat, x: Item)
    requires k < |u| && x != u[k] && (x in u || x == owner)
    ensures !Children(owner, u[k := x])
  {
    var w := u[k := x];
    assert w[k] == x;
    if x in u {
      var j :| 0 <= j < |u| && u[j] == x;
      assert w[j] == w[k] && j != k;
    }
  }

  /** An item of a list leads to the next one of it, or nowhere. */
  lemma LeadsAway(parent: Item, s: seq<Item>, x: Item)
    requires x in s && x.next != null && x.next !in s
    ensures !Children(parent, s)
  {
    var j :| 0 <= j < |s| && s[j] == x;
    assert j < |s| - 1 ==> s[j + 1] in s;
  }

  /** The first item was made to point back at one that leads nowhere. */
  lemma LoneReplaced(parent: Item, s: seq<Item>, x: Item)
    requires s != [] && parent !in s && parent.child == s[0] && s[0].prev == x && x.next == null
    requires x.prev == if x == s[0] then x else null
    ensures Children(parent, s) <==> s == [x]
  {
    if Children(parent, s) { Links(parent, s); }
  }

  /** The links lead through the replacement in place of number `k`. */
  lemma PutIn(owner: Item, u: seq<Item>, k: nat, x: Item)
    requires k < |u| && Distinct(u) && owner !in u && x !in u && x != owner
    requires forall i :: 0 <= i < |u| - 1 && i != k && i != k - 1 ==> u[i].next == u[i + 1]
    requires forall i :: 1 <= i < |u| && i != k && i != k + 1 ==> u[i].prev == u[i - 1]
    requires if k > 0 then u[k - 1].next == x && x.prev == u[k - 1] && owner.child == u[0] else owner.child == x
    requires if k < |u| - 1 then x.next == u[k + 1] && u[k + 1].prev == x && u[|u| - 1].next == null else x.next == null
    requires var last := if k == |u| - 1 then x else u[|u| - 1]; owner.child != null && owner.child.prev == last
    ensures Children(owner, u[k := x])
  {
    var w := u[k := x];
    assert forall i :: 0 <= i < |w| && i != k ==> w[i] == u[i];
  }

  /** The list still begins, or still ends, with what was to be replaced. */
  lemma NotThere(owner: Item, u: seq<Item>, k: nat, x: Item)
    requires k < |u| && Distinct(u) && x !in u
    requires if k == 0 then owner.child == u[0] else k == |u| - 1 && u[0].prev == u[k]
    ensures !Children(owner, u[k := x])
  {
    var w := u[k := x];
    assert u[k] in u && w[k] == x && w[0] == (if k == 0 then x else u[0]);
    assert w[|w| - 1] == if k == |u| - 1 then x else u[|u| - 1];
  }
}
