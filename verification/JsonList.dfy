/** The child lists of JSON nodes: doubly linked lists edited in place, and the duplication of
    a node with everything below it. */
module JsonList {

  /** What a node holds besides its links. */
  datatype Payload = Payload(kind: nat, isReference: bool, number: int, text: string, name: string)

  datatype Tree = Tree(payload: Payload, kids: seq<Tree>)

  class Node {
    var next: Node?
    var prev: Node?
    var child: Node?
    var payload: Payload

    constructor (payload: Payload)
      ensures next == null && prev == null && child == null && this.payload == payload
    {
      next, prev, child := null, null, null;
      this.payload := payload;
    }
  }

  ghost predicate Distinct(items: seq<Node>) {
    forall i, j :: 0 <= i < j < |items| ==> items[i] != items[j]
  }

  function At(items: seq<Node>, i: int): Node? {
    if 0 <= i < |items| then items[i] else null
  }

  /** The links of the children are those of the sequence `items`: `next` and `prev` are
      inverse to each other, the first child has no `prev` and the last no `next`. */
  ghost predicate Linked(first: Node?, items: seq<Node>)
    reads items`next, items`prev
  {
    && first == At(items, 0)
    && (forall i {:trigger items[i].next} :: 0 <= i < |items| ==> items[i].next == At(items, i + 1))
    && (forall i {:trigger items[i].prev} :: 0 <= i < |items| ==> items[i].prev == At(items, i - 1))
  }

  /** `parent` has exactly the children `items`. */
  ghost predicate Children(parent: Node, items: seq<Node>)
    reads parent`child, items
  {
    parent !in items && Distinct(items) && Linked(parent.child, items)
  }

  ghost predicate Loose(n: Node)
    reads n
  {
    n.next == null && n.prev == null
  }

  /** What an appended item must not bring along: a successor, and, as the first child, a
      predecessor.  The code sets neither. */
  ghost predicate Unlinked(n: Node, items: seq<Node>)
    reads n
  {
    n.next == null && (items == [] ==> n.prev == null)
  }

  /** The position `which` names, with the code's reading of negative and large numbers. */
  function Position(which: int, count: nat): (k: nat)
    ensures k <= count
  {
    if which < 0 then 0 else if which > count then count else which
  }

  /** The child at `which`, or null past the last one. */
  method ItemAt(parent: Node, which: int, ghost items: seq<Node>) returns (c: Node?)
    requires Children(parent, items)
    ensures c == At(items, Position(which, |items|))
  {
    c := parent.child;
    var left := which;
    ghost var k := 0;
    while c != null && left > 0
      invariant 0 <= k <= |items| && c == At(items, k)
      invariant if which > 0 then left == which - k && left >= 0 else k == 0 && left == which
      decreases |items| - k
    {
      c, left, k := c.next, left - 1, k + 1;
    }
  }

  method ArraySize(parent: Node, ghost items: seq<Node>) returns (n: nat)
    requires Children(parent, items)
    ensures n == |items|
  {
    var c := parent.child;
    n := 0;
    while c != null
      invariant n <= |items| && c == At(items, n)
      decreases |items| - n
    {
      c, n := c.next, n + 1;
    }
  }

  method AddItemToArray(parent: Node, item: Node?, ghost items: seq<Node>)
    requires Children(parent, items)
    requires item != null ==> item != parent && item !in items && Unlinked(item, items)
    modifies parent`child, items`next, items`prev, item
    ensures Children(parent, if item == null then items else items + [item])
    ensures item != null ==> unchanged(item`child, item`payload)
  {
    if item == null { return; }
    var c := parent.child;
    if c == null {
      parent.child := item;
    } else {
      ghost var k := 0;
      while c.next != null
        invariant 0 <= k < |items| && c == items[k]
        decreases |items| - k
      {
        c, k := c.next, k + 1;
      }
      c.next := item;
      item.prev := c;
    }
  }

  lemma InsertedDistinct(items: seq<Node>, k: nat, item: Node)
    requires Distinct(items) && k <= |items| && item !in items
    ensures Distinct(items[..k] + [item] + items[k..])
  {
  }

  lemma RemovedDistinct(items: seq<Node>, k: nat)
    requires Distinct(items) && k < |items|
    ensures Distinct(items[..k] + items[k + 1..])
  {
  }

  method InsertItemInArray(parent: Node, which: int, item: Node, ghost items: seq<Node>)
    requires Children(parent, items) && item != parent && item !in items
    requires Position(which, |items|) == |items| ==> Unlinked(item, items)
    modifies parent`child, items`next, items`prev, item
    ensures var k := Position(which, |items|); Children(parent, items[..k] + [item] + items[k..])
    ensures unchanged(item`child, item`payload)
  {
    var c := ItemAt(parent, which, items);
    ghost var k: int := Position(which, |items|);
    if c == null {
      AddItemToArray(parent, item, items);
      assert items[..k] + [item] + items[k..] == items + [item];
      return;
    }
    assert c == items[k] && items[k].prev == At(items, k - 1);
    if k > 0 { assert items[k - 1].next == At(items, k); }
    item.next := c;
    item.prev := c.prev;
    c.prev := item;
    if c == parent.child { parent.child := item; } else { item.prev.next := item; }
    ghost var items' := items[..k] + [item] + items[k..];
    InsertedDistinct(items, k, item);
    forall i | 0 <= i < |items'|
      ensures items'[i].next == At(items', i + 1) && items'[i].prev == At(items', i - 1)
    {
      assert items'[i] == if i < k then items[i] else if i == k then item else items[i - 1];
    }
  }

  method DetachItemFromArray(parent: Node, which: int, ghost items: seq<Node>) returns (c: Node?)
    requires Children(parent, items)
    modifies parent`child, items`next, items`prev
    ensures var k := Position(which, |items|);
      if k == |items| then c == null && Children(parent, items)
      else c == items[k] && Loose(c) && Children(parent, items[..k] + items[k + 1..])
  {
    c := ItemAt(parent, which, items);
    ghost var k := Position(which, |items|);
    if c != null { Unlink(parent, c, k, items); }
  }

  /** Takes `c` out of the chain of its siblings. */
  method Unlink(parent: Node, c: Node, ghost k: nat, ghost items: seq<Node>)
    requires Children(parent, items) && k < |items| && c == items[k]
    modifies parent`child, items`next, items`prev
    ensures Loose(c) && Children(parent, items[..k] + items[k + 1..])
  {
    assert items[k].prev == At(items, k - 1) && items[k].next == At(items, k + 1);
    if c.prev != null { c.prev.next := c.next; }
    if c.next != null { c.next.prev := c.prev; }
    if c == parent.child { parent.child := c.next; }
    c.next, c.prev := null, null;
    ghost var items' := items[..k] + items[k + 1..];
    RemovedDistinct(items, k);
    forall i | 0 <= i < |items'|
      ensures items'[i].next == At(items', i + 1) && items'[i].prev == At(items', i - 1)
    {
      assert items'[i] == if i < k then items[i] else items[i + 1];
    }
  }

  method ReplaceItemInArray(parent: Node, which: int, item: Node, ghost items: seq<Node>) returns (c: Node?)
    requires Children(parent, items) && item != parent && item !in items
    modifies parent`child, items`next, items`prev, item`next, item`prev
    ensures var k := Position(which, |items|);
      if k == |items| then c == null && Children(parent, items)
      else c == items[k] && Loose(c) && Children(parent, items[k := item])
  {
    c := ItemAt(parent, which, items);
    if c == null { return; }
    ghost var k: int := Position(which, |items|);
    assert items[k].prev == At(items, k - 1) && items[k].next == At(items, k + 1);
    item.next := c.next;
    item.prev := c.prev;
    if item.next != null { item.next.prev := item; }
    if c == parent.child { parent.child := item; } else { item.prev.next := item; }
    c.next, c.prev := null, null;
    ghost var items' := items[k := item];
    forall i | 0 <= i < |items'|
      ensures items'[i].next == At(items', i + 1) && items'[i].prev == At(items', i - 1)
    {
      assert items'[i] == if i == k then item else items[i];
    }
  }

  // ---- duplication

  /** The nodes of a tree, in its form: a node with the shapes of its children. */
  datatype Shape = Shape(node: Node, kids: seq<Shape>)

  ghost function Nodes(s: Shape): set<Node> {
    {s.node} + NodesOf(s.kids)
  }

  ghost function NodesOf(ks: seq<Shape>): set<Node> {
    if ks == [] then {} else NodesOf(ks[..|ks| - 1]) + Nodes(ks[|ks| - 1])
  }

  /** The nodes below the roots of `ks`. */
  ghost function Inner(ks: seq<Shape>): (r: set<Node>)
    ensures r <= NodesOf(ks)
  {
    if ks == [] then {} else Inner(ks[..|ks| - 1]) + NodesOf(ks[|ks| - 1].kids)
  }

  ghost function Roots(ks: seq<Shape>): (r: seq<Node>)
    ensures |r| == |ks|
    ensures forall i :: 0 <= i < |r| ==> r[i] == ks[i].node && r[i] in NodesOf(ks)
  {
    if ks == [] then [] else Roots(ks[..|ks| - 1]) + [ks[|ks| - 1].node]
  }

  /** No node is reached twice. */
  ghost predicate Tidy(s: Shape) {
    s.node !in NodesOf(s.kids) && TidyAll(s.kids)
  }

  ghost predicate TidyAll(ks: seq<Shape>) {
    ks == [] ||
    var front, last := ks[..|ks| - 1], ks[|ks| - 1];
    TidyAll(front) && Tidy(last) && Nodes(last) !! NodesOf(front)
  }

  /** The links in memory are those of the shape. */
  ghost predicate Links(s: Shape)
    reads Nodes(s)`child, NodesOf(s.kids)`next, NodesOf(s.kids)`prev
    decreases s
  {
    Linked(s.node.child, Roots(s.kids)) && LinksAll(s.kids)
  }

  ghost predicate LinksAll(ks: seq<Shape>)
    reads NodesOf(ks)`child, Inner(ks)`next, Inner(ks)`prev
    decreases ks
  {
    ks == [] || (LinksAll(ks[..|ks| - 1]) && Links(ks[|ks| - 1]))
  }

  /** The tree a shape stands for. */
  ghost function TreeOf(s: Shape): Tree
    reads Nodes(s)`payload
    decreases s
  {
    Tree(s.node.payload, TreesOf(s.kids))
  }

  ghost function TreesOf(ks: seq<Shape>): seq<Tree>
    reads NodesOf(ks)`payload
    decreases ks
  {
    if ks == [] then [] else TreesOf(ks[..|ks| - 1]) + [TreeOf(ks[|ks| - 1])]
  }

  /** The tree with the reference marks removed. */
  ghost function Owned(t: Tree): Tree {
    Tree(t.payload.(isReference := false), OwnedAll(t.kids))
  }

  ghost function OwnedAll(ts: seq<Tree>): seq<Tree> {
    if ts == [] then [] else OwnedAll(ts[..|ts| - 1]) + [Owned(ts[|ts| - 1])]
  }

  /** The nodes below a family are apart from its roots, and the roots from each other. */
  lemma {:induction false} TidyRoots(ks: seq<Shape>)
    requires TidyAll(ks)
    ensures Distinct(Roots(ks)) && forall n <- Roots(ks) :: n !in Inner(ks)
  {
    if ks != [] {
      var front, last := ks[..|ks| - 1], ks[|ks| - 1];
      TidyRoots(front);
    }
  }

  /** One more kid behind a family. */
  lemma FamilyGrows(ks: seq<Shape>, kid: Shape)
    ensures var all := ks + [kid];
      && NodesOf(all) == NodesOf(ks) + Nodes(kid) && Roots(all) == Roots(ks) + [kid.node]
      && (TidyAll(all) <==> TidyAll(ks) && Tidy(kid) && Nodes(kid) !! NodesOf(ks))
      && (LinksAll(all) <==> LinksAll(ks) && Links(kid))
      && TreesOf(all) == TreesOf(ks) + [TreeOf(kid)]
  {
    assert (ks + [kid])[..|ks|] == ks;
  }

  lemma OwnedGrows(ts: seq<Tree>, k: nat)
    requires k < |ts|
    ensures OwnedAll(ts[..k + 1]) == OwnedAll(ts[..k]) + [Owned(ts[k])]
  {
    assert ts[..k + 1][..k] == ts[..k];
  }

  lemma {:induction false} TreesCount(ks: seq<Shape>)
    ensures |TreesOf(ks)| == |ks|
  {
    if ks != [] { TreesCount(ks[..|ks| - 1]); }
  }

  lemma RootIn(s: Shape)
    ensures s.node in Nodes(s)
  {
  }

  /** What the links of a shape say of one of its children. */
  lemma {:induction false} ChildOf(ks: seq<Shape>, k: nat)
    requires LinksAll(ks) && k < |ks|
    ensures Links(ks[k]) && |TreesOf(ks)| == |ks| && TreesOf(ks)[k] == TreeOf(ks[k])
  {
    TreesCount(ks);
    TreesCount(ks[..|ks| - 1]);
    if k < |ks| - 1 { ChildOf(ks[..|ks| - 1], k); }
  }

  /** Links a new last child behind `last`. */
  method LinkLast(parent: Node, last: Node?, kid: Node, ghost kids: seq<Node>)
    requires Linked(parent.child, kids) && last == At(kids, |kids| - 1) && parent !in kids
    requires Distinct(kids) && kid !in kids && Loose(kid) && kid != parent
    modifies parent`child, kids`next, kid`prev
    ensures Linked(parent.child, kids + [kid])
  {
    if last != null {
      last.next := kid;
      kid.prev := last;
    } else {
      parent.child := kid;
    }
    ghost var kids' := kids + [kid];
    forall i | 0 <= i < |kids'|
      ensures kids'[i].next == At(kids', i + 1) && kids'[i].prev == At(kids', i - 1)
    {
      assert kids'[i] == if i < |kids| then kids[i] else kid;
    }
  }

  lemma {:induction false} NodesAllocated(s: Shape)
    ensures forall n <- Nodes(s) :: allocated(n)
  {
    NodesOfAllocated(s.kids);
  }

  lemma {:induction false} NodesOfAllocated(ks: seq<Shape>)
    ensures forall n <- NodesOf(ks) :: allocated(n)
  {
    if ks != [] {
      NodesOfAllocated(ks[..|ks| - 1]);
      NodesAllocated(ks[|ks| - 1]);
    }
  }

  /** The subtrees `ks` hang below `parent`, and no node is reached twice. */
  ghost predicate Hung(parent: Node, ks: seq<Shape>)
    reads parent`child, NodesOf(ks)
  {
    TidyAll(ks) && parent !in NodesOf(ks) && Linked(parent.child, Roots(ks)) && LinksAll(ks)
  }

  lemma HungIf(parent: Node, ks: seq<Shape>)
    requires TidyAll(ks) && parent !in NodesOf(ks) && Linked(parent.child, Roots(ks)) && LinksAll(ks)
    ensures Hung(parent, ks)
  {
  }

  twostate lemma PayloadKept(t: (Shape, set<Node>))
    requires Nodes(t.0) <= t.1 && forall n <- t.1 :: n.payload == old(n.payload)
    ensures TreeOf(t.0) == old(TreeOf(t.0))
  {
  }

  twostate lemma PayloadsKept(t: (seq<Shape>, set<Node>))
    requires NodesOf(t.0) <= t.1 && forall n <- t.1 :: n.payload == old(n.payload)
    ensures TreesOf(t.0) == old(TreesOf(t.0))
  {
  }

  /** Hangs a subtree behind the children of `parent`; no subtree changes. */
  method Hang(parent: Node, last: Node?, kid: Node, ghost ks: seq<Shape>, ghost shape: Shape)
    requires Hung(parent, ks) && last == At(Roots(ks), |ks| - 1)
    requires Tidy(shape) && Links(shape) && shape.node == kid && Loose(kid)
    requires parent !in Nodes(shape) && Nodes(shape) !! NodesOf(ks)
    modifies parent`child, Roots(ks)`next, kid`prev
    ensures Hung(parent, ks + [shape])
    ensures NodesOf(ks + [shape]) == NodesOf(ks) + Nodes(shape) && Roots(ks + [shape]) == Roots(ks) + [kid]
    ensures TreesOf(ks + [shape]) == old(TreesOf(ks)) + [old(TreeOf(shape))]
  {
    FamilyGrows(ks, shape);
    TidyRoots(ks);
    NodesOfAllocated(ks);
    NodesAllocated(shape);
    assert kid !in NodesOf(shape.kids) && Nodes(shape) == {kid} + NodesOf(shape.kids);
    assert Inner(ks) <= NodesOf(ks) && forall n <- Roots(ks) :: n in NodesOf(ks);
    assert Linked(parent.child, Roots(ks)) && LinksAll(ks);
    hide *;
    LinkLast(parent, last, kid, Roots(ks));
    assert LinksAll(ks) && Links(shape);
    PayloadsKept((ks, NodesOf(ks)));
    PayloadKept((shape, Nodes(shape)));
    FamilyGrows(ks, shape);
    HungIf(parent, ks + [shape]);
  }

  /** What happens to other nodes changes no tree. */
  twostate lemma Kept(t: (Shape, set<Node>))
    requires Nodes(t.0) <= t.1
    requires forall n <- t.1 :: n.child == old(n.child) && n.next == old(n.next)
    requires forall n <- t.1 :: n.prev == old(n.prev) && n.payload == old(n.payload)
    ensures old(Links(t.0)) ==> Links(t.0)
    ensures TreeOf(t.0) == old(TreeOf(t.0)) && TreesOf(t.0.kids) == old(TreesOf(t.0.kids))
  {
    hide LinksAll, Links, TreesOf, OwnedAll, Linked;
  }

  /** An equal tree made only of new nodes; without `recurse`, only its root. */
  method Duplicate(item: Node?, recurse: bool, ghost s: Shape) returns (copy: Node?, ghost c: Shape)
    requires item != null ==> Links(s) && item == s.node
    ensures copy == null <==> item == null
    ensures item != null ==>
      && copy == c.node && fresh(Nodes(c)) && Tidy(c) && Links(c) && Loose(copy)
      && TreeOf(c) == if recurse then Owned(TreeOf(s)) else Tree(item.payload.(isReference := false), [])
  {
    if item == null { return null, s; }
    copy, c := DuplicateNode(item, recurse, s);
  }

  method NewItem(payload: Payload) returns (n: Node)
    ensures fresh(n) && Loose(n) && n.child == null && n.payload == payload
  {
    n := new Node(payload);
  }

  method DuplicateNode(item: Node, recurse: bool, ghost s: Shape) returns (copy: Node, ghost c: Shape)
    requires Links(s) && item == s.node
    ensures copy == c.node && fresh(Nodes(c)) && Tidy(c) && Links(c) && Loose(copy)
    ensures TreeOf(c) == if recurse then Owned(TreeOf(s)) else Tree(item.payload.(isReference := false), [])
    decreases s, 2
  {
    hide NodesOf, Nodes, Tidy, TidyAll, LinksAll, Links, Roots, TreeOf, TreesOf, Owned, OwnedAll, Linked, Hung;
    NodesAllocated(s);
    RootIn(s);
    copy := NewItem(item.payload.(isReference := false));
    Kept((s, Nodes(s)));
    ghost var kids: seq<Shape> := [];
    if recurse {
      kids := DuplicateChildren(item, copy, s);
    } else {
      LeafIsHung(copy);
    }
    c := Shape(copy, kids);
    HungShape(c);
    RootOf(s);
  }

  /** A root with the subtrees that hang below it. */
  lemma HungShape(c: Shape)
    requires Hung(c.node, c.kids)
    ensures Tidy(c) && Links(c) && Nodes(c) == {c.node} + NodesOf(c.kids)
    ensures TreeOf(c) == Tree(c.node.payload, TreesOf(c.kids))
  {
  }

  lemma RootOf(s: Shape)
    ensures Owned(TreeOf(s)) == Tree(s.node.payload.(isReference := false), OwnedAll(TreesOf(s.kids)))
  {
  }

  lemma LeafIsHung(n: Node)
    requires n.child == null
    ensures Hung(n, []) && NodesOf([]) == {} && TreesOf([]) == [] == OwnedAll([])
  {
  }

  /** Duplicates one child and hangs the copy behind the others. */
  method CopyChild(copy: Node, cptr: Node, nptr: Node?, ghost s: Shape, ghost ks: seq<Shape>)
    returns (kid: Node, ghost shape: Shape)
    requires Links(s) && cptr == s.node && Hung(copy, ks) && nptr == At(Roots(ks), |ks| - 1)
    modifies copy`child, Roots(ks)`next
    ensures kid == shape.node && fresh(Nodes(shape)) && Hung(copy, ks + [shape])
    ensures NodesOf(ks + [shape]) == NodesOf(ks) + Nodes(shape) && Roots(ks + [shape]) == Roots(ks) + [kid]
    ensures TreesOf(ks + [shape]) == old(TreesOf(ks)) + [Owned(old(TreeOf(s)))]
    decreases s, 3
  {
    NodesOfAllocated(ks);
    NodesAllocated(s);
    assert copy !in NodesOf(ks) && forall n <- Roots(ks) :: n in NodesOf(ks);
    hide *;
    kid, shape := DuplicateNode(cptr, true, s);
    Kept((s, Nodes(s)));
    RootIn(shape);
    PayloadsKept((ks, NodesOf(ks)));
    Hang(copy, nptr, kid, ks, shape);
  }

  /** Duplicates every child of `item` and hangs the copies below `copy`. */
  method DuplicateChildren(item: Node, copy: Node, ghost s: Shape) returns (ghost ks: seq<Shape>)
    requires Links(s) && item == s.node && copy !in Nodes(s) && copy.child == null
    modifies copy`child
    ensures fresh(NodesOf(ks)) && Hung(copy, ks) && TreesOf(ks) == OwnedAll(TreesOf(s.kids))
    decreases s, 1
  {
    hide NodesOf, Nodes, Links, LinksAll, TreesOf, TreeOf, Owned, OwnedAll, Linked, Hung, Roots;
    NodesAllocated(s);
    FirstOf(s);
    LeafIsHung(copy);
    ghost var was := TreesOf(s.kids);
    var cptr, nptr: Node? := item.child, null;
    ks := [];
    assert was[..0] == [];
    while cptr != null
      invariant |ks| <= |s.kids| == |was| && cptr == At(Roots(s.kids), |ks|) && nptr == At(Roots(ks), |ks| - 1)
      invariant fresh(NodesOf(ks)) && Hung(copy, ks)
      invariant Links(s) && TreesOf(s.kids) == was && TreesOf(ks) == OwnedAll(was[..|ks|])
      decreases |s.kids| - |ks|
    {
      ghost var k := |ks|;
      SiblingOf(s, k);
      OwnedGrows(was, k);
      label copying:
      var newchild, shape := CopyChild(copy, cptr, nptr, s.kids[k], ks);
      Kept@copying((s, Nodes(s)));
      ks := ks + [shape];
      SiblingOf(s, k);
      nptr, cptr := newchild, cptr.next;
    }
    assert was[..|ks|] == was;
  }

  /** What the links of a shape say of its first child, and how many there are. */
  lemma FirstOf(s: Shape)
    requires Links(s)
    ensures s.node.child == At(Roots(s.kids), 0) && |Roots(s.kids)| == |s.kids| == |TreesOf(s.kids)|
  {
    TreesCount(s.kids);
  }

  /** What they say of another. */
  lemma SiblingOf(s: Shape, k: nat)
    requires Links(s) && k < |s.kids|
    ensures Links(s.kids[k]) && |TreesOf(s.kids)| == |s.kids| && TreesOf(s.kids)[k] == TreeOf(s.kids[k])
    ensures At(Roots(s.kids), k) == s.kids[k].node && s.kids[k].node.next == At(Roots(s.kids), k + 1)
    ensures |Roots(s.kids)| == |s.kids|
  {
    ChildOf(s.kids, k);
  }
}
