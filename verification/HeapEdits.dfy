/**
 The writes of `db_add` and `db_remove` on node cells, each matched with its edit of the
 tree.  Shared by the concurrent model, where nodes are addresses, and the sequential one,
 where they are heap objects.
 */
module HeapEdits {
  import opened SearchTree
  import opened TreeEdits
  import opened NodeHeap

  function Last<I>(path: seq<I>): I
    requires |path| > 0
  {
    path[|path| - 1]
  }

  ghost predicate TreeOk<I>(h: Heap<I>, head: I, t: Tree<I>) {
    && t.Node? && t.id == head && t.name == 0 && t.left.Leaf?
    && Unique(t) && Sorted(t) && Rep(h, To(head), t)
  }

  /** The key belongs below `cur` and is not the name of `cur`. */
  ghost predicate Searching<I>(h: Heap<I>, t: Tree<I>, k: int, cur: I) {
    cur in Ids(t) && cur in h && h[cur].name != k && Reaches(t, k, cur)
  }

  ghost predicate Located<I>(h: Heap<I>, t: Tree<I>, k: int, parent: I, target: I) {
    && Searching(h, t, k, parent)
    && LinkToward(h[parent], k) == To(target)
    && target in Ids(t) && target in h && h[target].name == k
  }

  ghost predicate Walking<I>(h: Heap<I>, t: Tree<I>, k: int, parent: I, dnode: I, path: seq<I>) {
    && Located(h, t, k, parent, dnode)
    && h[dnode].left != Null
    && LeftPath(h, h[dnode].right, path)
    && forall x :: x in path ==> x in Ids(t)
  }

  /** The parent, the node being removed and the walked nodes are all different. */
  ghost predicate AllDifferent<I>(parent: I, dnode: I, path: seq<I>) {
    && parent != dnode && parent !in path && dnode !in path
    && forall i, j :: 0 <= i < j < |path| ==> path[i] != path[j]
  }

  /** A link inside the tree, seen as a parent-child pair. */
  lemma LinkIsChild<I>(h: Heap<I>, head: I, t: Tree<I>, m: I, n: I)
    requires TreeOk(h, head, t) && m in Ids(t)
    ensures m in h && (h[m].left == To(n) <==> LeftChild(t, m, n)) && (h[m].right == To(n) <==> RightChild(t, m, n))
    ensures LeftChild(t, m, n) || RightChild(t, m, n) ==> n in Ids(t) && n in h && n != m && n != head
  {
    RepSub(h, To(head), t, m);
    if LeftChild(t, m, n) || RightChild(t, m, n) {
      ChildDepth(t, m, n);
      RepSub(h, To(head), t, n);
    }
  }

  /** The search moves on: the key belongs below the next node as well. */
  lemma RouteContinues<I>(h: Heap<I>, head: I, t: Tree<I>, k: int, cur: I, next: I)
    requires TreeOk(h, head, t) && Searching(h, t, k, cur) && LinkToward(h[cur], k) == To(next)
    ensures Reaches(t, k, next) && next in Ids(t) && next in h
  {
    RepSub(h, To(head), t, cur);
    ReachesChild(t, k, cur);
    LinkIsChild(h, head, t, cur, next);
  }

  lemma {:induction false} WalkDepth<I>(h: Heap<I>, head: I, t: Tree<I>, k: int, parent: I, dnode: I, path: seq<I>,
                                        i: nat)
    requires TreeOk(h, head, t) && Walking(h, t, k, parent, dnode, path) && i < |path|
    ensures Depth(t, dnode) == Depth(t, parent) + 1
    ensures Depth(t, path[i]) == Depth(t, parent) + 2 + i
  {
    LinkIsChild(h, head, t, parent, dnode);
    ChildDepth(t, parent, dnode);
    if i == 0 {
      LinkIsChild(h, head, t, dnode, path[0]);
      ChildDepth(t, dnode, path[0]);
    } else {
      WalkDepth(h, head, t, k, parent, dnode, path, i - 1);
      LinkIsChild(h, head, t, path[i - 1], path[i]);
      ChildDepth(t, path[i - 1], path[i]);
    }
  }

  /** A child of the last walked node is new to the walk. */
  lemma BelowIsNew<I>(h: Heap<I>, head: I, t: Tree<I>, k: int, parent: I, dnode: I, path: seq<I>, n: I)
    requires TreeOk(h, head, t) && Walking(h, t, k, parent, dnode, path)
    requires h[Last(path)].left == To(n)
    ensures n in Ids(t) && n in h && n != parent && n != dnode && n !in path
    ensures Depth(t, n) == Depth(t, parent) + |path| + 2
  {
    WalkDepth(h, head, t, k, parent, dnode, path, |path| - 1);
    LinkIsChild(h, head, t, Last(path), n);
    ChildDepth(t, Last(path), n);
    forall i | 0 <= i < |path| ensures path[i] != n {
      WalkDepth(h, head, t, k, parent, dnode, path, i);
    }
  }

  lemma WalkStarts<I>(h: Heap<I>, head: I, t: Tree<I>, k: int, parent: I, dnode: I, n: I)
    requires TreeOk(h, head, t) && Located(h, t, k, parent, dnode)
    requires h[dnode].left != Null && h[dnode].right == To(n)
    ensures Walking(h, t, k, parent, dnode, [n]) && AllDifferent(parent, dnode, [n])
  {
    LinkIsChild(h, head, t, parent, dnode);
    LinkIsChild(h, head, t, dnode, n);
    ChildDepth(t, parent, dnode);
    ChildDepth(t, dnode, n);
  }

  lemma WalkExtends<I>(h: Heap<I>, head: I, t: Tree<I>, k: int, parent: I, dnode: I, path: seq<I>, n: I)
    requires TreeOk(h, head, t) && Walking(h, t, k, parent, dnode, path) && AllDifferent(parent, dnode, path)
    requires h[Last(path)].left == To(n)
    ensures Walking(h, t, k, parent, dnode, path + [n]) && AllDifferent(parent, dnode, path + [n])
    ensures Sub(t, Last(path)).Node? && Sub(t, n) == Sub(t, Last(path)).left
  {
    BelowIsNew(h, head, t, k, parent, dnode, path, n);
    LinkIsChild(h, head, t, Last(path), n);
    ChildSub(t, Last(path), n);
    RepSub(h, To(head), t, Last(path));
  }

  lemma RepKeys<I>(h: Heap<I>, link: Link<I>, t: Tree<I>)
    requires Rep(h, link, t)
    ensures Ids(t) <= h.Keys
  {
    forall x | x in Ids(t) ensures x in h {
      RepSub(h, link, t, x);
    }
  }

  // ----- db_add links its leaf (database/db.c:93-100) -----

  /** database/db.c:93-100: the new node, with its own free lock, and the link to it. */
  function AddHeap<I>(heap: Heap<I>, p: I, k: int, value: string, added: I): Heap<I>
    requires p in heap
  {
    heap[added := Cell(k, value, Null, Null)][p := WithLink(heap[p], k, To(added))]
  }

  lemma AddTree<I>(h: Heap<I>, head: I, t: Tree<I>, p: I, k: int, v: string, added: I)
    requires TreeOk(h, head, t) && k > 0 && added !in h
    requires Searching(h, t, k, p) && LinkToward(h[p], k) == Null
    ensures CanGraft(t, p, k, added)
    ensures TreeOk(AddHeap(h, p, k, v, added), head, Grafted(t, p, k, v, added))
  {
    RepSub(h, To(head), t, p);
    if added in Ids(t) { RepSub(h, To(head), t, added); }
    GraftShape(t, p, k, v, added);
    var h' := AddHeap(h, p, k, v, added);
    var c := Node(added, k, v, Leaf, Leaf);
    assert Rep(h', To(added), c);
    RepKeys(h, To(head), t);
    RepRelink(h, h', To(head), t, p, k, To(added), c);
  }

  // ----- db_remove unlinks a node with a null child (database/db.c:122-142) -----

  ghost function UnlinkHeap<I>(h: Heap<I>, p: I, d: I): Heap<I>
    requires p in h && d in h
  {
    h[p := WithLink(h[p], h[d].name, if h[d].right == Null then h[d].left else h[d].right)]
  }

  ghost predicate CanUnlinkCell<I>(h: Heap<I>, head: I, t: Tree<I>, k: int, p: I, d: I) {
    && TreeOk(h, head, t) && k > 0 && Located(h, t, k, p, d) && p != d
    && (h[d].left == Null || h[d].right == Null)
  }

  lemma UnlinkTree<I>(h: Heap<I>, head: I, t: Tree<I>, k: int, p: I, d: I)
    requires CanUnlinkCell(h, head, t, k, p, d)
    ensures CanUnlink(t, p, k, d) && TreeOk(UnlinkHeap(h, p, d), head, Bypassed(t, p, k))
    ensures Ids(Bypassed(t, p, k)) == Ids(t) - {d}
  {
    RepSub(h, To(head), t, p);
    RepSub(h, To(head), t, d);
    SubIsSubtree(t, p);
    var n := Toward(Sub(t, p), k);
    assert Rep(h, To(d), n);
    assert Rep(h, h[d].left, n.left) && Rep(h, h[d].right, n.right);
    UnlinkRemoves(t, p, k, d);
    var h' := UnlinkHeap(h, p, d);
    RepKeys(h, To(head), t);
    RepFrame(h, h', RootLink(OnlyChild(n)), OnlyChild(n));
    RepRelink(h, h', To(head), t, p, k, RootLink(OnlyChild(n)), OnlyChild(n));
  }

  // ----- db_remove moves the successor up (database/db.c:168-176) -----

  /** database/db.c:169-171: copy the successor's name and value up and cut it out. */
  function SpliceHeap<I>(heap: Heap<I>, d: I, path: seq<I>): Heap<I>
    requires |path| > 0 && d in heap && Last(path) in heap
    requires |path| > 1 ==> path[|path| - 2] in heap
  {
    var next := heap[Last(path)];
    var dn := heap[d].(name := next.name, value := next.value);
    if |path| == 1 then
      heap[d := dn.(right := next.right)]
    else
      var h := heap[d := dn];
      h[path[|path| - 2] := h[path[|path| - 2]].(left := next.right)]
  }

  ghost predicate CanSpliceCell<I>(h: Heap<I>, head: I, t: Tree<I>, k: int, p: I, d: I, path: seq<I>) {
    && TreeOk(h, head, t) && k > 0 && Walking(h, t, k, p, d, path) && AllDifferent(p, d, path)
    && h[Last(path)].left == Null
  }

  lemma SpliceFound<I>(h: Heap<I>, head: I, t: Tree<I>, k: int, p: I, d: I, path: seq<I>)
    requires CanSpliceCell(h, head, t, k, p, d, path)
    ensures CanSplice(t, k, d) && d != head
    ensures path == Spine(Sub(t, d).right) && Last(path) == Min(Sub(t, d).right).id
  {
    RepSub(h, To(head), t, d);
    LinkIsChild(h, head, t, p, d);
    RouteContinues(h, head, t, k, p, d);
    LeftPathIsSpine(h, h[d].right, Sub(t, d).right, path);
  }

  lemma {:induction false} MinCell<I>(h: Heap<I>, link: Link<I>, t: Tree<I>)
    requires Rep(h, link, t) && t.Node?
    ensures Min(t).id in h && h[Min(t).id].name == Min(t).name && h[Min(t).id].value == Min(t).value
    ensures Min(t).id in Ids(t)
    decreases t
  {
    if t.left.Node? { MinCell(h, h[t.id].left, t.left); }
  }

  lemma LiftRep<I>(h: Heap<I>, d: I, n: Tree<I>, path: seq<I>)
    requires Rep(h, To(d), n) && n.Node? && n.right.Node? && Unique(n) && path == Spine(n.right) && |path| > 0
    requires Last(path) == Min(n.right).id && (forall i :: 0 <= i < |path| ==> path[i] in h)
    ensures Rep(SpliceHeap(h, d, path), To(d), Lifted(n))
  {
    var h' := SpliceHeap(h, d, path);
    SpineInside(n.right);
    MinCell(h, h[d].right, n.right);
    assert |path| > 1 ==> path[|path| - 2] in Spine(n.right);
    RepFrame(h, h', h[d].left, n.left) by { RepKeys(h, h[d].left, n.left); }
    RepKeys(h, h[d].right, n.right);
    if |path| == 1 {
      assert |Spine(n.right)| == 1 + |Spine(n.right.left)|;
      RepFrame(h, h', h[n.right.id].right, n.right.right);
    } else {
      assert |Spine(n.right)| == 1 + |Spine(n.right.left)|;
      RepDropMin(h, h', h[d].right, n.right, path);
    }
  }

  lemma SpliceRep<I>(h: Heap<I>, head: I, t: Tree<I>, k: int, p: I, d: I, path: seq<I>)
    requires CanSpliceCell(h, head, t, k, p, d, path)
    requires |path| > 1 ==> path[|path| - 2] in h
    ensures Sub(t, d).Node? && Sub(t, d).right.Node?
    ensures Rep(SpliceHeap(h, d, path), To(head), Spliced(t, d))
  {
    SpliceFound(h, head, t, k, p, d, path);
    RepSub(h, To(head), t, d);
    SubIsSubtree(t, d);
    SpineInside(Sub(t, d).right);
    LiftRep(h, d, Sub(t, d), path);
    RepKeys(h, To(head), t);
    RepReplace(h, SpliceHeap(h, d, path), To(head), t, d, Lifted(Sub(t, d)));
  }

  lemma SpliceTree<I>(h: Heap<I>, head: I, t: Tree<I>, k: int, p: I, d: I, path: seq<I>)
    requires CanSpliceCell(h, head, t, k, p, d, path)
    requires |path| > 1 ==> path[|path| - 2] in h
    ensures Sub(t, d).Node? && Sub(t, d).right.Node?
    ensures TreeOk(SpliceHeap(h, d, path), head, Spliced(t, d))
    ensures Ids(Spliced(t, d)) == Ids(t) - {Last(path)}
  {
    SpliceFound(h, head, t, k, p, d, path);
    SpliceShape(t, k, d);
    SpliceRep(h, head, t, k, p, d, path);
    RepSub(h, To(head), t, head);
  }

  lemma SpliceKeys<I>(h: Heap<I>, d: I, path: seq<I>)
    requires |path| > 0 && d in h && Last(path) in h && (|path| > 1 ==> path[|path| - 2] in h)
    ensures SpliceHeap(h, d, path).Keys == h.Keys
  {
  }
}
