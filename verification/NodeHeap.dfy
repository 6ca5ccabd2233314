/**
 The memory cells of the database's nodes and the tree they spell out.  A heap maps a
 node to its fields (`node_t` of database/db.h); `Rep` says that the cells below a link
 form a given tree.  The lemmas carry single field writes over to the tree edits.
 */
module NodeHeap {
  import opened SearchTree
  import opened TreeEdits

  datatype Link<I> = Null | To(id: I)

  datatype Cell<I> = Cell(name: int, value: string, left: Link<I>, right: Link<I>)

  type Heap<I> = map<I, Cell<I>>

  ghost predicate Rep<I>(h: Heap<I>, link: Link<I>, t: Tree<I>)
    decreases t
  {
    match t
    case Leaf => link == Null
    case Node(id, name, value, l, r) =>
      && link == To(id) && id in h
      && h[id].name == name && h[id].value == value
      && Rep(h, h[id].left, l) && Rep(h, h[id].right, r)
  }

  /** The link that a search for `k` follows out of a node. */
  function LinkToward<I>(c: Cell<I>, k: int): Link<I> {
    if k < c.name then c.left else c.right
  }

  function WithLink<I>(c: Cell<I>, k: int, to: Link<I>): Cell<I> {
    if k < c.name then c.(left := to) else c.(right := to)
  }

  ghost function RootLink<I>(t: Tree<I>): Link<I> {
    if t.Leaf? then Null else To(t.id)
  }

  lemma {:induction false} RepSub<I>(h: Heap<I>, link: Link<I>, t: Tree<I>, x: I)
    requires Rep(h, link, t) && x in Ids(t)
    ensures x in h && Sub(t, x).Node? && Sub(t, x).id == x && Rep(h, To(x), Sub(t, x))
    ensures h[x].left == RootLink(Sub(t, x).left) && h[x].right == RootLink(Sub(t, x).right)
    ensures h[x].name == Sub(t, x).name && h[x].value == Sub(t, x).value
    decreases t
  {
    if t.id != x {
      if x in Ids(t.left) { RepSub(h, h[t.id].left, t.left, x); } else { RepSub(h, h[t.id].right, t.right, x); }
    }
  }

  lemma {:induction false} RepFrame<I>(h: Heap<I>, h': Heap<I>, link: Link<I>, t: Tree<I>)
    requires Rep(h, link, t)
    requires forall x :: x in Ids(t) ==> x in h' && x in h && h'[x] == h[x]
    ensures Rep(h', link, t)
    decreases t
  {
    if t.Node? {
      RepFrame(h, h', h[t.id].left, t.left);
      RepFrame(h, h', h[t.id].right, t.right);
    }
  }

  lemma {:induction false} RepReplace<I>(h: Heap<I>, h': Heap<I>, link: Link<I>, t: Tree<I>, x: I, n: Tree<I>)
    requires Rep(h, link, t) && Unique(t) && x in Ids(t)
    requires forall y :: y in Ids(t) && y !in Ids(Sub(t, x)) ==> y in h' && y in h && h'[y] == h[y]
    requires Rep(h', To(x), n)
    ensures Rep(h', link, Replace(t, x, n))
    decreases t
  {
    if t.id != x {
      if x in Ids(t.left) {
        SubIsSubtree(t.left, x);
        RepReplace(h, h', h[t.id].left, t.left, x, n);
        RepFrame(h, h', h[t.id].right, t.right);
      } else {
        SubIsSubtree(t.right, x);
        RepReplace(h, h', h[t.id].right, t.right, x, n);
        RepFrame(h, h', h[t.id].left, t.left);
      }
    }
  }

  /** One link write in node `p` relinks the tree. */
  lemma RepRelink<I>(h: Heap<I>, h': Heap<I>, link: Link<I>, t: Tree<I>, p: I, k: int, to: Link<I>, c: Tree<I>)
    requires Rep(h, link, t) && Unique(t) && p in Ids(t) && p in h && Sub(t, p).Node?
    requires forall y :: y in Ids(t) && y != p ==> y in h' && y in h && h'[y] == h[y]
    requires p in h' && h'[p] == WithLink(h[p], k, to)
    requires Rep(h', to, c)
    ensures Rep(h', link, Relinked(t, p, k, c))
  {
    RepSub(h, link, t, p);
    SubIsSubtree(t, p);
    var s := Sub(t, p);
    if k < s.name {
      RepFrame(h, h', h[p].right, s.right);
    } else {
      RepFrame(h, h', h[p].left, s.left);
    }
    RepReplace(h, h', link, t, p, WithToward(s, k, c));
  }

  // ----- the walk to the successor -----

  /** `path` goes from `first` down along left links. */
  ghost predicate LeftPath<I>(h: Heap<I>, first: Link<I>, path: seq<I>) {
    && |path| > 0 && first == To(path[0])
    && (forall i :: 0 <= i < |path| ==> path[i] in h)
    && (forall i {:trigger path[i]} :: 0 < i < |path| ==> h[path[i - 1]].left == To(path[i]))
  }

  /** A left path that ends at a null left link is the whole spine. */
  lemma {:induction false} LeftPathIsSpine<I>(h: Heap<I>, link: Link<I>, t: Tree<I>, path: seq<I>)
    requires Rep(h, link, t) && LeftPath(h, link, path)
    requires h[path[|path| - 1]].left == Null
    ensures t.Node? && path == Spine(t) && path[|path| - 1] == Min(t).id
    decreases t
  {
    if |path| == 1 {
      assert t.left.Leaf?;
    } else {
      var rest := path[1..];
      assert h[path[0]].left == To(path[1]);
      assert forall i :: 0 <= i < |rest| ==> rest[i] == path[i + 1];
      LeftPathIsSpine(h, h[t.id].left, t.left, rest);
      assert path == [path[0]] + rest;
    }
  }

  lemma {:induction false} SpineInside<I>(t: Tree<I>)
    ensures forall x :: x in Spine(t) ==> x in Ids(t)
  {
    if t.Node? { SpineInside(t.left); }
  }

  lemma {:induction false} SpineDistinct<I>(t: Tree<I>)
    requires Unique(t)
    ensures forall i, j :: 0 <= i < j < |Spine(t)| ==> Spine(t)[i] != Spine(t)[j]
  {
    if t.Node? {
      SpineDistinct(t.left);
      SpineInside(t.left);
    }
  }

  /** Cutting the last node out of the path removes the minimum. */
  lemma {:induction false} RepDropMin<I>(h: Heap<I>, h': Heap<I>, link: Link<I>, t: Tree<I>, path: seq<I>)
    requires Rep(h, link, t) && Unique(t) && t.Node? && path == Spine(t) && |path| >= 2
    requires path[|path| - 2] in h && Min(t).id in h
    requires forall y :: y in Ids(t) && y != path[|path| - 2] ==> y in h' && y in h && h'[y] == h[y]
    requires path[|path| - 2] in h'
    requires h'[path[|path| - 2]] == h[path[|path| - 2]].(left := h[Min(t).id].right)
    ensures Rep(h', link, DropMin(t))
    decreases t
  {
    assert path[0] == t.id && path[1..] == Spine(t.left);
    assert |Spine(t.left)| == 1 + |Spine(t.left.left)|;
    SpineInside(t.left);
    RepSub(h, link, t, t.left.id);
    RepFrame(h, h', h[t.id].right, t.right) by {
      assert path[|path| - 2] !in Ids(t.right)
          by { if |path| > 2 { assert path[|path| - 2] == path[1..][|path| - 3]; } }
    }
    if |path| == 2 {
      RepFrame(h, h', h[t.left.id].right, t.left.right);
    } else {
      assert path[|path| - 2] == path[1..][|path| - 3];
      RepDropMin(h, h', h[t.id].left, t.left, path[1..]);
    }
  }
}
