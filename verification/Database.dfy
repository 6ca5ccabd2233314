/**
 The database used by one thread at a time (database/db.c without its locks): node
 objects whose links, names and values are rewritten in place.  Each operation is a map
 operation on what the tree stores.
 */
module Database {
  import opened SearchTree
  import opened TreeEdits
  import opened NodeHeap
  import opened HeapEdits

  datatype Option<T> = None | Some(value: T)

  /** `node_t` (database/db.h). */
  class DbNode {
    var name: int
    var value: string
    var lchild: DbNode?
    var rchild: DbNode?

    /** node_constructor (database/db.c:19-53). */
    constructor (name: int, value: string, left: DbNode?, right: DbNode?)
      ensures this.name == name && this.value == value && lchild == left && rchild == right
    {
      this.name, this.value, lchild, rchild := name, value, left, right;
    }

    /** The link on the side of `key` (database/db.c:97-100, 123-126, 134-137). */
    method SetChild(key: int, child: DbNode?)
      modifies this
      ensures CellOf(this) == WithLink(old(CellOf(this)), key, AsLink(child))
    {
      if key < name {
        lchild := child;
      } else {
        rchild := child;
      }
    }
  }

  ghost function AsLink(n: DbNode?): Link<DbNode> {
    if n == null then Null else (var node: DbNode := n; To(node))
  }

  ghost function CellOf(n: DbNode): Cell<DbNode>
    reads n
  {
    Cell(n.name, n.value, AsLink(n.lchild), AsLink(n.rchild))
  }

  lemma AddEffect<I>(h: Heap<I>, head: I, t: Tree<I>, p: I, k: int, v: string, added: I)
    requires TreeOk(h, head, t) && k > 0 && added !in h
    requires Searching(h, t, k, p) && LinkToward(h[p], k) == Null
    ensures Sub(t, p).Node? && TreeOk(AddHeap(h, p, k, v, added), head, Grafted(t, p, k, v, added))
    ensures Ids(Grafted(t, p, k, v, added)) == Ids(t) + {added}
    ensures Visible(Grafted(t, p, k, v, added)) == Visible(t)[k := v]
  {
    AddTree(h, head, t, p, k, v, added);
    GraftInserts(t, p, k, v, added);
  }

  lemma UnlinkEffect<I>(h: Heap<I>, head: I, t: Tree<I>, k: int, p: I, d: I)
    requires CanUnlinkCell(h, head, t, k, p, d)
    ensures Sub(t, p).Node? && Toward(Sub(t, p), k).Node?
    ensures TreeOk(UnlinkHeap(h, p, d), head, Bypassed(t, p, k))
    ensures Ids(Bypassed(t, p, k)) == Ids(t) - {d} && Visible(Bypassed(t, p, k)) == Visible(t) - {k}
  {
    UnlinkTree(h, head, t, k, p, d);
    UnlinkRemoves(t, p, k, d);
  }

  lemma SpliceEffect<I>(h: Heap<I>, head: I, t: Tree<I>, k: int, p: I, d: I, path: seq<I>)
    requires CanSpliceCell(h, head, t, k, p, d, path)
    ensures |path| > 1 ==> path[|path| - 2] in h && path[|path| - 2] in Ids(t)
    ensures Last(path) in Ids(t)
    ensures Sub(t, d).Node? && Sub(t, d).right.Node?
    ensures TreeOk(SpliceHeap(h, d, path), head, Spliced(t, d))
    ensures Ids(Spliced(t, d)) == Ids(t) - {Last(path)} && Visible(Spliced(t, d)) == Visible(t) - {k}
  {
    if |path| > 1 { assert path[|path| - 2] in path; }
    SpliceTree(h, head, t, k, p, d, path);
    SpliceFound(h, head, t, k, p, d, path);
    SpliceRemoves(t, k, d);
  }

  lemma SpliceCells<I>(h: Heap<I>, d: I, path: seq<I>, owner: I)
    requires |path| > 0 && d in h && Last(path) in h && d !in path && (|path| > 1 ==> path[|path| - 2] in h)
    requires owner == if |path| == 1 then d else path[|path| - 2]
    ensures var h', next := SpliceHeap(h, d, path), h[Last(path)];
      var up := h[d].(name := next.name, value := next.value);
      && h'.Keys == h.Keys && h'[d] == (if owner == d then up.(right := next.right) else up)
      && (owner != d ==> h'[owner] == h[owner].(left := next.right))
      && forall n :: n in h && n != d && n != owner ==> h'[n] == h[n]
  {
  }

  class Db {
    const head: DbNode
    ghost var tree: Tree<DbNode>         // the tree that the nodes form
    ghost var cells: Heap<DbNode>        // their fields

    ghost predicate Valid()
      reads this, Ids(tree)
    {
      && TreeOk(cells, head, tree)
      && forall n :: n in Ids(tree) ==> n in cells && cells[n] == CellOf(n)
    }

    /** What a client sees: names and values, without the sentinel. */
    ghost function Stored(): map<int, string>
      reads this
    {
      Visible(tree)
    }

    /** The empty database: only `head`, named "" (database/db.c:17). */
    constructor ()
      ensures Valid() && Stored() == map[] && fresh(Ids(tree))
    {
      var h := new DbNode(0, "", null, null);
      head := h;
      tree := Node(h, 0, "", Leaf, Leaf);
      cells := map[h := Cell(0, "", Null, Null)];
      new;
      assert Ids(tree) == {head};
      assert Contents(tree) == map[0 := ""];
    }

    /** search (database/db.c:184-220): the node named `name`, or null, and its (would-be) parent. */
    method Search(name: int, from: DbNode) returns (target: DbNode?, parent: DbNode)
      requires Valid() && name > 0 && Searching(cells, tree, name, from)
      ensures Searching(cells, tree, name, parent)
      ensures AsLink(target) == LinkToward(cells[parent], name)
      ensures target != null ==> Located(cells, tree, name, parent, target) && parent != target
      ensures target == null ==> name !in Stored()
      ensures target != null ==> target in Ids(tree) && name in Stored() && Stored()[name] == target.value
      decreases Sub(tree, from)
    {
      var next := if name < from.name then from.lchild else from.rchild;
      RepSub(cells, To(head), tree, from);
      if next == null {
        MissMeansAbsent(tree, from, name);
        return null, from;
      }
      RouteContinues(cells, head, tree, name, from, next);
      LinkIsChild(cells, head, tree, from, next);
      if next.name == name {
        RepSub(cells, To(head), tree, next);
        HitMeansPresent(tree, next, name);
        return next, from;
      }
      ChildSub(tree, from, next);
      target, parent := Search(name, next);
    }

    lemma HeadSearching(name: int)
      requires Valid() && name > 0
      ensures Searching(cells, tree, name, head)
    {
      RepSub(cells, To(head), tree, head);
    }

    /** db_query (database/db.c:67-80). */
    method Query(name: int) returns (result: Option<string>)
      requires Valid() && name > 0
      ensures result == if name in Stored() then Some(Stored()[name]) else None
    {
      HeadSearching(name);
      var target, parent := Search(name, head);
      if target == null {
        result := None;
      } else {
        result := Some(target.value);
      }
    }

    /** db_add (database/db.c:82-104): insert if absent. */
    method Add(name: int, value: string) returns (added: bool)
      requires Valid() && name > 0
      modifies this, Ids(tree)
      ensures Valid() && fresh(Ids(tree) - old(Ids(tree)))
      ensures added == (name !in old(Stored()))
      ensures Stored() == if added then old(Stored())[name := value] else old(Stored())
    {
      HeadSearching(name);
      var target, parent := Search(name, head);
      if target != null {
        return false;
      }
      Link(name, value, parent);
      return true;
    }

    /** A new node below `parent` (database/db.c:93-100). */
    method Link(name: int, value: string, parent: DbNode)
      requires Valid() && name > 0
      requires Searching(cells, tree, name, parent) && LinkToward(cells[parent], name) == Null
      modifies this, parent
      ensures Valid() && fresh(Ids(tree) - old(Ids(tree)))
      ensures Stored() == old(Stored())[name := value]
    {
      var added := new DbNode(name, value, null, null);
      AddEffect(cells, head, tree, parent, name, value, added);
      cells, tree := AddHeap(cells, parent, name, value, added), Grafted(tree, parent, name, value, added);
      parent.SetChild(name, added);
      forall n | n in Ids(tree) ensures n in cells && cells[n] == CellOf(n) {
        if n != parent && n != added {
          assert n in old(Ids(tree)) && CellOf(n) == old(CellOf(n));
        }
      }
    }

    /** db_remove (database/db.c:106-182). */
    method Remove(name: int) returns (removed: bool)
      requires Valid() && name > 0
      modifies this, Ids(tree)
      ensures Valid() && Ids(tree) <= old(Ids(tree))
      ensures removed == (name in old(Stored()))
      ensures Stored() == old(Stored()) - {name}
    {
      HeadSearching(name);
      var dnode, parent := Search(name, head);
      if dnode == null {
        return false;
      }
      if dnode.rchild == null || dnode.lchild == null {
        Unlink(name, parent, dnode);
      } else {
        var owner, next, path := Successor(name, parent, dnode);
        Splice(name, parent, dnode, owner, next, path);
      }
      return true;
    }

    /** A node with a null child is bypassed (database/db.c:122-142). */
    method Unlink(name: int, parent: DbNode, dnode: DbNode)
      requires Valid() && name > 0 && Located(cells, tree, name, parent, dnode) && parent != dnode
      requires dnode.rchild == null || dnode.lchild == null
      modifies this, Ids(tree)
      ensures Valid() && Ids(tree) == old(Ids(tree)) - {dnode}
      ensures Stored() == old(Stored()) - {name}
    {
      UnlinkEffect(cells, head, tree, name, parent, dnode);
      parent.SetChild(dnode.name, if dnode.rchild == null then dnode.lchild else dnode.rchild);
      cells, tree := UnlinkHeap(cells, parent, dnode), Bypassed(tree, parent, name);
      forall n | n in Ids(tree) ensures n in cells && cells[n] == CellOf(n) {
        if n != parent {
          assert n in old(Ids(tree)) && CellOf(n) == old(CellOf(n));
        }
      }
    }

    /** The loop down the left links (database/db.c:149-166); `owner` holds the link `pnext`. */
    method Successor(name: int, parent: DbNode, dnode: DbNode)
      returns (owner: DbNode, next: DbNode, ghost path: seq<DbNode>)
      requires Valid() && name > 0 && Located(cells, tree, name, parent, dnode) && parent != dnode
      requires dnode.rchild != null && dnode.lchild != null
      ensures CanSpliceCell(cells, head, tree, name, parent, dnode, path)
      ensures next == Last(path) && owner == if |path| == 1 then dnode else path[|path| - 2]
    {
      next, owner := dnode.rchild, dnode;
      path := [next];
      WalkStarts(cells, head, tree, name, parent, dnode, next);
      while next.lchild != null
        invariant |path| > 0 && next == Last(path) && next in Ids(tree)
        invariant owner == if |path| == 1 then dnode else path[|path| - 2]
        invariant Walking(cells, tree, name, parent, dnode, path) && AllDifferent(parent, dnode, path)
        decreases Sub(tree, next)
      {
        WalkExtends(cells, head, tree, name, parent, dnode, path, next.lchild);
        owner := next;
        next := next.lchild;
        path := path + [next];
      }
    }

    /** The three writes (database/db.c:169-171). */
    method MoveUp(dnode: DbNode, owner: DbNode, next: DbNode)
      requires dnode != next && owner != next
      modifies dnode, owner
      ensures var up := old(CellOf(dnode)).(name := next.name, value := next.value);
        CellOf(dnode) == if owner == dnode then up.(right := AsLink(next.rchild)) else up
      ensures owner != dnode ==> CellOf(owner) == old(CellOf(owner)).(left := AsLink(next.rchild))
    {
      dnode.name := next.name;
      dnode.value := next.value;
      if owner == dnode {
        dnode.rchild := next.rchild;
      } else {
        owner.lchild := next.rchild;
      }
    }

    /** The successor's name and value move up and the successor is cut out (database/db.c:169-171). */
    method Splice(name: int, parent: DbNode, dnode: DbNode, owner: DbNode, next: DbNode, ghost path: seq<DbNode>)
      requires Valid() && name > 0 && CanSpliceCell(cells, head, tree, name, parent, dnode, path)
      requires next == Last(path) && owner == if |path| == 1 then dnode else path[|path| - 2]
      modifies this, Ids(tree)
      ensures Valid() && Ids(tree) == old(Ids(tree)) - {next}
      ensures Stored() == old(Stored()) - {name}
    {
      SpliceEffect(cells, head, tree, name, parent, dnode, path);
      assert dnode in Ids(tree) && next in Ids(tree) && owner in Ids(tree) && dnode != next && owner != next;
      ghost var was := cells;
      cells, tree := SpliceHeap(cells, dnode, path), Spliced(tree, dnode);
      SpliceCells(was, dnode, path, owner);
      MoveUp(dnode, owner, next);
      forall n | n in Ids(tree) ensures n in cells && cells[n] == CellOf(n) {
        if n != dnode && n != owner {
          assert n in old(Ids(tree)) && CellOf(n) == old(CellOf(n));
        }
      }
    }
  }
}
