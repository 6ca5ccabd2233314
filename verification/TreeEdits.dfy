/**
 The three changes that `db_add` and `db_remove` make to the tree: linking a new leaf
 below its parent, taking out a node with at most one child, and taking out a node with
 two children by moving its successor's name and value up.  For each: what it does to
 the contents, that it keeps the order, and which searches it leaves on their route.
 */
module TreeEdits {
  import opened SearchTree
  import opened Bindings

  // ----- changing one link -----

  lemma WithTowardSorted<I>(s: Tree<I>, k: int, c: Tree<I>)
    requires s.Node? && Sorted(s) && Sorted(c) && s.name != k
    requires forall j :: j in Contents(c) ==> j == k || j in Contents(Toward(s, k))
    ensures Sorted(WithToward(s, k, c))
  {
  }

  /** Changing the link toward `k` changes the contents on that side only. */
  lemma WithTowardLookup<I>(s: Tree<I>, k: int, c: Tree<I>, j: int)
    requires s.Node? && Sorted(s) && s.name != k
    requires forall i :: i in Contents(c) ==> i == k || i in Contents(Toward(s, k))
    ensures j in Contents(WithToward(s, k, c)) <==>
            j in Contents(c) || (j in Contents(s) && j !in Contents(Toward(s, k)))
    ensures j in Contents(c) ==> Contents(WithToward(s, k, c))[j] == Contents(c)[j]
    ensures j in Contents(s) && j !in Contents(Toward(s, k)) && j !in Contents(c) ==>
            Contents(WithToward(s, k, c))[j] == Contents(s)[j]
    ensures j in Contents(Toward(s, k)) ==> j in Contents(s) && Contents(s)[j] == Contents(Toward(s, k))[j]
  {
  }

  lemma WithTowardRoutes<I>(s: Tree<I>, k: int, c: Tree<I>, j: int, y: I)
    requires s.Node? && Reaches(s, j, y)
    requires Reaches(Toward(s, k), j, y) ==> Reaches(c, j, y)
    ensures Reaches(WithToward(s, k, c), j, y)
  {
  }

  /** The whole tree after the link toward `k` in node `p` has been changed to `c`. */
  ghost function Relinked<I>(t: Tree<I>, p: I, k: int, c: Tree<I>): Tree<I>
    requires Sub(t, p).Node?
  {
    Replace(t, p, WithToward(Sub(t, p), k, c))
  }

  ghost predicate CanRelink<I>(t: Tree<I>, p: I, k: int, c: Tree<I>) {
    && Unique(t) && Sorted(t) && Reaches(t, k, p)
    && Sub(t, p).Node? && Sub(t, p).name != k
    && Unique(c) && Sorted(c)
    && Ids(c) * Ids(t) <= Ids(Toward(Sub(t, p), k))
    && forall j :: j in Contents(c) ==> j == k || j in Contents(Toward(Sub(t, p), k))
  }

  lemma RelinkFits<I>(t: Tree<I>, p: I, k: int, c: Tree<I>)
    requires CanRelink(t, p, k, c)
    ensures p in Ids(t) && Fits(t, p, WithToward(Sub(t, p), k, c))
  {
    ReachesInside(t, k, p);
    SubIsSubtree(t, p);
    forall j | j in Contents(WithToward(Sub(t, p), k, c))
      ensures j in Contents(Sub(t, p)) || Reaches(t, j, p)
    {
      WithTowardLookup(Sub(t, p), k, c, j);
    }
  }

  lemma RelinkShape<I>(t: Tree<I>, p: I, k: int, c: Tree<I>)
    requires CanRelink(t, p, k, c)
    ensures Unique(Relinked(t, p, k, c)) && Sorted(Relinked(t, p, k, c))
    ensures Ids(Relinked(t, p, k, c)) == (Ids(t) - Ids(Toward(Sub(t, p), k))) + Ids(c)
  {
    RelinkFits(t, p, k, c);
    SubIsSubtree(t, p);
    WithTowardSorted(Sub(t, p), k, c);
    ReplaceSorted(t, p, WithToward(Sub(t, p), k, c));
    RelinkIds(t, p, k, c);
  }

  lemma RelinkIds<I>(t: Tree<I>, p: I, k: int, c: Tree<I>)
    requires Unique(t) && p in Ids(t) && Sub(t, p).Node? && Unique(c)
    requires Ids(c) * Ids(t) <= Ids(Toward(Sub(t, p), k))
    ensures Unique(Relinked(t, p, k, c))
    ensures Ids(Relinked(t, p, k, c)) == (Ids(t) - Ids(Toward(Sub(t, p), k))) + Ids(c)
  {
    SubIsSubtree(t, p);
    var s, n := Sub(t, p), WithToward(Sub(t, p), k, c);
    assert Ids(n) == (Ids(s) - Ids(Toward(s, k))) + Ids(c);
    assert Unique(n);
    ReplaceIds(t, p, n);
  }

  lemma RelinkLookup<I>(t: Tree<I>, p: I, k: int, c: Tree<I>, j: int)
    requires CanRelink(t, p, k, c)
    ensures var old_ := Contents(Toward(Sub(t, p), k)); var m' := Contents(Relinked(t, p, k, c));
            && (j in m' <==> j in Contents(c) || (j in Contents(t) && j !in old_))
            && (j in Contents(c) ==> m'[j] == Contents(c)[j])
            && (j in Contents(t) && j !in old_ && j !in Contents(c) ==> m'[j] == Contents(t)[j])
  {
    RelinkFits(t, p, k, c);
    SubIsSubtree(t, p);
    WithTowardLookup(Sub(t, p), k, c, j);
    ReplaceLookup(t, p, WithToward(Sub(t, p), k, c), j);
    if j in Contents(Sub(t, p)) {
      SubLookup(t, p, j);
    }
  }

  lemma {:induction false} SubLookup<I>(t: Tree<I>, x: I, j: int)
    requires Unique(t) && Sorted(t) && x in Ids(t) && j in Contents(Sub(t, x))
    ensures j in Contents(t) && Contents(t)[j] == Contents(Sub(t, x))[j]
  {
    if t.id != x {
      SubLookup(if x in Ids(t.left) then t.left else t.right, x, j);
    }
  }

  lemma RelinkRoutes<I>(t: Tree<I>, p: I, k: int, c: Tree<I>, j: int, y: I)
    requires CanRelink(t, p, k, c) && Reaches(t, j, y)
    requires Reaches(Toward(Sub(t, p), k), j, y) ==> Reaches(c, j, y)
    ensures Reaches(Relinked(t, p, k, c), j, y)
  {
    ReachesInside(t, k, p);
    if Reaches(Sub(t, p), j, y) {
      WithTowardRoutes(Sub(t, p), k, c, j, y);
    }
    ReplaceReaches(t, p, WithToward(Sub(t, p), k, c), j, y);
  }

  // ----- what a finished search means (database/db.c:184-220) -----

  /** A search that arrives at a node whose link toward `k` is null: `k` is absent. */
  lemma MissMeansAbsent<I>(t: Tree<I>, p: I, k: int)
    requires Unique(t) && Sorted(t) && Reaches(t, k, p)
    requires Sub(t, p).Node? && Sub(t, p).name != k && Toward(Sub(t, p), k).Leaf?
    ensures k !in Contents(t)
  {
    LookupAt(t, k, p);
    SubIsSubtree(t, p);
  }

  /** A search that arrives at a node named `k`: that node's value is the one stored. */
  lemma HitMeansPresent<I>(t: Tree<I>, x: I, k: int)
    requires Unique(t) && Sorted(t) && x in Ids(t)
    requires Sub(t, x).Node? && Sub(t, x).name == k
    ensures k in Contents(t) && Contents(t)[k] == Sub(t, x).value
  {
    SubLookup(t, x, k);
  }

  // ----- db_add: a new leaf below p (database/db.c:93-100) -----

  ghost predicate CanGraft<I>(t: Tree<I>, p: I, k: int, added: I) {
    && Unique(t) && Sorted(t) && Reaches(t, k, p) && added !in Ids(t)
    && Sub(t, p).Node? && Sub(t, p).name != k && Toward(Sub(t, p), k).Leaf?
  }

  ghost function Grafted<I>(t: Tree<I>, p: I, k: int, v: string, added: I): Tree<I>
    requires Sub(t, p).Node?
  {
    Relinked(t, p, k, Node(added, k, v, Leaf, Leaf))
  }

  lemma GraftLookup<I>(t: Tree<I>, p: I, k: int, v: string, added: I, j: int)
    requires CanGraft(t, p, k, added)
    ensures j in Contents(Grafted(t, p, k, v, added)) <==> j in Contents(t) || j == k
    ensures j in Contents(Grafted(t, p, k, v, added)) ==>
            Contents(Grafted(t, p, k, v, added))[j] == if j == k then v else Contents(t)[j]
  {
    RelinkLookup(t, p, k, Node(added, k, v, Leaf, Leaf), j);
  }

  lemma GraftShape<I>(t: Tree<I>, p: I, k: int, v: string, added: I)
    requires CanGraft(t, p, k, added)
    ensures var t' := Grafted(t, p, k, v, added);
            Unique(t') && Sorted(t') && Ids(t') == Ids(t) + {added}
  {
    RelinkShape(t, p, k, Node(added, k, v, Leaf, Leaf));
  }

  lemma GraftInserts<I>(t: Tree<I>, p: I, k: int, v: string, added: I)
    requires CanGraft(t, p, k, added)
    ensures var t' := Grafted(t, p, k, v, added);
            && Unique(t') && Sorted(t') && Ids(t') == Ids(t) + {added}
            && k !in Contents(t) && Contents(t') == Contents(t)[k := v]
  {
    MissMeansAbsent(t, p, k);
    GraftShape(t, p, k, v, added);
    var m, m' := Contents(t), Contents(Grafted(t, p, k, v, added));
    forall j
      ensures j in m' <==> j in m || j == k
      ensures j in m' ==> m'[j] == if j == k then v else m[j]
    {
      GraftLookup(t, p, k, v, added, j);
    }
    BindingAdded(m, m', k, v);
  }

  lemma GraftKeepsRoutes<I>(t: Tree<I>, p: I, k: int, v: string, added: I, j: int, y: I)
    requires CanGraft(t, p, k, added) && Reaches(t, j, y)
    ensures Reaches(Grafted(t, p, k, v, added), j, y)
  {
    RelinkRoutes(t, p, k, Node(added, k, v, Leaf, Leaf), j, y);
  }

  // ----- db_remove, at most one child (database/db.c:122-142) -----

  /** The subtree that takes the place of `d`. */
  ghost function OnlyChild<I>(d: Tree<I>): Tree<I>
    requires d.Node?
  {
    if d.right.Leaf? then d.left else d.right
  }

  ghost predicate CanUnlink<I>(t: Tree<I>, p: I, k: int, d: I) {
    && Unique(t) && Sorted(t) && Reaches(t, k, p)
    && Sub(t, p).Node? && Sub(t, p).name != k && Toward(Sub(t, p), k).Node?
    && var n := Toward(Sub(t, p), k);
    && n.id == d && n.name == k && (n.left.Leaf? || n.right.Leaf?)
  }

  ghost function Bypassed<I>(t: Tree<I>, p: I, k: int): Tree<I>
    requires Sub(t, p).Node? && Toward(Sub(t, p), k).Node?
  {
    Relinked(t, p, k, OnlyChild(Toward(Sub(t, p), k)))
  }

  lemma OnlyChildRemoves<I>(d: Tree<I>)
    requires d.Node? && Sorted(d) && Unique(d) && (d.left.Leaf? || d.right.Leaf?)
    ensures var c := OnlyChild(d);
            && Sorted(c) && Unique(c) && Ids(c) == Ids(d) - {d.id} && d.name in Contents(d)
            && forall j {:trigger j in Contents(c)} {:trigger j in Contents(d)} ::
                (j in Contents(c) <==> j in Contents(d) && j != d.name)
                && (j in Contents(c) ==> Contents(c)[j] == Contents(d)[j])
  {
  }

  lemma CanUnlinkRelinks<I>(t: Tree<I>, p: I, k: int, d: I)
    requires CanUnlink(t, p, k, d)
    ensures CanRelink(t, p, k, OnlyChild(Toward(Sub(t, p), k)))
  {
    ReachesInside(t, k, p);
    SubIsSubtree(t, p);
    OnlyChildRemoves(Toward(Sub(t, p), k));
  }

  lemma UnlinkShape<I>(t: Tree<I>, p: I, k: int, d: I)
    requires CanUnlink(t, p, k, d)
    ensures var t' := Bypassed(t, p, k);
            Unique(t') && Sorted(t') && d in Ids(t) && Ids(t') == Ids(t) - {d}
  {
    CanUnlinkRelinks(t, p, k, d);
    ReachesInside(t, k, p);
    SubIsSubtree(t, p);
    var n := Toward(Sub(t, p), k);
    OnlyChildRemoves(n);
    RelinkShape(t, p, k, OnlyChild(n));
  }

  lemma UnlinkRemoves<I>(t: Tree<I>, p: I, k: int, d: I)
    requires CanUnlink(t, p, k, d)
    ensures var t' := Bypassed(t, p, k);
            && Unique(t') && Sorted(t') && d in Ids(t) && Ids(t') == Ids(t) - {d}
            && k in Contents(t) && Contents(t') == Contents(t) - {k}
  {
    UnlinkShape(t, p, k, d);
    var m, m' := Contents(t), Contents(Bypassed(t, p, k));
    forall j ensures j in m' <==> j in m && j != k ensures j in m' ==> m'[j] == m[j] {
      UnlinkLookup(t, p, k, d, j);
    }
    BindingRemoved(m, m', k);
    LookupAt(t, k, p);
    assert k in Contents(Toward(Sub(t, p), k));
  }

  lemma UnlinkLookup<I>(t: Tree<I>, p: I, k: int, d: I, j: int)
    requires CanUnlink(t, p, k, d)
    ensures j in Contents(Bypassed(t, p, k)) <==> j in Contents(t) && j != k
    ensures j in Contents(Bypassed(t, p, k)) ==> Contents(Bypassed(t, p, k))[j] == Contents(t)[j]
  {
    CanUnlinkRelinks(t, p, k, d);
    ReachesInside(t, k, p);
    SubIsSubtree(t, p);
    var n := Toward(Sub(t, p), k);
    OnlyChildRemoves(n);
    RelinkLookup(t, p, k, OnlyChild(n), j);
    WithTowardLookup(Sub(t, p), k, OnlyChild(n), j);
    if j in Contents(n) {
      SubLookup(t, p, j);
    }
  }

  lemma UnlinkKeepsRoutes<I>(t: Tree<I>, p: I, k: int, d: I, j: int, y: I)
    requires CanUnlink(t, p, k, d) && Reaches(t, j, y) && y != d
    ensures Reaches(Bypassed(t, p, k), j, y)
  {
    CanUnlinkRelinks(t, p, k, d);
    var n := Toward(Sub(t, p), k);
    assert Reaches(n, j, y) ==> Reaches(n.left, j, y) || Reaches(n.right, j, y);
    RelinkRoutes(t, p, k, OnlyChild(n), j, y);
  }

  // ----- db_remove, two children (database/db.c:144-177) -----

  /** The left spine: the nodes that the successor loop walks over. */
  ghost function Spine<I>(t: Tree<I>): seq<I> {
    if t.Leaf? then [] else [t.id] + Spine(t.left)
  }

  ghost function Lifted<I>(n: Tree<I>): Tree<I>
    requires n.Node? && n.right.Node?
  {
    Node(n.id, Min(n.right).name, Min(n.right).value, n.left, DropMin(n.right))
  }

  ghost function Spliced<I>(t: Tree<I>, d: I): Tree<I>
    requires Sub(t, d).Node? && Sub(t, d).right.Node?
  {
    Replace(t, d, Lifted(Sub(t, d)))
  }

  ghost predicate CanSplice<I>(t: Tree<I>, k: int, d: I) {
    && Unique(t) && Sorted(t) && Reaches(t, k, d)
    && Sub(t, d).Node? && Sub(t, d).name == k && Sub(t, d).right.Node?
  }

  lemma LiftShape<I>(n: Tree<I>)
    requires n.Node? && n.right.Node? && Unique(n) && Sorted(n)
    ensures Unique(Lifted(n)) && Sorted(Lifted(n))
    ensures Min(n.right).id in Ids(n) && Ids(Lifted(n)) == Ids(n) - {Min(n.right).id}
  {
    DropMinIds(n.right);
    DropMinSorted(n.right);
    DropMinContents(n.right);
    assert n.name < Min(n.right).name;
  }

  lemma LiftLookup<I>(n: Tree<I>, j: int)
    requires n.Node? && n.right.Node? && Sorted(n)
    ensures n.name in Contents(n)
    ensures j in Contents(Lifted(n)) <==> j in Contents(n) && j != n.name
    ensures j in Contents(Lifted(n)) ==> Contents(Lifted(n))[j] == Contents(n)[j]
  {
    DropMinLookup(n.right, j);
  }

  lemma SpliceShape<I>(t: Tree<I>, k: int, d: I)
    requires CanSplice(t, k, d)
    ensures var t' := Spliced(t, d); var s := Min(Sub(t, d).right).id;
            Unique(t') && Sorted(t') && s in Ids(t) && Ids(t') == Ids(t) - {s}
  {
    ReachesInside(t, k, d);
    SubIsSubtree(t, d);
    var n := Sub(t, d);
    LiftShape(n);
    SpliceFits(t, k, d);
    ReplaceIds(t, d, Lifted(n));
    ReplaceSorted(t, d, Lifted(n));
  }

  lemma SpliceRemoves<I>(t: Tree<I>, k: int, d: I)
    requires CanSplice(t, k, d)
    ensures var t' := Spliced(t, d); var s := Min(Sub(t, d).right).id;
            && Unique(t') && Sorted(t') && s in Ids(t) && Ids(t') == Ids(t) - {s}
            && k in Contents(t) && Contents(t') == Contents(t) - {k}
  {
    SpliceShape(t, k, d);
    LookupAt(t, k, d);
    SubIsSubtree(t, d);
    LiftLookup(Sub(t, d), k);
    var m, m' := Contents(t), Contents(Spliced(t, d));
    forall j ensures j in m' <==> j in m && j != k ensures j in m' ==> m'[j] == m[j] {
      SpliceLookup(t, k, d, j);
    }
    BindingRemoved(m, m', k);
  }

  lemma SpliceFits<I>(t: Tree<I>, k: int, d: I)
    requires CanSplice(t, k, d)
    ensures Fits(t, d, Lifted(Sub(t, d)))
  {
    ReachesInside(t, k, d);
    SubIsSubtree(t, d);
    forall j | j in Contents(Lifted(Sub(t, d))) ensures j in Contents(Sub(t, d)) {
      LiftLookup(Sub(t, d), j);
    }
  }

  lemma SpliceLookup<I>(t: Tree<I>, k: int, d: I, j: int)
    requires CanSplice(t, k, d)
    ensures j in Contents(Spliced(t, d)) <==> j in Contents(t) && j != k
    ensures j in Contents(Spliced(t, d)) ==> Contents(Spliced(t, d))[j] == Contents(t)[j]
  {
    ReachesInside(t, k, d);
    SubIsSubtree(t, d);
    LiftLookup(Sub(t, d), j);
    SpliceFits(t, k, d);
    ReplaceLookup(t, d, Lifted(Sub(t, d)), j);
    if j in Contents(Sub(t, d)) {
      SubLookup(t, d, j);
    }
  }

  /** A search beyond the successor's name, such as one that has left the spine, stays on its route. */
  lemma {:induction false} DropMinKeepsRoutes<I>(t: Tree<I>, j: int, y: I)
    requires t.Node? && Sorted(t) && Reaches(t, j, y)
    requires y !in Spine(t) || (y != Min(t).id && Min(t).name < j)
    ensures Min(t).name < j && Reaches(DropMin(t), j, y)
  {
    assert Spine(t)[0] == t.id;
    if t.left.Node? {
      DropMinLookup(t.left, 0);
      if j < t.name && t.id != y {
        forall x | x in Spine(t.left) ensures x in Spine(t) { }
        DropMinKeepsRoutes(t.left, j, y);
      }
    }
  }

  /** Only searches for names up to the successor's are led elsewhere, and only those among the walked chain. */
  lemma SpliceKeepsRoutes<I>(t: Tree<I>, k: int, d: I, j: int, y: I)
    requires CanSplice(t, k, d) && Reaches(t, j, y)
    requires var m := Min(Sub(t, d).right); y !in Spine(Sub(t, d).right) || (y != m.id && m.name < j)
    ensures Reaches(Spliced(t, d), j, y)
  {
    ReachesInside(t, k, d);
    SubIsSubtree(t, d);
    var n := Sub(t, d);
    if Reaches(n, j, y) && y != d {
      DropMinLookup(n.right, 0);
      if n.name < j {
        DropMinKeepsRoutes(n.right, j, y);
      }
    }
    ReplaceReaches(t, d, Lifted(n), j, y);
  }
}
