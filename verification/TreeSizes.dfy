/**
 How the edits of the database change the sizes of subtrees: a new leaf adds at most one
 node below any other, and a removal adds none.  This is what bounds the searches that are
 under way when the tree changes.
 */
module TreeSizes {
  import opened SearchTree
  import opened TreeEdits

  lemma {:induction false} ReplaceSize<I>(t: Tree<I>, x: I, n: Tree<I>)
    requires Unique(t) && x in Ids(t)
    ensures Size(Replace(t, x, n)) + Size(Sub(t, x)) == Size(t) + Size(n)
  {
    if t.id != x {
      ReplaceSize(if x in Ids(t.left) then t.left else t.right, x, n);
    }
  }

  /** Below the nodes that stay, `n` holds at most `extra` nodes more than `s`. */
  ghost predicate Grows<I>(s: Tree<I>, n: Tree<I>, extra: nat) {
    && Size(n) <= Size(s) + extra
    && forall y :: y in Ids(n) && y in Ids(s) ==> GrowsAt(s, n, extra, y)
  }

  ghost predicate GrowsAt<I>(s: Tree<I>, n: Tree<I>, extra: nat, y: I) {
    Size(Sub(n, y)) <= Size(Sub(s, y)) + extra
  }

  /** Replacing a subtree makes every subtree grow at most as much as that one does. */
  lemma {:induction false} ReplaceGrows<I>(t: Tree<I>, x: I, n: Tree<I>, extra: nat, y: I)
    requires Unique(t) && x in Ids(t) && Grows(Sub(t, x), n, extra) && Ids(n) !! (Ids(t) - Ids(Sub(t, x)))
    requires y in Ids(t) && y in Ids(Replace(t, x, n))
    ensures Size(Sub(Replace(t, x, n), y)) <= Size(Sub(t, y)) + extra
  {
    SubIsSubtree(t, x);
    if t.id == x {
      assert GrowsAt(t, n, extra, y);
    } else {
      var c := if x in Ids(t.left) then t.left else t.right;
      SubIsSubtree(c, x);
      ReplaceSize(t, x, n);
      if y != t.id {
        ReplaceStays(c, x, n, y);
        if y in Ids(Replace(c, x, n)) {
          ReplaceGrows(c, x, n, extra, y);
        }
      }
    }
  }

  /** A node of the new tree comes from the old one or from the replacement. */
  lemma {:induction false} ReplaceStays<I>(t: Tree<I>, x: I, n: Tree<I>, y: I)
    requires Unique(t) && x in Ids(t)
    ensures y in Ids(Replace(t, x, n)) ==> y in Ids(t) || y in Ids(n)
  {
    if t.id != x {
      ReplaceStays(if x in Ids(t.left) then t.left else t.right, x, n, y);
    }
  }

  lemma GraftGrows<I>(t: Tree<I>, p: I, k: int, v: string, added: I, y: I)
    requires CanGraft(t, p, k, added) && y in Ids(t)
    ensures var t' := Grafted(t, p, k, v, added);
      y in Ids(t') && Size(t') == Size(t) + 1 && Size(Sub(t', y)) <= Size(Sub(t, y)) + 1
  {
    GraftInserts(t, p, k, v, added);
    ReachesInside(t, k, p);
    SubIsSubtree(t, p);
    var s := Sub(t, p);
    var n := WithToward(s, k, Node(added, k, v, Leaf, Leaf));
    assert Grows(s, n, 1);
    ReplaceSize(t, p, n);
    ReplaceGrows(t, p, n, 1, y);
  }

  lemma UnlinkShrinks<I>(t: Tree<I>, p: I, k: int, d: I, y: I)
    requires CanUnlink(t, p, k, d) && y in Ids(t) && y != d
    ensures var t' := Bypassed(t, p, k);
      y in Ids(t') && Size(t') < Size(t) && Size(Sub(t', y)) <= Size(Sub(t, y))
  {
    UnlinkRemoves(t, p, k, d);
    ReachesInside(t, k, p);
    SubIsSubtree(t, p);
    var s := Sub(t, p);
    var n := WithToward(s, k, OnlyChild(Toward(s, k)));
    BypassGrows(s, k);
    ReplaceSize(t, p, n);
    ReplaceGrows(t, p, n, 0, y);
  }

  lemma {:induction false} BypassGrows<I>(s: Tree<I>, k: int)
    requires s.Node? && Unique(s) && Toward(s, k).Node? && (Toward(s, k).left.Leaf? || Toward(s, k).right.Leaf?)
    ensures var n := WithToward(s, k, OnlyChild(Toward(s, k))); Size(n) < Size(s) && Grows(s, n, 0)
  {
    var d := Toward(s, k);
    var c := OnlyChild(d);
    var n := WithToward(s, k, c);
    forall y | y in Ids(n) && y in Ids(s) ensures GrowsAt(s, n, 0, y) {
      if y != s.id && y in Ids(c) {
        assert Sub(n, y) == Sub(c, y) == Sub(d, y) == Sub(s, y);
      }
    }
  }

  lemma {:induction false} DropMinShrinks<I>(t: Tree<I>)
    requires t.Node? && Unique(t)
    ensures Size(DropMin(t)) + 1 == Size(t) && Grows(t, DropMin(t), 0)
  {
    DropMinIds(t);
    if t.left.Node? {
      DropMinShrinks(t.left);
      DropMinIds(t.left);
      forall y | y in Ids(DropMin(t)) && y in Ids(t) ensures GrowsAt(t, DropMin(t), 0, y) {
        assert y in Ids(DropMin(t.left)) && y in Ids(t.left) ==> GrowsAt(t.left, DropMin(t.left), 0, y);
      }
    }
  }

  lemma SpliceShrinks<I>(t: Tree<I>, k: int, d: I, y: I)
    requires CanSplice(t, k, d) && y in Ids(t) && y != Min(Sub(t, d).right).id
    ensures var t' := Spliced(t, d);
      y in Ids(t') && Size(t') < Size(t) && Size(Sub(t', y)) <= Size(Sub(t, y))
  {
    SpliceRemoves(t, k, d);
    ReachesInside(t, k, d);
    SubIsSubtree(t, d);
    var s := Sub(t, d);
    LiftShape(s);
    DropMinShrinks(s.right);
    DropMinIds(s.right);
    forall y | y in Ids(Lifted(s)) && y in Ids(s) ensures GrowsAt(s, Lifted(s), 0, y) {
      assert y in Ids(DropMin(s.right)) ==> GrowsAt(s.right, DropMin(s.right), 0, y);
    }
    ReplaceSize(t, d, Lifted(s));
    ReplaceGrows(t, d, Lifted(s), 0, y);
  }
}
