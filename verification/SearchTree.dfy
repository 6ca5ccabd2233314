/**
 The binary search tree that the nodes of the database form, as a value.  Every node
 carries an identity of type `I`: a node address in the concurrent model, a heap object
 in the sequential one.  Names are integers in `strcmp` order, with 0 for the empty
 string (module Names shows that this loses nothing).
 */
module SearchTree {

  datatype Tree<I> = Leaf | Node(id: I, name: int, value: string, left: Tree<I>, right: Tree<I>)

  ghost function Ids<I>(t: Tree<I>): set<I> {
    match t
    case Leaf => {}
    case Node(id, _, _, l, r) => Ids(l) + {id} + Ids(r)
  }

  ghost function Contents<I>(t: Tree<I>): map<int, string> {
    match t
    case Leaf => map[]
    case Node(_, name, value, l, r) => (Contents(l) + Contents(r))[name := value]
  }

  /** What a client sees: names and values, without the sentinel. */
  ghost function Visible<I>(t: Tree<I>): map<int, string> {
    Contents(t) - {0}
  }

  /** No node occurs twice. */
  ghost predicate Unique<I>(t: Tree<I>) {
    t.Node? ==>
      && t.id !in Ids(t.left) && t.id !in Ids(t.right)
      && Ids(t.left) !! Ids(t.right)
      && Unique(t.left) && Unique(t.right)
  }

  /** The search-tree order. */
  ghost predicate Sorted<I>(t: Tree<I>) {
    t.Node? ==>
      && (forall k :: k in Contents(t.left) ==> k < t.name)
      && (forall k :: k in Contents(t.right) ==> t.name < k)
      && Sorted(t.left) && Sorted(t.right)
  }

  /** The child that a search for `k` turns to (database/db.c:194-198). */
  ghost function Toward<I>(t: Tree<I>, k: int): Tree<I>
    requires t.Node?
  {
    if k < t.name then t.left else t.right
  }

  ghost function WithToward<I>(t: Tree<I>, k: int, c: Tree<I>): Tree<I>
    requires t.Node?
  {
    if k < t.name then t.(left := c) else t.(right := c)
  }

  /** A search for `k` from the root arrives at `x` without meeting `k` on the way. */
  ghost predicate Reaches<I>(t: Tree<I>, k: int, x: I) {
    t.Node? && (t.id == x || (k < t.name && Reaches(t.left, k, x)) || (t.name < k && Reaches(t.right, k, x)))
  }

  /** The subtree whose root is the node `x`. */
  ghost function Sub<I>(t: Tree<I>, x: I): Tree<I> {
    match t
    case Leaf => Leaf
    case Node(id, _, _, l, r) => if id == x then t else if x in Ids(l) then Sub(l, x) else Sub(r, x)
  }

  /** The tree with the subtree at `x` replaced by `n`. */
  ghost function Replace<I>(t: Tree<I>, x: I, n: Tree<I>): Tree<I> {
    match t
    case Leaf => Leaf
    case Node(id, _, _, l, r) =>
      if id == x then n
      else if x in Ids(l) then t.(left := Replace(l, x, n))
      else t.(right := Replace(r, x, n))
  }

  ghost function Depth<I>(t: Tree<I>, x: I): nat {
    match t
    case Leaf => 0
    case Node(id, _, _, l, r) => if id == x then 0 else if x in Ids(l) then 1 + Depth(l, x) else 1 + Depth(r, x)
  }

  ghost function Size<I>(t: Tree<I>): nat {
    if t.Leaf? then 0 else 1 + Size(t.left) + Size(t.right)
  }

  /** The node with the smallest name. */
  ghost function Min<I>(t: Tree<I>): (m: Tree<I>)
    requires t.Node?
    ensures m.Node?
  {
    if t.left.Leaf? then t else Min(t.left)
  }

  ghost function DropMin<I>(t: Tree<I>): Tree<I>
    requires t.Node?
  {
    if t.left.Leaf? then t.right else t.(left := DropMin(t.left))
  }

  ghost predicate LeftChild<I>(t: Tree<I>, x: I, c: I) {
    x in Ids(t) && Sub(t, x).Node? && Sub(t, x).left.Node? && Sub(t, x).left.id == c
  }

  ghost predicate RightChild<I>(t: Tree<I>, x: I, c: I) {
    x in Ids(t) && Sub(t, x).Node? && Sub(t, x).right.Node? && Sub(t, x).right.id == c
  }

  // ----- subtrees -----

  lemma {:induction false} SubIsSubtree<I>(t: Tree<I>, x: I)
    requires x in Ids(t) && Unique(t)
    ensures Sub(t, x).Node? && Sub(t, x).id == x && Ids(Sub(t, x)) <= Ids(t) && Unique(Sub(t, x))
    ensures Contents(Sub(t, x)).Keys <= Contents(t).Keys
    ensures Sorted(t) ==> Sorted(Sub(t, x))
  {
    if t.id != x {
      SubIsSubtree(if x in Ids(t.left) then t.left else t.right, x);
    }
  }

  lemma {:induction false} ReachesInside<I>(t: Tree<I>, k: int, x: I)
    requires Reaches(t, k, x)
    ensures x in Ids(t)
  {
    if t.id != x {
      if k < t.name { ReachesInside(t.left, k, x); } else { ReachesInside(t.right, k, x); }
    }
  }

  /** A subtree reached by `k` decides whether `k` is in the whole tree. */
  lemma {:induction false} LookupAt<I>(t: Tree<I>, k: int, x: I)
    requires Sorted(t) && Unique(t) && Reaches(t, k, x)
    ensures x in Ids(t)
    ensures k in Contents(t) <==> k in Contents(Sub(t, x))
    ensures k in Contents(t) ==> Contents(t)[k] == Contents(Sub(t, x))[k]
  {
    ReachesInside(t, k, x);
    if t.id != x {
      if k < t.name {
        LookupAt(t.left, k, x);
      } else {
        LookupAt(t.right, k, x);
      }
    }
  }

  /** One more step of the search stays on the route of `k`. */
  lemma {:induction false} ReachesChild<I>(t: Tree<I>, k: int, x: I)
    requires Unique(t) && Reaches(t, k, x)
    ensures x in Ids(t) && Sub(t, x).Node?
    ensures Sub(t, x).name != k && Toward(Sub(t, x), k).Node? ==> Reaches(t, k, Toward(Sub(t, x), k).id)
  {
    ReachesInside(t, k, x);
    if t.id != x {
      if k < t.name {
        ReachesChild(t.left, k, x);
      } else {
        ReachesInside(t.right, k, x);
        ReachesChild(t.right, k, x);
      }
    }
  }

  // ----- replacing a subtree -----

  lemma {:induction false} ReplaceIds<I>(t: Tree<I>, x: I, n: Tree<I>)
    requires Unique(t) && x in Ids(t) && Unique(n)
    requires Ids(n) !! (Ids(t) - Ids(Sub(t, x)))
    ensures Unique(Replace(t, x, n))
    ensures Ids(Replace(t, x, n)) == (Ids(t) - Ids(Sub(t, x))) + Ids(n)
  {
    if t.id != x {
      if x in Ids(t.left) {
        SubIsSubtree(t.left, x);
        assert Ids(t.left) - Ids(Sub(t, x)) <= Ids(t) - Ids(Sub(t, x));
        ReplaceIds(t.left, x, n);
      } else {
        SubIsSubtree(t.right, x);
        assert Ids(t.right) - Ids(Sub(t, x)) <= Ids(t) - Ids(Sub(t, x));
        ReplaceIds(t.right, x, n);
      }
    }
  }

  /** Names of the replacement may be old names of the subtree or names routed to it. */
  ghost predicate Fits<I>(t: Tree<I>, x: I, n: Tree<I>) {
    forall k :: k in Contents(n) ==> k in Contents(Sub(t, x)) || Reaches(t, k, x)
  }

  lemma {:induction false} ReplaceNames<I>(t: Tree<I>, x: I, n: Tree<I>)
    ensures Contents(Replace(t, x, n)).Keys <= Contents(t).Keys + Contents(n).Keys
  {
    if t.Node? && t.id != x {
      if x in Ids(t.left) { ReplaceNames(t.left, x, n); } else { ReplaceNames(t.right, x, n); }
    }
  }

  /** What fits below the root fits below the child that holds `x`, on the right side. */
  lemma {:induction false} FitsBelow<I>(t: Tree<I>, x: I, n: Tree<I>, c: Tree<I>, k: int)
    requires Unique(t) && Sorted(t) && x in Ids(t) && Fits(t, x, n)
    requires t.id != x && c == if x in Ids(t.left) then t.left else t.right
    requires k in Contents(n)
    ensures k in Contents(Sub(c, x)) || Reaches(c, k, x)
    ensures if x in Ids(t.left) then k < t.name else t.name < k
  {
    SubIsSubtree(c, x);
    if Reaches(t, k, x) && k < t.name {
      ReachesInside(t.left, k, x);
    } else if Reaches(t, k, x) {
      ReachesInside(t.right, k, x);
    }
  }

  lemma {:induction false} ReplaceSorted<I>(t: Tree<I>, x: I, n: Tree<I>)
    requires Unique(t) && Sorted(t) && x in Ids(t) && Sorted(n) && Fits(t, x, n)
    ensures Sorted(Replace(t, x, n))
  {
    if t.id != x {
      var c := if x in Ids(t.left) then t.left else t.right;
      forall k | k in Contents(n)
        ensures k in Contents(Sub(c, x)) || Reaches(c, k, x)
        ensures if x in Ids(t.left) then k < t.name else t.name < k
      {
        FitsBelow(t, x, n, c, k);
      }
      ReplaceSorted(c, x, n);
      ReplaceNames(c, x, n);
    }
  }

  lemma {:induction false} ReplaceLookup<I>(t: Tree<I>, x: I, n: Tree<I>, k: int)
    requires Unique(t) && Sorted(t) && x in Ids(t) && Fits(t, x, n)
    ensures k in Contents(Replace(t, x, n)) <==>
            k in Contents(n) || (k in Contents(t) && k !in Contents(Sub(t, x)))
    ensures k in Contents(n) ==> Contents(Replace(t, x, n))[k] == Contents(n)[k]
    ensures k in Contents(t) && k !in Contents(Sub(t, x)) && k !in Contents(n) ==>
            k in Contents(Replace(t, x, n)) && Contents(Replace(t, x, n))[k] == Contents(t)[k]
  {
    if t.id != x {
      var c := if x in Ids(t.left) then t.left else t.right;
      forall j | j in Contents(n)
        ensures j in Contents(Sub(c, x)) || Reaches(c, j, x)
      {
        FitsBelow(t, x, n, c, j);
      }
      SubIsSubtree(c, x);
      if k in Contents(n) {
        FitsBelow(t, x, n, c, k);
      }
      ReplaceLookup(c, x, n, k);
    }
  }

  lemma {:induction false} ReplaceReaches<I>(t: Tree<I>, x: I, n: Tree<I>, k: int, y: I)
    requires Unique(t) && x in Ids(t) && Reaches(t, k, y)
    requires y in Ids(Sub(t, x)) && Reaches(Sub(t, x), k, y) ==> Reaches(n, k, y)
    ensures Reaches(Replace(t, x, n), k, y)
  {
    ReachesInside(t, k, y);
    if t.id != x && t.id != y {
      if k < t.name {
        ReachesInside(t.left, k, y);
        if x in Ids(t.left) { ReplaceReaches(t.left, x, n, k, y); }
      } else {
        ReachesInside(t.right, k, y);
        if x !in Ids(t.left) { ReplaceReaches(t.right, x, n, k, y); }
      }
    }
  }

  // ----- parents and depth -----

  lemma {:induction false} ChildDepth<I>(t: Tree<I>, x: I, c: I)
    requires Unique(t) && (LeftChild(t, x, c) || RightChild(t, x, c))
    ensures c in Ids(t) && Depth(t, c) == Depth(t, x) + 1
  {
    if t.id != x {
      ChildDepth(if x in Ids(t.left) then t.left else t.right, x, c);
    }
  }

  lemma {:induction false} ChildInside<I>(t: Tree<I>, x: I, c: I)
    requires LeftChild(t, x, c) || RightChild(t, x, c)
    ensures t.Node? && c in Ids(t.left) + Ids(t.right)
  {
    if t.id != x {
      ChildInside(if x in Ids(t.left) then t.left else t.right, x, c);
    }
  }

  /** A node hangs below one parent, on one side. */
  lemma {:induction false} UniqueParent<I>(t: Tree<I>, x: I, y: I, c: I)
    requires Unique(t)
    requires LeftChild(t, x, c) || RightChild(t, x, c)
    requires LeftChild(t, y, c) || RightChild(t, y, c)
    ensures x == y
    ensures !(LeftChild(t, x, c) && RightChild(t, x, c))
  {
    if t.id == x || t.id == y {
      if t.id != x {
        ChildInside(if x in Ids(t.left) then t.left else t.right, x, c);
      }
      if t.id != y {
        ChildInside(if y in Ids(t.left) then t.left else t.right, y, c);
      }
    } else {
      ChildInside(if x in Ids(t.left) then t.left else t.right, x, c);
      ChildInside(if y in Ids(t.left) then t.left else t.right, y, c);
      UniqueParent(if x in Ids(t.left) then t.left else t.right, x, y, c);
    }
  }

  lemma {:induction false} ChildSub<I>(t: Tree<I>, x: I, c: I)
    requires Unique(t) && (LeftChild(t, x, c) || RightChild(t, x, c))
    ensures c in Ids(t)
    ensures Sub(t, c) == if LeftChild(t, x, c) then Sub(t, x).left else Sub(t, x).right
  {
    if t.id != x {
      ChildSub(if x in Ids(t.left) then t.left else t.right, x, c);
    } else {
      SubIsSubtree(t, c);
    }
  }

  // ----- the successor -----

  lemma {:induction false} DropMinIds<I>(t: Tree<I>)
    requires t.Node? && Unique(t)
    ensures Min(t).id in Ids(t) && Min(t).left.Leaf?
    ensures Unique(DropMin(t)) && Ids(DropMin(t)) == Ids(t) - {Min(t).id}
  {
    if t.left.Node? {
      DropMinIds(t.left);
    }
  }

  lemma {:induction false} DropMinLookup<I>(t: Tree<I>, k: int)
    requires t.Node? && Sorted(t)
    ensures Min(t).name in Contents(t) && Contents(t)[Min(t).name] == Min(t).value
    ensures k in Contents(DropMin(t)) <==> k in Contents(t) && k != Min(t).name
    ensures k in Contents(DropMin(t)) ==> Contents(DropMin(t))[k] == Contents(t)[k] && Min(t).name < k
  {
    if t.left.Node? {
      DropMinLookup(t.left, k);
    }
  }

  lemma {:induction false} DropMinSorted<I>(t: Tree<I>)
    requires t.Node? && Sorted(t)
    ensures Sorted(DropMin(t))
  {
    if t.left.Node? {
      DropMinSorted(t.left);
      forall k | k in Contents(DropMin(t.left)) ensures k < t.name {
        DropMinLookup(t.left, k);
      }
    }
  }

  lemma {:induction false} DropMinContents<I>(t: Tree<I>)
    requires t.Node? && Sorted(t)
    ensures Min(t).name in Contents(t) && Contents(t)[Min(t).name] == Min(t).value
    ensures Contents(DropMin(t)) == Contents(t) - {Min(t).name}
    ensures forall k :: k in Contents(DropMin(t)) ==> Min(t).name < k
  {
    forall k {
      DropMinLookup(t, k);
    }
    DropMinLookup(t, 0);
  }
}
