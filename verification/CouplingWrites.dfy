/**
 Every step of the lock-coupling protocol keeps the invariant: the steps that write or
 free cells.  Each is one edit of the tree, and leaves every other thread's key below
 the node that thread holds.
 */
module CouplingWrites {
  import opened SearchTree
  import opened TreeEdits
  import opened NodeHeap
  import opened HeapEdits
  import opened LockCoupling
  import opened CouplingInvariant

  /** What a thread holds or has walked over is in the tree, but for its own victim. */
  lemma HeldInTree(h: Heap<Addr>, t: Tree<Addr>, th: Thread)
    requires ThreadOk(h, t, th)
    ensures Held(th.pc) <= Ids(t) + Victim(th.pc) && Walked(th.pc) <= Ids(t)
    ensures Victim(th.pc) !! Ids(t) && Victim(th.pc) <= h.Keys
  {
  }

  /** What is left to show when a step turns `t` into `t'`. */
  lemma {:induction false} WritingStep(s: State, t: Tree<Addr>, tid: Tid, s': State, t': Tree<Addr>)
    requires Inv(s, t) && tid in s.threads && tid in s'.threads
    requires s'.threads == s.threads[tid := s'.threads[tid]]
    requires TreeOk(s'.heap, HEAD, t') && LocksOk(s') && ThreadOk(s'.heap, t', s'.threads[tid])
    requires forall b :: b in s.threads && b != tid ==> ThreadOk(s'.heap, t', s.threads[b])
    requires forall b :: b in s.threads && b != tid ==> Apart(s'.threads[tid], s.threads[b])
    requires forall x :: x in s'.heap ==> x in Ids(t') || x in Victim(s'.threads[tid].pc) ||
                                          (x in s.heap && x !in Ids(t) && x !in Victim(s.threads[tid].pc))
    ensures Inv(s', t')
  {
    assert ThreadOk(s.heap, t, s.threads[tid]);
    forall x | x in s'.heap ensures x in Ids(t') || exists a :: a in s'.threads && x in Victim(s'.threads[a].pc) {
      if x !in Ids(t') && x !in Victim(s'.threads[tid].pc) {
        var a :| a in s.threads && x in Victim(s.threads[a].pc);
        assert a in s'.threads && x in Victim(s'.threads[a].pc);
      }
    }
    forall a, b | a in s'.threads && b in s'.threads && a != b
      ensures Apart(s'.threads[a], s'.threads[b])
    {
      if b == tid { assert Apart(s'.threads[tid], s.threads[a]); }
    }
  }

  // ----- db_add links its leaf (database/db.c:93-100) -----

  lemma AddUndisturbed(h: Heap<Addr>, t: Tree<Addr>, p: Addr, k: int, v: string, added: Addr, y: Thread)
    requires TreeOk(h, HEAD, t) && k > 0 && added !in h
    requires Searching(h, t, k, p) && LinkToward(h[p], k) == Null
    requires ThreadOk(h, t, y) && p !in Held(y.pc) && p !in Walked(y.pc)
    ensures Sub(t, p).Node?
    ensures ThreadOk(AddHeap(h, p, k, v, added), Grafted(t, p, k, v, added), y)
  {
    AddTree(h, HEAD, t, p, k, v, added);
    GraftShape(t, p, k, v, added);
    HeldInTree(h, t, y);
    RepKeys(h, To(HEAD), t);
    forall x | x in Held(y.pc) && Reaches(t, y.op.key, x)
      ensures Reaches(Grafted(t, p, k, v, added), y.op.key, x)
    {
      GraftKeepsRoutes(t, p, k, v, added, y.op.key, x);
    }
    Undisturbed(h, t, AddHeap(h, p, k, v, added), Grafted(t, p, k, v, added), y);
  }

  lemma StepAdd(s: State, t: Tree<Addr>, tid: Tid, added: Addr)
    requires Inv(s, t) && Enabled(s, tid) && added !in s.heap && s.threads[tid].pc.Missed? && s.threads[tid].op.Add?
    ensures var th := s.threads[tid]; var p := th.pc.cur;
            Sub(t, p).Node? && Inv(Do(s, tid, added), Grafted(t, p, th.op.key, th.op.value, added))
  {
    assert ThreadOk(s.heap, t, s.threads[tid]);
    var th := s.threads[tid];
    var p, k, v := th.pc.cur, th.op.key, th.op.value;
    AddTree(s.heap, HEAD, t, p, k, v, added);
    GraftShape(t, p, k, v, added);
    var s', t' := Do(s, tid, added), Grafted(t, p, k, v, added);
    assert Elems([p]) == {p};
    forall b | b in s.threads && b != tid
      ensures ThreadOk(s'.heap, t', s.threads[b]) && Apart(s'.threads[tid], s.threads[b])
    {
      assert Apart(th, s.threads[b]) && ThreadOk(s.heap, t, s.threads[b]);
      AddOther(s.heap, t, th, added, s.threads[b], s'.threads[tid].res);
    }
    AddLocks(s, t, tid, added);
    WritingStep(s, t, tid, s', t');
  }

  /** Another thread's view of the new leaf. */
  lemma AddOther(h: Heap<Addr>, t: Tree<Addr>, x: Thread, added: Addr, y: Thread, res: Option<Result>)
    requires TreeOk(h, HEAD, t) && added !in h && ThreadOk(h, t, x) && x.pc.Missed? && x.op.Add?
    requires ThreadOk(h, t, y) && Apart(x, y)
    ensures var p, k, v := x.pc.cur, x.op.key, x.op.value;
      && Sub(t, p).Node? && ThreadOk(AddHeap(h, p, k, v, added), Grafted(t, p, k, v, added), y)
      && Apart(x.(pc := Leaving([p]), res := res), y)
  {
    assert Elems([x.pc.cur]) == {x.pc.cur};
    AddUndisturbed(h, t, x.pc.cur, x.op.key, x.op.value, added, y);
  }

  lemma AddLocks(s: State, t: Tree<Addr>, tid: Tid, added: Addr)
    requires Inv(s, t) && Enabled(s, tid) && added !in s.heap && s.threads[tid].pc.Missed? && s.threads[tid].op.Add?
    ensures LocksOk(Do(s, tid, added))
  {
    assert ThreadOk(s.heap, t, s.threads[tid]);
    var s' := Do(s, tid, added);
    assert Elems([s.threads[tid].pc.cur]) == {s.threads[tid].pc.cur};
    forall a | a in s.threads ensures added !in Held(s.threads[a].pc) {
      NotHeld(s, t, a, added);
    }
    assert s'.locks == s.locks[added := Lock({}, {})];
    FreshLock(s, s', tid, added);
  }

  lemma NotHeld(s: State, t: Tree<Addr>, a: Tid, added: Addr)
    requires Inv(s, t) && a in s.threads && added !in s.heap
    ensures added !in Held(s.threads[a].pc)
  {
    HeldInTree(s.heap, t, s.threads[a]);
    RepKeys(s.heap, To(HEAD), t);
  }

  lemma FreshLock(s: State, s': State, tid: Tid, added: Addr)
    requires LocksOk(s) && added !in s.locks && s'.locks == s.locks[added := Lock({}, {})]
    requires s'.heap.Keys == s.heap.Keys + {added}
    requires tid in s.threads && tid in s'.threads && s'.threads == s.threads[tid := s'.threads[tid]]
    requires s'.threads[tid].op == s.threads[tid].op && Held(s'.threads[tid].pc) == Held(s.threads[tid].pc)
    requires forall a :: a in s.threads ==> added !in Held(s.threads[a].pc)
    ensures LocksOk(s')
  {
  }

  lemma DropLock(s: State, s': State, tid: Tid, victim: Addr)
    requires LocksOk(s) && s'.locks == s.locks - {victim} && s'.heap.Keys == s.heap.Keys - {victim}
    requires tid in s.threads && tid in s'.threads && s'.threads == s.threads[tid := s'.threads[tid]]
    requires s'.threads[tid].op == s.threads[tid].op && Held(s'.threads[tid].pc) == Held(s.threads[tid].pc)
    ensures LocksOk(s')
  {
  }

  // ----- db_remove unlinks a node with a null child (database/db.c:122-142) -----

  lemma UnlinkUndisturbed(h: Heap<Addr>, t: Tree<Addr>, k: int, p: Addr, d: Addr, y: Thread)
    requires CanUnlinkCell(h, HEAD, t, k, p, d) && ThreadOk(h, t, y)
    requires {p, d} !! Held(y.pc) + Walked(y.pc)
    ensures Sub(t, p).Node? && Toward(Sub(t, p), k).Node?
    ensures ThreadOk(UnlinkHeap(h, p, d), Bypassed(t, p, k), y)
  {
    UnlinkTree(h, HEAD, t, k, p, d);
    HeldInTree(h, t, y);
    forall x | x in Held(y.pc) && Reaches(t, y.op.key, x)
      ensures Reaches(Bypassed(t, p, k), y.op.key, x)
    {
      UnlinkKeepsRoutes(t, p, k, d, y.op.key, x);
    }
    Undisturbed(h, t, UnlinkHeap(h, p, d), Bypassed(t, p, k), y);
  }

  lemma StepUnlink(s: State, t: Tree<Addr>, tid: Tid, added: Addr)
    requires Inv(s, t) && Enabled(s, tid) && added !in s.heap && s.threads[tid].pc.Hit? && s.threads[tid].op.Remove?
    requires s.heap[s.threads[tid].pc.target].left == Null || s.heap[s.threads[tid].pc.target].right == Null
    ensures var th := s.threads[tid]; var p, k := th.pc.parent, th.op.key;
            Sub(t, p).Node? && Toward(Sub(t, p), k).Node? && Inv(Do(s, tid, added), Bypassed(t, p, k))
  {
    assert ThreadOk(s.heap, t, s.threads[tid]);
    var th := s.threads[tid];
    var p, d, k := th.pc.parent, th.pc.target, th.op.key;
    UnlinkTree(s.heap, HEAD, t, k, p, d);
    var s', t' := Do(s, tid, added), Bypassed(t, p, k);
    assert s'.heap == UnlinkHeap(s.heap, p, d);
    forall b | b in s.threads && b != tid
      ensures ThreadOk(s'.heap, t', s.threads[b]) && Apart(s'.threads[tid], s.threads[b])
    {
      assert Apart(th, s.threads[b]) && ThreadOk(s.heap, t, s.threads[b]);
      UnlinkOther(s.heap, t, th, s.threads[b], s'.threads[tid].res);
    }
    SameLocks(s, s', tid);
    WritingStep(s, t, tid, s', t');
  }

  /** Another thread's view of the unlinking. */
  lemma UnlinkOther(h: Heap<Addr>, t: Tree<Addr>, x: Thread, y: Thread, res: Option<Result>)
    requires x.pc.Hit? && x.op.Remove? && CanUnlinkCell(h, HEAD, t, x.op.key, x.pc.parent, x.pc.target)
    requires ThreadOk(h, t, y) && Apart(x, y)
    ensures var p, d, k := x.pc.parent, x.pc.target, x.op.key;
      && Sub(t, p).Node? && Toward(Sub(t, p), k).Node?
      && ThreadOk(UnlinkHeap(h, p, d), Bypassed(t, p, k), y) && Apart(x.(pc := Unlinked(p, d), res := res), y)
  {
    UnlinkUndisturbed(h, t, x.op.key, x.pc.parent, x.pc.target, y);
    HeldInTree(h, t, y);
  }

  // ----- db_remove moves the successor up (database/db.c:168-176) -----

  lemma SpliceUndisturbed(h: Heap<Addr>, t: Tree<Addr>, k: int, p: Addr, d: Addr, path: seq<Addr>, y: Thread)
    requires CanSpliceCell(h, HEAD, t, k, p, d, path) && ThreadOk(h, t, y)
    requires {d} + Elems(path) !! Held(y.pc) + Walked(y.pc)
    requires |path| > 1 ==> path[|path| - 2] in h
    ensures Sub(t, d).Node? && Sub(t, d).right.Node?
    ensures ThreadOk(SpliceHeap(h, d, path), Spliced(t, d), y)
  {
    SpliceFound(h, HEAD, t, k, p, d, path);
    SpliceTree(h, HEAD, t, k, p, d, path);
    HeldInTree(h, t, y);
    forall x | x in Held(y.pc) && Reaches(t, y.op.key, x)
      ensures Reaches(Spliced(t, d), y.op.key, x)
    {
      assert x !in Elems(path);
      SpliceKeepsRoutes(t, k, d, y.op.key, x);
    }
    forall x | x in Held(y.pc) + Walked(y.pc) + Victim(y.pc) && x in h
      ensures x in SpliceHeap(h, d, path) && SpliceHeap(h, d, path)[x] == h[x]
    {
      if |path| > 1 { assert path[|path| - 2] in Elems(path); }
      assert x != d;
    }
    Undisturbed(h, t, SpliceHeap(h, d, path), Spliced(t, d), y);
  }

  lemma SpliceApart(p: Addr, d: Addr, path: seq<Addr>, t: Tree<Addr>, x: Thread, y: Thread, res: Option<Result>)
    requires x.pc == Splicing(p, d, path) && |path| > 0 && Apart(x, y)
    requires Last(path) in Ids(t) && Victim(y.pc) !! Ids(t)
    ensures Apart(x.(pc := Doomed(Last(path), [d, p]), res := res), y)
  {
    assert Elems([d, p]) == {d, p};
    assert Last(path) in Elems(path);
  }

  /** The thread itself, and any other thread, after the splice. */
  lemma SpliceThreads(s: State, t: Tree<Addr>, tid: Tid, b: Tid)
    requires Inv(s, t) && tid in s.threads && b in s.threads && s.threads[tid].pc.Splicing?
    ensures var th := s.threads[tid]; var p, d, path := th.pc.parent, th.pc.dnode, th.pc.path;
            && |path| > 0 && d in s.heap && Last(path) in s.heap && (|path| > 1 ==> path[|path| - 2] in s.heap)
            && Sub(t, d).Node? && Sub(t, d).right.Node?
            && var th' := th.(pc := Doomed(Last(path), [d, p]), res := Some(Flag(true)));
            && (b == tid ==> ThreadOk(SpliceHeap(s.heap, d, path), Spliced(t, d), th'))
            && (b != tid ==>
                  ThreadOk(SpliceHeap(s.heap, d, path), Spliced(t, d), s.threads[b]) && Apart(th', s.threads[b]))
  {
    assert ThreadOk(s.heap, t, s.threads[tid]);
    var th := s.threads[tid];
    var p, d, path, k := th.pc.parent, th.pc.dnode, th.pc.path, th.op.key;
    if |path| > 1 { assert path[|path| - 2] in path; }
    SpliceTree(s.heap, HEAD, t, k, p, d, path);
    if b == tid {
      SpliceKeys(s.heap, d, path);
    } else {
      assert Apart(th, s.threads[b]);
      assert ThreadOk(s.heap, t, s.threads[b]);
      SpliceUndisturbed(s.heap, t, k, p, d, path, s.threads[b]);
      HeldInTree(s.heap, t, s.threads[b]);
      SpliceApart(p, d, path, t, th, s.threads[b], Some(Flag(true)));
    }
  }

  lemma StepSplice(s: State, t: Tree<Addr>, tid: Tid, added: Addr)
    requires Inv(s, t) && Enabled(s, tid) && added !in s.heap && s.threads[tid].pc.Splicing?
    ensures var d := s.threads[tid].pc.dnode;
            Sub(t, d).Node? && Sub(t, d).right.Node? && Inv(Do(s, tid, added), Spliced(t, d))
  {
    assert ThreadOk(s.heap, t, s.threads[tid]);
    var th := s.threads[tid];
    var p, d, path := th.pc.parent, th.pc.dnode, th.pc.path;
    SpliceThreads(s, t, tid, tid);
    SpliceTree(s.heap, HEAD, t, th.op.key, p, d, path);
    var s', t' := Do(s, tid, added), Spliced(t, d);
    assert Elems([d, p]) == {d, p};
    forall b | b in s.threads && b != tid
      ensures ThreadOk(s'.heap, t', s.threads[b]) && Apart(s'.threads[tid], s.threads[b])
    {
      SpliceThreads(s, t, tid, b);
    }
    SpliceKeys(s.heap, d, path);
    SameLocks(s, s', tid);
    WritingStep(s, t, tid, s', t');
  }

  lemma SameLocks(s: State, s': State, tid: Tid)
    requires LocksOk(s) && s'.locks == s.locks && s'.heap.Keys == s.heap.Keys
    requires tid in s.threads && tid in s'.threads && s'.threads == s.threads[tid := s'.threads[tid]]
    requires s'.threads[tid].op == s.threads[tid].op && Held(s'.threads[tid].pc) == Held(s.threads[tid].pc)
    ensures LocksOk(s')
  {
  }

  // ----- the removed node is freed (database/db.c:130, 141, 175) -----

  lemma StepDoomed(s: State, t: Tree<Addr>, tid: Tid, added: Addr)
    requires Inv(s, t) && Enabled(s, tid) && added !in s.heap && s.threads[tid].pc.Doomed?
    ensures Inv(Do(s, tid, added), t)
  {
    assert ThreadOk(s.heap, t, s.threads[tid]);
    var th := s.threads[tid];
    var victim := th.pc.victim;
    var s' := Do(s, tid, added);
    DropLock(s, s', tid, victim);
    RepKeys(s.heap, To(HEAD), t);
    RepFrame(s.heap, s'.heap, To(HEAD), t);
    HeldInTree(s.heap, t, th);
    forall b | b in s.threads && b != tid
      ensures ThreadOk(s'.heap, t, s.threads[b]) && Apart(s'.threads[tid], s.threads[b])
    {
      assert Apart(th, s.threads[b]);
      assert ThreadOk(s.heap, t, s.threads[b]);
      HeldInTree(s.heap, t, s.threads[b]);
      Undisturbed(s.heap, t, s'.heap, t, s.threads[b]);
    }
    WritingStep(s, t, tid, s', t);
  }
}
