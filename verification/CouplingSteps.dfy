/**
 Every step of the lock-coupling protocol keeps the invariant: the steps that change no
 cell (taking and giving back locks, comparing, walking).
 */
module CouplingSteps {
  import opened SearchTree
  import opened NodeHeap
  import opened HeapEdits
  import opened LockCoupling
  import opened CouplingInvariant

  // ----- locks -----

  lemma AcquireOk(s: State, tid: Tid, x: Addr, pc: Pc)
    requires LocksOk(s) && tid in s.threads && x in s.locks
    requires Held(pc) == Held(s.threads[tid].pc) + {x}
    ensures LocksOk(MoveTo(s, tid, pc).(locks := Acquire(s.locks, x, tid, s.threads[tid].op)))
  {
  }

  lemma ReleaseOk(s: State, tid: Tid, x: Addr, pc: Pc)
    requires LocksOk(s) && tid in s.threads && x in s.locks
    requires Held(pc) == Held(s.threads[tid].pc) - {x}
    ensures LocksOk(MoveTo(s, tid, pc).(locks := Release(s.locks, x, tid)))
  {
  }

  /** Whoever holds a grantable lock shares it with a query. */
  lemma GrantExcludes(s: State, tid: Tid, x: Addr, b: Tid)
    requires LocksOk(s) && tid in s.threads && b in s.threads && x in s.locks
    requires Grantable(s.locks[x], s.threads[tid].op) && x in Held(s.threads[b].pc)
    ensures s.threads[b].op.Query? && s.threads[tid].op.Query?
  {
    assert b in s.locks[x].writers <==> !s.threads[b].op.Query?;
    assert b in s.locks[x].readers <==> s.threads[b].op.Query?;
  }

  // ----- a step that changes no cell -----

  lemma QuietStep(s: State, t: Tree<Addr>, tid: Tid, s': State)
    requires Inv(s, t) && tid in s.threads && tid in s'.threads
    requires s'.heap == s.heap && s'.threads == s.threads[tid := s'.threads[tid]]
    requires LocksOk(s') && ThreadOk(s.heap, t, s'.threads[tid])
    requires Victim(s'.threads[tid].pc) == Victim(s.threads[tid].pc)
    requires forall b :: b in s.threads && b != tid ==> Apart(s'.threads[tid], s.threads[b])
    ensures Inv(s', t)
  {
    assert ThreadOk(s.heap, t, s.threads[tid]);
    forall x | x in s'.heap ensures x in Ids(t) || exists a :: a in s'.threads && x in Victim(s'.threads[a].pc) {
      if x !in Ids(t) {
        var a :| a in s.threads && x in Victim(s.threads[a].pc);
        assert a in s'.threads && x in Victim(s'.threads[a].pc);
      }
    }
    forall a, b | a in s'.threads && b in s'.threads && a != b
      ensures Apart(s'.threads[a], s'.threads[b])
    {
      if b == tid { assert Apart(s'.threads[tid], s.threads[a]); }
    }
  }

  /** The step only gives locks back or re-labels the ones held. */
  lemma LetGo(s: State, t: Tree<Addr>, tid: Tid, s': State)
    requires Inv(s, t) && tid in s.threads && tid in s'.threads
    requires s'.heap == s.heap && s'.threads == s.threads[tid := s'.threads[tid]]
    requires LocksOk(s') && ThreadOk(s.heap, t, s'.threads[tid])
    requires Victim(s'.threads[tid].pc) == Victim(s.threads[tid].pc)
    requires s'.threads[tid].op == s.threads[tid].op
    requires Held(s'.threads[tid].pc) <= Held(s.threads[tid].pc)
    requires Walked(s'.threads[tid].pc) <= Walked(s.threads[tid].pc)
    ensures Inv(s', t)
  {
    assert ThreadOk(s.heap, t, s.threads[tid]);
    forall b | b in s.threads && b != tid ensures Apart(s'.threads[tid], s.threads[b]) {
      assert Apart(s.threads[tid], s.threads[b]);
      assert ThreadOk(s.heap, t, s.threads[b]);
    }
    QuietStep(s, t, tid, s');
  }

  /** The step takes the lock of a child of a node that is held or walked over. */
  lemma TakeChild(s: State, t: Tree<Addr>, tid: Tid, s': State, m: Addr, n: Addr)
    requires Inv(s, t) && tid in s.threads && tid in s'.threads
    requires s'.heap == s.heap && s'.threads == s.threads[tid := s'.threads[tid]]
    requires LocksOk(s') && ThreadOk(s.heap, t, s'.threads[tid])
    requires Victim(s'.threads[tid].pc) == Victim(s.threads[tid].pc)
    requires s'.threads[tid].op == s.threads[tid].op
    requires m in Held(s.threads[tid].pc) + Walked(s.threads[tid].pc) && m in Ids(t) && m in s.heap
    requires s.heap[m].left == To(n) || s.heap[m].right == To(n)
    requires n in s.locks && Grantable(s.locks[n], s.threads[tid].op)
    requires Held(s'.threads[tid].pc) == Held(s.threads[tid].pc) + {n}
    requires Walked(s'.threads[tid].pc) <= Walked(s.threads[tid].pc) + (if s.threads[tid].op.Query? then {} else {n})
    ensures Inv(s', t)
  {
    assert ThreadOk(s.heap, t, s.threads[tid]);
    forall b | b in s.threads && b != tid ensures Apart(s'.threads[tid], s.threads[b]) {
      assert Apart(s.threads[tid], s.threads[b]);
      assert ThreadOk(s.heap, t, s.threads[b]);
      NotWalkedByOther(s.heap, t, m, n, s.threads[b]) by {
        if Walked(s.threads[b].pc) != {} { assert s.threads[b].op.Remove?; }
      }
      if n in Held(s.threads[b].pc) {
        GrantExcludes(s, tid, n, b);
      }
    }
    QuietStep(s, t, tid, s');
  }

  // ----- search (database/db.c:184-220) -----

  lemma StepReady(s: State, t: Tree<Addr>, tid: Tid, added: Addr)
    requires Inv(s, t) && Enabled(s, tid) && added !in s.heap && s.threads[tid].pc.Ready?
    ensures Inv(Do(s, tid, added), t)
  {
    assert ThreadOk(s.heap, t, s.threads[tid]);
    AcquireOk(s, tid, HEAD, At(HEAD));
    var s' := Do(s, tid, added);
    forall b | b in s.threads && b != tid ensures Apart(s'.threads[tid], s.threads[b]) {
      if HEAD in Held(s.threads[b].pc) {
        GrantExcludes(s, tid, HEAD, b);
      }
      HeadNotWalked(s.heap, t, s.threads[b]);
    }
    QuietStep(s, t, tid, s');
  }

  lemma HeadNotWalked(h: Heap<Addr>, t: Tree<Addr>, th: Thread)
    requires TreeOk(h, HEAD, t) && ThreadOk(h, t, th)
    ensures HEAD !in Walked(th.pc)
  {
    if HEAD in Walked(th.pc) {
      var path, d := th.pc.path, th.pc.dnode;
      var i :| 0 <= i < |path| && path[i] == HEAD;
      if i == 0 {
        LinkIsChild(h, HEAD, t, d, HEAD);
      } else {
        LinkIsChild(h, HEAD, t, path[i - 1], HEAD);
      }
    }
  }

  lemma StepAt(s: State, t: Tree<Addr>, tid: Tid, added: Addr)
    requires Inv(s, t) && Enabled(s, tid) && added !in s.heap && s.threads[tid].pc.At?
    ensures Inv(Do(s, tid, added), t)
  {
    assert ThreadOk(s.heap, t, s.threads[tid]);
    var th := s.threads[tid];
    var cur, k := th.pc.cur, th.op.key;
    var s' := Do(s, tid, added);
    match LinkToward(s.heap[cur], k)
    case Null =>
      LetGo(s, t, tid, s');
    case To(n) =>
      LinkIsChild(s.heap, HEAD, t, cur, n);
      AcquireOk(s, tid, n, Coupled(cur, n));
      TakeChild(s, t, tid, s', cur, n);
  }

  lemma StepCoupled(s: State, t: Tree<Addr>, tid: Tid, added: Addr)
    requires Inv(s, t) && Enabled(s, tid) && added !in s.heap && s.threads[tid].pc.Coupled?
    ensures Inv(Do(s, tid, added), t)
  {
    assert ThreadOk(s.heap, t, s.threads[tid]);
    var th := s.threads[tid];
    var cur, next, k := th.pc.cur, th.pc.next, th.op.key;
    RouteContinues(s.heap, HEAD, t, k, cur, next);
    if s.heap[next].name != k {
      ReleaseOk(s, tid, cur, At(next));
    }
    LetGo(s, t, tid, Do(s, tid, added));
  }

  lemma StepMissedReadOnly(s: State, t: Tree<Addr>, tid: Tid, added: Addr)
    requires Inv(s, t) && Enabled(s, tid) && added !in s.heap && s.threads[tid].pc.Missed?
    requires !s.threads[tid].op.Add?
    ensures Inv(Do(s, tid, added), t)
  {
    assert ThreadOk(s.heap, t, s.threads[tid]);
    LetGo(s, t, tid, Do(s, tid, added));
  }

  // ----- the found node, read only -----

  lemma StepHitReadOnly(s: State, t: Tree<Addr>, tid: Tid, added: Addr)
    requires Inv(s, t) && Enabled(s, tid) && added !in s.heap && s.threads[tid].pc.Hit?
    requires !s.threads[tid].op.Remove?
    ensures Inv(Do(s, tid, added), t)
  {
    assert ThreadOk(s.heap, t, s.threads[tid]);
    var pc := s.threads[tid].pc;
    if s.threads[tid].op.Query? {
      ReleaseOk(s, tid, pc.parent, Reading(pc.target));
    }
    LetGo(s, t, tid, Do(s, tid, added));
  }

  lemma StepReading(s: State, t: Tree<Addr>, tid: Tid, added: Addr)
    requires Inv(s, t) && Enabled(s, tid) && added !in s.heap && s.threads[tid].pc.Reading?
    ensures Inv(Do(s, tid, added), t)
  {
    assert ThreadOk(s.heap, t, s.threads[tid]);
    LetGo(s, t, tid, Do(s, tid, added));
  }

  // ----- the walk to the successor (database/db.c:148-168) -----

  lemma StepStartWalk(s: State, t: Tree<Addr>, tid: Tid, added: Addr)
    requires Inv(s, t) && Enabled(s, tid) && added !in s.heap && s.threads[tid].pc.Hit? && s.threads[tid].op.Remove?
    requires s.heap[s.threads[tid].pc.target].left != Null && s.heap[s.threads[tid].pc.target].right != Null
    ensures Inv(Do(s, tid, added), t)
  {
    assert ThreadOk(s.heap, t, s.threads[tid]);
    var th := s.threads[tid];
    var p, d := th.pc.parent, th.pc.target;
    var rc := s.heap[d].right.id;
    LinkIsChild(s.heap, HEAD, t, d, rc);
    WalkStarts(s.heap, HEAD, t, th.op.key, p, d, rc);
    assert Elems([rc]) == {rc};
    AcquireOk(s, tid, rc, Walk(p, d, [rc]));
    TakeChild(s, t, tid, Do(s, tid, added), d, rc);
  }

  lemma StepWalk(s: State, t: Tree<Addr>, tid: Tid, added: Addr)
    requires Inv(s, t) && Enabled(s, tid) && added !in s.heap && s.threads[tid].pc.Walk?
    ensures Inv(Do(s, tid, added), t)
  {
    assert ThreadOk(s.heap, t, s.threads[tid]);
    var th := s.threads[tid];
    var p, d, path := th.pc.parent, th.pc.dnode, th.pc.path;
    var s' := Do(s, tid, added);
    match s.heap[Last(path)].left
    case Null =>
      ReleaseOk(s, tid, path[0], Splicing(p, d, path));
      LetGo(s, t, tid, s');
    case To(n) =>
      BelowIsNew(s.heap, HEAD, t, th.op.key, p, d, path, n);
      AcquireOk(s, tid, n, WalkLocked(p, d, path, n));
      TakeChild(s, t, tid, s', Last(path), n);
  }

  lemma LongerWalk(h: Heap<Addr>, t: Tree<Addr>, th: Thread)
    requires TreeOk(h, HEAD, t) && ThreadOk(h, t, th) && th.pc.WalkLocked?
    ensures var pc := Walk(th.pc.parent, th.pc.dnode, th.pc.path + [th.pc.nextl]);
            && ThreadOk(h, t, th.(pc := pc))
            && Walked(pc) == Walked(th.pc) + {th.pc.nextl}
            && Held(pc) == Held(th.pc) - {th.pc.nextl}
  {
    WalkExtends(h, HEAD, t, th.op.key, th.pc.parent, th.pc.dnode, th.pc.path, th.pc.nextl);
    assert th.pc.path[0] in th.pc.path;
  }

  lemma StepWalkLocked(s: State, t: Tree<Addr>, tid: Tid, added: Addr)
    requires Inv(s, t) && Enabled(s, tid) && added !in s.heap && s.threads[tid].pc.WalkLocked?
    ensures Inv(Do(s, tid, added), t)
  {
    assert ThreadOk(s.heap, t, s.threads[tid]);
    var th := s.threads[tid];
    var pc := Walk(th.pc.parent, th.pc.dnode, th.pc.path + [th.pc.nextl]);
    LongerWalk(s.heap, t, th);
    ReleaseOk(s, tid, th.pc.nextl, pc);
    forall b | b in s.threads && b != tid ensures Apart(th.(pc := pc), s.threads[b]) {
      LongerWalkApart(th, pc, s.threads[b]);
    }
    QuietStep(s, t, tid, Do(s, tid, added));
  }

  lemma LongerWalkApart(x: Thread, pc: Pc, y: Thread)
    requires x.pc.WalkLocked? && x.op.Remove? && Apart(x, y) && Victim(pc) == Victim(x.pc)
    requires Walked(pc) == Walked(x.pc) + {x.pc.nextl} && Held(pc) == Held(x.pc) - {x.pc.nextl}
    ensures Apart(x.(pc := pc), y)
  {
  }

  // ----- giving the locks back -----

  lemma StepLeaving(s: State, t: Tree<Addr>, tid: Tid, added: Addr)
    requires Inv(s, t) && Enabled(s, tid) && added !in s.heap && s.threads[tid].pc.Leaving?
    ensures Inv(Do(s, tid, added), t)
  {
    assert ThreadOk(s.heap, t, s.threads[tid]);
    var held := s.threads[tid].pc.held;
    if held != [] {
      assert held == [held[0]] + held[1..];
      assert Elems(held[1..]) == Elems(held) - {held[0]};
      ReleaseOk(s, tid, held[0], Leaving(held[1..]));
    }
    LetGo(s, t, tid, Do(s, tid, added));
  }

  lemma StepUnlinked(s: State, t: Tree<Addr>, tid: Tid, added: Addr)
    requires Inv(s, t) && Enabled(s, tid) && added !in s.heap && s.threads[tid].pc.Unlinked?
    ensures Inv(Do(s, tid, added), t)
  {
    assert ThreadOk(s.heap, t, s.threads[tid]);
    var pc := s.threads[tid].pc;
    assert Elems([pc.parent]) == {pc.parent};
    ReleaseOk(s, tid, pc.dnode, Doomed(pc.dnode, [pc.parent]));
    LetGo(s, t, tid, Do(s, tid, added));
  }
}
