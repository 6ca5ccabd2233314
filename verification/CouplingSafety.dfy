/**
 Safety of whole runs of the lock-coupling protocol: no step touches freed memory, no two
 threads race on a cell, a node being freed is known to nobody else, a requested lock is
 always below every lock held (so some thread can always step), and a finished operation
 holds no lock.
 */
module CouplingSafety {
  import opened SearchTree
  import opened TreeEdits
  import opened NodeHeap
  import opened HeapEdits
  import opened LockCoupling
  import opened CouplingInvariant
  import opened CouplingSteps
  import opened CouplingWrites

  // ----- the invariant holds in every state of every run -----

  /** The tree after a thread's step. */
  ghost function TreeAfter(s: State, t: Tree<Addr>, tid: Tid, added: Addr): Tree<Addr>
    requires Enabled(s, tid)
  {
    var th := s.threads[tid];
    if th.pc.Missed? && th.op.Add? && Sub(t, th.pc.cur).Node? then
      Grafted(t, th.pc.cur, th.op.key, th.op.value, added)
    else if th.pc.Hit? && th.op.Remove? && (s.heap[th.pc.target].left == Null || s.heap[th.pc.target].right == Null)
            && Sub(t, th.pc.parent).Node? && Toward(Sub(t, th.pc.parent), th.op.key).Node? then
      Bypassed(t, th.pc.parent, th.op.key)
    else if th.pc.Splicing? && Sub(t, th.pc.dnode).Node? && Sub(t, th.pc.dnode).right.Node? then
      Spliced(t, th.pc.dnode)
    else t
  }

  lemma StepKeepsInv(s: State, t: Tree<Addr>, tid: Tid, added: Addr)
    requires Inv(s, t) && Enabled(s, tid) && added !in s.heap
    ensures Inv(Do(s, tid, added), TreeAfter(s, t, tid, added))
  {
    assert ThreadOk(s.heap, t, s.threads[tid]);
    var th := s.threads[tid];
    match th.pc
    case Ready => StepReady(s, t, tid, added);
    case At(_) => StepAt(s, t, tid, added);
    case Coupled(_, _) => StepCoupled(s, t, tid, added);
    case Missed(_) => if th.op.Add? { StepAdd(s, t, tid, added); } else { StepMissedReadOnly(s, t, tid, added); }
    case Hit(_, d) =>
      if !th.op.Remove? { StepHitReadOnly(s, t, tid, added); }
      else if s.heap[d].left == Null || s.heap[d].right == Null { StepUnlink(s, t, tid, added); }
      else { StepStartWalk(s, t, tid, added); }
    case Reading(_) => StepReading(s, t, tid, added);
    case Walk(_, _, _) => StepWalk(s, t, tid, added);
    case WalkLocked(_, _, _, _) => StepWalkLocked(s, t, tid, added);
    case Splicing(_, _, _) => StepSplice(s, t, tid, added);
    case Unlinked(_, _) => StepUnlinked(s, t, tid, added);
    case Doomed(_, _) => StepDoomed(s, t, tid, added);
    case Leaving(_) => StepLeaving(s, t, tid, added);
  }

  lemma CallKeepsInv(s: State, t: Tree<Addr>, tid: Tid, op: Op)
    requires Inv(s, t) && tid !in s.threads && op.key > 0
    ensures Inv(Call(s, tid, op), t)
  {
    var s' := Call(s, tid, op);
    forall x | x in s'.heap ensures x in Ids(t) || exists a :: a in s'.threads && x in Victim(s'.threads[a].pc) {
      if x !in Ids(t) {
        var a :| a in s.threads && x in Victim(s.threads[a].pc);
        assert a in s'.threads && x in Victim(s'.threads[a].pc);
      }
    }
  }

  ghost function HeadOnly(): Tree<Addr> {
    Node(HEAD, 0, "", Leaf, Leaf)
  }

  lemma InitInv(s: State)
    requires Init(s)
    ensures Inv(s, HeadOnly())
  {
  }

  // ----- lock order and progress -----

  ghost predicate StrictlyBelow(t: Tree<Addr>, y: Addr, x: Addr) {
    y in Ids(t) && x in Ids(Sub(t, y)) && x != y
  }

  lemma {:induction false} BelowChild(t: Tree<Addr>, y: Addr, m: Addr, n: Addr)
    requires Unique(t) && y in Ids(t) && m in Ids(Sub(t, y)) && (LeftChild(t, m, n) || RightChild(t, m, n))
    ensures StrictlyBelow(t, y, n)
  {
    if t.id == y {
      ChildInside(t, m, n);
    } else {
      var c := if y in Ids(t.left) then t.left else t.right;
      SubIsSubtree(c, y);
      if t.id != m {
        BelowChild(c, y, m, n);
      }
    }
  }

  lemma {:induction false} BelowIsDeeper(t: Tree<Addr>, y: Addr, x: Addr)
    requires Unique(t) && StrictlyBelow(t, y, x)
    ensures x in Ids(t) && Depth(t, y) < Depth(t, x)
  {
    if t.id != y {
      var c := if y in Ids(t.left) then t.left else t.right;
      SubIsSubtree(c, y);
      BelowIsDeeper(c, y, x);
    }
  }

  lemma SelfInSub(t: Tree<Addr>, y: Addr)
    requires Unique(t) && y in Ids(t)
    ensures y in Ids(Sub(t, y))
  {
    SubIsSubtree(t, y);
  }

  /** Everything a remover holds is at or above the last node it has walked over. */
  lemma {:induction false} WalkedBelow(h: Heap<Addr>, t: Tree<Addr>, k: int, p: Addr, d: Addr, path: seq<Addr>, i: nat)
    requires TreeOk(h, HEAD, t) && Walking(h, t, k, p, d, path) && i < |path|
    ensures path[i] in Ids(Sub(t, p)) && path[i] in Ids(Sub(t, d)) && path[i] in Ids(Sub(t, path[0]))
  {
    LinkIsChild(h, HEAD, t, p, d);
    SelfInSub(t, p); SelfInSub(t, d);
    BelowChild(t, p, p, d);
    if i == 0 {
      LinkIsChild(h, HEAD, t, d, path[0]);
      SelfInSub(t, path[0]);
      BelowChild(t, d, d, path[0]);
      BelowChild(t, p, d, path[0]);
    } else {
      WalkedBelow(h, t, k, p, d, path, i - 1);
      LinkIsChild(h, HEAD, t, path[i - 1], path[i]);
      BelowChild(t, d, path[i - 1], path[i]);
      BelowChild(t, p, path[i - 1], path[i]);
      BelowChild(t, path[0], path[i - 1], path[i]);
    }
  }

  /** A requested lock is in the tree and strictly below every lock the thread holds. */
  lemma WantsBelowHeld(s: State, t: Tree<Addr>, tid: Tid, y: Addr)
    requires Inv(s, t) && tid in s.threads && Touches(s.threads[tid]) <= s.heap.Keys
    requires Wants(s.heap, s.threads[tid]).To?
    ensures Wants(s.heap, s.threads[tid]).id in Ids(t)
    ensures y in Held(s.threads[tid].pc) ==> StrictlyBelow(t, y, Wants(s.heap, s.threads[tid]).id)
  {
    assert ThreadOk(s.heap, t, s.threads[tid]);
    var th := s.threads[tid];
    var x := Wants(s.heap, th).id;
    match th.pc
    case Ready =>
    case At(cur) =>
      LinkBelow(s.heap, t, cur, x);
    case Hit(p, d) =>
      LinkBelow(s.heap, t, p, d);
      LinkBelow(s.heap, t, d, x);
      BelowChild(t, p, d, x);
    case Walk(p, d, path) =>
      WalkWantsBelow(s.heap, t, th.op.key, p, d, path, x);
  }

  lemma LinkBelow(h: Heap<Addr>, t: Tree<Addr>, m: Addr, n: Addr)
    requires TreeOk(h, HEAD, t) && m in Ids(t) && m in h && (h[m].left == To(n) || h[m].right == To(n))
    ensures n in Ids(t) && StrictlyBelow(t, m, n) && (LeftChild(t, m, n) || RightChild(t, m, n))
  {
    LinkIsChild(h, HEAD, t, m, n);
    SelfInSub(t, m);
    BelowChild(t, m, m, n);
  }

  lemma WalkWantsBelow(h: Heap<Addr>, t: Tree<Addr>, k: int, p: Addr, d: Addr, path: seq<Addr>, x: Addr)
    requires TreeOk(h, HEAD, t) && Walking(h, t, k, p, d, path) && AllDifferent(p, d, path)
    requires |path| > 0 && Last(path) in h && h[Last(path)].left == To(x)
    ensures x in Ids(t) && StrictlyBelow(t, p, x) && StrictlyBelow(t, d, x) && StrictlyBelow(t, path[0], x)
  {
    WalkedBelow(h, t, k, p, d, path, |path| - 1);
    LinkIsChild(h, HEAD, t, Last(path), x);
    BelowChild(t, p, Last(path), x);
    BelowChild(t, d, Last(path), x);
    BelowChild(t, path[0], Last(path), x);
  }

  /** No thread's next step touches a freed cell or lock. */
  lemma InvIsSafe(s: State, t: Tree<Addr>, tid: Tid)
    requires Inv(s, t) && tid in s.threads
    ensures Safe(s, s.threads[tid])
  {
    assert ThreadOk(s.heap, t, s.threads[tid]);
    var th := s.threads[tid];
    HeldInTree(s.heap, t, th);
    RepKeys(s.heap, To(HEAD), t);
    assert HEAD in Ids(t);
    assert Touches(th) <= s.heap.Keys by {
      match th.pc
      case Walk(p, d, path) => assert path[0] in path && Last(path) in path;
      case Splicing(p, d, path) =>
        assert path[0] in path && Last(path) in path;
        if |path| > 1 { assert path[|path| - 2] in path; }
      case Leaving(held) => if |held| > 0 { assert held[0] in held; }
      case _ =>
    }
    if Wants(s.heap, th).To? {
      WantsBelowHeld(s, t, tid, HEAD);
    }
  }

  lemma {:induction false} DepthBound(t: Tree<Addr>, x: Addr)
    requires x in Ids(t)
    ensures Depth(t, x) < Size(t)
  {
    if t.id != x {
      DepthBound(if x in Ids(t.left) then t.left else t.right, x);
    }
  }

  lemma HolderExists(s: State, tid: Tid, x: Addr) returns (b: Tid)
    requires LocksOk(s) && tid in s.threads && x in s.locks && !Grantable(s.locks[x], s.threads[tid].op)
    ensures b in s.threads && x in Held(s.threads[b].pc) && !(s.threads[b].op.Query? && s.threads[tid].op.Query?)
  {
    if s.locks[x].writers != {} {
      b :| b in s.locks[x].writers;
    } else {
      b :| b in s.locks[x].readers;
    }
  }

  /** A blocked thread waits for a holder; if that one is blocked too, it waits further down. */
  lemma {:induction false} FollowWaiting(s: State, t: Tree<Addr>, tid: Tid, x: Addr) returns (b: Tid)
    requires Inv(s, t) && tid in s.threads && x in Ids(t) && x in s.locks
    requires !Grantable(s.locks[x], s.threads[tid].op)
    ensures Enabled(s, b)
    decreases Size(t) - Depth(t, x)
  {
    assert ThreadOk(s.heap, t, s.threads[tid]);
    var c := HolderExists(s, tid, x);
    InvIsSafe(s, t, c);
    if Enabled(s, c) {
      b := c;
    } else {
      var x' := Wants(s.heap, s.threads[c]).id;
      WantsBelowHeld(s, t, c, x);
      BelowIsDeeper(t, x, x');
      DepthBound(t, x');
      b := FollowWaiting(s, t, c, x');
    }
  }

  /** From any unfinished thread one can follow the waiting to a thread that can step. */
  lemma SomeoneCanStep(s: State, t: Tree<Addr>, tid: Tid) returns (b: Tid)
    requires Inv(s, t) && tid in s.threads && s.threads[tid].pc != Finished
    ensures Enabled(s, b)
  {
    assert ThreadOk(s.heap, t, s.threads[tid]);
    InvIsSafe(s, t, tid);
    if Enabled(s, tid) {
      b := tid;
    } else {
      WantsBelowHeld(s, t, tid, HEAD);
      b := FollowWaiting(s, t, tid, Wants(s.heap, s.threads[tid]).id);
    }
  }

  /** A thread waits only for another that holds the lock it wants, and never a query for a query. */
  lemma OnlyConflictsBlock(s: State, t: Tree<Addr>, tid: Tid) returns (b: Tid)
    requires Inv(s, t) && tid in s.threads && s.threads[tid].pc != Finished && !Enabled(s, tid)
    ensures Safe(s, s.threads[tid]) && Wants(s.heap, s.threads[tid]).To?
    ensures b in s.threads && b != tid && Wants(s.heap, s.threads[tid]).id in Held(s.threads[b].pc)
    ensures !s.threads[b].op.Query? || !s.threads[tid].op.Query?
  {
    InvIsSafe(s, t, tid);
    var x := Wants(s.heap, s.threads[tid]).id;
    b := HolderExists(s, tid, x);
    WantsBelowHeld(s, t, tid, x);
    if b == tid {
      BelowIsDeeper(t, x, x);
    }
  }

  // ----- races -----

  /** The cells whose fields the next step reads. */
  ghost function Reads(s: State, th: Thread): set<Addr> {
    match th.pc
    case At(cur) => {cur}
    case Coupled(_, next) => {next}
    case Missed(cur) => if th.op.Add? then {cur} else {}
    case Hit(parent, target) => if th.op.Remove? then {parent, target} else {}
    case Reading(target) => {target}
    case Walk(_, dnode, path) => {dnode} + (if |path| > 0 then {Last(path)} else {})
    case WalkLocked(_, _, path, _) => if |path| > 0 then {Last(path)} else {}
    case Splicing(_, dnode, path) => {dnode} + Elems(path)
    case _ => {}
  }

  /** The cells that the next step writes or frees. */
  ghost function Writes(s: State, th: Thread): set<Addr> {
    match th.pc
    case Missed(cur) => if th.op.Add? then {cur} else {}
    case Hit(parent, target) => if th.op.Remove? then {parent} else {}
    case Splicing(_, dnode, path) => {dnode} + Elems(path)
    case Doomed(victim, _) => {victim}
    case _ => {}
  }

  /** The declared footprint is what a step really changes. */
  lemma WritesCover(s: State, tid: Tid, added: Addr, x: Addr)
    requires Enabled(s, tid) && added !in s.heap && x in s.heap && x !in Writes(s, s.threads[tid])
    ensures x in Do(s, tid, added).heap && Do(s, tid, added).heap[x] == s.heap[x]
  {
    var th := s.threads[tid];
    if th.pc.Splicing? && |th.pc.path| > 1 {
      assert th.pc.path[|th.pc.path| - 2] in Elems(th.pc.path);
    }
  }

  /** The cells that thread `tid` reads next are the same in both states. */
  ghost predicate SameReads(s: State, s2: State, tid: Tid) {
    && Enabled(s, tid) && Enabled(s2, tid) && s.threads[tid] == s2.threads[tid]
    && forall x :: x in Reads(s, s.threads[tid]) ==> x in s.heap && x in s2.heap && s.heap[x] == s2.heap[x]
  }

  ghost predicate SameThreadAfter(s: State, s2: State, tid: Tid, added: Addr)
    requires Enabled(s, tid) && Enabled(s2, tid) && added !in s.heap && added !in s2.heap
  {
    var s', s2' := Do(s, tid, added), Do(s2, tid, added);
    tid in s'.threads && tid in s2'.threads && s'.threads[tid] == s2'.threads[tid]
  }

  lemma SearchReads(s: State, s2: State, tid: Tid, added: Addr)
    requires SameReads(s, s2, tid) && added !in s.heap && added !in s2.heap
    requires var pc := s.threads[tid].pc; pc.At? || pc.Coupled? || pc.Reading?
    ensures SameThreadAfter(s, s2, tid, added)
  {
  }

  lemma WalkReads(s: State, s2: State, tid: Tid, added: Addr)
    requires SameReads(s, s2, tid) && added !in s.heap && added !in s2.heap
    requires s.threads[tid].pc.Hit? || s.threads[tid].pc.Walk?
    ensures SameThreadAfter(s, s2, tid, added)
  {
  }

  lemma OtherReads(s: State, s2: State, tid: Tid, added: Addr)
    requires SameReads(s, s2, tid) && added !in s.heap && added !in s2.heap
    requires var pc := s.threads[tid].pc; !(pc.At? || pc.Coupled? || pc.Reading? || pc.Hit? || pc.Walk?)
    ensures SameThreadAfter(s, s2, tid, added)
  {
  }

  /** A step depends on no other cell: where its thread goes ... */
  lemma ReadsDecideThread(s: State, s2: State, tid: Tid, added: Addr)
    requires SameReads(s, s2, tid) && added !in s.heap && added !in s2.heap
    ensures SameThreadAfter(s, s2, tid, added)
  {
    var pc := s.threads[tid].pc;
    if pc.At? || pc.Coupled? || pc.Reading? {
      SearchReads(s, s2, tid, added);
    } else if pc.Hit? || pc.Walk? {
      WalkReads(s, s2, tid, added);
    } else {
      OtherReads(s, s2, tid, added);
    }
  }

  /** ... and what it writes is a function of the cells it reads. */
  lemma ReadsDecideWrites(s: State, s2: State, tid: Tid, added: Addr, x: Addr)
    requires SameReads(s, s2, tid) && added !in s.heap && added !in s2.heap
    requires x in Writes(s, s.threads[tid]) || x == added
    ensures var h, h2 := Do(s, tid, added).heap, Do(s2, tid, added).heap;
      (x in h <==> x in h2) && (x in h ==> h[x] == h2[x])
  {
    var th := s.threads[tid];
    if th.pc.Splicing? {
      SpliceReads(s.heap, s2.heap, th.pc.dnode, th.pc.path, x);
    }
  }

  lemma SpliceReads(h: Heap<Addr>, h2: Heap<Addr>, d: Addr, path: seq<Addr>, x: Addr)
    requires |path| > 0 && d in h && d in h2 && h[d] == h2[d] && (x in h <==> x in h2) && (x in h ==> h[x] == h2[x])
    requires forall y :: y in Elems(path) ==> y in h && y in h2 && h[y] == h2[y]
    ensures Last(path) in h && (|path| > 1 ==> path[|path| - 2] in h)
    ensures var g, g2 := SpliceHeap(h, d, path), SpliceHeap(h2, d, path);
      (x in g <==> x in g2) && (x in g ==> g[x] == g2[x])
  {
    assert Last(path) in Elems(path);
    if |path| > 1 {
      assert path[|path| - 2] in Elems(path);
    }
  }

  lemma NoRace(s: State, t: Tree<Addr>, a: Tid, b: Tid)
    requires Inv(s, t) && a in s.threads && b in s.threads && a != b
    ensures Writes(s, s.threads[a]) !! Reads(s, s.threads[b]) + Writes(s, s.threads[b])
  {
    var x, y := s.threads[a], s.threads[b];
    assert Apart(x, y);
    HeldInTree(s.heap, t, x);
    HeldInTree(s.heap, t, y);
    WithinReach(s, t, a);
    WithinReach(s, t, b);
  }

  lemma WithinReach(s: State, t: Tree<Addr>, a: Tid)
    requires Inv(s, t) && a in s.threads
    ensures Reads(s, s.threads[a]) <= Held(s.threads[a].pc) + Walked(s.threads[a].pc)
    ensures Writes(s, s.threads[a]) <= Held(s.threads[a].pc) + Walked(s.threads[a].pc) + Victim(s.threads[a].pc)
    ensures Writes(s, s.threads[a]) != {} ==> !s.threads[a].op.Query?
  {
    assert ThreadOk(s.heap, t, s.threads[a]);
  }

  // ----- whole runs -----

  /** Which nodes a thread knows: the ones it holds, walked over, took out or waits for. */
  ghost function Knows(s: State, th: Thread): set<Addr> {
    Held(th.pc) + Walked(th.pc) + Victim(th.pc) +
    (if Touches(th) <= s.heap.Keys && Wants(s.heap, th).To? then {Wants(s.heap, th).id} else {})
  }

  lemma FreedIsPrivate(s: State, t: Tree<Addr>, a: Tid, b: Tid)
    requires Inv(s, t) && a in s.threads && b in s.threads && a != b
    requires s.threads[a].pc.Doomed?
    ensures s.threads[a].pc.victim !in Knows(s, s.threads[b])
  {
    assert Apart(s.threads[a], s.threads[b]);
    HeldInTree(s.heap, t, s.threads[a]);
    HeldInTree(s.heap, t, s.threads[b]);
    if Touches(s.threads[b]) <= s.heap.Keys && Wants(s.heap, s.threads[b]).To? {
      WantsBelowHeld(s, t, b, HEAD);
    }
  }

  ghost predicate MemorySafe(s: State) {
    forall a :: a in s.threads ==> Safe(s, s.threads[a])
  }

  ghost predicate RaceFree(s: State) {
    forall a, b :: a in s.threads && b in s.threads && a != b ==>
      Writes(s, s.threads[a]) !! Reads(s, s.threads[b]) + Writes(s, s.threads[b])
  }

  ghost predicate FreesArePrivate(s: State) {
    forall a, b :: a in s.threads && b in s.threads && a != b && s.threads[a].pc.Doomed? ==>
      s.threads[a].pc.victim !in Knows(s, s.threads[b])
  }

  ghost predicate NoLockLeft(s: State) {
    forall a, x :: a in s.threads && s.threads[a].pc == Finished && x in s.locks ==>
      a !in s.locks[x].readers && a !in s.locks[x].writers
  }

  ghost predicate NotStuck(s: State) {
    (exists a :: a in s.threads && s.threads[a].pc != Finished) ==> exists b :: Enabled(s, b)
  }

  lemma InvIsRaceFree(s: State, t: Tree<Addr>)
    requires Inv(s, t)
    ensures RaceFree(s) && FreesArePrivate(s)
  {
    forall a, b | a in s.threads && b in s.threads && a != b
      ensures Writes(s, s.threads[a]) !! Reads(s, s.threads[b]) + Writes(s, s.threads[b])
    {
      NoRace(s, t, a, b);
    }
    forall a, b | a in s.threads && b in s.threads && a != b && s.threads[a].pc.Doomed?
      ensures s.threads[a].pc.victim !in Knows(s, s.threads[b])
    {
      FreedIsPrivate(s, t, a, b);
    }
  }

  lemma InvIsNotStuck(s: State, t: Tree<Addr>)
    requires Inv(s, t)
    ensures MemorySafe(s) && NotStuck(s)
  {
    forall a | a in s.threads ensures Safe(s, s.threads[a]) {
      InvIsSafe(s, t, a);
    }
    if a :| a in s.threads && s.threads[a].pc != Finished {
      var b := SomeoneCanStep(s, t, a);
    }
  }

  lemma {:induction false} RunKeepsInv(ss: seq<State>, i: nat) returns (t: Tree<Addr>)
    requires Run(ss) && i < |ss|
    ensures Inv(ss[i], t)
  {
    if i == 0 {
      InitInv(ss[0]);
      t := HeadOnly();
    } else {
      var t0 := RunKeepsInv(ss, i - 1);
      var s := ss[i - 1];
      assert RunStep(ss, i);
      if tid, op: Op :| tid !in s.threads && op.key > 0 && ss[i] == Call(s, tid, op) {
        CallKeepsInv(s, t0, tid, op);
        t := t0;
      } else {
        var tid, added :| Enabled(s, tid) && added !in s.heap && ss[i] == Do(s, tid, added);
        StepKeepsInv(s, t0, tid, added);
        t := TreeAfter(s, t0, tid, added);
      }
    }
  }

  /** In every state of every run: memory safety, race freedom, private frees, no stuck state, no lock left behind. */
  lemma RunsAreSafe(ss: seq<State>, i: nat)
    requires Run(ss) && i < |ss|
    ensures MemorySafe(ss[i]) && RaceFree(ss[i]) && FreesArePrivate(ss[i])
    ensures NotStuck(ss[i]) && NoLockLeft(ss[i])
  {
    var t := RunKeepsInv(ss, i);
    InvIsRaceFree(ss[i], t);
    InvIsNotStuck(ss[i], t);
  }

  /** When every operation has finished, every lock is free and every cell belongs to the tree. */
  lemma QuiescentIsClean(ss: seq<State>, i: nat) returns (t: Tree<Addr>)
    requires Run(ss) && i < |ss|
    requires forall a :: a in ss[i].threads ==> ss[i].threads[a].pc == Finished
    ensures Rep(ss[i].heap, To(HEAD), t) && Sorted(t) && Unique(t) && ss[i].heap.Keys == Ids(t)
    ensures forall x :: x in ss[i].locks ==> ss[i].locks[x] == Lock({}, {})
  {
    t := RunKeepsInv(ss, i);
    var s := ss[i];
    RepKeys(s.heap, To(HEAD), t);
    forall x | x in s.locks ensures s.locks[x] == Lock({}, {}) {
      assert forall a :: a !in s.locks[x].readers;
      assert forall a :: a !in s.locks[x].writers;
    }
  }
}
