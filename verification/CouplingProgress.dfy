/**
 Every set of calls on the concurrent database finishes, whatever the scheduler does: a run
 with c calls has at most 2c^2 + 8c + 1 states, and a run that cannot go on has finished all
 of them.  A thread's remaining work is bounded by the size of the subtree it is searching;
 an addition by another thread may enlarge it by one node, but then one addition fewer is
 outstanding.
 */
module CouplingProgress {
  import opened SearchTree
  import opened TreeEdits
  import opened TreeSizes
  import opened NodeHeap
  import opened HeapEdits
  import opened LockCoupling
  import opened CouplingInvariant
  import opened CouplingSafety
  import opened Linearizability

  // ----- sums over the history -----

  ghost function Total(f: Event -> nat, trace: seq<Event>): nat {
    if trace == [] then 0 else Total(f, trace[..|trace| - 1]) + f(trace[|trace| - 1])
  }

  lemma TotalAppend(f: Event -> nat, trace: seq<Event>, e: Event)
    ensures Total(f, trace + [e]) == Total(f, trace) + f(e)
  {
    assert (trace + [e])[..|trace|] == trace;
  }

  lemma {:induction false} TotalMonotone(f: Event -> nat, g: Event -> nat, trace: seq<Event>)
    requires forall e :: e in trace ==> g(e) <= f(e)
    ensures Total(g, trace) <= Total(f, trace)
  {
    if trace != [] {
      TotalMonotone(f, g, trace[..|trace| - 1]);
    }
  }

  lemma {:induction false} TotalFalls(f: Event -> nat, g: Event -> nat, trace: seq<Event>, e: Event)
    requires (forall e :: e in trace ==> g(e) <= f(e)) && e in trace && g(e) < f(e)
    ensures Total(g, trace) < Total(f, trace)
  {
    var init, last := trace[..|trace| - 1], trace[|trace| - 1];
    if e in init {
      TotalFalls(f, g, init, e);
    } else {
      assert trace == init + [last];
      TotalMonotone(f, g, init);
    }
  }

  /** The number of calls so far. */
  ghost function Calls(trace: seq<Event>): nat {
    Total((e: Event) => if e.Invoke? then 1 else 0, trace)
  }

  lemma {:induction false} TotalShift(f: Event -> nat, g: Event -> nat, trace: seq<Event>)
    requires forall e :: e in trace ==> g(e) <= f(e) + if e.Invoke? then 2 else 0
    ensures Total(g, trace) <= Total(f, trace) + 2 * Calls(trace)
  {
    if trace != [] {
      var init, last := trace[..|trace| - 1], trace[|trace| - 1];
      TotalShift(f, g, init);
      assert Calls(trace) == Calls(init) + if last.Invoke? then 1 else 0;
    }
  }

  // ----- the work that is left -----

  /** An addition that has not taken effect yet. */
  predicate Pending(th: Thread) {
    th.op.Add? && th.res.None?
  }

  ghost function PendingAt(threads: map<Tid, Thread>): Event -> nat {
    (e: Event) => if e.Invoke? && e.tid in threads && Pending(threads[e.tid]) then 1 else 0
  }

  ghost function Adds(s: State): nat {
    Total(PendingAt(s.threads), s.trace)
  }

  /** A bound on the steps that a thread has left, if `adds` more nodes may come below it. */
  ghost function Cost(t: Tree<Addr>, th: Thread, adds: nat): nat {
    match th.pc
    case Ready => 2 * (Size(t) + adds) + 5
    case At(cur) => 2 * (Size(Sub(t, cur)) + adds) + 4
    case Coupled(_, next) => 2 * (Size(Sub(t, next)) + adds) + 5
    case Missed(_) => 3
    case Hit(_, target) => 2 * (Size(Sub(t, target)) + adds) + 4
    case Reading(_) => 3
    case Walk(_, _, path) => if path == [] then 0 else 2 * (Size(Sub(t, Last(path))) + adds) + 5
    case WalkLocked(_, _, _, nextl) => 2 * (Size(Sub(t, nextl)) + adds) + 6
    case Splicing(_, _, _) => 5
    case Unlinked(_, _) => 4
    case Doomed(_, held) => |held| + 2
    case Leaving(held) => |held| + 1
    case Finished => 0
  }

  ghost function CostAt(t: Tree<Addr>, threads: map<Tid, Thread>, adds: nat): Event -> nat {
    (e: Event) => if e.Invoke? && e.tid in threads then Cost(t, threads[e.tid], adds) else 0
  }

  ghost function Work(s: State, t: Tree<Addr>): nat {
    Total(CostAt(t, s.threads, Adds(s)), s.trace)
  }

  // ----- one step -----

  lemma ChildSmaller(h: Heap<Addr>, t: Tree<Addr>, m: Addr, n: Addr)
    requires TreeOk(h, HEAD, t) && m in Ids(t) && m in h && (h[m].left == To(n) || h[m].right == To(n))
    ensures Size(Sub(t, n)) < Size(Sub(t, m))
  {
    LinkIsChild(h, HEAD, t, m, n);
    ChildSub(t, m, n);
  }

  lemma InTreeHasSize(t: Tree<Addr>, x: Addr)
    requires Unique(t) && x in Ids(t)
    ensures Size(Sub(t, x)) >= 1
  {
    SubIsSubtree(t, x);
  }

  /** A step uses up work of its own thread. */
  ghost predicate Falls(s: State, t: Tree<Addr>, tid: Tid, added: Addr, adds: nat, adds': nat)
    requires Enabled(s, tid) && added !in s.heap
  {
    Cost(TreeAfter(s, t, tid, added), Do(s, tid, added).threads[tid], adds') < Cost(t, s.threads[tid], adds)
  }

  lemma SearchFalls(s: State, t: Tree<Addr>, tid: Tid, added: Addr, adds: nat, adds': nat)
    requires Enabled(s, tid) && added !in s.heap && adds' <= adds && s.threads[tid].pc.At?
    requires TreeOk(s.heap, HEAD, t) && s.threads[tid].pc.cur in Ids(t) && s.threads[tid].pc.cur in s.heap
    ensures Falls(s, t, tid, added, adds, adds')
  {
    var th := s.threads[tid];
    var cur := th.pc.cur;
    InTreeHasSize(t, cur);
    if LinkToward(s.heap[cur], th.op.key).To? {
      ChildSmaller(s.heap, t, cur, LinkToward(s.heap[cur], th.op.key).id);
    }
  }

  lemma HitFalls(s: State, t: Tree<Addr>, tid: Tid, added: Addr, adds: nat, adds': nat)
    requires Enabled(s, tid) && added !in s.heap && adds' <= adds && s.threads[tid].pc.Hit?
    requires TreeOk(s.heap, HEAD, t) && s.threads[tid].pc.target in Ids(t) && s.threads[tid].pc.target in s.heap
    ensures Falls(s, t, tid, added, adds, adds')
  {
    var th := s.threads[tid];
    var d := th.pc.target;
    InTreeHasSize(t, d);
    if th.op.Remove? && s.heap[d].right.To? {
      ChildSmaller(s.heap, t, d, s.heap[d].right.id);
    }
  }

  lemma WalkFalls(s: State, t: Tree<Addr>, tid: Tid, added: Addr, adds: nat, adds': nat)
    requires Enabled(s, tid) && added !in s.heap && adds' <= adds && s.threads[tid].pc.Walk?
    requires var path := s.threads[tid].pc.path;
      TreeOk(s.heap, HEAD, t) && |path| > 0 && Last(path) in Ids(t) && Last(path) in s.heap
    ensures Falls(s, t, tid, added, adds, adds')
  {
    var th := s.threads[tid];
    var m := Last(th.pc.path);
    InTreeHasSize(t, m);
    if s.heap[m].left.To? {
      ChildSmaller(s.heap, t, m, s.heap[m].left.id);
    }
  }

  lemma SimpleFalls(s: State, t: Tree<Addr>, tid: Tid, added: Addr, adds: nat, adds': nat)
    requires Enabled(s, tid) && added !in s.heap && adds' <= adds
    requires TreeOk(s.heap, HEAD, t) && ThreadOk(s.heap, t, s.threads[tid])
    requires var pc := s.threads[tid].pc; pc.Ready? || pc.Coupled? || pc.Missed? || pc.Reading?
    ensures Falls(s, t, tid, added, adds, adds')
  {
  }

  lemma LateFalls(s: State, t: Tree<Addr>, tid: Tid, added: Addr, adds: nat, adds': nat)
    requires Enabled(s, tid) && added !in s.heap && adds' <= adds
    requires var pc := s.threads[tid].pc;
      pc.WalkLocked? || pc.Splicing? || pc.Unlinked? || pc.Doomed? || pc.Leaving?
    ensures Falls(s, t, tid, added, adds, adds')
  {
  }

  lemma OwnCostFalls(s: State, t: Tree<Addr>, tid: Tid, added: Addr, adds: nat, adds': nat)
    requires Inv(s, t) && Enabled(s, tid) && added !in s.heap && adds' <= adds
    ensures Falls(s, t, tid, added, adds, adds')
  {
    assert ThreadOk(s.heap, t, s.threads[tid]);
    var pc := s.threads[tid].pc;
    if pc.At? {
      SearchFalls(s, t, tid, added, adds, adds');
    } else if pc.Hit? {
      HitFalls(s, t, tid, added, adds, adds');
    } else if pc.Walk? {
      assert Last(pc.path) in pc.path;
      WalkFalls(s, t, tid, added, adds, adds');
    } else if pc.Ready? || pc.Coupled? || pc.Missed? || pc.Reading? {
      SimpleFalls(s, t, tid, added, adds, adds');
    } else {
      LateFalls(s, t, tid, added, adds, adds');
    }
  }

  /** The step that links a new node. */
  predicate Adding(th: Thread) {
    th.pc.Missed? && th.op.Add?
  }

  /** Below a node that another thread is at, a step leaves no more nodes than were there, but for one it adds. */
  lemma StepGrows(s: State, t: Tree<Addr>, tid: Tid, added: Addr, x: Addr)
    requires Inv(s, t) && Enabled(s, tid) && added !in s.heap && x in Ids(t) && x in Ids(TreeAfter(s, t, tid, added))
    ensures var t', one := TreeAfter(s, t, tid, added), if Adding(s.threads[tid]) then 1 else 0;
      Size(t') <= Size(t) + one && Size(Sub(t', x)) <= Size(Sub(t, x)) + one
  {
    var th := s.threads[tid];
    var k := th.op.key;
    assert ThreadOk(s.heap, t, th);
    if Adding(th) {
      AddTree(s.heap, HEAD, t, th.pc.cur, k, th.op.value, added);
      GraftGrows(t, th.pc.cur, k, th.op.value, added, x);
    } else if th.pc.Hit? && th.op.Remove? && (s.heap[th.pc.target].left == Null || s.heap[th.pc.target].right == Null) {
      UnlinkTree(s.heap, HEAD, t, k, th.pc.parent, th.pc.target);
      UnlinkShrinks(t, th.pc.parent, k, th.pc.target, x);
    } else if th.pc.Splicing? {
      SpliceFound(s.heap, HEAD, t, k, th.pc.parent, th.pc.dnode, th.pc.path);
      SpliceShape(t, k, th.pc.dnode);
      SpliceShrinks(t, k, th.pc.dnode, x);
    }
  }

  /** A step leaves no more work to any other thread. */
  lemma OthersCost(s: State, t: Tree<Addr>, tid: Tid, added: Addr, b: Tid, adds: nat, adds': nat)
    requires Inv(s, t) && Enabled(s, tid) && added !in s.heap && b in s.threads && b != tid
    requires adds' + (if Adding(s.threads[tid]) then 1 else 0) <= adds
    ensures Cost(TreeAfter(s, t, tid, added), s.threads[b], adds') <= Cost(t, s.threads[b], adds)
  {
    var t', y := TreeAfter(s, t, tid, added), s.threads[b];
    StepKeepsInv(s, t, tid, added);
    SameThread(s, tid, added, b);
    assert ThreadOk(s.heap, t, y) && ThreadOk(Do(s, tid, added).heap, t', y);
    match y.pc
    case Ready => StepGrows(s, t, tid, added, HEAD);
    case At(cur) => StepGrows(s, t, tid, added, cur);
    case Coupled(_, next) => StepGrows(s, t, tid, added, next);
    case Hit(_, target) => StepGrows(s, t, tid, added, target);
    case Walk(_, _, path) =>
      assert Last(path) in path;
      StepGrows(s, t, tid, added, Last(path));
    case WalkLocked(_, _, _, nextl) => StepGrows(s, t, tid, added, nextl);
    case _ =>
  }

  lemma SameThread(s: State, tid: Tid, added: Addr, b: Tid)
    requires Enabled(s, tid) && added !in s.heap && b in s.threads && b != tid
    ensures var s' := Do(s, tid, added); b in s'.threads && s'.threads[b] == s.threads[b]
  {
  }

  /** The history grows by nothing or by a return. */
  lemma StepTrace(s: State, tid: Tid, added: Addr)
    requires Enabled(s, tid) && added !in s.heap
    ensures var s', th := Do(s, tid, added), s.threads[tid];
      && s'.threads.Keys == s.threads.Keys && s'.threads[tid].op == th.op
      && (th.res.Some? ==> s'.threads[tid].res.Some?) && (Adding(th) ==> s'.threads[tid].res.Some?)
      && (s'.trace == s.trace || exists r :: s'.trace == s.trace + [Return(tid, r)])
  {
    var s', th := Do(s, tid, added), s.threads[tid];
    if th.pc.Leaving? && th.pc.held == [] && th.res.Some? {
      assert s'.trace == s.trace + [Return(tid, th.res.value)];
    }
  }

  /** Returns weigh nothing. */
  lemma TotalOfStep(f: Event -> nat, s: State, tid: Tid, added: Addr)
    requires Enabled(s, tid) && added !in s.heap && forall e: Event :: e.Return? ==> f(e) == 0
    ensures Total(f, Do(s, tid, added).trace) == Total(f, s.trace)
  {
    StepTrace(s, tid, added);
    if Do(s, tid, added).trace != s.trace {
      var r :| Do(s, tid, added).trace == s.trace + [Return(tid, r)];
      TotalAppend(f, s.trace, Return(tid, r));
    }
  }

  lemma AddsFall(s: State, tid: Tid, added: Addr)
    requires HistoryOk(s) && Enabled(s, tid) && added !in s.heap
    ensures Adds(Do(s, tid, added)) + (if Adding(s.threads[tid]) then 1 else 0) <= Adds(s)
  {
    var s', th := Do(s, tid, added), s.threads[tid];
    var f, g := PendingAt(s.threads), PendingAt(s'.threads);
    assert ThreadLogged(s, tid);
    StepTrace(s, tid, added);
    TotalOfStep(g, s, tid, added);
    forall e | e in s.trace ensures g(e) <= f(e) {
      if e.tid != tid && e.tid in s.threads { SameThread(s, tid, added, e.tid); }
    }
    if Adding(th) {
      TotalFalls(f, g, s.trace, Invoke(tid, th.op));
    } else {
      TotalMonotone(f, g, s.trace);
    }
  }

  /** Every step uses up work. */
  lemma WorkFalls(s: State, t: Tree<Addr>, tid: Tid, added: Addr)
    requires Inv(s, t) && HistoryOk(s) && Enabled(s, tid) && added !in s.heap
    ensures Work(Do(s, tid, added), TreeAfter(s, t, tid, added)) < Work(s, t)
  {
    var s', t' := Do(s, tid, added), TreeAfter(s, t, tid, added);
    var a, a' := Adds(s), Adds(s');
    var f, g := CostAt(t, s.threads, a), CostAt(t', s'.threads, a');
    AddsFall(s, tid, added);
    StepTrace(s, tid, added);
    TotalOfStep(g, s, tid, added);
    OwnCostFalls(s, t, tid, added, a, a');
    assert ThreadLogged(s, tid);
    forall e | e in s.trace ensures g(e) <= f(e) {
      if e.tid != tid && e.tid in s.threads {
        SameThread(s, tid, added, e.tid);
        OthersCost(s, t, tid, added, e.tid, a, a');
      }
    }
    TotalFalls(f, g, s.trace, Invoke(tid, s.threads[tid].op));
  }

  // ----- calls -----

  lemma CallAdds(s: State, tid: Tid, op: Op)
    requires tid !in s.threads && forall i :: 0 <= i < |s.trace| ==> s.trace[i].tid in s.threads
    ensures Adds(Call(s, tid, op)) <= Adds(s) + 1
  {
    var f, g := PendingAt(s.threads), PendingAt(Call(s, tid, op).threads);
    TotalAppend(g, s.trace, Invoke(tid, op));
    forall e | e in s.trace ensures g(e) <= f(e) {
      assert e.tid != tid;
    }
    TotalMonotone(f, g, s.trace);
  }

  lemma CallCounts(trace: seq<Event>, tid: Tid, op: Op)
    ensures Calls(trace + [Invoke(tid, op)]) == Calls(trace) + 1
  {
    TotalAppend((e: Event) => if e.Invoke? then 1 else 0, trace, Invoke(tid, op));
  }

  lemma TraceTids(s: State)
    requires HistoryOk(s)
    ensures forall i :: 0 <= i < |s.trace| ==> s.trace[i].tid in s.threads
  {
    forall i | 0 <= i < |s.trace| ensures s.trace[i].tid in s.threads {
      assert EventOk(s, s.trace[i]);
    }
  }

  lemma CostGrows(t: Tree<Addr>, th: Thread, adds: nat, adds': nat)
    requires adds' <= adds + 1
    ensures Cost(t, th, adds') <= Cost(t, th, adds) + 2
  {
  }

  /** A call adds its own work and may make room for one more node below the others. */
  lemma CallWork(s: State, t: Tree<Addr>, tid: Tid, op: Op)
    requires HistoryOk(s) && tid !in s.threads && Size(t) + Adds(s) <= Calls(s.trace) + 1
    ensures Work(Call(s, tid, op), t) <= Work(s, t) + 4 * Calls(s.trace) + 9
  {
    var s', c := Call(s, tid, op), Calls(s.trace);
    TraceTids(s);
    CallAdds(s, tid, op);
    var f, g := CostAt(t, s.threads, Adds(s)), CostAt(t, s'.threads, Adds(s'));
    forall e | e in s.trace ensures g(e) <= f(e) + if e.Invoke? then 2 else 0 {
      if e.tid in s.threads { CostGrows(t, s.threads[e.tid], Adds(s), Adds(s')); }
    }
    TotalShift(f, g, s.trace);
    TotalAppend(g, s.trace, Invoke(tid, op));
  }

  // ----- whole runs -----

  function Bound(c: nat): nat { 2 * c * c + 8 * c }

  /** After i steps the work that is left is within the bound. */
  ghost predicate Within(s: State, t: Tree<Addr>, i: nat) {
    Size(t) + Adds(s) <= Calls(s.trace) + 1 && i + Work(s, t) <= Bound(Calls(s.trace))
  }

  lemma StepKeepsWithin(s: State, t: Tree<Addr>, tid: Tid, added: Addr, i: nat)
    requires Inv(s, t) && HistoryOk(s) && Enabled(s, tid) && added !in s.heap && Within(s, t, i)
    ensures Within(Do(s, tid, added), TreeAfter(s, t, tid, added), i + 1)
  {
    WorkFalls(s, t, tid, added);
    AddsFall(s, tid, added);
    StepKeepsInv(s, t, tid, added);
    StepGrows(s, t, tid, added, HEAD);
    TotalOfStep((e: Event) => if e.Invoke? then 1 else 0, s, tid, added);
  }

  lemma CallKeepsWithin(s: State, t: Tree<Addr>, tid: Tid, op: Op, i: nat)
    requires HistoryOk(s) && tid !in s.threads && Within(s, t, i)
    ensures Within(Call(s, tid, op), t, i + 1)
  {
    var c := Calls(s.trace);
    TraceTids(s);
    CallAdds(s, tid, op);
    CallCounts(s.trace, tid, op);
    CallWork(s, t, tid, op);
    BoundNext(c);
  }

  lemma BoundNext(c: nat)
    ensures Bound(c + 1) == Bound(c) + 4 * c + 10
  {
  }

  ghost predicate Good(s: State, t: Tree<Addr>, i: nat) {
    Inv(s, t) && LogOk(s, t) && HistoryOk(s) && Within(s, t, i)
  }

  lemma NextIsGood(s: State, t: Tree<Addr>, i: nat, s': State) returns (t': Tree<Addr>)
    requires Good(s, t, i) && Next(s, s')
    ensures Good(s', t', i + 1)
  {
    if tid, op: Op :| tid !in s.threads && op.key > 0 && s' == Call(s, tid, op) {
      CallKeepsInv(s, t, tid, op);
      CallHistory(s, tid, op);
      CallKeepsWithin(s, t, tid, op, i);
      t' := t;
    } else {
      var tid, added :| Enabled(s, tid) && added !in s.heap && s' == Do(s, tid, added);
      StepKeepsInv(s, t, tid, added);
      StepKeepsHistory(s, t, tid, added);
      StepKeepsWithin(s, t, tid, added, i);
      t' := TreeAfter(s, t, tid, added);
    }
  }

  lemma InitIsGood(s: State)
    requires Init(s)
    ensures Good(s, HeadOnly(), 0)
  {
    InitInv(s);
    assert Visible(HeadOnly()) == map[];
  }

  lemma {:induction false} RunIsGood(ss: seq<State>, i: nat) returns (t: Tree<Addr>)
    requires Run(ss) && i < |ss|
    ensures Good(ss[i], t, i)
  {
    if i == 0 {
      InitIsGood(ss[0]);
      t := HeadOnly();
    } else {
      var t0 := RunIsGood(ss, i - 1);
      assert RunStep(ss, i);
      t := NextIsGood(ss[i - 1], t0, i - 1, ss[i]);
    }
  }

  /** A run with c calls has at most Bound(c) steps, however the threads are scheduled. */
  lemma RunsAreBounded(ss: seq<State>)
    requires Run(ss)
    ensures |ss| <= Bound(Calls(ss[|ss| - 1].trace)) + 1
  {
    var t := RunIsGood(ss, |ss| - 1);
  }

  predicate AllFinished(s: State) {
    forall a :: a in s.threads ==> s.threads[a].pc == Finished
  }

  ghost predicate Stopped(s: State) {
    forall b :: !Enabled(s, b)
  }

  /** A run that no thread can continue has finished every operation. */
  lemma StoppedMeansFinished(ss: seq<State>)
    requires Run(ss) && Stopped(ss[|ss| - 1])
    ensures AllFinished(ss[|ss| - 1])
  {
    RunsAreSafe(ss, |ss| - 1);
  }

  /** Every call has its return. */
  ghost predicate AllReturned(trace: seq<Event>) {
    forall c :: 0 <= c < |trace| && trace[c].Invoke? ==> ReturnedAfter(trace, c)
  }

  ghost predicate ReturnedAfter(trace: seq<Event>, c: int)
    requires 0 <= c < |trace|
  {
    exists j :: c < j < |trace| && trace[j].Return? && trace[j].tid == trace[c].tid
  }

  lemma FinishedMeansReturned(ss: seq<State>)
    requires Run(ss) && AllFinished(ss[|ss| - 1])
    ensures AllReturned(ss[|ss| - 1].trace)
  {
    var s := ss[|ss| - 1];
    var t := RunKeepsHistory(ss, |ss| - 1);
    forall c | 0 <= c < |s.trace| && s.trace[c].Invoke? ensures ReturnedAfter(s.trace, c) {
      assert EventOk(s, s.trace[c]);
      var c', j, n := FinishedReturns(ss, |ss| - 1, s.trace[c].tid);
      assert c' == c;
    }
  }

  /** So every run, continued without further calls in any way until it stops, answers all its calls. */
  lemma {:induction false} RunsFinish(ss: seq<State>) returns (done: seq<State>)
    requires Run(ss)
    ensures Run(done) && ss <= done && AllFinished(done[|done| - 1]) && AllReturned(done[|done| - 1].trace)
    ensures Calls(done[|done| - 1].trace) == Calls(ss[|ss| - 1].trace)
    decreases Bound(Calls(ss[|ss| - 1].trace)) + 1 - |ss|
  {
    var s := ss[|ss| - 1];
    if Stopped(s) {
      StoppedMeansFinished(ss);
      FinishedMeansReturned(ss);
      done := ss;
    } else {
      var b :| Enabled(s, b);
      var longer := OneMoreStep(ss, b);
      done := RunsFinish(longer);
    }
  }

  lemma OneMoreStep(ss: seq<State>, b: Tid) returns (longer: seq<State>)
    requires Run(ss) && Enabled(ss[|ss| - 1], b)
    ensures Run(longer) && ss <= longer && |longer| == |ss| + 1
    ensures Calls(longer[|ss|].trace) == Calls(ss[|ss| - 1].trace) && |longer| <= Bound(Calls(longer[|ss|].trace)) + 1
  {
    var s := ss[|ss| - 1];
    var added := AboveAll(s.heap.Keys);
    longer := ss + [Do(s, b, added)];
    RunExtends(ss, b, added);
    TotalOfStep((e: Event) => if e.Invoke? then 1 else 0, s, b, added);
    RunsAreBounded(longer);
  }

  /** There is always an address that `malloc` may return. */
  lemma {:induction false} AboveAll(used: set<Addr>) returns (a: Addr)
    ensures forall x :: x in used ==> x < a
    decreases used
  {
    if used == {} {
      a := 0;
    } else {
      var x :| x in used;
      var b := AboveAll(used - {x});
      a := if b > x then b else x + 1;
      assert forall y :: y in used ==> y == x || y in used - {x};
    }
  }

  lemma RunExtends(ss: seq<State>, b: Tid, added: Addr)
    requires Run(ss) && Enabled(ss[|ss| - 1], b) && added !in ss[|ss| - 1].heap
    ensures Run(ss + [Do(ss[|ss| - 1], b, added)])
  {
    var longer := ss + [Do(ss[|ss| - 1], b, added)];
    forall i | 0 < i < |longer| ensures RunStep(longer, i) {
      if i < |ss| { assert RunStep(ss, i); }
    }
  }
}
