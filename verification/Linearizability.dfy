/**
 Linearizability of the concurrent database: in every run, the calls and returns that
 clients see are explained by one serial order of the operations on a map, an order that
 agrees with real time.
 */
module Linearizability {
  import opened SearchTree
  import opened TreeEdits
  import opened NodeHeap
  import opened HeapEdits
  import opened LockCoupling
  import opened CouplingInvariant
  import opened CouplingSafety

  // ----- the serial specification: a map from names to values -----

  function Effect(m: map<int, string>, op: Op): map<int, string> {
    match op
    case Query(_) => m
    case Add(k, v) => if k in m then m else m[k := v]
    case Remove(k) => m - {k}
  }

  function Answer(m: map<int, string>, op: Op): Result {
    match op
    case Query(k) => if k in m then Text(m[k]) else NotFound
    case Add(k, _) => Flag(k !in m)
    case Remove(k) => Flag(k in m)
  }

  /** The map after the operations of a serial order. */
  ghost function Replay(order: seq<Entry>): map<int, string> {
    if order == [] then map[] else Effect(Replay(order[..|order| - 1]), order[|order| - 1].op)
  }

  /** Every result is the one the map gives at that point. */
  ghost predicate Legal(order: seq<Entry>) {
    forall i :: 0 <= i < |order| ==> order[i].res == Answer(Replay(order[..i]), order[i].op)
  }

  /** `a` is among the first `n` of the order. */
  ghost predicate Before(order: seq<Entry>, n: int, a: Tid) {
    exists m :: 0 <= m < n && m < |order| && order[m].tid == a
  }

  ghost predicate Once(order: seq<Entry>) {
    forall i, j :: 0 <= i < j < |order| ==> order[i].tid != order[j].tid
  }

  /** Whoever returned before another was called comes first. */
  ghost predicate RealTime(order: seq<Entry>, trace: seq<Event>) {
    forall i, j, n ::
      (0 <= i < j < |trace| && trace[i].Return? && trace[j].Invoke? && 0 <= n < |order| && order[n].tid == trace[j].tid)
      ==> Before(order, n, trace[i].tid)
  }

  /** The serial order accounts for all that the clients saw. */
  ghost predicate Explains(order: seq<Entry>, trace: seq<Event>) {
    && Legal(order) && Once(order)
    && (forall i :: 0 <= i < |order| ==> Invoke(order[i].tid, order[i].op) in trace)
    && (forall i, r :: 0 <= i < |order| && Return(order[i].tid, r) in trace ==> r == order[i].res)
    && (forall i :: 0 <= i < |trace| && trace[i].Return? ==> Before(order, |order|, trace[i].tid))
    && RealTime(order, trace)
  }

  ghost predicate Linearizable(trace: seq<Event>) {
    exists order :: Explains(order, trace)
  }

  // ----- the log kept during the run is such an order -----

  ghost predicate LogOk(s: State, t: Tree<Addr>) {
    Legal(s.log) && Replay(s.log) == Visible(t)
  }

  predicate TookEffect(pc: Pc) {
    pc.Unlinked? || pc.Doomed? || pc.Leaving? || pc.Finished?
  }

  ghost predicate EntryOk(s: State, e: Entry) {
    && e.tid in s.threads && s.threads[e.tid].op == e.op && s.threads[e.tid].res == Some(e.res)
    && Invoke(e.tid, e.op) in s.trace
  }

  ghost predicate ThreadLogged(s: State, a: Tid)
    requires a in s.threads
  {
    && (s.threads[a].res.Some? <==> TookEffect(s.threads[a].pc))
    && (s.threads[a].res.Some? ==> Before(s.log, |s.log|, a))
    && Invoke(a, s.threads[a].op) in s.trace
    && (s.threads[a].pc == Finished ==> s.threads[a].res.Some? && Return(a, s.threads[a].res.value) in s.trace)
  }

  ghost predicate EventOk(s: State, e: Event) {
    && e.tid in s.threads
    && (e.Return? ==> s.threads[e.tid].pc == Finished && s.threads[e.tid].res == Some(e.res))
  }

  ghost predicate CalledBefore(trace: seq<Event>, j: int, a: Tid) {
    exists i :: 0 <= i < j && i < |trace| && trace[i].Invoke? && trace[i].tid == a
  }

  /** Each thread calls at most once, and returns at most once and after its call. */
  ghost predicate Orderly(trace: seq<Event>) {
    && (forall i, j :: 0 <= i < j < |trace| && trace[i].Invoke? && trace[j].Invoke? ==> trace[i].tid != trace[j].tid)
    && (forall i, j :: 0 <= i < j < |trace| && trace[i].Return? && trace[j].Return? ==> trace[i].tid != trace[j].tid)
    && (forall j :: 0 <= j < |trace| && trace[j].Return? ==> CalledBefore(trace, j, trace[j].tid))
  }

  lemma OrderlyAppend(trace: seq<Event>, e: Event)
    requires Orderly(trace)
    requires forall i :: 0 <= i < |trace| && trace[i].Invoke? == e.Invoke? ==> trace[i].tid != e.tid
    requires e.Return? ==> CalledBefore(trace, |trace|, e.tid)
    ensures Orderly(trace + [e])
  {
    var longer := trace + [e];
    forall j | 0 <= j < |longer| && longer[j].Return? ensures CalledBefore(longer, j, longer[j].tid) {
      var i :| 0 <= i < j && i < |trace| && trace[i].Invoke? && trace[i].tid == longer[j].tid;
      assert longer[i] == trace[i];
    }
  }

  ghost predicate HistoryOk(s: State) {
    && Once(s.log) && RealTime(s.log, s.trace) && Orderly(s.trace)
    && (forall i {:trigger EntryOk(s, s.log[i])} :: 0 <= i < |s.log| ==> EntryOk(s, s.log[i]))
    && (forall a {:trigger ThreadLogged(s, a)} :: a in s.threads ==> ThreadLogged(s, a))
    && (forall i {:trigger EventOk(s, s.trace[i])} :: 0 <= i < |s.trace| ==> EventOk(s, s.trace[i]))
  }

  lemma HistoryExplains(s: State, t: Tree<Addr>)
    requires LogOk(s, t) && HistoryOk(s)
    ensures Explains(s.log, s.trace)
  {
    forall i | 0 <= i < |s.log| ensures Invoke(s.log[i].tid, s.log[i].op) in s.trace {
      assert EntryOk(s, s.log[i]);
    }
    forall i, r | 0 <= i < |s.log| && Return(s.log[i].tid, r) in s.trace ensures r == s.log[i].res {
      var j :| 0 <= j < |s.trace| && s.trace[j] == Return(s.log[i].tid, r);
      assert EntryOk(s, s.log[i]) && EventOk(s, s.trace[j]);
    }
    forall i | 0 <= i < |s.trace| && s.trace[i].Return? ensures Before(s.log, |s.log|, s.trace[i].tid) {
      assert EventOk(s, s.trace[i]) && ThreadLogged(s, s.trace[i].tid);
    }
  }

  // ----- taking effect -----

  lemma LegalAppend(order: seq<Entry>, e: Entry)
    requires Legal(order) && e.res == Answer(Replay(order), e.op)
    ensures Legal(order + [e]) && Replay(order + [e]) == Effect(Replay(order), e.op)
  {
    var o := order + [e];
    assert o[..|o| - 1] == order;
    forall i | 0 <= i < |o| ensures o[i].res == Answer(Replay(o[..i]), o[i].op) {
      if i < |order| { assert o[..i] == order[..i]; }
    }
  }

  lemma BeforeGrows(order: seq<Entry>, e: Entry, n: int, a: Tid)
    requires Before(order, n, a)
    ensures Before(order + [e], n, a)
  {
    var m :| 0 <= m < n && m < |order| && order[m].tid == a;
    assert (order + [e])[m].tid == a;
  }

  /** One more entry at the end, by a thread that has not returned, keeps real time. */
  lemma RealTimeAppend(s: State, e: Entry)
    requires HistoryOk(s)
    ensures RealTime(s.log + [e], s.trace)
  {
    var log := s.log + [e];
    forall i, j, n | 0 <= i < j < |s.trace| && s.trace[i].Return? && s.trace[j].Invoke? &&
      0 <= n < |log| && log[n].tid == s.trace[j].tid
      ensures Before(log, n, s.trace[i].tid)
    {
      var a := s.trace[i].tid;
      if n < |s.log| {
        BeforeGrows(s.log, e, n, a);
      } else {
        assert EventOk(s, s.trace[i]) && ThreadLogged(s, a);
        BeforeGrows(s.log, e, |s.log|, a);
      }
    }
  }

  /** A step in which thread `tid` takes effect keeps the history in order. */
  lemma CommitHistory(s: State, tid: Tid, s': State, res: Result)
    requires HistoryOk(s) && tid in s.threads && s.threads[tid].res == None && tid in s'.threads
    requires s'.trace == s.trace && s'.log == s.log + [Entry(tid, s.threads[tid].op, res)]
    requires s'.threads == s.threads[tid := s'.threads[tid]]
    requires s'.threads[tid].op == s.threads[tid].op && s'.threads[tid].res == Some(res)
    requires TookEffect(s'.threads[tid].pc) && s'.threads[tid].pc != Finished
    ensures HistoryOk(s')
  {
    var e := Entry(tid, s.threads[tid].op, res);
    assert ThreadLogged(s, tid);
    RealTimeAppend(s, e);
    forall a | a in s'.threads ensures ThreadLogged(s', a) {
      assert ThreadLogged(s, a);
      if a == tid {
        assert s'.log[|s.log|].tid == tid;
      } else if s.threads[a].res.Some? {
        BeforeGrows(s.log, e, |s.log|, a);
      }
    }
    forall i | 0 <= i < |s'.log| ensures EntryOk(s', s'.log[i]) {
      if i < |s.log| { assert EntryOk(s, s.log[i]); }
    }
    forall i | 0 <= i < |s'.trace| ensures EventOk(s', s'.trace[i]) {
      assert EventOk(s, s.trace[i]);
    }
    forall i | 0 <= i < |s.log| ensures s.log[i].tid != tid {
      assert EntryOk(s, s.log[i]);
    }
  }

  /** A step that neither takes effect nor is seen by clients. */
  lemma SilentHistory(s: State, tid: Tid, s': State)
    requires HistoryOk(s) && tid in s.threads && tid in s'.threads
    requires s'.trace == s.trace && s'.log == s.log
    requires s'.threads == s.threads[tid := s'.threads[tid]]
    requires s'.threads[tid].op == s.threads[tid].op && s'.threads[tid].res == s.threads[tid].res
    requires s.threads[tid].pc != Finished && s'.threads[tid].pc != Finished
    requires TookEffect(s'.threads[tid].pc) == TookEffect(s.threads[tid].pc)
    ensures HistoryOk(s')
  {
    forall a | a in s'.threads ensures ThreadLogged(s', a) {
      assert ThreadLogged(s, a);
    }
    forall i | 0 <= i < |s'.log| ensures EntryOk(s', s'.log[i]) {
      assert EntryOk(s, s.log[i]);
    }
    forall i | 0 <= i < |s'.trace| ensures EventOk(s', s'.trace[i]) {
      assert EventOk(s, s.trace[i]);
    }
  }

  /** One more event keeps real time: a return, or the call of a thread that is not in the order yet. */
  lemma RealTimeEvent(order: seq<Entry>, trace: seq<Event>, e: Event)
    requires RealTime(order, trace)
    requires e.Invoke? ==> forall n :: 0 <= n < |order| ==> order[n].tid != e.tid
    ensures RealTime(order, trace + [e])
  {
  }

  lemma ReturnHistory(s: State, tid: Tid, s': State)
    requires HistoryOk(s) && tid in s.threads && TookEffect(s.threads[tid].pc) && s.threads[tid].pc != Finished
    requires s.threads[tid].res.Some? && s'.trace == s.trace + [Return(tid, s.threads[tid].res.value)]
    requires s'.log == s.log && s'.threads == s.threads[tid := s.threads[tid].(pc := Finished)]
    ensures HistoryOk(s')
  {
    var e := Return(tid, s.threads[tid].res.value);
    RealTimeEvent(s.log, s.trace, e);
    assert ThreadLogged(s, tid);
    var c :| 0 <= c < |s.trace| && s.trace[c] == Invoke(tid, s.threads[tid].op);
    forall i | 0 <= i < |s.trace| && s.trace[i].Return? ensures s.trace[i].tid != tid {
      assert EventOk(s, s.trace[i]);
    }
    OrderlyAppend(s.trace, e);
    assert s'.trace[|s.trace|] == e;
    forall a | a in s'.threads ensures ThreadLogged(s', a) {
      assert ThreadLogged(s, a);
    }
    forall i | 0 <= i < |s'.log| ensures EntryOk(s', s'.log[i]) {
      assert EntryOk(s, s.log[i]);
    }
    forall i | 0 <= i < |s'.trace| ensures EventOk(s', s'.trace[i]) {
      if i < |s.trace| { assert EventOk(s, s.trace[i]); }
    }
  }

  lemma CallHistory(s: State, tid: Tid, op: Op)
    requires HistoryOk(s) && tid !in s.threads
    ensures HistoryOk(Call(s, tid, op))
  {
    var s' := Call(s, tid, op);
    forall i | 0 <= i < |s'.log| ensures EntryOk(s', s'.log[i]) && s.log[i].tid != tid {
      assert EntryOk(s, s.log[i]);
    }
    RealTimeEvent(s.log, s.trace, Invoke(tid, op));
    forall i | 0 <= i < |s.trace| ensures s.trace[i].tid != tid {
      assert EventOk(s, s.trace[i]);
    }
    OrderlyAppend(s.trace, Invoke(tid, op));
    forall a | a in s'.threads ensures ThreadLogged(s', a) {
      if a == tid {
        assert s'.trace[|s.trace|] == Invoke(tid, op);
      } else {
        assert ThreadLogged(s, a);
      }
    }
    forall i | 0 <= i < |s'.trace| ensures EventOk(s', s'.trace[i]) {
      if i < |s.trace| { assert EventOk(s, s.trace[i]); }
    }
  }

  // ----- each operation takes effect on the map -----

  lemma Absent(h: Heap<Addr>, t: Tree<Addr>, k: int, cur: Addr)
    requires TreeOk(h, HEAD, t) && Searching(h, t, k, cur) && LinkToward(h[cur], k) == Null
    ensures k !in Contents(t)
  {
    RepSub(h, To(HEAD), t, cur);
    MissMeansAbsent(t, cur, k);
  }

  lemma Present(h: Heap<Addr>, t: Tree<Addr>, k: int, x: Addr)
    requires TreeOk(h, HEAD, t) && x in Ids(t) && x in h && h[x].name == k
    ensures k in Contents(t) && Contents(t)[k] == h[x].value
  {
    RepSub(h, To(HEAD), t, x);
    HitMeansPresent(t, x, k);
  }

  /** The step takes effect: it logs its operation with the answer the map gives, and does the same to the tree. */
  ghost predicate Answers(s: State, t: Tree<Addr>, tid: Tid, added: Addr)
    requires Enabled(s, tid) && added !in s.heap
  {
    var op := s.threads[tid].op;
    && Do(s, tid, added).log == s.log + [Entry(tid, op, Answer(Visible(t), op))]
    && Visible(TreeAfter(s, t, tid, added)) == Effect(Visible(t), op)
  }

  /** Linking a leaf is adding an absent name to the map. */
  lemma Gained(t: Tree<Addr>, t': Tree<Addr>, k: int, v: string)
    requires Contents(t') == Contents(t)[k := v] && k !in Contents(t) && k > 0
    ensures Visible(t') == Effect(Visible(t), Add(k, v)) && Answer(Visible(t), Add(k, v)) == Flag(true)
  {
  }

  lemma AddAnswers(s: State, t: Tree<Addr>, tid: Tid, added: Addr)
    requires Inv(s, t) && Enabled(s, tid) && added !in s.heap && s.threads[tid].pc.Missed? && s.threads[tid].op.Add?
    ensures Answers(s, t, tid, added)
  {
    assert ThreadOk(s.heap, t, s.threads[tid]);
    var th := s.threads[tid];
    var cur, k := th.pc.cur, th.op.key;
    AddTree(s.heap, HEAD, t, cur, k, th.op.value, added);
    GraftInserts(t, cur, k, th.op.value, added);
    Gained(t, Grafted(t, cur, k, th.op.value, added), k, th.op.value);
  }

  lemma MissedAnswers(s: State, t: Tree<Addr>, tid: Tid, added: Addr)
    requires Inv(s, t) && Enabled(s, tid) && added !in s.heap && s.threads[tid].pc.Missed? && !s.threads[tid].op.Add?
    ensures Answers(s, t, tid, added)
  {
    assert ThreadOk(s.heap, t, s.threads[tid]);
    Absent(s.heap, t, s.threads[tid].op.key, s.threads[tid].pc.cur);
  }

  lemma HitAnswers(s: State, t: Tree<Addr>, tid: Tid, added: Addr)
    requires Inv(s, t) && Enabled(s, tid) && added !in s.heap && s.threads[tid].pc.Hit? && s.threads[tid].op.Add?
    ensures Answers(s, t, tid, added)
  {
    assert ThreadOk(s.heap, t, s.threads[tid]);
    Present(s.heap, t, s.threads[tid].op.key, s.threads[tid].pc.target);
  }

  /** Taking a stored name out of the tree is removing it from the map. */
  lemma Dropped(t: Tree<Addr>, t': Tree<Addr>, k: int)
    requires Contents(t') == Contents(t) - {k} && k in Contents(t) && k > 0
    ensures Visible(t') == Effect(Visible(t), Remove(k)) && Answer(Visible(t), Remove(k)) == Flag(true)
  {
  }

  lemma UnlinkLogs(s: State, tid: Tid, added: Addr)
    requires Enabled(s, tid) && added !in s.heap && s.threads[tid].pc.Hit? && s.threads[tid].op.Remove?
    requires s.heap[s.threads[tid].pc.target].left == Null || s.heap[s.threads[tid].pc.target].right == Null
    ensures Do(s, tid, added).log == s.log + [Entry(tid, s.threads[tid].op, Flag(true))]
  {
  }

  lemma UnlinkAnswers(s: State, t: Tree<Addr>, tid: Tid, added: Addr)
    requires Inv(s, t) && Enabled(s, tid) && added !in s.heap && s.threads[tid].pc.Hit? && s.threads[tid].op.Remove?
    requires s.heap[s.threads[tid].pc.target].left == Null || s.heap[s.threads[tid].pc.target].right == Null
    ensures Answers(s, t, tid, added)
  {
    assert ThreadOk(s.heap, t, s.threads[tid]);
    var th := s.threads[tid];
    var p, d, k := th.pc.parent, th.pc.target, th.op.key;
    assert ThreadOk(s.heap, t, th);
    UnlinkTree(s.heap, HEAD, t, k, p, d);
    UnlinkRemoves(t, p, k, d);
    Dropped(t, Bypassed(t, p, k), k);
    UnlinkLogs(s, tid, added);
  }

  lemma SpliceAnswers(s: State, t: Tree<Addr>, tid: Tid, added: Addr)
    requires Inv(s, t) && Enabled(s, tid) && added !in s.heap && s.threads[tid].pc.Splicing?
    ensures Answers(s, t, tid, added)
  {
    assert ThreadOk(s.heap, t, s.threads[tid]);
    var th := s.threads[tid];
    var p, d, path, k := th.pc.parent, th.pc.dnode, th.pc.path, th.op.key;
    Present(s.heap, t, k, d);
    SpliceFound(s.heap, HEAD, t, k, p, d, path);
    SpliceRemoves(t, k, d);
    Dropped(t, Spliced(t, d), k);
  }

  /** The step in which an operation takes effect agrees with the map. */
  lemma StepAnswers(s: State, t: Tree<Addr>, tid: Tid, added: Addr)
    requires Inv(s, t) && Enabled(s, tid) && added !in s.heap
    requires Do(s, tid, added).log != s.log
    ensures Answers(s, t, tid, added)
  {
    assert ThreadOk(s.heap, t, s.threads[tid]);
    match s.threads[tid].pc
    case Missed(_) =>
      if s.threads[tid].op.Add? { AddAnswers(s, t, tid, added); } else { MissedAnswers(s, t, tid, added); }
    case Hit(_, _) =>
      if s.threads[tid].op.Add? { HitAnswers(s, t, tid, added); } else { UnlinkAnswers(s, t, tid, added); }
    case Reading(x) => Present(s.heap, t, s.threads[tid].op.key, x);
    case Splicing(_, _, _) => SpliceAnswers(s, t, tid, added);
  }

  /** How a step shows in the threads, in the log and in the trace. */
  lemma StepThreads(s: State, tid: Tid, added: Addr)
    requires Enabled(s, tid) && added !in s.heap
    ensures var s' := Do(s, tid, added);
            tid in s'.threads && s'.threads == s.threads[tid := s'.threads[tid]] &&
                s'.threads[tid].op == s.threads[tid].op
  {
  }

  lemma StepLogs(s: State, tid: Tid, added: Addr)
    requires Enabled(s, tid) && added !in s.heap && Do(s, tid, added).log != s.log
    ensures var s' := Do(s, tid, added);
            && |s'.log| == |s.log| + 1 && s'.trace == s.trace && !TookEffect(s.threads[tid].pc)
            && tid in s'.threads && TookEffect(s'.threads[tid].pc) && s'.threads[tid].pc != Finished
            && s'.threads[tid].res == Some(s'.log[|s.log|].res)
  {
  }

  lemma StepSilent(s: State, tid: Tid, added: Addr)
    requires Enabled(s, tid) && added !in s.heap && Do(s, tid, added).log == s.log
    ensures var s', th := Do(s, tid, added), s.threads[tid];
            && tid in s'.threads && s'.threads[tid].res == th.res
            && TookEffect(s'.threads[tid].pc) == TookEffect(th.pc)
            && (th.pc != Leaving([]) ==> s'.trace == s.trace && s'.threads[tid].pc != Finished)
  {
  }

  lemma SameTree(s: State, t: Tree<Addr>, tid: Tid, added: Addr)
    requires Inv(s, t) && Enabled(s, tid) && added !in s.heap
    requires Do(s, tid, added).log == s.log
    ensures TreeAfter(s, t, tid, added) == t
  {
    assert ThreadOk(s.heap, t, s.threads[tid]);
  }

  lemma CommitKeepsHistory(s: State, t: Tree<Addr>, tid: Tid, s': State, t': Tree<Addr>)
    requires LogOk(s, t) && HistoryOk(s) && tid in s.threads && tid in s'.threads && s.threads[tid].res == None
    requires s'.trace == s.trace && s'.threads == s.threads[tid := s'.threads[tid]]
    requires s'.threads[tid].op == s.threads[tid].op && TookEffect(s'.threads[tid].pc)
    requires s'.threads[tid].pc != Finished
    requires var res := Answer(Visible(t), s.threads[tid].op);
             s'.threads[tid].res == Some(res) && s'.log == s.log + [Entry(tid, s.threads[tid].op, res)]
    requires Visible(t') == Effect(Visible(t), s.threads[tid].op)
    ensures LogOk(s', t') && HistoryOk(s')
  {
    var res := Answer(Visible(t), s.threads[tid].op);
    LegalAppend(s.log, Entry(tid, s.threads[tid].op, res));
    CommitHistory(s, tid, s', res);
  }

  lemma SilentKeepsHistory(s: State, tid: Tid, added: Addr)
    requires HistoryOk(s) && Enabled(s, tid) && added !in s.heap
    requires Do(s, tid, added).log == s.log && s.threads[tid].pc != Leaving([])
    ensures HistoryOk(Do(s, tid, added))
  {
    StepThreads(s, tid, added);
    StepSilent(s, tid, added);
    var s' := Do(s, tid, added);
    SilentHistory(s, tid, s');
  }

  lemma ReturnKeepsHistory(s: State, tid: Tid, added: Addr)
    requires HistoryOk(s) && Enabled(s, tid) && added !in s.heap && s.threads[tid].pc == Leaving([])
    ensures HistoryOk(Do(s, tid, added))
  {
    assert ThreadLogged(s, tid);
    ReturnHistory(s, tid, Do(s, tid, added));
  }

  lemma StepKeepsHistory(s: State, t: Tree<Addr>, tid: Tid, added: Addr)
    requires Inv(s, t) && LogOk(s, t) && HistoryOk(s) && Enabled(s, tid) && added !in s.heap
    ensures LogOk(Do(s, tid, added), TreeAfter(s, t, tid, added)) && HistoryOk(Do(s, tid, added))
  {
    assert ThreadOk(s.heap, t, s.threads[tid]);
    if Do(s, tid, added).log != s.log {
      assert ThreadLogged(s, tid);
      StepThreads(s, tid, added);
      StepLogs(s, tid, added);
      StepAnswers(s, t, tid, added);
      CommitKeepsHistory(s, t, tid, Do(s, tid, added), TreeAfter(s, t, tid, added));
    } else {
      SameTree(s, t, tid, added);
      if s.threads[tid].pc == Leaving([]) {
        ReturnKeepsHistory(s, tid, added);
      } else {
        SilentKeepsHistory(s, tid, added);
      }
    }
  }

  lemma {:induction false} RunKeepsHistory(ss: seq<State>, i: nat) returns (t: Tree<Addr>)
    requires Run(ss) && i < |ss|
    ensures Inv(ss[i], t) && LogOk(ss[i], t) && HistoryOk(ss[i])
  {
    if i == 0 {
      InitInv(ss[0]);
      t := HeadOnly();
      assert Visible(t) == map[];
    } else {
      var t0 := RunKeepsHistory(ss, i - 1);
      var s := ss[i - 1];
      assert RunStep(ss, i);
      if tid, op: Op :| tid !in s.threads && op.key > 0 && ss[i] == Call(s, tid, op) {
        CallKeepsInv(s, t0, tid, op);
        CallHistory(s, tid, op);
        t := t0;
      } else {
        var tid, added :| Enabled(s, tid) && added !in s.heap && ss[i] == Do(s, tid, added);
        StepKeepsInv(s, t0, tid, added);
        StepKeepsHistory(s, t0, tid, added);
        t := TreeAfter(s, t0, tid, added);
      }
    }
  }

  /** Every interleaving gives the clients the results of some serial run. */
  lemma RunsAreLinearizable(ss: seq<State>, i: nat)
    requires Run(ss) && i < |ss|
    ensures Linearizable(ss[i].trace)
  {
    var t := RunKeepsHistory(ss, i);
    HistoryExplains(ss[i], t);
  }

  /**
   A finished operation has returned, exactly once and after its call, with the result of its own
   entry in the serial order, which is legal.
   */
  lemma FinishedReturns(ss: seq<State>, i: nat, a: Tid) returns (c: nat, j: nat, n: nat)
    requires Run(ss) && i < |ss| && a in ss[i].threads && ss[i].threads[a].pc == Finished
    ensures
      var trace, order, op := ss[i].trace, ss[i].log, ss[i].threads[a].op;
      && c < j < |trace| && n < |order| && Legal(order)
      && trace[c] == Invoke(a, op) && order[n] == Entry(a, op, order[n].res) && trace[j] == Return(a, order[n].res)
      && forall k :: 0 <= k < |trace| && trace[k].Return? && trace[k].tid == a ==> k == j
  {
    var t := RunKeepsHistory(ss, i);
    var s := ss[i];
    assert ThreadLogged(s, a);
    n :| 0 <= n < |s.log| && s.log[n].tid == a;
    assert EntryOk(s, s.log[n]);
    j :| 0 <= j < |s.trace| && s.trace[j] == Return(a, s.threads[a].res.value);
    assert CalledBefore(s.trace, j, a);
    var b :| 0 <= b < j && s.trace[b].Invoke? && s.trace[b].tid == a;
    c :| 0 <= c < |s.trace| && s.trace[c] == Invoke(a, s.threads[a].op);
    assert b == c;
  }

  /** At every moment the tree stores what the serial order, replayed on a map, has left. */
  lemma TreeHoldsReplay(ss: seq<State>, i: nat) returns (t: Tree<Addr>)
    requires Run(ss) && i < |ss|
    ensures Rep(ss[i].heap, To(HEAD), t) && Unique(t) && Sorted(t)
    ensures Visible(t) == Replay(ss[i].log)
  {
    t := RunKeepsHistory(ss, i);
  }
}
