/**
 What every step of the lock-coupling protocol keeps: the cells form a search tree, every
 thread's key belongs below the node it holds, lock holders exclude each other, and the
 nodes a remover has walked over are held, awaited or walked over by nobody else.
 */
module CouplingInvariant {
  import opened SearchTree
  import opened NodeHeap
  import opened HeapEdits
  import opened LockCoupling

  function Elems(s: seq<Addr>): set<Addr> {
    set x | x in s
  }

  /** The locks that a thread holds. */
  function Held(pc: Pc): set<Addr> {
    match pc
    case Ready => {}
    case At(cur) => {cur}
    case Coupled(cur, next) => {cur, next}
    case Missed(cur) => {cur}
    case Hit(parent, target) => {parent, target}
    case Reading(target) => {target}
    case Walk(parent, dnode, path) => {parent, dnode} + (if |path| > 0 then {path[0]} else {})
    case WalkLocked(parent, dnode, path, nextl) => {parent, dnode, nextl} + (if |path| > 0 then {path[0]} else {})
    case Splicing(parent, dnode, _) => {parent, dnode}
    case Unlinked(parent, dnode) => {parent, dnode}
    case Doomed(_, held) => Elems(held)
    case Leaving(held) => Elems(held)
    case Finished => {}
  }

  /** The nodes of the successor chain that a remover has walked over. */
  function Walked(pc: Pc): set<Addr> {
    match pc
    case Walk(_, _, path) => Elems(path)
    case WalkLocked(_, _, path, _) => Elems(path)
    case Splicing(_, _, path) => Elems(path)
    case _ => {}
  }

  /** The node a remover has taken out of the tree and not yet freed. */
  function Victim(pc: Pc): set<Addr> {
    match pc
    case Unlinked(_, dnode) => {dnode}
    case Doomed(victim, _) => {victim}
    case _ => {}
  }

  // ----- one thread -----

  ghost predicate HeldOk(t: Tree<Addr>, held: seq<Addr>) {
    && (forall x :: x in held ==> x in Ids(t))
    && (forall i, j :: 0 <= i < j < |held| ==> held[i] != held[j])
  }

  ghost predicate ThreadOk(h: Heap<Addr>, t: Tree<Addr>, th: Thread) {
    var k := th.op.key;
    && k > 0
    && match th.pc
       case Ready => true
       case At(cur) => Searching(h, t, k, cur)
       case Coupled(cur, next) =>
         && Searching(h, t, k, cur) && LinkToward(h[cur], k) == To(next)
         && next in h && next in Ids(t) && cur != next
       case Missed(cur) => Searching(h, t, k, cur) && LinkToward(h[cur], k) == Null
       case Hit(parent, target) => Located(h, t, k, parent, target) && parent != target
       case Reading(target) => th.op.Query? && target in Ids(t) && target in h && h[target].name == k
       case Walk(parent, dnode, path) =>
         th.op.Remove? && Walking(h, t, k, parent, dnode, path) && AllDifferent(parent, dnode, path)
       case WalkLocked(parent, dnode, path, nextl) =>
         && th.op.Remove? && Walking(h, t, k, parent, dnode, path) && AllDifferent(parent, dnode, path)
         && h[Last(path)].left == To(nextl) && nextl in h && nextl in Ids(t)
         && nextl != parent && nextl != dnode && nextl !in path
       case Splicing(parent, dnode, path) =>
         && th.op.Remove? && Walking(h, t, k, parent, dnode, path) && AllDifferent(parent, dnode, path)
         && h[Last(path)].left == Null
       case Unlinked(parent, dnode) =>
         th.op.Remove? && parent in Ids(t) && dnode in h && dnode !in Ids(t)
       case Doomed(victim, held) =>
         th.op.Remove? && victim in h && victim !in Ids(t) && HeldOk(t, held)
       case Leaving(held) => HeldOk(t, held)
       case Finished => true
  }

  // ----- two threads -----

  ghost predicate Apart(x: Thread, y: Thread) {
    && (Held(x.pc) !! Held(y.pc) || (x.op.Query? && y.op.Query?))
    && Held(x.pc) !! Walked(y.pc) && Walked(x.pc) !! Held(y.pc)
    && Walked(x.pc) !! Walked(y.pc)
    && Victim(x.pc) !! Victim(y.pc)
  }

  // ----- locks -----

  /** The lock table says exactly who holds what. */
  ghost predicate LocksOk(s: State) {
    && s.locks.Keys == s.heap.Keys
    && forall x, tid {:trigger tid in s.locks[x].readers} {:trigger tid in s.locks[x].writers} :: x in s.locks ==>
         && (tid in s.locks[x].readers <==>
               tid in s.threads && s.threads[tid].op.Query? && x in Held(s.threads[tid].pc))
         && (tid in s.locks[x].writers <==>
               tid in s.threads && !s.threads[tid].op.Query? && x in Held(s.threads[tid].pc))
  }

  ghost predicate ThreadsOk(s: State, t: Tree<Addr>) {
    forall a {:trigger ThreadOk(s.heap, t, s.threads[a])} :: a in s.threads ==> ThreadOk(s.heap, t, s.threads[a])
  }

  ghost predicate AllApart(s: State) {
    forall a, b {:trigger Apart(s.threads[a], s.threads[b])} ::
      a in s.threads && b in s.threads && a != b ==> Apart(s.threads[a], s.threads[b])
  }

  /** Every cell is in the tree or about to be freed by the thread that took it out. */
  ghost predicate NoLeak(s: State, t: Tree<Addr>) {
    forall x :: x in s.heap ==> x in Ids(t) || exists a :: a in s.threads && x in Victim(s.threads[a].pc)
  }

  ghost predicate Inv(s: State, t: Tree<Addr>) {
    && TreeOk(s.heap, HEAD, t) && LocksOk(s) && ThreadsOk(s, t) && AllApart(s) && NoLeak(s, t)
  }

  // ----- framing -----

  /** A change elsewhere does not disturb a thread. */
  lemma Undisturbed(h: Heap<Addr>, t: Tree<Addr>, h': Heap<Addr>, t': Tree<Addr>, th: Thread)
    requires ThreadOk(h, t, th)
    requires forall x :: x in Held(th.pc) + Walked(th.pc) + Victim(th.pc) && x in h ==> x in h' && h'[x] == h[x]
    requires forall x :: x in Held(th.pc) + Walked(th.pc) && x in Ids(t) ==> x in Ids(t')
    requires forall x :: x in Victim(th.pc) ==> x !in Ids(t')
    requires forall x :: x in Held(th.pc) && Reaches(t, th.op.key, x) ==> Reaches(t', th.op.key, x)
    ensures ThreadOk(h', t', th)
  {
    match th.pc
    case Ready =>
    case At(cur) =>
    case Coupled(cur, next) =>
    case Missed(cur) =>
    case Hit(parent, target) =>
    case Reading(target) =>
    case Walk(parent, dnode, path) => WalkUndisturbed(h, t, h', t', th.op.key, parent, dnode, path);
    case WalkLocked(parent, dnode, path, nextl) => WalkUndisturbed(h, t, h', t', th.op.key, parent, dnode, path);
    case Splicing(parent, dnode, path) => WalkUndisturbed(h, t, h', t', th.op.key, parent, dnode, path);
    case Unlinked(parent, dnode) =>
    case Doomed(victim, held) =>
    case Leaving(held) =>
    case Finished =>
  }

  lemma WalkUndisturbed(h: Heap<Addr>, t: Tree<Addr>, h': Heap<Addr>, t': Tree<Addr>, k: int,
                        parent: Addr, dnode: Addr, path: seq<Addr>)
    requires Walking(h, t, k, parent, dnode, path)
    requires forall x :: x in {parent, dnode} + Elems(path) && x in h ==> x in h' && h'[x] == h[x]
    requires forall x :: x in {parent, dnode} + Elems(path) && x in Ids(t) ==> x in Ids(t')
    requires Reaches(t, k, parent) ==> Reaches(t', k, parent)
    ensures Walking(h', t', k, parent, dnode, path)
    ensures forall i :: 0 <= i < |path| ==> path[i] in h' && path[i] in h && h'[path[i]] == h[path[i]]
  {
    forall i | 0 <= i < |path| ensures path[i] in h && path[i] in h' && h'[path[i]] == h[path[i]] {
      assert path[i] in Elems(path);
    }
  }

  /** Stepping from `m` to its child `n` never enters another remover's chain. */
  lemma NotWalkedByOther(h: Heap<Addr>, t: Tree<Addr>, m: Addr, n: Addr, y: Thread)
    requires TreeOk(h, HEAD, t) && ThreadOk(h, t, y)
    requires m in Ids(t) && m in h && (h[m].left == To(n) || h[m].right == To(n))
    requires Walked(y.pc) == {} || (m !in Held(y.pc) && m !in Walked(y.pc))
    ensures n !in Walked(y.pc)
  {
    if n in Walked(y.pc) {
      var path, d := y.pc.path, y.pc.dnode;
      var i :| 0 <= i < |path| && path[i] == n;
      LinkIsChild(h, HEAD, t, m, n);
      if i == 0 {
        LinkIsChild(h, HEAD, t, d, n);
        UniqueParent(t, m, d, n);
      } else {
        assert path[i - 1] in Elems(path);
        LinkIsChild(h, HEAD, t, path[i - 1], n);
        UniqueParent(t, m, path[i - 1], n);
      }
      assert false;
    }
  }
}
