/**
 The concurrent database of database/db.c: any number of threads, each running one
 `db_query`, `db_add` or `db_remove`, over shared node cells with one reader/writer lock
 per node.  A step takes one lock, or gives one lock back, or makes the writes that the
 code makes while it holds the locks for them.
 */
module LockCoupling {
  import opened NodeHeap
  import opened HeapEdits

  type Tid = nat
  type Addr = nat

  /** The address of the sentinel `head` (database/db.c:17). */
  const HEAD: Addr := 0

  datatype Op = Query(key: int) | Add(key: int, value: string) | Remove(key: int)

  datatype Result = Text(value: string) | NotFound | Flag(ok: bool)

  datatype Option<T> = None | Some(value: T)

  /** The holders of one reader/writer lock. */
  datatype Lock = Lock(readers: set<Tid>, writers: set<Tid>)

  /** Where a thread is in its operation, with the node pointers it has in hand. */
  datatype Pc =
    | Ready                                            // about to lock the head
    | At(cur: Addr)                                    // search: holds cur
    | Coupled(cur: Addr, next: Addr)                   // search: holds both, about to compare names
    | Missed(cur: Addr)                                // search: the link is null, holds cur
    | Hit(parent: Addr, target: Addr)                  // search: names equal, holds both
    | Reading(target: Addr)                            // db_query: parent released
    | Walk(parent: Addr, dnode: Addr, path: seq<Addr>) // db_remove: holds parent, dnode, path[0]
    | WalkLocked(parent: Addr, dnode: Addr, path: seq<Addr>, nextl: Addr) // and nextl for a moment
    | Splicing(parent: Addr, dnode: Addr, path: seq<Addr>) // path[0] released, holds parent, dnode
    | Unlinked(parent: Addr, dnode: Addr)              // dnode is out of the tree, both held
    | Doomed(victim: Addr, held: seq<Addr>)            // about to free victim
    | Leaving(held: seq<Addr>)                         // only unlocks are left, in this order
    | Finished

  datatype Thread = Thread(op: Op, pc: Pc, res: Option<Result>)

  /** One entry of the serial order: who took effect, doing what, with which result. */
  datatype Entry = Entry(tid: Tid, op: Op, res: Result)

  datatype Event = Invoke(tid: Tid, op: Op) | Return(tid: Tid, res: Result)

  datatype State = State(
    heap: Heap<Addr>,
    locks: map<Addr, Lock>,
    threads: map<Tid, Thread>,
    log: seq<Entry>,
    trace: seq<Event>)

  // ----- locks -----

  predicate Grantable(l: Lock, op: Op) {
    l.writers == {} && (op.Query? || l.readers == {})
  }

  function Acquire(locks: map<Addr, Lock>, x: Addr, tid: Tid, op: Op): map<Addr, Lock>
    requires x in locks
  {
    locks[x := if op.Query? then locks[x].(readers := locks[x].readers + {tid})
               else locks[x].(writers := locks[x].writers + {tid})]
  }

  function Release(locks: map<Addr, Lock>, x: Addr, tid: Tid): map<Addr, Lock>
    requires x in locks
  {
    locks[x := Lock(locks[x].readers - {tid}, locks[x].writers - {tid})]
  }

  /** The cells and locks that the thread's next step touches. */
  function Touches(th: Thread): set<Addr> {
    match th.pc
    case Ready => {HEAD}
    case At(cur) => {cur}
    case Coupled(cur, next) => {cur, next}
    case Missed(cur) => {cur}
    case Hit(parent, target) => {parent, target}
    case Reading(target) => {target}
    case Walk(_, _, path) => if |path| == 0 then {} else {path[0], Last(path)}
    case WalkLocked(_, _, _, nextl) => {nextl}
    case Splicing(_, dnode, path) =>
      if |path| == 0 then {dnode}
      else {dnode, Last(path)} + (if |path| == 1 then {} else {path[|path| - 2]})
    case Unlinked(_, dnode) => {dnode}
    case Doomed(victim, _) => {victim}
    case Leaving(held) => if |held| == 0 then {} else {held[0]}
    case Finished => {}
  }

  /** The lock that the thread's next step has to take, if any. */
  function Wants(heap: Heap<Addr>, th: Thread): Link<Addr>
    requires Touches(th) <= heap.Keys
  {
    match th.pc
    case Ready => To(HEAD)
    case At(cur) => LinkToward(heap[cur], th.op.key)
    case Hit(_, target) =>
      if th.op.Remove? && heap[target].left != Null then heap[target].right else Null
    case Walk(_, _, path) => if |path| == 0 then Null else heap[Last(path)].left
    case _ => Null
  }

  /** The next step reads and writes only memory that has not been freed. */
  predicate Safe(s: State, th: Thread) {
    && Touches(th) <= s.heap.Keys
    && Touches(th) <= s.locks.Keys
    && (Wants(s.heap, th).To? ==> Wants(s.heap, th).id in s.locks)
    && (th.pc.Walk? || th.pc.WalkLocked? || th.pc.Splicing? ==> |th.pc.path| > 0)
  }

  /** The thread has a next step and the lock for it can be had. */
  predicate Enabled(s: State, tid: Tid) {
    && tid in s.threads && s.threads[tid].pc != Finished
    && Safe(s, s.threads[tid])
    && (Wants(s.heap, s.threads[tid]).To? ==> Grantable(s.locks[Wants(s.heap, s.threads[tid]).id], s.threads[tid].op))
  }

  // ----- steps -----

  function MoveTo(s: State, tid: Tid, pc: Pc): State
    requires tid in s.threads
  {
    s.(threads := s.threads[tid := s.threads[tid].(pc := pc)])
  }

  /** The operation takes effect here, with result `res`. */
  function Commit(s: State, tid: Tid, res: Result, pc: Pc): State
    requires tid in s.threads
  {
    s.(threads := s.threads[tid := s.threads[tid].(pc := pc, res := Some(res))],
       log := s.log + [Entry(tid, s.threads[tid].op, res)])
  }

  /** The next step of thread `tid`; `added` is the address `malloc` returns if it is called. */
  function Do(s: State, tid: Tid, added: Addr): State
    requires Enabled(s, tid) && added !in s.heap
  {
    var th := s.threads[tid];
    var k := th.op.key;
    match th.pc
    case Ready =>
      MoveTo(s, tid, At(HEAD)).(locks := Acquire(s.locks, HEAD, tid, th.op))
    case At(cur) =>
      (match LinkToward(s.heap[cur], k)
       case Null => MoveTo(s, tid, Missed(cur))
       case To(next) => MoveTo(s, tid, Coupled(cur, next)).(locks := Acquire(s.locks, next, tid, th.op)))
    case Coupled(cur, next) =>
      if s.heap[next].name == k then MoveTo(s, tid, Hit(cur, next))
      else MoveTo(s, tid, At(next)).(locks := Release(s.locks, cur, tid))
    case Missed(cur) =>
      (match th.op
       case Query(_) => Commit(s, tid, NotFound, Leaving([cur]))
       case Remove(_) => Commit(s, tid, Flag(false), Leaving([cur]))
       case Add(_, value) => DoAdd(s, tid, cur, k, value, added))
    case Hit(parent, target) =>
      (match th.op
       case Query(_) => MoveTo(s, tid, Reading(target)).(locks := Release(s.locks, parent, tid))
       case Add(_, _) => Commit(s, tid, Flag(false), Leaving([target, parent]))
       case Remove(_) => DoRemove(s, tid, parent, target))
    case Reading(target) =>
      Commit(s, tid, Text(s.heap[target].value), Leaving([target]))
    case Walk(parent, dnode, path) =>
      (match s.heap[Last(path)].left
       case To(nextl) =>
         MoveTo(s, tid, WalkLocked(parent, dnode, path, nextl)).(locks := Acquire(s.locks, nextl, tid, th.op))
       case Null =>
         MoveTo(s, tid, Splicing(parent, dnode, path)).(locks := Release(s.locks, path[0], tid)))
    case WalkLocked(parent, dnode, path, nextl) =>
      MoveTo(s, tid, Walk(parent, dnode, path + [nextl])).(locks := Release(s.locks, nextl, tid))
    case Splicing(parent, dnode, path) =>
      DoSplice(s, tid, parent, dnode, path)
    case Unlinked(parent, dnode) =>
      MoveTo(s, tid, Doomed(dnode, [parent])).(locks := Release(s.locks, dnode, tid))
    case Doomed(victim, held) =>
      MoveTo(s, tid, Leaving(held)).(heap := s.heap - {victim}, locks := s.locks - {victim})
    case Leaving(held) =>
      if held == [] then
        MoveTo(s, tid, Finished).(trace := if th.res.Some? then s.trace + [Return(tid, th.res.value)] else s.trace)
      else
        MoveTo(s, tid, Leaving(held[1..])).(locks := Release(s.locks, held[0], tid))
    case Finished => s
  }

  function DoAdd(s: State, tid: Tid, p: Addr, k: int, value: string, added: Addr): State
    requires tid in s.threads && p in s.heap
  {
    Commit(s, tid, Flag(true), Leaving([p])).(
      heap := AddHeap(s.heap, p, k, value, added), locks := s.locks[added := Lock({}, {})])
  }

  /** database/db.c:122-148: unlink a node with a null child, or start the walk. */
  function DoRemove(s: State, tid: Tid, p: Addr, d: Addr): State
    requires tid in s.threads && p in s.heap && d in s.heap
    requires s.heap[d].left != Null && s.heap[d].right.To? ==> s.heap[d].right.id in s.locks
  {
    var dn := s.heap[d];
    if dn.right == Null then
      Commit(s, tid, Flag(true), Unlinked(p, d)).(heap := s.heap[p := WithLink(s.heap[p], dn.name, dn.left)])
    else if dn.left == Null then
      Commit(s, tid, Flag(true), Unlinked(p, d)).(heap := s.heap[p := WithLink(s.heap[p], dn.name, dn.right)])
    else
      MoveTo(s, tid, Walk(p, d, [dn.right.id])).(
        locks := Acquire(s.locks, dn.right.id, tid, s.threads[tid].op))
  }

  function DoSplice(s: State, tid: Tid, p: Addr, d: Addr, path: seq<Addr>): State
    requires tid in s.threads
    requires |path| > 0 && d in s.heap && Last(path) in s.heap
    requires |path| > 1 ==> path[|path| - 2] in s.heap
  {
    Commit(s, tid, Flag(true), Doomed(Last(path), [d, p])).(heap := SpliceHeap(s.heap, d, path))
  }

  /** A client calls an operation; `%255s` never delivers an empty name. */
  function Call(s: State, tid: Tid, op: Op): State {
    s.(threads := s.threads[tid := Thread(op, Ready, None)], trace := s.trace + [Invoke(tid, op)])
  }

  ghost predicate Init(s: State) {
    s == State(map[HEAD := Cell(0, "", Null, Null)], map[HEAD := Lock({}, {})], map[], [], [])
  }

  ghost predicate Next(s: State, s': State) {
    || (exists tid, op: Op :: tid !in s.threads && op.key > 0 && s' == Call(s, tid, op))
    || (exists tid, added :: Enabled(s, tid) && added !in s.heap && s' == Do(s, tid, added))
  }

  /** A whole run: any interleaving, of any length. */
  ghost predicate Run(ss: seq<State>) {
    && |ss| > 0 && Init(ss[0])
    && forall i {:trigger RunStep(ss, i)} :: 0 < i < |ss| ==> RunStep(ss, i)
  }

  ghost predicate RunStep(ss: seq<State>, i: int) {
    0 < i < |ss| && Next(ss[i - 1], ss[i])
  }
}
