/**
 The generation barrier of database/pthread_OSX.c:69-102: any number of threads calling
 `pthread_barrier_wait` again and again on one barrier, statement by statement under its
 mutex, with a condition variable that may also wake sleepers for no reason.
 */
module Barrier {

  type Tid = nat

  datatype Option<T> = None | Some(value: T)

  /** Where a thread is in pthread_barrier_wait. */
  datatype Pc =
    | Outside
    | Inside                                  // holds the mutex, about to count itself (line 88)
    | Checking(gen: nat)                      // holds it, about to test the loop condition (line 90)
    | Sleeping(gen: nat)                      // in pthread_cond_wait
    | Woken(gen: nat)                         // out of the queue, about to take the mutex again
    | Full(gen: nat)                          // the last to arrive, about to reset count (line 95)
    | Reset(gen: nat)                         // about to advance the generation (line 96)
    | Bumped(gen: nat)                        // about to broadcast (line 97)
    | Leaving(gen: nat, serial: bool)         // about to unlock and return (lines 100-101)

  /** The history: arrivals at line 88, returns at line 101 with or without the serial value. */
  datatype Event = Arrived(tid: Tid, gen: nat) | Left(tid: Tid, gen: nat, serial: bool)

  datatype State = State(count: nat, generation: nat, mutex: Option<Tid>, threads: map<Tid, Pc>, trace: seq<Event>)

  datatype Action = Lock(t: Tid) | Count(t: Tid) | Check(t: Tid) | Wake(t: Tid) | Relock(t: Tid)
                  | Clear(t: Tid) | Advance(t: Tid) | Broadcast(t: Tid) | Unlock(t: Tid)

  predicate Enabled(s: State, a: Action) {
    && a.t in s.threads
    && var pc := s.threads[a.t];
       match a
       case Lock(_) => pc.Outside? && s.mutex.None?
       case Count(_) => pc.Inside?
       case Check(_) => pc.Checking?
       case Wake(_) => pc.Sleeping?
       case Relock(_) => pc.Woken? && s.mutex.None?
       case Clear(_) => pc.Full?
       case Advance(_) => pc.Reset?
       case Broadcast(_) => pc.Bumped?
       case Unlock(_) => pc.Leaving?
  }

  /** pthread_cond_broadcast: every sleeper wakes. */
  function AllWoken(threads: map<Tid, Pc>): map<Tid, Pc> {
    map t | t in threads :: if threads[t].Sleeping? then Woken(threads[t].gen) else threads[t]
  }

  function Do(number: nat, s: State, a: Action): State
    requires Enabled(s, a)
  {
    var t, pc := a.t, s.threads[a.t];
    match a
    case Lock(_) => s.(mutex := Some(t), threads := s.threads[t := Inside])
    case Count(_) =>
      var pc' := if s.count + 1 < number then Checking(s.generation) else Full(s.generation);
      s.(count := s.count + 1, threads := s.threads[t := pc'], trace := s.trace + [Arrived(t, s.generation)])
    case Check(_) =>
      if pc.gen == s.generation then s.(mutex := None, threads := s.threads[t := Sleeping(pc.gen)])
      else s.(threads := s.threads[t := Leaving(pc.gen, false)])
    case Wake(_) => s.(threads := s.threads[t := Woken(pc.gen)])
    case Relock(_) => s.(mutex := Some(t), threads := s.threads[t := Checking(pc.gen)])
    case Clear(_) => s.(count := 0, threads := s.threads[t := Reset(pc.gen)])
    case Advance(_) => s.(generation := s.generation + 1, threads := s.threads[t := Bumped(pc.gen)])
    case Broadcast(_) => s.(threads := AllWoken(s.threads)[t := Leaving(pc.gen, true)])
    case Unlock(_) => s.(mutex := None, threads := s.threads[t := Outside],
        trace := s.trace + [Left(t, pc.gen, pc.serial)])
  }

  /** pthread_barrier_init (lines 69-77), with every thread outside. */
  predicate Init(s: State) {
    s.count == 0 && s.generation == 0 && s.mutex == None && s.trace == []
    && forall t :: t in s.threads ==> s.threads[t] == Outside
  }

  ghost predicate Run(number: nat, states: seq<State>) {
    && |states| > 0 && Init(states[0])
    && forall i :: 0 <= i < |states| - 1 ==> Stepped(number, states[i], states[i + 1])
  }

  ghost predicate Stepped(number: nat, s: State, s': State) {
    exists a :: Enabled(s, a) && s' == Do(number, s, a)
  }

  // ----- counting the history -----

  function Arrivals(trace: seq<Event>, g: nat): nat {
    if trace == [] then 0
    else
      var e := trace[|trace| - 1];
      Arrivals(trace[..|trace| - 1], g) + if e.Arrived? && e.gen == g then 1 else 0
  }

  function Returns(trace: seq<Event>, g: nat): nat {
    if trace == [] then 0
    else
      var e := trace[|trace| - 1];
      Returns(trace[..|trace| - 1], g) + if e.Left? && e.gen == g then 1 else 0
  }

  function Serials(trace: seq<Event>, g: nat): nat {
    if trace == [] then 0
    else
      var e := trace[|trace| - 1];
      Serials(trace[..|trace| - 1], g) + if e.Left? && e.gen == g && e.serial then 1 else 0
  }

  lemma CountsAppend(trace: seq<Event>, e: Event, g: nat)
    ensures Arrivals(trace + [e], g) == Arrivals(trace, g) + if e.Arrived? && e.gen == g then 1 else 0
    ensures Returns(trace + [e], g) == Returns(trace, g) + if e.Left? && e.gen == g then 1 else 0
    ensures Serials(trace + [e], g) == Serials(trace, g) + if e.Left? && e.gen == g && e.serial then 1 else 0
  {
    var t := trace + [e];
    assert t[..|t| - 1] == trace;
  }

  // ----- the invariant -----

  predicate Holds(pc: Pc) {
    pc.Inside? || pc.Checking? || pc.Full? || pc.Reset? || pc.Bumped? || pc.Leaving?
  }

  /** What the holder of the mutex is about to do. */
  function Holder(s: State): Pc {
    if s.mutex.Some? && s.mutex.value in s.threads then s.threads[s.mutex.value] else Outside
  }

  predicate InGeneration(pc: Pc, g: nat) {
    !pc.Outside? && !pc.Inside? && pc.gen == g
  }

  /** The threads that arrived in generation `g` and have not returned. */
  function Within(threads: map<Tid, Pc>, g: nat): set<Tid> {
    set t | t in threads && InGeneration(threads[t], g)
  }

  ghost predicate MutexOk(s: State) {
    && (s.mutex.Some? ==> s.mutex.value in s.threads && Holds(s.threads[s.mutex.value]))
    && forall t :: t in s.threads && Holds(s.threads[t]) ==> s.mutex == Some(t)
  }

  ghost predicate PcOk(pc: Pc, generation: nat, holder: Pc) {
    match pc
    case Outside => true
    case Inside => true
    case Checking(g) => g <= generation
    case Sleeping(g) => g <= generation && (g < generation ==> holder.Bumped?)
    case Woken(g) => g <= generation
    case Full(g) => g == generation
    case Reset(g) => g == generation
    case Bumped(g) => g + 1 == generation
    case Leaving(g, serial) => g < generation && (serial ==> g + 1 == generation)
  }

  function Expected(number: nat, s: State, g: nat): nat {
    if g < s.generation then number
    else if g > s.generation then 0
    else if Holder(s).Full? || Holder(s).Reset? then number
    else s.count
  }

  predicate CountOk(number: nat, s: State) {
    if Holder(s).Full? then s.count == number
    else if Holder(s).Reset? then s.count == 0
    else s.count < number
  }

  function ExpectedSerials(s: State, g: nat): nat {
    if g >= s.generation then 0
    else if Holder(s) == Bumped(g) || Holder(s) == Leaving(g, true) then 0
    else 1
  }

  /** Generation `g` in the history and in the state. */
  ghost predicate GenerationOk(number: nat, s: State, g: nat) {
    && Arrivals(s.trace, g) == Expected(number, s, g)
    && Serials(s.trace, g) == ExpectedSerials(s, g)
    && Arrivals(s.trace, g) == |Within(s.threads, g)| + Returns(s.trace, g)
    && (Returns(s.trace, g) > 0 ==> Serials(s.trace, g) == 1)
  }

  /** No thread returned before its generation was complete. */
  ghost predicate NoEarlyReturn(number: nat, trace: seq<Event>) {
    forall i :: 0 <= i < |trace| && trace[i].Left? ==> Arrivals(trace[..i], trace[i].gen) == number
  }

  ghost predicate Inv(number: nat, s: State) {
    && number >= 1 && MutexOk(s) && CountOk(number, s)
    && (forall t :: t in s.threads ==> PcOk(s.threads[t], s.generation, Holder(s)))
    && (forall g: nat :: GenerationOk(number, s, g))
    && NoEarlyReturn(number, s.trace)
  }

  lemma InitInv(number: nat, s: State)
    requires Init(s) && number >= 1
    ensures Inv(number, s)
  {
    forall g: nat ensures GenerationOk(number, s, g) {
      assert Within(s.threads, g) == {};
    }
  }

  // ----- every step keeps it -----

  lemma StepKeepsControl(number: nat, s: State, a: Action)
    requires Inv(number, s) && Enabled(s, a)
    ensures var s' := Do(number, s, a);
      && MutexOk(s') && CountOk(number, s')
      && (forall t :: t in s'.threads ==> PcOk(s'.threads[t], s'.generation, Holder(s')))
  {
  }

  lemma StepMoves(number: nat, s: State, a: Action, g: nat)
    requires Inv(number, s) && Enabled(s, a)
    ensures
      var w, w' := Within(s.threads, g), Within(Do(number, s, a).threads, g);
      && (a.Count? && g == s.generation ==> a.t !in w && w' == w + {a.t})
      && (a.Unlock? && g == s.threads[a.t].gen ==> a.t in w && w' == w - {a.t})
      && (!(a.Count? && g == s.generation) && !(a.Unlock? && g == s.threads[a.t].gen) ==> w' == w)
  {
  }

  lemma QuietKeepsGeneration(number: nat, s: State, a: Action, g: nat)
    requires Inv(number, s) && Enabled(s, a) && !a.Count? && !a.Unlock?
    ensures GenerationOk(number, Do(number, s, a), g)
  {
    assert GenerationOk(number, s, g);
    StepMoves(number, s, a, g);
    QuietKeepsExpected(number, s, a, g);
  }

  lemma QuietKeepsExpected(number: nat, s: State, a: Action, g: nat)
    requires Inv(number, s) && Enabled(s, a) && !a.Count? && !a.Unlock?
    ensures var s' := Do(number, s, a);
      Expected(number, s', g) == Expected(number, s, g) && ExpectedSerials(s', g) == ExpectedSerials(s, g)
  {
  }

  lemma CountKeepsGeneration(number: nat, s: State, a: Action, g: nat)
    requires Inv(number, s) && Enabled(s, a) && a.Count?
    ensures GenerationOk(number, Do(number, s, a), g)
  {
    assert GenerationOk(number, s, g);
    StepMoves(number, s, a, g);
    CountsAppend(s.trace, Arrived(a.t, s.generation), g);
  }

  lemma UnlockKeepsGeneration(number: nat, s: State, a: Action, g: nat)
    requires Inv(number, s) && Enabled(s, a) && a.Unlock?
    ensures GenerationOk(number, Do(number, s, a), g)
  {
    assert GenerationOk(number, s, g);
    StepMoves(number, s, a, g);
    CountsAppend(s.trace, Left(a.t, s.threads[a.t].gen, s.threads[a.t].serial), g);
  }

  lemma StepKeepsHistory(number: nat, s: State, a: Action)
    requires Inv(number, s) && Enabled(s, a)
    ensures NoEarlyReturn(number, Do(number, s, a).trace)
  {
    var t, t' := s.trace, Do(number, s, a).trace;
    forall i | 0 <= i < |t'| && t'[i].Left? ensures Arrivals(t'[..i], t'[i].gen) == number {
      if i < |t| {
        assert t'[..i] == t[..i];
      } else {
        assert t'[..i] == t;
        assert GenerationOk(number, s, t'[i].gen);
      }
    }
  }

  lemma StepKeepsInv(number: nat, s: State, a: Action)
    requires Inv(number, s) && Enabled(s, a)
    ensures Inv(number, Do(number, s, a))
  {
    StepKeepsControl(number, s, a);
    StepKeepsHistory(number, s, a);
    forall g: nat ensures GenerationOk(number, Do(number, s, a), g) {
      if a.Count? {
        CountKeepsGeneration(number, s, a, g);
      } else if a.Unlock? {
        UnlockKeepsGeneration(number, s, a, g);
      } else {
        QuietKeepsGeneration(number, s, a, g);
      }
    }
  }

  lemma {:induction false} RunKeepsInv(number: nat, states: seq<State>, i: nat)
    requires number >= 1 && Run(number, states) && i < |states|
    ensures Inv(number, states[i])
  {
    if i == 0 {
      InitInv(number, states[0]);
    } else {
      RunKeepsInv(number, states, i - 1);
      assert Stepped(number, states[i - 1], states[i - 1 + 1]);
      var a :| Enabled(states[i - 1], a) && states[i] == Do(number, states[i - 1], a);
      StepKeepsInv(number, states[i - 1], a);
    }
  }

  // ----- what a client of the barrier relies on -----

  /**
   In every run, a thread returns from generation g only after exactly `number` arrivals in g,
   and no further thread ever arrives in it.
   */
  lemma NobodyLeavesEarly(number: nat, states: seq<State>, i: nat, k: nat)
    requires number >= 1 && Run(number, states) && i < |states|
    requires k < |states[i].trace| && states[i].trace[k].Left?
    ensures var trace, g := states[i].trace, states[i].trace[k].gen;
      Arrivals(trace[..k], g) == number && Arrivals(trace, g) == number
  {
    RunKeepsInv(number, states, i);
    var trace, g := states[i].trace, states[i].trace[k].gen;
    assert GenerationOk(number, states[i], g);
    ArrivalsGrow(trace, k, g);
    assert Arrivals(trace[..k], g) == number;
  }

  lemma {:induction false} ArrivalsGrow(trace: seq<Event>, k: nat, g: nat)
    requires k <= |trace|
    ensures Arrivals(trace[..k], g) <= Arrivals(trace, g)
    decreases |trace|
  {
    if k < |trace| {
      var init := trace[..|trace| - 1];
      ArrivalsGrow(init, k, g);
      assert init[..k] == trace[..k];
    } else {
      assert trace[..k] == trace;
    }
  }

  /**
   Among the returns of a generation exactly one is serial; at most `number` threads return from
   it, and once none of its threads is left inside, all `number` have.
   */
  lemma OneSerialThread(number: nat, states: seq<State>, i: nat, k: nat)
    requires number >= 1 && Run(number, states) && i < |states|
    requires k < |states[i].trace| && states[i].trace[k].Left?
    ensures var s, g := states[i], states[i].trace[k].gen;
      && Serials(s.trace, g) == 1
      && Returns(s.trace, g) + |Within(s.threads, g)| == number
  {
    RunKeepsInv(number, states, i);
    var s, g := states[i], states[i].trace[k].gen;
    assert GenerationOk(number, s, g);
    NobodyLeavesEarly(number, states, i, k);
    ReturnCounts(s.trace, k);
  }

  lemma {:induction false} ReturnCounts(trace: seq<Event>, k: nat)
    requires k < |trace| && trace[k].Left?
    ensures Returns(trace, trace[k].gen) > 0
  {
    if k < |trace| - 1 {
      ReturnCounts(trace[..|trace| - 1], k);
    }
  }

  /** With the mutex free, whoever sleeps belongs to a generation that is still incomplete. */
  lemma NoLostWakeup(number: nat, states: seq<State>, i: nat, t: Tid)
    requires number >= 1 && Run(number, states) && i < |states|
    requires states[i].mutex == None && t in states[i].threads && states[i].threads[t].Sleeping?
    ensures states[i].threads[t].gen == states[i].generation
    ensures Arrivals(states[i].trace, states[i].generation) < number
  {
    RunKeepsInv(number, states, i);
    assert GenerationOk(number, states[i], states[i].generation);
  }

  /**
   The barrier gets stuck only for want of threads: if no thread that is in it can move, all of
   them sleep in the current generation and they are fewer than `number`.
   */
  lemma StuckMeansTooFew(number: nat, states: seq<State>, i: nat)
    requires number >= 1 && Run(number, states) && i < |states|
    requires forall a :: Enabled(states[i], a) ==> a.Lock? || a.Wake?
    ensures forall t :: t in states[i].threads && !states[i].threads[t].Outside? ==>
            states[i].threads[t] == Sleeping(states[i].generation)
    ensures |Within(states[i].threads, states[i].generation)| == states[i].count < number
  {
    var s := states[i];
    RunKeepsInv(number, states, i);
    assert s.mutex.Some? ==> Enabled(s, Own(s.mutex.value, Holder(s)));
    assert s.mutex.None?;
    forall t | t in s.threads && !s.threads[t].Outside? ensures s.threads[t] == Sleeping(s.generation) {
      assert s.threads[t].Woken? ==> Enabled(s, Relock(t));
    }
    assert GenerationOk(number, s, s.generation);
  }

  /** The next statement of a thread. */
  function Own(t: Tid, pc: Pc): Action {
    match pc
    case Outside => Lock(t)
    case Inside => Count(t)
    case Checking(_) => Check(t)
    case Sleeping(_) => Wake(t)
    case Woken(_) => Relock(t)
    case Full(_) => Clear(t)
    case Reset(_) => Advance(t)
    case Bumped(_) => Broadcast(t)
    case Leaving(_, _) => Unlock(t)
  }

  // ----- progress -----

  /** Steps that the barrier's own code does not force: a new call, and a wake-up for no reason. */
  predicate Nudge(a: Action) { a.Lock? || a.Wake? }

  /** The holder of the mutex may still come to broadcast. */
  predicate Noisy(s: State) {
    Holder(s).Inside? || Holder(s).Full? || Holder(s).Reset? || Holder(s).Bumped?
  }

  /** How far a thread is from leaving or falling asleep for good. */
  function Weight(pc: Pc, noisy: bool): nat {
    match pc
    case Outside => 0
    case Inside => 6
    case Checking(_) => 2
    case Sleeping(_) => if noisy then 4 else 0
    case Woken(_) => 3
    case Full(_) => 5
    case Reset(_) => 4
    case Bumped(_) => 3
    case Leaving(_, _) => 1
  }

  /** Every step but a nudge brings its thread nearer and takes no other thread farther away. */
  lemma WeightFalls(number: nat, s: State, a: Action, t: Tid)
    requires Inv(number, s) && Enabled(s, a) && !Nudge(a) && t in s.threads
    ensures var s' := Do(number, s, a);
      && t in s'.threads && Weight(s'.threads[t], Noisy(s')) <= Weight(s.threads[t], Noisy(s))
      && (t == a.t ==> Weight(s'.threads[t], Noisy(s')) < Weight(s.threads[t], Noisy(s)))
  {
  }

  ghost function Heavy(s: State, k: nat): set<Tid> {
    set t | t in s.threads && Weight(s.threads[t], Noisy(s)) >= k
  }

  ghost function Measure(s: State): nat {
    |Heavy(s, 1)| + |Heavy(s, 2)| + |Heavy(s, 3)| + |Heavy(s, 4)| + |Heavy(s, 5)| + |Heavy(s, 6)|
  }

  lemma SubsetSize<T>(x: set<T>, y: set<T>)
    requires x <= y
    ensures |x| <= |y| && (x != y ==> |x| < |y|)
  {
    assert y == x + (y - x);
  }

  lemma HeavyShrinks(number: nat, s: State, a: Action, k: nat)
    requires Inv(number, s) && Enabled(s, a) && !Nudge(a)
    ensures var s' := Do(number, s, a);
      && |Heavy(s', k)| <= |Heavy(s, k)|
      && (k == Weight(s.threads[a.t], Noisy(s)) ==> |Heavy(s', k)| < |Heavy(s, k)|)
  {
    var s' := Do(number, s, a);
    SameKeys(number, s, a);
    forall t | t in Heavy(s', k) ensures t in Heavy(s, k) {
      WeightFalls(number, s, a, t);
    }
    WeightFalls(number, s, a, a.t);
    SubsetSize(Heavy(s', k), Heavy(s, k));
    if k == Weight(s.threads[a.t], Noisy(s)) {
      assert a.t in Heavy(s, k) && a.t !in Heavy(s', k);
    }
  }

  lemma SameKeys(number: nat, s: State, a: Action)
    requires Enabled(s, a)
    ensures Do(number, s, a).threads.Keys == s.threads.Keys
  {
  }

  lemma MeasureFalls(number: nat, s: State, a: Action)
    requires Inv(number, s) && Enabled(s, a) && !Nudge(a)
    ensures Measure(Do(number, s, a)) < Measure(s)
  {
    HeavyShrinks(number, s, a, 1);
    HeavyShrinks(number, s, a, 2);
    HeavyShrinks(number, s, a, 3);
    HeavyShrinks(number, s, a, 4);
    HeavyShrinks(number, s, a, 5);
    HeavyShrinks(number, s, a, 6);
    WeightFalls(number, s, a, a.t);
  }

  lemma HeavyBound(s: State, k: nat)
    ensures |Heavy(s, k)| <= |s.threads.Keys|
  {
    SubsetSize(Heavy(s, k), s.threads.Keys);
  }

  lemma MeasureBound(s: State)
    ensures Measure(s) <= 6 * |s.threads.Keys|
  {
    HeavyBound(s, 1);
    HeavyBound(s, 2);
    HeavyBound(s, 3);
    HeavyBound(s, 4);
    HeavyBound(s, 5);
    HeavyBound(s, 6);
  }

  /** A run together with its actions. */
  ghost predicate RunBy(number: nat, states: seq<State>, acts: seq<Action>) {
    && |states| == |acts| + 1 && Init(states[0])
    && forall i {:trigger ActedAt(number, states, acts, i)} :: 0 <= i < |acts| ==> ActedAt(number, states, acts, i)
  }

  ghost predicate ActedAt(number: nat, states: seq<State>, acts: seq<Action>, i: int) {
    && 0 <= i < |acts| && i + 1 < |states|
    && Enabled(states[i], acts[i]) && states[i + 1] == Do(number, states[i], acts[i])
  }

  function Nudges(acts: seq<Action>): nat {
    if acts == [] then 0 else Nudges(acts[..|acts| - 1]) + if Nudge(acts[|acts| - 1]) then 1 else 0
  }

  lemma InitMeasure(s: State)
    requires Init(s)
    ensures Measure(s) == 0
  {
    assert Heavy(s, 1) == Heavy(s, 2) == Heavy(s, 3) == Heavy(s, 4) == Heavy(s, 5) == Heavy(s, 6) == {};
  }

  /** The measure and the number of steps so far, after one more step. */
  lemma StepStaysBounded(number: nat, s: State, a: Action, i: nat, nudges: nat)
    requires Inv(number, s) && Enabled(s, a) && i + Measure(s) <= (6 * |s.threads.Keys| + 1) * nudges
    ensures var s' := Do(number, s, a);
      i + 1 + Measure(s') <= (6 * |s.threads.Keys| + 1) * (nudges + if Nudge(a) then 1 else 0)
  {
    var n := 6 * |s.threads.Keys| + 1;
    SameKeys(number, s, a);
    if Nudge(a) {
      MeasureBound(Do(number, s, a));
      assert n * (nudges + 1) == n * nudges + n;
    } else {
      MeasureFalls(number, s, a);
    }
  }

  /** Invariant, threads and bound at one place of a run. */
  ghost predicate Bounded(number: nat, s: State, keys: set<Tid>, i: nat, nudges: nat) {
    Inv(number, s) && s.threads.Keys == keys && i + Measure(s) <= (6 * |keys| + 1) * nudges
  }

  lemma StepKeepsBounded(number: nat, s: State, keys: set<Tid>, i: nat, nudges: nat, a: Action)
    requires Bounded(number, s, keys, i, nudges) && Enabled(s, a)
    ensures Bounded(number, Do(number, s, a), keys, i + 1, nudges + if Nudge(a) then 1 else 0)
  {
    StepKeepsInv(number, s, a);
    SameKeys(number, s, a);
    StepStaysBounded(number, s, a, i, nudges);
  }

  lemma {:induction false} BoundedAt(number: nat, states: seq<State>, acts: seq<Action>, i: nat)
    requires number >= 1 && RunBy(number, states, acts) && i <= |acts|
    ensures Bounded(number, states[i], states[0].threads.Keys, i, Nudges(acts[..i]))
  {
    if i == 0 {
      InitInv(number, states[0]);
      InitMeasure(states[0]);
    } else {
      BoundedAt(number, states, acts, i - 1);
      assert ActedAt(number, states, acts, i - 1);
      assert acts[..i][..i - 1] == acts[..i - 1];
      StepKeepsBounded(number, states[i - 1], states[0].threads.Keys, i - 1, Nudges(acts[..i - 1]), acts[i - 1]);
    }
  }

  /**
   Whatever the schedule, between two nudges at most six steps per thread pass: a run is no longer
   than its calls and its groundless wake-ups make it.
   */
  lemma RunsAreBounded(number: nat, states: seq<State>, acts: seq<Action>)
    requires number >= 1 && RunBy(number, states, acts)
    ensures |acts| <= (6 * |states[0].threads.Keys| + 1) * Nudges(acts)
  {
    BoundedAt(number, states, acts, |acts|);
    assert acts[..|acts|] == acts;
  }

  /** No thread in the barrier can move. */
  ghost predicate Settled(s: State) {
    forall a :: Enabled(s, a) ==> Nudge(a)
  }

  /** Once no thread in the barrier can move, every completed generation has been left by all its threads. */
  lemma EveryoneReturns(number: nat, states: seq<State>, i: nat, g: nat)
    requires number >= 1 && Run(number, states) && i < |states| && Settled(states[i]) && g < states[i].generation
    ensures Returns(states[i].trace, g) == number && Serials(states[i].trace, g) == 1
  {
    RunKeepsInv(number, states, i);
    StuckMeansTooFew(number, states, i);
    assert GenerationOk(number, states[i], g);
    assert Within(states[i].threads, g) == {};
  }

  /** And from every state the threads in the barrier get there by their own statements. */
  lemma {:induction false} Settles(number: nat, states: seq<State>) returns (longer: seq<State>)
    requires number >= 1 && Run(number, states)
    ensures Run(number, longer) && states <= longer && Settled(longer[|longer| - 1])
    decreases Measure(states[|states| - 1])
  {
    var s := states[|states| - 1];
    if Settled(s) {
      longer := states;
    } else {
      var a :| Enabled(s, a) && !Nudge(a);
      RunKeepsInv(number, states, |states| - 1);
      MeasureFalls(number, s, a);
      var next := states + [Do(number, s, a)];
      forall i | 0 <= i < |next| - 1 ensures Stepped(number, next[i], next[i + 1]) {
        if i < |states| - 1 { assert Stepped(number, states[i], states[i + 1]); }
      }
      longer := Settles(number, next);
    }
  }
}
