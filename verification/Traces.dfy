/**
 Traces of allocations and frees (malloc/mdriver.c:435-520), what they ask for, and what the
 model of the heap makes of them.
 */
module Traces {
  import opened HeapLayout
  import opened HeapModel
  import opened Allocator

  datatype TraceOp = Alloc(index: int, size: int) | Release(index: int)

  /** Sizes are positive and fit an int, and only live ids are freed. */
  ghost predicate WellFormed(ops: seq<TraceOp>, ids: set<int>) {
    ops == [] ||
    match ops[0]
    case Alloc(i, size) => size > 0 && Needed(size) <= INT_MAX && WellFormed(ops[1..], ids + {i})
    case Release(i) => i in ids && WellFormed(ops[1..], ids - {i})
  }

  /** The sizes asked for by the allocations whose ids are still live after the trace. */
  ghost function Asked(ops: seq<TraceOp>): map<int, int> {
    if ops == [] then map[]
    else
      var before := Asked(ops[..|ops| - 1]);
      match ops[|ops| - 1]
      case Alloc(i, size) => before[i := size]
      case Release(i) => before - {i}
  }

  /** How many blocks the trace leaves live. */
  ghost function Balance(ops: seq<TraceOp>): int {
    if ops == [] then 0
    else Balance(ops[..|ops| - 1]) + if ops[|ops| - 1].Alloc? then 1 else -1
  }

  /** What the allocations of the trace need, as if nothing were ever freed. */
  ghost function Demand(ops: seq<TraceOp>): int {
    if ops == [] then 0
    else
      var op := ops[|ops| - 1];
      Demand(ops[..|ops| - 1]) + if op.Alloc? then Needed(op.size) else 0
  }

  lemma DemandNext(ops: seq<TraceOp>, k: nat)
    requires k < |ops|
    ensures Demand(ops[..k + 1]) == Demand(ops[..k]) + if ops[k].Alloc? then Needed(ops[k].size) else 0
  {
    assert ops[..k + 1][..k] == ops[..k];
  }

  /** No part of a well-formed trace needs more than the whole. */
  lemma {:induction false} DemandGrows(ops: seq<TraceOp>, k: nat)
    requires k <= |ops| && forall i :: 0 <= i < |ops| && ops[i].Alloc? ==> ops[i].size > 0
    ensures Demand(ops[..k]) <= Demand(ops)
    decreases |ops| - k
  {
    if k == |ops| {
      assert ops[..k] == ops;
    } else {
      DemandGrows(ops, k + 1);
      DemandNext(ops, k);
    }
  }

  lemma {:induction false} WellFormedSizes(ops: seq<TraceOp>, ids: set<int>, k: nat)
    requires WellFormed(ops, ids) && k < |ops| && ops[k].Alloc?
    ensures ops[k].size > 0
  {
    if k > 0 {
      WellFormedSizes(ops[1..], if ops[0].Alloc? then ids + {ops[0].index} else ids - {ops[0].index}, k - 1);
    }
  }

  lemma DemandIsNatural(ops: seq<TraceOp>, ids: set<int>)
    requires WellFormed(ops, ids)
    ensures 0 <= Demand(ops)
  {
    forall i | 0 <= i < |ops| && ops[i].Alloc? ensures ops[i].size > 0 {
      WellFormedSizes(ops, ids, i);
    }
    DemandGrows(ops, 0);
  }

  // ----- what the model does with a trace -----

  datatype Sim = Sim(model: Model, payload: map<int, int>)

  /** The state after the trace, or the end of it at an allocation that cannot be met. */
  datatype Fate = Alive(sim: Sim) | Dead

  /** The heap that mm_init leaves. */
  function InitialModel(): Model {
    Model(map[0 := Block(4, true), 4 := Block(4, false), 8 := Block(4, true)], [4], 8)
  }

  ghost function Simulated(ops: seq<TraceOp>, limit: int): Fate {
    if ops == [] then Alive(Sim(InitialModel(), map[]))
    else
      match Simulated(ops[..|ops| - 1], limit)
      case Dead => Dead
      case Alive(sim) => Next(sim, ops[|ops| - 1], limit)
  }

  ghost function Next(sim: Sim, op: TraceOp, limit: int): Fate {
    match op
    case Alloc(i, size) =>
      (match Allocated(sim.model, Needed(size) / 8, limit)
       case Failed => Dead
       case Done(md, b) => Alive(Sim(md, sim.payload[i := b + 1])))
    case Release(i) =>
      if i in sim.payload && CanRelease(sim.model, sim.payload[i] - 1) then
        Alive(Sim(Released(sim.model, sim.payload[i] - 1), sim.payload - {i}))
      else Dead
  }

  lemma {:induction false} DeadStays(ops: seq<TraceOp>, limit: int, k: nat)
    requires k <= |ops| && Simulated(ops[..k], limit).Dead?
    ensures Simulated(ops, limit).Dead?
    decreases |ops| - k
  {
    if k == |ops| {
      assert ops[..k] == ops;
    } else {
      assert ops[..k + 1][..k] == ops[..k];
      DeadStays(ops, limit, k + 1);
    }
  }

  /** What the next operation of a trace asks for and leaves. */
  lemma TraceNext(ops: seq<TraceOp>, i: int, limit: int)
    requires 0 <= i < |ops| && WellFormed(ops[i..], Asked(ops[..i]).Keys)
    ensures Asked(ops[..i + 1]) ==
            if ops[i].Alloc? then Asked(ops[..i])[ops[i].index := ops[i].size] else Asked(ops[..i]) - {ops[i].index}
    ensures WellFormed(ops[i + 1..], Asked(ops[..i + 1]).Keys)
    ensures ops[i].Alloc? ==> ops[i].size > 0 && Needed(ops[i].size) <= INT_MAX
    ensures ops[i].Release? ==> ops[i].index in Asked(ops[..i])
    ensures Demand(ops[..i + 1]) == Demand(ops[..i]) + if ops[i].Alloc? then Needed(ops[i].size) else 0
    ensures Balance(ops[..i + 1]) == Balance(ops[..i]) + if ops[i].Alloc? then 1 else -1
    ensures var f := Simulated(ops[..i], limit);
            Simulated(ops[..i + 1], limit) == if f.Dead? then Dead else Next(f.sim, ops[i], limit)
  {
    assert ops[i..][0] == ops[i] && ops[i..][1..] == ops[i + 1..];
    assert ops[..i + 1][..i] == ops[..i];
    var before := Asked(ops[..i]).Keys;
    assert Asked(ops[..i + 1]).Keys == if ops[i].Alloc? then before + {ops[i].index} else before - {ops[i].index};
  }
}
