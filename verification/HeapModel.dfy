/**
 The allocator without its memory: which blocks there are, in which order the free ones are
 listed, and what an allocation or a release makes of them.  The class in Allocator is proved
 to follow this model step by step.
 */
module HeapModel {
  import opened HeapLayout
  import opened LayoutEdits

  datatype Model = Model(blocks: Layout, free: seq<int>, epilogue: int)

  // ----- best fit -----

  /** `j` is the first smallest block of the list with at least `w` words. */
  ghost predicate FirstBest(bl: Layout, fl: seq<int>, w: int, j: int)
    requires forall i :: 0 <= i < |fl| ==> fl[i] in bl
  {
    && 0 <= j < |fl| && bl[fl[j]].words >= w
    && (forall i :: 0 <= i < |fl| && bl[fl[i]].words >= w ==> bl[fl[j]].words <= bl[fl[i]].words)
    && (forall i :: 0 <= i < j && bl[fl[i]].words >= w ==> bl[fl[j]].words < bl[fl[i]].words)
  }

  ghost predicate NoneFits(bl: Layout, fl: seq<int>, w: int)
    requires forall i :: 0 <= i < |fl| ==> fl[i] in bl
  {
    forall i :: 0 <= i < |fl| ==> bl[fl[i]].words < w
  }

  /** The block at place `i` fits and is smaller than the one at place `j`, if there is one. */
  ghost predicate Beats(bl: Layout, fl: seq<int>, w: int, i: int, j: int)
    requires 0 <= i < |fl| && j < |fl|
  {
    fl[i] in bl && bl[fl[i]].words >= w && (j < 0 || (fl[j] in bl && bl[fl[i]].words < bl[fl[j]].words))
  }

  /** The place of the block that the scan of malloc/mm.c:247-265 settles on, or -1. */
  ghost function Fit(bl: Layout, fl: seq<int>, w: int): (j: int)
    ensures -1 <= j < |fl|
  {
    if fl == [] then -1
    else
      var n := |fl| - 1;
      var j := Fit(bl, fl[..n], w);
      if Beats(bl, fl, w, n, j) then n else j
  }

  lemma FitNext(bl: Layout, fl: seq<int>, w: int, i: int)
    requires 0 <= i < |fl|
    ensures var j := Fit(bl, fl[..i], w);
      Fit(bl, fl[..i + 1], w) ==
        if Beats(bl, fl, w, i, j) then i else j
  {
    assert fl[..i + 1][..i] == fl[..i];
  }

  /** It is the first best fit, and -1 exactly when none fits. */
  lemma {:induction false} FitIsBest(bl: Layout, fl: seq<int>, w: int)
    requires forall i :: 0 <= i < |fl| ==> fl[i] in bl
    ensures var j := Fit(bl, fl, w); if j < 0 then NoneFits(bl, fl, w) else FirstBest(bl, fl, w, j)
    decreases |fl|
  {
    if fl != [] {
      FitIsBest(bl, fl[..|fl| - 1], w);
    }
  }

  // ----- allocation -----

  datatype Outcome = Done(model: Model, block: int) | Failed

  /** The j-th free block is taken; a rest of at least twice the need goes back in front of the list. */
  ghost function Taken(md: Model, j: int, w: int): Model
    requires 0 <= j < |md.free| && md.free[j] in md.blocks
  {
    var b, rest := md.free[j], Pull(md.free, j);
    if md.blocks[b].words - w >= 2 * w then
      Model(Cut(Mark(md.blocks, b, true), b, w), [b + w] + rest, md.epilogue)
    else
      Model(Mark(md.blocks, b, true), rest, md.epilogue)
  }

  /** The old epilogue becomes a block of `w` words. */
  ghost function Extended(md: Model, w: int): Model {
    Model(Grow(md.blocks, md.epilogue, w), md.free, md.epilogue + w)
  }

  /** mm_malloc for a block of `w` words in a storage of `limit` words. */
  ghost function Allocated(md: Model, w: int, limit: int): Outcome {
    var j := Fit(md.blocks, md.free, w);
    if j >= 0 && md.free[j] in md.blocks then Done(Taken(md, j, w), md.free[j])
    else if md.epilogue + 4 + w <= limit then Done(Extended(md, w), md.epilogue)
    else Failed
  }

  // ----- release -----

  /** The members of the list that are not strictly between `lo` and `hi`, in their order. */
  ghost function Outside(fl: seq<int>, lo: int, hi: int): seq<int> {
    if fl == [] then []
    else
      var last := fl[|fl| - 1];
      Outside(fl[..|fl| - 1], lo, hi) + if lo < last < hi then [] else [last]
  }

  lemma {:induction false} OutsideConcat(a: seq<int>, b: seq<int>, lo: int, hi: int)
    ensures Outside(a + b, lo, hi) == Outside(a, lo, hi) + Outside(b, lo, hi)
    decreases |b|
  {
    if b == [] {
      assert a + b == a;
    } else {
      var n := |b| - 1;
      assert (a + b)[..|a + b| - 1] == a + b[..n];
      OutsideConcat(a, b[..n], lo, hi);
    }
  }

  lemma {:induction false} OutsideAll(fl: seq<int>, lo: int, hi: int)
    requires forall f :: f in fl ==> !(lo < f < hi)
    ensures Outside(fl, lo, hi) == fl
  {
    if fl != [] {
      var init := fl[..|fl| - 1];
      assert forall f :: f in init ==> f in fl;
      OutsideAll(init, lo, hi);
      assert fl[|fl| - 1] in fl;
    }
  }

  /** Pulling a member between `lo` and `hi` leaves the others as they are. */
  lemma OutsidePull(fl: seq<int>, i: int, lo: int, hi: int)
    requires 0 <= i < |fl| && lo < fl[i] < hi
    ensures Outside(Pull(fl, i), lo, hi) == Outside(fl, lo, hi)
  {
    var a, b := fl[..i], fl[i + 1..];
    assert fl == a + [fl[i]] + b;
    OutsideConcat(a + [fl[i]], b, lo, hi);
    OutsideConcat(a, [fl[i]], lo, hi);
    OutsideConcat(a, b, lo, hi);
    assert Outside([fl[i]], lo, hi) == [] by { assert [fl[i]][..0] == []; }
  }

  /** The block that ends where `b` starts. */
  ghost function Previous(bl: Layout, b: int): (p: int)
    requires exists p :: p in bl && End(bl, p) == b
    ensures p in bl && End(bl, p) == b
  {
    var p :| p in bl && End(bl, p) == b;
    p
  }

  ghost predicate CanRelease(md: Model, b: int) {
    b in md.blocks && End(md.blocks, b) in md.blocks && exists p :: p in md.blocks && End(md.blocks, p) == b
  }

  /** The free block `b`, just put in front of the list, is merged with its free neighbours. */
  ghost function Merged(md: Model, p: int, b: int): Model
    requires p in md.blocks && b in md.blocks && End(md.blocks, b) in md.blocks
  {
    var lo, hi := LowEnd(md.blocks, p, b), HighEnd(md.blocks, b);
    Model(Absorb(md.blocks, lo, hi), Outside(md.free, lo, hi), md.epilogue)
  }

  /** mm_free of the block `b`. */
  ghost function Released(md: Model, b: int): Model
    requires CanRelease(md, b)
  {
    Merged(Model(Mark(md.blocks, b, false), [b] + md.free, md.epilogue), Previous(md.blocks, b), b)
  }
}
