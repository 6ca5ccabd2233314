/**
 What one call of `block_set_size_and_allocated` does to the whole heap: the layout
 changes by one edit, the free list and the words of allocated blocks stay as they are.
 */
module BlockOps {
  import opened HeapLayout
  import opened LayoutEdits
  import opened FreeList

  lemma LiveSameRefl(m: seq<int>, bl: Layout, n: int, e: int)
    requires Shape(m, bl, n, e)
    ensures LiveSame(m, m, bl)
  {
    forall c | c in bl && bl[c].alloc ensures LiveBlockSame(m, m, bl, c) {
      assert BlockOk(bl, n, c);
    }
  }

  /** Fewer allocated blocks to compare. */
  lemma LiveSameLess(m: seq<int>, m': seq<int>, bl: Layout, bl': Layout)
    requires LiveSame(m, m', bl)
    requires forall c :: c in bl' && bl'[c].alloc ==> c in bl && bl[c] == bl'[c]
    ensures LiveSame(m, m', bl')
  {
    forall c | c in bl' && bl'[c].alloc ensures LiveBlockSame(m, m', bl', c) {
      assert LiveBlockSame(m, m', bl, c);
    }
  }

  // ----- marking a block free, or a pulled block allocated -----

  lemma MarkEffect(m: seq<int>, bl: Layout, n: int, e: int, fl: seq<int>, first: int, b: int, alloc: bool)
    requires Shape(m, bl, n, e) && ListOk(m, bl, fl, first) && b in bl && b != 0 && b != e && b !in fl
    ensures WrittenAt(m, bl, b)
    ensures var m', bl' := SetTags(m, b, Block(bl[b].words, alloc)), Mark(bl, b, alloc);
            && Shape(m', bl', n, e) && ListOk(m', bl', fl, first)
            && LiveSame(m, m', Mark(bl, b, false))
  {
    MarkTiled(bl, n, b, alloc);
    MarkWritten(m, bl, n, b, alloc);
    var m' := SetTags(m, b, Block(bl[b].words, alloc));
    OthersSame(m, m', bl, n, e, fl, first, b);
  }

  /** A change inside block `b` alone, when `b` is not in the list. */
  lemma OthersSame(m: seq<int>, m': seq<int>, bl: Layout, n: int, e: int, fl: seq<int>, first: int, b: int)
    requires Shape(m, bl, n, e) && ListOk(m, bl, fl, first) && b in bl && b !in fl && |m'| == |m|
    requires forall x :: 0 <= x < |m| && !(b <= x < End(bl, b)) ==> m'[x] == m[x]
    ensures Linked(m', fl) && LiveSame(m, m', Mark(bl, b, false))
  {
    assert BlockOk(bl, n, b);
    forall i | 0 <= i < |fl| ensures m'[fl[i] + 1] == m[fl[i] + 1] && m'[fl[i] + 2] == m[fl[i] + 2] {
      BlocksDisjoint(bl, n, b, fl[i]);
      assert BlockOk(bl, n, fl[i]);
    }
    LinkedFrame(m, m', fl);
    forall c | c in bl && bl[c].alloc && c != b ensures LiveBlockSame(m, m', Mark(bl, b, false), c) {
      BlocksDisjoint(bl, n, b, c);
      assert BlockOk(bl, n, c);
    }
  }

  // ----- splitting an allocated block -----

  lemma CutEffect(m: seq<int>, bl: Layout, n: int, e: int, fl: seq<int>, first: int, b: int, k: int)
    requires Shape(m, bl, n, e) && ListOk(m, bl, fl, first) && b in bl && b != 0 && b != e && b !in fl
    requires 4 <= k && k + 4 <= bl[b].words
    ensures WrittenAt(m, bl, b) && b + k !in bl
    ensures var m', bl' := CutTags(m, b, bl[b].words, k), Cut(bl, b, k);
            && Shape(m', bl', n, e) && ListOk(m', bl', fl, first)
            && LiveSame(m, m', Mark(bl, b, false))
  {
    CutTiled(bl, n, b, k);
    CutWritten(m, bl, n, b, k);
    OthersSame(m, CutTags(m, b, bl[b].words, k), bl, n, e, fl, first, b);
  }

  // ----- absorbing free neighbours -----

  lemma AbsorbEffect(m: seq<int>, bl: Layout, n: int, e: int, fl: seq<int>, first: int, p: int, hi: int)
    requires Shape(m, bl, n, e) && ListOk(m, bl, fl, first) && p in bl && hi in bl && p < hi
    requires forall c :: c in bl && p <= c < hi ==> !bl[c].alloc
    requires forall f :: f in fl ==> !(p < f < hi)
    ensures 0 <= p && p + 4 <= hi <= |m|
    ensures var m', bl' := SetTags(m, p, Block(hi - p, false)), Absorb(bl, p, hi);
            && Shape(m', bl', n, e) && ListOk(m', bl', fl, first) && LiveSame(m, m', bl)
  {
    AbsorbTiled(bl, n, p, hi);
    AbsorbWritten(m, bl, n, p, hi);
    var m' := SetTags(m, p, Block(hi - p, false));
    assert BlockOk(bl, n, p);
    forall i | 0 <= i < |fl| ensures m'[fl[i] + 1] == m[fl[i] + 1] && m'[fl[i] + 2] == m[fl[i] + 2] {
      assert BlockOk(bl, n, fl[i]);
    }
    LinkedFrame(m, m', fl);
    forall c | c in bl && bl[c].alloc ensures LiveBlockSame(m, m', bl, c) {
      assert BlockOk(bl, n, c);
    }
  }

  // ----- growing over the epilogue -----

  lemma GrowEffect(m: seq<int>, bl: Layout, e: int, fl: seq<int>, first: int, k: int)
    requires Shape(m, bl, e + 4, e) && ListOk(m, bl, fl, first) && k >= 4 && e + k + 4 <= |m|
    ensures 0 <= e && e + k !in bl
    ensures var m', bl' := GrowTags(m, e, k), Grow(bl, e, k);
            && Shape(m', bl', e + k + 4, e + k) && ListOk(m', bl', fl, first)
            && LiveSame(m, m', Mark(bl, e, false))
  {
    var n := e + 4;
    GrowTiled(bl, n, e, k);
    GrowWritten(m, bl, n, e, k);
    var m' := GrowTags(m, e, k);
    forall i | 0 <= i < |fl| ensures m'[fl[i] + 1] == m[fl[i] + 1] && m'[fl[i] + 2] == m[fl[i] + 2] {
      BlocksDisjoint(bl, n, e, fl[i]);
      assert BlockOk(bl, n, fl[i]);
    }
    LinkedFrame(m, m', fl);
    forall c | c in bl && bl[c].alloc && c != e ensures LiveBlockSame(m, m', Mark(bl, e, false), c) {
      BlocksDisjoint(bl, n, e, c);
      assert BlockOk(bl, n, c);
    }
  }
}
