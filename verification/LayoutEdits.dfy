/**
 The changes the allocator makes to the layout: marking a block, splitting one, merging
 two neighbours, and growing the heap over the epilogue.  Each is one or two calls of
 `block_set_size_and_allocated`, keeps the tiling, and touches no word of other blocks.
 */
module LayoutEdits {
  import opened HeapLayout

  /** The words after block_set_size_and_allocated on a block of `k.words` words at `b`. */
  function SetTags(m: seq<int>, b: int, k: Block): seq<int>
    requires 0 <= b && 0 < k.words && b + k.words <= |m|
  {
    m[b := Tag(k)][b + k.words - 1 := Tag(k)]
  }

  /** Writes inside one block do not reach another. */
  lemma TagsElsewhere(m: seq<int>, m': seq<int>, bl: Layout, n: int, b: int, c: int)
    requires Tiled(bl, n) && Written(m, bl) && |m'| == |m| && b in bl && c in bl && b != c
    requires forall x :: 0 <= x < |m| && !(b <= x < End(bl, b)) ==> m'[x] == m[x]
    ensures WrittenAt(m', bl, c)
  {
    BlocksDisjoint(bl, n, b, c);
    assert BlockOk(bl, n, c) && WrittenAt(m, bl, c);
  }

  // ----- marking -----

  function Mark(bl: Layout, b: int, alloc: bool): Layout
    requires b in bl
  {
    bl[b := Block(bl[b].words, alloc)]
  }

  lemma MarkTiled(bl: Layout, n: int, b: int, alloc: bool)
    requires Tiled(bl, n) && b in bl
    ensures Tiled(Mark(bl, b, alloc), n)
  {
    forall c | c in bl ensures BlockOk(Mark(bl, b, alloc), n, c) {
      assert BlockOk(bl, n, c);
    }
  }

  lemma MarkWritten(m: seq<int>, bl: Layout, n: int, b: int, alloc: bool)
    requires Tiled(bl, n) && Written(m, bl) && b in bl
    ensures WrittenAt(m, bl, b) && Written(SetTags(m, b, Block(bl[b].words, alloc)), Mark(bl, b, alloc))
  {
    assert BlockOk(bl, n, b) && WrittenAt(m, bl, b);
    var m', bl' := SetTags(m, b, Block(bl[b].words, alloc)), Mark(bl, b, alloc);
    forall c | c in bl' ensures WrittenAt(m', bl', c) {
      if c != b { TagsElsewhere(m, m', bl, n, b, c); }
    }
  }

  // ----- splitting -----

  function Cut(bl: Layout, b: int, k: int): Layout
    requires b in bl
  {
    bl[b := Block(k, true)][b + k := Block(bl[b].words - k, false)]
  }

  lemma CutTiled(bl: Layout, n: int, b: int, k: int)
    requires Tiled(bl, n) && b in bl && 4 <= k && k + 4 <= bl[b].words
    ensures b + k !in bl && Tiled(Cut(bl, b, k), n)
  {
    assert BlockOk(bl, n, b);
    var bl' := Cut(bl, b, k);
    forall c | c in bl' ensures BlockOk(bl', n, c) {
      if c != b && c != b + k {
        assert BlockOk(bl, n, c);
      }
    }
  }

  ghost function CutTags(m: seq<int>, b: int, w: int, k: int): seq<int>
    requires 0 <= b && 0 < k < w && b + w <= |m|
  {
    SetTags(SetTags(m, b, Block(k, true)), b + k, Block(w - k, false))
  }

  lemma CutWritten(m: seq<int>, bl: Layout, n: int, b: int, k: int)
    requires Tiled(bl, n) && Written(m, bl) && b in bl && 4 <= k && k + 4 <= bl[b].words
    ensures WrittenAt(m, bl, b) && Written(CutTags(m, b, bl[b].words, k), Cut(bl, b, k))
  {
    assert BlockOk(bl, n, b) && WrittenAt(m, bl, b);
    var m', bl' := CutTags(m, b, bl[b].words, k), Cut(bl, b, k);
    CutTiled(bl, n, b, k);
    forall c | c in bl' ensures WrittenAt(m', bl', c) {
      if c != b && c != b + k { TagsElsewhere(m, m', bl, n, b, c); }
    }
  }

  /** The remainder of a split free block has an allocated right neighbour. */
  lemma CutCoalesced(bl: Layout, n: int, b: int, k: int)
    requires Tiled(bl, n) && Coalesced(bl) && b in bl && !bl[b].alloc && 4 <= k && k + 4 <= bl[b].words
    ensures Coalesced(Cut(bl, b, k))
  {
    var bl' := Cut(bl, b, k);
    CutTiled(bl, n, b, k);
    forall c | c in bl' ensures NotBothFree(bl', c) {
      assert BlockOk(bl, n, b) && NotBothFree(bl, b);
      if c != b && c != b + k {
        assert BlockOk(bl, n, c) && NotBothFree(bl, c);
      }
    }
  }

  // ----- merging -----

  /** One free block from `p` to `e` in place of all the blocks there. */
  function Absorb(bl: Layout, p: int, e: int): Layout {
    (map c | c in bl && !(p < c < e) :: bl[c])[p := Block(e - p, false)]
  }

  lemma AbsorbTiled(bl: Layout, n: int, p: int, e: int)
    requires Tiled(bl, n) && p in bl && p < e && (e in bl || e == n)
    ensures 0 <= p && p + 4 <= End(bl, p) <= e <= n && Tiled(Absorb(bl, p, e), n)
  {
    var bl' := Absorb(bl, p, e);
    assert BlockOk(bl, n, p);
    if e in bl { assert BlockOk(bl, n, e); }
    assert 0 in bl';
    forall c | c in bl' ensures BlockOk(bl', n, c) {
      if c != p { assert BlockOk(bl, n, c); }
    }
  }

  lemma AbsorbWritten(m: seq<int>, bl: Layout, n: int, p: int, e: int)
    requires Tiled(bl, n) && Written(m, bl) && p in bl && p < e && (e in bl || e == n) && n <= |m|
    ensures 0 <= p && e <= |m| && Written(SetTags(m, p, Block(e - p, false)), Absorb(bl, p, e))
  {
    AbsorbTiled(bl, n, p, e);
    var m', bl' := SetTags(m, p, Block(e - p, false)), Absorb(bl, p, e);
    forall c | c in bl' ensures WrittenAt(m', bl', c) {
      if c != p {
        assert BlockOk(bl, n, c) && WrittenAt(m, bl, c);
        assert c < p ==> End(bl, c) <= p;
      }
    }
  }

  lemma AbsorbNothing(bl: Layout, n: int, b: int)
    requires Tiled(bl, n) && b in bl && !bl[b].alloc
    ensures Absorb(bl, b, End(bl, b)) == bl
  {
    assert BlockOk(bl, n, b);
  }

  /** Where the free block ends up after coalescing around `b` (malloc/mm.c:114-157). */
  function LowEnd(bl: Layout, p: int, b: int): int
    requires p in bl
  {
    if bl[p].alloc then b else p
  }

  function HighEnd(bl: Layout, b: int): int
    requires b in bl && End(bl, b) in bl
  {
    if bl[End(bl, b)].alloc then End(bl, b) else End(bl, End(bl, b))
  }

  function Freed(bl: Layout, p: int, b: int): Layout
    requires p in bl && b in bl && End(bl, b) in bl
  {
    Absorb(Mark(bl, b, false), LowEnd(bl, p, b), HighEnd(bl, b))
  }

  /** Between the start of a block and the end of its neighbour only those two start. */
  lemma OnlyNeighbours(bl: Layout, n: int, p: int, c: int)
    requires Tiled(bl, n) && p in bl && End(bl, p) in bl && c in bl && p <= c < End(bl, End(bl, p))
    ensures c == p || c == End(bl, p)
  {
    assert BlockOk(bl, n, p) && BlockOk(bl, n, End(bl, p));
  }

  /** What coalescing around the free block `b` leaves, in terms of the blocks and the list before. */
  lemma CoalesceDone(bl: Layout, n: int, fl: seq<int>, p: int, b: int, fl': seq<int>)
    requires Tiled(bl, n) && p in bl && End(bl, p) == b && b in bl && !bl[b].alloc && End(bl, b) in bl && b != 0
    requires Coalesced(Mark(bl, b, true)) && (forall c :: c in bl && !bl[c].alloc ==> c in fl)
    requires var lo, hi := LowEnd(bl, p, b), HighEnd(bl, b);
             lo in fl' && forall c :: c in fl && !(lo < c < hi) ==> c in fl'
    ensures var lo, hi := LowEnd(bl, p, b), HighEnd(bl, b); var bl' := Absorb(bl, lo, hi);
            && Coalesced(bl') && ListsAll(bl', fl')
            && (forall c :: c in bl' && bl'[c].alloc <==> c in bl && bl[c].alloc)
            && (forall c :: c in bl' && bl'[c].alloc ==> bl'[c] == bl[c])
            && lo in bl' && !bl'[lo].alloc && lo <= b < End(bl', lo)
  {
    var bl0 := Mark(bl, b, true);
    MarkTiled(bl, n, b, true);
    FreedCoalesced(bl0, n, p, b);
    assert Mark(bl0, b, false) == bl;
    var q := End(bl, b);
    assert BlockOk(bl, n, p) && BlockOk(bl, n, b) && BlockOk(bl, n, q);
    assert Freed(bl0, p, b) == Absorb(bl, LowEnd(bl, p, b), HighEnd(bl, b));
  }

  /** Freeing with coalescing leaves no two free neighbours, whichever of the four cases applies. */
  lemma FreedCoalesced(bl: Layout, n: int, p: int, b: int)
    requires Tiled(bl, n) && Coalesced(bl) && p in bl && End(bl, p) == b && b in bl && bl[b].alloc && End(bl, b) in bl
    ensures Coalesced(Freed(bl, p, b))
  {
    var q := End(bl, b);
    var lo, hi, bl' := LowEnd(bl, p, b), HighEnd(bl, b), Freed(bl, p, b);
    assert BlockOk(bl, n, p) && BlockOk(bl, n, b) && BlockOk(bl, n, q);
    forall c | c in bl' ensures NotBothFree(bl', c) {
      if c == lo {
        assert NotBothFree(bl, q);
        if hi in bl { assert BlockOk(bl, n, hi); }
      } else {
        assert BlockOk(bl, n, c) && NotBothFree(bl, c);
        assert c < lo ==> End(bl, c) <= lo;
        if End(bl, c) == p { assert c < p; }
      }
    }
  }

  // ----- growing -----

  /** The epilogue becomes an allocated block of `k` words and a new epilogue follows it. */
  function Grow(bl: Layout, e: int, k: int): Layout {
    bl[e := Block(k, true)][e + k := Block(4, true)]
  }

  lemma GrowTiled(bl: Layout, n: int, e: int, k: int)
    requires Tiled(bl, n) && e in bl && e + 4 == n && bl[e].words == 4 && k >= 4
    ensures e + k !in bl && Tiled(Grow(bl, e, k), n + k)
  {
    assert BlockOk(bl, n, e);
    var bl' := Grow(bl, e, k);
    forall c | c in bl ensures c <= e && (c == e || End(bl, c) <= e) {
      assert BlockOk(bl, n, c);
    }
    forall c | c in bl' ensures BlockOk(bl', n + k, c) {
      if c != e && c != e + k {
        assert BlockOk(bl, n, c);
      }
    }
  }

  ghost function GrowTags(m: seq<int>, e: int, k: int): seq<int>
    requires 0 <= e && 4 <= k && e + k + 4 <= |m|
  {
    SetTags(SetTags(m, e, Block(k, true)), e + k, Block(4, true))
  }

  lemma GrowWritten(m: seq<int>, bl: Layout, n: int, e: int, k: int)
    requires Tiled(bl, n) && Written(m, bl) && e in bl && e + 4 == n && bl[e].words == 4 && k >= 4 && 0 <= e &&
             n + k <= |m|
    ensures Written(GrowTags(m, e, k), Grow(bl, e, k))
  {
    var m', bl' := GrowTags(m, e, k), Grow(bl, e, k);
    forall c | c in bl' ensures WrittenAt(m', bl', c) {
      if c != e && c != e + k {
        BlocksDisjoint(bl, n, c, e);
        assert BlockOk(bl, n, c) && BlockOk(bl, n, e) && WrittenAt(m, bl, c);
      }
    }
  }

  lemma GrowCoalesced(bl: Layout, n: int, e: int, k: int)
    requires Tiled(bl, n) && Coalesced(bl) && e in bl && e + 4 == n && bl[e].words == 4 && k >= 4
    ensures Coalesced(Grow(bl, e, k))
  {
    GrowTiled(bl, n, e, k);
    var bl' := Grow(bl, e, k);
    forall c | c in bl' ensures NotBothFree(bl', c) {
      if c != e && c != e + k {
        assert BlockOk(bl, n, c) && NotBothFree(bl, c);
      }
    }
  }
}
