/**
 The layout of the allocator's heap (malloc/mm.h, malloc/mminline.h).  Addresses are word
 indices from the start of the heap.  A layout says which blocks there are, how many words
 each has and whether it is allocated; `Written` ties it to the tag words in memory, where
 a block starts and ends with its size in bytes, the allocated bit packed in.
 */
module HeapLayout {

  datatype Block = Block(words: int, alloc: bool)

  type Layout = map<int, Block>

  /** The tag word of a block. */
  function Tag(k: Block): int { 8 * k.words + (if k.alloc then 1 else 0) }

  function End(bl: Layout, b: int): int
    requires b in bl
  {
    b + bl[b].words
  }

  // ----- the blocks tile the heap -----

  ghost predicate BlockOk(bl: Layout, n: int, b: int)
    requires b in bl
  {
    && 0 <= b && bl[b].words >= 4 && End(bl, b) <= n
    && (End(bl, b) in bl || End(bl, b) == n)
    && forall c :: c in bl ==> c <= b || End(bl, b) <= c
  }

  /** The blocks lie end to end from word 0 to word n. */
  ghost predicate Tiled(bl: Layout, n: int) {
    0 in bl && forall b {:trigger BlockOk(bl, n, b)} :: b in bl ==> BlockOk(bl, n, b)
  }

  /** No two neighbours are both free. */
  ghost predicate Coalesced(bl: Layout) {
    forall b {:trigger NotBothFree(bl, b)} :: b in bl ==> NotBothFree(bl, b)
  }

  ghost predicate NotBothFree(bl: Layout, b: int)
    requires b in bl
  {
    bl[b].alloc || (End(bl, b) in bl ==> bl[End(bl, b)].alloc)
  }

  /** Two blocks are the same or do not overlap. */
  lemma BlocksDisjoint(bl: Layout, n: int, b: int, c: int)
    requires Tiled(bl, n) && b in bl && c in bl && b != c
    ensures End(bl, b) <= c || End(bl, c) <= b
  {
    assert BlockOk(bl, n, b) && BlockOk(bl, n, c);
  }

  /** Every block but the first ends another one. */
  lemma {:induction false} BlockBefore(bl: Layout, n: int, b: int, from: int) returns (p: int)
    requires Tiled(bl, n) && b in bl && from in bl && from < b
    ensures p in bl && p < b && End(bl, p) == b
    decreases b - from
  {
    assert BlockOk(bl, n, from) && BlockOk(bl, n, b);
    if End(bl, from) == b {
      p := from;
    } else {
      p := BlockBefore(bl, n, b, End(bl, from));
    }
  }

  /** Two blocks that end at the same word are one. */
  lemma EndInjective(bl: Layout, n: int, p: int, q: int)
    requires Tiled(bl, n) && p in bl && q in bl && End(bl, p) == End(bl, q)
    ensures p == q
  {
    assert BlockOk(bl, n, p) && BlockOk(bl, n, q);
  }

  /** The blocks met by following block_next from `b` (as mm_check_heap does, malloc/mm.c:408-424). */
  ghost function Walk(bl: Layout, b: int, n: int): seq<int>
    requires Tiled(bl, n) && (b in bl || b == n)
    decreases n - b
  {
    if b == n then [] else
      assert b in bl && BlockOk(bl, n, b);
      [b] + Walk(bl, End(bl, b), n)
  }

  ghost function SumWords(bl: Layout, bs: seq<int>): int {
    if bs == [] then 0 else (if bs[0] in bl then bl[bs[0]].words else 0) + SumWords(bl, bs[1..])
  }

  /** The walk from the prologue meets every block once, in address order, and the sizes add up to the heap. */
  lemma {:induction false} WalkCovers(bl: Layout, n: int, b: int)
    requires Tiled(bl, n) && (b in bl || b == n)
    ensures forall c :: c in Walk(bl, b, n) <==> c in bl && b <= c
    ensures forall i, j :: 0 <= i < j < |Walk(bl, b, n)| ==> Walk(bl, b, n)[i] < Walk(bl, b, n)[j]
    ensures SumWords(bl, Walk(bl, b, n)) == n - b
    decreases n - b
  {
    if b == n {
      forall c | c in bl ensures c < n { assert BlockOk(bl, n, c); }
    } else {
      assert BlockOk(bl, n, b);
      WalkCovers(bl, n, End(bl, b));
      var w := Walk(bl, b, n);
      assert w[0] == b && w[1..] == Walk(bl, End(bl, b), n);
      forall i | 1 <= i < |w| ensures b < w[i] { assert w[i] in w[1..]; }
    }
  }

  // ----- tags in memory -----

  ghost predicate WrittenAt(m: seq<int>, bl: Layout, b: int)
    requires b in bl
  {
    0 <= b && 0 < bl[b].words && End(bl, b) <= |m| && m[b] == Tag(bl[b]) && m[End(bl, b) - 1] == Tag(bl[b])
  }

  ghost predicate Written(m: seq<int>, bl: Layout) {
    forall b {:trigger WrittenAt(m, bl, b)} :: b in bl ==> WrittenAt(m, bl, b)
  }

  /** `x` is a tag word of the block at `b`. */
  predicate TagWord(bl: Layout, b: int, x: int)
    requires b in bl
  {
    x == b || x == End(bl, b) - 1
  }

  /** `x` is strictly inside the block at `b`, between its tags. */
  predicate Inside(bl: Layout, b: int, x: int)
    requires b in bl
  {
    b < x < End(bl, b) - 1
  }

  lemma InsideIsNoTag(bl: Layout, n: int, b: int, x: int, c: int)
    requires Tiled(bl, n) && b in bl && c in bl && Inside(bl, b, x)
    ensures !TagWord(bl, c, x)
  {
    assert BlockOk(bl, n, b) && BlockOk(bl, n, c);
  }

  /** A write inside a block leaves every tag alone. */
  lemma WriteInside(m: seq<int>, bl: Layout, n: int, b: int, x: int, v: int)
    requires Tiled(bl, n) && Written(m, bl) && b in bl && Inside(bl, b, x)
    ensures 0 <= x < |m| && Written(m[x := v], bl)
  {
    assert WrittenAt(m, bl, b);
    forall c | c in bl ensures WrittenAt(m[x := v], bl, c) {
      assert WrittenAt(m, bl, c);
      InsideIsNoTag(bl, n, b, x, c);
    }
  }

  // ----- the free list -----

  const NULL := -1

  function Succ(i: int, n: int): int { if i + 1 >= n then 0 else i + 1 }

  function Pred(i: int, n: int): int { if i <= 0 then n - 1 else i - 1 }

  ghost predicate Distinct(fl: seq<int>) {
    forall i, j :: 0 <= i < j < |fl| ==> fl[i] != fl[j]
  }

  ghost predicate InBounds(m: seq<int>, fl: seq<int>) {
    forall i :: 0 <= i < |fl| ==> 0 <= fl[i] && fl[i] + 2 < |m|
  }

  /** payload[0] is the next free block and payload[1] the previous one. */
  ghost predicate LinkedAt(m: seq<int>, fl: seq<int>, i: int)
    requires InBounds(m, fl) && 0 <= i < |fl|
  {
    m[fl[i] + 1] == fl[Succ(i, |fl|)] && m[fl[i] + 2] == fl[Pred(i, |fl|)]
  }

  /** The links go around in a cycle, both ways. */
  ghost predicate Linked(m: seq<int>, fl: seq<int>) {
    InBounds(m, fl) && forall i {:trigger LinkedAt(m, fl, i)} :: 0 <= i < |fl| ==> LinkedAt(m, fl, i)
  }

  /** Links survive a change that touches no link word. */
  lemma LinkedFrame(m: seq<int>, m': seq<int>, fl: seq<int>)
    requires Linked(m, fl) && |m'| == |m|
    requires forall i :: 0 <= i < |fl| ==> m'[fl[i] + 1] == m[fl[i] + 1] && m'[fl[i] + 2] == m[fl[i] + 2]
    ensures Linked(m', fl)
  {
    forall i | 0 <= i < |fl| ensures LinkedAt(m', fl, i) {
      assert LinkedAt(m, fl, i);
    }
  }

  function Pull(fl: seq<int>, i: int): seq<int>
    requires 0 <= i < |fl|
  {
    fl[..i] + fl[i + 1..]
  }

  /** Two different free blocks, and so their link words, are at least three words apart. */
  ghost predicate Spaced(fl: seq<int>) {
    forall i, j {:trigger Far(fl[i], fl[j])} :: 0 <= i < j < |fl| ==> Far(fl[i], fl[j]) && fl[i] != fl[j]
  }

  /** The writes of pull_free_block on a list of at least two (malloc/mminline.h:149-150). */
  ghost function PullWrites(m: seq<int>, fl: seq<int>, i: int): seq<int>
    requires 0 <= i < |fl| && InBounds(m, fl)
  {
    var p, s := fl[Pred(i, |fl|)], fl[Succ(i, |fl|)];
    m[p + 1 := s][s + 2 := p]
  }

  lemma PullKeepsLinks(m: seq<int>, fl: seq<int>, i: int)
    requires Linked(m, fl) && Spaced(fl) && 0 <= i < |fl| && |fl| >= 2
    ensures Linked(PullWrites(m, fl, i), Pull(fl, i))
  {
    PullBounds(m, fl, i);
    forall j | 0 <= j < |fl| - 1 ensures LinkedAt(PullWrites(m, fl, i), Pull(fl, i), j) {
      PullOne(m, fl, i, j);
    }
  }

  lemma PullBounds(m: seq<int>, fl: seq<int>, i: int)
    requires InBounds(m, fl) && 0 <= i < |fl|
    ensures InBounds(PullWrites(m, fl, i), Pull(fl, i))
  {
    forall j | 0 <= j < |fl| - 1 ensures 0 <= Pull(fl, i)[j] && Pull(fl, i)[j] + 2 < |m| {
      assert Pull(fl, i)[j] == fl[if j < i then j else j + 1];
    }
  }

  lemma PullOne(m: seq<int>, fl: seq<int>, i: int, j: int)
    requires Linked(m, fl) && Spaced(fl) && 0 <= i < |fl| && |fl| >= 2 && 0 <= j < |fl| - 1
    requires InBounds(PullWrites(m, fl, i), Pull(fl, i))
    ensures LinkedAt(PullWrites(m, fl, i), Pull(fl, i), j)
  {
    var n := |fl|;
    var a := if j < i then j else j + 1;
    var p, s := Pred(i, n), Succ(i, n);
    var fl', f := Pull(fl, i), fl[a];
    assert fl'[j] == f;
    assert m[f + 1] == fl[Succ(a, n)] && m[f + 2] == fl[Pred(a, n)] by { assert LinkedAt(m, fl, a); }
    TwoApart(fl, p, a); TwoApart(fl, s, a); TwoApart(fl, p, s);
    BypassReads(m, fl[p], fl[s], f);
    PulledIndex(fl, i, j);
    var nx, pv := if a == p then s else Succ(a, n), if a == s then p else Pred(a, n);
    assert PullWrites(m, fl, i)[f + 1] == fl[nx] == fl'[Succ(j, n - 1)];
    assert PullWrites(m, fl, i)[f + 2] == fl[pv] == fl'[Pred(j, n - 1)];
  }

  lemma BypassReads(m: seq<int>, p: int, s: int, f: int)
    requires 0 <= p && p + 2 < |m| && 0 <= s && s + 2 < |m| && 0 <= f && f + 2 < |m|
    requires Far(p, s) && Far(f, p) && Far(f, s)
    ensures var m' := m[p + 1 := s][s + 2 := p];
            m'[f + 1] == (if f == p then s else m[f + 1]) && m'[f + 2] == (if f == s then p else m[f + 2])
  {
  }

  /** Neighbours in the shorter list. */
  lemma PulledIndex(fl: seq<int>, i: int, j: int)
    requires 0 <= i < |fl| && |fl| >= 2 && 0 <= j < |fl| - 1
    ensures var n, a := |fl|, if j < i then j else j + 1;
            && Pull(fl, i)[Succ(j, n - 1)] == fl[if a == Pred(i, n) then Succ(i, n) else Succ(a, n)]
            && Pull(fl, i)[Pred(j, n - 1)] == fl[if a == Succ(i, n) then Pred(i, n) else Pred(a, n)]
  {
  }

  /** Insert `fb` between `last` and `f0`. */
  function LinkBetween(m: seq<int>, fb: int, f0: int, last: int): seq<int>
    requires 0 <= fb && fb + 2 < |m| && 0 <= f0 && f0 + 2 < |m| && 0 <= last && last + 2 < |m|
  {
    m[fb + 1 := f0][fb + 2 := last][last + 1 := fb][f0 + 2 := fb]
  }

  predicate Far(x: int, y: int) { x == y || x + 2 < y || y + 2 < x }

  lemma LinkBetweenReads(m: seq<int>, fb: int, f0: int, last: int, f: int)
    requires 0 <= fb && fb + 2 < |m| && 0 <= f0 && f0 + 2 < |m| && 0 <= last && last + 2 < |m| && 0 <= f && f + 2 < |m|
    requires fb != f0 && fb != last && Far(fb, f0) && Far(fb, last) && Far(f0, last)
    requires Far(f, fb) && Far(f, f0) && Far(f, last)
    ensures var m' := LinkBetween(m, fb, f0, last);
            && m'[f + 1] == (if f == fb then f0 else if f == last then fb else m[f + 1])
            && m'[f + 2] == (if f == fb then last else if f == f0 then fb else m[f + 2])
  {
  }

  /** The writes of insert_free_block (malloc/mminline.h:154-173). */
  ghost function InsertWrites(m: seq<int>, fl: seq<int>, fb: int): seq<int>
    requires 0 <= fb && fb + 2 < |m| && InBounds(m, fl)
  {
    if fl == [] then m[fb + 1 := fb][fb + 2 := fb] else LinkBetween(m, fb, fl[0], fl[|fl| - 1])
  }

  lemma InsertKeepsLinks(m: seq<int>, fl: seq<int>, fb: int)
    requires Linked(m, fl) && 0 <= fb && fb + 2 < |m| && Spaced([fb] + fl)
    ensures Linked(InsertWrites(m, fl, fb), [fb] + fl)
  {
    assert InBounds(InsertWrites(m, fl, fb), [fb] + fl);
    forall j | 0 <= j <= |fl| ensures LinkedAt(InsertWrites(m, fl, fb), [fb] + fl, j) {
      if fl != [] {
        InsertOne(m, fl, fb, j);
      }
    }
  }

  lemma InsertOne(m: seq<int>, fl: seq<int>, fb: int, j: int)
    requires Linked(m, fl) && 0 <= fb && fb + 2 < |m| && Spaced([fb] + fl) && 0 <= j <= |fl| && fl != []
    requires InBounds(InsertWrites(m, fl, fb), [fb] + fl)
    ensures LinkedAt(InsertWrites(m, fl, fb), [fb] + fl, j)
  {
    var n, fl' := |fl|, [fb] + fl;
    assert fl'[0] == fb && fl'[1] == fl[0] && fl'[n] == fl[n - 1];
    TwoApart(fl', 0, 1); TwoApart(fl', 0, n); TwoApart(fl', 1, n);
    TwoApart(fl', j, 0); TwoApart(fl', j, 1); TwoApart(fl', j, n);
    LinkBetweenReads(m, fb, fl[0], fl[n - 1], fl'[j]);
    if j > 0 {
      assert fl'[j] == fl[j - 1];
      assert LinkedAt(m, fl, j - 1);
    }
  }

  lemma TwoApart(fl: seq<int>, i: int, j: int)
    requires Spaced(fl) && 0 <= i < |fl| && 0 <= j < |fl|
    ensures Far(fl[i], fl[j]) && (fl[i] == fl[j] ==> i == j)
  {
    assert i < j ==> Far(fl[i], fl[j]);
    assert j < i ==> Far(fl[j], fl[i]);
  }

  lemma FreeIsSpaced(bl: Layout, n: int, fl: seq<int>)
    requires Tiled(bl, n) && Distinct(fl) && forall f :: f in fl ==> f in bl
    ensures Spaced(fl)
  {
    forall i, j | 0 <= i < j < |fl| ensures fl[i] + 2 < fl[j] || fl[j] + 2 < fl[i] {
      assert fl[i] != fl[j];
      assert BlockOk(bl, n, fl[i]) && BlockOk(bl, n, fl[j]);
    }
  }

  // ----- the whole heap -----

  /** The blocks and their tags: prologue at 0, epilogue at the end. */
  ghost predicate Shape(m: seq<int>, bl: Layout, n: int, epilogue: int) {
    && 0 <= n <= |m| && Tiled(bl, n) && Written(m, bl)
    && bl[0].alloc && 0 < epilogue && epilogue in bl && bl[epilogue] == Block(4, true) && epilogue + 4 == n
  }

  /** A circular doubly linked list of blocks marked free. */
  ghost predicate ListOk(m: seq<int>, bl: Layout, fl: seq<int>, first: int) {
    && Distinct(fl) && (forall f :: f in fl ==> f in bl && !bl[f].alloc)
    && Linked(m, fl) && first == (if fl == [] then NULL else fl[0])
  }

  /** Every block marked free is in the list. */
  ghost predicate ListsAll(bl: Layout, fl: seq<int>) {
    forall b :: b in bl && !bl[b].alloc ==> b in fl
  }

  /** What holds between calls of the allocator. */
  ghost predicate HeapOk(m: seq<int>, bl: Layout, n: int, epilogue: int, fl: seq<int>, first: int) {
    Shape(m, bl, n, epilogue) && ListOk(m, bl, fl, first) && ListsAll(bl, fl) && Coalesced(bl)
  }
}
