/**
 The free list inside the heap: pulling and inserting a block (malloc/mminline.h:141-173)
 keeps the tags, the payloads of allocated blocks, and the circular list.
 */
module FreeList {
  import opened HeapLayout

  /** The words of allocated blocks, tags and payload, are the same. */
  ghost predicate LiveSame(m: seq<int>, m': seq<int>, bl: Layout) {
    |m'| == |m| && forall c {:trigger LiveBlockSame(m, m', bl, c)} :: c in bl && bl[c].alloc ==>
        LiveBlockSame(m, m', bl, c)
  }

  ghost predicate LiveBlockSame(m: seq<int>, m': seq<int>, bl: Layout, c: int)
    requires c in bl && |m'| == |m|
  {
    0 <= c && End(bl, c) <= |m| && forall x :: c <= x < End(bl, c) ==> m'[x] == m[x]
  }

  /** Writing a link word of a free block. */
  lemma WriteLink(m: seq<int>, bl: Layout, n: int, e: int, f: int, x: int, v: int)
    requires Shape(m, bl, n, e) && f in bl && !bl[f].alloc && (x == f + 1 || x == f + 2)
    ensures 0 <= x < |m| && Shape(m[x := v], bl, n, e) && LiveSame(m, m[x := v], bl)
  {
    assert BlockOk(bl, n, f);
    WriteInside(m, bl, n, f, x, v);
    forall c | c in bl && bl[c].alloc ensures LiveBlockSame(m, m[x := v], bl, c) {
      BlocksDisjoint(bl, n, c, f);
      assert BlockOk(bl, n, c);
    }
  }

  lemma LiveSameTrans(m: seq<int>, m1: seq<int>, m2: seq<int>, bl: Layout)
    requires LiveSame(m, m1, bl) && LiveSame(m1, m2, bl)
    ensures LiveSame(m, m2, bl)
  {
    forall c | c in bl && bl[c].alloc ensures LiveBlockSame(m, m2, bl, c) {
      assert LiveBlockSame(m, m1, bl, c) && LiveBlockSame(m1, m2, bl, c);
    }
  }

  // ----- pull_free_block -----

  lemma PullElems(fl: seq<int>, i: int)
    requires Distinct(fl) && 0 <= i < |fl|
    ensures Distinct(Pull(fl, i))
    ensures forall y :: y in Pull(fl, i) <==> y in fl && y != fl[i]
  {
    var fl' := Pull(fl, i);
    forall y | y in fl && y != fl[i] ensures y in fl' {
      var j :| 0 <= j < |fl| && fl[j] == y;
      assert fl'[if j < i then j else j - 1] == y;
    }
    forall y | y in fl' ensures y in fl && y != fl[i] {
      var j :| 0 <= j < |fl'| && fl'[j] == y;
      assert fl[if j < i then j else j + 1] == y;
    }
  }

  lemma PullEffect(m: seq<int>, bl: Layout, n: int, e: int, fl: seq<int>, first: int, i: int)
    requires Shape(m, bl, n, e) && ListOk(m, bl, fl, first) && 0 <= i < |fl| && |fl| >= 2
    ensures Shape(PullWrites(m, fl, i), bl, n, e) && LiveSame(m, PullWrites(m, fl, i), bl)
    ensures ListOk(PullWrites(m, fl, i), bl, Pull(fl, i), if i == 0 then fl[1] else first)
  {
    var p, s := fl[Pred(i, |fl|)], fl[Succ(i, |fl|)];
    WriteLink(m, bl, n, e, p, p + 1, s);
    WriteLink(m[p + 1 := s], bl, n, e, s, s + 2, p);
    LiveSameTrans(m, m[p + 1 := s], PullWrites(m, fl, i), bl);
    PullElems(fl, i);
    FreeIsSpaced(bl, n, fl);
    PullKeepsLinks(m, fl, i);
  }

  // ----- insert_free_block -----

  lemma InsertElems(fl: seq<int>, fb: int)
    requires Distinct(fl) && fb !in fl
    ensures Distinct([fb] + fl)
  {
  }

  lemma InsertEffect(m: seq<int>, bl: Layout, n: int, e: int, fl: seq<int>, first: int, fb: int)
    requires Shape(m, bl, n, e) && ListOk(m, bl, fl, first) && fb in bl && !bl[fb].alloc && fb !in fl
    ensures 0 <= fb && fb + 2 < |m|
    ensures Shape(InsertWrites(m, fl, fb), bl, n, e) && LiveSame(m, InsertWrites(m, fl, fb), bl)
    ensures ListOk(InsertWrites(m, fl, fb), bl, [fb] + fl, fb)
  {
    assert BlockOk(bl, n, fb);
    InsertElems(fl, fb);
    FreeIsSpaced(bl, n, [fb] + fl);
    InsertKeepsLinks(m, fl, fb);
    var f0, last := if fl == [] then fb else fl[0], if fl == [] then fb else fl[|fl| - 1];
    var m1 := m[fb + 1 := f0];
    WriteLink(m, bl, n, e, fb, fb + 1, f0);
    WriteLink(m1, bl, n, e, fb, fb + 2, last);
    LiveSameTrans(m, m1, m1[fb + 2 := last], bl);
    if fl != [] {
      var m2 := m1[fb + 2 := last];
      var m3 := m2[last + 1 := fb];
      WriteLink(m2, bl, n, e, last, last + 1, fb);
      WriteLink(m3, bl, n, e, f0, f0 + 2, fb);
      LiveSameTrans(m, m2, m3, bl);
      LiveSameTrans(m, m3, m3[f0 + 2 := fb], bl);
    }
  }
}
