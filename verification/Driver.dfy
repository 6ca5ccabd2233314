/**
 The driver's validity test of the allocator (malloc/mdriver.c:347-411, 537-644), for
 traces of allocations and frees.  Addresses are byte offsets from the start of the heap.
 */
module Driver {
  import opened HeapLayout
  import opened FreeList
  import opened HeapModel
  import opened Allocator
  import opened Traces

  /** `range_t`: the extent of one payload. */
  datatype Range = Range(lo: int, hi: int)

  // ----- the range list -----

  predicate Overlaps(lo: int, hi: int, r: Range) {
    (r.lo <= lo <= r.hi) || (r.lo <= hi <= r.hi)
  }

  ghost predicate Clear(rs: seq<Range>, lo: int, hi: int) {
    forall i :: 0 <= i < |rs| ==> !Overlaps(lo, hi, rs[i])
  }

  /** No range shares a byte with lo..hi. */
  ghost predicate Disjoint(rs: seq<Range>, lo: int, hi: int) {
    forall i :: 0 <= i < |rs| ==> hi < rs[i].lo || rs[i].hi < lo
  }

  /** The test of malloc/mdriver.c:374-375 passes a range that contains an old one. */
  lemma ContainerIsMissed()
    ensures Clear([Range(16, 23)], 8, 39) && !Disjoint([Range(16, 23)], 8, 39)
  {
    assert [Range(16, 23)][0] == Range(16, 23);
  }

  /** That is its only gap. */
  lemma ClearIsAlmostDisjoint(rs: seq<Range>, lo: int, hi: int)
    requires lo <= hi && forall i :: 0 <= i < |rs| ==> rs[i].lo <= rs[i].hi
    ensures Disjoint(rs, lo, hi) <==>
            Clear(rs, lo, hi) && forall i :: 0 <= i < |rs| ==> !(lo < rs[i].lo && rs[i].hi < hi)
  {
    if Clear(rs, lo, hi) && forall i :: 0 <= i < |rs| ==> !(lo < rs[i].lo && rs[i].hi < hi) {
      forall i | 0 <= i < |rs| ensures hi < rs[i].lo || rs[i].hi < lo {
        assert !Overlaps(lo, hi, rs[i]);
      }
    }
  }

  /** The list without the first range that starts at `lo`. */
  function Dropped(rs: seq<Range>, lo: int): seq<Range> {
    if rs == [] then [] else if rs[0].lo == lo then rs[1..] else [rs[0]] + Dropped(rs[1..], lo)
  }

  /** The payload of the block at `b` contains the range. */
  ghost predicate InPayload(r: Range, bl: Layout, b: int) {
    b in bl && r.lo == 8 * (b + 1) && r.lo <= r.hi < 8 * (End(bl, b) - 1)
  }

  /** Each range is the payload of its own live block, and each live block has its range. */
  ghost predicate RangesOk(rs: seq<Range>, owner: seq<int>, bl: Layout, live: set<int>) {
    && |owner| == |rs| && Distinct(owner)
    && (forall i {:trigger InPayload(rs[i], bl, owner[i])} :: 0 <= i < |rs| ==>
          owner[i] in live && InPayload(rs[i], bl, owner[i]))
    && (forall b {:trigger Recorded(owner, b)} :: b in live ==> Recorded(owner, b))
  }

  ghost predicate Recorded(owner: seq<int>, b: int) { b in owner }

  /** A payload of a new block is clear of all the ranges. */
  lemma NewPayloadClear(rs: seq<Range>, owner: seq<int>, bl: Layout, n: int, live: set<int>, b: int, r: Range)
    requires Tiled(bl, n) && RangesOk(rs, owner, bl, live) && InPayload(r, bl, b) && b !in live
    ensures Disjoint(rs, r.lo, r.hi) && Clear(rs, r.lo, r.hi)
  {
    forall i | 0 <= i < |rs| ensures rs[i].lo <= rs[i].hi && (r.hi < rs[i].lo || rs[i].hi < r.lo) {
      assert InPayload(rs[i], bl, owner[i]);
      BlocksDisjoint(bl, n, b, owner[i]);
    }
    ClearIsAlmostDisjoint(rs, r.lo, r.hi);
  }

  lemma RangesSame(rs: seq<Range>, owner: seq<int>, bl: Layout, bl': Layout, live: set<int>)
    requires RangesOk(rs, owner, bl, live) && forall b :: b in live ==> b in bl && b in bl' && bl'[b] == bl[b]
    ensures RangesOk(rs, owner, bl', live)
  {
    forall i | 0 <= i < |rs| ensures owner[i] in live && InPayload(rs[i], bl', owner[i]) {
      assert InPayload(rs[i], bl, owner[i]);
    }
  }

  lemma RangesAdded(rs: seq<Range>, owner: seq<int>, bl: Layout, live: set<int>, b: int, r: Range)
    requires RangesOk(rs, owner, bl, live) && InPayload(r, bl, b) && b !in live
    ensures RangesOk([r] + rs, [b] + owner, bl, live + {b})
  {
    var rs', owner' := [r] + rs, [b] + owner;
    forall i | 0 <= i < |rs'| ensures owner'[i] in live + {b} && InPayload(rs'[i], bl, owner'[i]) {
      if i > 0 { assert InPayload(rs[i - 1], bl, owner[i - 1]); }
    }
    forall c | c in live + {b} ensures Recorded(owner', c) {
      if c != b { assert Recorded(owner, c); }
    }
    forall i | 0 <= i < |owner| ensures owner[i] != b { assert InPayload(rs[i], bl, owner[i]); }
  }

  lemma {:induction false} DroppedAt(rs: seq<Range>, i: int)
    requires 0 <= i < |rs| && forall j :: 0 <= j < |rs| && j != i ==> rs[j].lo != rs[i].lo
    ensures Dropped(rs, rs[i].lo) == rs[..i] + rs[i + 1..]
  {
    if i > 0 {
      DroppedAt(rs[1..], i - 1);
      assert rs[1..][..i - 1] == rs[1..i] && rs[1..][i..] == rs[i + 1..];
    }
  }

  lemma RangesPulled(rs: seq<Range>, owner: seq<int>, bl: Layout, live: set<int>, i: int)
    requires RangesOk(rs, owner, bl, live) && 0 <= i < |rs|
    ensures RangesOk(rs[..i] + rs[i + 1..], Pull(owner, i), bl, live - {owner[i]})
  {
    var rs', owner' := rs[..i] + rs[i + 1..], Pull(owner, i);
    PullElems(owner, i);
    forall k | 0 <= k < |rs'| ensures owner'[k] in live - {owner[i]} && InPayload(rs'[k], bl, owner'[k]) {
      var k0 := if k < i then k else k + 1;
      assert rs'[k] == rs[k0] && owner'[k] == owner[k0] && owner[k0] != owner[i];
      assert InPayload(rs[k0], bl, owner[k0]);
    }
    forall b | b in live - {owner[i]} ensures Recorded(owner', b) { assert Recorded(owner, b); }
  }

  lemma RangesDropped(rs: seq<Range>, owner: seq<int>, bl: Layout, live: set<int>, b: int) returns (owner': seq<int>)
    requires RangesOk(rs, owner, bl, live) && b in live
    ensures RangesOk(Dropped(rs, 8 * (b + 1)), owner', bl, live - {b})
  {
    assert Recorded(owner, b);
    var i :| 0 <= i < |owner| && owner[i] == b;
    assert InPayload(rs[i], bl, owner[i]);
    forall j | 0 <= j < |rs| && j != i ensures rs[j].lo != rs[i].lo {
      assert owner[j] != owner[i] && InPayload(rs[j], bl, owner[j]);
    }
    DroppedAt(rs, i);
    owner' := Pull(owner, i);
    RangesPulled(rs, owner, bl, live, i);
  }

  // ----- what clients wrote -----

  ghost predicate KeptAt(m: seq<int>, bl: Layout, filled: map<int, seq<int>>, b: int) {
    && b in filled && b in bl && 0 <= b
    && var w := filled[b];
       b + 1 + |w| < End(bl, b) <= |m| && m[b + 1..b + 1 + |w|] == w
  }

  /** Each live block still holds the words that its client wrote. */
  ghost predicate Kept(m: seq<int>, bl: Layout, live: set<int>, filled: map<int, seq<int>>) {
    forall b {:trigger KeptAt(m, bl, filled, b)} :: b in live ==> KeptAt(m, bl, filled, b)
  }

  lemma KeptSame(m: seq<int>, m': seq<int>, bl: Layout, bl': Layout, live: set<int>, filled: map<int, seq<int>>)
    requires Kept(m, bl, live, filled) && |m'| == |m|
    requires forall b :: b in live ==> b in bl && b in bl' && bl'[b] == bl[b] && LiveBlockSame(m, m', bl, b)
    ensures Kept(m', bl', live, filled)
  {
    forall b | b in live ensures KeptAt(m', bl', filled, b) {
      assert KeptAt(m, bl, filled, b) && LiveBlockSame(m, m', bl, b);
      var w := filled[b];
      assert m'[b + 1..b + 1 + |w|] == m[b + 1..b + 1 + |w|];
    }
  }

  lemma FillKept(m: seq<int>, m': seq<int>, bl: Layout, live: set<int>, filled: map<int, seq<int>>, b: int, w: seq<int>)
    requires Kept(m, bl, live, filled) && |m'| == |m|
    requires forall c :: c in live ==> c in bl && LiveBlockSame(m, m', bl, c)
    requires b !in live && KeptAt(m', bl, map[b := w], b)
    ensures Kept(m', bl, live + {b}, filled[b := w])
  {
    KeptSame(m, m', bl, bl, live, filled);
    forall c | c in live + {b} ensures KeptAt(m', bl, filled[b := w], c) {
      assert c != b ==> KeptAt(m', bl, filled, c);
    }
  }

  ghost predicate PointsInto(payload: map<int, int>, live: set<int>, id: int) {
    id in payload && payload[id] - 1 in live
  }

  ghost predicate Differ(payload: map<int, int>, id: int, id': int) {
    id in payload && id' in payload && payload[id] != payload[id']
  }

  /** Each live id has a live block of its own. */
  ghost predicate IdsOk(payload: map<int, int>, live: set<int>, ids: set<int>) {
    && (forall id {:trigger PointsInto(payload, live, id)} :: id in ids ==> PointsInto(payload, live, id))
    && (forall id, id' {:trigger Differ(payload, id, id')} ::
          id in ids && id' in ids && id != id' ==> Differ(payload, id, id'))
  }

  /** Byte `k` of a word, the lowest first. */
  function Byte(w: int, k: nat): int
    decreases k
  {
    if k == 0 then w % 256 else Byte(w / 256, k - 1)
  }

  /** The word `w` with the byte `x` in its first `r` places. */
  function Overlaid(x: int, w: int, r: nat): int
    decreases r
  {
    if r == 0 then w else x + 256 * Overlaid(x, w / 256, r - 1)
  }

  lemma {:induction false} OverlaidBytes(x: int, w: int, r: nat, k: nat)
    requires 0 <= x < 256
    ensures Byte(Overlaid(x, w, r), k) == if k < r then x else Byte(w, k)
    decreases r
  {
    if r > 0 {
      ByteShift(x, Overlaid(x, w / 256, r - 1), k);
      if k > 0 {
        OverlaidBytes(x, w / 256, r - 1, k - 1);
      }
    }
  }

  lemma ByteShift(x: int, rest: int, k: nat)
    requires 0 <= x < 256
    ensures Byte(x + 256 * rest, k) == if k == 0 then x else Byte(rest, k - 1)
  {
    var w := x + 256 * rest;
    assert w / 256 == rest && w % 256 == x;
  }

  ghost predicate ByteIs(w: seq<int>, k: nat, x: int) {
    k / 8 < |w| ==> Byte(w[k / 8], k % 8) == x
  }

  /** The first `n` bytes, as far as there are words for them, are the low byte of the id. */
  ghost predicate Patterned(w: seq<int>, id: int, n: int) {
    forall k {:trigger ByteIs(w, k, id % 256)} :: 0 <= k < n ==> ByteIs(w, k, id % 256)
  }

  lemma PatternGrows(w: seq<int>, id: int, n: int, was: int, v: int)
    requires Patterned(w, id, n) && 8 * |w| < n
    requires v == Overlaid(id % 256, was, if n - 8 * |w| < 8 then n - 8 * |w| else 8)
    ensures Patterned(w + [v], id, n)
  {
    forall k | 0 <= k < n ensures ByteIs(w + [v], k, id % 256) {
      assert ByteIs(w, k, id % 256);
      if k / 8 == |w| {
        OverlaidBytes(id % 256, was, if n - 8 * |w| < 8 then n - 8 * |w| else 8, k % 8);
      }
    }
  }

  /** The payload at `p` is what the id asked for: a range of n bytes, a block with room for them, its pattern in it. */
  ghost predicate Holds(bl: Layout, rs: seq<Range>, filled: map<int, seq<int>>, p: int, id: int, n: int) {
    && p - 1 in bl && p - 1 in filled
    && Range(8 * p, 8 * p + n - 1) in rs
    && 8 * bl[p - 1].words >= n + TAGS_SIZE
    && n <= 8 * |filled[p - 1]| && Patterned(filled[p - 1], id, n)
  }

  ghost predicate Owns(bl: Layout, rs: seq<Range>, filled: map<int, seq<int>>, payload: map<int, int>, id: int,
                       n: int) {
    id in payload && Holds(bl, rs, filled, payload[id], id, n)
  }

  ghost predicate AllOwn(bl: Layout, rs: seq<Range>, filled: map<int, seq<int>>, payload: map<int, int>,
                         sizes: map<int, int>) {
    forall id {:trigger Owns(bl, rs, filled, payload, id, sizes[id])} :: id in sizes ==>
      Owns(bl, rs, filled, payload, id, sizes[id])
  }

  /** Owners keep what they have while their blocks, words and ranges stay; `gone` is where a range was dropped. */
  lemma OwnersStay(bl: Layout, bl': Layout, rs: seq<Range>, rs': seq<Range>, filled: map<int, seq<int>>,
                   filled': map<int, seq<int>>, payload: map<int, int>, sizes: map<int, int>, live: set<int>, gone: int)
    requires AllOwn(bl, rs, filled, payload, sizes) && IdsOk(payload, live, sizes.Keys)
    requires forall b :: b in live ==> b in bl && b in bl' && bl'[b] == bl[b]
    requires forall b :: b in live && b in filled ==> b in filled' && filled'[b] == filled[b]
    requires forall r :: r in rs && r.lo != gone ==> r in rs'
    requires forall id :: id in sizes && id in payload ==> 8 * payload[id] != gone
    ensures AllOwn(bl', rs', filled', payload, sizes)
  {
    forall id | id in sizes ensures Owns(bl', rs', filled', payload, id, sizes[id]) {
      assert Owns(bl, rs, filled, payload, id, sizes[id]);
      assert PointsInto(payload, live, id);
    }
  }

  lemma OwnerAdded(bl: Layout, rs: seq<Range>, filled: map<int, seq<int>>, payload: map<int, int>,
                   sizes: map<int, int>, live: set<int>, id: int, p: int, n: int)
    requires AllOwn(bl, rs, filled, payload, sizes) && Holds(bl, rs, filled, p, id, n)
    requires IdsOk(payload, live, sizes.Keys) && p - 1 !in live
    ensures AllOwn(bl, rs, filled, payload[id := p], sizes[id := n])
    ensures IdsOk(payload[id := p], live + {p - 1}, sizes[id := n].Keys)
  {
    var sizes' := sizes[id := n];
    IdAdded(payload, live, sizes.Keys, id, p);
    assert sizes'.Keys == sizes.Keys + {id};
    forall i | i in sizes' ensures Owns(bl, rs, filled, payload[id := p], i, sizes'[i]) {
      if i != id { assert Owns(bl, rs, filled, payload, i, sizes[i]); }
    }
  }

  lemma OwnerRemoved(bl: Layout, rs: seq<Range>, filled: map<int, seq<int>>, payload: map<int, int>,
                     sizes: map<int, int>, id: int)
    requires AllOwn(bl, rs, filled, payload, sizes)
    ensures AllOwn(bl, rs, filled, payload, sizes - {id}) && (sizes - {id}).Keys == sizes.Keys - {id}
  {
    var sizes' := sizes - {id};
    forall i | i in sizes' ensures Owns(bl, rs, filled, payload, i, sizes'[i]) {
      assert Owns(bl, rs, filled, payload, i, sizes[i]);
    }
  }

  lemma {:induction false} DroppedKeeps(rs: seq<Range>, lo: int, r: Range)
    requires r in rs && r.lo != lo
    ensures r in Dropped(rs, lo)
  {
    if rs[0].lo != lo && rs[0] != r {
      DroppedKeeps(rs[1..], lo, r);
    }
  }

  lemma IdAdded(payload: map<int, int>, live: set<int>, ids: set<int>, id: int, p: int)
    requires IdsOk(payload, live, ids) && p - 1 !in live
    ensures IdsOk(payload[id := p], live + {p - 1}, ids + {id})
  {
    forall i | i in ids + {id} ensures PointsInto(payload[id := p], live + {p - 1}, i) {
      assert i != id ==> PointsInto(payload, live, i);
    }
    forall i, j | i in ids + {id} && j in ids + {id} && i != j ensures Differ(payload[id := p], i, j) {
      assert i != id ==> PointsInto(payload, live, i);
      assert j != id ==> PointsInto(payload, live, j);
      assert i != id && j != id ==> Differ(payload, i, j);
    }
  }

  lemma IdRemoved(payload: map<int, int>, live: set<int>, ids: set<int>, id: int)
    requires IdsOk(payload, live, ids) && id in ids
    ensures PointsInto(payload, live, id) && IdsOk(payload, live - {payload[id] - 1}, ids - {id})
    ensures forall i :: i in ids - {id} ==> i in payload && payload[i] != payload[id]
  {
    assert PointsInto(payload, live, id);
    forall i | i in ids - {id} ensures PointsInto(payload, live - {payload[id] - 1}, i) && payload[i] != payload[id] {
      assert PointsInto(payload, live, i) && Differ(payload, i, id);
    }
    forall i, j | i in ids - {id} && j in ids - {id} && i != j ensures Differ(payload, i, j) { }
  }

  lemma KeptLess(m: seq<int>, m': seq<int>, bl: Layout, bl': Layout, live: set<int>, live': set<int>,
                 filled: map<int, seq<int>>)
    requires Kept(m, bl, live, filled) && |m'| == |m| && live' <= live && LiveSame(m, m', bl')
    requires forall b :: b in live' ==> b in bl && b in bl' && bl'[b] == bl[b] && bl[b].alloc
    ensures Kept(m', bl', live', filled)
  {
    forall b | b in live' ensures LiveBlockSame(m, m', bl, b) {
      assert LiveBlockSame(m, m', bl', b);
    }
    KeptSame(m, m', bl, bl', live', filled);
  }

  /** Two tables have the same pointers for `ids`, and the second has no others. */
  ghost predicate Agree(payload: map<int, int>, model: map<int, int>, ids: set<int>) {
    model.Keys == ids && forall id :: id in ids ==> id in payload && payload[id] == model[id]
  }

  lemma AgreeOnOneMore(payload: map<int, int>, model: map<int, int>, sizes: map<int, int>, id: int, p: int, n: int)
    requires Agree(payload, model, sizes.Keys)
    ensures Agree(payload[id := p], model[id := p], sizes[id := n].Keys)
  {
  }

  lemma AgreeOnOneLess(payload: map<int, int>, model: map<int, int>, sizes: map<int, int>, id: int)
    requires Agree(payload, model, sizes.Keys)
    ensures Agree(payload, model - {id}, (sizes - {id}).Keys)
  {
  }

  class Tester {
    const heap: Heap
    var ranges: seq<Range>               // newest first
    var payload: map<int, int>           // trace->blocks: id to payload pointer
    ghost var owner: seq<int>            // the block of each range
    ghost var filled: map<int, seq<int>> // the words each client wrote

    constructor (heap: Heap)
      ensures this.heap == heap && ranges == [] && payload == map[]
    {
      this.heap := heap;
      ranges, payload, owner, filled := [], map[], [], map[];
    }

    /** add_range (malloc/mdriver.c:347-394). */
    method AddRange(lo: int, size: int) returns (ok: bool)
      requires size > 0
      modifies this`ranges
      ensures ok <==> lo % 8 == 0 && 0 <= lo && lo + size <= heap.brk && Clear(old(ranges), lo, lo + size - 1)
      ensures ranges == if ok then [Range(lo, lo + size - 1)] + old(ranges) else old(ranges)
    {
      var hi := lo + size - 1;
      if lo % 8 != 0 {
        return false;
      }
      if lo < 0 || lo > heap.brk - 1 || hi < 0 || hi > heap.brk - 1 {
        return false;
      }
      var i := 0;
      while i < |ranges|
        invariant 0 <= i <= |ranges|
        invariant forall j :: 0 <= j < i ==> !Overlaps(lo, hi, ranges[j])
      {
        var p := ranges[i];
        if (lo >= p.lo && lo <= p.hi) || (hi >= p.lo && hi <= p.hi) {
          assert Overlaps(lo, hi, ranges[i]);
          return false;
        }
        i := i + 1;
      }
      ranges := [Range(lo, hi)] + ranges;
      return true;
    }

    /** remove_range (malloc/mdriver.c:399-411). */
    method RemoveRange(lo: int)
      modifies this`ranges
      ensures ranges == Dropped(old(ranges), lo)
    {
      var i := 0;
      while i < |ranges|
        invariant 0 <= i <= |ranges| && ranges == old(ranges)
        invariant Dropped(ranges, lo) == ranges[..i] + Dropped(ranges[i..], lo)
      {
        assert ranges[i..][1..] == ranges[i + 1..];
        if ranges[i].lo == lo {
          ranges := ranges[..i] + ranges[i + 1..];
          return;
        }
        assert ranges[..i] + [ranges[i]] == ranges[..i + 1];
        i := i + 1;
      }
      assert ranges[i..] == [] && ranges[..i] == ranges;
    }

    /** Ranges and recorded words agree with the heap. */
    ghost predicate Sound()
      reads this`ranges, this`owner, this`filled, heap, heap.mem
    {
      && heap.Valid() && RangesOk(ranges, owner, heap.blocks, heap.Live())
      && Kept(heap.mem[..], heap.blocks, heap.Live(), filled)
    }

    /** Between two operations of a trace whose live ids have asked for `sizes`. */
    ghost predicate Consistent(sizes: map<int, int>)
      reads this, heap, heap.mem
    {
      Sound() && IdsOk(payload, heap.Live(), sizes.Keys) && AllOwn(heap.blocks, ranges, filled, payload, sizes)
    }

    /** One allocation of the trace (malloc/mdriver.c:562-588): the driver accepts it unless memory has run out. */
    method DoAlloc(id: int, size: int, ghost sizes: map<int, int>) returns (p: int, ok: bool)
      requires Consistent(sizes) && size > 0 && Needed(size) <= INT_MAX
      modifies this, heap, heap.mem
      ensures ok <==> !old(OutOfMemory(size))
      ensures !ok ==> Consistent(sizes) && OutOfMemory(size) && heap.Live() == old(heap.Live())
      ensures !ok ==> payload == old(payload) && filled == old(filled) && heap.brk == old(heap.brk)
      ensures ok ==> Consistent(sizes[id := size]) && payload == old(payload)[id := p]
      ensures ok ==> p - 1 !in old(heap.Live()) && heap.Live() == old(heap.Live()) + {p - 1}
      ensures ok ==> p - 1 in filled && filled == old(filled)[p - 1 := filled[p - 1]]
      ensures old(heap.brk) <= heap.brk <= old(heap.brk) + Needed(size)
      ensures var o := Allocated(old(heap.AsModel()), Needed(size) / 8, heap.mem.Length);
        if ok then o == Done(heap.AsModel(), p - 1) else o == Failed && heap.AsModel() == old(heap.AsModel())
    {
      ghost var bl0, live0, rs0, filled0 := heap.blocks, heap.Live(), ranges, filled;
      p, ok := AllocAndCheck(id, size);
      if ok {
        OwnersStay(bl0, heap.blocks, rs0, ranges, filled0, filled, payload, sizes, live0, -1);
        OwnerAdded(heap.blocks, ranges, filled, payload, sizes, live0, id, p, size);
        payload := payload[id := p];
      }
    }

    /** mm_malloc, add_range and memset. */
    method AllocAndCheck(id: int, size: int) returns (p: int, ok: bool)
      requires Sound() && size > 0 && Needed(size) <= INT_MAX
      modifies this`ranges, this`owner, this`filled, heap, heap.mem
      ensures Sound() && old(heap.brk) <= heap.brk <= old(heap.brk) + Needed(size)
      ensures ok <==> !old(OutOfMemory(size))
      ensures !ok ==> OutOfMemory(size) && filled == old(filled) && ranges == old(ranges)
      ensures !ok ==> heap.Live() == old(heap.Live()) && heap.brk == old(heap.brk)
      ensures ok ==> p - 1 !in old(heap.Live()) && heap.Live() == old(heap.Live()) + {p - 1}
      ensures ok ==> ranges == [Range(8 * p, 8 * p + size - 1)] + old(ranges)
      ensures ok ==> Holds(heap.blocks, ranges, filled, p, id, size)
      ensures ok ==> p - 1 in filled && filled == old(filled)[p - 1 := filled[p - 1]]
      ensures forall b :: b in old(heap.Live()) ==> b in heap.blocks && heap.blocks[b] == old(heap.blocks)[b]
      ensures var o := Allocated(old(heap.AsModel()), Needed(size) / 8, heap.mem.Length);
        if ok then o == Done(heap.AsModel(), p - 1) else o == Failed && heap.AsModel() == old(heap.AsModel())
    {
      ghost var live0, bl0 := heap.Live(), heap.blocks;
      NeededFits(size);
      p := heap.Malloc(size);
      if p == NULL {
        return p, false;
      }
      KeptSame(old(heap.mem[..]), heap.mem[..], bl0, heap.blocks, live0, filled);
      ok := Record(p, size, live0, bl0);
      if ok {
        Fill(id, p, size, live0);
        assert ranges[0] == Range(8 * p, 8 * p + size - 1);
      }
    }

    /** add_range on the payload of a block that was not live before. */
    method Record(p: int, size: int, ghost live0: set<int>, ghost bl0: Layout) returns (ok: bool)
      requires heap.Valid() && size > 0 && RangesOk(ranges, owner, bl0, live0)
      requires p - 1 !in live0 && heap.Live() == live0 + {p - 1} && 8 * heap.blocks[p - 1].words >= Needed(size)
      requires forall b :: b in live0 ==> b in bl0 && b in heap.blocks && heap.blocks[b] == bl0[b]
      modifies this`ranges, this`owner
      ensures ok && RangesOk(ranges, owner, heap.blocks, heap.Live())
      ensures ranges == [Range(8 * p, 8 * p + size - 1)] + old(ranges)
      ensures InPayload(Range(8 * p, 8 * p + size - 1), heap.blocks, p - 1)
    {
      RangesSame(ranges, owner, bl0, heap.blocks, live0);
      ghost var r := Range(8 * p, 8 * p + size - 1);
      PayloadOf(p, size);
      NewPayloadClear(ranges, owner, heap.blocks, heap.epilogue + 4, live0, p - 1, r);
      RangesAdded(ranges, owner, heap.blocks, live0, p - 1, r);
      ok := AddRange(8 * p, size);
      owner := [p - 1] + owner;
    }

    /** No free block fits the request and the heap cannot grow by it. */
    ghost predicate OutOfMemory(size: int)
      reads heap, heap.mem
    {
      heap.Valid() && heap.brk + Needed(size) > 8 * heap.mem.Length &&
          NoneFits(heap.blocks, heap.free, Needed(size) / 8)
    }

    /** The block that mm_malloc returns has room for the request, inside the heap. */
    lemma PayloadOf(p: int, size: int)
      requires heap.Valid() && size > 0 && p - 1 in heap.Live() && 8 * heap.blocks[p - 1].words >= Needed(size)
      ensures InPayload(Range(8 * p, 8 * p + size - 1), heap.blocks, p - 1) && 8 * p + size <= heap.brk && 0 <= p
    {
      NeededFits(size);
      heap.Reads(p - 1);
    }

    /** memset over the payload (malloc/mdriver.c:584), a word at a time; the last word is written in part. */
    method Fill(id: int, p: int, size: int, ghost live: set<int>)
      requires heap.Valid() && p - 1 in heap.Live() && size > 0 &&
               InPayload(Range(8 * p, 8 * p + size - 1), heap.blocks, p - 1)
      requires p - 1 !in live && live <= heap.Live() && Kept(heap.mem[..], heap.blocks, live, filled)
      modifies heap.mem, this`filled
      ensures heap.Valid() && Kept(heap.mem[..], heap.blocks, live + {p - 1}, filled)
      ensures p - 1 in filled && filled == old(filled)[p - 1 := filled[p - 1]]
      ensures size <= 8 * |filled[p - 1]| && Patterned(filled[p - 1], id, size)
    {
      heap.Reads(p - 1);
      var i := 0;
      while 8 * i < size
        invariant 0 <= i && 8 * i < size + 8 && heap.Valid() && unchanged(heap) && filled == old(filled)
        invariant forall x :: 0 <= x < heap.mem.Length && !(p <= x < p + i) ==> heap.mem[x] == old(heap.mem[x])
        invariant p + i <= heap.mem.Length && Patterned(heap.mem[p..p + i], id, size)
      {
        ghost var w, was := heap.mem[p..p + i], heap.mem[p + i];
        var v := Overlaid(id % 256, heap.mem[p + i], if size - 8 * i < 8 then size - 8 * i else 8);
        PatternGrows(w, id, size, was, v);
        heap.ClientWrite(p - 1, p + i, v);
        assert heap.mem[p..p + (i + 1)] == w + [v];
        assert forall x :: 0 <= x < heap.mem.Length ==> heap.mem[x] == heap.mem[..][x];
        i := i + 1;
      }
      forall b | b in live ensures LiveBlockSame(old(heap.mem[..]), heap.mem[..], heap.blocks, b) {
        heap.Reads(b);
        BlocksDisjoint(heap.blocks, heap.epilogue + 4, b, p - 1);
      }
      FillKept(old(heap.mem[..]), heap.mem[..], heap.blocks, live, filled, p - 1, heap.mem[p..p + i]);
      filled := filled[p - 1 := heap.mem[p..p + i]];
    }

    /** One free of the trace (malloc/mdriver.c:629-634). */
    method DoFree(id: int, ghost sizes: map<int, int>)
      requires Consistent(sizes) && id in sizes
      modifies this, heap, heap.mem
      ensures Consistent(sizes - {id})
      ensures filled == old(filled) && payload == old(payload) && heap.brk == old(heap.brk) && id in payload
      ensures heap.Live() == old(heap.Live()) - {payload[id] - 1}
      ensures CanRelease(old(heap.AsModel()), payload[id] - 1)
      ensures heap.AsModel() == Released(old(heap.AsModel()), payload[id] - 1)
    {
      ghost var bl0, rs0 := heap.blocks, ranges;
      IdRemoved(payload, heap.Live(), sizes.Keys, id);
      OwnerRemoved(heap.blocks, ranges, filled, payload, sizes, id);
      ReleaseBlock(payload[id]);
      forall r | r in rs0 && r.lo != 8 * payload[id] ensures r in ranges {
        DroppedKeeps(rs0, 8 * payload[id], r);
      }
      OwnersStay(bl0, heap.blocks, rs0, ranges, filled, filled, payload, sizes - {id}, heap.Live(), 8 * payload[id]);
    }

    /** remove_range and mm_free. */
    method ReleaseBlock(p: int)
      requires Sound() && p - 1 in heap.Live()
      modifies this`ranges, this`owner, heap, heap.mem
      ensures Sound() && heap.brk == old(heap.brk) && heap.Live() == old(heap.Live()) - {p - 1}
      ensures ranges == Dropped(old(ranges), 8 * p)
      ensures forall b :: b in heap.Live() ==> b in heap.blocks && heap.blocks[b] == old(heap.blocks)[b]
      ensures CanRelease(old(heap.AsModel()), p - 1) && heap.AsModel() == Released(old(heap.AsModel()), p - 1)
    {
      ghost var bl0, live0 := heap.blocks, heap.Live();
      heap.Reads(p - 1);
      RemoveRange(8 * p);
      owner := RangesDropped(old(ranges), owner, heap.blocks, live0, p - 1);
      heap.Free(p);
      KeptLess(old(heap.mem[..]), heap.mem[..], bl0, heap.blocks, live0, heap.Live(), filled);
      RangesSame(ranges, owner, bl0, heap.blocks, heap.Live());
    }

    /** The heap and the pointers are those of the model. */
    ghost predicate Follows(f: Fate, ids: set<int>)
      reads this, heap
    {
      f.Alive? && heap.AsModel() == f.sim.model && Agree(payload, f.sim.payload, ids)
    }

    /**
     The state that the operations `done` lead to: the live ids own what they asked for, there are as many
     live blocks, the heap has not grown beyond the demand, and all is as in the model.
     */
    ghost predicate Reached(done: seq<TraceOp>)
      reads this, heap, heap.mem
    {
      && Consistent(Asked(done)) && |heap.Live()| == Balance(done)
      && heap.brk <= 3 * MINBLOCKSIZE + Demand(done)
      && Follows(Simulated(done, heap.mem.Length), Asked(done).Keys)
    }

    /** The operation reached is an allocation that the heap, in the state it has grown to, cannot meet. */
    ghost predicate Exhausted(ops: seq<TraceOp>, k: int)
      reads this, heap, heap.mem
    {
      && 0 <= k < |ops| && ops[k].Alloc? && OutOfMemory(ops[k].size) && Reached(ops[..k])
      && Simulated(ops[..k + 1], heap.mem.Length).Dead?
    }

    /** A trace whose whole demand fits is never cut short. */
    lemma ExhaustedMeansDemand(ops: seq<TraceOp>, k: int)
      requires Exhausted(ops, k) && WellFormed(ops, {})
      ensures 3 * MINBLOCKSIZE + Demand(ops) > 8 * heap.mem.Length
    {
      forall i | 0 <= i < |ops| && ops[i].Alloc? ensures ops[i].size > 0 {
        WellFormedSizes(ops, {}, i);
      }
      DemandNext(ops, k);
      DemandGrows(ops, k + 1);
    }

    /** The empty heap and no ranges (malloc/mdriver.c:544-553). */
    method Start() returns (ok: bool)
      requires 8 * heap.mem.Length <= INT_MAX
      modifies this, heap, heap.mem
      ensures ok <==> 3 * MINBLOCKSIZE <= 8 * heap.mem.Length
      ensures ok ==> Reached([])
    {
      heap.ResetBrk();
      ranges, owner, filled := [], [], map[];
      var code := heap.Init();
      ok := code >= 0;
    }

    /** eval_mm_valid (malloc/mdriver.c:537-644) on a trace of allocations and frees. */
    method EvalValid(ops: seq<TraceOp>) returns (r: int)
      requires WellFormed(ops, {}) && 8 * heap.mem.Length <= INT_MAX
      modifies this, heap, heap.mem
      ensures r == 1 ==> Reached(ops)
      ensures r == 0 ==> 8 * heap.mem.Length < 3 * MINBLOCKSIZE || exists k :: Exhausted(ops, k)
      ensures r == 0 || r == 1
      ensures r == 1 <==> 3 * MINBLOCKSIZE <= 8 * heap.mem.Length && Simulated(ops, heap.mem.Length).Alive?
      ensures 3 * MINBLOCKSIZE + Demand(ops) <= 8 * heap.mem.Length ==> r == 1
    {
      DemandIsNatural(ops, {});
      var ok := Start();
      if !ok {
        return 0;
      }
      assert ops[..0] == [] && ops[0..] == ops;
      var i := 0;
      while i < |ops|
        invariant Midway(ops, i)
      {
        var fine := Perform(ops, i);
        if !fine {
          ExhaustedMeansDemand(ops, i);
          DeadStays(ops, heap.mem.Length, i + 1);
          return 0;
        }
        i := i + 1;
      }
      assert ops[..i] == ops;
      return 1;
    }

    /** The first `i` operations have been carried out. */
    ghost predicate Midway(ops: seq<TraceOp>, i: int)
      reads this, heap, heap.mem
    {
      0 <= i <= |ops| && Reached(ops[..i]) && WellFormed(ops[i..], Asked(ops[..i]).Keys)
    }

    /** One operation of the trace (malloc/mdriver.c:556-640). */
    method Perform(ops: seq<TraceOp>, i: int) returns (fine: bool)
      requires Midway(ops, i) && i < |ops|
      modifies this, heap, heap.mem
      ensures if fine then Midway(ops, i + 1) else Exhausted(ops, i)
      ensures fine <==> ops[i].Release? || !old(OutOfMemory(ops[i].size))
    {
      ghost var sizes := Asked(ops[..i]);
      TraceNext(ops, i, heap.mem.Length);
      match ops[i] {
        case Alloc(id, size) =>
          fine := StepAlloc(id, size, sizes, Simulated(ops[..i], heap.mem.Length).sim);
        case Release(id) =>
          StepFree(id, sizes, Simulated(ops[..i], heap.mem.Length).sim);
          fine := true;
      }
    }

    /** An allocation, beside the model. */
    method StepAlloc(id: int, size: int, ghost sizes: map<int, int>, ghost sim: Sim) returns (ok: bool)
      requires Consistent(sizes) && size > 0 && Needed(size) <= INT_MAX && Follows(Alive(sim), sizes.Keys)
      modifies this, heap, heap.mem
      ensures ok <==> !old(OutOfMemory(size))
      ensures old(heap.brk) <= heap.brk <= old(heap.brk) + Needed(size)
      ensures !ok ==> Consistent(sizes) && OutOfMemory(size) && Follows(Alive(sim), sizes.Keys)
      ensures !ok ==> heap.Live() == old(heap.Live()) && heap.brk == old(heap.brk)
      ensures ok ==> Consistent(sizes[id := size]) && |heap.Live()| == |old(heap.Live())| + 1
      ensures var f := Next(sim, Alloc(id, size), heap.mem.Length);
        if ok then Follows(f, sizes[id := size].Keys) else f.Dead?
    {
      ghost var live := heap.Live();
      var p;
      p, ok := DoAlloc(id, size, sizes);
      if ok {
        assert heap.Live() == live + {p - 1};
        AgreeOnOneMore(old(payload), sim.payload, sizes, id, p, size);
      }
    }

    /** A free, beside the model. */
    method StepFree(id: int, ghost sizes: map<int, int>, ghost sim: Sim)
      requires Consistent(sizes) && id in sizes && Follows(Alive(sim), sizes.Keys)
      modifies this, heap, heap.mem
      ensures Consistent(sizes - {id}) && heap.brk == old(heap.brk) && |heap.Live()| == |old(heap.Live())| - 1
      ensures Follows(Next(sim, Release(id), heap.mem.Length), (sizes - {id}).Keys)
    {
      ghost var live := heap.Live();
      assert PointsInto(payload, live, id);
      DoFree(id, sizes);
      assert live == heap.Live() + {payload[id] - 1};
      AgreeOnOneLess(payload, sim.payload, sizes, id);
    }
  }
}
