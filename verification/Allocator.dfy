/**
 The explicit-free-list allocator (malloc/mm.c, malloc/mminline.h, malloc/memlib.c): an
 array of words changed in place.  Pointers are word indices from the start of the heap,
 `NULL` is -1; `brk` and block sizes are in bytes, as in the source.
 */
module Allocator {
  import opened HeapLayout
  import opened LayoutEdits
  import opened FreeList
  import opened BlockOps
  import opened HeapModel

  const TAGS_SIZE := 16
  const MINBLOCKSIZE := 32
  const INT_MAX := 0x7fff_ffff
  const UINT_MAX := 0xffff_ffff

  /** align (malloc/mm.c:17-19). */
  function Align(size: int): int { (size + 7) / 8 * 8 }

  /** The block size that a request needs (malloc/mm.c:232). */
  function Needed(size: int): int {
    if Align(size) + TAGS_SIZE > MINBLOCKSIZE then Align(size) + TAGS_SIZE else MINBLOCKSIZE
  }

  lemma NeededFits(size: int)
    requires 0 < size
    ensures Needed(size) % 8 == 0 && Needed(size) >= MINBLOCKSIZE && Needed(size) >= size + TAGS_SIZE
    ensures 8 * (Needed(size) / 8) == Needed(size)
  {
  }

  /** And it is the smallest such size. */
  lemma NeededIsLeast(size: int, n: int)
    requires 0 < size && n % 8 == 0 && n >= MINBLOCKSIZE && n >= size + TAGS_SIZE
    ensures Needed(size) <= n
  {
  }

  /** smallest (malloc/mm.c:205-211): halves `diff` while half of it exceeds `nsize`. */
  function Smallest(nsize: nat, csize: nat, diff: nat): (r: nat)
    ensures r <= diff && r <= 2 * nsize + 1 && (diff <= 2 * nsize + 1 ==> r == diff)
  {
    if diff / 2 > nsize then Smallest(nsize, csize, diff / 2) else diff
  }

  lemma TagReads(k: Block)
    requires k.words >= 0
    ensures Tag(k) - Tag(k) % 2 == 8 * k.words && (Tag(k) % 2 == 1 <==> k.alloc) && Tag(k) / 8 == k.words
  {
    var a := if k.alloc then 1 else 0;
    assert Tag(k) == 2 * (4 * k.words) + a;
    assert (2 * (4 * k.words) + a) % 2 == a;
    assert (8 * k.words + a) / 8 == k.words;
  }

  lemma MarkCoalesced(bl: Layout, b: int)
    requires Coalesced(bl) && b in bl
    ensures Coalesced(Mark(bl, b, true))
  {
    forall c | c in bl ensures NotBothFree(Mark(bl, b, true), c) {
      assert NotBothFree(bl, c);
    }
  }

  /** Marking a block does not move its neighbours. */
  lemma SamePrevious(bl: Layout, n: int, b: int)
    requires Tiled(bl, n) && b in bl && b != 0 && End(bl, b) in bl
    ensures var bl' := Mark(bl, b, false);
      && (exists p :: p in bl && End(bl, p) == b) && (exists p :: p in bl' && End(bl', p) == b)
      && End(bl', b) in bl' && Previous(bl', b) == Previous(bl, b)
  {
    var bl' := Mark(bl, b, false);
    assert BlockOk(bl, n, b);
    var p := BlockBefore(bl, n, b, 0);
    MarkTiled(bl, n, b, false);
    assert End(bl', p) == b;
    EndInjective(bl, n, p, Previous(bl, b));
    EndInjective(bl', n, p, Previous(bl', b));
  }

  lemma InitialHeap(m: seq<int>)
    requires |m| >= 12
    requires m[0] == m[3] == 33 && m[4] == m[7] == 32 && m[8] == m[11] == 33 && m[5] == 4 && m[6] == 4
    ensures HeapOk(m, map[0 := Block(4, true), 4 := Block(4, false), 8 := Block(4, true)], 12, 8, [4], 4)
  {
    var bl := map[0 := Block(4, true), 4 := Block(4, false), 8 := Block(4, true)];
    forall b | b in bl ensures BlockOk(bl, 12, b) && WrittenAt(m, bl, b) && NotBothFree(bl, b) { }
    assert LinkedAt(m, [4], 0);
  }

  class Heap {
    const mem: array<int>          // the storage that mem_sbrk hands out
    var brk: int                   // mem_brk - mem_start_brk
    var prologue: int
    var epilogue: int
    var first: int                 // flist_first
    ghost var blocks: Layout       // the blocks, from prologue to epilogue
    ghost var free: seq<int>       // the free list, from `first`

    /** mem_init (malloc/memlib.c:27-36), for any MAX_HEAP that an int can hold (malloc/config.h sets 20 MB). */
    constructor (maxHeap: nat)
      requires maxHeap % 8 == 0 && maxHeap <= INT_MAX
      ensures brk == 0 && 8 * mem.Length == maxHeap && fresh(mem)
    {
      mem := new int[maxHeap / 8];
      brk, prologue, epilogue, first := 0, NULL, NULL, NULL;
      blocks, free := map[], [];
    }

    /** What holds inside a call, while the list may miss a block or neighbours may both be free. */
    ghost predicate Sound()
      reads this, mem
    {
      && prologue == 0 && brk == 8 * (epilogue + 4) && 8 * mem.Length <= INT_MAX
      && Shape(mem[..], blocks, epilogue + 4, epilogue)
      && ListOk(mem[..], blocks, free, first)
    }

    /** The invariant between calls. */
    ghost predicate Valid()
      reads this, mem
    {
      Sound() && ListsAll(blocks, free) && Coalesced(blocks)
    }

    /** The state of the heap in the model. */
    ghost function AsModel(): Model
      reads this
    {
      Model(blocks, free, epilogue)
    }

    /** The blocks in clients' hands. */
    ghost function Live(): set<int>
      reads this
    {
      set b | b in blocks && blocks[b].alloc && b != 0 && b != epilogue
    }

    // ----- memlib.c -----

    /** mem_reset_brk (malloc/memlib.c:51-53). */
    method ResetBrk()
      modifies this`brk
      ensures brk == 0
    {
      brk := 0;
    }

    /** mem_sbrk (malloc/memlib.c:63-73). */
    method Sbrk(incr: int) returns (p: int)
      requires 0 <= brk
      modifies this`brk
      ensures incr < 0 || old(brk) + incr > 8 * mem.Length ==> p == -1 && brk == old(brk)
      ensures !(incr < 0 || old(brk) + incr > 8 * mem.Length) ==> p == old(brk) && brk == old(brk) + incr
    {
      p := brk;
      if incr < 0 || brk + incr > 8 * mem.Length {
        return -1;
      }
      brk := brk + incr;
    }

    // ----- tags (malloc/mminline.h:11-96) -----

    function BlockSize(b: int): int
      reads mem
      requires 0 <= b < mem.Length
    {
      mem[b] - mem[b] % 2
    }

    predicate BlockAllocated(b: int)
      reads mem
      requires 0 <= b < mem.Length
    {
      mem[b] % 2 == 1
    }

    /** block_set_size: keeps whatever allocated bit the header word has. */
    method SetSize(b: int, size: int)
      requires 0 <= b && size % 8 == 0 && size >= 16 && b + size / 8 <= mem.Length
      modifies mem
      ensures mem[..] == SetTags(old(mem[..]), b, Block(size / 8, old(mem[b]) % 2 == 1))
    {
      var a := mem[b] % 2 == 1;
      var tag := size + (if a then 1 else 0);
      assert tag == Tag(Block(size / 8, a)) && tag / 8 == size / 8;
      mem[b] := tag;
      mem[b + tag / 8 - 1] := tag;
      assert mem[..] == SetTags(old(mem[..]), b, Block(size / 8, a));
    }

    /** block_set_allocated. */
    method SetAllocated(b: int, alloc: bool)
      requires 0 <= b < mem.Length && mem[b] >= 16 && SizeBytes(mem[b]) % 8 == 0 && b + mem[b] / 8 <= mem.Length
      requires mem[b + mem[b] / 8 - 1] == mem[b]
      modifies mem
      ensures mem[..] == SetTags(old(mem[..]), b, Block(old(mem[b]) / 8, alloc))
    {
      ghost var k := Block(mem[b] / 8, alloc);
      var bit := if alloc then 1 else 0;
      assert SizeBytes(mem[b]) + bit == Tag(k) && Tag(k) / 8 == mem[b] / 8;
      mem[b] := SizeBytes(mem[b]) + bit;
      mem[b + mem[b] / 8 - 1] := SizeBytes(mem[b + mem[b] / 8 - 1]) + bit;
    }

    /** block_set_size_and_allocated. */
    method SetSizeAndAllocated(b: int, size: int, alloc: bool)
      requires 0 <= b && size % 8 == 0 && size >= 16 && b + size / 8 <= mem.Length
      modifies mem
      ensures mem[..] == SetTags(old(mem[..]), b, Block(size / 8, alloc))
    {
      SetSize(b, size);
      assert mem[b] == mem[..][b] && mem[b + size / 8 - 1] == mem[..][b + size / 8 - 1];
      TagReads(Block(size / 8, false));
      TagReads(Block(size / 8, true));
      SetAllocated(b, alloc);
      assert SetTags(old(mem[..]), b, Block(size / 8, alloc)) == mem[..];
    }

    /** The accessors read what the layout says. */
    lemma Reads(b: int)
      requires Sound() && b in blocks
      ensures 0 <= b && b + 4 <= End(blocks, b) <= epilogue + 4 <= mem.Length
      ensures BlockSize(b) == 8 * blocks[b].words && (BlockAllocated(b) <==> blocks[b].alloc)
    {
      assert BlockOk(blocks, epilogue + 4, b) && WrittenAt(mem[..], blocks, b);
      TagReads(blocks[b]);
    }

    /** The links of the i-th free block. */
    lemma LinkReads(i: int)
      requires Sound() && 0 <= i < |free|
      ensures free[i] in blocks && !blocks[free[i]].alloc && 0 <= free[i] && free[i] + 3 < mem.Length
      ensures mem[free[i] + 1] == free[Succ(i, |free|)] && mem[free[i] + 2] == free[Pred(i, |free|)]
    {
      assert LinkedAt(mem[..], free, i);
      Reads(free[i]);
    }

    // ----- the free list (malloc/mminline.h:113-173) -----

    /** block_next_free and block_prev_free. */
    function NextFree(b: int): int
      reads mem
      requires 0 <= b && b + 1 < mem.Length
    {
      mem[b + 1]
    }

    function PrevFree(b: int): int
      reads mem
      requires 0 <= b && b + 2 < mem.Length
    {
      mem[b + 2]
    }

    /** Bypass `fb` in the links of its two neighbours (malloc/mminline.h:149-150). */
    method Bypass(fb: int, ghost i: int)
      requires InBounds(mem[..], free) && Spaced(free) && 0 <= i < |free| && free[i] == fb && |free| >= 2
      requires LinkedAt(mem[..], free, i)
      modifies mem
      ensures mem[..] == PullWrites(old(mem[..]), free, i)
    {
      ghost var p, s := Pred(i, |free|), Succ(i, |free|);
      TwoApart(free, i, p);
      TwoApart(free, i, s);
      assert mem[..][fb + 1] == mem[fb + 1] == free[s] && mem[..][fb + 2] == mem[fb + 2] == free[p];
      mem[PrevFree(fb) + 1] := NextFree(fb);
      mem[NextFree(fb) + 2] := PrevFree(fb);
    }

    /** pull_free_block. */
    method PullFree(fb: int, ghost i: int)
      requires Sound() && 0 <= i < |free| && free[i] == fb
      modifies mem, this`first, this`free
      ensures Sound() && free == Pull(old(free), i)
      ensures LiveSame(old(mem[..]), mem[..], blocks)
    {
      LinkReads(i);
      Reads(fb);
      assert !BlockAllocated(fb);
      if first == fb {
        first := NextFree(fb);
        if first == fb {
          first := NULL;
          free := [];
          LiveSameRefl(mem[..], blocks, epilogue + 4, epilogue);
          return;
        }
      }
      PullEffect(mem[..], blocks, epilogue + 4, epilogue, free, old(first), i);
      FreeIsSpaced(blocks, epilogue + 4, free);
      Bypass(fb, i);
      free := Pull(free, i);
    }

    /** The writes of insert_free_block. */
    method InsertLinks(fb: int)
      requires 0 <= fb && fb + 2 < mem.Length && InBounds(mem[..], free)
      requires first == (if free == [] then NULL else free[0])
      requires free != [] ==> LinkedAt(mem[..], free, 0)
      modifies mem, this`first
      ensures first == fb && mem[..] == InsertWrites(old(mem[..]), free, fb)
    {
      if first != NULL {
        assert mem[..][first + 2] == mem[first + 2];
        var last := PrevFree(first);
        mem[fb + 1] := first;
        mem[fb + 2] := last;
        mem[last + 1] := fb;
        mem[first + 2] := fb;
      } else {
        mem[fb + 1] := fb;
        mem[fb + 2] := fb;
      }
      first := fb;
    }

    /** insert_free_block. */
    method InsertFree(fb: int)
      requires Sound() && fb in blocks && !blocks[fb].alloc && fb !in free
      modifies mem, this`first, this`free
      ensures Sound() && free == [fb] + old(free)
      ensures LiveSame(old(mem[..]), mem[..], blocks)
    {
      Reads(fb);
      assert !BlockAllocated(fb);
      InsertEffect(mem[..], blocks, epilogue + 4, epilogue, free, first, fb);
      InsertLinks(fb);
      free := [fb] + free;
    }

    // ----- mm.c -----

    /** coalesce_helper (malloc/mm.c:83-102): is the block in the free list? */
    method InFreeList(ptr: int) returns (found: bool)
      requires Sound() && free != []
      ensures found <==> ptr in free
    {
      var block := first;
      if block == ptr { return true; }
      LinkReads(0);
      block := NextFree(block);
      ghost var i := Succ(0, |free|);
      while first != block
        invariant 0 <= i < |free| && block == free[i]
        invariant forall j :: 0 <= j < (if i == 0 then |free| else i) ==> free[j] != ptr
        decreases if i == 0 then 0 else |free| - i
      {
        if block == ptr { return true; }
        LinkReads(i);
        block := NextFree(block);
        i := Succ(i, |free|);
      }
      assert i == 0;
      return false;
    }

    /** block_prev (malloc/mminline.h:89-91) is the block that ends where `b` starts. */
    method BlockPrev(b: int) returns (p: int)
      requires Sound() && b in blocks && b != 0
      ensures p in blocks && End(blocks, p) == b && 0 <= p < b
      ensures forall c :: c in blocks && End(blocks, c) == b ==> c == p
    {
      ghost var q := BlockBefore(blocks, epilogue + 4, b, 0) by { assert BlockOk(blocks, epilogue + 4, b); }
      forall c | c in blocks && End(blocks, c) == b ensures c == q {
        EndInjective(blocks, epilogue + 4, c, q);
      }
      assert WrittenAt(mem[..], blocks, q);
      Reads(q);
      TagReads(blocks[q]);
      p := b - BlockSize(b - 1) / 8;
    }

    /** block_next (malloc/mminline.h:94-96). */
    method BlockNext(b: int) returns (p: int)
      requires Sound() && b in blocks
      ensures p == End(blocks, b)
    {
      Reads(b);
      p := b + BlockSize(b) / 8;
    }

    /** Only the epilogue ends at the end of the heap. */
    lemma NextExists(b: int)
      requires Sound() && b in blocks && b != epilogue
      ensures End(blocks, b) in blocks
    {
      assert BlockOk(blocks, epilogue + 4, b) && BlockOk(blocks, epilogue + 4, epilogue);
    }

    /** The free block at `p` is resized to reach `hi`. */
    method AbsorbInto(p: int, size: int, ghost hi: int)
      requires Sound() && p in blocks && hi in blocks && p < hi && size == 8 * (hi - p)
      requires forall c :: c in blocks && p <= c < hi ==> !blocks[c].alloc
      requires forall f :: f in free ==> !(p < f < hi)
      modifies mem, this`blocks
      ensures Sound() && blocks == Absorb(old(blocks), p, hi)
      ensures LiveSame(old(mem[..]), mem[..], old(blocks))
    {
      AbsorbEffect(mem[..], blocks, epilogue + 4, epilogue, free, first, p, hi);
      SetSizeAndAllocated(p, size, false);
      blocks := Absorb(blocks, p, hi);
    }

    /** The previous block is free: it takes over `ptr` (malloc/mm.c:126-133). */
    method JoinPrev(ptr: int, prev: int, ghost i: int)
      requires Sound() && 0 <= i < |free| && free[i] == ptr && ptr in blocks && End(blocks, ptr) in blocks
      requires prev in blocks && End(blocks, prev) == ptr && !blocks[prev].alloc
      modifies mem, this`blocks, this`first, this`free
      ensures Sound() && blocks == Absorb(old(blocks), prev, End(old(blocks), ptr)) && free == Pull(old(free), i)
      ensures LiveSame(old(mem[..]), mem[..], old(blocks))
    {
      Reads(ptr);
      var csize := BlockSize(ptr);
      ghost var hi := End(blocks, ptr);
      PullElems(free, i);
      PullFree(ptr, i);
      ghost var m1 := mem[..];
      Reads(prev);
      forall c | c in blocks && prev <= c < hi ensures c == prev || c == ptr {
        OnlyNeighbours(blocks, epilogue + 4, prev, c);
      }
      AbsorbInto(prev, csize + BlockSize(prev), hi);
      LiveSameTrans(old(mem[..]), m1, mem[..], old(blocks));
    }

    /** The next block is free: `ptr` takes it over (malloc/mm.c:136-142). */
    method JoinNext(ptr: int, next: int, ghost i: int)
      requires Sound() && 0 <= i < |free| && free[i] == next && ptr in blocks && !blocks[ptr].alloc
      requires End(blocks, ptr) == next && next in blocks && End(blocks, next) in blocks
      modifies mem, this`blocks, this`first, this`free
      ensures Sound() && blocks == Absorb(old(blocks), ptr, End(old(blocks), next)) && free == Pull(old(free), i)
      ensures LiveSame(old(mem[..]), mem[..], old(blocks))
    {
      Reads(ptr);
      var csize := BlockSize(ptr);
      ghost var hi := End(blocks, next);
      PullElems(free, i);
      PullFree(next, i);
      ghost var m1 := mem[..];
      Reads(next);
      forall c | c in blocks && ptr <= c < hi ensures c == ptr || c == next {
        OnlyNeighbours(blocks, epilogue + 4, ptr, c);
      }
      AbsorbInto(ptr, csize + BlockSize(next), hi);
      LiveSameTrans(old(mem[..]), m1, mem[..], old(blocks));
    }

    method PullTwo(ptr: int, next: int)
      requires Sound() && ptr in free && next in free && ptr != next
      modifies mem, this`first, this`free
      ensures Sound() && forall f :: f in free <==> f in old(free) && f != ptr && f != next
      ensures forall lo, hi :: lo < ptr < hi && lo < next < hi ==> Outside(free, lo, hi) == Outside(old(free), lo, hi)
      ensures LiveSame(old(mem[..]), mem[..], blocks)
    {
      ghost var i :| 0 <= i < |free| && free[i] == ptr;
      PullElems(free, i);
      PullFree(ptr, i);
      ghost var m1, fl1 := mem[..], free;
      ghost var j :| 0 <= j < |free| && free[j] == next;
      PullElems(free, j);
      PullFree(next, j);
      forall lo, hi | lo < ptr < hi && lo < next < hi ensures Outside(free, lo, hi) == Outside(old(free), lo, hi) {
        OutsidePull(old(free), i, lo, hi);
        OutsidePull(fl1, j, lo, hi);
      }
      LiveSameTrans(old(mem[..]), m1, mem[..], blocks);
    }

    /** Both are free: the previous block takes over `ptr` and the next (malloc/mm.c:145-154). */
    method JoinBoth(ptr: int, prev: int, next: int)
      requires Sound() && ptr in free && next in free && ptr != next && End(blocks, ptr) == next &&
               End(blocks, next) in blocks
      requires prev in blocks && End(blocks, prev) == ptr && !blocks[prev].alloc
      modifies mem, this`blocks, this`first, this`free
      ensures Sound() && blocks == Absorb(old(blocks), prev, End(old(blocks), next))
      ensures forall f :: f in free <==> f in old(free) && f != ptr && f != next
      ensures var hi := End(old(blocks), next); Outside(free, prev, hi) == Outside(old(free), prev, hi)
      ensures LiveSame(old(mem[..]), mem[..], old(blocks))
    {
      Reads(ptr);
      var csize := BlockSize(ptr);
      ghost var hi := End(blocks, next);
      PullTwo(ptr, next);
      ghost var m2 := mem[..];
      Reads(prev);
      Reads(next);
      forall c | c in blocks && prev <= c < hi ensures c == prev || c == ptr || c == next {
        OnlyNeighbours(blocks, epilogue + 4, if c < next then prev else ptr, c);
      }
      AbsorbInto(prev, csize + BlockSize(prev) + BlockSize(next), hi);
      LiveSameTrans(old(mem[..]), m2, mem[..], old(blocks));
    }

    /** The four cases of coalesce, on a block of the list and its neighbours (malloc/mm.c:125-156). */
    method Join(ptr: int, prev: int, next: int) returns (r: int)
      requires Sound() && ListsAll(blocks, free) && ptr in free && ptr in blocks
      requires prev in blocks && End(blocks, prev) == ptr && End(blocks, ptr) == next && next in blocks
      modifies mem, this`blocks, this`first, this`free
      ensures Sound() && r == LowEnd(old(blocks), prev, ptr)
      ensures blocks == Absorb(old(blocks), r, HighEnd(old(blocks), ptr))
      ensures r in free && forall f :: f in old(free) && !(r < f < HighEnd(old(blocks), ptr)) ==> f in free
      ensures free == Outside(old(free), r, HighEnd(old(blocks), ptr))
      ensures LiveSame(old(mem[..]), mem[..], old(blocks))
    {
      ghost var fl0, hi := free, HighEnd(blocks, ptr);
      Reads(prev);
      Reads(next);
      Reads(ptr);
      if !blocks[next].alloc { NextExists(next); }
      r := ptr;
      if !BlockAllocated(prev) && BlockAllocated(next) {
        ghost var i :| 0 <= i < |free| && free[i] == ptr;
        PullElems(free, i);
        JoinPrev(ptr, prev, i);
        r := prev;
        OutsidePull(fl0, i, r, hi);
      } else if BlockAllocated(prev) && !BlockAllocated(next) {
        ghost var j :| 0 <= j < |free| && free[j] == next;
        PullElems(free, j);
        JoinNext(ptr, next, j);
        OutsidePull(fl0, j, r, hi);
      } else if !BlockAllocated(prev) && !BlockAllocated(next) {
        JoinBoth(ptr, prev, next);
        r := prev;
      } else {
        AbsorbNothing(blocks, epilogue + 4, ptr);
        LiveSameRefl(mem[..], blocks, epilogue + 4, epilogue);
      }
      NoneInside(r);
      OutsideAll(free, r, hi);
    }

    /** No listed block starts inside another block. */
    lemma NoneInside(r: int)
      requires Sound() && r in blocks
      ensures forall f :: f in free ==> !(r < f < End(blocks, r))
    {
      assert BlockOk(blocks, epilogue + 4, r);
    }

    /** coalesce (malloc/mm.c:114-157): merge a free block with its free neighbours. */
    method Coalesce(ptr: int) returns (r: int)
      requires Sound() && free != []
      requires ptr in free ==> ListsAll(blocks, free) && Coalesced(Mark(blocks, ptr, true))
      modifies mem, this`blocks, this`first, this`free
      ensures ptr !in old(free) ==>
                r == NULL && blocks == old(blocks) && free == old(free) && first == old(first) &&
                    mem[..] == old(mem[..])
      ensures ptr in old(free) ==> Valid() && r in blocks && !blocks[r].alloc && r <= ptr < End(blocks, r)
      ensures ptr in old(free) ==> epilogue == old(epilogue) && CanRelease(old(AsModel()), ptr)
      ensures ptr in old(free) ==> AsModel() == Merged(old(AsModel()), Previous(old(blocks), ptr), ptr)
      ensures forall c :: c in blocks && blocks[c].alloc <==> c in old(blocks) && old(blocks)[c].alloc
      ensures forall c :: c in blocks && blocks[c].alloc ==> blocks[c] == old(blocks)[c]
      ensures LiveSame(old(mem[..]), mem[..], old(blocks))
    {
      var found := InFreeList(ptr);
      if !found {
        LiveSameRefl(mem[..], blocks, epilogue + 4, epilogue);
        return NULL;
      }
      Reads(ptr);
      NextExists(ptr);
      var prev := BlockPrev(ptr);
      var next := BlockNext(ptr);
      ghost var bl0, fl0 := blocks, free;
      EndInjective(blocks, epilogue + 4, prev, Previous(blocks, ptr));
      r := Join(ptr, prev, next);
      CoalesceDone(bl0, epilogue + 4, fl0, prev, ptr, free);
    }

    // ----- mm_init -----

    /** mem_sbrk of a smallest block, and its tags (malloc/mm.c:48-52, 55-59, 63-68). */
    method Place(alloc: bool) returns (b: int)
      requires 0 <= brk && brk % 8 == 0
      modifies this`brk, mem
      ensures if old(brk) + MINBLOCKSIZE > 8 * mem.Length then b == NULL && brk == old(brk) && mem[..] == old(mem[..])
              else b == old(brk) / 8 && b + 4 <= mem.Length && brk == old(brk) + MINBLOCKSIZE
                   && mem[..] == SetTags(old(mem[..]), b, Block(4, alloc))
    {
      var p := Sbrk(MINBLOCKSIZE);
      if p == -1 {
        return NULL;
      }
      SetSizeAndAllocated(p / 8, MINBLOCKSIZE, alloc);
      return p / 8;
    }

    /** mm_init (malloc/mm.c:44-71): a prologue, one free block, an epilogue. */
    method Init() returns (r: int)
      requires 0 <= brk && brk % 8 == 0 && 8 * mem.Length <= INT_MAX
      modifies this, mem
      ensures r == 0 <==> old(brk) + 3 * MINBLOCKSIZE <= 8 * mem.Length
      ensures r == 0 || r == -1
      ensures r == 0 && old(brk) == 0 ==> Valid() && Live() == {} && free == [4] && brk == 3 * MINBLOCKSIZE
      ensures r == 0 ==> blocks == map[0 := Block(4, true), 4 := Block(4, false), 8 := Block(4, true)]
    {
      first := NULL;
      free := [];
      prologue := Place(true);
      if prologue == NULL { return -1; }
      var freeSpot := Place(false);
      if freeSpot == NULL { return -1; }
      InsertLinks(freeSpot);
      epilogue := Place(true);
      if epilogue == NULL { return -1; }
      blocks := map[0 := Block(4, true), 4 := Block(4, false), 8 := Block(4, true)];
      free := [4];
      if prologue == 0 {
        InitialHeap(mem[..]);
      }
      return 0;
    }

    // ----- mm_free -----

    /** block_set_size_and_allocated on a whole block that is not in the list. */
    method MarkBlock(b: int, alloc: bool)
      requires Sound() && b in blocks && b != 0 && b != epilogue && b !in free
      modifies mem, this`blocks
      ensures Sound() && blocks == Mark(old(blocks), b, alloc)
      ensures LiveSame(old(mem[..]), mem[..], Mark(old(blocks), b, false))
    {
      Reads(b);
      MarkEffect(mem[..], blocks, epilogue + 4, epilogue, free, first, b, alloc);
      SetSizeAndAllocated(b, BlockSize(b), alloc);
      blocks := Mark(blocks, b, alloc);
    }

    /** mm_free (malloc/mm.c:291-303). */
    method Free(ptr: int)
      requires Valid() && (ptr == NULL || ptr - 1 in Live())
      modifies this`blocks, this`first, this`free, mem
      ensures Valid()
      ensures ptr == NULL ==>
                Live() == old(Live()) && blocks == old(blocks) && free == old(free) && mem[..] == old(mem[..])
      ensures ptr != NULL ==> Live() == old(Live()) - {ptr - 1}
      ensures ptr != NULL ==> CanRelease(old(AsModel()), ptr - 1) && AsModel() == Released(old(AsModel()), ptr - 1)
      ensures forall c :: c in Live() ==> blocks[c] == old(blocks)[c]
      ensures LiveSame(old(mem[..]), mem[..], blocks)
    {
      if ptr == NULL {
        LiveSameRefl(mem[..], blocks, epilogue + 4, epilogue);
        return;
      }
      var block := ptr - 1;
      ghost var bl0 := blocks;
      NextExists(block);
      MarkBlock(block, false);
      ghost var m1, bl1 := mem[..], blocks;
      InsertFree(block);
      ghost var m2 := mem[..];
      LiveSameTrans(old(mem[..]), m1, m2, bl1);
      assert Mark(bl1, block, true) == bl0;
      SamePrevious(bl0, epilogue + 4, block);
      var r := Coalesce(block);
      LiveSameTrans(old(mem[..]), m2, mem[..], bl1);
      LiveSameLess(old(mem[..]), mem[..], bl1, blocks);
    }

    // ----- mm_malloc -----

    /** split (malloc/mm.c:316-332): cut off the rest of a block three times too large. */
    method Split(ptr: int, nsize: int) returns (r: int)
      requires 0 <= ptr < mem.Length && nsize % 8 == 0 && MINBLOCKSIZE <= nsize <= BlockSize(ptr)
      requires BlockSize(ptr) - nsize >= 2 * nsize ==>
                 Sound() && ptr in blocks && blocks[ptr].alloc && ptr != 0 && ptr != epilogue
      modifies mem, this`blocks, this`first, this`free
      ensures r == ptr
      ensures old(BlockSize(ptr)) - nsize < 2 * nsize ==>
                mem[..] == old(mem[..]) && blocks == old(blocks) && free == old(free) && first == old(first)
      ensures old(BlockSize(ptr)) - nsize >= 2 * nsize ==>
                && Sound() && blocks == Cut(old(blocks), ptr, nsize / 8) && free == [ptr + nsize / 8] + old(free)
                && LiveSame(old(mem[..]), mem[..], Mark(old(blocks), ptr, false))
    {
      var diff := BlockSize(ptr) - nsize;
      if diff >= 2 * nsize && diff >= MINBLOCKSIZE {
        Reads(ptr);
        CutBlock(ptr, nsize, diff);
      }
      return ptr;
    }

    method CutBlock(ptr: int, nsize: int, diff: int)
      requires Sound() && ptr in blocks && blocks[ptr].alloc && ptr != 0 && ptr != epilogue
      requires nsize % 8 == 0 && nsize >= MINBLOCKSIZE && diff == 8 * blocks[ptr].words - nsize && diff >= MINBLOCKSIZE
      modifies mem, this`blocks, this`first, this`free
      ensures Sound() && blocks == Cut(old(blocks), ptr, nsize / 8) && free == [ptr + nsize / 8] + old(free)
      ensures LiveSame(old(mem[..]), mem[..], Mark(old(blocks), ptr, false))
    {
      ghost var k := nsize / 8;
      CutEffect(mem[..], blocks, epilogue + 4, epilogue, free, first, ptr, k);
      Reads(ptr);
      assert diff / 8 == blocks[ptr].words - k;
      SetSizeAndAllocated(ptr, nsize, true);
      TagReads(Block(k, true));
      assert mem[ptr] == mem[..][ptr] == Tag(Block(k, true));
      SetSizeAndAllocated(ptr + BlockSize(ptr) / 8, diff, false);
      ghost var m1 := mem[..];
      assert m1 == CutTags(old(mem[..]), ptr, old(blocks)[ptr].words, k);
      blocks := Cut(blocks, ptr, k);
      assert WrittenAt(mem[..], blocks, ptr);
      InsertFree(ptr + BlockSize(ptr) / 8);
      LiveSameLess(m1, mem[..], blocks, Mark(old(blocks), ptr, false));
      LiveSameTrans(old(mem[..]), m1, mem[..], Mark(old(blocks), ptr, false));
    }

    /** After `i` of the free blocks, the j-th is the best fit, `min` bytes too large, if there is one. */
    ghost predicate BestSoFar(nsize: int, i: int, j: int, best: int, min: int)
      reads this
    {
      && 0 <= i <= |free| && j == Fit(blocks, free[..i], nsize / 8) && (best == NULL <==> j < 0)
      && if j < 0 then min == UINT_MAX
         else best == free[j] && best in blocks && 0 <= min == 8 * blocks[best].words - nsize
    }

    /** The scan for the best fit (malloc/mm.c:239-265). */
    method BestFit(nsize: int) returns (best: int, ghost j: int)
      requires Sound() && free != [] && nsize % 8 == 0 && MINBLOCKSIZE <= nsize <= INT_MAX
      ensures best == NULL ==> NoneFits(blocks, free, nsize / 8)
      ensures best != NULL ==> FirstBest(blocks, free, nsize / 8, j) && best == free[j]
      ensures j == Fit(blocks, free, nsize / 8) && (best == NULL <==> j < 0)
    {
      var min := UINT_MAX;
      best := NULL;
      var current := first;
      ghost var i := 0;
      j := -1;
      var done := false;
      while !done
        invariant 0 <= i <= |free| && (if done then i == |free| else i < |free| && current == free[i])
        invariant BestSoFar(nsize, i, j, best, min)
        decreases |free| - i, !done
      {
        min, best, j := Weigh(current, nsize, min, best, i, j);
        LinkReads(i);
        current := NextFree(current);
        i := i + 1;
        done := current == first;
      }
      assert free[..i] == free;
      FitIsBest(blocks, free, nsize / 8);
    }

    /** One block of the scan (malloc/mm.c:248-261). */
    method Weigh(current: int, nsize: int, min: int, best: int, ghost i: int, ghost j: int)
      returns (min': int, best': int, ghost j': int)
      requires Sound() && nsize % 8 == 0 && MINBLOCKSIZE <= nsize <= INT_MAX
      requires 0 <= i < |free| && current == free[i] && BestSoFar(nsize, i, j, best, min)
      ensures BestSoFar(nsize, i + 1, j', best', min')
    {
      min', best', j' := min, best, j;
      Reads(current);
      var csize := BlockSize(current);
      var d := csize - nsize;
      assert -INT_MAX <= d <= INT_MAX;
      FitNext(blocks, free, nsize / 8, i);
      if d >= 0 {
        var diff := Smallest(csize, nsize, d);
        assert diff == d;
        if diff < min {
          min', best', j' := diff, current, i;
        }
      }
    }

    /** extend_heap (malloc/mm.c:169-191): the old epilogue becomes the new block. */
    method ExtendHeap(nsize: int) returns (p: int)
      requires Valid() && nsize % 8 == 0 && MINBLOCKSIZE <= nsize <= INT_MAX
      modifies this, mem
      ensures Valid() && free == old(free)
      ensures old(brk) + nsize > 8 * mem.Length ==>
                p == NULL && brk == old(brk) && epilogue == old(epilogue) && blocks == old(blocks) &&
                    mem[..] == old(mem[..])
      ensures old(brk) + nsize <= 8 * mem.Length ==>
                && p == old(epilogue) + 1 && brk == old(brk) + nsize && epilogue == old(epilogue) + nsize / 8
                && blocks == Grow(old(blocks), old(epilogue), nsize / 8) && epilogue !in old(blocks)
                && LiveSame(old(mem[..]), mem[..], Mark(old(blocks), old(epilogue), false))
    {
      var got := Sbrk(nsize);
      if got == -1 {
        return NULL;
      }
      ghost var k := nsize / 8;
      GrowEffect(mem[..], blocks, epilogue, free, first, k);
      GrowCoalesced(blocks, epilogue + 4, epilogue, k);
      SetSizeAndAllocated(epilogue, nsize, true);
      TagReads(Block(k, true));
      assert mem[epilogue] == mem[..][epilogue] == Tag(Block(k, true));
      var newEpilogue := epilogue + BlockSize(epilogue) / 8;
      SetSizeAndAllocated(newEpilogue, MINBLOCKSIZE, true);
      assert mem[..] == GrowTags(old(mem[..]), epilogue, k);
      assert mem[epilogue] == mem[..][epilogue] == Tag(Block(k, true));
      var ptr := Split(epilogue, nsize);
      blocks := Grow(blocks, epilogue, k);
      epilogue := newEpilogue;
      return ptr + 1;
    }

    /** A free block is pulled, marked allocated and split (malloc/mm.c:273-277). */
    method TakeFree(best: int, ghost j: int, nsize: int) returns (p: int)
      requires Valid() && 0 <= j < |free| && best == free[j]
      requires nsize % 8 == 0 && nsize >= MINBLOCKSIZE && best in blocks && 8 * blocks[best].words >= nsize
      modifies this`blocks, this`first, this`free, mem
      ensures Valid() && p == best + 1 && best in blocks && blocks[best].alloc
      ensures AsModel() == Taken(old(AsModel()), j, nsize / 8)
      ensures nsize <= 8 * blocks[best].words < 3 * nsize
      ensures forall c :: c in blocks && blocks[c].alloc <==> c in old(blocks) && (old(blocks)[c].alloc || c == best)
      ensures forall c :: c in old(blocks) && old(blocks)[c].alloc ==> blocks[c] == old(blocks)[c]
      ensures LiveSame(old(mem[..]), mem[..], old(blocks))
    {
      ghost var bl0, m0 := blocks, mem[..];
      Reads(best);
      PullElems(free, j);
      PullFree(best, j);
      ghost var m1 := mem[..];
      MarkBlock(best, true);
      ghost var bl2, m2 := blocks, mem[..];
      assert Mark(bl0, best, false) == bl0 && Mark(bl2, best, false) == bl0;
      LiveSameTrans(m0, m1, m2, bl0);
      Reads(best);
      ghost var k := nsize / 8;
      var r := Split(best, nsize);
      if 8 * bl2[best].words - nsize >= 2 * nsize {
        LiveSameTrans(m0, m2, mem[..], bl0);
        CutTiled(bl0, epilogue + 4, best, k);
        CutCoalesced(bl0, epilogue + 4, best, k);
        assert Cut(bl2, best, k) == Cut(bl0, best, k);
      } else {
        MarkCoalesced(bl0, best);
      }
      return r + 1;
    }

    /** mm_malloc (malloc/mm.c:225-278). */
    method Malloc(size: int) returns (p: int)
      requires Valid() && 0 <= size && Needed(size) <= INT_MAX
      modifies this, mem
      ensures Valid()
      ensures size == 0 ==> p == NULL
      ensures p == NULL ==> blocks == old(blocks) && free == old(free) && brk == old(brk) && mem[..] == old(mem[..])
      ensures p == NULL ==> epilogue == old(epilogue)
      ensures p == NULL && size > 0 ==>
                NoneFits(old(blocks), old(free), Needed(size) / 8) && old(brk) + Needed(size) > 8 * mem.Length
      ensures p != NULL ==>
                && p - 1 !in old(Live()) && Live() == old(Live()) + {p - 1}
                && Needed(size) <= 8 * blocks[p - 1].words < 3 * Needed(size)
      ensures p != NULL && NoneFits(old(blocks), old(free), Needed(size) / 8) ==>
                p - 1 == old(epilogue) && brk == old(brk) + Needed(size)
      ensures p != NULL && !NoneFits(old(blocks), old(free), Needed(size) / 8) ==>
                brk == old(brk) && exists j ::
                  FirstBest(old(blocks), old(free), Needed(size) / 8, j) && p - 1 == old(free)[j]
      ensures size > 0 ==>
                var o := Allocated(old(AsModel()), Needed(size) / 8, mem.Length);
                if p == NULL then o == Failed else o == Done(AsModel(), p - 1)
      ensures forall c :: c in old(Live()) ==>
                c in blocks && blocks[c] == old(blocks)[c] && LiveBlockSame(old(mem[..]), mem[..], old(blocks), c)
    {
      if size <= 0 {
        LiveSameRefl(mem[..], blocks, epilogue + 4, epilogue);
        return NULL;
      }
      NeededFits(size);
      p := Serve(Needed(size));
    }

    /** A block of `nsize` bytes from the list or from the end of the heap (malloc/mm.c:234-277). */
    method Serve(nsize: int) returns (p: int)
      requires Valid() && nsize % 8 == 0 && MINBLOCKSIZE <= nsize <= INT_MAX
      modifies this, mem
      ensures Valid()
      ensures p == NULL ==> AsModel() == old(AsModel()) && brk == old(brk) && mem[..] == old(mem[..])
      ensures p == NULL ==> NoneFits(old(blocks), old(free), nsize / 8) && old(brk) + nsize > 8 * mem.Length
      ensures p != NULL ==>
                && p - 1 !in old(Live()) && Live() == old(Live()) + {p - 1}
                && nsize <= 8 * blocks[p - 1].words < 3 * nsize
      ensures p != NULL && NoneFits(old(blocks), old(free), nsize / 8) ==>
                p - 1 == old(epilogue) && brk == old(brk) + nsize
      ensures p != NULL && !NoneFits(old(blocks), old(free), nsize / 8) ==>
                brk == old(brk) && exists j ::
                  FirstBest(old(blocks), old(free), nsize / 8, j) && p - 1 == old(free)[j]
      ensures var o := Allocated(old(AsModel()), nsize / 8, mem.Length);
                if p == NULL then o == Failed else o == Done(AsModel(), p - 1)
      ensures forall c :: c in old(Live()) ==>
                c in blocks && blocks[c] == old(blocks)[c] && LiveBlockSame(old(mem[..]), mem[..], old(blocks), c)
    {
      var best := NULL;
      ghost var j := -1;
      if first != NULL {
        best, j := BestFit(nsize);
      }
      ModelAlloc(j, nsize);
      if best == NULL {
        p := Extend(nsize);
      } else {
        p := TakeFree(best, j, nsize);
      }
    }

    /** What the model does, once the best fit is known. */
    lemma ModelAlloc(j: int, nsize: int)
      requires Sound() && nsize % 8 == 0 && nsize >= MINBLOCKSIZE && j == Fit(blocks, free, nsize / 8)
      ensures var o := Allocated(AsModel(), nsize / 8, mem.Length);
        && (j >= 0 ==> free[j] in blocks && o == Done(Taken(AsModel(), j, nsize / 8), free[j]))
        && (j < 0 ==>
              o == if brk + nsize <= 8 * mem.Length then Done(Extended(AsModel(), nsize / 8), epilogue) else Failed)
      ensures if j < 0 then NoneFits(blocks, free, nsize / 8) else FirstBest(blocks, free, nsize / 8, j)
    {
      FitIsBest(blocks, free, nsize / 8);
    }

    /** extend_heap, as mm_malloc's clients see it. */
    method Extend(nsize: int) returns (p: int)
      requires Valid() && nsize % 8 == 0 && MINBLOCKSIZE <= nsize <= INT_MAX
      modifies this, mem
      ensures Valid()
      ensures p == NULL <==> old(brk) + nsize > 8 * mem.Length
      ensures p == NULL ==> blocks == old(blocks) && free == old(free) && brk == old(brk) && mem[..] == old(mem[..])
      ensures p == NULL ==> epilogue == old(epilogue)
      ensures p != NULL ==>
                && p - 1 == old(epilogue) && Live() == old(Live()) + {p - 1}
                && brk == old(brk) + nsize && 8 * blocks[p - 1].words == nsize
      ensures p != NULL ==> AsModel() == Extended(old(AsModel()), nsize / 8)
      ensures forall c :: c in old(Live()) ==>
                c in blocks && blocks[c] == old(blocks)[c] && LiveBlockSame(old(mem[..]), mem[..], old(blocks), c)
    {
      LiveSameRefl(mem[..], blocks, epilogue + 4, epilogue);
      p := ExtendHeap(nsize);
      forall c | c in old(Live())
        ensures c in blocks && blocks[c] == old(blocks)[c] && LiveBlockSame(old(mem[..]), mem[..], old(blocks), c)
      {
        if p != NULL {
          assert LiveBlockSame(old(mem[..]), mem[..], Mark(old(blocks), old(epilogue), false), c);
        } else {
          assert LiveBlockSame(old(mem[..]), old(mem[..]), old(blocks), c);
        }
      }
    }

    // ----- the client -----

    /** A client writes a word of the payload of a block it holds. */
    method ClientWrite(b: int, x: int, v: int)
      requires Valid() && b in Live() && b < x < End(blocks, b) - 1
      modifies mem
      ensures Valid() && 0 <= x < mem.Length && mem[..] == old(mem[..])[x := v]
    {
      ghost var m := mem[..];
      WriteInside(m, blocks, epilogue + 4, b, x, v);
      assert BlockOk(blocks, epilogue + 4, b);
      forall i | 0 <= i < |free| ensures m[x := v][free[i] + 1] == m[free[i] + 1] &&
          m[x := v][free[i] + 2] == m[free[i] + 2] {
        assert free[i] in free && BlockOk(blocks, epilogue + 4, free[i]);
        BlocksDisjoint(blocks, epilogue + 4, b, free[i]);
      }
      LinkedFrame(m, m[x := v], free);
      mem[x] := v;
    }

    /** Following block_next meets all blocks, and their sizes add up to the heap (malloc/memlib.c:101-103). */
    lemma HeapIsTiled()
      requires Valid()
      ensures forall b :: b in Walk(blocks, 0, epilogue + 4) <==> b in blocks
      ensures 8 * SumWords(blocks, Walk(blocks, 0, epilogue + 4)) == brk
    {
      WalkCovers(blocks, epilogue + 4, 0);
      forall b | b in blocks ensures 0 <= b { assert BlockOk(blocks, epilogue + 4, b); }
    }
  }

  function SizeBytes(tag: int): int { tag - tag % 2 }
}
