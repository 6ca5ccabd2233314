/**
 The maze generator's random walk (maze/generator.c): what it keeps at every moment, for
 every sequence of random numbers.  `stack` holds the rooms whose calls are in progress;
 `up[v]` is the direction from a room to the room it was entered from.
 */
module Generator {
  import opened Maze

  type Dirs = map<Pos, int>
  type Ranks = map<Pos, int>

  const ROOT := Pos(0, 0)

  /** The wall between `p` and its neighbour in direction `d` was opened by a step of the walk. */
  ghost predicate TreeEdge(up: Dirs, p: Pos, d: int)
    requires 0 <= d < 4
  {
    (p in up && up[p] == d) || (Step(p, d) in up && up[Step(p, d)] == Opposite(d))
  }

  ghost predicate DirOk(g: Rooms, up: Dirs, p: Pos, d: int)
    requires p in g && |g[p].conn| == 4 && 0 <= d < 4
  {
    var x, q := g[p].conn[d], Step(p, d);
    && x in {-1, 0, 1}
    && (x == 0 ==> q in g && TreeEdge(up, p, d))
    && (x != -1 && q in g ==>
          g[q].visited && |g[q].conn| == 4 && g[q].conn[Opposite(d)] in {-1, x})
  }

  ghost predicate RoomOk(g: Rooms, stack: set<Pos>, up: Dirs, p: Pos)
    requires p in g
  {
    && |g[p].conn| == 4
    && (forall d :: 0 <= d < 4 ==> DirOk(g, up, p, d))
    && (p in stack ==> g[p].visited)
    && (!g[p].visited ==> g[p].conn == [-1, -1, -1, -1])
    && (g[p].visited && p !in stack ==> Done(g, p))
  }

  /** All four walls of `p` are decided and its neighbours have been visited. */
  ghost predicate Done(g: Rooms, p: Pos)
    requires p in g && |g[p].conn| == 4
  {
    forall d :: 0 <= d < 4 ==> DirDone(g, p, d)
  }

  ghost predicate DirDone(g: Rooms, p: Pos, d: int)
    requires p in g && |g[p].conn| == 4 && 0 <= d < 4
  {
    g[p].conn[d] != -1 && (Step(p, d) in g ==> g[Step(p, d)].visited)
  }

  /** A room was entered from a visited room of smaller rank, through an open wall. */
  ghost predicate EntryOk(g: Rooms, up: Dirs, rank: Ranks, v: Pos)
    requires v in up
  {
    && 0 <= up[v] < 4
    && var u := Step(v, up[v]);
    && v in g && u in g && g[v].visited && g[u].visited && |g[u].conn| == 4
    && v in rank && u in rank && 0 <= rank[u] < rank[v]
    && g[u].conn[Opposite(up[v])] == 0
  }

  ghost predicate Inv(g: Rooms, stack: set<Pos>, up: Dirs, rank: Ranks) {
    && (forall p {:trigger RoomOk(g, stack, up, p)} :: p in g ==> RoomOk(g, stack, up, p))
    && (forall v {:trigger EntryOk(g, up, rank, v)} :: v in up ==> EntryOk(g, up, rank, v))
    && (forall v :: v in g && g[v].visited && v != ROOT ==> v in up)
    && ROOT in g && g[ROOT].visited && ROOT !in up && ROOT in rank && rank[ROOT] == 0
  }

  // ----- deciding one wall -----

  function WithConn(g: Rooms, p: Pos, d: int, x: int): Rooms
    requires p in g && |g[p].conn| == 4 && 0 <= d < 4
  {
    g[p := g[p].(conn := g[p].conn[d := x])]
  }

  /** The value that the walk gives a wall toward a visited room, or the border (maze/generator.c:86, 104-112). */
  ghost function WallValue(g: Rooms, p: Pos, d: int): int
    requires 0 <= d < 4
  {
    var q := Step(p, d);
    if q in g && |g[q].conn| == 4 && (g[q].conn[Opposite(d)] == 1 || g[q].conn[Opposite(d)] == 0)
    then g[q].conn[Opposite(d)] else 1
  }

  lemma WallKeepsDirs(g: Rooms, stack: set<Pos>, up: Dirs, rank: Ranks, p: Pos, d: int, q: Pos, e: int)
    requires Inv(g, stack, up, rank) && p in g && p in stack && |g[p].conn| == 4 && 0 <= d < 4 && g[p].conn[d] == -1
    requires Step(p, d) in g ==> g[Step(p, d)].visited
    requires q in g && |g[q].conn| == 4 && 0 <= e < 4
    ensures DirOk(WithConn(g, p, d, WallValue(g, p, d)), up, q, e)
  {
    assert RoomOk(g, stack, up, p) && RoomOk(g, stack, up, q);
    assert DirOk(g, up, q, e) && DirOk(g, up, p, d);
    var n := Step(p, d);
    if n in g {
      assert RoomOk(g, stack, up, n);
      assert DirOk(g, up, n, Opposite(d));
      assert Step(n, Opposite(d)) == p;
    }
    if q == p && e != d {
      assert Step(p, e) != p;
    }
  }

  lemma WallKeepsInv(g: Rooms, stack: set<Pos>, up: Dirs, rank: Ranks, p: Pos, d: int)
    requires Inv(g, stack, up, rank) && p in g && p in stack && |g[p].conn| == 4 && 0 <= d < 4 && g[p].conn[d] == -1
    requires Step(p, d) in g ==> g[Step(p, d)].visited
    ensures Inv(WithConn(g, p, d, WallValue(g, p, d)), stack, up, rank)
  {
    var g' := WithConn(g, p, d, WallValue(g, p, d));
    forall q | q in g' ensures RoomOk(g', stack, up, q) {
      assert RoomOk(g, stack, up, q) && RoomOk(g, stack, up, p);
      forall e | 0 <= e < 4 ensures DirOk(g', up, q, e) {
        WallKeepsDirs(g, stack, up, rank, p, d, q, e);
      }
      if q != p && g'[q].visited && q !in stack {
        forall e | 0 <= e < 4 ensures DirDone(g', q, e) {
          assert DirDone(g, q, e);
        }
      }
    }
    forall v | v in up ensures EntryOk(g', up, rank, v) {
      assert EntryOk(g, up, rank, v);
    }
  }

  // ----- entering an unvisited room -----

  function Entered(g: Rooms, p: Pos, d: int): Rooms
    requires p in g && |g[p].conn| == 4 && 0 <= d < 4 && Step(p, d) in g
  {
    var g1 := WithConn(g, p, d, 0);
    g1[Step(p, d) := g1[Step(p, d)].(visited := true)]
  }

  ghost predicate CanEnter(g: Rooms, stack: set<Pos>, up: Dirs, rank: Ranks, p: Pos, d: int) {
    && Inv(g, stack, up, rank) && p in g && p in stack && |g[p].conn| == 4 && 0 <= d < 4 && g[p].conn[d] == -1
    && Step(p, d) in g && !g[Step(p, d)].visited && p in rank && rank[p] >= 0
  }

  lemma EnterKeepsDirs(g: Rooms, stack: set<Pos>, up: Dirs, rank: Ranks, p: Pos, d: int, q: Pos, e: int)
    requires CanEnter(g, stack, up, rank, p, d)
    requires q in g && |g[q].conn| == 4 && 0 <= e < 4
    ensures DirOk(Entered(g, p, d), up[Step(p, d) := Opposite(d)], q, e)
  {
    var n := Step(p, d);
    assert RoomOk(g, stack, up, p) && RoomOk(g, stack, up, q) && RoomOk(g, stack, up, n);
    assert DirOk(g, up, q, e);
    EnteredAreVisited(g, stack, up, rank, n);
  }

  lemma EnteredAreVisited(g: Rooms, stack: set<Pos>, up: Dirs, rank: Ranks, v: Pos)
    requires Inv(g, stack, up, rank) && v in g && !g[v].visited
    ensures v !in up
  {
    assert v in up ==> EntryOk(g, up, rank, v);
  }

  lemma EnterKeepsInv(g: Rooms, stack: set<Pos>, up: Dirs, rank: Ranks, p: Pos, d: int)
    requires CanEnter(g, stack, up, rank, p, d)
    ensures Inv(Entered(g, p, d), stack + {Step(p, d)}, up[Step(p, d) := Opposite(d)], rank[Step(p, d) := rank[p] + 1])
  {
    var n, g' := Step(p, d), Entered(g, p, d);
    var up', rank' := up[n := Opposite(d)], rank[n := rank[p] + 1];
    forall q | q in g' ensures RoomOk(g', stack + {n}, up', q) {
      assert RoomOk(g, stack, up, q) && RoomOk(g, stack, up, p);
      forall e | 0 <= e < 4 ensures DirOk(g', up', q, e) {
        EnterKeepsDirs(g, stack, up, rank, p, d, q, e);
      }
      if q != p && g'[q].visited && q !in stack + {n} {
        forall e | 0 <= e < 4 ensures DirDone(g', q, e) {
          assert DirDone(g, q, e);
        }
      }
    }
    forall v | v in up' ensures EntryOk(g', up', rank', v) {
      if v != n {
        assert EntryOk(g, up, rank, v);
      }
    }
  }

  // ----- leaving a room -----

  lemma LeaveKeepsInv(g: Rooms, stack: set<Pos>, up: Dirs, rank: Ranks, p: Pos)
    requires Inv(g, stack + {p}, up, rank) && p in g && |g[p].conn| == 4 && Done(g, p)
    ensures Inv(g, stack, up, rank)
  {
    forall q | q in g ensures RoomOk(g, stack, up, q) {
      assert RoomOk(g, stack + {p}, up, q);
    }
  }

  /** The other fields of a room do not matter. */
  lemma SameWallsKeepInv(g: Rooms, g': Rooms, stack: set<Pos>, up: Dirs, rank: Ranks)
    requires Inv(g, stack, up, rank) && g'.Keys == g.Keys
    requires forall p :: p in g ==> g'[p].visited == g[p].visited && g'[p].conn == g[p].conn
    ensures Inv(g', stack, up, rank)
  {
    forall q | q in g' ensures RoomOk(g', stack, up, q) {
      assert RoomOk(g, stack, up, q);
      forall e | 0 <= e < 4 ensures DirOk(g', up, q, e) {
        assert DirOk(g, up, q, e);
      }
      if g'[q].visited && q !in stack {
        forall e | 0 <= e < 4 ensures DirDone(g', q, e) {
          assert DirDone(g, q, e);
        }
      }
    }
    forall v | v in up ensures EntryOk(g', up, rank, v) {
      assert EntryOk(g, up, rank, v);
    }
  }

  // ----- the walk -----

  ghost function Unvisited(g: Rooms): set<Pos> {
    set p | p in g && !g[p].visited
  }

  ghost function Visit(g: Rooms, p: Pos): Rooms
    requires p in g
  {
    g[p := g[p].(visited := true)]
  }

  /** Rooms visited before are left alone. */
  ghost predicate Keeps(g: Rooms, g': Rooms) {
    g'.Keys == g.Keys && forall x :: x in g && g[x].visited ==> g'[x] == g[x]
  }

  /** ... but for the wall of `p` in direction `d`. */
  ghost predicate KeepsBut(g: Rooms, g': Rooms, p: Pos, d: int) {
    && g'.Keys == g.Keys && (forall x :: x in g && g[x].visited && x != p ==> g'[x] == g[x])
    && p in g && |g[p].conn| == 4 && 0 <= d < 4 && |g'[p].conn| == 4
    && g'[p] == g[p].(conn := g[p].conn[d := g'[p].conn[d]])
  }

  lemma RankOf(g: Rooms, stack: set<Pos>, up: Dirs, rank: Ranks, v: Pos)
    requires Inv(g, stack, up, rank) && v in g && g[v].visited
    ensures v in rank && rank[v] >= 0 && (rank[v] == 0 <==> v == ROOT)
  {
    assert v in up ==> EntryOk(g, up, rank, v);
  }

  /** Each direction once, in some order. */
  ghost predicate AllDirections(dirs: seq<int>) {
    && |dirs| == 4 && (forall i :: 0 <= i < 4 ==> 0 <= dirs[i] < 4)
    && (forall i, j :: 0 <= i < j < 4 ==> dirs[i] != dirs[j])
    && (forall d :: 0 <= d < 4 ==> d in dirs)
  }

  lemma SwapKeepsDirections(dirs: seq<int>, i: int, j: int)
    requires AllDirections(dirs) && 0 <= i < 4 && 0 <= j < 4
    ensures AllDirections(dirs[i := dirs[j]][j := dirs[i]])
  {
    var s := dirs[i := dirs[j]][j := dirs[i]];
    forall d | 0 <= d < 4 ensures d in s {
      assert d in dirs;
      var k :| 0 <= k < |dirs| && dirs[k] == d;
      assert s[if k == i then j else if k == j then i else k] == d;
    }
  }

  function Swapped(dirs: seq<int>, i: int, j: int): seq<int>
    requires 0 <= i < |dirs| && 0 <= j < |dirs|
  {
    dirs[i := dirs[j]][j := dirs[i]]
  }

  /** The directions after a round of the shuffle for each of the random numbers. */
  function Shuffled(dirs: seq<int>, rs: seq<nat>): (ds: seq<int>)
    requires |dirs| == 4 && |rs| <= 4
    ensures |ds| == 4
  {
    if rs == [] then dirs
    else
      var i := |rs| - 1;
      Swapped(Shuffled(dirs, rs[..i]), i, rs[i] % 4)
  }

  lemma {:induction false} ShuffledIsPermutation(dirs: seq<int>, rs: seq<nat>)
    requires AllDirections(dirs) && |rs| <= 4
    ensures AllDirections(Shuffled(dirs, rs))
  {
    if rs != [] {
      var i := |rs| - 1;
      ShuffledIsPermutation(dirs, rs[..i]);
      SwapKeepsDirections(Shuffled(dirs, rs[..i]), i, rs[i] % 4);
    }
  }

  /** Random numbers that bring the first `n` directions of any order to the front. */
  lemma {:induction false} Arrange(dirs: seq<int>, order: seq<int>, n: nat) returns (rs: seq<nat>)
    requires AllDirections(dirs) && AllDirections(order) && n <= 4
    ensures |rs| == n && Front(Shuffled(dirs, rs), order, n)
  {
    rs := [];
    if n > 0 {
      rs := Arrange(dirs, order, n - 1);
      var s := Shuffled(dirs, rs);
      ShuffledIsPermutation(dirs, rs);
      var j := Bring(s, order, n - 1);
      assert (rs + [j])[..n - 1] == rs;
      rs := rs + [j];
    }
  }

  ghost predicate Front(s: seq<int>, order: seq<int>, n: nat) {
    n <= |s| && n <= |order| && forall k :: 0 <= k < n ==> s[k] == order[k]
  }

  lemma Bring(s: seq<int>, order: seq<int>, n: nat) returns (j: nat)
    requires AllDirections(s) && AllDirections(order) && n < 4 && Front(s, order, n)
    ensures j < 4 && Front(Swapped(s, n, j), order, n + 1)
  {
    assert order[n] in s;
    j :| j < 4 && s[j] == order[n];
  }

  /** The shuffle can bring the directions into every order. */
  lemma EveryOrder(dirs: seq<int>, order: seq<int>) returns (rs: seq<nat>)
    requires AllDirections(dirs) && AllDirections(order)
    ensures |rs| == 4 && Shuffled(dirs, rs) == order
  {
    rs := Arrange(dirs, order, 4);
  }

  /** shuffle_array (maze/generator.c:45-53), on the next four results of rand(). */
  method Shuffle(dirs: array<int>, rs: seq<nat>)
    requires dirs.Length == 4 && |rs| == 4 && AllDirections(dirs[..])
    modifies dirs
    ensures dirs[..] == Shuffled(old(dirs[..]), rs) && AllDirections(dirs[..])
  {
    for i := 0 to 4
      invariant dirs[..] == Shuffled(old(dirs[..]), rs[..i])
    {
      ghost var before := dirs[..];
      var random := rs[i] % 4;
      var temp := dirs[i];
      dirs[i] := dirs[random];
      dirs[random] := temp;
      assert dirs[..] == Swapped(before, i, random);
      assert rs[..i + 1][..i] == rs[..i];
    }
    assert rs[..4] == rs;
    ShuffledIsPermutation(old(dirs[..]), rs);
  }

  /** The next four results of rand(). */
  function Draws(rand: nat -> nat, n: nat): (rs: seq<nat>)
    ensures |rs| == 4
  {
    [rand(n), rand(n + 1), rand(n + 2), rand(n + 3)]
  }

  /** The four directions in random order (maze/generator.c:79-82). */
  method Directions(rand: nat -> nat, n: nat) returns (dirs: array<int>)
    ensures fresh(dirs) && dirs.Length == 4 && AllDirections(dirs[..])
    ensures dirs[..] == Shuffled([0, 1, 2, 3], Draws(rand, n))
  {
    dirs := new int[4] [NORTH, SOUTH, WEST, EAST];
    assert dirs[..] == [0, 1, 2, 3];
    Shuffle(dirs, Draws(rand, n));
  }

  // ----- the tree of passages, as a function of the random numbers -----

  /** The rooms that have been seen, the way back from each of them, and how many random numbers were drawn. */
  datatype Trail = Trail(seen: set<Pos>, up: Dirs, drawn: nat)

  /** The walk from the room `p`, not seen yet. */
  ghost function Roam(grid: set<Pos>, seen: set<Pos>, up: Dirs, p: Pos, rand: nat -> nat, n: nat): (t: Trail)
    requires p in grid && p !in seen
    ensures seen + {p} <= t.seen
    decreases grid - seen, 0, 0
  {
    assert grid - (seen + {p}) < grid - seen by { assert p in grid - seen; }
    RoamFrom(grid, seen + {p}, up, p, Shuffled([0, 1, 2, 3], Draws(rand, n)), 0, rand, n + 4)
  }

  /** The rest of the walk in room `p`, from the i-th of its directions on. */
  ghost function RoamFrom(grid: set<Pos>, seen: set<Pos>, up: Dirs, p: Pos, ds: seq<int>, i: nat, rand: nat -> nat,
                          n: nat): (t: Trail)
    requires p in grid && |ds| == 4 && i <= 4
    ensures seen <= t.seen
    decreases grid - seen, 2, 4 - i
  {
    if i == 4 then Trail(seen, up, n)
    else
      var t := RoamToward(grid, seen, up, p, ds[i], rand, n);
      assert grid - t.seen == grid - seen || grid - t.seen < grid - seen;
      RoamFrom(grid, t.seen, t.up, p, ds, i + 1, rand, t.drawn)
  }

  /** The neighbour in direction `d` is entered if it exists and has not been seen. */
  ghost function RoamToward(grid: set<Pos>, seen: set<Pos>, up: Dirs, p: Pos, d: int, rand: nat -> nat, n: nat)
    : (t: Trail)
    requires p in grid
    ensures seen <= t.seen
    decreases grid - seen, 1, 0
  {
    var q := Step(p, d);
    if q in grid && q !in seen && 0 <= d < 4 then Roam(grid, seen, up[q := Opposite(d)], q, rand, n)
    else Trail(seen, up, n)
  }

  lemma RoamStarts(grid: set<Pos>, seen: set<Pos>, up: Dirs, p: Pos, ds: seq<int>, rand: nat -> nat, n: nat)
    requires p in grid && p !in seen && ds == Shuffled([0, 1, 2, 3], Draws(rand, n))
    ensures Roam(grid, seen, up, p, rand, n) == RoamFrom(grid, seen + {p}, up, p, ds, 0, rand, n + 4)
  {
  }

  ghost function Seen(g: Rooms): set<Pos> {
    set x | x in g && g[x].visited
  }

  /** The rooms after the wall is opened and before the neighbour is visited. */
  function Opened(g: Rooms, p: Pos, d: int): Rooms
    requires p in g && |g[p].conn| == 4 && 0 <= d < 4 && Step(p, d) in g
  {
    var g1, n := WithConn(g, p, d, 0), Step(p, d);
    g1[n := g1[n].(r := n.r, c := n.c)]
  }

  lemma OpenedKeepsInv(g: Rooms, stack: set<Pos>, up: Dirs, rank: Ranks, p: Pos, d: int)
    requires CanEnter(g, stack, up, rank, p, d)
    ensures var g', n := Opened(g, p, d), Step(p, d);
            && n in g' && !g'[n].visited && n !in stack && g'[n].conn == [-1, -1, -1, -1]
            && Inv(Visit(g', n), stack + {n}, up[n := Opposite(d)], rank[n := rank[p] + 1])
            && Keeps(WithConn(g, p, d, 0), g') && Unvisited(g') == Unvisited(g) && Seen(g') == Seen(g)
  {
    var g', n := Opened(g, p, d), Step(p, d);
    EnterKeepsInv(g, stack, up, rank, p, d);
    assert RoomOk(g, stack, up, p) && RoomOk(g, stack, up, n);
    SameWallsKeepInv(Entered(g, p, d), Visit(g', n), stack + {n}, up[n := Opposite(d)], rank[n := rank[p] + 1]);
  }

  /** Where the loop over the directions stands after `i` of them. */
  ghost predicate Progress(g: Rooms, p: Pos, ds: seq<int>, i: int)
    requires AllDirections(ds) && 0 <= i <= 4
  {
    && p in g && |g[p].conn| == 4
    && (forall j :: 0 <= j < i ==> DirDone(g, p, ds[j]))
    && (forall j :: i <= j < 4 ==> g[p].conn[ds[j]] == -1)
  }

  lemma ProgressStep(g: Rooms, g': Rooms, p: Pos, ds: seq<int>, i: int)
    requires AllDirections(ds) && 0 <= i < 4 && Progress(g, p, ds, i)
    requires KeepsBut(g, g', p, ds[i]) && DirDone(g', p, ds[i]) && g[p].visited
    ensures Progress(g', p, ds, i + 1)
  {
    forall j | 0 <= j < i ensures DirDone(g', p, ds[j]) {
      assert DirDone(g, p, ds[j]);
    }
  }

  lemma ProgressDone(g: Rooms, p: Pos, ds: seq<int>)
    requires AllDirections(ds) && Progress(g, p, ds, 4)
    ensures Done(g, p)
  {
    forall d | 0 <= d < 4 ensures DirDone(g, p, d) {
      assert d in ds;
    }
  }

  /** The walk stands in room `p`, which it has entered with the rooms `g0`, and has dealt with `i` directions. */
  ghost predicate Turned(g0: Rooms, g: Rooms, stack: set<Pos>, up: Dirs, rank: Ranks, p: Pos, ds: seq<int>, i: int)
    requires AllDirections(ds) && 0 <= i <= 4
  {
    p in g && p in g0 && !g0[p].visited && g[p].visited && Keeps(g0, g) && Inv(g, stack, up, rank) &&
        Progress(g, p, ds, i)
  }

  lemma FirstTurn(g0: Rooms, g: Rooms, stack: set<Pos>, up: Dirs, rank: Ranks, p: Pos, ds: seq<int>)
    requires AllDirections(ds) && p in g && p in g0 && !g0[p].visited && g[p].visited && Keeps(g0, g)
    requires Inv(g, stack, up, rank) && g[p].conn == [-1, -1, -1, -1]
    ensures Turned(g0, g, stack, up, rank, p, ds, 0)
  {
  }

  class Walker {
    const grid: Grid
    const rand: nat -> nat               // the results of rand(), in their order
    var drawn: nat                       // how many of them have been used
    ghost var up: Dirs
    ghost var rank: Ranks

    constructor (grid: Grid, rand: nat -> nat)
      ensures this.grid == grid && this.rand == rand && drawn == 0
    {
      this.grid, this.rand := grid, rand;
      drawn, up, rank := 0, map[], map[ROOT := 0];
    }

    /** One wall toward the border or a visited room (maze/generator.c:85-86, 103-113). */
    method DecideWall(p: Pos, d: int, ghost stack: set<Pos>)
      requires grid.Valid() && p in grid.rooms && p in stack && 0 <= d < 4
      requires Inv(grid.rooms, stack, up, rank) && grid.rooms[p].conn[d] == -1
      requires Step(p, d) in grid.rooms ==> grid.rooms[Step(p, d)].visited
      modifies grid`rooms, grid.maze
      ensures grid.Valid() && Inv(grid.rooms, stack, up, rank)
      ensures grid.rooms == WithConn(old(grid.rooms), p, d, WallValue(old(grid.rooms), p, d))
      ensures DirDone(grid.rooms, p, d) && Seen(grid.rooms) == Seen(old(grid.rooms))
    {
      WallKeepsInv(grid.rooms, stack, up, rank, p, d);
      var room := grid.Get(p);
      var x := 1;
      if HasNeighbour(p, d, grid.rows, grid.cols) {
        var neighbour := grid.Get(Step(p, d));
        var opposite := Opposite(d);
        if neighbour.conn[opposite] == 1 || neighbour.conn[opposite] == 0 {
          x := neighbour.conn[opposite];
        }
      }
      grid.Set(p, room.(conn := room.conn[d := x]));
    }

    /** The start of drunken_walk (maze/generator.c:72-77). */
    method MarkRoom(p: Pos, ghost stack: set<Pos>)
      requires grid.Valid() && p in grid.rooms && !grid.rooms[p].visited
      requires Inv(Visit(grid.rooms, p), stack + {p}, up, rank)
      requires grid.rooms[p].conn == [-1, -1, -1, -1]
      modifies grid`rooms, grid.maze
      ensures grid.Valid() && Inv(grid.rooms, stack + {p}, up, rank)
      ensures Keeps(old(grid.rooms), grid.rooms) && grid.rooms[p].visited && grid.rooms[p].conn == [-1, -1, -1, -1]
      ensures Seen(grid.rooms) == Seen(old(grid.rooms)) + {p}
    {
      var room := grid.Get(p);
      grid.Set(p, room.(visited := true, r := p.r, c := p.c, next := Null));
      SameWallsKeepInv(Visit(old(grid.rooms), p), grid.rooms, stack + {p}, up, rank);
    }

    /** drunken_walk (maze/generator.c:70-116). */
    method DrunkenWalk(p: Pos, ghost stack: set<Pos>)
      requires grid.Valid() && p in grid.rooms && !grid.rooms[p].visited && p !in stack
      requires Inv(Visit(grid.rooms, p), stack + {p}, up, rank) && grid.rooms[p].conn == [-1, -1, -1, -1]
      modifies this`up, this`rank, this`drawn, grid`rooms, grid.maze
      ensures grid.Valid() && Inv(grid.rooms, stack, up, rank)
      ensures Keeps(old(grid.rooms), grid.rooms) && grid.rooms[p].visited
      ensures Roam(grid.rooms.Keys, Seen(old(grid.rooms)), old(up), p, rand, old(drawn)) ==
              Trail(Seen(grid.rooms), up, drawn)
      decreases Unvisited(grid.rooms), 0
    {
      var dirs := Arrive(p, stack);
      LookAround(p, dirs, stack + {p}, old(grid.rooms));
      LeaveKeepsInv(grid.rooms, stack, up, rank, p);
    }

    /** Mark the room and shuffle its directions (maze/generator.c:72-82). */
    method Arrive(p: Pos, ghost stack: set<Pos>) returns (dirs: array<int>)
      requires grid.Valid() && p in grid.rooms && !grid.rooms[p].visited
      requires Inv(Visit(grid.rooms, p), stack + {p}, up, rank) && grid.rooms[p].conn == [-1, -1, -1, -1]
      modifies this`drawn, grid`rooms, grid.maze
      ensures fresh(dirs) && dirs.Length == 4 && AllDirections(dirs[..]) && grid.Valid()
      ensures Turned(old(grid.rooms), grid.rooms, stack + {p}, up, rank, p, dirs[..], 0)
      ensures Unvisited(grid.rooms) < Unvisited(old(grid.rooms))
      ensures Roam(old(grid.rooms).Keys, Seen(old(grid.rooms)), up, p, rand, old(drawn)) ==
              RoamFrom(old(grid.rooms).Keys, Seen(grid.rooms), up, p, dirs[..], 0, rand, drawn)
    {
      MarkRoom(p, stack);
      dirs := Directions(rand, drawn);
      drawn := drawn + 4;
      ghost var g0 := old(grid.rooms);
      Fewer(g0, grid.rooms, p);
      FirstTurn(g0, grid.rooms, stack + {p}, up, rank, p, dirs[..]);
      RoamStarts(g0.Keys, Seen(g0), up, p, dirs[..], rand, old(drawn));
    }

    /** The loop over the directions (maze/generator.c:84-115). */
    method LookAround(p: Pos, dirs: array<int>, ghost stack: set<Pos>, ghost g0: Rooms)
      requires grid.Valid() && p in grid.rooms && p in stack && dirs.Length == 4 && AllDirections(dirs[..])
      requires Turned(g0, grid.rooms, stack, up, rank, p, dirs[..], 0)
      modifies this`up, this`rank, this`drawn, grid`rooms, grid.maze
      ensures grid.Valid() && Inv(grid.rooms, stack, up, rank) && Keeps(g0, grid.rooms)
      ensures p in grid.rooms && grid.rooms[p].visited && |grid.rooms[p].conn| == 4 && Done(grid.rooms, p)
      ensures RoamFrom(g0.Keys, Seen(old(grid.rooms)), old(up), p, dirs[..], 0, rand, old(drawn)) ==
              Trail(Seen(grid.rooms), up, drawn)
      decreases Unvisited(grid.rooms), 4
    {
      ghost var ds := dirs[..];
      ghost var t := RoamFrom(g0.Keys, Seen(grid.rooms), up, p, ds, 0, rand, drawn);
      var i := 0;
      while i < 4
        invariant 0 <= i <= 4 && dirs[..] == ds && grid.Valid() && Unvisited(grid.rooms) <= Unvisited(old(grid.rooms))
        invariant Turned(g0, grid.rooms, stack, up, rank, p, ds, i)
        invariant t == RoamFrom(g0.Keys, Seen(grid.rooms), up, p, ds, i, rand, drawn)
      {
        Turn(p, dirs[i], ds, i, stack, g0);
        i := i + 1;
      }
      ProgressDone(grid.rooms, p, ds);
    }

    /** One round of the loop over the directions. */
    method Turn(p: Pos, d: int, ghost ds: seq<int>, ghost i: int, ghost stack: set<Pos>, ghost g0: Rooms)
      requires grid.Valid() && AllDirections(ds) && 0 <= i < 4 && d == ds[i] && p in stack
      requires Turned(g0, grid.rooms, stack, up, rank, p, ds, i)
      modifies this`up, this`rank, this`drawn, grid`rooms, grid.maze
      ensures grid.Valid() && Turned(g0, grid.rooms, stack, up, rank, p, ds, i + 1)
      ensures Unvisited(grid.rooms) <= Unvisited(old(grid.rooms))
      ensures RoamFrom(g0.Keys, Seen(old(grid.rooms)), old(up), p, ds, i, rand, old(drawn)) ==
              RoamFrom(g0.Keys, Seen(grid.rooms), up, p, ds, i + 1, rand, drawn)
      decreases Unvisited(grid.rooms), 3
    {
      ghost var g := grid.rooms;
      ProcessDirection(p, d, stack);
      ProgressStep(g, grid.rooms, p, ds, i);
    }

    /** One direction of the loop (maze/generator.c:85-114). */
    method ProcessDirection(p: Pos, d: int, ghost stack: set<Pos>)
      requires grid.Valid() && p in grid.rooms && p in stack && 0 <= d < 4
      requires Inv(grid.rooms, stack, up, rank) && grid.rooms[p].visited && grid.rooms[p].conn[d] == -1
      modifies this`up, this`rank, this`drawn, grid`rooms, grid.maze
      ensures grid.Valid() && Inv(grid.rooms, stack, up, rank)
      ensures KeepsBut(old(grid.rooms), grid.rooms, p, d) && DirDone(grid.rooms, p, d)
      ensures RoamToward(grid.rooms.Keys, Seen(old(grid.rooms)), old(up), p, d, rand, old(drawn)) ==
              Trail(Seen(grid.rooms), up, drawn)
      decreases Unvisited(grid.rooms), 2
    {
      if !HasNeighbour(p, d, grid.rows, grid.cols) {
        DecideWall(p, d, stack);
      } else {
        var neighbour := grid.Get(Step(p, d));
        if neighbour.visited {
          DecideWall(p, d, stack);
        } else {
          RankOf(grid.rooms, stack, up, rank, p);
          Enter(p, d, stack);
        }
      }
    }

    /** Open the wall to an unvisited neighbour and walk on from there (maze/generator.c:91-102). */
    method Enter(p: Pos, d: int, ghost stack: set<Pos>)
      requires grid.Valid() && CanEnter(grid.rooms, stack, up, rank, p, d)
      modifies this`up, this`rank, this`drawn, grid`rooms, grid.maze
      ensures grid.Valid() && Inv(grid.rooms, stack, up, rank)
      ensures Keeps(WithConn(old(grid.rooms), p, d, 0), grid.rooms) && grid.rooms[Step(p, d)].visited
      ensures RoamToward(grid.rooms.Keys, Seen(old(grid.rooms)), old(up), p, d, rand, old(drawn)) ==
              Trail(Seen(grid.rooms), up, drawn)
      decreases Unvisited(grid.rooms), 1
    {
      Advance(p, d, stack);
      DrunkenWalk(Step(p, d), stack);
    }

    /** The neighbour behind the open wall is ready to be walked from. */
    method Advance(p: Pos, d: int, ghost stack: set<Pos>)
      requires grid.Valid() && CanEnter(grid.rooms, stack, up, rank, p, d)
      modifies this`up, this`rank, grid`rooms, grid.maze
      ensures grid.Valid() && up == old(up)[Step(p, d) := Opposite(d)]
      ensures Keeps(WithConn(old(grid.rooms), p, d, 0), grid.rooms)
      ensures Seen(grid.rooms) == Seen(old(grid.rooms)) && Unvisited(grid.rooms) == Unvisited(old(grid.rooms))
      ensures
        var g, n := grid.rooms, Step(p, d);
        && n in g && !g[n].visited && n !in stack && g[n].conn == [-1, -1, -1, -1]
        && Inv(Visit(g, n), stack + {n}, up, rank)
    {
      OpenedKeepsInv(grid.rooms, stack, up, rank, p, d);
      OpenWall(p, d);
    }

    /** The wall and the neighbour's coordinates (maze/generator.c:91-99). */
    method OpenWall(p: Pos, d: int)
      requires grid.Valid() && p in grid.rooms && 0 <= d < 4 && Step(p, d) in grid.rooms && p in rank
      modifies this`up, this`rank, grid`rooms, grid.maze
      ensures grid.Valid() && grid.rooms == Opened(old(grid.rooms), p, d)
      ensures up == old(up)[Step(p, d) := Opposite(d)] && rank == old(rank)[Step(p, d) := old(rank)[p] + 1]
    {
      var n := Step(p, d);
      var room := grid.Get(p);
      grid.Set(p, room.(conn := room.conn[d := 0]));
      var neighbour := grid.Get(n);
      grid.Set(n, neighbour.(r := n.r, c := n.c));
      up, rank := up[n := Opposite(d)], rank[n := rank[p] + 1];
    }

    /** The initialisation of `main` and the walk from the corner (maze/generator.c:189-198). */
    method Generate()
      requires grid.Valid()
      modifies this`up, this`rank, this`drawn, grid`rooms, grid.maze
      ensures grid.Valid() && Inv(grid.rooms, {}, up, rank)
      ensures ROOT in grid.rooms && up == Roam(grid.rooms.Keys, {}, map[], ROOT, rand, old(drawn)).up
    {
      grid.Clear();
      up, rank := map[], map[ROOT := 0];
      assert Seen(grid.rooms) == {};
      FirstRoom(grid.rooms);
      DrunkenWalk(ROOT, {});
    }
  }

  lemma FirstRoom(g: Rooms)
    requires ROOT in g && forall p :: p in g ==> !g[p].visited && g[p].conn == [-1, -1, -1, -1]
    ensures Inv(Visit(g, ROOT), {} + {ROOT}, map[], map[ROOT := 0])
  {
    var g' := Visit(g, ROOT);
    forall p | p in g' ensures RoomOk(g', {} + {ROOT}, map[], p) {
      forall d | 0 <= d < 4 ensures DirOk(g', map[], p, d) {
        assert g'[p].conn[d] == -1;
      }
    }
  }

  lemma Fewer(g: Rooms, g': Rooms, p: Pos)
    requires Keeps(g, g') && p in g && !g[p].visited && g'[p].visited
    ensures Unvisited(g') < Unvisited(g)
  {
    assert p in Unvisited(g) && p !in Unvisited(g');
  }
}
