/**
 The maze solver's depth-first search (maze/solver.c:86-144), on any maze: symmetric or
 not, generated or not.  `full` selects the build that prints every room it enters.
 */
module Solver {
  import opened Maze
  import opened Generator
  import opened SpanningTree

  // ----- what a search changes -----

  /** Walls stay, visited rooms are left alone, visits are never undone. */
  ghost predicate Grown(g: Rooms, g': Rooms) {
    && g'.Keys == g.Keys
    && (forall x :: x in g ==> g'[x].conn == g[x].conn && g'[x].r == g[x].r && g'[x].c == g[x].c)
    && (forall x :: x in g && g[x].visited ==> g'[x] == g[x])
  }

  ghost predicate New(g: Rooms, g': Rooms, x: Pos) {
    x in g && x in g' && !g[x].visited && g'[x].visited
  }

  /** Every room one step from `x` has been visited. */
  ghost predicate OutDone(g: Rooms, x: Pos) {
    forall y :: Linked(g, x, y) ==> g[y].visited
  }

  /** The rooms visited since `g` have been searched through, but for `p`. */
  ghost predicate Searched(g: Rooms, g': Rooms, p: Pos) {
    forall x {:trigger OutDone(g', x)} :: New(g, g', x) && x != p ==> OutDone(g', x)
  }

  lemma LinkedSame(g: Rooms, g': Rooms, x: Pos, y: Pos)
    requires g'.Keys == g.Keys && (forall z :: z in g ==> g'[z].conn == g[z].conn)
    ensures Linked(g, x, y) <==> Linked(g', x, y)
  {
    if Linked(g, x, y) {
      var d :| 0 <= d < 4 && Step(x, d) == y && g[x].conn[d] == 0;
      assert g'[x].conn[d] == 0;
    }
    if Linked(g', x, y) {
      var d :| 0 <= d < 4 && Step(x, d) == y && g'[x].conn[d] == 0;
      assert g[x].conn[d] == 0;
    }
  }

  lemma OutDoneGrown(g: Rooms, g': Rooms, x: Pos)
    requires Grown(g, g') && OutDone(g, x)
    ensures OutDone(g', x)
  {
    forall y | Linked(g', x, y) ensures g'[y].visited {
      LinkedSame(g, g', x, y);
    }
  }

  /** A failed search of a neighbour extends what has been searched around `p`. */
  lemma SearchedTrans(g: Rooms, g1: Rooms, g2: Rooms, p: Pos, q: Pos)
    requires Grown(g, g1) && Grown(g1, g2) && Searched(g, g1, p) && Searched(g1, g2, q) && OutDone(g2, q)
    ensures Searched(g, g2, p)
  {
    forall x | New(g, g2, x) && x != p ensures OutDone(g2, x) {
      if g1[x].visited {
        assert OutDone(g1, x);
        OutDoneGrown(g1, g2, x);
      } else if x != q {
        assert New(g1, g2, x);
      }
    }
  }

  // ----- the chain of `next` pointers -----

  /** From room to room of the path, `next` points to the following one, and at the goal to itself. */
  ghost predicate Chained(g: Rooms, s: seq<Pos>) {
    && |s| > 0 && (forall i :: 0 <= i < |s| ==> s[i] in g)
    && (forall i :: 0 <= i < |s| - 1 ==> g[s[i]].next == To(s[i + 1]))
    && g[s[|s| - 1]].next == To(s[|s| - 1])
  }

  /** What a successful search leaves. */
  ghost predicate Solved(g: Rooms, g': Rooms, p: Pos, goal: Pos, s: seq<Pos>) {
    && PathBetween(g', s, p, goal) && Simple(s) && Chained(g', s)
    && forall i :: 0 <= i < |s| ==> New(g, g', s[i])
  }

  lemma SolvedStep(g: Rooms, g1: Rooms, g2: Rooms, p: Pos, q: Pos, goal: Pos, s: seq<Pos>)
    requires Grown(g, g1) && Grown(g1, g2) && New(g, g1, p) && Solved(g1, g2, q, goal, s)
    requires Linked(g1, p, q) && g1[p].next == To(q)
    ensures Solved(g, g2, p, goal, [p] + s)
  {
    LinkedSame(g1, g2, p, q);
    Prepended(g2, p, s, goal);
    var t := [p] + s;
    forall i | 0 <= i < |t| ensures New(g, g2, t[i]) && (i > 0 ==> t[i] != p) {
      if i > 0 { assert New(g1, g2, s[i - 1]); }
    }
    forall i | 0 <= i < |t| - 1 ensures g2[t[i]].next == To(t[i + 1]) {
      if i > 0 { assert g2[s[i - 1]].next == To(s[i]); }
    }
    assert t[|t| - 1] == s[|s| - 1];
  }

  // ----- the printed walk and its loops -----

  function Find(st: seq<Pos>, x: Pos): (i: int)
    ensures 0 <= i <= |st| && (i < |st| ==> st[i] == x) && (i == |st| <==> x !in st)
  {
    if st == [] then 0 else if st[0] == x then 0 else
      assert st == [st[0]] + st[1..];
      1 + Find(st[1..], x)
  }

  /** Go to `x`: drop the loop if `x` is on the path already. */
  function Go(st: seq<Pos>, x: Pos): seq<Pos> {
    if Find(st, x) < |st| then st[..Find(st, x) + 1] else st + [x]
  }

  /** Chronological loop erasure of a walk, starting from the path `st`. */
  function Erase(st: seq<Pos>, w: seq<Pos>): seq<Pos>
    decreases w
  {
    if w == [] then st else Erase(Go(st, w[0]), w[1..])
  }

  lemma {:induction false} EraseConcat(st: seq<Pos>, a: seq<Pos>, b: seq<Pos>)
    ensures Erase(st, a + b) == Erase(Erase(st, a), b)
    decreases a
  {
    if a == [] {
      assert a + b == b;
    } else {
      assert (a + b)[0] == a[0] && (a + b)[1..] == a[1..] + b;
      EraseConcat(Go(st, a[0]), a[1..], b);
    }
  }

  lemma EraseOne(st: seq<Pos>, x: Pos)
    ensures Erase(st, [x]) == Go(st, x)
  {
    assert [x][1..] == [];
  }

  /** Coming back from a dead end. */
  lemma GoBack(st: seq<Pos>, p: Pos, q: Pos)
    requires p !in st && p != q
    ensures Go(st + [p] + [q], p) == st + [p]
  {
    var s := st + [p] + [q];
    assert s[|st|] == p && forall k :: 0 <= k < |st| ==> s[k] == st[k] && st[k] in st;
    FindFirst(s, p, |st|);
  }

  lemma {:induction false} FindFirst(st: seq<Pos>, x: Pos, k: int)
    requires 0 <= k < |st| && st[k] == x
    ensures Find(st, x) <= k
  {
    if st[0] != x { FindFirst(st[1..], x, k - 1); }
  }

  /** The printed rooms: a walk from `p` over passages, in rooms visited since `g`. */
  ghost predicate Printed(g: Rooms, g': Rooms, p: Pos, last: Pos, w: seq<Pos>) {
    && |w| > 0 && w[0] == p && w[|w| - 1] == last
    && (forall i :: 0 <= i < |w| ==> New(g, g', w[i]))
    && (forall i :: 0 <= i < |w| - 1 ==> Joined(g', w, i))
  }

  /** A passage leads one way or the other between two consecutive printed rooms. */
  ghost predicate Joined(g: Rooms, w: seq<Pos>, i: int)
    requires 0 <= i < |w| - 1
  {
    Linked(g, w[i], w[i + 1]) || Linked(g, w[i + 1], w[i])
  }

  lemma JoinedSame(g: Rooms, g': Rooms, w: seq<Pos>, i: int)
    requires Grown(g, g') && 0 <= i < |w| - 1 && Joined(g, w, i)
    ensures Joined(g', w, i)
  {
    LinkedSame(g, g', w[i], w[i + 1]);
    LinkedSame(g, g', w[i + 1], w[i]);
  }

  /** The walk so far, then the walk of the search of `q`. */
  lemma PrintedThrough(g: Rooms, g1: Rooms, g2: Rooms, p: Pos, q: Pos, last: Pos, w: seq<Pos>, v: seq<Pos>)
    requires Grown(g, g1) && Grown(g1, g2) && Printed(g, g1, p, p, w) && Printed(g1, g2, q, last, v)
    requires Linked(g1, p, q)
    ensures Printed(g, g2, p, last, w + v)
  {
    var u := w + v;
    forall i | 0 <= i < |u| ensures New(g, g2, u[i]) {
      if i < |w| { assert New(g, g1, w[i]); } else { assert New(g1, g2, v[i - |w|]); }
    }
    forall i | 0 <= i < |u| - 1 ensures Joined(g2, u, i) {
      if i < |w| - 1 {
        assert Joined(g1, w, i);
        JoinedSame(g1, g2, w, i);
      } else if i == |w| - 1 {
        LinkedSame(g1, g2, p, q);
      } else {
        assert Joined(g2, v, i - |w|);
      }
    }
  }

  lemma PrintedBack(g: Rooms, g2: Rooms, p: Pos, q: Pos, u: seq<Pos>)
    requires Printed(g, g2, p, q, u) && Linked(g2, p, q)
    ensures Printed(g, g2, p, p, u + [p])
  {
    var t := u + [p];
    forall i | 0 <= i < |t| ensures New(g, g2, t[i]) {
      if i < |u| { assert New(g, g2, u[i]); } else { assert New(g, g2, u[0]); }
    }
    forall i | 0 <= i < |t| - 1 ensures Joined(g2, t, i) {
      if i < |u| - 1 { assert Joined(g2, u, i); }
    }
  }

  // ----- the search -----

  /** Every room knows its own place, as the loading loop leaves it (maze/solver.c:233-234). */
  ghost predicate Placed(g: Rooms) {
    forall p :: p in g ==> Pos(g[p].r, g[p].c) == p
  }

  /** What a call of `dfs` promises, found or not. */
  ghost predicate Outcome(g: Rooms, g': Rooms, p: Pos, goal: Pos, found: bool, path: seq<Pos>) {
    && Grown(g, g') && New(g, g', p)
    && (found ==> Solved(g, g', p, goal, path))
    && (!found ==> Searched(g, g', p) && OutDone(g', p) && !New(g, g', goal))
  }

  /** What the printing shows: where the walk ends and what is left of it without its loops. */
  ghost predicate Shown(g: Rooms, g': Rooms, p: Pos, goal: Pos, found: bool, path: seq<Pos>, stack: seq<Pos>,
      w: seq<Pos>) {
    && Printed(g, g', p, if found then goal else p, w)
    && Erase(stack, w) == stack + (if found then path else [p])
  }

  /** Inside the loop of `dfs` over the directions, after `i` of them. */
  ghost predicate Trying(g: Rooms, g1: Rooms, p: Pos, goal: Pos, i: int, stack: seq<Pos>, w: seq<Pos>) {
    && Grown(g, g1) && New(g, g1, p) && Searched(g, g1, p) && !New(g, g1, goal)
    && (forall d :: 0 <= d < i && d < 4 ==> TriedDir(g1, p, d))
    && Printed(g, g1, p, p, w) && Erase(stack, w) == stack + [p]
  }

  ghost predicate TriedDir(g: Rooms, p: Pos, d: int) {
    p in g && |g[p].conn| == 4 && 0 <= d < 4 && (Step(p, d) in g && g[p].conn[d] == 0 ==> g[Step(p, d)].visited)
  }

  lemma AllTried(g: Rooms, p: Pos)
    requires p in g && forall d :: 0 <= d < 4 ==> TriedDir(g, p, d)
    ensures OutDone(g, p)
  {
    forall y | Linked(g, p, y) ensures g[y].visited {
      var d :| 0 <= d < 4 && Step(p, d) == y && g[p].conn[d] == 0;
      assert TriedDir(g, p, d);
    }
  }

  /** The stack holds visited rooms only, each once. */
  ghost predicate StackOk(g: Rooms, stack: seq<Pos>) {
    forall x :: x in stack ==> x in g && g[x].visited
  }

  /** A neighbour was searched in vain: the loop goes on. */
  lemma DeadEnd(g: Rooms, g1: Rooms, g2: Rooms, p: Pos, q: Pos, goal: Pos, d: int, stack: seq<Pos>, w: seq<Pos>,
                v: seq<Pos>)
    requires Trying(g, g1, p, goal, d, stack, w) && 0 <= d < 4 && q == Step(p, d) && Linked(g1, p, q) &&
             StackOk(g, stack)
    requires Outcome(g1, g2, q, goal, false, []) && Shown(g1, g2, q, goal, false, [], stack + [p], v)
    ensures Trying(g, g2, p, goal, d + 1, stack, w + v + [p])
  {
    SearchedTrans(g, g1, g2, p, q);
    PrintedThrough(g, g1, g2, p, q, q, w, v);
    LinkedSame(g1, g2, p, q);
    PrintedBack(g, g2, p, q, w + v);
    EraseConcat(stack, w, v);
    EraseConcat(stack, w + v, [p]);
    EraseOne(stack + [p] + [q], p);
    GoBack(stack, p, q);
    forall e | 0 <= e < d ensures TriedDir(g2, p, e) {
      assert TriedDir(g1, p, e);
    }
  }

  /** A neighbour led to the goal. */
  lemma Success(g: Rooms, g1: Rooms, g2: Rooms, p: Pos, q: Pos, goal: Pos, d: int, stack: seq<Pos>, w: seq<Pos>,
                v: seq<Pos>, path: seq<Pos>)
    requires Trying(g, g1, p, goal, d, stack, w) && Linked(g1, p, q) && g1[p].next == To(q)
    requires Outcome(g1, g2, q, goal, true, path) && Shown(g1, g2, q, goal, true, path, stack + [p], v)
    ensures Outcome(g, g2, p, goal, true, [p] + path) && Shown(g, g2, p, goal, true, [p] + path, stack, w + v)
  {
    GrownTrans(g, g1, g2);
    SolvedStep(g, g1, g2, p, q, goal, path);
    PrintedThrough(g, g1, g2, p, q, goal, w, v);
    EraseThrough(stack, p, path, w, v);
  }

  lemma GrownTrans(g: Rooms, g1: Rooms, g2: Rooms)
    requires Grown(g, g1) && Grown(g1, g2)
    ensures Grown(g, g2)
  {
  }

  lemma EraseThrough(stack: seq<Pos>, p: Pos, path: seq<Pos>, w: seq<Pos>, v: seq<Pos>)
    requires Erase(stack, w) == stack + [p] && Erase(stack + [p], v) == stack + [p] + path
    ensures Erase(stack, w + v) == stack + ([p] + path)
  {
    EraseConcat(stack, w, v);
    assert stack + [p] + path == stack + ([p] + path);
  }

  /** Only `next` of the current room changes between two directions. */
  lemma Repointed(g: Rooms, g1: Rooms, p: Pos, goal: Pos, i: int, stack: seq<Pos>, w: seq<Pos>, n: Link)
    requires Trying(g, g1, p, goal, i, stack, w)
    ensures Trying(g, g1[p := g1[p].(next := n)], p, goal, i, stack, w)
  {
    var g2 := g1[p := g1[p].(next := n)];
    forall x | New(g, g2, x) && x != p ensures OutDone(g2, x) {
      assert New(g, g1, x) && OutDone(g1, x);
      forall y | Linked(g2, x, y) ensures g2[y].visited { LinkedSame(g1, g2, x, y); }
    }
    forall d | 0 <= d < i && d < 4 ensures TriedDir(g2, p, d) { assert TriedDir(g1, p, d); }
    forall j | 0 <= j < |w| - 1 ensures Joined(g2, w, j) {
      assert Joined(g1, w, j);
      LinkedSame(g1, g2, w[j], w[j + 1]);
      LinkedSame(g1, g2, w[j + 1], w[j]);
    }
    forall j | 0 <= j < |w| ensures New(g, g2, w[j]) { assert New(g, g1, w[j]); }
  }

  lemma StartTrying(g: Rooms, p: Pos, goal: Pos, stack: seq<Pos>)
    requires p in g && !g[p].visited && p != goal && StackOk(g, stack)
    ensures Trying(g, Visit(g, p), p, goal, 0, stack, [p])
  {
    EraseOne(stack, p);
  }

  lemma AtGoal(g: Rooms, p: Pos, stack: seq<Pos>)
    requires p in g && !g[p].visited && StackOk(g, stack)
    ensures var g' := g[p := g[p].(next := To(p), visited := true)];
            Outcome(g, g', p, p, true, [p]) && Shown(g, g', p, p, true, [p], stack, [p])
  {
    EraseOne(stack, p);
  }

  lemma StackGrows(g: Rooms, g1: Rooms, p: Pos, stack: seq<Pos>)
    requires Grown(g, g1) && StackOk(g, stack) && New(g, g1, p)
    ensures StackOk(g1, stack + [p])
  {
  }

  lemma SearchShrinks(g: Rooms, g1: Rooms, p: Pos)
    requires Grown(g, g1) && New(g, g1, p)
    ensures Unvisited(g1) < Unvisited(g)
  {
    assert p in Unvisited(g) && p !in Unvisited(g1);
  }

  // ----- the whole walk, as a function of the maze -----

  /** What a search finds, which rooms it has seen in the end, and what it prints. */
  datatype Trip = Trip(found: bool, seen: set<Pos>, walk: seq<Pos>)

  ghost predicate HasWalls(m: Rooms) {
    forall x :: x in m ==> |m[x].conn| == 4
  }

  /** The search from `p`, a room not seen yet. */
  ghost function Tour(m: Rooms, seen: set<Pos>, p: Pos, goal: Pos): (t: Trip)
    requires HasWalls(m) && p in m && p !in seen
    ensures seen + {p} <= t.seen
    decreases m.Keys - seen, 0, 0
  {
    if p == goal then Trip(true, seen + {p}, [p])
    else
      assert m.Keys - (seen + {p}) < m.Keys - seen by { assert p in m.Keys - seen; }
      var t := TourFrom(m, seen + {p}, p, goal, 0);
      Trip(t.found, t.seen, [p] + t.walk)
  }

  /** The rest of the search in room `p`, from direction `d` on: north, south, west, east. */
  ghost function TourFrom(m: Rooms, seen: set<Pos>, p: Pos, goal: Pos, d: int): (t: Trip)
    requires HasWalls(m) && p in m && 0 <= d <= 4
    ensures seen <= t.seen
    decreases m.Keys - seen, 1, 4 - d
  {
    if d == 4 then Trip(false, seen, [])
    else if Step(p, d) in m && m[p].conn[d] == 0 && Step(p, d) !in seen then
      var t := Tour(m, seen, Step(p, d), goal);
      if t.found then t
      else
        assert m.Keys - t.seen < m.Keys - seen by { assert Step(p, d) in m.Keys - seen; }
        var u := TourFrom(m, t.seen, p, goal, d + 1);
        Trip(u.found, u.seen, t.walk + [p] + u.walk)
    else TourFrom(m, seen, p, goal, d + 1)
  }

  /** Every room the search sees, it prints. */
  lemma {:induction false} TourShowsAll(m: Rooms, seen: set<Pos>, p: Pos, goal: Pos, x: Pos)
    requires HasWalls(m) && p in m && p !in seen
    ensures var t := Tour(m, seen, p, goal); x in t.seen ==> x in seen || x in t.walk
    decreases m.Keys - seen, 0, 0
  {
    if p != goal {
      assert m.Keys - (seen + {p}) < m.Keys - seen by { assert p in m.Keys - seen; }
      TourFromShowsAll(m, seen + {p}, p, goal, 0, x);
    }
  }

  lemma {:induction false} TourFromShowsAll(m: Rooms, seen: set<Pos>, p: Pos, goal: Pos, d: int, x: Pos)
    requires HasWalls(m) && p in m && 0 <= d <= 4
    ensures var t := TourFrom(m, seen, p, goal, d); x in t.seen ==> x in seen || x in t.walk
    decreases m.Keys - seen, 1, 4 - d
  {
    if d < 4 {
      if Step(p, d) in m && m[p].conn[d] == 0 && Step(p, d) !in seen {
        TourShowsAll(m, seen, Step(p, d), goal, x);
        var t := Tour(m, seen, Step(p, d), goal);
        if !t.found {
          assert m.Keys - t.seen < m.Keys - seen by { assert Step(p, d) in m.Keys - seen; }
          TourFromShowsAll(m, t.seen, p, goal, d + 1, x);
        }
      } else {
        TourFromShowsAll(m, seen, p, goal, d + 1, x);
      }
    }
  }

  /** The rooms of `g` are those of the maze `m`, with its walls. */
  ghost predicate SameMaze(m: Rooms, g: Rooms) {
    HasWalls(m) && g.Keys == m.Keys && forall x :: x in m ==> g[x].conn == m[x].conn
  }

  /** The rest of a tour, seen from a later point of it, after `w` has been printed. */
  ghost predicate Continues(t: Trip, w: seq<Pos>, u: Trip) {
    t == Trip(u.found, u.seen, w + u.walk)
  }

  /** Direction `d` of room `p` has been dealt with: the tour ends here, or goes on with the next direction. */
  ghost predicate TourGoesOn(m: Rooms, seen: set<Pos>, seen': set<Pos>, p: Pos, goal: Pos, d: int, found: bool,
                             v: seq<Pos>)
    requires HasWalls(m) && p in m && 0 <= d < 4
  {
    var t := TourFrom(m, seen, p, goal, d);
    if found then t == Trip(true, seen', v) else Continues(t, v, TourFrom(m, seen', p, goal, d + 1))
  }

  lemma TourSkips(m: Rooms, seen: set<Pos>, p: Pos, goal: Pos, d: int)
    requires HasWalls(m) && p in m && 0 <= d < 4
    requires !(Step(p, d) in m && m[p].conn[d] == 0 && Step(p, d) !in seen)
    ensures TourGoesOn(m, seen, seen, p, goal, d, false, [])
  {
  }

  lemma TourEnters(m: Rooms, seen: set<Pos>, p: Pos, goal: Pos, d: int, t: Trip)
    requires HasWalls(m) && p in m && 0 <= d < 4
    requires Step(p, d) in m && m[p].conn[d] == 0 && Step(p, d) !in seen && t == Tour(m, seen, Step(p, d), goal)
    ensures TourGoesOn(m, seen, t.seen, p, goal, d, t.found, if t.found then t.walk else t.walk + [p])
  {
  }

  /** Visiting a room, or pointing it elsewhere, leaves the maze as it is. */
  lemma RoomChanged(m: Rooms, g: Rooms, p: Pos, room: Room)
    requires SameMaze(m, g) && p in g && room.conn == g[p].conn
    ensures var g' := g[p := room];
      SameMaze(m, g') && Seen(g') == if room.visited then Seen(g) + {p} else Seen(g) - {p}
  {
  }

  lemma ContinuesOn(t: Trip, w: seq<Pos>, u: Trip, v: seq<Pos>, u': Trip)
    requires Continues(t, w, u) && Continues(u, v, u')
    ensures Continues(t, w + v, u')
  {
    assert w + (v + u'.walk) == w + v + u'.walk;
  }

  /** The loop over the directions of `p`, after `i` of them, within the tour `t`. */
  ghost predicate Midway(g0: Rooms, g: Rooms, p: Pos, goal: Pos, i: int, stack: seq<Pos>, w: seq<Pos>, m: Rooms,
                         t: Trip)
    requires 0 <= i <= 4
  {
    && Trying(g0, g, p, goal, i, stack, w) && SameMaze(m, g)
    && Continues(t, w, TourFrom(m, Seen(g), p, goal, i))
  }

  class Search {
    const grid: Grid
    const full: bool                 // the FULL build
    var file: seq<Pos>               // the rooms printed so far

    constructor (grid: Grid, full: bool)
      ensures this.grid == grid && this.full == full && file == []
    {
      this.grid, this.full, file := grid, full, [];
    }

    /** dfs (maze/solver.c:86-124). */
    method Dfs(p: Pos, goal: Pos, ghost stack: seq<Pos>, ghost m: Rooms)
      returns (found: bool, ghost path: seq<Pos>, ghost w: seq<Pos>)
      requires SameMaze(m, grid.rooms)
      requires grid.Valid() && Placed(grid.rooms) && p in grid.rooms && goal in grid.rooms && !grid.rooms[p].visited
      requires StackOk(grid.rooms, stack)
      modifies grid`rooms, grid.maze, this`file
      ensures grid.Valid() && Outcome(old(grid.rooms), grid.rooms, p, goal, found, path)
      ensures Shown(old(grid.rooms), grid.rooms, p, goal, found, path, stack, w)
      ensures file == old(file) + (if full then w else [])
      ensures SameMaze(m, grid.rooms) && p in m && p !in Seen(old(grid.rooms))
      ensures Tour(m, Seen(old(grid.rooms)), p, goal) == Trip(found, Seen(grid.rooms), w)
      decreases Unvisited(grid.rooms), 0
    {
      ghost var g0 := grid.rooms;
      if full { file := file + [p]; }
      var room := grid.Get(p);
      if p == goal {
        AtGoal(g0, p, stack);
        RoomChanged(m, g0, p, room.(next := To(p), visited := true));
        grid.Set(p, room.(next := To(p), visited := true));
        return true, [p], [p];
      }
      StartTrying(g0, p, goal, stack);
      RoomChanged(m, g0, p, room.(visited := true));
      grid.Set(p, room.(visited := true));
      SearchShrinks(g0, grid.rooms, p);
      found, path, w := TryAll(p, goal, g0, stack, old(file), m);
    }

    /** The loop over the four directions (maze/solver.c:104-123). */
    method TryAll(p: Pos, goal: Pos, ghost g0: Rooms, ghost stack: seq<Pos>, ghost before: seq<Pos>, ghost m: Rooms)
      returns (found: bool, ghost path: seq<Pos>, ghost w: seq<Pos>)
      requires grid.Valid() && Placed(g0) && p in grid.rooms && goal in grid.rooms && StackOk(g0, stack)
      requires Trying(g0, grid.rooms, p, goal, 0, stack, [p]) && file == before + (if full then [p] else [])
      requires SameMaze(m, grid.rooms)
      modifies grid`rooms, grid.maze, this`file
      ensures grid.Valid() && Outcome(g0, grid.rooms, p, goal, found, path) &&
              Shown(g0, grid.rooms, p, goal, found, path, stack, w)
      ensures file == before + (if full then w else [])
      ensures SameMaze(m, grid.rooms)
      ensures var t := TourFrom(m, Seen(old(grid.rooms)), p, goal, 0);
        Trip(t.found, t.seen, [p] + t.walk) == Trip(found, Seen(grid.rooms), w)
      decreases Unvisited(grid.rooms), 4
    {
      w, path := [p], [];
      ghost var t := TourFrom(m, Seen(grid.rooms), p, goal, 0);
      t := Trip(t.found, t.seen, [p] + t.walk);
      var i := 0;
      while i < 4
        invariant 0 <= i <= 4 && grid.Valid() && Unvisited(grid.rooms) <= Unvisited(old(grid.rooms))
        invariant Midway(g0, grid.rooms, p, goal, i, stack, w, m, t)
        invariant file == before + (if full then w else [])
      {
        found, path, w := TryOne(p, goal, i, g0, stack, w, m, t, before);
        if found {
          return;
        }
        i := i + 1;
      }
      AllTried(grid.rooms, p);
      return false, [], w;
    }

    /** One round of the loop, with what it adds to the walk. */
    method TryOne(p: Pos, goal: Pos, i: int, ghost g0: Rooms, ghost stack: seq<Pos>, ghost w: seq<Pos>, ghost m: Rooms,
                  ghost t: Trip, ghost before: seq<Pos>)
      returns (found: bool, ghost path: seq<Pos>, ghost w': seq<Pos>)
      requires grid.Valid() && Placed(g0) && p in grid.rooms && goal in grid.rooms && 0 <= i < 4 && StackOk(g0, stack)
      requires Midway(g0, grid.rooms, p, goal, i, stack, w, m, t) && file == before + (if full then w else [])
      modifies grid`rooms, grid.maze, this`file
      ensures grid.Valid() && file == before + (if full then w' else []) && SameMaze(m, grid.rooms)
      ensures !found ==> Midway(g0, grid.rooms, p, goal, i + 1, stack, w', m, t)
      ensures found ==> Outcome(g0, grid.rooms, p, goal, true, path) && t == Trip(true, Seen(grid.rooms), w')
      ensures found ==> Shown(g0, grid.rooms, p, goal, true, path, stack, w')
      ensures Unvisited(grid.rooms) <= Unvisited(old(grid.rooms))
      decreases Unvisited(grid.rooms), 3
    {
      ghost var v;
      ghost var rest := TourFrom(m, Seen(grid.rooms), p, goal, i);
      found, path, v := Try(p, goal, i, g0, stack, w, m);
      assert before + w + v == before + (w + v);
      if !found {
        ContinuesOn(t, w, rest, v, TourFrom(m, Seen(grid.rooms), p, goal, i + 1));
      }
      w' := w + v;
    }

    /** One direction of the loop (maze/solver.c:105-120); `v` is what it prints. */
    method Try(p: Pos, goal: Pos, d: int, ghost g0: Rooms, ghost stack: seq<Pos>, ghost w: seq<Pos>, ghost m: Rooms)
      returns (found: bool, ghost path: seq<Pos>, ghost v: seq<Pos>)
      requires grid.Valid() && Placed(g0) && p in grid.rooms && goal in grid.rooms && 0 <= d < 4 && StackOk(g0, stack)
      requires Trying(g0, grid.rooms, p, goal, d, stack, w) && SameMaze(m, grid.rooms)
      modifies grid`rooms, grid.maze, this`file
      ensures SameMaze(m, grid.rooms) && TourGoesOn(m, Seen(old(grid.rooms)), Seen(grid.rooms), p, goal, d, found, v)
      ensures grid.Valid() && file == old(file) + (if full then v else [])
      ensures !found ==> Trying(g0, grid.rooms, p, goal, d + 1, stack, w + v)
      ensures found ==>
                Outcome(g0, grid.rooms, p, goal, true, path) && Shown(g0, grid.rooms, p, goal, true, path, stack, w + v)
      ensures Unvisited(grid.rooms) <= Unvisited(old(grid.rooms))
      decreases Unvisited(grid.rooms), 2
    {
      ghost var seen := Seen(grid.rooms);
      if !HasNeighbour(p, d, grid.rows, grid.cols) {
        assert w + [] == w;
        TourSkips(m, seen, p, goal, d);
        return false, [], [];
      }
      var n := Step(p, d);
      var open := Point(p, n, goal, d, g0, stack, w, m);
      var neighbour := grid.Get(n);
      if open && !neighbour.visited {
        found, path, v := Explore(p, Pos(neighbour.r, neighbour.c), goal, d, g0, stack, w, m);
      } else {
        assert w + [] == w;
        TourSkips(m, seen, p, goal, d);
        return false, [], [];
      }
    }

    /** `next` points to the neighbour, whether or not the wall is open (maze/solver.c:107-110). */
    method Point(p: Pos, n: Pos, goal: Pos, d: int, ghost g0: Rooms, ghost stack: seq<Pos>, ghost w: seq<Pos>,
                 ghost m: Rooms) returns (open: bool)
      requires grid.Valid() && p in grid.rooms && 0 <= d < 4
      requires Trying(g0, grid.rooms, p, goal, d, stack, w) && SameMaze(m, grid.rooms)
      modifies grid`rooms, grid.maze
      ensures grid.Valid() && Trying(g0, grid.rooms, p, goal, d, stack, w) && SameMaze(m, grid.rooms)
      ensures grid.rooms.Keys == old(grid.rooms).Keys && Seen(grid.rooms) == Seen(old(grid.rooms))
      ensures Unvisited(grid.rooms) == Unvisited(old(grid.rooms))
      ensures grid.rooms[p].next == To(n) && (open <==> grid.rooms[p].conn[d] == 0)
    {
      Repointed(g0, grid.rooms, p, goal, d, stack, w, To(n));
      var room := grid.Get(p);
      RoomChanged(m, grid.rooms, p, room.(next := To(n)));
      grid.Set(p, room.(next := To(n)));
      return room.conn[d] == 0;
    }

    /** The recursive call and what follows it (maze/solver.c:112-118). */
    method Explore(p: Pos, n: Pos, goal: Pos, d: int, ghost g0: Rooms, ghost stack: seq<Pos>, ghost w: seq<Pos>,
                   ghost m: Rooms)
      returns (found: bool, ghost path: seq<Pos>, ghost v: seq<Pos>)
      requires grid.Valid() && Placed(g0) && p in grid.rooms && goal in grid.rooms && 0 <= d < 4 && StackOk(g0, stack)
      requires Trying(g0, grid.rooms, p, goal, d, stack, w) && SameMaze(m, grid.rooms)
      requires n == Step(p, d) && n in grid.rooms && !grid.rooms[n].visited
      requires grid.rooms[p].conn[d] == 0 && grid.rooms[p].next == To(n)
      modifies grid`rooms, grid.maze, this`file
      ensures SameMaze(m, grid.rooms) && TourGoesOn(m, Seen(old(grid.rooms)), Seen(grid.rooms), p, goal, d, found, v)
      ensures grid.Valid() && file == old(file) + (if full then v else [])
      ensures !found ==> Trying(g0, grid.rooms, p, goal, d + 1, stack, w + v)
      ensures found ==>
                Outcome(g0, grid.rooms, p, goal, true, path) && Shown(g0, grid.rooms, p, goal, true, path, stack, w + v)
      ensures Unvisited(grid.rooms) <= Unvisited(old(grid.rooms))
      decreases Unvisited(grid.rooms), 1
    {
      ghost var g1 := grid.rooms;
      StackGrows(g0, g1, p, stack);
      assert Linked(g1, p, n);
      found, path, v := Dfs(n, goal, stack + [p], m);
      TourEnters(m, Seen(g1), p, goal, d, Trip(found, Seen(grid.rooms), v));
      if found {
        Success(g0, g1, grid.rooms, p, n, goal, d, stack, w, v, path);
        path := [p] + path;
      } else {
        DeadEnd(g0, g1, grid.rooms, p, n, goal, d, stack, w, v);
        if full { file := file + [p]; }
        assert w + (v + [p]) == w + v + [p];
        v := v + [p];
      }
    }

    /** print_prunned (maze/solver.c:136-144). */
    method PrintPruned(p: Pos, goal: Pos, ghost path: seq<Pos>)
      requires grid.Valid() && Placed(grid.rooms) && Chained(grid.rooms, path) && Simple(path)
      requires path[0] == p && path[|path| - 1] == goal
      modifies this`file
      ensures file == old(file) + path
      decreases |path|
    {
      var room := grid.Get(p);
      file := file + [Pos(room.r, room.c)];
      if !(room.r == goal.r && room.c == goal.c) {
        assert room.next == To(path[1]);
        ChainedTail(grid.rooms, path);
        PrintPruned(room.next.room, goal, path[1..]);
        assert old(file) + [p] + path[1..] == old(file) + path;
      } else {
        assert path[0] == path[|path| - 1];
        assert path == [p];
      }
    }

    /** The search and the printing of `main` (maze/solver.c:242-251). */
    method Solve(start: Pos, goal: Pos) returns (found: bool, ghost path: seq<Pos>, ghost w: seq<Pos>)
      requires grid.Valid() && Placed(grid.rooms) && Fresh(grid.rooms) && start in grid.rooms && goal in grid.rooms
      modifies grid`rooms, grid.maze, this`file
      ensures found <==> Reachable(old(grid.rooms), start, goal)
      ensures found ==> PathBetween(old(grid.rooms), path, start, goal) && Simple(path)
      ensures file == old(file) + (if full then w else if found then path else [])
      ensures |w| > 0 && w[0] == start && w[|w| - 1] == if found then goal else start
      ensures Symmetric(old(grid.rooms)) ==> IsPath(old(grid.rooms), w)
      ensures Erase([], w) == if found then path else [start]
      ensures HasWalls(old(grid.rooms)) && w == Tour(old(grid.rooms), {}, start, goal).walk
      ensures !found ==> forall x :: Reachable(old(grid.rooms), start, x) ==> x in w
    {
      ghost var g := grid.rooms;
      assert Seen(g) == {};
      found, path, w := Dfs(start, goal, [], g);
      if found {
        PathSame(g, grid.rooms, path, start, goal);
      } else {
        NotReached(g, grid.rooms, start, goal);
        forall x | Reachable(g, start, x) ensures x in w {
          ReachedIsSeen(g, grid.rooms, start, goal, x);
          TourShowsAll(g, {}, start, goal, x);
        }
      }
      PrintedIsWalk(g, grid.rooms, start, if found then goal else start, w);
      if found && !full {
        PrintPruned(start, goal, path);
      }
    }
  }

  ghost predicate Fresh(g: Rooms) {
    forall p :: p in g ==> !g[p].visited
  }

  ghost predicate Reachable(g: Rooms, u: Pos, v: Pos) {
    exists s :: PathBetween(g, s, u, v)
  }

  /** Neighbours agree on the wall between them. */
  ghost predicate Symmetric(g: Rooms) {
    forall x, y :: Linked(g, x, y) ==> Linked(g, y, x)
  }

  lemma ChainedTail(g: Rooms, s: seq<Pos>)
    requires Chained(g, s) && Simple(s) && |s| >= 2
    ensures Chained(g, s[1..]) && Simple(s[1..])
  {
    var t := s[1..];
    forall i | 0 <= i < |t| - 1 ensures g[t[i]].next == To(t[i + 1]) {
      assert t[i] == s[i + 1];
    }
  }

  lemma PathSame(g: Rooms, g': Rooms, s: seq<Pos>, u: Pos, v: Pos)
    requires g'.Keys == g.Keys && forall p :: p in g ==> g'[p].conn == g[p].conn
    ensures PathBetween(g, s, u, v) <==> PathBetween(g', s, u, v)
  {
    forall i | 0 <= i < |s| - 1 ensures StepAt(g, s, i) <==> StepAt(g', s, i) {
      LinkedSame(g, g', s[i], s[i + 1]);
    }
  }

  /** A failed search has visited all that can be reached, and the goal was not there. */
  lemma NotReached(g: Rooms, g': Rooms, start: Pos, goal: Pos)
    requires Fresh(g) && goal in g && Outcome(g, g', start, goal, false, [])
    ensures !Reachable(g, start, goal)
  {
    forall s | PathBetween(g, s, start, goal) ensures false {
      PathVisited(g, g', start, goal, s, |s| - 1);
    }
  }

  lemma ReachedIsSeen(g: Rooms, g': Rooms, start: Pos, goal: Pos, x: Pos)
    requires Fresh(g) && Outcome(g, g', start, goal, false, []) && Reachable(g, start, x)
    ensures x in Seen(g')
  {
    var s :| PathBetween(g, s, start, x);
    PathVisited(g, g', start, goal, s, |s| - 1);
  }

  lemma {:induction false} PathVisited(g: Rooms, g': Rooms, start: Pos, goal: Pos, s: seq<Pos>, i: int)
    requires Fresh(g) && Outcome(g, g', start, goal, false, []) && IsPath(g, s) && s[0] == start && 0 <= i < |s|
    ensures New(g, g', s[i])
  {
    if i > 0 {
      PathVisited(g, g', start, goal, s, i - 1);
      assert StepAt(g, s, i - 1);
      LinkedSame(g, g', s[i - 1], s[i]);
      assert OutDone(g', s[i - 1]);
    }
  }

  lemma PrintedIsWalk(g: Rooms, g': Rooms, p: Pos, last: Pos, w: seq<Pos>)
    requires Grown(g, g') && Printed(g, g', p, last, w)
    ensures Symmetric(g) ==> IsPath(g, w)
  {
    if Symmetric(g) {
      assert New(g, g', w[0]);
      forall i | 0 <= i < |w| - 1 ensures StepAt(g, w, i) {
        assert Joined(g', w, i);
        LinkedSame(g, g', w[i], w[i + 1]);
        LinkedSame(g, g', w[i + 1], w[i]);
      }
    }
  }
}
