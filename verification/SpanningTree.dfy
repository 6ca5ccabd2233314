/**
 The finished maze is perfect: its open passages form a spanning tree of the grid, so any
 two rooms are joined by exactly one simple path.
 */
module SpanningTree {
  import opened Maze
  import opened Generator

  // ----- paths -----

  /** One step through an open passage that stays in the grid. */
  ghost predicate Linked(g: Rooms, p: Pos, q: Pos) {
    p in g && q in g && |g[p].conn| == 4 && exists d :: 0 <= d < 4 && Step(p, d) == q && g[p].conn[d] == 0
  }

  ghost predicate StepAt(g: Rooms, s: seq<Pos>, i: int)
    requires 0 <= i < |s| - 1
  {
    Linked(g, s[i], s[i + 1])
  }

  ghost predicate IsPath(g: Rooms, s: seq<Pos>) {
    |s| > 0 && s[0] in g && forall i :: 0 <= i < |s| - 1 ==> StepAt(g, s, i)
  }

  ghost predicate Simple(s: seq<Pos>) {
    forall i, j :: 0 <= i < j < |s| ==> s[i] != s[j]
  }

  ghost predicate PathBetween(g: Rooms, s: seq<Pos>, u: Pos, v: Pos) {
    IsPath(g, s) && s[0] == u && s[|s| - 1] == v
  }

  // ----- what the walk leaves -----

  /** A wall is open or closed, closed at the border, and the same from both sides. */
  ghost predicate WallOk(g: Rooms, p: Pos, d: int)
    requires p in g && |g[p].conn| == 4 && 0 <= d < 4
  {
    var q := Step(p, d);
    && g[p].conn[d] in {0, 1}
    && (q in g ==> |g[q].conn| == 4 && g[q].conn[Opposite(d)] == g[p].conn[d])
    && (q !in g ==> g[p].conn[d] == 1)
  }

  ghost predicate Perfect(g: Rooms, rows: int, cols: int) {
    && (forall p :: p in g <==> InRange(p, rows, cols))
    && (forall p :: p in g ==> |g[p].conn| == 4)
    && (forall p, d {:trigger WallOk(g, p, d)} :: p in g && 0 <= d < 4 ==> WallOk(g, p, d))
  }

  /** The room from which `v` was entered. */
  ghost function Parent(up: Dirs, v: Pos): Pos
    requires v in up
  {
    Step(v, up[v])
  }

  /** `v` hangs below a room of smaller rank, joined by an open passage. */
  ghost predicate Hangs(g: Rooms, up: Dirs, rank: Ranks, v: Pos)
    requires v in up
  {
    && v in g && 0 <= up[v] < 4 && Parent(up, v) in g && v in rank && Parent(up, v) in rank
    && 0 <= rank[Parent(up, v)] < rank[v] && Linked(g, v, Parent(up, v)) && Linked(g, Parent(up, v), v)
  }

  /** Every room but the root hangs below its parent, and these are all the passages. */
  ghost predicate TreeOf(g: Rooms, up: Dirs, rank: Ranks) {
    && ROOT in g && ROOT !in up && (forall v :: v in g ==> v in rank && rank[v] >= 0)
    && (forall v :: v in g && v != ROOT ==> v in up)
    && (forall v {:trigger Hangs(g, up, rank, v)} :: v in up ==> Hangs(g, up, rank, v))
    && (forall p, q :: Linked(g, p, q) ==> (p in up && Parent(up, p) == q) || (q in up && Parent(up, q) == p))
  }

  lemma {:induction false} AllVisited(g: Rooms, up: Dirs, rank: Ranks, rows: int, cols: int, p: Pos)
    requires Inv(g, {}, up, rank) && (forall q :: q in g <==> InRange(q, rows, cols)) && InRange(p, rows, cols)
    ensures g[p].visited
    decreases p.r + p.c
  {
    if p != ROOT {
      var d := if p.r > 0 then NORTH else WEST;
      var q := Step(p, d);
      AllVisited(g, up, rank, rows, cols, q);
      assert RoomOk(g, {}, up, q);
      assert DirDone(g, q, Opposite(d));
    }
  }

  lemma WalkIsPerfect(g: Rooms, up: Dirs, rank: Ranks, rows: int, cols: int)
    requires Inv(g, {}, up, rank) && (forall q :: q in g <==> InRange(q, rows, cols))
    ensures Perfect(g, rows, cols)
  {
    forall p | p in g ensures |g[p].conn| == 4 && g[p].visited {
      assert RoomOk(g, {}, up, p);
      AllVisited(g, up, rank, rows, cols, p);
    }
    forall p, d | p in g && 0 <= d < 4 ensures WallOk(g, p, d) {
      assert RoomOk(g, {}, up, p) && DirOk(g, up, p, d) && DirDone(g, p, d);
      if Step(p, d) in g {
        assert RoomOk(g, {}, up, Step(p, d));
        assert DirDone(g, Step(p, d), Opposite(d));
      }
    }
  }

  lemma EntryLinked(g: Rooms, up: Dirs, rank: Ranks, rows: int, cols: int, v: Pos)
    requires Inv(g, {}, up, rank) && Perfect(g, rows, cols) && v in up
    ensures Hangs(g, up, rank, v)
  {
    assert EntryOk(g, up, rank, v);
    var u, d := Parent(up, v), up[v];
    assert Step(u, Opposite(d)) == v && g[u].conn[Opposite(d)] == 0;
    assert WallOk(g, u, Opposite(d)) && WallOk(g, v, d);
    assert g[v].conn[d] == 0;
  }

  lemma OpenIsTree(g: Rooms, up: Dirs, rank: Ranks, p: Pos, q: Pos)
    requires Inv(g, {}, up, rank) && Linked(g, p, q)
    ensures (p in up && Parent(up, p) == q) || (q in up && Parent(up, q) == p)
  {
    var d :| 0 <= d < 4 && Step(p, d) == q && g[p].conn[d] == 0;
    assert RoomOk(g, {}, up, p) && DirOk(g, up, p, d);
    if q in up && up[q] == Opposite(d) {
      assert Step(q, Opposite(d)) == p;
    }
  }

  /** The open passages are exactly the walk's own steps. */
  lemma WalkIsTree(g: Rooms, up: Dirs, rank: Ranks, rows: int, cols: int)
    requires Inv(g, {}, up, rank) && (forall q :: q in g <==> InRange(q, rows, cols))
    ensures TreeOf(g, up, rank)
  {
    WalkIsPerfect(g, up, rank, rows, cols);
    forall v | v in g ensures v in rank && rank[v] >= 0 && (v != ROOT ==> v in up) {
      AllVisited(g, up, rank, rows, cols, v);
      RankOf(g, {}, up, rank, v);
    }
    forall v | v in up ensures Hangs(g, up, rank, v) {
      EntryLinked(g, up, rank, rows, cols, v);
    }
    forall p, q | Linked(g, p, q) ensures (p in up && Parent(up, p) == q) || (q in up && Parent(up, q) == p) {
      OpenIsTree(g, up, rank, p, q);
    }
  }

  // ----- one simple path -----

  /** A passage leads to the parent or to a child. */
  lemma LinkRanks(g: Rooms, up: Dirs, rank: Ranks, p: Pos, q: Pos)
    requires TreeOf(g, up, rank) && Linked(g, p, q)
    ensures rank[p] != rank[q] && Linked(g, q, p)
    ensures rank[q] < rank[p] ==> p in up && q == Parent(up, p)
    ensures rank[p] < rank[q] ==> q in up && p == Parent(up, q)
  {
    if p in up && Parent(up, p) == q { assert Hangs(g, up, rank, p); } else { assert Hangs(g, up, rank, q); }
  }

  lemma PathInside(g: Rooms, s: seq<Pos>, i: int)
    requires IsPath(g, s) && 0 <= i < |s|
    ensures s[i] in g
  {
    if i > 0 { assert StepAt(g, s, i - 1); }
  }

  /** A simple path never turns down again after a step away from the root. */
  lemma {:induction false} Climbs(g: Rooms, up: Dirs, rank: Ranks, s: seq<Pos>, i: int)
    requires TreeOf(g, up, rank) && IsPath(g, s) && Simple(s) && |s| >= 2 && 1 <= i < |s|
    requires s[0] in g && s[1] in g && rank[s[0]] < rank[s[1]]
    ensures s[i] in g && s[i - 1] in g && rank[s[i - 1]] < rank[s[i]] && rank[s[0]] < rank[s[i]]
  {
    if i > 1 {
      Climbs(g, up, rank, s, i - 1);
      assert StepAt(g, s, i - 1) && StepAt(g, s, i - 2);
      LinkRanks(g, up, rank, s[i - 2], s[i - 1]);
      LinkRanks(g, up, rank, s[i - 1], s[i]);
      assert s[i - 2] != s[i];
    }
  }

  lemma TailPath(g: Rooms, s: seq<Pos>)
    requires IsPath(g, s) && |s| >= 2
    ensures IsPath(g, s[1..]) && (Simple(s) ==> Simple(s[1..]))
  {
    PathInside(g, s, 1);
    forall i | 0 <= i < |s[1..]| - 1 ensures StepAt(g, s[1..], i) {
      assert StepAt(g, s, i + 1);
    }
  }

  /** From the deeper end, the first step goes to the parent. */
  lemma FirstStep(g: Rooms, up: Dirs, rank: Ranks, s: seq<Pos>, u: Pos, v: Pos)
    requires TreeOf(g, up, rank) && PathBetween(g, s, u, v) && Simple(s) && u != v
    requires u in g && v in g && rank[u] >= rank[v]
    ensures |s| >= 2 && u in up && s[1] == Parent(up, u)
    ensures PathBetween(g, s[1..], s[1], v) && Simple(s[1..])
  {
    assert StepAt(g, s, 0);
    LinkRanks(g, up, rank, s[0], s[1]);
    if rank[s[0]] < rank[s[1]] {
      Climbs(g, up, rank, s, |s| - 1);
    }
    TailPath(g, s);
  }

  ghost function Reversed(s: seq<Pos>): (r: seq<Pos>)
    ensures |r| == |s| && forall i :: 0 <= i < |s| ==> r[i] == s[|s| - 1 - i]
  {
    seq(|s|, i requires 0 <= i < |s| => s[|s| - 1 - i])
  }

  lemma ReversedBack(s: seq<Pos>)
    ensures Reversed(Reversed(s)) == s
  {
  }

  /** Passages are open both ways, so paths can be walked back. */
  lemma ReversedPath(g: Rooms, up: Dirs, rank: Ranks, s: seq<Pos>, u: Pos, v: Pos)
    requires TreeOf(g, up, rank) && PathBetween(g, s, u, v) && Simple(s)
    ensures PathBetween(g, Reversed(s), v, u) && Simple(Reversed(s))
  {
    var r, n := Reversed(s), |s|;
    PathInside(g, s, n - 1);
    forall i | 0 <= i < n - 1 ensures StepAt(g, r, i) {
      assert StepAt(g, s, n - 2 - i);
      assert r[i] == s[n - 1 - i] && r[i + 1] == s[n - 2 - i];
      LinkRanks(g, up, rank, s[n - 2 - i], s[n - 1 - i]);
    }
  }

  /** There is at most one simple path between two rooms. */
  lemma {:induction false} SimplePathUnique(g: Rooms, up: Dirs, rank: Ranks, s: seq<Pos>, t: seq<Pos>, u: Pos, v: Pos)
    requires TreeOf(g, up, rank) && u in g && v in g
    requires PathBetween(g, s, u, v) && Simple(s) && PathBetween(g, t, u, v) && Simple(t)
    ensures s == t
    decreases rank[u] + rank[v], if rank[u] >= rank[v] then 0 else 1
  {
    if u == v {
      assert s[0] == s[|s| - 1] && t[0] == t[|t| - 1];
    } else if rank[u] >= rank[v] {
      FirstStep(g, up, rank, s, u, v);
      FirstStep(g, up, rank, t, u, v);
      assert Hangs(g, up, rank, u);
      SimplePathUnique(g, up, rank, s[1..], t[1..], s[1], v);
      assert s == [u] + s[1..] && t == [u] + t[1..];
    } else {
      ReversedPath(g, up, rank, s, u, v);
      ReversedPath(g, up, rank, t, u, v);
      SimplePathUnique(g, up, rank, Reversed(s), Reversed(t), v, u);
      ReversedBack(s);
      ReversedBack(t);
    }
  }

  // ----- and there is one -----

  lemma {:induction false} RootIsLowest(g: Rooms, up: Dirs, rank: Ranks, v: Pos)
    requires TreeOf(g, up, rank) && v in g && v != ROOT
    ensures rank[ROOT] < rank[v]
    decreases rank[v]
  {
    assert Hangs(g, up, rank, v);
    if Parent(up, v) != ROOT {
      RootIsLowest(g, up, rank, Parent(up, v));
    }
  }

  lemma Prepended(g: Rooms, u: Pos, s: seq<Pos>, v: Pos)
    requires |s| > 0 && PathBetween(g, s, s[0], v) && Linked(g, u, s[0])
    ensures PathBetween(g, [u] + s, u, v)
  {
    var t := [u] + s;
    forall i | 0 <= i < |t| - 1 ensures StepAt(g, t, i) {
      if i > 0 { assert StepAt(g, s, i - 1); }
    }
  }

  /** No room of the path lies deeper than its ends, and only the ends lie as deep. */
  ghost predicate Shallow(rank: Ranks, s: seq<Pos>, u: Pos, v: Pos)
    requires u in rank && v in rank && forall i :: 0 <= i < |s| ==> s[i] in rank
  {
    forall i :: 0 <= i < |s| ==> s[i] == u || s[i] == v || rank[s[i]] < rank[u] || rank[s[i]] < rank[v]
  }

  /** Any two rooms are joined by a simple path. */
  lemma {:induction false} SimplePathExists(g: Rooms, up: Dirs, rank: Ranks, u: Pos, v: Pos) returns (s: seq<Pos>)
    requires TreeOf(g, up, rank) && u in g && v in g
    ensures PathBetween(g, s, u, v) && Simple(s) && (forall i :: 0 <= i < |s| ==> s[i] in g) && Shallow(rank, s, u, v)
    decreases rank[u] + rank[v], if rank[u] >= rank[v] then 0 else 1
  {
    if u == v {
      s := [u];
    } else if rank[u] >= rank[v] {
      if u == ROOT { RootIsLowest(g, up, rank, v); }
      assert Hangs(g, up, rank, u);
      var t := SimplePathExists(g, up, rank, Parent(up, u), v);
      Prepended(g, u, t, v);
      s := [u] + t;
    } else {
      var t := SimplePathExists(g, up, rank, v, u);
      ReversedPath(g, up, rank, t, v, u);
      s := Reversed(t);
    }
  }

  /** One simple path between any two rooms. */
  lemma OneSimplePath(g: Rooms, up: Dirs, rank: Ranks, u: Pos, v: Pos) returns (s: seq<Pos>)
    requires TreeOf(g, up, rank) && u in g && v in g
    ensures PathBetween(g, s, u, v) && Simple(s)
    ensures forall t :: PathBetween(g, t, u, v) && Simple(t) ==> t == s
  {
    s := SimplePathExists(g, up, rank, u, v);
    forall t | PathBetween(g, t, u, v) && Simple(t) ensures t == s {
      SimplePathUnique(g, up, rank, t, s, u, v);
    }
  }
}
