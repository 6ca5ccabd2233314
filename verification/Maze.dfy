/**
 The rooms of a maze and their neighbours (maze/common.c, maze/common.h).  A room is named
 by its row and column; the array index is computed only where the array is touched.
 */
module Maze {

  datatype Pos = Pos(r: int, c: int)

  const NORTH := 0
  const SOUTH := 1
  const WEST := 2
  const EAST := 3

  /** A pointer to a room of the array. */
  datatype Link = Null | To(room: Pos)

  /** `struct maze_room`. */
  datatype Room = Room(r: int, c: int, visited: bool, conn: seq<int>, next: Link)

  type Rooms = map<Pos, Room>

  /** is_in_range (maze/common.c:38-40). */
  predicate InRange(p: Pos, rows: int, cols: int) {
    p.r < rows && p.r >= 0 && p.c < cols && p.c >= 0
  }

  /** The room on the other side of wall `d`. */
  function Step(p: Pos, d: int): Pos {
    if d == NORTH then Pos(p.r - 1, p.c)
    else if d == SOUTH then Pos(p.r + 1, p.c)
    else if d == WEST then Pos(p.r, p.c - 1)
    else Pos(p.r, p.c + 1)
  }

  /** get_opposite_dir (maze/generator.c:18-33). */
  function Opposite(d: int): (o: int)
    requires 0 <= d < 4
    ensures 0 <= o < 4 && forall p :: Step(Step(p, d), o) == p
    ensures o == if d % 2 == 0 then d + 1 else d - 1
  {
    if d == NORTH then SOUTH else if d == SOUTH then NORTH else if d == WEST then EAST else WEST
  }

  /** direction_index (maze/common.c:54-70). */
  predicate HasNeighbour(p: Pos, d: int, rows: int, cols: int) {
    InRange(Step(p, d), rows, cols)
  }

  /** get_index (maze/common.c:21-23). */
  function Index(p: Pos, cols: int): int {
    p.r * cols + p.c
  }

  lemma RowsApart(a: int, b: int, cols: int)
    requires a < b && cols > 0
    ensures a * cols + cols <= b * cols
  {
    var k := b - a - 1;
    assert b * cols == a * cols + cols + k * cols;
    assert k * cols >= 0;
  }

  lemma IndexInRange(p: Pos, rows: int, cols: int)
    requires InRange(p, rows, cols)
    ensures 0 <= Index(p, cols) < rows * cols
  {
    RowsApart(p.r, rows, cols);
    assert p.r * cols >= 0;
  }

  lemma IndexInjective(p: Pos, q: Pos, rows: int, cols: int)
    requires InRange(p, rows, cols) && InRange(q, rows, cols) && p != q
    ensures Index(p, cols) != Index(q, cols)
  {
    if p.r < q.r {
      RowsApart(p.r, q.r, cols);
    } else if q.r < p.r {
      RowsApart(q.r, p.r, cols);
    }
  }

  /** The room at an array index. */
  lemma PosOf(i: int, rows: int, cols: int) returns (p: Pos)
    requires 0 <= i < rows * cols && rows > 0 && cols > 0
    ensures InRange(p, rows, cols) && Index(p, cols) == i
  {
    p := Pos(i / cols, i % cols);
    assert i == (i / cols) * cols + i % cols;
    if p.r >= rows {
      if p.r > rows { RowsApart(rows, p.r, cols); }
    }
    if p.r < 0 { RowsApart(p.r, 0, cols); }
  }

  /** All the rooms of the grid, as the array holds them. */
  class Grid {
    const rows: int
    const cols: int
    const maze: array<Room>
    ghost var rooms: Rooms

    ghost predicate Valid()
      reads this, maze
    {
      && rows > 0 && cols > 0 && maze.Length == rows * cols
      && (forall p :: p in rooms <==> InRange(p, rows, cols))
      && (forall p {:trigger Index(p, cols)} :: p in rooms ==>
            0 <= Index(p, cols) < maze.Length && rooms[p] == maze[Index(p, cols)])
      && (forall p :: p in rooms ==> |rooms[p].conn| == 4)
    }

    constructor (rows: int, cols: int, blank: Room)
      requires rows > 0 && cols > 0 && |blank.conn| == 4
      ensures Valid() && this.rows == rows && this.cols == cols && fresh(maze)
    {
      this.rows, this.cols := rows, cols;
      var n := rows * cols;
      assert n >= 0;
      maze := new Room[n](_ => blank);
      rooms := map r, c | 0 <= r < rows && 0 <= c < cols :: Pos(r, c) := blank;
      new;
      forall p | InRange(p, rows, cols) ensures 0 <= Index(p, cols) < maze.Length {
        IndexInRange(p, rows, cols);
      }
    }

    /** Every array element is a room of the grid. */
    lemma AllInGrid()
      requires Valid()
      ensures forall i :: 0 <= i < maze.Length ==> |maze[i].conn| == 4
      ensures forall p :: p in rooms ==> 0 <= Index(p, cols) < maze.Length && rooms[p] == maze[Index(p, cols)]
    {
      forall i | 0 <= i < maze.Length ensures |maze[i].conn| == 4 {
        var p := PosOf(i, rows, cols);
        assert p in rooms;
      }
    }

    method Get(p: Pos) returns (room: Room)
      requires Valid() && InRange(p, rows, cols)
      ensures room == rooms[p]
    {
      room := maze[Index(p, cols)];
    }

    method Set(p: Pos, room: Room)
      requires Valid() && InRange(p, rows, cols) && |room.conn| == 4
      modifies this`rooms, maze
      ensures Valid() && rooms == old(rooms)[p := room]
    {
      forall q | q in rooms && q != p ensures Index(q, cols) != Index(p, cols) {
        IndexInjective(p, q, rows, cols);
      }
      maze[Index(p, cols)] := room;
      rooms := rooms[p := room];
    }

    /** The loop that marks every room unvisited and every wall undecided (maze/generator.c:189-194). */
    method Clear()
      requires Valid()
      modifies this`rooms, maze
      ensures Valid() && rooms.Keys == old(rooms).Keys
      ensures forall p :: p in rooms ==> !rooms[p].visited && rooms[p].conn == [-1, -1, -1, -1]
    {
      var i := 0;
      while i < maze.Length
        invariant 0 <= i <= maze.Length && rooms == old(rooms)
        invariant forall j :: 0 <= j < i ==> !maze[j].visited && maze[j].conn == [-1, -1, -1, -1]
      {
        maze[i] := maze[i].(visited := false, conn := [-1, -1, -1, -1]);
        i := i + 1;
      }
      forall p | p in rooms ensures InRange(p, rows, cols) && 0 <= Index(p, cols) < maze.Length {
        IndexInRange(p, rows, cols);
      }
      rooms := map p | p in rooms :: maze[Index(p, cols)];
    }
  }
}
