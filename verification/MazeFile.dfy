/**
 The maze on disk: each room is one hexadecimal digit (maze/generator.c:127-153, 208-213;
 maze/solver.c:32-61, 226-238).  Printing and reading back reproduces every wall, and the
 solver then finds the one simple path of the generated maze.
 */
module MazeFile {
  import opened Maze
  import opened Generator
  import opened SpanningTree
  import opened Solver

  // ----- one room -----

  predicate AllBits(conn: seq<int>) {
    |conn| == 4 && forall d :: 0 <= d < 4 ==> conn[d] in {0, 1}
  }

  /** encode_room (maze/generator.c:127-130). */
  function Encode(conn: seq<int>): (h: int)
    requires |conn| == 4
    ensures AllBits(conn) ==> 0 <= h < 16
  {
    conn[0] * 1 + conn[1] * 2 + conn[2] * 4 + conn[3] * 8
  }

  /** The binary digits of a code. */
  function Bits(h: int): seq<int> {
    [h % 2, h / 2 % 2, h / 4 % 2, h / 8 % 2]
  }

  lemma EncodeBits(conn: seq<int>)
    requires AllBits(conn)
    ensures Bits(Encode(conn)) == conn
  {
    assert conn == [conn[0], conn[1], conn[2], conn[3]];
  }

  lemma BitsEncode(h: int)
    requires 0 <= h < 16
    ensures AllBits(Bits(h)) && Encode(Bits(h)) == h
  {
  }

  /** create_room_connections (maze/solver.c:32-61). */
  method Connections(code: nat) returns (conn: seq<int>)
    ensures AllBits(conn)
    ensures code < 16 ==> conn == Bits(code)
  {
    var hex := code;
    var east, west, south, north;
    if hex >= 8 { hex := hex - 8; east := 1; } else { east := 0; }
    if hex >= 4 { hex := hex - 4; west := 1; } else { west := 0; }
    if hex >= 2 { hex := hex - 2; south := 1; } else { south := 0; }
    if hex == 1 { hex := hex - 1; north := 1; } else { north := 0; }
    conn := [north, south, west, east];
  }

  // ----- one digit -----

  function HexDigit(h: int): (c: char)
    requires 0 <= h < 16
    ensures IsHex(c) && HexValue(c) == h && !IsSpace(c)
  {
    "0123456789abcdef"[h]
  }

  /** isspace: blank, tab, newline, vertical tab, form feed, return. */
  predicate IsSpace(c: char) { c == ' ' || '\t' <= c <= '\r' }

  predicate IsSign(c: char) { c == '+' || c == '-' }

  predicate IsHex(c: char) { '0' <= c <= '9' || 'a' <= c <= 'f' || 'A' <= c <= 'F' }

  function HexValue(c: char): (h: nat)
    requires IsHex(c)
    ensures h < 16
  {
    if '0' <= c <= '9' then c as int - '0' as int
    else if 'a' <= c <= 'f' then c as int - 'a' as int + 10
    else c as int - 'A' as int + 10
  }

  /** The text without white space. */
  function Digits(text: string): string {
    if text == "" then "" else (if IsSpace(text[0]) then "" else [text[0]]) + Digits(text[1..])
  }

  predicate Codes(codes: seq<int>) {
    forall i :: 0 <= i < |codes| ==> 0 <= codes[i] < 16
  }

  /** The codes of the rooms, row by row, as digits. */
  function CodeDigits(codes: seq<int>): string
    requires Codes(codes)
  {
    seq(|codes|, i requires 0 <= i < |codes| => HexDigit(codes[i]))
  }

  /** encode_maze (maze/generator.c:145-153). */
  method EncodeMaze(grid: Grid) returns (codes: seq<int>)
    requires grid.Valid()
    ensures |codes| == grid.maze.Length
    ensures forall p :: p in grid.rooms ==>
              0 <= Index(p, grid.cols) < |codes| && codes[Index(p, grid.cols)] == Encode(grid.rooms[p].conn)
    ensures forall i :: 0 <= i < |codes| ==> |grid.maze[i].conn| == 4 && codes[i] == Encode(grid.maze[i].conn)
  {
    grid.AllInGrid();
    var result := new int[grid.maze.Length];
    var i := 0;
    while i < grid.maze.Length
      invariant 0 <= i <= grid.maze.Length
      invariant forall j :: 0 <= j < i ==> result[j] == Encode(grid.maze[j].conn)
    {
      result[i] := Encode(grid.maze[i].conn);
      i := i + 1;
    }
    codes := result[..];
  }

  lemma CodeDigitsSplit(codes: seq<int>, n: nat)
    requires n <= |codes| && Codes(codes)
    ensures CodeDigits(codes) == CodeDigits(codes[..n]) + CodeDigits(codes[n..])
  {
  }

  /** The rooms as the file holds them: a line for each row, a digit for each room. */
  ghost function Lines(codes: seq<int>, rows: nat, cols: nat): string
    requires Codes(codes)
  {
    if rows == 0 || |codes| < cols then ""
    else CodeDigits(codes[..cols]) + "\n" + Lines(codes[cols..], rows - 1, cols)
  }

  /** White space apart, these are the digits of all rooms in order. */
  lemma {:induction false} LinesHoldDigits(codes: seq<int>, rows: nat, cols: nat)
    requires |codes| == rows * cols && Codes(codes)
    ensures Digits(Lines(codes, rows, cols)) == CodeDigits(codes)
  {
    if rows > 0 {
      RowFits(0, rows, cols);
      var row, rest := CodeDigits(codes[..cols]), codes[cols..];
      LinesHoldDigits(rest, rows - 1, cols);
      DigitsOfLine(row, Lines(rest, rows - 1, cols));
      CodeDigitsSplit(codes, cols);
    }
  }

  lemma {:induction false} DigitsOfLine(row: string, rest: string)
    requires forall i :: 0 <= i < |row| ==> !IsSpace(row[i])
    ensures Digits(row + "\n" + rest) == row + Digits(rest)
  {
    var line := row + "\n" + rest;
    if row == "" {
      assert line[0] == '\n' && line[1..] == rest;
    } else {
      assert line[0] == row[0] && line[1..] == row[1..] + "\n" + rest;
      DigitsOfLine(row[1..], rest);
    }
  }

  /** `text` holds the rows before the n-th code, and the other rows complete it. */
  ghost predicate Printed(text: string, codes: seq<int>, n: nat, rows: nat, cols: nat, whole: string) {
    n <= |codes| && Codes(codes) && text + Lines(codes[n..], rows, cols) == whole
  }

  lemma PrintedNext(text: string, codes: seq<int>, n: nat, rows: nat, cols: nat, whole: string)
    requires rows > 0 && n + cols <= |codes| && Printed(text, codes, n, rows, cols, whole)
    ensures Printed(text + CodeDigits(codes[n..n + cols]) + "\n", codes, n + cols, rows - 1, cols, whole)
  {
    var row, rest := CodeDigits(codes[n..n + cols]), Lines(codes[n + cols..], rows - 1, cols);
    assert codes[n..][..cols] == codes[n..n + cols] && codes[n..][cols..] == codes[n + cols..];
    assert text + row + "\n" + rest == text + (row + "\n" + rest);
  }

  /** The print loops (maze/generator.c:208-213). */
  method Print(codes: seq<int>, rows: nat, cols: nat) returns (text: string)
    requires |codes| == rows * cols && Codes(codes)
    ensures text == Lines(codes, rows, cols) && Digits(text) == CodeDigits(codes)
  {
    text := "";
    var i := 0;
    ghost var whole := Lines(codes, rows, cols);
    assert codes[0..] == codes;
    while i < rows
      invariant 0 <= i <= rows && 0 <= i * cols && Printed(text, codes, i * cols, rows - i, cols, whole)
    {
      RowFits(i, rows, cols);
      PrintedNext(text, codes, i * cols, rows - i, cols, whole);
      var row := PrintRow(codes, i * cols, cols);
      text := text + row + "\n";
      i := i + 1;
    }
    LinesHoldDigits(codes, rows, cols);
  }

  method PrintRow(codes: seq<int>, n: nat, cols: nat) returns (text: string)
    requires n + cols <= |codes| && Codes(codes)
    ensures text == CodeDigits(codes[n..n + cols])
  {
    text := "";
    var k := 0;
    while k < cols
      invariant 0 <= k <= cols && text == CodeDigits(codes[n..n + k])
    {
      assert codes[n..n + k + 1] == codes[n..n + k] + [codes[n + k]];
      text := text + [HexDigit(codes[n + k])];
      k := k + 1;
    }
  }

  lemma RowFits(i: int, rows: int, cols: int)
    requires 0 <= i < rows && 0 <= cols
    ensures i * cols + cols == (i + 1) * cols && 0 <= i * cols && (i + 1) * cols <= rows * cols
  {
    assert rows * cols == (i + 1) * cols + (rows - i - 1) * cols;
    assert (rows - i - 1) * cols >= 0;
  }

  lemma RowNext(i: int, cols: int)
    requires 0 <= i && 0 < cols
    ensures 0 <= Index(Pos(i, 0), cols) && 0 <= Index(Pos(i + 1, 0), cols) == Index(Pos(i, cols), cols)
  {
  }

  /**
   fscanf("%1x") (maze/solver.c:228): skip white space and take one digit; on a mismatch `hex`
   keeps its value, and a sign is used up.
   */
  method ReadHex(text: string, pos: nat, hex: nat) returns (hex': nat, pos': nat)
    requires pos <= |text|
    ensures pos' <= |text|
    ensures var rest := Digits(text[pos..]);
            if rest != "" && IsHex(rest[0]) then hex' == HexValue(rest[0]) && Digits(text[pos'..]) == rest[1..]
            else hex' == hex && Digits(text[pos'..]) == if rest != "" && IsSign(rest[0]) then rest[1..] else rest
  {
    pos', hex' := pos, hex;
    while pos' < |text| && IsSpace(text[pos'])
      invariant pos <= pos' <= |text| && Digits(text[pos'..]) == Digits(text[pos..])
    {
      assert text[pos'..][1..] == text[pos' + 1..];
      pos' := pos' + 1;
    }
    if pos' < |text| {
      assert text[pos'..][1..] == text[pos' + 1..];
      if IsHex(text[pos']) {
        hex' := HexValue(text[pos']);
        pos' := pos' + 1;
      } else if IsSign(text[pos']) {
        pos' := pos' + 1;
      }
    }
  }

  // ----- loading -----

  /** The text has a digit for every room. */
  ghost predicate HasMaze(text: string, n: int) {
    |Digits(text)| >= n && forall i :: 0 <= i < n && i < |Digits(text)| ==> IsHex(Digits(text)[i])
  }

  /** The room at `p` has been loaded: its walls from its digit, its place, nothing visited. */
  ghost predicate LoadedAt(text: string, room: Room, p: Pos, n: int) {
    && room.r == p.r && room.c == p.c && !room.visited && room.next == Null && AllBits(room.conn)
    && (0 <= n < |Digits(text)| && IsHex(Digits(text)[n]) && HasMaze(text, n) ==>
        room.conn == Bits(HexValue(Digits(text)[n])))
  }

  /** The load loops of `main` (maze/solver.c:226-238); `hex` starts out with any value. */
  method Load(grid: Grid, text: string, garbage: nat)
    requires grid.Valid()
    modifies grid`rooms, grid.maze
    ensures grid.Valid() && grid.rooms.Keys == old(grid.rooms).Keys
    ensures forall p :: p in grid.rooms ==> LoadedAt(text, grid.rooms[p], p, Index(p, grid.cols))
  {
    var hex: nat, pos: nat := garbage, 0;
    assert text[0..] == text;
    var i := 0;
    while i < grid.rows
      invariant 0 <= i <= grid.rows && grid.Valid() && pos <= |text| && 0 <= Index(Pos(i, 0), grid.cols)
      invariant At(text, pos, Index(Pos(i, 0), grid.cols))
      invariant grid.rooms.Keys == old(grid.rooms).Keys
      invariant forall p :: p in grid.rooms && p.r < i ==> LoadedAt(text, grid.rooms[p], p, Index(p, grid.cols))
    {
      RowNext(i, grid.cols);
      hex, pos := LoadRow(grid, text, pos, hex, i);
      i := i + 1;
    }
  }

  /** The file position is behind the first `n` digits, if there are as many. */
  ghost predicate At(text: string, pos: nat, n: int) {
    pos <= |text| && (0 <= n && HasMaze(text, n) ==> Digits(text[pos..]) == Digits(text)[n..])
  }

  /** The rooms of row `i` up to column `j` are loaded, and no other row has changed. */
  ghost predicate RowLoaded(g0: Rooms, g: Rooms, text: string, i: int, j: int, cols: int) {
    && g.Keys == g0.Keys
    && (forall p :: p in g && p.r == i && p.c < j ==> LoadedAt(text, g[p], p, Index(p, cols)))
    && (forall p :: p in g && p.r != i ==> g[p] == g0[p])
  }

  method LoadRow(grid: Grid, text: string, pos: nat, hex: nat, i: int) returns (hex': nat, pos': nat)
    requires grid.Valid() && 0 <= i < grid.rows && At(text, pos, Index(Pos(i, 0), grid.cols))
    modifies grid`rooms, grid.maze
    ensures grid.Valid() && RowLoaded(old(grid.rooms), grid.rooms, text, i, grid.cols, grid.cols)
    ensures At(text, pos', Index(Pos(i, grid.cols), grid.cols))
  {
    hex', pos' := hex, pos;
    var j := 0;
    while j < grid.cols
      invariant 0 <= j <= grid.cols && grid.Valid() && At(text, pos', Index(Pos(i, j), grid.cols))
      invariant RowLoaded(old(grid.rooms), grid.rooms, text, i, j, grid.cols)
    {
      ghost var g := grid.rooms;
      hex', pos' := LoadRoom(grid, text, pos', hex', Pos(i, j));
      RoomLoaded(old(grid.rooms), g, grid.rooms, text, i, j, grid.cols);
      j := j + 1;
    }
  }

  lemma RoomLoaded(g0: Rooms, g: Rooms, g': Rooms, text: string, i: int, j: int, cols: int)
    requires RowLoaded(g0, g, text, i, j, cols) && Pos(i, j) in g && Pos(i, j) in g' &&
             g' == g[Pos(i, j) := g'[Pos(i, j)]]
    requires LoadedAt(text, g'[Pos(i, j)], Pos(i, j), Index(Pos(i, j), cols))
    ensures RowLoaded(g0, g', text, i, j + 1, cols)
  {
  }

  /** One iteration of the load loop. */
  method LoadRoom(grid: Grid, text: string, pos: nat, hex: nat, p: Pos) returns (hex': nat, pos': nat)
    requires grid.Valid() && p in grid.rooms && At(text, pos, Index(p, grid.cols))
    modifies grid`rooms, grid.maze
    ensures grid.Valid() && p in grid.rooms && grid.rooms == old(grid.rooms)[p := grid.rooms[p]]
    ensures LoadedAt(text, grid.rooms[p], p, Index(p, grid.cols)) && At(text, pos', Index(p, grid.cols) + 1)
  {
    IndexInRange(p, grid.rows, grid.cols);
    hex', pos' := ReadHex(text, pos, hex);
    var conn := Connections(hex');
    var room := grid.Get(p);
    grid.Set(p, room.(conn := conn, r := p.r, c := p.c, visited := false, next := Null));
  }

  // ----- from generator to solver -----

  lemma PerfectIsBits(g: Rooms, rows: int, cols: int, p: Pos)
    requires Perfect(g, rows, cols) && p in g
    ensures AllBits(g[p].conn)
  {
    forall d | 0 <= d < 4 ensures g[p].conn[d] in {0, 1} {
      assert WallOk(g, p, d);
    }
  }

  /** The text holds the walls of every room, one digit a room, row by row. */
  ghost predicate TextOf(text: string, g: Rooms, cols: int) {
    && (forall i :: 0 <= i < |Digits(text)| ==> IsHex(Digits(text)[i]))
    && (forall p {:trigger DigitAt(text, g, cols, p)} :: p in g ==> DigitAt(text, g, cols, p))
  }

  ghost predicate DigitAt(text: string, g: Rooms, cols: int, p: Pos)
    requires p in g
  {
    && AllBits(g[p].conn) && 0 <= Index(p, cols) < |Digits(text)|
    && Digits(text)[Index(p, cols)] == HexDigit(Encode(g[p].conn))
  }

  /** Encode and print a perfect maze. */
  method Save(grid: Grid) returns (text: string)
    requires grid.Valid() && Perfect(grid.rooms, grid.rows, grid.cols)
    ensures TextOf(text, grid.rooms, grid.cols)
  {
    var codes := EncodeMaze(grid);
    CodesInRange(grid, codes);
    text := Print(codes, grid.rows, grid.cols);
    assert forall i :: 0 <= i < |codes| ==> Digits(text)[i] == HexDigit(codes[i]);
    forall p | p in grid.rooms ensures DigitAt(text, grid.rooms, grid.cols, p) {
      PerfectIsBits(grid.rooms, grid.rows, grid.cols, p);
    }
  }

  lemma CodesInRange(grid: Grid, codes: seq<int>)
    requires grid.Valid() && Perfect(grid.rooms, grid.rows, grid.cols) && |codes| == grid.maze.Length
    requires forall i :: 0 <= i < |codes| ==> |grid.maze[i].conn| == 4 && codes[i] == Encode(grid.maze[i].conn)
    ensures Codes(codes)
  {
    forall i | 0 <= i < |codes| ensures 0 <= codes[i] < 16 {
      var p := PosOf(i, grid.rows, grid.cols);
      assert p in grid.rooms;
      PerfectIsBits(grid.rooms, grid.rows, grid.cols, p);
    }
  }

  ghost predicate SameWalls(g: Rooms, g': Rooms) {
    g'.Keys == g.Keys && forall p :: p in g ==> g'[p].conn == g[p].conn
  }

  /** What was saved is loaded: every wall is the same. */
  lemma LoadedWalls(text: string, g: Rooms, g': Rooms, cols: int)
    requires TextOf(text, g, cols) && g'.Keys == g.Keys
    requires forall p :: p in g' ==> LoadedAt(text, g'[p], p, Index(p, cols))
    ensures SameWalls(g, g') && Placed(g') && Fresh(g')
  {
    forall p | p in g ensures g'[p].conn == g[p].conn {
      assert DigitAt(text, g, cols, p) && LoadedAt(text, g'[p], p, Index(p, cols));
      EncodeBits(g[p].conn);
    }
  }

  // ----- the digits and the compass -----

  /**
   The passages of the room at (r, c) with the digit `h`: to the row above, the row below, the
   column before and the column behind, exactly when that room exists and its bit is clear.
   */
  ghost predicate Compass(g: Rooms, rows: int, cols: int, r: int, c: int, h: int) {
    && (Linked(g, Pos(r, c), Pos(r - 1, c)) <==> 0 < r && h % 2 == 0)
    && (Linked(g, Pos(r, c), Pos(r + 1, c)) <==> r + 1 < rows && h / 2 % 2 == 0)
    && (Linked(g, Pos(r, c), Pos(r, c - 1)) <==> 0 < c && h / 4 % 2 == 0)
    && (Linked(g, Pos(r, c), Pos(r, c + 1)) <==> c + 1 < cols && h / 8 % 2 == 0)
    && forall q :: Linked(g, Pos(r, c), q) ==> q in {Pos(r - 1, c), Pos(r + 1, c), Pos(r, c - 1), Pos(r, c + 1)}
  }

  lemma BitsAreCompass(g: Rooms, rows: int, cols: int, r: int, c: int, h: int)
    requires (forall p :: p in g <==> InRange(p, rows, cols)) && Pos(r, c) in g && g[Pos(r, c)].conn == Bits(h)
    ensures Compass(g, rows, cols, r, c, h)
  {
    var p := Pos(r, c);
    assert Step(p, 0) == Pos(r - 1, c) && Step(p, 1) == Pos(r + 1, c);
    assert Step(p, 2) == Pos(r, c - 1) && Step(p, 3) == Pos(r, c + 1);
    assert g[p].conn[0] == h % 2 && g[p].conn[1] == h / 2 % 2 && g[p].conn[2] == h / 4 % 2 && g[p].conn[3] == h / 8 % 2;
  }

  /** A loaded maze has the passages that its digits say. */
  lemma LoadedPassages(text: string, g: Rooms, rows: int, cols: int, r: int, c: int)
    requires (forall p :: p in g <==> InRange(p, rows, cols)) && 0 <= r < rows && 0 <= c < cols
    requires forall p :: p in g ==> LoadedAt(text, g[p], p, Index(p, cols))
    requires 0 <= r * cols + c < |Digits(text)| && HasMaze(text, r * cols + c + 1)
    ensures Compass(g, rows, cols, r, c, HexValue(Digits(text)[r * cols + c]))
  {
    assert Index(Pos(r, c), cols) == r * cols + c;
    BitsAreCompass(g, rows, cols, r, c, HexValue(Digits(text)[r * cols + c]));
  }

  /** A saved maze has the passages that its digits say. */
  lemma SavedPassages(text: string, g: Rooms, rows: int, cols: int, r: int, c: int)
    requires (forall p :: p in g <==> InRange(p, rows, cols)) && 0 <= r < rows && 0 <= c < cols && TextOf(text, g, cols)
    ensures 0 <= r * cols + c < |Digits(text)| && IsHex(Digits(text)[r * cols + c])
    ensures Compass(g, rows, cols, r, c, HexValue(Digits(text)[r * cols + c]))
  {
    assert Index(Pos(r, c), cols) == r * cols + c && DigitAt(text, g, cols, Pos(r, c));
    EncodeBits(g[Pos(r, c)].conn);
    BitsAreCompass(g, rows, cols, r, c, HexValue(Digits(text)[r * cols + c]));
  }

  // ----- the whole program -----

  /** The generator: a perfect maze whose passages form a tree. */
  method MakeMaze(grid: Grid, rand: nat -> nat) returns (ghost up: Dirs, ghost rank: Ranks)
    requires grid.Valid()
    modifies grid`rooms, grid.maze
    ensures grid.Valid() && Perfect(grid.rooms, grid.rows, grid.cols) && TreeOf(grid.rooms, up, rank)
    ensures ROOT in grid.rooms && up == Roam(grid.rooms.Keys, {}, map[], ROOT, rand, 0).up
  {
    var walker := new Walker(grid, rand);
    walker.Generate();
    up, rank := walker.up, walker.rank;
    WalkIsPerfect(grid.rooms, up, rank, grid.rows, grid.cols);
    WalkIsTree(grid.rooms, up, rank, grid.rows, grid.cols);
  }

  /** The solver in its pruned build. */
  method SolveMaze(grid: Grid, text: string, garbage: nat, start: Pos, goal: Pos, ghost g: Rooms)
    returns (found: bool, printed: seq<Pos>)
    requires grid.Valid() && TextOf(text, g, grid.cols) && g.Keys == grid.rooms.Keys && start in g && goal in g
    modifies grid`rooms, grid.maze
    ensures found <==> Reachable(g, start, goal)
    ensures found ==> PathBetween(g, printed, start, goal) && Simple(printed)
    ensures !found ==> printed == []
  {
    Load(grid, text, garbage);
    LoadedWalls(text, g, grid.rooms, grid.cols);
    ghost var g' := grid.rooms;
    var search := new Search(grid, false);
    ghost var path, w;
    found, path, w := search.Solve(start, goal);
    printed := search.file;
    assert [] + path == path;
    ReachableSame(g, g', start, goal);
    PathSame(g, g', path, start, goal);
  }

  lemma ReachableSame(g: Rooms, g': Rooms, u: Pos, v: Pos)
    requires SameWalls(g, g')
    ensures Reachable(g, u, v) <==> Reachable(g', u, v)
  {
    forall s ensures PathBetween(g, s, u, v) <==> PathBetween(g', s, u, v) {
      PathSame(g, g', s, u, v);
    }
  }

  /** Generate, save, load and solve: the solver prints the one simple path of the generated maze. */
  method GenerateAndSolve(from: Grid, to: Grid, rand: nat -> nat, garbage: nat, start: Pos, goal: Pos)
    returns (found: bool, printed: seq<Pos>)
    requires from.Valid() && to.Valid() && from.rows == to.rows && from.cols == to.cols && from != to &&
             from.maze != to.maze
    requires InRange(start, from.rows, from.cols) && InRange(goal, from.rows, from.cols)
    modifies from`rooms, from.maze, to`rooms, to.maze
    ensures Perfect(from.rooms, from.rows, from.cols)
    ensures found && PathBetween(from.rooms, printed, start, goal) && Simple(printed)
    ensures forall t :: PathBetween(from.rooms, t, start, goal) && Simple(t) ==> t == printed
  {
    ghost var up, rank := MakeMaze(from, rand);
    var text := Save(from);
    ghost var g := from.rooms;
    ghost var s := OneSimplePath(g, up, rank, start, goal);
    found, printed := SolveMaze(to, text, garbage, start, goal, g);
  }
}
