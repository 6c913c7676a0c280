/** The game engine: a 4x4 grid of cells updated in place, the score, the best
    score and the game flags.

    A cell of the engine's grid is empty or holds a tile; a tile has a value and
    a merge marker (set when the tile was produced by a merge during the latest
    move). The engine never stores one tile in two cells, so a cell is modelled by
    the value and the marker of its tile. */
module Engine {
  import opened Lines
  import opened Boards

  datatype Cell = Empty | Tile(value: int, merged: bool)

  /** The value a board shows for a cell: 0 for an empty one. */
  function ValueOf(c: Cell): int
  {
    if c.Tile? then c.value else 0
  }

  function MarkOf(c: Cell): bool
  {
    c.Tile? && c.merged
  }

  /** The comparison `a?.value == b?.value` of two cells: two empty cells
      compare equal, an empty cell and a tile do not. */
  predicate SameValue(a: Cell, b: Cell)
  {
    (a.Empty? && b.Empty?) || (a.Tile? && b.Tile? && a.value == b.value)
  }

  /** The cell that shows value v with marker m: empty for 0. */
  function CellOf(v: int, m: bool): (c: Cell)
    ensures ValueOf(c) == v && MarkOf(c) == (v != 0 && m)
    ensures c.Tile? ==> c.value != 0
  {
    if v == 0 then Empty else Tile(v, m)
  }

  /** The cell that position k of a swept line shows. */
  function CellAt(s: Sweep, k: nat): Cell
  {
    if k < |s.cells| && k < |s.merged| then CellOf(s.cells[k], s.merged[k]) else Empty
  }

  predicate LineShaped(s: Sweep)
  {
    |s.cells| == 4 && |s.merged| == 4
  }

  /** A cell with its merge marker cleared, as at the start of a move. */
  function Cleared(c: Cell): Cell
  {
    if c.Tile? then Tile(c.value, false) else Empty
  }

  /** The values a row of cells shows. */
  function RowValues(row: seq<Cell>): (v: seq<int>)
    requires |row| == 4
    ensures |v| == 4 && forall c {:trigger v[c]} | 0 <= c < 4 :: v[c] == ValueOf(row[c])
  {
    [ValueOf(row[0]), ValueOf(row[1]), ValueOf(row[2]), ValueOf(row[3])]
  }

  /** The merge markers of a row of cells. */
  function RowMarks(row: seq<Cell>): (m: seq<bool>)
    requires |row| == 4
    ensures |m| == 4 && forall c {:trigger m[c]} | 0 <= c < 4 :: m[c] == MarkOf(row[c])
  {
    [MarkOf(row[0]), MarkOf(row[1]), MarkOf(row[2]), MarkOf(row[3])]
  }

  /** The board a grid of cells shows. */
  function Values(g: seq<seq<Cell>>): (b: seq<seq<int>>)
    requires IsGrid(g)
    ensures IsGrid(b)
    ensures forall r, c {:trigger b[r][c]} | 0 <= r < 4 && 0 <= c < 4 :: b[r][c] == ValueOf(g[r][c])
  {
    [RowValues(g[0]), RowValues(g[1]), RowValues(g[2]), RowValues(g[3])]
  }

  /** The merge markers of a grid of cells. */
  function Markers(g: seq<seq<Cell>>): (m: seq<seq<bool>>)
    requires IsGrid(g)
    ensures IsGrid(m)
    ensures forall r, c {:trigger m[r][c]} | 0 <= r < 4 && 0 <= c < 4 :: m[r][c] == MarkOf(g[r][c])
  {
    [RowMarks(g[0]), RowMarks(g[1]), RowMarks(g[2]), RowMarks(g[3])]
  }

  /** No tile has the value 0, so a cell shows 0 exactly when it is empty. */
  predicate NonzeroTiles(g: seq<seq<Cell>>)
    requires IsGrid(g)
  {
    forall r, c | 0 <= r < 4 && 0 <= c < 4 :: g[r][c].Tile? ==> g[r][c].value != 0
  }

  /** No cell carries a merge marker. */
  predicate NoMarkers(g: seq<seq<Cell>>)
    requires IsGrid(g)
  {
    forall r, c | 0 <= r < 4 && 0 <= c < 4 :: !MarkOf(g[r][c])
  }

  /** Every cell of the board shows 0, 2 or 4. */
  predicate SmallTiles(b: seq<seq<int>>)
    requires IsGrid(b)
  {
    forall r, c | 0 <= r < 4 && 0 <= c < 4 :: b[r][c] == 0 || b[r][c] == 2 || b[r][c] == 4
  }

  /** A row of cells with every merge marker cleared. */
  function ClearedRow(row: seq<Cell>): (row': seq<Cell>)
    requires |row| == 4
    ensures |row'| == 4 && forall c {:trigger row'[c]} | 0 <= c < 4 :: row'[c] == Cleared(row[c])
  {
    [Cleared(row[0]), Cleared(row[1]), Cleared(row[2]), Cleared(row[3])]
  }

  function BlankRow(): (row: seq<Cell>)
    ensures |row| == 4 && forall c {:trigger row[c]} | 0 <= c < 4 :: row[c] == Empty
  {
    [Empty, Empty, Empty, Empty]
  }

  /** The grid with every merge marker cleared, as at the start of a move. */
  function ClearAll(g: seq<seq<Cell>>): (g': seq<seq<Cell>>)
    requires IsGrid(g)
    ensures IsGrid(g') && forall r, c {:trigger g'[r][c]} | 0 <= r < 4 && 0 <= c < 4 :: g'[r][c] == Cleared(g[r][c])
  {
    [ClearedRow(g[0]), ClearedRow(g[1]), ClearedRow(g[2]), ClearedRow(g[3])]
  }

  /** Clearing the markers of a grid keeps its values and leaves no marker. */
  lemma ClearedGrid(g: seq<seq<Cell>>)
    requires IsGrid(g)
    ensures Values(ClearAll(g)) == Values(g) && NoMarkers(ClearAll(g))
    ensures NonzeroTiles(g) ==> NonzeroTiles(ClearAll(g))
  {
    var g' := ClearAll(g);
    forall r | 0 <= r < 4
      ensures Values(g')[r] == Values(g)[r]
    {
      assert g'[r] == ClearedRow(g[r]);
      assert forall c | 0 <= c < 4 :: Values(g')[r][c] == Values(g)[r][c];
    }
  }

  /** The grid of sixteen empty cells. */
  function Blank(): (g: seq<seq<Cell>>)
    ensures IsGrid(g) && forall r, c {:trigger g[r][c]} | 0 <= r < 4 && 0 <= c < 4 :: g[r][c] == Empty
  {
    [BlankRow(), BlankRow(), BlankRow(), BlankRow()]
  }

  /** The empty grid shows a well-formed board without tiles or markers. */
  lemma BlankGrid()
    ensures NonzeroTiles(Blank()) && NoMarkers(Blank())
    ensures WellFormed(Values(Blank())) && TileCount(Values(Blank())) == 0 && SmallTiles(Values(Blank()))
  {
    BlankBoard(Values(Blank()));
  }

  /** Writing a fresh tile of value 2 or 4 into an empty cell: the board gets
      the value there and one tile more, the markers get no marker there, and
      what holds of every cell of the grid still holds. */
  lemma SpawnedTile(g: seq<seq<Cell>>, r: nat, c: nat, v: int)
    requires IsGrid(g) && r < 4 && c < 4 && g[r][c] == Empty && (v == 2 || v == 4)
    ensures Values(g)[r][c] == 0
    ensures Values(Place(g, r, c, Tile(v, false))) == Place(Values(g), r, c, v)
    ensures Markers(Place(g, r, c, Tile(v, false))) == Place(Markers(g), r, c, false)
    ensures TileCount(Values(Place(g, r, c, Tile(v, false)))) == TileCount(Values(g)) + 1
    ensures NonzeroTiles(g) ==> NonzeroTiles(Place(g, r, c, Tile(v, false)))
    ensures NoMarkers(g) ==> NoMarkers(Place(g, r, c, Tile(v, false)))
    ensures WellFormed(Values(g)) ==> WellFormed(Values(Place(g, r, c, Tile(v, false))))
    ensures SmallTiles(Values(g)) ==> SmallTiles(Values(Place(g, r, c, Tile(v, false))))
  {
    SpawnedBoard(g, r, c, v);
    PlaceCount(Values(g), r, c, v);
    if WellFormed(Values(g)) {
      PlaceWellFormed(Values(g), r, c, v);
    }
    SpawnedCells(g, r, c, v);
  }

  /** The board and the markers of the grid after the spawn. */
  lemma SpawnedBoard(g: seq<seq<Cell>>, r: nat, c: nat, v: int)
    requires IsGrid(g) && r < 4 && c < 4 && g[r][c] == Empty
    ensures Values(g)[r][c] == 0
    ensures Values(Place(g, r, c, Tile(v, false))) == Place(Values(g), r, c, v)
    ensures Markers(Place(g, r, c, Tile(v, false))) == Place(Markers(g), r, c, false)
  {
    var g' := Place(g, r, c, Tile(v, false));
    forall r' | 0 <= r' < 4
      ensures Values(g')[r'] == Place(Values(g), r, c, v)[r']
      ensures Markers(g')[r'] == Place(Markers(g), r, c, false)[r']
    {
    }
  }

  /** What holds of every cell of the grid still holds after the spawn. */
  lemma SpawnedCells(g: seq<seq<Cell>>, r: nat, c: nat, v: int)
    requires IsGrid(g) && r < 4 && c < 4 && (v == 2 || v == 4)
    ensures NonzeroTiles(g) ==> NonzeroTiles(Place(g, r, c, Tile(v, false)))
    ensures NoMarkers(g) ==> NoMarkers(Place(g, r, c, Tile(v, false)))
  {
  }

  /** The lines of direction d of a board b with markers m, each as the sweep
      over it starts. */
  function StartLines(b: seq<seq<int>>, m: seq<seq<bool>>, d: Direction): (h: seq<Sweep>)
    requires IsGrid(b) && IsGrid(m)
    ensures |h| == 4
    ensures forall j | 0 <= j < 4 :: h[j] == Sweep(LineOf(b, d, j), LineOf(m, d, j), 0, false)
  {
    seq(4, j requires 0 <= j < 4 => Sweep(LineOf(b, d, j), LineOf(m, d, j), 0, false))
  }

  /** A line of direction d as a sweep sees it before it starts, on a board
      without markers. */
  function FreshLine(b: seq<seq<int>>, d: Direction, j: nat): (s: Sweep)
    requires IsGrid(b) && j < 4
    ensures LineShaped(s)
  {
    Sweep(LineOf(b, d, j), Unmarked(4), 0, false)
  }

  /** The lines of direction d once the first n of them have been swept, one
      after the other, from a board without markers. */
  function SweptLines(b: seq<seq<int>>, d: Direction, n: nat): (h: seq<Sweep>)
    requires IsGrid(b) && n <= 4
    ensures |h| == 4
  {
    if n == 0 then [FreshLine(b, d, 0), FreshLine(b, d, 1), FreshLine(b, d, 2), FreshLine(b, d, 3)]
    else SweptLines(b, d, n - 1)[n - 1 := SweepLine(LineOf(b, d, n - 1), Unmarked(4))]
  }

  /** A line among the first n has been swept; the others are untouched. */
  lemma {:induction false} SweptLinesAt(b: seq<seq<int>>, d: Direction, n: nat, j: nat)
    requires IsGrid(b) && n <= 4 && j < 4
    ensures SweptLines(b, d, n)[j] == if j < n then SweepLine(LineOf(b, d, j), Unmarked(4)) else FreshLine(b, d, j)
  {
    if n > 0 && j != n - 1 {
      SweptLinesAt(b, d, n - 1, j);
    }
  }

  /** Once every line has been swept, each holds its collapse and its markers. */
  lemma AllSwept(b: seq<seq<int>>, d: Direction)
    requires IsGrid(b)
    ensures forall j | 0 <= j < 4 :: SweptLines(b, d, 4)[j].cells == Collapse(LineOf(b, d, j))
                                     && SweptLines(b, d, 4)[j].merged == CollapseMarks(LineOf(b, d, j))
  {
    forall j | 0 <= j < 4
      ensures SweptLines(b, d, 4)[j].cells == Collapse(LineOf(b, d, j))
              && SweptLines(b, d, 4)[j].merged == CollapseMarks(LineOf(b, d, j))
    {
      SweptLinesAt(b, d, 4, j);
      SweepMatchesCollapse(LineOf(b, d, j));
    }
  }

  /** The empty cells among the first n cells of row r, left to right. */
  function EmptiesInRow(g: seq<seq<Cell>>, r: nat, n: nat): seq<(int, int)>
    requires IsGrid(g) && r < 4 && n <= 4
  {
    if n == 0 then [] else EmptiesInRow(g, r, n - 1) + (if g[r][n - 1] == Empty then [(r, n - 1)] else [])
  }

  /** The empty cells of the first n rows, row by row. */
  function EmptiesInRows(g: seq<seq<Cell>>, n: nat): seq<(int, int)>
    requires IsGrid(g) && n <= 4
  {
    if n == 0 then [] else EmptiesInRows(g, n - 1) + EmptiesInRow(g, n - 1, 4)
  }

  /** The list of empty cells the spawn chooses from, in row-major order. */
  function EmptyCells(g: seq<seq<Cell>>): seq<(int, int)>
    requires IsGrid(g)
  {
    EmptiesInRows(g, 4)
  }

  lemma {:induction false} EmptiesInRowListed(g: seq<seq<Cell>>, r: nat, n: nat)
    requires IsGrid(g) && r < 4 && n <= 4
    ensures forall p :: p in EmptiesInRow(g, r, n) <==> p.0 == r && 0 <= p.1 < n && g[r][p.1] == Empty
  {
    if n > 0 {
      EmptiesInRowListed(g, r, n - 1);
    }
  }

  lemma {:induction false} EmptiesInRowsListed(g: seq<seq<Cell>>, n: nat)
    requires IsGrid(g) && n <= 4
    ensures forall p :: p in EmptiesInRows(g, n) <==> 0 <= p.0 < n && 0 <= p.1 < 4 && g[p.0][p.1] == Empty
  {
    if n > 0 {
      EmptiesInRowsListed(g, n - 1);
      EmptiesInRowListed(g, n - 1, 4);
    }
  }

  /** The list holds exactly the empty cells, so it is empty exactly when the
      grid is full. */
  lemma EmptyCellsListed(g: seq<seq<Cell>>)
    requires IsGrid(g)
    ensures forall p :: p in EmptyCells(g) <==> 0 <= p.0 < 4 && 0 <= p.1 < 4 && g[p.0][p.1] == Empty
    ensures (|EmptyCells(g)| > 0) == exists r, c | 0 <= r < 4 && 0 <= c < 4 :: g[r][c] == Empty
  {
    EmptiesInRowsListed(g, 4);
    if exists r, c | 0 <= r < 4 && 0 <= c < 4 :: g[r][c] == Empty {
      var r, c :| 0 <= r < 4 && 0 <= c < 4 && g[r][c] == Empty;
      assert (r, c) in EmptyCells(g);
    }
    if |EmptyCells(g)| > 0 {
      assert EmptyCells(g)[0] in EmptyCells(g);
    }
  }

  /** Coordinates for every cell of every line of d at once: each cell lies on its
      own line, at its own position. */
  lemma Numbering(d: Direction)
    ensures forall j, k | 0 <= j < 4 && 0 <= k < 4 ::
              LineIndex(d, RowOf(d, j, k), ColOf(d, j, k)) == j && Pos(d, RowOf(d, j, k), ColOf(d, j, k)) == k
  {
    forall j, k | 0 <= j < 4 && 0 <= k < 4
      ensures LineIndex(d, RowOf(d, j, k), ColOf(d, j, k)) == j && Pos(d, RowOf(d, j, k), ColOf(d, j, k)) == k
    {
      Coordinates(d, j, k, RowOf(d, j, k), ColOf(d, j, k));
    }
  }

  /** The grid g holds, along the lines of d, the lines h. */
  ghost predicate MirrorsLines(g: seq<seq<Cell>>, h: seq<Sweep>, d: Direction)
    requires IsGrid(g)
  {
    |h| == 4 && forall j, k | 0 <= j < 4 && 0 <= k < 4 :: g[RowOf(d, j, k)][ColOf(d, j, k)] == CellAt(h[j], k)
  }

  /** Before a sweep, a grid holds the lines of its board and markers. */
  lemma StartMirrors(g: seq<seq<Cell>>, d: Direction)
    requires IsGrid(g) && NonzeroTiles(g)
    ensures MirrorsLines(g, StartLines(Values(g), Markers(g), d), d)
  {
    var h := StartLines(Values(g), Markers(g), d);
    forall j, k | 0 <= j < 4 && 0 <= k < 4
      ensures g[RowOf(d, j, k)][ColOf(d, j, k)] == CellAt(h[j], k)
    {
      var r, c := RowOf(d, j, k), ColOf(d, j, k);
      assert LineOf(Values(g), d, j)[k] == Values(g)[r][c];
      assert LineOf(Markers(g), d, j)[k] == Markers(g)[r][c];
    }
  }

  /** A cell of the grid after every line of b has collapsed. */
  lemma CollapsedCell(g: seq<seq<Cell>>, h: seq<Sweep>, d: Direction, b: seq<seq<int>>, r: nat, c: nat)
    requires IsGrid(g) && IsGrid(b) && MirrorsLines(g, h, d) && r < 4 && c < 4
    requires forall j | 0 <= j < 4 :: h[j].cells == Collapse(LineOf(b, d, j)) && h[j].merged == CollapseMarks(LineOf(b, d, j))
    ensures g[r][c] == CellOf(Slid(b, d)[r][c], SlidMarks(b, d)[r][c])
  {
    var i, k := LineIndex(d, r, c), Pos(d, r, c);
    Coordinates(d, i, k, r, c);
    assert g[RowOf(d, i, k)][ColOf(d, i, k)] == CellAt(h[i], k);
    SlidCell(b, d, r, c);
  }

  /** A grid whose every cell is CellOf(b[r][c], m[r][c]) shows the board b, and
      the markers m when m marks only tiles. */
  lemma GridShows(g: seq<seq<Cell>>, b: seq<seq<int>>, m: seq<seq<bool>>)
    requires IsGrid(g) && IsGrid(b) && IsGrid(m)
    requires forall r, c | 0 <= r < 4 && 0 <= c < 4 :: g[r][c] == CellOf(b[r][c], m[r][c])
    ensures NonzeroTiles(g) && Values(g) == b
    ensures (forall r, c | 0 <= r < 4 && 0 <= c < 4 :: m[r][c] ==> b[r][c] != 0) ==> Markers(g) == m
  {
    forall r | 0 <= r < 4
      ensures Values(g)[r] == b[r]
    {
      assert forall c | 0 <= c < 4 :: Values(g)[r][c] == b[r][c];
    }
    if forall r, c | 0 <= r < 4 && 0 <= c < 4 :: m[r][c] ==> b[r][c] != 0 {
      forall r | 0 <= r < 4
        ensures Markers(g)[r] == m[r]
      {
        assert forall c | 0 <= c < 4 :: Markers(g)[r][c] == m[r][c];
      }
    }
  }

  /** After every line of b has collapsed, the grid shows the board b slid. */
  lemma CollapsedGrid(g: seq<seq<Cell>>, h: seq<Sweep>, d: Direction, b: seq<seq<int>>)
    requires IsGrid(g) && IsGrid(b) && MirrorsLines(g, h, d)
    requires forall j | 0 <= j < 4 :: h[j].cells == Collapse(LineOf(b, d, j)) && h[j].merged == CollapseMarks(LineOf(b, d, j))
    ensures NonzeroTiles(g) && Values(g) == Slid(b, d) && Markers(g) == SlidMarks(b, d)
  {
    forall r, c | 0 <= r < 4 && 0 <= c < 4
      ensures g[r][c] == CellOf(Slid(b, d)[r][c], SlidMarks(b, d)[r][c])
    {
      CollapsedCell(g, h, d, b, r, c);
    }
    SlidMarksOnTiles(b, d);
    GridShows(g, Slid(b, d), SlidMarks(b, d));
  }

  /** With nonzero tiles, the board shows a 0 exactly where a cell is empty. */
  lemma FreeCells(g: seq<seq<Cell>>)
    requires IsGrid(g) && NonzeroTiles(g)
    ensures HasEmpty(Values(g)) == exists r, c | 0 <= r < 4 && 0 <= c < 4 :: g[r][c] == Empty
  {
    if HasEmpty(Values(g)) {
      var r, c :| 0 <= r < 4 && 0 <= c < 4 && Values(g)[r][c] == 0;
      assert g[r][c] == Empty;
    }
    if exists r, c | 0 <= r < 4 && 0 <= c < 4 :: g[r][c] == Empty {
      var r, c :| 0 <= r < 4 && 0 <= c < 4 && g[r][c] == Empty;
      assert Values(g)[r][c] == 0;
    }
  }

  class GameLogic {
    const grid: array2<Cell>
    /** The grid as a value; every write to the array writes it too. */
    ghost var cells: seq<seq<Cell>>
    var score: int
    var bestScore: int
    var won: bool
    var continueAfterWin: bool
    var gameOver: bool

    ghost predicate Sized()
      reads this
    {
      grid.Length0 == 4 && grid.Length1 == 4 && IsGrid(cells)
    }

    /** The array holds the cells. */
    ghost predicate Mirrored()
      reads this, grid
    {
      Sized() && forall r, c {:trigger grid[r, c]} | 0 <= r < 4 && 0 <= c < 4 :: grid[r, c] == cells[r][c]
    }

    /** The values on the grid, row by row (0 for an empty cell). */
    ghost function Board(): seq<seq<int>>
      reads this
      requires Sized()
    {
      Values(cells)
    }

    /** The merge markers on the grid, row by row. */
    ghost function Marks(): seq<seq<bool>>
      reads this
      requires Sized()
    {
      Markers(cells)
    }

    /** Every tile has a tile value. */
    ghost predicate Consistent()
      reads this, grid
    {
      Mirrored() && NonzeroTiles(cells) && WellFormed(Board())
    }

    /** The class invariant: besides a consistent grid, the score is never negative
        and the game is over exactly when the board has no empty cell and no two
        equal neighbours. */
    ghost predicate Valid()
      reads this, grid
    {
      Consistent() && score >= 0 && gameOver == !Movable(Board())
    }

    /** A new engine: an empty grid, everything zero or false. */
    constructor ()
      ensures Valid()
      ensures cells == Blank()
      ensures score == 0 && bestScore == 0
      ensures !won && !continueAfterWin && !gameOver
      ensures fresh(grid)
    {
      grid := new Cell[4, 4]((_, _) => Empty);
      cells := Blank();
      score := 0;
      bestScore := 0;
      won := false;
      continueAfterWin := false;
      gameOver := false;
      new;
      BlankGrid();
      FullBoard(Board());
    }

    // -------------------------------------------------------------------------
    // Accessors.

    /** The cell (row, col). */
    method GetTileAt(row: int, col: int) returns (tile: Cell)
      requires Mirrored() && 0 <= row < 4 && 0 <= col < 4
      ensures tile == cells[row][col] && ValueOf(tile) == Board()[row][col]
      ensures Consistent() && tile.Tile? ==> IsTileValue(tile.value)
    {
      tile := grid[row, col];
    }

    method GetScore() returns (s: int)
      ensures s == score
    {
      s := score;
    }

    method GetBestScore() returns (s: int)
      ensures s == bestScore
    {
      s := bestScore;
    }

    /** The only way the best score can go down. */
    method SetBestScore(s: int)
      modifies this`bestScore
      ensures bestScore == s
    {
      bestScore := s;
    }

    method HasWon() returns (w: bool)
      ensures w == won
    {
      w := won;
    }

    /** The game is over exactly when the board has no empty cell and no two equal
        neighbours. */
    method IsGameOver() returns (over: bool)
      requires Valid()
      ensures over == gameOver
      ensures over == !Movable(Board())
    {
      over := gameOver;
    }

    method IsContinuingAfterWin() returns (c: bool)
      ensures c == continueAfterWin
    {
      c := continueAfterWin;
    }

    method ContinueAfterWin()
      modifies this`continueAfterWin
      ensures continueAfterWin
    {
      continueAfterWin := true;
    }

    // -------------------------------------------------------------------------
    // Moving one line. The four routines of the source differ only in how they
    // number the cells of a line; RowOf and ColOf give that numbering, and the
    // ghost sweeps h hold the lines of the grid as the sweep sees them.

    /** Writes x, the cell that shows v with marker m, into cell k of line i of d;
        line' is line with that cell replaced. */
    method SetCell(d: Direction, i: nat, k: nat, x: Cell, ghost v: int, ghost m: bool,
                   ghost h: seq<Sweep>, ghost line: Sweep, ghost line': Sweep)
      requires Mirrored() && i < 4 && k < 4 && |h| == 4 && LineShaped(line) && MirrorsLines(cells, h[i := line], d)
      requires x == CellOf(v, m) && line'.cells == line.cells[k := v] && line'.merged == line.merged[k := m]
      modifies grid, this`cells
      ensures Mirrored() && LineShaped(line') && MirrorsLines(cells, h[i := line'], d)
    {
      Numbering(d);
      var r, c := RowOf(d, i, k), ColOf(d, i, k);
      grid[r, c] := x;
      cells := Place(cells, r, c, x);
      forall j, c' | 0 <= j < 4 && 0 <= c' < 4
        ensures cells[RowOf(d, j, c')][ColOf(d, j, c')] == CellAt(h[i := line'][j], c')
      {
        if j != i || c' != k {
          assert cells[RowOf(d, j, c')][ColOf(d, j, c')] == old(cells)[RowOf(d, j, c')][ColOf(d, j, c')];
        }
      }
    }

    /** The condition of the inner loop: the next cell toward the edge is empty,
        or holds a tile of the same value without a merge marker. */
    predicate CanAdvance(d: Direction, i: nat, t: nat)
      reads this, grid
      requires Sized() && i < 4 && 0 < t < 4
    {
      var next := grid[RowOf(d, i, t - 1), ColOf(d, i, t - 1)];
      next == Empty || (SameValue(next, grid[RowOf(d, i, t), ColOf(d, i, t)]) && !next.merged)
    }

    /** On a tile, the loop condition is the condition of the sweep's advance. */
    lemma AdvanceIsStep(d: Direction, i: nat, t: nat, h: seq<Sweep>, line: Sweep)
      requires Mirrored() && i < 4 && 0 < t < 4 && |h| == 4
      requires LineShaped(line) && MirrorsLines(cells, h[i := line], d) && line.cells[t] != 0
      ensures CanAdvance(d, i, t)
              == (line.cells[t - 1] == 0 || (line.cells[t - 1] == line.cells[t] && !line.merged[t - 1]))
    {
      assert cells[RowOf(d, i, t - 1)][ColOf(d, i, t - 1)] == CellAt(h[i := line][i], t - 1);
      assert cells[RowOf(d, i, t)][ColOf(d, i, t)] == CellAt(h[i := line][i], t);
    }

    /** The slide branch: the tile of cell t moves onto the empty cell t - 1. */
    method SlideTile(d: Direction, i: nat, t: nat, ghost h: seq<Sweep>, ghost line: Sweep)
      returns (ghost line': Sweep)
      requires Mirrored() && i < 4 && 0 < t < 4 && |h| == 4 && LineShaped(line) && MirrorsLines(cells, h[i := line], d)
      modifies grid, this`cells
      ensures line' == Sweep(line.cells[t - 1 := line.cells[t]][t := 0], line.merged[t - 1 := line.merged[t]][t := false],
                             line.gained, true)
      ensures Mirrored() && LineShaped(line') && MirrorsLines(cells, h[i := line'], d)
    {
      assert cells[RowOf(d, i, t)][ColOf(d, i, t)] == CellAt(h[i := line][i], t);
      ghost var mid := Sweep(line.cells[t - 1 := line.cells[t]], line.merged[t - 1 := line.merged[t]], line.gained, true);
      SetCell(d, i, t - 1, grid[RowOf(d, i, t), ColOf(d, i, t)], line.cells[t], line.merged[t], h, line, mid);
      line' := Sweep(mid.cells[t := 0], mid.merged[t := false], line.gained, true);
      SetCell(d, i, t, Empty, 0, false, h, mid, line');
    }

    /** The merge branch: a new marked tile of twice the value replaces the next
        cell, the tile's own cell empties, and the score grows by the new value. */
    method MergeTiles(d: Direction, i: nat, t: nat, ghost h: seq<Sweep>, ghost line: Sweep)
      returns (ghost line': Sweep)
      requires Mirrored() && i < 4 && 0 < t < 4 && |h| == 4 && LineShaped(line) && MirrorsLines(cells, h[i := line], d)
      requires line.cells[t] != 0
      modifies grid, this`cells, this`score
      ensures line' == Sweep(line.cells[t - 1 := line.cells[t] * 2][t := 0], line.merged[t - 1 := true][t := false],
                             line.gained + line.cells[t] * 2, true)
      ensures Mirrored() && LineShaped(line') && MirrorsLines(cells, h[i := line'], d)
      ensures score == old(score) + line.cells[t] * 2
    {
      assert cells[RowOf(d, i, t)][ColOf(d, i, t)] == CellAt(h[i := line][i], t);
      var mergedValue := grid[RowOf(d, i, t), ColOf(d, i, t)].value * 2;
      ghost var mid := Sweep(line.cells[t - 1 := mergedValue], line.merged[t - 1 := true], line.gained, true);
      SetCell(d, i, t - 1, Tile(mergedValue, true), mergedValue, true, h, line, mid);
      line' := Sweep(mid.cells[t := 0], mid.merged[t := false], line.gained + mergedValue, true);
      SetCell(d, i, t, Empty, 0, false, h, mid, line');
      score := score + mergedValue;
    }

    /** The inner loop: the tile at position k of line i advances toward the edge
        as the sweep's Advance says. */
    method AdvanceTile(d: Direction, i: nat, k: nat, ghost h: seq<Sweep>, ghost line0: Sweep, moved0: bool)
      returns (moved: bool, ghost line: Sweep)
      requires Mirrored() && i < 4 && 0 < k < 4 && |h| == 4
      requires LineShaped(line0) && MirrorsLines(cells, h[i := line0], d) && line0.cells[k] != 0 && line0.moved == moved0
      modifies grid, this`cells, this`score
      ensures Mirrored() && LineShaped(line) && MirrorsLines(cells, h[i := line], d)
      ensures line == Advance(line0, k) && score == old(score) + line.gained - line0.gained && moved == line.moved
    {
      moved := moved0;
      line := line0;
      var target := k;
      while target > 0 && CanAdvance(d, i, target)
        invariant 0 <= target <= k
        invariant Mirrored() && LineShaped(line) && MirrorsLines(cells, h[i := line], d) && line.cells[target] != 0
        invariant Advance(line, target) == Advance(line0, k)
        invariant score - old(score) == line.gained - line0.gained && moved == line.moved
        decreases target
      {
        AdvanceIsStep(d, i, target, h, line);
        if grid[RowOf(d, i, target - 1), ColOf(d, i, target - 1)] == Empty {
          line := SlideTile(d, i, target, h, line);
          target := target - 1;
          moved := true;
        } else {
          line := MergeTiles(d, i, target, h, line);
          moved := true;
          return;
        }
      }
      if target > 0 {
        AdvanceIsStep(d, i, target, h, line);
      }
    }

    /** One of the four directional routines: visits positions 1, 2, 3 of line i
        of d and advances every tile. Only line i changes, and it changes as the
        sweep of that line says; the result says whether any tile slid or merged. */
    method MoveTiles(d: Direction, i: nat, ghost h: seq<Sweep>) returns (moved: bool, ghost line: Sweep)
      requires Mirrored() && i < 4 && MirrorsLines(cells, h, d) && LineShaped(h[i])
      modifies grid, this`cells, this`score
      ensures Mirrored() && LineShaped(line) && MirrorsLines(cells, h[i := line], d)
      ensures line == SweepLine(h[i].cells, h[i].merged) && score == old(score) + line.gained && moved == line.moved
    {
      moved := false;
      line := Sweep(h[i].cells, h[i].merged, 0, false);
      assert MirrorsLines(cells, h[i := line], d);
      for k := 1 to 4
        invariant Mirrored() && LineShaped(line) && MirrorsLines(cells, h[i := line], d)
        invariant SweepFrom(line, k) == SweepLine(h[i].cells, h[i].merged)
        invariant score - old(score) == line.gained && moved == line.moved
      {
        if grid[RowOf(d, i, k), ColOf(d, i, k)] != Empty {
          assert line.cells[k] != 0;
          moved, line := AdvanceTile(d, i, k, h, line, moved);
        }
      }
    }

    // -------------------------------------------------------------------------
    // Moving the whole board.

    /** The directional routine of d on every line, one after the other. On a
        grid without markers, the board slides as Slid says, the score grows by
        the points of the slide, and the result says whether any line changed. */
    method MoveLines(d: Direction) returns (moved: bool)
      requires Mirrored() && NonzeroTiles(cells) && NoMarkers(cells)
      modifies grid, this`cells, this`score
      ensures Mirrored() && MirrorsLines(cells, SweptLines(old(Board()), d, 4), d)
      ensures score == old(score) + SlideScore(old(Board()), d)
      ensures moved == LinesChange(old(Board()), d, 4)
    {
      ghost var b0 := Board();
      LinesOfBlank(Marks(), d);
      StartMirrors(cells, d);
      ghost var h := StartLines(b0, Marks(), d);
      assert h == SweptLines(b0, d, 0);
      moved := false;
      for i := 0 to 4
        invariant Mirrored() && h == SweptLines(b0, d, i) && MirrorsLines(cells, h, d)
        invariant score == old(score) + ScoreOfLines(b0, d, i)
        invariant moved == LinesChange(b0, d, i)
      {
        SweptLinesAt(b0, d, i, i);
        var m;
        ghost var line;
        m, line := MoveTiles(d, i, h);
        SweepMatchesCollapse(LineOf(b0, d, i));
        LinesChangeNext(b0, d, i);
        moved := m || moved;
        h := h[i := line];
      }
    }

    /** Clears every merge marker; the values stay. */
    method ResetMergeFlags()
      requires Mirrored()
      modifies grid, this`cells
      ensures Mirrored() && cells == ClearAll(old(cells))
    {
      ghost var g := cells;
      for row := 0 to 4
        invariant Mirrored()
        invariant forall r, c | 0 <= r < row && 0 <= c < 4 :: cells[r][c] == Cleared(g[r][c])
        invariant forall r, c | row <= r < 4 && 0 <= c < 4 :: cells[r][c] == g[r][c]
      {
        for col := 0 to 4
          invariant Mirrored()
          invariant forall r, c | 0 <= r < row && 0 <= c < 4 :: cells[r][c] == Cleared(g[r][c])
          invariant forall c | 0 <= c < col :: cells[row][c] == Cleared(g[row][c])
          invariant forall r, c | row <= r < 4 && 0 <= c < 4 && (r != row || c >= col) :: cells[r][c] == g[r][c]
        {
          if grid[row, col].Tile? {
            grid[row, col] := Tile(grid[row, col].value, false);
            cells := Place(cells, row, col, grid[row, col]);
          }
        }
      }
      assert forall r | 0 <= r < 4 :: cells[r] == ClearAll(g)[r];
    }

    /** Spawns a tile of value 2 or 4 on an empty cell, if there is one. The two
        random draws are a nondeterministic choice here: any cell of the list of
        empty cells, either value. The ghost results name what was chosen. */
    method AddRandomTile() returns (ghost spawned: bool, ghost row: nat, ghost col: nat, ghost value: int)
      requires Mirrored()
      modifies grid, this`cells
      ensures Mirrored()
      ensures spawned == exists r, c | 0 <= r < 4 && 0 <= c < 4 :: old(cells)[r][c] == Empty
      ensures spawned ==> row < 4 && col < 4 && old(cells)[row][col] == Empty && (value == 2 || value == 4)
      ensures spawned ==> cells == Place(old(cells), row, col, Tile(value, false))
      ensures !spawned ==> cells == old(cells)
    {
      ghost var g := cells;
      var emptyCells: seq<(int, int)> := [];
      for r := 0 to 4
        invariant emptyCells == EmptiesInRows(g, r)
      {
        for c := 0 to 4
          invariant emptyCells == EmptiesInRows(g, r) + EmptiesInRow(g, r, c)
        {
          if grid[r, c] == Empty {
            emptyCells := emptyCells + [(r, c)];
          }
        }
      }
      EmptyCellsListed(g);
      spawned, row, col, value := false, 0, 0, 0;
      if |emptyCells| > 0 {
        var pick :| 0 <= pick < |emptyCells|;
        var randomCell := emptyCells[pick];
        assert randomCell in EmptyCells(g);
        var v :| v in {2, 4};
        grid[randomCell.0, randomCell.1] := Tile(v, false);
        cells := Place(cells, randomCell.0, randomCell.1, Tile(v, false));
        spawned, row, col, value := true, randomCell.0, randomCell.1, v;
      }
    }

    /** Sets the win flag if some cell holds 2048; leaves it otherwise. */
    method CheckForWin()
      requires Mirrored()
      modifies this`won
      ensures won == (old(won) || Has2048(Board()))
    {
      for r := 0 to 4
        invariant forall r', c | 0 <= r' < r && 0 <= c < 4 :: Board()[r'][c] != 2048
        invariant won == old(won)
      {
        for c := 0 to 4
          invariant forall r', c' | 0 <= r' < r && 0 <= c' < 4 :: Board()[r'][c'] != 2048
          invariant forall c' | 0 <= c' < c :: Board()[r][c'] != 2048
          invariant won == old(won)
        {
          if grid[r, c].Tile? && grid[r, c].value == 2048 {
            assert Board()[r][c] == 2048;
            won := true;
            return;
          }
        }
      }
    }

    /** The full-board scan: an empty cell, or a cell whose value equals the value
        of the cell below it or to its right. */
    method CanMove() returns (can: bool)
      requires Mirrored() && NonzeroTiles(cells)
      ensures can == Movable(Board())
    {
      FreeCells(cells);
      for r := 0 to 4
        invariant forall r', c | 0 <= r' < r && 0 <= c < 4 :: cells[r'][c] != Empty
      {
        for c := 0 to 4
          invariant forall r', c' | 0 <= r' < r && 0 <= c' < 4 :: cells[r'][c'] != Empty
          invariant forall c' | 0 <= c' < c :: cells[r][c'] != Empty
        {
          if grid[r, c] == Empty {
            return true;
          }
        }
      }
      for r := 0 to 4
        invariant forall r', c | 0 <= r' < r && 0 <= c < 4 :: !EqualNeighbour(Board(), r', c)
      {
        for c := 0 to 4
          invariant forall r', c' | 0 <= r' < r && 0 <= c' < 4 :: !EqualNeighbour(Board(), r', c')
          invariant forall c' | 0 <= c' < c :: !EqualNeighbour(Board(), r, c')
        {
          var tile := grid[r, c];
          if r < 3 && SameValue(tile, grid[r + 1, c]) {
            assert EqualNeighbour(Board(), r, c);
            return true;
          }
          if c < 3 && SameValue(tile, grid[r, c + 1]) {
            assert EqualNeighbour(Board(), r, c);
            return true;
          }
        }
      }
      return false;
    }

    /** The clearing loop of a new game: every cell becomes empty. */
    method ClearGrid()
      requires Mirrored()
      modifies grid, this`cells
      ensures Mirrored() && cells == Blank()
    {
      for row := 0 to 4
        invariant Mirrored()
        invariant forall r, c | 0 <= r < row && 0 <= c < 4 :: cells[r][c] == Empty
      {
        for col := 0 to 4
          invariant Mirrored()
          invariant forall r, c | 0 <= r < row && 0 <= c < 4 :: cells[r][c] == Empty
          invariant forall c | 0 <= c < col :: cells[row][c] == Empty
        {
          grid[row, col] := Empty;
          cells := Place(cells, row, col, Empty);
        }
      }
      assert forall r | 0 <= r < 4 :: cells[r] == Blank()[r];
    }

    /** Spawns a tile on a grid that has an empty cell: the board gets one more
        tile, of value 2 or 4, on a cell that showed 0, and no marker there. */
    method SpawnTile() returns (ghost row: nat, ghost col: nat, ghost value: int)
      requires Mirrored() && NonzeroTiles(cells) && HasEmpty(Board())
      modifies grid, this`cells
      ensures Mirrored()
      ensures row < 4 && col < 4 && (value == 2 || value == 4) && old(Board())[row][col] == 0
      ensures Board() == Place(old(Board()), row, col, value) && Marks() == Place(old(Marks()), row, col, false)
      ensures NonzeroTiles(cells) && TileCount(Board()) == TileCount(old(Board())) + 1
      ensures WellFormed(old(Board())) ==> WellFormed(Board())
      ensures SmallTiles(old(Board())) ==> SmallTiles(Board())
      ensures NoMarkers(old(cells)) ==> NoMarkers(cells)
    {
      FreeCells(cells);
      ghost var g := cells;
      ghost var spawned;
      spawned, row, col, value := AddRandomTile();
      SpawnedTile(g, row, col, value);
    }

    /** Empties the grid, resets the score and the flags, and spawns two tiles.
        The best score is kept. */
    method StartNewGame()
      requires Mirrored()
      modifies grid, this`cells, this`score, this`won, this`continueAfterWin, this`gameOver
      ensures Valid()
      ensures score == 0 && !won && !continueAfterWin && !gameOver && bestScore == old(bestScore)
      ensures TileCount(Board()) == 2 && SmallTiles(Board()) && NoMarkers(cells)
    {
      ResetGame();
      ghost var r0, c0, v0 := SpawnTile();
      FullBoard(Board());
      ghost var r1, c1, v1 := SpawnTile();
      FullBoard(Board());
    }

    /** The first part of a new game: an empty grid, no score, every flag off. */
    method ResetGame()
      requires Mirrored()
      modifies grid, this`cells, this`score, this`won, this`continueAfterWin, this`gameOver
      ensures Mirrored() && cells == Blank()
      ensures score == 0 && !won && !continueAfterWin && !gameOver
      ensures NonzeroTiles(cells) && NoMarkers(cells) && WellFormed(Board()) && SmallTiles(Board())
      ensures TileCount(Board()) == 0 && HasEmpty(Board())
    {
      ClearGrid();
      score := 0;
      won := false;
      continueAfterWin := false;
      gameOver := false;
      BlankGrid();
      FullBoard(Board());
    }

    /** What a move does once some line changed (the board then has an empty
        cell): a tile spawns, the win flag is updated, the game-over flag is
        recomputed and the best score catches up with the score. */
    method FinishMove() returns (ghost row: nat, ghost col: nat, ghost value: int)
      requires Consistent() && score >= 0 && !gameOver && HasEmpty(Board())
      modifies grid, this`cells, this`bestScore, this`won, this`gameOver
      ensures Valid()
      ensures row < 4 && col < 4 && (value == 2 || value == 4) && old(Board())[row][col] == 0
      ensures Board() == Place(old(Board()), row, col, value) && Marks() == Place(old(Marks()), row, col, false)
      ensures TileCount(Board()) == TileCount(old(Board())) + 1
      ensures won == (old(won) || Has2048(Board())) && gameOver == !Movable(Board())
      ensures bestScore == (if score > old(bestScore) then score else old(bestScore))
    {
      row, col, value := SpawnTile();
      UpdateStatus();
    }

    /** The flags after the spawn: the win flag, once set, stays set and is set
        as soon as a 2048 tile is on the board; the game is over exactly when no
        move is possible; the best score catches up with the score. */
    method UpdateStatus()
      requires Consistent() && score >= 0 && !gameOver
      modifies this`bestScore, this`won, this`gameOver
      ensures Valid()
      ensures won == (old(won) || Has2048(Board())) && gameOver == !Movable(Board())
      ensures bestScore == (if score > old(bestScore) then score else old(bestScore))
    {
      if !won {
        CheckForWin();
      }
      var canMove := CanMove();
      if !canMove {
        gameOver := true;
      }
      if score > bestScore {
        bestScore := score;
      }
    }

    /** The part of a move that clears the markers and sweeps every line: the
        board slides as Slid says, the score grows by the points of the slide,
        and the result says whether the board changed. A board that does not
        change keeps its score and gets no marker; one that changes has an empty
        cell. */
    method SlideBoard(d: Direction) returns (moved: bool)
      requires Consistent()
      modifies grid, this`cells, this`score
      ensures Consistent()
      ensures Board() == Slid(old(Board()), d) && Marks() == SlidMarks(old(Board()), d)
      ensures score == old(score) + SlideScore(old(Board()), d) && SlideScore(old(Board()), d) >= 0
      ensures score >= old(score)
      ensures moved == (Slid(old(Board()), d) != old(Board()))
      ensures moved ==> HasEmpty(Board())
      ensures !moved ==> Board() == old(Board()) && score == old(score) && NoMarkers(cells)
    {
      ghost var b0 := Board();
      ghost var g0 := cells;
      ResetMergeFlags();
      ClearedGrid(g0);
      moved := MoveLines(d);
      AllSwept(b0, d);
      CollapsedGrid(cells, SweptLines(b0, d, 4), d, b0);
      SlidChanges(b0, d);
      SlidWellFormed(b0, d);
      if moved {
        SlidHasEmpty(b0, d);
      } else {
        StillBoardScoresNothing(b0, d);
        assert forall r, c | 0 <= r < 4 && 0 <= c < 4 :: !MarkOf(cells[r][c]) by {
          forall r, c | 0 <= r < 4 && 0 <= c < 4
            ensures !MarkOf(cells[r][c])
          {
            assert Marks()[r][c] == SlidMarks(b0, d)[r][c];
          }
        }
      }
    }

    /** A move in direction d. A finished game refuses every move and changes
        nothing. Otherwise the markers are cleared and every line slides; if the
        board changed, a tile of 2 or 4 spawns on a cell that is empty after the slide and
        the flags and the best score are updated. A board that did not change
        keeps its state: no spawn, no score, no flag change. */
    method Move(d: Direction) returns (moved: bool)
      requires Valid()
      modifies grid, this`cells, this`score, this`bestScore, this`won, this`gameOver
      ensures Valid() && score >= old(score)
      ensures old(gameOver) ==> !moved && gameOver && cells == old(cells)
                                && score == old(score) && bestScore == old(bestScore) && won == old(won)
      ensures !old(gameOver) ==> moved == (Slid(old(Board()), d) != old(Board()))
                                 && score == old(score) + SlideScore(old(Board()), d)
      ensures !old(gameOver) && !moved ==> Board() == old(Board()) && NoMarkers(cells) && score == old(score)
                                           && won == old(won) && !gameOver && bestScore == old(bestScore)
      ensures moved ==> exists r, c, v | 0 <= r < 4 && 0 <= c < 4 && (v == 2 || v == 4) ::
                          Slid(old(Board()), d)[r][c] == 0
                          && Board() == Place(Slid(old(Board()), d), r, c, v)
                          && Marks() == Place(SlidMarks(old(Board()), d), r, c, false)
      ensures moved ==> TileCount(Board()) == TileCount(old(Board())) - SlideMerges(old(Board()), d) + 1
      ensures moved ==> won == (old(won) || Has2048(Board())) && gameOver == !Movable(Board())
      ensures moved ==> bestScore == (if score > old(bestScore) then score else old(bestScore))
    {
      if gameOver {
        return false;
      }
      ghost var b0 := Board();
      moved := SlideBoard(d);
      if moved {
        ghost var r, c, v := FinishMove();
        SpawnCount(b0, d, r, c, v);
      }
    }
  }
}
