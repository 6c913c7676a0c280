/** The 4x4 board as four rows of four cells (0 for an empty cell), the four
    directions of a move, and what a move does to the whole board: every line of
    the direction collapses toward its edge, independently of the other lines. */
module Boards {
  import opened Lines

  datatype Direction = Up | Right | Down | Left

  predicate IsGrid<T>(g: seq<seq<T>>)
  {
    |g| == 4 && forall r | 0 <= r < 4 :: |g[r]| == 4
  }

  /** Every cell is empty or holds a tile value. */
  predicate WellFormed(b: seq<seq<int>>)
  {
    IsGrid(b) && forall r, c | 0 <= r < 4 && 0 <= c < 4 :: b[r][c] == 0 || IsTileValue(b[r][c])
  }

  // ---------------------------------------------------------------------------
  // Lines of a direction. Line i of direction d is the column i (Up, Down) or the
  // row i (Left, Right); its cell k is the k-th cell counted from the edge the
  // tiles move toward.

  function RowOf(d: Direction, i: nat, k: nat): (r: nat)
    requires i < 4 && k < 4
    ensures r < 4
  {
    match d
    case Up => k
    case Down => 3 - k
    case Left => i
    case Right => i
  }

  function ColOf(d: Direction, i: nat, k: nat): (c: nat)
    requires i < 4 && k < 4
    ensures c < 4
  {
    match d
    case Up => i
    case Down => i
    case Left => k
    case Right => 3 - k
  }

  /** Which line of direction d holds the cell (r, c) ... */
  function LineIndex(d: Direction, r: nat, c: nat): nat
    requires r < 4 && c < 4
  {
    match d
    case Up => c
    case Down => c
    case Left => r
    case Right => r
  }

  /** ... and at which position of that line. */
  function Pos(d: Direction, r: nat, c: nat): nat
    requires r < 4 && c < 4
  {
    match d
    case Up => r
    case Down => 3 - r
    case Left => c
    case Right => 3 - c
  }

  /** The two numberings of the cells are inverse to each other. */
  lemma Coordinates(d: Direction, i: nat, k: nat, r: nat, c: nat)
    requires i < 4 && k < 4 && r < 4 && c < 4
    ensures (RowOf(d, i, k) == r && ColOf(d, i, k) == c) == (LineIndex(d, r, c) == i && Pos(d, r, c) == k)
  {
  }

  function LineOf<T>(g: seq<seq<T>>, d: Direction, i: nat): (line: seq<T>)
    requires IsGrid(g) && i < 4
    ensures |line| == 4
  {
    seq(4, k requires 0 <= k < 4 => g[RowOf(d, i, k)][ColOf(d, i, k)])
  }

  /** Two grids with the same lines in one direction are equal. */
  lemma LinesDetermine<T>(g: seq<seq<T>>, h: seq<seq<T>>, d: Direction)
    requires IsGrid(g) && IsGrid(h)
    requires forall i | 0 <= i < 4 :: LineOf(g, d, i) == LineOf(h, d, i)
    ensures g == h
  {
    forall r, c | 0 <= r < 4 && 0 <= c < 4
      ensures g[r][c] == h[r][c]
    {
      var i, k := LineIndex(d, r, c), Pos(d, r, c);
      Coordinates(d, i, k, r, c);
      assert LineOf(g, d, i)[k] == LineOf(h, d, i)[k];
    }
    forall r | 0 <= r < 4
      ensures g[r] == h[r]
    {
    }
  }

  // ---------------------------------------------------------------------------
  // The reference description of a move of the whole board.

  /** The grid with line i of direction d replaced by the given line, written
      cell by cell from the edge. */
  function SetLine<T>(g: seq<seq<T>>, d: Direction, i: nat, line: seq<T>): (g': seq<seq<T>>)
    requires IsGrid(g) && i < 4 && |line| == 4
    ensures IsGrid(g')
  {
    var g1 := Place(g, RowOf(d, i, 0), ColOf(d, i, 0), line[0]);
    var g2 := Place(g1, RowOf(d, i, 1), ColOf(d, i, 1), line[1]);
    var g3 := Place(g2, RowOf(d, i, 2), ColOf(d, i, 2), line[2]);
    Place(g3, RowOf(d, i, 3), ColOf(d, i, 3), line[3])
  }

  /** Line i of the new grid is the given line; every other cell is unchanged. */
  lemma SetLineCell<T>(g: seq<seq<T>>, d: Direction, i: nat, line: seq<T>, r: nat, c: nat)
    requires IsGrid(g) && i < 4 && |line| == 4 && r < 4 && c < 4
    ensures SetLine(g, d, i, line)[r][c] == if LineIndex(d, r, c) == i then line[Pos(d, r, c)] else g[r][c]
  {
  }

  /** The board once the first n lines of direction d have collapsed, one after
      the other, as a move visits them. */
  function SlideLines(b: seq<seq<int>>, d: Direction, n: nat): (b': seq<seq<int>>)
    requires IsGrid(b) && n <= 4
    ensures IsGrid(b')
  {
    if n == 0 then b else SetLine(SlideLines(b, d, n - 1), d, n - 1, Collapse(LineOf(b, d, n - 1)))
  }

  /** The merge markers once the first n lines of direction d have collapsed,
      starting from a board without markers. */
  function MarkLines(b: seq<seq<int>>, d: Direction, n: nat): (m: seq<seq<bool>>)
    requires IsGrid(b) && n <= 4
    ensures IsGrid(m)
  {
    if n == 0 then [Unmarked(4), Unmarked(4), Unmarked(4), Unmarked(4)]
    else SetLine(MarkLines(b, d, n - 1), d, n - 1, CollapseMarks(LineOf(b, d, n - 1)))
  }

  /** The board after every line of direction d has collapsed. */
  function Slid(b: seq<seq<int>>, d: Direction): (b': seq<seq<int>>)
    requires IsGrid(b)
    ensures IsGrid(b')
  {
    SlideLines(b, d, |b|)
  }

  /** The merge markers after that move: exactly the cells holding a merged tile. */
  function SlidMarks(b: seq<seq<int>>, d: Direction): (marks: seq<seq<bool>>)
    requires IsGrid(b)
    ensures IsGrid(marks)
  {
    MarkLines(b, d, |b|)
  }

  /** After the first n lines, a cell holds what its own line collapsed to if that
      line was among them, and is untouched otherwise ... */
  lemma {:induction false} SlideLinesCell(b: seq<seq<int>>, d: Direction, n: nat, r: nat, c: nat)
    requires IsGrid(b) && n <= 4 && r < 4 && c < 4
    ensures SlideLines(b, d, n)[r][c]
            == if LineIndex(d, r, c) < n then Collapse(LineOf(b, d, LineIndex(d, r, c)))[Pos(d, r, c)] else b[r][c]
  {
    if n > 0 {
      SlideLinesCell(b, d, n - 1, r, c);
      SetLineCell(SlideLines(b, d, n - 1), d, n - 1, Collapse(LineOf(b, d, n - 1)), r, c);
    }
  }

  /** ... and it carries a marker only if its line was among them and marked it. */
  lemma {:induction false} MarkLinesCell(b: seq<seq<int>>, d: Direction, n: nat, r: nat, c: nat)
    requires IsGrid(b) && n <= 4 && r < 4 && c < 4
    ensures MarkLines(b, d, n)[r][c]
            == (LineIndex(d, r, c) < n && CollapseMarks(LineOf(b, d, LineIndex(d, r, c)))[Pos(d, r, c)])
  {
    if n > 0 {
      MarkLinesCell(b, d, n - 1, r, c);
      SetLineCell(MarkLines(b, d, n - 1), d, n - 1, CollapseMarks(LineOf(b, d, n - 1)), r, c);
    }
  }

  /** Every cell of the slid board comes from its own line. */
  lemma SlidCell(b: seq<seq<int>>, d: Direction, r: nat, c: nat)
    requires IsGrid(b) && r < 4 && c < 4
    ensures Slid(b, d)[r][c] == Collapse(LineOf(b, d, LineIndex(d, r, c)))[Pos(d, r, c)]
    ensures SlidMarks(b, d)[r][c] == CollapseMarks(LineOf(b, d, LineIndex(d, r, c)))[Pos(d, r, c)]
  {
    SlideLinesCell(b, d, 4, r, c);
    MarkLinesCell(b, d, 4, r, c);
  }

  /** The points earned by the first n lines of direction d. */
  function ScoreOfLines(b: seq<seq<int>>, d: Direction, n: nat): int
    requires IsGrid(b) && n <= 4
  {
    if n == 0 then 0 else ScoreOfLines(b, d, n - 1) + LineScore(LineOf(b, d, n - 1))
  }

  function SlideScore(b: seq<seq<int>>, d: Direction): int
    requires IsGrid(b)
  {
    ScoreOfLines(b, d, 4)
  }

  /** The number of merges in the first n lines of direction d. */
  function MergesOfLines(b: seq<seq<int>>, d: Direction, n: nat): nat
    requires IsGrid(b) && n <= 4
  {
    if n == 0 then 0 else MergesOfLines(b, d, n - 1) + LineMerges(LineOf(b, d, n - 1))
  }

  function SlideMerges(b: seq<seq<int>>, d: Direction): nat
    requires IsGrid(b)
  {
    MergesOfLines(b, d, 4)
  }

  /** Some line among the first n of direction d changes. */
  predicate LinesChange(b: seq<seq<int>>, d: Direction, n: nat)
    requires IsGrid(b) && n <= 4
  {
    exists i | 0 <= i < n :: Collapse(LineOf(b, d, i)) != LineOf(b, d, i)
  }

  /** Taking one more line into account. */
  lemma LinesChangeNext(b: seq<seq<int>>, d: Direction, n: nat)
    requires IsGrid(b) && n < 4
    ensures LinesChange(b, d, n + 1) == (LinesChange(b, d, n) || Collapse(LineOf(b, d, n)) != LineOf(b, d, n))
  {
    if LinesChange(b, d, n + 1) && Collapse(LineOf(b, d, n)) == LineOf(b, d, n) {
      var i :| 0 <= i < n + 1 && Collapse(LineOf(b, d, i)) != LineOf(b, d, i);
      assert i < n;
    }
  }

  // ---------------------------------------------------------------------------
  // Board predicates.

  predicate HasEmpty(b: seq<seq<int>>)
    requires IsGrid(b)
  {
    exists r, c | 0 <= r < 4 && 0 <= c < 4 :: b[r][c] == 0
  }

  /** Two cells side by side, or one above the other, hold the same value. */
  predicate HasEqualNeighbours(b: seq<seq<int>>)
    requires IsGrid(b)
  {
    exists r, c | 0 <= r < 4 && 0 <= c < 4 :: EqualNeighbour(b, r, c)
  }

  /** The cell (r, c) holds the same value as the cell below it or the cell to its right. */
  predicate EqualNeighbour(b: seq<seq<int>>, r: nat, c: nat)
    requires IsGrid(b) && r < 4 && c < 4
  {
    (r < 3 && b[r][c] == b[r + 1][c]) || (c < 3 && b[r][c] == b[r][c + 1])
  }

  /** The game can go on: an empty cell, or two equal neighbours. */
  predicate Movable(b: seq<seq<int>>)
    requires IsGrid(b)
  {
    HasEmpty(b) || HasEqualNeighbours(b)
  }

  predicate Has2048(b: seq<seq<int>>)
    requires IsGrid(b)
  {
    exists r, c | 0 <= r < 4 && 0 <= c < 4 :: b[r][c] == 2048
  }

  /** The grid with v written into the cell (r, c). */
  function Place<T>(g: seq<seq<T>>, r: nat, c: nat, v: T): (g': seq<seq<T>>)
    requires IsGrid(g) && r < 4 && c < 4
    ensures IsGrid(g')
  {
    g[r := g[r][c := v]]
  }

  function Occupied(v: int): nat { if v != 0 then 1 else 0 }

  function LineCount(line: seq<int>): nat
  {
    if line == [] then 0 else LineCount(line[..|line| - 1]) + Occupied(line[|line| - 1])
  }

  /** The number of tiles on the board. */
  function TileCount(b: seq<seq<int>>): nat
    requires IsGrid(b)
  {
    LineCount(b[0]) + LineCount(b[1]) + LineCount(b[2]) + LineCount(b[3])
  }

  /** The sum of the tile values on the board. */
  function Total(b: seq<seq<int>>): int
    requires IsGrid(b)
  {
    Sum(b[0]) + Sum(b[1]) + Sum(b[2]) + Sum(b[3])
  }

  // ---------------------------------------------------------------------------
  // Lemmas about a move of the whole board.

  lemma SlideScoreOfFour(b: seq<seq<int>>, d: Direction)
    requires IsGrid(b)
    ensures SlideScore(b, d) == LineScore(LineOf(b, d, 0)) + LineScore(LineOf(b, d, 1))
                                + LineScore(LineOf(b, d, 2)) + LineScore(LineOf(b, d, 3))
    ensures SlideMerges(b, d) == LineMerges(LineOf(b, d, 0)) + LineMerges(LineOf(b, d, 1))
                                 + LineMerges(LineOf(b, d, 2)) + LineMerges(LineOf(b, d, 3))
  {
    assert ScoreOfLines(b, d, 0) == 0 && MergesOfLines(b, d, 0) == 0;
    assert ScoreOfLines(b, d, 1) == LineScore(LineOf(b, d, 0));
    assert MergesOfLines(b, d, 1) == LineMerges(LineOf(b, d, 0));
    assert ScoreOfLines(b, d, 2) == ScoreOfLines(b, d, 1) + LineScore(LineOf(b, d, 1));
    assert MergesOfLines(b, d, 2) == MergesOfLines(b, d, 1) + LineMerges(LineOf(b, d, 1));
    assert ScoreOfLines(b, d, 3) == ScoreOfLines(b, d, 2) + LineScore(LineOf(b, d, 2));
    assert MergesOfLines(b, d, 3) == MergesOfLines(b, d, 2) + LineMerges(LineOf(b, d, 2));
  }

  /** Each line of the direction, and only that line, decides its own cells. */
  lemma SlidLines(b: seq<seq<int>>, d: Direction, i: nat)
    requires IsGrid(b) && i < 4
    ensures LineOf(Slid(b, d), d, i) == Collapse(LineOf(b, d, i))
    ensures LineOf(SlidMarks(b, d), d, i) == CollapseMarks(LineOf(b, d, i))
  {
    forall k | 0 <= k < 4
      ensures LineOf(Slid(b, d), d, i)[k] == Collapse(LineOf(b, d, i))[k]
      ensures LineOf(SlidMarks(b, d), d, i)[k] == CollapseMarks(LineOf(b, d, i))[k]
    {
      Coordinates(d, i, k, RowOf(d, i, k), ColOf(d, i, k));
      SlidCell(b, d, RowOf(d, i, k), ColOf(d, i, k));
    }
  }

  /** The board changes exactly when one of its lines changes. */
  lemma SlidChanges(b: seq<seq<int>>, d: Direction)
    requires IsGrid(b)
    ensures (Slid(b, d) != b) == LinesChange(b, d, 4)
  {
    forall i | 0 <= i < 4 { SlidLines(b, d, i); }
    if !LinesChange(b, d, 4) {
      LinesDetermine(Slid(b, d), b, d);
    }
  }

  /** A move that changes the board leaves an empty cell for the new tile. */
  lemma SlidHasEmpty(b: seq<seq<int>>, d: Direction)
    requires IsGrid(b) && Slid(b, d) != b
    ensures HasEmpty(Slid(b, d))
  {
    SlidChanges(b, d);
    var i :| 0 <= i < 4 && Collapse(LineOf(b, d, i)) != LineOf(b, d, i);
    ChangedLineFreesLastCell(LineOf(b, d, i));
    SlidLines(b, d, i);
    assert LineOf(Slid(b, d), d, i)[3] == 0;
    assert Slid(b, d)[RowOf(d, i, 3)][ColOf(d, i, 3)] == 0;
  }

  /** On a board where the game cannot go on, no direction changes anything. */
  lemma StuckBoardIsFixed(b: seq<seq<int>>, d: Direction)
    requires IsGrid(b) && !Movable(b)
    ensures Slid(b, d) == b
  {
    forall i | 0 <= i < 4
      ensures Collapse(LineOf(b, d, i)) == LineOf(b, d, i)
    {
      var line := LineOf(b, d, i);
      forall k | 0 <= k < 4
        ensures line[k] != 0
      {
        assert b[RowOf(d, i, k)][ColOf(d, i, k)] != 0;
      }
      forall k | 0 <= k < 3
        ensures line[k] != line[k + 1]
      {
        match d
        case Up => assert !EqualNeighbour(b, k, i);
        case Down => assert !EqualNeighbour(b, 2 - k, i);
        case Left => assert !EqualNeighbour(b, i, k);
        case Right => assert !EqualNeighbour(b, i, 2 - k);
      }
      StuckLineStays(line);
    }
    SlidChanges(b, d);
  }

  /** A line that changes makes the whole board change in its direction. */
  lemma LineMovesBoard(b: seq<seq<int>>, d: Direction, i: nat)
    requires IsGrid(b) && i < 4 && Collapse(LineOf(b, d, i)) != LineOf(b, d, i)
    ensures Slid(b, d) != b
  {
    SlidLines(b, d, i);
  }

  /** A tile and an empty cell in row r: a move left or right changes the board. */
  lemma RowMoves(b: seq<seq<int>>, r: nat, c: nat, e: nat) returns (d: Direction)
    requires IsGrid(b) && r < 4 && c < 4 && e < 4 && b[r][c] != 0 && b[r][e] == 0
    ensures Slid(b, d) != b
  {
    if e < c {
      d := Left;
      assert LineOf(b, d, r)[e] == 0 && LineOf(b, d, r)[c] != 0;
      GapMoves(LineOf(b, d, r), e, c);
    } else {
      d := Right;
      assert LineOf(b, d, r)[3 - e] == 0 && LineOf(b, d, r)[3 - c] != 0;
      GapMoves(LineOf(b, d, r), 3 - e, 3 - c);
    }
    LineMovesBoard(b, d, r);
  }

  /** A tile and an empty cell in column c: a move up or down changes the board. */
  lemma ColumnMoves(b: seq<seq<int>>, c: nat, r: nat, e: nat) returns (d: Direction)
    requires IsGrid(b) && r < 4 && c < 4 && e < 4 && b[r][c] != 0 && b[e][c] == 0
    ensures Slid(b, d) != b
  {
    if e < r {
      d := Up;
      assert LineOf(b, d, c)[e] == 0 && LineOf(b, d, c)[r] != 0;
      GapMoves(LineOf(b, d, c), e, r);
    } else {
      d := Down;
      assert LineOf(b, d, c)[3 - e] == 0 && LineOf(b, d, c)[3 - r] != 0;
      GapMoves(LineOf(b, d, c), 3 - e, 3 - r);
    }
    LineMovesBoard(b, d, c);
  }

  /** Two equal neighbours on a full board: a move up or left merges them. */
  lemma PairMoves(b: seq<seq<int>>, r: nat, c: nat) returns (d: Direction)
    requires IsGrid(b) && !HasEmpty(b) && r < 4 && c < 4 && EqualNeighbour(b, r, c)
    ensures Slid(b, d) != b
  {
    if r < 3 && b[r][c] == b[r + 1][c] {
      d := Up;
      forall k | 0 <= k < 4 ensures LineOf(b, d, c)[k] != 0 { assert b[k][c] != 0; }
      EqualPairMoves(LineOf(b, d, c), r);
      LineMovesBoard(b, d, c);
    } else {
      d := Left;
      forall k | 0 <= k < 4 ensures LineOf(b, d, r)[k] != 0 { assert b[r][k] != 0; }
      EqualPairMoves(LineOf(b, d, r), c);
      LineMovesBoard(b, d, r);
    }
  }

  /** On a board with at least one tile, a game that can go on has a direction
      that changes the board. */
  lemma MovableBoardMoves(b: seq<seq<int>>) returns (d: Direction)
    requires IsGrid(b) && Movable(b) && TileCount(b) > 0
    ensures Slid(b, d) != b
  {
    if HasEmpty(b) {
      var e, f :| 0 <= e < 4 && 0 <= f < 4 && b[e][f] == 0;
      var r := if LineCount(b[0]) > 0 then 0 else if LineCount(b[1]) > 0 then 1
               else if LineCount(b[2]) > 0 then 2 else 3;
      LineCountOfFour(b[r]);
      var c := if b[r][0] != 0 then 0 else if b[r][1] != 0 then 1 else if b[r][2] != 0 then 2 else 3;
      if b[r][f] == 0 {
        d := RowMoves(b, r, c, f);
      } else {
        d := ColumnMoves(b, f, r, e);
      }
    } else {
      var r, c :| 0 <= r < 4 && 0 <= c < 4 && EqualNeighbour(b, r, c);
      d := PairMoves(b, r, c);
    }
  }

  /** On a board with at least one tile, the game cannot go on exactly when no
      direction changes the board. */
  lemma StuckIffFixed(b: seq<seq<int>>)
    requires IsGrid(b) && TileCount(b) > 0
    ensures !Movable(b) <==> forall d: Direction :: Slid(b, d) == b
  {
    if !Movable(b) {
      forall d: Direction ensures Slid(b, d) == b { StuckBoardIsFixed(b, d); }
    } else {
      var d := MovableBoardMoves(b);
    }
  }

  /** The board without tiles is the exception: the game can go on, yet no
      direction changes it. */
  lemma EmptyBoardIsFixed(b: seq<seq<int>>, d: Direction)
    requires IsGrid(b) && TileCount(b) == 0
    ensures Movable(b) && Slid(b, d) == b
  {
    LineCountOfFour(b[0]);
    LineCountOfFour(b[1]);
    LineCountOfFour(b[2]);
    LineCountOfFour(b[3]);
    assert b[0][0] == 0;
    forall i | 0 <= i < 4
      ensures Collapse(LineOf(b, d, i)) == LineOf(b, d, i)
    {
      var line := LineOf(b, d, i);
      LineCountOfFour(line);
      LineCountIsTiles(line);
      PackedIsStill(line);
    }
    SlidChanges(b, d);
  }

  /** A move keeps every cell empty or a tile value, and earns no negative score. */
  lemma SlidWellFormed(b: seq<seq<int>>, d: Direction)
    requires WellFormed(b)
    ensures WellFormed(Slid(b, d))
    ensures SlideScore(b, d) >= 0
  {
    forall i | 0 <= i < 4
      ensures WellFormedLine(Collapse(LineOf(b, d, i))) && LineScore(LineOf(b, d, i)) >= 0
    {
      CollapseKeepsTileValues(LineOf(b, d, i));
    }
    SlideScoreOfFour(b, d);
    forall r, c | 0 <= r < 4 && 0 <= c < 4
      ensures Slid(b, d)[r][c] == 0 || IsTileValue(Slid(b, d)[r][c])
    {
      SlidCell(b, d, r, c);
    }
  }

  /** A merge marker sits only on a tile. */
  lemma SlidMarksOnTiles(b: seq<seq<int>>, d: Direction)
    requires IsGrid(b)
    ensures forall r, c | 0 <= r < 4 && 0 <= c < 4 :: SlidMarks(b, d)[r][c] ==> Slid(b, d)[r][c] != 0
  {
    forall r, c | 0 <= r < 4 && 0 <= c < 4
      ensures SlidMarks(b, d)[r][c] ==> Slid(b, d)[r][c] != 0
    {
      CollapseMarksOnTiles(LineOf(b, d, LineIndex(d, r, c)));
      SlidCell(b, d, r, c);
    }
  }

  lemma {:induction false} LineCountIsTiles(line: seq<int>)
    ensures LineCount(line) == |TilesOf(line)|
  {
    if line != [] {
      LineCountIsTiles(line[..|line| - 1]);
    }
  }

  lemma LineCountOfFour(line: seq<int>)
    requires |line| == 4
    ensures LineCount(line) == Occupied(line[0]) + Occupied(line[1]) + Occupied(line[2]) + Occupied(line[3])
  {
    assert line[..3][..2] == line[..2] && line[..2][..1] == line[..1] && line[..1][..0] == [];
    assert LineCount(line) == LineCount(line[..3]) + Occupied(line[3]);
    assert LineCount(line[..3]) == LineCount(line[..2]) + Occupied(line[2]);
    assert LineCount(line[..2]) == LineCount(line[..1]) + Occupied(line[1]);
    assert LineCount(line[..1]) == Occupied(line[0]);
  }

  lemma SumOfFour(line: seq<int>)
    requires |line| == 4
    ensures Sum(line) == line[0] + line[1] + line[2] + line[3]
  {
    assert line == [line[0]] + [line[1]] + [line[2]] + [line[3]];
    SumConcat([line[0]] + [line[1]] + [line[2]], [line[3]]);
    SumConcat([line[0]] + [line[1]], [line[2]]);
    SumConcat([line[0]], [line[1]]);
  }

  /** The tiles can be counted line by line in any direction. */
  lemma TileCountByLines(b: seq<seq<int>>, d: Direction)
    requires IsGrid(b)
    ensures TileCount(b) == LineCount(LineOf(b, d, 0)) + LineCount(LineOf(b, d, 1))
                            + LineCount(LineOf(b, d, 2)) + LineCount(LineOf(b, d, 3))
  {
    LineCountOfFour(b[0]); LineCountOfFour(b[1]); LineCountOfFour(b[2]); LineCountOfFour(b[3]);
    LineCountOfFour(LineOf(b, d, 0)); LineCountOfFour(LineOf(b, d, 1));
    LineCountOfFour(LineOf(b, d, 2)); LineCountOfFour(LineOf(b, d, 3));
  }

  /** The values can be added up line by line in any direction. */
  lemma TotalByLines(b: seq<seq<int>>, d: Direction)
    requires IsGrid(b)
    ensures Total(b) == Sum(LineOf(b, d, 0)) + Sum(LineOf(b, d, 1)) + Sum(LineOf(b, d, 2)) + Sum(LineOf(b, d, 3))
  {
    SumOfFour(b[0]); SumOfFour(b[1]); SumOfFour(b[2]); SumOfFour(b[3]);
    SumOfFour(LineOf(b, d, 0)); SumOfFour(LineOf(b, d, 1));
    SumOfFour(LineOf(b, d, 2)); SumOfFour(LineOf(b, d, 3));
  }

  /** Every merge removes one tile. */
  lemma SlidCount(b: seq<seq<int>>, d: Direction)
    requires IsGrid(b)
    ensures TileCount(Slid(b, d)) == TileCount(b) - SlideMerges(b, d)
  {
    TileCountByLines(b, d);
    TileCountByLines(Slid(b, d), d);
    SlideScoreOfFour(b, d);
    forall i | 0 <= i < 4
      ensures LineCount(LineOf(Slid(b, d), d, i)) == LineCount(LineOf(b, d, i)) - LineMerges(LineOf(b, d, i))
    {
      SlidLines(b, d, i);
      CollapseCount(LineOf(b, d, i));
      LineCountIsTiles(LineOf(b, d, i));
      LineCountIsTiles(Collapse(LineOf(b, d, i)));
    }
  }

  /** A move neither creates nor destroys value: merging two tiles of value v gives one of 2v. */
  lemma SlidTotal(b: seq<seq<int>>, d: Direction)
    requires IsGrid(b)
    ensures Total(Slid(b, d)) == Total(b)
  {
    TotalByLines(b, d);
    TotalByLines(Slid(b, d), d);
    forall i | 0 <= i < 4
      ensures Sum(LineOf(Slid(b, d), d, i)) == Sum(LineOf(b, d, i))
    {
      SlidLines(b, d, i);
      CollapseConservesSum(LineOf(b, d, i));
    }
  }

  /** Writing a tile into an empty cell adds one tile. */
  lemma PlaceCount(b: seq<seq<int>>, r: nat, c: nat, v: int)
    requires IsGrid(b) && r < 4 && c < 4 && b[r][c] == 0 && v != 0
    ensures TileCount(Place(b, r, c, v)) == TileCount(b) + 1
  {
    var b' := Place(b, r, c, v);
    LineCountOfFour(b[r]);
    LineCountOfFour(b'[r]);
  }

  /** Every line of a grid without markers is a line without markers. */
  lemma LinesOfBlank(g: seq<seq<bool>>, d: Direction)
    requires IsGrid(g) && forall r, c | 0 <= r < 4 && 0 <= c < 4 :: !g[r][c]
    ensures forall j | 0 <= j < 4 :: LineOf(g, d, j) == Unmarked(4)
  {
    forall j | 0 <= j < 4
      ensures LineOf(g, d, j) == Unmarked(4)
    {
      assert forall k | 0 <= k < 4 :: LineOf(g, d, j)[k] == Unmarked(4)[k];
    }
  }

  /** A board with an empty cell has fewer than 16 tiles, and conversely. */
  lemma FullBoard(b: seq<seq<int>>)
    requires IsGrid(b)
    ensures HasEmpty(b) == (TileCount(b) < 16)
  {
    LineCountOfFour(b[0]); LineCountOfFour(b[1]); LineCountOfFour(b[2]); LineCountOfFour(b[3]);
    if HasEmpty(b) {
      var r, c :| 0 <= r < 4 && 0 <= c < 4 && b[r][c] == 0;
      assert Occupied(b[r][c]) == 0;
    }
  }

  /** A new tile of value 2 or 4 keeps the board well formed. */
  lemma PlaceWellFormed(b: seq<seq<int>>, r: nat, c: nat, v: int)
    requires WellFormed(b) && r < 4 && c < 4 && (v == 2 || v == 4)
    ensures WellFormed(Place(b, r, c, v))
  {
    assert IsTileValue(2);
    assert IsTileValue(4) by { assert 4 / 2 == 2; }
  }

  /** A move in which no line changes earns nothing and marks no tile. */
  lemma StillBoardScoresNothing(b: seq<seq<int>>, d: Direction)
    requires IsGrid(b) && !LinesChange(b, d, 4)
    ensures SlideScore(b, d) == 0
    ensures forall r, c | 0 <= r < 4 && 0 <= c < 4 :: !SlidMarks(b, d)[r][c]
  {
    SlideScoreOfFour(b, d);
    forall i | 0 <= i < 4
      ensures LineScore(LineOf(b, d, i)) == 0 && CollapseMarks(LineOf(b, d, i)) == Unmarked(4)
    {
      StillLineScoresNothing(LineOf(b, d, i));
    }
    forall r, c | 0 <= r < 4 && 0 <= c < 4
      ensures !SlidMarks(b, d)[r][c]
    {
      assert CollapseMarks(LineOf(b, d, LineIndex(d, r, c))) == Unmarked(4);
      SlidCell(b, d, r, c);
    }
  }

  /** A board without tiles. */
  lemma BlankBoard(b: seq<seq<int>>)
    requires IsGrid(b) && forall r, c | 0 <= r < 4 && 0 <= c < 4 :: b[r][c] == 0
    ensures WellFormed(b) && TileCount(b) == 0
  {
    LineCountOfFour(b[0]); LineCountOfFour(b[1]); LineCountOfFour(b[2]); LineCountOfFour(b[3]);
  }

  /** A tile spawned on a free cell after a move: the board has lost one tile per
      merge and gained the new one. */
  lemma SpawnCount(b: seq<seq<int>>, d: Direction, r: nat, c: nat, v: int)
    requires IsGrid(b) && r < 4 && c < 4 && Slid(b, d)[r][c] == 0 && v != 0
    ensures TileCount(Place(Slid(b, d), r, c, v)) == TileCount(b) - SlideMerges(b, d) + 1
  {
    SlidCount(b, d);
    PlaceCount(Slid(b, d), r, c, v);
  }
}
