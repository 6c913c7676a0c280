/** One line of the board (a row or a column), listed from the edge the tiles move
    toward (index 0) outward. 0 stands for an empty cell, any other number for the
    value of the tile in that cell.

    Two descriptions of what a move does to a line live here:
    - the sweep (Advance, SweepFrom, SweepLine), which follows the engine's loops
      step by step: every tile, nearest the edge first, is pushed one cell at a time
      into empty cells or onto an equal tile that has not merged yet;
    - the collapse (TilesOf, Merge, Collapse), the usual description of a 2048 move:
      drop the empty cells, merge equal neighbours pairwise from the edge outward,
      pad with empty cells.
    SweepMatchesCollapse proves that the two agree on every line without merge
    markers, which is every line at the start of a move. */
module Lines {

  /** A value an occupied cell can hold: a power of two that is at least 2. */
  predicate IsTileValue(v: int)
    decreases v
  {
    v == 2 || (v > 2 && v % 2 == 0 && IsTileValue(v / 2))
  }

  lemma {:induction false} TileValueAtLeastTwo(v: int)
    requires IsTileValue(v)
    ensures v >= 2
  {
  }

  /** Merging two tiles of value v yields a tile value again. */
  lemma DoubleIsTileValue(v: int)
    requires IsTileValue(v)
    ensures IsTileValue(2 * v)
  {
    TileValueAtLeastTwo(v);
    assert (2 * v) / 2 == v;
  }

  function Zeros(n: nat): seq<int> { seq(n, _ => 0) }

  function Unmarked(n: nat): seq<bool> { seq(n, _ => false) }

  // ---------------------------------------------------------------------------
  // The sweep, as the engine runs it.

  /** The state of a line during one move: the cells, the per-cell merge markers
      ("this tile was produced by a merge during this move"), the score gained so
      far and whether any tile has slid or merged so far. */
  datatype Sweep = Sweep(cells: seq<int>, merged: seq<bool>, gained: int, moved: bool)

  predicate Shaped(s: Sweep) { |s.merged| == |s.cells| }

  /** The inner loop: the tile at index t advances toward index 0 while the next
      cell is empty, or holds an equal tile with no merge marker. Sliding carries
      the tile (and its marker) one cell on; merging writes a new doubled tile,
      marked, onto the next cell, empties the tile's own cell, adds the doubled
      value to the score, and stops. */
  function Advance(s: Sweep, t: nat): (r: Sweep)
    requires Shaped(s) && t < |s.cells| && s.cells[t] != 0
    ensures Shaped(r) && |r.cells| == |s.cells|
    decreases t
  {
    if t > 0 && (s.cells[t - 1] == 0 || (s.cells[t - 1] == s.cells[t] && !s.merged[t - 1])) then
      if s.cells[t - 1] == 0 then
        Advance(Sweep(s.cells[t - 1 := s.cells[t]][t := 0],
                      s.merged[t - 1 := s.merged[t]][t := false],
                      s.gained, true), t - 1)
      else
        var mergedValue := s.cells[t] * 2;
        Sweep(s.cells[t - 1 := mergedValue][t := 0], s.merged[t - 1 := true][t := false],
              s.gained + mergedValue, true)
    else
      s
  }

  /** The outer loop: visit the cells from index i outward and advance every tile. */
  function SweepFrom(s: Sweep, i: nat): (r: Sweep)
    requires Shaped(s)
    ensures Shaped(r) && |r.cells| == |s.cells|
    decreases |s.cells| - i
  {
    if i >= |s.cells| then s
    else SweepFrom(if s.cells[i] != 0 then Advance(s, i) else s, i + 1)
  }

  /** One line swept from a fresh start: the cell at index 0 cannot move, so the
      visit starts at index 1. */
  function SweepLine(cells: seq<int>, merged: seq<bool>): Sweep
    requires |merged| == |cells|
  {
    SweepFrom(Sweep(cells, merged, 0, false), 1)
  }

  // ---------------------------------------------------------------------------
  // The collapse, the reference description.

  /** The tiles of a line, in order, without the empty cells. */
  function TilesOf(line: seq<int>): (t: seq<int>)
    ensures |t| <= |line|
    ensures forall k | 0 <= k < |t| :: t[k] != 0
  {
    if line == [] then []
    else TilesOf(line[..|line| - 1]) + (if line[|line| - 1] != 0 then [line[|line| - 1]] else [])
  }

  /** Greedy pairwise merge from the front: two equal neighbours become one tile of
      twice the value, and the result is not considered again. */
  function Merge(t: seq<int>): (m: seq<int>)
    ensures |m| <= |t|
    ensures |t| > 0 ==> |m| > 0
  {
    if |t| < 2 then t
    else if t[0] == t[1] then [2 * t[0]] + Merge(t[2..])
    else [t[0]] + Merge(t[1..])
  }

  /** For each tile of Merge(t), whether it was produced by a merge. */
  function MergeMarks(t: seq<int>): (k: seq<bool>)
    ensures |k| == |Merge(t)|
  {
    if |t| < 2 then Unmarked(|t|)
    else if t[0] == t[1] then [true] + MergeMarks(t[2..])
    else [false] + MergeMarks(t[1..])
  }

  /** The score of Merge(t): the value of every tile a merge produces. */
  function MergeScore(t: seq<int>): int
  {
    if |t| < 2 then 0
    else if t[0] == t[1] then 2 * t[0] + MergeScore(t[2..])
    else MergeScore(t[1..])
  }

  /** The number of merges Merge(t) performs. */
  function MergeCount(t: seq<int>): nat
  {
    if |t| < 2 then 0
    else if t[0] == t[1] then 1 + MergeCount(t[2..])
    else MergeCount(t[1..])
  }

  function Collapse(line: seq<int>): (r: seq<int>)
    ensures |r| == |line|
  {
    var m := Merge(TilesOf(line));
    m + Zeros(|line| - |m|)
  }

  function CollapseMarks(line: seq<int>): (r: seq<bool>)
    ensures |r| == |line|
  {
    var k := MergeMarks(TilesOf(line));
    k + Unmarked(|line| - |k|)
  }

  function LineScore(line: seq<int>): int { MergeScore(TilesOf(line)) }

  function LineMerges(line: seq<int>): nat { MergeCount(TilesOf(line)) }

  /** No empty cell lies between the edge and a tile. */
  predicate Packed(line: seq<int>)
  {
    forall j, k | 0 <= j < k < |line| :: line[j] == 0 ==> line[k] == 0
  }

  /** Every entry is a tile value (no empty cells). */
  predicate AllTileValues(t: seq<int>)
  {
    forall k | 0 <= k < |t| :: IsTileValue(t[k])
  }

  /** Every entry is empty or a tile value. */
  predicate WellFormedLine(line: seq<int>)
  {
    forall k | 0 <= k < |line| :: line[k] == 0 || IsTileValue(line[k])
  }

  // ---------------------------------------------------------------------------
  // Facts about TilesOf and Merge.

  lemma {:induction false} TilesSnoc(a: seq<int>, v: int)
    ensures TilesOf(a + [v]) == TilesOf(a) + (if v != 0 then [v] else [])
  {
    assert (a + [v])[..|a + [v]| - 1] == a;
  }

  /** A line without empty cells is its own list of tiles. */
  lemma {:induction false} TilesOfFull(a: seq<int>)
    requires forall k | 0 <= k < |a| :: a[k] != 0
    ensures TilesOf(a) == a
  {
    if a != [] {
      var b := a[..|a| - 1];
      TilesOfFull(b);
      assert b + [a[|a| - 1]] == a;
      TilesSnoc(b, a[|a| - 1]);
    }
  }

  /** A line has as many tiles as cells exactly when it has no empty cell. */
  lemma {:induction false} TilesFull(a: seq<int>)
    ensures (|TilesOf(a)| == |a|) == (forall k | 0 <= k < |a| :: a[k] != 0)
  {
    if a != [] {
      var b := a[..|a| - 1];
      TilesFull(b);
      assert b + [a[|a| - 1]] == a;
      TilesSnoc(b, a[|a| - 1]);
      if forall k | 0 <= k < |a| :: a[k] != 0 {
        assert forall k | 0 <= k < |b| :: b[k] != 0 by {
          forall k | 0 <= k < |b| ensures b[k] != 0 { assert b[k] == a[k]; }
        }
      }
    }
  }

  lemma {:induction false} TilesOfPadded(m: seq<int>, n: nat)
    requires forall k | 0 <= k < |m| :: m[k] != 0
    ensures TilesOf(m + Zeros(n)) == m
  {
    if n == 0 {
      assert m + Zeros(0) == m;
      TilesOfFull(m);
    } else {
      TilesOfPadded(m, n - 1);
      assert m + Zeros(n) == (m + Zeros(n - 1)) + [0];
      TilesSnoc(m + Zeros(n - 1), 0);
    }
  }

  /** An empty cell appended to a line keeps it packed; a tile appended keeps it
      packed exactly when the line had no empty cell. */
  lemma PackedSnoc(a: seq<int>, v: int)
    ensures Packed(a + [v]) == (Packed(a) && (v == 0 || |TilesOf(a)| == |a|))
  {
    TilesFull(a);
    var w := a + [v];
    if Packed(w) {
      assert Packed(a) by {
        forall j, k | 0 <= j < k < |a| && a[j] == 0 ensures a[k] == 0 { assert w[j] == a[j] && w[k] == a[k]; }
      }
      if v != 0 {
        forall k | 0 <= k < |a| ensures a[k] != 0 { assert w[k] == a[k] && w[|a|] == v; }
      }
    }
  }

  /** A packed line is its tiles followed by empty cells. */
  lemma {:induction false} PackedIsPadded(line: seq<int>)
    requires Packed(line)
    ensures line == TilesOf(line) + Zeros(|line| - |TilesOf(line)|)
  {
    if line != [] {
      var a := line[..|line| - 1];
      var v := line[|line| - 1];
      assert a + [v] == line;
      PackedSnoc(a, v);
      TilesSnoc(a, v);
      if v == 0 {
        PackedIsPadded(a);
        assert Zeros(|a| - |TilesOf(a)|) + [0] == Zeros(|line| - |TilesOf(line)|);
      } else {
        TilesFull(a);
        TilesOfFull(a);
        assert TilesOf(line) == line;
        assert line + Zeros(0) == line;
      }
    }
  }

  lemma {:induction false} MergeNonzero(t: seq<int>)
    requires forall k | 0 <= k < |t| :: t[k] != 0
    ensures forall k | 0 <= k < |Merge(t)| :: Merge(t)[k] != 0
  {
    if |t| >= 2 {
      if t[0] == t[1] { MergeNonzero(t[2..]); } else { MergeNonzero(t[1..]); }
    }
  }

  /** Appending a tile v to t, in terms of Merge(t): v joins the last merged tile
      when that one is equal to it and carries no marker, and otherwise goes after it. */
  predicate Joins(t: seq<int>, v: int)
  {
    var m := Merge(t);
    |m| > 0 && m[|m| - 1] == v && !MergeMarks(t)[|m| - 1]
  }

  /** The first step of Merge on at least two tiles: the front tile it emits and
      the tiles left for the rest. */
  function Front(t: seq<int>): int
    requires |t| >= 2
  {
    if t[0] == t[1] then 2 * t[0] else t[0]
  }

  function Rest(t: seq<int>): seq<int>
    requires |t| >= 2
  {
    if t[0] == t[1] then t[2..] else t[1..]
  }

  lemma MergeUnfold(t: seq<int>)
    requires |t| >= 2
    ensures Merge(t) == [Front(t)] + Merge(Rest(t))
    ensures MergeMarks(t) == [t[0] == t[1]] + MergeMarks(Rest(t))
  {
  }

  lemma RestSnoc(t: seq<int>, v: int)
    requires |t| >= 2
    ensures (t + [v])[0] == t[0] && (t + [v])[1] == t[1]
    ensures Rest(t + [v]) == Rest(t) + [v] && Front(t + [v]) == Front(t)
  {
    if t[0] == t[1] { assert (t + [v])[2..] == t[2..] + [v]; } else { assert (t + [v])[1..] == t[1..] + [v]; }
  }

  lemma JoinsUnfold(t: seq<int>, v: int)
    requires |t| >= 2
    ensures Joins(t, v) == (Rest(t) != [] && Joins(Rest(t), v))
  {
    MergeUnfold(t);
    if Rest(t) == [] {
      assert MergeMarks(t) == [true];
    }
  }

  /** Putting an element in front commutes with replacing the last element or appending. */
  lemma ConsSnoc<T>(h: T, m: seq<T>, m': seq<T>, x: T, y: T, replace: bool)
    requires replace ==> m != [] && m' == m[|m| - 1 := x]
    requires !replace ==> m' == m + [y]
    ensures [h] + m' == if replace then ([h] + m)[|m| := x] else ([h] + m) + [y]
  {
    if replace {
      assert [h] + m' == ([h] + m)[|m| := x];
    } else {
      assert [h] + m' == ([h] + m) + [y];
    }
  }

  /** Appending one tile to the list of the front part of a line. */
  lemma {:induction false} MergeSnoc(t: seq<int>, v: int)
    ensures Merge(t + [v]) ==
            if Joins(t, v) then Merge(t)[|Merge(t)| - 1 := 2 * v] else Merge(t) + [v]
    ensures MergeMarks(t + [v]) ==
            if Joins(t, v) then MergeMarks(t)[|Merge(t)| - 1 := true] else MergeMarks(t) + [false]
  {
    var w := t + [v];
    if |t| == 0 {
      assert w == [v];
    } else if |t| == 1 {
      assert w == [t[0], v];
      assert w[2..] == [] && w[1..] == [v];
      assert Merge(t) == t && MergeMarks(t) == [false];
    } else {
      MergeUnfold(t);
      RestSnoc(t, v);
      MergeUnfold(w);
      JoinsUnfold(t, v);
      MergeSnoc(Rest(t), v);
      ConsSnoc(Front(t), Merge(Rest(t)), Merge(Rest(t) + [v]), 2 * v, v, Joins(t, v));
      ConsSnoc(t[0] == t[1], MergeMarks(Rest(t)), MergeMarks(Rest(t) + [v]), true, false, Joins(t, v));
    }
  }

  /** Appending a tile adds its merge to the score exactly when it joins. */
  lemma {:induction false} MergeSnocScore(t: seq<int>, v: int)
    ensures MergeScore(t + [v]) == MergeScore(t) + (if Joins(t, v) then 2 * v else 0)
  {
    var w := t + [v];
    if |t| == 0 {
      assert w == [v];
    } else if |t| == 1 {
      assert w == [t[0], v];
      assert w[2..] == [] && w[1..] == [v];
      assert Merge(t) == t && MergeMarks(t) == [false];
      assert MergeScore(w) == if t[0] == v then 2 * v else 0;
    } else if t[0] == t[1] {
      var rest := t[2..];
      assert w[2..] == rest + [v];
      MergeSnocScore(rest, v);
      if rest == [] {
        assert Merge(t) == [2 * t[0]] && MergeMarks(t) == [true];
      } else {
        assert Joins(t, v) == Joins(rest, v);
      }
    } else {
      var rest := t[1..];
      assert w[1..] == rest + [v];
      MergeSnocScore(rest, v);
      assert Joins(t, v) == Joins(rest, v);
    }
  }

  /** Merge leaves a list without equal neighbours as it is. */
  lemma {:induction false} MergeOfDistinct(t: seq<int>)
    requires forall k | 0 <= k < |t| - 1 :: t[k] != t[k + 1]
    ensures Merge(t) == t
  {
    if |t| >= 2 {
      assert t[0] != t[1];
      MergeOfDistinct(t[1..]);
      assert [t[0]] + t[1..] == t;
    }
  }

  /** Merge shortens a list by one tile per merge. */
  lemma {:induction false} MergeLength(t: seq<int>)
    ensures |Merge(t)| + MergeCount(t) == |t|
  {
    if |t| >= 2 {
      if t[0] == t[1] { MergeLength(t[2..]); } else { MergeLength(t[1..]); }
    }
  }

  /** A Merge that performs no merge returns its input. */
  lemma {:induction false} MergeWithoutMerges(t: seq<int>)
    requires |Merge(t)| == |t|
    ensures Merge(t) == t
  {
    if |t| >= 2 {
      if t[0] != t[1] {
        MergeWithoutMerges(t[1..]);
        assert [t[0]] + t[1..] == t;
      }
    }
  }

  function Sum(s: seq<int>): int
  {
    if s == [] then 0 else s[0] + Sum(s[1..])
  }

  lemma {:induction false} SumConcat(a: seq<int>, b: seq<int>)
    ensures Sum(a + b) == Sum(a) + Sum(b)
  {
    if a == [] {
      assert a + b == b;
    } else {
      assert (a + b)[1..] == a[1..] + b;
      SumConcat(a[1..], b);
    }
  }

  lemma {:induction false} SumZeros(n: nat)
    ensures Sum(Zeros(n)) == 0
  {
    if n > 0 {
      assert Zeros(n)[1..] == Zeros(n - 1);
      SumZeros(n - 1);
    }
  }

  lemma {:induction false} SumTiles(line: seq<int>)
    ensures Sum(TilesOf(line)) == Sum(line)
  {
    if line != [] {
      var a := line[..|line| - 1];
      var v := line[|line| - 1];
      assert a + [v] == line;
      SumTiles(a);
      TilesSnoc(a, v);
      SumConcat(a, [v]);
      SumConcat(TilesOf(a), if v != 0 then [v] else []);
      assert Sum([v]) == v + Sum([]);
    }
  }

  lemma {:induction false} SumMerge(t: seq<int>)
    ensures Sum(Merge(t)) == Sum(t)
  {
    if |t| >= 2 {
      assert t[1..][1..] == t[2..];
      if t[0] == t[1] {
        SumMerge(t[2..]);
        assert ([2 * t[0]] + Merge(t[2..]))[1..] == Merge(t[2..]);
      } else {
        SumMerge(t[1..]);
        assert ([t[0]] + Merge(t[1..]))[1..] == Merge(t[1..]);
      }
    }
  }

  lemma {:induction false} MergeKeepsTileValues(t: seq<int>)
    requires AllTileValues(t)
    ensures AllTileValues(Merge(t))
    ensures MergeScore(t) >= 0
  {
    if |t| >= 2 {
      if t[0] == t[1] {
        DoubleIsTileValue(t[0]);
        TileValueAtLeastTwo(t[0]);
        MergeKeepsTileValues(t[2..]);
      } else {
        MergeKeepsTileValues(t[1..]);
      }
    }
  }

  lemma {:induction false} TilesAreTileValues(line: seq<int>)
    requires WellFormedLine(line)
    ensures AllTileValues(TilesOf(line))
  {
    if line != [] {
      var a := line[..|line| - 1];
      assert a + [line[|line| - 1]] == line;
      TilesSnoc(a, line[|line| - 1]);
      TilesAreTileValues(a);
    }
  }

  /** The total value of the marked entries of m. */
  function MarkedSum(m: seq<int>, marks: seq<bool>): int
    requires |marks| == |m|
  {
    if m == [] then 0 else (if marks[0] then m[0] else 0) + MarkedSum(m[1..], marks[1..])
  }

  lemma {:induction false} MergeScoreIsMarkedSum(t: seq<int>)
    ensures MergeScore(t) == MarkedSum(Merge(t), MergeMarks(t))
  {
    if |t| == 1 {
      assert Merge(t)[1..] == [] && MergeMarks(t)[1..] == [];
    } else if |t| >= 2 {
      if t[0] == t[1] {
        MergeScoreIsMarkedSum(t[2..]);
        assert ([2 * t[0]] + Merge(t[2..]))[1..] == Merge(t[2..]);
        assert ([true] + MergeMarks(t[2..]))[1..] == MergeMarks(t[2..]);
      } else {
        MergeScoreIsMarkedSum(t[1..]);
        assert ([t[0]] + Merge(t[1..]))[1..] == Merge(t[1..]);
        assert ([false] + MergeMarks(t[1..]))[1..] == MergeMarks(t[1..]);
      }
    }
  }

  lemma {:induction false} MarkedSumPadded(m: seq<int>, marks: seq<bool>, n: nat)
    requires |marks| == |m|
    ensures MarkedSum(m + Zeros(n), marks + Unmarked(n)) == MarkedSum(m, marks)
  {
    if m == [] {
      assert m + Zeros(n) == Zeros(n) && marks + Unmarked(n) == Unmarked(n);
      UnmarkedSum(n);
    } else {
      assert (m + Zeros(n))[1..] == m[1..] + Zeros(n);
      assert (marks + Unmarked(n))[1..] == marks[1..] + Unmarked(n);
      MarkedSumPadded(m[1..], marks[1..], n);
    }
  }

  lemma {:induction false} UnmarkedSum(n: nat)
    ensures MarkedSum(Zeros(n), Unmarked(n)) == 0
  {
    if n > 0 {
      assert Zeros(n)[1..] == Zeros(n - 1) && Unmarked(n)[1..] == Unmarked(n - 1);
      UnmarkedSum(n - 1);
    }
  }

  // ---------------------------------------------------------------------------
  // The sweep and the collapse agree.

  /** The cells of a line once those before index i have been visited: the merged
      tiles m first, then empty cells up to i, then the unvisited rest of the line. */
  ghost predicate CellsMatch(cells: seq<int>, line: seq<int>, i: nat, m: seq<int>)
  {
    |cells| == |line| &&
    forall k | 0 <= k < |line| :: cells[k] == (if k < |m| then m[k] else if k < i then 0 else line[k])
  }

  /** The markers of a line of n cells: those of the merged tiles, none elsewhere. */
  ghost predicate MarksMatch(merged: seq<bool>, marks: seq<bool>, n: nat)
  {
    |merged| == n && forall k | 0 <= k < n :: merged[k] == (k < |marks| && marks[k])
  }

  /** The state of the sweep once the cells before index i have been visited: they
      hold the collapse of line[..i], the rest of the line is untouched, and the
      score and the moved flag are those of the collapse so far. */
  ghost predicate SweptUpTo(s: Sweep, line: seq<int>, i: nat)
  {
    i <= |line| && Shaped(s) &&
    var t := TilesOf(line[..i]);
    CellsMatch(s.cells, line, i, Merge(t)) &&
    MarksMatch(s.merged, MergeMarks(t), |line|) &&
    s.gained == MergeScore(t) &&
    s.moved == (!Packed(line[..i]) || |Merge(t)| < |t|)
  }

  /** The function the loop ends in: a tile that meets empty cells from index p up
      to t and then, at p - 1, a tile (or the edge, when p = 0). */
  function Arrive(s: Sweep, t: nat, p: nat): Sweep
    requires Shaped(s) && p <= t < |s.cells|
  {
    var v := s.cells[t];
    if p > 0 && s.cells[p - 1] == v && !s.merged[p - 1] then
      Sweep(s.cells[t := 0][p - 1 := 2 * v], s.merged[t := false][p - 1 := true], s.gained + 2 * v, true)
    else
      Sweep(s.cells[t := 0][p := v], s.merged, s.gained, s.moved || p < t)
  }

  lemma {:induction false} AdvanceRun(s: Sweep, t: nat, p: nat)
    requires Shaped(s) && p <= t < |s.cells| && s.cells[t] != 0 && !s.merged[t]
    requires forall k | p <= k < t :: s.cells[k] == 0 && !s.merged[k]
    requires p > 0 ==> s.cells[p - 1] != 0
    ensures Advance(s, t) == Arrive(s, t, p)
    decreases t
  {
    var v := s.cells[t];
    if t == p {
      assert s.cells[t := 0][p := v] == s.cells;
      if p > 0 {
        assert s.cells[t := 0][p - 1 := 2 * v] == s.cells[p - 1 := 2 * v][t := 0];
        assert s.merged[t := false][p - 1 := true] == s.merged[p - 1 := true][t := false];
      }
    } else {
      var s1 := Sweep(s.cells[t - 1 := v][t := 0], s.merged[t - 1 := s.merged[t]][t := false], s.gained, true);
      assert Advance(s, t) == Advance(s1, t - 1);
      AdvanceRun(s1, t - 1, p);
      assert s1.cells[t - 1 := 0] == s.cells[t := 0];
      assert s1.merged[t - 1 := false] == s.merged[t := false];
      assert s1.merged == s.merged;
    }
  }

  lemma CellsSkip(cells: seq<int>, line: seq<int>, i: nat, m: seq<int>)
    requires CellsMatch(cells, line, i, m) && |m| <= i < |line| && line[i] == 0
    ensures CellsMatch(cells, line, i + 1, m)
  {
  }

  lemma CellsAppend(cells: seq<int>, line: seq<int>, i: nat, m: seq<int>)
    requires CellsMatch(cells, line, i, m) && |m| <= i < |line|
    ensures CellsMatch(cells[i := 0][|m| := line[i]], line, i + 1, m + [line[i]])
  {
  }

  lemma CellsJoin(cells: seq<int>, line: seq<int>, i: nat, m: seq<int>)
    requires CellsMatch(cells, line, i, m) && 0 < |m| <= i < |line|
    ensures CellsMatch(cells[i := 0][|m| - 1 := 2 * line[i]], line, i + 1, m[|m| - 1 := 2 * line[i]])
  {
  }

  lemma MarksAppend(merged: seq<bool>, marks: seq<bool>, n: nat)
    requires MarksMatch(merged, marks, n) && |marks| < n
    ensures MarksMatch(merged, marks + [false], n)
  {
  }

  lemma MarksJoin(merged: seq<bool>, marks: seq<bool>, n: nat, i: nat)
    requires MarksMatch(merged, marks, n) && 0 < |marks| <= i < n
    ensures MarksMatch(merged[i := false][|marks| - 1 := true], marks[|marks| - 1 := true], n)
  {
  }

  lemma {:induction false} SweepStep(s: Sweep, line: seq<int>, i: nat)
    requires SweptUpTo(s, line, i) && i < |line|
    ensures SweptUpTo(if s.cells[i] != 0 then Advance(s, i) else s, line, i + 1)
  {
    var t := TilesOf(line[..i]);
    assert line[..i + 1] == line[..i] + [line[i]];
    TilesSnoc(line[..i], line[i]);
    PackedSnoc(line[..i], line[i]);
    assert s.cells[i] == line[i];
    if line[i] != 0 {
      StepTile(s, line, i, t);
    } else {
      assert TilesOf(line[..i + 1]) == t;
      CellsSkip(s.cells, line, i, Merge(t));
    }
  }

  /** The visit of a tile: it arrives at the first free cell, or joins the tile
      in front of it as MergeSnoc describes. */
  lemma {:induction false} StepTile(s: Sweep, line: seq<int>, i: nat, t: seq<int>)
    requires SweptUpTo(s, line, i) && i < |line| && line[i] != 0 && t == TilesOf(line[..i])
    requires TilesOf(line[..i + 1]) == t + [line[i]]
    requires Packed(line[..i + 1]) == (Packed(line[..i]) && |t| == i)
    ensures s.cells[i] != 0 && SweptUpTo(Advance(s, i), line, i + 1)
  {
    var m := Merge(t);
    var marks := MergeMarks(t);
    var v := line[i];
    var p := |m|;
    MergeNonzero(t);
    assert s.cells[i] == v && !s.merged[i];
    assert p > 0 ==> s.cells[p - 1] == m[p - 1] && s.merged[p - 1] == marks[p - 1];
    assert forall k | p <= k < i :: s.cells[k] == 0 && !s.merged[k];
    AdvanceRun(s, i, p);
    if Joins(t, v) {
      StepJoin(s, line, i, t);
    } else {
      StepAppend(s, line, i, t);
    }
  }

  lemma StepJoin(s: Sweep, line: seq<int>, i: nat, t: seq<int>)
    requires SweptUpTo(s, line, i) && i < |line| && line[i] != 0 && t == TilesOf(line[..i])
    requires TilesOf(line[..i + 1]) == t + [line[i]]
    requires Joins(t, line[i])
    requires Advance(s, i) == Arrive(s, i, |Merge(t)|)
    requires s.cells[|Merge(t)| - 1] == Merge(t)[|Merge(t)| - 1]
    requires s.merged[|Merge(t)| - 1] == MergeMarks(t)[|Merge(t)| - 1]
    ensures SweptUpTo(Advance(s, i), line, i + 1)
  {
    var m := Merge(t);
    var v := line[i];
    var p := |m|;
    MergeSnoc(t, v);
    MergeSnocScore(t, v);
    var r := Advance(s, i);
    assert s.cells[i] == v;
    assert r == Sweep(s.cells[i := 0][p - 1 := 2 * v], s.merged[i := false][p - 1 := true], s.gained + 2 * v, true);
    CellsJoin(s.cells, line, i, m);
    MarksJoin(s.merged, MergeMarks(t), |line|, i);
  }

  lemma StepAppend(s: Sweep, line: seq<int>, i: nat, t: seq<int>)
    requires SweptUpTo(s, line, i) && i < |line| && line[i] != 0 && t == TilesOf(line[..i])
    requires TilesOf(line[..i + 1]) == t + [line[i]]
    requires Packed(line[..i + 1]) == (Packed(line[..i]) && |t| == i)
    requires !Joins(t, line[i])
    requires Advance(s, i) == Arrive(s, i, |Merge(t)|)
    requires |Merge(t)| > 0 ==> s.cells[|Merge(t)| - 1] == Merge(t)[|Merge(t)| - 1]
    requires |Merge(t)| > 0 ==> s.merged[|Merge(t)| - 1] == MergeMarks(t)[|Merge(t)| - 1]
    ensures SweptUpTo(Advance(s, i), line, i + 1)
  {
    var m := Merge(t);
    var v := line[i];
    var p := |m|;
    MergeSnoc(t, v);
    MergeSnocScore(t, v);
    var r := Advance(s, i);
    assert s.cells[i] == v;
    assert r == Sweep(s.cells[i := 0][p := v], s.merged, s.gained, s.moved || p < i);
    CellsAppend(s.cells, line, i, m);
    MarksAppend(s.merged, MergeMarks(t), |line|);
  }

  lemma {:induction false} SweepFromSwept(s: Sweep, line: seq<int>, i: nat)
    requires SweptUpTo(s, line, i)
    ensures SweptUpTo(SweepFrom(s, i), line, |line|)
    decreases |line| - i
  {
    if i < |line| {
      SweepStep(s, line, i);
      SweepFromSwept(if s.cells[i] != 0 then Advance(s, i) else s, line, i + 1);
    }
  }

  lemma {:induction false} NoMergesNoScore(t: seq<int>)
    requires MergeCount(t) == 0
    ensures MergeScore(t) == 0
  {
    if |t| >= 2 && t[0] != t[1] {
      NoMergesNoScore(t[1..]);
    }
  }

  lemma {:induction false} NoMergesNoMarks(t: seq<int>)
    requires MergeCount(t) == 0
    ensures MergeMarks(t) == Unmarked(|MergeMarks(t)|)
  {
    if |t| >= 2 && t[0] != t[1] {
      NoMergesNoMarks(t[1..]);
    }
  }

  /** A line the collapse leaves as it is earns nothing, loses no tile and
      gets no merge marker. */
  lemma StillLineScoresNothing(line: seq<int>)
    requires Collapse(line) == line
    ensures LineScore(line) == 0 && LineMerges(line) == 0
    ensures CollapseMarks(line) == Unmarked(|line|)
  {
    ChangedIff(line);
    MergeLength(TilesOf(line));
    NoMergesNoScore(TilesOf(line));
    NoMergesNoMarks(TilesOf(line));
    assert CollapseMarks(line) == MergeMarks(TilesOf(line)) + Unmarked(|line| - |MergeMarks(TilesOf(line))|);
  }

  /** A line changes under the collapse exactly when it has an empty cell before a
      tile or some merge takes place. */
  lemma ChangedIff(line: seq<int>)
    ensures (Collapse(line) != line) == (!Packed(line) || |Merge(TilesOf(line))| < |TilesOf(line)|)
  {
    if Collapse(line) == line {
      StillIsPacked(line);
    } else if Packed(line) && |Merge(TilesOf(line))| == |TilesOf(line)| {
      PackedIsStill(line);
    }
  }

  /** A packed line without merges is its own collapse. */
  lemma PackedIsStill(line: seq<int>)
    requires Packed(line) && |Merge(TilesOf(line))| == |TilesOf(line)|
    ensures Collapse(line) == line
  {
    MergeWithoutMerges(TilesOf(line));
    PackedIsPadded(line);
  }

  /** A line that is its own collapse is packed and has no merges. */
  lemma StillIsPacked(line: seq<int>)
    requires Collapse(line) == line
    ensures Packed(line) && |Merge(TilesOf(line))| == |TilesOf(line)|
  {
    var t := TilesOf(line);
    var m := Merge(t);
    MergeNonzero(t);
    TilesOfPadded(m, |line| - |m|);
    assert Packed(line) by {
      forall j, k | 0 <= j < k < |line| && line[j] == 0 ensures line[k] == 0 {
        assert Collapse(line)[j] == 0;
        assert j >= |m|;
      }
    }
  }

  /** The sweep the engine performs on a line with no merge markers computes the
      collapse: the same cells, the markers on exactly the merged tiles, the score
      of the merges, and "moved" exactly when the line changed. */
  lemma SweepMatchesCollapse(line: seq<int>)
    ensures SweepLine(line, Unmarked(|line|)) ==
            Sweep(Collapse(line), CollapseMarks(line), LineScore(line), Collapse(line) != line)
  {
    SweepLineSwept(line);
    SweptIsCollapse(SweepLine(line, Unmarked(|line|)), line);
  }

  /** From a fresh start, the sweep visits the whole line. */
  lemma SweepLineSwept(line: seq<int>)
    ensures SweptUpTo(SweepLine(line, Unmarked(|line|)), line, |line|)
  {
    var s0 := Sweep(line, Unmarked(|line|), 0, false);
    assert line[..0] == [];
    assert SweptUpTo(s0, line, 0);
    if |line| > 0 && line[0] != 0 {
      assert Advance(s0, 0) == s0;
    }
    assert SweepFrom(s0, 0) == SweepFrom(s0, 1);
    SweepFromSwept(s0, line, 0);
  }

  /** A sweep that has visited the whole line holds its collapse. */
  lemma SweptIsCollapse(s: Sweep, line: seq<int>)
    requires SweptUpTo(s, line, |line|)
    ensures s == Sweep(Collapse(line), CollapseMarks(line), LineScore(line), Collapse(line) != line)
  {
    assert line[..|line|] == line;
    ChangedIff(line);
    assert s.cells == Collapse(line);
    assert s.merged == CollapseMarks(line);
  }

  // ---------------------------------------------------------------------------
  // What a move promises about one line.

  /** After a move, the tiles of a line lie against the edge with no gap. */
  lemma CollapsePacked(line: seq<int>)
    ensures Packed(Collapse(line))
  {
    MergeNonzero(TilesOf(line));
  }

  /** A move conserves the total value of a line: a merge replaces two tiles of
      value v by one of 2v. */
  lemma CollapseConservesSum(line: seq<int>)
    ensures Sum(Collapse(line)) == Sum(line)
  {
    var m := Merge(TilesOf(line));
    SumConcat(m, Zeros(|line| - |m|));
    SumZeros(|line| - |m|);
    SumMerge(TilesOf(line));
    SumTiles(line);
  }

  /** The score a line yields is the total value of the tiles marked as merged. */
  lemma LineScoreIsMarkedSum(line: seq<int>)
    ensures LineScore(line) == MarkedSum(Collapse(line), CollapseMarks(line))
  {
    var t := TilesOf(line);
    MergeScoreIsMarkedSum(t);
    MarkedSumPadded(Merge(t), MergeMarks(t), |line| - |Merge(t)|);
  }

  /** A move keeps every cell empty or a power of two at least 2, and its score is
      never negative. */
  lemma CollapseKeepsTileValues(line: seq<int>)
    requires WellFormedLine(line)
    ensures WellFormedLine(Collapse(line))
    ensures LineScore(line) >= 0
  {
    TilesAreTileValues(line);
    MergeKeepsTileValues(TilesOf(line));
  }

  /** A merge marker only ever sits on a tile. */
  lemma CollapseMarksOnTiles(line: seq<int>)
    ensures forall k | 0 <= k < |line| :: CollapseMarks(line)[k] ==> Collapse(line)[k] != 0
  {
    MergeNonzero(TilesOf(line));
  }

  /** Every merge removes one tile from the line. */
  lemma CollapseCount(line: seq<int>)
    ensures |TilesOf(Collapse(line))| == |TilesOf(line)| - LineMerges(line)
  {
    var t := TilesOf(line);
    MergeNonzero(t);
    TilesOfPadded(Merge(t), |line| - |Merge(t)|);
    MergeLength(t);
  }

  /** A line that changes frees its outermost cell, so the spawn always finds room. */
  lemma ChangedLineFreesLastCell(line: seq<int>)
    requires Collapse(line) != line
    ensures |line| > 0 && Collapse(line)[|line| - 1] == 0
  {
    ChangedIff(line);
    TilesFull(line);
  }

  /** A full line without equal neighbours does not change. */
  lemma StuckLineStays(line: seq<int>)
    requires forall k | 0 <= k < |line| :: line[k] != 0
    requires forall k | 0 <= k < |line| - 1 :: line[k] != line[k + 1]
    ensures Collapse(line) == line
  {
    TilesOfFull(line);
    MergeOfDistinct(line);
    assert line + Zeros(0) == line;
  }

  /** Two equal neighbours in a list of tiles make at least one merge. */
  lemma {:induction false} EqualPairMerges(t: seq<int>, k: nat)
    requires k + 1 < |t| && t[k] == t[k + 1]
    ensures MergeCount(t) > 0
  {
    if t[0] != t[1] {
      EqualPairMerges(t[1..], k - 1);
    }
  }

  /** An empty cell before a tile makes the line change. */
  lemma GapMoves(line: seq<int>, j: nat, k: nat)
    requires j < k < |line| && line[j] == 0 && line[k] != 0
    ensures Collapse(line) != line
  {
    ChangedIff(line);
  }

  /** A full line with two equal neighbours changes. */
  lemma EqualPairMoves(line: seq<int>, k: nat)
    requires forall j | 0 <= j < |line| :: line[j] != 0
    requires k + 1 < |line| && line[k] == line[k + 1]
    ensures Collapse(line) != line
  {
    TilesOfFull(line);
    EqualPairMerges(line, k);
    MergeLength(line);
    ChangedIff(line);
  }

  // ---------------------------------------------------------------------------
  // A merged tile does not merge again.

  /** The shape of the state while the engine visits index i: markers only on tiles
      already visited, none at or beyond i. */
  predicate MarkersBehind(s: Sweep, i: nat)
  {
    Shaped(s) && forall k | 0 <= k < |s.cells| :: s.merged[k] ==> k < i && s.cells[k] != 0
  }

  lemma {:induction false} AdvanceKeepsMarked(s: Sweep, t: nat, i: nat)
    requires MarkersBehind(s, i) && t <= i < |s.cells| && s.cells[t] != 0 && !s.merged[t]
    ensures MarkersBehind(Advance(s, t), i + 1)
    ensures forall k | 0 <= k < |s.cells| && s.merged[k] ::
              Advance(s, t).cells[k] == s.cells[k] && Advance(s, t).merged[k]
    decreases t
  {
    if t > 0 && (s.cells[t - 1] == 0 || (s.cells[t - 1] == s.cells[t] && !s.merged[t - 1])) {
      if s.cells[t - 1] == 0 {
        var s1 := Sweep(s.cells[t - 1 := s.cells[t]][t := 0], s.merged[t - 1 := s.merged[t]][t := false], s.gained, true);
        AdvanceKeepsMarked(s1, t - 1, i);
      }
    }
  }

  /** A tile that carries a merge marker keeps its value and its marker for the rest
      of the sweep: it neither moves nor merges again in the same move. */
  lemma {:induction false} MarkedTilesStay(s: Sweep, i: nat, k: nat)
    requires MarkersBehind(s, i) && k < |s.cells| && s.merged[k]
    ensures SweepFrom(s, i).cells[k] == s.cells[k] && SweepFrom(s, i).merged[k]
    decreases |s.cells| - i
  {
    if i < |s.cells| {
      var s1 := if s.cells[i] != 0 then Advance(s, i) else s;
      if s.cells[i] != 0 { AdvanceKeepsMarked(s, i, i); }
      MarkedTilesStay(s1, i + 1, k);
    }
  }

  /** Four equal tiles v become [2v, 2v, _, _] with 4v points: the first merged
      tile does not absorb the second pair. */
  lemma FourEqual(v: int)
    requires v != 0
    ensures SweepLine([v, v, v, v], Unmarked(4)) == Sweep([2 * v, 2 * v, 0, 0], [true, true, false, false], 4 * v, true)
  {
    var s := Sweep([v, v, v, v], Unmarked(4), 0, false);
    var s1 := Sweep([2 * v, 0, v, v], [true, false, false, false], 2 * v, true);
    var s2 := Sweep([2 * v, v, 0, v], [true, false, false, false], 2 * v, true);
    var s3 := Sweep([2 * v, 2 * v, 0, 0], [true, true, false, false], 4 * v, true);
    MergeAt(s, 1);
    assert Advance(s, 1) == s1;
    SlideThenStop(s1, 2);
    assert Advance(s1, 2) == s2;
    SlideThenMerge(s2, 3);
    assert Advance(s2, 3) == s3;
    assert SweepFrom(s, 1) == SweepFrom(s1, 2);
    assert SweepFrom(s1, 2) == SweepFrom(s2, 3);
    assert SweepFrom(s2, 3) == SweepFrom(s3, 4);
  }

  /** Tiles v, v, 2v, 2v become [2v, 4v, _, _] with 6v points: the tile 2v that
      the first merge produces does not merge again with the next 2v. */
  lemma TwoPairs(v: int)
    requires v != 0
    ensures SweepLine([v, v, 2 * v, 2 * v], Unmarked(4))
            == Sweep([2 * v, 4 * v, 0, 0], [true, true, false, false], 6 * v, true)
  {
    var s := Sweep([v, v, 2 * v, 2 * v], Unmarked(4), 0, false);
    var s1 := Sweep([2 * v, 0, 2 * v, 2 * v], [true, false, false, false], 2 * v, true);
    var s2 := Sweep([2 * v, 2 * v, 0, 2 * v], [true, false, false, false], 2 * v, true);
    var s3 := Sweep([2 * v, 4 * v, 0, 0], [true, true, false, false], 6 * v, true);
    MergeAt(s, 1);
    assert Advance(s, 1) == s1;
    SlideThenStop(s1, 2);
    assert Advance(s1, 2) == s2;
    SlideThenMerge(s2, 3);
    assert Advance(s2, 3) == s3;
    assert SweepFrom(s, 1) == SweepFrom(s1, 2);
    assert SweepFrom(s1, 2) == SweepFrom(s2, 3);
    assert SweepFrom(s2, 3) == SweepFrom(s3, 4);
  }

  /** [2, 2, 2, 2] becomes [4, 4, _, _] with 8 points, and [2, 2, 4, 4] becomes
      [4, 8, _, _] with 12 points. */
  lemma SmallestExamples()
    ensures SweepLine([2, 2, 2, 2], Unmarked(4)) == Sweep([4, 4, 0, 0], [true, true, false, false], 8, true)
    ensures SweepLine([2, 2, 4, 4], Unmarked(4)) == Sweep([4, 8, 0, 0], [true, true, false, false], 12, true)
  {
    FourEqual(2);
    TwoPairs(2);
  }

  /** The advance of a tile onto an equal unmarked neighbour. */
  lemma MergeAt(s: Sweep, t: nat)
    requires Shaped(s) && 0 < t < |s.cells| && s.cells[t] != 0
    requires s.cells[t - 1] == s.cells[t] && !s.merged[t - 1]
    ensures Advance(s, t) == Sweep(s.cells[t - 1 := 2 * s.cells[t]][t := 0], s.merged[t - 1 := true][t := false],
                                   s.gained + 2 * s.cells[t], true)
  {
  }

  /** Writing v into cell i changes the total by v minus what was there. */
  lemma {:induction false} SumUpdate(a: seq<int>, i: nat, v: int)
    requires i < |a|
    ensures Sum(a[i := v]) == Sum(a) - a[i] + v
  {
    if i > 0 {
      SumUpdate(a[1..], i - 1, v);
      assert a[i := v][1..] == a[1..][i - 1 := v];
    }
  }

  /** A merge step keeps the total value of the line, leaves a single marked tile
      of twice the value in front, and raises the gain by exactly that tile. */
  lemma MergeStep(s: Sweep, t: nat)
    requires Shaped(s) && 0 < t < |s.cells| && s.cells[t] != 0
    requires s.cells[t - 1] == s.cells[t] && !s.merged[t - 1]
    ensures Sum(Advance(s, t).cells) == Sum(s.cells)
    ensures Advance(s, t).merged[t - 1] && Advance(s, t).cells[t] == 0
    ensures Advance(s, t).gained == s.gained + Advance(s, t).cells[t - 1]
  {
    MergeAt(s, t);
    SumUpdate(s.cells, t - 1, 2 * s.cells[t]);
    SumUpdate(s.cells[t - 1 := 2 * s.cells[t]], t, 0);
  }

  /** The inner loop, sliding or merging, never changes the total value of the line. */
  lemma {:induction false} AdvanceKeepsSum(s: Sweep, t: nat)
    requires Shaped(s) && t < |s.cells| && s.cells[t] != 0
    ensures Sum(Advance(s, t).cells) == Sum(s.cells)
    decreases t
  {
    if t > 0 && (s.cells[t - 1] == 0 || (s.cells[t - 1] == s.cells[t] && !s.merged[t - 1])) {
      if s.cells[t - 1] == 0 {
        var s' := Sweep(s.cells[t - 1 := s.cells[t]][t := 0], s.merged[t - 1 := s.merged[t]][t := false], s.gained, true);
        SumUpdate(s.cells, t - 1, s.cells[t]);
        SumUpdate(s.cells[t - 1 := s.cells[t]], t, 0);
        AdvanceKeepsSum(s', t - 1);
      } else {
        MergeStep(s, t);
      }
    }
  }

  /** The advance of a tile over one empty cell onto a different tile. */
  lemma SlideThenStop(s: Sweep, t: nat)
    requires Shaped(s) && 1 < t < |s.cells| && s.cells[t] != 0 && s.cells[t - 1] == 0
    requires s.cells[t - 2] != 0 && (s.cells[t - 2] != s.cells[t] || s.merged[t - 2])
    ensures Advance(s, t) == Sweep(s.cells[t - 1 := s.cells[t]][t := 0], s.merged[t - 1 := s.merged[t]][t := false],
                                   s.gained, true)
  {
    var s1 := Sweep(s.cells[t - 1 := s.cells[t]][t := 0], s.merged[t - 1 := s.merged[t]][t := false], s.gained, true);
    assert Advance(s, t) == Advance(s1, t - 1);
  }

  /** The advance of a tile over one empty cell onto an equal unmarked tile. */
  lemma SlideThenMerge(s: Sweep, t: nat)
    requires Shaped(s) && 1 < t < |s.cells| && s.cells[t] != 0 && s.cells[t - 1] == 0
    requires s.cells[t - 2] == s.cells[t] && !s.merged[t - 2] && !s.merged[t]
    ensures Advance(s, t) == Sweep(s.cells[t - 2 := 2 * s.cells[t]][t := 0],
                                   s.merged[t - 2 := true][t - 1 := false][t := false],
                                   s.gained + 2 * s.cells[t], true)
  {
    var s1 := Sweep(s.cells[t - 1 := s.cells[t]][t := 0], s.merged[t - 1 := s.merged[t]][t := false], s.gained, true);
    assert Advance(s, t) == Advance(s1, t - 1);
    assert s1.cells[t - 2 := 2 * s.cells[t]][t - 1 := 0] == s.cells[t - 2 := 2 * s.cells[t]][t := 0];
    assert s1.merged[t - 2 := true][t - 1 := false] == s.merged[t - 2 := true][t - 1 := false][t := false];
  }
}
