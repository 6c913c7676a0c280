# 2048 game engine, modelled in Dafny

This project models the engine of a 2048 game for Android:
- the `GameLogic` class, which holds a 4x4 grid of tiles, the score, the best score and the win and game-over flags;
- the `Tile` class;
- the pure part of the view: the colour bucket of a tile value and the text colour of each bucket.

The files:

- `Lines.dfy` (module `Lines`) is one line of the board, listed from the edge the tiles move toward. It gives two descriptions of a move and proves that they agree on every line without merge markers, which is every line at the start of a move (`SweepMatchesCollapse`):
  - the *sweep* (`Advance`, `SweepFrom`, `SweepLine`) follows the engine's loops step by step;
  - the *collapse* (`TilesOf`, `Merge`, `Collapse`) is the usual definition of a 2048 move: drop the gaps, merge equal neighbours pairwise from the edge, pad with empty cells.

  Its lemmas cover packing, conservation of value, the score, merge markers and the examples.
- `Boards.dfy` (module `Boards`) is the whole board:
  - the four directions;
  - how each direction numbers the cells of its lines;
  - `Slid`, the board after every line has collapsed one after the other;
  - the predicates `Movable` (an empty cell or two equal neighbours) and `Has2048`;
  - tile counts and sums.
- `Engine.dfy` (module `Engine`) is the `GameLogic` class:
  - its grid is an `array2<Cell>`, where a `Cell` is `Empty` or `Tile(value, merged)`;
  - every source method is a Dafny method with the same loops;
  - each method is proved against the functions of `Lines` and `Boards`.

  The four directional routines differ only in how they number the cells of a line, so they are one method, `MoveTiles`, with the direction as a parameter. A ghost field `cells` holds the grid as a value. It is written together with the array at every write, so that contracts can speak of the board as a sequence.
- `TileObject.dfy` (module `TileObject`) is the `Tile` class with its merge marker and `copy`.
- `GameView.dfy` (module `View`) has the colour bucket `ColorIndex` and the text-colour table.

The class invariant `GameLogic.Valid()` says:
- the array and the ghost grid agree;
- every tile holds a power of two of at least 2;
- the score is not negative;
- `gameOver` holds exactly when the board has no empty cell and no two equal neighbours.

On a board with at least one tile, that is exactly when no direction changes the board (`Boards.StuckIffFixed`). The board without tiles is the one exception: it counts as movable, yet no direction changes it (`Boards.EmptyBoardIsFixed`). `StartNewGame` places two tiles, and every move that changes the board adds one after its merges.

Once a game is over, every move leaves the whole state unchanged.

## Model

| member | source | states |
|---|---|---|
| Lines.DoubleIsTileValue | app/src/main/java/com/example/game2048/GameLogic.kt:129-130 | the doubled value of a merge is again a power of two of at least 2 |
| Lines.SweepMatchesCollapse | app/src/main/java/com/example/game2048/GameLogic.kt:111-141 | on a line without markers, the engine's sweep ends in the collapse of the line: the collapsed cells, a marker on exactly the merged tiles, a gain equal to the line's score, and "moved" exactly when the line changed |
| Lines.CollapsePacked | app/src/main/java/com/example/game2048/GameLogic.kt:116-126 | after a move the tiles of a line lie against the edge with no gap |
| Lines.CollapseConservesSum | app/src/main/java/com/example/game2048/GameLogic.kt:129-132 | a move keeps the total value of a line |
| Lines.LineScoreIsMarkedSum | app/src/main/java/com/example/game2048/GameLogic.kt:129-133 | the score of a line is the sum of the values of the merged tiles |
| Lines.CollapseKeepsTileValues | app/src/main/java/com/example/game2048/GameLogic.kt:129-130 | every cell stays empty or a power of two of at least 2, and the score of a line is never negative |
| Lines.CollapseMarksOnTiles | app/src/main/java/com/example/game2048/GameLogic.kt:131 | a merge marker only sits on a tile |
| Lines.CollapseCount | app/src/main/java/com/example/game2048/GameLogic.kt:129-132 | every merge removes exactly one tile from the line |
| Lines.ChangedIff | app/src/main/java/com/example/game2048/GameLogic.kt:116-134 | a line changes exactly when it has an empty cell before a tile or some merge happens |
| Lines.StillLineScoresNothing | app/src/main/java/com/example/game2048/GameLogic.kt:128-134 | a line that does not change earns no points, loses no tile and gets no marker |
| Lines.ChangedLineFreesLastCell | app/src/main/java/com/example/game2048/GameLogic.kt:116-126 | a line that changes ends with its outermost cell empty |
| Lines.StuckLineStays | app/src/main/java/com/example/game2048/GameLogic.kt:116-119 | a full line without equal neighbours does not change |
| Lines.GapMoves | app/src/main/java/com/example/game2048/GameLogic.kt:116-126 | an empty cell before a tile makes the line change |
| Lines.EqualPairMoves | app/src/main/java/com/example/game2048/GameLogic.kt:117-119 | a full line with two equal neighbours changes |
| Lines.MarkedTilesStay | app/src/main/java/com/example/game2048/GameLogic.kt:118-119 | a tile with a merge marker keeps its value and its marker for the rest of the sweep, so it never merges twice in one move |
| Lines.FourEqual | app/src/main/java/com/example/game2048/GameLogic.kt:111-141 | four equal tiles v give [2v, 2v, empty, empty], both marked, with 4v points |
| Lines.TwoPairs | app/src/main/java/com/example/game2048/GameLogic.kt:111-141 | tiles v, v, 2v, 2v give [2v, 4v, empty, empty] with 6v points; the new 2v does not merge with the next 2v |
| Lines.SmallestExamples | app/src/main/java/com/example/game2048/GameLogic.kt:111-141 | [2, 2, 2, 2] gives [4, 4, empty, empty] with 8 points and [2, 2, 4, 4] gives [4, 8, empty, empty] with 12 points |
| Lines.MergeStep | app/src/main/java/com/example/game2048/GameLogic.kt:128-135 | a merge step keeps the total value of the line and leaves one marked tile in front with its own cell emptied; the score grows by exactly the value of that new tile |
| Lines.AdvanceKeepsSum | app/src/main/java/com/example/game2048/GameLogic.kt:116-137 | the inner loop, whether it slides a tile over empty cells or merges it, never changes the total value of the line |
| Boards.Coordinates | app/src/main/java/com/example/game2048/GameLogic.kt:111-237 | the numbering of the cells by line and position inverts the numbering by row and column, for each of the four directions |
| Boards.SlidCell | app/src/main/java/com/example/game2048/GameLogic.kt:66-87 | after the lines of a direction have collapsed one after the other, each cell holds what its own line collapsed to, with that line's marker |
| Boards.SlidLines | app/src/main/java/com/example/game2048/GameLogic.kt:66-87 | line i of the slid board, and of its markers, is the collapse of line i and nothing else |
| Boards.SlidChanges | app/src/main/java/com/example/game2048/GameLogic.kt:66-87 | the board changes exactly when one of its lines changes |
| Boards.SlidHasEmpty | app/src/main/java/com/example/game2048/GameLogic.kt:89-90 | a move that changes the board leaves an empty cell for the new tile |
| Boards.StuckBoardIsFixed | app/src/main/java/com/example/game2048/GameLogic.kt:269-294 | on a board with no empty cell and no equal neighbours, no direction changes anything |
| Boards.MovableBoardMoves | app/src/main/java/com/example/game2048/GameLogic.kt:269-294 | on a board with a tile, an empty cell or two equal neighbours means some direction changes the board |
| Boards.StuckIffFixed | app/src/main/java/com/example/game2048/GameLogic.kt:269-294 | on a board with a tile, the game cannot go on exactly when no direction changes the board |
| Boards.EmptyBoardIsFixed | app/src/main/java/com/example/game2048/GameLogic.kt:269-280 | the board without tiles counts as movable, yet no direction changes it |
| Boards.SlidWellFormed | app/src/main/java/com/example/game2048/GameLogic.kt:129-133 | a move keeps every cell empty or a power of two of at least 2 and earns a score that is not negative |
| Boards.SlidMarksOnTiles | app/src/main/java/com/example/game2048/GameLogic.kt:131 | after a move, markers sit only on tiles |
| Boards.SlidCount | app/src/main/java/com/example/game2048/GameLogic.kt:129-132 | a move leaves as many tiles as before minus the number of merges |
| Boards.SlidTotal | app/src/main/java/com/example/game2048/GameLogic.kt:129-132 | a move keeps the total value of the board |
| Boards.StillBoardScoresNothing | app/src/main/java/com/example/game2048/GameLogic.kt:133 | a move in which no line changes earns nothing and marks no tile |
| Boards.FullBoard | app/src/main/java/com/example/game2048/GameLogic.kt:240-250 | the board has an empty cell exactly when it holds fewer than 16 tiles |
| Boards.PlaceCount | app/src/main/java/com/example/game2048/GameLogic.kt:253 | a tile written into an empty cell adds one tile |
| Boards.PlaceWellFormed | app/src/main/java/com/example/game2048/GameLogic.kt:252-253 | a new tile of 2 or 4 keeps every cell empty or a tile value |
| Boards.SpawnCount | app/src/main/java/com/example/game2048/GameLogic.kt:89-90 | after a move and its spawn the board holds the old tile count minus the merges plus one |
| Engine.EmptyCellsListed | app/src/main/java/com/example/game2048/GameLogic.kt:240-248 | the list built by the spawn holds exactly the empty cells, so it is empty exactly when the grid is full |
| Engine.SpawnedTile | app/src/main/java/com/example/game2048/GameLogic.kt:253 | a fresh unmarked tile of 2 or 4 on an empty cell: the board gets that value there, no marker there, one tile more, and keeps its cell invariants |
| Engine.GameLogic.constructor | app/src/main/java/com/example/game2048/GameLogic.kt:6-14 | a new engine has an empty grid, zero scores and every flag off, and satisfies the class invariant |
| Engine.GameLogic.GetTileAt | app/src/main/java/com/example/game2048/GameLogic.kt:33-35 | returns the cell at (row, col); under the invariant a tile holds a power of two of at least 2 |
| Engine.GameLogic.GetScore | app/src/main/java/com/example/game2048/GameLogic.kt:37 | returns the score |
| Engine.GameLogic.GetBestScore | app/src/main/java/com/example/game2048/GameLogic.kt:39 | returns the best score |
| Engine.GameLogic.SetBestScore | app/src/main/java/com/example/game2048/GameLogic.kt:41-43 | sets the best score to any value; the only operation that can lower it |
| Engine.GameLogic.HasWon | app/src/main/java/com/example/game2048/GameLogic.kt:45 | returns the win flag |
| Engine.GameLogic.IsGameOver | app/src/main/java/com/example/game2048/GameLogic.kt:47 | returns the game-over flag, which under the invariant holds exactly when the board has no empty cell and no two equal neighbours |
| Engine.GameLogic.IsContinuingAfterWin | app/src/main/java/com/example/game2048/GameLogic.kt:49 | returns the continue-after-win flag |
| Engine.GameLogic.ContinueAfterWin | app/src/main/java/com/example/game2048/GameLogic.kt:51-53 | sets the continue-after-win flag and nothing else |
| Engine.GameLogic.SetCell | app/src/main/java/com/example/game2048/GameLogic.kt:123-124 | a write into cell k of line i changes that cell of that line and nothing else of the grid |
| Engine.GameLogic.AdvanceIsStep | app/src/main/java/com/example/game2048/GameLogic.kt:116-119 | the while condition on the grid is the sweep's condition: next cell empty, or equal and without a marker |
| Engine.GameLogic.SlideTile | app/src/main/java/com/example/game2048/GameLogic.kt:121-126 | the tile, with its marker, moves one cell toward the edge and its old cell empties |
| Engine.GameLogic.MergeTiles | app/src/main/java/com/example/game2048/GameLogic.kt:128-134 | a new marked tile of twice the value replaces the next cell, the old cell empties, and the score grows by the new value |
| Engine.GameLogic.AdvanceTile | app/src/main/java/com/example/game2048/GameLogic.kt:115-137 | the inner loop moves the tile exactly as the sweep's Advance does and adds its gain to the score |
| Engine.GameLogic.MoveTiles | app/src/main/java/com/example/game2048/GameLogic.kt:111-237 | each directional routine changes only its own line, as the sweep of that line says, adds its gain to the score, and reports whether a tile slid or merged |
| Engine.GameLogic.MoveLines | app/src/main/java/com/example/game2048/GameLogic.kt:66-87 | on a grid without markers, after every line of the direction the grid holds every line swept, the score has grown by the points of the slide, and the result says whether any line changed |
| Engine.GameLogic.ResetMergeFlags | app/src/main/java/com/example/game2048/GameLogic.kt:295-301 | clears every merge marker and keeps every value |
| Engine.GameLogic.AddRandomTile | app/src/main/java/com/example/game2048/GameLogic.kt:239-255 | a tile spawns exactly when some cell is empty; it is a fresh unmarked 2 or 4 on an empty cell and nothing else changes; a full grid stays as it is |
| Engine.GameLogic.CheckForWin | app/src/main/java/com/example/game2048/GameLogic.kt:257-267 | the win flag becomes its old value or "some cell holds 2048" |
| Engine.GameLogic.CanMove | app/src/main/java/com/example/game2048/GameLogic.kt:269-294 | true exactly when the board has an empty cell or two equal horizontal or vertical neighbours |
| Engine.GameLogic.ClearGrid | app/src/main/java/com/example/game2048/GameLogic.kt:18-22 | every cell becomes empty |
| Engine.GameLogic.ResetGame | app/src/main/java/com/example/game2048/GameLogic.kt:18-27 | an empty grid, score 0, every flag off |
| Engine.GameLogic.SpawnTile | app/src/main/java/com/example/game2048/GameLogic.kt:250-253 | on a board with an empty cell, one tile of 2 or 4 appears on a cell that showed 0, with no marker, and the tile count grows by one |
| Engine.GameLogic.StartNewGame | app/src/main/java/com/example/game2048/GameLogic.kt:16-31 | a new game has score 0, every flag off, exactly two tiles, each 2 or 4, no markers, the best score unchanged, and the class invariant |
| Engine.GameLogic.UpdateStatus | app/src/main/java/com/example/game2048/GameLogic.kt:93-105 | the win flag is sticky and set when 2048 is on the board; game over exactly when the board has no empty cell and no two equal neighbours; the best score becomes the larger of itself and the score |
| Engine.GameLogic.FinishMove | app/src/main/java/com/example/game2048/GameLogic.kt:89-106 | after a changing move: one new tile of 2 or 4 on a cell that was empty, one tile more, and the flags and the best score as UpdateStatus says |
| Engine.GameLogic.SlideBoard | app/src/main/java/com/example/game2048/GameLogic.kt:57-87 | the board becomes Slid of the old board with SlidMarks as markers, the score grows by a non-negative slide score, and the result says whether the board changed; an unchanged board keeps its score and gets no marker |
| Engine.GameLogic.Move | app/src/main/java/com/example/game2048/GameLogic.kt:55-109 | keeps the invariant. A finished game refuses the move and changes nothing. Otherwise the result says whether the board slid. No slide means no spawn, no score and no flag change. A slide never lowers the score, spawns one tile of 2 or 4 on a cell that is empty after the slide, leaves the old tile count minus merges plus one, keeps won sticky, sets gameOver exactly when the new board has no empty cell and no two equal neighbours, and raises the best score to the score |
| TileObject.Tile.constructor | app/src/main/java/com/example/game2048/Tile.kt:3-4 | a new tile has the given value and no merge marker |
| TileObject.Tile.Copy | app/src/main/java/com/example/game2048/Tile.kt:6-8 | a fresh tile with the same value and no merge marker |
| TileObject.Tile.MarkMerged | app/src/main/java/com/example/game2048/GameLogic.kt:131 | sets the merge marker and keeps the value |
| TileObject.Tile.ClearMerged | app/src/main/java/com/example/game2048/GameLogic.kt:298 | clears the merge marker and keeps the value |
| TileObject.CopyIsSeparate | app/src/main/java/com/example/game2048/Tile.kt:6-8 | changing a copy's value and marker leaves the original as it was |
| View.ColorIndex | app/src/main/java/com/example/game2048/GameView.kt:122-135 | the bucket is always below 12, so every table index is in bounds; a bucket i below 11 means the value is 2^(i+1); bucket 11 means the value is none of 2, 4, ..., 2048 |
| View.PowerBucket | app/src/main/java/com/example/game2048/GameView.kt:122-133 | the value 2^k gets the bucket k - 1, for k from 1 to 11 |
| View.TileBucket | app/src/main/java/com/example/game2048/GameView.kt:122-135 | a tile value gets one of the first eleven buckets exactly when it is at most 2048; 4096 and above get the overflow bucket |
| View.BucketsDistinct | app/src/main/java/com/example/game2048/GameView.kt:122-133 | two different tile values up to 2048 get different buckets |
| View.DarkText | app/src/main/java/com/example/game2048/GameView.kt:47-51 | the text is dark exactly on the tiles 2 and 4 |
| View.TextColors | app/src/main/java/com/example/game2048/GameView.kt:47-51 | the table has twelve entries: dark for buckets 0 and 1, light for the other ten |

## Left out

- The random choices of `addRandomTile` become nondeterministic choices: any empty cell, and either 2 or 4. The probabilities, including the 0.9 threshold for a 2, are not modelled.
- The `gridCopy` built in `move` (GameLogic.kt:60-64) is never read, so it is not modelled.
- `mergedFrom` is one flag, "present or not", because the engine only tests it against null. What the array holds is not modelled. As written, its first element is the new tile itself, since the cell was overwritten on the line before; that has no effect on the game.
- The grid holds cell values rather than references to `Tile` objects. No tile object ever sits in two cells, and the engine only writes the merge marker of tiles on the grid, so nothing observable depends on identity. `TileObject.Tile` models the tile object on its own.
- The `Context` constructor parameter of `GameLogic` is not used by the engine and is left out.
- Engine.GameLogic.GetTileAt: an index outside the grid throws in the source. Here it is a precondition.
- Engine.GameLogic.MergeTiles: the score is an unbounded integer, and the 32-bit wrap-around of the source's `Int` is not modelled. A 4x4 game cannot come near that bound.
- The view's drawing, its tile colours, the colour and dimension resource lookups and the size table `textSizes` are left out. Colours are modelled as the two shades dark and light.
- The activity that hosts the view, its buttons, its persistence of the best score and its dialogs are not part of this model.
- `continueAfterWin` is only a flag with a getter and a setter. It never affects a move.
