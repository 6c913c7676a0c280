/** A tile object: its value and its merge marker. The marker stands for the
    list of the two tiles a merge was made from; only whether that list is
    present matters to the game, so it is one flag. */
module TileObject {
  class Tile {
    var value: int
    /** Set when the tile was made by a merge during the current move. */
    var merged: bool

    /** A new tile carries no merge marker. */
    constructor (value: int)
      ensures this.value == value && !merged
    {
      this.value := value;
      merged := false;
    }

    /** A fresh tile with the same value and without the merge marker, whatever
        the marker of this tile. */
    method Copy() returns (t: Tile)
      ensures fresh(t) && t.value == value && !t.merged
    {
      t := new Tile(value);
    }

    /** What the merge branch of a move records on the tile it creates. */
    method MarkMerged()
      modifies this`merged
      ensures merged && value == old(value)
    {
      merged := true;
    }

    /** What clearing the markers at the start of a move does to a tile. */
    method ClearMerged()
      modifies this`merged
      ensures !merged && value == old(value)
    {
      merged := false;
    }
  }

  /** A copy is a separate object: changing the copy leaves the original as it was. */
  method CopyIsSeparate(t: Tile, v: int) returns (c: Tile)
    ensures fresh(c) && c.value == v && c.merged
    ensures t.value == old(t.value) && t.merged == old(t.merged)
  {
    c := t.Copy();
    c.value := v;
    c.MarkMerged();
  }
}
