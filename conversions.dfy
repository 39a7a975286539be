/** `split_tiles`: cuts a flat list of tiles into `size` rows of `size`
    tiles by repeatedly removing the head of the list. */
module Conversions {
  import opened Tiles
  import opened Grid

  /** Consumes the first size * size tiles, row by row. Taking the head of
      an empty list panics, so the list must hold size * size tiles; a size
      of zero or less yields no rows and demands nothing. */
  method SplitTiles(tiles: seq<Tile>, size: int) returns (tileRows: seq<seq<Tile>>)
    requires size <= 0 || size * size <= |tiles|
    ensures size <= 0 ==> tileRows == []
    ensures size > 0 ==> |tileRows| == size
    ensures forall r :: 0 <= r < |tileRows| ==> |tileRows[r]| == size
    ensures size > 0 ==> size * size <= |tiles| && Flatten(tileRows) == tiles[..size * size]
  {
    var rest := tiles;
    tileRows := [];
    var i := 0;
    while i < size
      invariant 0 <= i && (size > 0 ==> i <= size) && (size <= 0 ==> i == 0)
      invariant |tileRows| == i
      invariant forall r :: 0 <= r < |tileRows| ==> |tileRows[r]| == size
      invariant Flatten(tileRows) + rest == tiles
      invariant |Flatten(tileRows)| == i * size
    {
      RowFits(i, size);
      var tileRow: seq<Tile> := [];
      var j := 0;
      while j < size
        invariant 0 <= j <= size
        invariant |tileRow| == j
        invariant Flatten(tileRows) + tileRow + rest == tiles
      {
        tileRow := tileRow + [rest[0]];
        rest := rest[1..];
        j := j + 1;
      }
      FlattenSnoc(tileRows, tileRow);
      tileRows := tileRows + [tileRow];
      i := i + 1;
    }
    if size > 0 {
      assert tiles[..size * size] == Flatten(tileRows);
    }
  }

  /** Room for row i: rows 0..i end within size * size tiles. */
  lemma RowFits(i: int, size: int)
    requires 0 <= i < size
    ensures i * size + size <= size * size
    ensures (i + 1) * size == i * size + size
  {
    MulMono(i + 1, size, size);
  }
}
