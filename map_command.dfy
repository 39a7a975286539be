/** The `map` command's window builder: the grid of tiles around a centre
    cell that the renderer draws. The store is a parameter; drawing, saving
    and sending the image are not part of this module. */
module MapCommand {
  import opened Tiles
  import opened Grid
  import opened TileStore
  import Image

  /** The window range `v - VIEW_DISTANCE / 2 .. v + VIEW_DISTANCE / 2`. */
  function WindowRange(v: int): (int, int)
  {
    (v - Image.VIEW_DISTANCE / 2, v + Image.VIEW_DISTANCE / 2)
  }

  /** `grid` cuts `flat` into rows of n, in order, dropping a trailing part
      row shorter than n. */
  predicate ChunksOf(grid: seq<seq<Tile>>, flat: seq<Tile>, n: nat)
    requires n > 0
  {
    && |grid| == |flat| / n
    && (forall r :: 0 <= r < |grid| ==> |grid[r]| == n)
    && |grid| * n <= |flat|
    && Flatten(grid) == flat[..|grid| * n]
  }

  /** `map`: builds the window around (x, y). When every tile of the window
      is stored they are fetched in one batch and cut into rows; when none of
      the box is stored the window is synthesised from blank tiles; otherwise
      each cell is looked up and blank-filled. */
  method MapWindow(store: Store, x: int, y: int) returns (grid: seq<seq<Tile>>)
    ensures AllStored(store, WindowRange(x), WindowRange(y)) ==>
      ChunksOf(grid, GetMany(store, WindowRange(x), WindowRange(y)), Image.VIEW_DISTANCE as nat)
    ensures !AllStored(store, WindowRange(x), WindowRange(y)) && !AnyExist(store, WindowRange(x), WindowRange(y)) ==>
      grid == Rows(WindowRange(x).0, WindowRange(x).1, WindowRange(y).0, WindowRange(y).1, BlankTile)
    ensures !AllStored(store, WindowRange(x), WindowRange(y)) && AnyExist(store, WindowRange(x), WindowRange(y)) ==>
      grid == Rows(WindowRange(x).0, WindowRange(x).1, WindowRange(y).0, WindowRange(y).1, TileOrBlankIn(store))
  {
    var offsetBase := Image.VIEW_DISTANCE / 2;
    var xMin, xMax := x - offsetBase, x + offsetBase;
    var yMin, yMax := y - offsetBase, y + offsetBase;
    var xRange, yRange := (xMin, xMax), (yMin, yMax);
    var tilesExist := AllExist(store, xRange, yRange);
    if tilesExist {
      var flatTiles := GetMany(store, xRange, yRange);
      grid := ChunkTiles(flatTiles);
    } else if !AnyExist(store, xRange, yRange) {
      grid := BlankWindow(xMin, xMax, yMin, yMax);
    } else {
      grid := LookupWindow(store, xMin, xMax, yMin, yMax);
    }
  }

  /** The batch branch of `map`: pushes tiles into a row buffer and moves the
      buffer into the grid every VIEW_DISTANCE tiles. */
  method ChunkTiles(flatTiles: seq<Tile>) returns (grid: seq<seq<Tile>>)
    ensures ChunksOf(grid, flatTiles, Image.VIEW_DISTANCE as nat)
  {
    grid := [];
    var tileRow: seq<Tile> := [];
    var i := 0;
    for k := 0 to |flatTiles|
      invariant i == |tileRow| < Image.VIEW_DISTANCE
      invariant forall r :: 0 <= r < |grid| ==> |grid[r]| == Image.VIEW_DISTANCE
      invariant Flatten(grid) + tileRow == flatTiles[..k]
    {
      i := i + 1;
      tileRow := tileRow + [flatTiles[k]];
      if i % Image.VIEW_DISTANCE == 0 {
        FlattenSnoc(grid, tileRow);
        grid := grid + [tileRow];
        tileRow := [];
        i := 0;
      }
    }
    FlattenLength(grid, Image.VIEW_DISTANCE);
    assert flatTiles[..|grid| * Image.VIEW_DISTANCE] == Flatten(grid) by {
      assert flatTiles == Flatten(grid) + tileRow;
    }
  }

  /** The branch of `map` for a box with no stored tile: a blank tile per
      cell of the window, column by column. */
  method BlankWindow(xMin: int, xMax: int, yMin: int, yMax: int) returns (grid: seq<seq<Tile>>)
    requires xMin <= xMax && yMin <= yMax
    ensures grid == Rows(xMin, xMax, yMin, yMax, BlankTile)
  {
    grid := [];
    var cx := xMin;
    while cx < xMax
      invariant xMin <= cx <= xMax
      invariant grid == Rows(xMin, cx, yMin, yMax, BlankTile)
    {
      var tileRow: seq<Tile> := [];
      var cy := yMin;
      while cy < yMax
        invariant yMin <= cy <= yMax
        invariant tileRow == Row(cx, yMin, cy, BlankTile)
      {
        RowSnoc(cx, yMin, cy, BlankTile);
        var currentTile := BlankTile(cx, cy);
        tileRow := tileRow + [currentTile];
        cy := cy + 1;
      }
      grid := grid + [tileRow];
      cx := cx + 1;
    }
  }

  /** The branch of `map` for a partly stored window: each cell is looked
      up, and a blank tile stands in for a missing one. */
  method LookupWindow(store: Store, xMin: int, xMax: int, yMin: int, yMax: int) returns (grid: seq<seq<Tile>>)
    requires xMin <= xMax && yMin <= yMax
    ensures grid == Rows(xMin, xMax, yMin, yMax, TileOrBlankIn(store))
  {
    grid := [];
    var cx := xMin;
    while cx < xMax
      invariant xMin <= cx <= xMax
      invariant grid == Rows(xMin, cx, yMin, yMax, TileOrBlankIn(store))
    {
      var tileRow: seq<Tile> := [];
      var cy := yMin;
      while cy < yMax
        invariant yMin <= cy <= yMax
        invariant tileRow == Row(cx, yMin, cy, TileOrBlankIn(store))
      {
        RowSnoc(cx, yMin, cy, TileOrBlankIn(store));
        var currentTile: Tile;
        if !CheckTile(store, cx, cy) {
          currentTile := BlankTile(cx, cy);
        } else {
          currentTile := GetTile(store, cx, cy);
        }
        tileRow := tileRow + [currentTile];
        cy := cy + 1;
      }
      grid := grid + [tileRow];
      cx := cx + 1;
    }
  }

  /** Cutting a sequence into rows of n can be done one way only. */
  lemma ChunksUnique(g1: seq<seq<Tile>>, g2: seq<seq<Tile>>, flat: seq<Tile>, n: nat)
    requires n > 0 && ChunksOf(g1, flat, n) && ChunksOf(g2, flat, n)
    ensures g1 == g2
  {
    forall r | 0 <= r < |g1|
      ensures g1[r] == g2[r]
    {
      forall j | 0 <= j < n
        ensures g1[r][j] == g2[r][j]
      {
        FlattenAt(g1, n, r, j);
        FlattenAt(g2, n, r, j);
      }
    }
  }

  /** The window cell (i, j) of a per-cell or blank window is the tile of
      cell (x - 5 + i, y - 5 + j), carries those coordinates, and is the
      stored tile when there is one. */
  lemma WindowCell(store: Store, x: int, y: int, i: int, j: int)
    requires WellKeyed(store)
    requires 0 <= i < Image.VIEW_DISTANCE && 0 <= j < Image.VIEW_DISTANCE
    ensures var w := Rows(WindowRange(x).0, WindowRange(x).1, WindowRange(y).0, WindowRange(y).1, TileOrBlankIn(store));
      && |w| == Image.VIEW_DISTANCE && |w[i]| == Image.VIEW_DISTANCE
      && w[i][j].x == x - 5 + i && w[i][j].y == y - 5 + j
      && ((x - 5 + i, y - 5 + j) in store ==> w[i][j] == store[(x - 5 + i, y - 5 + j)])
      && ((x - 5 + i, y - 5 + j) !in store ==> !w[i][j].occupied)
  {
    assert WindowRange(x) == (x - 5, x + 5) && WindowRange(y) == (y - 5, y + 5);
    var w := Rows(x - 5, x + 5, y - 5, y + 5, TileOrBlankIn(store));
    assert w[i] == Row(x - 5 + i, y - 5, y + 5, TileOrBlankIn(store));
    assert w[i][j] == GetTile(store, x - 5 + i, y - 5 + j);
  }

  /** When nothing in the window box is stored, the per-cell window and the
      synthesised blank window coincide. */
  lemma EmptyWindowBranchesAgree(store: Store, x: int, y: int)
    requires !AnyExist(store, WindowRange(x), WindowRange(y))
    ensures Rows(WindowRange(x).0, WindowRange(x).1, WindowRange(y).0, WindowRange(y).1, TileOrBlankIn(store))
         == Rows(WindowRange(x).0, WindowRange(x).1, WindowRange(y).0, WindowRange(y).1, BlankTile)
  {
    var xr, yr := WindowRange(x), WindowRange(y);
    var w1 := Rows(xr.0, xr.1, yr.0, yr.1, TileOrBlankIn(store));
    var w2 := Rows(xr.0, xr.1, yr.0, yr.1, BlankTile);
    forall i | 0 <= i < |w1|
      ensures w1[i] == w2[i]
    {
      assert w1[i] == Row(xr.0 + i, yr.0, yr.1, TileOrBlankIn(store));
      assert w2[i] == Row(xr.0 + i, yr.0, yr.1, BlankTile);
      forall j | 0 <= j < |w1[i]|
        ensures w1[i][j] == w2[i][j]
      {
        assert InClosed((xr.0 + i, yr.0 + j), xr, yr);
      }
    }
  }

  /** As written, the batch branch asks for the closed box `x - 5 ..= x + 5`,
      eleven cells a side, although the presence test covered the half-open
      box of ten. With every one of those 121 cells stored, the fetch returns
      121 tiles and the window is cut into 12 rows, not 10. */
  lemma FullBoxOverflows(store: Store, x: int, y: int, grid: seq<seq<Tile>>)
    requires forall a, b :: x - 5 <= a <= x + 5 && y - 5 <= b <= y + 5 ==> (a, b) in store
    requires ChunksOf(grid, GetMany(store, WindowRange(x), WindowRange(y)), Image.VIEW_DISTANCE as nat)
    ensures AllStored(store, WindowRange(x), WindowRange(y))
    ensures |GetMany(store, WindowRange(x), WindowRange(y))| == 121
    ensures |grid| == 12
  {
    var cs := Cells(x - 5, x + 6, y - 5, y + 6, Pair);
    forall c | c in cs
      ensures c in store
    {
      CellsMember(x - 5, x + 6, y - 5, y + 6, Pair, c);
    }
    FetchAllPresent(store, cs);
    CellsLength(x - 5, x + 6, y - 5, y + 6, Pair);
  }

  /** The batch fetch the presence test calls for: the half-open window box,
      written as the inclusive range `x - 5 ..= x + 4`. */
  function WindowFetch(store: Store, x: int, y: int): seq<Tile>
  {
    GetMany(store, (WindowRange(x).0, WindowRange(x).1 - 1), (WindowRange(y).0, WindowRange(y).1 - 1))
  }

  /** With the corrected range, a fully stored window fetches exactly the 100
      window tiles in x-major order, and its cut into rows of ten is the
      same grid the per-cell branch builds. */
  lemma WindowFetchIsWindow(store: Store, x: int, y: int)
    requires AllStored(store, WindowRange(x), WindowRange(y))
    ensures |WindowFetch(store, x, y)| == 100
    ensures ChunksOf(Rows(WindowRange(x).0, WindowRange(x).1, WindowRange(y).0, WindowRange(y).1, TileOrBlankIn(store)),
                     WindowFetch(store, x, y), Image.VIEW_DISTANCE as nat)
  {
    var xr, yr := WindowRange(x), WindowRange(y);
    var w := Rows(xr.0, xr.1, yr.0, yr.1, TileOrBlankIn(store));
    FetchStoredCells(store, xr.0, xr.1, yr.0, yr.1);
    FlattenRows(xr.0, xr.1, yr.0, yr.1, TileOrBlankIn(store));
    assert xr == (x - 5, x + 5) && yr == (y - 5, y + 5);
    forall k | 0 <= k < |w|
      ensures |w[k]| == 10
    {
      assert w[k] == Row(xr.0 + k, yr.0, yr.1, TileOrBlankIn(store));
    }
    FlattenLength(w, 10);
    assert WindowFetch(store, x, y) == Flatten(w);
  }
}
