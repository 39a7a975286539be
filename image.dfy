/** The map raster drawn by `draw_map`: canvas layout, the clumped
    background texture and the tile borders. The noise-and-colour step that
    picks a background colour is the parameter `bg`, a function of the
    clumped pixel coordinates; the coordinate labels drawn as text are not
    part of this model. */
module Image {
  import opened Tiles

  const TILE_SIZE: int := 150
  const BORDER_SIZE: int := 5
  const VIEW_DISTANCE: int := 10
  const PIXEL_CLUMPING: int := 35

  /** Pixels per tile block: a tile plus one border width. */
  const BLOCK: int := TILE_SIZE + BORDER_SIZE

  newtype u8 = v: int | 0 <= v < 256

  datatype Rgb = Rgb(r: u8, g: u8, b: u8)

  const BLACK: Rgb := Rgb(0, 0, 0)
  /** Border of a tile held by the viewing faction (sky blue). */
  const FRIENDLY: Rgb := Rgb(135, 206, 235)
  /** Border of a tile held by another faction (red). */
  const HOSTILE: Rgb := Rgb(255, 0, 0)

  /** Border colour of a tile seen by `viewer`: black when unoccupied, sky
      blue when the viewer holds it, red when another faction does. */
  function BorderColour(t: Tile, viewer: string): (c: Rgb)
  {
    if t.occupied then
      if viewer == t.faction then FRIENDLY else HOSTILE
    else BLACK
  }

  /** The noise sample coordinate of pixel p: p rounded down to a multiple
      of PIXEL_CLUMPING (pixel coordinates are never negative, so the
      source's truncating division and Dafny's agree). */
  function Clump(p: nat): nat
  {
    PIXEL_CLUMPING * (p / PIXEL_CLUMPING)
  }

  /** Canvas width: one block per grid column plus a closing border. */
  function CanvasWidth(grid: seq<seq<Tile>>): nat
  {
    |grid| * BLOCK + BORDER_SIZE
  }

  /** Canvas height, taken from the first column only. */
  function CanvasHeight(grid: seq<seq<Tile>>): nat
    requires |grid| > 0
  {
    |grid[0]| * BLOCK + BORDER_SIZE
  }

  /** The grids `draw_map` draws without panicking: at least one column
      (the height reads column 0), no column longer than column 0 (its
      borders would leave the canvas), and no empty column (the background
      loop bound `len - 1` underflows on an empty column after the first,
      the label loop bound `grid[0].len() - 1` on an empty first column). */
  predicate Drawable(grid: seq<seq<Tile>>)
  {
    && |grid| > 0
    && (forall x :: 0 <= x < |grid| ==> |grid[x]| <= |grid[0]|)
    && (forall x :: 0 <= x < |grid| ==> |grid[x]| >= 1)
  }

  /** Index of the tile block that pixel coordinate p (p >= BORDER_SIZE) lies in. */
  function Block(p: int): int
  {
    (p - BORDER_SIZE) / BLOCK
  }

  /** Offset of p inside its block. */
  function Local(p: int): int
  {
    (p - BORDER_SIZE) % BLOCK
  }

  /** Block offsets on a tile's border ring. */
  predicate OnRing(lx: int, ly: int)
  {
    lx < BORDER_SIZE || ly < BORDER_SIZE || lx >= TILE_SIZE || ly >= TILE_SIZE
  }

  predicate HasTile(grid: seq<seq<Tile>>, tx: int, ty: int)
  {
    0 <= tx < |grid| && 0 <= ty < |grid[tx]|
  }

  /** The tiles whose background is painted: every column but the first,
      every row but the last of that column. */
  predicate HasBackground(grid: seq<seq<Tile>>, tx: int, ty: int)
  {
    1 <= tx < |grid| && 0 <= ty < |grid[tx]| - 1
  }

  /** Tile b comes before `upto` in the loops' x-major order. */
  predicate Before(b: (int, int), upto: (int, int))
  {
    b.0 < upto.0 || (b.0 == upto.0 && b.1 < upto.1)
  }

  /** Final colour of pixel (px, py): the border colour of the tile whose
      ring it lies on, else the background colour of its clump when its
      tile is painted, else black. */
  function MapPixel(grid: seq<seq<Tile>>, viewer: string, bg: (int, int) -> Rgb, px: int, py: int): Rgb
  {
    if px < BORDER_SIZE || py < BORDER_SIZE then BLACK
    else
      var tx, ty := Block(px), Block(py);
      if OnRing(Local(px), Local(py)) && HasTile(grid, tx, ty) then BorderColour(grid[tx][ty], viewer)
      else if Local(px) < TILE_SIZE && Local(py) < TILE_SIZE && HasBackground(grid, tx, ty) then bg(Clump(px), Clump(py))
      else BLACK
  }

  /** The canvas after the background pass has painted the tiles before
      `bgUpto` and the border pass has drawn the tiles before `borderUpto`. */
  ghost function Stage(grid: seq<seq<Tile>>, viewer: string, bg: (int, int) -> Rgb, px: int, py: int,
                       bgUpto: (int, int), borderUpto: (int, int)): Rgb
  {
    if px < BORDER_SIZE || py < BORDER_SIZE then BLACK
    else
      var tx, ty := Block(px), Block(py);
      if OnRing(Local(px), Local(py)) && HasTile(grid, tx, ty) && Before((tx, ty), borderUpto) then
        BorderColour(grid[tx][ty], viewer)
      else if Local(px) < TILE_SIZE && Local(py) < TILE_SIZE && HasBackground(grid, tx, ty) && Before((tx, ty), bgUpto) then
        bg(Clump(px), Clump(py))
      else BLACK
  }

  predicate InRect(px: int, py: int, x0: int, y0: int, w: int, h: int)
  {
    x0 <= px < x0 + w && y0 <= py < y0 + h
  }

  /** A pixel coordinate past the leading border splits into a block index
      and an offset below BLOCK. */
  lemma BlockLocal(p: int)
    requires p >= BORDER_SIZE
    ensures p == BORDER_SIZE + Block(p) * BLOCK + Local(p)
    ensures 0 <= Local(p) < BLOCK && 0 <= Block(p)
  {
  }

  /** Each pixel lies in exactly one tile block: a pixel written for tile b
      at offset l < BLOCK belongs to block b, at offset l, and to no other. */
  lemma PixelOwner(p: int, b: int, l: int)
    requires 0 <= b && 0 <= l < BLOCK && p == b * BLOCK + l + BORDER_SIZE
    ensures Block(p) == b && Local(p) == l
  {
    BlockLocal(p);
    assert (Block(p) - b) * BLOCK == l - Local(p);
  }

  /** The clumped coordinate is the one multiple of PIXEL_CLUMPING at or
      below p within PIXEL_CLUMPING of it. */
  lemma ClumpUnique(p: nat, r: int)
    ensures r == Clump(p) <==> r % PIXEL_CLUMPING == 0 && r <= p < r + PIXEL_CLUMPING
  {
    var q := p / PIXEL_CLUMPING;
    assert p == PIXEL_CLUMPING * q + p % PIXEL_CLUMPING;
    if r % PIXEL_CLUMPING == 0 && r <= p < r + PIXEL_CLUMPING {
      var k := r / PIXEL_CLUMPING;
      assert r == PIXEL_CLUMPING * k;
      assert PIXEL_CLUMPING * (k - q) <= p % PIXEL_CLUMPING;
      assert PIXEL_CLUMPING * (q - k) < PIXEL_CLUMPING;
    }
  }

  /** Every tile block the border pass draws lies inside the canvas. */
  lemma TileBlockInCanvas(grid: seq<seq<Tile>>, x: int, y: int)
    requires Drawable(grid) && HasTile(grid, x, y)
    ensures x * BLOCK + BLOCK + BORDER_SIZE <= CanvasWidth(grid)
    ensures y * BLOCK + BLOCK + BORDER_SIZE <= CanvasHeight(grid)
  {
  }

  /** Two background pixels of the same clump get the same colour. */
  lemma SameClumpSameColour(grid: seq<seq<Tile>>, viewer: string, bg: (int, int) -> Rgb,
                            px: int, py: int, qx: int, qy: int)
    requires px >= BORDER_SIZE && py >= BORDER_SIZE && qx >= BORDER_SIZE && qy >= BORDER_SIZE
    requires px / PIXEL_CLUMPING == qx / PIXEL_CLUMPING && py / PIXEL_CLUMPING == qy / PIXEL_CLUMPING
    requires !OnRing(Local(px), Local(py)) && HasBackground(grid, Block(px), Block(py))
    requires !OnRing(Local(qx), Local(qy)) && HasBackground(grid, Block(qx), Block(qy))
    ensures MapPixel(grid, viewer, bg, px, py) == MapPixel(grid, viewer, bg, qx, qy)
  {
  }

  /** The first column's tiles get no background: inside the ring they stay black. */
  lemma FirstColumnBlack(grid: seq<seq<Tile>>, viewer: string, bg: (int, int) -> Rgb, px: int, py: int)
    requires BORDER_SIZE <= px < BLOCK + BORDER_SIZE && py >= BORDER_SIZE
    requires !OnRing(Local(px), Local(py))
    ensures MapPixel(grid, viewer, bg, px, py) == BLACK
  {
    PixelOwner(px, 0, px - BORDER_SIZE);
  }

  /** The last tile of each column gets no background: inside its ring it stays black. */
  lemma LastRowBlack(grid: seq<seq<Tile>>, viewer: string, bg: (int, int) -> Rgb, px: int, py: int)
    requires px >= BORDER_SIZE && py >= BORDER_SIZE && 0 <= Block(px) < |grid|
    requires Block(py) == |grid[Block(px)]| - 1
    requires !OnRing(Local(px), Local(py))
    ensures MapPixel(grid, viewer, bg, px, py) == BLACK
  {
  }

  /** A pixel on the ring of tile (x, y) shows that tile's border colour,
      whatever background lay beneath: sky blue exactly when the viewer
      holds the tile, red exactly when another faction does, black when
      unoccupied. */
  lemma BorderRule(grid: seq<seq<Tile>>, viewer: string, bg: (int, int) -> Rgb, x: int, y: int, lx: int, ly: int)
    requires HasTile(grid, x, y)
    requires 0 <= lx < BLOCK && 0 <= ly < BLOCK && OnRing(lx, ly)
    ensures var c := MapPixel(grid, viewer, bg, x * BLOCK + lx + BORDER_SIZE, y * BLOCK + ly + BORDER_SIZE);
      && (c == FRIENDLY <==> grid[x][y].occupied && grid[x][y].faction == viewer)
      && (c == HOSTILE <==> grid[x][y].occupied && grid[x][y].faction != viewer)
      && (c == BLACK <==> !grid[x][y].occupied)
  {
    PixelOwner(x * BLOCK + lx + BORDER_SIZE, x, lx);
    PixelOwner(y * BLOCK + ly + BORDER_SIZE, y, ly);
  }

  /** Paints the 150 × 150 interior square of tile (x, y) pixel by pixel
      with the background colour of each pixel's clump. */
  method DrawTileBackground(image: array2<Rgb>, x: int, y: int, bg: (int, int) -> Rgb)
    requires 0 <= x && 0 <= y
    requires x * BLOCK + BLOCK <= image.Length0 && y * BLOCK + BLOCK <= image.Length1
    modifies image
    ensures forall px, py :: 0 <= px < image.Length0 && 0 <= py < image.Length1 ==>
      image[px, py] == if InRect(px, py, x * BLOCK + BORDER_SIZE, y * BLOCK + BORDER_SIZE, TILE_SIZE, TILE_SIZE)
                       then bg(Clump(px), Clump(py)) else old(image[px, py])
  {
    var x0, y0 := x * BLOCK + BORDER_SIZE, y * BLOCK + BORDER_SIZE;
    for tileX := 0 to TILE_SIZE
      invariant forall px, py :: 0 <= px < image.Length0 && 0 <= py < image.Length1 ==>
        image[px, py] == if InRect(px, py, x0, y0, tileX, TILE_SIZE) then bg(Clump(px), Clump(py)) else old(image[px, py])
    {
      for tileY := 0 to TILE_SIZE
        invariant forall px, py :: 0 <= px < image.Length0 && 0 <= py < image.Length1 ==>
          image[px, py] == if InRect(px, py, x0, y0, tileX, TILE_SIZE) || InRect(px, py, x0 + tileX, y0, 1, tileY)
                           then bg(Clump(px), Clump(py)) else old(image[px, py])
      {
        var pixelX := x * BLOCK + tileX + BORDER_SIZE;
        var pixelY := y * BLOCK + tileY + BORDER_SIZE;
        image[pixelX, pixelY] := bg(Clump(pixelX), Clump(pixelY));
      }
    }
  }

  /** Draws the top and bottom border strips of tile (x, y): the full block
      width, BORDER_SIZE rows at the top of the block and at its bottom. */
  method DrawTopBottomBorders(image: array2<Rgb>, x: int, y: int, colour: Rgb)
    requires 0 <= x && 0 <= y
    requires x * BLOCK + BLOCK + BORDER_SIZE <= image.Length0 && y * BLOCK + BLOCK + BORDER_SIZE <= image.Length1
    modifies image
    ensures forall px, py :: 0 <= px < image.Length0 && 0 <= py < image.Length1 ==>
      image[px, py] == if InRect(px, py, x * BLOCK + BORDER_SIZE, y * BLOCK + BORDER_SIZE, BLOCK, BORDER_SIZE)
                          || InRect(px, py, x * BLOCK + BORDER_SIZE, y * BLOCK + BLOCK, BLOCK, BORDER_SIZE)
                       then colour else old(image[px, py])
  {
    var x0, y0 := x * BLOCK + BORDER_SIZE, y * BLOCK + BORDER_SIZE;
    for borderX := 0 to BLOCK
      invariant forall px, py :: 0 <= px < image.Length0 && 0 <= py < image.Length1 ==>
        image[px, py] == if InRect(px, py, x0, y0, borderX, BORDER_SIZE) || InRect(px, py, x0, y0 + TILE_SIZE, borderX, BORDER_SIZE)
                         then colour else old(image[px, py])
    {
      for borderY := 0 to BORDER_SIZE
        invariant forall px, py :: 0 <= px < image.Length0 && 0 <= py < image.Length1 ==>
          image[px, py] == if InRect(px, py, x0, y0, borderX, BORDER_SIZE) || InRect(px, py, x0, y0 + TILE_SIZE, borderX, BORDER_SIZE)
                              || InRect(px, py, x0 + borderX, y0, 1, borderY) || InRect(px, py, x0 + borderX, y0 + TILE_SIZE, 1, borderY)
                           then colour else old(image[px, py])
      {
        image[x * BLOCK + borderX + BORDER_SIZE, y * BLOCK + borderY + BORDER_SIZE] := colour;
        image[x * BLOCK + borderX + BORDER_SIZE, y * BLOCK + borderY + TILE_SIZE + BORDER_SIZE] := colour;
      }
    }
  }

  /** Draws the left and right border strips of tile (x, y): BORDER_SIZE
      columns at each side of the block, over the tile's 150 rows. */
  method DrawSideBorders(image: array2<Rgb>, x: int, y: int, colour: Rgb)
    requires 0 <= x && 0 <= y
    requires x * BLOCK + BLOCK + BORDER_SIZE <= image.Length0 && y * BLOCK + BLOCK <= image.Length1
    modifies image
    ensures forall px, py :: 0 <= px < image.Length0 && 0 <= py < image.Length1 ==>
      image[px, py] == if InRect(px, py, x * BLOCK + BORDER_SIZE, y * BLOCK + BORDER_SIZE, BORDER_SIZE, TILE_SIZE)
                          || InRect(px, py, x * BLOCK + BLOCK, y * BLOCK + BORDER_SIZE, BORDER_SIZE, TILE_SIZE)
                       then colour else old(image[px, py])
  {
    var x0, y0 := x * BLOCK + BORDER_SIZE, y * BLOCK + BORDER_SIZE;
    for borderX := 0 to BORDER_SIZE
      invariant forall px, py :: 0 <= px < image.Length0 && 0 <= py < image.Length1 ==>
        image[px, py] == if InRect(px, py, x0, y0, borderX, TILE_SIZE) || InRect(px, py, x0 + TILE_SIZE, y0, borderX, TILE_SIZE)
                         then colour else old(image[px, py])
    {
      for borderY := 0 to TILE_SIZE
        invariant forall px, py :: 0 <= px < image.Length0 && 0 <= py < image.Length1 ==>
          image[px, py] == if InRect(px, py, x0, y0, borderX, TILE_SIZE) || InRect(px, py, x0 + TILE_SIZE, y0, borderX, TILE_SIZE)
                              || InRect(px, py, x0 + borderX, y0, 1, borderY) || InRect(px, py, x0 + TILE_SIZE + borderX, y0, 1, borderY)
                           then colour else old(image[px, py])
      {
        image[x * BLOCK + borderX + BORDER_SIZE, y * BLOCK + borderY + BORDER_SIZE] := colour;
        image[x * BLOCK + borderX + TILE_SIZE + BORDER_SIZE, y * BLOCK + borderY + BORDER_SIZE] := colour;
      }
    }
  }

  /** Painting the background of tile (x, y) moves the background stage
      from (x, y) to (x, y + 1), pixel by pixel. */
  lemma BackgroundTileStep(grid: seq<seq<Tile>>, viewer: string, bg: (int, int) -> Rgb,
                           x: int, y: int, px: int, py: int, before: Rgb, after: Rgb)
    requires HasBackground(grid, x, y) && 0 <= px && 0 <= py
    requires before == Stage(grid, viewer, bg, px, py, (x, y), (0, 0))
    requires after == if InRect(px, py, x * BLOCK + BORDER_SIZE, y * BLOCK + BORDER_SIZE, TILE_SIZE, TILE_SIZE)
                      then bg(Clump(px), Clump(py)) else before
    ensures after == Stage(grid, viewer, bg, px, py, (x, y + 1), (0, 0))
  {
    if px >= BORDER_SIZE && py >= BORDER_SIZE {
      BlockLocal(px);
      BlockLocal(py);
    }
  }

  /** The background stage at the end of column x is the stage at the
      start of column x + 1. */
  lemma BackgroundColumnStep(grid: seq<seq<Tile>>, viewer: string, bg: (int, int) -> Rgb, x: int, px: int, py: int)
    requires 0 <= x < |grid| && |grid[x]| >= 1
    ensures Stage(grid, viewer, bg, px, py, (x, |grid[x]| - 1), (0, 0))
         == Stage(grid, viewer, bg, px, py, (x + 1, 0), (0, 0))
  {
  }

  /** Drawing the borders of tile (x, y) moves the border stage from
      (x, y) to (x, y + 1), pixel by pixel. */
  lemma BorderTileStep(grid: seq<seq<Tile>>, viewer: string, bg: (int, int) -> Rgb,
                       x: int, y: int, px: int, py: int, before: Rgb, after: Rgb)
    requires HasTile(grid, x, y) && 0 <= px && 0 <= py
    requires before == Stage(grid, viewer, bg, px, py, (|grid|, 0), (x, y))
    requires after == if InRect(px, py, x * BLOCK + BORDER_SIZE, y * BLOCK + BORDER_SIZE, BLOCK, BORDER_SIZE)
                         || InRect(px, py, x * BLOCK + BORDER_SIZE, y * BLOCK + BLOCK, BLOCK, BORDER_SIZE)
                         || InRect(px, py, x * BLOCK + BORDER_SIZE, y * BLOCK + BORDER_SIZE, BORDER_SIZE, TILE_SIZE)
                         || InRect(px, py, x * BLOCK + BLOCK, y * BLOCK + BORDER_SIZE, BORDER_SIZE, TILE_SIZE)
                      then BorderColour(grid[x][y], viewer) else before
    ensures after == Stage(grid, viewer, bg, px, py, (|grid|, 0), (x, y + 1))
  {
    if px >= BORDER_SIZE && py >= BORDER_SIZE {
      BlockLocal(px);
      BlockLocal(py);
    }
  }

  /** The border stage at the end of column x is the stage at the start of
      column x + 1. */
  lemma BorderColumnStep(grid: seq<seq<Tile>>, viewer: string, bg: (int, int) -> Rgb, x: int, px: int, py: int)
    requires 0 <= x < |grid|
    ensures Stage(grid, viewer, bg, px, py, (|grid|, 0), (x, |grid[x]|))
         == Stage(grid, viewer, bg, px, py, (|grid|, 0), (x + 1, 0))
  {
  }

  /** Before any painting the stage is black everywhere; after both passes
      it is the finished map. */
  lemma StageEnds(grid: seq<seq<Tile>>, viewer: string, bg: (int, int) -> Rgb, px: int, py: int)
    ensures Stage(grid, viewer, bg, px, py, (1, 0), (0, 0)) == BLACK
    ensures Stage(grid, viewer, bg, px, py, (|grid|, 0), (|grid|, 0)) == MapPixel(grid, viewer, bg, px, py)
  {
    if px >= BORDER_SIZE && py >= BORDER_SIZE {
      BlockLocal(px);
      BlockLocal(py);
    }
  }

  /** The background pass of column x: rows 0 .. len - 1 of that column. */
  method PaintColumnBackgrounds(image: array2<Rgb>, grid: seq<seq<Tile>>, viewer: string, bg: (int, int) -> Rgb, x: int)
    requires Drawable(grid) && 1 <= x < |grid|
    requires image.Length0 == CanvasWidth(grid) && image.Length1 == CanvasHeight(grid)
    requires forall px, py :: 0 <= px < image.Length0 && 0 <= py < image.Length1 ==>
      image[px, py] == Stage(grid, viewer, bg, px, py, (x, 0), (0, 0))
    modifies image
    ensures forall px, py :: 0 <= px < image.Length0 && 0 <= py < image.Length1 ==>
      image[px, py] == Stage(grid, viewer, bg, px, py, (x + 1, 0), (0, 0))
  {
    var y := 0;
    while y < |grid[x]| - 1
      invariant 0 <= y <= |grid[x]| - 1
      invariant forall px, py :: 0 <= px < image.Length0 && 0 <= py < image.Length1 ==>
        image[px, py] == Stage(grid, viewer, bg, px, py, (x, y), (0, 0))
    {
      TileBlockInCanvas(grid, x, y);
      label Before:
      DrawTileBackground(image, x, y, bg);
      forall px, py | 0 <= px < image.Length0 && 0 <= py < image.Length1
        ensures image[px, py] == Stage(grid, viewer, bg, px, py, (x, y + 1), (0, 0))
      {
        BackgroundTileStep(grid, viewer, bg, x, y, px, py, old@Before(image[px, py]), image[px, py]);
      }
      y := y + 1;
    }
    forall px, py | 0 <= px < image.Length0 && 0 <= py < image.Length1
      ensures image[px, py] == Stage(grid, viewer, bg, px, py, (x + 1, 0), (0, 0))
    {
      BackgroundColumnStep(grid, viewer, bg, x, px, py);
    }
  }

  /** The border pass of column x: every tile of that column. */
  method PaintColumnBorders(image: array2<Rgb>, grid: seq<seq<Tile>>, viewer: string, bg: (int, int) -> Rgb, x: int)
    requires Drawable(grid) && 0 <= x < |grid|
    requires image.Length0 == CanvasWidth(grid) && image.Length1 == CanvasHeight(grid)
    requires forall px, py :: 0 <= px < image.Length0 && 0 <= py < image.Length1 ==>
      image[px, py] == Stage(grid, viewer, bg, px, py, (|grid|, 0), (x, 0))
    modifies image
    ensures forall px, py :: 0 <= px < image.Length0 && 0 <= py < image.Length1 ==>
      image[px, py] == Stage(grid, viewer, bg, px, py, (|grid|, 0), (x + 1, 0))
  {
    var y := 0;
    while y < |grid[x]|
      invariant 0 <= y <= |grid[x]|
      invariant forall px, py :: 0 <= px < image.Length0 && 0 <= py < image.Length1 ==>
        image[px, py] == Stage(grid, viewer, bg, px, py, (|grid|, 0), (x, y))
    {
      var colour := BorderColour(grid[x][y], viewer);
      TileBlockInCanvas(grid, x, y);
      label Before:
      DrawTopBottomBorders(image, x, y, colour);
      DrawSideBorders(image, x, y, colour);
      forall px, py | 0 <= px < image.Length0 && 0 <= py < image.Length1
        ensures image[px, py] == Stage(grid, viewer, bg, px, py, (|grid|, 0), (x, y + 1))
      {
        BorderTileStep(grid, viewer, bg, x, y, px, py, old@Before(image[px, py]), image[px, py]);
      }
      y := y + 1;
    }
    forall px, py | 0 <= px < image.Length0 && 0 <= py < image.Length1
      ensures image[px, py] == Stage(grid, viewer, bg, px, py, (|grid|, 0), (x + 1, 0))
    {
      BorderColumnStep(grid, viewer, bg, x, px, py);
    }
  }

  /** `draw_map`: a black canvas sized from the grid, then a background pass
      over columns 1.. and rows ..len-1, then a border pass over every tile.
      The finished canvas shows `MapPixel` at every pixel. */
  method DrawMap(grid: seq<seq<Tile>>, viewer: string, bg: (int, int) -> Rgb) returns (image: array2<Rgb>)
    requires Drawable(grid)
    ensures fresh(image)
    ensures image.Length0 == CanvasWidth(grid) && image.Length1 == CanvasHeight(grid)
    ensures forall px, py :: 0 <= px < image.Length0 && 0 <= py < image.Length1 ==>
      image[px, py] == MapPixel(grid, viewer, bg, px, py)
  {
    image := new Rgb[CanvasWidth(grid), CanvasHeight(grid)]((i, j) => BLACK);
    forall px, py | 0 <= px < image.Length0 && 0 <= py < image.Length1
      ensures image[px, py] == Stage(grid, viewer, bg, px, py, (1, 0), (0, 0))
    {
      StageEnds(grid, viewer, bg, px, py);
    }
    for x := 1 to |grid|
      invariant forall px, py :: 0 <= px < image.Length0 && 0 <= py < image.Length1 ==>
        image[px, py] == Stage(grid, viewer, bg, px, py, (x, 0), (0, 0))
    {
      PaintColumnBackgrounds(image, grid, viewer, bg, x);
    }
    for x := 0 to |grid|
      invariant forall px, py :: 0 <= px < image.Length0 && 0 <= py < image.Length1 ==>
        image[px, py] == Stage(grid, viewer, bg, px, py, (|grid|, 0), (x, 0))
    {
      PaintColumnBorders(image, grid, viewer, bg, x);
    }
    forall px, py | 0 <= px < image.Length0 && 0 <= py < image.Length1
      ensures image[px, py] == MapPixel(grid, viewer, bg, px, py)
    {
      StageEnds(grid, viewer, bg, px, py);
    }
  }
}
