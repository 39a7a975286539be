/** The tile store: existence checks, lookups, range fetches and writes over
    the `tiles` collection, which the model holds as a map from (x, y) to the
    stored tile. Database failures are not modelled. */
module TileStore {
  import opened Tiles
  import opened Grid
  import Image

  type Coord = (int, int)

  type Store = map<Coord, Tile>

  /** Every stored tile sits under its own coordinates: the store's filters
      `{x, y}` select a tile by its own fields. */
  predicate WellKeyed(store: Store)
  {
    forall c :: c in store ==> store[c].x == c.0 && store[c].y == c.1
  }

  /** Every faction record sits under its own tag. */
  predicate FactionsKeyed(factions: map<string, Faction>)
  {
    forall tag :: tag in factions ==> factions[tag].tag == tag
  }

  /** `blank_tile(x, y)`: the default tile moved to (x, y). */
  function BlankTile(x: int, y: int): (t: Tile)
    ensures t.x == x && t.y == y
    ensures !t.occupied && t.faction == ""
    ensures t.buildings == map[] && t.units == map[]
  {
    DefaultTile().(x := x, y := y)
  }

  /** `internal_check_tile`: whether a tile is stored at (x, y). */
  function CheckTile(store: Store, x: int, y: int): bool
  {
    (x, y) in store
  }

  /** `CheckTile` as a function of the cell, for range specifications. */
  function PresenceIn(store: Store): (int, int) -> bool
  {
    (a, b) => CheckTile(store, a, b)
  }

  /** `internal_get_tile`: the stored tile at (x, y), or a blank tile with
      those coordinates when none is stored. */
  function GetTile(store: Store, x: int, y: int): (t: Tile)
    ensures WellKeyed(store) ==> t.x == x && t.y == y
    ensures CheckTile(store, x, y) ==> t == store[(x, y)]
    ensures !CheckTile(store, x, y) ==> t == BlankTile(x, y)
  {
    if CheckTile(store, x, y) then store[(x, y)] else BlankTile(x, y)
  }

  /** `GetTile` as a function of the cell, for range specifications. */
  function TileOrBlankIn(store: Store): (int, int) -> Tile
  {
    (a, b) => GetTile(store, a, b)
  }

  /** The cell itself, for ranges of coordinates. */
  function Pair(a: int, b: int): Coord
  {
    (a, b)
  }

  /** Whether c lies in the closed box xr × yr (the store's `$gte`/`$lte`
      filters include both bounds). */
  predicate InClosed(c: Coord, xr: (int, int), yr: (int, int))
  {
    xr.0 <= c.0 <= xr.1 && yr.0 <= c.1 <= yr.1
  }

  /** `any_exist`: some tile is stored in the closed box xr × yr. */
  predicate AnyExist(store: Store, xr: (int, int), yr: (int, int))
  {
    exists c :: c in store && InClosed(c, xr, yr)
  }

  /** The stored tiles at the given coordinates, in the order given. */
  function Fetch(store: Store, cs: seq<Coord>): seq<Tile>
  {
    if cs == [] then []
    else Fetch(store, cs[..|cs| - 1]) + (if cs[|cs| - 1] in store then [store[cs[|cs| - 1]]] else [])
  }

  /** `get_many`: every tile stored in the closed box xr × yr. The store
      returns them in its own order; the model lists them x-major. */
  function GetMany(store: Store, xr: (int, int), yr: (int, int)): seq<Tile>
  {
    Fetch(store, Cells(xr.0, xr.1 + 1, yr.0, yr.1 + 1, Pair))
  }

  /** A fetched tile is a stored tile at one of the requested coordinates,
      and every stored tile at a requested coordinate is fetched. */
  lemma {:induction false} FetchMembers(store: Store, cs: seq<Coord>, t: Tile)
    ensures t in Fetch(store, cs) <==> exists c :: c in cs && c in store && store[c] == t
  {
    if cs != [] {
      var init := cs[..|cs| - 1];
      var last := cs[|cs| - 1];
      FetchMembers(store, init, t);
      if t in Fetch(store, cs) && t !in Fetch(store, init) {
        assert last in store && store[last] == t;
      }
      if exists c :: c in cs && c in store && store[c] == t {
        var c :| c in cs && c in store && store[c] == t;
        if c != last {
          assert c in init by {
            var i :| 0 <= i < |cs| && cs[i] == c;
            assert i < |cs| - 1 && init[i] == c;
          }
        }
      }
    }
  }

  /** Fetching a concatenation fetches each part in turn. */
  lemma {:induction false} FetchAppend(store: Store, a: seq<Coord>, b: seq<Coord>)
    ensures Fetch(store, a + b) == Fetch(store, a) + Fetch(store, b)
    decreases |b|
  {
    if b != [] {
      var init := b[..|b| - 1];
      assert (a + b)[..|a + b| - 1] == a + init;
      FetchAppend(store, a, init);
    } else {
      assert a + b == a;
    }
  }

  /** Over a fully stored half-open box, fetching the cells gives the tile
      of each cell, in the same x-major order. */
  lemma {:induction false} FetchStoredCells(store: Store, x0: int, x1: int, y0: int, y1: int)
    requires AllStored(store, (x0, x1), (y0, y1))
    ensures Fetch(store, Cells(x0, x1, y0, y1, Pair)) == Cells(x0, x1, y0, y1, TileOrBlankIn(store))
    decreases x1 - x0
  {
    if x1 > x0 {
      FetchStoredCells(store, x0, x1 - 1, y0, y1);
      FetchAppend(store, Cells(x0, x1 - 1, y0, y1, Pair), Row(x1 - 1, y0, y1, Pair));
      FetchStoredRow(store, x1 - 1, y0, y1);
    }
  }

  /** One column of a fully stored box: fetching gives each cell's tile. */
  lemma {:induction false} FetchStoredRow(store: Store, x: int, y0: int, y1: int)
    requires forall b :: y0 <= b < y1 ==> CheckTile(store, x, b)
    ensures Fetch(store, Row(x, y0, y1, Pair)) == Row(x, y0, y1, TileOrBlankIn(store))
    decreases y1 - y0
  {
    if y1 > y0 {
      FetchStoredRow(store, x, y0, y1 - 1);
      RowSnoc(x, y0, y1 - 1, Pair);
      RowSnoc(x, y0, y1 - 1, TileOrBlankIn(store));
      FetchAppend(store, Row(x, y0, y1 - 1, Pair), [(x, y1 - 1)]);
    } else {
      assert Row(x, y0, y1, Pair) == [];
    }
  }

  /** When every requested coordinate is stored, one tile is fetched per
      coordinate. */
  lemma {:induction false} FetchAllPresent(store: Store, cs: seq<Coord>)
    requires forall c :: c in cs ==> c in store
    ensures |Fetch(store, cs)| == |cs|
  {
    if cs != [] {
      FetchAllPresent(store, cs[..|cs| - 1]);
    }
  }

  /** `get_many` returns exactly the tiles stored in the closed box. */
  lemma GetManyMembers(store: Store, xr: (int, int), yr: (int, int), t: Tile)
    ensures t in GetMany(store, xr, yr) <==> exists c :: c in store && InClosed(c, xr, yr) && store[c] == t
  {
    var cs := Cells(xr.0, xr.1 + 1, yr.0, yr.1 + 1, Pair);
    FetchMembers(store, cs, t);
    if t in GetMany(store, xr, yr) {
      var c :| c in cs && c in store && store[c] == t;
      CellsMember(xr.0, xr.1 + 1, yr.0, yr.1 + 1, Pair, c);
    }
    if exists c :: c in store && InClosed(c, xr, yr) && store[c] == t {
      var c :| c in store && InClosed(c, xr, yr) && store[c] == t;
      CellsCover(xr.0, xr.1 + 1, yr.0, yr.1 + 1, Pair, c.0, c.1);
    }
  }

  /** `any_exist` asks for at most one tile of the closed box: it finds one
      exactly when `get_many` over the same box returns anything. */
  lemma AnyExistIff(store: Store, xr: (int, int), yr: (int, int))
    ensures AnyExist(store, xr, yr) <==> |GetMany(store, xr, yr)| > 0
  {
    if AnyExist(store, xr, yr) {
      var c :| c in store && InClosed(c, xr, yr);
      GetManyMembers(store, xr, yr, store[c]);
    }
    if |GetMany(store, xr, yr)| > 0 {
      GetManyMembers(store, xr, yr, GetMany(store, xr, yr)[0]);
    }
  }

  /** Every cell of the half-open box `xr.0..xr.1` × `yr.0..yr.1` holds a tile. */
  predicate AllStored(store: Store, xr: (int, int), yr: (int, int))
  {
    forall a, b :: xr.0 <= a < xr.1 && yr.0 <= b < yr.1 ==> CheckTile(store, a, b)
  }

  /** `all_exist`: scans the half-open box `xr.0..xr.1` × `yr.0..yr.1` and
      stops at the first missing tile. */
  method AllExist(store: Store, xr: (int, int), yr: (int, int)) returns (r: bool)
    ensures r <==> AllStored(store, xr, yr)
  {
    var x := xr.0;
    while x < xr.1
      invariant xr.0 <= x
      invariant forall a, b :: xr.0 <= a < x && yr.0 <= b < yr.1 ==> CheckTile(store, a, b)
    {
      var y := yr.0;
      while y < yr.1
        invariant yr.0 <= y
        invariant forall b :: yr.0 <= b < y ==> CheckTile(store, x, b)
      {
        if !CheckTile(store, x, y) {
          return false;
        }
        y := y + 1;
      }
      x := x + 1;
    }
    return true;
  }

  /** `check_many`: one existence flag per cell of the half-open box, x-major. */
  method CheckMany(store: Store, xr: (int, int), yr: (int, int)) returns (r: seq<bool>)
    ensures r == Cells(xr.0, xr.1, yr.0, yr.1, PresenceIn(store))
  {
    r := [];
    var x := xr.0;
    while x < xr.1
      invariant xr.0 <= x && (x == xr.0 || x <= xr.1)
      invariant r == Cells(xr.0, x, yr.0, yr.1, PresenceIn(store))
    {
      var y := yr.0;
      ghost var done := r;
      while y < yr.1
        invariant yr.0 <= y && (y == yr.0 || y <= yr.1)
        invariant r == done + Row(x, yr.0, y, PresenceIn(store))
      {
        RowSnoc(x, yr.0, y, PresenceIn(store));
        r := r + [CheckTile(store, x, y)];
        y := y + 1;
      }
      assert Row(x, yr.0, y, PresenceIn(store)) == Row(x, yr.0, yr.1, PresenceIn(store));
      x := x + 1;
    }
  }

  /** `blank_tile_range`: a blank tile for every cell of the half-open box,
      x-major. */
  method BlankTileRange(xr: (int, int), yr: (int, int)) returns (tiles: seq<Tile>)
    ensures tiles == Cells(xr.0, xr.1, yr.0, yr.1, BlankTile)
  {
    tiles := [];
    var x := xr.0;
    while x < xr.1
      invariant xr.0 <= x && (x == xr.0 || x <= xr.1)
      invariant tiles == Cells(xr.0, x, yr.0, yr.1, BlankTile)
    {
      var y := yr.0;
      ghost var done := tiles;
      while y < yr.1
        invariant yr.0 <= y && (y == yr.0 || y <= yr.1)
        invariant tiles == done + Row(x, yr.0, y, BlankTile)
      {
        RowSnoc(x, yr.0, y, BlankTile);
        var t := BlankTile(x, y);
        tiles := tiles + [t];
        y := y + 1;
      }
      assert Row(x, yr.0, y, BlankTile) == Row(x, yr.0, yr.1, BlankTile);
      x := x + 1;
    }
  }

  /** Every row of the grid read back to front. */
  function InvertedY(grid: seq<seq<Tile>>): seq<seq<Tile>>
  {
    seq(|grid|, i requires 0 <= i < |grid| => Reversed(grid[i]))
  }

  /** `invert_y`: copies each row, reverses the copy and collects the rows. */
  method InvertY(tiles: seq<seq<Tile>>) returns (inverted: seq<seq<Tile>>)
    ensures inverted == InvertedY(tiles)
  {
    inverted := [];
    for i := 0 to |tiles|
      invariant |inverted| == i
      invariant forall k :: 0 <= k < i ==> inverted[k] == Reversed(tiles[k])
    {
      var row := tiles[i];
      var newRow := [];
      for j := 0 to |row|
        invariant newRow == row[..j]
      {
        newRow := newRow + [row[j]];
      }
      assert newRow == row;
      newRow := Reversed(newRow);
      inverted := inverted + [newRow];
    }
  }

  /** Inverting keeps the number of rows and each row's length, mirrors each
      row, and inverting twice gives the grid back. */
  lemma InvertYShape(grid: seq<seq<Tile>>, i: int, j: int)
    requires 0 <= i < |grid| && 0 <= j < |grid[i]|
    ensures |InvertedY(grid)| == |grid| && |InvertedY(grid)[i]| == |grid[i]|
    ensures InvertedY(grid)[i][j] == grid[i][|grid[i]| - 1 - j]
  {
    ReversedAt(grid[i], j);
  }

  /** Inverting twice gives the grid back. */
  lemma InvertYTwice(grid: seq<seq<Tile>>)
    ensures InvertedY(InvertedY(grid)) == grid
  {
    forall i | 0 <= i < |grid|
      ensures InvertedY(InvertedY(grid))[i] == grid[i]
    {
      ReversedTwice(grid[i]);
    }
  }

  /** `can_faction_see`: whether the faction holds a tile in the closed box of
      radius VIEW_DISTANCE around (x, y). */
  method CanFactionSee(store: Store, x: int, y: int, faction: string) returns (r: bool)
    ensures r <==> exists c :: c in store && InClosed(c, SeeRange(x), SeeRange(y)) && store[c].faction == faction
  {
    var xr := SeeRange(x);
    var yr := SeeRange(y);
    if !AnyExist(store, xr, yr) {
      return false;
    }
    var tiles := GetMany(store, xr, yr);
    for i := 0 to |tiles|
      invariant forall k :: 0 <= k < i ==> tiles[k].faction != faction
    {
      if tiles[i].faction == faction {
        GetManyMembers(store, xr, yr, tiles[i]);
        return true;
      }
    }
    if exists c :: c in store && InClosed(c, xr, yr) && store[c].faction == faction {
      var c :| c in store && InClosed(c, xr, yr) && store[c].faction == faction;
      GetManyMembers(store, xr, yr, store[c]);
      assert false;
    }
    return false;
  }

  /** The range `v - VIEW_DISTANCE ..= v + VIEW_DISTANCE` that
      `can_faction_see` searches. */
  function SeeRange(v: int): (int, int)
  {
    (v - Image.VIEW_DISTANCE, v + Image.VIEW_DISTANCE)
  }

  /** Whether `faction` holds a stored tile in the closed box of radius
      VIEW_DISTANCE around (x, y). */
  predicate Sees(store: Store, x: int, y: int, faction: string)
  {
    exists c :: c in store && InClosed(c, SeeRange(x), SeeRange(y)) && store[c].faction == faction
  }

  /** The cell a tile record names. */
  function At(t: Tile): Coord
  {
    (t.x, t.y)
  }

  /** The store after writing the tiles one after another, each under its own
      cell (a later write to a cell replaces an earlier one). */
  function Setting(store: Store, ts: seq<Tile>): Store
  {
    if ts == [] then store else Setting(store, ts[..|ts| - 1])[At(ts[|ts| - 1]) := ts[|ts| - 1]]
  }

  /** The store after deleting the cell of each tile, one after another. */
  function Deleting(store: Store, ts: seq<Tile>): Store
  {
    if ts == [] then store else Deleting(store, ts[..|ts| - 1]) - {At(ts[|ts| - 1])}
  }

  /** A cell that some written tile names holds that tile when all tiles
      written there agree. */
  lemma {:induction false} SettingHit(store: Store, ts: seq<Tile>, c: Coord, v: Tile)
    requires exists i :: 0 <= i < |ts| && At(ts[i]) == c
    requires forall i :: 0 <= i < |ts| && At(ts[i]) == c ==> ts[i] == v
    ensures c in Setting(store, ts) && Setting(store, ts)[c] == v
  {
    var init := ts[..|ts| - 1];
    if At(ts[|ts| - 1]) != c {
      var i :| 0 <= i < |ts| && At(ts[i]) == c;
      assert init[i] == ts[i];
      SettingHit(store, init, c, v);
    }
  }

  /** A cell that no written tile names keeps what it held. */
  lemma {:induction false} SettingMiss(store: Store, ts: seq<Tile>, c: Coord)
    requires forall i :: 0 <= i < |ts| ==> At(ts[i]) != c
    ensures c in Setting(store, ts) <==> c in store
    ensures c in store ==> Setting(store, ts)[c] == store[c]
  {
    if ts != [] {
      var init := ts[..|ts| - 1];
      assert At(ts[|ts| - 1]) != c;
      SettingMiss(store, init, c);
    }
  }

  /** A cell that some deleted tile names is gone. */
  lemma {:induction false} DeletingHit(store: Store, ts: seq<Tile>, c: Coord)
    requires exists i :: 0 <= i < |ts| && At(ts[i]) == c
    ensures c !in Deleting(store, ts)
  {
    var init := ts[..|ts| - 1];
    if At(ts[|ts| - 1]) != c {
      var i :| 0 <= i < |ts| && At(ts[i]) == c;
      assert init[i] == ts[i];
      DeletingHit(store, init, c);
    }
  }

  /** A cell that no deleted tile names keeps what it held. */
  lemma {:induction false} DeletingMiss(store: Store, ts: seq<Tile>, c: Coord)
    requires forall i :: 0 <= i < |ts| ==> At(ts[i]) != c
    ensures c in Deleting(store, ts) <==> c in store
    ensures c in store ==> Deleting(store, ts)[c] == store[c]
  {
    if ts != [] {
      var init := ts[..|ts| - 1];
      assert At(ts[|ts| - 1]) != c;
      DeletingMiss(store, init, c);
    }
  }

  /** The database contents as one value: the tile and faction collections. */
  datatype World = World(tiles: Store, factions: map<string, Faction>)

  /** The tile and faction collections of the database. */
  class Db {
    var tiles: Store
    var factions: map<string, Faction>

    ghost predicate Valid()
      reads this
    {
      WellKeyed(tiles) && FactionsKeyed(factions)
    }

    constructor (tiles: Store, factions: map<string, Faction>)
      requires WellKeyed(tiles) && FactionsKeyed(factions)
      ensures Valid()
      ensures this.tiles == tiles && this.factions == factions
    {
      this.tiles := tiles;
      this.factions := factions;
    }

    /** `internal_set_tile`: inserts the tile when its cell is free and
        replaces the stored one otherwise; either way the cell now holds it. */
    method SetTile(t: Tile)
      requires Valid()
      modifies this
      ensures Valid()
      ensures tiles == old(tiles)[(t.x, t.y) := t]
      ensures factions == old(factions)
    {
      if !CheckTile(tiles, t.x, t.y) {
        tiles := tiles[(t.x, t.y) := t];
      } else {
        tiles := tiles[(t.x, t.y) := t];
      }
    }

    /** `internal_delete_tile`: removes the tile stored at (x, y), if any. */
    method DeleteTile(x: int, y: int)
      requires Valid()
      modifies this
      ensures Valid()
      ensures tiles == old(tiles) - {(x, y)}
      ensures factions == old(factions)
    {
      tiles := tiles - {(x, y)};
    }

    /** `internal_save_faction`: replaces the record with the same tag, or
        inserts it. */
    method SaveFaction(f: Faction)
      requires Valid()
      modifies this
      ensures Valid()
      ensures factions == old(factions)[f.tag := f]
      ensures tiles == old(tiles)
    {
      factions := factions[f.tag := f];
    }

    /** `set_many`: `internal_set_tile` for each tile in turn. */
    method SetMany(ts: seq<Tile>)
      requires Valid()
      modifies this
      ensures Valid()
      ensures tiles == Setting(old(tiles), ts)
      ensures factions == old(factions)
    {
      for i := 0 to |ts|
        invariant Valid()
        invariant tiles == Setting(old(tiles), ts[..i])
        invariant factions == old(factions)
      {
        SetTile(ts[i]);
        assert ts[..i + 1][..i] == ts[..i];
      }
      assert ts[..|ts|] == ts;
    }
  }
}
