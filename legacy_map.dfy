/** The earlier tile record, in which a tile had a single occupant (a unit
    or a building) described by strings, and its blank-tile helpers. */
module LegacyMap {
  import opened Grid

  datatype LegacyUnit = LegacyUnit(faction: string, unitType: string)

  datatype LegacyBuilding = LegacyBuilding(faction: string, buildingType: string)

  datatype TileOccupant = TileOccupant(
    faction: string,
    isUnit: bool,
    building: LegacyBuilding,
    unit: LegacyUnit)

  datatype LegacyTile = LegacyTile(occupied: bool, occupant: TileOccupant, x: int, y: int)

  /** The blank legacy tile: unoccupied, every occupant string empty, not a
      unit, at (0, 0). */
  function LegacyBlankTile(): (t: LegacyTile)
    ensures !t.occupied && !t.occupant.isUnit && t.x == 0 && t.y == 0
    ensures t.occupant.faction == "" && t.occupant.building.faction == "" && t.occupant.building.buildingType == ""
    ensures t.occupant.unit.faction == "" && t.occupant.unit.unitType == ""
  {
    LegacyTile(false, TileOccupant("", false, LegacyBuilding("", ""), LegacyUnit("", "")), 0, 0)
  }

  /** The blank legacy tile moved to (x, y). */
  function LegacyBlankAt(x: int, y: int): LegacyTile
  {
    LegacyBlankTile().(x := x, y := y)
  }

  /** The legacy `blank_tile_range`: a blank tile for every cell of the
      half-open box, x-major, each made blank and then given its coordinates. */
  method LegacyBlankTileRange(xr: (int, int), yr: (int, int)) returns (tiles: seq<LegacyTile>)
    ensures tiles == Cells(xr.0, xr.1, yr.0, yr.1, LegacyBlankAt)
  {
    tiles := [];
    var x := xr.0;
    while x < xr.1
      invariant xr.0 <= x && (x == xr.0 || x <= xr.1)
      invariant tiles == Cells(xr.0, x, yr.0, yr.1, LegacyBlankAt)
    {
      var y := yr.0;
      while y < yr.1
        invariant yr.0 <= y && (y == yr.0 || y <= yr.1)
        invariant tiles == Cells(xr.0, x, yr.0, yr.1, LegacyBlankAt) + Row(x, yr.0, y, LegacyBlankAt)
      {
        RowSnoc(x, yr.0, y, LegacyBlankAt);
        var t := LegacyBlankTile();
        t := t.(x := x);
        t := t.(y := y);
        tiles := tiles + [t];
        y := y + 1;
      }
      x := x + 1;
    }
  }

  /** A legacy blank range holds width * height tiles (none when either
      range is empty), every one of them unoccupied, and cell (i, j) sits at
      index i * height + j with coordinates (x0 + i, y0 + j). */
  lemma LegacyRangeShape(x0: int, x1: int, y0: int, y1: int, i: int, j: int)
    requires 0 <= i < Span(x0, x1) && 0 <= j < Span(y0, y1)
    ensures |Cells(x0, x1, y0, y1, LegacyBlankAt)| == Span(x0, x1) * Span(y0, y1)
    ensures forall t :: t in Cells(x0, x1, y0, y1, LegacyBlankAt) ==> !t.occupied && !t.occupant.isUnit
    ensures i * Span(y0, y1) + j < |Cells(x0, x1, y0, y1, LegacyBlankAt)|
    ensures Cells(x0, x1, y0, y1, LegacyBlankAt)[i * Span(y0, y1) + j] == LegacyBlankAt(x0 + i, y0 + j)
  {
    CellsAt(x0, x1, y0, y1, LegacyBlankAt, i, j);
    forall t | t in Cells(x0, x1, y0, y1, LegacyBlankAt)
      ensures !t.occupied && !t.occupant.isUnit
    {
      CellsMember(x0, x1, y0, y1, LegacyBlankAt, t);
    }
  }
}
