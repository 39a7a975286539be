/** The world tile record and the faction record the commands update. */
module Tiles {
  import opened Buildings
  import opened Units

  /** One cell of the world, keyed by (x, y). Building and unit counts are
      u32 in the store. */
  datatype Tile = Tile(
    occupied: bool,
    faction: string,
    buildings: map<Building, nat>,
    units: map<Unit, nat>,
    x: int,
    y: int)

  /** `Tile::default()`: unoccupied, unclaimed, no buildings or units, at (0, 0). */
  function DefaultTile(): Tile
  {
    Tile(false, "", map[], map[], 0, 0)
  }

  /** The stored amounts of a faction that the commands read and change.
      The store keeps them as f32; here they are whole numbers. */
  datatype Production = Production(money: int, food: int)

  /** A faction record, keyed by its tag. */
  datatype Faction = Faction(
    name: string,
    tag: string,
    description: string,
    members: seq<string>,
    leader: string,
    production: Production)
}
