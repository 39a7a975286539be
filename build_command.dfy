/** The `build` command: the validation chain, the space a tile's buildings
    take, the money deduction and the building-count update. Discord replies
    become the outcome value; the database is the `Db` object; parsing the
    building name is the `building` parameter (None when the name is not a
    building). */
module BuildCommand {
  import opened Wrappers
  import opened Sums
  import opened Buildings
  import opened Tiles
  import opened Permissions
  import opened Users
  import opened TileStore
  import Cleaners

  /** The space of a whole tile. */
  const TILE_SPACE := 100

  /** What the command answers. `Panicked` stands for the `unwrap` of a
      missing faction record. */
  datatype BuildOutcome =
    | NotPermitted
    | NothingToBuild
    | NegativeAmount
    | NotYours
    | InvalidBuilding
    | CapitalForbidden
    | NoSpace
    | NotEnoughMoney
    | Built
    | Panicked

  /** The space one building of kind b takes. */
  function SpaceOf(b: Building): int
  {
    Data(b).space
  }

  /** The space the buildings of a tile take: count times space, summed
      over the kinds present. */
  function UsedSpace(buildings: map<Building, nat>): int
  {
    Weighted(AllBuildings, buildings, buildings.Keys, SpaceOf)
  }

  /** The whole command on a world value, in the order of its checks, as
      written: the money check and the deduction use one building's cost. */
  function Construction(w: World, user: User, x: int, y: int, building: Option<Building>, amount: int): (BuildOutcome, World)
  {
    Charging(w, user, x, y, building, amount, false)
  }

  /** The command as evidently intended: the money check and the deduction
      use the cost of the whole batch, `BatchCost`. */
  function CorrectedConstruction(w: World, user: User, x: int, y: int, building: Option<Building>, amount: int): (BuildOutcome, World)
  {
    Charging(w, user, x, y, building, amount, true)
  }

  /** The check chain shared by both: `batch` says whether the charge is
      one building's cost (as written) or the batch's cost. */
  function Charging(w: World, user: User, x: int, y: int, building: Option<Building>, amount: int, batch: bool): (BuildOutcome, World)
  {
    if !Permitted(user, Permission.Build) then (NotPermitted, w)
    else if amount == 0 then (NothingToBuild, w)
    else if amount < 0 then (NegativeAmount, w)
    else if CheckTile(w.tiles, x, y) && GetTile(w.tiles, x, y).faction != ""
         && GetTile(w.tiles, x, y).faction != user.faction then (NotYours, w)
    else if building.None? then (InvalidBuilding, w)
    else if building.value == Capital then (CapitalForbidden, w)
    else
      var b := building.value;
      var tile := GetTile(w.tiles, x, y);
      if amount * SpaceOf(b) > TILE_SPACE - UsedSpace(tile.buildings) then (NoSpace, w)
      else if user.faction !in w.factions then (Panicked, w)
      else
        var f := w.factions[user.faction];
        var charge := if batch then BatchCost(b, amount) else Data(b).cost;
        if charge > f.production.money then (NotEnoughMoney, w)
        else
          var newFaction := f.(production := f.production.(money := f.production.money - charge));
          var count := if b in tile.buildings then tile.buildings[b] + amount else amount;
          var newTile := tile.(buildings := tile.buildings[b := count]);
          (Built, World(w.tiles[(x, y) := newTile], w.factions[newFaction.tag := newFaction]))
  }

  /** The `used_space` accumulator: visits the tile's building kinds in
      whatever order the map yields them and adds space times count. */
  method TotalUsedSpace(buildings: map<Building, nat>) returns (usedSpace: int)
    ensures usedSpace == UsedSpace(buildings)
  {
    usedSpace := 0;
    var left := buildings.Keys;
    ghost var done: set<Building> := {};
    WeightedNone(AllBuildings, buildings, SpaceOf);
    while left != {}
      invariant left + done == buildings.Keys && left !! done
      invariant usedSpace == Weighted(AllBuildings, buildings, done, SpaceOf)
      decreases left
    {
      var b :| b in left;
      var amount := buildings[b];
      usedSpace := usedSpace + Data(b).space * amount;
      AllBuildingsComplete(b);
      WeightedAdd(AllBuildings, buildings, done, SpaceOf, b);
      left := left - {b};
      done := done + {b};
    }
  }

  /** `build` against the database: follows `Construction` step for step. */
  method Build(db: Db, user: User, x: int, y: int, building: Option<Building>, amount: int)
    returns (outcome: BuildOutcome)
    requires db.Valid()
    modifies db
    ensures db.Valid()
    ensures (outcome, World(db.tiles, db.factions)) == Construction(World(old(db.tiles), old(db.factions)), user, x, y, building, amount)
  {
    if !Permitted(user, Permission.Build) {
      return NotPermitted;
    }
    if amount == 0 {
      return NothingToBuild;
    }
    if amount < 0 {
      return NegativeAmount;
    }
    var tileExists := CheckTile(db.tiles, x, y);
    if tileExists {
      var tile := GetTile(db.tiles, x, y);
      var faction := user.faction;
      if tile.faction != "" && tile.faction != faction {
        return NotYours;
      }
    }
    if building.None? {
      return InvalidBuilding;
    }
    if building.value == Capital {
      return CapitalForbidden;
    }
    var tile := GetTile(db.tiles, x, y);
    var usedSpace := TotalUsedSpace(tile.buildings);
    var b := building.value;
    var buildingSpace := Data(b).space;
    if amount * buildingSpace > TILE_SPACE - usedSpace {
      return NoSpace;
    }
    var factionTag := user.faction;
    if factionTag !in db.factions {
      return Panicked;
    }
    var faction := db.factions[factionTag];
    var details := Data(b);
    if details.cost > faction.production.money {
      return NotEnoughMoney;
    }
    faction := faction.(production := faction.production.(money := faction.production.money - details.cost));
    db.SaveFaction(faction);
    tile := GetTile(db.tiles, x, y);
    var buildings := tile.buildings;
    if b in buildings {
      buildings := buildings[b := buildings[b] + amount];
    } else {
      buildings := buildings[b := amount];
    }
    tile := tile.(buildings := buildings);
    db.SetTile(tile);
    return Built;
  }

  /** The checks the command makes, in one place: a build succeeds exactly
      when the builder may build, builds a positive number of a known kind
      other than the Capital on a cell that is unstored, unclaimed or its
      own faction's, the tile has room for them, the faction record exists
      and holds at least one building's cost. Every refusal leaves the world
      as it was. */
  lemma BuildSucceedsIff(w: World, user: User, x: int, y: int, building: Option<Building>, amount: int)
    ensures Construction(w, user, x, y, building, amount).0 == Built <==>
      var tile := GetTile(w.tiles, x, y);
      && Permitted(user, Permission.Build) && amount > 0
      && (!CheckTile(w.tiles, x, y) || tile.faction == "" || tile.faction == user.faction)
      && building.Some? && building.value != Capital
      && UsedSpace(tile.buildings) + amount * SpaceOf(building.value) <= TILE_SPACE
      && user.faction in w.factions
      && Data(building.value).cost <= w.factions[user.faction].production.money
    ensures Construction(w, user, x, y, building, amount).0 != Built ==> Construction(w, user, x, y, building, amount).1 == w
  {
  }

  /** After a successful build the tile holds `amount` more buildings of the
      kind built and the same number of every other kind, keeps its claim
      and occupation, the faction record differs only in a money drop of one
      building's cost (which stays non-negative), and no other cell or
      faction changed. */
  lemma BuildEffects(w: World, user: User, x: int, y: int, b: Building, amount: int, k: Building)
    requires WellKeyed(w.tiles) && FactionsKeyed(w.factions)
    requires Construction(w, user, x, y, Some(b), amount).0 == Built
    ensures var w' := Construction(w, user, x, y, Some(b), amount).1;
      var tile := GetTile(w.tiles, x, y);
      && (x, y) in w'.tiles
      && var tile' := w'.tiles[(x, y)];
      && tile'.x == x && tile'.y == y
      && b in tile'.buildings
      && tile'.buildings[b] == (if b in tile.buildings then tile.buildings[b] else 0) + amount
      && (k != b ==> (k in tile'.buildings <==> k in tile.buildings))
      && (k != b && k in tile.buildings ==> tile'.buildings[k] == tile.buildings[k])
      && tile'.units == tile.units && tile'.faction == tile.faction && tile'.occupied == tile.occupied
      && user.faction in w'.factions
      && w'.factions[user.faction].production.money == w.factions[user.faction].production.money - Data(b).cost >= 0
      && w'.factions.Keys == w.factions.Keys
      && (forall g :: g in w.factions && g != user.faction ==> w'.factions[g] == w.factions[g])
      && (forall c :: c != (x, y) ==> (c in w'.tiles <==> c in w.tiles))
      && (forall c :: c != (x, y) && c in w.tiles ==> w'.tiles[c] == w.tiles[c])
      // the faction record changes in its money only
      && var f := w.factions[user.faction];
      && w'.factions[user.faction] == f.(production := f.production.(money := f.production.money - Data(b).cost))
  {
  }

  /** A successful build adds exactly `amount` buildings' space to the tile,
      so the tile's buildings never take more than a whole tile's space. */
  lemma BuildFitsTile(w: World, user: User, x: int, y: int, b: Building, amount: int)
    requires WellKeyed(w.tiles)
    requires Construction(w, user, x, y, Some(b), amount).0 == Built
    ensures var w' := Construction(w, user, x, y, Some(b), amount).1;
      && (x, y) in w'.tiles
      && UsedSpace(w'.tiles[(x, y)].buildings)
           == UsedSpace(GetTile(w.tiles, x, y).buildings) + amount * SpaceOf(b)
      && UsedSpace(w'.tiles[(x, y)].buildings) <= TILE_SPACE
  {
    var tile := GetTile(w.tiles, x, y);
    AddedSpace(tile.buildings, b, amount);
  }

  /** Adding n buildings of kind b adds n times b's space. */
  lemma AddedSpace(buildings: map<Building, nat>, b: Building, n: nat)
    ensures UsedSpace(buildings[b := if b in buildings then buildings[b] + n else n])
         == UsedSpace(buildings) + n * SpaceOf(b)
  {
    var count := if b in buildings then buildings[b] + n else n;
    var added := buildings[b := count];
    assert added.Keys == buildings.Keys + {b};
    AllBuildingsComplete(b);
    WeightedSet(AllBuildings, buildings, buildings.Keys, SpaceOf, b, count);
    if b in buildings {
      assert (buildings[b] + n) * SpaceOf(b) == buildings[b] * SpaceOf(b) + n * SpaceOf(b);
    }
  }

  /** The space the buildings take is never negative, and is at least the
      space of any one kind present. */
  lemma UsedSpaceBounds(buildings: map<Building, nat>, b: Building)
    ensures 0 <= UsedSpace(buildings)
    ensures b in buildings ==> buildings[b] * SpaceOf(b) <= UsedSpace(buildings)
  {
    WeightedNonNegative(AllBuildings, buildings, buildings.Keys, SpaceOf);
    if b in buildings {
      AllBuildingsComplete(b);
      WeightedAtLeast(AllBuildings, buildings, buildings.Keys, SpaceOf, b);
      assert SpaceOf(b) * buildings[b] == buildings[b] * SpaceOf(b);
    }
  }

  /** A tile holding a Capital is full: nothing more can be built there. */
  lemma CapitalTileIsFull(w: World, user: User, x: int, y: int, building: Option<Building>, amount: int)
    requires Capital in GetTile(w.tiles, x, y).buildings
    requires GetTile(w.tiles, x, y).buildings[Capital] >= 1
    ensures Construction(w, user, x, y, building, amount).0 != Built
  {
    var buildings := GetTile(w.tiles, x, y).buildings;
    UsedSpaceBounds(buildings, Capital);
    assert buildings[Capital] * SpaceOf(Capital) >= TILE_SPACE;
    if building.Some? && amount > 0 {
      assert amount * SpaceOf(building.value) >= 1;
    }
  }

  /** Building on a cell with no stored tile charges the faction and stores
      an unclaimed, unoccupied tile, which the tile cleaner then deletes. */
  lemma UnclaimedBuildIsCleaned(w: World, user: User, x: int, y: int, b: Building, amount: int)
    requires WellKeyed(w.tiles) && FactionsKeyed(w.factions)
    requires !CheckTile(w.tiles, x, y)
    requires Construction(w, user, x, y, Some(b), amount).0 == Built
    ensures var w' := Construction(w, user, x, y, Some(b), amount).1;
      && (x, y) in w'.tiles && w'.tiles[(x, y)].faction == "" && !w'.tiles[(x, y)].occupied
      && (x, y) !in Cleaners.CleanedStore(w'.tiles)
      && w'.factions[user.faction].production.money < w.factions[user.faction].production.money
  {
    var w' := Construction(w, user, x, y, Some(b), amount).1;
    Cleaners.CleanedStoreFacts(w'.tiles, (x, y));
  }

  // ---- The charge for a batch ----

  /** As written, a batch is charged the cost of one building: building two
      Farms at once costs 100, while building them one at a time costs 200. */
  lemma BatchChargedOnce(w: World, user: User, x: int, y: int, b: Building, amount: int)
    requires WellKeyed(w.tiles) && FactionsKeyed(w.factions)
    requires Construction(w, user, x, y, Some(b), amount).0 == Built
    requires amount >= 2
    ensures var w' := Construction(w, user, x, y, Some(b), amount).1;
      w.factions[user.faction].production.money - w'.factions[user.faction].production.money
        == Data(b).cost < BatchCost(b, amount)
  {
    assert Data(b).cost > 0;
    assert amount * Data(b).cost >= 2 * Data(b).cost;
  }

  /** The charge the command evidently intends: the cost of every building
      in the batch. */
  function BatchCost(b: Building, amount: nat): int
  {
    amount * Data(b).cost
  }

  /** Under the intended charge a batch costs what its buildings cost one at
      a time, so splitting a batch changes nothing, and one building costs
      the table's price. */
  lemma {:induction false} BatchCostSplits(b: Building, m: nat, n: nat)
    ensures BatchCost(b, m + n) == BatchCost(b, m) + BatchCost(b, n)
    ensures BatchCost(b, 1) == Data(b).cost
    ensures m <= n ==> BatchCost(b, m) <= BatchCost(b, n)
  {
    assert (m + n) * Data(b).cost == m * Data(b).cost + n * Data(b).cost;
    if m <= n {
      assert n * Data(b).cost - m * Data(b).cost == (n - m) * Data(b).cost;
    }
  }

  /** The success conditions of the corrected build of `amount` of kind b. */
  predicate CorrectedOk(w: World, user: User, x: int, y: int, b: Building, amount: int)
  {
    var tile := GetTile(w.tiles, x, y);
    && Permitted(user, Permission.Build) && amount > 0
    && (!CheckTile(w.tiles, x, y) || tile.faction == "" || tile.faction == user.faction)
    && b != Capital
    && UsedSpace(tile.buildings) + amount * SpaceOf(b) <= TILE_SPACE
    && user.faction in w.factions
    && BatchCost(b, amount) <= w.factions[user.faction].production.money
  }

  /** The corrected build succeeds exactly when the as-written checks pass
      with the batch's cost in place of one building's cost; it then stores
      the same tile and the faction's money drops by the batch's cost. */
  lemma CorrectedBuildSucceedsIff(w: World, user: User, x: int, y: int, building: Option<Building>, amount: int)
    requires WellKeyed(w.tiles) && FactionsKeyed(w.factions)
    ensures CorrectedConstruction(w, user, x, y, building, amount).0 == Built <==>
      building.Some? && CorrectedOk(w, user, x, y, building.value, amount)
    ensures CorrectedConstruction(w, user, x, y, building, amount).0 != Built ==>
      CorrectedConstruction(w, user, x, y, building, amount).1 == w
    ensures CorrectedConstruction(w, user, x, y, building, amount).0 == Built ==>
      var w' := CorrectedConstruction(w, user, x, y, building, amount).1;
      && w'.tiles == Construction(w, user, x, y, building, amount).1.tiles
      && user.faction in w'.factions
      && w'.factions[user.faction].production.money
           == w.factions[user.faction].production.money - BatchCost(building.value, amount) >= 0
  {
    if CorrectedConstruction(w, user, x, y, building, amount).0 == Built {
      var b := building.value;
      BatchCostSplits(b, 1, amount - 1);
      assert Data(b).cost <= BatchCost(b, amount);
    }
  }

  /** The world a successful corrected build leaves: the tile at (x, y)
      with `amount` more of kind b, and the faction charged the batch. */
  function BuiltWorld(w: World, user: User, x: int, y: int, b: Building, amount: nat): World
    requires user.faction in w.factions
  {
    World(BuiltTiles(w.tiles, x, y, b, amount), Charged(w.factions, user.faction, b, amount))
  }

  /** The store with `amount` more buildings of kind b on the tile at (x, y). */
  function BuiltTiles(tiles: Store, x: int, y: int, b: Building, amount: nat): Store
  {
    var tile := GetTile(tiles, x, y);
    tiles[(x, y) := tile.(buildings := tile.buildings[b := Held(tile.buildings, b) + amount])]
  }

  /** The faction records with faction `tag` charged for `amount` buildings
      of kind b. */
  function Charged(factions: map<string, Faction>, tag: string, b: Building, amount: nat): map<string, Faction>
    requires tag in factions
  {
    var f := factions[tag];
    factions[tag := f.(production := f.production.(money := f.production.money - BatchCost(b, amount)))]
  }

  /** How many buildings of kind b a tile holds. */
  function Held(buildings: map<Building, nat>, b: Building): nat
  {
    if b in buildings then buildings[b] else 0
  }

  /** Adding m and then n buildings of kind b adds m + n. */
  lemma HeldTwice(buildings: map<Building, nat>, b: Building, m: nat, n: nat)
    ensures var once := buildings[b := Held(buildings, b) + m];
      once[b := Held(once, b) + n] == buildings[b := Held(buildings, b) + (m + n)]
  {
  }

  /** A successful corrected build leaves `BuiltWorld`. */
  lemma CorrectedBuilt(w: World, user: User, x: int, y: int, b: Building, amount: int)
    requires FactionsKeyed(w.factions)
    requires CorrectedConstruction(w, user, x, y, Some(b), amount).0 == Built
    ensures amount > 0 && user.faction in w.factions
    ensures CorrectedConstruction(w, user, x, y, Some(b), amount).1 == BuiltWorld(w, user, x, y, b, amount)
  {
  }

  /** A corrected build keeps the store keyed by coordinates and the
      faction records keyed by tag. */
  lemma BuiltWorldKeyed(w: World, user: User, x: int, y: int, b: Building, amount: nat)
    requires WellKeyed(w.tiles) && FactionsKeyed(w.factions) && user.faction in w.factions
    ensures WellKeyed(BuiltWorld(w, user, x, y, b, amount).tiles)
    ensures FactionsKeyed(BuiltWorld(w, user, x, y, b, amount).factions)
  {
  }

  /** Under the corrected charge, when a batch of m passes the checks and a
      batch of n then passes them on the resulting world, a batch of m + n
      passes them on the original world: its space and its cost are the
      sums of the parts'. */
  lemma CorrectedOkCompose(w: World, user: User, x: int, y: int, b: Building, m: nat, n: nat)
    requires WellKeyed(w.tiles) && FactionsKeyed(w.factions)
    requires CorrectedOk(w, user, x, y, b, m)
    requires CorrectedOk(BuiltWorld(w, user, x, y, b, m), user, x, y, b, n)
    ensures CorrectedOk(w, user, x, y, b, m + n)
  {
    var w1 := BuiltWorld(w, user, x, y, b, m);
    var tile := GetTile(w.tiles, x, y);
    assert GetTile(w1.tiles, x, y).buildings == tile.buildings[b := Held(tile.buildings, b) + m];
    AddedSpace(tile.buildings, b, m);
    assert (m + n) * SpaceOf(b) == m * SpaceOf(b) + n * SpaceOf(b);
    assert w1.factions[user.faction].production.money == w.factions[user.faction].production.money - BatchCost(b, m);
    BatchCostSplits(b, m, n);
  }

  /** Building m and then n more of one kind on one cell stores the tile
      that building m + n at once stores. */
  lemma BuiltTilesCompose(tiles: Store, x: int, y: int, b: Building, m: nat, n: nat)
    ensures BuiltTiles(BuiltTiles(tiles, x, y, b, m), x, y, b, n) == BuiltTiles(tiles, x, y, b, m + n)
  {
    var tile := GetTile(tiles, x, y);
    var once := BuiltTiles(tiles, x, y, b, m);
    BuiltTileAt(tiles, x, y, b, m);
    BuiltTileAt(once, x, y, b, n);
    HeldTwice(tile.buildings, b, m, n);
    var tile2 := GetTile(once, x, y).(buildings := GetTile(once, x, y).buildings[b := Held(GetTile(once, x, y).buildings, b) + n]);
    UpdateTwice(tiles, (x, y), GetTile(once, x, y), tile2);
  }

  /** The tile a build stores at (x, y), and the store it leaves. */
  lemma BuiltTileAt(tiles: Store, x: int, y: int, b: Building, amount: nat)
    ensures var tile := GetTile(tiles, x, y);
      var built := tile.(buildings := tile.buildings[b := Held(tile.buildings, b) + amount]);
      && BuiltTiles(tiles, x, y, b, amount) == tiles[(x, y) := built]
      && GetTile(BuiltTiles(tiles, x, y, b, amount), x, y) == built
  {
  }

  /** Writing a key twice keeps the second write. */
  lemma UpdateTwice<K, V>(m: map<K, V>, k: K, v1: V, v2: V)
    ensures m[k := v1][k := v2] == m[k := v2]
  {
  }

  /** Charging for m and then n buildings charges what m + n at once does. */
  lemma ChargedCompose(factions: map<string, Faction>, tag: string, b: Building, m: nat, n: nat)
    requires tag in factions
    ensures tag in Charged(factions, tag, b, m)
    ensures Charged(Charged(factions, tag, b, m), tag, b, n) == Charged(factions, tag, b, m + n)
  {
    BatchCostSplits(b, m, n);
    var f := factions[tag];
    assert f.production.money - BatchCost(b, m) - BatchCost(b, n) == f.production.money - BatchCost(b, m + n);
  }

  /** Under the corrected charge a batch can be split: when building m and
      then n on the same cell both succeed, building m + n at once succeeds
      too and leaves exactly the same world, money included. */
  lemma CorrectedBatchesCompose(w: World, user: User, x: int, y: int, b: Building, m: int, n: int)
    requires WellKeyed(w.tiles) && FactionsKeyed(w.factions)
    requires CorrectedConstruction(w, user, x, y, Some(b), m).0 == Built
    requires CorrectedConstruction(CorrectedConstruction(w, user, x, y, Some(b), m).1, user, x, y, Some(b), n).0 == Built
    ensures CorrectedConstruction(w, user, x, y, Some(b), m + n).0 == Built
    ensures CorrectedConstruction(w, user, x, y, Some(b), m + n).1
         == CorrectedConstruction(CorrectedConstruction(w, user, x, y, Some(b), m).1, user, x, y, Some(b), n).1
  {
    CorrectedBuildSucceedsIff(w, user, x, y, Some(b), m);
    CorrectedBuilt(w, user, x, y, b, m);
    var w1 := BuiltWorld(w, user, x, y, b, m);
    BuiltWorldKeyed(w, user, x, y, b, m);
    CorrectedBuildSucceedsIff(w1, user, x, y, Some(b), n);
    CorrectedBuilt(w1, user, x, y, b, n);
    CorrectedOkCompose(w, user, x, y, b, m, n);
    CorrectedBuildSucceedsIff(w, user, x, y, Some(b), m + n);
    CorrectedBuilt(w, user, x, y, b, m + n);
    BuiltTilesCompose(w.tiles, x, y, b, m, n);
    ChargedCompose(w.factions, user.faction, b, m, n);
  }
}
