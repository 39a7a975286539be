/** The `move_troops` command: the validation chain, the travel distance,
    the food cost, the transfer of units between two tiles and the food
    deduction. Discord replies become the outcome value; the database is the
    `Db` object; parsing the unit name is the `unit` parameter (None when the
    name is not a unit). */
module MoveCommand {
  import opened Wrappers
  import opened Grid
  import opened Sums
  import opened Units
  import opened Tiles
  import opened Permissions
  import opened Users
  import opened TileStore

  /** What the command answers. `Panicked` stands for the runtime panics:
      a missing faction record, or an unsigned subtraction below zero
      (a panic in a debug build; a release build wraps instead). */
  datatype MoveOutcome =
    | NotPermitted
    | ZeroAmount
    | NoSuchUnits
    | OutOfReach
    | InvalidUnit
    | TooFewUnits
    | NotEnoughFood(need: nat)
    | Moved(foodCost: nat)
    | Panicked

  /** Count of kind k in a unit map, zero when absent. */
  function Count(units: map<Unit, nat>, k: Unit): nat
  {
    if k in units then units[k] else 0
  }

  /** v squared, as a natural number. */
  function Square(v: int): nat
  {
    if v < 0 then (-v) * (-v) else v * v
  }

  /** A natural number is at most its square. */
  lemma SquareAtLeast(d: nat)
    ensures d <= d * d
  {
    if d > 0 {
      MulMono(1, d, d);
    }
  }

  /** The least r >= d whose square reaches n. */
  function SqrtFrom(n: nat, d: nat): (r: nat)
    requires d == 0 || (d - 1) * (d - 1) < n
    ensures n <= r * r
    ensures r == 0 || (r - 1) * (r - 1) < n
    decreases n - d
  {
    if n <= d * d then d
    else
      SquareAtLeast(d);
      SqrtFrom(n, d + 1)
  }

  /** The square root of n rounded up: the least r with r * r >= n. */
  function CeilSqrt(n: nat): (r: nat)
    ensures n <= r * r
    ensures r == 0 || (r - 1) * (r - 1) < n
  {
    SqrtFrom(n, 0)
  }

  /** Travel distance: the Euclidean distance rounded up. The source takes a
      double-precision square root of an integer below 2^32 and rounds it up,
      which is exact at these magnitudes. */
  function Distance(from: Coord, to: Coord): nat
  {
    CeilSqrt(Square(from.0 - to.0) + Square(from.1 - to.1))
  }

  /** Food eaten per unit per distance step. */
  function FoodWeight(u: Unit): int
  {
    match u
    case Scout => 1
    case Soldier => 1
    case Cavalry => 2
    case Ranger => 3
    case Knight => 4
    case Citizen => 0
  }

  /** Food eaten per distance step by every unit on a tile. */
  function UnitFood(units: map<Unit, nat>): int
  {
    Weighted(AllUnits, units, units.Keys, FoodWeight)
  }

  /** Food cost of a move: distance times the tile's unit food, but at
      least 1. */
  function FoodCost(units: map<Unit, nat>, distance: nat): (cost: nat)
    ensures cost >= 1
  {
    WeightedNonNegative(AllUnits, units, units.Keys, FoodWeight);
    var raw := UnitFood(units) * distance;
    if raw == 0 then 1 else raw
  }

  /** Every unit kind loses `amount` on the source; kinds that reach zero are
      removed. */
  function Drained(units: map<Unit, nat>, amount: nat): map<Unit, nat>
  {
    map k | k in units && units[k] > amount :: units[k] - amount
  }

  /** Every kind present on the source gains `amount` on the destination. */
  function Filled(dest: map<Unit, nat>, src: map<Unit, nat>, amount: nat): map<Unit, nat>
  {
    map k | k in dest.Keys + src.Keys :: if k in src then Count(dest, k) + amount else dest[k]
  }

  /** `Drained` with the kinds in `left` not yet visited. */
  function PartlyDrained(units: map<Unit, nat>, amount: nat, left: set<Unit>): map<Unit, nat>
  {
    map k | k in units && (k in left || units[k] > amount) :: if k in left then units[k] else units[k] - amount
  }

  /** `Filled` with the kinds in `left` not yet visited. */
  function PartlyFilled(dest: map<Unit, nat>, src: map<Unit, nat>, amount: nat, left: set<Unit>): map<Unit, nat>
  {
    map k | k in dest.Keys + (src.Keys - left) :: if k in src && k !in left then Count(dest, k) + amount else dest[k]
  }

  /** Visiting kind u subtracts `amount` from it and drops it at zero. */
  lemma DrainStep(units: map<Unit, nat>, amount: nat, left: set<Unit>, u: Unit)
    requires u in left && left <= units.Keys && units[u] >= amount
    ensures var m := PartlyDrained(units, amount, left)[u := units[u] - amount];
      PartlyDrained(units, amount, left - {u}) == if units[u] - amount == 0 then m - {u} else m
  {
  }

  /** Visiting kind u adds `amount` to it on the destination. */
  lemma FillStep(dest: map<Unit, nat>, src: map<Unit, nat>, amount: nat, left: set<Unit>, u: Unit)
    requires u in left && left <= src.Keys
    ensures var m := PartlyFilled(dest, src, amount, left);
      PartlyFilled(dest, src, amount, left - {u}) == m[u := if u in m then m[u] + amount else amount]
  {
    var m := PartlyFilled(dest, src, amount, left);
    assert u in m ==> m[u] == dest[u];
  }

  /** Once every kind is visited, the partial maps are the full ones. */
  lemma TransferDone(src: map<Unit, nat>, dest: map<Unit, nat>, amount: nat)
    ensures PartlyDrained(src, amount, {}) == Drained(src, amount)
    ensures PartlyFilled(dest, src, amount, {}) == Filled(dest, src, amount)
  {
    assert src.Keys - {} == src.Keys;
  }

  /** The whole command on the database contents, as the source orders its
      checks. The source tile is read once for the checks and again, with
      the destination, before either is written back. */
  function Move(w: World, user: User, from: Coord, to: Coord, unit: Option<Unit>, amount: nat): (MoveOutcome, World)
  {
    if !Permitted(user, Permission.MoveTroops) then (NotPermitted, w)
    else if amount == 0 then (ZeroAmount, w)
    else if !CheckTile(w.tiles, from.0, from.1) then (NoSuchUnits, w)
    else if !Sees(w.tiles, to.0, to.1, user.faction) then (OutOfReach, w)
    else
      var tile := GetTile(w.tiles, from.0, from.1);
      if tile.faction != user.faction then (NoSuchUnits, w)
      else if unit.None? then (InvalidUnit, w)
      else if unit.value !in tile.units then (NoSuchUnits, w)
      else if amount > tile.units[unit.value] then (TooFewUnits, w)
      else
        var cost := FoodCost(tile.units, Distance(from, to));
        if user.faction !in w.factions then (Panicked, w)
        else if w.factions[user.faction].production.food < cost then (NotEnoughFood(cost), w)
        else if exists k :: k in tile.units && tile.units[k] < amount then (Panicked, w)
        else
          var toTile := GetTile(w.tiles, to.0, to.1);
          var newFrom := tile.(units := Drained(tile.units, amount));
          var newTo := toTile.(units := Filled(toTile.units, tile.units, amount), faction := user.faction, occupied := true);
          var f := w.factions[user.faction];
          var newFaction := f.(production := f.production.(food := f.production.food - cost));
          (Moved(cost),
           World(w.tiles[(newFrom.x, newFrom.y) := newFrom][(newTo.x, newTo.y) := newTo],
                 w.factions[newFaction.tag := newFaction]))
  }

  /** The food-cost accumulator: visits the tile's unit kinds in whatever
      order the map yields them, adds count times weight, multiplies by the
      distance and raises a zero total to 1. */
  method TotalFoodCost(units: map<Unit, nat>, distance: nat) returns (cost: nat)
    ensures cost == FoodCost(units, distance)
  {
    var foodCost := 0;
    var left := units.Keys;
    ghost var done: set<Unit> := {};
    WeightedNone(AllUnits, units, FoodWeight);
    while left != {}
      invariant left + done == units.Keys && left !! done
      invariant foodCost == Weighted(AllUnits, units, done, FoodWeight)
      decreases left
    {
      var u :| u in left;
      var amount := units[u];
      if u == Scout || u == Soldier {
        foodCost := foodCost + amount;
      } else if u == Cavalry {
        foodCost := foodCost + amount * 2;
      } else if u == Ranger {
        foodCost := foodCost + amount * 3;
      } else if u == Knight {
        foodCost := foodCost + amount * 4;
      }
      AllUnitsComplete(u);
      WeightedAdd(AllUnits, units, done, FoodWeight, u);
      left := left - {u};
      done := done + {u};
    }
    WeightedNonNegative(AllUnits, units, units.Keys, FoodWeight);
    foodCost := foodCost * distance;
    if foodCost == 0 {
      foodCost := 1;
    }
    cost := foodCost;
  }

  /** The transfer loop: for every kind on the source, subtract `amount`
      there (removing the entry at zero) and add `amount` on the
      destination. None when some count is below `amount`, where the
      unsigned subtraction panics in a debug build. */
  method TransferUnits(fromUnits: map<Unit, nat>, toUnits: map<Unit, nat>, amount: nat)
    returns (r: Option<(map<Unit, nat>, map<Unit, nat>)>)
    ensures r.None? <==> exists k :: k in fromUnits && fromUnits[k] < amount
    ensures r.Some? ==> r.value == (Drained(fromUnits, amount), Filled(toUnits, fromUnits, amount))
  {
    var newFrom := fromUnits;
    var newTo := toUnits;
    var left := fromUnits.Keys;
    while left != {}
      invariant left <= fromUnits.Keys
      invariant forall k :: k in fromUnits && k !in left ==> fromUnits[k] >= amount
      invariant newFrom == PartlyDrained(fromUnits, amount, left)
      invariant newTo == PartlyFilled(toUnits, fromUnits, amount, left)
      decreases left
    {
      var u :| u in left;
      if newFrom[u] < amount {
        return None;
      }
      DrainStep(fromUnits, amount, left, u);
      FillStep(toUnits, fromUnits, amount, left, u);
      newFrom := newFrom[u := newFrom[u] - amount];
      if newFrom[u] == 0 {
        newFrom := newFrom - {u};
      }
      var unitExists := u in newTo;
      var newAmount := if unitExists then newTo[u] + amount else amount;
      newTo := newTo[u := newAmount];
      left := left - {u};
    }
    TransferDone(fromUnits, toUnits, amount);
    return Some((newFrom, newTo));
  }

  /** `move_troops` against the database: follows `Move` step for step. */
  method MoveTroops(db: Db, user: User, from: Coord, to: Coord, unit: Option<Unit>, amount: nat)
    returns (outcome: MoveOutcome)
    requires db.Valid()
    modifies db
    ensures db.Valid()
    ensures (outcome, World(db.tiles, db.factions)) == Move(World(old(db.tiles), old(db.factions)), user, from, to, unit, amount)
  {
    if !Permitted(user, Permission.MoveTroops) {
      return NotPermitted;
    }
    if amount == 0 {
      return ZeroAmount;
    }
    var tileExists := CheckTile(db.tiles, from.0, from.1);
    if !tileExists {
      return NoSuchUnits;
    }
    var faction := user.faction;
    var canSee := CanFactionSee(db.tiles, to.0, to.1, faction);
    if !canSee {
      return OutOfReach;
    }
    var tile := GetTile(db.tiles, from.0, from.1);
    if tile.faction != faction {
      return NoSuchUnits;
    }
    var units := tile.units;
    if unit.None? {
      return InvalidUnit;
    }
    if unit.value !in units {
      return NoSuchUnits;
    }
    if amount > units[unit.value] {
      return TooFewUnits;
    }
    var distance := Distance(from, to);
    var foodCost := TotalFoodCost(units, distance);
    if faction !in db.factions {
      return Panicked;
    }
    var food := db.factions[faction].production.food;
    if food < foodCost {
      return NotEnoughFood(foodCost);
    }
    var fromTile := GetTile(db.tiles, from.0, from.1);
    var toTile := GetTile(db.tiles, to.0, to.1);
    var moved := TransferUnits(fromTile.units, toTile.units, amount);
    if moved.None? {
      return Panicked;
    }
    fromTile := fromTile.(units := moved.value.0);
    toTile := toTile.(units := moved.value.1);
    db.SetTile(fromTile);
    toTile := toTile.(faction := faction);
    toTile := toTile.(occupied := true);
    db.SetTile(toTile);
    var currentFood := db.factions[faction].production.food;
    var newFood := currentFood - foodCost;
    var record := db.factions[faction];
    record := record.(production := record.production.(food := newFood));
    db.SaveFaction(record);
    return Moved(foodCost);
  }

  /** Squaring keeps the order of natural numbers. */
  lemma SquareMono(a: nat, b: nat)
    requires a <= b
    ensures a * a <= b * b
  {
    MulMono(a, b, a);
    MulMono(a, b, b);
  }

  /** The rounded-up square root is the one number whose square reaches n
      while its predecessor's does not. */
  lemma CeilSqrtUnique(n: nat, d: nat)
    ensures d == CeilSqrt(n) <==> n <= d * d && (d == 0 || (d - 1) * (d - 1) < n)
  {
    var r := CeilSqrt(n);
    if n <= d * d && (d == 0 || (d - 1) * (d - 1) < n) {
      if d < r {
        SquareMono(d, r - 1);
      } else if d > r {
        SquareMono(r, d - 1);
      }
    }
  }

  /** A move has distance zero exactly when it stays on the same cell. */
  lemma DistanceZero(from: Coord, to: Coord)
    ensures Distance(from, to) == 0 <==> from == to
  {
    var n := Square(from.0 - to.0) + Square(from.1 - to.1);
    if Distance(from, to) == 0 {
      assert n <= 0;
      SquareZero(from.0 - to.0);
      SquareZero(from.1 - to.1);
    }
  }

  lemma SquareZero(v: int)
    ensures Square(v) == 0 <==> v == 0
  {
    if v != 0 {
      var a := if v < 0 then -v else v;
      SquareAtLeast(a);
    }
  }

  /** A move of k cells along one axis has distance |k|. */
  lemma DistanceStraight(x: int, y: int, k: int)
    ensures Distance((x, y), (x + k, y)) == if k < 0 then -k else k
  {
    var a: nat := if k < 0 then -k else k;
    assert Square(x - (x + k)) == a * a;
    assert Square(y - y) == 0;
    if a > 0 {
      SquareMono(a - 1, a);
      assert (a - 1) * (a - 1) < a * a by {
        assert a * a == (a - 1) * (a - 1) + 2 * a - 1;
      }
    }
    CeilSqrtUnique(a * a, a);
  }

  /** A tile holding n units of a single kind costs weight * n * distance
      food, or 1 when that product is zero. */
  lemma FoodCostSingleKind(k: Unit, n: nat, d: nat)
    ensures FoodCost(map[k := n], d) == if FoodWeight(k) * n * d == 0 then 1 else FoodWeight(k) * n * d
  {
    var m := map[k := n];
    WeightedNone(AllUnits, m, FoodWeight);
    AllUnitsComplete(k);
    WeightedAdd(AllUnits, m, {}, FoodWeight, k);
    assert {} + {k} == m.Keys;
  }

  /** Going further never costs less food. */
  lemma FoodCostMonotone(units: map<Unit, nat>, d1: nat, d2: nat)
    requires d1 <= d2
    ensures FoodCost(units, d1) <= FoodCost(units, d2)
  {
    WeightedNonNegative(AllUnits, units, units.Keys, FoodWeight);
    var f: nat := UnitFood(units);
    MulMono(d1, d2, f);
    assert f * d1 == d1 * f && f * d2 == d2 * f;
  }

  /** The checks the command makes, in one place: a move succeeds exactly
      when the mover may move troops, moves some units, owns a stored source
      tile within sight of the target, names a kind present there in at
      least that number, has a faction record with enough food, and no kind
      on the source has fewer than `amount` units. */
  lemma MoveSucceedsIff(w: World, user: User, from: Coord, to: Coord, unit: Option<Unit>, amount: nat)
    ensures Move(w, user, from, to, unit, amount).0.Moved? <==>
      var tile := GetTile(w.tiles, from.0, from.1);
      && Permitted(user, Permission.MoveTroops) && amount > 0
      && CheckTile(w.tiles, from.0, from.1) && Sees(w.tiles, to.0, to.1, user.faction)
      && tile.faction == user.faction
      && unit.Some? && unit.value in tile.units && amount <= tile.units[unit.value]
      && user.faction in w.factions
      && w.factions[user.faction].production.food >= FoodCost(tile.units, Distance(from, to))
      && (forall k :: k in tile.units ==> tile.units[k] >= amount)
    ensures !Move(w, user, from, to, unit, amount).0.Moved? ==> Move(w, user, from, to, unit, amount).1 == w
  {
  }

  /** After a successful move the source tile has only its units drained,
      the destination has only its units filled and is occupied and held by
      the mover's faction, the faction record differs only in a food drop of
      exactly the food cost (and stays non-negative), and no other cell or
      faction changed. */
  lemma MoveEffects(w: World, user: User, from: Coord, to: Coord, unit: Option<Unit>, amount: nat)
    requires WellKeyed(w.tiles) && FactionsKeyed(w.factions)
    requires Move(w, user, from, to, unit, amount).0.Moved?
    ensures var (outcome, w') := Move(w, user, from, to, unit, amount);
      var tile := GetTile(w.tiles, from.0, from.1);
      && outcome.foodCost == FoodCost(tile.units, Distance(from, to))
      && to in w'.tiles && w'.tiles[to].occupied && w'.tiles[to].faction == user.faction
      && from in w'.tiles
      && user.faction in w'.factions
      && w'.factions[user.faction].production.food == w.factions[user.faction].production.food - outcome.foodCost >= 0
      && w'.factions.Keys == w.factions.Keys
      && (forall g :: g in w.factions && g != user.faction ==> w'.factions[g] == w.factions[g])
      && (forall c :: c != from && c != to ==> (c in w'.tiles <==> c in w.tiles))
      && (forall c :: c != from && c != to && c in w.tiles ==> w'.tiles[c] == w.tiles[c])
      // the source keeps everything but its units, which are drained
      && (from != to ==> w'.tiles[from] == tile.(units := Drained(tile.units, amount)))
      // the destination keeps its coordinates and buildings
      && var dst := GetTile(w.tiles, to.0, to.1);
      && w'.tiles[to] == dst.(units := Filled(dst.units, tile.units, amount), faction := user.faction, occupied := true)
      // the faction record changes in its food only
      && var f := w.factions[user.faction];
      && w'.factions[user.faction] == f.(production := f.production.(food := f.production.food - outcome.foodCost))
  {
    var tile := GetTile(w.tiles, from.0, from.1);
    var dst := GetTile(w.tiles, to.0, to.1);
    assert tile.x == from.0 && tile.y == from.1 && dst.x == to.0 && dst.y == to.1;
  }

  /** Between two distinct cells, a move conserves every unit kind: what
      leaves the source arrives at the destination. */
  lemma MoveConserves(w: World, user: User, from: Coord, to: Coord, unit: Option<Unit>, amount: nat, k: Unit)
    requires WellKeyed(w.tiles) && FactionsKeyed(w.factions)
    requires from != to && Move(w, user, from, to, unit, amount).0.Moved?
    ensures var w' := Move(w, user, from, to, unit, amount).1;
      Count(GetTile(w'.tiles, from.0, from.1).units, k) + Count(GetTile(w'.tiles, to.0, to.1).units, k)
        == Count(GetTile(w.tiles, from.0, from.1).units, k) + Count(GetTile(w.tiles, to.0, to.1).units, k)
  {
    var src := GetTile(w.tiles, from.0, from.1);
    var dst := GetTile(w.tiles, to.0, to.1);
    assert src.x == from.0 && src.y == from.1 && dst.x == to.0 && dst.y == to.1;
  }

  /** As written, every kind on the source moves, not only the named one:
      each kind present there leaves `amount` units and the destination
      gains `amount` of it. */
  lemma MoveShiftsEveryKind(w: World, user: User, from: Coord, to: Coord, unit: Option<Unit>, amount: nat, k: Unit)
    requires WellKeyed(w.tiles) && FactionsKeyed(w.factions)
    requires from != to && Move(w, user, from, to, unit, amount).0.Moved?
    requires k in GetTile(w.tiles, from.0, from.1).units
    ensures var w' := Move(w, user, from, to, unit, amount).1;
      && Count(GetTile(w'.tiles, from.0, from.1).units, k) == GetTile(w.tiles, from.0, from.1).units[k] - amount
      && Count(GetTile(w'.tiles, to.0, to.1).units, k) == Count(GetTile(w.tiles, to.0, to.1).units, k) + amount
  {
    var src := GetTile(w.tiles, from.0, from.1);
    var dst := GetTile(w.tiles, to.0, to.1);
    assert src.x == from.0 && src.y == from.1 && dst.x == to.0 && dst.y == to.1;
  }

  /** As written, moving onto the source cell itself adds `amount` to every
      kind there: the destination copy, read before the source was written,
      overwrites it. */
  lemma SelfMoveMultiplies(w: World, user: User, from: Coord, unit: Option<Unit>, amount: nat, k: Unit)
    requires WellKeyed(w.tiles) && FactionsKeyed(w.factions)
    requires Move(w, user, from, from, unit, amount).0.Moved?
    requires k in GetTile(w.tiles, from.0, from.1).units
    ensures var w' := Move(w, user, from, from, unit, amount).1;
      && from in w'.tiles
      && Count(w'.tiles[from].units, k) == GetTile(w.tiles, from.0, from.1).units[k] + amount
      && Count(w'.tiles[from].units, k) > GetTile(w.tiles, from.0, from.1).units[k]
  {
    var src := GetTile(w.tiles, from.0, from.1);
    assert src.x == from.0 && src.y == from.1;
  }

  /** Removes `amount` units of kind u, dropping the entry at zero. */
  function Take(units: map<Unit, nat>, u: Unit, amount: nat): map<Unit, nat>
    requires Count(units, u) >= amount
  {
    if Count(units, u) == amount then units - {u} else units[u := units[u] - amount]
  }

  /** Adds `amount` units of kind u. */
  function Give(units: map<Unit, nat>, u: Unit, amount: nat): map<Unit, nat>
  {
    units[u := Count(units, u) + amount]
  }

  /** The transfer the command evidently intends: only kind u moves, and the
      destination is read after the source is written, so a move onto the
      same cell leaves its units as they were. */
  function TransferOneKind(tiles: Store, from: Coord, to: Coord, faction: string, u: Unit, amount: nat): Store
    requires Count(GetTile(tiles, from.0, from.1).units, u) >= amount
  {
    var src := GetTile(tiles, from.0, from.1);
    var afterSource := tiles[from := src.(units := Take(src.units, u, amount))];
    var dst := GetTile(afterSource, to.0, to.1);
    afterSource[to := dst.(units := Give(dst.units, u, amount), faction := faction, occupied := true)]
  }

  /** The intended transfer conserves every kind, moves `amount` of kind u
      from one distinct cell to the other and leaves other kinds where they
      were; a transfer onto the same cell changes no count. */
  lemma TransferOneKindConserves(tiles: Store, from: Coord, to: Coord, faction: string, u: Unit, amount: nat, k: Unit)
    requires Count(GetTile(tiles, from.0, from.1).units, u) >= amount
    ensures var t' := TransferOneKind(tiles, from, to, faction, u, amount);
      var before := GetTile(tiles, from.0, from.1).units;
      var after := GetTile(t', from.0, from.1).units;
      && (from == to ==> Count(after, k) == Count(before, k))
      && (from != to ==>
            Count(after, k) + Count(GetTile(t', to.0, to.1).units, k)
              == Count(before, k) + Count(GetTile(tiles, to.0, to.1).units, k))
      && (from != to && k == u ==> Count(after, k) == Count(before, k) - amount)
      && (k != u ==> Count(after, k) == Count(before, k))
      && (from != to && k != u ==> Count(GetTile(t', to.0, to.1).units, k) == Count(GetTile(tiles, to.0, to.1).units, k))
  {
  }
}
