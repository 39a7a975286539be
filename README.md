# KingdomBot game logic in Dafny

This project models the game-logic layer of KingdomBot, a Discord strategy
game bot. Players belong to factions. Factions claim tiles of an unbounded
integer grid, and the tiles hold buildings and units. The model covers these
parts of the bot:

- **Map raster** (`Image`): the integer geometry of `draw_map`.
  - The canvas size.
  - Each tile's 155 × 155 pixel block: a 150-pixel tile plus a 5-pixel border.
  - The 35-pixel clumping of the noise sample coordinates.
  - Which tiles get a background.
  - The border colour, chosen by occupancy and faction.
  - The drawing loops, on an `array2` of RGB triples.
- **Map window** (`MapCommand`): the grid of tiles around a centre cell.
  - The window range.
  - The three branches: batch fetch, all blank, and per-cell lookup.
  - Cutting the fetched list into rows of ten.
- **Tile store** (`TileStore`): the `tiles` collection as a map from `(x, y)` to the stored tile.
  - Queries: `check`, `get`, `all_exist`, `any_exist`, `get_many` and `can_faction_see`.
  - Helpers: `blank_tile`, `blank_tile_range` and `invert_y`.
  - Writes: set, set-many and delete, as methods of a `Db` class whose fields the writes update.
- **Grid helpers**: `split_tiles` (`Conversions`), and the older tile record with its blank-tile range (`LegacyMap`).
- **Commands**:
  - `move_troops` (`MoveCommand`): the validation chain, the integer distance, the food cost, the transfer of units and the food deduction.
  - `build` (`BuildCommand`): the validation chain, the space accounting, the money deduction and the building-count update.
- **Database cleaners** (`Cleaners`):
  - Upper-casing of faction names and tags.
  - `Vec::dedup` of permission and member lists.
  - Sorting permissions by name.
  - The keep/delete decision for tiles and factions, and the store the tile cleaner leaves behind.
- **Rule tables** (`Buildings`, `Units`, `Permissions`, `Users`): `Building::data`, `Unit::data` and its `beats` relation, and `User::permitted`.

How the model is set up:

- **Value types**: `Tile`, `Faction` and `User` are datatypes.
- **The store**: the `Db` class owns the tile and faction maps.
  - Every state-changing command is a method that takes the `Db` (`MoveTroops`, `Build`, `CleanTiles`). `MapWindow` only reads a `Store` value.
  - Each method is proved equal to a specification function on a `World` value (`Move`, `Construction`, `CleanedStore`).
  - The lemmas state the game rules about those functions.
- **Loops**: loops over a `HashMap` pick keys with `:|`, so the proofs hold for every iteration order. Their totals are weighted sums over a fixed enumeration of all kinds (`Sums.Weighted`).
- **Integers**: counts are `nat`, and the i32/u32 widths are not modelled (see "Left out"). A u32 subtraction below zero panics in a debug build; a release build wraps. The model follows the debug build: that subtraction is an explicit `Panicked` outcome that changes nothing.
- **Parsed names**: a unit or building name that does not parse is the `None` case of an `Option` parameter.

How the code works, in three points the model follows:

- **Rendering**: the code draws one canvas in two sequential passes, a background pass then a border pass. The borders are plain rectangles.
- **Y inversion**: the code reverses each column of the tile grid (`invert_y`) before drawing. It does not flip the finished canvas.
- **Window size**: the map window is meant to be `D × D` in every branch. The batch branch fetches an inclusive 11 × 11 box; see "Findings".

## Model

| member | source | states |
|---|---|---|
| Buildings.Data | src/utils/types/buildings.rs:21-62 | every building takes between 1 and 100 units of space and has a non-negative cost; only the Capital takes the whole tile of 100, and only the Capital is free |
| Buildings.CostAndSpace | src/utils/types/buildings.rs:24-54 | the exact cost and space of each kind: Farm 100/1, Mine 100/4, Capital 0/100, House 100/10, Hut 50/5 |
| Buildings.AllBuildingsComplete | src/utils/types/buildings.rs:4-10 | the enumeration of building kinds lists every kind once |
| Units.Data | src/utils/types/units.rs:22-43 | every unit takes one unit of space and no kind beats itself |
| Units.ListedWins | src/utils/types/units.rs:26-35 | Soldier beats Citizen; Cavalry beats Soldier; Ranger beats Soldier and Cavalry; Knight beats Cavalry and Soldier; Scout beats Citizen |
| Units.Unbeaten | src/utils/types/units.rs:25-35 | a Citizen beats nothing, and nothing beats a Ranger, a Knight or a Scout |
| Units.BeatsDescends | src/utils/types/units.rs:25-35 | every win goes strictly down a strength tier |
| Units.ChainDescends | src/utils/types/units.rs:25-35 | along any chain of wins the tier strictly drops from the first unit to the last |
| Units.NoBeatsCycle | src/utils/types/units.rs:25-35 | the beats relation has no cycle: a chain of one or more wins never returns to its first unit |
| Units.AllUnitsComplete | src/utils/types/units.rs:4-11 | the enumeration of unit kinds lists every kind once |
| Users.LeaderAndEmpty | src/utils/types/users.rs:19-21 | a Leader is permitted everything; a user with no permissions is permitted nothing |
| Users.PermittedMonotone | src/utils/types/users.rs:19-21 | granting more permissions never revokes a permission |
| TileStore.BlankTile | src/utils/database/tiles.rs:291-296 | a blank tile has the requested coordinates, is unoccupied, unclaimed, and holds no buildings and no units |
| TileStore.GetTile | src/utils/database/tiles.rs:22-41 | the stored tile when (x, y) is stored, the blank tile at (x, y) otherwise; in a well-keyed store the result carries coordinates (x, y) |
| TileStore.Db.SetTile | src/utils/database/tiles.rs:54-66 | after the write the cell (t.x, t.y) holds t and every other cell and the factions are unchanged, whether the write inserted or replaced |
| TileStore.Db.DeleteTile | src/utils/database/tiles.rs:367-377 | the cell (x, y) is removed and nothing else changes |
| TileStore.Db.SaveFaction | src/utils/database/factions.rs:46-65 | the faction record under the saved faction's tag is replaced or inserted; the tiles are unchanged |
| TileStore.Db.SetMany | src/utils/database/tiles.rs:276-282 | the store equals the result of writing the tiles one after another (`Setting`) |
| TileStore.SettingHit | src/utils/database/tiles.rs:276-282 | after the batch write, a cell that some written tile names holds that tile, when all tiles written there agree |
| TileStore.SettingMiss | src/utils/database/tiles.rs:276-282 | after the batch write, a cell that no written tile names keeps its old contents |
| TileStore.DeletingHit | src/utils/database/tiles.rs:367-377 | a cell named by some deleted tile is gone |
| TileStore.DeletingMiss | src/utils/database/tiles.rs:367-377 | a cell named by no deleted tile keeps its old contents |
| TileStore.AllExist | src/utils/database/tiles.rs:149-162 | true exactly when every cell of the half-open box `x0..x1` × `y0..y1` is stored |
| TileStore.CheckMany | src/utils/database/tiles.rs:124-136 | one presence flag per cell of the half-open box, in x-major order |
| TileStore.GetManyMembers | src/utils/database/tiles.rs:218-228 | a tile is fetched exactly when it is stored at a cell of the closed box (the store's `$gte`/`$lte` filters) |
| TileStore.AnyExistIff | src/utils/database/tiles.rs:174-189 | the one-document probe of the closed box finds a tile exactly when fetching the whole box returns at least one tile |
| TileStore.FetchAllPresent | src/utils/database/tiles.rs:218-228 | when every requested cell is stored, the fetch returns one tile per requested cell |
| TileStore.FetchStoredCells | src/utils/database/tiles.rs:218-228 | over a fully stored box, the fetch in x-major order equals the per-cell lookup over the same cells |
| TileStore.BlankTileRange | src/utils/database/tiles.rs:309-318 | the blank tiles of every cell of the half-open box, in x-major order |
| Grid.CellsAt | src/utils/database/tiles.rs:309-318 | a box range holds width × height values, and cell (i, j) sits at index i × height + j |
| Grid.CellsMember | src/utils/database/tiles.rs:309-318 | every value of a box range comes from a cell of the box |
| TileStore.InvertY | src/utils/database/tiles.rs:321-332 | every column of the grid is reversed, in order (`InvertedY`) |
| TileStore.InvertYShape | src/utils/database/tiles.rs:321-332 | inversion keeps the number of columns and each column's length, and moves tile j of a column to position len − 1 − j |
| TileStore.InvertYTwice | src/utils/database/tiles.rs:321-332 | inverting twice gives back the original grid |
| TileStore.CanFactionSee | src/utils/database/tiles.rs:347-365 | true exactly when some stored tile within the closed box of ±10 cells around (x, y) belongs to the faction |
| Conversions.SplitTiles | src/utils/conversions.rs:15-26 | for size > 0: exactly `size` rows of `size` tiles whose concatenation is the first size × size input tiles; for size ≤ 0: no rows; the input must hold size × size tiles, because `remove(0)` on an empty list panics |
| LegacyMap.LegacyBlankTile | src/utils/map.rs:38-56 | the legacy blank tile is unoccupied at (0, 0), not a unit, and every occupant string is empty |
| LegacyMap.LegacyBlankTileRange | src/utils/map.rs:69-79 | a blank legacy tile for each cell of the half-open box, moved to that cell, in x-major order |
| LegacyMap.LegacyRangeShape | src/utils/map.rs:69-79 | the legacy range holds width × height tiles, all unoccupied and not units, and index i × height + j holds the blank tile at (x0 + i, y0 + j) |
| Image.BorderRule | src/utils/image.rs:70-113 | a pixel on the border ring of tile (x, y) ends sky blue exactly when the tile is occupied by the viewer's faction, red exactly when it is occupied by another faction, and black exactly when it is unoccupied |
| Image.ClumpUnique | src/utils/image.rs:50-51 | the clumped coordinate is the one multiple of 35 at or below p and within 35 of it |
| Image.SameClumpSameColour | src/utils/image.rs:46-61 | two background pixels in the same 35 × 35 clump get the same colour |
| Image.FirstColumnBlack | src/utils/image.rs:43 | the first column's tiles get no background: inside their border ring they stay black |
| Image.LastRowBlack | src/utils/image.rs:44 | the last tile of every column gets no background: inside its border ring it stays black |
| Image.TileBlockInCanvas | src/utils/image.rs:29-32 | every tile block the border pass draws lies inside the canvas |
| Image.PixelOwner | src/utils/image.rs:48-49 | a pixel written for tile block b at offset l belongs to block b alone, so distinct tiles' blocks are disjoint |
| Image.BlockLocal | src/utils/image.rs:48-49 | every pixel past the leading border splits into one block index and one in-block offset |
| Image.DrawTileBackground | src/utils/image.rs:46-63 | the 150 × 150 interior of tile (x, y) takes the background colour of each pixel's clump; every other pixel is unchanged |
| Image.DrawTopBottomBorders | src/utils/image.rs:82-96 | the top and bottom border strips of tile (x, y) take the border colour; every other pixel is unchanged |
| Image.DrawSideBorders | src/utils/image.rs:99-113 | the left and right border strips of tile (x, y) take the border colour; every other pixel is unchanged |
| Image.PaintColumnBackgrounds | src/utils/image.rs:44-64 | after the background pass over column x, every pixel is at the next stage of the two-pass drawing |
| Image.PaintColumnBorders | src/utils/image.rs:71-114 | after the border pass over column x, every pixel is at the next stage of the two-pass drawing |
| Image.StageEnds | src/utils/image.rs:29-115 | the first stage is all black, and the final stage is the finished map pixel |
| Image.DrawMap | src/utils/image.rs:17-115 | a fresh canvas of (columns × 155 + 5) × (rows of column 0 × 155 + 5) pixels. Each pixel is its tile's border colour on a border ring. Inside a painted tile it is the background of its clump. Elsewhere it is black. Borders are drawn after backgrounds, so they win |
| MapCommand.MapWindow | src/commands/map.rs:14-66 | window `x − 5 .. x + 5` × `y − 5 .. y + 5`. When all of it is stored: the batch fetch cut into rows of ten. When none of the box is stored: the blank tiles of the window. Otherwise: the stored tile or a blank tile per cell |
| MapCommand.ChunkTiles | src/commands/map.rs:27-38 | every emitted row holds ten tiles; the rows concatenate to a prefix of the fetched list; a trailing short row is dropped |
| MapCommand.BlankWindow | src/commands/map.rs:40-48 | the blank tile of every window cell, one row per x |
| MapCommand.LookupWindow | src/commands/map.rs:49-65 | per cell, the stored tile or a blank tile with the cell's coordinates |
| MapCommand.ChunksUnique | src/commands/map.rs:27-38 | there is only one way to cut a list into rows of ten |
| MapCommand.WindowCell | src/commands/map.rs:49-65 | window cell (i, j) is the tile of cell (x − 5 + i, y − 5 + j): the stored one when there is one, otherwise an unoccupied tile; the window is 10 × 10 |
| MapCommand.EmptyWindowBranchesAgree | src/commands/map.rs:40-65 | when nothing in the box is stored, the blank window and the per-cell window coincide |
| MapCommand.FullBoxOverflows | src/commands/map.rs:22-38 | as written: with all 121 cells of the closed box stored, the batch fetch returns 121 tiles and the window has 12 rows |
| MapCommand.WindowFetchIsWindow | src/commands/map.rs:22-38 | with the range the presence test covers, a fully stored window fetches exactly 100 tiles whose cut is the 10 × 10 per-cell window |
| MoveCommand.CeilSqrtUnique | src/commands/move.rs:77-78 | the distance is the one natural number whose square reaches dx² + dy² while its predecessor's square does not |
| MoveCommand.DistanceZero | src/commands/move.rs:77-78 | the distance is zero exactly when source and destination coincide |
| MoveCommand.DistanceStraight | src/commands/move.rs:77-78 | a move of k cells along one axis has distance \|k\| |
| MoveCommand.TotalFoodCost | src/commands/move.rs:79-94 | in any key order the loop computes the weighted unit count (Scout and Soldier 1, Cavalry 2, Ranger 3, Knight 4, Citizen 0) times the distance, raised to 1 when zero |
| MoveCommand.FoodCostSingleKind | src/commands/move.rs:79-94 | n units of one kind cost weight × n × distance food, or 1 when that is zero |
| MoveCommand.FoodCostMonotone | src/commands/move.rs:79-94 | going further never costs less food |
| MoveCommand.TransferUnits | src/commands/move.rs:117-134 | fails (the u32 subtraction panics in a debug build; a release build wraps) exactly when some kind on the source has fewer than `amount` units; otherwise every kind loses `amount` on the source (removed at zero) and gains `amount` on the destination |
| MoveCommand.MoveTroops | src/commands/move.rs:25-156 | the command on the database does exactly what `Move` says, check for check |
| MoveCommand.MoveSucceedsIff | src/commands/move.rs:25-113 | the move succeeds exactly when every check passes: permission, positive amount, stored source tile of the mover's faction, destination within sight, a valid unit kind present in at least `amount`, an existing faction with enough food, and no kind below `amount`. Every refusal changes nothing |
| MoveCommand.MoveEffects | src/commands/move.rs:117-156 | on success the source tile differs only in its units, which are drained (between distinct cells). The destination keeps its coordinates and buildings; its units are filled, and it becomes occupied and held by the mover's faction. The faction record differs only in food, which drops by exactly the food cost and stays non-negative. No other cell or faction changes |
| MoveCommand.MoveConserves | src/commands/move.rs:117-143 | between two distinct cells each unit kind is conserved: what leaves the source arrives at the destination |
| MoveCommand.MoveShiftsEveryKind | src/commands/move.rs:119-134 | as written: every kind on the source moves `amount` units, not only the named kind |
| MoveCommand.SelfMoveMultiplies | src/commands/move.rs:117-143 | as written: a move onto the source cell itself adds `amount` to every kind there |
| MoveCommand.TransferOneKindConserves | src/commands/move.rs:117-143 | the intended transfer moves only the named kind, conserves every kind, and changes no count when source and destination coincide |
| BuildCommand.TotalUsedSpace | src/commands/build.rs:66-71 | in any key order the loop computes the space taken by the tile's buildings, as space × count summed over the kinds |
| BuildCommand.Build | src/commands/build.rs:22-126 | the command on the database does exactly what `Construction` says, check for check |
| BuildCommand.BuildSucceedsIff | src/commands/build.rs:22-109 | the build succeeds exactly when every check passes: permission, positive amount, the cell is unstored or unclaimed or the builder's own, a valid kind other than the Capital, used space + amount × space ≤ 100, an existing faction with at least one building's cost. Every refusal changes nothing |
| BuildCommand.BuildEffects | src/commands/build.rs:111-126 | on success the built kind's count rises by `amount` (from 0 when absent); other kinds, units, claim and occupation are unchanged; the faction record differs only in money, which drops by one building's cost and stays non-negative; no other cell or faction changes |
| BuildCommand.BuildFitsTile | src/commands/build.rs:66-85 | a successful build adds exactly amount × space to the tile's used space, which stays within the tile's 100 |
| BuildCommand.AddedSpace | src/commands/build.rs:66-71 | adding n buildings of one kind adds n × its space to the used space |
| BuildCommand.UsedSpaceBounds | src/commands/build.rs:66-71 | used space is non-negative and at least the space of any one kind present |
| BuildCommand.CapitalTileIsFull | src/commands/build.rs:66-85 | nothing can be built on a tile that holds a Capital |
| BuildCommand.UnclaimedBuildIsCleaned | src/commands/build.rs:111-126 | building on an unstored cell charges the faction but stores an unclaimed, unoccupied tile, which the tile cleaner deletes |
| BuildCommand.BatchChargedOnce | src/commands/build.rs:92-111 | as written: a batch of two or more is charged one building's cost, less than the batch's buildings cost |
| BuildCommand.BatchCostSplits | src/commands/build.rs:92-111 | the intended charge (amount × cost) is additive, costs the table price for one building, and grows with the amount |
| BuildCommand.CorrectedConstruction | src/commands/build.rs:92-114 | the command as intended: the same checks as written, but the money check and the deduction use amount × cost |
| BuildCommand.CorrectedBuildSucceedsIff | src/commands/build.rs:22-126 | the corrected build succeeds exactly when the as-written checks pass with the batch's cost in the money check. A refusal changes nothing. A success stores the same tiles as the as-written build and takes exactly the batch's cost from the faction's money, which stays non-negative |
| BuildCommand.CorrectedOk | src/commands/build.rs:22-97 | definition: the checks of the command with the batch's cost in the money check: permission, positive amount, the cell unstored, unclaimed or the builder's own, not a Capital, room for the batch, an existing faction that can pay for the batch |
| BuildCommand.CorrectedBuilt | src/commands/build.rs:111-126 | a successful corrected build stores the tile at (x, y) with `amount` more buildings of the kind and charges the faction the batch's cost (`BuiltWorld`) |
| BuildCommand.CorrectedOkCompose | src/commands/build.rs:66-97 | when a batch of m passes the corrected checks and a batch of n then passes them, a batch of m + n passes them on the original world |
| BuildCommand.BuiltTilesCompose | src/commands/build.rs:115-126 | adding m and then n buildings of a kind to a cell stores the same tile as adding m + n |
| BuildCommand.ChargedCompose | src/commands/build.rs:111-114 | charging for m and then n buildings leaves the same faction records as charging for m + n |
| BuildCommand.CorrectedBatchesCompose | src/commands/build.rs:92-126 | under the corrected charge, when building m and then n on a cell both succeed, building m + n at once succeeds and leaves exactly the same world, money included |
| Cleaners.ToUpperFacts | src/utils/database/cleaners.rs:15 | upper-casing empties only the empty string and is idempotent |
| Cleaners.DedupNoAdjacent | src/utils/database/cleaners.rs:11 | de-duplication leaves no two equal neighbours |
| Cleaners.DedupSubseq | src/utils/database/cleaners.rs:62 | the de-duplicated list is a subsequence of the input |
| Cleaners.DedupSameValues | src/utils/database/cleaners.rs:11 | de-duplication keeps exactly the values of the input |
| Cleaners.DedupFixed | src/utils/database/cleaners.rs:11 | de-duplication leaves a list unchanged exactly when it has no equal neighbours |
| Cleaners.DedupEmpty | src/utils/database/cleaners.rs:62 | de-duplication empties only the empty list |
| Cleaners.NameOrder | src/utils/database/cleaners.rs:12-14 | comparing permission names orders the permissions Build < Leader < MoveTroops < NoMoneyCap < War |
| Cleaners.SortByNameKeeps | src/utils/database/cleaners.rs:12-14 | sorting yields a list ordered by name with the same permissions, each as often as before |
| Cleaners.CleanUsers | src/utils/database/cleaners.rs:6-20 | every user is kept, in order, and cleaned |
| Cleaners.CleanUserFacts | src/utils/database/cleaners.rs:9-17 | a cleaned user keeps identity and name; the faction is upper-cased; permissions are sorted by name, hold the de-duplicated permissions, and grant exactly what they granted before |
| Cleaners.SeparatedDuplicatesSurvive | src/utils/database/cleaners.rs:11-14 | de-duplication runs before the sort, so [Build, War, Build] becomes [Build, Build, War] |
| Cleaners.KeptBySizes | src/utils/database/cleaners.rs:40-44 | each record lands in exactly one of the kept and delete lists |
| Cleaners.KeptByMember | src/utils/database/cleaners.rs:27-45 | a record is in the kept (delete) list exactly when it is the cleaned form of an input record whose decision is keep (delete) |
| Cleaners.KeptByOrder | src/utils/database/cleaners.rs:40-44 | each list keeps the input order |
| Cleaners.SortTiles | src/utils/database/cleaners.rs:27-45 | the loop pushes exactly the cleaned tiles that are claimed, hold a building or unit, and are occupied onto the kept list, and the rest onto the delete list |
| Cleaners.CleaningCell | src/utils/database/cleaners.rs:46-50 | after writing the kept tiles and deleting the others' cells, a cell holds the cleaned tile exactly when that tile is kept |
| Cleaners.CleaningStore | src/utils/database/cleaners.rs:46-50 | writing the kept tiles and deleting the others' cells yields the cleaned store |
| Cleaners.CleanTiles | src/utils/database/cleaners.rs:22-52 | the tile collection becomes the cleaned store; factions are unchanged |
| Cleaners.CleanedStoreFacts | src/utils/database/cleaners.rs:29-39 | a cell survives cleaning exactly when its stored tile is claimed, occupied and holds something; the survivor's faction is upper-cased; cleaning twice is cleaning once |
| Cleaners.SortFactions | src/utils/database/cleaners.rs:59-78 | the loop pushes exactly the cleaned factions with non-empty tag, name and members onto the kept list, and the rest onto the delete list |
| Cleaners.FactionDeletedIff | src/utils/database/cleaners.rs:59-77 | a faction is deleted exactly when its stored tag, name or member list is empty; a kept faction's members have no equal neighbours and keep their stored order |
| Users.Permitted | src/utils/types/users.rs:19-21 | definition: the user holds the permission itself or holds Leader |
| Units.Beats | src/utils/types/units.rs:25-35 | definition: b appears in a's `beats` list of the rule table |
| Permissions.Name | src/utils/types/permissions.rs:13-17 | definition: the display name of a permission, its variant name |
| Tiles.DefaultTile | src/utils/types/map.rs:6-14 | definition: the derived default tile, unoccupied and unclaimed, with no buildings or units, at (0, 0) |
| TileStore.CheckTile | src/utils/database/tiles.rs:80-111 | definition: a tile is stored under (x, y) |
| TileStore.AnyExist | src/utils/database/tiles.rs:174-189 | definition: some tile is stored at a cell of the closed box |
| TileStore.GetMany | src/utils/database/tiles.rs:218-228 | definition: the stored tiles of the closed box, x-major |
| TileStore.AllStored | src/utils/database/tiles.rs:149-162 | definition: every cell of the half-open box is stored |
| TileStore.InvertedY | src/utils/database/tiles.rs:321-332 | definition: every column of the grid reversed |
| TileStore.SeeRange | src/utils/database/tiles.rs:347-365 | definition: the closed range of ±10 cells around a coordinate |
| TileStore.Setting | src/utils/database/tiles.rs:276-282 | definition: the store after writing the tiles in list order, each at its own (x, y) |
| TileStore.Deleting | src/utils/database/tiles.rs:367-377 | definition: the store after deleting the cell of each listed tile |
| Image.BorderColour | src/utils/image.rs:72-80 | definition: sky blue for a tile occupied by the viewer's faction, red for one occupied by another faction, black for an unoccupied tile |
| Image.Clump | src/utils/image.rs:50-51 | definition: the pixel coordinate rounded down to a multiple of 35 |
| Image.CanvasWidth | src/utils/image.rs:29-32 | definition: columns × 155 + 5 pixels |
| Image.CanvasHeight | src/utils/image.rs:29-32 | definition: the first column's length × 155 + 5 pixels |
| Image.Drawable | src/utils/image.rs:29-135 | definition: a non-empty grid whose columns are non-empty and no longer than the first |
| Image.MapPixel | src/utils/image.rs:29-113 | definition: the finished colour of a pixel. The tile's border colour on a border ring. The clump's background inside a tile that gets one. Black elsewhere |
| MapCommand.WindowRange | src/commands/map.rs:15-21 | definition: the range from v − 5 to v + 5 |
| MapCommand.ChunksOf | src/commands/map.rs:27-38 | definition: a grid cuts a flat list into rows of n, in order, dropping a trailing short row |
| MapCommand.WindowFetch | src/commands/map.rs:22-38 | definition: the corrected batch fetch of the inclusive range x − 5 ..= x + 4 × y − 5 ..= y + 4 |
| MoveCommand.CeilSqrt | src/commands/move.rs:77-78 | the least natural number whose square is at least n |
| MoveCommand.Distance | src/commands/move.rs:77-78 | definition: the rounded-up Euclidean distance between two cells |
| MoveCommand.FoodWeight | src/commands/move.rs:79-94 | definition: food per unit per distance step: Scout and Soldier 1, Cavalry 2, Ranger 3, Knight 4, Citizen 0 |
| MoveCommand.UnitFood | src/commands/move.rs:79-90 | definition: the weighted count of a tile's units |
| MoveCommand.FoodCost | src/commands/move.rs:79-94 | the food cost is at least 1: weighted unit count × distance, or 1 when that is zero |
| MoveCommand.Drained | src/commands/move.rs:119-134 | definition: every kind on the source less `amount`, kinds reaching zero removed |
| MoveCommand.Filled | src/commands/move.rs:119-134 | definition: every kind present on the source gains `amount` on the destination |
| MoveCommand.Move | src/commands/move.rs:25-156 | definition: the whole command on a world value, each check in the order of the source, a refusal changing nothing |
| MoveCommand.TransferOneKind | src/commands/move.rs:117-143 | definition: the corrected transfer of `amount` units of the named kind only |
| BuildCommand.SpaceOf | src/utils/types/buildings.rs:21-62 | definition: the table space of one building |
| BuildCommand.UsedSpace | src/commands/build.rs:66-71 | definition: space × count summed over the tile's building kinds |
| BuildCommand.Construction | src/commands/build.rs:22-126 | definition: the whole command on a world value as written, each check in the order of the source, a refusal changing nothing, one building's cost checked and charged |
| BuildCommand.Charging | src/commands/build.rs:22-126 | definition: the check chain of the command with the charge chosen by a flag: one building's cost (as written) or the batch's cost (corrected) |
| BuildCommand.BatchCost | src/commands/build.rs:92-111 | definition: amount × the table cost, the intended charge |
| Cleaners.ToUpper | src/utils/database/cleaners.rs:15 | definition: ASCII upper-casing of every character |
| Cleaners.Dedup | src/utils/database/cleaners.rs:11 | definition: `Vec::dedup`, every run of equal neighbours reduced to one element |
| Cleaners.SortByName | src/utils/database/cleaners.rs:12-14 | definition: insertion sort of permissions by their display names |
| Cleaners.CleanUser | src/utils/database/cleaners.rs:10-15 | definition: permissions de-duplicated then sorted by name, faction upper-cased, everything else kept |
| Cleaners.KeptBy | src/utils/database/cleaners.rs:40-44 | definition: the cleaned records whose keep decision equals the wanted one, in input order |
| Cleaners.CleanTile | src/utils/database/cleaners.rs:28-29 | definition: the tile with its faction upper-cased |
| Cleaners.KeepTile | src/utils/database/cleaners.rs:30-39 | definition: a cleaned tile is kept when it is claimed, holds a building or a unit, and is occupied |
| Cleaners.CleanedStore | src/utils/database/cleaners.rs:22-52 | definition: the store with every kept tile cleaned and every other tile removed |
| Cleaners.CleanFaction | src/utils/database/cleaners.rs:60-62 | definition: the faction with its tag upper-cased and its members de-duplicated |
| Cleaners.KeepFaction | src/utils/database/cleaners.rs:63-72 | definition: a cleaned faction is kept when its tag, name and members are all non-empty |

## Left out

- MongoDB access: the store's failures and the `Result` they produce are not modelled. Every store call succeeds here. `get_all` becomes a parameter listing the stored records.
- The Discord side is not modelled: replies, embeds, deferral and the command registration. A reply becomes an outcome value.
- Rendering details that are floating point or a foreign library are not modelled:
  - The OpenSimplex noise, its clamp and `hsv_to_rgb` become the parameter `bg`, a function of the clumped coordinates.
  - The text labels drawn with rusttype are left out.
- `bytes_to_string`, `background.rs` and the configuration loader are outside the modelled core.
- Production values are f32 in the store and whole numbers here. `floor()` is therefore the identity.
- Image.DrawMap: the `bg` parameter stands in for the noise and colour step.
  - The one-argument call in the map command does not match the two-argument definition. The model uses the definition.
  - Saving and sending the image are left out.
  - The requires `Drawable` excludes the grids on which the source panics or draws outside the canvas:
    - an empty grid;
    - any empty column: after the first, the background loop bound underflows; the first, the label loop bound `grid[0].len() - 1` underflows (src/utils/image.rs:135);
    - a column longer than column 0.
- Conversions.SplitTiles requires `size * size` input tiles: with fewer, `remove(0)` panics.
- MoveCommand.CeilSqrt: computes the exact rounded-up square root. The source uses an f64 `sqrt` and `ceil`, which agree only while the squared distance is small enough to be exact in a double.
- MoveCommand.MoveTroops: does not model i32/u32 overflow of the squared distance, the food sum or the unit counts. Counts are unbounded. In a release build, moving more of a kind than the source holds wraps that count to near 2^32 instead of panicking: both tiles are saved and the food is charged. The model gives the debug-build panic, which changes nothing.
- MoveCommand.Move: an aborted faction read, whether a `?` error or the `all[0]` panic of `get_faction`, is the `Panicked` outcome, which changes nothing.
- BuildCommand.Build: the wood and metal checks and deductions are left out (src/commands/build.rs:98-113). They read `details.wood` and `details.metal`, and `BuildingData` has no such fields: it has only name, description, cost and space (src/utils/types/buildings.rs:13-18). The faction's production record does hold `wood` and `metal` (src/utils/types/factions.rs:54, 60), but the model's `Production` leaves them out, so the wood and metal deductions at src/commands/build.rs:112-113 are not modelled.
- BuildCommand.Build: does not model the i32 overflow of `amount * space`, the u32 cast of counts, or the `u32 as i32` cast in the used-space loop.
- TileStore.GetMany: the store returns documents in its own order. The model lists them x-major, the order the rest of the bot assumes.
- Cleaners.ToUpper: upper-cases ASCII letters only. Rust's `to_uppercase` also maps non-ASCII letters.
- The faction cleaner's writes are left out.
  - `factions::set_many` and `internal_delete_faction` are not defined in the factions store of this version.
  - The model proves which factions are kept and which deleted (`Cleaners.SortFactions`), not the resulting collection.
- The user cleaner's write-back (`users::set_many`) is not part of this model. The model proves the list of cleaned users.

## Findings

| source | as written | input that shows it | evidently intended | confidence | as-written member | corrected member |
|---|---|---|---|---|---|---|
| src/commands/map.rs:22-38 | the presence test covers the half-open window `x−5..x+5`, but the batch fetch uses the store's inclusive filters on the same bounds, so it asks for the 11 × 11 box | every cell of `x−5..=x+5` × `y−5..=y+5` stored: 121 tiles are fetched and cut into 12 rows of ten | fetch `x−5..=x+4`, exactly the 100 window cells, giving the 10 × 10 window | high, not executed | MapCommand.FullBoxOverflows | MapCommand.WindowFetchIsWindow |
| src/commands/move.rs:119-134 | the transfer loop walks every unit kind on the source tile and moves `amount` of each | a tile with 5 Soldiers and 5 Knights, moving 2 Soldiers: 2 Knights move too | move `amount` units of the named kind only | high, not executed | MoveCommand.MoveShiftsEveryKind | MoveCommand.TransferOneKindConserves |
| src/commands/move.rs:117-143 | both tiles are read before either is written, so the destination copy overwrites the drained source | a move from (0, 0) to (0, 0) of 2 Soldiers on a tile with 5: the tile ends with 7 | a move onto the same cell leaves the counts unchanged | high, not executed | MoveCommand.SelfMoveMultiplies | MoveCommand.TransferOneKindConserves |
| src/commands/build.rs:92-111 | money is checked against, and reduced by, one building's cost whatever `amount` is | building 10 Farms (cost 100 each) with 100 money: it succeeds and charges 100 | check and charge amount × cost | medium, not executed | BuildCommand.BatchChargedOnce | BuildCommand.CorrectedBatchesCompose |
