# Explosion tile fill — a Dafny model

This project models the core of the explosion system of Space Station 14,
a C# game server. From an epicenter, an explosion spreads over a grid of
square tiles, one "iteration" (one set of tiles) at a time:

- A tile's cardinal neighbours join two iterations later, and its diagonal
  neighbours three iterations later.
- Airtight entities (walls, windows, doors) hold the explosion back until
  their tolerance is used up.
- The total intensity is shared over the iterations, with no tile going
  above a maximum.

The model covers seven parts of that core.

| file | module | models |
|---|---|---|
| `tiles.dfy` | `Wrappers`, `Tiles` | Shared vocabulary: tiles as integer pairs, the four cardinal directions, `AtmosDirection` masks as sets of cardinals, offsets, neighbourhoods, ceilings, tile data and tolerances. |
| `atmos_utils.dfy` | `AtmosUtils` | `GetAirtightData`: combines the airtight entities anchored on one tile. |
| `destructible.dfy` | `Destructible` | `DestroyedAt`: the damage at which an entity breaks. |
| `flood_fill.dfy` | `FloodFill` | The older flood fill `SpawnExplosion` and its helpers: neighbour sets, impassable tiles, and the blocked-tile table. |
| `grid_edges.dfy` | `GridEdges` | The tracking of *edge tiles*, the tiles next to space. It covers classification on grid start-up, incremental update on tile change, and the blocker masks. |
| `tile_fill.dfy` | `TileFill` | The per-grid state `ExplosionGridData` (a class whose fields the methods update) and its lazy tile generators. |
| `explosion_tiles.dfy` | `ExplosionTiles` | `GetExplosionTiles`: the intensity budget loop, the top-up of earlier iterations, the MaxArea cap and the final pass. |

## Representation choices

**Iteration numbering.** `TileSets[i]` is the set of iteration `i`. The
sets start as `[{}, epicenter, {}]`, and the main loop appends iteration 3,
4, and so on.

- As written, the source mixes two numberings. It starts with two sets
  (`{initialTiles, new()}`) but reads `TileSets[iteration - 2]` from
  iteration 3 on. The grid is built with `IterationOffset` 1
  (ExplosionSystemTileFill.cs:342), so `AddNewTiles(i)` appends a set and
  then enumerates `GetNewTiles(i + 1)` (:60, :64).
- Kept as written, that offset shifts every read by one: pass `i` reads
  `TileSets[i - 1]` and `TileSets[i - 2]`, and the spreaders registered at
  `i - 1` and `i - 2`. With the two-entry start the set appended by pass
  `i` has index `i - 1`, so the first pass (`i = 3`) would read the empty
  set it is filling.
- The model follows the numbering that the loop's reads and the intensity
  list `[0, step, 0]` imply: a three-entry start and an offset of 0.
- `tilesInIteration` starts as `[0, count, 0]` to match.

**The undeclared `data`.** The end of `GetExplosionTiles` uses a variable
`data` that is never declared. The model reads it as the one grid built by
the function, `initialGrid`.

**Floats are reals.**

- Products of a tile count and an intensity are written as repeated
  addition (`Weighted`), and lemma `WeightedProduct` proves them equal to
  the product.
- A tolerance is either a non-negative real or NaN (`Tolerance`). A missing
  tolerance on an airtight tile is the sentinel `FloatMax`, which stands
  for `float.MaxValue`.
- `(int) MathF.Ceiling(x / step)` becomes `Ceil`, and its result is `None`
  for NaN. A result of `None` is never used as a key.

**Masks, occupancy and lookups.**

- An `AtmosDirection` mask is a set of cardinals, and `IsFlagSet(d)` is
  subset inclusion.
- A grid's occupancy is the set of its non-empty tiles.
- The map manager, the entity lookups and the per-grid tolerance tables are
  parameters of the operations that use them, as values.

**Lazy generators.** The iterators of `GetNewTiles` are methods that hand
each candidate to the consumer (`AddNewTiles`) when it is produced. This
keeps the source's interleaving: `Processed` is consulted at yield time and
grows during the enumeration.

- `HashSet` enumeration order is arbitrary. `Enumerate` picks any order, and
  the contracts promise nothing that depends on it. The order does matter to
  the outcome within one generator. A tile reached from a blocked side and
  from an unblocked side is registered as a delayed spreader only when the
  blocked offer comes first, because the first offer processes the tile.
- The ghost out-parameters give the contracts access to what was
  yielded and what each iteration counted.

**Generator order.** `GetNewTiles` also returns a ghost `GeneratorLogs`:
the candidates of each of its five generators, by generator. `entered` is
their concatenation in the source's order (ExplosionSystemTileFill.cs:124-134).
`GeneratorsInOrder` then pins each log to its own generator:

- each log comes from that generator's source (`AllFrom`);
- each generator has claimed what it owes by the end of its own run, replayed
  from the state the previous generator left.

So the whole run is fixed generator by generator, not only as a union.

**Replay.** The ghost function `Entered` states what the foreach of
`AddNewTiles` does with one candidate (ExplosionSystemTileFill.cs:66-110),
on a snapshot of the fields, and `EnteredAll` takes a whole log of
candidates in order. Every consumer step, generator and phase ensures that
its new state is `EnteredAll` of its old state and of what it yielded. The
lemmas about `EnteredAll` (`EnteredAllProcessed`, `EnteredAllSpreaders`,
`EnteredAllRecorded`, `RegisteredOnce`) turn that replay into the exact
Processed, spreader lists and spreader iterations that `AddNewTiles`
ensures.

## Model

The predicate `Destructible.HasAct` carries no contract of its own. It is the test inside the loop of `DestroyedAt`, and its meaning is stated by that row.

| member | source | states |
|---|---|---|
| Tiles.Opposite | Content.Server/Explosion/ExplosionSystemTileFill.cs:79 | `GetOpposite` on one direction: a different direction with the negated offset. |
| Tiles.OppositeDirs | Content.Server/Explosion/ExplosionSystemTileFill.cs:79 | A direction is in the mirrored mask exactly when its opposite is in the original: the test behind `IsFlagSet(direction.GetOpposite())`. |
| Tiles.Ceil | Content.Server/Explosion/ExplosionSystemTileFill.cs:103 | `MathF.Ceiling` as an integer `c` with `r <= c < r + 1`. |
| AtmosUtils.GetAirtightData | Content.Server/Atmos/EntitySystems/AtmosphereSystem.Utils.cs:55-78 | Equals the fold over every anchored entity without the early break. A direction is blocked iff some air-blocking airtight entity blocks it. NoAir and FixVacuum are each set iff some such entity sets them. With no such entity the result is (Invalid, false, false). |
| AtmosUtils.SaturatedFoldIsIdentity | Content.Server/Atmos/EntitySystems/AtmosphereSystem.Utils.cs:73-74 | Once all directions and both flags are set, the rest of the fold changes nothing, so the early break loses nothing. |
| AtmosUtils.FoldGrows | Content.Server/Atmos/EntitySystems/AtmosphereSystem.Utils.cs:61-75 | The fold never clears a direction or a flag it already holds. |
| AtmosUtils.FoldCharacterization | Content.Server/Atmos/EntitySystems/AtmosphereSystem.Utils.cs:61-75 | The fold's directions and flags are the OR of the accumulator and of every contributing entity, in both directions of the iff. |
| AtmosUtils.Accumulate | Content.Server/Atmos/EntitySystems/AtmosphereSystem.Utils.cs:63-71 | One entity's OR-assignment step keeps every direction and flag the accumulator held. |
| Destructible.DestroyedAt | Content.Server/Destructible/DestructibleSystem.cs:53-76 | None (the source's NaN) iff the entity has no destructible component. Otherwise the result is at most `float.MaxValue` and at most the damage of every damage trigger with a destruction or breakage act. It is `float.MaxValue` when no threshold qualifies, and is attained by a qualifying threshold when one does. |
| Destructible.MinDamageIsLowerBound | Content.Server/Destructible/DestructibleSystem.cs:60-74 | The minimum is a lower bound of every qualifying threshold's damage. |
| Destructible.MinDamageIsAttained | Content.Server/Destructible/DestructibleSystem.cs:60-74 | The minimum is `float.MaxValue` or the damage of some qualifying threshold. |
| Destructible.Min | Content.Server/Destructible/DestructibleSystem.cs:71 | `Math.Min` is at most both arguments and equal to one of them. |
| FloodFill.GetAdjacentTiles | Content.Server/Explosion/ExplosionSystem.cs:251-269 | A tile is returned iff it is not yet encountered and is a cardinal neighbour of some input tile. |
| FloodFill.GetDiagonalTiles | Content.Server/Explosion/ExplosionSystem.cs:271-284 | A tile is returned iff it is not yet encountered and is a diagonal neighbour of some input tile. |
| FloodFill.GetNeighbors | Content.Server/Explosion/ExplosionSystem.cs:223-249 | Both iffs above. The diagonal set holds no tile of the adjacent set, and neither set meets the encountered tiles. |
| FloodFill.AddAdjacentRing | Content.Server/Explosion/ExplosionSystem.cs:261-264 | The four `Add` calls for one more tile keep the accumulated set equal to the cardinal neighbours of the tiles seen so far. |
| FloodFill.AddDiagonalRing | Content.Server/Explosion/ExplosionSystem.cs:276-279 | The four `Add` calls for one more tile keep the accumulated set equal to the diagonal neighbours of the tiles seen so far. |
| FloodFill.GetImpassableTiles | Content.Server/Explosion/ExplosionSystem.cs:202-221 | Empty when the grid has no tolerance table. Otherwise a tile is a key iff it is an input tile with a non-zero tolerance, and its value is that tolerance. |
| FloodFill.Delay | Content.Server/Explosion/ExplosionSystem.cs:185 | The delay `ceil(tolerance / damagePerIteration)`. It is None exactly when `damagePerIteration` is 0. |
| FloodFill.DelayBounds | Content.Server/Explosion/ExplosionSystem.cs:185 | The delay is the ceiling of the quotient, for either sign of `damagePerIteration`. |
| FloodFill.HoldBack | Content.Server/Explosion/ExplosionSystem.cs:180-192 | Existing entries are kept. Every new entry is an impassable tile recorded with the current iteration under the key `iteration + delay`. Every impassable tile is recorded under that key. No tile is recorded under two keys, so `Dictionary.Add` never meets a duplicate. |
| FloodFill.HoldStep | Content.Server/Explosion/ExplosionSystem.cs:185-191 | One tile of the foreach keeps the hold-back invariant, in both the existing-key and the new-key branch. |
| FloodFill.AppendDisjoint | Content.Server/Explosion/ExplosionSystem.cs:165-176 | A new set is disjoint from all earlier sets, and it is contained in the encountered tiles. |
| FloodFill.StepRecorded | Content.Server/Explosion/ExplosionSystem.cs:169-192 | After a pass, every held-back tile was encountered at the iteration it records, is impassable, is keyed by its delay and lies in no tile set. |
| FloodFill.StepReached | Content.Server/Explosion/ExplosionSystem.cs:153-176 | Every tile of the new set is passable and reached: through an edge from the sources two iterations back, or through a corner from the sources three back. The sources are that set plus the tiles released then, as the table stood when the pass ran. The earlier sets keep this property once the table grows. |
| FloodFill.SourcesBeforeKept | Content.Server/Explosion/ExplosionSystem.cs:156-163 | Appending sets and recording entries from pass `n` on leaves unchanged the sources that an earlier pass read. |
| FloodFill.HeldBackEntries | Content.Server/Explosion/ExplosionSystem.cs:180-192 | Every entry one pass adds to the blocked table is an impassable tile of that pass, and it records that pass. No entry records a later pass. |
| FloodFill.PlacedKept | Content.Server/Explosion/ExplosionSystem.cs:165-192 | A tile that already has its place (in a set, or held back) keeps it as sets are appended and entries are added. |
| FloodFill.CandidatePlaced | Content.Server/Explosion/ExplosionSystem.cs:165-192 | After a pass, each tile it reached afresh has its place. A passable tile is in the new set. An impassable tile is held back under the iteration plus its delay, or, when `damagePerIteration` is 0, has no delay to be held for. |
| FloodFill.StepPlaced | Content.Server/Explosion/ExplosionSystem.cs:153-192 | One pass keeps every encountered tile placed and drops nothing it reaches. Every cardinal neighbour of the sources two back, and every diagonal neighbour of those three back, is in a set or held back by this pass at the latest. |
| FloodFill.PassHeld | Content.Server/Explosion/ExplosionSystem.cs:180-192 | Each impassable tile of the pass is held under the iteration plus its delay, recording the iteration. |
| FloodFill.PassAdded | Content.Server/Explosion/ExplosionSystem.cs:180-192 | The table gains only impassable tiles of this pass, each recording this pass. |
| FloodFill.PassKeepsExploding | Content.Server/Explosion/ExplosionSystem.cs:153-194 | One pass keeps the whole loop invariant. The sets start `{}, {epicenter}, {}`, are pairwise disjoint and encountered. The table is as recorded. Every set is reached from its sources, and nothing reached is dropped. |
| FloodFill.ExplodeOnce | Content.Server/Explosion/ExplosionSystem.cs:153-195 | One pass computes exactly the source's values. The reached tiles are exactly the unencountered cardinal neighbours of the sources two back and diagonal neighbours of those three back. The encountered tiles grow by exactly these. The new set is exactly the passable ones among them. Each impassable one is held under the iteration plus its delay, recording the iteration. The table keeps its old entries and gains no others. The loop invariant is kept. |
| FloodFill.SpawnExplosion | Content.Server/Explosion/ExplosionSystem.cs:110-197 | With zero strength or no grid at the epicenter, nothing is produced. Otherwise the sets start `{}, {epicenter}, {}`, are pairwise disjoint and encountered, and the blocked table is as recorded. Every tile past the first three sets was reached by the pass that put it there (soundness). Every neighbour a pass reached is in a set or held back by that pass (completeness), and so is every encountered tile. The ghost `seen` and `reached` give, for each pass, the encountered set after it and the tiles it reached (`PassesRan`). There is one pass per set past the first three. Pass `k` reached exactly the tiles not yet encountered that lie next to its sources (the sets two and three back with their held-back tiles, as the table stood at that pass). It left the earlier encountered tiles plus those, and built set `3 + k` from the passable ones together with an entry for each impassable one. Every blocked-table entry records the pass that reached its tile, and the final encountered set is the last pass's. The sizes of `seen` satisfy `PassesUntil`: every proper prefix sums below the strength and the whole reaches it. which is the `while (strength > distributedStrength)` loop with `distributedStrength += encounteredTiles.Count()` (:147-195). |
| FloodFill.PassesShapeStep | Content.Server/Explosion/ExplosionSystem.cs:153-176 | A pass that appends the passable part of the tiles it reached, and adds those to the encountered ones, extends the per-pass sets by exactly that pass. |
| FloodFill.PassesReachedStep | Content.Server/Explosion/ExplosionSystem.cs:153-176 | A pass that reaches exactly the newly reached tiles extends the history. The earlier passes' reached sets keep their meaning as the table grows. |
| FloodFill.PassesHeldStep | Content.Server/Explosion/ExplosionSystem.cs:177-192 | A pass that holds back its impassable tiles keeps every earlier pass's tiles held back. |
| FloodFill.PassesRecordedStep | Content.Server/Explosion/ExplosionSystem.cs:177-192 | A pass whose new table entries are its own reached tiles keeps every entry tied to the pass that reached it. |
| FloodFill.ReachedAtKept | Content.Server/Explosion/ExplosionSystem.cs:153-163 | What an earlier pass reached does not change when later passes add sets and held-back tiles. |
| FloodFill.ReachedAtNow | Content.Server/Explosion/ExplosionSystem.cs:153-163 | For the pass just run, the history's account of what was reached equals NewlyReached on the state before it. |
| FloodFill.Sizes | Content.Server/Explosion/ExplosionSystem.cs:195 | The sizes of the per-pass encountered sets, one count per pass, each the size of its set. |
| FloodFill.SeenStep | Content.Server/Explosion/ExplosionSystem.cs:151-195 | One more pass adds the size of the encountered set to the distributed strength, and keeps every proper prefix below the strength. |
| FloodFill.PassesEnd | Content.Server/Explosion/ExplosionSystem.cs:151-195 | When the loop test fails, the per-pass counts run exactly until the strength: every proper prefix sums below it and the whole reaches it. |
| FloodFill.PassesUntilOnce | Content.Server/Explosion/ExplosionSystem.cs:149-195 | The loop stops the first time the total reaches the strength: a run of counts satisfying PassesUntil cannot be continued by further passes and still satisfy it. So the number of SpawnExplosion passes is determined. |
| GridEdges.GetDiagonalNeighbors | Content.Server/Explosion/ExplosionSystemGridMap.cs:440-446 | Four distinct tiles. A tile is among them iff it is diagonally adjacent to the position. |
| GridEdges.IsEdge | Content.Server/Explosion/ExplosionSystemGridMap.cs:408-420 | The space directions are exactly the cardinals whose neighbour is empty. The tile is an edge iff there is one. |
| GridEdges.IsDiagonalEdge | Content.Server/Explosion/ExplosionSystemGridMap.cs:422-434 | True iff some diagonal neighbour other than the ignored tile is empty. |
| GridEdges.IgnoredOccupied | Content.Server/Explosion/ExplosionSystemGridMap.cs:381-390 | Ignoring a tile that is occupied does not change the diagonal-edge verdict. |
| GridEdges.FarUnaffected | Content.Server/Explosion/ExplosionSystemGridMap.cs:313-399 | A tile outside the 3x3 block around the changed tile stays correctly classified when the grid changes only at that tile. |
| GridEdges.RemoveTile | Content.Server/Explosion/ExplosionSystemGridMap.cs:330-360 | The removed tile leaves both maps. Each occupied cardinal neighbour gains the direction towards it. Each occupied diagonal neighbour that is not a cardinal edge becomes a diagonal edge. Tiles further away are unchanged, and a correct classification stays correct. |
| GridEdges.GrowNeighbourEdges | Content.Server/Explosion/ExplosionSystemGridMap.cs:337-348 | The removal's cardinal loop: each neighbour gets the opened direction, and it moves from the diagonal set to the edges when it was there. |
| GridEdges.MarkDiagonalEdges | Content.Server/Explosion/ExplosionSystemGridMap.cs:350-357 | The removal's diagonal loop: an occupied diagonal neighbour that is not an edge is added to the diagonal edges. |
| GridEdges.RemovedNeighbourOk | Content.Server/Explosion/ExplosionSystemGridMap.cs:337-348 | An updated cardinal neighbour is classified correctly for the grid after the removal. |
| GridEdges.RemovedDiagonalOk | Content.Server/Explosion/ExplosionSystemGridMap.cs:350-357 | An updated diagonal neighbour is classified correctly after the removal. |
| GridEdges.AddTile | Content.Server/Explosion/ExplosionSystemGridMap.cs:364-398 | The add fails (the source's `Dictionary.Add` on a present key) iff the tile was already an edge and still has an open direction. Cardinal neighbours lose the direction towards it and leave the edges when none is left. Diagonal neighbours stay diagonal edges only while they still touch space. Tiles further away are unchanged. Starting from a correct classification of the grid without the tile, the add never fails and the result is correct. |
| GridEdges.ShrinkNeighbourEdges | Content.Server/Explosion/ExplosionSystemGridMap.cs:365-385 | The addition's cardinal loop: each neighbour edge loses the closed direction, and one with none left becomes a diagonal edge or nothing. |
| GridEdges.PruneDiagonalEdges | Content.Server/Explosion/ExplosionSystemGridMap.cs:387-392 | The addition's diagonal loop: a diagonal edge that no longer touches space leaves the set. |
| GridEdges.AddedNeighbourOk | Content.Server/Explosion/ExplosionSystemGridMap.cs:365-385 | An updated cardinal neighbour is classified correctly after the addition. |
| GridEdges.AddedDiagonalOk | Content.Server/Explosion/ExplosionSystemGridMap.cs:387-392 | An updated diagonal neighbour is classified correctly after the addition. |
| GridEdges.ClassifyTile | Content.Server/Explosion/ExplosionSystemGridMap.cs:394-398 | The added tile is put in the edges with its space directions, or in the diagonal edges, or in neither, as its neighbourhood says. |
| GridEdges.ClassifyGrid | Content.Server/Explosion/ExplosionSystemGridMap.cs:75-89 | The maps built from all occupied tiles classify the grid correctly. |
| GridEdges.ClassifiedUnique | Content.Server/Explosion/ExplosionSystemGridMap.cs:75-89 | The correct classification of a grid is unique, so start-up and incremental updates agree. |
| GridEdges.ClassifiedShape | Content.Server/Explosion/ExplosionSystemGridMap.cs:75-89 | In a correct classification, only occupied tiles appear, no tile is in both maps, and every edge has a space direction. |
| GridEdges.GetUnblockedDirectionsBoogaloo | Content.Server/Explosion/ExplosionSystemGridMap.cs:279-300 | The keys are exactly the transformed edge tiles. A tile's mask holds North iff the tile is in the north-south blocker set, South iff the tile below it is, East iff the tile is in the east-west blocker set, and West iff the tile to its left is. |
| GridEdges.BlockerMask | Content.Server/Explosion/ExplosionSystemGridMap.cs:283-295 | The loop body for one tile: the mask holds exactly those four directions under the same four conditions. |
| GridEdges.ExplosionGridMap.constructor | Content.Server/Explosion/ExplosionSystemGridMap.cs:52-57 | All three per-grid maps start empty. |
| GridEdges.ExplosionGridMap.OnGridStartup | Content.Server/Explosion/ExplosionSystemGridMap.cs:70-90 | A missing grid changes nothing. Otherwise the grid gets maps that classify it correctly, and every other grid's maps are unchanged. |
| GridEdges.ExplosionGridMap.OnGridRemoved | Content.Server/Explosion/ExplosionSystemGridMap.cs:92-97 | The grid leaves the airtight, edge and diagonal-edge maps, and every other grid's entries are unchanged. |
| GridEdges.ExplosionGridMap.OnTileChanged | Content.Server/Explosion/ExplosionSystemGridMap.cs:313-399 | A failed add implies the tile is occupied. Other grids and far tiles are unchanged. A correct classification of the old grid becomes a correct classification of the new grid, in both the removal and the addition case. |
| GridEdges.ExplosionGridMap.MapManagerOnTileChanged | Content.Server/Explosion/ExplosionSystemGridMap.cs:306-311 | Nothing changes when neither the old nor the new tile is empty. Otherwise OnTileChanged runs, with its contract: a missing grid changes nothing; the changed grid gains its entries in both edge maps; every tile not near the changed one keeps its edges; the Add can fail only when a tile appeared. Maps that tracked the grid before the change track it after, and other grids are unchanged. |
| TileFill.ClearIteration | Content.Server/Explosion/ExplosionSystemTileFill.cs:103 | None iff the seal is NaN, and otherwise no earlier than the current iteration. |
| TileFill.ClearIterationBounds | Content.Server/Explosion/ExplosionSystemTileFill.cs:103 | The clear iteration is the current one plus the ceiling of seal / step size. |
| TileFill.AllBitsIsAll | Content.Server/Explosion/ExplosionSystemTileFill.cs:99 | `blockedDirections == AtmosDirection.All` is the mask of all four cardinals. |
| TileFill.Enumerate | Content.Server/Explosion/ExplosionSystemTileFill.cs:162 | Enumerating a hash set lists each of its elements exactly once. |
| TileFill.CountedTilesAre | Content.Server/Explosion/ExplosionSystemTileFill.cs:84-87 | The tiles counted in an iteration are the delayed spreaders registered in it plus the new tiles that are not delayed spreaders. |
| TileFill.ExplosionGridData.constructor | Content.Server/Explosion/ExplosionSystemTileFill.cs:46-55 | The grid id, airtight map, maximum, step size and type are stored, and all collections start empty. |
| TileFill.ExplosionGridData.EnterTile | Content.Server/Explosion/ExplosionSystemTileFill.cs:66-110 | The new state is exactly `Entered` of the old one. A candidate that enters from an unblocked side joins Processed and the new set. A blocked candidate of a tile that is already a delayed spreader changes nothing but the log. Otherwise the tile is appended to the spreader list of its clear iteration, its iteration is recorded, and it is processed iff blocked on all four sides. The candidate is counted iff its tile was not a delayed spreader before. |
| TileFill.ExplosionGridData.AddUnblocked | Content.Server/Explosion/ExplosionSystemTileFill.cs:79-89 | The unblocked branch: the tile joins Processed and the new set. It is counted iff it is not a delayed spreader. |
| TileFill.ExplosionGridData.RegisterDelayedSpreader | Content.Server/Explosion/ExplosionSystemTileFill.cs:97-110 | The blocked branch for a new spreader: Processed gains the tile iff it is blocked on all four sides, the spreader lists gain it under its clear iteration, its iteration is recorded, and it is counted. |
| TileFill.ExplosionGridData.RecordSpreader | Content.Server/Explosion/ExplosionSystemTileFill.cs:97-110 | Inside the blocked branch: Processed gains the tile iff it is blocked on all four sides, its iteration is recorded, the candidate is logged, and the count grows by one. |
| TileFill.ExplosionGridData.AddDelayedSpreader | Content.Server/Explosion/ExplosionSystemTileFill.cs:103-107 | The tile is appended to the list of its clear iteration, which is created when missing. |
| TileFill.ExplosionGridData.Offer | Content.Server/Explosion/ExplosionSystemTileFill.cs:182-183 | A candidate is yielded iff its tile is unprocessed at that moment. When it is yielded the new state is `Entered` of the old one, and otherwise nothing changes. |
| TileFill.ExplosionGridData.YieldAdjacent | Content.Server/Explosion/ExplosionSystemTileFill.cs:176-185 | Every yielded candidate was unprocessed and is a cardinal neighbour of the tile with that direction. Every admissible direction (all directions when blockers are ignored) leads to a tile that is processed or was yielded. The new state is `EnteredAll` of the old one and the yielded log. |
| TileFill.ExplosionGridData.OfferDirection | Content.Server/Explosion/ExplosionSystemTileFill.cs:173-185 | One direction of the inner loop: unless the tile blocks it (and blockers count), the neighbour is offered. The yielded log extends by this direction, and the new state is its replay. |
| TileFill.ExplosionGridData.SpreadAdjacent | Content.Server/Explosion/ExplosionSystemTileFill.cs:162-217 | One tile of the outer loop. Its neighbours through unblocked directions are yielded, and the new state is their replay. When blockers count and the tile has a destructible blocker (a non-NaN seal at most the maximum), the list under its clear iteration, created when missing, gains exactly `BlockedNeighbours`: the still-unprocessed neighbours behind its blocked directions, each with its direction. Otherwise the delayed neighbours are unchanged. |
| TileFill.ExplosionGridData.QueueBlocked | Content.Server/Explosion/ExplosionSystemTileFill.cs:200-216 | The list under the clear iteration (created when missing) gains exactly the unprocessed neighbours in the blocked directions. |
| TileFill.ExplosionGridData.BlockedNeighboursMembers | Content.Server/Explosion/ExplosionSystemTileFill.cs:207-216 | A candidate is queued iff its direction is blocked and its tile is unprocessed. |
| TileFill.ExplosionGridData.GetNewAdjacentTiles | Content.Server/Explosion/ExplosionSystemTileFill.cs:156-218 | Over all input tiles, the yielding properties above hold, and the new state is the replay of the yielded log. When blockers are ignored the delayed neighbours are unchanged. Otherwise they only gain the entries queued from tiles that have destructible blockers, and for every such tile each neighbour behind a blocked direction is processed or queued under its clear iteration (`QueuedUpTo`). |
| TileFill.ExplosionGridData.YieldDiagonals | Content.Server/Explosion/ExplosionSystemTileFill.cs:229-295 | Every yielded candidate was unprocessed and is a diagonal neighbour. Every corner with a way in (free sides on the tile, when blockers are not ignored) leads to a processed or yielded tile. The new state is the replay of the yielded log. |
| TileFill.ExplosionGridData.OfferCorner | Content.Server/Explosion/ExplosionSystemTileFill.cs:240-295 | One corner block: when the corner is free and a neighbour on its side lets the explosion in, the diagonal tile is offered with its entry directions. The new state is the replay of what it yielded. |
| TileFill.ExplosionGridData.GetNewDiagonalTiles | Content.Server/Explosion/ExplosionSystemTileFill.cs:223-297 | The diagonal yielding properties hold over all input tiles, and the new state is the replay of the yielded log. |
| TileFill.ExplosionGridData.GetDelayedTiles | Content.Server/Explosion/ExplosionSystemTileFill.cs:139-151 | Consumes the list of the current iteration: the key is removed, and every entry was processed or yielded. Without a list it yields nothing. The new state is the replay of the yielded log. |
| TileFill.ExplosionGridData.OfferDelayed | Content.Server/Explosion/ExplosionSystemTileFill.cs:144-148 | One queued entry: it is yielded iff its tile is unprocessed at that moment, and the new state is its replay. |
| TileFill.ExplosionGridData.GetNewTiles | Content.Server/Explosion/ExplosionSystemTileFill.cs:117-137 | The cleared spreaders are processed, and no new tile was processed before or cleared. The new state is exactly the replay, from the old state with the cleared spreaders processed, of every candidate entered. Every neighbour the five generators owe this iteration is claimed (processed or now a spreader). Every entered candidate was unprocessed and comes from one of the five sources. The current key of the delayed neighbours is consumed. For each tile two back with a destructible blocker, every neighbour behind a blocked direction is claimed when the blocker clears now, and otherwise is processed or queued under the iteration it clears (`BlockersHandled`). The ghost `logs` split `entered` into the five generators' candidates in the source's order (:124-134). Each log comes from its own generator's source, and each generator's claims hold at the state its own run ends in (`GeneratorsInOrder`). |
| TileFill.ExplosionGridData.AdjacentPhase | Content.Server/Explosion/ExplosionSystemTileFill.cs:127-134 | A cardinal generator over the set two back (blockers count) or the spreaders cleared two back (blockers ignored). Every neighbour it owes is claimed. What it yields comes from its source (`AllFrom`, a cardinal neighbour of a source tile), and the new state is its replay. Only its own tiles queue delayed neighbours, and when blockers count each neighbour behind a destructible blocker is processed or queued (`BlockersQueuedFrom`). |
| TileFill.ExplosionGridData.DiagonalPhase | Content.Server/Explosion/ExplosionSystemTileFill.cs:128-137 | A diagonal generator over the set three back or the spreaders cleared three back. Every diagonal neighbour it owes is claimed, what it yields comes from its source (also as `AllFrom`, a diagonal neighbour of a source tile), and the new state is its replay. |
| TileFill.ExplosionGridData.DelayedPhase | Content.Server/Explosion/ExplosionSystemTileFill.cs:129 | The delayed generator. Every neighbour queued for this iteration, before the first generator ran or just before this one, is claimed. The key is removed, and the new state is the replay of what it yielded. What it yields was queued under this iteration or is a neighbour of the set two back (`AllFrom`). |
| TileFill.ExplosionGridData.BeginIteration | Content.Server/Explosion/ExplosionSystemTileFill.cs:59-61 | A fresh empty set with nothing counted, and the consumer's invariant holds. |
| TileFill.ExplosionGridData.AddNewTiles | Content.Server/Explosion/ExplosionSystemTileFill.cs:57-114 | Appends exactly one tile set and keeps the earlier ones. The new set is exactly the tiles entered from an unblocked side, disjoint from what was processed before and from the cleared spreaders. The ghost `registered` lists the delayed spreaders registered now, each once, each entered through a blocked side. Processed becomes exactly the old Processed, the cleared spreaders, the new set and the registered spreaders that block every direction (:81, :99-100). The spreader lists become the old ones with each registered tile appended under the iteration its blocker clears (:103-107). The new keys of the spreader iterations are exactly the registered tiles, recorded at this iteration (:109). Every neighbour that is owed is claimed, and the blocked neighbours of the tiles two back are handled (`BlockersHandled`, :188-215). The ghost `logs` are the five generators' candidates, concatenated in the source's order into `entered`, and `GeneratorsInOrder` holds for them (:124-134). The returned count follows the counting rule. |
| TileFill.ExplosionGridData.EnteredStep | Content.Server/Explosion/ExplosionSystemTileFill.cs:64-110 | Replaying a log extended by one candidate is taking that candidate after replaying the log: the foreach of AddNewTiles one iteration further. |
| TileFill.ExplosionGridData.EnteredAllAppend | Content.Server/Explosion/ExplosionSystemTileFill.cs:64-110 | Replaying two logs one after the other is replaying their concatenation, so the generators of GetNewTiles compose. |
| TileFill.ExplosionGridData.EnteredAllLog | Content.Server/Explosion/ExplosionSystemTileFill.cs:64-89 | A replay appends the log to the record of entries, and the current set gains exactly the tiles entered from an unblocked side. |
| TileFill.ExplosionGridData.EnteredAllProcessed | Content.Server/Explosion/ExplosionSystemTileFill.cs:79-100 | A replay adds to Processed exactly the unblocked tiles and those registered spreaders that block every direction. |
| TileFill.ExplosionGridData.EnteredAllSpreaders | Content.Server/Explosion/ExplosionSystemTileFill.cs:103-107 | A replay appends each registered spreader, in order, to the list of the iteration its blocker clears. |
| TileFill.ExplosionGridData.EnteredAllRecorded | Content.Server/Explosion/ExplosionSystemTileFill.cs:94-109 | A replay keeps every recorded spreader iteration; the new keys are exactly the registered tiles, each recorded at this iteration. |
| TileFill.ExplosionGridData.RegisteredOnce | Content.Server/Explosion/ExplosionSystemTileFill.cs:94-109 | No tile registers twice (the `ContainsKey` check at :94-95), and each registered tile came through a blocked candidate of the log. |
| TileFill.ExplosionGridData.UnblockedStep | Content.Server/Explosion/ExplosionSystemTileFill.cs:79-82 | One more candidate adds its tile to the unblocked tiles iff it enters from an unblocked side. |
| TileFill.ExplosionGridData.SpreadersAtAppended | Content.Server/Explosion/ExplosionSystemTileFill.cs:103-107 | Listing spreaders appends, under every key, exactly those whose blockers clear at that key, in their order. |
| TileFill.ExplosionGridData.ReplayMeaning | Content.Server/Explosion/ExplosionSystemTileFill.cs:57-114 | What a whole fill from an empty set means: the current set is the unblocked entries; Processed gains exactly those and the fully blocked registered spreaders; the spreader lists gain the registered spreaders; the new spreader iterations are exactly the registered ones, at this iteration, each registered once through a blocked entry. |
| TileFill.ExplosionGridData.ReplayTwo | Content.Server/Explosion/ExplosionSystemTileFill.cs:117-137 | Two generators run one after the other replay the concatenation of their logs. |
| TileFill.ExplosionGridData.ReplayPhases | Content.Server/Explosion/ExplosionSystemTileFill.cs:127-135 | The five generators of GetNewTiles together replay the concatenation of their five logs, in the source's order (`GeneratorLogs.Chained`). |
| TileFill.ExplosionGridData.ReplayWhole | Content.Server/Explosion/ExplosionSystemTileFill.cs:117-137 | A replay from an empty log leaves exactly that log as the state's record of entries, and is the replay of that record. |
| TileFill.ExplosionGridData.InOrder | Content.Server/Explosion/ExplosionSystemTileFill.cs:124-134 | Five runs, one after the other, each from its own source and each claiming its part by the end of its run, satisfy `GeneratorsInOrder` for their logs in that order. |
| TileFill.ExplosionGridData.DiagonalLogFrom | Content.Server/Explosion/ExplosionSystemTileFill.cs:223-252 | A log whose candidates satisfy the diagonal generator's entry rule lies on the diagonal neighbours of the source tiles, as `AllFrom` states for a diagonal generator. |
| TileFill.ExplosionGridData.ClaimedOfGrew | Content.Server/Explosion/ExplosionSystemTileFill.cs:127-137 | A list claimed after the delayed generator stays claimed after the two generators that follow it. |
| TileFill.ExplosionGridData.BlockersQueuedMono | Content.Server/Explosion/ExplosionSystemTileFill.cs:198-215 | A tile whose blocked neighbours are processed or queued keeps that as the lists grow and Processed grows. |
| TileFill.ExplosionGridData.BlockersQueuedByAppend | Content.Server/Explosion/ExplosionSystemTileFill.cs:198-215 | Appending `BlockedNeighbours` under the clear iteration (creating the key when missing, :198-202) leaves every neighbour behind a blocked direction processed or queued. |
| TileFill.ExplosionGridData.QueuedUpToStep | Content.Server/Explosion/ExplosionSystemTileFill.cs:162-217 | One more tile of GetNewAdjacentTiles, honouring blockers, keeps every tile so far with a destructible blocker queued. |
| TileFill.ExplosionGridData.QueuedUpToToSet | Content.Server/Explosion/ExplosionSystemTileFill.cs:162 | The queueing fact over an enumeration of a set holds for every tile of the set. |
| TileFill.ExplosionGridData.BlockersHandledAtEnd | Content.Server/Explosion/ExplosionSystemTileFill.cs:127-151 | After the delayed generator consumes and claims the list of this iteration, a blocker that clears now has all its blocked neighbours claimed, and any other keeps its queued list. |
| ExplosionTiles.WeightedProduct | Content.Server/Explosion/ExplosionSystemTileFill.cs:379-412 | The repeated-addition cost of `count` tiles at intensity `v` equals `count * v`. |
| ExplosionTiles.TileCost | Content.Server/Explosion/ExplosionSystemTileFill.cs:379 | The cost `tilesInIteration[i] * intensityIncrease` as that weighted sum. |
| ExplosionTiles.DistributedRaise | Content.Server/Explosion/ExplosionSystemTileFill.cs:387-388 | Raising one iteration's intensity by `d` raises the distributed total by its tile count times `d`. |
| ExplosionTiles.DistributedAppend | Content.Server/Explosion/ExplosionSystemTileFill.cs:406-414 | A new iteration adds its tile count times its intensity to the distributed total. |
| ExplosionTiles.RaiseStep | Content.Server/Explosion/ExplosionSystemTileFill.cs:377-392 | A full raise paid from what is left keeps the account and the bounds. |
| ExplosionTiles.ShareStep | Content.Server/Explosion/ExplosionSystemTileFill.cs:379-384 | Sharing the rest over the first iteration that cannot get a full raise spends it all, within that iteration's full raise. |
| ExplosionTiles.RaisedAll | Content.Server/Explosion/ExplosionSystemTileFill.cs:375-393 | Full raises of every iteration with something left complete a top-up. |
| ExplosionTiles.RaiseInFull | Content.Server/Explosion/ExplosionSystemTileFill.cs:375-391 | The loop up to its break. Each iteration from the saturation index on gets `min(step, max - current)` while that is paid for, the account is kept, and it stops at the first iteration whose full raise costs at least what is left. |
| ExplosionTiles.TopUp | Content.Server/Explosion/ExplosionSystemTileFill.cs:375-395 | The account is kept. Iterations before the saturation index are unchanged. No iteration is raised by more than the step size or past the maximum intensity, and one that is lowered ends exactly at the maximum. If something is left, every iteration from the saturation index on got its full raise. |
| ExplosionTiles.CommitSpreaders | Content.Server/Explosion/ExplosionSystemTileFill.cs:433-436 | Set `i` gains exactly the delayed spreaders registered at iteration `i`. |
| ExplosionTiles.RemoveDuplicates | Content.Server/Explosion/ExplosionSystemTileFill.cs:441-446 | Each set keeps exactly the tiles not in an earlier set. The processed tiles end as the union of all sets. |
| ExplosionTiles.FirstOccurrencesDisjoint | Content.Server/Explosion/ExplosionSystemTileFill.cs:441-446 | After removing duplicates, no tile is in two sets. |
| ExplosionTiles.FirstOccurrencesUnion | Content.Server/Explosion/ExplosionSystemTileFill.cs:441-446 | Removing duplicates keeps the union of the sets. |
| ExplosionTiles.CleanupOf | Content.Server/Explosion/ExplosionSystemTileFill.cs:433-446 | Commit and deduplication together meet the final-pass promise. No tile is lost or moved later. Every spreader sits at its iteration or earlier. Nothing else is added, and the sets are pairwise disjoint. |
| ExplosionTiles.FinalPass | Content.Server/Explosion/ExplosionSystemTileFill.cs:433-446 | On the grid's fields: that promise, with the first set empty, the epicenter set kept, and Processed equal to the union. |
| ExplosionTiles.AdvanceGrid | Content.Server/Explosion/ExplosionSystemTileFill.cs:399-403 | Running AddNewTiles on the one grid, with all of its contract: one set appended and the earlier ones kept; the new set exactly the tiles entered from an unblocked side, none processed before; every candidate from a source and every owed neighbour claimed; the blocked neighbours of the tiles two back handled; Processed and the spreader lists gaining exactly the cleared spreaders, the new set and the registered spreaders; the new spreader iterations exactly the registered tiles, at this iteration; and the five generators' logs, concatenated in the source's order into `entered`, satisfying `GeneratorsInOrder`. The returned count is the new spreaders plus the new tiles that are not spreaders. |
| ExplosionTiles.CountsAfterAdvance | Content.Server/Explosion/ExplosionSystemTileFill.cs:399-414 | The count AddNewTiles returns extends the per-iteration counts: each is still the spreaders registered at that iteration plus its set's tiles that are not spreaders. Every set stays processed. |
| ExplosionTiles.InitialSpreading | Content.Server/Explosion/ExplosionSystemTileFill.cs:357-366 | The state before the first pass satisfies the loop's invariant. |
| ExplosionTiles.SingleStepAccounted | Content.Server/Explosion/ExplosionSystemTileFill.cs:351-355 | A one-step explosion shares the whole intensity over the epicenter tiles and is accounted for. |
| ExplosionTiles.AfterTopUp | Content.Server/Explosion/ExplosionSystemTileFill.cs:369-395 | The top-up keeps the loop's invariant. |
| ExplosionTiles.AfterSharedTiles | Content.Server/Explosion/ExplosionSystemTileFill.cs:406-410 | A new iteration that cannot get the full step size shares the rest over its tiles and leaves nothing. |
| ExplosionTiles.AfterNewTiles | Content.Server/Explosion/ExplosionSystemTileFill.cs:412-425 | A new iteration at the step size keeps the account and the MaxArea bookkeeping. |
| ExplosionTiles.NewIteration | Content.Server/Explosion/ExplosionSystemTileFill.cs:397-427 | The second half of a pass. It appends one set of `added` tiles and ends in exactly one way. Shared iff the new tiles cost at least what is left; they then get the rest shared out. Capped iff they cost less and the counted tiles reach MaxArea. Settled iff they cost less, the counted tiles stay below MaxArea, the remaining intensity equals the pass's starting intensity, and no delayed neighbour is due at `iteration + 1`. Otherwise it goes on, keeping the invariant. Counts match the sets. |
| ExplosionTiles.Pass | Content.Server/Explosion/ExplosionSystemTileFill.cs:369-427 | One pass of the main loop: the top-up, then, unless that spent the rest, NewIteration. Spent iff the top-up left nothing, and then the grid is unchanged. The other outcomes are as in NewIteration, in terms of what the top-up left. Every outcome other than going on states why the loop ended. Counts match the sets. |
| ExplosionTiles.SpentEnded | Content.Server/Explosion/ExplosionSystemTileFill.cs:395 | A pass whose top-up spends the rest ends the loop with nothing left. |
| ExplosionTiles.EndedWithin | Content.Server/Explosion/ExplosionSystemTileFill.cs:368-427 | A loop that stopped for a reason other than the pass bound, within some number of passes, also stopped within any larger number. |
| ExplosionTiles.RunPasses | Content.Server/Explosion/ExplosionSystemTileFill.cs:368-428 | The main loop returns why it ended. Spent: nothing left. Shared: the last new set got the rest. Capped: the counted tiles reached MaxArea. Settled: the last pass distributed nothing and no delayed neighbour is due. Out of fuel: all `fuel` passes ran with intensity left and below MaxArea. It also ends accounted for, with counts matching the sets. |
| ExplosionTiles.Spread | Content.Server/Explosion/ExplosionSystemTileFill.cs:357-446 | The multi-tile case: from the epicenter at the step size, the main loop and the final pass. The filled sets are accounted for, their counts match, the stop reason is as in RunPasses, and the grid's final sets are those sets cleaned. |
| ExplosionTiles.GetExplosionTiles | Content.Server/Explosion/ExplosionSystemTileFill.cs:324-449 | No grid iff the total intensity or the slope is not positive. Otherwise there is one fresh grid with the given id, type, maximum, step size `slope / 2` and the grid's airtight map. The explosion is one-step iff the total is below the epicenter's cost, with the total shared over the epicenter. Otherwise the filled sets are accounted for: counts times intensities plus the rest make up the total, and intensities lie within `[min(0, max), max(step, max)]`. Each count is the spreaders plus non-spreader tiles of its set. The loop's stop reason is returned and stated as in RunPasses. The final sets are pairwise disjoint and are the filled sets cleaned. |

## Left out

- Cross-grid projection is not modelled: `TransformAllGridEdges`, the per-grid edge transforms, and the grid-to-grid spreading. `GetUnblockedDirectionsBoogaloo` takes the north-south and east-west blocker sets as inputs.
- `SendEdges` and every other network event, the sounds, the entity-system subscriptions and the debug overlays are I/O and are left out.
- Float rounding and overflow are not modelled: reals stand for `float`.
- Tiles.Tolerance: the model only admits non-negative tolerances (or NaN). The source does not check this, and a negative seal would give a clear iteration before the current one.
- The casts `(int) MathF.Ceiling(...)` and `(int) Math.Ceiling(...)` are unbounded integers, so their overflow for huge tolerances (such as the `float.MaxValue` sentinel) is not modelled.
- ExplosionTiles.GetExplosionTiles: the main loop runs at most `fuel` passes, and a loop cut short reports `OutOfFuel` as its outcome. Termination of the unbounded loop is not proved.
- TileFill.ExplosionGridData.GetNewTiles: `GeneratorsInOrder` gives each diagonal log's source only as "a diagonal neighbour of a source tile". The finer entry rule, with the corner directions that must be open, is stated for the whole of `entered` (`Sourced`), not log by log.
- ExplosionTiles.GetExplosionTiles: its contract does not restate, iteration by iteration, which neighbours were claimed. That is the contract of `AdvanceGrid`, given per pass.
- ExplosionTiles.GetExplosionTiles: the source builds the grid list and then discards `iterationIntensity`. The model also returns that list, so the accounting can be stated.
- ExplosionTiles.GetExplosionTiles only models the one grid at the epicenter, as the source does. The list of grids (and the multi-grid iteration it anticipates) is a list of at most one grid.
- FloodFill.SpawnExplosion: a `damagePerIteration` of 0 makes the source divide a float by zero and cast the result to int. The model gives no delay in that case and holds the tile back under no key.
- The lazy enumeration of `GetNewTiles` is modelled as generators that hand each candidate to the consumer immediately. This is the same interleaving of yields and updates, but not a deferred computation.
- HashSet and Dictionary enumeration order is arbitrary in the model. The model promises nothing that depends on it.
- `TileSets`, `Processed` and the spreader lists are mutable fields of `ExplosionGridData`. The final pass (`CommitSpreaders`, `RemoveDuplicates`) computes the new values and assigns them, so aliasing of the C# `HashSet` objects is not modelled.
- `IterationOffset` is dropped. The source passes 1, which under its two-entry start shifts the generators' reads by one iteration (see "Iteration numbering"). The model uses the three-entry start with an offset of 0.
- The map manager, `TryFindGridAt`, `GetAnchoredEntities` and the component queries are parameters given as values. The entity system that owns them is not part of this model.
- The tolerance tables `_gridTileTolerances` and `_airtightMap`, and the conversions that fill them (such as `RadiusToIntensity`), are inputs. The code computing them is not part of this model.
