# rts43 core, modelled in Dafny

The project models the game logic of the rts43 real-time-strategy prototype, which is written in JavaScript on the Phaser engine. It covers four parts:

- **Tile map** (`TileGrid`, `TileMapSystem`). The map is a `height x width` grid of tiles, each `{x, y, type, protected}`. It is reset to grass and a square around the town centre is protected. `TileMap` has a single-tree pass, which the scene never calls. The scene runs the starting pass (the five starting clusters) and then the global pass (the global clusters). Each cluster is grown by a FIFO flood fill. Units ask the map whether a tile or a world point is walkable.
- **Units** (`Units`). A villager has a position, a target, a state (idle or walk), a facing direction and a selection flag. `moveTo`, `stop` and the per-frame `update` move it between states. `update` stops the unit when it arrives or when its next step would land on a tile it cannot walk on. `updateDirection` sorts an angle into one of eight compass octants.
- **Resource ledger** (`Ledger`, `EconomySystem`). Four counters: food, stone, gold and wood. `forest` is credited as wood, and an unknown kind is ignored. The main scene keeps its own copy with the same rules.
- **Main scene** (`SceneLogic`, `Scene`). The scene stamps the town-centre footprint into the map as building tiles. It tells a click from a drag, and selects either the first unit near the click or every unit inside the dragged box. It works out the formation offsets for a move order, and picks the cursor from the tile types under the pointer.

Module layout:

- `grid.dfy` holds the map as a value, plus the specification functions and lemmas for the passes.
- `tile_map.dfy` holds the `TileMap` class. Its methods update `tiles` in place with the source's loops and are proved against those functions.
- `unit.dfy` holds the `Unit` class.
- `ledger.dfy` and `economy.dfy` hold the counters and the `Economy` class.
- `scene_logic.dfy` states the scene's decisions on values.
- `scene.dfy` holds the `MainScene` class over the mutable units and map.
- `geometry.dfy` and `options.dfy` hold shared points, rectangles and `Option`.

Inputs the source takes from the engine or from the host are parameters here:

- `Math.random` draws: the cells each placement pass picks.
- The rounded `cos`/`sin` seed points of the starting clusters.
- `Math.sqrt` in `update`: a `dist` with `dist >= 0` and `dist * dist` equal to the squared distance.
- `Math.atan2`: the `angle` passed to `updateDirection`.
- The pointer's world position.
- The tile type under each cursor probe. The source reads it through `tileMap.isValid`, which is not part of this model.

Phaser's `Distance.Between(a, b) < r` is modelled as squared distance below `r * r`. `Rectangle.contains` is modelled as Phaser defines it: a rectangle whose width or height is not positive contains no point, and any other rectangle contains the points of its closed box.

The scene's per-frame `update` calls `updatePointer` before it calls `Unit.update` for each unit. While a unit is selected, `updatePointer` calls `tileMap.isValid` (src/MainScene.js:225). `TileMap` has no such method, so that call throws before the `Unit.update` loop (src/MainScene.js:213-214) is reached. The model keeps the two steps apart: `UpdatePointer` and `Unit.Update` are separate methods, and the model does not include the throw.

## Model

| member | source | states |
|---|---|---|
| TileMapSystem.TileMap.constructor | src/systems/TileMap.js:12-19 | The map has the given width, height and tile size, and starts as the fresh all-grass, unprotected grid. |
| TileMapSystem.TileMap.GenerateMap | src/systems/TileMap.js:21-30 | Afterwards the map has exactly `height` rows of `width` tiles, and tile `(x, y)` is `{x, y, grass, unprotected}`. |
| TileGrid.FreshGridShape | src/systems/TileMap.js:21-30 | The fresh grid is well formed, and every tile in it is open grass. |
| TileMapSystem.TileMap.PlaceSingleTrees | src/systems/TileMap.js:32-40 | A tile becomes forest exactly when it is picked and was in-bounds, unprotected grass. Every other tile is unchanged. The pass is a `Fills` with `{forest}`, so it never touches a protected tile. |
| TileMapSystem.TileMap.PlaceStartingResources | src/systems/TileMap.js:42-57 | `StartingChain`: the map goes through six stages. Stage `i + 1` is stage `i` after a cluster fill (`ClusterFilled`) of starting resource `i` (stone 4, gold 4, food 6, forest 20, forest 20), seeded at `seeds[i]`. The whole pass only turns open grass into a resource. |
| TileMapSystem.TileMap.RandomizeGlobalResources | src/systems/TileMap.js:59-64 | `GlobalChain`: the map goes through five stages. Stage `k + 1` is stage `k` after global pass `k`, as `GlobalPass` describes it for `PlaceGlobalClusters` (gold 15 x 5, stone 12 x 4, food 20 x 8, forest 40 x 65), drawing its attempt points from `picks[k]`. Together the passes only turn open grass into a resource. |
| TileMapSystem.TileMap.PlaceGlobalClusters | src/systems/TileMap.js:66-76 | `GlobalPass`: attempt `i` is made at `picks[i]`, in order, and `trace` records the map before each attempt and after the last. Attempt `i` grows a cluster of `kind` and `clusterSize` there (`ClusterFilled`) exactly when its 17 x 17 square is clear on the map at that moment (`clears[i]`); otherwise it leaves the map unchanged. Every attempt is made while fewer than `count` clusters are placed, and the pass stops only after 500 attempts or once `count` are placed. The pass only turns open grass into `kind`. |
| TileMapSystem.TileMap.TryCluster | src/systems/TileMap.js:69-74 | One attempt: the result is true exactly when the square around the point is clear, and then the map after is a cluster fill at the point; otherwise the map is unchanged. |
| TileMapSystem.StartingChainFills | src/systems/TileMap.js:42-57 | The starting clusters, taken together, only turn open grass into a resource. |
| TileMapSystem.GlobalPassEffect | src/systems/TileMap.js:66-76 | A global pass only turns open grass into `kind`. It changes at most `clusterSize` tiles per cluster filled, and so at most `count * clusterSize` tiles. |
| TileMapSystem.GlobalPassStep | src/systems/TileMap.js:68-74 | One more attempt, made while fewer than 500 attempts are made and fewer than `count` clusters are placed, extends the recorded attempts, and adds one to the placed count exactly when it was clear. |
| TileMapSystem.PlacedExtend | src/systems/TileMap.js:74 | Recording a further attempt leaves the placed count of the earlier attempts unchanged. |
| TileMapSystem.PlacedAtMostCount | src/systems/TileMap.js:68 | Since each attempt is made only while fewer than `count` are placed, a pass never places more than `count` clusters. |
| TileMapSystem.GlobalPassExhaustive | src/systems/TileMap.js:66-76 | For a resource kind and a positive cluster size: a pass that ends with fewer than `count` clusters placed made all 500 attempts, and none of the 500 attempt points is clear on the final map. |
| TileMapSystem.AttemptEffect | src/systems/TileMap.js:70-74 | One attempt only turns open grass into `kind`, keeps the shape, and changes at most `clusterSize` tiles, none when it was not clear. |
| TileMapSystem.AttemptsSteps | src/systems/TileMap.js:66-76 | Every recorded attempt of a pass is a placement step of `kind` that keeps the shape and changes at most `clusterSize` tiles, none when not clear. |
| TileMapSystem.GlobalSegment | src/systems/TileMap.js:66-76 | Any run of consecutive attempts, taken together, only turns open grass into `kind`. |
| TileMapSystem.GlobalPrefixChanged | src/systems/TileMap.js:66-76 | The first `n` attempts keep the shape and change at most `clusterSize` tiles for each cluster they placed. |
| TileMapSystem.GlobalPassClearAtStart | src/systems/TileMap.js:70-72 | The square around each attempt point that took a cluster was also clear on the map the pass started from. |
| TileGrid.ClusterFilledPlacesSeed | src/systems/TileMap.js:83-90 | A cluster fill with a positive size from an in-bounds, unprotected grass seed places `kind` on the seed itself. |
| TileMapSystem.GlobalChainFills | src/systems/TileMap.js:59-64 | The four global passes, taken together, only turn open grass into a resource. |
| TileMapSystem.TileMap.FillCluster | src/systems/TileMap.js:78-95 | The FIFO fill satisfies `ClusterFill`, with `order` being the placements in order. That means: at most `size` placements. Each one is on a distinct tile that was in bounds, grass and unprotected, and now holds `kind`. Every other tile, including every protected one, is unchanged. The placements grow 4-connected from the seed. An eligible seed with a positive size is placed. Unless `size` was reached, every neighbour of a placed tile is placed or ineligible. |
| TileGrid.ClusterChangesAtMostSize | src/systems/TileMap.js:83-94 | A cluster fill changes at most `size` tiles, and none when `size <= 0`. |
| TileGrid.ClusterFilledChanges | src/systems/TileMap.js:83-94 | A cluster fill known only through `ClusterFilled` keeps the shape and changes at most `size` tiles, none when `size <= 0`. |
| TileGrid.ChangedCompose | src/systems/TileMap.js:59-64 | The tiles two passes in a row change are at most the tiles the first changes plus those the second changes. |
| TileGrid.ClusterIneligibleSeed | src/systems/TileMap.js:89 | A fill whose seed is out of bounds, not grass, or protected places nothing and leaves the map unchanged. |
| TileGrid.ClusterFillFills | src/systems/TileMap.js:89-90 | A cluster fill is a placement pass: each tile is unchanged, or was open grass and now holds `kind`. |
| TileGrid.ClusterFilledFills | src/systems/TileMap.js:89-90 | A cluster fill known only through `ClusterFilled` is still a placement pass of its kind. |
| TileGrid.FillsKeepProtected | src/systems/TileMap.js:36 | A placement pass keeps the map well formed and never alters a tile that is protected or not grass. |
| TileGrid.FillsTransitive | src/systems/TileMap.js:59-64 | Placement passes compose, so a sequence of passes is still a placement pass. |
| TileGrid.FillsAreaClear | src/systems/TileMap.js:97-104 | A square that is clear after a placement pass was already clear before it. |
| TileMapSystem.TileMap.IsAreaClear | src/systems/TileMap.js:97-104 | True exactly when every tile of the `(2r+1) x (2r+1)` square is in bounds, grass and unprotected. |
| TileGrid.AreaClearInside | src/systems/TileMap.js:100 | A clear square lies wholly inside the map, so a square that overlaps the edge is never clear. |
| TileMapSystem.TileMap.ProtectArea | src/systems/TileMap.js:106-115 | The map becomes `Protect(old map, cx, cy, r)`. |
| TileGrid.ProtectAreaEffect | src/systems/TileMap.js:106-115 | Every in-bounds tile with `abs(x-cx) <= r` and `abs(y-cy) <= r` becomes protected grass. Every other tile is unchanged, and the shape is kept. |
| TileGrid.ProtectWellFormed | src/systems/TileMap.js:106-115 | Protecting a square keeps the map well formed. |
| TileGrid.ProtectIdempotent | src/systems/TileMap.js:106-115 | Protecting the same square twice has the same effect as protecting it once. |
| TileGrid.SetTile | src/systems/TileMap.js:90 | Writing one tile keeps the shape, sets that tile, and leaves all others unchanged. |
| TileMapSystem.TileMap.WorldToTile | src/systems/TileMap.js:134-136 | The world point lies within the returned tile's square: `t * size <= v < (t + 1) * size` on each axis. |
| TileMapSystem.TileMap.IsWalkableTile | src/systems/TileMap.js:143-146 | False outside `[0, width) x [0, height)`. In bounds, true exactly when the tile is grass, so resources and buildings block. |
| TileMapSystem.TileMap.IsWalkableWorld | src/systems/TileMap.js:138-141 | True exactly when `WorldToTile(x, y)` is in bounds and grass. A walkable point lies inside the map's pixel area. |
| TileMapSystem.FloorDiv | src/systems/TileMap.js:135 | `floor(v / s) * s <= v < (floor(v / s) + 1) * s`. |
| Units.Unit.constructor | src/entities/Unit.js:2-24 | A new unit stands at `(x, y)`, has no target, is idle, faces down and is not selected. |
| Units.Unit.SetSelected | src/entities/Unit.js:26-29 | `isSelected` becomes the argument. |
| Units.Unit.MoveTo | src/entities/Unit.js:31-34 | The target becomes `(x, y)` and the state becomes walk. |
| Units.Unit.Stop | src/entities/Unit.js:36-40 | The target is cleared and the state becomes idle. |
| Units.Unit.Update | src/entities/Unit.js:42-82 | The angle lies in `[-pi, pi]`, the range of `Math.atan2`. With no target, position, target and direction are unchanged, and the unit is idle. Closer than 4 px, it stops without moving. If the next step is not walkable, it stops with position and direction unchanged. Otherwise it moves to the next point, keeps its target and walks. Its new facing is compass sector `CompassIndex(angle)`, which is also what the if-chain picks. A unit on a walkable point stays on one. |
| Units.ArriveTest | src/entities/Unit.js:55-57 | With `dist` the square root of `d2`, `dist < 4` exactly when `d2 < 16`. |
| Units.StepTowards | src/entities/Unit.js:62-67 | The new point lies on the line through the old point and the target. |
| Units.StepApproaches | src/entities/Unit.js:62-67 | A step no longer than twice the distance never takes the unit farther from its target. A positive step shorter than that brings it strictly closer. |
| Units.StepScalesOffset | src/entities/Unit.js:62-67 | The step moves along the line to the target: the new offset is `(1 - step/dist)` times the old one. |
| Units.Unit.UpdateDirection | src/entities/Unit.js:84-103 | The direction becomes the one whose interval holds the angle. For angles in `[-pi, pi]`, the atan2 range, it is compass sector `floor((angle + pi/8) / (pi/4)) mod 8`. |
| Units.DirectionFor | src/entities/Unit.js:84-103 | The if-chain of `updateDirection` assigns a facing to every real angle. The source's fall-through case, which leaves the facing unchanged, is never reached. |
| Units.FacingsDisjoint | src/entities/Unit.js:87-102 | No angle passes two of the eight tests of the chain, so the tests are pairwise disjoint. |
| Units.DirectionForFacing | src/entities/Unit.js:87-102 | The chain picks facing `k` exactly when the `k`-th test holds. |
| Units.DirectionMatchesCompass | src/entities/Unit.js:87-102 | On `[-pi, pi]`, the chain agrees with the independently defined sector index `CompassIndex`. |
| Units.CompassIndex | src/entities/Unit.js:84-103 | The sector index is one of the eight directions, `0 <= k < 8`. |
| Ledger.Credit | src/systems/Economy.js:27-33 | The key set never changes. Only the key `kind` books to (wood for forest) can change, and it grows by exactly `amount` when it exists. |
| Ledger.InitialKeys | src/systems/Economy.js:4 | The initial totals are food 200, stone 150, gold 100, wood 200, and there are no other keys. |
| Ledger.ForestIsWood | src/systems/Economy.js:28 | Crediting `forest` is crediting `wood`. |
| Ledger.UnknownKeyIgnored | src/systems/Economy.js:29 | A kind outside the four keys leaves every total unchanged. |
| Ledger.CreditsAdd | src/systems/Economy.js:29-30 | Two credits of one kind add up. |
| Ledger.CreditsCommute | src/systems/Economy.js:29-30 | Credits to any two kinds commute. |
| EconomySystem.Economy.constructor | src/systems/Economy.js:2-6 | The totals start at food 200, stone 150, gold 100, wood 200. |
| EconomySystem.Economy.AddResource | src/systems/Economy.js:27-33 | The totals become `Credit(old totals, type, amount)`. |
| Scene.MainScene.constructor | src/MainScene.js:8-12 | The scene starts with a map built as `CreatedMap` says, from the given random draws, and that map satisfies `TownMap`. The town centre is `(15, 15)`, and the totals are food 200, stone 150, gold 100, wood 200. The two villagers stand idle at `(544, 570)` and `(416, 570)`, and the drop-off point is `(480, 544)`. By `SpawnWalkable`, all three points are walkable. Nothing is selected, no drag is under way, and the cursor is idle. |
| Scene.SpawnVillagers | src/MainScene.js:79-82 | Two new, distinct villagers, 64 px left and right of the town centre and 90 px below it, idle, with no target and not selected. |
| Scene.BuildTownMap | src/MainScene.js:45-71 | `CreatedMap`: a fresh 100 x 100 map (tile size 32), then the square of radius 3 around `(15, 15)` protected, then the starting clusters (`StartingPlaced`), then the four global passes (`GlobalsPlaced`), then the footprint loop as written, which runs to its end. `TownMap`: the whole 7 x 7 square is still protected, the six footprint tiles are building and unwalkable, and every other tile of the square is walkable grass. |
| Scene.TownSquare | src/MainScene.js:55-71 | After protecting radius 3 around `(15, 15)`, any placement passes, and the stamp: every tile of the square is still protected, the footprint is building, and the rest of the square is grass. |
| Scene.CreatedTownSquare | src/MainScene.js:55-71 | For every map `CreatedMap` describes, whatever the random draws: the map is the corrected stamp of the map after the passes, every tile of the square is protected, the footprint is building, and the rest of the square is grass. |
| Scene.AsWrittenAgreesAtTownCentre | src/MainScene.js:65-71 | On any well-formed 100 x 100 map, the footprint loop as written, around `(15, 15)`, completes and does what the corrected stamp does. |
| Scene.ProtectedSquareSurvives | src/MainScene.js:55-57 | The placement passes that follow `protectArea` leave every tile of the protected square as protected grass. |
| Scene.SpawnWalkable | src/MainScene.js:73-82 | On the town map, the villagers' spawn points and the drop-off point are walkable. |
| Scene.StampTownCentre | src/MainScene.js:65-71 | The corrected footprint loop, with both indices bounds-checked: the map becomes `Stamp(old map, FootprintCells(tcX, tcY))`. |
| Scene.StampTile | src/MainScene.js:67-68 | One step of the corrected loop: the tile at the cell becomes a building if the map has that tile. Otherwise the map is unchanged. |
| SceneLogic.FootprintCells | src/MainScene.js:65-66 | Six cells in loop order, exactly those with `x` in `[tcX-1, tcX+1]` and `y` in `[tcY-1, tcY]`. |
| SceneLogic.Stamp | src/MainScene.js:65-71 | Keeps the shape. An in-bounds tile becomes a building when its cell is in the footprint, and is unchanged otherwise. |
| SceneLogic.StampBlocks | src/MainScene.js:65-71 | Every in-bounds footprint tile is a building afterwards. By `IsWalkableTile`, it then blocks. |
| SceneLogic.StampAsWritten | src/MainScene.js:65-71 | The loop as written throws exactly when some footprint cell has a row but not that column. When it completes, it keeps the map's shape. |
| SceneLogic.AsWrittenAgrees | src/MainScene.js:65-71 | When every footprint cell whose row exists also has its column, the loop as written completes and agrees with `Stamp`. |
| SceneLogic.AsWrittenStaysFailed | src/MainScene.js:65-71 | Once the loop as written has thrown, the rest of the loop cannot undo it. |
| SceneLogic.AsWrittenThrowsAtLeftEdge | src/MainScene.js:67-68 | On a 100 x 100 map with the town centre at column 0, the loop as written writes to column -1 of an existing row and throws. |
| SceneLogic.AsWrittenThrowsAtRightEdge | src/MainScene.js:67-68 | The same happens with the town centre at column 99, which writes to column 100. |
| Scene.MainScene.DepositResource | src/MainScene.js:103-110 | The totals become `Credit(old totals, type, amount)`. An `updateResources` event carrying the new totals is emitted exactly when the booked key exists. |
| Scene.MainScene.PressLeft | src/MainScene.js:136-141 | A left press starts a drag at the pointer. |
| Scene.MainScene.ReleaseLeft | src/MainScene.js:148-155 | Ends the drag. With no drag start, the selection is unchanged. A release under 10 px from the start runs single selection at the pointer. Otherwise box selection runs with the normalised drag rectangle. No unit moves. |
| SceneLogic.LeftRelease | src/MainScene.js:152-155 | No drag start means nothing happens. The release is a click exactly when the distance is under 10, and then it picks the release point. Otherwise it is a box. The box contains both the start and the release point when they differ on both axes. When they share a row or a column, the box is flat and contains no point. |
| SceneLogic.DragBox | src/MainScene.js:155 | The rectangle `(min x, min y, abs dx, abs dy)` has non-negative width and height. It contains a point exactly when the corners differ on both axes and the point lies between them on both axes. |
| Scene.MainScene.HandleSingleSelection | src/MainScene.js:178-188 | Every unit is deselected. Then the selection is exactly the first unit, in `units` order, less than 30 px from the click, or empty if there is none. Each unit's flag equals membership, and no unit moves. |
| SceneLogic.FirstNear | src/MainScene.js:181-187 | The index of the first point within 30 px of the click, or the length when there is none. |
| Scene.MainScene.FirstUnitNear | src/MainScene.js:181-187 | The scan over the units returns `FirstNear` of their positions. |
| Scene.MainScene.ClearSelection | src/MainScene.js:179-180 | Every unit is deselected, the selection is empty, and no unit moves. |
| Scene.MainScene.Select | src/MainScene.js:183-184 | Unit `i` is flagged and appended to the selection. No other flag changes and no unit moves. |
| Scene.ConsistentPick | src/MainScene.js:178-188 | Flagging only unit `i` and selecting only that unit is consistent: a unit is flagged exactly when it is selected. |
| Scene.MainScene.HandleBoxSelection | src/MainScene.js:190-199 | The selection is exactly the units whose position the rectangle contains, in `units` order. Each unit's flag equals membership, and no unit moves. |
| Scene.MainScene.SelectInBox | src/MainScene.js:193-198 | Starting from an empty selection, the loop selects `Take(units, InBox(positions, rect))` and flags exactly the contained units. |
| Scene.InBoxFlagsStep | src/MainScene.js:193-198 | No unit is flagged before the loop. Each step flags unit `i` exactly when the box contains it. |
| SceneLogic.InBox | src/MainScene.js:193-198 | The indices of the contained points, strictly increasing, covering every contained point and nothing else. |
| Scene.ConsistentBox | src/MainScene.js:190-199 | The box selection and its flags agree: a unit is selected exactly when it is flagged, exactly when the box contains it. |
| Scene.TakeMembership | src/MainScene.js:193-198 | For distinct units, unit `i` is among those taken exactly when `i` is among the indices. |
| SceneLogic.FormationInjective | src/MainScene.js:165-168 | Distinct indices get distinct move-order offsets. |
| SceneLogic.FormationRows | src/MainScene.js:166-167 | Index `i + 3` sits one spacing (25 px) below index `i`. |
| SceneLogic.FormationOffset | src/MainScene.js:166-167 | The offset's column is one of `-25`, `0` and `25`. Its row is a multiple of 25 no higher than `-25`, and stays within `[-25, 25]` exactly for the first nine units. |
| SceneLogic.FormationFirstNine | src/MainScene.js:165-169 | The first nine units fill the 3 x 3 grid of spacing 25 centred on the click, row by row from the top left. |
| Scene.MainScene.UpdatePointer | src/MainScene.js:217-239 | With no selection, the cursor is the idle pointer. Otherwise it is the cursor for the first resource type found among the four probes. |
| SceneLogic.FirstResource | src/MainScene.js:221-229 | Grass exactly when no probe found a resource. Otherwise, the type of the first probe that found one. |
| SceneLogic.DetectType | src/MainScene.js:222-229 | The probing loop with its early exit returns `FirstResource`. |
| SceneLogic.CursorFor | src/MainScene.js:230-236 | Chop exactly for forest, mine exactly for gold or stone, hand exactly for food, and idle exactly for a non-resource. |

## Left out

- Rendering, animation and assets are left out because they are engine calls with no game state: `preload`, `createVillagerAnimations`, `renderMap`, `playAnimation`, the selection ring, sprite depth, `showDestinationMarker`, tweens and graphics.
- The camera, the WASD scroll in the scene's `update`, the engine's input registration, `getWorldPoint` and the resize handler are left out. Their outputs, such as the pointer's world position, are parameters.
- The scene's `update` is not modelled as one method. It calls `updatePointer` and then `Unit.update` for each unit, and both calls are modelled. While a unit is selected, the `tileMap.isValid` call inside `updatePointer` throws before the `Unit.update` loop (src/MainScene.js:213-214) is reached. The model does not include that throw.
- The right-click dispatch, `src/MainScene.js:156-172`, is not modelled as a method. It calls `tileMap.isValid`, `Unit.orderGather` and `Unit.orderMove`, and none of these exists in the source. Its formation offsets are modelled by `FormationOffset` and its lemmas.
- `updatePointer`'s probes go through the missing `tileMap.isValid`. The model therefore takes the type under each probe (or none) as input, and does not compute it from the map.
- Pathfinding, the gather and deliver loop, and unit collision do not exist in the source, so they are not modelled.
- `Economy.createUI`, `updateUIPosition` and the label update in `addResource` only display text. `UIScene`, `Building` and `main.js` hold no logic to model.
- JavaScript numbers are modelled as exact reals, including the resource totals. `Math.floor` on the totals is display-only (src/systems/Economy.js:31), and the totals themselves stay fractional. `Math.sqrt`, `Math.atan2`, `Math.cos`, `Math.sin`, `Math.round` and `Math.random` are inputs, each with the property the model relies on.
- Units.Unit.Update: the next point is computed exactly, as `pos + (target - pos) / dist * step`. Any rounding of that arithmetic in the source is not modelled.
- Units.Unit.UpdateDirection: the if-chain is modelled for every real angle, and `Update` takes its angle from `[-pi, pi]`. The agreement with compass sectors is proved only on `[-pi, pi]`, the range `atan2` returns, with pi the constant `3.141592653589793`.
- Ledger.Credit: the totals are a map from string to real. The source's `resources[key] !== undefined` test would also accept keys inherited from the JavaScript object prototype, such as `"toString"`. The model books only the four own keys.
- Phaser rectangles with negative width or height cannot arise here, because `DragBox` always normalises them. A flat drag box does arise: pressing at `(100, 100)` and releasing at `(100, 200)` is a drag whose box has width 0. Following Phaser's `Rectangle.contains`, such a box selects no unit, and `DragBox` and `LeftRelease` state this.
- fillCluster: the code pops its queue in FIFO order (`queue.shift()`), and the model follows the code.
- TileMapSystem.TileMap.PlaceStartingResources: the seed points come in as parameters that lie within 6 tiles of the centre on each axis. The model does not compute them from the angles `2*pi*i/5 + random`.
- The non-left branch of `pointerdown` and the `pointermove` rectangle drawing have no state beyond what `PressLeft` records, so they are not modelled.

## Findings

| source | as written | input that shows it | evidently intended | confidence | as-written member | corrected member |
|---|---|---|---|---|---|---|
| src/MainScene.js:65-71 | The footprint loop checks that row `tcTileY + y` exists but not that column `tcTileX + x` does, then assigns `.type` on that entry. | Town centre at column 0 (or 99) on the 100 x 100 map: the first footprint write reaches `map[14][-1]`, cell `(-1, 14)` (or `map[14][100]`, cell `(100, 14)`), which is `undefined`, and setting its `type` throws. The shipped scene uses `(15, 15)`, so the failure is latent. | Stamp only the in-bounds footprint tiles, checking the column as well as the row. | not executed | SceneLogic.StampAsWritten; SceneLogic.AsWrittenThrowsAtLeftEdge | SceneLogic.Stamp; SceneLogic.StampBlocks |
