# Board-game core: map, searches, turns and enemies

This project models the game logic of a small turn-based board game in Dafny. The game has a
player, two kinds of enemies and berries on a grid of square tiles.

- **Tiles and the map.** Tiles sit on integer grid coordinates and list their neighbours by id. The
  map (`GameMap`) indexes the tiles by id and by coordinate. `generateGrid` lays out a ring of
  tiles around the edge of the board and a few random straight "bridges" across it, then links
  neighbouring cells in both directions.
- **Searches.** `Pathfinder` has two breadth-first searches, each of which can treat some tiles as
  blocked:
  - `findPath` returns a shortest route, leaving out the start tile;
  - `findReachableTiles` returns the tiles first discovered exactly `maxSteps` layers away.
- **Turns.** The turn coordinator (`GameMaster`) takes a dice value. It lists the tiles its own
  breadth-first search finds in that round and flags them walkable. It moves the player when one of those tiles
  is chosen, then ends the turn.
- **Enemies.** Enemies move along a list of tiles, turning every diagonal step into two straight
  legs.
  - The red enemy chases the player along a shortest path, or steps to a random neighbour when
    there is no path.
  - The blue enemy heads for the midpoint of the player's route to the first berry, attacks when
    the player is two steps away, and otherwise wanders.

Modules follow the source files:

| module | file | source |
|---|---|---|
| `Base` | `base.dfy` | `Option`, duplicate-free sequences |
| `Tiles` | `tile.dfy` | `Tile.ts` |
| `GameMaps` | `game_map.dfy` | `GameMap.ts` indexes, `addTileAt`, `addConnectionByCoords` |
| `Grid` | `grid.dfy` | `GameMap.ts` `generateGrid`, `chooseLine`, `connectRingAndBridge` |
| `Layers` | `layers.dfy` | the layered breadth-first search shared by `Pathfinder.ts`, `GameMaster.ts` and `Player.ts` |
| `Pathfinder` | `pathfinder.dfy` | `Pathfinder.ts` |
| `Players` | `player.dfy` | `Player.ts` |
| `Turns` | `game_master.dfy` | `GameMaster.ts` |
| `Enemies` | `enemy.dfy` | `Enemy.ts` |
| `RedEnemies` | `red_enemy.dfy` | `RedEnemy.ts` |
| `BlueEnemies` | `blue_enemy.dfy` | `BlueEnemy.ts` |

Objects are modelled as immutable values:

- A tile is a `Tile` datatype.
- The map is a pair of maps plus the next free id. Its invariant is `GameMaps.Valid`: the two
  indexes agree, ids are below `nextId`, and every listed neighbour is a tile of the map. Every
  neighbour list is also duplicate-free, and adjacency is symmetric: if `a` lists `b` then `b`
  lists `a`. Every map the program builds meets both. `addNeighbor` skips an id already listed
  (Tile.ts:31-35), and `addConnectionByCoords` links the two tiles both ways (GameMap.ts:146-153).
- A search works on the adjacency `Graph` (`map<TileId, seq<TileId>>`) that `GameMaps.Adjacency`
  reads off the map. Looking a neighbour id up with `getTileById` and skipping it when it is
  missing is the same as an edge to a key of that graph.

Every random choice (`Math.random()`) is a `nat` draw given as a parameter. An index into `n`
candidates is `draw % n`. The bridge chance in `generateGrid` is held in tenths.

The layered search is written once, as the function `Layers.Layer`. It gives the frontier and the
visited set after `k` rounds. A `Rule` says two things:

- which neighbours may be entered at which depth;
- whether the start counts as visited from the outset.

Both `findReachableTiles` functions and `Player.reachableTiles` are instances of `Layer`. The
`Layers.Explore` method runs the same search round by round over sequences and is proved to
produce exactly `Layer`'s sets.

`findPath` is modelled separately (`Pathfinder.FindPath`). It keeps a first-in first-out queue and
a `cameFrom` map, and uses a ghost distance map to prove the path shortest.

## Model

| member | source | states |
|---|---|---|
| Tiles.NewTile | src/core/game/Tile.ts:14-29 | a new tile keeps its id and position, has no neighbours, is walkable and carries no berry |
| Tiles.AddNeighbor | src/core/game/Tile.ts:31-35 | afterwards the id is a neighbour; the neighbour set grows by exactly that id; an id already present leaves the tile unchanged; the list stays duplicate-free; nothing else about the tile changes |
| Tiles.AddNeighborsKeepsNoDup | src/core/game/Tile.ts:31-35 | adding any sequence of ids one by one keeps the neighbour list duplicate-free, and its elements are the old neighbours plus the added ids |
| Tiles.SetWalkable | src/core/game/Tile.ts:50-58 | `isWalkable` afterwards answers exactly the value set; id, position, neighbours and berry are untouched |
| Tiles.LastSetWalkableWins | src/core/game/Tile.ts:50-58 | after a series of `setWalkable` calls the flag equals the last value written, and the neighbours never change |
| GameMaps.EmptyMap | src/core/game/GameMap.ts:4-9 | a new map is valid and empty, with the next id set to 1 |
| GameMaps.Adjacency | src/core/game/GameMap.ts:142-144 | the graph the searches walk has exactly the map's tile ids as nodes, each listing that tile's neighbours |
| GameMaps.AddTileAt | src/core/game/GameMap.ts:125-136 | an occupied coordinate leaves the map unchanged and yields no tile; otherwise a fresh walkable tile with the next id is added at that coordinate in both indexes; existing tiles are kept and the map stays valid |
| GameMaps.GetTileAt | src/core/game/GameMap.ts:138-140 | a tile is returned only for an occupied coordinate, and in a valid map exactly then; in a valid map it is the tile at that position, stored under its own id |
| GameMaps.GetTileById | src/core/game/GameMap.ts:142-144 | a tile is returned exactly when the id is present, and in a valid map it carries that id |
| GameMaps.LinkOneWay | src/core/game/Tile.ts:31-35 | the only neighbour relation gained is the link from `a` to `b`; the key set is unchanged |
| GameMaps.AddConnectionByCoords | src/core/game/GameMap.ts:146-153 | when both coordinates hold tiles they become neighbours of each other, and no other pair becomes linked; when either is missing the map is unchanged; the map stays valid and no tile or coordinate appears or disappears |
| Grid.LineCandidates | src/core/game/GameMap.ts:74-81 | the candidates are exactly the indices `chooseLine` may return: inside the board, not next to its edge, and more than `minGap` away from every earlier line; listed in increasing order |
| Grid.ChooseLine | src/core/game/GameMap.ts:69-85 | a returned line is eligible; no line is returned exactly when no index is eligible; a random draw is used only when a line is returned |
| Grid.SpacedAppend | src/core/game/GameMap.ts:31-33 | appending a line far enough from all earlier ones keeps every pair of chosen lines more than `minGap` apart |
| Grid.Put | src/core/game/GameMap.ts:125-136 | adding a tile keeps the map valid, loses no tile, afterwards the coordinate is occupied, and no other coordinate is added |
| Grid.PlaceRows | src/core/game/GameMap.ts:13-16 | the top and bottom rows are fully occupied afterwards; the map stays valid, loses nothing and gains only cells of those two rows |
| Grid.PlaceColumns | src/core/game/GameMap.ts:18-21 | the inner cells of the left and right columns are occupied afterwards, and only such cells are added |
| Grid.PlaceRing | src/core/game/GameMap.ts:12-21 | every cell of the board's border holds a tile afterwards, and every added cell is a border cell |
| Grid.PlaceLine | src/core/game/GameMap.ts:35-37 | every inner cell of one bridge line holds a tile afterwards, and every added cell is an inner cell of that line |
| Grid.PlaceBridges | src/core/game/GameMap.ts:24-59 | at most `maxIndex / 5` lines are chosen, each at least 2 from the edge and at most `maxIndex - 3`, pairwise more than one apart, and every inner cell of each chosen line holds a tile; the chance keeps its residue modulo 0.3 and stays positive when it starts positive; every added cell is an inner cell of a chosen line |
| Grid.AfterSuccess | src/core/game/GameMap.ts:29-30 | the chance, in tenths, keeps its residue modulo 0.3 after an accepted bridge, so from its start at 0.2 it never ties with the 0.3 threshold; a positive chance stays positive |
| Grid.RingCoords | src/core/game/GameMap.ts:95-100 | every coordinate of the ring walk lies on the board's border |
| Grid.Connect | src/core/game/GameMap.ts:146-153 | connecting two occupied cells links them both ways and keeps every earlier link and tile |
| Grid.RingStepsKept | src/core/game/GameMap.ts:102-106 | ring links made earlier survive later connections |
| Grid.ConnectRing | src/core/game/GameMap.ts:102-106 | when all border cells exist, each consecutive pair of the ring walk, the last one wrapping to the first, is linked both ways |
| Grid.BridgeJoinedKept | src/core/game/GameMap.ts:108-122 | a fully linked bridge stays linked under later connections |
| Grid.RingClosedKept | src/core/game/GameMap.ts:102-122 | a closed ring stays closed while bridges are connected |
| Grid.ConnectLine | src/core/game/GameMap.ts:108-122 | when every cell of a line exists, each cell is linked both ways to the next, from one border cell to the opposite one |
| Grid.ConnectBridges | src/core/game/GameMap.ts:108-122 | every chosen bridge line is linked end to end |
| Grid.GenerateGrid | src/core/game/GameMap.ts:10-67 | the generated map is valid and keeps earlier tiles; the whole border exists and forms a closed ring; at most `width / 5` vertical and `height / 5` horizontal bridges are chosen, each within range and pairwise spaced; every bridge spans the board as a chain of tiles joined border to border; every added cell is a border cell or lies on a chosen bridge |
| Layers.FoundIsSeen | src/core/game/Pathfinder.ts:55-75 | the tiles found are exactly the visited ones apart from possibly the start, and from round one on every frontier tile is a node of the graph |
| Layers.LayersDisjoint | src/core/game/Pathfinder.ts:55-75 | when the start is marked visited, or from round one on, no tile is discovered in two different rounds |
| Layers.SeenGrows | src/core/game/Pathfinder.ts:61-75 | the visited set only grows, and every frontier stays visited later |
| Layers.AdmitNeighbours | src/core/game/Pathfinder.ts:69-75 | the neighbour loop queues exactly the admitted tiles, each once, none already visited |
| Layers.NextLayer | src/core/game/Pathfinder.ts:61-76 | processing a whole frontier queues exactly the next round's tiles, each once |
| Layers.Explore | src/core/game/Pathfinder.ts:46-78 | the search run round by round over sequences reaches exactly round `depth` of the layered definition and finds exactly the tiles discovered in rounds 1 to `depth`, without duplicates. The contract states these sets only; the queue order in which tiles are discovered is the body's, not the contract's |
| Layers.LayerHasWalk | src/core/game/Pathfinder.ts:61-76 | every tile of round `k` ends a walk of exactly `k` steps from the start, along edges, where each tile was enterable and discovered in its own round |
| Layers.LayeredWalkSimple | src/core/game/Pathfinder.ts:55 | when the start is marked visited, such a walk never repeats a tile |
| Layers.OpenRule | src/core/game/GameMaster.ts:70-76 | the private searches block nothing and do not mark the start visited |
| Layers.FoundHasLayer | src/core/game/Player.ts:38-49 | every found tile was discovered in some round between 1 and `k` |
| Layers.FoundGrows | src/core/game/Player.ts:38-49 | searching deeper never loses a found tile |
| Layers.StartBackAtTwo | src/core/game/GameMaster.ts:55-76 | without the start marked visited, a start with a two-way neighbour and no self-link is discovered again in round two |
| Pathfinder.FirstExit | src/core/game/Pathfinder.ts:22-34 | a walk from the start that leaves the discovered tiles passes through a pending queue tile no earlier than that tile's distance |
| Pathfinder.Relax | src/core/game/Pathfinder.ts:26-33 | one expansion discovers exactly the enterable, undiscovered neighbours of the current tile, gives each distance one more with the current tile as parent, and changes no earlier entry |
| Pathfinder.ExpandKeepsNoShortcut | src/core/game/Pathfinder.ts:22-34 | after an expansion no legal walk reaches a discovered tile in fewer steps than its recorded distance |
| Pathfinder.ExpandKeepsClosed | src/core/game/Pathfinder.ts:22-34 | after an expansion every enterable neighbour of a discovered, non-pending tile is discovered |
| Pathfinder.ExpandKeepsOrdered | src/core/game/Pathfinder.ts:22-34 | the queue stays sorted by distance, spanning at most two consecutive distances |
| Pathfinder.Reconstruct | src/core/game/Pathfinder.ts:36-43 | the rebuilt path has as many steps as the end's distance, is a legal walk from the start to the end, never revisits a tile and leaves out the start |
| Pathfinder.Traced | src/core/game/Pathfinder.ts:37-43 | a path traced back to distance 0 from the end is a legal walk to the end that visits no tile twice and leaves out the start |
| Pathfinder.FindPath | src/core/game/Pathfinder.ts:10-44 | a non-empty result is a legal walk from start to end that leaves out the start, never repeats a tile and enters only tiles it may; no legal walk to the end is shorter; for distinct start and end the result is empty exactly when no legal walk exists; start equal to end gives the empty path |
| Pathfinder.DropBlocked | src/core/game/Pathfinder.ts:63-67 | the final layer loses exactly the blocked tiles, unless ending on a blocked tile is allowed |
| Pathfinder.FindReachableTiles | src/core/game/Pathfinder.ts:46-78 | with zero steps the result is the start alone, or nothing when the start is blocked and ending there is not allowed; otherwise the result is exactly round `maxSteps` of the search with the start marked visited, without duplicates; it never holds the start for a positive `maxSteps`, nor a blocked tile unless allowed (that no tile of an earlier round appears is `Layers.LayersDisjoint`) |
| Pathfinder.ReachableBySimpleWalk | src/core/game/Pathfinder.ts:46-78 | every tile of the final round ends a walk of exactly `maxSteps` steps from the start that repeats no tile and passes through no blocked tile before its end |
| Pathfinder.LayerIsDistance | src/core/game/Pathfinder.ts:46-78 | with the start marked and nothing blocked, a tile is in round `d` of the search exactly when some walk reaches it in `d` steps and none in fewer |
| Pathfinder.ReachableWalkShape | src/core/game/Pathfinder.ts:64-72 | on such a walk no intermediate tile is blocked, a blocked end is only possible when allowed, and no tile repeats |
| Players.NewPlayer | src/core/game/Player.ts:9-17 | a new player stands on the start tile |
| Players.SetTile | src/core/game/Player.ts:26-29 | `setTile` moves the player onto the given tile |
| Players.ReachableTiles | src/core/game/Player.ts:31-51 | the result holds exactly the tiles discovered within `maxSteps` rounds, without duplicates, and nothing for zero steps; each is the end of a walk of 1 to `maxSteps` steps |
| Players.ReachableIncludesStart | src/core/game/Player.ts:31-51 | since the start is never marked visited, with at least two steps a start that has a two-way neighbour and no self-link is itself reported reachable |
| Turns.NewMaster | src/core/game/GameMaster.ts:6-18 | a new coordinator has no reachable tiles, no turn in progress, no dice value and no completed turns |
| Turns.MarkWalkable | src/core/game/GameMaster.ts:22-41 | afterwards a tile is walkable exactly when its id is in the given set; nothing but the walkable flags changes, and validity is kept |
| Turns.ClearWalkable | src/core/game/GameMaster.ts:111-117 | the given tiles become non-walkable, every other tile is untouched, nothing but walkable flags changes and validity is kept |
| Turns.CoordinatorSearch | src/core/game/GameMaster.ts:54-80 | with zero steps the search as written yields the start alone; in general it yields exactly round `maxSteps` of the search that does not mark the start visited, without duplicates (the walks behind its tiles are given by `Layers.LayerHasWalk`) |
| Turns.RollOfTwoOffersOwnTile | src/core/game/GameMaster.ts:54-80 | as written, a roll of 2 offers the player's own tile whenever it has a neighbour and no self-link |
| Turns.MarkedStartSearch | src/core/game/Pathfinder.ts:46-78 | with zero steps the corrected search yields the start alone; in general it yields exactly round `maxSteps` with the start marked visited, without duplicates, never the start for a positive roll (its tiles end simple walks by `Pathfinder.ReachableBySimpleWalk`) |
| Turns.StayingPutNeverOffered | src/core/game/GameMaster.ts:54-80 | with the correction, no positive roll offers the player's own tile |
| Turns.Highlight | src/core/game/GameMaster.ts:22-43 | once the search has run, every flag is cleared and exactly the given tiles become walkable and published; nothing else about the tiles, the player or the turn changes |
| Turns.UpdateReachableTiles | src/core/game/GameMaster.ts:22-44 | every walkable flag is cleared; without a dice value nothing else changes; with one, the published set is exactly round `dice` of the coordinator's own search (start not marked) and a tile is walkable exactly when it is in that set; player, turn state, positions, berries, links and the coordinate index are untouched, validity is kept and the state stays consistent |
| Turns.UpdateReachableTilesCorrected | src/core/game/GameMaster.ts:22-44 | the same, with the published set taken from the search that marks the player's tile visited |
| Turns.CanMoveTo | src/core/game/GameMaster.ts:82-84 | a tile may be moved to exactly when it is in the published set, and in a consistent state it is then a tile of the board |
| Turns.StartTurn | src/core/game/GameMaster.ts:46-51 | starting a turn stores the dice value, marks the turn in progress and publishes round `diceValue` of the coordinator's own search; a tile may be selected exactly when it is a walkable tile of the board; nothing but walkable flags changes on the board and a valid board stays valid. On a roll of 2 that includes the player's own tile (`Turns.RollOfTwoOffersOwnTile`) |
| Turns.StartTurnCorrected | src/core/game/GameMaster.ts:46-51 | the same, including the board frame, with the corrected search: the published set is exactly the tiles at distance `diceValue` (`Turns.ReachableIsDistance`) and never the player's own tile (`Turns.StayingPutNeverOffered`) |
| Turns.OnTileSelected | src/core/game/GameMaster.ts:86-101 | without a turn in progress, or for a tile outside the published set, the state is unchanged; otherwise the player stands on the tile, no tile is walkable, no tile is published, the dice value is cleared and one more turn is completed; in every case only walkable flags change on the board, and a valid board stays valid |
| Turns.MovePlayerToTile | src/core/game/GameMaster.ts:103-109 | only the player's tile changes |
| Turns.EndTurn | src/core/game/GameMaster.ts:111-122 | the published set is emptied, the turn and dice value are cleared and one more turn is counted; no tile becomes walkable, the published ones stop being walkable, tiles outside the published set are untouched, nothing but walkable flags changes and a valid board stays valid |
| Turns.AsWrittenHasWalk | src/core/game/GameMaster.ts:54-80 | every tile the coordinator publishes ends a walk of exactly the dice value in steps from the player's tile, one that may come back to an earlier tile |
| Turns.ReachableHasWalk | src/core/game/GameMaster.ts:54-80 | every tile the corrected coordinator publishes ends a walk of exactly the dice value in steps from the player's tile that never repeats a tile |
| Turns.ReachableIsDistance | src/core/game/GameMaster.ts:54-80 | the corrected coordinator publishes exactly the tiles whose shortest walk from the player's tile takes the dice value in steps |
| Enemies.NewEnemy | src/core/game/Enemy.ts:9-21 | a new enemy stands on its start tile |
| Enemies.Leg | src/core/game/Enemy.ts:28-39 | a move to the next tile is one or two straight legs ending on that tile, two exactly when the move is diagonal, in which case it first moves along x to the corner that keeps the old z |
| Enemies.Waypoints | src/core/game/Enemy.ts:24-40 | every leg of the waypoint list is axis-aligned, the list ends where the tile list ends, and it has between one and two points per tile |
| Enemies.WaypointsAppend | src/core/game/Enemy.ts:27-40 | the waypoints of two tile lists in a row are the first list's waypoints followed by the second's, computed from where the first ends |
| Enemies.StraightPathUnchanged | src/core/game/Enemy.ts:31-38 | a tile list whose steps are already axis-aligned is used as its own waypoint list |
| Enemies.MoveAlongTiles | src/core/game/Enemy.ts:23-47 | an empty list changes nothing; otherwise the enemy ends on the last tile and the axis-aligned waypoints end at its position |
| Enemies.TilesOf | src/core/game/RedEnemy.ts:19 | ids become the tiles stored under them, in order |
| RedEnemies.ChaseQuery | src/core/game/RedEnemy.ts:8-15 | the chase blocks no tile |
| RedEnemies.Candidates | src/core/game/RedEnemy.ts:18-20 | the fallback candidates are exactly the neighbours other than the player's tile |
| RedEnemies.Pick | src/core/game/RedEnemy.ts:21 | a random pick is one of the candidates, and nothing is picked only from an empty list |
| RedEnemies.StepIsOneCloser | src/core/game/RedEnemy.ts:8-16 | from the first step of a shortest chase, no walk to the player is shorter than the rest of the chase |
| RedEnemies.Fallback | src/core/game/RedEnemy.ts:16-22 | the random fallback is a neighbour on the board other than the player's tile, and on a valid board one exists exactly when such a neighbour exists |
| RedEnemies.Chase | src/core/game/RedEnemy.ts:8-16 | the chase is a shortest walk to the player, empty only when none exists; its first step is a neighbour; an adjacent player is reached in one step |
| RedEnemies.TakeTurn | src/core/game/RedEnemy.ts:6-27 | the red enemy takes the first step of a shortest path to the player, or a random non-player neighbour when there is none, and ends on that tile with at most two straight legs; with no move available it stays put |
| BlueEnemies.BerryFrom | src/core/game/BlueEnemy.ts:43 | the id found is the first berry tile from `from` on, and none means no berry tile in that range |
| BlueEnemies.FirstBerry | src/core/game/BlueEnemy.ts:43 | the berry tile chosen is the one with the lowest id; none means no tile holds a berry |
| BlueEnemies.Without | src/core/game/BlueEnemy.ts:14 | filtering keeps exactly the other tiles |
| BlueEnemies.WalkIsSteps | src/core/game/BlueEnemy.ts:24-26 | a path from `findPath` is a sequence of steps between neighbouring tiles |
| BlueEnemies.WanderPathLength | src/core/game/BlueEnemy.ts:10-26 | a shortest path to a wander target two rounds out has exactly two steps |
| BlueEnemies.WanderTarget | src/core/game/BlueEnemy.ts:10-22 | a target is chosen exactly when some tile two steps out, avoiding the player, exists; it is such a tile and not the current one |
| BlueEnemies.MoveRandomly | src/core/game/BlueEnemy.ts:7-36 | without options nothing moves; otherwise the enemy takes the two steps of a shortest path to a tile two rounds out that avoids the player |
| BlueEnemies.Approach | src/core/game/BlueEnemy.ts:99-129 | the route to the goal is a shortest one that avoids the player; the steps taken are its first two, or the goal plus one free neighbour of it, never through the player's tile |
| BlueEnemies.Pursue | src/core/game/BlueEnemy.ts:79-111 | no route from the player to the berry means no move; when the enemy already stands on the midpoint of that route, or cannot reach it around the player, it wanders; otherwise it takes at most two steps of a shortest route to the midpoint that avoids the player; the midpoint is never the player's tile |
| BlueEnemies.Decide | src/core/game/BlueEnemy.ts:38-111 | no berry means no move; no route to the player means no move; a player two steps away is attacked along that route; otherwise the berry pursuit decides, always with at most two neighbouring steps |
| BlueEnemies.TakeTurn | src/core/game/BlueEnemy.ts:38-141 | the blue enemy's turn follows `Decide`, ends on its last step and moves along straight legs |
| BlueEnemies.Move | src/core/game/BlueEnemy.ts:131-137 | an empty step list changes nothing; otherwise the enemy ends on the last step along straight legs |

## Left out

- Rendering is not modelled: meshes, colours, highlighting, `addToScene`, `removeFromScene`, the
  camera and the UI components. `setHighlight` is always called next to the walkable flag and has
  no other effect.
- The 0.5 vertical lift of entity positions is left out: waypoints are grid coordinates.
- `AnimatedEntity`, `Berry`, the factories, `TileType` and `TileSelector` are not part of this
  model. They load assets or read the mouse. A berry is a boolean flag on the tile.
- A move is treated as one atomic step that records its waypoints and then sets the current tile,
  as `moveAlongTiles` does once its animation settles (Enemy.ts:42-46).
- `Math.random()` is a `nat` draw parameter. Floating point is not modelled.
- The bridge chance (0.2, plus or minus 0.3, plus 0.3) is held in tenths.
- `tileSize` is fixed at 1.
- The `height` argument and field of `Tile` (Tile.ts:9, 14-17) are not modelled: nothing in the
  game logic reads them.
- `Player.reachableTiles`'s default `maxSteps = 3` (Player.ts:31) is not modelled: the model always
  takes `maxSteps` explicitly.
- Console output is not modelled.
- `getAllTiles`, `getGameMap`, `getPlayer`, `moveAlong` and the `berry` field of a tile are called
  but not defined in the source files. Iterating `getAllTiles` is modelled as iterating the id index, and
  the others as the coordinator's fields and a boolean on `Tile`.
- The coordinator writes the private `walkable` field of `Tile` directly. This is modelled as
  `setWalkable`.
- Grid.GenerateGrid: proves the ring is closed and every bridge is joined to the ring at both
  ends, but does not state that the whole map is one connected component.
- RedEnemies.TakeTurn: a move is assumed to finish on its last waypoint, so the next move's
  waypoints start from the current tile's position. The source starts them from
  `getObject3D().position` (Enemy.ts:25), which only the undefined `moveAlong` could change after
  construction (AnimatedEntity.ts:27).
- BlueEnemies.TakeTurn: the same assumption as `RedEnemies.TakeTurn`. Each move's waypoints start
  from the current tile's position, not from `getObject3D().position` (Enemy.ts:25).
- RedEnemies.TakeTurn: the `exactSteps: 1` option it passes is not a field `findPath` reads, so it
  has no effect and is not modelled.
- RedEnemies.TakeTurn: stated for a valid map only. The `!` in `getTileById(id)!` has no effect at
  run time: a neighbour id missing from the map gives `undefined`, which passes the player filter
  and, when drawn, makes `if (next)` skip the move. `RedEnemies.Fallback` models that case for any
  map.
- Players.ReachableTiles: requires every listed neighbour to be a node of the graph. The source's
  `getTileById(nId)!` assumes this and would return `undefined` otherwise.
- There is no score and no win or lose state in this code. The `onTurnComplete` callback is
  modelled only as a count of completed turns.
- `onTileSelected` teleports the player with `setTile`. It does not walk a path, so no path is
  modelled there.
- The blue enemy's final `else moveRandomly` branch (BlueEnemy.ts:138-140) is unreachable, since a
  non-empty `pathToMid` always yields at least one step. The model has no such branch.
- BlueEnemies.MoveRandomly: only the target is guaranteed to avoid the player. The path to it
  comes from an unblocked `findPath`, so its middle step may pass the player's tile, exactly as in
  the source.

## Findings

| source | as written | input that shows it | evidently intended | confidence | as-written member | corrected member |
|---|---|---|---|---|---|---|
| src/core/game/GameMaster.ts:54-80 | the private search starts with an empty `visited` set (line 55), so the start tile can be queued again from a neighbour | a board where the player's tile has a neighbour that links back and no self-link, with a dice value of 2: the player's own tile is published as reachable, so staying put is a legal move | mark the start visited, as `findReachableTiles` in Pathfinder.ts:55 does; a positive roll never offers the current tile | medium, not executed | Turns.RollOfTwoOffersOwnTile | Turns.StayingPutNeverOffered |

The coordinator (`Turns.UpdateReachableTiles`, `Turns.StartTurn`, `Turns.OnTileSelected`) is
modelled as written, on its own search `Turns.CoordinatorSearch`. The corrected coordinator,
`Turns.UpdateReachableTilesCorrected` and `Turns.StartTurnCorrected`, runs `Turns.MarkedStartSearch`
instead, the shared search with the start marked; for it `Turns.StayingPutNeverOffered` and
`Turns.ReachableIsDistance` prove the intended behaviour. `Player.reachableTiles`
(Player.ts:31-51) has the same unmarked start (`Players.ReachableIncludesStart`). It is modelled
as written because nothing in the game logic reads it.
