/** The turn coordinator (src/core/game/GameMaster.ts): dice budget, reachable set and turn flag. */
module Turns {
  import opened Base
  import opened Tiles
  import opened GameMaps
  import opened Layers
  import opened Players
  import opened Pathfinder

  /** The coordinator's state: the board it highlights, the player it moves, `reachableTiles`,
      `isTurnInProgress`, `currentDiceValue`, and how many times `onTurnComplete` has fired. */
  datatype Master = Master(
    board: GameMap,
    player: Player,
    reachable: set<TileId>,
    inProgress: bool,
    dice: Option<nat>,
    completed: nat)

  /** The player stands on a tile of the board and every reachable tile is a tile of the board. */
  predicate Consistent(gm: Master) {
    gm.player.currentTile in gm.board.byId && gm.reachable <= gm.board.byId.Keys
  }

  /** The constructor: nothing reachable, no turn in progress, no dice value. */
  function NewMaster(board: GameMap, player: Player): (gm: Master)
    ensures gm.reachable == {} && !gm.inProgress && gm.dice == None && gm.completed == 0
    ensures gm.board == board && gm.player == player
  {
    Master(board, player, {}, false, None, 0)
  }

  /** Two versions of a tile that differ at most in the walkable flag. */
  predicate SameTile(a: Tile, b: Tile) {
    a.id == b.id && a.pos == b.pos && a.neighbors == b.neighbors && a.berry == b.berry
  }

  /** Sets the walkable flag of every tile to whether its id is in `on`; nothing else changes. */
  function MarkWalkable(m: GameMap, on: set<TileId>): (r: GameMap)
    ensures r.byId.Keys == m.byId.Keys && r.byCoord == m.byCoord && r.nextId == m.nextId
    ensures forall id | id in r.byId :: IsWalkable(r.byId[id]) <==> id in on
    ensures forall id | id in r.byId :: r.byId[id] == SetWalkable(m.byId[id], id in on)
    ensures forall id | id in r.byId :: SameTile(r.byId[id], m.byId[id])
    ensures Valid(m) ==> Valid(r)
  {
    var r := GameMap(map id | id in m.byId :: SetWalkable(m.byId[id], id in on), m.byCoord, m.nextId);
    assert Valid(m) ==> Symmetric(r) by {
      if Valid(m) {
        forall a, b | a in r.byId && b in r.byId[a].neighbors
          ensures b in r.byId && a in r.byId[b].neighbors
        {
          assert b in m.byId[a].neighbors;
        }
      }
    }
    r
  }

  /** Clears the walkable flag of the tiles in `off`; the other tiles keep theirs. */
  function ClearWalkable(m: GameMap, off: set<TileId>): (r: GameMap)
    ensures r.byId.Keys == m.byId.Keys && r.byCoord == m.byCoord && r.nextId == m.nextId
    ensures forall id | id in r.byId && id in off :: !IsWalkable(r.byId[id])
    ensures forall id | id in r.byId && id !in off :: r.byId[id] == m.byId[id]
    ensures forall id | id in r.byId :: SameTile(r.byId[id], m.byId[id])
    ensures Valid(m) ==> Valid(r)
  {
    var r := GameMap(map id | id in m.byId :: if id in off then SetWalkable(m.byId[id], false) else m.byId[id], m.byCoord, m.nextId);
    assert Valid(m) ==> Symmetric(r) by {
      if Valid(m) {
        forall a, b | a in r.byId && b in r.byId[a].neighbors
          ensures b in r.byId && a in r.byId[b].neighbors
        {
          assert b in m.byId[a].neighbors;
        }
      }
    }
    r
  }

  /** The private `findReachableTiles` as written: a search that blocks nothing, does NOT mark the
      start visited, and returns the tiles of layer `maxSteps`. */
  method CoordinatorSearch(g: Graph, start: TileId, maxSteps: nat) returns (r: seq<TileId>)
    requires start in g
    ensures maxSteps == 0 ==> r == [start]
    ensures NoDup(r)
    ensures Elems(r) == Layer(g, start, OpenRule(maxSteps), maxSteps).layer
  {
    var found;
    r, found := Explore(g, start, OpenRule(maxSteps), maxSteps);
    if maxSteps == 0 {
      assert Layer(g, start, OpenRule(maxSteps), 0).layer == {start};
      forall y ensures y in r <==> y == start {
        assert y in r <==> y in Elems(r);
      }
      NoDupSingleton(r, start);
    }
  }

  /** The tiles the coordinator publishes for a dice value `d`: round `d` of its own search, which
      does not mark the player's tile visited. */
  function AsWrittenReachable(gm: Master, d: nat): set<TileId> {
    Layer(Adjacency(gm.board), gm.player.currentTile, OpenRule(d), d).layer
  }

  /** Because the start is not marked visited, a roll of two offers the player's own tile back
      whenever that tile has a neighbour (and no link to itself): staying put becomes a legal move. */
  lemma RollOfTwoOffersOwnTile(gm: Master, n: TileId)
    requires Consistent(gm) && Valid(gm.board)
    requires n in gm.board.byId[gm.player.currentTile].neighbors
    requires gm.player.currentTile !in gm.board.byId[gm.player.currentTile].neighbors
    ensures gm.player.currentTile in AsWrittenReachable(gm, 2)
  {
    StartBackAtTwo(Adjacency(gm.board), gm.player.currentTile, 2, n);
  }

  /** The search with the start marked visited, as the shared `findReachableTiles` does it with
      nothing blocked: the tiles first discovered exactly `maxSteps` layers out. */
  method MarkedStartSearch(g: Graph, start: TileId, maxSteps: nat) returns (r: seq<TileId>)
    requires start in g
    ensures maxSteps == 0 ==> r == [start]
    ensures NoDup(r)
    ensures forall t :: t in r <==> t in Layer(g, start, ReachRule({}, false, maxSteps), maxSteps).layer
    ensures maxSteps > 0 ==> start !in r
  {
    r := FindReachableTiles(g, start, maxSteps, {}, false);
  }

  /** The tiles the corrected coordinator publishes for a dice value `d`: round `d` of the search with
      the player's tile marked visited. */
  function ReachableFor(gm: Master, d: nat): set<TileId> {
    Layer(Adjacency(gm.board), gm.player.currentTile, ReachRule({}, false, d), d).layer
  }

  /** With the correction, a positive roll never offers the player's own tile. */
  lemma StayingPutNeverOffered(gm: Master, d: nat)
    requires d > 0
    ensures gm.player.currentTile !in ReachableFor(gm, d)
  {
    LayersDisjoint(Adjacency(gm.board), gm.player.currentTile, ReachRule({}, false, d), 0, d);
  }

  /** Whatever rule the search uses, its rounds only hold tiles of the board. */
  lemma SearchInBoard(gm: Master, rule: Rule, d: nat)
    requires Consistent(gm)
    ensures Layer(Adjacency(gm.board), gm.player.currentTile, rule, d).layer <= gm.board.byId.Keys
  {
    FoundIsSeen(Adjacency(gm.board), gm.player.currentTile, rule, d);
  }

  /** The end of `updateReachableTiles` once the search has run: every flag cleared, then exactly the
      tiles of `on` flagged walkable and published. */
  function Highlight(gm: Master, on: set<TileId>): (r: Master)
    requires Consistent(gm) && on <= gm.board.byId.Keys
    ensures Consistent(r) && r.reachable == on
    ensures r.player == gm.player && r.inProgress == gm.inProgress && r.dice == gm.dice && r.completed == gm.completed
    ensures r.board.byId.Keys == gm.board.byId.Keys && r.board.byCoord == gm.board.byCoord
    ensures forall id | id in r.board.byId :: SameTile(r.board.byId[id], gm.board.byId[id])
    ensures forall id | id in r.board.byId :: IsWalkable(r.board.byId[id]) <==> id in on
    ensures Valid(gm.board) ==> Valid(r.board)
  {
    gm.(board := MarkWalkable(MarkWalkable(gm.board, {}), on), reachable := on)
  }

  /** `updateReachableTiles`: every tile loses its walkable flag; with a dice value the tiles of
      round `dice` of the coordinator's own search become walkable and form the new reachable set;
      without one nothing else changes. */
  method UpdateReachableTiles(gm: Master) returns (r: Master)
    requires Consistent(gm)
    ensures Consistent(r)
    ensures r.player == gm.player && r.inProgress == gm.inProgress && r.dice == gm.dice && r.completed == gm.completed
    ensures r.board.byId.Keys == gm.board.byId.Keys && r.board.byCoord == gm.board.byCoord
    ensures forall id | id in r.board.byId :: SameTile(r.board.byId[id], gm.board.byId[id])
    ensures gm.dice.None? ==> r.reachable == gm.reachable && forall id | id in r.board.byId :: !IsWalkable(r.board.byId[id])
    ensures gm.dice.Some? ==> r.reachable == AsWrittenReachable(gm, gm.dice.value)
    ensures gm.dice.Some? ==> forall id | id in r.board.byId :: IsWalkable(r.board.byId[id]) <==> id in r.reachable
    ensures Valid(gm.board) ==> Valid(r.board)
  {
    if gm.dice.None? {
      return gm.(board := MarkWalkable(gm.board, {}));
    }
    var d := gm.dice.value;
    var reachable := CoordinatorSearch(Adjacency(gm.board), gm.player.currentTile, d);
    SearchInBoard(gm, OpenRule(d), d);
    r := Highlight(gm, Elems(reachable));
  }

  /** `updateReachableTiles` with the corrected search: the published set is round `dice` of the
      search that marks the player's tile visited. */
  method UpdateReachableTilesCorrected(gm: Master) returns (r: Master)
    requires Consistent(gm)
    ensures Consistent(r)
    ensures r.player == gm.player && r.inProgress == gm.inProgress && r.dice == gm.dice && r.completed == gm.completed
    ensures r.board.byId.Keys == gm.board.byId.Keys && r.board.byCoord == gm.board.byCoord
    ensures forall id | id in r.board.byId :: SameTile(r.board.byId[id], gm.board.byId[id])
    ensures gm.dice.None? ==> r.reachable == gm.reachable && forall id | id in r.board.byId :: !IsWalkable(r.board.byId[id])
    ensures gm.dice.Some? ==> r.reachable == ReachableFor(gm, gm.dice.value)
    ensures gm.dice.Some? ==> forall id | id in r.board.byId :: IsWalkable(r.board.byId[id]) <==> id in r.reachable
    ensures Valid(gm.board) ==> Valid(r.board)
  {
    if gm.dice.None? {
      return gm.(board := MarkWalkable(gm.board, {}));
    }
    var d := gm.dice.value;
    var reachable := MarkedStartSearch(Adjacency(gm.board), gm.player.currentTile, d);
    SearchInBoard(gm, ReachRule({}, false, d), d);
    forall t ensures t in Elems(reachable) <==> t in ReachableFor(gm, d) {
      assert t in reachable <==> t in Layer(Adjacency(gm.board), gm.player.currentTile, ReachRule({}, false, d), d).layer;
    }
    r := Highlight(gm, Elems(reachable));
  }

  /** `canMoveTo(tile)`: the tile is in the published set; in a consistent state it is then a tile of
      the board. */
  function CanMoveTo(gm: Master, t: TileId): (b: bool)
    ensures b ==> t in gm.reachable
    ensures !b ==> t !in gm.reachable
    ensures Consistent(gm) && b ==> t in gm.board.byId
  {
    t in gm.reachable
  }

  /** `startTurn(diceValue)`: the dice value is stored, the turn starts, and the tiles the player may
      select are exactly the walkable ones, round `diceValue` of the coordinator's own search. */
  method StartTurn(gm: Master, diceValue: nat) returns (r: Master)
    requires Consistent(gm)
    ensures Consistent(r)
    ensures r.dice == Some(diceValue) && r.inProgress
    ensures r.player == gm.player && r.completed == gm.completed
    ensures r.reachable == AsWrittenReachable(gm, diceValue)
    ensures forall t :: CanMoveTo(r, t) <==> t in r.board.byId && IsWalkable(r.board.byId[t])
    ensures r.board.byId.Keys == gm.board.byId.Keys && r.board.byCoord == gm.board.byCoord
    ensures forall id | id in r.board.byId :: SameTile(r.board.byId[id], gm.board.byId[id])
    ensures Valid(gm.board) ==> Valid(r.board)
  {
    r := UpdateReachableTiles(gm.(dice := Some(diceValue), inProgress := true));
  }

  /** `startTurn(diceValue)` with the corrected search. */
  method StartTurnCorrected(gm: Master, diceValue: nat) returns (r: Master)
    requires Consistent(gm)
    ensures Consistent(r)
    ensures r.dice == Some(diceValue) && r.inProgress
    ensures r.player == gm.player && r.completed == gm.completed
    ensures r.reachable == ReachableFor(gm, diceValue)
    ensures forall t :: CanMoveTo(r, t) <==> t in r.board.byId && IsWalkable(r.board.byId[t])
    ensures r.board.byId.Keys == gm.board.byId.Keys && r.board.byCoord == gm.board.byCoord
    ensures forall id | id in r.board.byId :: SameTile(r.board.byId[id], gm.board.byId[id])
    ensures Valid(gm.board) ==> Valid(r.board)
  {
    r := UpdateReachableTilesCorrected(gm.(dice := Some(diceValue), inProgress := true));
  }

  /** `onTileSelected(tile)`: ignored without a turn in progress or for a tile outside the reachable
      set; otherwise the player moves there, the reachable set is recomputed from the new tile and
      the turn ends. Only walkable flags change on the board. */
  method OnTileSelected(gm: Master, t: TileId) returns (r: Master)
    requires Consistent(gm)
    ensures Consistent(r)
    ensures !gm.inProgress ==> r == gm
    ensures !CanMoveTo(gm, t) ==> r == gm
    ensures gm.inProgress && CanMoveTo(gm, t) ==>
      && r.player.currentTile == t
      && r.reachable == {} && !r.inProgress && r.dice == None
      && r.completed == gm.completed + 1
      && (forall id | id in r.board.byId :: !IsWalkable(r.board.byId[id]))
    ensures r.board.byId.Keys == gm.board.byId.Keys && r.board.byCoord == gm.board.byCoord
    ensures forall id | id in r.board.byId :: SameTile(r.board.byId[id], gm.board.byId[id])
    ensures Valid(gm.board) ==> Valid(r.board)
  {
    if !gm.inProgress {
      return gm;
    }
    if !CanMoveTo(gm, t) {
      return gm;
    }
    var moved := MovePlayerToTile(gm, t);
    var updated := UpdateReachableTiles(moved);
    r := EndTurn(updated);
  }

  /** `movePlayerToTile`. */
  function MovePlayerToTile(gm: Master, t: TileId): (r: Master)
    requires Consistent(gm) && t in gm.board.byId
    ensures Consistent(r)
    ensures r.player.currentTile == t
    ensures r.board == gm.board && r.reachable == gm.reachable && r.inProgress == gm.inProgress
    ensures r.dice == gm.dice && r.completed == gm.completed
  {
    gm.(player := SetTile(gm.player, t))
  }

  /** `endTurn`: the reachable tiles lose their walkable flag, the turn state is reset and
      `onTurnComplete` fires once. */
  function EndTurn(gm: Master): (r: Master)
    requires Consistent(gm)
    ensures Consistent(r)
    ensures r.reachable == {} && !r.inProgress && r.dice == None && r.completed == gm.completed + 1
    ensures r.player == gm.player && r.board.byId.Keys == gm.board.byId.Keys && r.board.byCoord == gm.board.byCoord
    ensures forall id | id in r.board.byId :: IsWalkable(r.board.byId[id]) ==> IsWalkable(gm.board.byId[id]) && id !in gm.reachable
    ensures forall id | id in r.board.byId && id !in gm.reachable :: r.board.byId[id] == gm.board.byId[id]
    ensures forall id | id in r.board.byId :: SameTile(r.board.byId[id], gm.board.byId[id])
    ensures Valid(gm.board) ==> Valid(r.board)
  {
    Master(ClearWalkable(gm.board, gm.reachable), gm.player, {}, false, None, gm.completed + 1)
  }

  /** Every tile the coordinator offers for a dice value `d` ends a walk of exactly `d` steps from
      the player's tile, each step along a listed neighbour. */
  lemma AsWrittenHasWalk(gm: Master, d: nat, t: TileId)
    requires t in AsWrittenReachable(gm, d)
    ensures exists w :: (LayeredWalk(Adjacency(gm.board), gm.player.currentTile, OpenRule(d), w)
      && |w| == d + 1 && w[0] == gm.player.currentTile && w[d] == t)
  {
    LayerHasWalk(Adjacency(gm.board), gm.player.currentTile, OpenRule(d), d, t);
  }

  /** Every tile the corrected coordinator offers for a dice value `d` ends a simple walk of exactly
      `d` steps from the player's tile, each step along a listed neighbour. */
  lemma ReachableHasWalk(gm: Master, d: nat, t: TileId)
    requires t in ReachableFor(gm, d)
    ensures exists w :: (LayeredWalk(Adjacency(gm.board), gm.player.currentTile, ReachRule({}, false, d), w)
      && |w| == d + 1 && w[0] == gm.player.currentTile && w[d] == t && NoDup(w))
  {
    var g := Adjacency(gm.board);
    LayerHasWalk(g, gm.player.currentTile, ReachRule({}, false, d), d, t);
    var w :| LayeredWalk(g, gm.player.currentTile, ReachRule({}, false, d), w) && |w| == d + 1 && w[d] == t;
    LayeredWalkSimple(g, gm.player.currentTile, ReachRule({}, false, d), w);
  }

  /** The corrected coordinator offers exactly the tiles whose shortest walk from the player's tile
      takes the dice value in steps. */
  lemma ReachableIsDistance(gm: Master, d: nat, t: TileId)
    ensures t in ReachableFor(gm, d) <==> AtDistance(Adjacency(gm.board), gm.player.currentTile, t, d)
  {
    LayerIsDistance(Adjacency(gm.board), gm.player.currentTile, d, t);
  }
}
