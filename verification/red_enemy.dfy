/** The red enemy (src/core/game/RedEnemy.ts): one step along a shortest path to the player, or a
    random step to a neighbour that is not the player's tile. */
module RedEnemies {
  import opened Base
  import opened Tiles
  import opened GameMaps
  import opened Layers
  import opened Pathfinder
  import opened Enemies

  /** The chase search: nothing is blocked and the player's tile may end the path. */
  function ChaseQuery(board: GameMap, cur: TileId, playerTile: TileId): (q: Query)
    ensures forall n :: Enterable(q, n)
  {
    Query(Adjacency(board), cur, playerTile, {}, true)
  }

  /** The neighbour ids that are not the player's tile, in list order. */
  function Candidates(ns: seq<TileId>, playerTile: TileId): (c: seq<TileId>)
    ensures forall n :: n in c <==> n in ns && n != playerTile
    ensures |c| <= |ns|
    ensures playerTile !in ns ==> c == ns
  {
    if ns == [] then []
    else
      var rest := Candidates(ns[1..], playerTile);
      assert forall n :: n in ns <==> n == ns[0] || n in ns[1..];
      if ns[0] == playerTile then rest else [ns[0]] + rest
  }

  /** `neigh[Math.floor(Math.random() * neigh.length)]`, the random number given as a draw. */
  function Pick(c: seq<TileId>, draw: nat): (r: Option<TileId>)
    ensures r.None? <==> c == []
    ensures r.Some? ==> r.value in c
  {
    if c == [] then None else Some(c[draw % |c|])
  }

  /** One red turn: the enemy after it, the shortest path found to the player (`full`), the chosen
      step, if any, and the waypoints of the move. */
  datatype RedTurn = RedTurn(enemy: Enemy, chase: seq<TileId>, step: Option<TileId>, waypoints: seq<Pos>)

  /** With nothing blocked, the first tile of a shortest path is one step nearer: every walk from it to
      the end has at least one step fewer than the path. */
  lemma StepIsOneCloser(q: Query, chase: seq<TileId>, w: seq<TileId>)
    requires forall n :: Enterable(q, n)
    requires chase != [] && WalkTo(q, [q.start] + chase, q.end)
    requires forall v | WalkTo(q, v, q.end) :: |v| - 1 >= |chase|
    requires Walk(q, w) && w[0] == chase[0] && w[|w| - 1] == q.end
    ensures |w| >= |chase|
  {
    assert Edge(q.g, ([q.start] + chase)[0], ([q.start] + chase)[1]);
    WalkPrepend(q, q.start, w);
    assert WalkTo(q, [q.start] + w, q.end);
  }

  /** The fallback when no path is found: a random neighbour id that is not the player's tile, and no
      move when that id names no tile. On a well-formed board a move happens whenever such a
      neighbour exists. */
  function Fallback(board: GameMap, cur: TileId, playerTile: TileId, draw: nat): (r: Option<TileId>)
    requires cur in board.byId
    ensures r.Some? ==> r.value != playerTile && r.value in board.byId[cur].neighbors && r.value in board.byId
    ensures Valid(board) ==> (r.Some? <==> exists n :: n in board.byId[cur].neighbors && n != playerTile)
  {
    var c := Candidates(board.byId[cur].neighbors, playerTile);
    var next := Pick(c, draw);
    assert Valid(board) && next.Some? ==> next.value in board.byId;
    if next.Some? && next.value in board.byId then next else None
  }

  /** The chase search of `takeTurn`: a shortest walk to the player, empty when there is none. */
  method Chase(board: GameMap, cur: TileId, playerTile: TileId) returns (full: seq<TileId>)
    requires cur in board.byId
    ensures full != [] ==> WalkTo(ChaseQuery(board, cur, playerTile), [cur] + full, playerTile)
    ensures forall w | WalkTo(ChaseQuery(board, cur, playerTile), w, playerTile) :: |w| - 1 >= |full|
    ensures full == [] && cur != playerTile ==> forall w :: !WalkTo(ChaseQuery(board, cur, playerTile), w, playerTile)
    ensures full != [] ==> full[0] in board.byId && full[0] in board.byId[cur].neighbors
    ensures full != [] ==> forall w | Walk(ChaseQuery(board, cur, playerTile), w) && w[0] == full[0] && w[|w| - 1] == playerTile ::
      |w| >= |full|
    ensures cur != playerTile && playerTile in board.byId && playerTile in board.byId[cur].neighbors ==> full == [playerTile]
  {
    var q := ChaseQuery(board, cur, playerTile);
    full := FindPath(q);
    if full != [] {
      assert Edge(q.g, ([cur] + full)[0], ([cur] + full)[1]);
      forall w | Walk(q, w) && w[0] == full[0] && w[|w| - 1] == playerTile ensures |w| >= |full| {
        StepIsOneCloser(q, full, w);
      }
    }
    if cur != playerTile && playerTile in board.byId && playerTile in board.byId[cur].neighbors {
      assert WalkTo(q, [cur, playerTile], playerTile);
      assert full != [] && WalkTo(q, [cur] + full, playerTile);
    }
  }

  /** `takeTurn`: a step along the chase path when there is one, otherwise the fallback; the enemy
      moves at most one tile and the step becomes its current tile. */
  method TakeTurn(e: Enemy, board: GameMap, playerTile: TileId, draw: nat) returns (t: RedTurn)
    requires Valid(board) && e.currentTile in board.byId
    ensures t.chase != [] ==> WalkTo(ChaseQuery(board, e.currentTile, playerTile), [e.currentTile] + t.chase, playerTile)
    ensures forall w | WalkTo(ChaseQuery(board, e.currentTile, playerTile), w, playerTile) :: |w| - 1 >= |t.chase|
    ensures t.chase != [] ==> t.step == Some(t.chase[0])
    ensures t.chase == [] ==> t.step == Fallback(board, e.currentTile, playerTile, draw)
    ensures t.step.Some? ==> t.step.value in board.byId[e.currentTile].neighbors
    ensures e.currentTile != playerTile && playerTile in board.byId && playerTile in board.byId[e.currentTile].neighbors ==>
      t.step == Some(playerTile)
    ensures t.step.Some? ==> t.step.value in board.byId && t.enemy.currentTile == t.step.value
    ensures t.step.Some? ==> 1 <= |t.waypoints| <= 2 && t.waypoints[|t.waypoints| - 1] == board.byId[t.step.value].pos
    ensures Straight([board.byId[e.currentTile].pos] + t.waypoints)
    ensures t.step.None? ==> t.enemy == e && t.waypoints == []
  {
    var cur := e.currentTile;
    var full := Chase(board, cur, playerTile);
    var next := if full != [] then Some(full[0]) else Fallback(board, cur, playerTile, draw);
    if next.Some? {
      var moved := MoveAlongTiles(e, board.byId[cur].pos, [board.byId[next.value]]);
      t := RedTurn(moved.enemy, full, next, moved.waypoints);
    } else {
      t := RedTurn(e, full, None, []);
    }
  }
}
