/** The blue enemy (src/core/game/BlueEnemy.ts): attack from two steps away, otherwise head for the
    midpoint of the player's shortest path to a berry, with a short random walk as the fallback. */
module BlueEnemies {
  import opened Base
  import opened Tiles
  import opened GameMaps
  import opened Layers
  import opened Pathfinder
  import opened Enemies

  /** The first tile with a berry among the ids `from` .. `nextId - 1`, scanned upwards. */
  function BerryFrom(m: GameMap, from: int): (r: Option<TileId>)
    ensures r.Some? ==> from <= r.value < m.nextId && r.value in m.byId && m.byId[r.value].berry
    ensures r.Some? ==> forall id | from <= id < r.value && id in m.byId :: !m.byId[id].berry
    ensures r.None? ==> forall id | from <= id < m.nextId && id in m.byId :: !m.byId[id].berry
    decreases m.nextId - from
  {
    if from >= m.nextId then None
    else if from in m.byId && m.byId[from].berry then Some(from)
    else BerryFrom(m, from + 1)
  }

  /** `getAllTiles().find(t => t.berry != null)`. Tiles are stored under increasing ids and never
      removed, so the id index iterates in increasing id order and the first berry tile is the one with
      the smallest id. */
  function FirstBerry(m: GameMap): (r: Option<TileId>)
    requires Valid(m)
    ensures r.Some? ==> r.value in m.byId && m.byId[r.value].berry
    ensures r.Some? ==> forall id | id in m.byId && id < r.value :: !m.byId[id].berry
    ensures r.None? <==> forall id | id in m.byId :: !m.byId[id].berry
  {
    BerryFrom(m, 1)
  }

  /** The rule of the random walk's search: the player's tile is blocked, even as the final step. */
  function WanderRule(playerTile: TileId): Rule {
    ReachRule({playerTile}, false, 2)
  }

  /** A tile a random walk may pick: first discovered two layers out with the player's tile blocked. */
  predicate WanderOption(board: GameMap, cur: TileId, playerTile: TileId, t: TileId) {
    t in Layer(Adjacency(board), cur, WanderRule(playerTile), 2).layer && t != playerTile
  }

  /** `steps` is a walk from `cur` along links of the board. */
  predicate Steps(board: GameMap, cur: TileId, steps: seq<TileId>) {
    forall i | 0 <= i < |steps| :: Edge(Adjacency(board), ([cur] + steps)[i], steps[i])
  }

  /** `reachableTiles.filter(t => t !== this.currentTile)`. */
  function Without(s: seq<TileId>, x: TileId): (r: seq<TileId>)
    ensures forall t :: t in r <==> t in s && t != x
    ensures x !in s ==> r == s
  {
    if s == [] then []
    else
      assert forall t :: t in s <==> t == s[0] || t in s[1..];
      if s[0] == x then Without(s[1..], x) else [s[0]] + Without(s[1..], x)
  }

  /** A neighbour of the start that is not the start and may be entered at step 1 is in layer 1 of a
      search that marks the start visited. */
  lemma FirstLayer(g: Graph, start: TileId, rule: Rule, n: TileId)
    requires rule.markStart && n != start && Edge(g, start, n) && MayEnter(rule, n, 1)
    ensures n in Layer(g, start, rule, 1).layer
  {
    assert Layer(g, start, rule, 0) == Front({start}, {start});
  }

  /** A walk found by a search over the board's links is a sequence of steps along them. */
  lemma WalkIsSteps(board: GameMap, q: Query, path: seq<TileId>)
    requires q.g == Adjacency(board) && path != [] && WalkTo(q, [q.start] + path, q.end)
    ensures Steps(board, q.start, path)
  {
    forall i | 0 <= i < |path| ensures Edge(q.g, ([q.start] + path)[i], path[i]) {
      assert path[i] == ([q.start] + path)[i + 1];
    }
  }

  /** The first `k` steps of a walk along links are again such a walk. */
  lemma StepsPrefix(board: GameMap, cur: TileId, steps: seq<TileId>, k: nat)
    requires Steps(board, cur, steps) && k <= |steps|
    ensures Steps(board, cur, steps[..k])
  {
    forall i | 0 <= i < k ensures Edge(Adjacency(board), ([cur] + steps[..k])[i], steps[..k][i]) {
      assert ([cur] + steps[..k])[i] == ([cur] + steps)[i];
    }
  }

  /** The random walk's search: nothing is blocked. */
  function WanderQuery(board: GameMap, cur: TileId, t: TileId): Query {
    Query(Adjacency(board), cur, t, {}, false)
  }

  /** The shortest unblocked path to a random-walk option has exactly two steps. */
  lemma WanderPathLength(board: GameMap, cur: TileId, playerTile: TileId, t: TileId, path: seq<TileId>)
    requires cur in board.byId && WanderOption(board, cur, playerTile, t) && t != cur
    requires Shortest(WanderQuery(board, cur, t), path)
    ensures |path| == 2
  {
    var g := Adjacency(board);
    var q := WanderQuery(board, cur, t);
    LayerHasWalk(g, cur, WanderRule(playerTile), 2, t);
    var w :| LayeredWalk(g, cur, WanderRule(playerTile), w) && |w| == 3 && w[2] == t;
    assert WalkTo(q, w, t);
    if |path| == 1 {
      assert Edge(g, ([cur] + path)[0], ([cur] + path)[1]);
      FirstLayer(g, cur, WanderRule(playerTile), t);
      assert false;
    }
  }

  /** The random choice of `moveRandomly`: a uniformly drawn tile among the options, none when there
      are no options. The start tile is never among them, so the filter removes nothing. */
  method WanderTarget(board: GameMap, cur: TileId, playerTile: TileId, draw: nat) returns (target: Option<TileId>)
    requires cur in board.byId
    ensures target.None? <==> forall t :: !WanderOption(board, cur, playerTile, t)
    ensures target.Some? ==> WanderOption(board, cur, playerTile, target.value) && target.value != cur
  {
    var reachable := FindReachableTiles(Adjacency(board), cur, 2, {playerTile}, false);
    var options := Without(reachable, cur);
    assert options == reachable;
    if options == [] {
      assert forall t :: !WanderOption(board, cur, playerTile, t) by {
        forall t | WanderOption(board, cur, playerTile, t) ensures t in reachable { }
      }
      return None;
    }
    var t := options[draw % |options|];
    assert t in reachable;
    assert WanderOption(board, cur, playerTile, t);
    target := Some(t);
  }

  /** `moveRandomly`: walk the first two tiles of the shortest path to the random target. The path is
      searched with nothing blocked, so only the target, not the path, is known to avoid the player. */
  method MoveRandomly(board: GameMap, cur: TileId, playerTile: TileId, draw: nat)
    returns (steps: seq<TileId>, target: Option<TileId>)
    requires cur in board.byId
    ensures target.None? <==> forall t :: !WanderOption(board, cur, playerTile, t)
    ensures target.None? ==> steps == []
    ensures target.Some? ==> WanderOption(board, cur, playerTile, target.value) && target.value != cur
    ensures target.Some? ==> |steps| == 2 && steps[1] == target.value
    ensures Steps(board, cur, steps)
  {
    target := WanderTarget(board, cur, playerTile, draw);
    if target.None? {
      return [], None;
    }
    var q := WanderQuery(board, cur, target.value);
    var path := FindPath(q);
    WanderPathLength(board, cur, playerTile, target.value, path);
    WalkIsSteps(board, q, path);
    steps := path[..2];
  }

  /** The search for the enemy's own path to the intercept tile: the player's tile is blocked. */
  function AvoidQuery(board: GameMap, cur: TileId, playerTile: TileId, goal: TileId): Query {
    Query(Adjacency(board), cur, goal, {playerTile}, false)
  }

  /** The advance toward the intercept tile `goal`: the first two tiles of the player-avoiding path, or,
      when the goal is one step away, the goal and then its first neighbour that is neither the
      player's tile nor the enemy's own tile. `approach` is the path; empty when there is none. */
  method Approach(board: GameMap, cur: TileId, playerTile: TileId, goal: TileId)
    returns (steps: seq<TileId>, approach: seq<TileId>)
    requires cur in board.byId && goal != cur && goal != playerTile
    ensures Shortest(AvoidQuery(board, cur, playerTile, goal), approach)
    ensures approach == [] ==> steps == []
    ensures approach != [] ==> 1 <= |steps| <= 2 && steps[0] == approach[0]
    ensures Steps(board, cur, steps) && playerTile !in steps
    ensures |approach| >= 2 ==> steps == approach[..2]
    ensures |approach| == 1 ==> steps[0] == goal
    ensures |approach| == 1 && |steps| == 2 ==> steps[1] != cur && steps[1] != goal
    ensures |approach| == 1 && |steps| == 1 ==>
      forall n | Edge(Adjacency(board), goal, n) :: n == playerTile || n == cur || n == goal
  {
    var g := Adjacency(board);
    var q := AvoidQuery(board, cur, playerTile, goal);
    approach := FindPath(q);
    if approach == [] {
      return [], [];
    }
    WalkIsSteps(board, q, approach);
    if |approach| >= 2 {
      StepsPrefix(board, cur, approach, 2);
      return approach[..2], approach;
    }
    var first := approach[0];
    assert Edge(g, ([cur] + approach)[0], ([cur] + approach)[1]);
    var neighbours := FindReachableTiles(g, first, 1, {playerTile, cur}, false);
    if neighbours != [] {
      assert neighbours[0] in neighbours;
      LayerHasWalk(g, first, ReachRule({playerTile, cur}, false, 1), 1, neighbours[0]);
      ghost var w :| LayeredWalk(g, first, ReachRule({playerTile, cur}, false, 1), w) && |w| == 2 && w[1] == neighbours[0];
      steps := [first, neighbours[0]];
      assert Steps(board, cur, steps) by {
        assert Edge(g, ([cur] + steps)[0], steps[0]);
        assert Edge(g, w[0], w[1]);
      }
    } else {
      steps := [first];
      forall n | Edge(g, goal, n) ensures n == playerTile || n == cur || n == goal {
        if n != playerTile && n != cur && n != goal {
          FirstLayer(g, first, ReachRule({playerTile, cur}, false, 1), n);
        }
      }
    }
  }

  /** The search for the player's path to the berry: nothing is blocked. */
  function BerryQuery(board: GameMap, playerTile: TileId, berry: TileId): Query {
    Query(Adjacency(board), playerTile, berry, {}, false)
  }

  /** The search for the path to the player: nothing is blocked and the player's tile may end it. */
  function AttackQuery(board: GameMap, cur: TileId, playerTile: TileId): Query {
    Query(Adjacency(board), cur, playerTile, {}, true)
  }

  /** Which branch of `takeTurn` decided the move, with the paths it was decided on. */
  datatype Plan =
    | NoBerry
    | NoRouteToPlayer
    | Attack
    | BerryUnreachable(berry: TileId)
    | Wander(berry: TileId, route: seq<TileId>, goal: TileId, target: Option<TileId>)
    | Intercept(berry: TileId, route: seq<TileId>, goal: TileId, approach: seq<TileId>)

  /** The intercept tile is the middle tile, `route[floor(len / 2)]`, of the player's shortest path
      `route` to the berry; never the player's own tile. */
  ghost predicate Midpoint(board: GameMap, playerTile: TileId, berry: TileId, route: seq<TileId>, goal: TileId) {
    route != [] && Shortest(BerryQuery(board, playerTile, berry), route) && goal == route[|route| / 2] && goal != playerTile
  }

  /** What the berry branches of `takeTurn` promise about `steps` under each plan. */
  ghost predicate Pursued(board: GameMap, cur: TileId, playerTile: TileId, berry: TileId, steps: seq<TileId>, plan: Plan) {
    match plan
    case BerryUnreachable(b) =>
      && b == berry && steps == []
      && (playerTile == berry || forall w :: !WalkTo(BerryQuery(board, playerTile, berry), w, berry))
    case Wander(b, route, goal, target) =>
      && b == berry && Midpoint(board, playerTile, berry, route, goal)
      && (goal == cur || forall w :: !WalkTo(AvoidQuery(board, cur, playerTile, goal), w, goal))
      && (target.None? <==> forall t :: !WanderOption(board, cur, playerTile, t))
      && (target.None? ==> steps == [])
      && (target.Some? ==> WanderOption(board, cur, playerTile, target.value) && target.value != cur)
      && (target.Some? ==> |steps| == 2 && steps[1] == target.value)
    case Intercept(b, route, goal, approach) =>
      && b == berry && Midpoint(board, playerTile, berry, route, goal) && goal != cur
      && approach != [] && Shortest(AvoidQuery(board, cur, playerTile, goal), approach)
      && 1 <= |steps| <= 2 && steps[0] == approach[0] && playerTile !in steps
      && (|approach| >= 2 ==> steps == approach[..2])
      && (|approach| == 1 ==> steps[0] == goal)
      && (|approach| == 1 && |steps| == 2 ==> steps[1] != cur && steps[1] != goal)
    case _ => false
  }

  /** The berry branches of `takeTurn`: intercept at the midpoint of the player's path to the berry,
      or wander when the enemy is already there or cannot get there around the player. */
  method Pursue(board: GameMap, cur: TileId, playerTile: TileId, berry: TileId, draw: nat)
    returns (steps: seq<TileId>, plan: Plan)
    requires cur in board.byId && playerTile in board.byId
    ensures Pursued(board, cur, playerTile, berry, steps, plan)
    ensures Steps(board, cur, steps) && |steps| <= 2
  {
    var route := FindPath(BerryQuery(board, playerTile, berry));
    if route == [] {
      return [], BerryUnreachable(berry);
    }
    var goal := route[|route| / 2];
    if goal == cur {
      var target;
      steps, target := MoveRandomly(board, cur, playerTile, draw);
      return steps, Wander(berry, route, goal, target);
    }
    var approach;
    steps, approach := Approach(board, cur, playerTile, goal);
    if approach == [] {
      var target;
      steps, target := MoveRandomly(board, cur, playerTile, draw);
      return steps, Wander(berry, route, goal, target);
    }
    plan := Intercept(berry, route, goal, approach);
  }

  /** The decision of `takeTurn`, before the move: the steps to take, the path found to the player and
      the branch taken. */
  method Decide(board: GameMap, cur: TileId, playerTile: TileId, draw: nat)
    returns (steps: seq<TileId>, toPlayer: seq<TileId>, plan: Plan)
    requires Valid(board) && cur in board.byId && playerTile in board.byId
    ensures |steps| <= 2 && Steps(board, cur, steps)
    ensures plan.NoBerry? <==> FirstBerry(board).None?
    ensures plan.NoBerry? ==> steps == []
    ensures !plan.NoBerry? ==> Shortest(AttackQuery(board, cur, playerTile), toPlayer)
    ensures plan.NoRouteToPlayer? <==> !plan.NoBerry? && toPlayer == []
    ensures plan.NoRouteToPlayer? ==> steps == []
    ensures plan.Attack? <==> !plan.NoBerry? && |toPlayer| == 2
    ensures plan.Attack? ==> steps == toPlayer && steps[1] == playerTile
    ensures plan.BerryUnreachable? || plan.Wander? || plan.Intercept? ==>
      FirstBerry(board).Some? && Pursued(board, cur, playerTile, FirstBerry(board).value, steps, plan)
  {
    var berry := FirstBerry(board);
    if berry.None? {
      return [], [], NoBerry;
    }
    var q := AttackQuery(board, cur, playerTile);
    toPlayer := FindPath(q);
    if toPlayer == [] {
      return [], toPlayer, NoRouteToPlayer;
    }
    if |toPlayer| == 2 {
      WalkIsSteps(board, q, toPlayer);
      return toPlayer, toPlayer, Attack;
    }
    steps, plan := Pursue(board, cur, playerTile, berry.value, draw);
  }

  /** One blue turn: the enemy after it, its steps and waypoints, the path found to the player and the
      branch taken. */
  datatype BlueTurn = BlueTurn(enemy: Enemy, steps: seq<TileId>, waypoints: seq<Pos>, toPlayer: seq<TileId>, plan: Plan)

  /** `takeTurn`: no berry, or no path to the player, means no move; a player exactly two steps away is
      attacked; otherwise the enemy pursues the berry plan. It moves at most two tiles, along links,
      and ends on its last step. */
  method TakeTurn(e: Enemy, board: GameMap, playerTile: TileId, draw: nat) returns (t: BlueTurn)
    requires Valid(board) && e.currentTile in board.byId && playerTile in board.byId
    ensures |t.steps| <= 2 && Steps(board, e.currentTile, t.steps)
    ensures t.steps == [] ==> t.enemy == e && t.waypoints == []
    ensures t.steps != [] ==> t.enemy.currentTile == t.steps[|t.steps| - 1]
    ensures t.steps != [] ==> t.waypoints != [] && t.waypoints[|t.waypoints| - 1] == board.byId[t.steps[|t.steps| - 1]].pos
    ensures Straight([board.byId[e.currentTile].pos] + t.waypoints)
    ensures t.plan.NoBerry? <==> FirstBerry(board).None?
    ensures t.plan.NoBerry? ==> t.steps == []
    ensures !t.plan.NoBerry? ==> Shortest(AttackQuery(board, e.currentTile, playerTile), t.toPlayer)
    ensures t.plan.NoRouteToPlayer? <==> !t.plan.NoBerry? && t.toPlayer == []
    ensures t.plan.NoRouteToPlayer? ==> t.steps == []
    ensures t.plan.Attack? <==> !t.plan.NoBerry? && |t.toPlayer| == 2
    ensures t.plan.Attack? ==> t.steps == t.toPlayer && t.steps[1] == playerTile
    ensures t.plan.BerryUnreachable? || t.plan.Wander? || t.plan.Intercept? ==>
      FirstBerry(board).Some? && Pursued(board, e.currentTile, playerTile, FirstBerry(board).value, t.steps, t.plan)
  {
    var steps, toPlayer, plan := Decide(board, e.currentTile, playerTile, draw);
    StepsOnBoard(board, e.currentTile, steps);
    var moved := Move(e, board, steps);
    t := BlueTurn(moved.enemy, steps, moved.waypoints, toPlayer, plan);
  }

  /** The move of a turn: `moveAlongTiles(steps)` from the current tile, nothing when there are no steps. */
  function Move(e: Enemy, board: GameMap, steps: seq<TileId>): (r: Moved)
    requires e.currentTile in board.byId
    requires forall i | 0 <= i < |steps| :: steps[i] in board.byId && board.byId[steps[i]].id == steps[i]
    ensures steps == [] ==> r.enemy == e && r.waypoints == []
    ensures steps != [] ==> r.enemy.currentTile == steps[|steps| - 1]
    ensures steps != [] ==> r.waypoints != [] && r.waypoints[|r.waypoints| - 1] == board.byId[steps[|steps| - 1]].pos
    ensures Straight([board.byId[e.currentTile].pos] + r.waypoints)
  {
    MoveAlongTiles(e, board.byId[e.currentTile].pos, TilesOf(board, steps))
  }

  /** The tiles of a walk along links are tiles of the board, each stored under its own id. */
  lemma StepsOnBoard(board: GameMap, cur: TileId, steps: seq<TileId>)
    requires Valid(board) && Steps(board, cur, steps)
    ensures forall i | 0 <= i < |steps| :: steps[i] in board.byId && board.byId[steps[i]].id == steps[i]
  {
    forall i | 0 <= i < |steps| ensures steps[i] in board.byId {
      assert Edge(Adjacency(board), ([cur] + steps)[i], steps[i]);
    }
  }
}
