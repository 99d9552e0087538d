/** The player token (src/core/game/Player.ts), without its mesh. */
module Players {
  import opened Base
  import opened Tiles
  import opened GameMaps
  import opened Layers

  datatype Player = Player(currentTile: TileId)

  /** The constructor places the player on the start tile. */
  function NewPlayer(start: TileId): (p: Player)
    ensures p.currentTile == start
  {
    Player(start)
  }

  function SetTile(p: Player, t: TileId): (r: Player)
    ensures r.currentTile == t
  {
    p.(currentTile := t)
  }

  /** Every id in a neighbour list names a tile, so `getTileById(nId)!` never yields undefined. */
  predicate ClosedGraph(g: Graph) {
    forall x, n | x in g && n in g[x] :: n in g
  }

  /** `reachableTiles(map, maxSteps)`: every tile discovered within `maxSteps` layers, in discovery
      order. The start is not marked visited, so it can be discovered again. */
  method ReachableTiles(g: Graph, p: Player, maxSteps: nat) returns (r: seq<TileId>)
    requires p.currentTile in g && ClosedGraph(g)
    ensures maxSteps == 0 ==> r == []
    ensures NoDup(r)
    ensures forall t :: t in r <==> t in Found(g, p.currentTile, OpenRule(maxSteps), maxSteps)
    ensures forall t | t in r :: exists k, w ::
      (1 <= k <= maxSteps && LayeredWalk(g, p.currentTile, OpenRule(maxSteps), w) && |w| == k + 1 && w[k] == t)
  {
    var _, found := Explore(g, p.currentTile, OpenRule(maxSteps), maxSteps);
    r := found;
    ElemsEmpty(r);
    forall t | t in r ensures exists k, w ::
      (1 <= k <= maxSteps && LayeredWalk(g, p.currentTile, OpenRule(maxSteps), w) && |w| == k + 1 && w[k] == t)
    {
      FoundHasLayer(g, p.currentTile, OpenRule(maxSteps), maxSteps, t);
      var k :| 1 <= k <= maxSteps && t in Layer(g, p.currentTile, OpenRule(maxSteps), k).layer;
      LayerHasWalk(g, p.currentTile, OpenRule(maxSteps), k, t);
    }
  }

  /** With two or more steps and a neighbour that lists it back, `reachableTiles` returns the
      player's own tile. */
  lemma ReachableIncludesStart(g: Graph, p: Player, maxSteps: nat, n: TileId)
    requires maxSteps >= 2 && p.currentTile in g && p.currentTile !in g[p.currentTile]
    requires Edge(g, p.currentTile, n) && Edge(g, n, p.currentTile)
    ensures p.currentTile in Found(g, p.currentTile, OpenRule(maxSteps), maxSteps)
  {
    StartBackAtTwo(g, p.currentTile, maxSteps, n);
    FoundGrows(g, p.currentTile, OpenRule(maxSteps), 2, maxSteps);
  }
}
