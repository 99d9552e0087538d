/** The tile graph with its two indexes, by id and by grid coordinate (src/core/game/GameMap.ts). */
module GameMaps {
  import opened Base
  import opened Tiles

  /** `tilesById`, `tilesByCoord` (keyed by the coordinate instead of its "x,z" text) and `nextId`. */
  datatype GameMap = GameMap(byId: map<TileId, Tile>, byCoord: map<Pos, TileId>, nextId: int)

  /** Adjacency view handed to the pathfinder: tile id to its neighbour ids. */
  type Graph = map<TileId, seq<TileId>>

  /** A fresh map: both indexes empty, the first id to hand out is 1. */
  function EmptyMap(): (m: GameMap)
    ensures Valid(m) && m.byId == map[] && m.nextId == 1
  {
    GameMap(map[], map[], 1)
  }

  /** The two indexes agree, ids lie in [1, nextId), neighbour lists are
      duplicate-free, name existing tiles, and adjacency is symmetric. */
  predicate Valid(m: GameMap) {
    && m.nextId >= 1
    && (forall id | id in m.byId ::
          && 1 <= id < m.nextId
          && m.byId[id].id == id
          && m.byId[id].pos in m.byCoord
          && m.byCoord[m.byId[id].pos] == id
          && NoDup(m.byId[id].neighbors))
    && (forall p | p in m.byCoord :: m.byCoord[p] in m.byId && m.byId[m.byCoord[p]].pos == p)
    && Symmetric(m)
  }

  /** If a lists b then b is a tile of the map and b lists a. */
  predicate Symmetric(m: GameMap) {
    forall a, b | a in m.byId && b in m.byId[a].neighbors :: b in m.byId && a in m.byId[b].neighbors
  }

  /** `a` and `b` are both tiles and `a` lists `b` as a neighbour. */
  predicate Linked(m: GameMap, a: TileId, b: TileId) {
    a in m.byId && b in m.byId[a].neighbors
  }

  function Adjacency(m: GameMap): (g: Graph)
    ensures g.Keys == m.byId.Keys
    ensures forall id | id in g :: g[id] == m.byId[id].neighbors
  {
    map id | id in m.byId :: m.byId[id].neighbors
  }

  /** Result of `addTileAt`: the updated map and the new tile's id, or None for an occupied coordinate. */
  datatype Added = Added(board: GameMap, tile: Option<TileId>)

  function AddTileAt(m: GameMap, x: int, z: int): (r: Added)
    requires Valid(m)
    ensures Valid(r.board)
    ensures Pos(x, z) in m.byCoord ==> r.board == m && r.tile == None
    ensures Pos(x, z) !in m.byCoord ==>
      && r.tile == Some(m.nextId)
      && m.nextId !in m.byId
      && r.board.nextId == m.nextId + 1
      && GetTileById(r.board, m.nextId) == Some(NewTile(m.nextId, Pos(x, z)))
      && GetTileAt(r.board, x, z) == Some(NewTile(m.nextId, Pos(x, z)))
      && r.board.byId.Keys == m.byId.Keys + {m.nextId}
      && r.board.byCoord.Keys == m.byCoord.Keys + {Pos(x, z)}
    ensures forall id | id in m.byId :: id in r.board.byId && r.board.byId[id] == m.byId[id]
    ensures forall p | p in m.byCoord :: p in r.board.byCoord && r.board.byCoord[p] == m.byCoord[p]
  {
    var p := Pos(x, z);
    if p in m.byCoord then Added(m, None)
    else
      var id := m.nextId;
      var m' := GameMap(m.byId[id := NewTile(id, p)], m.byCoord[p := id], id + 1);
      assert Symmetric(m') by {
        forall a, b | a in m'.byId && b in m'.byId[a].neighbors
          ensures b in m'.byId && a in m'.byId[b].neighbors
        {
          assert a != id;
        }
      }
      Added(m', Some(id))
  }

  /** `getTileAt`: absent rather than failing for an unknown coordinate. The coordinate index holds
      ids here, so an id without a tile also gives nothing; in a valid map that cannot happen. */
  function GetTileAt(m: GameMap, x: int, z: int): (r: Option<Tile>)
    ensures r.Some? ==> Pos(x, z) in m.byCoord
    ensures Valid(m) ==> (r.Some? <==> Pos(x, z) in m.byCoord)
    ensures Valid(m) && r.Some? ==> r.value.pos == Pos(x, z) && r.value.id in m.byId && m.byId[r.value.id] == r.value
  {
    var p := Pos(x, z);
    if p in m.byCoord && m.byCoord[p] in m.byId then
      var id := m.byCoord[p];
      assert Valid(m) ==> m.byId[id].id == id && m.byId[id].pos == p;
      Some(m.byId[id])
    else None
  }

  /** `getTileById`: absent rather than failing for an unknown id. */
  function GetTileById(m: GameMap, id: TileId): (r: Option<Tile>)
    ensures r.Some? <==> id in m.byId
    ensures Valid(m) && r.Some? ==> r.value.id == id
  {
    if id in m.byId then Some(m.byId[id]) else None
  }

  /** The two indexes find the same tiles: every tile found by id is found
      at its coordinate, and every tile found at a coordinate is found by its id. */
  lemma IndexesAgree(m: GameMap, id: TileId, x: int, z: int)
    requires Valid(m)
    ensures GetTileById(m, id).Some? ==>
      var t := GetTileById(m, id).value; GetTileAt(m, t.pos.x, t.pos.z) == Some(t)
    ensures GetTileAt(m, x, z).Some? ==>
      var t := GetTileAt(m, x, z).value; GetTileById(m, t.id) == Some(t)
  {
  }

  /** One direction of a connection: `b` is added to the neighbour list of `a`. */
  function LinkOneWay(ids: map<TileId, Tile>, a: TileId, b: TileId): (r: map<TileId, Tile>)
    requires a in ids
    ensures r.Keys == ids.Keys
    ensures forall id | id in ids ::
      && r[id].id == ids[id].id && r[id].pos == ids[id].pos
      && r[id].walkable == ids[id].walkable && r[id].berry == ids[id].berry
      && (NoDup(ids[id].neighbors) ==> NoDup(r[id].neighbors))
    ensures forall id, n | id in ids :: n in r[id].neighbors <==> n in ids[id].neighbors || (id == a && n == b)
  {
    ids[a := AddNeighbor(ids[a], b)]
  }

  /** Links the tiles at two coordinates in both directions; a no-op when either is missing. */
  function AddConnectionByCoords(m: GameMap, p1: Pos, p2: Pos): (r: GameMap)
    requires Valid(m)
    ensures Valid(r)
    ensures r.byId.Keys == m.byId.Keys && r.byCoord == m.byCoord && r.nextId == m.nextId
    ensures p1 !in m.byCoord || p2 !in m.byCoord ==> r == m
    ensures p1 in m.byCoord && p2 in m.byCoord ==>
      Linked(r, m.byCoord[p1], m.byCoord[p2]) && Linked(r, m.byCoord[p2], m.byCoord[p1])
    ensures forall id | id in m.byId ::
      && r.byId[id].pos == m.byId[id].pos
      && r.byId[id].walkable == m.byId[id].walkable
      && r.byId[id].berry == m.byId[id].berry
    ensures forall a, b | Linked(m, a, b) :: Linked(r, a, b)
    ensures forall a, b | Linked(r, a, b) ::
      Linked(m, a, b) || (p1 in m.byCoord && p2 in m.byCoord &&
        ((a == m.byCoord[p1] && b == m.byCoord[p2]) || (a == m.byCoord[p2] && b == m.byCoord[p1])))
  {
    if p1 in m.byCoord && p2 in m.byCoord then
      var a := m.byCoord[p1];
      var b := m.byCoord[p2];
      var r := GameMap(LinkOneWay(LinkOneWay(m.byId, a, b), b, a), m.byCoord, m.nextId);
      assert Symmetric(r) by {
        forall x, y | x in r.byId && y in r.byId[x].neighbors
          ensures y in r.byId && x in r.byId[y].neighbors
        {
          if !(x == a && y == b) && !(x == b && y == a) {
            assert y in m.byId[x].neighbors;
          }
        }
      }
      r
    else m
  }
}
