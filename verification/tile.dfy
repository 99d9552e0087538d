/** A board tile: identity, grid position, neighbour list and walkable flag (src/core/game/Tile.ts). */
module Tiles {
  import opened Base

  type TileId = int

  /** Integer grid coordinate; the world position of a tile is (x * tileSize, 0, z * tileSize). */
  datatype Pos = Pos(x: int, z: int)

  /** `berry` marks a tile holding a collectible (read by the ambush adversary). */
  datatype Tile = Tile(id: TileId, pos: Pos, neighbors: seq<TileId>, walkable: bool, berry: bool)

  /** The constructor: no neighbours yet, walkable by default, no berry. */
  function NewTile(id: TileId, pos: Pos): (t: Tile)
    ensures t.id == id && t.pos == pos
    ensures t.neighbors == [] && NoDup(t.neighbors)
    ensures IsWalkable(t)
    ensures !t.berry
  {
    Tile(id, pos, [], true, false)
  }

  /** Adds `n` to the neighbour list unless it is already there. */
  function AddNeighbor(t: Tile, n: TileId): (r: Tile)
    ensures n in r.neighbors
    ensures n in t.neighbors ==> r == t
    ensures n !in t.neighbors ==> r == t.(neighbors := t.neighbors + [n])
    ensures Elems(r.neighbors) == Elems(t.neighbors) + {n}
    ensures NoDup(t.neighbors) ==> NoDup(r.neighbors)
    ensures r.id == t.id && r.pos == t.pos && r.walkable == t.walkable && r.berry == t.berry
  {
    if n in t.neighbors then t else t.(neighbors := t.neighbors + [n])
  }

  /** Applies `AddNeighbor` for each id of `ns` in order. */
  function AddNeighbors(t: Tile, ns: seq<TileId>): Tile
    decreases |ns|
  {
    if ns == [] then t else AddNeighbors(AddNeighbor(t, ns[0]), ns[1..])
  }

  /** Whatever sequence of `addNeighbor` calls a tile receives, its neighbour
      list stays duplicate-free and holds exactly the old ids plus the added ones. */
  lemma {:induction false} AddNeighborsKeepsNoDup(t: Tile, ns: seq<TileId>)
    requires NoDup(t.neighbors)
    ensures NoDup(AddNeighbors(t, ns).neighbors)
    ensures Elems(AddNeighbors(t, ns).neighbors) == Elems(t.neighbors) + Elems(ns)
    decreases |ns|
  {
    if ns != [] {
      AddNeighborsKeepsNoDup(AddNeighbor(t, ns[0]), ns[1..]);
      assert Elems(ns) == {ns[0]} + Elems(ns[1..]);
    }
  }

  /** `addNeighbor` is idempotent. */
  lemma AddNeighborIdempotent(t: Tile, n: TileId)
    ensures AddNeighbor(AddNeighbor(t, n), n) == AddNeighbor(t, n)
    ensures |AddNeighbor(t, n).neighbors| <= |t.neighbors| + 1
  {
  }

  function SetWalkable(t: Tile, value: bool): (r: Tile)
    ensures IsWalkable(r) == value
    ensures r.id == t.id && r.pos == t.pos && r.neighbors == t.neighbors && r.berry == t.berry
  {
    t.(walkable := value)
  }

  predicate IsWalkable(t: Tile) {
    t.walkable
  }

  /** `isWalkable` reports the last value given to `setWalkable`, whatever came before. */
  lemma {:induction false} LastSetWalkableWins(t: Tile, values: seq<bool>)
    requires |values| > 0
    ensures IsWalkable(SetWalkableAll(t, values)) == values[|values| - 1]
    ensures SetWalkableAll(t, values).neighbors == t.neighbors
    decreases |values|
  {
    if |values| > 1 {
      LastSetWalkableWins(SetWalkable(t, values[0]), values[1..]);
    }
  }

  /** Applies `setWalkable` with each value of `values` in order. */
  function SetWalkableAll(t: Tile, values: seq<bool>): Tile
    decreases |values|
  {
    if values == [] then t else SetWalkableAll(SetWalkable(t, values[0]), values[1..])
  }
}
