/** The shared enemy behaviour (src/core/game/Enemy.ts): the authoritative tile and the expansion of a
    tile path into axis-aligned waypoints. Positions are grid coordinates (a tile size of 1); the
    half-unit lift above the board is the same for every waypoint and is left out. */
module Enemies {
  import opened Base
  import opened Tiles
  import opened GameMaps

  datatype Enemy = Enemy(currentTile: TileId)

  /** The constructor puts the enemy on its start tile. */
  function NewEnemy(startTile: TileId): (e: Enemy)
    ensures e.currentTile == startTile
  {
    Enemy(startTile)
  }

  /** Two positions lie on one grid line. */
  predicate Aligned(p: Pos, q: Pos) {
    p.x == q.x || p.z == q.z
  }

  /** Every consecutive pair of positions lies on one grid line, so the motion never cuts a diagonal. */
  predicate Straight(ps: seq<Pos>) {
    forall i | 1 <= i < |ps| :: Aligned(ps[i - 1], ps[i])
  }

  /** Where a walk through `targets` from `last` ends. */
  function Final(last: Pos, targets: seq<Pos>): Pos {
    if targets == [] then last else targets[|targets| - 1]
  }

  /** The waypoints for one target: the target itself when it shares a line with `last`, otherwise
      the corner with the target's x and the previous z, then the target. */
  function Leg(last: Pos, t: Pos): (ws: seq<Pos>)
    ensures 1 <= |ws| <= 2 && ws[|ws| - 1] == t
    ensures Straight([last] + ws)
    ensures |ws| == 2 <==> !Aligned(last, t)
    ensures |ws| == 2 ==> ws[0].x == t.x && ws[0].z == last.z
  {
    if t.x != last.x && t.z != last.z then [Pos(t.x, last.z), t] else [t]
  }

  /** The waypoint expansion of `moveAlongTiles`: one leg per target, each leg starting where the
      previous target was. */
  function Waypoints(last: Pos, targets: seq<Pos>): (ws: seq<Pos>)
    ensures |targets| <= |ws| <= 2 * |targets|
    ensures Final(last, ws) == Final(last, targets)
    ensures Straight([last] + ws)
    decreases |targets|
  {
    if targets == [] then []
    else
      var rest := Waypoints(targets[0], targets[1..]);
      var ws := Leg(last, targets[0]) + rest;
      assert Straight([last] + ws) by {
        var l := Leg(last, targets[0]);
        assert ([last] + ws)[|l|] == targets[0];
        forall i | 1 <= i < |[last] + ws| ensures Aligned(([last] + ws)[i - 1], ([last] + ws)[i]) {
          if i <= |l| {
            assert ([last] + ws)[i - 1] == ([last] + l)[i - 1];
            assert ([last] + ws)[i] == ([last] + l)[i];
          } else {
            assert ([last] + ws)[i - 1] == ([targets[0]] + rest)[i - |l| - 1];
            assert ([last] + ws)[i] == ([targets[0]] + rest)[i - |l|];
          }
        }
      }
      ws
  }

  /** The expansion of a concatenation is the expansion of each part, the second starting where the
      first ends. */
  lemma {:induction false} WaypointsAppend(last: Pos, a: seq<Pos>, b: seq<Pos>)
    ensures Waypoints(last, a + b) == Waypoints(last, a) + Waypoints(Final(last, a), b)
    decreases |a|
  {
    if a == [] {
      assert a + b == b;
    } else {
      assert (a + b)[0] == a[0];
      assert (a + b)[1..] == a[1..] + b;
      WaypointsAppend(a[0], a[1..], b);
      assert Final(a[0], a[1..]) == Final(last, a);
      calc {
        Waypoints(last, a + b);
        Leg(last, a[0]) + Waypoints(a[0], a[1..] + b);
        Leg(last, a[0]) + (Waypoints(a[0], a[1..]) + Waypoints(Final(last, a), b));
        (Leg(last, a[0]) + Waypoints(a[0], a[1..])) + Waypoints(Final(last, a), b);
      }
    }
  }

  /** When every step already runs along a grid line, the waypoints are exactly the targets. */
  lemma {:induction false} StraightPathUnchanged(last: Pos, targets: seq<Pos>)
    requires Straight([last] + targets)
    ensures Waypoints(last, targets) == targets
    decreases |targets|
  {
    if targets != [] {
      assert Aligned(([last] + targets)[0], ([last] + targets)[1]);
      assert Straight([targets[0]] + targets[1..]) by {
        forall i | 1 <= i < |[targets[0]] + targets[1..]|
          ensures Aligned(([targets[0]] + targets[1..])[i - 1], ([targets[0]] + targets[1..])[i])
        {
          assert ([targets[0]] + targets[1..])[i - 1] == ([last] + targets)[i];
          assert ([targets[0]] + targets[1..])[i] == ([last] + targets)[i + 1];
        }
      }
      StraightPathUnchanged(targets[0], targets[1..]);
    }
  }

  /** The outcome of `moveAlongTiles`: the enemy after the move and the waypoints it travels. */
  datatype Moved = Moved(enemy: Enemy, waypoints: seq<Pos>)

  /** `moveAlongTiles(tiles)` from the rendered position `from`: the waypoints run along grid lines and
      end on the last tile; once the motion completes the last tile becomes the current tile. */
  function MoveAlongTiles(e: Enemy, from: Pos, tiles: seq<Tile>): (r: Moved)
    ensures tiles == [] ==> r.enemy == e && r.waypoints == []
    ensures tiles != [] ==> r.enemy.currentTile == tiles[|tiles| - 1].id
    ensures tiles != [] ==> r.waypoints != [] && r.waypoints[|r.waypoints| - 1] == tiles[|tiles| - 1].pos
    ensures |tiles| <= |r.waypoints| <= 2 * |tiles|
    ensures Straight([from] + r.waypoints)
  {
    var ws := Waypoints(from, seq(|tiles|, i requires 0 <= i < |tiles| => tiles[i].pos));
    if tiles == [] then Moved(e, ws) else Moved(Enemy(tiles[|tiles| - 1].id), ws)
  }

  /** The tiles of a board named by `ids`. */
  function TilesOf(m: GameMap, ids: seq<TileId>): (ts: seq<Tile>)
    requires forall i | 0 <= i < |ids| :: ids[i] in m.byId
    ensures |ts| == |ids| && forall i | 0 <= i < |ids| :: ts[i] == m.byId[ids[i]]
  {
    seq(|ids|, i requires 0 <= i < |ids| => m.byId[ids[i]])
  }
}
