/** Layer-by-layer breadth-first exploration with one global visited set. This is the loop shared by
    `findReachableTiles` (src/core/game/Pathfinder.ts:46-78), the private `findReachableTiles` of the
    turn coordinator (src/core/game/GameMaster.ts:54-80) and `Player.reachableTiles`
    (src/core/game/Player.ts:31-49). Their FIFO queue holds the rest of layer k followed by the part
    of layer k+1 found so far, so handling the queue item by item visits the tiles in exactly the
    order of the nested loops below. */
module Layers {
  import opened Base
  import opened Tiles
  import opened GameMaps

  /** The blocking rule of a search and whether the start tile is marked visited before it begins. */
  datatype Rule = Rule(blocked: set<TileId>, allowEnd: bool, maxSteps: nat, markStart: bool)

  /** A search may make its k-th step onto `n` unless `n` is blocked; a blocked tile is allowed only
      as the `maxSteps`-th step when `allowEnd` holds. */
  predicate MayEnter(rule: Rule, n: TileId, k: int) {
    n !in rule.blocked || (rule.allowEnd && k == rule.maxSteps)
  }

  /** `x` lists `n` and `n` names a tile (`getTileById` finds it). */
  predicate Edge(g: Graph, x: TileId, n: TileId) {
    x in g && n in g[x] && n in g
  }

  /** The tiles first entered at step k from the tiles of `s`, given the tiles `seen` so far. */
  function Expand(g: Graph, s: set<TileId>, seen: set<TileId>, rule: Rule, k: int): set<TileId> {
    set x, n | x in s && x in g && n in g[x] && n in g && n !in seen && MayEnter(rule, n, k) :: n
  }

  /** The tiles of `ns` a search at step k would enter. */
  function Admit(g: Graph, ns: seq<TileId>, seen: set<TileId>, rule: Rule, k: int): set<TileId> {
    set n | n in ns && n in g && n !in seen && MayEnter(rule, n, k)
  }

  /** Layer k of the search and every tile marked visited by the end of it. */
  datatype Front = Front(layer: set<TileId>, seen: set<TileId>)

  /** The reference definition: layer 0 is the start; layer k+1 is every tile entered from layer k that
      was not seen before. */
  function Layer(g: Graph, start: TileId, rule: Rule, k: nat): Front
    decreases k
  {
    if k == 0 then Front({start}, if rule.markStart then {start} else {})
    else
      var f := Layer(g, start, rule, k - 1);
      var next := Expand(g, f.layer, f.seen, rule, k);
      Front(next, f.seen + next)
  }

  /** Every tile of layers 1 .. k. */
  function Found(g: Graph, start: TileId, rule: Rule, k: nat): set<TileId>
    decreases k
  {
    if k == 0 then {} else Found(g, start, rule, k - 1) + Layer(g, start, rule, k).layer
  }

  lemma {:induction false} FoundIsSeen(g: Graph, start: TileId, rule: Rule, k: nat)
    ensures Found(g, start, rule, k) <= Layer(g, start, rule, k).seen
    ensures Layer(g, start, rule, k).seen <= Found(g, start, rule, k) + {start}
    ensures k > 0 ==> Layer(g, start, rule, k).layer <= g.Keys
  {
    if k > 0 {
      FoundIsSeen(g, start, rule, k - 1);
    }
  }

  /** A later layer never holds a tile of an earlier one; with the start marked, not even the start. */
  lemma {:induction false} LayersDisjoint(g: Graph, start: TileId, rule: Rule, j: nat, k: nat)
    requires j < k
    requires rule.markStart || j > 0
    ensures Layer(g, start, rule, j).layer !! Layer(g, start, rule, k).layer
    decreases k
  {
    SeenGrows(g, start, rule, j, k - 1);
  }

  lemma {:induction false} SeenGrows(g: Graph, start: TileId, rule: Rule, j: nat, k: nat)
    requires j <= k
    ensures Layer(g, start, rule, j).seen <= Layer(g, start, rule, k).seen
    ensures rule.markStart || j > 0 ==> Layer(g, start, rule, j).layer <= Layer(g, start, rule, k).seen
    decreases k
  {
    if j < k {
      SeenGrows(g, start, rule, j, k - 1);
    }
  }

  lemma ExpandAdd(g: Graph, s: set<TileId>, x: TileId, seen: set<TileId>, rule: Rule, k: int)
    requires x in g
    ensures Expand(g, s + {x}, seen, rule, k) == Expand(g, s, seen, rule, k) + Admit(g, g[x], seen, rule, k)
  {
  }

  lemma AdmitAppend(g: Graph, ns: seq<TileId>, y: TileId, seen: set<TileId>, rule: Rule, k: int)
    ensures Admit(g, ns + [y], seen, rule, k) ==
      Admit(g, ns, seen, rule, k) + (if y in g && y !in seen && MayEnter(rule, y, k) then {y} else {})
  {
  }

  /** Concatenating duplicate-free sequences with disjoint elements gives a duplicate-free sequence. */
  lemma NoDupConcat<T>(a: seq<T>, b: seq<T>)
    requires NoDup(a) && NoDup(b) && Elems(a) !! Elems(b)
    ensures NoDup(a + b)
  {
    var c := a + b;
    forall i, j | 0 <= i < j < |c| ensures c[i] != c[j] {
      if i < |a| && j >= |a| {
        assert c[i] in Elems(a) && c[j] in Elems(b);
      }
    }
  }

  /** The neighbours of one tile handled in order: appends to `next` those enterable at step k and not yet visited. */
  method AdmitNeighbours(g: Graph, ns: seq<TileId>, seen: set<TileId>, rule: Rule, k: int, next0: seq<TileId>)
    returns (next: seq<TileId>)
    requires NoDup(next0) && Elems(next0) !! seen
    ensures NoDup(next) && Elems(next) !! seen
    ensures Elems(next) == Elems(next0) + Admit(g, ns, seen, rule, k)
  {
    next := next0;
    var j := 0;
    while j < |ns|
      invariant j <= |ns|
      invariant NoDup(next) && Elems(next) !! seen
      invariant Elems(next) == Elems(next0) + Admit(g, ns[..j], seen, rule, k)
    {
      var n := ns[j];
      AdmitAppend(g, ns[..j], n, seen, rule, k);
      assert ns[..j + 1] == ns[..j] + [n];
      if n in g && n !in seen && n !in next && MayEnter(rule, n, k) {
        NoDupAppend(next, n);
        assert Elems(next + [n]) == Elems(next) + {n};
        next := next + [n];
      } else if n in g && n !in seen && MayEnter(rule, n, k) {
        assert n in Elems(next);
      }
      j := j + 1;
    }
    assert ns[..j] == ns;
  }

  /** One layer of the search: every tile of `layer` in order, each neighbour list in order. */
  method NextLayer(g: Graph, layer: seq<TileId>, seen: set<TileId>, rule: Rule, k: int) returns (next: seq<TileId>)
    requires Elems(layer) <= g.Keys
    ensures NoDup(next) && Elems(next) !! seen
    ensures Elems(next) == Expand(g, Elems(layer), seen, rule, k)
  {
    next := [];
    var i := 0;
    while i < |layer|
      invariant i <= |layer|
      invariant NoDup(next) && Elems(next) !! seen
      invariant Elems(next) == Expand(g, Elems(layer[..i]), seen, rule, k)
    {
      var x := layer[i];
      assert x in Elems(layer);
      next := AdmitNeighbours(g, g[x], seen, rule, k, next);
      assert layer[..i + 1] == layer[..i] + [x];
      assert Elems(layer[..i + 1]) == Elems(layer[..i]) + {x};
      ExpandAdd(g, Elems(layer[..i]), x, seen, rule, k);
      i := i + 1;
    }
    assert layer[..i] == layer;
  }

  /** Runs the search to depth `depth`, returning layer `depth` in discovery order and every tile
      discovered (layers 1 .. depth) in discovery order. The visited set is `seen` plus the part of
      the next layer found so far, so testing it is testing membership in either. */
  method Explore(g: Graph, start: TileId, rule: Rule, depth: nat) returns (layer: seq<TileId>, found: seq<TileId>)
    requires start in g
    ensures NoDup(layer) && Elems(layer) == Layer(g, start, rule, depth).layer
    ensures NoDup(found) && Elems(found) == Found(g, start, rule, depth)
  {
    layer, found := [start], [];
    var visited: set<TileId> := if rule.markStart then {start} else {};
    var steps: nat := 0;
    while steps < depth
      invariant steps <= depth
      invariant visited == Layer(g, start, rule, steps).seen
      invariant NoDup(layer) && Elems(layer) == Layer(g, start, rule, steps).layer
      invariant Elems(layer) <= g.Keys
      invariant NoDup(found) && Elems(found) == Found(g, start, rule, steps)
    {
      var next := NextLayer(g, layer, visited, rule, steps + 1);
      visited := visited + Elems(next);
      FoundIsSeen(g, start, rule, steps);
      NoDupConcat(found, next);
      found := found + next;
      layer := next;
      steps := steps + 1;
      FoundIsSeen(g, start, rule, steps);
    }
  }

  /** A walk whose i-th tile is linked to the previous one, may be entered at step i, and lies in layer i. */
  ghost predicate LayeredWalk(g: Graph, start: TileId, rule: Rule, w: seq<TileId>) {
    && |w| >= 1 && w[0] == start
    && forall i | 1 <= i < |w| ::
         Edge(g, w[i - 1], w[i]) && MayEnter(rule, w[i], i) && w[i] in Layer(g, start, rule, i).layer
  }

  /** Every tile of layer k ends a layered walk of exactly k steps from the start. */
  lemma {:induction false} LayerHasWalk(g: Graph, start: TileId, rule: Rule, k: nat, t: TileId)
    requires t in Layer(g, start, rule, k).layer
    ensures exists w :: LayeredWalk(g, start, rule, w) && |w| == k + 1 && w[k] == t
    decreases k
  {
    if k == 0 {
      assert LayeredWalk(g, start, rule, [start]);
    } else {
      var f := Layer(g, start, rule, k - 1);
      var x :| x in f.layer && Edge(g, x, t) && t !in f.seen && MayEnter(rule, t, k);
      LayerHasWalk(g, start, rule, k - 1, x);
      var w' :| LayeredWalk(g, start, rule, w') && |w'| == k && w'[k - 1] == x;
      var w := w' + [t];
      forall i | 1 <= i < |w|
        ensures Edge(g, w[i - 1], w[i]) && MayEnter(rule, w[i], i) && w[i] in Layer(g, start, rule, i).layer
      {
        if i < k {
          assert w[i - 1] == w'[i - 1] && w[i] == w'[i];
        }
      }
      assert LayeredWalk(g, start, rule, w);
    }
  }

  /** With the start marked visited, a layered walk never repeats a tile. */
  lemma LayeredWalkSimple(g: Graph, start: TileId, rule: Rule, w: seq<TileId>)
    requires rule.markStart && LayeredWalk(g, start, rule, w)
    ensures NoDup(w)
  {
    forall i, j | 0 <= i < j < |w| ensures w[i] != w[j] {
      LayersDisjoint(g, start, rule, i, j);
      assert w[i] in Layer(g, start, rule, i).layer;
    }
  }

  /** The rule of the searches that block nothing and leave the start unmarked: the turn
      coordinator's private `findReachableTiles` and `Player.reachableTiles`. */
  function OpenRule(maxSteps: nat): (rule: Rule)
    ensures forall n, k :: MayEnter(rule, n, k)
    ensures !rule.markStart
  {
    Rule({}, false, maxSteps, false)
  }

  /** A tile found by depth k lies in one of the layers 1 .. k. */
  lemma {:induction false} FoundHasLayer(g: Graph, start: TileId, rule: Rule, k: nat, t: TileId)
    requires t in Found(g, start, rule, k)
    ensures exists j :: 1 <= j <= k && t in Layer(g, start, rule, j).layer
    decreases k
  {
    if t !in Layer(g, start, rule, k).layer {
      FoundHasLayer(g, start, rule, k - 1, t);
    }
  }

  /** With the start marked, every visited tile lies in one of the layers 0 .. k. */
  lemma SeenHasLayer(g: Graph, start: TileId, rule: Rule, k: nat, x: TileId)
    requires rule.markStart && x in Layer(g, start, rule, k).seen
    ensures exists i :: 0 <= i <= k && x in Layer(g, start, rule, i).layer
  {
    FoundIsSeen(g, start, rule, k);
    if x == start {
      assert x in Layer(g, start, rule, 0).layer;
    } else {
      FoundHasLayer(g, start, rule, k, x);
    }
  }

  lemma {:induction false} FoundGrows(g: Graph, start: TileId, rule: Rule, j: nat, k: nat)
    requires j <= k
    ensures Found(g, start, rule, j) <= Found(g, start, rule, k)
    decreases k
  {
    if j < k {
      FoundGrows(g, start, rule, j, k - 1);
    }
  }

  /** Without the start marked, a search that blocks nothing comes back to the start at layer 2
      as soon as the start has a neighbour that lists it back (and the start does not list itself). */
  lemma StartBackAtTwo(g: Graph, start: TileId, maxSteps: nat, n: TileId)
    requires start in g && start !in g[start]
    requires Edge(g, start, n) && Edge(g, n, start)
    ensures start in Layer(g, start, OpenRule(maxSteps), 2).layer
  {
    var rule := OpenRule(maxSteps);
    var f1 := Layer(g, start, rule, 1);
    assert n in f1.layer;
    assert start !in f1.seen;
  }
}
