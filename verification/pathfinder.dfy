/** Breadth-first path search over the tile graph (src/core/game/Pathfinder.ts). */
module Pathfinder {
  import opened Base
  import opened Tiles
  import opened GameMaps
  import opened Layers

  /** The arguments of one `findPath` call: graph, start, end and the blocking options. */
  datatype Query = Query(g: Graph, start: TileId, end: TileId, blocked: set<TileId>, allowEnd: bool)

  /** `findPath` may step onto `n` unless it is blocked; a blocked end tile is allowed when `allowEnd` holds. */
  predicate Enterable(q: Query, n: TileId) {
    n !in q.blocked || (q.allowEnd && n == q.end)
  }

  /** A walk obeying the blocking rule: consecutive tiles are linked and every tile after the first may be entered. */
  ghost predicate Walk(q: Query, w: seq<TileId>) {
    && |w| >= 1
    && forall i | 1 <= i < |w| :: Edge(q.g, w[i - 1], w[i]) && Enterable(q, w[i])
  }

  /** A walk from the start of the query to `v`. */
  ghost predicate WalkTo(q: Query, w: seq<TileId>, v: TileId) {
    Walk(q, w) && w[0] == q.start && w[|w| - 1] == v
  }

  lemma WalkPrefix(q: Query, w: seq<TileId>, k: nat)
    requires Walk(q, w) && 1 <= k <= |w|
    ensures Walk(q, w[..k])
  {
  }

  lemma WalkPrepend(q: Query, x: TileId, s: seq<TileId>)
    requires Walk(q, s) && Edge(q.g, x, s[0]) && Enterable(q, s[0])
    ensures Walk(q, [x] + s)
  {
    var w := [x] + s;
    forall i | 1 <= i < |w| ensures Edge(q.g, w[i - 1], w[i]) && Enterable(q, w[i]) {
      if i > 1 {
        assert w[i - 1] == s[i - 2] && w[i] == s[i - 1];
      }
    }
  }

  /** Every tile in `d` other than the start was reached from its `came` entry, one BFS layer closer. */
  ghost predicate Tree(q: Query, came: map<TileId, TileId>, d: map<TileId, nat>) {
    && came.Keys == d.Keys && d.Keys <= q.g.Keys
    && q.start in d && d[q.start] == 0
    && forall v | v in d && v != q.start ::
         came[v] in d && d[v] == d[came[v]] + 1 && Edge(q.g, came[v], v) && Enterable(q, v)
  }

  /** Every discovered tile outside `pending` has all its enterable neighbours discovered. */
  ghost predicate Closed(q: Query, d: map<TileId, nat>, pending: set<TileId>) {
    forall v, n | v in d && v !in pending && Edge(q.g, v, n) && Enterable(q, n) :: n in d
  }

  /** No walk from the start reaches a discovered tile in fewer steps than its layer. */
  ghost predicate NoShortcut(q: Query, d: map<TileId, nat>) {
    forall w | Walk(q, w) && w[0] == q.start && w[|w| - 1] in d :: |w| - 1 >= d[w[|w| - 1]]
  }

  /** The FIFO queue holds discovered tiles in non-decreasing layer order, spanning at most two layers. */
  ghost predicate Ordered(queue: seq<TileId>, d: map<TileId, nat>) {
    && NoDup(queue)
    && (forall i | 0 <= i < |queue| :: queue[i] in d)
    && (forall i, j | 0 <= i <= j < |queue| :: d[queue[i]] <= d[queue[j]])
    && (forall i | 0 <= i < |queue| :: d[queue[i]] <= d[queue[0]] + 1)
  }

  /** A walk from the start that ends outside the discovered tiles leaves them through a pending tile,
      at an index no smaller than that tile's layer. */
  lemma FirstExit(q: Query, d: map<TileId, nat>, pending: set<TileId>, w: seq<TileId>) returns (j: nat)
    requires Walk(q, w) && w[0] == q.start && q.start in d && w[|w| - 1] !in d
    requires Closed(q, d, pending) && NoShortcut(q, d)
    ensures j < |w| - 1 && w[j] in pending && w[j] in d && j >= d[w[j]]
  {
    j := 0;
    while w[j + 1] in d
      invariant j < |w| - 1 && w[j] in d
      decreases |w| - j
    {
      j := j + 1;
    }
    assert Edge(q.g, w[j], w[j + 1]) && Enterable(q, w[j + 1]);
    WalkPrefix(q, w, j + 1);
    assert w[..j + 1][j] == w[j];
  }

  /** Expands the tile `c`: each neighbour that exists, is undiscovered and may be entered is recorded
      with `c` as its predecessor, one layer beyond `c`, and returned in neighbour order. */
  method Relax(q: Query, c: TileId, came0: map<TileId, TileId>, ghost d0: map<TileId, nat>)
    returns (added: seq<TileId>, came: map<TileId, TileId>, ghost d: map<TileId, nat>)
    requires c in q.g && c in d0 && came0.Keys == d0.Keys && d0.Keys <= q.g.Keys
    ensures came.Keys == d.Keys && d0.Keys <= d.Keys && d.Keys <= q.g.Keys
    ensures forall v | v in d0 :: d[v] == d0[v] && came[v] == came0[v]
    ensures forall v | v in d && v !in d0 :: d[v] == d0[c] + 1 && came[v] == c && Edge(q.g, c, v) && Enterable(q, v)
    ensures forall n | Edge(q.g, c, n) && Enterable(q, n) :: n in d
    ensures NoDup(added) && Elems(added) == d.Keys - d0.Keys
  {
    added, came, d := [], came0, d0;
    var ns := q.g[c];
    var j := 0;
    while j < |ns|
      invariant j <= |ns|
      invariant came.Keys == d.Keys && d0.Keys <= d.Keys && d.Keys <= q.g.Keys
      invariant forall v | v in d0 :: d[v] == d0[v] && came[v] == came0[v]
      invariant forall v | v in d && v !in d0 :: d[v] == d0[c] + 1 && came[v] == c && Edge(q.g, c, v) && Enterable(q, v)
      invariant forall n | n in ns[..j] && n in q.g && Enterable(q, n) :: n in d
      invariant NoDup(added) && Elems(added) == d.Keys - d0.Keys
    {
      var n := ns[j];
      assert ns[..j + 1] == ns[..j] + [n];
      if n in q.g && n !in came && Enterable(q, n) {
        assert n !in Elems(added);
        NoDupAppend(added, n);
        came := came[n := c];
        d := d[n := d0[c] + 1];
        assert Elems(added + [n]) == Elems(added) + {n};
        added := added + [n];
      }
      j := j + 1;
    }
    assert ns[..j] == ns;
  }

  /** After `c` is expanded, no walk reaches a newly discovered tile in fewer steps than its layer. */
  lemma ExpandKeepsNoShortcut(q: Query, d0: map<TileId, nat>, d: map<TileId, nat>, queue: seq<TileId>, c: TileId)
    requires q.start in d0 && c in d0 && NoShortcut(q, d0) && Closed(q, d0, Elems(queue) + {c})
    requires forall i | 0 <= i < |queue| :: queue[i] in d0 && d0[c] <= d0[queue[i]]
    requires d0.Keys <= d.Keys && forall v | v in d0 :: d[v] == d0[v]
    requires forall v | v in d && v !in d0 :: d[v] == d0[c] + 1
    ensures NoShortcut(q, d)
  {
    forall w | Walk(q, w) && w[0] == q.start && w[|w| - 1] in d
      ensures |w| - 1 >= d[w[|w| - 1]]
    {
      if w[|w| - 1] !in d0 {
        var j := FirstExit(q, d0, Elems(queue) + {c}, w);
        if w[j] != c {
          var k :| 0 <= k < |queue| && queue[k] == w[j];
        }
      }
    }
  }

  /** After `c` is expanded and its new neighbours queued, everything off the queue is closed again. */
  lemma ExpandKeepsClosed(q: Query, d0: map<TileId, nat>, d: map<TileId, nat>, queue: seq<TileId>, c: TileId, added: seq<TileId>)
    requires Closed(q, d0, Elems(queue) + {c}) && d0.Keys <= d.Keys
    requires Elems(added) == d.Keys - d0.Keys
    requires forall n | Edge(q.g, c, n) && Enterable(q, n) :: n in d
    ensures Closed(q, d, Elems(queue + added))
  {
    assert Elems(queue + added) == Elems(queue) + Elems(added);
  }

  lemma ExpandKeepsOrdered(queue0: seq<TileId>, d0: map<TileId, nat>, d: map<TileId, nat>, added: seq<TileId>)
    requires Ordered(queue0, d0) && |queue0| > 0
    requires d0.Keys <= d.Keys && forall v | v in d0 :: d[v] == d0[v]
    requires NoDup(added) && Elems(added) == d.Keys - d0.Keys
    requires forall v | v in d && v !in d0 :: d[v] == d0[queue0[0]] + 1
    ensures Ordered(queue0[1..] + added, d)
  {
    var queue := queue0[1..] + added;
    assert forall i | 0 <= i < |added| :: added[i] in Elems(added);
    forall i, j | 0 <= i < j < |queue| ensures queue[i] != queue[j] {
      if i < |queue0| - 1 && j >= |queue0| - 1 {
        assert queue[j] in Elems(added);
        assert queue[i] == queue0[i + 1];
      }
    }
  }

  /** The tiles of `path` lie on consecutive layers just beyond the layer of `cur`. */
  ghost predicate Climbs(d: map<TileId, nat>, cur: TileId, path: seq<TileId>) {
    cur in d && forall i | 0 <= i < |path| :: path[i] in d && d[path[i]] == d[cur] + 1 + i
  }

  /** One step back along the `came` links keeps the reconstructed suffix a walk on consecutive layers. */
  lemma StepBack(q: Query, came: map<TileId, TileId>, d: map<TileId, nat>, cur: TileId, path: seq<TileId>)
    requires Tree(q, came, d) && cur != q.start && Climbs(d, cur, path)
    requires Walk(q, [cur] + path)
    ensures came[cur] in d && d[came[cur]] + 1 == d[cur]
    ensures Climbs(d, came[cur], [cur] + path)
    ensures Walk(q, [came[cur]] + ([cur] + path))
  {
    WalkPrepend(q, came[cur], [cur] + path);
  }

  /** Walks the `came` links back from the end and returns the tiles after the start, start-side first. */
  method Reconstruct(q: Query, came: map<TileId, TileId>, ghost d: map<TileId, nat>) returns (path: seq<TileId>)
    requires Tree(q, came, d) && q.end in d
    ensures |path| == d[q.end]
    ensures path != [] ==> WalkTo(q, [q.start] + path, q.end)
    ensures forall i | 0 <= i < |path| :: Enterable(q, path[i])
    ensures NoDup(path) && q.start !in path
  {
    path := [];
    var cur := q.end;
    while cur != q.start
      invariant Climbs(d, cur, path) && |path| + d[cur] == d[q.end]
      invariant Walk(q, [cur] + path) && ([cur] + path)[|path|] == q.end
      decreases d[cur]
    {
      StepBack(q, came, d, cur, path);
      path := [cur] + path;
      cur := came[cur];
    }
    Traced(q, d, path);
  }

  /** A walk from the start whose tiles climb one layer per step is a simple path that avoids the start. */
  lemma Traced(q: Query, d: map<TileId, nat>, path: seq<TileId>)
    requires Climbs(d, q.start, path) && d[q.start] == 0
    requires Walk(q, [q.start] + path) && ([q.start] + path)[|path|] == q.end
    ensures path != [] ==> WalkTo(q, [q.start] + path, q.end)
    ensures forall i | 0 <= i < |path| :: Enterable(q, path[i])
    ensures NoDup(path) && q.start !in path
  {
    forall i | 0 <= i < |path| ensures Enterable(q, path[i]) {
      assert path[i] == ([q.start] + path)[i + 1];
    }
  }

  /** Discovering tiles shrinks the undiscovered rest of the graph. */
  lemma Shrinks<T>(u: set<T>, a: set<T>, b: set<T>)
    requires a <= b <= u
    ensures |u - b| <= |u - a|
    ensures a != b ==> |u - b| < |u - a|
  {
    assert u - a == (u - b) + (b - a);
    assert (u - b) !! (b - a);
    if a != b {
      var x :| x in b && x !in a;
      assert x in b - a;
    }
  }

  /** Expanding `c` keeps every discovered tile linked to a predecessor one layer closer. */
  lemma ExpandKeepsTree(q: Query, came0: map<TileId, TileId>, d0: map<TileId, nat>,
                        came: map<TileId, TileId>, d: map<TileId, nat>, c: TileId)
    requires Tree(q, came0, d0) && c in d0
    requires came.Keys == d.Keys && d0.Keys <= d.Keys && d.Keys <= q.g.Keys
    requires forall v | v in d0 :: d[v] == d0[v] && came[v] == came0[v]
    requires forall v | v in d && v !in d0 :: d[v] == d0[c] + 1 && came[v] == c && Edge(q.g, c, v) && Enterable(q, v)
    ensures Tree(q, came, d)
  {
  }

  /** The search state between two iterations of the queue loop. */
  ghost predicate Searching(q: Query, queue: seq<TileId>, came: map<TileId, TileId>, d: map<TileId, nat>) {
    Tree(q, came, d) && Ordered(queue, d) && Closed(q, d, Elems(queue)) && NoShortcut(q, d)
  }

  /** Dequeuing the front tile and queueing what its expansion discovered keeps the search state. */
  lemma VisitKeeps(q: Query, queue0: seq<TileId>, came0: map<TileId, TileId>, d0: map<TileId, nat>,
                   added: seq<TileId>, came: map<TileId, TileId>, d: map<TileId, nat>)
    requires queue0 != [] && Searching(q, queue0, came0, d0)
    requires came.Keys == d.Keys && d0.Keys <= d.Keys && d.Keys <= q.g.Keys
    requires forall v | v in d0 :: d[v] == d0[v] && came[v] == came0[v]
    requires forall v | v in d && v !in d0 ::
      d[v] == d0[queue0[0]] + 1 && came[v] == queue0[0] && Edge(q.g, queue0[0], v) && Enterable(q, v)
    requires forall n | Edge(q.g, queue0[0], n) && Enterable(q, n) :: n in d
    requires NoDup(added) && Elems(added) == d.Keys - d0.Keys
    ensures Searching(q, queue0[1..] + added, came, d)
  {
    var c := queue0[0];
    var queue := queue0[1..];
    assert Elems(queue0) == Elems(queue) + {c} by {
      assert queue0 == [c] + queue;
    }
    ExpandKeepsTree(q, came0, d0, came, d, c);
    ExpandKeepsNoShortcut(q, d0, d, queue, c);
    ExpandKeepsClosed(q, d0, d, queue, c, added);
    ExpandKeepsOrdered(queue0, d0, d, added);
  }

  /** One iteration of the queue loop that does not stop: dequeue the front tile and expand it. */
  method ProcessHead(q: Query, queue0: seq<TileId>, came0: map<TileId, TileId>, ghost d0: map<TileId, nat>)
    returns (queue: seq<TileId>, came: map<TileId, TileId>, ghost d: map<TileId, nat>)
    requires queue0 != [] && Searching(q, queue0, came0, d0)
    ensures Searching(q, queue, came, d)
    ensures d0.Keys <= d.Keys
    ensures |q.g.Keys - d.Keys| < |q.g.Keys - d0.Keys| ||
      (|q.g.Keys - d.Keys| == |q.g.Keys - d0.Keys| && |queue| < |queue0|)
  {
    var added;
    added, came, d := Relax(q, queue0[0], came0, d0);
    VisitKeeps(q, queue0, came0, d0, added, came, d);
    queue := queue0[1..] + added;
    Shrinks(q.g.Keys, d0.Keys, d.Keys);
    if d.Keys == d0.Keys {
      ElemsEmpty(added);
    }
  }

  /** `findPath`: a shortest walk from the start to the end obeying the blocking rule, without the
      start itself; empty when the end cannot be reached or is the start. */
  method FindPath(q: Query) returns (path: seq<TileId>)
    requires q.start in q.g
    ensures q.start == q.end ==> path == []
    ensures path != [] ==> WalkTo(q, [q.start] + path, q.end)
    ensures forall i | 0 <= i < |path| :: Enterable(q, path[i])
    ensures NoDup(path) && q.start !in path
    ensures forall w | WalkTo(q, w, q.end) :: |w| - 1 >= |path|
    ensures q.start != q.end ==> (path == [] <==> forall w :: !WalkTo(q, w, q.end))
  {
    var queue := [q.start];
    var came: map<TileId, TileId> := map[q.start := q.start];
    ghost var d: map<TileId, nat> := map[q.start := 0];
    while queue != []
      invariant Searching(q, queue, came, d)
      decreases |q.g.Keys - d.Keys|, |queue|
    {
      if queue[0] == q.end {
        break;
      }
      queue, came, d := ProcessHead(q, queue, came, d);
    }
    if q.end !in came {
      forall w | WalkTo(q, w, q.end) ensures false {
        var j := FirstExit(q, d, {}, w);
      }
      return [];
    }
    path := Reconstruct(q, came, d);
  }

  /** What `findPath` promises about `path`: it walks from the start to the end when non-empty, no walk
      is shorter, and it is empty exactly when a distinct end cannot be reached. */
  ghost predicate Shortest(q: Query, path: seq<TileId>) {
    && (path != [] ==> WalkTo(q, [q.start] + path, q.end))
    && (forall w | WalkTo(q, w, q.end) :: |w| - 1 >= |path|)
    && (q.start != q.end ==> (path == [] <==> forall w :: !WalkTo(q, w, q.end)))
    && (q.start == q.end ==> path == [])
  }

  /** Keeps the tiles of `layer` that are not blocked, or all of them when `allowEnd` holds. */
  method DropBlocked(layer: seq<TileId>, blocked: set<TileId>, allowEnd: bool) returns (r: seq<TileId>)
    requires NoDup(layer)
    ensures NoDup(r)
    ensures forall t :: t in r <==> t in layer && !(t in blocked && !allowEnd)
  {
    r := [];
    var i := 0;
    while i < |layer|
      invariant i <= |layer| && NoDup(r)
      invariant forall t :: t in r <==> t in layer[..i] && !(t in blocked && !allowEnd)
    {
      assert layer[..i + 1] == layer[..i] + [layer[i]];
      if !(layer[i] in blocked && !allowEnd) {
        assert layer[i] !in layer[..i];
        NoDupAppend(r, layer[i]);
        r := r + [layer[i]];
      }
      i := i + 1;
    }
    assert layer[..i] == layer;
  }

  /** The rule `findReachableTiles` searches with: the start is marked visited before the search. */
  function ReachRule(blocked: set<TileId>, allowEnd: bool, maxSteps: nat): Rule {
    Rule(blocked, allowEnd, maxSteps, true)
  }

  /** `findReachableTiles`: the tiles first discovered at exactly `maxSteps` layers, without the blocked
      ones unless `allowEnd` holds. */
  method FindReachableTiles(g: Graph, start: TileId, maxSteps: nat, blocked: set<TileId>, allowEnd: bool)
    returns (r: seq<TileId>)
    requires start in g
    ensures maxSteps == 0 && start in blocked && !allowEnd ==> |r| == 0
    ensures maxSteps == 0 && (start !in blocked || allowEnd) ==> r == [start]
    ensures NoDup(r)
    ensures forall t :: t in r <==>
      t in Layer(g, start, ReachRule(blocked, allowEnd, maxSteps), maxSteps).layer && !(t in blocked && !allowEnd)
    ensures maxSteps > 0 ==> start !in r
    ensures !allowEnd ==> forall t | t in r :: t !in blocked
  {
    var rule := ReachRule(blocked, allowEnd, maxSteps);
    var layer, _ := Explore(g, start, rule, maxSteps);
    r := DropBlocked(layer, blocked, allowEnd);
    if maxSteps == 0 {
      assert Layer(g, start, rule, 0).layer == {start};
      forall y ensures y in r <==> y == start && !(start in blocked && !allowEnd) {
        assert y in layer <==> y in Elems(layer);
      }
      if start in blocked && !allowEnd {
        ElemsEmpty(r);
      } else {
        NoDupSingleton(r, start);
      }
    }
    if maxSteps > 0 {
      LayersDisjoint(g, start, rule, 0, maxSteps);
    }
  }

  /** In a walk `findReachableTiles` follows, a blocked tile can only be the last, `maxSteps`-th, one;
      and the walk never repeats a tile. */
  lemma ReachableWalkShape(g: Graph, start: TileId, blocked: set<TileId>, allowEnd: bool, maxSteps: nat, w: seq<TileId>)
    requires LayeredWalk(g, start, ReachRule(blocked, allowEnd, maxSteps), w) && |w| == maxSteps + 1
    ensures forall i | 1 <= i < maxSteps :: w[i] !in blocked
    ensures w[maxSteps] in blocked && maxSteps > 0 ==> allowEnd
    ensures NoDup(w)
  {
    LayeredWalkSimple(g, start, ReachRule(blocked, allowEnd, maxSteps), w);
  }

  /** Every tile `findReachableTiles` can return is the end of a walk of exactly `maxSteps` moves
      from the start that repeats no tile and crosses no blocked tile on the way. */
  lemma ReachableBySimpleWalk(g: Graph, start: TileId, blocked: set<TileId>, allowEnd: bool, maxSteps: nat, t: TileId)
    requires t in Layer(g, start, ReachRule(blocked, allowEnd, maxSteps), maxSteps).layer
    ensures exists w ::
      (LayeredWalk(g, start, ReachRule(blocked, allowEnd, maxSteps), w) && |w| == maxSteps + 1
       && w[0] == start && w[maxSteps] == t && NoDup(w) && (forall i | 1 <= i < maxSteps :: w[i] !in blocked))
  {
    LayerHasWalk(g, start, ReachRule(blocked, allowEnd, maxSteps), maxSteps, t);
    var w :| LayeredWalk(g, start, ReachRule(blocked, allowEnd, maxSteps), w) && |w| == maxSteps + 1 && w[maxSteps] == t;
    ReachableWalkShape(g, start, blocked, allowEnd, maxSteps, w);
  }

  /** `t` is `d` steps from `start`: some walk along listed neighbours that are tiles takes `d` steps,
      and none takes fewer. */
  ghost predicate AtDistance(g: Graph, start: TileId, t: TileId, d: nat) {
    && (exists w :: WalkTo(Query(g, start, t, {}, false), w, t) && |w| == d + 1)
    && (forall w | WalkTo(Query(g, start, t, {}, false), w, t) :: |w| >= d + 1)
  }

  /** The end of a walk of `j` steps is visited by round `j` of the search that marks the start and
      blocks nothing. */
  lemma {:induction false} WalkEndSeen(g: Graph, start: TileId, m: nat, w: seq<TileId>, j: nat)
    requires |w| == j + 1 && w[0] == start
    requires forall i | 1 <= i < |w| :: Edge(g, w[i - 1], w[i])
    ensures w[j] in Layer(g, start, ReachRule({}, false, m), j).seen
    decreases j
  {
    if j > 0 {
      var rule := ReachRule({}, false, m);
      var u := w[j - 1];
      var w' := w[..j];
      forall i | 1 <= i < |w'| ensures Edge(g, w'[i - 1], w'[i]) {
        assert w'[i - 1] == w[i - 1] && w'[i] == w[i];
      }
      WalkEndSeen(g, start, m, w', j - 1);
      SeenHasLayer(g, start, rule, j - 1, u);
      var i :| 0 <= i <= j - 1 && u in Layer(g, start, rule, i).layer;
      var f := Layer(g, start, rule, i);
      assert Edge(g, u, w[j]);
      if w[j] !in f.seen {
        assert w[j] in Expand(g, f.layer, f.seen, rule, i + 1);
      }
      SeenGrows(g, start, rule, i + 1, j);
    }
  }

  /** With the start marked and nothing blocked, round `d` of `findReachableTiles` is exactly the set
      of tiles at distance `d` from the start. */
  lemma LayerIsDistance(g: Graph, start: TileId, d: nat, t: TileId)
    ensures t in Layer(g, start, ReachRule({}, false, d), d).layer <==> AtDistance(g, start, t, d)
  {
    var rule := ReachRule({}, false, d);
    var q := Query(g, start, t, {}, false);
    if t in Layer(g, start, rule, d).layer {
      LayerHasWalk(g, start, rule, d, t);
      var w :| LayeredWalk(g, start, rule, w) && |w| == d + 1 && w[d] == t;
      assert WalkTo(q, w, t);
      forall v | WalkTo(q, v, t) ensures |v| >= d + 1 {
        WalkEndSeen(g, start, d, v, |v| - 1);
        SeenHasLayer(g, start, rule, |v| - 1, t);
        var i :| 0 <= i <= |v| - 1 && t in Layer(g, start, rule, i).layer;
        if i < d {
          LayersDisjoint(g, start, rule, i, d);
        }
      }
    }
    if AtDistance(g, start, t, d) {
      var w :| WalkTo(q, w, t) && |w| == d + 1;
      WalkEndSeen(g, start, d, w, d);
      SeenHasLayer(g, start, rule, d, t);
      var i :| 0 <= i <= d && t in Layer(g, start, rule, i).layer;
      if i < d {
        EarlierLayerShorter(g, start, d, i, t);
      }
    }
  }

  /** A tile of an earlier round has a walk shorter than `d` steps. */
  lemma EarlierLayerShorter(g: Graph, start: TileId, d: nat, i: nat, t: TileId)
    requires i < d && t in Layer(g, start, ReachRule({}, false, d), i).layer
    ensures exists v :: WalkTo(Query(g, start, t, {}, false), v, t) && |v| < d + 1
  {
    var rule := ReachRule({}, false, d);
    LayerHasWalk(g, start, rule, i, t);
    var v :| LayeredWalk(g, start, rule, v) && |v| == i + 1 && v[i] == t;
    assert WalkTo(Query(g, start, t, {}, false), v, t);
  }
}
