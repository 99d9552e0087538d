/** Procedural board generation, `generateGrid` and its helpers (src/core/game/GameMap.ts:12-122). */
module Grid {
  import opened Base
  import opened Tiles
  import opened GameMaps

  /** The stream of `Math.random()` results: the k-th call yields rng(k). A draw u in [0, 1)
      enters as floor(10 * u) when compared against a probability held in tenths, and as
      rng(k) % n for `Math.floor(Math.random() * n)`. */
  type Rng = nat -> nat

  function Abs(x: int): nat {
    if x < 0 then -x else x
  }

  /** `existingLines.every(line => Math.abs(line - i) > minGap)`. */
  predicate FarFrom(i: int, lines: seq<int>, minGap: int) {
    forall l | l in lines :: Abs(l - i) > minGap
  }

  /** A line index `chooseLine` may return: not within two of either edge, and clear of every existing line. */
  predicate Eligible(i: int, maxIndex: int, lines: seq<int>, minGap: int) {
    2 <= i <= maxIndex - 3 && FarFrom(i, lines, minGap)
  }

  /** Every two lines are more than `minGap` apart. */
  predicate Spaced(lines: seq<int>, minGap: int) {
    forall j, k | 0 <= j < k < |lines| :: Abs(lines[j] - lines[k]) > minGap
  }

  /** The candidate list of `chooseLine`, in increasing order. */
  method LineCandidates(maxIndex: int, lines: seq<int>, minGap: int) returns (c: seq<int>)
    ensures forall i :: i in c <==> Eligible(i, maxIndex, lines, minGap)
    ensures forall j, k | 0 <= j < k < |c| :: c[j] < c[k]
  {
    c := [];
    var i := 1;
    while i < maxIndex - 1
      invariant i >= 1 && (i <= maxIndex - 1 || i == 1)
      invariant forall v :: v in c <==> Eligible(v, maxIndex, lines, minGap) && v < i
      invariant forall j, k | 0 <= j < k < |c| :: c[j] < c[k]
      invariant forall v | v in c :: v < i
    {
      if i != 1 && i != maxIndex - 2 && FarFrom(i, lines, minGap) {
        assert forall j | 0 <= j < |c| :: c[j] in c;
        c := c + [i];
      }
      i := i + 1;
    }
  }

  /** `chooseLine`: an eligible index picked by `draw`, or None exactly when there is none.
      `drew` tells whether a random number was consumed (only when candidates exist). */
  method ChooseLine(maxIndex: int, lines: seq<int>, minGap: int, draw: nat) returns (r: Option<int>, drew: bool)
    ensures r.Some? ==> Eligible(r.value, maxIndex, lines, minGap)
    ensures r.None? <==> forall i :: !Eligible(i, maxIndex, lines, minGap)
    ensures drew <==> r.Some?
  {
    var c := LineCandidates(maxIndex, lines, minGap);
    if |c| == 0 {
      return None, false;
    }
    assert c[draw % |c|] in c;
    return Some(c[draw % |c|]), true;
  }

  /** Adding a line that is far from every existing line keeps all lines spaced. */
  lemma SpacedAppend(lines: seq<int>, l: int, minGap: int)
    requires Spaced(lines, minGap) && FarFrom(l, lines, minGap)
    ensures Spaced(lines + [l], minGap)
  {
    var s := lines + [l];
    forall j, k | 0 <= j < k < |s| ensures Abs(s[j] - s[k]) > minGap {
      if k == |lines| {
        assert s[j] in lines;
        assert Abs(s[k] - s[j]) == Abs(s[j] - s[k]);
      }
    }
  }

  /** The coordinates the first two loops of `generateGrid` place: the outer ring. */
  predicate RingCell(w: int, h: int, p: Pos) {
    || (0 <= p.x < w && (p.z == 0 || p.z == h - 1))
    || (1 <= p.z <= h - 2 && (p.x == 0 || p.x == w - 1))
  }

  /** Every coordinate of `m` is still a coordinate of `m'`, holding the same tile id. */
  predicate Grows(m: GameMap, m': GameMap) {
    forall p | p in m.byCoord :: p in m'.byCoord && m'.byCoord[p] == m.byCoord[p]
  }

  /** `addTileAt(x, z)` seen from the generator: the map stays well formed, keeps its cells and holds
      (x, z) afterwards, whether the cell was free or not. */
  function Put(m: GameMap, x: int, z: int): (r: GameMap)
    requires Valid(m)
    ensures Valid(r) && Grows(m, r) && Pos(x, z) in r.byCoord
    ensures forall p | p in r.byCoord && p !in m.byCoord :: p == Pos(x, z)
  {
    AddTileAt(m, x, z).board
  }

  /** Two `addTileAt` calls in a row, as each step of the ring loops makes them. */
  function PutPair(m: GameMap, a: Pos, b: Pos): (r: GameMap)
    requires Valid(m)
    ensures Valid(r) && Grows(m, r) && a in r.byCoord && b in r.byCoord
    ensures forall p | p in r.byCoord && p !in m.byCoord :: p == a || p == b
  {
    Put(Put(m, a.x, a.z), b.x, b.z)
  }

  /** The first loop of `generateGrid`: the top and bottom rows. */
  method PlaceRows(m0: GameMap, w: nat, h: nat) returns (m: GameMap)
    requires Valid(m0)
    ensures Valid(m) && Grows(m0, m)
    ensures forall x | 0 <= x < w :: Pos(x, 0) in m.byCoord && Pos(x, h - 1) in m.byCoord
    ensures forall p | p in m.byCoord && p !in m0.byCoord :: 0 <= p.x < w && (p.z == 0 || p.z == h - 1)
  {
    m := m0;
    var x := 0;
    while x < w
      invariant x <= w
      invariant Valid(m) && Grows(m0, m)
      invariant forall x' | 0 <= x' < x :: Pos(x', 0) in m.byCoord && Pos(x', h - 1) in m.byCoord
      invariant forall p | p in m.byCoord && p !in m0.byCoord :: 0 <= p.x < x && (p.z == 0 || p.z == h - 1)
    {
      m := PutPair(m, Pos(x, 0), Pos(x, h - 1));
      x := x + 1;
    }
  }

  /** The second loop of `generateGrid`: the left and right columns between the rows. */
  method PlaceColumns(m0: GameMap, w: nat, h: nat) returns (m: GameMap)
    requires Valid(m0)
    ensures Valid(m) && Grows(m0, m)
    ensures forall z | 1 <= z <= h - 2 :: Pos(0, z) in m.byCoord && Pos(w - 1, z) in m.byCoord
    ensures forall p | p in m.byCoord && p !in m0.byCoord :: 1 <= p.z <= h - 2 && (p.x == 0 || p.x == w - 1)
  {
    m := m0;
    var z := 1;
    var last := if h >= 2 then h - 1 else 1;
    while z < last
      invariant 1 <= z <= last
      invariant Valid(m) && Grows(m0, m)
      invariant forall z' | 1 <= z' < z :: Pos(0, z') in m.byCoord && Pos(w - 1, z') in m.byCoord
      invariant forall p | p in m.byCoord && p !in m0.byCoord :: 1 <= p.z < z && (p.x == 0 || p.x == w - 1)
    {
      m := PutPair(m, Pos(0, z), Pos(w - 1, z));
      z := z + 1;
    }
  }

  /** The outer ring of a `w` by `h` board: every ring cell holds a tile afterwards. */
  method PlaceRing(m0: GameMap, w: nat, h: nat) returns (m: GameMap)
    requires Valid(m0)
    ensures Valid(m) && Grows(m0, m)
    ensures forall p | RingCell(w, h, p) :: p in m.byCoord
    ensures forall p | p in m.byCoord && p !in m0.byCoord :: RingCell(w, h, p)
  {
    var m1 := PlaceRows(m0, w, h);
    m := PlaceColumns(m1, w, h);
    forall p | RingCell(w, h, p) ensures p in m.byCoord {
      if 0 <= p.x < w && (p.z == 0 || p.z == h - 1) {
        assert Pos(p.x, 0) in m1.byCoord && Pos(p.x, h - 1) in m1.byCoord;
      } else {
        assert Pos(0, p.z) in m.byCoord && Pos(w - 1, p.z) in m.byCoord;
      }
    }
  }

  /** The k-th cell of a bridge line: column `line` for a vertical bridge, row `line` for a horizontal one. */
  function Cell(vertical: bool, line: int, k: int): Pos {
    if vertical then Pos(line, k) else Pos(k, line)
  }

  /** `p` is one of the inner cells 1 .. extent-2 of a bridge line. */
  predicate OnLine(vertical: bool, line: int, extent: int, p: Pos) {
    if vertical then p.x == line && 1 <= p.z <= extent - 2 else p.z == line && 1 <= p.x <= extent - 2
  }

  /** Places the tiles of one bridge line, cells 1 .. extent-2. */
  method PlaceLine(m0: GameMap, vertical: bool, line: int, extent: nat) returns (m: GameMap)
    requires Valid(m0)
    ensures Valid(m) && Grows(m0, m)
    ensures forall j | 1 <= j <= extent - 2 :: Cell(vertical, line, j) in m.byCoord
    ensures forall p | p in m.byCoord && p !in m0.byCoord :: OnLine(vertical, line, extent, p)
  {
    m := m0;
    var j := 1;
    while j < extent - 1
      invariant 1 <= j && (j <= extent - 1 || j == 1)
      invariant Valid(m) && Grows(m0, m)
      invariant forall j' | 1 <= j' < j :: Cell(vertical, line, j') in m.byCoord
      invariant forall p | p in m.byCoord && p !in m0.byCoord :: OnLine(vertical, line, j + 1, p)
    {
      var c := Cell(vertical, line, j);
      m := Put(m, c.x, c.z);
      j := j + 1;
    }
  }

  /** Probability update after an accepted bridge, in tenths: `chance += chance > 0.3 ? -0.3 : 0.3`.
      The chance keeps its residue modulo 0.3, so starting from 0.2 it never equals the 0.3 threshold
      and tenths decide the comparison exactly; a positive chance stays positive. */
  function AfterSuccess(chance: int): (r: int)
    ensures r % 3 == chance % 3
    ensures chance > 0 ==> r > 0
  {
    if chance > 3 then chance - 3 else chance + 3
  }

  /** One bridge phase of `generateGrid`: up to floor(maxIndex / 5) attempts, each accepted when the
      draw is below `chance`, each accepted attempt asking `chooseLine` for a line (minimum gap 1)
      and placing its cells 1 .. extent-2. `chance` (tenths) rises by 3 after every attempt. */
  method PlaceBridges(m0: GameMap, vertical: bool, maxIndex: nat, extent: nat, rng: Rng, k0: nat, chance0: int)
    returns (m: GameMap, lines: seq<int>, k: nat, chance: int)
    requires Valid(m0)
    ensures Valid(m) && Grows(m0, m)
    ensures |lines| <= maxIndex / 5
    ensures forall l | l in lines :: 2 <= l <= maxIndex - 3
    ensures Spaced(lines, 1)
    ensures forall l, j | l in lines && 1 <= j <= extent - 2 :: Cell(vertical, l, j) in m.byCoord
    ensures k >= k0
    ensures chance % 3 == chance0 % 3
    ensures chance0 > 0 ==> chance > 0
    ensures forall p | p in m.byCoord && p !in m0.byCoord :: exists l | l in lines :: OnLine(vertical, l, extent, p)
  {
    m, lines, k, chance := m0, [], k0, chance0;
    var i := 0;
    while i < maxIndex / 5
      invariant i <= maxIndex / 5 && |lines| <= i && k >= k0
      invariant chance % 3 == chance0 % 3 && (chance0 > 0 ==> chance > 0)
      invariant forall p | p in m.byCoord && p !in m0.byCoord :: exists l | l in lines :: OnLine(vertical, l, extent, p)
      invariant Valid(m) && Grows(m0, m)
      invariant forall l | l in lines :: 2 <= l <= maxIndex - 3
      invariant Spaced(lines, 1)
      invariant forall l, j | l in lines && 1 <= j <= extent - 2 :: Cell(vertical, l, j) in m.byCoord
    {
      var accept := rng(k) % 10 < chance;
      k := k + 1;
      if accept {
        chance := AfterSuccess(chance);
        var line, drew := ChooseLine(maxIndex, lines, 1, rng(k));
        if drew {
          k := k + 1;
        }
        if line.Some? {
          SpacedAppend(lines, line.value, 1);
          var before := m;
          m := PlaceLine(m, vertical, line.value, extent);
          lines := lines + [line.value];
          forall l, j | l in lines && 1 <= j <= extent - 2 ensures Cell(vertical, l, j) in m.byCoord {
            if l != line.value {
              assert Cell(vertical, l, j) in before.byCoord;
            }
          }
          forall p | p in m.byCoord && p !in m0.byCoord ensures exists l | l in lines :: OnLine(vertical, l, extent, p) {
            if p in before.byCoord {
              var l :| l in lines[..|lines| - 1] && OnLine(vertical, l, extent, p);
              assert l in lines;
            } else {
              assert line.value in lines;
            }
          }
        }
      }
      chance := chance + 3;
      i := i + 1;
    }
  }

  /** The ring traversal of `connectRingAndBridge`: top row left to right, right column downwards,
      bottom row right to left, left column upwards. */
  function RingCoords(w: nat, h: nat): (rc: seq<Pos>)
    ensures forall i | 0 <= i < |rc| :: RingCell(w, h, rc[i])
  {
    var inner := if h >= 2 then h - 2 else 0;
    seq(w, i => Pos(i, 0))
    + seq(inner, i => Pos(w - 1, i + 1))
    + seq(w, i => Pos(w - 1 - i, h - 1))
    + seq(inner, i => Pos(0, h - 2 - i))
  }

  /** Both tiles exist and each lists the other as a neighbour. */
  predicate Joined(m: GameMap, p: Pos, q: Pos) {
    && p in m.byCoord && q in m.byCoord
    && Linked(m, m.byCoord[p], m.byCoord[q])
    && Linked(m, m.byCoord[q], m.byCoord[p])
  }

  /** Connecting only ever adds links: coordinates are untouched and no link is lost. */
  ghost predicate Keeps(m: GameMap, m': GameMap) {
    && m'.byCoord == m.byCoord
    && m'.byId.Keys == m.byId.Keys
    && (forall a, b | Linked(m, a, b) :: Linked(m', a, b))
  }

  /** The i-th ring coordinate is joined to its successor in traversal order. */
  predicate RingStep(m: GameMap, rc: seq<Pos>, i: int)
    requires 0 <= i < |rc|
  {
    Joined(m, rc[i], rc[(i + 1) % |rc|])
  }

  /** Each ring coordinate is joined to the next one, and the last to the first. */
  predicate RingClosed(m: GameMap, w: nat, h: nat) {
    var rc := RingCoords(w, h);
    forall i | 0 <= i < |rc| :: RingStep(m, rc, i)
  }

  lemma KeepsJoined(m: GameMap, m': GameMap, p: Pos, q: Pos)
    requires Keeps(m, m') && Joined(m, p, q)
    ensures Joined(m', p, q)
  {
  }

  lemma KeepsTransitive(m: GameMap, m': GameMap, m'': GameMap)
    requires Keeps(m, m') && Keeps(m', m'')
    ensures Keeps(m, m'')
  {
  }

  /** `addConnectionByCoords` seen from the generator: it joins two existing coordinates and loses nothing. */
  method Connect(m: GameMap, p: Pos, q: Pos) returns (m': GameMap)
    requires Valid(m)
    ensures Valid(m') && Keeps(m, m')
    ensures p in m.byCoord && q in m.byCoord ==> Joined(m', p, q)
  {
    m' := AddConnectionByCoords(m, p, q);
  }

  lemma RingStepsKept(m: GameMap, m': GameMap, rc: seq<Pos>, n: int)
    requires Keeps(m, m') && 0 <= n <= |rc|
    requires forall j | 0 <= j < n :: RingStep(m, rc, j)
    ensures forall j | 0 <= j < n :: RingStep(m', rc, j)
  {
    forall j | 0 <= j < n ensures RingStep(m', rc, j) {
      assert RingStep(m, rc, j);
      KeepsJoined(m, m', rc[j], rc[(j + 1) % |rc|]);
    }
  }

  method ConnectRing(m0: GameMap, w: nat, h: nat) returns (m: GameMap)
    requires Valid(m0)
    requires forall p | RingCell(w, h, p) :: p in m0.byCoord
    ensures Valid(m) && Keeps(m0, m)
    ensures RingClosed(m, w, h)
  {
    var rc := RingCoords(w, h);
    m := m0;
    var i := 0;
    while i < |rc|
      invariant i <= |rc|
      invariant Valid(m) && Keeps(m0, m)
      invariant forall j | 0 <= j < i :: RingStep(m, rc, j)
    {
      var prev := m;
      var p, q := rc[i], rc[(i + 1) % |rc|];
      assert RingCell(w, h, p) && RingCell(w, h, q);
      m := Connect(m, p, q);
      KeepsTransitive(m0, prev, m);
      RingStepsKept(prev, m, rc, i);
      i := i + 1;
    }
  }

  /** Cell j of a bridge line is joined to cell j+1. */
  predicate ChainStep(m: GameMap, vertical: bool, line: int, j: int) {
    Joined(m, Cell(vertical, line, j), Cell(vertical, line, j + 1))
  }

  /** The cells of a bridge are chained 1-2, 2-3, .., and its ends 1 and extent-2 are joined to the ring cells 0 and extent-1. */
  predicate BridgeJoined(m: GameMap, vertical: bool, line: int, extent: int) {
    && (forall j | 1 <= j < extent - 2 :: ChainStep(m, vertical, line, j))
    && Joined(m, Cell(vertical, line, 1), Cell(vertical, line, 0))
    && Joined(m, Cell(vertical, line, extent - 2), Cell(vertical, line, extent - 1))
  }

  lemma BridgeJoinedKept(m: GameMap, m': GameMap, vertical: bool, line: int, extent: int)
    requires Keeps(m, m') && BridgeJoined(m, vertical, line, extent)
    ensures BridgeJoined(m', vertical, line, extent)
  {
    forall j | 1 <= j < extent - 2 ensures ChainStep(m', vertical, line, j) {
      assert ChainStep(m, vertical, line, j);
      KeepsJoined(m, m', Cell(vertical, line, j), Cell(vertical, line, j + 1));
    }
    KeepsJoined(m, m', Cell(vertical, line, 1), Cell(vertical, line, 0));
    KeepsJoined(m, m', Cell(vertical, line, extent - 2), Cell(vertical, line, extent - 1));
  }

  lemma RingClosedKept(m: GameMap, m': GameMap, w: nat, h: nat)
    requires Keeps(m, m') && RingClosed(m, w, h)
    ensures RingClosed(m', w, h)
  {
    RingStepsKept(m, m', RingCoords(w, h), |RingCoords(w, h)|);
  }

  /** The connections of one bridge line in `connectRingAndBridge`. */
  method ConnectLine(m0: GameMap, vertical: bool, line: int, extent: nat) returns (m: GameMap)
    requires Valid(m0)
    requires forall j | 0 <= j <= extent - 1 :: Cell(vertical, line, j) in m0.byCoord
    ensures Valid(m) && Keeps(m0, m)
    ensures extent >= 2 ==> BridgeJoined(m, vertical, line, extent)
  {
    m := m0;
    var j := 1;
    while j < extent - 2
      invariant 1 <= j && (j <= extent - 2 || j == 1)
      invariant Valid(m) && Keeps(m0, m)
      invariant forall j' | 1 <= j' < j :: ChainStep(m, vertical, line, j')
    {
      var prev := m;
      m := Connect(m, Cell(vertical, line, j), Cell(vertical, line, j + 1));
      KeepsTransitive(m0, prev, m);
      forall j' | 1 <= j' < j ensures ChainStep(m, vertical, line, j') {
        assert ChainStep(prev, vertical, line, j');
        KeepsJoined(prev, m, Cell(vertical, line, j'), Cell(vertical, line, j' + 1));
      }
      assert ChainStep(m, vertical, line, j);
      j := j + 1;
    }
    if extent >= 2 {
      var m1 := Connect(m, Cell(vertical, line, 1), Cell(vertical, line, 0));
      var m2 := Connect(m1, Cell(vertical, line, extent - 2), Cell(vertical, line, extent - 1));
      KeepsTransitive(m, m1, m2);
      KeepsTransitive(m0, m, m2);
      KeepsJoined(m1, m2, Cell(vertical, line, 1), Cell(vertical, line, 0));
      forall j' | 1 <= j' < extent - 2 ensures ChainStep(m2, vertical, line, j') {
        assert ChainStep(m, vertical, line, j');
        KeepsJoined(m, m2, Cell(vertical, line, j'), Cell(vertical, line, j' + 1));
      }
      m := m2;
    } else {
      var m1 := Connect(m, Cell(vertical, line, 1), Cell(vertical, line, 0));
      var m2 := Connect(m1, Cell(vertical, line, extent - 2), Cell(vertical, line, extent - 1));
      KeepsTransitive(m, m1, m2);
      KeepsTransitive(m0, m, m2);
      m := m2;
    }
  }

  /** The bridge part of `connectRingAndBridge` for one orientation. */
  method ConnectBridges(m0: GameMap, vertical: bool, lines: seq<int>, extent: nat) returns (m: GameMap)
    requires Valid(m0)
    requires forall l, j | l in lines && 0 <= j <= extent - 1 :: Cell(vertical, l, j) in m0.byCoord
    ensures Valid(m) && Keeps(m0, m)
    ensures extent >= 2 ==> forall l | l in lines :: BridgeJoined(m, vertical, l, extent)
  {
    m := m0;
    var i := 0;
    while i < |lines|
      invariant i <= |lines|
      invariant Valid(m) && Keeps(m0, m)
      invariant extent >= 2 ==> forall i' | 0 <= i' < i :: BridgeJoined(m, vertical, lines[i'], extent)
    {
      var prev := m;
      assert lines[i] in lines;
      m := ConnectLine(m, vertical, lines[i], extent);
      KeepsTransitive(m0, prev, m);
      if extent >= 2 {
        forall i' | 0 <= i' < i ensures BridgeJoined(m, vertical, lines[i'], extent) {
          BridgeJoinedKept(prev, m, vertical, lines[i'], extent);
        }
      }
      i := i + 1;
    }
  }

  lemma GrowsTransitive(m: GameMap, m': GameMap, m'': GameMap)
    requires Grows(m, m') && Grows(m', m'')
    ensures Grows(m, m'')
  {
  }

  /** `generateGrid(width, height)` on the map `m0`, with `rng` standing for `Math.random()`.
      Returns the map and the chosen vertical and horizontal bridge lines. */
  method GenerateGrid(m0: GameMap, width: nat, height: nat, rng: Rng)
    returns (m: GameMap, vertical: seq<int>, horizontal: seq<int>)
    requires Valid(m0)
    ensures Valid(m) && Grows(m0, m)
    ensures forall p | RingCell(width, height, p) :: p in m.byCoord
    ensures |vertical| <= width / 5 && |horizontal| <= height / 5
    ensures forall l | l in vertical :: 2 <= l <= width - 3
    ensures forall l | l in horizontal :: 2 <= l <= height - 3
    ensures Spaced(vertical, 1) && Spaced(horizontal, 1)
    ensures forall l, j | l in vertical && 0 <= j < height :: Pos(l, j) in m.byCoord
    ensures forall l, j | l in horizontal && 0 <= j < width :: Pos(j, l) in m.byCoord
    ensures RingClosed(m, width, height)
    ensures height >= 2 ==> forall l | l in vertical :: BridgeJoined(m, true, l, height)
    ensures width >= 2 ==> forall l | l in horizontal :: BridgeJoined(m, false, l, width)
    ensures forall p | p in m.byCoord && p !in m0.byCoord ::
      || RingCell(width, height, p)
      || (exists l | l in vertical :: OnLine(true, l, height, p))
      || (exists l | l in horizontal :: OnLine(false, l, width, p))
  {
    var m1 := PlaceRing(m0, width, height);
    var m2, k, chance;
    m2, vertical, k, chance := PlaceBridges(m1, true, width, height, rng, 0, 2);
    var m3;
    m3, horizontal, k, chance := PlaceBridges(m2, false, height, width, rng, k, chance);
    GrowsTransitive(m1, m2, m3);
    GrowsTransitive(m0, m1, m3);
    assert forall l, j | l in vertical && 0 <= j <= height - 1 :: Cell(true, l, j) in m3.byCoord by {
      forall l, j | l in vertical && 0 <= j <= height - 1 ensures Cell(true, l, j) in m3.byCoord {
        if 1 <= j <= height - 2 {
          assert Cell(true, l, j) in m2.byCoord;
        } else {
          assert RingCell(width, height, Pos(l, j));
        }
      }
    }
    assert forall l, j | l in horizontal && 0 <= j <= width - 1 :: Cell(false, l, j) in m3.byCoord by {
      forall l, j | l in horizontal && 0 <= j <= width - 1 ensures Cell(false, l, j) in m3.byCoord {
        if !(1 <= j <= width - 2) {
          assert RingCell(width, height, Pos(j, l));
        }
      }
    }
    var m4 := ConnectRing(m3, width, height);
    var m5 := ConnectBridges(m4, true, vertical, height);
    m := ConnectBridges(m5, false, horizontal, width);
    KeepsTransitive(m4, m5, m);
    RingClosedKept(m4, m, width, height);
    if height >= 2 {
      forall l | l in vertical ensures BridgeJoined(m, true, l, height) {
        BridgeJoinedKept(m5, m, true, l, height);
      }
    }
    forall l, j | l in vertical && 0 <= j < height ensures Pos(l, j) in m.byCoord {
      assert Cell(true, l, j) in m3.byCoord;
    }
    forall l, j | l in horizontal && 0 <= j < width ensures Pos(j, l) in m.byCoord {
      assert Cell(false, l, j) in m3.byCoord;
    }
    forall p | p in m.byCoord && p !in m0.byCoord
      ensures || RingCell(width, height, p)
              || (exists l | l in vertical :: OnLine(true, l, height, p))
              || (exists l | l in horizontal :: OnLine(false, l, width, p))
    {
      assert p in m3.byCoord;
      if p !in m1.byCoord && p !in m2.byCoord {
        assert exists l | l in horizontal :: OnLine(false, l, width, p);
      } else if p !in m1.byCoord {
        assert exists l | l in vertical :: OnLine(true, l, height, p);
      }
    }
  }
}
