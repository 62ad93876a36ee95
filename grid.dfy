/// The value-level model of the tile map of src/systems/TileMap.js: tiles and
/// their types, which tiles a resource may be placed on, and the specification
/// functions and relations that the imperative `TileMap` class is proved against.
module TileGrid {

  /// The tile types of `TILE_TYPES`, plus the `"building"` type that the scene
  /// stamps under the town centre.
  datatype TileType = Grass | Forest | Gold | Stone | Food | Building

  predicate IsResource(t: TileType) {
    t == Forest || t == Gold || t == Stone || t == Food
  }

  /// One map entry `{x, y, type, protected}`.
  datatype Tile = Tile(x: int, y: int, kind: TileType, protected: bool)

  /// A tile coordinate `(x, y)`; `x` is the column and `y` the row.
  datatype Cell = Cell(x: int, y: int)

  /// The map: `map[y][x]`, a list of rows.
  type Grid = seq<seq<Tile>>

  /// `height` rows of `width` tiles, each tile knowing its own coordinate.
  ghost predicate WellFormed(g: Grid, width: int, height: int) {
    && |g| == height
    && (forall y :: 0 <= y < |g| ==> |g[y]| == width)
    && (forall y, x :: 0 <= y < |g| && 0 <= x < |g[y]| ==> g[y][x].x == x && g[y][x].y == y)
  }

  ghost predicate SameShape(a: Grid, b: Grid) {
    |a| == |b| && forall y :: 0 <= y < |a| ==> |a[y]| == |b[y]|
  }

  /// The source's `this.map[y] && this.map[y][x]`: the row exists and has that column.
  predicate InBounds(g: Grid, c: Cell) {
    0 <= c.y < |g| && 0 <= c.x < |g[c.y]|
  }

  function At(g: Grid, c: Cell): Tile
    requires InBounds(g, c)
  {
    g[c.y][c.x]
  }

  /// Grass that is not protected: the only tiles a resource may be placed on.
  predicate Open(t: Tile) {
    t.kind == Grass && !t.protected
  }

  /// The placement test shared by `placeSingleTrees`, `fillCluster` and `isAreaClear`.
  predicate Eligible(g: Grid, c: Cell) {
    InBounds(g, c) && Open(At(g, c))
  }

  /// `g` with one tile replaced.
  function SetTile(g: Grid, c: Cell, t: Tile): (r: Grid)
    requires InBounds(g, c)
    ensures SameShape(g, r)
    ensures At(r, c) == t
    ensures forall d :: InBounds(g, d) && d != c ==> At(r, d) == At(g, d)
  {
    g[c.y := g[c.y][c.x := t]]
  }

  lemma SetTileWellFormed(g: Grid, c: Cell, t: Tile, width: int, height: int)
    requires WellFormed(g, width, height) && InBounds(g, c) && t.x == c.x && t.y == c.y
    ensures WellFormed(SetTile(g, c, t), width, height)
  {
    var r: Grid := SetTile(g, c, t);
    forall y, x | 0 <= y < |r| && 0 <= x < |r[y]| ensures r[y][x].x == x && r[y][x].y == y {
      assert InBounds(g, Cell(x, y));
    }
  }

  /// Two grids of one shape that agree tile by tile are equal.
  lemma {:induction false} GridExt(a: Grid, b: Grid)
    requires SameShape(a, b)
    requires forall c :: InBounds(a, c) ==> At(a, c) == At(b, c)
    ensures a == b
  {
    forall y | 0 <= y < |a| ensures a[y] == b[y] {
      forall x | 0 <= x < |a[y]| ensures a[y][x] == b[y][x] {
        assert InBounds(a, Cell(x, y));
      }
    }
  }

  // ---------------------------------------------------------------------------
  // generateMap

  /// The map `generateMap` builds.
  function FreshGrid(width: nat, height: nat): Grid {
    seq(height, y => seq(width, x => Tile(x, y, Grass, false)))
  }

  lemma FreshGridShape(width: nat, height: nat)
    ensures WellFormed(FreshGrid(width, height), width, height)
    ensures forall c :: InBounds(FreshGrid(width, height), c) ==> Open(At(FreshGrid(width, height), c))
  {
  }

  // ---------------------------------------------------------------------------
  // protectArea

  /// Inside the square of half-width `r` around `(cx, cy)`.
  predicate InSquare(c: Cell, cx: int, cy: int, r: int) {
    cx - r <= c.x <= cx + r && cy - r <= c.y <= cy + r
  }

  /// What `protectArea` does to one tile of its square.
  function ProtectTile(t: Tile): Tile {
    t.(kind := Grass, protected := true)
  }

  /// The map after `protectArea(cx, cy, r)`.
  function Protect(g: Grid, cx: int, cy: int, r: int): Grid {
    seq(|g|, y requires 0 <= y < |g| =>
      seq(|g[y]|, x requires 0 <= x < |g[y]| =>
        if InSquare(Cell(x, y), cx, cy, r) then ProtectTile(g[y][x]) else g[y][x]))
  }

  /// Every in-bounds tile of the square becomes protected grass, keeping its
  /// coordinate; every other tile is unchanged; nothing outside the map exists.
  lemma ProtectAreaEffect(g: Grid, cx: int, cy: int, r: int)
    ensures SameShape(g, Protect(g, cx, cy, r))
    ensures forall c :: InBounds(g, c) && InSquare(c, cx, cy, r) ==>
      var t := At(Protect(g, cx, cy, r), c);
      t.kind == Grass && t.protected && t.x == At(g, c).x && t.y == At(g, c).y
    ensures forall c :: InBounds(g, c) && !InSquare(c, cx, cy, r) ==>
      At(Protect(g, cx, cy, r), c) == At(g, c)
  {
  }

  /// Protecting keeps the map well formed.
  lemma ProtectWellFormed(g: Grid, width: int, height: int, cx: int, cy: int, r: int)
    requires WellFormed(g, width, height)
    ensures WellFormed(Protect(g, cx, cy, r), width, height)
  {
  }

  /// Protecting the same square twice is the same as protecting it once.
  lemma ProtectIdempotent(g: Grid, cx: int, cy: int, r: int)
    ensures Protect(Protect(g, cx, cy, r), cx, cy, r) == Protect(g, cx, cy, r)
  {
    var p := Protect(g, cx, cy, r);
    GridExt(Protect(p, cx, cy, r), p);
  }

  // ---------------------------------------------------------------------------
  // isAreaClear

  /// Every tile of the `(2r+1) x (2r+1)` square around `(cx, cy)` exists and is open.
  ghost predicate AreaClear(g: Grid, cx: int, cy: int, r: int) {
    forall y, x :: cy - r <= y <= cy + r && cx - r <= x <= cx + r ==> Eligible(g, Cell(x, y))
  }

  /// A clear square lies wholly inside the map, so a square that overlaps the
  /// map edge is never clear.
  lemma AreaClearInside(g: Grid, width: int, height: int, cx: int, cy: int, r: int)
    requires WellFormed(g, width, height)
    requires r >= 0 && AreaClear(g, cx, cy, r)
    ensures 0 <= cx - r && cx + r < width && 0 <= cy - r && cy + r < height
  {
    assert Eligible(g, Cell(cx - r, cy - r));
    assert Eligible(g, Cell(cx + r, cy + r));
  }

  // ---------------------------------------------------------------------------
  // The placement passes

  /// The only thing a placement pass may do to a tile: leave it alone, or give an
  /// open tile one of `kinds`, keeping its coordinate and its protection.
  predicate FillStep(t: Tile, t': Tile, kinds: set<TileType>) {
    t' == t || (Open(t) && t'.kind in kinds && t' == t.(kind := t'.kind))
  }

  ghost predicate Fills(g: Grid, g': Grid, kinds: set<TileType>) {
    SameShape(g, g') && forall c :: InBounds(g, c) ==> FillStep(At(g, c), At(g', c), kinds)
  }

  lemma FillsReflexive(g: Grid, kinds: set<TileType>)
    ensures Fills(g, g, kinds)
  {
  }

  /// Placement passes compose.
  lemma FillsTransitive(a: Grid, b: Grid, c: Grid, k1: set<TileType>, k2: set<TileType>)
    requires Fills(a, b, k1) && Fills(b, c, k2)
    ensures Fills(a, c, k1 + k2)
  {
    forall d | InBounds(a, d) ensures FillStep(At(a, d), At(c, d), k1 + k2) {
      assert InBounds(b, d);
    }
  }

  /// A placement pass never alters a protected tile, nor any tile that is not
  /// open grass, and keeps the map well formed.
  lemma FillsKeepProtected(g: Grid, g': Grid, kinds: set<TileType>, width: int, height: int)
    requires Fills(g, g', kinds) && WellFormed(g, width, height)
    ensures WellFormed(g', width, height)
    ensures forall c :: InBounds(g, c) && !Open(At(g, c)) ==> InBounds(g', c) && At(g', c) == At(g, c)
  {
    forall y, x | 0 <= y < |g'| && 0 <= x < |g'[y]| ensures g'[y][x].x == x && g'[y][x].y == y {
      assert InBounds(g, Cell(x, y));
    }
  }

  /// A tile that is open after a placement pass was open before it; so a square
  /// that is clear after the pass was clear before it.
  lemma {:induction false} FillsAreaClear(g: Grid, g': Grid, kinds: set<TileType>, cx: int, cy: int, r: int)
    requires Fills(g, g', kinds)
    requires AreaClear(g', cx, cy, r)
    ensures AreaClear(g, cx, cy, r)
  {
    forall y, x | cy - r <= y <= cy + r && cx - r <= x <= cx + r ensures Eligible(g, Cell(x, y)) {
      assert Eligible(g', Cell(x, y));
    }
  }

  // ---------------------------------------------------------------------------
  // fillCluster

  /// The four cells `fillCluster` enqueues after a placement, in push order.
  function Neighbour(c: Cell, d: int): Cell {
    if d == 0 then Cell(c.x + 1, c.y)
    else if d == 1 then Cell(c.x - 1, c.y)
    else if d == 2 then Cell(c.x, c.y + 1)
    else Cell(c.x, c.y - 1)
  }

  /// 4-adjacency.
  predicate Adjacent(a: Cell, b: Cell) {
    (a.x == b.x && (a.y == b.y + 1 || a.y + 1 == b.y)) ||
    (a.y == b.y && (a.x == b.x + 1 || a.x + 1 == b.x))
  }

  /// `order` starts at the seed and every later cell touches an earlier one, so
  /// the set of its cells is 4-connected and contains the seed.
  ghost predicate Grown(order: seq<Cell>, seed: Cell) {
    && (|order| > 0 ==> order[0] == seed)
    && forall k :: 0 < k < |order| ==> exists j :: 0 <= j < k && Adjacent(order[k], order[j])
  }

  /// `g'` is `g` after `fillCluster(seed.x, seed.y, kind, size)` placed `order`,
  /// in that order:
  /// at most `size` placements, each on a distinct tile that was open and now holds
  /// `kind`; every other tile unchanged; the placed tiles grow from the seed; an
  /// open seed with a positive size is placed; and unless the size was reached,
  /// every neighbour of a placed tile is placed or was not open.
  ghost predicate ClusterFill(g: Grid, g': Grid, seed: Cell, kind: TileType, size: int, order: seq<Cell>) {
    && SameShape(g, g')
    && (|order| == 0 || |order| <= size)
    && (forall i, j :: 0 <= i < j < |order| ==> order[i] != order[j])
    && (forall k :: 0 <= k < |order| ==>
          Eligible(g, order[k]) && InBounds(g', order[k]) && At(g', order[k]) == At(g, order[k]).(kind := kind))
    && (forall c :: InBounds(g, c) && c !in order ==> InBounds(g', c) && At(g', c) == At(g, c))
    && Grown(order, seed)
    && (Eligible(g, seed) && size > 0 ==> |order| > 0)
    && (|order| < size ==>
          forall k, d :: 0 <= k < |order| && 0 <= d < 4 ==>
            Neighbour(order[k], d) in order || !Eligible(g, Neighbour(order[k], d)))
  }

  /// `g'` is `g` after some run of `fillCluster(seed.x, seed.y, kind, size)`.
  ghost predicate ClusterFilled(g: Grid, g': Grid, seed: Cell, kind: TileType, size: int) {
    exists order :: ClusterFill(g, g', seed, kind, size, order)
  }

  /// The loop invariant of `fillCluster`'s queue loop, started from map `g0` and
  /// now at map `g`: `queue` is the FIFO queue, `visited` the visited set, `order`
  /// the placements so far. `from[i]` is the index in `order` of the placement
  /// that enqueued `queue[i]` (-1 for the seed), and `parent[k]` the index of an
  /// earlier placement that `order[k]` touches.
  ghost predicate FillInv(g0: Grid, g: Grid, seed: Cell, kind: TileType, size: int,
                          queue: seq<Cell>, from: seq<int>, visited: set<Cell>,
                          order: seq<Cell>, parent: seq<int>)
  {
    && FillMap(g0, g, kind, visited, order)
    && FillTree(seed, size, order, parent)
    && FillFrontier(seed, queue, from, visited, order)
  }

  /// The map part: placements are distinct visited open tiles that now hold
  /// `kind`, all other tiles are unchanged, and a visited tile that was not placed
  /// was not open.
  ghost predicate FillMap(g0: Grid, g: Grid, kind: TileType, visited: set<Cell>, order: seq<Cell>) {
    && SameShape(g0, g)
    && (forall i, j :: 0 <= i < j < |order| ==> order[i] != order[j])
    && (forall k :: 0 <= k < |order| ==> order[k] in visited)
    && (forall k :: 0 <= k < |order| ==>
          Eligible(g0, order[k]) && InBounds(g, order[k]) && At(g, order[k]) == At(g0, order[k]).(kind := kind))
    && (forall c :: InBounds(g0, c) && c !in order ==> InBounds(g, c) && At(g, c) == At(g0, c))
    && (forall c :: c in visited && c !in order ==> !Eligible(g0, c))
  }

  /// The growth part: at most `size` placements, the first at the seed, each later
  /// one touching an earlier one.
  ghost predicate FillTree(seed: Cell, size: int, order: seq<Cell>, parent: seq<int>) {
    && |parent| == |order|
    && (|order| == 0 || |order| <= size)
    && (|order| > 0 ==> order[0] == seed)
    && (forall k :: 0 < k < |order| ==> 0 <= parent[k] < k && Adjacent(order[k], order[parent[k]]))
  }

  /// The queue part: each queued cell is the seed or touches a placement; the seed
  /// was visited or is queued; each neighbour of a placement was visited or is queued.
  ghost predicate FillFrontier(seed: Cell, queue: seq<Cell>, from: seq<int>, visited: set<Cell>, order: seq<Cell>) {
    && |from| == |queue|
    && (forall i :: 0 <= i < |queue| ==>
          (from[i] == -1 && queue[i] == seed) || (0 <= from[i] < |order| && Adjacent(queue[i], order[from[i]])))
    && (seed in visited || seed in queue)
    && (forall k, d :: 0 <= k < |order| && 0 <= d < 4 ==>
          Neighbour(order[k], d) in visited || Neighbour(order[k], d) in queue)
  }

  lemma FillStart(g: Grid, seed: Cell, kind: TileType, size: int)
    ensures FillInv(g, g, seed, kind, size, [seed], [-1], {}, [], [])
  {
  }

  /// Dequeuing a cell that was visited before, or that is not open, places nothing.
  lemma FillPop(g0: Grid, g: Grid, seed: Cell, kind: TileType, size: int,
                queue: seq<Cell>, from: seq<int>, visited: set<Cell>, order: seq<Cell>, parent: seq<int>)
    requires FillInv(g0, g, seed, kind, size, queue, from, visited, order, parent)
    requires |queue| > 0 && (queue[0] in visited || !Eligible(g, queue[0]))
    ensures FillInv(g0, g, seed, kind, size, queue[1..], from[1..], visited + {queue[0]}, order, parent)
  {
    FillPopMap(g0, g, kind, visited, order, queue[0]);
    FillPopFrontier(seed, queue, from, visited, order);
  }

  lemma FillPopMap(g0: Grid, g: Grid, kind: TileType, visited: set<Cell>, order: seq<Cell>, c: Cell)
    requires FillMap(g0, g, kind, visited, order)
    requires c in visited || !Eligible(g, c)
    ensures FillMap(g0, g, kind, visited + {c}, order)
  {
    if c !in visited && c !in order {
      assert InBounds(g0, c) ==> At(g, c) == At(g0, c);
    }
  }

  lemma FillPopFrontier(seed: Cell, queue: seq<Cell>, from: seq<int>, visited: set<Cell>, order: seq<Cell>)
    requires FillFrontier(seed, queue, from, visited, order) && |queue| > 0
    ensures FillFrontier(seed, queue[1..], from[1..], visited + {queue[0]}, order)
  {
    assert forall e :: e in queue ==> e == queue[0] || e in queue[1..];
  }

  /// Dequeuing an unvisited open cell `c` places `kind` on it and enqueues its four
  /// neighbours; `g'`, `queue'`, `from'`, `order'` and `parent'` are the new values.
  lemma FillPlace(g0: Grid, g: Grid, seed: Cell, kind: TileType, size: int,
                  queue: seq<Cell>, from: seq<int>, visited: set<Cell>, order: seq<Cell>, parent: seq<int>,
                  c: Cell, g': Grid, queue': seq<Cell>, from': seq<int>, order': seq<Cell>, parent': seq<int>)
    requires FillInv(g0, g, seed, kind, size, queue, from, visited, order, parent)
    requires |queue| > 0 && c == queue[0] && c !in visited && Eligible(g, c) && |order| < size
    requires g' == SetTile(g, c, At(g, c).(kind := kind))
    requires queue' == queue[1..] + [Cell(c.x + 1, c.y), Cell(c.x - 1, c.y), Cell(c.x, c.y + 1), Cell(c.x, c.y - 1)]
    requires from' == from[1..] + [|order|, |order|, |order|, |order|]
    requires order' == order + [c]
    requires parent' == parent + [if |order| > 0 then from[0] else 0]
    ensures FillInv(g0, g', seed, kind, size, queue', from', visited + {c}, order', parent')
  {
    FillPlaceMap(g0, g, seed, kind, size, queue, from, visited, order, parent, c, g', order');
    FillPlaceTree(g0, g, seed, kind, size, queue, from, visited, order, parent, c, order', parent');
    FillPlaceFrontier(g0, g, seed, kind, size, queue, from, visited, order, parent, c, queue', from', order');
  }

  lemma FillPlaceMap(g0: Grid, g: Grid, seed: Cell, kind: TileType, size: int,
                     queue: seq<Cell>, from: seq<int>, visited: set<Cell>, order: seq<Cell>, parent: seq<int>,
                     c: Cell, g': Grid, order': seq<Cell>)
    requires FillInv(g0, g, seed, kind, size, queue, from, visited, order, parent)
    requires |queue| > 0 && c == queue[0] && c !in visited && Eligible(g, c)
    requires g' == SetTile(g, c, At(g, c).(kind := kind))
    requires order' == order + [c]
    ensures FillMap(g0, g', kind, visited + {c}, order')
  {
    assert c !in order;
  }

  lemma FillPlaceTree(g0: Grid, g: Grid, seed: Cell, kind: TileType, size: int,
                      queue: seq<Cell>, from: seq<int>, visited: set<Cell>, order: seq<Cell>, parent: seq<int>,
                      c: Cell, order': seq<Cell>, parent': seq<int>)
    requires FillInv(g0, g, seed, kind, size, queue, from, visited, order, parent)
    requires |queue| > 0 && c == queue[0] && c !in visited && |order| < size
    requires order' == order + [c]
    requires parent' == parent + [if |order| > 0 then from[0] else 0]
    ensures FillTree(seed, size, order', parent')
  {
    if |order| > 0 {
      assert c != seed;
    }
  }

  lemma FillPlaceFrontier(g0: Grid, g: Grid, seed: Cell, kind: TileType, size: int,
                          queue: seq<Cell>, from: seq<int>, visited: set<Cell>, order: seq<Cell>, parent: seq<int>,
                          c: Cell, queue': seq<Cell>, from': seq<int>, order': seq<Cell>)
    requires FillInv(g0, g, seed, kind, size, queue, from, visited, order, parent)
    requires |queue| > 0 && c == queue[0] && c !in visited
    requires queue' == queue[1..] + [Cell(c.x + 1, c.y), Cell(c.x - 1, c.y), Cell(c.x, c.y + 1), Cell(c.x, c.y - 1)]
    requires from' == from[1..] + [|order|, |order|, |order|, |order|]
    requires order' == order + [c]
    ensures FillFrontier(seed, queue', from', visited + {c}, order')
  {
    assert forall e :: e in queue ==> e == c || e in queue[1..];
    forall k, d | 0 <= k < |order'| && 0 <= d < 4
      ensures Neighbour(order'[k], d) in visited + {c} || Neighbour(order'[k], d) in queue'
    {
      if k == |order| {
        assert Neighbour(c, d) == queue'[|queue| - 1 + d];
      }
    }
  }

  /// When the loop stops, the placements form a cluster fill.
  lemma FillDone(g0: Grid, g: Grid, seed: Cell, kind: TileType, size: int,
                 queue: seq<Cell>, from: seq<int>, visited: set<Cell>, order: seq<Cell>, parent: seq<int>)
    requires FillInv(g0, g, seed, kind, size, queue, from, visited, order, parent)
    requires |order| >= size || |queue| == 0
    ensures ClusterFill(g0, g, seed, kind, size, order)
  {
    forall k | 0 < k < |order| ensures exists j :: 0 <= j < k && Adjacent(order[k], order[j]) {
      assert Adjacent(order[k], order[parent[k]]);
    }
  }

  /// A cluster fill is a placement pass of `kind`.
  lemma ClusterFillFills(g: Grid, g': Grid, seed: Cell, kind: TileType, size: int, order: seq<Cell>)
    requires ClusterFill(g, g', seed, kind, size, order)
    ensures Fills(g, g', {kind})
  {
    forall c | InBounds(g, c) ensures FillStep(At(g, c), At(g', c), {kind}) {
      if c in order {
        var k :| 0 <= k < |order| && order[k] == c;
      }
    }
  }

  /// The same for a fill whose placement record is not at hand.
  lemma ClusterFilledFills(g: Grid, g': Grid, seed: Cell, kind: TileType, size: int)
    requires ClusterFilled(g, g', seed, kind, size)
    ensures Fills(g, g', {kind})
  {
    var order :| ClusterFill(g, g', seed, kind, size, order);
    ClusterFillFills(g, g', seed, kind, size, order);
  }

  /// A fill from an open seed with a positive size gives the seed `kind`.
  lemma ClusterFilledPlacesSeed(g: Grid, g': Grid, seed: Cell, kind: TileType, size: int)
    requires ClusterFilled(g, g', seed, kind, size)
    requires Eligible(g, seed) && size > 0
    ensures InBounds(g', seed) && At(g', seed).kind == kind
  {
    var order :| ClusterFill(g, g', seed, kind, size, order);
    assert order[0] == seed;
  }

  /// A fill from a seed that is off the map, not grass, or protected changes nothing.
  lemma ClusterIneligibleSeed(g: Grid, g': Grid, seed: Cell, kind: TileType, size: int, order: seq<Cell>)
    requires ClusterFill(g, g', seed, kind, size, order)
    requires !Eligible(g, seed)
    ensures order == [] && g' == g
  {
    forall c | InBounds(g, c) ensures At(g, c) == At(g', c) { }
    GridExt(g, g');
  }

  /// The tiles a pass changed.
  ghost function Changed(g: Grid, g': Grid): set<Cell>
    requires SameShape(g, g')
  {
    set y, x | 0 <= y < |g| && 0 <= x < |g[y]| && g'[y][x] != g[y][x] :: Cell(x, y)
  }

  lemma {:induction false} ElementsBound(s: seq<Cell>)
    ensures |set c | c in s| <= |s|
  {
    if s != [] {
      ElementsBound(s[1..]);
      assert (set c | c in s) == (set c | c in s[1..]) + {s[0]};
    }
  }

  /// A cluster fill changes at most `size` tiles.
  lemma ClusterChangesAtMostSize(g: Grid, g': Grid, seed: Cell, kind: TileType, size: int, order: seq<Cell>)
    requires ClusterFill(g, g', seed, kind, size, order)
    ensures |Changed(g, g')| <= |order|
    ensures size <= 0 ==> Changed(g, g') == {}
    ensures size > 0 ==> |Changed(g, g')| <= size
  {
    var placedSet := set c | c in order;
    forall c | c in Changed(g, g') ensures c in placedSet {
      assert InBounds(g, c);
    }
    ElementsBound(order);
    SubsetCard(Changed(g, g'), placedSet);
  }

  /// The same for a fill whose placement record is not at hand: at most
  /// `size` tiles change, and none when `size <= 0`.
  lemma ClusterFilledChanges(g: Grid, g': Grid, seed: Cell, kind: TileType, size: int)
    requires ClusterFilled(g, g', seed, kind, size)
    ensures SameShape(g, g')
    ensures |Changed(g, g')| <= if size > 0 then size else 0
  {
    var order :| ClusterFill(g, g', seed, kind, size, order);
    ClusterChangesAtMostSize(g, g', seed, kind, size, order);
    if size <= 0 {
      assert Changed(g, g') == {};
    }
  }

  /// A tile changed from `a` to `c` changed from `a` to `b` or from `b` to `c`.
  lemma ChangedCompose(a: Grid, b: Grid, c: Grid)
    requires SameShape(a, b) && SameShape(b, c)
    ensures SameShape(a, c)
    ensures |Changed(a, c)| <= |Changed(a, b)| + |Changed(b, c)|
  {
    var ab, bc := Changed(a, b), Changed(b, c);
    forall d | d in Changed(a, c) ensures d in ab + bc {
      assert InBounds(a, d) && InBounds(b, d);
    }
    SubsetCard(Changed(a, c), ab + bc);
    assert |ab + bc| <= |ab| + |bc| by {
      assert ab + bc == ab + (bc - ab);
    }
  }

  lemma SubsetCard(a: set<Cell>, b: set<Cell>)
    requires a <= b
    ensures |a| <= |b|
  {
    assert b == a + (b - a);
  }
}
