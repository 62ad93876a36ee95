/// The `TileMap` class of src/systems/TileMap.js: a `height x width` map of
/// tiles, built once, then protected and seeded with resources in place, and
/// queried for walkability by units and the scene.
///
/// `Math.random` and the `cos`/`sin` seed points are inputs here: each pass is
/// given the cells its random draws produced.
module TileMapSystem {
  import opened TileGrid

  /// The five clusters `placeStartingResources` seeds around the town centre,
  /// as `(type, size)`, in order.
  const StartResources: seq<(TileType, int)> :=
    [(Stone, 4), (Gold, 4), (Food, 6), (Forest, 20), (Forest, 20)]

  /// `placeGlobalClusters` gives up after this many random seed points.
  const MaxAttempts := 500

  /// The half-width of the square that must be clear around a global seed.
  const ClearRadius := 8

  /// The four resource types.
  const ResourceKinds: set<TileType> := {Forest, Gold, Stone, Food}

  /// The four calls of `randomizeGlobalResources`, as `(type, count, clusterSize)`,
  /// in order.
  const GlobalPasses: seq<(TileType, int, int)> :=
    [(Gold, 15, 5), (Stone, 12, 4), (Food, 20, 8), (Forest, 40, 65)]

  /// `g'` is `g` after `placeStartingResources` grew cluster `i` of
  /// `StartResources` at `seeds[i]`, one after the other; `stages[i]` is the map
  /// before cluster `i`.
  ghost predicate StartingChain(g: Grid, g': Grid, seeds: seq<Cell>, stages: seq<Grid>) {
    && |seeds| == |StartResources| && |stages| == |StartResources| + 1
    && stages[0] == g && stages[|StartResources|] == g'
    && forall i :: 0 <= i < |StartResources| ==>
         ClusterFilled(stages[i], stages[i + 1], seeds[i], StartResources[i].0, StartResources[i].1)
  }

  ghost predicate StartingPlaced(g: Grid, g': Grid, seeds: seq<Cell>) {
    exists stages :: StartingChain(g, g', seeds, stages)
  }

  /// One attempt of `placeGlobalClusters` at the point `c`: `clear` is the
  /// `isAreaClear` test of the square of half-width `ClearRadius` around `c` on
  /// the map `h`; when it holds a cluster of `kind` is grown from `c`, giving
  /// `h'`, and otherwise the map is unchanged.
  ghost predicate Attempt(h: Grid, h': Grid, c: Cell, kind: TileType, clusterSize: int, clear: bool) {
    && (clear <==> AreaClear(h, c.x, c.y, ClearRadius))
    && if clear then ClusterFilled(h, h', c, kind, clusterSize) else h' == h
  }

  /// How many of the first `n` attempts found their square clear: the source's
  /// `placed` counter before attempt `n`.
  function Placed(clears: seq<bool>, n: nat): nat
    requires n <= |clears|
  {
    if n == 0 then 0 else Placed(clears, n - 1) + if clears[n - 1] then 1 else 0
  }

  /// The attempts of `placeGlobalClusters(kind, count, clusterSize)` so far, in
  /// order: attempt `i` draws the point `picks[i]`, finds it clear or not
  /// (`clears[i]`) on the map `trace[i]`, and leaves the map `trace[i + 1]`.
  /// The last attempt, and so every attempt, is made while fewer than `count`
  /// clusters are placed; each fills exactly when its square is clear at that
  /// moment.
  ghost predicate Attempts(g: Grid, g': Grid, kind: TileType, count: int, clusterSize: int,
                           picks: seq<Cell>, trace: seq<Grid>, clears: seq<bool>)
  {
    && |trace| == |clears| + 1 && |clears| <= MaxAttempts && |clears| <= |picks|
    && trace[0] == g && trace[|clears|] == g'
    && (|clears| == 0 || Placed(clears, |clears| - 1) < count)
    && forall i {:trigger clears[i]} :: 0 <= i < |clears| ==>
         Attempt(trace[i], trace[i + 1], picks[i], kind, clusterSize, clears[i])
  }

  /// A whole global pass: the attempts stop after `MaxAttempts` of them, or as
  /// soon as `count` clusters are placed.
  ghost predicate GlobalPass(g: Grid, g': Grid, kind: TileType, count: int, clusterSize: int,
                             picks: seq<Cell>, trace: seq<Grid>, clears: seq<bool>)
  {
    && Attempts(g, g', kind, count, clusterSize, picks, trace, clears)
    && (|clears| == MaxAttempts || Placed(clears, |clears|) >= count)
  }

  ghost predicate GlobalPlaced(g: Grid, g': Grid, kind: TileType, count: int, clusterSize: int, picks: seq<Cell>) {
    exists trace, clears :: GlobalPass(g, g', kind, count, clusterSize, picks, trace, clears)
  }

  /// `g'` is `g` after the four passes of `GlobalPasses`, pass `k` drawing its
  /// attempt points `picks[k]`; `stages[k]` is the map before pass `k`.
  ghost predicate GlobalChain(g: Grid, g': Grid, picks: seq<seq<Cell>>, stages: seq<Grid>) {
    && |picks| == |GlobalPasses| && |stages| == |GlobalPasses| + 1
    && stages[0] == g && stages[|GlobalPasses|] == g'
    && forall k :: 0 <= k < |GlobalPasses| ==>
         GlobalPlaced(stages[k], stages[k + 1], GlobalPasses[k].0, GlobalPasses[k].1, GlobalPasses[k].2, picks[k])
  }

  ghost predicate GlobalsPlaced(g: Grid, g': Grid, picks: seq<seq<Cell>>) {
    exists stages :: GlobalChain(g, g', picks, stages)
  }

  class TileMap {
    const width: nat
    const height: nat
    /// The side of one tile in world pixels.
    const tileSize: nat
    /// The source's `map` field (`map` is a keyword here).
    var tiles: Grid

    ghost predicate Valid()
      reads this
    {
      tileSize > 0 && WellFormed(tiles, width, height)
    }

    constructor (width: nat, height: nat, tileSize: nat)
      requires tileSize > 0
      ensures Valid()
      ensures this.width == width && this.height == height && this.tileSize == tileSize
      ensures tiles == FreshGrid(width, height)
    {
      this.width := width;
      this.height := height;
      this.tileSize := tileSize;
      tiles := [];
      new;
      GenerateMap();
    }

    /// Rebuilds the whole map: `height` rows of `width` tiles, tile `(x, y)` being
    /// unprotected grass that records its own coordinate.
    method GenerateMap()
      requires tileSize > 0
      modifies this
      ensures Valid()
      ensures tiles == FreshGrid(width, height)
      ensures forall y, x :: 0 <= y < height && 0 <= x < width ==> tiles[y][x] == Tile(x, y, Grass, false)
    {
      tiles := [];
      var y := 0;
      while y < height
        invariant 0 <= y <= height
        invariant |tiles| == y
        invariant forall i :: 0 <= i < y ==> tiles[i] == seq(width, x => Tile(x, i, Grass, false))
      {
        var row := [];
        var x := 0;
        while x < width
          invariant 0 <= x <= width
          invariant row == seq(x, j => Tile(j, y, Grass, false))
        {
          row := row + [Tile(x, y, Grass, false)];
          x := x + 1;
        }
        tiles := tiles + [row];
        y := y + 1;
      }
      FreshGridShape(width, height);
    }

    /// One random tree per pick: a pick that lands on open grass becomes forest.
    /// `picks` holds the `count` random cells the source draws, one per iteration.
    method PlaceSingleTrees(picks: seq<Cell>)
      requires Valid()
      modifies this
      ensures Valid()
      ensures Fills(old(tiles), tiles, {Forest})
      ensures forall c :: InBounds(old(tiles), c) ==>
        At(tiles, c) == if c in picks && Open(At(old(tiles), c)) then At(old(tiles), c).(kind := Forest) else At(old(tiles), c)
    {
      ghost var g0 := tiles;
      for i := 0 to |picks|
        invariant SameShape(g0, tiles)
        invariant forall c :: InBounds(g0, c) ==>
          At(tiles, c) == if c in picks[..i] && Open(At(g0, c)) then At(g0, c).(kind := Forest) else At(g0, c)
      {
        var c := picks[i];
        if InBounds(tiles, c) && At(tiles, c).kind == Grass && !At(tiles, c).protected {
          tiles := SetTile(tiles, c, At(tiles, c).(kind := Forest));
        }
        assert picks[..i + 1] == picks[..i] + [c];
      }
      assert picks[..|picks|] == picks;
      FillsKeepProtected(g0, tiles, {Forest}, width, height);
    }

    /// One cluster of each starting resource around the town centre `(tcX, tcY)`.
    /// `seeds` holds the five rounded points `tc + 6 * (cos a, sin a)` the source
    /// computes from its random angles, so each lies within 6 tiles of the centre.
    method PlaceStartingResources(tcX: int, tcY: int, seeds: seq<Cell>) returns (ghost stages: seq<Grid>)
      requires Valid()
      requires |seeds| == |StartResources|
      requires forall i :: 0 <= i < |seeds| ==> -6 <= seeds[i].x - tcX <= 6 && -6 <= seeds[i].y - tcY <= 6
      modifies this
      ensures Valid()
      ensures StartingChain(old(tiles), tiles, seeds, stages)
      ensures Fills(old(tiles), tiles, ResourceKinds)
    {
      ghost var g0 := tiles;
      FillsReflexive(g0, ResourceKinds);
      stages := [tiles];
      for i := 0 to |StartResources|
        invariant Valid()
        invariant Fills(g0, tiles, ResourceKinds)
        invariant |stages| == i + 1 && stages[0] == g0 && stages[i] == tiles
        invariant forall j :: 0 <= j < i ==>
          ClusterFilled(stages[j], stages[j + 1], seeds[j], StartResources[j].0, StartResources[j].1)
      {
        var (kind, size) := StartResources[i];
        ghost var before := tiles;
        ghost var order := FillCluster(seeds[i].x, seeds[i].y, kind, size);
        assert ClusterFill(before, tiles, seeds[i], kind, size, order);
        ClusterFillFills(before, tiles, Cell(seeds[i].x, seeds[i].y), kind, size, order);
        FillsTransitive(g0, before, tiles, ResourceKinds, {kind});
        assert ResourceKinds + {kind} == ResourceKinds;
        stages := stages + [tiles];
      }
    }

    /// The global pass: gold, stone, food and forest clusters, in that order.
    /// `picks[k]` holds the random seed points drawn for the k-th of those calls.
    method RandomizeGlobalResources(picks: seq<seq<Cell>>) returns (ghost stages: seq<Grid>)
      requires Valid()
      requires |picks| == 4 && forall k :: 0 <= k < 4 ==> |picks[k]| == MaxAttempts
      modifies this
      ensures Valid()
      ensures GlobalChain(old(tiles), tiles, picks, stages)
      ensures Fills(old(tiles), tiles, ResourceKinds)
    {
      ghost var g0 := tiles;
      ghost var trace, clears := PlaceGlobalClusters(Gold, 15, 5, picks[0]);
      ghost var g1 := tiles;
      assert GlobalPlaced(g0, g1, Gold, 15, 5, picks[0]);
      trace, clears := PlaceGlobalClusters(Stone, 12, 4, picks[1]);
      ghost var g2 := tiles;
      assert GlobalPlaced(g1, g2, Stone, 12, 4, picks[1]);
      FillsTransitive(g0, g1, g2, {Gold}, {Stone});
      trace, clears := PlaceGlobalClusters(Food, 20, 8, picks[2]);
      ghost var g3 := tiles;
      assert GlobalPlaced(g2, g3, Food, 20, 8, picks[2]);
      FillsTransitive(g0, g2, g3, {Gold, Stone}, {Food});
      trace, clears := PlaceGlobalClusters(Forest, 40, 65, picks[3]);
      assert GlobalPlaced(g3, tiles, Forest, 40, 65, picks[3]);
      FillsTransitive(g0, g3, tiles, {Gold, Stone, Food}, {Forest});
      assert {Gold, Stone, Food} + {Forest} == ResourceKinds;
      stages := [g0, g1, g2, g3, tiles];
    }

    /// Up to `count` clusters of `kind` at random seed points, trying at most
    /// `MaxAttempts` points and filling only where the square of half-width
    /// `ClearRadius` around the point is clear. `picks[i]` is the point of attempt
    /// `i`; `trace` records the map before each attempt and after the last, and
    /// `clears` the outcome of each clearness test.
    method PlaceGlobalClusters(kind: TileType, count: int, clusterSize: int, picks: seq<Cell>)
      returns (ghost trace: seq<Grid>, ghost clears: seq<bool>)
      requires Valid()
      requires |picks| == MaxAttempts
      modifies this
      ensures Valid()
      ensures GlobalPass(old(tiles), tiles, kind, count, clusterSize, picks, trace, clears)
      ensures Fills(old(tiles), tiles, {kind})
    {
      ghost var g0 := tiles;
      trace, clears := [tiles], [];
      var placed := 0;
      var i := 0;
      while i < MaxAttempts && placed < count
        invariant i == |clears| && Valid()
        invariant Attempts(g0, tiles, kind, count, clusterSize, picks, trace, clears)
        invariant placed == Placed(clears, i)
      {
        var clear := TryCluster(picks[i].x, picks[i].y, kind, clusterSize);
        if clear {
          placed := placed + 1;
        }
        GlobalPassStep(g0, tiles, kind, count, clusterSize, picks, trace, clears, clear);
        trace, clears := trace + [tiles], clears + [clear];
        i := i + 1;
      }
      GlobalPassEffect(g0, tiles, kind, count, clusterSize, picks, trace, clears);
    }

    /// One attempt of `placeGlobalClusters`: a cluster is grown at `(x, y)` exactly
    /// when the square around it is clear.
    method TryCluster(x: int, y: int, kind: TileType, clusterSize: int) returns (clear: bool)
      requires Valid()
      modifies this
      ensures Valid()
      ensures Attempt(old(tiles), tiles, Cell(x, y), kind, clusterSize, clear)
    {
      clear := IsAreaClear(x, y, ClearRadius);
      if clear {
        ghost var before := tiles;
        ghost var order := FillCluster(x, y, kind, clusterSize);
        assert ClusterFill(before, tiles, Cell(x, y), kind, clusterSize, order);
      }
    }

    /// Flood fill from `(startX, startY)`: a FIFO queue of cells, a visited set and
    /// a placement counter. A dequeued cell not seen before that is open grass is
    /// given `kind` and its four neighbours are enqueued; the fill stops after
    /// `size` placements or when the queue runs dry. `order` is the ghost record of
    /// the placements.
    method FillCluster(startX: int, startY: int, kind: TileType, size: int)
      returns (ghost order: seq<Cell>)
      requires Valid()
      modifies this
      ensures Valid()
      ensures ClusterFill(old(tiles), tiles, Cell(startX, startY), kind, size, order)
    {
      ghost var g0 := tiles;
      var queue := [Cell(startX, startY)];
      var placed := 0;
      var visited: set<Cell> := {};
      order := [];
      // The ghost bookkeeping of `FillInv`: who enqueued each queued cell, and an
      // earlier placement that each placement touches.
      ghost var from: seq<int> := [-1];
      ghost var parent: seq<int> := [];
      FillStart(g0, Cell(startX, startY), kind, size);
      while placed < size && |queue| > 0
        invariant Valid()
        invariant placed == |order|
        invariant FillInv(g0, tiles, Cell(startX, startY), kind, size, queue, from, visited, order, parent)
        decreases 4 * (size - placed) + |queue|
      {
        var c := queue[0];
        if c in visited {
          FillPop(g0, tiles, Cell(startX, startY), kind, size, queue, from, visited, order, parent);
          queue, from := queue[1..], from[1..];
          continue;
        }
        if InBounds(tiles, c) && At(tiles, c).kind == Grass && !At(tiles, c).protected {
          ghost var tiles' := SetTile(tiles, c, At(tiles, c).(kind := kind));
          ghost var queue' := queue[1..] + [Cell(c.x + 1, c.y), Cell(c.x - 1, c.y), Cell(c.x, c.y + 1), Cell(c.x, c.y - 1)];
          ghost var from' := from[1..] + [|order|, |order|, |order|, |order|];
          ghost var parent' := parent + [if |order| > 0 then from[0] else 0];
          FillPlace(g0, tiles, Cell(startX, startY), kind, size, queue, from, visited, order, parent,
                    c, tiles', queue', from', order + [c], parent');
          SetTileWellFormed(tiles, c, At(tiles, c).(kind := kind), width, height);
          from, parent := from', parent';
          tiles := SetTile(tiles, c, At(tiles, c).(kind := kind));
          order := order + [c];
          placed := placed + 1;
          queue := queue[1..] + [Cell(c.x + 1, c.y), Cell(c.x - 1, c.y), Cell(c.x, c.y + 1), Cell(c.x, c.y - 1)];
        } else {
          FillPop(g0, tiles, Cell(startX, startY), kind, size, queue, from, visited, order, parent);
          queue, from := queue[1..], from[1..];
        }
        visited := visited + {c};
      }
      FillDone(g0, tiles, Cell(startX, startY), kind, size, queue, from, visited, order, parent);
    }

    /// Whether every tile of the `(2r+1) x (2r+1)` square around `(targetX, targetY)`
    /// exists and is open grass; scans row by row and stops at the first tile that
    /// is not.
    method IsAreaClear(targetX: int, targetY: int, radius: int) returns (clear: bool)
      ensures clear <==> AreaClear(tiles, targetX, targetY, radius)
    {
      var y := targetY - radius;
      while y <= targetY + radius
        invariant y >= targetY - radius
        invariant forall yy, xx :: targetY - radius <= yy < y && targetX - radius <= xx <= targetX + radius ==>
          Eligible(tiles, Cell(xx, yy))
      {
        var x := targetX - radius;
        while x <= targetX + radius
          invariant x >= targetX - radius
          invariant forall yy, xx :: targetY - radius <= yy < y && targetX - radius <= xx <= targetX + radius ==>
            Eligible(tiles, Cell(xx, yy))
          invariant forall xx :: targetX - radius <= xx < x ==> Eligible(tiles, Cell(xx, y))
        {
          var c := Cell(x, y);
          if !InBounds(tiles, c) || At(tiles, c).kind != Grass || At(tiles, c).protected {
            return false;
          }
          x := x + 1;
        }
        y := y + 1;
      }
      return true;
    }

    /// Makes every tile of the square of half-width `radius` around `(tileX, tileY)`
    /// that lies on the tiles protected grass; tiles off the tiles are skipped.
    method ProtectArea(tileX: int, tileY: int, radius: int)
      requires Valid()
      modifies this
      ensures Valid()
      ensures tiles == Protect(old(tiles), tileX, tileY, radius)
    {
      ghost var g0 := tiles;
      var y := tileY - radius;
      while y <= tileY + radius
        invariant y >= tileY - radius
        invariant SameShape(g0, tiles)
        invariant forall c :: InBounds(g0, c) ==>
          At(tiles, c) == if InSquare(c, tileX, tileY, radius) && c.y < y then ProtectTile(At(g0, c)) else At(g0, c)
      {
        var x := tileX - radius;
        while x <= tileX + radius
          invariant x >= tileX - radius
          invariant SameShape(g0, tiles)
          invariant forall c :: InBounds(g0, c) ==>
            At(tiles, c) == if InSquare(c, tileX, tileY, radius) && (c.y < y || (c.y == y && c.x < x))
                          then ProtectTile(At(g0, c)) else At(g0, c)
        {
          var c := Cell(x, y);
          if InBounds(tiles, c) {
            tiles := SetTile(tiles, c, At(tiles, c).(protected := true, kind := Grass));
          }
          x := x + 1;
        }
        y := y + 1;
      }
      ProtectAreaEffect(g0, tileX, tileY, radius);
      GridExt(tiles, Protect(g0, tileX, tileY, radius));
      forall yy, xx | 0 <= yy < |tiles| && 0 <= xx < |tiles[yy]| ensures tiles[yy][xx].x == xx && tiles[yy][xx].y == yy {
        assert InBounds(g0, Cell(xx, yy));
      }
    }

    /// The tile under world point `(x, y)`: the one whose `tileSize`-wide square
    /// holds the point.
    function WorldToTile(x: real, y: real): (t: Cell)
      requires tileSize > 0
      reads this
      ensures t.x as real * tileSize as real <= x < (t.x as real + 1.0) * tileSize as real
      ensures t.y as real * tileSize as real <= y < (t.y as real + 1.0) * tileSize as real
    {
      FloorDiv(x, tileSize as real);
      FloorDiv(y, tileSize as real);
      Cell((x / tileSize as real).Floor, (y / tileSize as real).Floor)
    }

    /// Whether a unit may stand on tile `(tx, ty)`: false off the tiles, and on the
    /// tiles true exactly for grass, so resources and buildings block.
    function IsWalkableTile(tx: int, ty: int): (walkable: bool)
      requires Valid()
      reads this
      ensures walkable ==> 0 <= tx < width && 0 <= ty < height
      ensures 0 <= tx < width && 0 <= ty < height ==> (walkable <==> tiles[ty][tx].kind == Grass)
    {
      if ty < 0 || ty >= height || tx < 0 || tx >= width then false
      else tiles[ty][tx].kind == Grass
    }

    /// Whether a unit may stand at world point `(x, y)`: the point lies on the tiles's
    /// `width * tileSize` by `height * tileSize` area and its tile is grass.
    function IsWalkableWorld(x: real, y: real): (walkable: bool)
      requires Valid()
      reads this
      ensures walkable ==> 0.0 <= x < width as real * tileSize as real && 0.0 <= y < height as real * tileSize as real
      ensures walkable <==> InBounds(tiles, WorldToTile(x, y)) && At(tiles, WorldToTile(x, y)).kind == Grass
    {
      var t := WorldToTile(x, y);
      var walkable := IsWalkableTile(t.x, t.y);
      assert walkable ==> 0.0 <= x < width as real * tileSize as real && 0.0 <= y < height as real * tileSize as real by {
        if walkable {
          TileSpan(t.x, width, tileSize as real, x);
          TileSpan(t.y, height, tileSize as real, y);
        }
      }
      walkable
    }
  }

  /// `Math.floor(v / s)` brackets `v` between two multiples of `s`.
  lemma FloorDiv(v: real, s: real)
    requires s > 0.0
    ensures (v / s).Floor as real * s <= v < ((v / s).Floor as real + 1.0) * s
  {
    var q := v / s;
    var f := q.Floor as real;
    var g := f + 1.0;
    assert q * s == v;
    assert f * s <= q * s < g * s;
    calc {
      v;
      q * s;
    < g * s;
    }
  }

  /// A point inside the square of tile `t`, with `0 <= t < n`, lies in `[0, n * s)`.
  lemma TileSpan(t: int, n: nat, s: real, v: real)
    requires 0 <= t < n && s > 0.0
    requires t as real * s <= v < (t as real + 1.0) * s
    ensures 0.0 <= v < n as real * s
  {
    var a := t as real + 1.0;
    assert 0.0 <= t as real * s;
    assert a <= n as real;
    calc {
      v;
    < a * s;
    <= n as real * s;
    }
  }

  /// The starting clusters only fill open tiles with resources.
  lemma StartingChainFills(g: Grid, g': Grid, seeds: seq<Cell>, stages: seq<Grid>)
    requires StartingChain(g, g', seeds, stages)
    ensures Fills(g, g', ResourceKinds)
  {
    StartingPrefixFills(g, g', seeds, stages, |StartResources|);
  }

  lemma {:induction false} StartingPrefixFills(g: Grid, g': Grid, seeds: seq<Cell>, stages: seq<Grid>, n: nat)
    requires StartingChain(g, g', seeds, stages)
    requires n <= |StartResources|
    ensures Fills(stages[0], stages[n], ResourceKinds)
  {
    if n == 0 {
      FillsReflexive(stages[0], ResourceKinds);
    } else {
      StartingPrefixFills(g, g', seeds, stages, n - 1);
      var (kind, size) := StartResources[n - 1];
      ClusterFilledFills(stages[n - 1], stages[n], seeds[n - 1], kind, size);
      FillsTransitive(stages[0], stages[n - 1], stages[n], ResourceKinds, {kind});
      assert ResourceKinds + {kind} == ResourceKinds;
    }
  }

  /// A global pass, complete or not, only fills open tiles with its own kind,
  /// and changes at most `clusterSize` tiles per cluster placed, so at most
  /// `count * clusterSize` tiles.
  lemma GlobalPassEffect(g: Grid, g': Grid, kind: TileType, count: int, clusterSize: int,
                         picks: seq<Cell>, trace: seq<Grid>, clears: seq<bool>)
    requires Attempts(g, g', kind, count, clusterSize, picks, trace, clears)
    ensures Fills(g, g', {kind})
    ensures |Changed(g, g')| <= Placed(clears, |clears|) * (if clusterSize > 0 then clusterSize else 0)
    ensures count >= 0 && clusterSize >= 0 ==> |Changed(g, g')| <= count * clusterSize
  {
    AttemptsSteps(g, g', kind, count, clusterSize, picks, trace, clears);
    GlobalSegment(trace, clears, kind, clusterSize, 0, |clears|);
    GlobalPrefixChanged(trace, clears, kind, clusterSize, |clears|);
    PlacedAtMostCount(clears, count);
    if count >= 0 && clusterSize >= 0 {
      MulMono(Placed(clears, |clears|), count, clusterSize);
    }
  }

  /// The counter never passes `count` when every attempt was made below it.
  lemma PlacedAtMostCount(clears: seq<bool>, count: int)
    requires |clears| == 0 || Placed(clears, |clears| - 1) < count
    ensures count >= 0 ==> Placed(clears, |clears|) <= count
  {
  }

  /// One more attempt, made while fewer than `count` clusters are placed,
  /// extends the record of a pass; the counter grows exactly when the square
  /// was clear.
  lemma GlobalPassStep(g: Grid, h': Grid, kind: TileType, count: int, clusterSize: int,
                       picks: seq<Cell>, trace: seq<Grid>, clears: seq<bool>, clear: bool)
    requires |trace| == |clears| + 1
    requires Attempts(g, trace[|clears|], kind, count, clusterSize, picks, trace, clears)
    requires |clears| < MaxAttempts && |clears| < |picks| && Placed(clears, |clears|) < count
    requires Attempt(trace[|clears|], h', picks[|clears|], kind, clusterSize, clear)
    ensures Attempts(g, h', kind, count, clusterSize, picks, trace + [h'], clears + [clear])
    ensures Placed(clears + [clear], |clears| + 1) == Placed(clears, |clears|) + if clear then 1 else 0
  {
    var trace', clears' := trace + [h'], clears + [clear];
    PlacedExtend(clears, clear, |clears|);
    forall i | 0 <= i < |clears'|
      ensures Attempt(trace'[i], trace'[i + 1], picks[i], kind, clusterSize, clears'[i])
    {
      if i < |clears| {
        assert trace'[i] == trace[i] && trace'[i + 1] == trace[i + 1] && clears'[i] == clears[i];
      }
    }
  }

  /// The counter before attempt `n` does not look at later attempts.
  lemma {:induction false} PlacedExtend(clears: seq<bool>, b: bool, n: nat)
    requires n <= |clears|
    ensures Placed(clears + [b], n) == Placed(clears, n)
  {
    if n > 0 {
      PlacedExtend(clears, b, n - 1);
      assert (clears + [b])[n - 1] == clears[n - 1];
    }
  }

  /// Each global cluster was seeded where the square around it was clear on the
  /// map the pass started from, too.
  lemma GlobalPassClearAtStart(g: Grid, g': Grid, kind: TileType, count: int, clusterSize: int,
                               picks: seq<Cell>, trace: seq<Grid>, clears: seq<bool>, i: nat)
    requires Attempts(g, g', kind, count, clusterSize, picks, trace, clears)
    requires i < |clears| && clears[i]
    ensures AreaClear(g, picks[i].x, picks[i].y, ClearRadius)
  {
    AttemptsSteps(g, g', kind, count, clusterSize, picks, trace, clears);
    GlobalSegment(trace, clears, kind, clusterSize, 0, i);
    assert Attempt(trace[i], trace[i + 1], picks[i], kind, clusterSize, clears[i]);
    FillsAreaClear(g, trace[i], {kind}, picks[i].x, picks[i].y, ClearRadius);
  }

  /// A pass of a resource kind that placed fewer than `count` clusters made all
  /// `MaxAttempts` attempts, and none of its attempt points is clear at the end:
  /// every point whose square was clear at its attempt got a cluster, which
  /// covers that point.
  lemma GlobalPassExhaustive(g: Grid, g': Grid, kind: TileType, count: int, clusterSize: int,
                             picks: seq<Cell>, trace: seq<Grid>, clears: seq<bool>, i: nat)
    requires GlobalPass(g, g', kind, count, clusterSize, picks, trace, clears)
    requires kind != Grass && clusterSize > 0
    requires Placed(clears, |clears|) < count
    requires i < MaxAttempts
    ensures |clears| == MaxAttempts
    ensures !AreaClear(g', picks[i].x, picks[i].y, ClearRadius)
  {
    var t := |clears|;
    var c := picks[i];
    if AreaClear(g', c.x, c.y, ClearRadius) {
      AttemptsSteps(g, g', kind, count, clusterSize, picks, trace, clears);
      GlobalSegment(trace, clears, kind, clusterSize, i, t);
      FillsAreaClear(trace[i], g', {kind}, c.x, c.y, ClearRadius);
      assert Attempt(trace[i], trace[i + 1], c, kind, clusterSize, clears[i]);
      assert Eligible(trace[i], Cell(c.x, c.y));
      ClusterFilledPlacesSeed(trace[i], trace[i + 1], c, kind, clusterSize);
      GlobalSegment(trace, clears, kind, clusterSize, i + 1, t);
      assert false;
    }
  }

  lemma MulMono(a: nat, b: nat, m: nat)
    requires a <= b
    ensures a * m <= b * m
  {
  }

  /// What each attempt recorded in `trace` does to the map: it only fills open
  /// tiles with `kind`, and changes at most `clusterSize` tiles when its square
  /// was clear and none otherwise.
  ghost predicate Steps(trace: seq<Grid>, clears: seq<bool>, kind: TileType, clusterSize: int) {
    && |trace| == |clears| + 1
    && forall i {:trigger clears[i]} :: 0 <= i < |clears| ==>
         && Fills(trace[i], trace[i + 1], {kind}) && SameShape(trace[i], trace[i + 1])
         && |Changed(trace[i], trace[i + 1])| <= if clears[i] && clusterSize > 0 then clusterSize else 0
  }

  lemma AttemptsSteps(g: Grid, g': Grid, kind: TileType, count: int, clusterSize: int,
                      picks: seq<Cell>, trace: seq<Grid>, clears: seq<bool>)
    requires Attempts(g, g', kind, count, clusterSize, picks, trace, clears)
    ensures Steps(trace, clears, kind, clusterSize)
  {
    forall i | 0 <= i < |clears|
      ensures && Fills(trace[i], trace[i + 1], {kind}) && SameShape(trace[i], trace[i + 1])
              && |Changed(trace[i], trace[i + 1])| <= if clears[i] && clusterSize > 0 then clusterSize else 0
    {
      AttemptEffect(trace[i], trace[i + 1], picks[i], kind, clusterSize, clears[i]);
    }
  }

  /// Attempts `a` to `n` of a pass only fill open tiles with `kind`.
  lemma {:induction false} GlobalSegment(trace: seq<Grid>, clears: seq<bool>, kind: TileType, clusterSize: int,
                                         a: nat, n: nat)
    requires Steps(trace, clears, kind, clusterSize)
    requires a <= n <= |clears|
    ensures Fills(trace[a], trace[n], {kind})
    decreases n - a
  {
    if n == a {
      FillsReflexive(trace[a], {kind});
    } else {
      GlobalSegment(trace, clears, kind, clusterSize, a, n - 1);
      var clear := clears[n - 1];
      FillsTransitive(trace[a], trace[n - 1], trace[n], {kind}, {kind});
      assert {kind} + {kind} == {kind};
    }
  }

  /// The first `n` attempts of a pass change at most `clusterSize` tiles for
  /// each cluster they place.
  lemma {:induction false} GlobalPrefixChanged(trace: seq<Grid>, clears: seq<bool>, kind: TileType, clusterSize: int,
                                               n: nat)
    requires Steps(trace, clears, kind, clusterSize)
    requires n <= |clears|
    ensures SameShape(trace[0], trace[n])
    ensures |Changed(trace[0], trace[n])| <= Placed(clears, n) * (if clusterSize > 0 then clusterSize else 0)
  {
    var m := if clusterSize > 0 then clusterSize else 0;
    if n == 0 {
      assert Changed(trace[0], trace[0]) == {};
    } else {
      GlobalPrefixChanged(trace, clears, kind, clusterSize, n - 1);
      var p := Placed(clears, n - 1);
      if clears[n - 1] {
        MulStep(p, m);
      }
      ChangedCompose(trace[0], trace[n - 1], trace[n]);
    }
  }

  /// One attempt only fills open tiles with `kind`, and changes at most
  /// `clusterSize` tiles when its square was clear and none otherwise.
  lemma AttemptEffect(h: Grid, h': Grid, c: Cell, kind: TileType, clusterSize: int, clear: bool)
    requires Attempt(h, h', c, kind, clusterSize, clear)
    ensures Fills(h, h', {kind}) && SameShape(h, h')
    ensures |Changed(h, h')| <= if clear && clusterSize > 0 then clusterSize else 0
  {
    if clear {
      ClusterFilledFills(h, h', c, kind, clusterSize);
      ClusterFilledChanges(h, h', c, kind, clusterSize);
    } else {
      FillsReflexive(h, {kind});
      assert Changed(h, h') == {};
    }
  }

  lemma MulStep(d: nat, m: nat)
    ensures (d + 1) * m == d * m + m
  {
  }

  /// The four global passes only fill open tiles with resources.
  lemma GlobalChainFills(g: Grid, g': Grid, picks: seq<seq<Cell>>, stages: seq<Grid>)
    requires GlobalChain(g, g', picks, stages)
    ensures Fills(g, g', ResourceKinds)
  {
    FillsReflexive(g, ResourceKinds);
    for k := 0 to |GlobalPasses|
      invariant Fills(g, stages[k], ResourceKinds)
    {
      var (kind, count, size) := GlobalPasses[k];
      assert GlobalPlaced(stages[k], stages[k + 1], kind, count, size, picks[k]);
      var trace, clears :| GlobalPass(stages[k], stages[k + 1], kind, count, size, picks[k], trace, clears);
      GlobalPassEffect(stages[k], stages[k + 1], kind, count, size, picks[k], trace, clears);
      FillsTransitive(g, stages[k], stages[k + 1], ResourceKinds, {kind});
      assert ResourceKinds + {kind} == ResourceKinds;
    }
  }
}
