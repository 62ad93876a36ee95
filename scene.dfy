/// The `MainScene` of src/MainScene.js: the map with the town centre on it, the
/// two starting villagers, the resource totals, the selection and the cursor.
/// Rendering, animation, the camera and the engine's input wiring are not part of
/// this model; each input handler is a method taking the pointer's world position.
module Scene {
  import opened Options
  import opened Geometry
  import opened TileGrid
  import opened TileMapSystem
  import opened Ledger
  import opened Units
  import opened SceneLogic

  const TileSize: nat := 32
  const MapSize: nat := 100

  /// The town centre's tile, `(tcTileX, tcTileY)`.
  const TownCentre: int := 15

  /// Radius of the protected square around the town centre.
  const TownCentreClearance: int := 3

  ghost function Positions(us: seq<Unit>): (ps: seq<Point>)
    reads us`x, us`y
    ensures |ps| == |us|
    ensures forall i :: 0 <= i < |us| ==> ps[i] == Point(us[i].x, us[i].y)
    decreases |us|
  {
    if us == [] then [] else Positions(us[..|us| - 1]) + [Point(us[|us| - 1].x, us[|us| - 1].y)]
  }

  ghost predicate Distinct(us: seq<Unit>) {
    forall i, j :: 0 <= i < j < |us| ==> us[i] != us[j]
  }

  /// The selection flags of the units, in order.
  ghost function Flags(us: seq<Unit>): (fs: seq<bool>)
    reads us`isSelected
    ensures |fs| == |us|
    ensures forall i :: 0 <= i < |us| ==> fs[i] == us[i].isSelected
    decreases |us|
  {
    if us == [] then [] else Flags(us[..|us| - 1]) + [us[|us| - 1].isSelected]
  }

  /// `sel` holds only units of `us`, and unit `i` is flagged exactly when it is in `sel`.
  ghost predicate Consistent(us: seq<Unit>, flags: seq<bool>, sel: seq<Unit>) {
    && |flags| == |us|
    && (forall u :: u in sel ==> u in us)
    && (forall i :: 0 <= i < |us| ==> (flags[i] <==> us[i] in sel))
  }

  /// The flags of `n` units none of which is selected.
  ghost function NoneSelected(n: nat): (fs: seq<bool>)
    ensures |fs| == n && forall j :: 0 <= j < n ==> !fs[j]
  {
    seq(n, j => false)
  }

  lemma ConsistentNone(us: seq<Unit>)
    ensures Consistent(us, NoneSelected(|us|), [])
  {
  }

  lemma ConsistentPick(us: seq<Unit>, i: nat)
    requires Distinct(us) && i < |us|
    ensures Consistent(us, NoneSelected(|us|)[i := true], [us[i]])
  {
  }

  /// The units at the given indices, in that order.
  ghost function Take(us: seq<Unit>, ix: seq<nat>): (r: seq<Unit>)
    requires forall k :: 0 <= k < |ix| ==> ix[k] < |us|
    ensures |r| == |ix| && forall k :: 0 <= k < |ix| ==> r[k] == us[ix[k]]
  {
    seq(|ix|, k requires 0 <= k < |ix| => us[ix[k]])
  }

  /// Among distinct units, a unit is taken exactly when its index is.
  lemma TakeMembership(us: seq<Unit>, ix: seq<nat>, i: nat)
    requires Distinct(us) && i < |us|
    requires forall k :: 0 <= k < |ix| ==> ix[k] < |us|
    ensures us[i] in Take(us, ix) <==> i in ix
  {
    if us[i] in Take(us, ix) {
      var k :| 0 <= k < |ix| && Take(us, ix)[k] == us[i];
      assert us[ix[k]] == us[i];
    }
    if i in ix {
      var k :| 0 <= k < |ix| && ix[k] == i;
      assert Take(us, ix)[k] == us[i];
    }
  }

  /// One more unit of the box loop: the selection grows by unit `i` exactly when
  /// the box contains it.
  lemma BoxStep(us: seq<Unit>, ps: seq<Point>, r: Rect, i: nat)
    requires |ps| == |us| && i < |us|
    ensures Take(us, InBox(ps[..i + 1], r)) ==
      if Contains(r, ps[i]) then Take(us, InBox(ps[..i], r)) + [us[i]] else Take(us, InBox(ps[..i], r))
  {
    assert ps[..i + 1][..i] == ps[..i];
  }

  /// The loop invariant of `SelectInBox`, as a definition: the flags after the box
  /// loop has visited the first `n` units standing at `ps`. Its properties are
  /// stated by `InBoxFlagsStep` and `ConsistentBox`.
  ghost function InBoxFlags(ps: seq<Point>, r: Rect, n: nat): (fs: seq<bool>)
    ensures |fs| == |ps|
    ensures forall j :: 0 <= j < |ps| ==> (fs[j] <==> j < n && Contains(r, ps[j]))
  {
    seq(|ps|, j requires 0 <= j < |ps| => j < n && Contains(r, ps[j]))
  }

  /// Before the loop no unit is flagged; each step flags unit `i` exactly when the
  /// box contains it.
  lemma InBoxFlagsStep(ps: seq<Point>, r: Rect, i: nat)
    requires i < |ps|
    ensures InBoxFlags(ps, r, 0) == NoneSelected(|ps|)
    ensures InBoxFlags(ps, r, i + 1) ==
      if Contains(r, ps[i]) then InBoxFlags(ps, r, i)[i := true] else InBoxFlags(ps, r, i)
  {
  }

  /// At the end of the box loop the selection and the flags agree, and both say
  /// which units the box contains.
  lemma ConsistentBox(us: seq<Unit>, ps: seq<Point>, r: Rect, flags: seq<bool>, sel: seq<Unit>)
    requires Distinct(us) && |ps| == |us| && |flags| == |us|
    requires sel == Take(us, InBox(ps, r))
    requires forall j :: 0 <= j < |us| ==> (flags[j] <==> Contains(r, ps[j]))
    ensures Consistent(us, flags, sel)
    ensures forall j :: 0 <= j < |us| ==> (us[j] in sel <==> Contains(r, ps[j]))
  {
    var ix := InBox(ps, r);
    forall j | 0 <= j < |us| ensures us[j] in sel <==> Contains(r, ps[j]) {
      TakeMembership(us, ix, j);
    }
  }

  /// The selection a click at `click` makes among units standing at `ps`: the
  /// first unit near it, if any.
  ghost function PickedBy(us: seq<Unit>, ps: seq<Point>, click: Point): seq<Unit>
    requires |ps| == |us|
  {
    var k := FirstNear(ps, click);
    if k < |us| then [us[k]] else []
  }

  /// The selection a box makes among units standing at `ps`: the units it
  /// contains, in `us` order.
  ghost function BoxedBy(us: seq<Unit>, ps: seq<Point>, r: Rect): seq<Unit>
    requires |ps| == |us|
  {
    Take(us, InBox(ps, r))
  }

  /// The town-centre footprint loop of `create`, with the column checked as well
  /// as the row (the loop as written checks only the row; see
  /// `SceneLogic.StampAsWritten`).
  method StampTownCentre(tileMap: TileMap, tcTileX: int, tcTileY: int)
    requires tileMap.Valid()
    modifies tileMap`tiles
    ensures tileMap.Valid()
    ensures tileMap.tiles == Stamp(old(tileMap.tiles), FootprintCells(tcTileX, tcTileY))
  {
    ghost var g := tileMap.tiles;
    ghost var cells := FootprintCells(tcTileX, tcTileY);
    ghost var k := 0;
    assert cells[..0] == [];
    var x := -1;
    while x <= 1
      invariant -1 <= x <= 2 && k == 2 * (x + 1)
      invariant tileMap.Valid()
      invariant tileMap.tiles == Stamp(g, cells[..k])
    {
      var y := -1;
      while y <= 0
        invariant -1 <= y <= 1 && k == 2 * (x + 1) + (y + 1)
        invariant tileMap.Valid()
        invariant tileMap.tiles == Stamp(g, cells[..k])
      {
        FootprintStep(g, cells, tcTileX, tcTileY, x, y, k, tileMap.tiles);
        StampTile(tileMap, Cell(tcTileX + x, tcTileY + y));
        y := y + 1;
        k := k + 1;
      }
      x := x + 1;
    }
    assert cells[..k] == cells;
  }

  /// One step of the footprint loop: the tile at `c`, if the map has one,
  /// becomes a building.
  method StampTile(tileMap: TileMap, c: Cell)
    requires tileMap.Valid()
    modifies tileMap`tiles
    ensures tileMap.Valid()
    ensures tileMap.tiles ==
      if InBounds(old(tileMap.tiles), c) then SetTile(old(tileMap.tiles), c, BuildingOn(At(old(tileMap.tiles), c)))
      else old(tileMap.tiles)
  {
    if 0 <= c.y < |tileMap.tiles| && 0 <= c.x < |tileMap.tiles[c.y]| {
      SetTileWellFormed(tileMap.tiles, c, BuildingOn(At(tileMap.tiles, c)), tileMap.width, tileMap.height);
      tileMap.tiles := SetTile(tileMap.tiles, c, BuildingOn(At(tileMap.tiles, c)));
    }
  }

  /// Visiting column offset `x` and row offset `y` is stamping cell number
  /// `k = 2 * (x + 1) + (y + 1)` of the footprint `cells`.
  lemma FootprintStep(g: Grid, cells: seq<Cell>, cx: int, cy: int, x: int, y: int, k: nat, h: Grid)
    requires cells == FootprintCells(cx, cy)
    requires -1 <= x <= 1 && -1 <= y <= 0 && k == 2 * (x + 1) + (y + 1)
    requires h == Stamp(g, cells[..k])
    ensures var c := Cell(cx + x, cy + y);
      Stamp(g, cells[..k + 1]) == if InBounds(h, c) then SetTile(h, c, BuildingOn(At(h, c))) else h
  {
    assert cells[k] == Cell(cx + x, cy + y);
    assert cells[..k + 1][..k] == cells[..k];
  }

  /// The map `create` builds: 100 x 100 tiles of 32 px, every tile of the
  /// protected square around the town centre still protected, every tile of the
  /// 3 x 2 town-centre footprint a building, and every other tile of that square
  /// walkable.
  ghost predicate TownMap(tm: TileMap)
    reads tm
  {
    && tm.Valid()
    && tm.width == MapSize && tm.height == MapSize && tm.tileSize == TileSize
    && (forall c :: InSquare(c, TownCentre, TownCentre, TownCentreClearance) ==>
          InBounds(tm.tiles, c) && At(tm.tiles, c).protected)
    && (forall c :: c in FootprintCells(TownCentre, TownCentre) ==>
          tm.tiles[c.y][c.x].kind == Building && !tm.IsWalkableTile(c.x, c.y))
    && (forall c ::
          (InSquare(c, TownCentre, TownCentre, TownCentreClearance) && c !in FootprintCells(TownCentre, TownCentre)) ==>
          tm.IsWalkableTile(c.x, c.y))
  }

  /// The map `create` builds from the random draws `startSeeds` and
  /// `globalPicks`, through the maps `stages`: a fresh 100 x 100 map, then the
  /// square around the town centre protected, then the starting clusters, then
  /// the four global passes, and last the footprint loop, as written, which here
  /// runs to its end.
  ghost predicate CreatedMap(g: Grid, startSeeds: seq<Cell>, globalPicks: seq<seq<Cell>>, stages: seq<Grid>) {
    && |stages| == 4
    && stages[0] == FreshGrid(MapSize, MapSize)
    && stages[1] == Protect(stages[0], TownCentre, TownCentre, TownCentreClearance)
    && StartingPlaced(stages[1], stages[2], startSeeds)
    && GlobalsPlaced(stages[2], stages[3], globalPicks)
    && StampAsWritten(stages[3], FootprintCells(TownCentre, TownCentre)) == Some(g)
  }

  /// The map part of `create`: generate, protect the town-centre square, place the
  /// starting and the global resources, stamp the footprint. `startSeeds` and
  /// `globalPicks` stand for the random draws of the placement passes. The
  /// footprint is stamped by the corrected loop, which here builds the same map
  /// as the loop as written.
  method BuildTownMap(startSeeds: seq<Cell>, globalPicks: seq<seq<Cell>>) returns (tm: TileMap, ghost stages: seq<Grid>)
    requires |startSeeds| == |StartResources|
    requires forall i :: 0 <= i < |startSeeds| ==>
      -6 <= startSeeds[i].x - TownCentre <= 6 && -6 <= startSeeds[i].y - TownCentre <= 6
    requires |globalPicks| == 4 && forall k :: 0 <= k < 4 ==> |globalPicks[k]| == MaxAttempts
    ensures fresh(tm)
    ensures CreatedMap(tm.tiles, startSeeds, globalPicks, stages)
    ensures TownMap(tm)
  {
    tm := new TileMap(MapSize, MapSize, TileSize);
    ghost var g0 := tm.tiles;
    tm.ProtectArea(TownCentre, TownCentre, TownCentreClearance);
    ghost var g1 := tm.tiles;
    ghost var s1 := tm.PlaceStartingResources(TownCentre, TownCentre, startSeeds);
    ghost var g2 := tm.tiles;
    assert StartingPlaced(g1, g2, startSeeds);
    ghost var s2 := tm.RandomizeGlobalResources(globalPicks);
    ghost var g3 := tm.tiles;
    assert GlobalsPlaced(g2, g3, globalPicks);
    AsWrittenAgreesAtTownCentre(g3);
    StampTownCentre(tm, TownCentre, TownCentre);
    stages := [g0, g1, g2, g3];
    FillsTransitive(g1, g2, g3, ResourceKinds, ResourceKinds);
    assert ResourceKinds + ResourceKinds == ResourceKinds;
    TownSquare(g0, g3, tm.tiles);
    TownMapFromTiles(tm);
  }

  /// On the 100 x 100 map the footprint around the town centre `(15, 15)` lies
  /// wholly on the map, so the footprint loop as written does what `Stamp` does.
  lemma AsWrittenAgreesAtTownCentre(g: Grid)
    requires WellFormed(g, MapSize, MapSize)
    ensures StampAsWritten(g, FootprintCells(TownCentre, TownCentre)) == Some(Stamp(g, FootprintCells(TownCentre, TownCentre)))
  {
    AsWrittenAgrees(g, FootprintCells(TownCentre, TownCentre));
  }

  lemma TownMapFromTiles(tm: TileMap)
    requires tm.Valid() && tm.width == MapSize && tm.height == MapSize && tm.tileSize == TileSize
    requires forall c :: InSquare(c, TownCentre, TownCentre, TownCentreClearance) ==>
      InBounds(tm.tiles, c) && At(tm.tiles, c).protected
    requires forall c :: c in FootprintCells(TownCentre, TownCentre) ==>
      InBounds(tm.tiles, c) && At(tm.tiles, c).kind == Building
    requires forall c ::
      (InSquare(c, TownCentre, TownCentre, TownCentreClearance) && c !in FootprintCells(TownCentre, TownCentre)) ==>
      InBounds(tm.tiles, c) && At(tm.tiles, c).kind == Grass
    ensures TownMap(tm)
  {
  }

  /// On values: after protecting the square around the town centre on a fresh
  /// map, filling open tiles and stamping the footprint, every tile of the square
  /// is still protected, the footprint tiles are buildings and the rest of the
  /// square is grass.
  lemma TownSquare(g0: Grid, g3: Grid, g4: Grid)
    requires g0 == FreshGrid(MapSize, MapSize)
    requires Fills(Protect(g0, TownCentre, TownCentre, TownCentreClearance), g3, ResourceKinds)
    requires g4 == Stamp(g3, FootprintCells(TownCentre, TownCentre))
    ensures forall c :: InSquare(c, TownCentre, TownCentre, TownCentreClearance) ==>
      InBounds(g4, c) && At(g4, c).protected
    ensures forall c :: c in FootprintCells(TownCentre, TownCentre) ==>
      InBounds(g4, c) && At(g4, c).kind == Building
    ensures forall c ::
      (InSquare(c, TownCentre, TownCentre, TownCentreClearance) && c !in FootprintCells(TownCentre, TownCentre)) ==>
      InBounds(g4, c) && At(g4, c).kind == Grass
  {
    FreshGridShape(MapSize, MapSize);
    ProtectedSquareSurvives(g0, g3, TownCentre, TownCentre, TownCentreClearance);
  }

  /// Whatever the random draws, the map `create` builds keeps the square around
  /// the town centre protected, with the footprint buildings on it and grass
  /// everywhere else on it.
  lemma CreatedTownSquare(g: Grid, startSeeds: seq<Cell>, globalPicks: seq<seq<Cell>>, stages: seq<Grid>)
    requires CreatedMap(g, startSeeds, globalPicks, stages)
    ensures g == Stamp(stages[3], FootprintCells(TownCentre, TownCentre))
    ensures forall c :: InSquare(c, TownCentre, TownCentre, TownCentreClearance) ==>
      InBounds(g, c) && At(g, c).protected
    ensures forall c :: c in FootprintCells(TownCentre, TownCentre) ==>
      InBounds(g, c) && At(g, c).kind == Building
    ensures forall c ::
      (InSquare(c, TownCentre, TownCentre, TownCentreClearance) && c !in FootprintCells(TownCentre, TownCentre)) ==>
      InBounds(g, c) && At(g, c).kind == Grass
  {
    var s1 :| StartingChain(stages[1], stages[2], startSeeds, s1);
    var s2 :| GlobalChain(stages[2], stages[3], globalPicks, s2);
    StartingChainFills(stages[1], stages[2], startSeeds, s1);
    GlobalChainFills(stages[2], stages[3], globalPicks, s2);
    FillsTransitive(stages[1], stages[2], stages[3], ResourceKinds, ResourceKinds);
    assert ResourceKinds + ResourceKinds == ResourceKinds;
    ProtectWellFormed(stages[0], MapSize, MapSize, TownCentre, TownCentre, TownCentreClearance);
    FillsKeepProtected(stages[1], stages[3], ResourceKinds, MapSize, MapSize);
    AsWrittenAgreesAtTownCentre(stages[3]);
    TownSquare(stages[0], stages[3], g);
  }

  /// The two villagers of `create`, 64 px either side of the town centre `(tcX,
  /// tcY)` and 90 px below it: new, distinct, idle and not selected.
  method SpawnVillagers(tcX: real, tcY: real) returns (us: seq<Unit>)
    ensures |us| == 2 && fresh(us[0]) && fresh(us[1]) && Distinct(us)
    ensures Positions(us) == [Point(tcX + 64.0, tcY + 90.0), Point(tcX - 64.0, tcY + 90.0)]
    ensures Flags(us) == NoneSelected(2)
    ensures forall i :: 0 <= i < |us| ==> us[i].Valid() && us[i].target == None && us[i].currentState == Idle
  {
    var right := new Unit(tcX + 64.0, tcY + 90.0);
    var left := new Unit(tcX - 64.0, tcY + 90.0);
    us := [right, left];
  }

  /// The villagers' spawn points and the drop-off point lie on walkable tiles
  /// (17, 17), (13, 17) and (15, 17) of the protected square.
  lemma SpawnWalkable(tm: TileMap)
    requires TownMap(tm)
    ensures tm.IsWalkableWorld(544.0, 570.0)
    ensures tm.IsWalkableWorld(416.0, 570.0)
    ensures tm.IsWalkableWorld(480.0, 544.0)
  {
    assert tm.WorldToTile(544.0, 570.0) == Cell(17, 17);
    assert tm.WorldToTile(416.0, 570.0) == Cell(13, 17);
    assert tm.WorldToTile(480.0, 544.0) == Cell(15, 17);
    assert InSquare(Cell(17, 17), TownCentre, TownCentre, TownCentreClearance);
    assert InSquare(Cell(13, 17), TownCentre, TownCentre, TownCentreClearance);
    assert InSquare(Cell(15, 17), TownCentre, TownCentre, TownCentreClearance);
  }

  class MainScene {
    var resources: Totals
    /// The payloads of the `updateResources` events emitted so far.
    var updates: seq<Totals>
    const tileMap: TileMap
    const tcTileX: int
    const tcTileY: int
    const dropOffPoint: Point
    const units: seq<Unit>
    /// The maps `create` built `tileMap` through, as `CreatedMap` lists them.
    ghost const mapStages: seq<Grid>
    var selectedUnits: seq<Unit>
    var isDragging: bool
    var dragStart: Option<Point>
    var cursor: Cursor

    /// The map is well formed, the units are distinct and each consistent, and a
    /// unit is marked selected exactly when it is in `selectedUnits`.
    ghost predicate Valid()
      reads this, tileMap, units`target, units`currentState, units`isSelected
    {
      Sound() && Consistent(units, Flags(units), selectedUnits)
    }

    /// The part of `Valid` that selecting does not touch.
    ghost predicate Sound()
      reads tileMap, units`target, units`currentState
    {
      && tileMap.Valid()
      && Distinct(units)
      && (forall i :: 0 <= i < |units| ==> units[i].Valid())
    }

    /// The scene's constructor and `create`: the map of `BuildTownMap`, the
    /// drop-off point two tiles below the town centre, two idle villagers beside
    /// it, nothing selected. `SpawnWalkable` shows that the villagers and the
    /// drop-off point stand on walkable ground of this map.
    constructor (startSeeds: seq<Cell>, globalPicks: seq<seq<Cell>>)
      requires |startSeeds| == |StartResources|
      requires forall i :: 0 <= i < |startSeeds| ==>
        -6 <= startSeeds[i].x - TownCentre <= 6 && -6 <= startSeeds[i].y - TownCentre <= 6
      requires |globalPicks| == 4 && forall k :: 0 <= k < 4 ==> |globalPicks[k]| == MaxAttempts
      ensures Valid()
      ensures resources == InitialTotals && updates == []
      ensures TownMap(tileMap)
      ensures CreatedMap(tileMap.tiles, startSeeds, globalPicks, mapStages)
      ensures tcTileX == TownCentre && tcTileY == TownCentre
      ensures dropOffPoint == Point(480.0, 544.0)
      ensures Positions(units) == [Point(544.0, 570.0), Point(416.0, 570.0)]
      ensures forall i :: 0 <= i < |units| ==> units[i].target == None && units[i].currentState == Idle
      ensures selectedUnits == [] && !isDragging && dragStart == None && cursor == IdlePointer
    {
      resources := InitialTotals;
      updates := [];
      tcTileX := TownCentre;
      tcTileY := TownCentre;
      var tm, stages := BuildTownMap(startSeeds, globalPicks);
      tileMap := tm;
      mapStages := stages;
      var tcX := (TownCentre * TileSize) as real;
      var tcY := (TownCentre * TileSize) as real;
      dropOffPoint := Point(tcX, tcY + 64.0);
      var villagers := SpawnVillagers(tcX, tcY);
      units := villagers;
      selectedUnits := [];
      isDragging := false;
      dragStart := None;
      cursor := IdlePointer;
    }

    /// Credits a deposit (forest as wood; unknown kinds ignored) and emits
    /// `updateResources` with the new totals exactly when a total was credited.
    method DepositResource(kind: string, amount: real)
      modifies this`resources, this`updates
      ensures resources == Credit(old(resources), kind, amount)
      ensures updates == if Books(old(resources), kind) then old(updates) + [resources] else old(updates)
    {
      var key := LedgerKey(kind);
      if key in resources {
        resources := resources[key := resources[key] + amount];
        updates := updates + [resources];
      }
    }

    /// A left-button press starts a drag at the pointer.
    method PressLeft(p: Point)
      modifies this`isDragging, this`dragStart
      ensures isDragging && dragStart == Some(p)
    {
      isDragging := true;
      dragStart := Some(p);
    }

    /// Deselects every unit, then selects the first one within `PickRadius` of
    /// `(x, y)`, if any. No unit moves.
    method HandleSingleSelection(x: real, y: real)
      requires Valid()
      modifies this`selectedUnits, units`isSelected
      ensures Valid()
      ensures Positions(units) == old(Positions(units))
      ensures selectedUnits == PickedBy(units, Positions(units), Point(x, y))
    {
      ClearSelection();
      var i := FirstUnitNear(x, y);
      if i < |units| {
        Select(i);
        assert selectedUnits == [units[i]];
        assert Flags(units) == NoneSelected(|units|)[i := true];
        ConsistentPick(units, i);
      } else {
        ConsistentNone(units);
      }
    }

    /// Deselects every unit, then selects exactly those whose position `rect`
    /// contains, in `units` order. No unit moves.
    method HandleBoxSelection(rect: Rect)
      requires Valid()
      modifies this`selectedUnits, units`isSelected
      ensures Valid()
      ensures Positions(units) == old(Positions(units))
      ensures selectedUnits == BoxedBy(units, Positions(units), rect)
      ensures forall i :: 0 <= i < |units| ==>
        (units[i] in selectedUnits <==> Contains(rect, Point(units[i].x, units[i].y)))
    {
      ghost var ps := Positions(units);
      ClearSelection();
      SelectInBox(rect, ps);
      ConsistentBox(units, ps, rect, Flags(units), selectedUnits);
    }

    /// The `forEach` of `handleBoxSelection` after the deselection: selects, in
    /// order, each unit whose position `rect` contains.
    method SelectInBox(rect: Rect, ghost ps: seq<Point>)
      requires Sound() && ps == Positions(units)
      requires selectedUnits == [] && Flags(units) == NoneSelected(|units|)
      modifies this`selectedUnits, units`isSelected
      ensures Sound() && Positions(units) == ps
      ensures selectedUnits == Take(units, InBox(ps, rect))
      ensures Flags(units) == InBoxFlags(ps, rect, |units|)
    {
      if |units| > 0 {
        InBoxFlagsStep(ps, rect, 0);
      }
      for i := 0 to |units|
        invariant Positions(units) == ps && Sound()
        invariant selectedUnits == Take(units, InBox(ps[..i], rect))
        invariant Flags(units) == InBoxFlags(ps, rect, i)
      {
        BoxStep(units, ps, rect, i);
        InBoxFlagsStep(ps, rect, i);
        if Contains(rect, Point(units[i].x, units[i].y)) {
          Select(i);
        }
      }
      assert ps[..|units|] == ps;
    }

    /// `units.forEach(u => u.setSelected(false))` followed by `selectedUnits = []`.
    method ClearSelection()
      requires Sound()
      modifies this`selectedUnits, units`isSelected
      ensures Sound()
      ensures selectedUnits == []
      ensures Flags(units) == NoneSelected(|units|)
      ensures Positions(units) == old(Positions(units))
    {
      for i := 0 to |units|
        invariant forall j :: 0 <= j < i ==> !units[j].isSelected
      {
        units[i].SetSelected(false);
      }
      selectedUnits := [];
    }

    /// The scan of `handleSingleSelection`: the index of the first unit within
    /// `PickRadius` of `(x, y)`, or `|units|` if there is none.
    method FirstUnitNear(x: real, y: real) returns (i: nat)
      ensures i == FirstNear(Positions(units), Point(x, y))
    {
      ghost var ps := Positions(units);
      i := 0;
      while i < |units|
        invariant 0 <= i <= |units|
        invariant forall j :: 0 <= j < i ==> !NearClick(ps[j], Point(x, y))
      {
        if Dist2(Point(x, y), Point(units[i].x, units[i].y)) < PickRadius * PickRadius {
          return;
        }
        i := i + 1;
      }
    }

    /// `u.setSelected(true); selectedUnits.push(u)` for unit `i`.
    method Select(i: nat)
      requires Sound() && i < |units|
      modifies this`selectedUnits, units`isSelected
      ensures Sound()
      ensures selectedUnits == old(selectedUnits) + [units[i]]
      ensures Flags(units) == old(Flags(units))[i := true]
      ensures units[i].isSelected
      ensures forall j :: 0 <= j < |units| && j != i ==> units[j].isSelected == old(units[j].isSelected)
      ensures Positions(units) == old(Positions(units))
    {
      units[i].SetSelected(true);
      selectedUnits := selectedUnits + [units[i]];
    }

    /// A left-button release ends the drag. Without a press position it does
    /// nothing more; a release less than `DragThreshold` from the press selects by
    /// click; any other selects by the box between press and release.
    method ReleaseLeft(p: Point)
      requires Valid()
      modifies this`isDragging, this`selectedUnits, units`isSelected
      ensures Valid() && !isDragging
      ensures Positions(units) == old(Positions(units))
      ensures match LeftRelease(dragStart, p)
        case Ignore => selectedUnits == old(selectedUnits)
        case Pick(q) => selectedUnits == PickedBy(units, Positions(units), q)
        case Box(r) => selectedUnits == BoxedBy(units, Positions(units), r)
    {
      isDragging := false;
      if dragStart.None? {
        return;
      }
      var s := dragStart.value;
      if Dist2(s, p) < DragThreshold * DragThreshold {
        assert LeftRelease(dragStart, p) == Pick(p);
        HandleSingleSelection(p.x, p.y);
      } else {
        var r := DragBox(s, p);
        assert LeftRelease(dragStart, p) == Box(r);
        HandleBoxSelection(r);
      }
    }

    /// The cursor for this frame. `probed` holds, for each of `ProbeOffsets` in
    /// order, the type of the tile under that probe, or `None` where the map has no
    /// tile there. Without a selection the cursor is the idle pointer; with one,
    /// the first resource type found picks it.
    method UpdatePointer(probed: seq<Option<TileType>>)
      requires |probed| == |ProbeOffsets|
      modifies this`cursor
      ensures |selectedUnits| == 0 ==> cursor == IdlePointer
      ensures |selectedUnits| > 0 ==> cursor == CursorFor(FirstResource(probed))
    {
      if |selectedUnits| > 0 {
        var detected := DetectType(probed);
        match detected
        case Forest => cursor := ChopPointer;
        case Gold => cursor := MinePointer;
        case Stone => cursor := MinePointer;
        case Food => cursor := HandPointer;
        case _ => cursor := IdlePointer;
      } else {
        cursor := IdlePointer;
      }
    }
  }

  /// The placement passes cannot touch the protected square: after protecting it
  /// and any passes that only fill open tiles, each of its in-bounds tiles is
  /// still the protected grass `protectArea` made it.
  lemma ProtectedSquareSurvives(g0: Grid, g3: Grid, cx: int, cy: int, r: int)
    requires Fills(Protect(g0, cx, cy, r), g3, ResourceKinds)
    ensures forall c :: InBounds(g0, c) && InSquare(c, cx, cy, r) ==>
      InBounds(g3, c) && At(g3, c) == ProtectTile(At(g0, c))
  {
    var g1 := Protect(g0, cx, cy, r);
    ProtectAreaEffect(g0, cx, cy, r);
    forall c | InBounds(g0, c) && InSquare(c, cx, cy, r)
      ensures InBounds(g3, c) && At(g3, c) == ProtectTile(At(g0, c))
    {
      assert InBounds(g1, c) && !Open(At(g1, c));
    }
  }
}
