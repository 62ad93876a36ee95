/// The decision logic of src/MainScene.js, stated on values: which unit a click
/// picks, which units a box holds, whether a left release is a click or a drag,
/// the formation offsets of a move order, the cursor shown over a tile, and the
/// town-centre footprint stamped into the map. The `MainScene` class (module
/// `Scene`) is proved against these.
module SceneLogic {
  import opened Options
  import opened Geometry
  import opened TileGrid

  // ---------------------------------------------------------------------------
  // Single selection
  // ---------------------------------------------------------------------------

  /// A unit is picked by a click less than 30 px away.
  const PickRadius: real := 30.0

  predicate NearClick(p: Point, click: Point) {
    Dist2(click, p) < PickRadius * PickRadius
  }

  /// The index of the first position near `click`, or `|ps|` if there is none.
  function FirstNear(ps: seq<Point>, click: Point): (k: nat)
    ensures k <= |ps|
    ensures k < |ps| ==> NearClick(ps[k], click)
    ensures forall j :: 0 <= j < k ==> !NearClick(ps[j], click)
  {
    if |ps| == 0 then 0
    else if NearClick(ps[0], click) then 0
    else 1 + FirstNear(ps[1..], click)
  }

  // ---------------------------------------------------------------------------
  // Box selection
  // ---------------------------------------------------------------------------

  /// The indices of the positions `r` contains, in increasing order.
  function InBox(ps: seq<Point>, r: Rect): (ix: seq<nat>)
    ensures forall k :: 0 <= k < |ix| ==> ix[k] < |ps| && Contains(r, ps[ix[k]])
    ensures forall k, l :: 0 <= k < l < |ix| ==> ix[k] < ix[l]
    ensures forall i :: 0 <= i < |ps| && Contains(r, ps[i]) ==> i in ix
  {
    if |ps| == 0 then []
    else
      var rest := InBox(ps[..|ps| - 1], r);
      if Contains(r, ps[|ps| - 1]) then rest + [|ps| - 1] else rest
  }

  // ---------------------------------------------------------------------------
  // Left release: click or drag
  // ---------------------------------------------------------------------------

  /// A release closer than this to the press is a click.
  const DragThreshold: real := 10.0

  /// What a left-button release does.
  datatype Release = Ignore | Pick(at: Point) | Box(rect: Rect)

  function Min(a: real, b: real): real { if a <= b then a else b }

  function Abs(a: real): real { if a < 0.0 then -a else a }

  /// `v` lies between `a` and `b`, in whichever order they come.
  predicate Between(a: real, b: real, v: real) {
    a <= v <= b || b <= v <= a
  }

  /// The rectangle dragged out between two corners: it has a non-negative size.
  /// When the corners differ on both axes it contains exactly the points between
  /// them on both axes, so in particular both corners; when they share a row or a
  /// column it is flat and contains nothing.
  function DragBox(a: Point, b: Point): (r: Rect)
    ensures r.w >= 0.0 && r.h >= 0.0
    ensures forall q :: Contains(r, q) <==>
      a.x != b.x && a.y != b.y && Between(a.x, b.x, q.x) && Between(a.y, b.y, q.y)
  {
    Rect(Min(a.x, b.x), Min(a.y, b.y), Abs(b.x - a.x), Abs(b.y - a.y))
  }

  /// The left-release decision: nothing without a press position; a click where
  /// the pointer moved less than `DragThreshold`; a box selection otherwise. The
  /// box contains both the press and the release point unless the pointer moved
  /// straight along a row or a column, in which case it contains no point at all.
  function LeftRelease(dragStart: Option<Point>, p: Point): (a: Release)
    ensures dragStart.None? <==> a == Ignore
    ensures a.Pick? <==> dragStart.Some? && Dist2(dragStart.value, p) < DragThreshold * DragThreshold
    ensures a.Pick? ==> a.at == p
    ensures a.Box? && dragStart.value.x != p.x && dragStart.value.y != p.y ==>
      Contains(a.rect, dragStart.value) && Contains(a.rect, p)
    ensures a.Box? && (dragStart.value.x == p.x || dragStart.value.y == p.y) ==>
      forall q :: !Contains(a.rect, q)
  {
    match dragStart
    case None => Ignore
    case Some(s) =>
      if Dist2(s, p) < DragThreshold * DragThreshold then Pick(p) else Box(DragBox(s, p))
  }

  // ---------------------------------------------------------------------------
  // Move-order formation
  // ---------------------------------------------------------------------------

  /// Spacing of the move-order formation, in pixels.
  const Spacing: int := 25

  /// The offset from the click of the `i`-th selected unit's move target: rows of
  /// three, starting one spacing up and to the left of the click.
  function FormationOffset(i: nat): (o: (int, int))
    ensures o.0 in {-Spacing, 0, Spacing}
    ensures o.1 >= -Spacing && o.1 % Spacing == 0
    ensures i < 9 <==> o.1 <= Spacing
  {
    var col, row := i % 3, i / 3;
    assert i == 3 * row + col && 0 <= col < 3;
    assert (row * Spacing - Spacing) % Spacing == 0 by {
      assert row * Spacing - Spacing == (row - 1) * Spacing;
    }
    (col * Spacing - Spacing, row * Spacing - Spacing)
  }

  /// No two units are sent to the same point.
  lemma FormationInjective(i: nat, j: nat)
    requires FormationOffset(i) == FormationOffset(j)
    ensures i == j
  {
    assert i % 3 == j % 3 && i / 3 == j / 3;
    assert i == 3 * (i / 3) + i % 3;
    assert j == 3 * (j / 3) + j % 3;
  }

  /// The first nine units fill the 3x3 grid of spacing `Spacing` centred on the
  /// click, row by row from the top left; by `FormationInjective`, each point once.
  lemma FormationFirstNine()
    ensures seq(9, i requires 0 <= i => FormationOffset(i)) ==
      [(-25, -25), (0, -25), (25, -25),
       (-25, 0), (0, 0), (25, 0),
       (-25, 25), (0, 25), (25, 25)]
  {
  }

  /// Each further row of three lies one spacing below the previous one.
  lemma FormationRows(i: nat)
    ensures FormationOffset(i + 3) == (FormationOffset(i).0, FormationOffset(i).1 + Spacing)
  {
    assert (i + 3) / 3 == i / 3 + 1;
  }

  // ---------------------------------------------------------------------------
  // Cursor
  // ---------------------------------------------------------------------------

  datatype Cursor = IdlePointer | ChopPointer | MinePointer | HandPointer

  /// The probe offsets around the pointer, in pixels, in the order they are tried.
  const ProbeOffsets: seq<(real, real)> := [(0.0, 0.0), (20.0, 0.0), (0.0, 20.0), (20.0, 20.0)]

  /// A probe result: the type of the tile under a probe, `None` where there is no tile.
  predicate ResourceProbe(p: Option<TileType>) {
    p.Some? && IsResource(p.value)
  }

  /// The type the probes detect: the first resource type found, else grass.
  function FirstResource(probed: seq<Option<TileType>>): (t: TileType)
    ensures t == Grass <==> forall i :: 0 <= i < |probed| ==> !ResourceProbe(probed[i])
    ensures t != Grass ==> exists k :: (0 <= k < |probed| && probed[k] == Some(t) &&
      forall j :: 0 <= j < k ==> !ResourceProbe(probed[j]))
  {
    if |probed| == 0 then Grass
    else if ResourceProbe(probed[0]) then probed[0].value
    else
      var t := FirstResource(probed[1..]);
      assert forall i :: 1 <= i < |probed| ==> probed[i] == probed[1..][i - 1];
      t
  }

  /// The probe loop of `updatePointer`.
  method DetectType(probed: seq<Option<TileType>>) returns (detected: TileType)
    ensures detected == FirstResource(probed)
  {
    detected := Grass;
    var i := 0;
    while i < |probed|
      invariant 0 <= i <= |probed|
      invariant FirstResource(probed) == FirstResource(probed[i..])
    {
      var p := probed[i];
      if p.Some? && IsResource(p.value) {
        detected := p.value;
        return;
      }
      assert probed[i..][1..] == probed[i + 1..];
      i := i + 1;
    }
  }

  /// The cursor for a detected type: chop over forest, mine over gold or stone,
  /// hand over food, and the idle pointer over anything else.
  function CursorFor(t: TileType): (c: Cursor)
    ensures c == ChopPointer <==> t == Forest
    ensures c == MinePointer <==> t == Gold || t == Stone
    ensures c == HandPointer <==> t == Food
    ensures c == IdlePointer <==> !IsResource(t)
  {
    match t
    case Forest => ChopPointer
    case Gold => MinePointer
    case Stone => MinePointer
    case Food => HandPointer
    case _ => IdlePointer
  }

  // ---------------------------------------------------------------------------
  // Town-centre footprint
  // ---------------------------------------------------------------------------

  /// The footprint cells in the order the loop visits them: columns `cx - 1 .. cx + 1`
  /// outer, rows `cy - 1 .. cy` inner.
  function FootprintCells(cx: int, cy: int): (cs: seq<Cell>)
    ensures |cs| == 6
    ensures forall c :: c in cs <==> cx - 1 <= c.x <= cx + 1 && cy - 1 <= c.y <= cy
  {
    [Cell(cx - 1, cy - 1), Cell(cx - 1, cy), Cell(cx, cy - 1), Cell(cx, cy), Cell(cx + 1, cy - 1), Cell(cx + 1, cy)]
  }

  function BuildingOn(t: Tile): Tile { t.(kind := Building) }

  /// The footprint loop as written: a cell whose row does not exist is skipped, but
  /// a cell whose row exists and whose column does not reads an undefined entry and
  /// setting its type throws, which is `None` here.
  function StampAsWritten(g: Grid, cells: seq<Cell>): (r: Option<Grid>)
    ensures r.None? <==> exists c :: c in cells && 0 <= c.y < |g| && !(0 <= c.x < |g[c.y]|)
    ensures r.Some? ==> SameShape(g, r.value)
    decreases |cells|
  {
    if cells == [] then Some(g)
    else
      match StampAsWritten(g, cells[..|cells| - 1])
      case None => None
      case Some(h) =>
        var c := cells[|cells| - 1];
        if !(0 <= c.y < |h|) then Some(h)
        else if !(0 <= c.x < |h[c.y]|) then None
        else Some(SetTile(h, c, BuildingOn(At(h, c))))
  }

  /// The footprint loop with both the row and the column checked: every in-bounds
  /// cell of `cells` becomes a building, keeping its coordinate and protection, and
  /// every other tile is unchanged.
  function Stamp(g: Grid, cells: seq<Cell>): (r: Grid)
    ensures SameShape(g, r)
    ensures forall d :: InBounds(g, d) ==> At(r, d) == if d in cells then BuildingOn(At(g, d)) else At(g, d)
    decreases |cells|
  {
    if cells == [] then g
    else
      var h := Stamp(g, cells[..|cells| - 1]);
      var c := cells[|cells| - 1];
      assert forall d :: d in cells <==> d in cells[..|cells| - 1] || d == c;
      if InBounds(h, c) then SetTile(h, c, BuildingOn(At(h, c))) else h
  }

  /// Where every footprint column exists in every footprint row that exists, the
  /// loop as written does what `Stamp` does.
  lemma {:induction false} AsWrittenAgrees(g: Grid, cells: seq<Cell>)
    requires forall c :: c in cells && 0 <= c.y < |g| ==> 0 <= c.x < |g[c.y]|
    ensures StampAsWritten(g, cells) == Some(Stamp(g, cells))
    decreases |cells|
  {
    if cells != [] {
      var init := cells[..|cells| - 1];
      assert forall c :: c in init ==> c in cells;
      AsWrittenAgrees(g, init);
    }
  }

  /// Once the loop has thrown, later cells do not matter.
  lemma {:induction false} AsWrittenStaysFailed(g: Grid, cells: seq<Cell>, k: nat)
    requires k <= |cells| && StampAsWritten(g, cells[..k]) == None
    ensures StampAsWritten(g, cells) == None
    decreases |cells| - k
  {
    if k < |cells| {
      assert cells[..k + 1][..k] == cells[..k];
      AsWrittenStaysFailed(g, cells, k + 1);
    } else {
      assert cells[..k] == cells;
    }
  }

  /// With the town centre on the left edge of a 100 x 100 map, the first footprint
  /// cell `(-1, 14)` has a row but no column, so the loop as written throws.
  lemma AsWrittenThrowsAtLeftEdge()
    ensures StampAsWritten(FreshGrid(100, 100), FootprintCells(0, 15)) == None
  {
    var g := FreshGrid(100, 100);
    var cs := FootprintCells(0, 15);
    FreshGridShape(100, 100);
    assert cs[..1][..0] == [];
    assert StampAsWritten(g, cs[..1]) == None;
    AsWrittenStaysFailed(g, cs, 1);
  }

  /// The same on the right edge: `(100, 14)` has a row but no column.
  lemma AsWrittenThrowsAtRightEdge()
    ensures StampAsWritten(FreshGrid(100, 100), FootprintCells(99, 15)) == None
  {
    var g := FreshGrid(100, 100);
    var cs := FootprintCells(99, 15);
    FreshGridShape(100, 100);
    AsWrittenAgrees(g, cs[..4]);
    var h := Stamp(g, cs[..4]);
    assert cs[..5][..4] == cs[..4];
    assert StampAsWritten(g, cs[..5]) == None;
    AsWrittenStaysFailed(g, cs, 5);
  }

  /// The corrected stamp never fails, and every in-bounds footprint tile is a
  /// building afterwards, so no unit can walk onto it.
  lemma StampBlocks(g: Grid, cx: int, cy: int, c: Cell)
    requires InBounds(g, c) && c in FootprintCells(cx, cy)
    ensures At(Stamp(g, FootprintCells(cx, cy)), c).kind == Building
  {
  }
}
