/**
 * The UV mapping of ANavMeshRenderer::UVCoord: a point's planar position in
 * the nav-mesh bounds, shrunk by the island margin, and (with several floors)
 * placed into the grid cell of the floor its polygon's central height is on.
 */
module UVMapping {
  import opened Geometry
  import opened FloorLayout

  /** The renderer's fields that UVCoord reads. */
  datatype AtlasState = AtlasState(
    corner: Vec3,          // NavMeshCorner
    size: Vec3,            // NavMeshSize
    heights: seq<real>,    // AdditionalFloorHeights
    numberOfFloors: int,   // NumberOfFloors
    rowSize: int,          // FloorRowSize
    margin: real)          // UV_IslandMargins

  /** The state in which UVCoord divides only by non-zero values. */
  predicate AtlasOk(a: AtlasState) {
    a.rowSize >= 1 && a.size.x != 0.0 && a.size.y != 0.0
  }

  /** The floor of a central height, measured from the nav mesh's lower corner. */
  function FloorOf(a: AtlasState, centralHeight: real): nat {
    FloorIndex(a.heights, centralHeight - a.corner.z)
  }

  function CellOf(a: AtlasState, centralHeight: real): (nat, nat)
    requires a.rowSize >= 1
  {
    GridCell(FloorOf(a, centralHeight), a.rowSize)
  }

  /** The position within the nav-mesh bounds, scaled by (1 - margin). */
  function PlanarUV(a: AtlasState, location: Vec3): Vec2
    requires AtlasOk(a)
  {
    var rel := Sub(location, a.corner);
    Vec2((rel.x / a.size.x) * (1.0 - a.margin), (rel.y / a.size.y) * (1.0 - a.margin))
  }

  function UVCoord(a: AtlasState, location: Vec3, centralHeight: real): Vec2
    requires AtlasOk(a)
  {
    var cell := CellOf(a, centralHeight);
    var floorX, floorY := cell.0 as real, cell.1 as real;
    var r := a.rowSize as real;
    var base := PlanarUV(a, location);
    if a.numberOfFloors > 1 then
      Vec2(Place(base.x, floorX, r, a.margin), Place(base.y, floorY, r, a.margin))
    else base
  }

  /** One coordinate of a planar UV placed into grid column (or row) c of R. */
  function Place(b: real, c: real, r: real, m: real): real
    requires r >= 1.0
  {
    b / r + c / r + c * m
  }

  /** A point inside the nav mesh's horizontal bounds. */
  predicate Inside(a: AtlasState, p: Vec3) {
    a.corner.x <= p.x <= a.corner.x + a.size.x && a.corner.y <= p.y <= a.corner.y + a.size.y
  }

  predicate MarginOk(a: AtlasState) {
    0.0 <= a.margin <= 1.0
  }

  /** A fraction of the bounds, shrunk by the margin, lies in [0, 1 - m]. */
  lemma ShrunkFraction(d: real, s: real, m: real)
    requires 0.0 <= d <= s && s > 0.0 && 0.0 <= m <= 1.0
    ensures 0.0 <= (d / s) * (1.0 - m) <= 1.0 - m
  {
    var t := d / s;
    assert t * s == d;
    assert 0.0 <= t <= 1.0;
    assert (1.0 - t) * (1.0 - m) >= 0.0;
    assert t * (1.0 - m) >= 0.0;
  }

  /** One coordinate placed into grid column (or row) c spans [c/R + c m, (c+1)/R + c m - m/R]. */
  lemma PlacedRange(b: real, m: real, r: real, c: real)
    requires 0.0 <= b <= 1.0 - m && r >= 1.0
    ensures IslandLo(c, r, m) <= Place(b, c, r, m) <= IslandHi(c, r, m)
  {
    assert b / r >= 0.0;
    assert b / r <= (1.0 - m) / r;
    assert (1.0 - m) / r == 1.0 / r - m / r;
    assert (c + 1.0) / r == c / r + 1.0 / r;
  }

  /** The lowest and highest coordinate of the island in column (or row) c. */
  function IslandLo(c: real, r: real, m: real): real
    requires r >= 1.0
  {
    c / r + c * m
  }

  function IslandHi(c: real, r: real, m: real): real
    requires r >= 1.0
  {
    (c + 1.0) / r + c * m - m / r
  }

  /**
   * The UV island of a floor, u axis: with several floors, a point inside
   * the bounds gets a u inside the island of its cell's column.
   */
  lemma ColumnIsland(a: AtlasState, p: Vec3, h: real)
    requires AtlasOk(a) && a.size.x > 0.0 && MarginOk(a) && Inside(a, p)
    requires a.numberOfFloors > 1
    ensures IslandLo(CellOf(a, h).0 as real, a.rowSize as real, a.margin) <= UVCoord(a, p, h).x
    ensures UVCoord(a, p, h).x <= IslandHi(CellOf(a, h).0 as real, a.rowSize as real, a.margin)
  {
    var c, r := CellOf(a, h).0 as real, a.rowSize as real;
    var b := PlanarUV(a, p).x;
    ShrunkFraction(p.x - a.corner.x, a.size.x, a.margin);
    PlacedRange(b, a.margin, r, c);
  }

  /** The UV island of a floor, v axis: a point's v lies inside the island of its cell's row. */
  lemma RowIsland(a: AtlasState, p: Vec3, h: real)
    requires AtlasOk(a) && a.size.y > 0.0 && MarginOk(a) && Inside(a, p)
    requires a.numberOfFloors > 1
    ensures IslandLo(CellOf(a, h).1 as real, a.rowSize as real, a.margin) <= UVCoord(a, p, h).y
    ensures UVCoord(a, p, h).y <= IslandHi(CellOf(a, h).1 as real, a.rowSize as real, a.margin)
  {
    var w, r := CellOf(a, h).1 as real, a.rowSize as real;
    var b := PlanarUV(a, p).y;
    ShrunkFraction(p.y - a.corner.y, a.size.y, a.margin);
    PlacedRange(b, a.margin, r, w);
  }

  /** With a single floor the whole atlas is one island, [0, 1 - m] on both axes. */
  lemma SingleIslandBounds(a: AtlasState, p: Vec3, h: real)
    requires AtlasOk(a) && a.size.x > 0.0 && a.size.y > 0.0 && MarginOk(a) && Inside(a, p)
    requires a.numberOfFloors <= 1
    ensures 0.0 <= UVCoord(a, p, h).x <= 1.0 - a.margin
    ensures 0.0 <= UVCoord(a, p, h).y <= 1.0 - a.margin
  {
    var rel := Sub(p, a.corner);
    ShrunkFraction(rel.x, a.size.x, a.margin);
    ShrunkFraction(rel.y, a.size.y, a.margin);
  }

  /** The islands of two columns c < d: everything in c lies left of everything in d. */
  lemma IslandsOrdered(m: real, r: real, c: real, d: real)
    requires 0.0 <= m && r >= 1.0 && c + 1.0 <= d
    ensures IslandHi(c, r, m) <= IslandLo(d, r, m)
    ensures 0.0 < m ==> IslandHi(c, r, m) < IslandLo(d, r, m)
  {
    assert (c + 1.0) / r <= d / r;
    assert (d - c) * m >= 0.0;
    assert m / r >= 0.0;
    assert 0.0 < m ==> m / r > 0.0;
  }

  /**
   * Different grid columns never overlap in u: with several floors, a point
   * in a lower column has a u no greater than (and, with a positive margin,
   * strictly less than) any point in a higher column.
   */
  lemma ColumnsSeparated(a: AtlasState, p: Vec3, hp: real, q: Vec3, hq: real)
    requires AtlasOk(a) && a.size.x > 0.0 && MarginOk(a)
    requires Inside(a, p) && Inside(a, q) && a.numberOfFloors > 1
    requires CellOf(a, hp).0 < CellOf(a, hq).0
    ensures UVCoord(a, p, hp).x <= UVCoord(a, q, hq).x
    ensures 0.0 < a.margin ==> UVCoord(a, p, hp).x < UVCoord(a, q, hq).x
  {
    ColumnIsland(a, p, hp);
    ColumnIsland(a, q, hq);
    IslandsOrdered(a.margin, a.rowSize as real, CellOf(a, hp).0 as real, CellOf(a, hq).0 as real);
  }

  /** Different grid rows never overlap in v. */
  lemma RowsSeparated(a: AtlasState, p: Vec3, hp: real, q: Vec3, hq: real)
    requires AtlasOk(a) && a.size.y > 0.0 && MarginOk(a)
    requires Inside(a, p) && Inside(a, q) && a.numberOfFloors > 1
    requires CellOf(a, hp).1 < CellOf(a, hq).1
    ensures UVCoord(a, p, hp).y <= UVCoord(a, q, hq).y
    ensures 0.0 < a.margin ==> UVCoord(a, p, hp).y < UVCoord(a, q, hq).y
  {
    RowIsland(a, p, hp);
    RowIsland(a, q, hq);
    IslandsOrdered(a.margin, a.rowSize as real, CellOf(a, hp).1 as real, CellOf(a, hq).1 as real);
  }

  /**
   * With the layout UpdateMesh computes and only positive separator
   * heights, a central height inside the nav mesh gets a cell of the
   * rowSize x rowSize grid.
   */
  lemma CellInGrid(a: AtlasState, h: real)
    requires a.numberOfFloors == FloorCount(a.heights, a.size.z) && a.rowSize == RowSize(a.numberOfFloors)
    requires forall k :: 0 <= k < |a.heights| ==> a.heights[k] > 0.0
    requires h - a.corner.z <= a.size.z
    ensures CellOf(a, h).0 < a.rowSize && CellOf(a, h).1 < a.rowSize
  {
    FloorIndexWithinFloors(a.heights, h - a.corner.z, a.size.z);
    FloorCellInGrid(a.numberOfFloors, FloorOf(a, h));
  }

  /**
   * Scenario: separator heights that do not start a floor still count
   * towards the floor index, so the cell can fall outside the grid. Four
   * zero heights and one at 5 under a 10-high nav mesh give two floors on
   * a 2 x 2 grid, yet a polygon at height 6 is placed in row 2.
   */
  lemma GridOverflowScenario(a: AtlasState)
    requires a.heights == [0.0, 0.0, 0.0, 0.0, 5.0] && a.corner.z == 0.0 && a.size.z == 10.0
    requires a.numberOfFloors == FloorCount(a.heights, a.size.z) && a.rowSize == RowSize(a.numberOfFloors)
    ensures a.numberOfFloors == 2 && a.rowSize == 2
    ensures CellOf(a, 6.0) == (1, 2)
  {
    var z1, z2, z3, z4 := [0.0], [0.0, 0.0], [0.0, 0.0, 0.0], [0.0, 0.0, 0.0, 0.0];
    assert z1[..0] == [] && z2[..1] == z1 && z3[..2] == z2 && z4[..3] == z3 && a.heights[..4] == z4;
    assert CountFloorHeights(z1, 10.0) == 0 && FloorIndex(z1, 6.0) == 1;
    assert CountFloorHeights(z2, 10.0) == 0 && FloorIndex(z2, 6.0) == 2;
    assert CountFloorHeights(z3, 10.0) == 0 && FloorIndex(z3, 6.0) == 3;
    assert CountFloorHeights(z4, 10.0) == 0 && FloorIndex(z4, 6.0) == 4;
    assert CountFloorHeights(a.heights, 10.0) == 1 && FloorIndex(a.heights, 6.0) == 5;
    assert Isqrt(2) == 1;
  }
}
