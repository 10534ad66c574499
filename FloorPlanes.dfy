/**
 * The triangle list of ANavMeshRenderer::DrawFloors, the editor's floor
 * debug view: a base plane just below the nav mesh, then one horizontal
 * rectangle (two triangles) per positive separator height inside the nav
 * mesh, plus the first positive separator above it, if any.
 */
module FloorPlanes {
  import opened Geometry
  import opened FloorLayout

  /** FCustomMeshTriangle: three world-space corners. */
  datatype CustomMeshTriangle = CustomMeshTriangle(v0: Vec3, v1: Vec3, v2: Vec3)

  /** The height, relative to the nav mesh's lower corner, of the base plane. */
  const BasePlaneHeight: real := -0.1

  /** The smallest nav-mesh height for which the floors are drawn at all. */
  const MinDrawnHeight: real := 1.0

  /** The rectangle over the nav mesh's horizontal bounds at relative height h, as two triangles. */
  function Plane(corner: Vec3, size: Vec3, h: real): (r: seq<CustomMeshTriangle>)
    ensures |r| == 2 && FlatAt(r[0], corner.z + h) && FlatAt(r[1], corner.z + h)
  {
    [CustomMeshTriangle(Add(corner, Vec3(size.x, 0.0, h)), Add(corner, Vec3(0.0, 0.0, h)), Add(corner, Vec3(0.0, size.y, h))),
     CustomMeshTriangle(Add(corner, Vec3(size.x, 0.0, h)), Add(corner, Vec3(0.0, size.y, h)), Add(corner, Vec3(size.x, size.y, h)))]
  }

  /** One plane per height, in order. */
  function Planes(corner: Vec3, size: Vec3, hs: seq<real>): (r: seq<CustomMeshTriangle>)
    ensures |r| == 2 * |hs|
  {
    if hs == [] then []
    else Planes(corner, size, hs[..|hs| - 1]) + Plane(corner, size, hs[|hs| - 1])
  }

  /** Some positive height lies above top. */
  predicate AnyAbove(hs: seq<real>, top: real) {
    exists k | 0 <= k < |hs| :: 0.0 < hs[k] && top < hs[k]
  }

  /**
   * The heights DrawFloors draws a plane at, in order: every positive height
   * at or below top, and the first positive height above top.
   */
  function DrawnHeights(hs: seq<real>, top: real): (r: seq<real>)
    ensures |r| <= |hs|
  {
    if hs == [] then []
    else
      var pre, h := hs[..|hs| - 1], hs[|hs| - 1];
      DrawnHeights(pre, top) + (if 0.0 < h && (h <= top || !AnyAbove(pre, top)) then [h] else [])
  }

  /** The whole triangle list: the base plane, then the planes of the drawn heights. */
  function FloorTriangles(corner: Vec3, size: Vec3, hs: seq<real>): seq<CustomMeshTriangle> {
    Plane(corner, size, BasePlaneHeight) + Planes(corner, size, DrawnHeights(hs, size.z))
  }

  lemma AnyAboveSnoc(pre: seq<real>, h: real, top: real)
    ensures AnyAbove(pre + [h], top) <==> AnyAbove(pre, top) || (0.0 < h && top < h)
  {
    var hs := pre + [h];
    if AnyAbove(pre, top) {
      var k :| 0 <= k < |pre| && 0.0 < pre[k] && top < pre[k];
      assert hs[k] == pre[k];
    }
    if 0.0 < h && top < h {
      assert hs[|pre|] == h;
    }
    if AnyAbove(hs, top) {
      var k :| 0 <= k < |hs| && 0.0 < hs[k] && top < hs[k];
      if k < |pre| {
        assert hs[k] == pre[k];
      }
    }
  }

  lemma PlanesSnoc(corner: Vec3, size: Vec3, hs: seq<real>, h: real)
    ensures Planes(corner, size, hs + [h]) == Planes(corner, size, hs) + Plane(corner, size, h)
  {
    assert (hs + [h])[..|hs|] == hs;
  }

  lemma DrawnHeightsSnoc(hs: seq<real>, h: real, top: real)
    ensures DrawnHeights(hs + [h], top) ==
      DrawnHeights(hs, top) + (if 0.0 < h && (h <= top || !AnyAbove(hs, top)) then [h] else [])
  {
    assert (hs + [h])[..|hs|] == hs;
  }

  /** One step of DrawFloors' loop over the heights, with bDrewFinal standing for AnyAbove. */
  lemma DrawStep(hs: seq<real>, i: nat, top: real)
    requires i < |hs|
    ensures AnyAbove(hs[..i + 1], top) == (AnyAbove(hs[..i], top) || (0.0 < hs[i] && top < hs[i]))
    ensures DrawnHeights(hs[..i + 1], top) == DrawnHeights(hs[..i], top) +
      (if 0.0 < hs[i] && (hs[i] <= top || !AnyAbove(hs[..i], top)) then [hs[i]] else [])
  {
    assert hs[..i + 1] == hs[..i] + [hs[i]];
    AnyAboveSnoc(hs[..i], hs[i], top);
    DrawnHeightsSnoc(hs[..i], hs[i], top);
  }

  /** The triangle list after one more height of DrawFloors' loop. */
  lemma FloorTrianglesStep(corner: Vec3, size: Vec3, hs: seq<real>, i: nat)
    requires i < |hs|
    ensures FloorTriangles(corner, size, hs[..i + 1]) == FloorTriangles(corner, size, hs[..i]) +
      (if 0.0 < hs[i] && (hs[i] <= size.z || !AnyAbove(hs[..i], size.z)) then Plane(corner, size, hs[i]) else [])
  {
    DrawStep(hs, i, size.z);
    var base := Plane(corner, size, BasePlaneHeight);
    var drawn := DrawnHeights(hs[..i], size.z);
    if 0.0 < hs[i] && (hs[i] <= size.z || !AnyAbove(hs[..i], size.z)) {
      PlanesSnoc(corner, size, drawn, hs[i]);
      calc {
        FloorTriangles(corner, size, hs[..i + 1]);
        base + Planes(corner, size, drawn + [hs[i]]);
        base + (Planes(corner, size, drawn) + Plane(corner, size, hs[i]));
        (base + Planes(corner, size, drawn)) + Plane(corner, size, hs[i]);
      }
    } else {
      assert drawn + [] == drawn;
    }
  }

  /**
   * The number of planes above the base: one per floor above the ground
   * floor (NumberOfFloors - 1 of them), plus one for the first height above
   * the nav mesh, if any.
   */
  lemma {:induction false} DrawnCount(hs: seq<real>, top: real)
    ensures |DrawnHeights(hs, top)| == CountFloorHeights(hs, top) + (if AnyAbove(hs, top) then 1 else 0)
    decreases |hs|
  {
    if hs != [] {
      var pre, h := hs[..|hs| - 1], hs[|hs| - 1];
      assert hs == pre + [h];
      DrawnCount(pre, top);
      AnyAboveSnoc(pre, h, top);
    }
  }

  /** The floor debug view has two triangles for the base and two per floor above the ground floor. */
  lemma FloorTriangleCount(corner: Vec3, size: Vec3, hs: seq<real>)
    ensures |FloorTriangles(corner, size, hs)| ==
      2 * FloorCount(hs, size.z) + (if AnyAbove(hs, size.z) then 2 else 0)
  {
    DrawnCount(hs, size.z);
  }

  /** Only configured, positive heights are drawn. */
  lemma {:induction false} DrawnArePositive(hs: seq<real>, top: real)
    ensures forall i | 0 <= i < |DrawnHeights(hs, top)| ::
      0.0 < DrawnHeights(hs, top)[i] && DrawnHeights(hs, top)[i] in hs
    decreases |hs|
  {
    if hs != [] {
      var pre, h := hs[..|hs| - 1], hs[|hs| - 1];
      DrawnArePositive(pre, top);
      var d, dp := DrawnHeights(hs, top), DrawnHeights(pre, top);
      forall i | 0 <= i < |d|
        ensures 0.0 < d[i] && d[i] in hs
      {
        if i < |dp| {
          assert d[i] == dp[i];
          assert dp[i] in pre;
          var k :| 0 <= k < |pre| && pre[k] == dp[i];
          assert hs[k] == pre[k];
        } else {
          assert d[i] == h;
        }
      }
    }
  }

  /** Every positive height inside the nav mesh gets a plane. */
  lemma {:induction false} InsideHeightsDrawn(hs: seq<real>, top: real)
    ensures forall k | 0 <= k < |hs| && 0.0 < hs[k] <= top :: hs[k] in DrawnHeights(hs, top)
    decreases |hs|
  {
    if hs != [] {
      var pre, h := hs[..|hs| - 1], hs[|hs| - 1];
      InsideHeightsDrawn(pre, top);
      var d, dp := DrawnHeights(hs, top), DrawnHeights(pre, top);
      assert d[..|dp|] == dp;
      forall k | 0 <= k < |hs| && 0.0 < hs[k] <= top
        ensures hs[k] in d
      {
        if k < |pre| {
          assert pre[k] == hs[k];
          var i :| 0 <= i < |dp| && dp[i] == hs[k];
          assert d[i] == dp[i];
        } else {
          assert d[|dp|] == h;
        }
      }
    }
  }

  /**
   * At most one plane lies above the nav mesh (bDrewFinal), and it is drawn
   * exactly when some positive height lies above it.
   */
  lemma {:induction false} OneFinalPlane(hs: seq<real>, top: real)
    ensures forall i, j | 0 <= i < |DrawnHeights(hs, top)| && 0 <= j < |DrawnHeights(hs, top)| ::
      top < DrawnHeights(hs, top)[i] && top < DrawnHeights(hs, top)[j] ==> i == j
    ensures AnyAbove(hs, top) <==> exists i | 0 <= i < |DrawnHeights(hs, top)| :: top < DrawnHeights(hs, top)[i]
    decreases |hs|
  {
    if hs != [] {
      var pre, h := hs[..|hs| - 1], hs[|hs| - 1];
      assert hs == pre + [h];
      OneFinalPlane(pre, top);
      AnyAboveSnoc(pre, h, top);
      DrawnArePositive(hs, top);
      var d, dp := DrawnHeights(hs, top), DrawnHeights(pre, top);
      assert d[..|dp|] == dp;
      forall i | 0 <= i < |dp|
        ensures d[i] == dp[i]
      {
      }
      if AnyAbove(hs, top) {
        if AnyAbove(pre, top) {
          var i :| 0 <= i < |dp| && top < dp[i];
          assert top < d[i];
        } else {
          assert d[|dp|] == h;
        }
      }
    }
  }

  /**
   * The plane above the nav mesh is at the first positive height above it
   * in the sequence: every drawn height above top comes from a position
   * before which no positive height lies above top.
   */
  lemma {:induction false} FinalPlaneIsFirst(hs: seq<real>, top: real)
    ensures forall i | 0 <= i < |DrawnHeights(hs, top)| && top < DrawnHeights(hs, top)[i] ::
      exists j | 0 <= j < |hs| :: hs[j] == DrawnHeights(hs, top)[i] && !AnyAbove(hs[..j], top)
    decreases |hs|
  {
    if hs != [] {
      var pre, h := hs[..|hs| - 1], hs[|hs| - 1];
      FinalPlaneIsFirst(pre, top);
      var d, dp := DrawnHeights(hs, top), DrawnHeights(pre, top);
      forall i | 0 <= i < |d| && top < d[i]
        ensures exists j | 0 <= j < |hs| :: hs[j] == d[i] && !AnyAbove(hs[..j], top)
      {
        if i < |dp| {
          assert d[i] == dp[i];
          var j :| 0 <= j < |pre| && pre[j] == dp[i] && !AnyAbove(pre[..j], top);
          assert hs[..j] == pre[..j];
          assert hs[j] == pre[j];
        } else {
          assert d[i] == h;
          assert hs[..|pre|] == pre;
        }
      }
    }
  }

  /**
   * UpdateMesh leaves the heights sorted, and then the plane above the nav
   * mesh is at the lowest positive height above it.
   */
  lemma FinalPlaneIsLowest(hs: seq<real>, top: real)
    requires SortedAsc(hs) && 0.0 <= top
    ensures forall i, k | 0 <= i < |DrawnHeights(hs, top)| && 0 <= k < |hs| ::
      top < DrawnHeights(hs, top)[i] && top < hs[k] ==> DrawnHeights(hs, top)[i] <= hs[k]
  {
    FinalPlaneIsFirst(hs, top);
    var d := DrawnHeights(hs, top);
    forall i, k | 0 <= i < |d| && 0 <= k < |hs| && top < d[i] && top < hs[k]
      ensures d[i] <= hs[k]
    {
      var j :| 0 <= j < |hs| && hs[j] == d[i] && !AnyAbove(hs[..j], top);
    }
  }

  /** Each drawn height's plane: both triangles lie flat at that height above the corner. */
  lemma {:induction false} PlanesFlat(corner: Vec3, size: Vec3, hs: seq<real>)
    ensures forall t | 0 <= t < |hs| ::
      Planes(corner, size, hs)[2 * t] == Plane(corner, size, hs[t])[0] &&
      Planes(corner, size, hs)[2 * t + 1] == Plane(corner, size, hs[t])[1]
    ensures forall t | 0 <= t < |Planes(corner, size, hs)| ::
      var tri := Planes(corner, size, hs)[t];
      tri.v0.z == tri.v1.z == tri.v2.z
    decreases |hs|
  {
    if hs != [] {
      var pre := hs[..|hs| - 1];
      PlanesFlat(corner, size, pre);
      var ps, pp := Planes(corner, size, hs), Planes(corner, size, pre);
      forall t | 0 <= t < |pp|
        ensures ps[t] == pp[t]
      {
      }
    }
  }

  /** A triangle lying flat at height z. */
  predicate FlatAt(t: CustomMeshTriangle, z: real) {
    t.v0.z == z && t.v1.z == z && t.v2.z == z
  }

  /** The base plane followed by one plane per height: plane i + 1 is flat at the i-th height. */
  lemma StackedPlaneAt(corner: Vec3, size: Vec3, base: real, d: seq<real>, i: nat)
    requires i < |d|
    ensures var ft := Plane(corner, size, base) + Planes(corner, size, d);
      FlatAt(ft[2 + 2 * i], corner.z + d[i]) && FlatAt(ft[3 + 2 * i], corner.z + d[i])
  {
    var ps := Planes(corner, size, d);
    var ft := Plane(corner, size, base) + ps;
    PlanesFlat(corner, size, d);
    assert ft[2 + 2 * i] == ps[2 * i] == Plane(corner, size, d[i])[0];
    assert ft[3 + 2 * i] == ps[2 * i + 1] == Plane(corner, size, d[i])[1];
  }

  /**
   * The debug view's layout: the first two triangles lie flat at the base
   * height, and triangles 2 + 2i and 3 + 2i lie flat at the i-th drawn height.
   */
  lemma FloorTrianglesHeights(corner: Vec3, size: Vec3, hs: seq<real>, i: nat)
    requires i < |DrawnHeights(hs, size.z)|
    ensures var ft := FloorTriangles(corner, size, hs);
      FlatAt(ft[0], corner.z + BasePlaneHeight) && FlatAt(ft[1], corner.z + BasePlaneHeight)
    ensures var ft, d := FloorTriangles(corner, size, hs), DrawnHeights(hs, size.z);
      FlatAt(ft[2 + 2 * i], corner.z + d[i]) && FlatAt(ft[3 + 2 * i], corner.z + d[i])
  {
    StackedPlaneAt(corner, size, BasePlaneHeight, DrawnHeights(hs, size.z), i);
  }

  /** Scenario: two floors under a 10-high nav mesh and two heights above it draw the base plane and two more. */
  lemma FloorPlanesScenario()
    ensures DrawnHeights([5.0, 12.0, 20.0], 10.0) == [5.0, 12.0]
  {
    var hs := [5.0, 12.0, 20.0];
    assert hs[..2] == [5.0, 12.0];
    assert hs[..2][..1] == [5.0];
    assert [5.0][..0] == [];
    assert AnyAbove([5.0, 12.0], 10.0) by {
      assert [5.0, 12.0][1] == 12.0;
    }
  }
}
