/**
 * ANavMeshRenderer: the actor that turns the world's Recast nav mesh into a
 * renderable dynamic mesh (UpdateMesh, AssignNewVert, ClearMesh) and draws
 * the floor debug planes (DrawFloors). Its methods are proved against the
 * specification functions of FloorLayout, UVMapping, MeshBuild and
 * FloorPlanes, whose properties are proved there.
 */
module Renderer {
  import opened Geometry
  import opened Wrappers
  import opened FloorLayout
  import opened UVMapping
  import opened MeshBuild
  import opened FloorPlanes
  import opened RendererComponent

  class NavMeshRenderer {
    /** AdditionalFloorHeights: separator heights above the nav mesh's lower corner. */
    var additionalFloorHeights: seq<real>
    var navMeshSize: Vec3
    var navMeshCorner: Vec3
    var numberOfFloors: int
    var floorRowSize: int
    /** The debug counters NumberOfVerts and NumberOfTris. */
    var numberOfVerts: int
    var numberOfTris: int
    var zOffset: real
    var uvIslandMargins: real
    /** DynamicNavMeshRender; null when the component is missing. */
    var render: DynamicNavMeshRendererComponent?
    /** The triangles last handed to the FloorDebug component. */
    var floorDebugTris: seq<CustomMeshTriangle>
    /** How many times FinishedProcessing has broadcast OnMeshUpdate. */
    var meshUpdates: nat

    /** The fields UVCoord reads. */
    function Atlas(): AtlasState
      reads this
    {
      AtlasState(navMeshCorner, navMeshSize, additionalFloorHeights, numberOfFloors, floorRowSize, uvIslandMargins)
    }

    /** What one rebuild reads from this renderer and the nav mesh besides the tiles. */
    function BuildEnv(nav: NavMeshSource): Env
      reads this
    {
      Env(Atlas(), zOffset, nav.boundaries)
    }

    /**
     * Appends one vertex to the rendered mesh: the location raised by
     * ZOffset, with the UV of the unraised location on the floor of
     * uvHeight. Returns its id, or -1 (appending nothing) without a
     * component.
     */
    method AssignNewVert(location: Vec3, uvHeight: real) returns (id: int)
      requires AtlasOk(Atlas())
      modifies render
      ensures render == null ==> id == -1
      ensures render != null ==>
        render.vertices == old(render.vertices) + [NewVertex(Atlas(), zOffset, location, uvHeight)] &&
        id == |old(render.vertices)| &&
        render.triangles == old(render.triangles) && render.boundsExtents == old(render.boundsExtents)
    {
      var info := NewVertex(Atlas(), zOffset, location, uvHeight);
      if render == null {
        return -1;
      }
      id := render.AppendVertex(info);
    }

    /**
     * One triangle of the fan: appends the centroid and the edge (p, q),
     * all three with the centroid's UV floor, and the triangle over them.
     * Returns the centroid's id.
     */
    method AppendFanTriangle(env: Env, center: Vec3, p: Vec3, q: Vec3, group: int) returns (triA: int)
      requires render != null && env.atlas == Atlas() && env.zOffset == zOffset && AtlasOk(Atlas())
      modifies render
      ensures render.boundsExtents == old(render.boundsExtents)
      ensures render.vertices ==
        old(render.vertices) + [FanVertex(env, center, center), FanVertex(env, center, p), FanVertex(env, center, q)]
      ensures triA == |old(render.vertices)|
      ensures render.triangles == old(render.triangles) + [Triangle(triA, triA + 1, triA + 2, group)]
    {
      var uvHeight := center.z;
      triA := AssignNewVert(center, uvHeight);
      var triB := AssignNewVert(p, uvHeight);
      var triC := AssignNewVert(q, uvHeight);
      render.AppendTriangle(Triangle(triA, triB, triC, group));
    }

    /**
     * The triangle fan of one polygon: per boundary edge (i-1, i) a fresh
     * centroid, the two edge ends and their triangle, then the closing edge
     * (n-1, 0) with the last loop iteration's centroid.
     */
    method AppendFan(env: Env, center: Vec3, vs: seq<Vec3>, group: int)
      requires render != null && env.atlas == Atlas() && env.zOffset == zOffset
      requires AtlasOk(Atlas()) && |vs| >= 2
      modifies render
      ensures render.boundsExtents == old(render.boundsExtents)
      ensures render.vertices == old(render.vertices) + FanVerts(env, center, vs)
      ensures render.triangles == old(render.triangles) + FanTris(|old(render.vertices)|, |vs|, group)
    {
      var base := |render.vertices|;
      var triA := 0;
      var i := 1;
      while i < |vs|
        invariant 1 <= i <= |vs|
        invariant render.vertices == old(render.vertices) + FanLoopVerts(env, center, vs, i)
        invariant render.triangles == old(render.triangles) + FanLoopTris(base, i, group)
        invariant i > 1 ==> triA == base + 3 * (i - 2)
        invariant render.boundsExtents == old(render.boundsExtents)
      {
        triA := AppendFanTriangle(env, center, vs[i - 1], vs[i], group);
        i := i + 1;
      }
      CloseFan(env, center, vs[|vs| - 1], vs[0], triA, group);
    }

    /** The closing triangle of a fan: the edge (p, q) joined to the existing centroid triA. */
    method CloseFan(env: Env, center: Vec3, p: Vec3, q: Vec3, triA: int, group: int)
      requires render != null && env.atlas == Atlas() && env.zOffset == zOffset && AtlasOk(Atlas())
      modifies render
      ensures render.boundsExtents == old(render.boundsExtents)
      ensures render.vertices == old(render.vertices) + [FanVertex(env, center, p), FanVertex(env, center, q)]
      ensures render.triangles ==
        old(render.triangles) + [Triangle(triA, |old(render.vertices)|, |old(render.vertices)| + 1, group)]
    {
      var uvHeight := center.z;
      var triB := AssignNewVert(p, uvHeight);
      var triC := AssignNewVert(q, uvHeight);
      render.AppendTriangle(Triangle(triA, triB, triC, group));
    }

    /** The polygons of one tile, deduplicated against (and added to) finished. */
    method AddTilePolys(nav: NavMeshSource, ps: seq<NavPoly>, group: int, finished: seq<NavPoly>)
      returns (finishedAfter: seq<NavPoly>)
      requires render != null && EnvOk(BuildEnv(nav))
      modifies render
      ensures render.boundsExtents == old(render.boundsExtents)
      ensures var r := AfterPolys(BuildEnv(nav), BuildState(old(render.vertices), old(render.triangles), finished, group), ps);
        render.vertices == r.verts && render.triangles == r.tris && finishedAfter == r.finished
    {
      var env := BuildEnv(nav);
      ghost var st0 := BuildState(render.vertices, render.triangles, finished, group);
      finishedAfter := finished;
      for j := 0 to |ps|
        invariant var r := AfterPolys(env, st0, ps[..j]);
          render.vertices == r.verts && render.triangles == r.tris && finishedAfter == r.finished &&
          r.group == group && render.boundsExtents == old(render.boundsExtents)
      {
        ghost var mid := AfterPolys(env, st0, ps[..j]);
        assert ps[..j + 1][..j] == ps[..j];
        var poly := ps[j];
        if !IsFinished(finishedAfter, poly.center) {
          finishedAfter := finishedAfter + [poly];
          if poly.ref in nav.boundaries {
            AppendFan(env, poly.center, nav.boundaries[poly.ref], group);
          }
        }
      }
      assert ps[..|ps|] == ps;
    }

    /**
     * The tile loop of UpdateMesh: tiles whose polygons cannot be read are
     * skipped, every other tile gets its own triangle group.
     */
    method BuildTiles(nav: NavMeshSource)
      requires render != null && EnvOk(BuildEnv(nav))
      modifies render
      ensures render.boundsExtents == old(render.boundsExtents)
      ensures var r := AfterTiles(BuildEnv(nav), BuildState(old(render.vertices), old(render.triangles), [], 0), nav.tiles);
        render.vertices == r.verts && render.triangles == r.tris
    {
      var env := BuildEnv(nav);
      ghost var st0 := BuildState(render.vertices, render.triangles, [], 0);
      var finishedPolys: seq<NavPoly> := [];
      var currentGroup := 0;
      for v := 0 to |nav.tiles|
        invariant var r := AfterTiles(env, st0, nav.tiles[..v]);
          render.vertices == r.verts && render.triangles == r.tris &&
          finishedPolys == r.finished && currentGroup == r.group &&
          render.boundsExtents == old(render.boundsExtents)
      {
        assert nav.tiles[..v + 1][..v] == nav.tiles[..v];
        match nav.tiles[v]
        case None =>
        case Some(currentPolys) =>
          PolysKeepGroup(env, AfterTiles(env, st0, nav.tiles[..v]), currentPolys);
          finishedPolys := AddTilePolys(nav, currentPolys, currentGroup, finishedPolys);
          currentGroup := currentGroup + 1;
      }
      assert nav.tiles[..|nav.tiles|] == nav.tiles;
    }

    /**
     * The floor layout step of UpdateMesh: takes the nav mesh's size and
     * lower corner, sorts the separator heights, counts the floors inside
     * the nav mesh and sizes the square grid of UV islands.
     */
    method LayOutFloors(bounds: Box)
      modifies this`navMeshSize, this`navMeshCorner, this`numberOfFloors, this`additionalFloorHeights
      modifies this`floorRowSize
      ensures navMeshSize == Size(bounds) && navMeshCorner == Sub(Center(bounds), Halve(Size(bounds)))
      ensures SortedAsc(additionalFloorHeights)
      ensures multiset(additionalFloorHeights) == multiset(old(additionalFloorHeights))
      ensures numberOfFloors == FloorCount(old(additionalFloorHeights), navMeshSize.z)
      ensures floorRowSize == RowSize(numberOfFloors)
    {
      navMeshSize := Size(bounds);
      navMeshCorner := Sub(Center(bounds), Halve(navMeshSize));
      additionalFloorHeights := SortAscending(additionalFloorHeights);
      CountFloors();
      CountFloorHeightsPermutation(additionalFloorHeights, old(additionalFloorHeights), navMeshSize.z);
      SizeFloorGrid();
    }

    /** NumberOfFloors: one, plus one per separator height inside (0, NavMeshSize.Z]. */
    method CountFloors()
      modifies this`numberOfFloors
      ensures numberOfFloors == FloorCount(additionalFloorHeights, navMeshSize.z)
    {
      numberOfFloors := 1;
      var hs, top := additionalFloorHeights, navMeshSize.z;
      for k := 0 to |hs|
        invariant numberOfFloors == 1 + CountFloorHeights(hs[..k], top)
      {
        assert hs[..k + 1][..k] == hs[..k];
        var floorHeight := hs[k];
        if floorHeight <= top && floorHeight > 0.0 {
          numberOfFloors := numberOfFloors + 1;
        }
      }
      assert hs[..|hs|] == hs;
    }

    /** FloorRowSize: one for a single floor, else the truncated square root of the floor count plus one. */
    method SizeFloorGrid()
      modifies this`floorRowSize
      ensures floorRowSize == RowSize(numberOfFloors)
    {
      floorRowSize := 1;
      if numberOfFloors > 1 {
        floorRowSize := Isqrt(numberOfFloors) + 1;
      }
    }

    /**
     * Rebuilds the rendered mesh from the nav mesh (None when there is none:
     * then nothing changes): lays out the floors, sets the component's
     * bounds extents to the nav mesh's size, rebuilds the mesh from empty,
     * broadcasts the update and records the mesh's counts.
     */
    method UpdateMesh(source: Option<NavMeshSource>)
      requires source.Some? ==> render != null && SourceOk(source.value)
      modifies this`navMeshSize, this`navMeshCorner, this`numberOfFloors, this`additionalFloorHeights
      modifies this`floorRowSize, this`numberOfVerts, this`numberOfTris, this`meshUpdates
      modifies render
      ensures source.None? ==> unchanged(this) && (render != null ==> unchanged(render))
      ensures source.Some? ==>
        navMeshSize == Size(source.value.bounds) &&
        navMeshCorner == Sub(Center(source.value.bounds), Halve(Size(source.value.bounds)))
      ensures source.Some? ==>
        SortedAsc(additionalFloorHeights) &&
        multiset(additionalFloorHeights) == multiset(old(additionalFloorHeights)) &&
        numberOfFloors == FloorCount(old(additionalFloorHeights), navMeshSize.z) &&
        floorRowSize == RowSize(numberOfFloors) && EnvOk(BuildEnv(source.value))
      ensures source.Some? ==>
        var r := AfterTiles(BuildEnv(source.value), Start, source.value.tiles);
        render.boundsExtents == navMeshSize &&
        render.vertices == r.verts && render.triangles == r.tris &&
        numberOfVerts == |r.verts| && numberOfTris == |r.tris| &&
        meshUpdates == old(meshUpdates) + 1
      ensures source.Some? ==>
        IndicesValid(|render.vertices|, render.triangles) &&
        GroupsOrdered(render.triangles, CountRead(source.value.tiles))
      ensures source.Some? && NoneReadable(source.value.tiles, source.value.boundaries) ==>
        render.vertices == [] && render.triangles == [] && numberOfVerts == 0 && numberOfTris == 0
    {
      if source.None? {
        return;
      }
      var nav := source.value;
      LayOutFloors(nav.bounds);
      render.boundsExtents := navMeshSize;
      render.Clear();
      BuildTiles(nav);
      BuildWellFormed(BuildEnv(nav), nav.tiles);
      if NoneReadable(nav.tiles, nav.boundaries) {
        TilesUnreadable(BuildEnv(nav), Start, nav.tiles);
      }
      meshUpdates := meshUpdates + 1;
      numberOfVerts := |render.vertices|;
      numberOfTris := |render.triangles|;
    }

    /** Empties the rendered mesh; the counters read -1 afterwards, with or without a component. */
    method ClearMesh()
      modifies this`numberOfVerts, this`numberOfTris, this`meshUpdates, render
      ensures numberOfVerts == -1 && numberOfTris == -1
      ensures render == null ==> meshUpdates == old(meshUpdates)
      ensures render != null ==>
        render.vertices == [] && render.triangles == [] && render.boundsExtents == old(render.boundsExtents) &&
        meshUpdates == old(meshUpdates) + 1
    {
      numberOfVerts := -1;
      numberOfTris := -1;
      if render == null {
        return;
      }
      render.Clear();
      meshUpdates := meshUpdates + 1;
    }

    /**
     * Rebuilds the floor debug triangles: nothing happens for a nav mesh
     * under one unit high; otherwise the base plane and the planes of the
     * drawn heights, in the order of the separator heights.
     */
    method DrawFloors()
      modifies this`floorDebugTris
      ensures navMeshSize.z < MinDrawnHeight ==> floorDebugTris == old(floorDebugTris)
      ensures navMeshSize.z >= MinDrawnHeight ==>
        floorDebugTris == FloorTriangles(navMeshCorner, navMeshSize, additionalFloorHeights)
    {
      if navMeshSize.z < MinDrawnHeight {
        return;
      }
      var hs, top := additionalFloorHeights, navMeshSize.z;
      var drewFinal := false;
      var tris := Plane(navMeshCorner, navMeshSize, BasePlaneHeight);
      assert hs[..0] == [];
      for i := 0 to |hs|
        invariant drewFinal == AnyAbove(hs[..i], top)
        invariant tris == FloorTriangles(navMeshCorner, navMeshSize, hs[..i])
      {
        var floorHeight := hs[i];
        DrawStep(hs, i, top);
        FloorTrianglesStep(navMeshCorner, navMeshSize, hs, i);
        if floorHeight > 0.0 {
          if floorHeight > top {
            if drewFinal {
              continue;
            }
            drewFinal := true;
          }
          tris := tris + Plane(navMeshCorner, navMeshSize, floorHeight);
        }
      }
      assert hs[..|hs|] == hs;
      floorDebugTris := tris;
    }
  }
}
