# NavMeshRuntimeRender core, modelled in Dafny

This project models the part of the NavMeshRuntimeRender plugin that turns a
Recast navigation mesh into a UV-mapped, renderable triangle mesh.

- `ANavMeshRenderer::UpdateMesh` runs in two steps.
  - The floor layout step sorts `AdditionalFloorHeights` and counts the
    floors inside the nav mesh. It then sizes a square grid of UV islands:
    `FloorRowSize = trunc(sqrt(NumberOfFloors)) + 1` when there are several
    floors, and 1 otherwise.
  - The mesh build step empties the dynamic mesh and walks the tiles.
    - Polygons are deduplicated by exact centroid equality against the
      polygons already finished in this rebuild.
    - Every new polygon whose boundary can be read is fan-triangulated from
      its centroid.
    - Each tile whose polygons can be read gets its own triangle group.
- `AssignNewVert` appends one vertex. The vertex is raised by `ZOffset`, has
  an up normal, and takes its UV from `UVCoord`.
- `UVCoord` places a point in the atlas. It takes the point's position
  within the nav-mesh bounds, shrinks it by the island margin, and (with
  several floors) moves it into the grid cell of its polygon's floor.
- `ClearMesh` empties the mesh.
- `DrawFloors` builds the floor debug planes:
  - a base plane just under the nav mesh;
  - one plane per positive separator height inside the nav mesh;
  - at most one plane above it.
- `UDynamicNavMeshRendererComponent::CalcBounds` reports bounds centred on
  the transformed local box, using the stored extents.

Layout of the project:

| file | content |
|---|---|
| `Geometry.dfy` | vectors and boxes (`FVector`, `FVector2f`, `FBox`) over reals |
| `FloorLayout.dfy` | sorting, floor counting, the grid size and the floor index/cell of a height |
| `UVMapping.dfy` | `UVCoord` and the UV-island properties |
| `MeshBuild.dfy` | one rebuild as a fold over tiles and polygons, with its invariants |
| `FloorPlanes.dfy` | the debug plane list of `DrawFloors` |
| `RendererComponent.dfy` | the dynamic-mesh component: bounds and vertex/triangle buffers |
| `Renderer.dfy` | the `ANavMeshRenderer` actor as a class whose methods are proved against the functions above |

## How the model relates to the code

- `ANavMeshRenderer` is a class whose fields are updated in place.
  - `DynamicNavMeshRender` is a nullable reference to the component class.
    The component holds the mesh's vertex and triangle buffers.
  - The rebuild loops are `for` loops whose invariants tie the buffers to
    the fold functions `AfterPolys` and `AfterTiles` of `MeshBuild`.
  - `DrawFloors`' loop is tied to `FloorPlanes.FloorTriangles` in the same
    way.
- The navigation mesh is an input value, `Option<NavMeshSource>`. `None`
  means `GetNavMesh` found no Recast nav mesh. A `NavMeshSource` holds three
  things:
  - the nav mesh's bounds;
  - the result of `GetPolysInTile` per tile (`None` when the query fails);
  - the result of `GetPolyVerts` per polygon reference (a missing key when
    it fails).
- `float` and `double` are modelled as `real`. The truncated square root in
  `FloorRowSize` is the integer square root `Isqrt`.
- The vertex ids returned by `FDynamicMesh3::AppendVertex` are the positions
  in the vertex buffer.

Facts about the mesh that follow from the code:

- The fan of a polygon with n ≥ 2 boundary vertices has n triangles: n − 1
  from the loop, plus the closing one. It appends 3n − 1 vertices, because
  the centroid is appended again in every loop iteration. So a triangular
  polygon yields three triangles and eight vertices
  (`MeshBuild.TriangleScenario`).
- A rebuild's vertex count is the sum of 3n − 1 over the fanned polygons.
- The closing triangle reuses the centroid vertex of the last loop
  iteration.
- `BoundsExtents` is the full `NavMeshSize` (NavMeshRenderer.cpp:124). The
  sphere radius is the largest of those extents.
- A nav mesh none of whose polygon boundaries can be read, an empty one
  among them, rebuilds to an empty mesh with both counters at 0
  (`MeshBuild.TilesUnreadable`, `Renderer.NavMeshRenderer.UpdateMesh`).

Behaviour the model makes explicit:

- `UVCoord` counts every separator height at or below the relative height,
  including heights that are zero or negative. The floor count ignores those
  heights. So a polygon can be given a grid row at or beyond
  `FloorRowSize`, outside the unit square (`UVMapping.GridOverflowScenario`).
  With only positive separator heights and a polygon inside the nav mesh,
  the cell always lies inside the grid (`UVMapping.CellInGrid`).
- An island's upper edge is `(c + 1)/R + c·m − m/R`. With a positive margin
  the islands of the last column can reach past 1.0.

## Model

| member | source | states |
|---|---|---|
| FloorLayout.Insert | Source/NavMeshRuntimeRender/Private/NavMeshRenderer.cpp:118 | inserting into an ascending list keeps it ascending and adds exactly that height |
| FloorLayout.SortAscending | Source/NavMeshRuntimeRender/Private/NavMeshRenderer.cpp:118 | the sorted separator heights are ascending and a permutation of the original ones |
| FloorLayout.CountFloorHeights | Source/NavMeshRuntimeRender/Private/NavMeshRenderer.cpp:119-123 | no more heights count as floors than there are heights |
| FloorLayout.FloorCount | Source/NavMeshRuntimeRender/Private/NavMeshRenderer.cpp:117-123 | NumberOfFloors: the ground floor plus one per separator height in (0, top], so between 1 and one more than the number of heights |
| FloorLayout.CountFloorHeightsAppend | Source/NavMeshRuntimeRender/Private/NavMeshRenderer.cpp:119-123 | the count over two lists joined is the sum of their counts |
| FloorLayout.CountFloorHeightsPermutation | Source/NavMeshRuntimeRender/Private/NavMeshRenderer.cpp:117-123 | the number of floors does not depend on the order of the heights, so counting after the sort equals counting before it |
| FloorLayout.Isqrt | Source/NavMeshRuntimeRender/Private/NavMeshRenderer.cpp:128 | the truncated square root r satisfies r² ≤ n < (r+1)² |
| FloorLayout.RowSize | Source/NavMeshRuntimeRender/Private/NavMeshRenderer.cpp:126-129 | the row size is at least 1, is 1 for a single floor, and for n > 1 floors satisfies (r−1)² ≤ n < r², so the r×r grid has room for every floor |
| FloorLayout.FloorIndex | Source/NavMeshRuntimeRender/Private/NavMeshRenderer.cpp:279-284 | a height's floor index is at most the number of separator heights |
| FloorLayout.GridCell | Source/NavMeshRuntimeRender/Private/NavMeshRenderer.cpp:285-286 | the column of a floor's cell is below the row size |
| FloorLayout.GridCellInverse | Source/NavMeshRuntimeRender/Private/NavMeshRenderer.cpp:285-286 | a floor is recovered from its cell as row·R + column, so two floors never share a cell |
| FloorLayout.FloorIndexMonotone | Source/NavMeshRuntimeRender/Private/NavMeshRenderer.cpp:279-284 | a higher central height never gets a lower floor index |
| FloorLayout.FloorIndexWithinFloors | Source/NavMeshRuntimeRender/Private/NavMeshRenderer.cpp:279-284 | with positive separator heights, a height inside the nav mesh gets a floor index below the floor count |
| FloorLayout.FloorCellInGrid | Source/NavMeshRuntimeRender/Private/NavMeshRenderer.cpp:285-286 | a floor below the floor count gets a row below the row size |
| FloorLayout.TwoFloorScenario | Source/NavMeshRuntimeRender/Private/NavMeshRenderer.cpp:117-129 | one separator at 5 under a 10-high nav mesh gives two floors on a 2×2 grid |
| UVMapping.PlanarUV | Source/NavMeshRuntimeRender/Private/NavMeshRenderer.cpp:277-289 | computes the point's offset from the lower corner divided by the nav mesh's size, scaled by (1 − margin); ShrunkFraction and SingleIslandBounds bound it |
| UVMapping.Place | Source/NavMeshRuntimeRender/Private/NavMeshRenderer.cpp:292-295 | computes one coordinate moved into column (or row) c of R: b/R + c/R + c·m; PlacedRange bounds it |
| UVMapping.UVCoord | Source/NavMeshRuntimeRender/Private/NavMeshRenderer.cpp:275-299 | computes a point's UV: the planar UV with one floor, and otherwise the planar UV placed into the cell of its central height's floor; ColumnIsland, RowIsland, ColumnsSeparated, RowsSeparated and CellInGrid state its properties |
| UVMapping.ShrunkFraction | Source/NavMeshRuntimeRender/Private/NavMeshRenderer.cpp:288-289 | a point's fraction of the bounds, scaled by (1 − margin), lies in [0, 1 − margin] |
| UVMapping.PlacedRange | Source/NavMeshRuntimeRender/Private/NavMeshRenderer.cpp:292-295 | moving a shrunk coordinate into column (or row) c keeps it inside that column's island bounds |
| UVMapping.ColumnIsland | Source/NavMeshRuntimeRender/Private/NavMeshRenderer.cpp:285-296 | with several floors, a point inside the bounds gets a u inside the island of its cell's column |
| UVMapping.RowIsland | Source/NavMeshRuntimeRender/Private/NavMeshRenderer.cpp:285-296 | with several floors, a point inside the bounds gets a v inside the island of its cell's row |
| UVMapping.SingleIslandBounds | Source/NavMeshRuntimeRender/Private/NavMeshRenderer.cpp:288-291 | with a single floor, a point inside the bounds gets u and v in [0, 1 − margin] |
| UVMapping.IslandsOrdered | Source/NavMeshRuntimeRender/Private/NavMeshRenderer.cpp:293-294 | the island of a lower column ends no later than a higher column's island starts, and strictly earlier with a positive margin |
| UVMapping.ColumnsSeparated | Source/NavMeshRuntimeRender/Private/NavMeshRenderer.cpp:275-299 | points of floors in different columns never overlap in u, and are strictly apart with a positive margin |
| UVMapping.RowsSeparated | Source/NavMeshRuntimeRender/Private/NavMeshRenderer.cpp:275-299 | points of floors in different rows never overlap in v, and are strictly apart with a positive margin |
| UVMapping.CellInGrid | Source/NavMeshRuntimeRender/Private/NavMeshRenderer.cpp:279-286 | with the layout UpdateMesh computes and positive separator heights, a polygon inside the nav mesh gets a cell inside the grid |
| UVMapping.GridOverflowScenario | Source/NavMeshRuntimeRender/Private/NavMeshRenderer.cpp:279-286 | separator heights that start no floor still raise the floor index: heights [0,0,0,0,5] give two floors on a 2×2 grid, yet height 6 is placed in row 2 |
| MeshBuild.NewVertex | Source/NavMeshRuntimeRender/Private/NavMeshRenderer.cpp:257-264 | computes the vertex AssignNewVert appends: the location raised by ZOffset, the UVCoord of the unraised location, an up normal and a zero colour |
| MeshBuild.FanVerts | Source/NavMeshRuntimeRender/Private/NavMeshRenderer.cpp:157-167 | the vertices one polygon's fan appends, the loop's then the closing edge's: 3n − 1 of them |
| MeshBuild.FanTris | Source/NavMeshRuntimeRender/Private/NavMeshRenderer.cpp:157-167 | the triangles one polygon's fan appends: n of them, the last reusing the last loop centroid |
| MeshBuild.AfterPoly | Source/NavMeshRuntimeRender/Private/NavMeshRenderer.cpp:145-167 | computes the build state after one polygon: unchanged for a duplicate centroid, otherwise marked finished and, when its boundary can be read, its fan appended in the current group; PolyStep states its properties |
| MeshBuild.AfterPolys | Source/NavMeshRuntimeRender/Private/NavMeshRenderer.cpp:145-168 | computes the state after a tile's polygons, in order; PolysStep states its properties |
| MeshBuild.AfterTile | Source/NavMeshRuntimeRender/Private/NavMeshRenderer.cpp:141-169 | computes the state after one tile: unchanged when its polygons cannot be read, otherwise its polygons followed by the group advance; TileStep states its properties |
| MeshBuild.AfterTiles | Source/NavMeshRuntimeRender/Private/NavMeshRenderer.cpp:141-170 | computes the state after all tiles, in order; TilesStep and BuildWellFormed state its properties |
| MeshBuild.PolysUnreadable | Source/NavMeshRuntimeRender/Private/NavMeshRenderer.cpp:145-168 | polygons none of whose boundaries can be read append no vertex and no triangle |
| MeshBuild.TilesUnreadable | Source/NavMeshRuntimeRender/Private/NavMeshRenderer.cpp:141-170 | a nav mesh none of whose polygon boundaries can be read appends no vertex and no triangle |
| MeshBuild.FanLoopVerts | Source/NavMeshRuntimeRender/Private/NavMeshRenderer.cpp:158-163 | k − 1 loop iterations append 3(k − 1) vertices |
| MeshBuild.FanLoopTris | Source/NavMeshRuntimeRender/Private/NavMeshRenderer.cpp:158-163 | k − 1 loop iterations append k − 1 triangles |
| MeshBuild.FanLoopVertsAt | Source/NavMeshRuntimeRender/Private/NavMeshRenderer.cpp:158-161 | iteration t appends the centroid, boundary vertex t and boundary vertex t + 1, in that order |
| MeshBuild.FanLoopTrisAt | Source/NavMeshRuntimeRender/Private/NavMeshRenderer.cpp:158-162 | iteration t appends the triangle over the three vertices it just appended, in the current group |
| MeshBuild.FanIndices | Source/NavMeshRuntimeRender/Private/NavMeshRenderer.cpp:158-167 | a fan of n boundary vertices has n triangles in its group, over distinct ids among the 3n − 1 new vertices, and the closing triangle reuses the last centroid |
| MeshBuild.FanCorners | Source/NavMeshRuntimeRender/Private/NavMeshRenderer.cpp:157-167 | the fan appends 3n − 1 vertices, and triangle t spans the centroid, boundary vertex t and boundary vertex (t + 1) mod n |
| MeshBuild.FanLoopVertsFrom | Source/NavMeshRuntimeRender/Private/NavMeshRenderer.cpp:158-163 | every vertex the loop appends is the centroid or a boundary vertex, with its UV floor taken from the centroid |
| MeshBuild.FanVertsFrom | Source/NavMeshRuntimeRender/Private/NavMeshRenderer.cpp:157-166 | every vertex of a fan is the centroid or a boundary vertex, with its UV floor taken from the centroid |
| MeshBuild.FanInOneIsland | Source/NavMeshRuntimeRender/Private/NavMeshRenderer.cpp:157-166 | with several floors, all UVs of a polygon inside the bounds lie in the one island of its centroid's cell |
| MeshBuild.PolysKeepGroup | Source/NavMeshRuntimeRender/Private/NavMeshRenderer.cpp:145-168 | the polygons of one tile leave the current group unchanged |
| MeshBuild.AppendFanKeepsIndices | Source/NavMeshRuntimeRender/Private/NavMeshRenderer.cpp:158-167 | appending a fan keeps every triangle over three distinct existing vertices |
| MeshBuild.AppendGroupKeepsOrder | Source/NavMeshRuntimeRender/Private/NavMeshRenderer.cpp:162-167 | appending triangles of the current group keeps the groups in append order |
| MeshBuild.AppendNewCenter | Source/NavMeshRuntimeRender/Private/NavMeshRenderer.cpp:146-150 | adding a polygon with a new centroid keeps the finished centroids distinct and marks it finished |
| MeshBuild.PolyStep | Source/NavMeshRuntimeRender/Private/NavMeshRenderer.cpp:145-167 | one polygon keeps the build well formed and only appends. A duplicate centroid changes nothing. A new polygon is marked finished; it appends nothing when its boundary cannot be read, and otherwise appends exactly its fan of n triangles and 3n − 1 vertices, all in the current group |
| MeshBuild.PolysStep | Source/NavMeshRuntimeRender/Private/NavMeshRenderer.cpp:145-168 | a tile's polygons keep the build well formed, only append, keep the group, add triangles only to the current group, and leave every polygon of the tile finished |
| MeshBuild.TileStep | Source/NavMeshRuntimeRender/Private/NavMeshRenderer.cpp:141-169 | a tile keeps the build well formed and only appends. The group advances by one exactly when the tile's polygons can be read, and the tile's triangles are in the old group |
| MeshBuild.TilesStep | Source/NavMeshRuntimeRender/Private/NavMeshRenderer.cpp:141-170 | the tile loop keeps the build well formed and only appends. It advances the group once per readable tile and leaves every polygon of every readable tile finished |
| MeshBuild.BuildWellFormed | Source/NavMeshRuntimeRender/Private/NavMeshRenderer.cpp:130-171 | a rebuild from empty has every triangle over three distinct existing vertices, no two finished polygons with one centroid, groups in [0, readable tiles] in append order, and the final group equals the number of readable tiles |
| MeshBuild.SingleTileSinglePoly | Source/NavMeshRuntimeRender/Private/NavMeshRenderer.cpp:141-169 | a tile with one polygon is that polygon's step followed by the group advance |
| MeshBuild.TriangleScenario | Source/NavMeshRuntimeRender/Private/NavMeshRenderer.cpp:141-169 | one tile with one triangular polygon yields 3 triangles, 8 vertices, one group and that polygon finished |
| FloorPlanes.Plane | Source/NavMeshRuntimeRender/Private/NavMeshRenderer.cpp:336-345 | the two triangles covering the nav mesh's horizontal bounds at one relative height, both lying flat at the corner's height plus that height |
| FloorPlanes.DrawnHeights | Source/NavMeshRuntimeRender/Private/NavMeshRenderer.cpp:346-365 | computes the heights DrawFloors draws, in list order: every positive height at or below the top, and the first positive one above it; no more than the heights given |
| FloorPlanes.FloorTriangles | Source/NavMeshRuntimeRender/Private/NavMeshRenderer.cpp:336-365 | computes the debug list: the base plane, then the plane of every drawn height; FloorTriangleCount and FloorTrianglesHeights state its properties |
| FloorPlanes.Planes | Source/NavMeshRuntimeRender/Private/NavMeshRenderer.cpp:354-363 | each drawn height contributes two triangles |
| FloorPlanes.AnyAboveSnoc | Source/NavMeshRuntimeRender/Private/NavMeshRenderer.cpp:348-352 | after one more height, a positive height above the top has been seen iff one was seen before or this one is |
| FloorPlanes.DrawStep | Source/NavMeshRuntimeRender/Private/NavMeshRenderer.cpp:346-364 | one loop iteration updates bDrewFinal and appends its height exactly when it is positive and either inside the nav mesh or the first one above it |
| FloorPlanes.FloorTrianglesStep | Source/NavMeshRuntimeRender/Private/NavMeshRenderer.cpp:346-364 | one loop iteration appends that height's plane or nothing, under the same condition |
| FloorPlanes.DrawnCount | Source/NavMeshRuntimeRender/Private/NavMeshRenderer.cpp:346-365 | the drawn heights are the floor separators counted by UpdateMesh, plus one if some positive height lies above the nav mesh |
| FloorPlanes.FloorTriangleCount | Source/NavMeshRuntimeRender/Private/NavMeshRenderer.cpp:336-365 | the debug list has 2·NumberOfFloors triangles, plus 2 for the plane above the nav mesh |
| FloorPlanes.DrawnArePositive | Source/NavMeshRuntimeRender/Private/NavMeshRenderer.cpp:347 | every drawn height is positive and is one of the separator heights |
| FloorPlanes.InsideHeightsDrawn | Source/NavMeshRuntimeRender/Private/NavMeshRenderer.cpp:347-363 | every positive separator height inside the nav mesh is drawn |
| FloorPlanes.OneFinalPlane | Source/NavMeshRuntimeRender/Private/NavMeshRenderer.cpp:348-353 | at most one drawn height lies above the nav mesh, and there is one iff some positive height does |
| FloorPlanes.FinalPlaneIsFirst | Source/NavMeshRuntimeRender/Private/NavMeshRenderer.cpp:346-353 | a drawn height above the nav mesh is the first positive height above it in list order |
| FloorPlanes.FinalPlaneIsLowest | Source/NavMeshRuntimeRender/Private/NavMeshRenderer.cpp:346-353 | on the sorted heights UpdateMesh leaves, a drawn height above the nav mesh is no greater than any height above it |
| FloorPlanes.PlanesFlat | Source/NavMeshRuntimeRender/Private/NavMeshRenderer.cpp:354-363 | plane t consists of triangles 2t and 2t + 1, and every such triangle is horizontal |
| FloorPlanes.StackedPlaneAt | Source/NavMeshRuntimeRender/Private/NavMeshRenderer.cpp:336-363 | after the base plane, triangles 2 + 2i and 3 + 2i lie flat at the i-th height |
| FloorPlanes.FloorTrianglesHeights | Source/NavMeshRuntimeRender/Private/NavMeshRenderer.cpp:336-363 | the debug list starts with the base plane 0.1 below the corner, and triangles 2 + 2i and 3 + 2i lie flat at the i-th drawn height |
| FloorPlanes.FloorPlanesScenario | Source/NavMeshRuntimeRender/Private/NavMeshRenderer.cpp:346-365 | heights [5, 12, 20] under a 10-high nav mesh draw planes at 5 and 12 only |
| RendererComponent.Max3 | Source/NavMeshRuntimeRender/Private/DynamicNavMeshRendererComponent.cpp:10 | the maximum is at least each argument and equals one of them |
| RendererComponent.DynamicNavMeshRendererComponent.CalcBounds | Source/NavMeshRuntimeRender/Private/DynamicNavMeshRendererComponent.cpp:6-12 | the bounds are centred on the transformed local box, have the stored extents as box extent, and have the largest extent as sphere radius |
| RendererComponent.DynamicNavMeshRendererComponent.Clear | Source/NavMeshRuntimeRender/Private/NavMeshRenderer.cpp:131 | both mesh buffers become empty |
| RendererComponent.DynamicNavMeshRendererComponent.AppendVertex | Source/NavMeshRuntimeRender/Private/NavMeshRenderer.cpp:271 | the vertex is appended and its id is its index in the buffer |
| RendererComponent.DynamicNavMeshRendererComponent.AppendTriangle | Source/NavMeshRuntimeRender/Private/NavMeshRenderer.cpp:162 | the triangle is appended to the triangle buffer |
| Renderer.NavMeshRenderer.AssignNewVert | Source/NavMeshRuntimeRender/Private/NavMeshRenderer.cpp:256-273 | without a component the result is −1. Otherwise exactly one vertex is appended and its id returned: raised by ZOffset, with an up normal, a zero colour and the UVCoord of the unraised location. Triangles and extents are unchanged |
| Renderer.NavMeshRenderer.AppendFanTriangle | Source/NavMeshRuntimeRender/Private/NavMeshRenderer.cpp:158-163 | one loop iteration appends the centroid and the edge's two ends, and the triangle over those three new ids in the current group |
| Renderer.NavMeshRenderer.CloseFan | Source/NavMeshRuntimeRender/Private/NavMeshRenderer.cpp:164-167 | the closing step appends the last and the first boundary vertex, and one triangle joining them to the last centroid |
| Renderer.NavMeshRenderer.AppendFan | Source/NavMeshRuntimeRender/Private/NavMeshRenderer.cpp:157-167 | one polygon's fan appends exactly FanVerts and FanTris, whose shape FanIndices and FanCorners state |
| Renderer.NavMeshRenderer.AddTilePolys | Source/NavMeshRuntimeRender/Private/NavMeshRenderer.cpp:145-168 | the polygon loop leaves the buffers and the finished list equal to the fold AfterPolys from the old state |
| Renderer.NavMeshRenderer.BuildTiles | Source/NavMeshRuntimeRender/Private/NavMeshRenderer.cpp:134-171 | the tile loop leaves the buffers equal to the fold AfterTiles from the old buffers, with no polygon finished and group 0 |
| Renderer.NavMeshRenderer.CountFloors | Source/NavMeshRuntimeRender/Private/NavMeshRenderer.cpp:117-123 | NumberOfFloors becomes one plus the number of separator heights in (0, NavMeshSize.Z] |
| Renderer.NavMeshRenderer.SizeFloorGrid | Source/NavMeshRuntimeRender/Private/NavMeshRenderer.cpp:126-129 | FloorRowSize becomes RowSize of the floor count |
| Renderer.NavMeshRenderer.LayOutFloors | Source/NavMeshRuntimeRender/Private/NavMeshRenderer.cpp:115-129 | the size and lower corner come from the bounds. The separator heights end up sorted, as a permutation of the old ones. The floor count is that of the old heights, and the row size fits it |
| Renderer.NavMeshRenderer.UpdateMesh | Source/NavMeshRuntimeRender/Private/NavMeshRenderer.cpp:110-182 | without a nav mesh nothing changes. With one: the floor layout of LayOutFloors, component extents equal to the nav mesh's size, and buffers equal to the rebuild from empty. Every triangle is over three distinct existing vertices, groups are ordered and bounded by the number of readable tiles, the counters equal the buffer sizes, and one update is broadcast. When no polygon boundary can be read, the mesh is empty and both counters are 0 |
| Renderer.NavMeshRenderer.ClearMesh | Source/NavMeshRuntimeRender/Private/NavMeshRenderer.cpp:185-193 | the counters become −1 whether or not a component exists. With a component its buffers are emptied, its extents kept and one update broadcast. Without one, nothing else changes |
| Renderer.NavMeshRenderer.DrawFloors | Source/NavMeshRuntimeRender/Private/NavMeshRenderer.cpp:326-365 | a nav mesh under one unit high changes nothing. Otherwise the debug triangles become FloorTriangles: the base plane, then the plane of every drawn height, whose count, positivity and heights the FloorPlanes lemmas state |

## Left out

- The actor's lifecycle and editor hooks are not modelled (the constructor, `PostLoadSubobjects`, `OnConstruction` and `BeginPlay`, NavMeshRenderer.cpp:19-87), nor is the module boilerplate in NavMeshRuntimeRender.cpp. They only schedule rebuilds or wire up engine objects.
- `z_SaveMesh` is not modelled. It writes a static-mesh asset through editor-only engine calls.
- `GetNavMesh` is not modelled. It queries the world's navigation system, and it becomes the `Option<NavMeshSource>` input of `UpdateMesh`.
- `FinishedProcessing` is modelled only as the `meshUpdates` counter. Copying UVs to the overlay, `UpdateBounds`, marking render state or packages dirty, and the `OnMeshUpdate` broadcast are engine calls.
- `Renderer.NavMeshRenderer.UpdateMesh`: requires the component to exist whenever a nav mesh is found. The code would re-create it with `CreateDefaultSubobject` and set its material (NavMeshRenderer.cpp:99-109), which is engine object creation.
- `Renderer.NavMeshRenderer.UpdateMesh`: requires non-zero horizontal extents unless no polygon boundary can be read at all, because a fan's `UVCoord` would divide by zero in IEEE arithmetic and the model does not represent infinities or NaNs. A nav mesh with zero-size bounds is therefore modelled only when it has no readable boundary, an empty nav mesh for instance. It also requires every readable polygon boundary to have at least two vertices. With zero vertices the code indexes `currentVerts[-1]`; with one it reuses a stale `triA`.
- `Renderer.NavMeshRenderer.AssignNewVert`: requires non-zero horizontal extents and a row size of at least one, for the same reason.
- Setting the mesh material (NavMeshRenderer.cpp:104-106 and 177-179), `UpdateBounds`, `EnableAttributes`, `EnableVertexUVs` and `ProcessMesh` are not modelled. They are rendering-side engine calls that change nothing the model tracks.
- `DrawFloors` does not model creating the `FloorDebug` component, hiding it in game, `SetCustomMeshTriangles` or its material. The triangle list handed to `SetCustomMeshTriangles` is the `floorDebugTris` field.
- `GetUV_Coordinate` (NavMeshRenderer.cpp:93-96) has no member of its own. It only widens `UVCoord`'s single-precision result to double precision, which is the same value over reals.
- Single- and double-precision rounding is not modelled: all coordinates are reals. `FloorRowSize`'s `sqrt` followed by truncation is the exact integer square root.
- `FDynamicMesh3` internals are not modelled: element-id reuse after deletions, and the rejection of invalid, duplicate or non-manifold triangles by `AppendTriangle`. Ids are sequential buffer indices, and every triangle is appended; `MeshBuild.IndicesValid` states that its ids are valid and distinct.
- `LocalBounds.TransformBy(LocalToWorld)` in `CalcBounds` is engine math. The transformed box is taken as the parameter.
- `GetHiddenEditorViews` (DynamicNavMeshRendererComponent.cpp:14-16) is not modelled. It returns the constant 0.
- The unused `allVectors` array in `UpdateMesh` is not modelled.
- The header's declarations of a lazy, tile-at-a-time rebuild (`UpdateWorldTris`, `LazyUpdateWorldTris`, `LoadedTris`) are not modelled. They have no definitions in NavMeshRenderer.cpp.
- Logging (`UE_LOG`) is not modelled.
