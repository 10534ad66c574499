/**
 * What one rebuild of ANavMeshRenderer appends to the rendered mesh, as a
 * fold over the nav mesh's tiles: polygons are deduplicated by exact
 * centroid equality against the polygons finished so far in this rebuild,
 * and each new polygon whose boundary can be read is fan-triangulated from
 * its centroid, one triangle group per tile whose polygons could be read.
 */
module MeshBuild {
  import opened Geometry
  import opened Wrappers
  import opened UVMapping

  type PolyRef = nat

  /** FNavPoly: a polygon's reference and its centroid. */
  datatype NavPoly = NavPoly(ref: PolyRef, center: Vec3)

  /** FVertexInfo as AssignNewVert fills it in. */
  datatype Vertex = Vertex(position: Vec3, uv: Vec2, normal: Vec3, color: Vec3)

  /** Three vertex ids and a triangle group, as FDynamicMesh3::AppendTriangle takes them. */
  datatype Triangle = Triangle(a: int, b: int, c: int, group: int)

  /**
   * What the renderer reads from the nav mesh: its bounds, the result of
   * GetPolysInTile per tile (None when the query fails) and the result of
   * GetPolyVerts per polygon reference (a missing key when it fails).
   */
  datatype NavMeshSource = NavMeshSource(
    bounds: Box,
    tiles: seq<Option<seq<NavPoly>>>,
    boundaries: map<PolyRef, seq<Vec3>>)

  /** Every boundary that can be read has at least two vertices. */
  predicate BoundariesOk(boundaries: map<PolyRef, seq<Vec3>>) {
    forall r :: r in boundaries ==> |boundaries[r]| >= 2
  }

  /**
   * A nav mesh whose boundaries are usable, and whose horizontal extents are
   * non-zero unless no polygon boundary can be read at all (an empty nav
   * mesh), since only a fan divides by the extents.
   */
  predicate SourceOk(nav: NavMeshSource) {
    BoundariesOk(nav.boundaries) &&
    ((Size(nav.bounds).x != 0.0 && Size(nav.bounds).y != 0.0) || nav.boundaries == map[])
  }

  const UpVector := Vec3(0.0, 0.0, 1.0)
  const ZeroVector := Vec3(0.0, 0.0, 0.0)

  /**
   * The vertex AssignNewVert appends: shifted up by zOffset, with its UV
   * computed from the unshifted location, an up normal and a zero colour.
   */
  function NewVertex(atlas: AtlasState, zOffset: real, location: Vec3, uvHeight: real): Vertex
    requires AtlasOk(atlas)
  {
    Vertex(Add(location, Vec3(0.0, 0.0, zOffset)), UVCoord(atlas, location, uvHeight), UpVector, ZeroVector)
  }

  /** Everything a rebuild reads besides the tiles. */
  datatype Env = Env(atlas: AtlasState, zOffset: real, boundaries: map<PolyRef, seq<Vec3>>)

  /** A rebuild environment in which every fan it builds has computable UVs. */
  predicate EnvOk(env: Env) {
    env.atlas.rowSize >= 1 && BoundariesOk(env.boundaries) && (AtlasOk(env.atlas) || env.boundaries == map[])
  }

  /** A vertex of the fan around centroid c: every one takes its UV floor from c.z. */
  function FanVertex(env: Env, c: Vec3, p: Vec3): Vertex
    requires AtlasOk(env.atlas)
  {
    NewVertex(env.atlas, env.zOffset, p, c.z)
  }

  /** Vertices appended by the loop iterations i = 1 .. k-1 of the fan. */
  function FanLoopVerts(env: Env, c: Vec3, vs: seq<Vec3>, k: nat): (r: seq<Vertex>)
    requires AtlasOk(env.atlas) && 1 <= k <= |vs|
    ensures |r| == 3 * (k - 1)
  {
    if k == 1 then []
    else FanLoopVerts(env, c, vs, k - 1) + [FanVertex(env, c, c), FanVertex(env, c, vs[k - 2]), FanVertex(env, c, vs[k - 1])]
  }

  /** Triangles appended by the loop iterations i = 1 .. k-1, vertex ids counted from base. */
  function FanLoopTris(base: int, k: nat, g: int): (r: seq<Triangle>)
    requires 1 <= k
    ensures |r| == k - 1
  {
    if k == 1 then []
    else FanLoopTris(base, k - 1, g) + [Triangle(base + 3 * (k - 2), base + 3 * (k - 2) + 1, base + 3 * (k - 2) + 2, g)]
  }

  /** All vertices of the fan: the loop's, then the two of the closing triangle. */
  function FanVerts(env: Env, c: Vec3, vs: seq<Vec3>): (r: seq<Vertex>)
    requires AtlasOk(env.atlas) && |vs| >= 2
    ensures |r| == 3 * |vs| - 1
  {
    FanLoopVerts(env, c, vs, |vs|) + [FanVertex(env, c, vs[|vs| - 1]), FanVertex(env, c, vs[0])]
  }

  /** All triangles of the fan; the closing one reuses the last loop centroid id. */
  function FanTris(base: int, n: nat, g: int): (r: seq<Triangle>)
    requires n >= 2
    ensures |r| == n
  {
    FanLoopTris(base, n, g) + [Triangle(base + 3 * (n - 2), base + 3 * (n - 1), base + 3 * (n - 1) + 1, g)]
  }

  lemma {:induction false} FanLoopVertsAt(env: Env, c: Vec3, vs: seq<Vec3>, k: nat)
    requires AtlasOk(env.atlas) && 1 <= k <= |vs|
    ensures forall t | 0 <= t < k - 1 ::
      FanLoopVerts(env, c, vs, k)[3 * t] == FanVertex(env, c, c) &&
      FanLoopVerts(env, c, vs, k)[3 * t + 1] == FanVertex(env, c, vs[t]) &&
      FanLoopVerts(env, c, vs, k)[3 * t + 2] == FanVertex(env, c, vs[t + 1])
    decreases k
  {
    if k > 1 {
      FanLoopVertsAt(env, c, vs, k - 1);
    }
  }

  lemma {:induction false} FanLoopTrisAt(base: int, k: nat, g: int)
    requires 1 <= k
    ensures forall t | 0 <= t < k - 1 ::
      FanLoopTris(base, k, g)[t] == Triangle(base + 3 * t, base + 3 * t + 1, base + 3 * t + 2, g)
    decreases k
  {
    if k > 1 {
      FanLoopTrisAt(base, k - 1, g);
    }
  }

  /**
   * The triangles of the fan of an n-vertex boundary (n >= 2) whose vertices
   * are appended from id base: n triangles of group g, each with three
   * distinct ids among the fan's 3n-1 vertices; the closing triangle reuses
   * the centroid id of the last loop triangle.
   */
  lemma FanIndices(base: int, n: nat, g: int)
    requires n >= 2
    ensures |FanTris(base, n, g)| == n
    ensures forall t | 0 <= t < n ::
      FanTris(base, n, g)[t].group == g &&
      base <= FanTris(base, n, g)[t].a < base + 3 * n - 1 &&
      base <= FanTris(base, n, g)[t].b < base + 3 * n - 1 &&
      base <= FanTris(base, n, g)[t].c < base + 3 * n - 1 &&
      FanTris(base, n, g)[t].a != FanTris(base, n, g)[t].b &&
      FanTris(base, n, g)[t].b != FanTris(base, n, g)[t].c &&
      FanTris(base, n, g)[t].a != FanTris(base, n, g)[t].c
    ensures FanTris(base, n, g)[n - 1].a == FanTris(base, n, g)[n - 2].a
  {
    FanLoopTrisAt(base, n, g);
    var ft, lt := FanTris(base, n, g), FanLoopTris(base, n, g);
    assert forall t | 0 <= t < |lt| :: ft[t] == lt[t];
  }

  /**
   * The geometry of the fan: its 3n-1 vertices are such that triangle t
   * joins the centroid to the boundary edge (v[t], v[t+1 mod n]), every
   * vertex taking its UV floor from the centroid's height.
   */
  lemma FanCorners(env: Env, c: Vec3, vs: seq<Vec3>, base: int, g: int)
    requires AtlasOk(env.atlas) && |vs| >= 2
    ensures |FanVerts(env, c, vs)| == 3 * |vs| - 1
    ensures forall t | 0 <= t < |vs| ::
      var tri, fv := FanTris(base, |vs|, g)[t], FanVerts(env, c, vs);
      base <= tri.a < base + |fv| && base <= tri.b < base + |fv| && base <= tri.c < base + |fv| &&
      fv[tri.a - base] == FanVertex(env, c, c) &&
      fv[tri.b - base] == FanVertex(env, c, vs[t]) &&
      fv[tri.c - base] == FanVertex(env, c, vs[if t + 1 < |vs| then t + 1 else 0])
  {
    var n := |vs|;
    FanIndices(base, n, g);
    FanLoopTrisAt(base, n, g);
    FanLoopVertsAt(env, c, vs, n);
    var fv, ft := FanVerts(env, c, vs), FanTris(base, n, g);
    var lv, lt := FanLoopVerts(env, c, vs, n), FanLoopTris(base, n, g);
    assert forall j | 0 <= j < |lv| :: fv[j] == lv[j];
    assert forall t | 0 <= t < |lt| :: ft[t] == lt[t];
    assert fv[3 * (n - 1)] == FanVertex(env, c, vs[n - 1]);
    assert fv[3 * (n - 1) + 1] == FanVertex(env, c, vs[0]);
    assert fv[3 * (n - 2)] == FanVertex(env, c, c);
  }

  /** Every fan vertex is a FanVertex of the centroid or of a boundary vertex. */
  lemma {:induction false} FanLoopVertsFrom(env: Env, c: Vec3, vs: seq<Vec3>, k: nat)
    requires AtlasOk(env.atlas) && 1 <= k <= |vs|
    ensures forall j | 0 <= j < |FanLoopVerts(env, c, vs, k)| ::
      exists p :: (p == c || p in vs) && FanLoopVerts(env, c, vs, k)[j] == FanVertex(env, c, p)
    decreases k
  {
    if k > 1 {
      FanLoopVertsFrom(env, c, vs, k - 1);
      var lv, pre := FanLoopVerts(env, c, vs, k), FanLoopVerts(env, c, vs, k - 1);
      forall j | 0 <= j < |lv|
        ensures exists p :: (p == c || p in vs) && lv[j] == FanVertex(env, c, p)
      {
        if j < |pre| {
          assert lv[j] == pre[j];
        } else if j == |pre| {
          assert lv[j] == FanVertex(env, c, c);
        } else if j == |pre| + 1 {
          assert vs[k - 2] in vs && lv[j] == FanVertex(env, c, vs[k - 2]);
        } else {
          assert vs[k - 1] in vs && lv[j] == FanVertex(env, c, vs[k - 1]);
        }
      }
    } else {
      assert FanLoopVerts(env, c, vs, k) == [];
    }
  }

  lemma FanVertsFrom(env: Env, c: Vec3, vs: seq<Vec3>)
    requires AtlasOk(env.atlas) && |vs| >= 2
    ensures forall j | 0 <= j < |FanVerts(env, c, vs)| ::
      exists p :: (p == c || p in vs) && FanVerts(env, c, vs)[j] == FanVertex(env, c, p)
  {
    FanLoopVertsFrom(env, c, vs, |vs|);
    var fv, lv := FanVerts(env, c, vs), FanLoopVerts(env, c, vs, |vs|);
    forall j | 0 <= j < |fv|
      ensures exists p :: (p == c || p in vs) && fv[j] == FanVertex(env, c, p)
    {
      if j < |lv| {
        assert fv[j] == lv[j];
      } else if j == |lv| {
        assert fv[j] == FanVertex(env, c, vs[|vs| - 1]);
      } else {
        assert fv[j] == FanVertex(env, c, vs[0]);
      }
    }
  }

  /**
   * A polygon is textured from one UV island: with several floors, every
   * vertex of its fan (centroid and boundary inside the nav-mesh bounds)
   * gets a UV inside the island of the grid cell of the centroid's floor.
   */
  lemma FanInOneIsland(env: Env, c: Vec3, vs: seq<Vec3>)
    requires AtlasOk(env.atlas) && env.atlas.size.x > 0.0 && env.atlas.size.y > 0.0 && MarginOk(env.atlas)
    requires env.atlas.numberOfFloors > 1 && |vs| >= 2
    requires Inside(env.atlas, c) && forall k | 0 <= k < |vs| :: Inside(env.atlas, vs[k])
    ensures forall j | 0 <= j < |FanVerts(env, c, vs)| ::
      var uv, cell, r, m := FanVerts(env, c, vs)[j].uv, CellOf(env.atlas, c.z), env.atlas.rowSize as real, env.atlas.margin;
      IslandLo(cell.0 as real, r, m) <= uv.x <= IslandHi(cell.0 as real, r, m) &&
      IslandLo(cell.1 as real, r, m) <= uv.y <= IslandHi(cell.1 as real, r, m)
  {
    FanVertsFrom(env, c, vs);
    var fv := FanVerts(env, c, vs);
    forall j | 0 <= j < |fv|
      ensures var uv, cell, r, m := fv[j].uv, CellOf(env.atlas, c.z), env.atlas.rowSize as real, env.atlas.margin;
        IslandLo(cell.0 as real, r, m) <= uv.x <= IslandHi(cell.0 as real, r, m) &&
        IslandLo(cell.1 as real, r, m) <= uv.y <= IslandHi(cell.1 as real, r, m)
    {
      var p :| (p == c || p in vs) && fv[j] == FanVertex(env, c, p);
      assert Inside(env.atlas, p);
      assert fv[j].uv == UVCoord(env.atlas, p, c.z);
      ColumnIsland(env.atlas, p, c.z);
      RowIsland(env.atlas, p, c.z);
    }
  }

  /** The working state of one rebuild: mesh so far, finishedPolys, currentGroup. */
  datatype BuildState = BuildState(verts: seq<Vertex>, tris: seq<Triangle>, finished: seq<NavPoly>, group: int)

  const Start := BuildState([], [], [], 0)

  /** finishedPolys.ContainsByPredicate: some finished polygon has this exact centroid. */
  predicate IsFinished(finished: seq<NavPoly>, center: Vec3) {
    exists k | 0 <= k < |finished| :: finished[k].center == center
  }

  function AfterPoly(env: Env, st: BuildState, p: NavPoly): BuildState
    requires EnvOk(env)
  {
    if IsFinished(st.finished, p.center) then st
    else
      var marked := st.(finished := st.finished + [p]);
      if p.ref in env.boundaries then
        var vs := env.boundaries[p.ref];
        marked.(verts := st.verts + FanVerts(env, p.center, vs),
                tris := st.tris + FanTris(|st.verts|, |vs|, st.group))
      else marked
  }

  function AfterPolys(env: Env, st: BuildState, ps: seq<NavPoly>): BuildState
    requires EnvOk(env)
    decreases |ps|
  {
    if ps == [] then st
    else AfterPoly(env, AfterPolys(env, st, ps[..|ps| - 1]), ps[|ps| - 1])
  }

  /** A tile whose polygon query failed is skipped and does not advance the group. */
  function AfterTile(env: Env, st: BuildState, tile: Option<seq<NavPoly>>): BuildState
    requires EnvOk(env)
  {
    match tile
    case None => st
    case Some(ps) =>
      var s := AfterPolys(env, st, ps);
      s.(group := s.group + 1)
  }

  function AfterTiles(env: Env, st: BuildState, tiles: seq<Option<seq<NavPoly>>>): BuildState
    requires EnvOk(env)
    decreases |tiles|
  {
    if tiles == [] then st
    else AfterTile(env, AfterTiles(env, st, tiles[..|tiles| - 1]), tiles[|tiles| - 1])
  }

  /** The polygons of a tile never change the group. */
  lemma {:induction false} PolysKeepGroup(env: Env, st: BuildState, ps: seq<NavPoly>)
    requires EnvOk(env)
    ensures AfterPolys(env, st, ps).group == st.group
    decreases |ps|
  {
    if ps != [] {
      PolysKeepGroup(env, st, ps[..|ps| - 1]);
    }
  }

  /** No polygon of a readable tile has a readable boundary. */
  predicate NoneReadable(tiles: seq<Option<seq<NavPoly>>>, boundaries: map<PolyRef, seq<Vec3>>) {
    forall v, k | 0 <= v < |tiles| && tiles[v].Some? && 0 <= k < |tiles[v].value| ::
      tiles[v].value[k].ref !in boundaries
  }

  /** Polygons none of whose boundaries can be read add nothing to the mesh. */
  lemma {:induction false} PolysUnreadable(env: Env, st: BuildState, ps: seq<NavPoly>)
    requires EnvOk(env) && forall k | 0 <= k < |ps| :: ps[k].ref !in env.boundaries
    ensures AfterPolys(env, st, ps).verts == st.verts && AfterPolys(env, st, ps).tris == st.tris
    decreases |ps|
  {
    if ps != [] {
      var pre := ps[..|ps| - 1];
      assert forall k | 0 <= k < |pre| :: pre[k] == ps[k];
      PolysUnreadable(env, st, pre);
    }
  }

  /**
   * A nav mesh none of whose polygon boundaries can be read (an empty one,
   * say) rebuilds to an empty mesh.
   */
  lemma {:induction false} TilesUnreadable(env: Env, st: BuildState, tiles: seq<Option<seq<NavPoly>>>)
    requires EnvOk(env) && NoneReadable(tiles, env.boundaries)
    ensures AfterTiles(env, st, tiles).verts == st.verts && AfterTiles(env, st, tiles).tris == st.tris
    decreases |tiles|
  {
    if tiles != [] {
      var pre := tiles[..|tiles| - 1];
      assert forall v | 0 <= v < |pre| :: pre[v] == tiles[v];
      TilesUnreadable(env, st, pre);
      var last := tiles[|tiles| - 1];
      if last.Some? {
        PolysUnreadable(env, AfterTiles(env, st, pre), last.value);
      }
    }
  }

  /** The number of tiles whose polygon query succeeded. */
  function CountRead(tiles: seq<Option<seq<NavPoly>>>): nat {
    if tiles == [] then 0
    else CountRead(tiles[..|tiles| - 1]) + (if tiles[|tiles| - 1].Some? then 1 else 0)
  }

  /** Every triangle refers to three distinct existing vertices. */
  ghost predicate IndicesValid(vertexCount: int, tris: seq<Triangle>) {
    forall t | 0 <= t < |tris| ::
      0 <= tris[t].a < vertexCount && 0 <= tris[t].b < vertexCount && 0 <= tris[t].c < vertexCount &&
      tris[t].a != tris[t].b && tris[t].b != tris[t].c && tris[t].a != tris[t].c
  }

  /** No two finished polygons share a centroid. */
  ghost predicate DistinctCenters(finished: seq<NavPoly>) {
    forall i, j | 0 <= i < j < |finished| :: finished[i].center != finished[j].center
  }

  /** Groups run from 0 up to the current group, in the order the triangles were appended. */
  ghost predicate GroupsOrdered(tris: seq<Triangle>, group: int) {
    0 <= group &&
    (forall t | 0 <= t < |tris| :: 0 <= tris[t].group <= group) &&
    (forall s, t | 0 <= s < t < |tris| :: tris[s].group <= tris[t].group)
  }

  ghost predicate WellFormed(st: BuildState) {
    IndicesValid(|st.verts|, st.tris) && DistinctCenters(st.finished) && GroupsOrdered(st.tris, st.group)
  }

  /** What the rebuild keeps from an earlier state: it only ever appends. */
  ghost predicate Extends(st: BuildState, r: BuildState) {
    |st.verts| <= |r.verts| && r.verts[..|st.verts|] == st.verts &&
    |st.tris| <= |r.tris| && r.tris[..|st.tris|] == st.tris &&
    |st.finished| <= |r.finished| && r.finished[..|st.finished|] == st.finished
  }

  lemma AppendFanKeepsIndices(env: Env, c: Vec3, vs: seq<Vec3>, verts: seq<Vertex>, tris: seq<Triangle>, g: int)
    requires AtlasOk(env.atlas) && |vs| >= 2 && IndicesValid(|verts|, tris)
    ensures IndicesValid(|verts + FanVerts(env, c, vs)|, tris + FanTris(|verts|, |vs|, g))
  {
    FanIndices(|verts|, |vs|, g);
    var ft := FanTris(|verts|, |vs|, g);
    var all := tris + ft;
    assert forall t | |tris| <= t < |all| :: all[t] == ft[t - |tris|];
  }

  lemma AppendGroupKeepsOrder(tris: seq<Triangle>, added: seq<Triangle>, g: int)
    requires GroupsOrdered(tris, g)
    requires forall t | 0 <= t < |added| :: added[t].group == g
    ensures GroupsOrdered(tris + added, g)
  {
    var all := tris + added;
    forall t | 0 <= t < |all|
      ensures 0 <= all[t].group <= g
    {
      if t < |tris| {
        assert all[t] == tris[t];
      } else {
        assert all[t] == added[t - |tris|];
      }
    }
    forall s, t | 0 <= s < t < |all|
      ensures all[s].group <= all[t].group
    {
      if t < |tris| {
        assert all[s] == tris[s] && all[t] == tris[t];
      } else if s < |tris| {
        assert all[s] == tris[s] && all[t] == added[t - |tris|];
      } else {
        assert all[s] == added[s - |tris|] && all[t] == added[t - |tris|];
      }
    }
  }

  lemma AppendNewCenter(finished: seq<NavPoly>, p: NavPoly)
    requires DistinctCenters(finished) && !IsFinished(finished, p.center)
    ensures DistinctCenters(finished + [p])
    ensures IsFinished(finished + [p], p.center)
  {
    assert (finished + [p])[|finished|] == p;
  }

  /**
   * One polygon: a duplicate centroid changes nothing; otherwise the polygon
   * is recorded as finished whether or not its boundary can be read, and a
   * readable n-vertex boundary adds n triangles of the current group and
   * 3n-1 vertices. Well-formedness is kept.
   */
  lemma PolyStep(env: Env, st: BuildState, p: NavPoly)
    requires EnvOk(env) && WellFormed(st)
    ensures WellFormed(AfterPoly(env, st, p))
    ensures Extends(st, AfterPoly(env, st, p))
    ensures AfterPoly(env, st, p).group == st.group
    ensures IsFinished(AfterPoly(env, st, p).finished, p.center)
    ensures IsFinished(st.finished, p.center) ==> AfterPoly(env, st, p) == st
    ensures !IsFinished(st.finished, p.center) ==> AfterPoly(env, st, p).finished == st.finished + [p]
    ensures !IsFinished(st.finished, p.center) && p.ref !in env.boundaries ==>
      AfterPoly(env, st, p).verts == st.verts && AfterPoly(env, st, p).tris == st.tris
    ensures !IsFinished(st.finished, p.center) && p.ref in env.boundaries ==>
      |AfterPoly(env, st, p).tris| == |st.tris| + |env.boundaries[p.ref]| &&
      |AfterPoly(env, st, p).verts| == |st.verts| + 3 * |env.boundaries[p.ref]| - 1
    ensures forall t | |st.tris| <= t < |AfterPoly(env, st, p).tris| :: AfterPoly(env, st, p).tris[t].group == st.group
  {
    var r := AfterPoly(env, st, p);
    if !IsFinished(st.finished, p.center) {
      AppendNewCenter(st.finished, p);
      assert r.finished[..|st.finished|] == st.finished;
      if p.ref in env.boundaries {
        var vs := env.boundaries[p.ref];
        var base := |st.verts|;
        FanIndices(base, |vs|, st.group);
        var ft := FanTris(base, |vs|, st.group);
        AppendFanKeepsIndices(env, p.center, vs, st.verts, st.tris, st.group);
        AppendGroupKeepsOrder(st.tris, ft, st.group);
        assert r.tris == st.tris + ft;
        assert forall t | |st.tris| <= t < |r.tris| :: r.tris[t] == ft[t - |st.tris|];
        assert r.verts[..|st.verts|] == st.verts;
        assert r.tris[..|st.tris|] == st.tris;
      }
    }
  }

  lemma ExtendsTrans(a: BuildState, b: BuildState, c: BuildState)
    requires Extends(a, b) && Extends(b, c)
    ensures Extends(a, c)
  {
    assert c.verts[..|a.verts|] == c.verts[..|b.verts|][..|a.verts|];
    assert c.tris[..|a.tris|] == c.tris[..|b.tris|][..|a.tris|];
    assert c.finished[..|a.finished|] == c.finished[..|b.finished|][..|a.finished|];
  }

  /** A polygon once finished stays finished. */
  lemma FinishedKept(st: BuildState, r: BuildState, center: Vec3)
    requires Extends(st, r) && IsFinished(st.finished, center)
    ensures IsFinished(r.finished, center)
  {
    var j :| 0 <= j < |st.finished| && st.finished[j].center == center;
    assert r.finished[j] == st.finished[j];
  }

  /** Triangles added in two steps that each add only group g triangles. */
  lemma NewTrianglesInGroup(st: BuildState, mid: BuildState, r: BuildState, g: int)
    requires Extends(st, mid) && Extends(mid, r)
    requires forall t | |st.tris| <= t < |mid.tris| :: mid.tris[t].group == g
    requires forall t | |mid.tris| <= t < |r.tris| :: r.tris[t].group == g
    ensures forall t | |st.tris| <= t < |r.tris| :: r.tris[t].group == g
  {
    forall t | |st.tris| <= t < |r.tris|
      ensures r.tris[t].group == g
    {
      if t < |mid.tris| {
        assert r.tris[t] == r.tris[..|mid.tris|][t];
      }
    }
  }

  /**
   * The polygons of one tile: well-formedness is kept, the group does not
   * change, every new triangle carries the current group, and every polygon
   * of the tile ends up finished.
   */
  lemma {:induction false} PolysStep(env: Env, st: BuildState, ps: seq<NavPoly>)
    requires EnvOk(env) && WellFormed(st)
    ensures WellFormed(AfterPolys(env, st, ps))
    ensures Extends(st, AfterPolys(env, st, ps))
    ensures AfterPolys(env, st, ps).group == st.group
    ensures forall t | |st.tris| <= t < |AfterPolys(env, st, ps).tris| :: AfterPolys(env, st, ps).tris[t].group == st.group
    ensures forall k | 0 <= k < |ps| :: IsFinished(AfterPolys(env, st, ps).finished, ps[k].center)
    decreases |ps|
  {
    if ps != [] {
      var pre := ps[..|ps| - 1];
      var mid := AfterPolys(env, st, pre);
      PolysStep(env, st, pre);
      PolyStep(env, mid, ps[|ps| - 1]);
      var r := AfterPolys(env, st, ps);
      assert r == AfterPoly(env, mid, ps[|ps| - 1]);
      ExtendsTrans(st, mid, r);
      NewTrianglesInGroup(st, mid, r, st.group);
      forall k | 0 <= k < |ps| - 1
        ensures IsFinished(r.finished, ps[k].center)
      {
        assert pre[k] == ps[k];
        FinishedKept(mid, r, ps[k].center);
      }
    }
  }

  /** One tile: as PolysStep, and a tile that could be read advances the group by one. */
  lemma TileStep(env: Env, st: BuildState, tile: Option<seq<NavPoly>>)
    requires EnvOk(env) && WellFormed(st)
    ensures var r := AfterTile(env, st, tile);
      WellFormed(r) && Extends(st, r) &&
      r.group == st.group + (if tile.Some? then 1 else 0) &&
      (forall t | |st.tris| <= t < |r.tris| :: r.tris[t].group == st.group) &&
      (tile.Some? ==> forall k | 0 <= k < |tile.value| :: IsFinished(r.finished, tile.value[k].center))
  {
    if tile.Some? {
      PolysStep(env, st, tile.value);
    }
  }

  /**
   * A whole rebuild: the mesh is well formed (every triangle refers to three
   * distinct existing vertices, finished centroids are pairwise distinct,
   * groups are ordered), the final group is the number of tiles that could
   * be read, and every polygon of such a tile has been finished.
   */
  lemma {:induction false} TilesStep(env: Env, st: BuildState, tiles: seq<Option<seq<NavPoly>>>)
    requires EnvOk(env) && WellFormed(st)
    ensures WellFormed(AfterTiles(env, st, tiles))
    ensures Extends(st, AfterTiles(env, st, tiles))
    ensures AfterTiles(env, st, tiles).group == st.group + CountRead(tiles)
    ensures forall v, k | 0 <= v < |tiles| && tiles[v].Some? && 0 <= k < |tiles[v].value| ::
      IsFinished(AfterTiles(env, st, tiles).finished, tiles[v].value[k].center)
    decreases |tiles|
  {
    if tiles != [] {
      var pre := tiles[..|tiles| - 1];
      var mid := AfterTiles(env, st, pre);
      TilesStep(env, st, pre);
      TileStep(env, mid, tiles[|tiles| - 1]);
      var r := AfterTiles(env, st, tiles);
      assert r == AfterTile(env, mid, tiles[|tiles| - 1]);
      ExtendsTrans(st, mid, r);
      forall v, k | 0 <= v < |tiles| - 1 && tiles[v].Some? && 0 <= k < |tiles[v].value|
        ensures IsFinished(r.finished, tiles[v].value[k].center)
      {
        assert pre[v] == tiles[v];
        FinishedKept(mid, r, tiles[v].value[k].center);
      }
    }
  }

  /** The rebuild from an empty mesh. */
  lemma BuildWellFormed(env: Env, tiles: seq<Option<seq<NavPoly>>>)
    requires EnvOk(env)
    ensures var r := AfterTiles(env, Start, tiles);
      IndicesValid(|r.verts|, r.tris) && DistinctCenters(r.finished) &&
      GroupsOrdered(r.tris, r.group) && r.group == CountRead(tiles)
  {
    TilesStep(env, Start, tiles);
  }

  /** A single tile holding a single polygon is that polygon's step, then the group advance. */
  lemma SingleTileSinglePoly(env: Env, st: BuildState, p: NavPoly)
    requires EnvOk(env)
    ensures AfterTiles(env, st, [Some([p])]) == AfterPoly(env, st, p).(group := st.group + 1)
  {
    assert [Some([p])][..0] == [];
    assert [p][..0] == [];
    assert AfterPolys(env, st, [p]) == AfterPoly(env, AfterPolys(env, st, []), p);
  }

  /**
   * Scenario: a single tile holding one triangular polygon yields three
   * triangles and eight vertices (the centroid is appended once per loop
   * iteration), in one group.
   */
  lemma TriangleScenario(env: Env, p: NavPoly)
    requires EnvOk(env) && p.ref in env.boundaries && |env.boundaries[p.ref]| == 3
    ensures var r := AfterTiles(env, Start, [Some([p])]);
      |r.tris| == 3 && |r.verts| == 8 && r.group == 1 && r.finished == [p]
  {
    assert !IsFinished([], p.center);
    PolyStep(env, Start, p);
    SingleTileSinglePoly(env, Start, p);
  }
}
