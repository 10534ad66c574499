/**
 * UDynamicNavMeshRendererComponent: the dynamic-mesh component that shows
 * the rendered nav mesh. It fixes its bounds to the extents the renderer
 * gives it, and holds the mesh's vertex and triangle buffers.
 */
module RendererComponent {
  import opened Geometry
  import opened MeshBuild

  /** FBoxSphereBounds: an origin, a box extent and a sphere radius. */
  datatype BoxSphereBounds = BoxSphereBounds(origin: Vec3, boxExtent: Vec3, sphereRadius: real)

  function Max3(x: real, y: real, z: real): (m: real)
    ensures m >= x && m >= y && m >= z
    ensures m == x || m == y || m == z
  {
    if x >= y && x >= z then x else if y >= z then y else z
  }

  class DynamicNavMeshRendererComponent {
    /** BoundsExtents, set by the renderer to the nav mesh's full size. */
    var boundsExtents: Vec3
    /** The vertex buffer of the component's FDynamicMesh3, in append order. */
    var vertices: seq<Vertex>
    /** The triangle buffer of the component's FDynamicMesh3, in append order. */
    var triangles: seq<Triangle>

    constructor()
      ensures boundsExtents == Vec3(0.0, 0.0, 0.0) && vertices == [] && triangles == []
    {
      boundsExtents := Vec3(0.0, 0.0, 0.0);
      vertices := [];
      triangles := [];
    }

    /**
     * CalcBounds, given the local bounds already transformed to world space:
     * centred on that box, but with the stored extents as box extent and
     * the largest of them as sphere radius, so the sphere contains the box's
     * centre-to-face distances on every axis.
     */
    function CalcBounds(transformedLocalBox: Box): (r: BoxSphereBounds)
      reads this
      ensures r.origin == Center(transformedLocalBox)
      ensures r.boxExtent == boundsExtents
      ensures r.sphereRadius >= boundsExtents.x && r.sphereRadius >= boundsExtents.y &&
              r.sphereRadius >= boundsExtents.z
      ensures r.sphereRadius == boundsExtents.x || r.sphereRadius == boundsExtents.y ||
              r.sphereRadius == boundsExtents.z
    {
      BoxSphereBounds(Center(transformedLocalBox), boundsExtents,
                      Max3(boundsExtents.x, boundsExtents.y, boundsExtents.z))
    }

    /** FDynamicMesh3::Clear: both buffers become empty. */
    method Clear()
      modifies this`vertices, this`triangles
      ensures vertices == [] && triangles == []
    {
      vertices := [];
      triangles := [];
    }

    /** FDynamicMesh3::AppendVertex: the new vertex's id is its position in the buffer. */
    method AppendVertex(v: Vertex) returns (id: int)
      modifies this`vertices
      ensures vertices == old(vertices) + [v]
      ensures id == |old(vertices)| && vertices[id] == v
    {
      id := |vertices|;
      vertices := vertices + [v];
    }

    /** FDynamicMesh3::AppendTriangle: appends the triangle; the engine's rejection of invalid triangles is not modelled. */
    method AppendTriangle(t: Triangle)
      modifies this`triangles
      ensures triangles == old(triangles) + [t]
    {
      triangles := triangles + [t];
    }
  }
}
