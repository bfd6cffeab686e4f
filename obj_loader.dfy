/** loadMesh: flattening a parsed Wavefront OBJ file into a non-shared vertex stream. */
module ObjLoader {
  import opened Basics
  import opened MeshRegistry

  /** `tinyobj::index_t`, reduced to the position and normal indices loadMesh reads (-1 when absent). */
  datatype Index = Index(vertexIndex: int, normalIndex: int)

  /** `tinyobj::shape_t`, reduced to its mesh's corner list. */
  datatype Shape = Shape(indices: seq<Index>)

  /** `tinyobj::attrib_t`, reduced to its flat position and normal arrays, three floats per entry. */
  datatype Attrib<F> = Attrib(vertices: seq<F>, normals: seq<F>)

  /** `PosColorVertex`: position, normal and packed colour. */
  datatype PosColorVertex<F> = PosColorVertex(position: Vec3<F>, normal: Vec3<F>, abgr: U32)

  /** The colour every loaded vertex gets: opaque white. */
  const OPAQUE_WHITE: U32 := 0xffff_ffff

  /** The corner's position and normal lookups stay inside the attribute arrays. */
  predicate InRange<F>(attrib: Attrib<F>, idx: Index)
  {
    && 0 <= idx.vertexIndex && 3 * idx.vertexIndex + 2 < |attrib.vertices|
    && 0 <= idx.normalIndex && 3 * idx.normalIndex + 2 < |attrib.normals|
  }

  predicate AllInRange<F>(attrib: Attrib<F>, cs: seq<Index>)
  {
    forall k :: 0 <= k < |cs| ==> InRange(attrib, cs[k])
  }

  /** Every shape's corner list, concatenated in shape order. */
  function Corners(shapes: seq<Shape>): (cs: seq<Index>)
    ensures |cs| == TotalCorners(shapes)
  {
    if |shapes| == 0 then [] else Corners(shapes[..|shapes| - 1]) + shapes[|shapes| - 1].indices
  }

  /** The number of corners summed over all shapes. */
  function TotalCorners(shapes: seq<Shape>): (n: nat)
    ensures n == 0 <==> forall i :: 0 <= i < |shapes| ==> |shapes[i].indices| == 0
  {
    if |shapes| == 0 then 0 else TotalCorners(shapes[..|shapes| - 1]) + |shapes[|shapes| - 1].indices|
  }

  /** Corner `j` of shape `i` sits right after all corners of the shapes before `i`. */
  lemma {:induction false} CornersAt(shapes: seq<Shape>, i: nat, j: nat)
    requires i < |shapes| && j < |shapes[i].indices|
    ensures TotalCorners(shapes[..i]) + j < |Corners(shapes)|
    ensures Corners(shapes)[TotalCorners(shapes[..i]) + j] == shapes[i].indices[j]
  {
    var init := shapes[..|shapes| - 1];
    if i == |shapes| - 1 {
      assert shapes[..i] == init;
    } else {
      assert init[..i] == shapes[..i];
      CornersAt(init, i, j);
    }
  }

  /** The vertex emitted for one corner. */
  function CornerVertex<F>(attrib: Attrib<F>, idx: Index): (v: PosColorVertex<F>)
    requires InRange(attrib, idx)
    ensures [v.position.x, v.position.y, v.position.z] == attrib.vertices[3 * idx.vertexIndex .. 3 * idx.vertexIndex + 3]
    ensures [v.normal.x, v.normal.y, v.normal.z] == attrib.normals[3 * idx.normalIndex .. 3 * idx.normalIndex + 3]
    ensures v.abgr == OPAQUE_WHITE
  {
    var vi, ni := 3 * idx.vertexIndex, 3 * idx.normalIndex;
    PosColorVertex(
      Vec3(attrib.vertices[vi], attrib.vertices[vi + 1], attrib.vertices[vi + 2]),
      Vec3(attrib.normals[ni], attrib.normals[ni + 1], attrib.normals[ni + 2]),
      OPAQUE_WHITE)
  }

  /** One vertex per corner, in corner order. */
  function FlattenCorners<F>(attrib: Attrib<F>, cs: seq<Index>): (vs: seq<PosColorVertex<F>>)
    requires AllInRange(attrib, cs)
    ensures |vs| == |cs|
  {
    if |cs| == 0 then []
    else FlattenCorners(attrib, cs[..|cs| - 1]) + [CornerVertex(attrib, cs[|cs| - 1])]
  }

  /** Output vertex k is the vertex of corner k. */
  lemma {:induction false} FlattenedVertexAt<F>(attrib: Attrib<F>, cs: seq<Index>, k: nat)
    requires AllInRange(attrib, cs) && k < |cs|
    ensures k < |FlattenCorners(attrib, cs)|
    ensures FlattenCorners(attrib, cs)[k] == CornerVertex(attrib, cs[k])
  {
    if k < |cs| - 1 {
      FlattenedVertexAt(attrib, cs[..|cs| - 1], k);
    }
  }

  /** The index list built by pushing the current length each time: 0, 1, ..., n-1 as `int32_t`. */
  function IndexList(n: nat): (r: seq<int>)
    ensures |r| == n
    ensures forall k :: 0 <= k < n ==> -TWO_POW_31 <= r[k] < TWO_POW_31 && (k - r[k]) % TWO_POW_32 == 0
  {
    seq(n, k requires 0 <= k => ToInt32(k))
  }

  lemma IndexListPush(n: nat)
    ensures IndexList(n + 1) == IndexList(n) + [ToInt32(n)]
  {
  }

  lemma FlattenPush<F>(attrib: Attrib<F>, cs: seq<Index>, c: Index)
    requires AllInRange(attrib, cs) && InRange(attrib, c)
    ensures AllInRange(attrib, cs + [c])
    ensures FlattenCorners(attrib, cs + [c]) == FlattenCorners(attrib, cs) + [CornerVertex(attrib, c)]
  {
    assert (cs + [c])[..|cs|] == cs;
  }

  lemma IndexListIsIdentity(n: nat)
    requires n <= TWO_POW_31
    ensures |IndexList(n)| == n
    ensures forall k :: 0 <= k < n ==> IndexList(n)[k] == k
  {
  }

  /** The inner loop of `loadMesh`: push one vertex and one index for each corner of a shape. */
  method AppendCorners<F>(attrib: Attrib<F>, corners: seq<Index>, ghost done: seq<Index>,
                          vertices: seq<PosColorVertex<F>>, indices: seq<int>)
    returns (vertices': seq<PosColorVertex<F>>, indices': seq<int>)
    requires AllInRange(attrib, done) && AllInRange(attrib, corners)
    requires vertices == FlattenCorners(attrib, done) && indices == IndexList(|vertices|)
    ensures AllInRange(attrib, done + corners)
    ensures vertices' == FlattenCorners(attrib, done + corners)
    ensures indices' == IndexList(|vertices'|)
  {
    vertices', indices' := vertices, indices;
    var j := 0;
    assert done + corners[..0] == done;
    while j < |corners|
      invariant 0 <= j <= |corners|
      invariant AllInRange(attrib, done + corners[..j])
      invariant vertices' == FlattenCorners(attrib, done + corners[..j])
      invariant indices' == IndexList(|vertices'|)
    {
      var index := corners[j];
      var vertex := CornerVertex(attrib, index);
      FlattenPush(attrib, done + corners[..j], index);
      IndexListPush(|indices'|);
      assert done + corners[..j + 1] == (done + corners[..j]) + [index];
      vertices' := vertices' + [vertex];
      indices' := indices' + [ToInt32(|indices'|)];
      j := j + 1;
    }
    assert corners[..j] == corners;
  }

  /** The two loops of `loadMesh` over shapes and their corners. */
  method Flatten<F>(attrib: Attrib<F>, shapes: seq<Shape>) returns (vertices: seq<PosColorVertex<F>>, indices: seq<int>)
    requires AllInRange(attrib, Corners(shapes))
    ensures |vertices| == TotalCorners(shapes)
    ensures vertices == FlattenCorners(attrib, Corners(shapes))
    ensures indices == IndexList(|vertices|)
  {
    vertices, indices := [], [];
    var i := 0;
    while i < |shapes|
      invariant 0 <= i <= |shapes|
      invariant AllInRange(attrib, Corners(shapes[..i]))
      invariant vertices == FlattenCorners(attrib, Corners(shapes[..i]))
      invariant indices == IndexList(|vertices|)
    {
      var corners := shapes[i].indices;
      forall j | 0 <= j < |corners|
        ensures InRange(attrib, corners[j])
      {
        CornersAt(shapes, i, j);
      }
      assert shapes[..i + 1][..i] == shapes[..i];
      vertices, indices := AppendCorners(attrib, corners, Corners(shapes[..i]), vertices, indices);
      i := i + 1;
    }
    assert shapes[..i] == shapes;
  }

  /** `loadMesh` after a successful parse: flatten, upload both streams, store them in slot `h.id`. */
  method LoadMesh<F, V, I>(registry: Registry<V, I>, h: MeshHandle, attrib: Attrib<F>, shapes: seq<Shape>,
                           createVertexBuffer: seq<PosColorVertex<F>> -> V, createIndexBuffer: seq<int> -> I)
    requires registry.Valid() && h.id < MAX_MESH_COUNT
    requires AllInRange(attrib, Corners(shapes))
    modifies registry.meshes
    ensures registry.Valid()
    ensures registry.Table() == old(registry.Table())[h.id := Mesh(
              createVertexBuffer(FlattenCorners(attrib, Corners(shapes))),
              createIndexBuffer(IndexList(TotalCorners(shapes))))]
  {
    var vertices, indices := Flatten(attrib, shapes);
    var vbh := createVertexBuffer(vertices);
    var ibh := createIndexBuffer(indices);
    registry.SetMesh(h, vbh, ibh);
  }
}
