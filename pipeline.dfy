/** The per-frame render submission of `RenderPipeline` and the start-up of the main program. */
module Pipeline {
  import opened Basics
  import opened MeshRegistry
  import opened ObjLoader
  import opened Camera
  import opened Scene

  /** One `submit`: the view, the program, the buffers `activateMesh` bound, and the object drawn. */
  datatype DrawCall<V, I, P> = DrawCall(viewId: U32, program: P, mesh: Mesh<V, I>, drawn: Object)

  /** The objects whose handle is not the sentinel, in list order. */
  function ValidObjects(objects: seq<Object>): (kept: seq<Object>)
    ensures |kept| <= |objects|
    ensures forall k :: 0 <= k < |kept| ==> IsValidMesh(kept[k].meshHandle)
  {
    if |objects| == 0 then []
    else (if IsValidMesh(objects[0].meshHandle) then [objects[0]] else []) + ValidObjects(objects[1..])
  }

  /** Filtering a concatenation filters each part and keeps them in order. */
  lemma {:induction false} ValidObjectsAppend(a: seq<Object>, b: seq<Object>)
    ensures ValidObjects(a + b) == ValidObjects(a) + ValidObjects(b)
  {
    if |a| > 0 {
      assert (a + b)[1..] == a[1..] + b;
      ValidObjectsAppend(a[1..], b);
    } else {
      assert a + b == b;
    }
  }

  /** An object is kept exactly when it is in the list and its handle is valid. */
  lemma {:induction false} ValidObjectsMembers(objects: seq<Object>)
    ensures forall o :: o in ValidObjects(objects) <==> o in objects && IsValidMesh(o.meshHandle)
  {
    if |objects| > 0 {
      ValidObjectsMembers(objects[1..]);
      assert objects == [objects[0]] + objects[1..];
    }
  }

  /** Nothing but sentinel handles is skipped: a list without them is submitted whole. */
  lemma {:induction false} ValidObjectsAllValid(objects: seq<Object>)
    requires forall k :: 0 <= k < |objects| ==> IsValidMesh(objects[k].meshHandle)
    ensures ValidObjects(objects) == objects
  {
    if |objects| > 0 {
      ValidObjectsAllValid(objects[1..]);
    }
  }

  /** Sentinel handles are always skipped: a list of only those submits nothing. */
  lemma {:induction false} ValidObjectsNoneValid(objects: seq<Object>)
    requires forall k :: 0 <= k < |objects| ==> !IsValidMesh(objects[k].meshHandle)
    ensures ValidObjects(objects) == []
  {
    if |objects| > 0 {
      ValidObjectsNoneValid(objects[1..]);
    }
  }

  /** Every valid handle in the list indexes the mesh table (setMesh/activateMesh do not check this). */
  predicate HandlesInTable(objects: seq<Object>)
  {
    forall k :: 0 <= k < |objects| && IsValidMesh(objects[k].meshHandle) ==> objects[k].meshHandle.id < MAX_MESH_COUNT
  }

  /** `RenderPipeline`, holding the shader program its constructor created (opaque here). */
  class RenderPipeline<P> {
    const program: P

    constructor (program: P)
      ensures this.program == program
    {
      this.program := program;
    }

    /** `render`: one draw call per object with a valid handle, in list order, binding that handle's slot. */
    method Render<V, I>(view: View, registry: Registry<V, I>, objects: seq<Object>) returns (log: seq<DrawCall<V, I, P>>)
      requires registry.Valid() && HandlesInTable(objects)
      ensures |log| == |ValidObjects(objects)|
      ensures forall k :: 0 <= k < |log| ==>
                log[k].drawn == ValidObjects(objects)[k] && log[k].viewId == view.id && log[k].program == program
      ensures forall k :: 0 <= k < |log| ==>
                log[k].drawn.meshHandle.id < MAX_MESH_COUNT && log[k].mesh == registry.Table()[log[k].drawn.meshHandle.id]
    {
      log := [];
      var i := 0;
      while i < |objects|
        invariant 0 <= i <= |objects|
        invariant |log| == |ValidObjects(objects[..i])|
        invariant forall k :: 0 <= k < |log| ==>
                    log[k].drawn == ValidObjects(objects[..i])[k] && log[k].viewId == view.id && log[k].program == program
        invariant forall k :: 0 <= k < |log| ==>
                    log[k].drawn.meshHandle.id < MAX_MESH_COUNT && log[k].mesh == registry.Table()[log[k].drawn.meshHandle.id]
      {
        var o := objects[i];
        assert objects[..i + 1] == objects[..i] + [o];
        ValidObjectsAppend(objects[..i], [o]);
        if IsValidMesh(o.meshHandle) {
          var mesh := registry.ActivateMesh(o.meshHandle);
          log := log + [DrawCall(view.id, program, mesh, o)];
        }
        i := i + 1;
      }
      assert objects[..i] == objects;
    }
  }

  /** The start-up of the main program: create the one mesh, load it, and build the 25-object scene. */
  method StartUp<F, V, I>(registry: Registry<V, I>, attrib: Attrib<F>, shapes: seq<Shape>,
                          createVertexBuffer: seq<PosColorVertex<F>> -> V, createIndexBuffer: seq<int> -> I)
    returns (mesh: MeshHandle, objects: array<Object>)
    requires registry.Valid() && registry.issued == []
    requires AllInRange(attrib, Corners(shapes))
    modifies registry, registry.meshes
    ensures registry.Valid() && fresh(objects)
    ensures mesh == MeshHandle(0) && IsValidMesh(mesh)
    ensures registry.issued == [mesh] && registry.currentSlot == 1
    ensures registry.Table() == old(registry.Table())[0 := Mesh(
              createVertexBuffer(FlattenCorners(attrib, Corners(shapes))),
              createIndexBuffer(IndexList(TotalCorners(shapes))))]
    ensures objects.Length == MESH_COUNT
    ensures forall k :: 0 <= k < MESH_COUNT ==> objects[k] == Object(GridPosition(k), mesh)
    ensures ValidObjects(objects[..]) == objects[..]
  {
    mesh := registry.CreateMesh();
    LoadMesh(registry, mesh, attrib, shapes, createVertexBuffer, createIndexBuffer);
    objects := BuildScene(mesh);
    ValidObjectsAllValid(objects[..]);
  }
}
