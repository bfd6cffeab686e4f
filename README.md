# Mesh viewer core, modelled in Dafny

The program is a small 3D viewer. It creates one mesh handle and loads a Wavefront OBJ model into the
mesh table. It places 25 objects that use that mesh on a 5-by-5 grid. Each frame it moves the camera
on key presses and submits one draw call per object whose mesh handle is valid. This project models
the integer and sequence logic of that program:

- `basics.dfy` (`Basics`): `unsigned int` as `U32`, the `size_t` to `int32_t` conversion, and `Vec3`.
- `mesh_registry.dfy` (`MeshRegistry`): `MeshHandle` with its sentinel id `-1` (0xFFFFFFFF), and
  `isValidMesh`. It also holds the class `Registry`: the static counter of `createMesh` (including its
  32-bit wrap-around) and the 10000-slot `meshes` array that `setMesh` writes in place and
  `activateMesh` reads.
- `obj_loader.dfy` (`ObjLoader`): the two loops of `loadMesh`. They turn a parsed OBJ file into one
  vertex per triangle corner, with the index list 0, 1, ..., n-1. The method `LoadMesh` uploads both
  streams and stores them with `setMesh`.
- `camera.dfy` (`Camera`): the `View` class's camera position, the six-key switch of the main
  loop, and one pass over the pending events.
- `scene.dfy` (`Scene`): the 25 objects, the loop that gives each of them the mesh handle, and the
  nested grid loop that puts slot `x + 5y` at `{4, 4y, 4x}`.
- `pipeline.dfy` (`Pipeline`): `RenderPipeline::render`. It skips each object whose handle is the
  sentinel and submits the rest in list order. The file also holds the start-up sequence of `main`.

Opaque things are type parameters: float components (`F`), bgfx buffer handles (`V`, `I`) and the
shader program (`P`). The bgfx calls `createVertexBuffer` and `createIndexBuffer` are function
parameters of `LoadMesh`. Each `submit` is an entry of the log that `Render` returns. The pending
SDL events are a sequence argument. Out-of-range array indexing in the source is undefined
behaviour, so each such index is a precondition: `setMesh` and `activateMesh` need `h.id < 10000`,
and every OBJ corner must name an existing position and normal.

`isValidMesh` only compares the id with the sentinel 0xFFFFFFFF. A handle that was never issued, or
whose id is 10000 or more, still counts as valid.

## Model

| member | source | states |
|---|---|---|
| `MeshRegistry.IsValidMesh` | src/main.cpp:108-111 | a handle is invalid exactly when it is the default-constructed one (id `-1` as `unsigned int`) |
| `MeshRegistry.NextSlot` | src/main.cpp:105 | `currentSlot++` on an `unsigned int`: one more below 0xFFFFFFFF, and 0 after it |
| `MeshRegistry.CounterAfter` | src/main.cpp:102-106 | the counter after n calls of createMesh, starting from 0; it equals n below 2^32 |
| `MeshRegistry.Issued` | src/main.cpp:102-106 | the handles of the first n calls, in call order; call k returns the counter's value after k calls |
| `MeshRegistry.CounterAfterIsCount` | src/main.cpp:102-106 | after n calls of createMesh the static counter is n modulo 2^32 |
| `MeshRegistry.IssuedSequential` | src/main.cpp:102-106 | up to 2^32 calls, the k-th call of createMesh returns id k (0, 1, 2, ...) |
| `MeshRegistry.IssuedDistinct` | src/main.cpp:102-106 | up to 2^32 calls, no id is handed out twice |
| `MeshRegistry.IssuedValid` | src/main.cpp:102-111 | every handle returned before the counter reaches 0xFFFFFFFF passes isValidMesh |
| `MeshRegistry.IssuedSentinelAtWrap` | src/main.cpp:102-111 | the 2^32-th call returns the sentinel, so the wrap is the only way createMesh can return an invalid handle |
| `MeshRegistry.Registry.constructor` | src/main.cpp:99-106 | the table has 10000 slots, all holding the zero-initialised pair, and the counter starts at 0 |
| `MeshRegistry.Registry.CreateMesh` | src/main.cpp:102-106 | returns the counter's old value, increments it with 32-bit wrap, records the handle as issued, and leaves the table unchanged |
| `MeshRegistry.Registry.SetMesh` | src/main.cpp:113-117 | slot `h.id` becomes `(vbh, ibh)` and every other slot is unchanged; needs `h.id < 10000` |
| `MeshRegistry.Registry.ActivateMesh` | src/main.cpp:119-123 | the pair bound as the draw source is the one in slot `h.id` |
| `MeshRegistry.SetThenActivate` | src/main.cpp:113-123 | after setMesh, slot `h.id` holds `(vbh, ibh)`, every other slot is unchanged, and activateMesh binds exactly that pair |
| `Basics.ToInt32` | src/main.cpp:173 | the `int32_t` value is congruent to the size modulo 2^32, lies in the int32 range, and equals the size below 2^31 |
| `ObjLoader.Corners` | src/main.cpp:154-155 | every shape's corner list, concatenated in shape order; its length is the corner counts summed over all shapes |
| `ObjLoader.TotalCorners` | src/main.cpp:154-155 | the corner counts summed over all shapes; zero exactly when every shape has no corners |
| `ObjLoader.CornersAt` | src/main.cpp:154-155 | corner j of shape i comes right after all corners of the earlier shapes (shape order, then corner order) |
| `ObjLoader.CornerVertex` | src/main.cpp:156-170 | a corner's vertex has position `vertices[3vi .. 3vi+2]`, normal `normals[3ni .. 3ni+2]` and colour 0xffffffff |
| `ObjLoader.FlattenCorners` | src/main.cpp:154-172 | one vertex is emitted per corner |
| `ObjLoader.FlattenedVertexAt` | src/main.cpp:156-172 | output vertex k is the vertex of corner k |
| `ObjLoader.IndexList` | src/main.cpp:173 | the n pushed indices: entry k is k converted to `int32_t`, in the int32 range and congruent to k modulo 2^32 |
| `ObjLoader.IndexListIsIdentity` | src/main.cpp:173 | below 2^31 corners the index list is exactly 0, 1, ..., n-1 |
| `ObjLoader.AppendCorners` | src/main.cpp:155-174 | the inner loop over one shape's corners appends that shape's vertices and continues the index list |
| `ObjLoader.Flatten` | src/main.cpp:151-175 | the vertex count is the total corner count, vertex k is corner k's vertex, and index k is k (as int32) |
| `ObjLoader.LoadMesh` | src/main.cpp:141-194 | slot `h.id` ends up holding the buffers made from the flattened vertices and the index list; every other slot is unchanged |
| `Camera.View.constructor` | src/main.cpp:196-206 | a new view has id 0, camera at the origin, and an 800x600 viewport |
| `Camera.KeyStep` | src/main.cpp:359-381 | a/d change only z, q/e only y and s/w only x, each by -1/+1; any other key leaves the camera where it is |
| `Camera.KeyPairsCancel` | src/main.cpp:361-378 | each key of a pair undoes the other's step |
| `Camera.ApplyEvents` | src/main.cpp:354-389 | the camera after a batch of events, handled first to last; a batch without camera key-downs leaves it unchanged |
| `Camera.ApplyEventsCounts` | src/main.cpp:354-389 | after a batch of events each coordinate has moved by its forward presses minus its backward presses, whatever their order |
| `Camera.HandleKeyDown` | src/main.cpp:359-381 | the view's camera position is updated in place by KeyStep |
| `Camera.PollEvents` | src/main.cpp:354-389 | the loop keeps running exactly when no quit event is pending; the camera ends where the batch moves it |
| `Scene.GridIndex` | src/main.cpp:337 | `x + y * rowCount`; inside the 5-by-5 grid it is a slot of the 25-object list |
| `Scene.GridPosition` | src/main.cpp:342 | the position `{4, 4y, 4x}` of slot `x + 5y`: x is 4, and y and z are multiples of 4 between 0 and 16 |
| `Scene.GridIndexBijective` | src/main.cpp:332-344 | `x + 5y` over x, y in [0,5) hits each index 0..24 exactly once, and that slot's position is `{4, 4y, 4x}` |
| `Scene.AssignMesh` | src/main.cpp:321-326 | every object gets the given mesh handle and keeps its other fields |
| `Scene.LayoutGrid` | src/main.cpp:332-344 | object k gets the position of its grid cell and keeps its mesh handle |
| `Scene.BuildScene` | src/main.cpp:319-344 | the scene is 25 objects, object k at its grid position and using the given mesh |
| `Pipeline.ValidObjects` | src/main.cpp:252-256 | the objects the render loop does not skip, in list order; none is longer than the list and all have valid handles |
| `Pipeline.ValidObjectsAppend` | src/main.cpp:252-256 | filtering out the sentinel handles keeps list order: filtering a concatenation is the concatenation of the filtered parts |
| `Pipeline.ValidObjectsMembers` | src/main.cpp:252-256 | an object is submitted exactly when it is in the list and its handle is valid |
| `Pipeline.ValidObjectsAllValid` | src/main.cpp:252-256 | only sentinel handles are skipped: a list without them is submitted whole |
| `Pipeline.ValidObjectsNoneValid` | src/main.cpp:252-256 | sentinel handles are always skipped: a list of only those submits nothing |
| `Pipeline.RenderPipeline.constructor` | src/main.cpp:228-243 | the pipeline keeps the program handle it was built with |
| `Pipeline.RenderPipeline.Render` | src/main.cpp:245-267 | the draw calls are the valid-handle objects in list order, each on the view's id with the pipeline's program, and each binds the table slot of its handle |
| `Pipeline.StartUp` | src/main.cpp:315-344 | on a fresh registry the one mesh gets handle 0, the counter becomes 1, and slot 0 holds the loaded buffers; the 25 grid objects all use it, so none is skipped at render time |

## Left out

- SDL start-up, the window, event polling and shutdown (src/main.cpp:276-313, 354-358, 417-420) are platform I/O. The pending events are an argument of `PollEvents`.
- bgfx work is left out: vertex layout, shader creation, `setViewTransform`, `setViewRect`, `touch`, `setTransform`, `setState`, `submit` and `frame`. These are foreign calls. Handles are opaque, buffer creation is a function argument, and each submit is one `DrawCall` log entry that records the view id, the program, the bound pair and the object. The transform and state flags are not recorded.
- `fileops` and the shader-file reads in the `RenderPipeline` constructor (src/main.cpp:26-67, 228-243) are file I/O. The program handle is a constructor argument, and the silent early return when a shader is missing is not modelled.
- `tinyobj::LoadObj` and its exception path (src/main.cpp:148-150) belong to an external parser. Its result (`Attrib`, the shapes) is an input. Only the fields `loadMesh` reads are kept: position and normal indices, shape corner lists, and the position and normal arrays. Texture coordinates, shape names, materials and the other tinyobj fields are not part of the model.
- `getLocalToWorld`, `getViewMat`, `getProjMat` and the rotation steps are floating-point matrix work. Object rotation and scale are not part of `Object`: `updateObject` is never called (src/main.cpp:409-410 is commented out), so they stay at identity.
- The scale oscillation lambda (src/main.cpp:391-407) is floating point and never called.
- The `bool` result of `loadMesh` is left out, because the function has no `return` statement and so its result is undefined. `LoadMesh` returns nothing.
- The unused random generator (src/main.cpp:328-330).
- Camera and object positions are unbounded integers. The source stores them as `float`, which matches for the small values a session reaches but stops changing by 1 beyond 2^24.
- `LoadMesh`: the buffer-creation calls are pure functions of the data here. bgfx allocates a fresh handle on each call, and this model does not say so.
