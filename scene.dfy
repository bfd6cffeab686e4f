/** The 25 scene objects of the main program and their 5-by-5 grid placement. */
module Scene {
  import opened Basics
  import opened MeshRegistry

  const MESH_COUNT: nat := 25
  const ROW_COUNT: nat := 5

  /** `Object`, reduced to its position and mesh handle (rotation and scale stay at identity). */
  datatype Object = Object(position: Vec3<int>, meshHandle: MeshHandle)

  /** A value-initialised `Object`: at the origin, with the "no mesh" handle. */
  const DEFAULT_OBJECT: Object := Object(Vec3(0, 0, 0), DEFAULT_HANDLE)

  /** The slot the grid loop writes for column `x` and row `y`. */
  function GridIndex(x: nat, y: nat): (index: nat)
    ensures x < ROW_COUNT && y < ROW_COUNT ==> index < MESH_COUNT
  {
    x + y * ROW_COUNT
  }

  /** The position the grid loop gives the object in slot `index`: `{4, 4y, 4x}`. */
  function GridPosition(index: nat): (p: Vec3<int>)
    ensures p.x == 4 && p.y % 4 == 0 && p.z % 4 == 0
    ensures index < MESH_COUNT ==> 0 <= p.y <= 16 && 0 <= p.z <= 16
  {
    Vec3(4, 4 * (index / ROW_COUNT), 4 * (index % ROW_COUNT))
  }

  /** The grid loop visits every slot 0..24 exactly once and places it at `{4, 4y, 4x}`. */
  lemma GridIndexBijective()
    ensures forall x: nat, y: nat :: x < ROW_COUNT && y < ROW_COUNT ==>
              GridIndex(x, y) < MESH_COUNT && GridIndex(x, y) % ROW_COUNT == x && GridIndex(x, y) / ROW_COUNT == y
    ensures forall x: nat, y: nat :: x < ROW_COUNT && y < ROW_COUNT ==> GridPosition(GridIndex(x, y)) == Vec3(4, 4 * y, 4 * x)
    ensures forall x: nat, y: nat, x': nat, y': nat ::
              x < ROW_COUNT && y < ROW_COUNT && x' < ROW_COUNT && y' < ROW_COUNT && GridIndex(x, y) == GridIndex(x', y') ==>
              x == x' && y == y'
    ensures forall index: nat :: index < MESH_COUNT ==>
              index % ROW_COUNT < ROW_COUNT && index / ROW_COUNT < ROW_COUNT && GridIndex(index % ROW_COUNT, index / ROW_COUNT) == index
  {
  }

  /** `for (auto& object : objects) object.meshHandle = mesh;` */
  method AssignMesh(objects: array<Object>, mesh: MeshHandle)
    modifies objects
    ensures forall k :: 0 <= k < objects.Length ==> objects[k] == old(objects[k]).(meshHandle := mesh)
  {
    var i := 0;
    while i < objects.Length
      invariant 0 <= i <= objects.Length
      invariant forall k :: 0 <= k < i ==> objects[k] == old(objects[k]).(meshHandle := mesh)
      invariant forall k :: i <= k < objects.Length ==> objects[k] == old(objects[k])
    {
      objects[i] := objects[i].(meshHandle := mesh);
      i := i + 1;
    }
  }

  /** The nested grid loop: slot `x + 5y` gets position `{4, 4y, 4x}`; nothing else changes. */
  method LayoutGrid(objects: array<Object>)
    requires objects.Length == MESH_COUNT
    modifies objects
    ensures forall k :: 0 <= k < MESH_COUNT ==> objects[k] == old(objects[k]).(position := GridPosition(k))
  {
    GridIndexBijective();
    var x := 0;
    while x < ROW_COUNT
      invariant 0 <= x <= ROW_COUNT
      invariant forall k :: 0 <= k < MESH_COUNT ==>
                  objects[k] == if k % ROW_COUNT < x then old(objects[k]).(position := GridPosition(k)) else old(objects[k])
    {
      var y := 0;
      while y < ROW_COUNT
        invariant 0 <= y <= ROW_COUNT
        invariant forall k :: 0 <= k < MESH_COUNT ==>
                    objects[k] == if k % ROW_COUNT < x || (k % ROW_COUNT == x && k / ROW_COUNT < y)
                                  then old(objects[k]).(position := GridPosition(k)) else old(objects[k])
      {
        var index := GridIndex(x, y);
        objects[index] := objects[index].(position := Vec3(4, y * 4, x * 4));
        y := y + 1;
      }
      x := x + 1;
    }
  }

  /** The scene set-up of the main program: 25 default objects, all given `mesh`, laid out on the grid. */
  method BuildScene(mesh: MeshHandle) returns (objects: array<Object>)
    ensures fresh(objects) && objects.Length == MESH_COUNT
    ensures forall k :: 0 <= k < MESH_COUNT ==> objects[k] == Object(GridPosition(k), mesh)
  {
    objects := new Object[MESH_COUNT](_ => DEFAULT_OBJECT);
    AssignMesh(objects, mesh);
    LayoutGrid(objects);
  }
}
