/** The process-wide mesh table: a sequential handle counter and a fixed array of buffer pairs. */
module MeshRegistry {
  import opened Basics

  const MAX_MESH_COUNT: nat := 10000

  /** `unsigned int id = -1`: the id of a default-constructed handle, meaning "no mesh". */
  const NO_MESH_ID: U32 := U32_MAX

  datatype MeshHandle = MeshHandle(id: U32)

  /** A default-constructed `MeshHandle`. */
  const DEFAULT_HANDLE: MeshHandle := MeshHandle(NO_MESH_ID)

  /** A vertex-buffer handle and an index-buffer handle, both opaque to this program. */
  datatype Mesh<V, I> = Mesh(vbh: V, ibh: I)

  /** `isValidMesh`: only the sentinel id is rejected. */
  predicate IsValidMesh(h: MeshHandle)
    ensures IsValidMesh(h) <==> h != DEFAULT_HANDLE
  {
    h.id != NO_MESH_ID
  }

  /** The counter after `currentSlot++` on an `unsigned int`. */
  function NextSlot(c: U32): (r: U32)
    ensures c < U32_MAX ==> r == c + 1
    ensures c == U32_MAX ==> r == 0
  {
    (c + 1) % TWO_POW_32
  }

  /** The counter after `n` calls to createMesh, starting from its initial value 0. */
  function CounterAfter(n: nat): (c: U32)
    ensures n < TWO_POW_32 ==> c == n
  {
    if n == 0 then 0 else NextSlot(CounterAfter(n - 1))
  }

  /** The handles returned by the first `n` calls to createMesh, in call order. */
  ghost function Issued(n: nat): (hs: seq<MeshHandle>)
    ensures |hs| == n
    ensures forall k :: 0 <= k < n ==> hs[k] == MeshHandle(CounterAfter(k))
  {
    if n == 0 then [] else Issued(n - 1) + [MeshHandle(CounterAfter(n - 1))]
  }

  /** The counter is the number of calls so far, wrapped to 32 bits. */
  lemma {:induction false} CounterAfterIsCount(n: nat)
    ensures CounterAfter(n) == n % TWO_POW_32
  {
    if n > 0 {
      CounterAfterIsCount(n - 1);
    }
  }

  /** Below the wrap, the k-th call returns id k: 0, 1, 2, ... */
  lemma {:induction false} IssuedSequential(n: nat)
    requires n <= TWO_POW_32
    ensures forall k :: 0 <= k < n ==> Issued(n)[k].id == k
  {
    if n > 0 {
      IssuedSequential(n - 1);
      CounterAfterIsCount(n - 1);
    }
  }

  /** Below the wrap, no id is handed out twice. */
  lemma IssuedDistinct(n: nat)
    requires n <= TWO_POW_32
    ensures forall j, k :: 0 <= j < k < n ==> Issued(n)[j] != Issued(n)[k]
  {
    IssuedSequential(n);
  }

  /** Until the counter reaches the sentinel, every handed-out handle is valid. */
  lemma IssuedValid(n: nat)
    requires n <= U32_MAX
    ensures forall k :: 0 <= k < n ==> IsValidMesh(Issued(n)[k])
  {
    IssuedSequential(n);
  }

  /** The 2^32-th call returns the sentinel: the counter's wrap is the one way to get an invalid handle. */
  lemma IssuedSentinelAtWrap()
    ensures !IsValidMesh(Issued(TWO_POW_32)[U32_MAX])
  {
    IssuedSequential(TWO_POW_32);
  }

  /** The global `meshes` table together with createMesh's static counter. */
  class Registry<V, I> {
    var currentSlot: U32
    const meshes: array<Mesh<V, I>>
    /** The handles createMesh has returned so far, oldest first. */
    ghost var issued: seq<MeshHandle>

    ghost predicate Valid()
      reads this
    {
      && meshes.Length == MAX_MESH_COUNT
      && issued == Issued(|issued|)
      && currentSlot == CounterAfter(|issued|)
    }

    /** The table's slots. */
    ghost function Table(): (t: seq<Mesh<V, I>>)
      reads this, meshes
      ensures |t| == meshes.Length
    {
      meshes[..]
    }

    /** Program start: counter 0 and every slot holding the zero-initialised pair `blank`. */
    constructor (blank: Mesh<V, I>)
      ensures Valid() && fresh(meshes)
      ensures issued == [] && currentSlot == 0
      ensures Table() == seq(MAX_MESH_COUNT, _ => blank)
    {
      currentSlot := 0;
      meshes := new Mesh<V, I>[MAX_MESH_COUNT](_ => blank);
      issued := [];
    }

    /** `createMesh`: return the counter's value, then increment it. */
    method CreateMesh() returns (h: MeshHandle)
      requires Valid()
      modifies this
      ensures Valid()
      ensures h.id == old(currentSlot) && currentSlot == NextSlot(old(currentSlot))
      ensures issued == old(issued) + [h]
      ensures Table() == old(Table())
    {
      h := MeshHandle(currentSlot);
      currentSlot := NextSlot(currentSlot);
      issued := issued + [h];
    }

    /** `setMesh`: overwrite slot `h.id`; the unchecked index becomes a precondition. */
    method SetMesh(h: MeshHandle, vbh: V, ibh: I)
      requires Valid() && h.id < MAX_MESH_COUNT
      modifies meshes
      ensures Valid()
      ensures Table() == old(Table())[h.id := Mesh(vbh, ibh)]
      ensures forall j :: 0 <= j < MAX_MESH_COUNT && j != h.id ==> meshes[j] == old(meshes[j])
    {
      meshes[h.id] := Mesh(meshes[h.id].vbh, ibh);
      meshes[h.id] := Mesh(vbh, meshes[h.id].ibh);
    }

    /** `activateMesh`: the pair bound as the current draw source is the one in slot `h.id`. */
    method ActivateMesh(h: MeshHandle) returns (m: Mesh<V, I>)
      requires Valid() && h.id < MAX_MESH_COUNT
      ensures m == Table()[h.id]
    {
      m := meshes[h.id];
    }
  }

  /** activateMesh after setMesh binds the pair just stored, whatever was there before. */
  method SetThenActivate<V, I>(r: Registry<V, I>, h: MeshHandle, vbh: V, ibh: I) returns (m: Mesh<V, I>)
    requires r.Valid() && h.id < MAX_MESH_COUNT
    modifies r.meshes
    ensures r.Valid()
    ensures m == Mesh(vbh, ibh)
    ensures r.Table() == old(r.Table())[h.id := Mesh(vbh, ibh)]
    ensures forall j :: 0 <= j < MAX_MESH_COUNT && j != h.id ==> r.meshes[j] == old(r.meshes[j])
  {
    r.SetMesh(h, vbh, ibh);
    m := r.ActivateMesh(h);
  }
}
