/** Fixed-width integers and the three-component vector shared by the viewer's modules. */
module Basics {

  const TWO_POW_32: int := 0x1_0000_0000
  const TWO_POW_31: int := 0x8000_0000

  /** C++ `unsigned int` / `uint32_t`. */
  type U32 = x: int | 0 <= x < 0x1_0000_0000

  /** The largest `unsigned int`, which is also what `-1` converts to. */
  const U32_MAX: U32 := 0xFFFF_FFFF

  /** The conversion of a size to `int32_t`: two's-complement wrap-around modulo 2^32. */
  function ToInt32(n: nat): (r: int)
    ensures -TWO_POW_31 <= r < TWO_POW_31
    ensures (n - r) % TWO_POW_32 == 0
    ensures n < TWO_POW_31 ==> r == n
  {
    var m := n % TWO_POW_32;
    if m < TWO_POW_31 then m else m - TWO_POW_32
  }

  /** `glm::vec3`, over whatever component type the caller needs. */
  datatype Vec3<T> = Vec3(x: T, y: T, z: T)
}
