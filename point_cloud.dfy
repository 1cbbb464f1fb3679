/** The point-cloud data object the loader produces and the viewer, renderer,
    inspector and scene model consume: four attribute arrays plus the optional
    `count`, `activeCount` and bounding-box fields that some producers set. */
module PointCloud {

  datatype Option<T> = None | Some(value: T)

  /** A value or the error JavaScript would throw / Python would raise. */
  datatype Result<T, E> = Ok(value: T) | Err(error: E)

  newtype byte = x: int | 0 <= x < 0x100
  newtype u16 = x: int | 0 <= x < 0x1_0000
  newtype u32 = x: int | 0 <= x < 0x1_0000_0000

  /** A float32 kept as its IEEE-754 bit pattern; float arithmetic is not modelled. */
  type F32 = u32

  /** The quiet NaN a Float32Array holds after `undefined` is stored into it. */
  const NaN32: F32 := 0x7FC0_0000

  /** A triple of JavaScript numbers (a bbox corner, a centre, a world position). */
  datatype Vec3 = Vec3(x: real, y: real, z: real)

  /** The loosely-typed `data` object. `None` stands for a field that is absent
      (JavaScript `undefined`). */
  datatype Cloud = Cloud(
    positions: seq<F32>,          // Float32Array, 3 per point
    normals: seq<F32>,            // Float32Array, 3 per point
    colors: seq<byte>,            // Uint8Array, 3 per point
    sizes: seq<u16>,              // Uint16Array, 1 per point, radius * 1000
    count: Option<nat>,
    activeCount: Option<nat>,
    bboxMin: Option<Vec3>,
    bboxMax: Option<Vec3>)

  /** A cloud whose arrays each hold `n` points. */
  ghost predicate Holds(d: Cloud, n: nat)
  {
    |d.positions| == 3 * n && |d.normals| == 3 * n && |d.colors| == 3 * n && |d.sizes| == n
  }

  /** JavaScript `o || fallback` on a numeric field: absent and 0 are both falsy. */
  function OrElse(o: Option<nat>, fallback: nat): nat
  {
    if o.Some? && o.value != 0 then o.value else fallback
  }

  /** A read `s[k]` of a typed array, as seen after the value read is stored
      into another typed array of the same kind: out of range, JavaScript reads
      `undefined`, which a Float32Array stores as NaN and a Uint8Array or
      Uint16Array stores as 0; `undefinedAs` is that stored value. */
  function At<T>(s: seq<T>, k: int, undefinedAs: T): (r: T)
    ensures 0 <= k < |s| ==> r == s[k]
    ensures !(0 <= k < |s|) ==> r == undefinedAs
  {
    if 0 <= k < |s| then s[k] else undefinedAs
  }
}
