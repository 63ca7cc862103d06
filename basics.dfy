/** Shared vocabulary of the force-field engine: body handles, layers,
    32-bit integers and the vectors the field functions produce. */
module Basics {

  /** Which engine: ForceField2D or ForceField (3D). */
  datatype Dim = D2 | D3

  /** The exceptions that abort a tick: Dictionary.Add meeting a key
      already present, in the nearest-target map (a repeated squared
      distance) or in the ignored dictionary (a repeated body). */
  datatype Fault = DuplicateDistance | DuplicateIgnored

  /** A rigid body, identified by its instance id (GetInstanceID()). */
  type Handle = int

  /** A Unity layer index. */
  type Layer = l: int | 0 <= l < 32

  /** A C# `int`. */
  type Int32 = x: int | -0x8000_0000 <= x < 0x8000_0000

  /** A vector; the 2D engine uses z == 0. Floats are abstracted as reals. */
  datatype Vec = Vec(x: real, y: real, z: real)

  const Zero := Vec(0.0, 0.0, 0.0)

  function Add(u: Vec, v: Vec): Vec {
    Vec(u.x + v.x, u.y + v.y, u.z + v.z)
  }

  function Sub(u: Vec, v: Vec): Vec {
    Vec(u.x - v.x, u.y - v.y, u.z - v.z)
  }

  function Scale(k: real, v: Vec): Vec {
    Vec(k * v.x, k * v.y, k * v.z)
  }

  function SqrMagnitude(v: Vec): real {
    v.x * v.x + v.y * v.y + v.z * v.z
  }

  /** kEpsilon * kEpsilon, with Unity's kEpsilon = 1e-5. */
  const EqualityToleranceSq: real := 0.0000000001

  /** Unity's `==` on Vector2 and Vector3: true when the difference's
      squared length is below kEpsilon squared, not only when the two are
      identical. */
  predicate ApproxEqual(u: Vec, v: Vec) {
    SqrMagnitude(Sub(u, v)) < EqualityToleranceSq
  }
}
