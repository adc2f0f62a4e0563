/** The value types the decoder produces (XNA's Vector3 and Quaternion) and the
    floating-point primitives it relies on, which this model takes as parameters. */
module Numerics {

  datatype Vec3 = Vec3(x: real, y: real, z: real)

  /** A quaternion as four independent components; the decoder never normalises. */
  datatype Quat = Quat(x: real, y: real, z: real, w: real) {
    /** Component-wise sum (XNA's Quaternion + Quaternion). */
    function Add(q: Quat): Quat {
      Quat(x + q.x, y + q.y, z + q.z, w + q.w)
    }

    /** Component-wise scaling (XNA's Quaternion * float). */
    function Scale(a: real): Quat {
      Quat(x * a, y * a, z * a, w * a)
    }

    /** Component c, in the order X, Y, Z, W. */
    function Get(c: nat): real
      requires c < 4
    {
      if c == 0 then x else if c == 1 then y else if c == 2 then z else w
    }
  }

  const Identity := Quat(0.0, 0.0, 0.0, 1.0)
  const ZeroQuat := Quat(0.0, 0.0, 0.0, 0.0)

  /** The floating-point operations the decoder calls but this model does not
      define: the IEEE-754 single-precision value of a 32-bit pattern
      (BitConverter.ToSingle), and Math.Sqrt, Math.Sin and Math.Cos. */
  datatype FloatOps = FloatOps(
    singleFromBits: nat -> real,
    sqrt: real -> real,
    sin: real -> real,
    cos: real -> real)

  /** The square root is exact on the non-negative reals. Properties that depend on
      what sqrt means are stated under this hypothesis. */
  ghost predicate ExactSqrt(ops: FloatOps) {
    forall v: real :: 0.0 <= v ==> 0.0 <= ops.sqrt(v) && ops.sqrt(v) * ops.sqrt(v) == v
  }

  /** sin^2 + cos^2 == 1 at every angle. */
  ghost predicate PythagoreanTrig(ops: FloatOps) {
    forall a: real :: ops.sin(a) * ops.sin(a) + ops.cos(a) * ops.cos(a) == 1.0
  }

  /** 2^-149, the spacing of IEEE-754 single-precision subnormals. */
  const SUBNORMAL_UNIT: real := 1.0 / 713623846352979940529142984724747568191373312.0

  /** IEEE-754 single precision on patterns whose sign and exponent bits are all zero:
      the pattern u stands for the subnormal u * 2^-149. */
  ghost predicate SubnormalDecode(ops: FloatOps) {
    forall u: nat :: u < 0x80_0000 ==> ops.singleFromBits(u) == (u as real) * SUBNORMAL_UNIT
  }

  lemma PositiveProduct(x: real, y: real)
    requires x > 0.0 && y > 0.0
    ensures x * y > 0.0
  {
  }

  lemma NonNegativeProduct(x: real, y: real)
    requires x >= 0.0 && y >= 0.0
    ensures x * y >= 0.0
  {
    if x > 0.0 && y > 0.0 {
      PositiveProduct(x, y);
    }
  }
}
