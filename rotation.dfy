/** The quaternion decoders: POLAR32, THREECOMP40, THREECOMP48, UNCOMPRESSED and the
    dispatch on the rotation quantisation code (ReadQuantizedQuaternion). */
module Rotation {
  import opened Wrappers
  import opened Numerics
  import opened BinaryReader
  import opened Quantization

  // ---------------------------------------------------------------------------
  // THREECOMP48 and THREECOMP40: three stored components, one reconstructed
  // ---------------------------------------------------------------------------

  const FRACTAL48: real := 0.000043161
  const FRACTAL40: real := 0.000345436

  /** Bit 15 of the 16-bit two's complement pattern of a short. */
  function TopBit16(v: int): (b: nat)
    requires -32768 <= v < 32768
    ensures b == (v % 65536) / 32768
  {
    if v < 0 then 1 else 0
  }

  /** `((y >> 14) & 2) | ((x >> 15) & 1)` on two C# shorts: `>>` is an arithmetic shift
      (floor division) and `&` reads the two's complement bits. The index is bit 15 of
      y followed by bit 15 of x. */
  function ThreeComp48Index(x: int, y: int): (r: nat)
    requires -32768 <= x < 32768 && -32768 <= y < 32768
    ensures r < 4
    ensures r == 2 * TopBit16(y) + TopBit16(x)
  {
    2 * (((y / 16384) / 2) % 2) + (x / 32768) % 2
  }

  /** `v &= (short)mask; v -= (short)(mask >> 1)` with mask = 0x7FFF: the low 15 bits
      of the pattern, recentred. */
  function Recenter48(v: int): (r: int)
    requires -32768 <= v < 32768
    ensures -16383 <= r <= 32767 - 16383
    ensures r + 16383 == (v % 65536) % 32768
  {
    v % 32768 - 16383
  }

  /** A 12-bit field recentred by subtracting mask >> 1 = 2047. */
  function Recenter40(field: nat): (r: int)
    requires field < 4096
    ensures -2047 <= r <= 4095 - 2047
  {
    field - 2047
  }

  /** The value written into the reconstructed slot: sqrt(1 - t0^2 - t1^2 - t2^2), or 0 when
      that is not positive, negated when the sign bit is set. */
  function Reconstructed(t: seq<real>, negative: bool, ops: FloatOps): real
    requires |t| == 3
  {
    var s := 1.0 - t[0] * t[0] - t[1] * t[1] - t[2] * t[2];
    var v := if s <= 0.0 then 0.0 else ops.sqrt(s);
    if negative then -v else v
  }

  /** Output slot i: the stored values fill the slots other than `shift`, in order. */
  function Slot(t: seq<real>, shift: nat, rec: real, i: nat): real
    requires |t| == 3 && shift < 4 && i < 4
  {
    if i < shift then t[i] else if i > shift then t[i - 1] else rec
  }

  function Assemble(t: seq<real>, shift: nat, negative: bool, ops: FloatOps): Quat
    requires |t| == 3 && shift < 4
  {
    var rec := Reconstructed(t, negative, ops);
    Quat(Slot(t, shift, rec, 0), Slot(t, shift, rec, 1), Slot(t, shift, rec, 2), Slot(t, shift, rec, 3))
  }

  function Components(q: Quat): seq<real> {
    [q.x, q.y, q.z, q.w]
  }

  function Norm2(q: Quat): real {
    q.x * q.x + q.y * q.y + q.z * q.z + q.w * q.w
  }

  /** Taking the reconstructed slot out of the output gives back the stored values, in order. */
  lemma AssembleKeepsStoredOrder(t: seq<real>, shift: nat, negative: bool, ops: FloatOps)
    requires |t| == 3 && shift < 4
    ensures var c := Components(Assemble(t, shift, negative, ops));
      c[..shift] + c[shift + 1..] == t
  {
    var c := Components(Assemble(t, shift, negative, ops));
    assert c[..shift] + c[shift + 1..] == t by {
      if shift == 0 { assert c[1..] == [t[0], t[1], t[2]]; }
      else if shift == 1 { assert c[..1] + c[2..] == [t[0], t[1], t[2]]; }
      else if shift == 2 { assert c[..2] + c[3..] == [t[0], t[1], t[2]]; }
      else { assert c[..3] == [t[0], t[1], t[2]]; }
    }
  }

  /** The reconstructed slot is 0 when 1 - t0^2 - t1^2 - t2^2 <= 0, and otherwise carries
      the sign bit: non-negative unless it is set, non-positive when it is. */
  lemma ReconstructedSign(t: seq<real>, shift: nat, negative: bool, ops: FloatOps)
    requires |t| == 3 && shift < 4 && ExactSqrt(ops)
    ensures var s := 1.0 - t[0] * t[0] - t[1] * t[1] - t[2] * t[2];
      var c := Components(Assemble(t, shift, negative, ops));
      && (s <= 0.0 ==> c[shift] == 0.0)
      && (!negative ==> c[shift] >= 0.0)
      && (negative ==> c[shift] <= 0.0)
  {
    var s := 1.0 - t[0] * t[0] - t[1] * t[1] - t[2] * t[2];
    if s > 0.0 {
      assert 0.0 <= ops.sqrt(s);
    }
  }

  /** With an exact square root the output is a unit quaternion whenever the stored values
      leave room for the fourth; otherwise its squared norm is that of the stored three. */
  lemma AssembleNorm(t: seq<real>, shift: nat, negative: bool, ops: FloatOps)
    requires |t| == 3 && shift < 4 && ExactSqrt(ops)
    ensures var s := 1.0 - t[0] * t[0] - t[1] * t[1] - t[2] * t[2];
      Norm2(Assemble(t, shift, negative, ops)) == if s > 0.0 then 1.0 else 1.0 - s
  {
    var rec := Reconstructed(t, negative, ops);
    ReconstructedSquare(t, negative, ops);
    SlotSquares(t, shift, rec);
  }

  lemma ReconstructedSquare(t: seq<real>, negative: bool, ops: FloatOps)
    requires |t| == 3 && ExactSqrt(ops)
    ensures var s := 1.0 - t[0] * t[0] - t[1] * t[1] - t[2] * t[2];
      var rec := Reconstructed(t, negative, ops);
      rec * rec == if s > 0.0 then s else 0.0
  {
    var s := 1.0 - t[0] * t[0] - t[1] * t[1] - t[2] * t[2];
    if s > 0.0 {
      var v := ops.sqrt(s);
      assert v * v == s;
      assert (-v) * (-v) == v * v;
    }
  }

  lemma SlotSquares(t: seq<real>, shift: nat, rec: real)
    requires |t| == 3 && shift < 4
    ensures Norm2(Quat(Slot(t, shift, rec, 0), Slot(t, shift, rec, 1), Slot(t, shift, rec, 2), Slot(t, shift, rec, 3)))
            == t[0] * t[0] + t[1] * t[1] + t[2] * t[2] + rec * rec
  {
  }

  /** The slot-filling loop of both THREECOMP decoders, on a four-element buffer. */
  method PlaceComponents(t: seq<real>, shift: nat, negative: bool, ops: FloatOps) returns (q: Quat)
    requires |t| == 3 && shift < 4
    ensures q == Assemble(t, shift, negative, ops)
  {
    var retval := new real[4](_ => 0.0);
    for i := 0 to 4
      invariant forall k :: 0 <= k < i ==> retval[k] == Slot(t, shift, 0.0, k)
      invariant forall k :: i <= k < 4 ==> retval[k] == 0.0
    {
      if i < shift {
        retval[i] := t[i];
      } else if i > shift {
        retval[i] := t[i - 1];
      }
    }
    retval[shift] := 1.0 - t[0] * t[0] - t[1] * t[1] - t[2] * t[2];
    if retval[shift] <= 0.0 {
      retval[shift] := 0.0;
    } else {
      retval[shift] := ops.sqrt(retval[shift]);
    }
    if negative {
      retval[shift] := retval[shift] * -1.0;
    }
    q := Quat(retval[0], retval[1], retval[2], retval[3]);
  }

  /** THREECOMP48 from its three shorts. */
  function ThreeComp48(x: int, y: int, z: int, ops: FloatOps): Quat
    requires -32768 <= x < 32768 && -32768 <= y < 32768 && -32768 <= z < 32768
  {
    var shift := ThreeComp48Index(x, y);
    var negative := z / 32768 != 0;   // (z >> 15) != 0
    var t := [Recenter48(x) as real * FRACTAL48, Recenter48(y) as real * FRACTAL48, Recenter48(z) as real * FRACTAL48];
    Assemble(t, shift, negative, ops)
  }

  /** The 2-bit reconstructed-slot index of a THREECOMP40 word: bits 36 and 37. */
  function ThreeComp40Index(c: nat): (r: nat)
    ensures r < 4
  {
    (c / 0x10_0000_0000) % 4
  }

  /** THREECOMP40 from the 64-bit word read at its position: 12-bit fields at bits 0, 12
      and 24, the index at bits 36-37 and the sign at bit 38. */
  function ThreeComp40(c: nat, ops: FloatOps): Quat {
    var x := Recenter40(c % 4096);
    var y := Recenter40((c / 0x1000) % 4096);
    var z := Recenter40((c / 0x100_0000) % 4096);
    var negative := (c / 0x40_0000_0000) % 2 > 0;
    var t := [x as real * FRACTAL40, y as real * FRACTAL40, z as real * FRACTAL40];
    Assemble(t, ThreeComp40Index(c), negative, ops)
  }

  function ThreeComp48At(inp: Input, pos: nat, ops: FloatOps): (r: Result<Parsed<Quat>>)
    ensures r.Ok? <==> pos + 6 <= |inp.bytes|
    ensures r.Ok? ==> r.value.pos == pos + 6
  {
    var x :- Int16At(inp, pos);
    var y :- Int16At(inp, x.pos);
    var z :- Int16At(inp, y.pos);
    Ok(Parsed(ThreeComp48(x.value, y.value, z.value, ops), z.pos))
  }

  /** THREECOMP40 reads a full 64-bit word and then steps back 3 bytes, so it needs 8
      bytes of buffer although it consumes 5. */
  function ThreeComp40At(inp: Input, pos: nat, ops: FloatOps): (r: Result<Parsed<Quat>>)
    ensures r.Ok? <==> pos + 8 <= |inp.bytes|
    ensures r.Ok? ==> r.value.pos == pos + 5
  {
    var c :- UInt64At(inp, pos);
    Ok(Parsed(ThreeComp40(c.value, ops), c.pos - 3))
  }

  method ReadQuatThreeComp48(r: Reader, ops: FloatOps) returns (res: Result<Quat>)
    modifies r
    ensures Step(res, r.pos) == ThreeComp48At(r.input, old(r.pos), ops)
  {
    var x :- r.ReadInt16();
    var y :- r.ReadInt16();
    var z :- r.ReadInt16();
    var resultShift := ThreeComp48Index(x, y);
    var rSign := z / 32768 != 0;
    var tempValF := [Recenter48(x) as real * FRACTAL48, Recenter48(y) as real * FRACTAL48, Recenter48(z) as real * FRACTAL48];
    var q := PlaceComponents(tempValF, resultShift, rSign, ops);
    return Ok(q);
  }

  method ReadQuatThreeComp40(r: Reader, ops: FloatOps) returns (res: Result<Quat>)
    modifies r
    ensures Step(res, r.pos) == ThreeComp40At(r.input, old(r.pos), ops)
  {
    ghost var start := r.pos;
    var cVal :- r.ReadUInt64();
    assert r.pos == start + 8;
    r.SetPosition(r.pos - 3);
    var x := Recenter40(cVal % 4096);
    var y := Recenter40((cVal / 0x1000) % 4096);
    var z := Recenter40((cVal / 0x100_0000) % 4096);
    var resultShift := ThreeComp40Index(cVal);
    var tempValF := [x as real * FRACTAL40, y as real * FRACTAL40, z as real * FRACTAL40];
    var q := PlaceComponents(tempValF, resultShift, (cVal / 0x40_0000_0000) % 2 > 0, ops);
    assert q == ThreeComp40(cVal, ops);
    return Ok(q);
  }

  // ---------------------------------------------------------------------------
  // POLAR32
  // ---------------------------------------------------------------------------

  const R_FRAC: real := 1.0 / 1023.0
  const F_PI: real := 3.14159265
  const F_PI2: real := 0.5 * F_PI
  const F_PI4: real := 0.5 * F_PI2
  const PHI_FRAC: real := F_PI2 / 511.0

  /** Math.Floor(Math.Sqrt(n)) on an integer that a double holds exactly: the integer square root. */
  function FloorSqrt(n: nat): (r: nat)
    ensures r * r <= n < (r + 1) * (r + 1)
  {
    if n == 0 then 0
    else
      var s := FloorSqrt(n - 1);
      if (s + 1) * (s + 1) <= n then
        assert (s + 2) * (s + 2) == (s + 1) * (s + 1) + 2 * s + 3;
        s + 1
      else
        s
  }

  lemma SquareStrictlyMonotone(a: real, b: real)
    requires 0.0 <= a < b
    ensures a * a < b * b
  {
    PositiveProduct(b - a, b + a);
    assert (b - a) * (b + a) == b * b - a * a;
  }


  /** Under an exact square root, flooring it gives FloorSqrt. */
  lemma FloorOfSqrt(n: nat, ops: FloatOps)
    requires ExactSqrt(ops)
    ensures ops.sqrt(n as real).Floor == FloorSqrt(n)
  {
    var r := FloorSqrt(n);
    RealSquareCast(r);
    RealSquareCast(r + 1);
    RootBetweenSquares(ops.sqrt(n as real), r as real, n as real);
  }

  lemma RealSquareCast(r: nat)
    ensures (r as real) * (r as real) == (r * r) as real
  {
  }

  /** A non-negative root of x lies in [r, r + 1) when r^2 <= x < (r + 1)^2. */
  lemma RootBetweenSquares(s: real, rr: real, x: real)
    requires 0.0 <= rr && 0.0 <= s && s * s == x
    requires rr * rr <= x < (rr + 1.0) * (rr + 1.0)
    ensures rr <= s < rr + 1.0
  {
    if s < rr {
      SquareStrictlyMonotone(s, rr);
    }
    if s > rr + 1.0 {
      SquareStrictlyMonotone(rr + 1.0, s);
    }
  }

  /** Bit 28 + k of c (`(cVal & (0x10000000 << k)) > 0`). */
  function SignBit(c: nat, k: nat): bool
    requires k < 4
  {
    if k == 0 then (c / 0x1000_0000) % 2 == 1
    else if k == 1 then (c / 0x2000_0000) % 2 == 1
    else if k == 2 then (c / 0x4000_0000) % 2 == 1
    else (c / 0x8000_0000) % 2 == 1
  }

  function Negated(v: real, negative: bool): real {
    if negative then -v else v
  }

  /** W from the value of the 10-bit radius field: 1 - (field / 1023)^2. It covers [0, 1],
      is 1 for field 0 and 0 for field 1023. */
  function RadiusToW(field: nat): (w: real)
    requires field < 1024
    ensures 0.0 <= w <= 1.0
    ensures field == 0 ==> w == 1.0
    ensures field == 1023 ==> w == 0.0
  {
    var r0 := (field as real) * R_FRAC;
    assert 0.0 <= r0 <= 1.0;
    NonNegativeProduct(r0, 1.0 - r0);
    NonNegativeProduct(r0, r0);
    1.0 - r0 * r0
  }

  /** The POLAR32 components before the sign bits, from W and the 18-bit phi/theta field:
      a direction of length sqrt(1 - W^2) and W itself. */
  function Polar32Unsigned(phiTheta: nat, R: real, ops: FloatOps): Quat {
    var phi := Polar32Phi(phiTheta);
    var theta := Polar32Theta(phiTheta);
    var magnitude := ops.sqrt(1.0 - R * R);
    Quat(ops.sin(phi) * ops.cos(theta) * magnitude,
         ops.sin(phi) * ops.sin(theta) * magnitude,
         ops.cos(phi) * magnitude,
         R)
  }

  /** phi = phi0 * (pi/2) / 511 where phi0 is the integer square root of the field; 0 when
      phi0 is 0. */
  function Polar32Phi(phiTheta: nat): (phi: real)
    ensures 0.0 <= phi
  {
    var phi0 := FloorSqrt(phiTheta);
    if phi0 > 0 then PHI_FRAC * (phi0 as real) else 0.0
  }

  /** theta = (pi/4) * (field - phi0^2) / phi0; 0 when phi0 is 0. */
  function Polar32Theta(phiTheta: nat): (theta: real)
    ensures 0.0 <= theta
  {
    var phi0 := FloorSqrt(phiTheta);
    if phi0 > 0 then
      assert phi0 * phi0 <= phiTheta;
      F_PI4 * ((phiTheta - phi0 * phi0) as real) / (phi0 as real)
    else 0.0
  }

  /** Bits 28 to 31 of c negate X, Y, Z and W. */
  function ApplySignBits(u: Quat, c: nat): Quat {
    Quat(Negated(u.x, SignBit(c, 0)), Negated(u.y, SignBit(c, 1)), Negated(u.z, SignBit(c, 2)), Negated(u.w, SignBit(c, 3)))
  }

  function Polar32From(c: nat, R: real, ops: FloatOps): Quat {
    ApplySignBits(Polar32Unsigned(c % 0x4_0000, R, ops), c)
  }

  /** The 10-bit radius field, bits 18 to 27 (`(cVal >> 18) & rMask`). */
  function Polar32Radius(c: nat): (r: nat)
    ensures r < 1024
  {
    (c / 0x4_0000) % 1024
  }

  /** POLAR32 as written: CastToFloat reinterprets the radius field's bits as a float. */
  function Polar32AsWritten(c: nat, ops: FloatOps): Quat {
    Polar32From(c, CastRadiusToW(Polar32Radius(c), ops), ops)
  }

  /** W from the radius field as written: the field's bits reinterpreted as a float
      (CastToFloat), scaled by 1/1023, squared and taken from 1. */
  function CastRadiusToW(field: nat, ops: FloatOps): real {
    var r0 := ops.singleFromBits(field) * R_FRAC;
    1.0 - r0 * r0
  }

  /** POLAR32 with the radius field converted to its value, the plain int-to-float cast that the
      comment above CastToFloat says is meant. */
  function Polar32(c: nat, ops: FloatOps): Quat {
    Polar32From(c, RadiusToW(Polar32Radius(c)), ops)
  }

  /** Bits 28 to 31 leave the radius and phi/theta fields alone. */
  lemma Polar32FieldsIgnoreSigns(signs: nat, low: nat)
    requires signs < 16 && low < 0x1000_0000
    ensures Polar32Radius(signs * 0x1000_0000 + low) == Polar32Radius(low)
    ensures (signs * 0x1000_0000 + low) % 0x4_0000 == low % 0x4_0000
  {
    var c := signs * 0x1000_0000 + low;
    ModUnique(c, 0x4_0000, signs * 0x400 + low / 0x4_0000, low % 0x4_0000);
    ModUnique(c / 0x4_0000, 1024, signs, low / 0x4_0000);
    ModUnique(low / 0x4_0000, 1024, 0, low / 0x4_0000);
  }

  /** Bit 28 + k of signs * 2^28 + low is bit k of signs. */
  lemma SignBitOf(signs: nat, low: nat, k: nat)
    requires signs < 16 && low < 0x1000_0000 && k < 4
    ensures var sb := if k == 0 then signs % 2 else if k == 1 then (signs / 2) % 2 else if k == 2 then (signs / 4) % 2 else signs / 8;
      SignBit(signs * 0x1000_0000 + low, k) == (sb == 1) && !SignBit(low, k)
  {
    var c := signs * 0x1000_0000 + low;
    if k == 0 {
      ModUnique(c, 0x1000_0000, signs, low);
      ModUnique(low, 0x1000_0000, 0, low);
    } else if k == 1 {
      ModUnique(c, 0x2000_0000, signs / 2, (signs % 2) * 0x1000_0000 + low);
      ModUnique(low, 0x2000_0000, 0, low);
    } else if k == 2 {
      ModUnique(c, 0x4000_0000, signs / 4, (signs % 4) * 0x1000_0000 + low);
      ModUnique(low, 0x4000_0000, 0, low);
    } else {
      ModUnique(c, 0x8000_0000, signs / 8, (signs % 8) * 0x1000_0000 + low);
      ModUnique(low, 0x8000_0000, 0, low);
    }
  }

  /** Bits 28, 29, 30 and 31 negate X, Y, Z and W and change nothing else. */
  lemma Polar32SignBits(signs: nat, low: nat, ops: FloatOps)
    requires signs < 16 && low < 0x1000_0000
    ensures var u := Polar32(low, ops);
      Polar32(signs * 0x1000_0000 + low, ops)
        == Quat(Negated(u.x, signs % 2 == 1), Negated(u.y, (signs / 2) % 2 == 1),
                Negated(u.z, (signs / 4) % 2 == 1), Negated(u.w, signs / 8 == 1))
  {
    Polar32FieldsIgnoreSigns(signs, low);
    SignBitOf(signs, low, 0);
    SignBitOf(signs, low, 1);
    SignBitOf(signs, low, 2);
    SignBitOf(signs, low, 3);
  }


  /** Polar angles give a unit direction when sin^2 + cos^2 == 1. */
  lemma DirectionNorm(sp: real, cp: real, st: real, ct: real, m: real)
    requires sp * sp + cp * cp == 1.0 && st * st + ct * ct == 1.0
    ensures (sp * ct * m) * (sp * ct * m) + (sp * st * m) * (sp * st * m) + (cp * m) * (cp * m) == m * m
  {
    calc {
      (sp * ct * m) * (sp * ct * m) + (sp * st * m) * (sp * st * m) + (cp * m) * (cp * m);
      (sp * sp) * (ct * ct) * (m * m) + (sp * sp) * (st * st) * (m * m) + (cp * cp) * (m * m);
      (sp * sp) * (st * st + ct * ct) * (m * m) + (cp * cp) * (m * m);
      (sp * sp + cp * cp) * (m * m);
    }
  }

  /** With an exact square root and sin^2 + cos^2 == 1, POLAR32 yields a unit quaternion. */
  lemma Polar32Unit(c: nat, ops: FloatOps)
    requires ExactSqrt(ops) && PythagoreanTrig(ops)
    ensures Norm2(Polar32(c, ops)) == 1.0
  {
    var R := RadiusToW(Polar32Radius(c));
    UnsignedUnit(c % 0x4_0000, R, ops);
    SignsKeepNorm(Polar32Unsigned(c % 0x4_0000, R, ops), c);
  }

  /** The sign bits change no component's magnitude. */
  lemma SignsKeepNorm(u: Quat, c: nat)
    ensures Norm2(ApplySignBits(u, c)) == Norm2(u)
  {
    var q := ApplySignBits(u, c);
    NegatedSquare(u.x, SignBit(c, 0));
    NegatedSquare(u.y, SignBit(c, 1));
    NegatedSquare(u.z, SignBit(c, 2));
    NegatedSquare(u.w, SignBit(c, 3));
  }

  lemma NegatedSquare(v: real, negative: bool)
    ensures Negated(v, negative) * Negated(v, negative) == v * v
  {
    if negative {
      assert (-v) * (-v) == v * v;
    }
  }

  lemma UnsignedUnit(phiTheta: nat, R: real, ops: FloatOps)
    requires ExactSqrt(ops) && PythagoreanTrig(ops) && 0.0 <= R <= 1.0
    ensures Norm2(Polar32Unsigned(phiTheta, R, ops)) == 1.0
  {
    var phi, theta := Polar32Phi(phiTheta), Polar32Theta(phiTheta);
    NonNegativeProduct(R, 1.0 - R);
    var m := ops.sqrt(1.0 - R * R);
    var sp, cp, st, ct := ops.sin(phi), ops.cos(phi), ops.sin(theta), ops.cos(theta);
    UnsignedParts(phiTheta, R, ops);
    UnitLengthParts(R, sp, cp, st, ct, m);
  }

  lemma UnsignedParts(phiTheta: nat, R: real, ops: FloatOps)
    ensures var phi, theta := Polar32Phi(phiTheta), Polar32Theta(phiTheta);
      var m := ops.sqrt(1.0 - R * R);
      Polar32Unsigned(phiTheta, R, ops)
        == Quat(ops.sin(phi) * ops.cos(theta) * m, ops.sin(phi) * ops.sin(theta) * m, ops.cos(phi) * m, R)
  {
  }

  lemma UnitLengthParts(R: real, sp: real, cp: real, st: real, ct: real, m: real)
    requires 0.0 <= R <= 1.0 && m * m == 1.0 - R * R
    requires sp * sp + cp * cp == 1.0 && st * st + ct * ct == 1.0
    ensures (sp * ct * m) * (sp * ct * m) + (sp * st * m) * (sp * st * m) + (cp * m) * (cp * m) + R * R == 1.0
  {
    DirectionNorm(sp, cp, st, ct, m);
  }

  lemma SmallSquare(r0: real)
    requires 0.0 <= r0 <= 0.001
    ensures 1.0 - r0 * r0 >= 0.999
  {
    NonNegativeProduct(r0, 0.001 - r0);
    assert r0 * (0.001 - r0) == 0.001 * r0 - r0 * r0;
  }

  /** As written, with the radius field's bits decoded as the float they form (a subnormal),
      r0 is below 2^-139 and W stays within 0.001 of +1 or -1 whatever the field holds. */
  lemma Polar32AsWrittenNearUnitW(c: nat, ops: FloatOps)
    requires SubnormalDecode(ops)
    ensures var w := Polar32AsWritten(c, ops).w;
      w >= 0.999 || w <= -0.999
  {
    CastRadiusNearOne(Polar32Radius(c), ops);
    Polar32FromNearUnitW(c, CastRadiusToW(Polar32Radius(c), ops), ops);
  }

  lemma CastRadiusNearOne(field: nat, ops: FloatOps)
    requires SubnormalDecode(ops) && field < 1024
    ensures CastRadiusToW(field, ops) >= 0.999
  {
    SubnormalRadiusSmall(field, ops);
    SmallSquare(ops.singleFromBits(field) * R_FRAC);
  }

  /** W is the radius term, negated by bit 31. */
  lemma Polar32FromNearUnitW(c: nat, R: real, ops: FloatOps)
    requires R >= 0.999
    ensures Polar32From(c, R, ops).w >= 0.999 || Polar32From(c, R, ops).w <= -0.999
  {
    assert Polar32From(c, R, ops).w == Negated(R, SignBit(c, 3));
  }

  lemma SubnormalRadiusSmall(field: nat, ops: FloatOps)
    requires SubnormalDecode(ops) && field < 1024
    ensures 0.0 <= ops.singleFromBits(field) * R_FRAC <= 0.001
  {
    assert ops.singleFromBits(field) == (field as real) * SUBNORMAL_UNIT;
  }

  /** The word 0x0FFC0000 (radius field 1023, no sign bits, phi/theta 0): the value
      conversion gives W == 0 while the bit reinterpretation gives W close to 1. */
  lemma Polar32RadiusCounterexample(ops: FloatOps)
    requires SubnormalDecode(ops)
    ensures Polar32(0x0FFC_0000, ops).w == 0.0
    ensures Polar32AsWritten(0x0FFC_0000, ops).w >= 0.999
  {
    assert Polar32Radius(0x0FFC_0000) == 1023;
    Polar32AsWrittenNearUnitW(0x0FFC_0000, ops);
    assert (0x0FFC_0000 / 0x8000_0000) % 2 == 0;
  }

  function Polar32At(inp: Input, pos: nat, ops: FloatOps): (r: Result<Parsed<Quat>>)
    ensures r.Ok? <==> pos + 4 <= |inp.bytes|
    ensures r.Ok? ==> r.value.pos == pos + 4
  {
    var c :- UInt32At(inp, pos);
    Ok(Parsed(Polar32(c.value, ops), c.pos))
  }

  method ReadQuatPolar32(r: Reader, ops: FloatOps) returns (res: Result<Quat>)
    modifies r
    ensures Step(res, r.pos) == Polar32At(r.input, old(r.pos), ops)
  {
    var cVal :- r.ReadUInt32();
    return Ok(Polar32(cVal, ops));
  }

  // ---------------------------------------------------------------------------
  // UNCOMPRESSED and the dispatch
  // ---------------------------------------------------------------------------

  function UncompressedAt(inp: Input, pos: nat, ops: FloatOps): (r: Result<Parsed<Quat>>)
    ensures r.Ok? <==> pos + 16 <= |inp.bytes|
    ensures r.Ok? ==> r.value.pos == pos + 16
  {
    var x :- SingleAt(inp, pos, ops);
    var y :- SingleAt(inp, x.pos, ops);
    var z :- SingleAt(inp, y.pos, ops);
    var w :- SingleAt(inp, z.pos, ops);
    Ok(Parsed(Quat(x.value, y.value, z.value, w.value), w.pos))
  }

  /** ReadQuantizedQuaternion. Each implemented code consumes exactly its entry of the
      byte-count table; THREECOMP24 and STRAIGHT16 throw; a code outside the enumeration
      reads nothing and yields the identity. */
  function QuaternionAt(inp: Input, pos: nat, qt: RotationCode, ops: FloatOps): (r: Result<Parsed<Quat>>)
    ensures qt <= UNCOMPRESSED && r.Ok? ==> r.value.pos == pos + GetRotationByteCount(qt).value
    ensures (qt == THREECOMP24 || qt == STRAIGHT16) ==> r == Err(UnsupportedQuantization)
    ensures qt > UNCOMPRESSED ==> r == Ok(Parsed(Identity, pos))
    ensures qt == THREECOMP40 ==> (r.Ok? <==> pos + 8 <= |inp.bytes|)
    ensures qt in {POLAR32, THREECOMP48, UNCOMPRESSED} ==>
              (r.Ok? <==> pos + GetRotationByteCount(qt).value <= |inp.bytes|)
  {
    if qt == POLAR32 then Polar32At(inp, pos, ops)
    else if qt == THREECOMP40 then ThreeComp40At(inp, pos, ops)
    else if qt == THREECOMP48 then ThreeComp48At(inp, pos, ops)
    else if qt == THREECOMP24 || qt == STRAIGHT16 then Err(UnsupportedQuantization)
    else if qt == UNCOMPRESSED then UncompressedAt(inp, pos, ops)
    else Ok(Parsed(Identity, pos))
  }

  method ReadQuantizedQuaternion(r: Reader, qt: RotationCode, ops: FloatOps) returns (res: Result<Quat>)
    modifies r
    ensures Step(res, r.pos) == QuaternionAt(r.input, old(r.pos), qt, ops)
  {
    if qt == POLAR32 {
      res := ReadQuatPolar32(r, ops);
    } else if qt == THREECOMP40 {
      res := ReadQuatThreeComp40(r, ops);
    } else if qt == THREECOMP48 {
      res := ReadQuatThreeComp48(r, ops);
    } else if qt == THREECOMP24 || qt == STRAIGHT16 {
      res := Err(UnsupportedQuantization);
    } else if qt == UNCOMPRESSED {
      var x :- r.ReadSingle(ops);
      var y :- r.ReadSingle(ops);
      var z :- r.ReadSingle(ops);
      var w :- r.ReadSingle(ops);
      res := Ok(Quat(x, y, z, w));
    } else {
      res := Ok(Identity);
    }
  }
}
