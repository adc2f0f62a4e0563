/** Quantisation codes, the rotation alignment and size tables, and the scalar
    dequantiser (ReadQuantizedFloat). */
module Quantization {
  import opened Wrappers
  import opened BinaryReader

  /** The 2-bit scalar quantisation field of a transform mask. Only 0 and 1 are defined. */
  type ScalarCode = c: int | 0 <= c < 4
  const BITS8: ScalarCode := 0
  const BITS16: ScalarCode := 1

  /** The 4-bit rotation quantisation field of a transform mask. Only 0 to 5 are defined. */
  type RotationCode = c: int | 0 <= c < 16
  const POLAR32: RotationCode := 0
  const THREECOMP40: RotationCode := 1
  const THREECOMP48: RotationCode := 2
  const THREECOMP24: RotationCode := 3
  const STRAIGHT16: RotationCode := 4
  const UNCOMPRESSED: RotationCode := 5

  /** Size in bytes of one stored rotation; undefined codes throw. */
  function GetRotationByteCount(qt: RotationCode): (r: Result<nat>)
    ensures r.Ok? <==> qt <= UNCOMPRESSED
    ensures r.Err? ==> r.error == UnsupportedQuantization
  {
    match qt
    case 0 => Ok(4)
    case 1 => Ok(5)
    case 2 => Ok(6)
    case 3 => Ok(3)
    case 4 => Ok(2)
    case 5 => Ok(16)
    case _ => Err(UnsupportedQuantization)
  }

  /** Alignment of stored rotations; undefined codes throw. Every defined rotation
      occupies a whole number of alignment units, so consecutive rotations stay aligned. */
  function GetRotationAlign(qt: RotationCode): (r: Result<nat>)
    ensures r.Ok? <==> qt <= UNCOMPRESSED
    ensures r.Err? ==> r.error == UnsupportedQuantization
    ensures r.Ok? ==> 1 <= r.value <= 4 && GetRotationByteCount(qt).value % r.value == 0
  {
    match qt
    case 0 => Ok(4)
    case 1 => Ok(1)
    case 2 => Ok(2)
    case 3 => Ok(1)
    case 4 => Ok(2)
    case 5 => Ok(4)
    case _ => Err(UnsupportedQuantization)
  }

  /** The value a raw integer `raw` out of `full` stands for in the range [min, max]. */
  function Dequantize(min: real, max: real, raw: nat, full: nat): (r: real)
    requires full > 0
    ensures raw == 0 ==> r == min
    ensures raw == full ==> r == max
    ensures min <= max && raw <= full ==> min <= r <= max
  {
    var ratio := (raw as real) / (full as real);
    assert raw <= full ==> ratio <= 1.0;
    min + (max - min) * ratio
  }

  /** A larger raw value never decodes to a smaller value when the range is not inverted. */
  lemma DequantizeMonotone(min: real, max: real, raw1: nat, raw2: nat, full: nat)
    requires full > 0 && min <= max && raw1 <= raw2
    ensures Dequantize(min, max, raw1, full) <= Dequantize(min, max, raw2, full)
  {
    var r1, r2 := (raw1 as real) / (full as real), (raw2 as real) / (full as real);
    assert r1 <= r2;
    assert (max - min) * r1 <= (max - min) * r2;
  }

  /** ReadQuantizedFloat: one byte out of 255 or one 16-bit word out of 65535;
      the undefined codes 2 and 3 throw before anything is read. */
  function QuantizedFloatAt(inp: Input, pos: nat, min: real, max: real, qt: ScalarCode): (r: Result<Parsed<real>>)
    ensures qt == BITS8 ==> (r.Ok? <==> pos + 1 <= |inp.bytes|)
    ensures qt == BITS16 ==> (r.Ok? <==> pos + 2 <= |inp.bytes|)
    ensures r.Ok? ==> r.value.pos == pos + (if qt == BITS8 then 1 else 2)
    ensures r.Ok? && min <= max ==> min <= r.value.value <= max
    ensures qt >= 2 ==> r == Err(UnsupportedQuantization)
  {
    if qt == BITS8 then
      var b :- ByteAt(inp, pos);
      Ok(Parsed(Dequantize(min, max, b.value, 255), b.pos))
    else if qt == BITS16 then
      var u :- UInt16At(inp, pos);
      Ok(Parsed(Dequantize(min, max, u.value, 65535), u.pos))
    else
      Err(UnsupportedQuantization)
  }

  method ReadQuantizedFloat(r: Reader, min: real, max: real, qt: ScalarCode) returns (res: Result<real>)
    modifies r
    ensures Step(res, r.pos) == QuantizedFloatAt(r.input, old(r.pos), min, max, qt)
  {
    if qt == BITS8 {
      var b :- r.ReadByte();
      var ratio := (b as real) / 255.0;
      assert min + (max - min) * ratio == Dequantize(min, max, b, 255);
      return Ok(min + (max - min) * ratio);
    } else if qt == BITS16 {
      var u :- r.ReadUInt16();
      var ratio := (u as real) / 65535.0;
      assert min + (max - min) * ratio == Dequantize(min, max, u, 65535);
      return Ok(min + (max - min) * ratio);
    } else {
      return Err(UnsupportedQuantization);
    }
  }
}
