# Havok spline-compressed animation decoder in Dafny

This project models the decoder for Havok's spline-compressed animation blocks, as written in
`TAEDX/Havok/SplineCompressedAnimation.cs`.

A block holds one `TransformMask` per transform track. The mask has four bytes: the
quantization codes, then the position, rotation and scale channel flags. The block pads to 4
bytes. Then, for every track, it holds a position section, a rotation section and a scale
section. Each section pads to 4 bytes, and the whole block pads to 16. A section is either a
B-spline track or a few static values:
- a spline track has a header (item count, degree, knots), per-axis bounds or static values,
  and quantized control points;
- a static rotation is one quantized quaternion.

Quaternions come in these encodings:
- POLAR32, THREECOMP40 and THREECOMP48 are decoded;
- UNCOMPRESSED is four singles;
- THREECOMP24 and STRAIGHT16 throw.

Spline values are evaluated with the NURBS-book algorithms A2.1 (knot span search) and A2.2
(basis functions).

The model is organised by concern:

| file | module | what it holds |
|---|---|---|
| `wrappers.dfy` | `Wrappers` | `Result`/`Option`, the error kinds (buffer underrun, unsupported quantization, negative track count), `Parsed` (value and cursor) |
| `numerics.dfy` | `Numerics` | `Vec3`, `Quat`, and `FloatOps`: the floating-point primitives, with the predicates that pin down their meaning where a proof needs it |
| `binary_reader.dfy` | `BinaryReader` | the byte cursor: the pure `XxxAt` readers, the `Reader` class whose methods move `pos`, and padding |
| `quantization.dfy` | `Quantization` | the quantization enumerations, the rotation byte-count and alignment tables, scalar dequantization |
| `masks.dfy` | `Masks` | the flag enumeration, flag-byte decoding, `TransformMask` |
| `rotation.dfy` | `Rotation` | the quaternion encodings and the dispatch over them |
| `nurbs.dfy` | `Nurbs` | knot-span search, basis functions, control-point blending |
| `spline_tracks.dfy` | `SplineTracks` | the spline track readers and their `GetValue` evaluators |
| `animation.dfy` | `Animation` | `TransformTrack`, the per-track sections, the block loop and `ReadSplineCompressedAnimByteBlock` |

Every reading operation appears twice:
- A pure function `XxxAt(input, pos, ...)` returns `Ok(Parsed(value, newPos))` or an error.
  The lemmas are stated about these functions.
- A method on the `Reader` cursor does the reading step by step, with the loops the source has.
  The method is proved equal to the function: its `ensures` is
  `Step(res, r.pos) == XxxAt(r.input, old(r.pos), ...)`.

The C# `float` is modelled as `real`. The float primitives are a `FloatOps` parameter: the bit
reinterpretation of a 32-bit word, `Math.Sqrt`, `Math.Sin` and `Math.Cos`. Properties that
depend on what a primitive means take a predicate as a precondition:
- `ExactSqrt`: the square root is exact;
- `PythagoreanTrig`: sin² + cos² = 1;
- `SubnormalDecode`: a word below 2^23 decodes as that many multiples of 2^-149.

## Model

| member | source | states |
|---|---|---|
| Quantization.GetRotationByteCount | TAEDX/Havok/SplineCompressedAnimation.cs:75-87 | succeeds exactly for the six enumerated codes and throws (UnsupportedQuantization) for any other |
| Quantization.GetRotationAlign | TAEDX/Havok/SplineCompressedAnimation.cs:61-73 | succeeds exactly for the six enumerated codes; the alignment is between 1 and 4 and divides the code's byte count |
| Quantization.Dequantize | TAEDX/Havok/SplineCompressedAnimation.cs:98 | min + (max - min) * ratio is min at raw 0, max at full scale, and stays in [min, max] |
| Quantization.DequantizeMonotone | TAEDX/Havok/SplineCompressedAnimation.cs:89-99 | a larger raw value never dequantizes to a smaller float |
| Quantization.QuantizedFloatAt | TAEDX/Havok/SplineCompressedAnimation.cs:89-99 | BITS8 reads 1 byte and BITS16 reads 2, each failing only on underrun; the value lies within the bounds; any other code throws |
| Quantization.ReadQuantizedFloat | TAEDX/Havok/SplineCompressedAnimation.cs:89-99 | the cursor method agrees with QuantizedFloatAt in value, error and cursor advance |
| BinaryReader.LittleEndianRoundTrip | TAEDX/Havok/SplineCompressedAnimation.cs:572 | little-endian decoding inverts little-endian encoding for every width |
| BinaryReader.BigEndianRoundTrip | TAEDX/Havok/SplineCompressedAnimation.cs:572 | big-endian decoding inverts big-endian encoding for every width |
| BinaryReader.UIntAt | TAEDX/Havok/SplineCompressedAnimation.cs:572 | an unsigned read succeeds exactly when width bytes remain, advances by width and fits in width bytes; otherwise it is a buffer underrun |
| BinaryReader.Int16At | TAEDX/Havok/SplineCompressedAnimation.cs:161-163 | a short read needs 2 bytes, advances 2 and yields a value in [-32768, 32768) |
| BinaryReader.Signed16 | TAEDX/Havok/SplineCompressedAnimation.cs:161-163 | two's-complement reinterpretation: in the 16-bit signed range and congruent to the raw value mod 2^16 |
| BinaryReader.PadTo | TAEDX/Havok/SplineCompressedAnimation.cs:581 | the padded position is the least multiple of the alignment at or after pos |
| BinaryReader.Reader.ReadByte | TAEDX/Havok/SplineCompressedAnimation.cs:513-516 | reads the byte under the cursor and advances one, or fails on underrun |
| BinaryReader.Reader.ReadUInt32 | TAEDX/Havok/SplineCompressedAnimation.cs:117 | agrees with UInt32At: 4 bytes in the input's byte order |
| BinaryReader.Reader.ReadUInt64 | TAEDX/Havok/SplineCompressedAnimation.cs:208 | agrees with UInt64At: 8 bytes in the input's byte order |
| BinaryReader.Reader.ReadInt16 | TAEDX/Havok/SplineCompressedAnimation.cs:161-163 | agrees with Int16At |
| BinaryReader.Reader.ReadSingle | TAEDX/Havok/SplineCompressedAnimation.cs:614 | agrees with SingleAt: a 32-bit word decoded as a single |
| BinaryReader.Reader.Pad | TAEDX/Havok/SplineCompressedAnimation.cs:581 | moves the cursor to PadTo(old position, alignment) |
| BinaryReader.Reader.SetPosition | TAEDX/Havok/SplineCompressedAnimation.cs:209 | the cursor is placed where asked (the rewind of THREECOMP40) |
| Masks.Index | TAEDX/Havok/SplineCompressedAnimation.cs:33-43 | every flag has its position in the enumeration order StaticX..SplineW |
| Masks.FlagsOfMembership | TAEDX/Havok/SplineCompressedAnimation.cs:522-532 | a flag is in the decoded list exactly when its bit is set in the byte |
| Masks.FlagsOfAscending | TAEDX/Havok/SplineCompressedAnimation.cs:522 | the decoded list follows enumeration order without repeats |
| Masks.FlagsOfRoundTrip | TAEDX/Havok/SplineCompressedAnimation.cs:33-43 | the weights of the decoded flags add back up to the byte |
| Masks.QuantizationRoundTrip | TAEDX/Havok/SplineCompressedAnimation.cs:518-520 | the three quantization fields (bits 0-1, 2-5, 6-7) recompose the byte |
| Masks.TransformMaskAt | TAEDX/Havok/SplineCompressedAnimation.cs:507-533 | a mask needs 4 bytes and consumes exactly 4; otherwise it is a buffer underrun |
| Masks.TransformMaskFaithful | TAEDX/Havok/SplineCompressedAnimation.cs:507-533 | the four mask bytes are recovered from the decoded mask: the quantization byte from its three codes, and each flag byte from its flag list |
| Masks.ReadTransformMask | TAEDX/Havok/SplineCompressedAnimation.cs:507-533 | the foreach loop over the enumeration builds the same mask as TransformMaskAt |
| Rotation.ThreeComp48Index | TAEDX/Havok/SplineCompressedAnimation.cs:165 | the shift is bit 15 of y times 2 plus bit 15 of x |
| Rotation.Recenter48 | TAEDX/Havok/SplineCompressedAnimation.cs:168-173 | masking to 15 bits then subtracting 16383 gives a value in [-16383, 16384] |
| Rotation.Recenter40 | TAEDX/Havok/SplineCompressedAnimation.cs:217-219 | a 12-bit field minus 2047 lies in [-2047, 2048] |
| Rotation.AssembleKeepsStoredOrder | TAEDX/Havok/SplineCompressedAnimation.cs:182-188 | removing the reconstructed slot leaves the three stored components in order |
| Rotation.ReconstructedSign | TAEDX/Havok/SplineCompressedAnimation.cs:190-198 | the reconstructed component is 0 when 1 - Σt² <= 0, and otherwise has the sign the sign bit selects |
| Rotation.AssembleNorm | TAEDX/Havok/SplineCompressedAnimation.cs:190-198 | the assembled quaternion has unit length whenever 1 - Σt² > 0 |
| Rotation.PlaceComponents | TAEDX/Havok/SplineCompressedAnimation.cs:180-200 | the placement loop on the 4-float array yields Assemble |
| Rotation.ThreeComp48At | TAEDX/Havok/SplineCompressedAnimation.cs:156-201 | THREECOMP48 succeeds exactly when 6 bytes remain and consumes 6 |
| Rotation.ThreeComp40At | TAEDX/Havok/SplineCompressedAnimation.cs:203-248 | THREECOMP40 needs 8 readable bytes but consumes 5 |
| Rotation.ReadQuatThreeComp48 | TAEDX/Havok/SplineCompressedAnimation.cs:156-201 | the cursor method agrees with ThreeComp48At |
| Rotation.ReadQuatThreeComp40 | TAEDX/Havok/SplineCompressedAnimation.cs:203-248 | the cursor method, with its 8-byte read and 3-byte rewind, agrees with ThreeComp40At |
| Rotation.FloorSqrt | TAEDX/Havok/SplineCompressedAnimation.cs:124 | r is the integer square root: r² <= n < (r+1)² |
| Rotation.FloorOfSqrt | TAEDX/Havok/SplineCompressedAnimation.cs:124 | under an exact square root, Math.Floor(Math.Sqrt(n)) is FloorSqrt(n) |
| Rotation.RadiusToW | TAEDX/Havok/SplineCompressedAnimation.cs:119-120 | W = 1 - (field/1023)² is in [0, 1]: 1 for field 0, 0 for field 1023 |
| Rotation.Polar32Phi | TAEDX/Havok/SplineCompressedAnimation.cs:124-131 | phi is non-negative |
| Rotation.Polar32Theta | TAEDX/Havok/SplineCompressedAnimation.cs:125-131 | theta is non-negative |
| Rotation.Polar32Radius | TAEDX/Havok/SplineCompressedAnimation.cs:119 | the radius field is bits 18-27 and is below 1024 |
| Rotation.Polar32FieldsIgnoreSigns | TAEDX/Havok/SplineCompressedAnimation.cs:119-122 | the sign bits 28-31 do not affect the radius or phi/theta fields |
| Rotation.SignBitOf | TAEDX/Havok/SplineCompressedAnimation.cs:141-151 | sign test k reads bit 28+k of the word |
| Rotation.Polar32SignBits | TAEDX/Havok/SplineCompressedAnimation.cs:141-151 | bits 28, 29, 30 and 31 negate X, Y, Z and W of the unsigned decoding, and nothing else |
| Rotation.Polar32Unit | TAEDX/Havok/SplineCompressedAnimation.cs:108-154 | with an exact sqrt and sin² + cos² = 1, every POLAR32 word decodes to a unit quaternion |
| Rotation.SignsKeepNorm | TAEDX/Havok/SplineCompressedAnimation.cs:141-151 | the sign flips keep the length |
| Rotation.UnsignedUnit | TAEDX/Havok/SplineCompressedAnimation.cs:133-139 | the direction times sqrt(1 - W²), together with W, has unit length for W in [0, 1] |
| Rotation.Polar32AsWrittenNearUnitW | TAEDX/Havok/SplineCompressedAnimation.cs:102-106 | with the bit-reinterpreting CastToFloat, \|W\| >= 0.999 for every word |
| Rotation.CastRadiusNearOne | TAEDX/Havok/SplineCompressedAnimation.cs:119-120 | reinterpreting the 10-bit field's bits gives W >= 0.999 |
| Rotation.SubnormalRadiusSmall | TAEDX/Havok/SplineCompressedAnimation.cs:102-106 | a 10-bit pattern read as a float is a subnormal, so times 1/1023 it is at most 0.001 |
| Rotation.Polar32RadiusCounterexample | TAEDX/Havok/SplineCompressedAnimation.cs:119 | for word 0x0FFC0000, the value conversion gives W = 0 while the code as written gives W >= 0.999 |
| Rotation.Polar32At | TAEDX/Havok/SplineCompressedAnimation.cs:108-154 | POLAR32 succeeds exactly when 4 bytes remain and consumes 4 |
| Rotation.ReadQuatPolar32 | TAEDX/Havok/SplineCompressedAnimation.cs:108-154 | the cursor method agrees with Polar32At |
| Rotation.UncompressedAt | TAEDX/Havok/SplineCompressedAnimation.cs:264 | an uncompressed quaternion needs and consumes 16 bytes |
| Rotation.QuaternionAt | TAEDX/Havok/SplineCompressedAnimation.cs:250-268 | every implemented code consumes its byte-count entry; THREECOMP24 and STRAIGHT16 throw; unknown codes read nothing and give the identity; failure happens only on underrun |
| Rotation.ReadQuantizedQuaternion | TAEDX/Havok/SplineCompressedAnimation.cs:250-268 | the cursor dispatch agrees with QuaternionAt |
| Nurbs.SpanUnique | TAEDX/Havok/SplineCompressedAnimation.cs:270-291 | on sorted knots, a value lies in at most one half-open knot span |
| Nurbs.KnotSpanInSpan | TAEDX/Havok/SplineCompressedAnimation.cs:270-291 | the linear reference search lands in a span containing the value |
| Nurbs.KnotAtSpanStart | TAEDX/Havok/SplineCompressedAnimation.cs:270-291 | a value equal to a knot that starts a non-empty span selects that span |
| Nurbs.SearchFrom | TAEDX/Havok/SplineCompressedAnimation.cs:276-290 | where the binary search stops, it has bracketed the value: a span in [low, high) with knots[s] <= value < knots[s+1] |
| Nurbs.SearchEndsAboveLow | TAEDX/Havok/SplineCompressedAnimation.cs:276-290 | the search always stops when the value is not below knots[low], with no sortedness assumed |
| Nurbs.SearchHangsBelowLow | TAEDX/Havok/SplineCompressedAnimation.cs:276-290 | on sorted knots the search never stops for a value below knots[low] |
| Nurbs.KnotSpanSearch | TAEDX/Havok/SplineCompressedAnimation.cs:270-291 | at or past knots[n] the span is n-1; otherwise a span found lies in [degree, n) and brackets the value |
| Nurbs.KnotSpanSearchSorted | TAEDX/Havok/SplineCompressedAnimation.cs:270-291 | on sorted knots the binary search agrees with the linear scan between knots[degree] and knots[n], and never stops below knots[degree] |
| Nurbs.FindKnotSpan | TAEDX/Havok/SplineCompressedAnimation.cs:270-291 | knots[n] past the end throws (IndexOutOfRange); at or past knots[n] the result is n-1; otherwise the loop returns where the search stops, a span in [degree, n) containing the value, the only such span on sorted knots and the linear scan's span |
| Nurbs.BasisPartition | TAEDX/Havok/SplineCompressedAnimation.cs:295-304 | the degree+1 basis weights sum to 1 and the rest stay 0 |
| Nurbs.SortedSpanIsDefined | TAEDX/Havok/SplineCompressedAnimation.cs:300 | on sorted knots with a non-empty span, no denominator of the basis recurrence is zero |
| Nurbs.AlphaInUnit | TAEDX/Havok/SplineCompressedAnimation.cs:300 | for a frame inside the span on sorted knots, each ratio A lies in [0, 1] |
| Nurbs.BasisNonNegative | TAEDX/Havok/SplineCompressedAnimation.cs:295-304 | for a frame inside the span on sorted knots, every basis weight is non-negative |
| Nurbs.WeightStep | TAEDX/Havok/SplineCompressedAnimation.cs:301-303 | one step on the 5-element N array applies Update |
| Nurbs.ComputeBasis | TAEDX/Havok/SplineCompressedAnimation.cs:295-304 | the nested loops on N compute Basis |
| Nurbs.QBlendByComponent | TAEDX/Havok/SplineCompressedAnimation.cs:327-330 | quaternion blending is the float blending applied to each component |
| Nurbs.ConstantCurve | TAEDX/Havok/SplineCompressedAnimation.cs:293-312 | when the control points the span uses are all v, the curve value is v |
| Nurbs.GetSinglePoint | TAEDX/Havok/SplineCompressedAnimation.cs:293-312 | the returned value blends the control points with the basis weights; at degree 0 it is the span's control point |
| Nurbs.BlendWeights | TAEDX/Havok/SplineCompressedAnimation.cs:306-311 | the accumulation loop computes Blend |
| Nurbs.DegreeZeroBlend | TAEDX/Havok/SplineCompressedAnimation.cs:293-312 | a degree-0 curve returns the span's control point |
| Nurbs.GetSinglePointQuat | TAEDX/Havok/SplineCompressedAnimation.cs:314-333 | the quaternion variant blends with the same weights; at degree 0 it is the span's control point |
| Nurbs.QBlendWeights | TAEDX/Havok/SplineCompressedAnimation.cs:327-332 | the quaternion accumulation loop, starting from (0,0,0,0), computes QBlend |
| Nurbs.DegreeZeroQBlend | TAEDX/Havok/SplineCompressedAnimation.cs:314-333 | a degree-0 quaternion curve returns the span's control point |
| SplineTracks.KnotsAt | TAEDX/Havok/SplineCompressedAnimation.cs:390-394 | the knot loop reads count bytes in order, failing only on underrun |
| SplineTracks.HeaderAt | TAEDX/Havok/SplineCompressedAnimation.cs:388-394 | the header is a short item count, a degree byte and numItems + degree + 2 knots; for numItems >= 0 that is one more knot than control points plus the degree |
| SplineTracks.ReadKnots | TAEDX/Havok/SplineCompressedAnimation.cs:391-394 | the knot loop agrees with KnotsAt |
| SplineTracks.ReadHeader | TAEDX/Havok/SplineCompressedAnimation.cs:388-394 | the cursor method agrees with HeaderAt |
| SplineTracks.AxisAt | TAEDX/Havok/SplineCompressedAnimation.cs:409-452 | a spline axis reads min/max (8 bytes); otherwise a static axis reads one single (4 bytes); otherwise there is no channel and nothing is read |
| SplineTracks.AxisValueAt | TAEDX/Havok/SplineCompressedAnimation.cs:456-469 | a spline axis reads one quantized value within its bounds; other axes read nothing |
| SplineTracks.RowAt | TAEDX/Havok/SplineCompressedAnimation.cs:454-470 | one row yields one value for each spline axis and moves RowWidth bytes on; an unsupported scalar code fails |
| SplineTracks.RowValues | TAEDX/Havok/SplineCompressedAnimation.cs:456-469 | within a row, X, Y and Z are read one after the other, each from its own bounds |
| SplineTracks.ValueRowsShape | TAEDX/Havok/SplineCompressedAnimation.cs:454-470 | after `rows` rows each spline axis holds `rows` more values, and the cursor moved rows * RowWidth |
| SplineTracks.ValueRowsContent | TAEDX/Havok/SplineCompressedAnimation.cs:454-470 | value i of a spline axis is exactly the value row i reads at pos + i * RowWidth |
| SplineTracks.Vector3TrackShape | TAEDX/Havok/SplineCompressedAnimation.cs:384-471 | the track keeps the header's knots and degree; a spline axis has numItems+1 dynamic values, a static axis one non-dynamic value, an absent axis no channel |
| SplineTracks.ReadAxis | TAEDX/Havok/SplineCompressedAnimation.cs:409-422 | the cursor method agrees with AxisAt |
| SplineTracks.ReadRow | TAEDX/Havok/SplineCompressedAnimation.cs:456-469 | the cursor method agrees with RowAt |
| SplineTracks.ReadValueRows | TAEDX/Havok/SplineCompressedAnimation.cs:454-470 | the `for i <= numItems` loop agrees with ValueRowsFrom over numItems+1 rows |
| SplineTracks.ReadSplineTrackVector3 | TAEDX/Havok/SplineCompressedAnimation.cs:384-471 | the constructor's reads agree with Vector3TrackAt |
| SplineTracks.QuatsFrom | TAEDX/Havok/SplineCompressedAnimation.cs:363-366 | reading `rows` quaternions adds `rows` values and advances rows times the byte count |
| SplineTracks.QuaternionTrackShape | TAEDX/Havok/SplineCompressedAnimation.cs:347-367 | a quaternion track keeps the header's knots and degree, holds numItems+1 dynamic values and ends aligned to the code's alignment; an unknown code fails at the padding |
| SplineTracks.ReadQuaternions | TAEDX/Havok/SplineCompressedAnimation.cs:363-366 | the loop agrees with QuatsFrom |
| SplineTracks.ReadSplineTrackQuaternion | TAEDX/Havok/SplineCompressedAnimation.cs:347-367 | the constructor's reads agree with QuaternionTrackAt |
| SplineTracks.SplineValue | TAEDX/Havok/SplineCompressedAnimation.cs:477-478 | the search followed by the blend fails only with IndexOutOfRange, and always fails when there are no more knots than control points |
| SplineTracks.WellFormedEvaluates | TAEDX/Havok/SplineCompressedAnimation.cs:477-478 | on sorted knots, with a frame not below knots[degree] and a non-empty last span when clamped, the evaluation succeeds with the blend at the linear scan's span, whose basis has no zero denominator |
| SplineTracks.HeaderKnotsIndexed | TAEDX/Havok/SplineCompressedAnimation.cs:388-394 | with the n + degree + 1 knots a header gives and degree <= 4, an unclamped frame always evaluates, and a clamped one evaluates exactly when degree < n |
| SplineTracks.ChannelValueConstant | TAEDX/Havok/SplineCompressedAnimation.cs:473-479 | a channel whose values are all v evaluates to v at every frame where it evaluates |
| SplineTracks.GetSplineValue | TAEDX/Havok/SplineCompressedAnimation.cs:477-478 | FindKnotSpan then GetSinglePoint, with an out-of-range span index reported as IndexOutOfRange, agree with SplineValue |
| SplineTracks.GetChannelValue | TAEDX/Havok/SplineCompressedAnimation.cs:473-479 | a one-value channel returns that value; otherwise the result is SplineValue |
| SplineTracks.GetValueX | TAEDX/Havok/SplineCompressedAnimation.cs:473-479 | an absent channel X (null in C#) is NullChannel; a present one evaluates as ChannelValue |
| SplineTracks.GetValueY | TAEDX/Havok/SplineCompressedAnimation.cs:481-487 | an absent channel Y (null in C#) is NullChannel; a present one evaluates as ChannelValue |
| SplineTracks.GetValueZ | TAEDX/Havok/SplineCompressedAnimation.cs:489-495 | an absent channel Z (null in C#) is NullChannel; a present one evaluates as ChannelValue |
| SplineTracks.QuaternionValueByComponent | TAEDX/Havok/SplineCompressedAnimation.cs:369-373 | the quaternion evaluation and the float evaluation of each component's column fail together, and on success agree component by component |
| SplineTracks.GetValue | TAEDX/Havok/SplineCompressedAnimation.cs:369-373 | the quaternion track has no one-value shortcut: the search and the blend give QuaternionValue, index errors included |
| Animation.StaticComponentAt | TAEDX/Havok/SplineCompressedAnimation.cs:612-625 | an unflagged component keeps its previous value and reads nothing; a flagged one reads 4 bytes |
| Animation.StaticVectorFrame | TAEDX/Havok/SplineCompressedAnimation.cs:610-626 | only flagged components change, each reading 4 bytes; the read succeeds when those bytes are there |
| Animation.VectorSectionFrame | TAEDX/Havok/SplineCompressedAnimation.cs:606-626 | a spline section replaces the spline and keeps the static vector; a static section keeps the old spline and changes only the flagged components |
| Animation.RotationSectionFrame | TAEDX/Havok/SplineCompressedAnimation.cs:632-643 | a spline rotation replaces the spline; a static rotation pads to the code's alignment and reads its byte count; no flags reads nothing |
| Animation.RotationSectionUndefined | TAEDX/Havok/SplineCompressedAnimation.cs:632-643 | a code outside the enumeration with any rotation flag throws (from the padding table) |
| Animation.TrackPayloadAt | TAEDX/Havok/SplineCompressedAnimation.cs:583-674 | the track keeps its mask and the cursor ends 4-aligned |
| Animation.TrackPayloadFrame | TAEDX/Havok/SplineCompressedAnimation.cs:583-674 | the four Has flags follow the mask's flags; each section changes only what its flags name; a rotation code outside the enumeration with rotation flags throws |
| Animation.EmptyMaskPayload | TAEDX/Havok/SplineCompressedAnimation.cs:583-674 | a track whose mask has no flags keeps all its values; it only clears its Has flags and pads to 4 |
| Animation.MasksFrom | TAEDX/Havok/SplineCompressedAnimation.cs:576-579 | the mask loop changes only the masks, gives every track from i on a mask, and reads 4 bytes per track; it succeeds when those bytes are there |
| Animation.PayloadsFrom | TAEDX/Havok/SplineCompressedAnimation.cs:583-674 | the payload loop keeps every mask and the tracks already done |
| Animation.BlockAt | TAEDX/Havok/SplineCompressedAnimation.cs:576-676 | a block keeps the track count, gives every track a mask and ends 16-aligned |
| Animation.BlocksFrom | TAEDX/Havok/SplineCompressedAnimation.cs:574-677 | the block loop keeps the track count; after at least one block every track has a mask and the cursor is 16-aligned |
| Animation.DecodeAnimation | TAEDX/Havok/SplineCompressedAnimation.cs:562-680 | a negative track count fails; otherwise the result has numTransformTracks tracks, each masked once a block was read, and with no blocks every track is the default track |
| Animation.ReadStaticVector | TAEDX/Havok/SplineCompressedAnimation.cs:610-626 | the cursor method agrees with StaticVectorAt |
| Animation.ReadVectorSection | TAEDX/Havok/SplineCompressedAnimation.cs:606-628 | the cursor method agrees with VectorSectionAt |
| Animation.ReadRotationSection | TAEDX/Havok/SplineCompressedAnimation.cs:632-645 | the cursor method agrees with RotationSectionAt |
| Animation.ReadTrackPayload | TAEDX/Havok/SplineCompressedAnimation.cs:583-674 | the cursor method agrees with TrackPayloadAt |
| Animation.ReadMasks | TAEDX/Havok/SplineCompressedAnimation.cs:576-579 | the in-place loop over the track array agrees with MasksFrom, in the array and in the cursor |
| Animation.ReadPayloads | TAEDX/Havok/SplineCompressedAnimation.cs:583-674 | the in-place loop over the track array agrees with PayloadsFrom |
| Animation.ReadBlock | TAEDX/Havok/SplineCompressedAnimation.cs:576-676 | one block of the array loop agrees with BlockAt |
| Animation.ReadBlocks | TAEDX/Havok/SplineCompressedAnimation.cs:574-677 | the block loop agrees with BlocksFrom |
| Animation.ReadSplineCompressedAnimByteBlock | TAEDX/Havok/SplineCompressedAnimation.cs:562-680 | returns a fresh array holding DecodeAnimation's tracks, or DecodeAnimation's error |

## Left out

- IEEE single precision: floats are `real`, so there is no rounding, NaN or infinity. A zero
  denominator in the basis ratio (repeated knots), which would give NaN or infinity in C#, is
  excluded by `BasisDefined` and `SplineEnds`.
- Float primitives: `BitConverter.ToSingle`, `Math.Sqrt`, `Math.Sin` and `Math.Cos` are fields
  of `FloatOps`. Their meaning is given only by the `ExactSqrt`, `PythagoreanTrig` and
  `SubnormalDecode` predicates, where a property needs it.
- BinaryReaderEx is not part of this model. The cursor's byte-order handling and the exception
  on reading past the end are modelled as `BufferUnderrun`.
- BinaryReader.Reader.Pad: does not model `BinaryReaderEx.Pad` beyond moving the cursor to the
  next multiple of the alignment, and it never fails.
- Nurbs.FindKnotSpan: requires that the search loop stops (`SearchFrom` is `Some`), because a
  loop that never ends has no result to model. It also requires degree < n when value <
  knots[n]: a search that starts with low >= high can index past the knots, hang or return, and
  that start is not modelled.
- Nurbs.GetSinglePoint: requires `BasisDefined` (degree <= 4 so N fits its 5 entries, indices in
  range, no zero denominator). Its callers check the indices first (`SplineTracks.SpanIndexed`)
  and report the C# out-of-range exception as `IndexOutOfRange`.
- SplineTracks.GetValueX: requires `ChannelEnds`, that is: the search stops, degree < n for an
  unclamped frame (see Nurbs.FindKnotSpan), and no zero denominator. Out-of-range indices and a
  null channel are error results. The same holds for GetValueY, GetValueZ, GetChannelValue,
  GetSplineValue and, through `SplineEnds`, SplineTracks.GetValue. Sorted knots are not required.
- SplineTracks.GetValue: an index error is reported as `IndexOutOfRange` without telling which
  of the C# accesses throws first.
- Rotation.Polar32At: the decoder path (Polar32At, ReadQuatPolar32, QuaternionAt and everything
  built on them) uses the corrected radius conversion `Rotation.Polar32`. The code as written
  (`CastToFloat`, modelled by `Rotation.Polar32AsWritten`) gives W within 0.001 of ±1 for every
  word; see "## Findings".
- Animation.DecodeAnimation: a negative `numTransformTracks`, which makes the C# array
  allocation throw, is the `NegativeTrackCount` error.
- `TransformTrack.Unk1`..`Unk4` are never read by the decoder and are left out of the datatype.
  The constructor's `isPosition` argument is unused by the reads and is not modelled.
- The debug start positions (`debug_StartOfThisSplineTrack`) are not modelled.
- The rest of TAEDX (TAE file handling, the other Havok readers) is not part of this model.

## Findings

| source | as written | input that shows it | evidently intended | confidence | as-written member | corrected member |
|---|---|---|---|---|---|---|
| TAEDX/Havok/SplineCompressedAnimation.cs:119 | `CastToFloat` reinterprets the 10-bit radius field's bits as a float. That value is a subnormal below 1.5e-42, so W = 1 - R² is always within 0.001 of ±1 | word 0x0FFC0000 (radius field 1023, no sign bits): the value conversion gives W = 0, the code as written gives W >= 0.999 | convert the field's integer value to float (the comment above `CastToFloat` says a static cast is meant), so that W spans [0, 1] | not executed | Rotation.Polar32RadiusCounterexample | Rotation.Polar32 |

The rest of the model (`Rotation.Polar32At`, `Rotation.QuaternionAt`) decodes POLAR32 with the
corrected `Rotation.Polar32`. `Rotation.Polar32AsWritten` keeps the code as written, and
`Rotation.Polar32AsWrittenNearUnitW` proves that it never yields a W far from ±1.
