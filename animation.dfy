/** ReadSplineCompressedAnimByteBlock: the block-by-block driver that fills one
    TransformTrack per bone from a spline-compressed animation buffer. */
module Animation {
  import opened Wrappers
  import opened Numerics
  import opened BinaryReader
  import opened Quantization
  import opened Rotation
  import opened Masks
  import opened SplineTracks

  /** One bone's decoded transform. The mask is None until the first block assigns it;
      a spline track, once read, stays until a later block reads another one. */
  datatype TransformTrack = TransformTrack(
    mask: Option<TransformMask>,
    hasSplinePosition: bool,
    hasSplineRotation: bool,
    hasSplineScale: bool,
    hasStaticRotation: bool,
    staticPosition: Vec3,
    staticRotation: Quat,
    staticScale: Vec3,
    splinePosition: Option<SplineTrackVector3>,
    splineRotation: Option<SplineTrackQuaternion>,
    splineScale: Option<SplineTrackVector3>)

  /** A freshly constructed track: zero position, identity rotation, unit scale. */
  const DefaultTrack := TransformTrack(None, false, false, false, false, Vec3(0.0, 0.0, 0.0), Identity,
                                       Vec3(1.0, 1.0, 1.0), None, None, None)

  predicate AnySpline3(types: seq<FlagOffset>) {
    SplineX in types || SplineY in types || SplineZ in types
  }

  predicate AnySpline4(types: seq<FlagOffset>) {
    AnySpline3(types) || SplineW in types
  }

  predicate AnyStatic4(types: seq<FlagOffset>) {
    StaticX in types || StaticY in types || StaticZ in types || StaticW in types
  }

  /** Every flag is a spline or a static flag, so a non-empty list has one or the other. */
  lemma NonEmptyFlags(types: seq<FlagOffset>)
    requires types != []
    ensures AnySpline4(types) || AnyStatic4(types)
  {
    assert types[0] in types;
    match types[0]
    case StaticX =>
    case StaticY =>
    case StaticZ =>
    case StaticW =>
    case SplineX =>
    case SplineY =>
    case SplineZ =>
    case SplineW =>
  }

  // ---------------------------------------------------------------------------
  // One track's payload
  // ---------------------------------------------------------------------------

  /** One static component: a float when its flag is set, the previous value otherwise. */
  function StaticComponentAt(inp: Input, pos: nat, flagged: bool, previous: real, ops: FloatOps)
    : (r: Result<Parsed<real>>)
    ensures !flagged ==> r == Ok(Parsed(previous, pos))
    ensures r.Ok? ==> r.value.pos == pos + (if flagged then 4 else 0)
  {
    if flagged then SingleAt(inp, pos, ops) else Ok(Parsed(previous, pos))
  }

  /** The static axes of a position or scale, X then Y then Z, over the previous vector. */
  function StaticVectorAt(inp: Input, pos: nat, types: seq<FlagOffset>, v: Vec3, ops: FloatOps)
    : Result<Parsed<Vec3>>
  {
    var x :- StaticComponentAt(inp, pos, StaticX in types, v.x, ops);
    var y :- StaticComponentAt(inp, x.pos, StaticY in types, v.y, ops);
    var z :- StaticComponentAt(inp, y.pos, StaticZ in types, v.z, ops);
    Ok(Parsed(Vec3(x.value, y.value, z.value), z.pos))
  }

  function Count(b: bool): nat { if b then 1 else 0 }

  /** Only the flagged components change, and each flagged one takes four bytes. */
  lemma StaticVectorFrame(inp: Input, pos: nat, types: seq<FlagOffset>, v: Vec3, ops: FloatOps)
    ensures var r := StaticVectorAt(inp, pos, types, v, ops);
      r.Ok? ==>
        && (StaticX !in types ==> r.value.value.x == v.x)
        && (StaticY !in types ==> r.value.value.y == v.y)
        && (StaticZ !in types ==> r.value.value.z == v.z)
        && r.value.pos == pos + 4 * (Count(StaticX in types) + Count(StaticY in types) + Count(StaticZ in types))
    ensures pos + 4 * (Count(StaticX in types) + Count(StaticY in types) + Count(StaticZ in types)) <= |inp.bytes|
            ==> StaticVectorAt(inp, pos, types, v, ops).Ok?
  {
  }

  datatype VectorSection = VectorSection(spline: Option<SplineTrackVector3>, staticValue: Vec3)

  /** The position or scale section: a spline track when any axis is a spline (the static
      vector is then left alone), otherwise the static axes (the old spline is left alone). */
  function VectorSectionAt(inp: Input, pos: nat, types: seq<FlagOffset>, qt: ScalarCode,
                           spline: Option<SplineTrackVector3>, staticValue: Vec3, ops: FloatOps)
    : Result<Parsed<VectorSection>>
  {
    if AnySpline3(types) then
      var s :- Vector3TrackAt(inp, pos, types, qt, ops);
      Ok(Parsed(VectorSection(Some(s.value), staticValue), s.pos))
    else
      var v :- StaticVectorAt(inp, pos, types, staticValue, ops);
      Ok(Parsed(VectorSection(spline, v.value), v.pos))
  }

  datatype RotationSection = RotationSection(spline: Option<SplineTrackQuaternion>, staticValue: Quat)

  /** The rotation section: a spline track when any component is a spline; otherwise, when
      a static flag is set, one rotation at the rotation alignment; otherwise nothing. */
  function RotationSectionAt(inp: Input, pos: nat, types: seq<FlagOffset>, qt: RotationCode,
                             spline: Option<SplineTrackQuaternion>, staticValue: Quat, ops: FloatOps)
    : Result<Parsed<RotationSection>>
  {
    if AnySpline4(types) then
      var s :- QuaternionTrackAt(inp, pos, qt, ops);
      Ok(Parsed(RotationSection(Some(s.value), staticValue), s.pos))
    else if AnyStatic4(types) then
      var align :- GetRotationAlign(qt);
      var q :- QuaternionAt(inp, PadTo(pos, align), qt, ops);
      Ok(Parsed(RotationSection(spline, q.value), q.pos))
    else
      Ok(Parsed(RotationSection(spline, staticValue), pos))
  }

  /** A rotation section with any flag and an undefined rotation code always fails: the
      identity that ReadQuantizedQuaternion returns for such codes is never stored. */
  lemma RotationSectionUndefined(inp: Input, pos: nat, types: seq<FlagOffset>, qt: RotationCode,
                                 spline: Option<SplineTrackQuaternion>, staticValue: Quat, ops: FloatOps)
    requires qt > UNCOMPRESSED && types != []
    ensures RotationSectionAt(inp, pos, types, qt, spline, staticValue, ops).Err?
  {
    NonEmptyFlags(types);
    QuaternionTrackShape(inp, pos, qt, ops);
  }

  /** The payload of one track inside a block: the flags from its mask, then position,
      rotation and scale, each section padded to 4 bytes. */
  function TrackPayloadAt(inp: Input, pos: nat, t: TransformTrack, ops: FloatOps): (r: Result<Parsed<TransformTrack>>)
    requires t.mask.Some?
    ensures r.Ok? ==> r.value.value.mask == t.mask && r.value.pos % 4 == 0
  {
    var m := t.mask.value;
    var p :- VectorSectionAt(inp, pos, m.positionTypes, m.positionQuantizationType,
                             t.splinePosition, t.staticPosition, ops);
    var q :- RotationSectionAt(inp, PadTo(p.pos, 4), m.rotationTypes, m.rotationQuantizationType,
                               t.splineRotation, t.staticRotation, ops);
    var s :- VectorSectionAt(inp, PadTo(q.pos, 4), m.scaleTypes, m.scaleQuantizationType,
                             t.splineScale, t.staticScale, ops);
    Ok(Parsed(t.(hasSplinePosition := AnySpline3(m.positionTypes),
                 hasSplineRotation := AnySpline4(m.rotationTypes),
                 hasStaticRotation := AnyStatic4(m.rotationTypes),
                 hasSplineScale := AnySpline3(m.scaleTypes),
                 splinePosition := p.value.spline, staticPosition := p.value.staticValue,
                 splineRotation := q.value.spline, staticRotation := q.value.staticValue,
                 splineScale := s.value.spline, staticScale := s.value.staticValue),
              PadTo(s.pos, 4)))
  }

  /** What a section leaves of the previous state: a spline section keeps the static vector
      and yields a dynamic track; a static section keeps the old spline (stale from an
      earlier block) and every unflagged component. */
  lemma VectorSectionFrame(inp: Input, pos: nat, types: seq<FlagOffset>, qt: ScalarCode,
                           spline: Option<SplineTrackVector3>, staticValue: Vec3, ops: FloatOps)
    ensures var r := VectorSectionAt(inp, pos, types, qt, spline, staticValue, ops);
      r.Ok? ==>
        var sec := r.value.value;
        && (AnySpline3(types) ==> sec.spline.Some? && sec.staticValue == staticValue)
        && (!AnySpline3(types) ==> sec.spline == spline)
        && (!AnySpline3(types) && StaticX !in types ==> sec.staticValue.x == staticValue.x)
        && (!AnySpline3(types) && StaticY !in types ==> sec.staticValue.y == staticValue.y)
        && (!AnySpline3(types) && StaticZ !in types ==> sec.staticValue.z == staticValue.z)
  {
    if !AnySpline3(types) {
      StaticVectorFrame(inp, pos, types, staticValue, ops);
    }
  }

  /** The rotation counterpart: the static rotation changes only in a static section, the
      spline only in a spline section, and a section with no flag reads nothing. */
  lemma RotationSectionFrame(inp: Input, pos: nat, types: seq<FlagOffset>, qt: RotationCode,
                             spline: Option<SplineTrackQuaternion>, staticValue: Quat, ops: FloatOps)
    ensures var r := RotationSectionAt(inp, pos, types, qt, spline, staticValue, ops);
      r.Ok? ==>
        var sec := r.value.value;
        && (AnySpline4(types) ==> sec.spline.Some? && sec.staticValue == staticValue)
        && (!AnySpline4(types) ==> sec.spline == spline)
        && (!AnySpline4(types) && AnyStatic4(types) ==> r.value.pos == PadTo(pos, GetRotationAlign(qt).value) + GetRotationByteCount(qt).value)
        && (types == [] ==> sec.staticValue == staticValue && r.value.pos == pos)
  {
  }

  /** A whole payload: the flags follow the mask, and whatever a section does not read
      keeps its value from before, including splines from earlier blocks. */
  lemma TrackPayloadFrame(inp: Input, pos: nat, t: TransformTrack, ops: FloatOps)
    requires t.mask.Some?
    ensures var r := TrackPayloadAt(inp, pos, t, ops);
      var m := t.mask.value;
      r.Ok? ==>
        var n := r.value.value;
        && n.hasSplinePosition == AnySpline3(m.positionTypes)
        && n.hasSplineRotation == AnySpline4(m.rotationTypes)
        && n.hasStaticRotation == AnyStatic4(m.rotationTypes)
        && n.hasSplineScale == AnySpline3(m.scaleTypes)
        && (n.hasSplinePosition ==> n.splinePosition.Some? && n.staticPosition == t.staticPosition)
        && (!n.hasSplinePosition ==> n.splinePosition == t.splinePosition)
        && (n.hasSplineRotation ==> n.splineRotation.Some? && n.staticRotation == t.staticRotation)
        && (!n.hasSplineRotation ==> n.splineRotation == t.splineRotation)
        && (!n.hasSplineRotation && !n.hasStaticRotation ==> n.staticRotation == t.staticRotation)
        && (n.hasSplineScale ==> n.splineScale.Some? && n.staticScale == t.staticScale)
        && (!n.hasSplineScale ==> n.splineScale == t.splineScale)
    ensures var m := t.mask.value;
      m.rotationQuantizationType > UNCOMPRESSED && m.rotationTypes != [] ==> TrackPayloadAt(inp, pos, t, ops).Err?
  {
    var m := t.mask.value;
    VectorSectionFrame(inp, pos, m.positionTypes, m.positionQuantizationType, t.splinePosition, t.staticPosition, ops);
    var p := VectorSectionAt(inp, pos, m.positionTypes, m.positionQuantizationType, t.splinePosition, t.staticPosition, ops);
    if p.Ok? {
      var qpos := PadTo(p.value.pos, 4);
      RotationSectionFrame(inp, qpos, m.rotationTypes, m.rotationQuantizationType, t.splineRotation, t.staticRotation, ops);
      if m.rotationQuantizationType > UNCOMPRESSED && m.rotationTypes != [] {
        RotationSectionUndefined(inp, qpos, m.rotationTypes, m.rotationQuantizationType, t.splineRotation, t.staticRotation, ops);
      }
      var q := RotationSectionAt(inp, qpos, m.rotationTypes, m.rotationQuantizationType, t.splineRotation, t.staticRotation, ops);
      if q.Ok? {
        VectorSectionFrame(inp, PadTo(q.value.pos, 4), m.scaleTypes, m.scaleQuantizationType, t.splineScale, t.staticScale, ops);
      }
    }
  }

  // ---------------------------------------------------------------------------
  // Blocks
  // ---------------------------------------------------------------------------

  /** The mask loop from track i on: each track's mask is replaced, nothing else. */
  function MasksFrom(inp: Input, pos: nat, ts: seq<TransformTrack>, i: nat): (r: Result<Parsed<seq<TransformTrack>>>)
    requires i <= |ts|
    ensures r.Ok? ==> |r.value.value| == |ts|
    ensures r.Ok? ==> forall j :: 0 <= j < |ts| ==> r.value.value[j] == ts[j].(mask := r.value.value[j].mask)
    ensures r.Ok? ==> forall j :: 0 <= j < i ==> r.value.value[j] == ts[j]
    ensures r.Ok? ==> forall j :: i <= j < |ts| ==> r.value.value[j].mask.Some?
    ensures r.Ok? ==> r.value.pos == pos + 4 * (|ts| - i)
    ensures pos + 4 * (|ts| - i) <= |inp.bytes| ==> r.Ok?
    decreases |ts| - i
  {
    if i == |ts| then Ok(Parsed(ts, pos))
    else
      var m :- TransformMaskAt(inp, pos);
      MasksFrom(inp, m.pos, ts[i := ts[i].(mask := Some(m.value))], i + 1)
  }

  /** The payload loop from track i on; it changes no mask. */
  function PayloadsFrom(inp: Input, pos: nat, ts: seq<TransformTrack>, i: nat, ops: FloatOps)
    : (r: Result<Parsed<seq<TransformTrack>>>)
    requires i <= |ts|
    requires forall j :: i <= j < |ts| ==> ts[j].mask.Some?
    ensures r.Ok? ==> |r.value.value| == |ts|
    ensures r.Ok? ==> forall j :: 0 <= j < |ts| ==> r.value.value[j].mask == ts[j].mask
    ensures r.Ok? ==> forall j :: 0 <= j < i ==> r.value.value[j] == ts[j]
    decreases |ts| - i
  {
    if i == |ts| then Ok(Parsed(ts, pos))
    else
      var t :- TrackPayloadAt(inp, pos, ts[i], ops);
      PayloadsFrom(inp, t.pos, ts[i := t.value], i + 1, ops)
  }

  /** One block: every mask, padding to 4, every payload, padding to 16. */
  function BlockAt(inp: Input, pos: nat, ts: seq<TransformTrack>, ops: FloatOps): (r: Result<Parsed<seq<TransformTrack>>>)
    ensures r.Ok? ==> |r.value.value| == |ts| && r.value.pos % 16 == 0
    ensures r.Ok? ==> forall j :: 0 <= j < |ts| ==> r.value.value[j].mask.Some?
  {
    var ms :- MasksFrom(inp, pos, ts, 0);
    var ps :- PayloadsFrom(inp, PadTo(ms.pos, 4), ms.value, 0, ops);
    Ok(Parsed(ps.value, PadTo(ps.pos, 16)))
  }

  /** The remaining blocks, each starting where the previous one's padding ends. */
  function BlocksFrom(inp: Input, pos: nat, ts: seq<TransformTrack>, remaining: nat, ops: FloatOps)
    : (r: Result<Parsed<seq<TransformTrack>>>)
    ensures r.Ok? ==> |r.value.value| == |ts|
    ensures r.Ok? && remaining > 0 ==> r.value.pos % 16 == 0
    ensures r.Ok? && remaining > 0 ==> forall j :: 0 <= j < |ts| ==> r.value.value[j].mask.Some?
    decreases remaining
  {
    if remaining == 0 then Ok(Parsed(ts, pos))
    else
      var b :- BlockAt(inp, pos, ts, ops);
      BlocksFrom(inp, b.pos, b.value, remaining - 1, ops)
  }

  function BlockCount(numBlocks: int): nat {
    if numBlocks > 0 then numBlocks else 0
  }

  /** The whole decode: one default track per bone, then every block in turn from offset 0. */
  function DecodeAnimation(isBigEndian: bool, data: seq<byte>, numTracks: int, numBlocks: int, ops: FloatOps)
    : (r: Result<seq<TransformTrack>>)
    ensures numTracks < 0 ==> r == Err(NegativeTrackCount)
    ensures r.Ok? ==> |r.value| == numTracks
    ensures r.Ok? && numBlocks > 0 ==> forall j :: 0 <= j < numTracks ==> r.value[j].mask.Some?
    ensures numTracks >= 0 && numBlocks <= 0 ==> r.Ok? && forall j :: 0 <= j < numTracks ==> r.value[j] == DefaultTrack
  {
    if numTracks < 0 then Err(NegativeTrackCount)
    else
      var b :- BlocksFrom(Input(data, isBigEndian), 0, seq(numTracks, _ => DefaultTrack), BlockCount(numBlocks), ops);
      Ok(b.value)
  }

  /** A track whose mask has no flag reads nothing beyond padding and keeps every value
      it had, spline tracks from earlier blocks included; only its flags are cleared. */
  lemma EmptyMaskPayload(inp: Input, pos: nat, t: TransformTrack, ops: FloatOps)
    requires t.mask.Some?
    requires t.mask.value.positionTypes == [] && t.mask.value.rotationTypes == [] && t.mask.value.scaleTypes == []
    ensures TrackPayloadAt(inp, pos, t, ops)
            == Ok(Parsed(t.(hasSplinePosition := false, hasSplineRotation := false,
                            hasStaticRotation := false, hasSplineScale := false), PadTo(pos, 4)))
  {
    PadToAligned(PadTo(pos, 4), 4);
  }

  // ---------------------------------------------------------------------------
  // The imperative driver
  // ---------------------------------------------------------------------------

  /** A loop over the track array ended as `spec` says: on success the array and the
      cursor are where the specification leaves them, on failure the same error. */
  predicate Performed(res: Result<()>, ts: seq<TransformTrack>, pos: nat, spec: Result<Parsed<seq<TransformTrack>>>) {
    match spec
    case Ok(p) => res.Ok? && ts == p.value && pos == p.pos
    case Err(e) => res == Err(e)
  }

  method ReadStaticVector(r: Reader, types: seq<FlagOffset>, v: Vec3, ops: FloatOps) returns (res: Result<Vec3>)
    modifies r
    ensures Step(res, r.pos) == StaticVectorAt(r.input, old(r.pos), types, v, ops)
  {
    var x, y, z := v.x, v.y, v.z;
    if StaticX in types {
      x :- r.ReadSingle(ops);
    }
    if StaticY in types {
      y :- r.ReadSingle(ops);
    }
    if StaticZ in types {
      z :- r.ReadSingle(ops);
    }
    return Ok(Vec3(x, y, z));
  }

  method ReadVectorSection(r: Reader, types: seq<FlagOffset>, qt: ScalarCode,
                           spline: Option<SplineTrackVector3>, staticValue: Vec3, ops: FloatOps)
    returns (res: Result<VectorSection>)
    modifies r
    ensures Step(res, r.pos) == VectorSectionAt(r.input, old(r.pos), types, qt, spline, staticValue, ops)
  {
    if AnySpline3(types) {
      var s :- ReadSplineTrackVector3(r, types, qt, ops);
      return Ok(VectorSection(Some(s), staticValue));
    }
    var v :- ReadStaticVector(r, types, staticValue, ops);
    return Ok(VectorSection(spline, v));
  }

  method ReadRotationSection(r: Reader, types: seq<FlagOffset>, qt: RotationCode,
                             spline: Option<SplineTrackQuaternion>, staticValue: Quat, ops: FloatOps)
    returns (res: Result<RotationSection>)
    modifies r
    ensures Step(res, r.pos) == RotationSectionAt(r.input, old(r.pos), types, qt, spline, staticValue, ops)
  {
    if AnySpline4(types) {
      var s :- ReadSplineTrackQuaternion(r, qt, ops);
      return Ok(RotationSection(Some(s), staticValue));
    } else if AnyStatic4(types) {
      var align :- GetRotationAlign(qt);
      r.Pad(align);
      var q :- ReadQuantizedQuaternion(r, qt, ops);
      return Ok(RotationSection(spline, q));
    }
    return Ok(RotationSection(spline, staticValue));
  }

  method ReadTrackPayload(r: Reader, t: TransformTrack, ops: FloatOps) returns (res: Result<TransformTrack>)
    requires t.mask.Some?
    modifies r
    ensures Step(res, r.pos) == TrackPayloadAt(r.input, old(r.pos), t, ops)
  {
    var m := t.mask.value;
    var track := t.(hasSplinePosition := AnySpline3(m.positionTypes),
                    hasSplineRotation := AnySpline4(m.rotationTypes),
                    hasStaticRotation := AnyStatic4(m.rotationTypes),
                    hasSplineScale := AnySpline3(m.scaleTypes));
    var p :- ReadVectorSection(r, m.positionTypes, m.positionQuantizationType, t.splinePosition, t.staticPosition, ops);
    r.Pad(4);
    var q :- ReadRotationSection(r, m.rotationTypes, m.rotationQuantizationType, t.splineRotation, t.staticRotation, ops);
    r.Pad(4);
    var s :- ReadVectorSection(r, m.scaleTypes, m.scaleQuantizationType, t.splineScale, t.staticScale, ops);
    r.Pad(4);
    return Ok(track.(splinePosition := p.spline, staticPosition := p.staticValue,
                     splineRotation := q.spline, staticRotation := q.staticValue,
                     splineScale := s.spline, staticScale := s.staticValue));
  }

  lemma MasksStep(inp: Input, pos: nat, ts: seq<TransformTrack>, i: nat)
    requires i < |ts|
    ensures var m := TransformMaskAt(inp, pos);
      MasksFrom(inp, pos, ts, i)
      == if m.Ok? then MasksFrom(inp, m.value.pos, ts[i := ts[i].(mask := Some(m.value.value))], i + 1) else Err(m.error)
  {
  }

  lemma PayloadsStep(inp: Input, pos: nat, ts: seq<TransformTrack>, i: nat, ops: FloatOps)
    requires i < |ts| && forall j :: i <= j < |ts| ==> ts[j].mask.Some?
    ensures var t := TrackPayloadAt(inp, pos, ts[i], ops);
      PayloadsFrom(inp, pos, ts, i, ops)
      == if t.Ok? then PayloadsFrom(inp, t.value.pos, ts[i := t.value.value], i + 1, ops) else Err(t.error)
  {
  }

  method ReadMasks(r: Reader, tracks: array<TransformTrack>) returns (res: Result<()>)
    modifies r, tracks
    ensures Performed(res, tracks[..], r.pos, MasksFrom(r.input, old(r.pos), old(tracks[..]), 0))
  {
    ghost var start, init := r.pos, tracks[..];
    for i := 0 to tracks.Length
      invariant MasksFrom(r.input, start, init, 0) == MasksFrom(r.input, r.pos, tracks[..], i)
    {
      MasksStep(r.input, r.pos, tracks[..], i);
      var m := ReadTransformMask(r);
      if m.Err? {
        return Err(m.error);
      }
      tracks[i] := tracks[i].(mask := Some(m.value));
    }
    return Ok(());
  }

  method ReadPayloads(r: Reader, tracks: array<TransformTrack>, ops: FloatOps) returns (res: Result<()>)
    requires forall j :: 0 <= j < tracks.Length ==> tracks[j].mask.Some?
    modifies r, tracks
    ensures Performed(res, tracks[..], r.pos, PayloadsFrom(r.input, old(r.pos), old(tracks[..]), 0, ops))
  {
    ghost var start, init := r.pos, tracks[..];
    for i := 0 to tracks.Length
      invariant forall j :: 0 <= j < tracks.Length ==> tracks[j].mask.Some?
      invariant PayloadsFrom(r.input, start, init, 0, ops) == PayloadsFrom(r.input, r.pos, tracks[..], i, ops)
    {
      PayloadsStep(r.input, r.pos, tracks[..], i, ops);
      var t := ReadTrackPayload(r, tracks[i], ops);
      if t.Err? {
        return Err(t.error);
      }
      tracks[i] := t.value;
    }
    return Ok(());
  }

  method ReadBlock(r: Reader, tracks: array<TransformTrack>, ops: FloatOps) returns (res: Result<()>)
    modifies r, tracks
    ensures Performed(res, tracks[..], r.pos, BlockAt(r.input, old(r.pos), old(tracks[..]), ops))
  {
    var masks := ReadMasks(r, tracks);
    if masks.Err? {
      return masks;
    }
    r.Pad(4);
    var payloads := ReadPayloads(r, tracks, ops);
    if payloads.Err? {
      return payloads;
    }
    r.Pad(16);
    return Ok(());
  }

  lemma BlocksStep(inp: Input, pos: nat, ts: seq<TransformTrack>, remaining: nat, ops: FloatOps)
    requires remaining > 0
    ensures var b := BlockAt(inp, pos, ts, ops);
      BlocksFrom(inp, pos, ts, remaining, ops)
      == if b.Ok? then BlocksFrom(inp, b.value.pos, b.value.value, remaining - 1, ops) else Err(b.error)
  {
  }

  /** The block loop. */
  method ReadBlocks(r: Reader, tracks: array<TransformTrack>, numBlocks: int, ops: FloatOps) returns (res: Result<()>)
    modifies r, tracks
    ensures Performed(res, tracks[..], r.pos, BlocksFrom(r.input, old(r.pos), old(tracks[..]), BlockCount(numBlocks), ops))
  {
    ghost var start, init := r.pos, tracks[..];
    ghost var spec := BlocksFrom(r.input, start, init, BlockCount(numBlocks), ops);
    for blockIndex := 0 to BlockCount(numBlocks)
      invariant spec == BlocksFrom(r.input, r.pos, tracks[..], BlockCount(numBlocks) - blockIndex, ops)
    {
      BlocksStep(r.input, r.pos, tracks[..], BlockCount(numBlocks) - blockIndex, ops);
      var block := ReadBlock(r, tracks, ops);
      if block.Err? {
        return block;
      }
    }
    return Ok(());
  }

  method ReadSplineCompressedAnimByteBlock(isBigEndian: bool, animationData: seq<byte>, numTransformTracks: int,
                                           numBlocks: int, ops: FloatOps)
    returns (res: Result<array<TransformTrack>>)
    ensures var d := DecodeAnimation(isBigEndian, animationData, numTransformTracks, numBlocks, ops);
      match d
      case Ok(ts) => res.Ok? && fresh(res.value) && res.value[..] == ts
      case Err(e) => res == Err(e)
  {
    if numTransformTracks < 0 {
      return Err(NegativeTrackCount);
    }
    var tracks := new TransformTrack[numTransformTracks](_ => DefaultTrack);
    assert tracks[..] == seq(numTransformTracks, _ => DefaultTrack);
    var br := new Reader(Input(animationData, isBigEndian));
    var blocks := ReadBlocks(br, tracks, numBlocks, ops);
    if blocks.Err? {
      return Err(blocks.error);
    }
    return Ok(tracks);
  }
}
