/** The spline tracks of one block: a knot header, then either three scalar channels
    (position or scale) or one quaternion channel (rotation), and their evaluation at
    a frame. */
module SplineTracks {
  import opened Wrappers
  import opened Numerics
  import opened BinaryReader
  import opened Quantization
  import opened Rotation
  import opened Masks
  import opened Nurbs

  datatype SplineChannel<T> = SplineChannel(isDynamic: bool, values: seq<T>)

  /** A missing channel (neither a spline nor a static flag on that axis) is None. */
  datatype SplineTrackVector3 = SplineTrackVector3(
    channelX: Option<SplineChannel<real>>,
    channelY: Option<SplineChannel<real>>,
    channelZ: Option<SplineChannel<real>>,
    knots: seq<byte>,
    degree: byte)

  datatype SplineTrackQuaternion = SplineTrackQuaternion(
    channel: SplineChannel<Quat>,
    knots: seq<byte>,
    degree: byte)

  // ---------------------------------------------------------------------------
  // Knot header
  // ---------------------------------------------------------------------------

  datatype Header = Header(numItems: int, degree: byte, knots: seq<byte>)

  /** `numItems + Degree + 2` knots; the loop reads none when that is not positive. */
  function KnotCount(numItems: int, degree: byte): nat {
    if numItems + degree + 2 > 0 then numItems + degree + 2 else 0
  }

  /** `for (i = 0; i <= numItems; i++)` runs numItems + 1 times, or not at all. */
  function ItemCount(numItems: int): nat {
    if numItems >= 0 then numItems + 1 else 0
  }

  /** `count` consecutive bytes, as the knot loop reads them one at a time; reading none
      succeeds wherever the position is. */
  function KnotsAt(inp: Input, pos: nat, count: nat): (r: Result<Parsed<seq<byte>>>)
    ensures r.Ok? <==> count == 0 || pos + count <= |inp.bytes|
    ensures r.Ok? ==> |r.value.value| == count && r.value.pos == pos + count
    ensures r.Ok? ==> forall i :: 0 <= i < count ==> r.value.value[i] == inp.bytes[pos + i]
    ensures r.Err? ==> r.error == BufferUnderrun
  {
    if count == 0 then Ok(Parsed([], pos))
    else if pos + count <= |inp.bytes| then Ok(Parsed(inp.bytes[pos..pos + count], pos + count))
    else Err(BufferUnderrun)
  }

  /** A 16-bit signed item count, a degree byte and the knot bytes. */
  function HeaderAt(inp: Input, pos: nat): (r: Result<Parsed<Header>>)
    ensures r.Ok? ==> |r.value.value.knots| == KnotCount(r.value.value.numItems, r.value.value.degree)
    ensures r.Ok? ==> r.value.pos == pos + 3 + |r.value.value.knots|
    ensures r.Ok? ==> -32768 <= r.value.value.numItems < 32768
    ensures r.Ok? && r.value.value.numItems >= 0 ==>
              |r.value.value.knots| == ItemCount(r.value.value.numItems) + r.value.value.degree + 1
  {
    var n :- Int16At(inp, pos);
    var d :- ByteAt(inp, n.pos);
    var ks :- KnotsAt(inp, d.pos, KnotCount(n.value, d.value));
    Ok(Parsed(Header(n.value, d.value, ks.value), ks.pos))
  }

  method ReadKnots(r: Reader, count: nat) returns (res: Result<seq<byte>>)
    modifies r
    ensures Step(res, r.pos) == KnotsAt(r.input, old(r.pos), count)
  {
    var knots: seq<byte> := [];
    ghost var start := r.pos;
    for i := 0 to count
      invariant r.pos == start + i
      invariant i == 0 ==> knots == []
      invariant i > 0 ==> r.pos <= |r.input.bytes| && knots == r.input.bytes[start..r.pos]
    {
      var b := r.ReadByte();
      if b.Err? {
        return Err(b.error);
      }
      knots := knots + [b.value];
    }
    return Ok(knots);
  }

  method ReadHeader(r: Reader) returns (res: Result<Header>)
    modifies r
    ensures Step(res, r.pos) == HeaderAt(r.input, old(r.pos))
  {
    var numItems :- r.ReadInt16();
    var degree :- r.ReadByte();
    var knots :- ReadKnots(r, KnotCount(numItems, degree));
    return Ok(Header(numItems, degree, knots));
  }

  // ---------------------------------------------------------------------------
  // SplineTrackVector3
  // ---------------------------------------------------------------------------

  /** What an axis header holds: spline bounds, one static value, or nothing. */
  datatype AxisStart = Bounds(min: real, max: real) | StaticValue(value: real) | NoChannel

  /** The spline flag wins over the static flag; with neither, nothing is read. */
  function AxisAt(inp: Input, pos: nat, types: seq<FlagOffset>, spline: FlagOffset, staticFlag: FlagOffset, ops: FloatOps)
    : (r: Result<Parsed<AxisStart>>)
    ensures r.Ok? ==> (r.value.value.Bounds? <==> spline in types)
    ensures r.Ok? ==> (r.value.value.StaticValue? <==> spline !in types && staticFlag in types)
    ensures r.Ok? ==> r.value.pos == pos + (if spline in types then 8 else if staticFlag in types then 4 else 0)
  {
    if spline in types then
      var lo :- SingleAt(inp, pos, ops);
      var hi :- SingleAt(inp, lo.pos, ops);
      Ok(Parsed(Bounds(lo.value, hi.value), hi.pos))
    else if staticFlag in types then
      var v :- SingleAt(inp, pos, ops);
      Ok(Parsed(StaticValue(v.value), v.pos))
    else
      Ok(Parsed(NoChannel, pos))
  }

  /** The channel an axis ends up with once the spline values are read. */
  function ChannelOf(a: AxisStart, values: seq<real>): Option<SplineChannel<real>> {
    match a
    case Bounds(_, _) => Some(SplineChannel(true, values))
    case StaticValue(v) => Some(SplineChannel(false, [v]))
    case NoChannel => None
  }

  /** Bytes one axis takes in each row of spline values. */
  function AxisWidth(a: AxisStart, qt: ScalarCode): nat {
    if a.Bounds? then (if qt == BITS8 then 1 else 2) else 0
  }

  /** The value of one axis in one row: a quantised float for a spline axis, nothing otherwise. */
  function AxisValueAt(inp: Input, pos: nat, a: AxisStart, qt: ScalarCode): (r: Result<Parsed<seq<real>>>)
    ensures r.Ok? ==> |r.value.value| == (if a.Bounds? then 1 else 0)
    ensures r.Ok? ==> r.value.pos == pos + AxisWidth(a, qt)
    ensures a.Bounds? && qt >= 2 ==> r == Err(UnsupportedQuantization)
    ensures !a.Bounds? ==> r == Ok(Parsed([], pos))
    ensures a.Bounds? && r.Ok? ==> QuantizedFloatAt(inp, pos, a.min, a.max, qt) == Ok(Parsed(r.value.value[0], r.value.pos))
  {
    if a.Bounds? then
      var v :- QuantizedFloatAt(inp, pos, a.min, a.max, qt);
      Ok(Parsed([v.value], v.pos))
    else
      Ok(Parsed([], pos))
  }

  datatype Columns = Columns(xs: seq<real>, ys: seq<real>, zs: seq<real>)

  /** One row of spline values: X, then Y, then Z, each present only for a spline axis. */
  function RowAt(inp: Input, pos: nat, ax: AxisStart, ay: AxisStart, az: AxisStart, qt: ScalarCode)
    : (r: Result<Parsed<Columns>>)
    ensures r.Ok? ==> |r.value.value.xs| == (if ax.Bounds? then 1 else 0)
    ensures r.Ok? ==> |r.value.value.ys| == (if ay.Bounds? then 1 else 0)
    ensures r.Ok? ==> |r.value.value.zs| == (if az.Bounds? then 1 else 0)
    ensures r.Ok? ==> r.value.pos == pos + RowWidth(ax, ay, az, qt)
    ensures qt >= 2 && (ax.Bounds? || ay.Bounds? || az.Bounds?) ==> r.Err?
  {
    var x :- AxisValueAt(inp, pos, ax, qt);
    var y :- AxisValueAt(inp, x.pos, ay, qt);
    var z :- AxisValueAt(inp, y.pos, az, qt);
    Ok(Parsed(Columns(x.value, y.value, z.value), z.pos))
  }

  /** Within a row, X's value comes first, then Y's, then Z's, each the quantised float
      read at the end of the previous one. */
  lemma RowValues(inp: Input, pos: nat, ax: AxisStart, ay: AxisStart, az: AxisStart, qt: ScalarCode)
    ensures var r := RowAt(inp, pos, ax, ay, az, qt);
      var py := pos + AxisWidth(ax, qt);
      var pz := py + AxisWidth(ay, qt);
      r.Ok? ==>
        && (ax.Bounds? ==> QuantizedFloatAt(inp, pos, ax.min, ax.max, qt) == Ok(Parsed(r.value.value.xs[0], py)))
        && (ay.Bounds? ==> QuantizedFloatAt(inp, py, ay.min, ay.max, qt) == Ok(Parsed(r.value.value.ys[0], pz)))
        && (az.Bounds? ==> QuantizedFloatAt(inp, pz, az.min, az.max, qt) == Ok(Parsed(r.value.value.zs[0], pz + AxisWidth(az, qt))))
  {
  }

  function AppendRow(acc: Columns, row: Columns): Columns {
    Columns(acc.xs + row.xs, acc.ys + row.ys, acc.zs + row.zs)
  }

  /** The remaining `rows` rows of spline values, appended to what has been read so far. */
  function ValueRowsFrom(inp: Input, pos: nat, rows: nat, ax: AxisStart, ay: AxisStart, az: AxisStart,
                         qt: ScalarCode, acc: Columns): Result<Parsed<Columns>>
    decreases rows
  {
    if rows == 0 then Ok(Parsed(acc, pos))
    else
      var row :- RowAt(inp, pos, ax, ay, az, qt);
      ValueRowsFrom(inp, row.pos, rows - 1, ax, ay, az, qt, AppendRow(acc, row.value))
  }

  function RowWidth(ax: AxisStart, ay: AxisStart, az: AxisStart, qt: ScalarCode): nat {
    AxisWidth(ax, qt) + AxisWidth(ay, qt) + AxisWidth(az, qt)
  }

  /** Every spline axis gains one value per row and every other axis none; the rows take
      rows * RowWidth bytes; an undefined scalar code fails as soon as a spline value is due. */
  lemma {:induction false} ValueRowsShape(inp: Input, pos: nat, rows: nat, ax: AxisStart, ay: AxisStart, az: AxisStart,
                                          qt: ScalarCode, acc: Columns)
    ensures var r := ValueRowsFrom(inp, pos, rows, ax, ay, az, qt, acc);
      r.Ok? ==>
        && |r.value.value.xs| == |acc.xs| + (if ax.Bounds? then rows else 0)
        && |r.value.value.ys| == |acc.ys| + (if ay.Bounds? then rows else 0)
        && |r.value.value.zs| == |acc.zs| + (if az.Bounds? then rows else 0)
        && r.value.pos == pos + rows * RowWidth(ax, ay, az, qt)
    ensures rows > 0 && qt >= 2 && (ax.Bounds? || ay.Bounds? || az.Bounds?) ==>
              ValueRowsFrom(inp, pos, rows, ax, ay, az, qt, acc).Err?
    decreases rows
  {
    if rows > 0 {
      var row := RowAt(inp, pos, ax, ay, az, qt);
      if row.Ok? {
        var c := row.value.value;
        ValueRowsShape(inp, row.value.pos, rows - 1, ax, ay, az, qt, AppendRow(acc, c));
        RowsStep(pos, rows, RowWidth(ax, ay, az, qt));
      }
    }
  }

  /** The values of axis 0 (X), 1 (Y) or 2 (Z). */
  function Pick(c: Columns, axis: nat): seq<real>
    requires axis < 3
  {
    if axis == 0 then c.xs else if axis == 1 then c.ys else c.zs
  }

  function AxisStartOf(ax: AxisStart, ay: AxisStart, az: AxisStart, axis: nat): AxisStart
    requires axis < 3
  {
    if axis == 0 then ax else if axis == 1 then ay else az
  }

  /** A row read successfully holds one value for a spline axis and none otherwise. */
  lemma RowPick(inp: Input, pos: nat, ax: AxisStart, ay: AxisStart, az: AxisStart, qt: ScalarCode, axis: nat)
    requires axis < 3
    ensures var row := RowAt(inp, pos, ax, ay, az, qt);
      row.Ok? ==> |Pick(row.value.value, axis)| == if AxisStartOf(ax, ay, az, axis).Bounds? then 1 else 0
  {
  }

  /** s[n] is the single value of a row. */
  predicate HoldsRowValue(s: seq<real>, n: nat, rowValues: seq<real>) {
    |rowValues| == 1 && n < |s| && s[n] == rowValues[0]
  }

  /** The row loop for any reader `row` of one row at a position; ValueRowsFrom is this
      loop over RowAt (ValueRowsAsRowLoop). */
  function RowLoop(row: nat -> Result<Parsed<Columns>>, pos: nat, rows: nat, acc: Columns): Result<Parsed<Columns>>
    decreases rows
  {
    if rows == 0 then Ok(Parsed(acc, pos))
    else
      var r :- row(pos);
      RowLoop(row, r.pos, rows - 1, AppendRow(acc, r.value))
  }

  lemma {:induction false} ValueRowsAsRowLoop(inp: Input, pos: nat, rows: nat, ax: AxisStart, ay: AxisStart, az: AxisStart,
                                              qt: ScalarCode, acc: Columns)
    ensures ValueRowsFrom(inp, pos, rows, ax, ay, az, qt, acc)
            == RowLoop((p: nat) => RowAt(inp, p, ax, ay, az, qt), pos, rows, acc)
    decreases rows
  {
    if rows > 0 {
      var row := RowAt(inp, pos, ax, ay, az, qt);
      if row.Ok? {
        ValueRowsAsRowLoop(inp, row.value.pos, rows - 1, ax, ay, az, qt, AppendRow(acc, row.value.value));
      }
    }
  }

  /** Every row that reads at all is `w` bytes wide and holds `k` values of the axis. */
  ghost predicate UniformRows(row: nat -> Result<Parsed<Columns>>, w: nat, axis: nat, k: nat)
    requires axis < 3
  {
    forall p: nat :: row(p).Ok? ==> row(p).value.pos == p + w && |Pick(row(p).value.value, axis)| == k
  }

  lemma {:induction false} RowLoopPrefix(row: nat -> Result<Parsed<Columns>>, pos: nat, rows: nat, acc: Columns, axis: nat)
    requires axis < 3
    ensures var r := RowLoop(row, pos, rows, acc);
      r.Ok? ==> Pick(acc, axis) <= Pick(r.value.value, axis)
    decreases rows
  {
    if rows > 0 && row(pos).Ok? {
      var acc' := AppendRow(acc, row(pos).value.value);
      PickAppend(acc, row(pos).value.value, axis);
      RowLoopPrefix(row, row(pos).value.pos, rows - 1, acc', axis);
    }
  }

  /** Row i starts at `at` == pos + i * w and supplies value number i of the axis. */
  lemma {:induction false} RowLoopContent(row: nat -> Result<Parsed<Columns>>, w: nat, axis: nat, pos: nat, rows: nat,
                                          acc: Columns, i: nat, at: nat)
    requires axis < 3 && i < rows && at == pos + i * w
    requires UniformRows(row, w, axis, 1)
    requires RowLoop(row, pos, rows, acc).Ok?
    ensures row(at).Ok?
    ensures HoldsRowValue(Pick(RowLoop(row, pos, rows, acc).value.value, axis), |Pick(acc, axis)| + i,
                          Pick(row(at).value.value, axis))
    decreases i
  {
    var r0 := row(pos);
    var acc' := AppendRow(acc, r0.value.value);
    PickAppend(acc, r0.value.value, axis);
    if i == 0 {
      RowLoopPrefix(row, r0.value.pos, rows - 1, acc', axis);
    } else {
      RowsStep(pos, i, w);
      RowLoopContent(row, w, axis, r0.value.pos, rows - 1, acc', i - 1, at);
    }
  }

  /** Reading a row at any position with a spline axis yields one value of that axis
      and moves RowWidth bytes on. */
  lemma RowAtUniform(inp: Input, ax: AxisStart, ay: AxisStart, az: AxisStart, qt: ScalarCode, axis: nat)
    requires axis < 3 && AxisStartOf(ax, ay, az, axis).Bounds?
    ensures UniformRows((p: nat) => RowAt(inp, p, ax, ay, az, qt), RowWidth(ax, ay, az, qt), axis, 1)
  {
    forall p: nat | RowAt(inp, p, ax, ay, az, qt).Ok?
      ensures RowAt(inp, p, ax, ay, az, qt).value.pos == p + RowWidth(ax, ay, az, qt)
      ensures |Pick(RowAt(inp, p, ax, ay, az, qt).value.value, axis)| == 1
    {
      RowPick(inp, p, ax, ay, az, qt, axis);
    }
  }

  /** Row i of the spline values starts i * RowWidth bytes in (at `at`), and value
      number i of each spline axis is the one that row holds; with RowValues, the values
      are interleaved X, Y, Z row by row. */
  lemma ValueRowsContent(inp: Input, pos: nat, rows: nat, ax: AxisStart, ay: AxisStart, az: AxisStart,
                         qt: ScalarCode, acc: Columns, i: nat, axis: nat, at: nat)
    requires i < rows && axis < 3 && at == pos + i * RowWidth(ax, ay, az, qt)
    requires ValueRowsFrom(inp, pos, rows, ax, ay, az, qt, acc).Ok?
    requires AxisStartOf(ax, ay, az, axis).Bounds?
    ensures RowAt(inp, at, ax, ay, az, qt).Ok?
    ensures HoldsRowValue(Pick(ValueRowsFrom(inp, pos, rows, ax, ay, az, qt, acc).value.value, axis),
                          |Pick(acc, axis)| + i, Pick(RowAt(inp, at, ax, ay, az, qt).value.value, axis))
  {
    var row := (p: nat) => RowAt(inp, p, ax, ay, az, qt);
    ValueRowsAsRowLoop(inp, pos, rows, ax, ay, az, qt, acc);
    RowAtUniform(inp, ax, ay, az, qt, axis);
    RowLoopContent(row, RowWidth(ax, ay, az, qt), axis, pos, rows, acc, i, at);
  }

  lemma PickAppend(acc: Columns, row: Columns, axis: nat)
    requires axis < 3
    ensures Pick(AppendRow(acc, row), axis) == Pick(acc, axis) + Pick(row, axis)
  {
  }

  /** The SplineTrackVector3 constructor: header, padding to 4, the X, Y and Z axis headers,
      then numItems + 1 rows of quantised values. */
  function Vector3TrackAt(inp: Input, pos: nat, types: seq<FlagOffset>, qt: ScalarCode, ops: FloatOps)
    : Result<Parsed<SplineTrackVector3>>
  {
    var h :- HeaderAt(inp, pos);
    var ax :- AxisAt(inp, PadTo(h.pos, 4), types, SplineX, StaticX, ops);
    var ay :- AxisAt(inp, ax.pos, types, SplineY, StaticY, ops);
    var az :- AxisAt(inp, ay.pos, types, SplineZ, StaticZ, ops);
    var cols :- ValueRowsFrom(inp, az.pos, ItemCount(h.value.numItems), ax.value, ay.value, az.value, qt, Columns([], [], []));
    Ok(Parsed(SplineTrackVector3(ChannelOf(ax.value, cols.value.xs), ChannelOf(ay.value, cols.value.ys),
                                 ChannelOf(az.value, cols.value.zs), h.value.knots, h.value.degree), cols.pos))
  }

  /** What one axis of a decoded vector track looks like: a spline axis is dynamic with
      one value per item, a static axis holds its single value, and an axis with neither
      flag has no channel. */
  predicate AxisShape(ch: Option<SplineChannel<real>>, types: seq<FlagOffset>, spline: FlagOffset, staticFlag: FlagOffset, items: nat) {
    && (spline in types ==> ch.Some? && ch.value.isDynamic && |ch.value.values| == items)
    && (spline !in types && staticFlag in types ==> ch.Some? && !ch.value.isDynamic && |ch.value.values| == 1)
    && (spline !in types && staticFlag !in types ==> ch.None?)
  }

  lemma Vector3TrackShape(inp: Input, pos: nat, types: seq<FlagOffset>, qt: ScalarCode, ops: FloatOps)
    ensures var r := Vector3TrackAt(inp, pos, types, qt, ops);
      r.Ok? ==>
        var h := HeaderAt(inp, pos).value.value;
        var t := r.value.value;
        && t.knots == h.knots && t.degree == h.degree
        && AxisShape(t.channelX, types, SplineX, StaticX, ItemCount(h.numItems))
        && AxisShape(t.channelY, types, SplineY, StaticY, ItemCount(h.numItems))
        && AxisShape(t.channelZ, types, SplineZ, StaticZ, ItemCount(h.numItems))
  {
    var h := HeaderAt(inp, pos);
    if h.Ok? {
      var ax := AxisAt(inp, PadTo(h.value.pos, 4), types, SplineX, StaticX, ops);
      if ax.Ok? {
        var ay := AxisAt(inp, ax.value.pos, types, SplineY, StaticY, ops);
        if ay.Ok? {
          var az := AxisAt(inp, ay.value.pos, types, SplineZ, StaticZ, ops);
          if az.Ok? {
            ValueRowsShape(inp, az.value.pos, ItemCount(h.value.value.numItems), ax.value.value, ay.value.value,
                           az.value.value, qt, Columns([], [], []));
          }
        }
      }
    }
  }

  method ReadAxis(r: Reader, types: seq<FlagOffset>, spline: FlagOffset, staticFlag: FlagOffset, ops: FloatOps)
    returns (res: Result<AxisStart>)
    modifies r
    ensures Step(res, r.pos) == AxisAt(r.input, old(r.pos), types, spline, staticFlag, ops)
  {
    if spline in types {
      var lo :- r.ReadSingle(ops);
      var hi :- r.ReadSingle(ops);
      return Ok(Bounds(lo, hi));
    } else if staticFlag in types {
      var v :- r.ReadSingle(ops);
      return Ok(StaticValue(v));
    }
    return Ok(NoChannel);
  }

  method ReadAxisValue(r: Reader, a: AxisStart, qt: ScalarCode) returns (res: Result<seq<real>>)
    modifies r
    ensures Step(res, r.pos) == AxisValueAt(r.input, old(r.pos), a, qt)
  {
    if a.Bounds? {
      var v :- ReadQuantizedFloat(r, a.min, a.max, qt);
      return Ok([v]);
    }
    return Ok([]);
  }

  lemma ValueRowsStep(inp: Input, pos: nat, rows: nat, ax: AxisStart, ay: AxisStart, az: AxisStart,
                      qt: ScalarCode, acc: Columns)
    requires rows > 0
    ensures var row := RowAt(inp, pos, ax, ay, az, qt);
      ValueRowsFrom(inp, pos, rows, ax, ay, az, qt, acc)
      == if row.Ok? then
           ValueRowsFrom(inp, row.value.pos, rows - 1, ax, ay, az, qt, AppendRow(acc, row.value.value))
         else Err(row.error)
  {
  }

  method ReadRow(r: Reader, ax: AxisStart, ay: AxisStart, az: AxisStart, qt: ScalarCode) returns (res: Result<Columns>)
    modifies r
    ensures Step(res, r.pos) == RowAt(r.input, old(r.pos), ax, ay, az, qt)
  {
    var x :- ReadAxisValue(r, ax, qt);
    var y :- ReadAxisValue(r, ay, qt);
    var z :- ReadAxisValue(r, az, qt);
    return Ok(Columns(x, y, z));
  }

  /** The value loop of the vector constructor: numItems + 1 rows, each spline axis in
      X, Y, Z order. */
  method ReadValueRows(r: Reader, numItems: int, ax: AxisStart, ay: AxisStart, az: AxisStart, qt: ScalarCode)
    returns (res: Result<Columns>)
    modifies r
    ensures Step(res, r.pos) == ValueRowsFrom(r.input, old(r.pos), ItemCount(numItems), ax, ay, az, qt, Columns([], [], []))
  {
    var rows := ItemCount(numItems);
    ghost var spec := ValueRowsFrom(r.input, r.pos, rows, ax, ay, az, qt, Columns([], [], []));
    var acc := Columns([], [], []);
    for i := 0 to rows
      invariant spec == ValueRowsFrom(r.input, r.pos, rows - i, ax, ay, az, qt, acc)
    {
      ghost var before := r.pos;
      ValueRowsStep(r.input, before, rows - i, ax, ay, az, qt, acc);
      var row := ReadRow(r, ax, ay, az, qt);
      match row
      case Err(e) =>
        return Err(e);
      case Ok(c) =>
        acc := AppendRow(acc, c);
    }
    return Ok(acc);
  }

  method ReadSplineTrackVector3(r: Reader, types: seq<FlagOffset>, qt: ScalarCode, ops: FloatOps)
    returns (res: Result<SplineTrackVector3>)
    modifies r
    ensures Step(res, r.pos) == Vector3TrackAt(r.input, old(r.pos), types, qt, ops)
  {
    var h :- ReadHeader(r);
    r.Pad(4);
    var ax :- ReadAxis(r, types, SplineX, StaticX, ops);
    var ay :- ReadAxis(r, types, SplineY, StaticY, ops);
    var az :- ReadAxis(r, types, SplineZ, StaticZ, ops);
    var cols :- ReadValueRows(r, h.numItems, ax, ay, az, qt);
    return Ok(SplineTrackVector3(ChannelOf(ax, cols.xs), ChannelOf(ay, cols.ys), ChannelOf(az, cols.zs), h.knots, h.degree));
  }

  // ---------------------------------------------------------------------------
  // SplineTrackQuaternion
  // ---------------------------------------------------------------------------

  /** The remaining `rows` quaternions, appended to those read so far. */
  function QuatsFrom(inp: Input, pos: nat, rows: nat, qt: RotationCode, ops: FloatOps, acc: seq<Quat>)
    : (r: Result<Parsed<seq<Quat>>>)
    ensures r.Ok? ==> |r.value.value| == |acc| + rows
    ensures qt <= UNCOMPRESSED && r.Ok? ==> r.value.pos == pos + rows * GetRotationByteCount(qt).value
    decreases rows
  {
    if rows == 0 then Ok(Parsed(acc, pos))
    else
      var q :- QuaternionAt(inp, pos, qt, ops);
      var rest := QuatsFrom(inp, q.pos, rows - 1, qt, ops, acc + [q.value]);
      if qt <= UNCOMPRESSED then RowsStep(pos, rows, GetRotationByteCount(qt).value); rest else rest
  }

  lemma MulMod(rows: nat, a: nat, b: nat)
    requires a > 0 && b % a == 0
    ensures (rows * b) % a == 0
  {
    var m := b / a;
    assert b == a * m;
    assert rows * b == a * (rows * m);
    ModUnique(rows * b, a, rows * m, 0);
  }

  /** Whole alignment units after an aligned start end aligned. */
  lemma AlignedAfter(start: nat, align: nat, rows: nat, w: nat)
    requires align > 0 && start % align == 0 && w % align == 0
    ensures (start + rows * w) % align == 0
  {
    MulMod(rows, align, w);
    ModUnique(start, align, start / align, 0);
    ModUnique(rows * w, align, (rows * w) / align, 0);
    assert start + rows * w == align * (start / align + (rows * w) / align);
    ModUnique(start + rows * w, align, start / align + (rows * w) / align, 0);
  }

  lemma RowsStep(pos: nat, rows: nat, w: nat)
    requires rows > 0
    ensures pos + w + (rows - 1) * w == pos + rows * w
  {
  }

  /** The SplineTrackQuaternion constructor: header, padding to the rotation alignment
      (an undefined code throws here, after the knots), then numItems + 1 quaternions. */
  function QuaternionTrackAt(inp: Input, pos: nat, qt: RotationCode, ops: FloatOps)
    : Result<Parsed<SplineTrackQuaternion>>
  {
    var h :- HeaderAt(inp, pos);
    var align :- GetRotationAlign(qt);
    var qs :- QuatsFrom(inp, PadTo(h.pos, align), ItemCount(h.value.numItems), qt, ops, []);
    Ok(Parsed(SplineTrackQuaternion(SplineChannel(true, qs.value), h.value.knots, h.value.degree), qs.pos))
  }

  /** A decoded rotation track holds one quaternion per item and ends on the rotation
      alignment, since every stored rotation is a whole number of alignment units. An
      undefined code never decodes, so the identity fallback is unreachable from here. */
  lemma QuaternionTrackShape(inp: Input, pos: nat, qt: RotationCode, ops: FloatOps)
    ensures var r := QuaternionTrackAt(inp, pos, qt, ops);
      r.Ok? ==>
        var h := HeaderAt(inp, pos).value.value;
        && qt <= UNCOMPRESSED
        && r.value.value.channel.isDynamic
        && |r.value.value.channel.values| == ItemCount(h.numItems)
        && r.value.value.knots == h.knots && r.value.value.degree == h.degree
        && r.value.pos % GetRotationAlign(qt).value == 0
    ensures qt > UNCOMPRESSED ==> QuaternionTrackAt(inp, pos, qt, ops).Err?
  {
    var h := HeaderAt(inp, pos);
    if h.Ok? && qt <= UNCOMPRESSED {
      var align := GetRotationAlign(qt).value;
      var start := PadTo(h.value.pos, align);
      var rows := ItemCount(h.value.value.numItems);
      AlignedAfter(start, align, rows, GetRotationByteCount(qt).value);
    }
  }

  /** The control-point loop of the rotation track. */
  method ReadQuaternions(r: Reader, rows: nat, qt: RotationCode, ops: FloatOps) returns (res: Result<seq<Quat>>)
    modifies r
    ensures Step(res, r.pos) == QuatsFrom(r.input, old(r.pos), rows, qt, ops, [])
  {
    ghost var start := r.pos;
    var values: seq<Quat> := [];
    for i := 0 to rows
      invariant QuatsFrom(r.input, start, rows, qt, ops, []) == QuatsFrom(r.input, r.pos, rows - i, qt, ops, values)
    {
      var q := ReadQuantizedQuaternion(r, qt, ops);
      if q.Err? {
        return Err(q.error);
      }
      values := values + [q.value];
    }
    return Ok(values);
  }

  method ReadSplineTrackQuaternion(r: Reader, qt: RotationCode, ops: FloatOps)
    returns (res: Result<SplineTrackQuaternion>)
    modifies r
    ensures Step(res, r.pos) == QuaternionTrackAt(r.input, old(r.pos), qt, ops)
  {
    var h :- ReadHeader(r);
    var align :- GetRotationAlign(qt);
    r.Pad(align);
    var values :- ReadQuaternions(r, ItemCount(h.numItems), qt, ops);
    return Ok(SplineTrackQuaternion(SplineChannel(true, values), h.knots, h.degree));
  }

  // ---------------------------------------------------------------------------
  // Evaluation
  // ---------------------------------------------------------------------------

  /** Every index GetSinglePoint reads at span s exists: the weight buffer N holds 5 entries
      (degree <= 4), knots[s - degree + 1] and cPoints[s - degree] need s >= degree, and
      knots[s + degree] needs s + degree < |knots|. Otherwise the C# throws. */
  predicate SpanIndexed(s: int, degree: nat, knots: seq<byte>) {
    degree <= 4 && degree <= s && s + degree < |knots|
  }

  /** The evaluation of n control points at a frame returns, with no division by zero, as
      far as it goes without an index error. FindKnotSpan's loop stops (a search that starts
      with degree >= n is not modelled), and the knot intervals that GetSinglePoint divides
      by are not empty when its indices exist. */
  predicate SplineEnds(n: nat, degree: nat, knots: seq<byte>, frame: real) {
    n < |knots| ==>
      && (frame < knots[n] as real ==> degree < n)
      && KnotSpanSearch(degree, frame, n, knots).Some?
      && (SpanIndexed(KnotSpanSearch(degree, frame, n, knots).value, degree, knots) ==>
            BasisDefined(KnotSpanSearch(degree, frame, n, knots).value, degree, knots))
  }

  /** The spline value of the control points at a frame, as FindKnotSpan followed by
      GetSinglePoint computes it; an index past the knots is IndexOutOfRange. */
  function SplineValue(values: seq<real>, degree: nat, knots: seq<byte>, frame: real): (r: Result<real>)
    requires SplineEnds(|values|, degree, knots, frame)
    ensures r.Err? ==> r.error == IndexOutOfRange
    ensures |values| >= |knots| ==> r.Err?
  {
    var n := |values|;
    if n >= |knots| then Err(IndexOutOfRange)
    else
      var s := KnotSpanSearch(degree, frame, n, knots).value;
      if !SpanIndexed(s, degree, knots) then Err(IndexOutOfRange)
      else Ok(Blend(values, s, Basis(s, degree, frame, knots), degree + 1))
  }

  /** GetValueX, GetValueY and GetValueZ can evaluate the channel's values: one value
      short-circuits, more go through the spline. */
  predicate ChannelEnds(values: seq<real>, degree: nat, knots: seq<byte>, frame: real) {
    |values| == 1 || SplineEnds(|values|, degree, knots, frame)
  }

  /** A channel's value at a frame: its only value when it has one, the spline otherwise. */
  function ChannelValue(values: seq<real>, degree: nat, knots: seq<byte>, frame: real): Result<real>
    requires ChannelEnds(values, degree, knots, frame)
  {
    if |values| == 1 then Ok(values[0]) else SplineValue(values, degree, knots, frame)
  }

  /** A well-formed spline: the degree the weight buffer allows, fewer than n, enough knots for
      the last span, sorted knots, a non-empty last span when the frame is clamped to it, and
      a frame not below knots[degree] when it is not clamped. */
  predicate WellFormedSpline(n: nat, degree: nat, knots: seq<byte>, frame: real) {
    && degree <= 4
    && degree < n < |knots|
    && n + degree <= |knots|
    && Sorted(knots)
    && (frame >= knots[n] as real ==> knots[n - 1] < knots[n])
    && (frame < knots[n] as real ==> knots[degree] as real <= frame)
  }

  /** A well-formed spline evaluates without error, to the blend at the span the linear scan
      finds. */
  lemma WellFormedEvaluates(values: seq<real>, degree: nat, knots: seq<byte>, frame: real)
    requires WellFormedSpline(|values|, degree, knots, frame)
    ensures SplineEnds(|values|, degree, knots, frame)
    ensures var s := KnotSpan(knots, degree, |values|, frame);
      && degree <= s < |values|
      && BasisDefined(s, degree, knots)
      && SplineValue(values, degree, knots, frame) == Ok(Blend(values, s, Basis(s, degree, frame, knots), degree + 1))
  {
    var n := |values|;
    KnotSpanSearchSorted(degree, frame, n, knots);
    var s := KnotSpan(knots, degree, n, frame);
    if frame < knots[n] as real {
      KnotSpanInSpan(knots, degree, n, frame);
    }
    SortedSpanIsDefined(s, degree, knots);
  }

  /** On the knots a track header gives (n + degree + 1 of them), a search that stops inside
      [degree, n) never indexes out of range; only the span clamped to n - 1 can, and only
      when degree >= n or degree > 4. */
  lemma HeaderKnotsIndexed(values: seq<real>, degree: nat, knots: seq<byte>, frame: real)
    requires |knots| == |values| + degree + 1 && degree <= 4
    requires SplineEnds(|values|, degree, knots, frame)
    ensures frame < knots[|values|] as real ==> SplineValue(values, degree, knots, frame).Ok?
    ensures frame >= knots[|values|] as real ==> (SplineValue(values, degree, knots, frame).Ok? <==> degree < |values|)
  {
  }

  /** A channel whose values are all v evaluates to v at every frame where it evaluates. */
  lemma ChannelValueConstant(values: seq<real>, degree: nat, knots: seq<byte>, frame: real, v: real)
    requires ChannelEnds(values, degree, knots, frame)
    requires forall i :: 0 <= i < |values| ==> values[i] == v
    ensures ChannelValue(values, degree, knots, frame).Ok? ==> ChannelValue(values, degree, knots, frame).value == v
  {
    var n := |values|;
    if n != 1 && n < |knots| {
      var s := KnotSpanSearch(degree, frame, n, knots).value;
      if SpanIndexed(s, degree, knots) {
        ConstantCurve(s, degree, frame, knots, values, v);
      }
    }
  }

  /** FindKnotSpan followed by GetSinglePoint on a channel's values. */
  method GetSplineValue(values: seq<real>, knots: seq<byte>, degree: byte, frame: real) returns (v: Result<real>)
    requires SplineEnds(|values|, degree, knots, frame)
    ensures v == SplineValue(values, degree, knots, frame)
  {
    var knotspan :- FindKnotSpan(degree, frame, |values|, knots);
    if !SpanIndexed(knotspan, degree, knots) {
      return Err(IndexOutOfRange);
    }
    var point := GetSinglePoint(knotspan, degree, frame, knots, values);
    return Ok(point);
  }

  /** GetValueX, GetValueY and GetValueZ on their channel: a one-value channel (every static
      channel) short-circuits to that value; otherwise find the span and blend. */
  method GetChannelValue(channel: SplineChannel<real>, knots: seq<byte>, degree: byte, frame: real) returns (v: Result<real>)
    requires ChannelEnds(channel.values, degree, knots, frame)
    ensures v == ChannelValue(channel.values, degree, knots, frame)
  {
    if |channel.values| == 1 {
      return Ok(channel.values[0]);
    }
    v := GetSplineValue(channel.values, knots, degree, frame);
  }

  /** An absent axis (`ChannelX == null`) throws on its dereference. */
  method GetValueX(track: SplineTrackVector3, frame: real) returns (v: Result<real>)
    requires track.channelX.Some? ==> ChannelEnds(track.channelX.value.values, track.degree, track.knots, frame)
    ensures track.channelX.None? ==> v == Err(NullChannel)
    ensures track.channelX.Some? ==> v == ChannelValue(track.channelX.value.values, track.degree, track.knots, frame)
  {
    if track.channelX.None? {
      return Err(NullChannel);
    }
    v := GetChannelValue(track.channelX.value, track.knots, track.degree, frame);
  }

  method GetValueY(track: SplineTrackVector3, frame: real) returns (v: Result<real>)
    requires track.channelY.Some? ==> ChannelEnds(track.channelY.value.values, track.degree, track.knots, frame)
    ensures track.channelY.None? ==> v == Err(NullChannel)
    ensures track.channelY.Some? ==> v == ChannelValue(track.channelY.value.values, track.degree, track.knots, frame)
  {
    if track.channelY.None? {
      return Err(NullChannel);
    }
    v := GetChannelValue(track.channelY.value, track.knots, track.degree, frame);
  }

  method GetValueZ(track: SplineTrackVector3, frame: real) returns (v: Result<real>)
    requires track.channelZ.Some? ==> ChannelEnds(track.channelZ.value.values, track.degree, track.knots, frame)
    ensures track.channelZ.None? ==> v == Err(NullChannel)
    ensures track.channelZ.Some? ==> v == ChannelValue(track.channelZ.value.values, track.degree, track.knots, frame)
  {
    if track.channelZ.None? {
      return Err(NullChannel);
    }
    v := GetChannelValue(track.channelZ.value, track.knots, track.degree, frame);
  }

  /** The quaternion track's value: no single-value shortcut, always the spline. */
  function QuaternionValue(track: SplineTrackQuaternion, frame: real): Result<Quat>
    requires SplineEnds(|track.channel.values|, track.degree, track.knots, frame)
  {
    var n := |track.channel.values|;
    if n >= |track.knots| then Err(IndexOutOfRange)
    else
      var s := KnotSpanSearch(track.degree, frame, n, track.knots).value;
      if !SpanIndexed(s, track.degree, track.knots) then Err(IndexOutOfRange)
      else Ok(QBlend(track.channel.values, s, Basis(s, track.degree, frame, track.knots), track.degree + 1))
  }

  /** Each component of the quaternion value is the scalar spline of that component: both
      fail together, and on success they agree component by component. */
  lemma QuaternionValueByComponent(track: SplineTrackQuaternion, frame: real, c: nat)
    requires SplineEnds(|track.channel.values|, track.degree, track.knots, frame) && c < 4
    ensures var col := Column(track.channel.values, c);
      && SplineEnds(|col|, track.degree, track.knots, frame)
      && QuaternionValue(track, frame).Ok? == SplineValue(col, track.degree, track.knots, frame).Ok?
      && (QuaternionValue(track, frame).Ok? ==>
            QuaternionValue(track, frame).value.Get(c) == SplineValue(col, track.degree, track.knots, frame).value)
  {
    var n := |track.channel.values|;
    if n < |track.knots| {
      var s := KnotSpanSearch(track.degree, frame, n, track.knots).value;
      if SpanIndexed(s, track.degree, track.knots) {
        QBlendByComponent(track.channel.values, s, Basis(s, track.degree, frame, track.knots), track.degree + 1, c);
      }
    }
  }

  method GetValue(track: SplineTrackQuaternion, frame: real) returns (q: Result<Quat>)
    requires SplineEnds(|track.channel.values|, track.degree, track.knots, frame)
    ensures q == QuaternionValue(track, frame)
  {
    var knotspan :- FindKnotSpan(track.degree, frame, |track.channel.values|, track.knots);
    if !SpanIndexed(knotspan, track.degree, track.knots) {
      return Err(IndexOutOfRange);
    }
    var point := GetSinglePointQuat(knotspan, track.degree, frame, track.knots, track.channel.values);
    return Ok(point);
  }
}
