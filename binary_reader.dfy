/** The byte cursor the decoder reads through (SoulsFormats' BinaryReaderEx): an
    immutable buffer, an endianness flag and a mutable position, with fixed-width
    reads, alignment padding and a position setter. */
module BinaryReader {
  import opened Wrappers
  import opened Numerics

  type byte = b: int | 0 <= b < 256

  /** The buffer and the byte order every multi-byte read honours. */
  datatype Input = Input(bytes: seq<byte>, bigEndian: bool)

  function Pow256(n: nat): (r: nat)
    ensures r > 0
  {
    if n == 0 then 1 else 256 * Pow256(n - 1)
  }

  /** The unsigned integer whose least significant byte comes first. */
  function LittleEndian(s: seq<byte>): (r: nat)
    ensures r < Pow256(|s|)
  {
    if s == [] then 0 else s[0] + 256 * LittleEndian(s[1..])
  }

  /** The unsigned integer whose most significant byte comes first. */
  function BigEndian(s: seq<byte>): (r: nat)
    ensures r < Pow256(|s|)
  {
    if s == [] then 0 else 256 * BigEndian(s[..|s| - 1]) + s[|s| - 1]
  }

  /** The `width` bytes that encode `v` least significant byte first. */
  function LittleEndianBytes(v: nat, width: nat): (s: seq<byte>)
    ensures |s| == width
  {
    if width == 0 then [] else [v % 256] + LittleEndianBytes(v / 256, width - 1)
  }

  /** The `width` bytes that encode `v` most significant byte first. */
  function BigEndianBytes(v: nat, width: nat): (s: seq<byte>)
    ensures |s| == width
  {
    if width == 0 then [] else BigEndianBytes(v / 256, width - 1) + [v % 256]
  }

  /** Reading back what was written in either byte order gives the value again. */
  lemma {:induction false} LittleEndianRoundTrip(v: nat, width: nat)
    requires v < Pow256(width)
    ensures LittleEndian(LittleEndianBytes(v, width)) == v
  {
    if width > 0 {
      var s := LittleEndianBytes(v, width);
      assert s[1..] == LittleEndianBytes(v / 256, width - 1);
      LittleEndianRoundTrip(v / 256, width - 1);
    }
  }

  lemma {:induction false} BigEndianRoundTrip(v: nat, width: nat)
    requires v < Pow256(width)
    ensures BigEndian(BigEndianBytes(v, width)) == v
  {
    if width > 0 {
      var s := BigEndianBytes(v, width);
      assert s[..|s| - 1] == BigEndianBytes(v / 256, width - 1);
      BigEndianRoundTrip(v / 256, width - 1);
    }
  }

  /** The unsigned integer stored in bytes [pos, pos + width) in the input's byte order. */
  function UIntAt(inp: Input, pos: nat, width: nat): (r: Result<Parsed<nat>>)
    ensures r.Ok? <==> pos + width <= |inp.bytes|
    ensures r.Ok? ==> r.value.pos == pos + width && r.value.value < Pow256(width)
    ensures r.Err? ==> r.error == BufferUnderrun
  {
    if pos + width <= |inp.bytes| then
      var s := inp.bytes[pos..pos + width];
      Ok(Parsed(if inp.bigEndian then BigEndian(s) else LittleEndian(s), pos + width))
    else
      Err(BufferUnderrun)
  }

  /** Two's complement reading of a 16-bit pattern. */
  function Signed16(u: nat): (v: int)
    requires u < 65536
    ensures -32768 <= v < 32768
    ensures v % 65536 == u
  {
    if u < 32768 then u else u - 65536
  }

  function ByteAt(inp: Input, pos: nat): (r: Result<Parsed<byte>>)
    ensures r.Ok? <==> pos < |inp.bytes|
    ensures r.Ok? ==> r == Ok(Parsed(inp.bytes[pos], pos + 1))
  {
    var u :- UIntAt(inp, pos, 1);
    assert inp.bytes[pos..pos + 1] == [inp.bytes[pos]];
    Ok(Parsed(u.value, u.pos))
  }

  function UInt16At(inp: Input, pos: nat): (r: Result<Parsed<nat>>)
    ensures r.Ok? <==> pos + 2 <= |inp.bytes|
    ensures r.Ok? ==> r.value.pos == pos + 2 && r.value.value < 65536
  {
    UIntAt(inp, pos, 2)
  }

  function Int16At(inp: Input, pos: nat): (r: Result<Parsed<int>>)
    ensures r.Ok? <==> pos + 2 <= |inp.bytes|
    ensures r.Ok? ==> r.value.pos == pos + 2 && -32768 <= r.value.value < 32768
  {
    var u :- UInt16At(inp, pos);
    Ok(Parsed(Signed16(u.value), u.pos))
  }

  function UInt32At(inp: Input, pos: nat): (r: Result<Parsed<nat>>)
    ensures r.Ok? <==> pos + 4 <= |inp.bytes|
    ensures r.Ok? ==> r.value.pos == pos + 4 && r.value.value < 0x1_0000_0000
  {
    UIntAt(inp, pos, 4)
  }

  function UInt64At(inp: Input, pos: nat): (r: Result<Parsed<nat>>)
    ensures r.Ok? <==> pos + 8 <= |inp.bytes|
    ensures r.Ok? ==> r.value.pos == pos + 8 && r.value.value < 0x1_0000_0000_0000_0000
  {
    UIntAt(inp, pos, 8)
  }

  /** A 32-bit IEEE-754 float: the 4-byte pattern in the input's byte order, decoded by `ops`. */
  function SingleAt(inp: Input, pos: nat, ops: FloatOps): (r: Result<Parsed<real>>)
    ensures r.Ok? <==> pos + 4 <= |inp.bytes|
    ensures r.Ok? ==> r.value.pos == pos + 4
  {
    var u :- UInt32At(inp, pos);
    Ok(Parsed(ops.singleFromBits(u.value), u.pos))
  }

  /** Where Pad(align) leaves a cursor at `pos`: the first multiple of `align` at or after it. */
  function PadTo(pos: nat, align: nat): (r: nat)
    requires align > 0
    ensures r % align == 0
    ensures pos <= r < pos + align
  {
    if pos % align > 0 then
      var q := pos / align;
      ModUnique(pos + (align - pos % align), align, q + 1, 0);
      pos + (align - pos % align)
    else
      pos
  }

  lemma MulAtLeast(a: nat, d: nat)
    requires d >= 1
    ensures a * d >= a
  {
    if d > 1 {
      MulAtLeast(a, d - 1);
      assert a * d == a * (d - 1) + a;
    }
  }

  /** Euclidean division has one remainder: any decomposition x == a * q + m with 0 <= m < a gives it. */
  lemma ModUnique(x: int, a: nat, q: int, m: int)
    requires a > 0 && 0 <= m < a && x == a * q + m
    ensures x % a == m && x / a == q
  {
    var q', m' := x / a, x % a;
    assert a * q + m == a * q' + m';
    if q > q' {
      assert a * (q - q') == a * q - a * q';
      MulAtLeast(a, q - q');
    } else if q < q' {
      assert a * (q' - q) == a * q' - a * q;
      MulAtLeast(a, q' - q);
    }
  }

  /** Padding an aligned position does not move it. */
  lemma PadToAligned(pos: nat, align: nat)
    requires align > 0 && pos % align == 0
    ensures PadTo(pos, align) == pos
  {
  }

  class Reader {
    const input: Input
    var pos: nat

    constructor (input: Input)
      ensures this.input == input && pos == 0
    {
      this.input := input;
      pos := 0;
    }

    method ReadByte() returns (res: Result<byte>)
      modifies this
      ensures Step(res, pos) == ByteAt(input, old(pos))
    {
      var r := ByteAt(input, pos);
      if r.Err? { return Err(r.error); }
      res, pos := Ok(r.value.value), r.value.pos;
    }

    method ReadUInt16() returns (res: Result<nat>)
      modifies this
      ensures Step(res, pos) == UInt16At(input, old(pos))
    {
      var r := UInt16At(input, pos);
      if r.Err? { return Err(r.error); }
      res, pos := Ok(r.value.value), r.value.pos;
    }

    method ReadInt16() returns (res: Result<int>)
      modifies this
      ensures Step(res, pos) == Int16At(input, old(pos))
    {
      var r := Int16At(input, pos);
      if r.Err? { return Err(r.error); }
      res, pos := Ok(r.value.value), r.value.pos;
    }

    method ReadUInt32() returns (res: Result<nat>)
      modifies this
      ensures Step(res, pos) == UInt32At(input, old(pos))
    {
      var r := UInt32At(input, pos);
      if r.Err? { return Err(r.error); }
      res, pos := Ok(r.value.value), r.value.pos;
    }

    method ReadUInt64() returns (res: Result<nat>)
      modifies this
      ensures Step(res, pos) == UInt64At(input, old(pos))
    {
      var r := UInt64At(input, pos);
      if r.Err? { return Err(r.error); }
      res, pos := Ok(r.value.value), r.value.pos;
    }

    method ReadSingle(ops: FloatOps) returns (res: Result<real>)
      modifies this
      ensures Step(res, pos) == SingleAt(input, old(pos), ops)
    {
      var r := SingleAt(input, pos, ops);
      if r.Err? { return Err(r.error); }
      res, pos := Ok(r.value.value), r.value.pos;
    }

    /** Advances to the next multiple of `align`; the skipped bytes are not read,
        so padding never fails, even past the end of the buffer. */
    method Pad(align: nat)
      requires align > 0
      modifies this
      ensures pos == PadTo(old(pos), align)
    {
      if pos % align > 0 {
        pos := pos + (align - pos % align);
      }
    }

    /** The Position setter. */
    method SetPosition(p: nat)
      modifies this
      ensures pos == p
    {
      pos := p;
    }
  }
}
