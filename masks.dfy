/** The per-track transform mask: a quantisation byte and three flag bytes that say,
    axis by axis, whether position, rotation and scale are static or spline-animated. */
module Masks {
  import opened Wrappers
  import opened BinaryReader
  import opened Quantization

  /** One bit of a flag byte. */
  datatype FlagOffset = StaticX | StaticY | StaticZ | StaticW | SplineX | SplineY | SplineZ | SplineW

  /** The bit value of each flag. */
  function Weight(f: FlagOffset): (w: nat)
    ensures w in {1, 2, 4, 8, 16, 32, 64, 128}
  {
    match f
    case StaticX => 1
    case StaticY => 2
    case StaticZ => 4
    case StaticW => 8
    case SplineX => 16
    case SplineY => 32
    case SplineZ => 64
    case SplineW => 128
  }

  function Pow2(n: nat): (r: nat)
    ensures r > 0
  {
    if n == 0 then 1 else 2 * Pow2(n - 1)
  }

  /** The flags in the order Enum.GetValues lists them, which is ascending bit value. */
  const AllFlags: seq<FlagOffset> := [StaticX, StaticY, StaticZ, StaticW, SplineX, SplineY, SplineZ, SplineW]

  /** The bit position of a flag, which is its place in AllFlags. */
  function Index(f: FlagOffset): (i: nat)
    ensures i < 8 && AllFlags[i] == f
  {
    match f
    case StaticX => 0
    case StaticY => 1
    case StaticZ => 2
    case StaticW => 3
    case SplineX => 4
    case SplineY => 5
    case SplineZ => 6
    case SplineW => 7
  }

  /** Enum.HasFlag on a single-bit flag: `(b & f) == f`, i.e. f's bit is set in b. */
  predicate HasFlag(b: byte, f: FlagOffset) {
    (b / Weight(f)) % 2 == 1
  }

  /** The flags set in b among the first n of AllFlags, in that order: what the foreach
      loop has appended after n iterations. */
  function FlagsUpTo(b: byte, n: nat): (fs: seq<FlagOffset>)
    requires n <= 8
    ensures |fs| <= n
    ensures forall f :: f in fs ==> Index(f) < n
  {
    if n == 0 then []
    else FlagsUpTo(b, n - 1) + (if HasFlag(b, AllFlags[n - 1]) then [AllFlags[n - 1]] else [])
  }

  function FlagsOf(b: byte): seq<FlagOffset> {
    FlagsUpTo(b, 8)
  }

  lemma {:induction false} FlagsUpToMembership(b: byte, n: nat, f: FlagOffset)
    requires n <= 8
    ensures f in FlagsUpTo(b, n) <==> Index(f) < n && HasFlag(b, f)
  {
    if n > 0 {
      FlagsUpToMembership(b, n - 1, f);
    }
  }

  /** A flag is listed exactly when its bit is set. */
  lemma FlagsOfMembership(b: byte, f: FlagOffset)
    ensures f in FlagsOf(b) <==> HasFlag(b, f)
  {
    FlagsUpToMembership(b, 8, f);
  }

  predicate StrictlyAscending(fs: seq<FlagOffset>) {
    forall i, j :: 0 <= i < j < |fs| ==> Index(fs[i]) < Index(fs[j])
  }

  lemma {:induction false} FlagsUpToAscending(b: byte, n: nat)
    requires n <= 8
    ensures StrictlyAscending(FlagsUpTo(b, n))
  {
    if n > 0 {
      FlagsUpToAscending(b, n - 1);
      var prev := FlagsUpTo(b, n - 1);
      var fs := FlagsUpTo(b, n);
      forall i, j | 0 <= i < j < |fs|
        ensures Index(fs[i]) < Index(fs[j])
      {
        if j >= |prev| {
          assert fs[i] in prev;
          assert fs[j] == AllFlags[n - 1];
        } else {
          assert fs[i] == prev[i] && fs[j] == prev[j];
        }
      }
    }
  }

  /** The lists hold each flag at most once, in ascending bit order. */
  lemma FlagsOfAscending(b: byte)
    ensures StrictlyAscending(FlagsOf(b))
  {
    FlagsUpToAscending(b, 8);
  }

  function WeightSum(fs: seq<FlagOffset>): nat {
    if fs == [] then 0 else WeightSum(fs[..|fs| - 1]) + Weight(fs[|fs| - 1])
  }

  lemma WeightSumAppend(fs: seq<FlagOffset>, gs: seq<FlagOffset>)
    requires |gs| <= 1
    ensures WeightSum(fs + gs) == WeightSum(fs) + WeightSum(gs)
  {
    if gs != [] {
      assert (fs + gs)[..|fs + gs| - 1] == fs;
    } else {
      assert fs + gs == fs;
    }
  }

  /** b % 2^n is b % 2^(n-1) plus bit n - 1 of b. */
  lemma LowBitsStep(b: byte, n: nat)
    requires 1 <= n <= 8
    ensures b % Pow2(n) == b % Pow2(n - 1) + (if HasFlag(b, AllFlags[n - 1]) then Weight(AllFlags[n - 1]) else 0)
  {
    var p := Pow2(n - 1);
    assert Pow2(n) == 2 * p;
    WeightIsPow2(AllFlags[n - 1]);
    ModStep(b, p);
  }

  /** Splitting the remainder by 2p at p. */
  lemma ModStep(b: nat, p: nat)
    requires p > 0
    ensures b % (2 * p) == b % p + (if (b / p) % 2 == 1 then p else 0)
  {
    var q, rem := b / (2 * p), b % (2 * p);
    var h, l := rem / p, rem % p;
    assert rem == p * h + l;
    assert h < 2;
    assert b == 2 * p * q + rem;
    assert b == p * (2 * q + h) + l;
    ModUnique(b, p, 2 * q + h, l);
    ModUnique(2 * q + h, 2, q, h);
  }

  /** Flag i weighs 2^i. */
  lemma WeightIsPow2(f: FlagOffset)
    ensures Weight(f) == Pow2(Index(f))
  {
    assert Pow2(1) == 2 && Pow2(2) == 4 && Pow2(3) == 8 && Pow2(4) == 16;
    assert Pow2(5) == 32 && Pow2(6) == 64 && Pow2(7) == 128;
  }

  lemma {:induction false} FlagsUpToSum(b: byte, n: nat)
    requires n <= 8
    ensures WeightSum(FlagsUpTo(b, n)) == b % Pow2(n)
  {
    if n > 0 {
      var f := AllFlags[n - 1];
      var prev := FlagsUpTo(b, n - 1);
      var now := if HasFlag(b, f) then [f] else [];
      assert FlagsUpTo(b, n) == prev + now;
      FlagsUpToSum(b, n - 1);
      WeightSumAppend(prev, now);
      WeightSumSingle(b, f);
      LowBitsStep(b, n);
    }
  }

  lemma WeightSumSingle(b: byte, f: FlagOffset)
    ensures WeightSum(if HasFlag(b, f) then [f] else []) == if HasFlag(b, f) then Weight(f) else 0
  {
    if HasFlag(b, f) {
      assert [f][..0] == [];
    }
  }

  /** Adding up the bits of the listed flags gives back the byte: the list loses nothing. */
  lemma FlagsOfRoundTrip(b: byte)
    ensures WeightSum(FlagsOf(b)) == b
  {
    FlagsUpToSum(b, 8);
    assert Pow2(8) == 256;
  }

  /** The quantisation byte: position in bits 0-1, rotation in bits 2-5, scale in bits 6-7. */
  function PositionQuantization(b: byte): ScalarCode { b % 4 }
  function RotationQuantization(b: byte): RotationCode { (b / 4) % 16 }
  function ScaleQuantization(b: byte): ScalarCode { (b / 64) % 4 }

  /** The three fields together are the whole byte. */
  lemma QuantizationRoundTrip(b: byte)
    ensures b == PositionQuantization(b) + 4 * RotationQuantization(b) + 64 * ScaleQuantization(b)
  {
    ModUnique(b, 4, b / 4, b % 4);
    ModUnique(b / 4, 16, b / 64, (b / 4) % 16);
  }

  datatype TransformMask = TransformMask(
    positionQuantizationType: ScalarCode,
    rotationQuantizationType: RotationCode,
    scaleQuantizationType: ScalarCode,
    positionTypes: seq<FlagOffset>,
    rotationTypes: seq<FlagOffset>,
    scaleTypes: seq<FlagOffset>)

  function MaskOf(q: byte, p: byte, r: byte, s: byte): TransformMask {
    TransformMask(PositionQuantization(q), RotationQuantization(q), ScaleQuantization(q),
                  FlagsOf(p), FlagsOf(r), FlagsOf(s))
  }

  /** The TransformMask constructor: four bytes, quantisation first, then the position,
      rotation and scale flag bytes. */
  function TransformMaskAt(inp: Input, pos: nat): (r: Result<Parsed<TransformMask>>)
    ensures r.Ok? <==> pos + 4 <= |inp.bytes|
    ensures r.Ok? ==> r.value.pos == pos + 4
    ensures r.Err? ==> r.error == BufferUnderrun
  {
    var q :- ByteAt(inp, pos);
    var p :- ByteAt(inp, q.pos);
    var ro :- ByteAt(inp, p.pos);
    var s :- ByteAt(inp, ro.pos);
    Ok(Parsed(MaskOf(q.value, p.value, ro.value, s.value), s.pos))
  }

  /** A mask read from the buffer gives back its four bytes: the quantisation byte
      from the three codes, each flag byte from its list. */
  lemma TransformMaskFaithful(inp: Input, pos: nat)
    requires pos + 4 <= |inp.bytes|
    ensures var m := TransformMaskAt(inp, pos).value.value;
      && inp.bytes[pos] == m.positionQuantizationType + 4 * m.rotationQuantizationType + 64 * m.scaleQuantizationType
      && inp.bytes[pos + 1] == WeightSum(m.positionTypes)
      && inp.bytes[pos + 2] == WeightSum(m.rotationTypes)
      && inp.bytes[pos + 3] == WeightSum(m.scaleTypes)
  {
    QuantizationRoundTrip(inp.bytes[pos]);
    FlagsOfRoundTrip(inp.bytes[pos + 1]);
    FlagsOfRoundTrip(inp.bytes[pos + 2]);
    FlagsOfRoundTrip(inp.bytes[pos + 3]);
  }

  method ReadTransformMask(r: Reader) returns (res: Result<TransformMask>)
    modifies r
    ensures Step(res, r.pos) == TransformMaskAt(r.input, old(r.pos))
  {
    var byteQuantizationTypes :- r.ReadByte();
    var bytePositionTypes :- r.ReadByte();
    var byteRotationTypes :- r.ReadByte();
    var byteScaleTypes :- r.ReadByte();
    var positionTypes: seq<FlagOffset> := [];
    var rotationTypes: seq<FlagOffset> := [];
    var scaleTypes: seq<FlagOffset> := [];
    for n := 0 to |AllFlags|
      invariant positionTypes == FlagsUpTo(bytePositionTypes, n)
      invariant rotationTypes == FlagsUpTo(byteRotationTypes, n)
      invariant scaleTypes == FlagsUpTo(byteScaleTypes, n)
    {
      var flagOffset := AllFlags[n];
      if HasFlag(bytePositionTypes, flagOffset) {
        positionTypes := positionTypes + [flagOffset];
      }
      if HasFlag(byteRotationTypes, flagOffset) {
        rotationTypes := rotationTypes + [flagOffset];
      }
      if HasFlag(byteScaleTypes, flagOffset) {
        scaleTypes := scaleTypes + [flagOffset];
      }
    }
    return Ok(TransformMask(PositionQuantization(byteQuantizationTypes), RotationQuantization(byteQuantizationTypes),
                            ScaleQuantization(byteQuantizationTypes), positionTypes, rotationTypes, scaleTypes));
  }
}
