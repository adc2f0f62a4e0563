/** B-spline evaluation over byte knots (The NURBS Book, algorithms A2.1 and A2.2):
    the knot-span search and the basis weights with their blends of scalar and
    quaternion control points. */
module Nurbs {
  import opened Wrappers
  import opened Numerics
  import opened BinaryReader

  predicate Sorted(knots: seq<byte>) {
    forall i, j :: 0 <= i <= j < |knots| ==> knots[i] <= knots[j]
  }

  // ---------------------------------------------------------------------------
  // FindKnotSpan
  // ---------------------------------------------------------------------------

  /** `value` lies in the half-open span [knots[r], knots[r + 1]). */
  predicate InSpan(knots: seq<byte>, r: int, value: real)
    requires 0 <= r && r + 1 < |knots|
  {
    knots[r] as real <= value < knots[r + 1] as real
  }

  /** In a sorted knot vector, the half-open spans are disjoint: at most one holds a value. */
  lemma SpanUnique(knots: seq<byte>, r1: nat, r2: nat, value: real)
    requires Sorted(knots) && r1 + 1 < |knots| && r2 + 1 < |knots|
    requires InSpan(knots, r1, value) && InSpan(knots, r2, value)
    ensures r1 == r2
  {
  }

  /** The linear-scan reference: the last index r in [lo, hi] with knots[r] <= value, or lo. */
  function LastKnotAtOrBelow(knots: seq<byte>, lo: nat, hi: nat, value: real): (r: nat)
    requires lo <= hi < |knots|
    ensures lo <= r <= hi
    decreases hi - lo
  {
    if hi == lo || knots[hi] as real <= value then hi else LastKnotAtOrBelow(knots, lo, hi - 1, value)
  }

  /** The knot span a value falls into according to the linear scan: the last span at or
      past knots[n], otherwise the last span among [degree, n) whose left knot is not above it. */
  function KnotSpan(knots: seq<byte>, degree: nat, n: nat, value: real): (r: int)
    requires degree < n < |knots|
  {
    if value >= knots[n] as real then n - 1 else LastKnotAtOrBelow(knots, degree, n - 1, value)
  }

  lemma {:induction false} LastKnotInSpan(knots: seq<byte>, lo: nat, hi: nat, value: real)
    requires lo <= hi && hi + 1 < |knots|
    requires knots[lo] as real <= value < knots[hi + 1] as real
    ensures InSpan(knots, LastKnotAtOrBelow(knots, lo, hi, value), value)
    decreases hi - lo
  {
    if hi != lo && !(knots[hi] as real <= value) {
      LastKnotInSpan(knots, lo, hi - 1, value);
    }
  }

  /** Between knots[degree] and knots[n] the linear scan lands in a span holding the value. */
  lemma KnotSpanInSpan(knots: seq<byte>, degree: nat, n: nat, value: real)
    requires degree < n < |knots|
    requires knots[degree] as real <= value < knots[n] as real
    ensures InSpan(knots, KnotSpan(knots, degree, n, value), value)
  {
    LastKnotInSpan(knots, degree, n - 1, value);
  }

  /** A value equal to an interior knot lands in the span that starts at that knot. */
  lemma KnotAtSpanStart(knots: seq<byte>, degree: nat, n: nat, i: nat)
    requires Sorted(knots) && degree <= i < n < |knots| && knots[i] < knots[i + 1]
    ensures KnotSpan(knots, degree, n, knots[i] as real) == i
  {
    var value := knots[i] as real;
    assert knots[i + 1] <= knots[n];
    assert knots[degree] <= knots[i];
    KnotSpanInSpan(knots, degree, n, value);
    SpanUnique(knots, i, KnotSpan(knots, degree, n, value), value);
  }

  /** The binary search of FindKnotSpan from the bounds [low, high], with `value` below
      knots[high]: Some(span) where the loop stops, None where it never stops. The loop keeps
      `value < knots[high]`, so once low == high the test `value < knots[mid]` holds forever. */
  function SearchFrom(knots: seq<byte>, value: real, low: nat, high: nat): (r: Option<nat>)
    requires low <= high < |knots| && value < knots[high] as real
    ensures r.Some? ==> low <= r.value < high && InSpan(knots, r.value, value)
    decreases high - low
  {
    if low == high then None
    else
      var mid := (low + high) / 2;
      if value < knots[mid] as real then SearchFrom(knots, value, low, mid)
      else if value >= knots[mid + 1] as real then SearchFrom(knots, value, mid, high)
      else Some(mid)
  }

  /** The search stops whenever the value is not below knots[low]: the loop then keeps
      knots[low] <= value < knots[high], so the bounds never meet. */
  lemma {:induction false} SearchEndsAboveLow(knots: seq<byte>, value: real, low: nat, high: nat)
    requires low < high < |knots| && knots[low] as real <= value < knots[high] as real
    ensures SearchFrom(knots, value, low, high).Some?
    decreases high - low
  {
    var mid := (low + high) / 2;
    if value < knots[mid] as real {
      SearchEndsAboveLow(knots, value, low, mid);
    } else if value >= knots[mid + 1] as real {
      SearchEndsAboveLow(knots, value, mid, high);
    }
  }

  /** On sorted knots the search never stops for a value below knots[low]: every knot it
      probes is above the value, so it only ever lowers `high`. */
  lemma {:induction false} SearchHangsBelowLow(knots: seq<byte>, value: real, low: nat, high: nat)
    requires Sorted(knots) && low <= high < |knots| && value < knots[low] as real
    ensures SearchFrom(knots, value, low, high).None?
    decreases high - low
  {
    if low < high {
      var mid := (low + high) / 2;
      assert value < knots[mid] as real;
      SearchHangsBelowLow(knots, value, low, mid);
    }
  }

  /** FindKnotSpan on a knot index that exists: the last span at or past knots[n], otherwise
      where the binary search over [degree, n] stops; None when it never stops. */
  function KnotSpanSearch(degree: nat, value: real, n: nat, knots: seq<byte>): (r: Option<int>)
    requires n < |knots|
    requires value < knots[n] as real ==> degree < n
    ensures value >= knots[n] as real ==> r == Some(n - 1)
    ensures r.Some? && value < knots[n] as real ==> degree <= r.value < n && InSpan(knots, r.value, value)
  {
    if value >= knots[n] as real then Some(n - 1)
    else
      match SearchFrom(knots, value, degree, n)
      case None => None
      case Some(s) => Some(s)
  }

  /** On sorted knots, between knots[degree] and knots[n], the binary search finds the span
      the linear scan finds; below knots[degree] it never stops. */
  lemma KnotSpanSearchSorted(degree: nat, value: real, n: nat, knots: seq<byte>)
    requires Sorted(knots) && degree < n < |knots|
    ensures value < knots[n] as real && knots[degree] as real <= value ==>
              KnotSpanSearch(degree, value, n, knots) == Some(KnotSpan(knots, degree, n, value))
    ensures value < knots[degree] as real ==> KnotSpanSearch(degree, value, n, knots) == None
  {
    if value < knots[n] as real && knots[degree] as real <= value {
      SearchEndsAboveLow(knots, value, degree, n);
      var s := KnotSpanSearch(degree, value, n, knots).value;
      KnotSpanInSpan(knots, degree, n, value);
      SpanUnique(knots, s, KnotSpan(knots, degree, n, value), value);
    }
    if value < knots[degree] as real {
      SearchHangsBelowLow(knots, value, degree, n);
    }
  }

  /** A value at or past knots[n] falls into the last span; otherwise the binary search over
      [degree, n] runs until it brackets the value. Reading knots[n] past the end of the
      knots throws. */
  method FindKnotSpan(degree: nat, value: real, cPointsSize: nat, knots: seq<byte>) returns (r: Result<int>)
    requires cPointsSize < |knots| && value < knots[cPointsSize] as real ==>
               degree < cPointsSize && SearchFrom(knots, value, degree, cPointsSize).Some?
    ensures r.Ok? <==> cPointsSize < |knots|
    ensures r.Err? ==> r.error == IndexOutOfRange
    ensures r.Ok? ==> KnotSpanSearch(degree, value, cPointsSize, knots) == Some(r.value)
    ensures r.Ok? && value >= knots[cPointsSize] as real ==> r.value == cPointsSize - 1
    ensures r.Ok? && value < knots[cPointsSize] as real ==>
              degree <= r.value < cPointsSize && InSpan(knots, r.value, value)
    ensures r.Ok? && value < knots[cPointsSize] as real && Sorted(knots) ==>
              forall s :: degree <= s < cPointsSize && InSpan(knots, s, value) ==> r.value == s
    ensures r.Ok? && degree < cPointsSize && Sorted(knots) ==> r.value == KnotSpan(knots, degree, cPointsSize, value)
  {
    if cPointsSize >= |knots| {
      return Err(IndexOutOfRange);
    }
    if value >= knots[cPointsSize] as real {
      return Ok(cPointsSize - 1);
    }
    var low := degree;
    var high := cPointsSize;
    var mid := (low + high) / 2;
    ghost var search := SearchFrom(knots, value, low, high);
    while value < knots[mid] as real || value >= knots[mid + 1] as real
      invariant degree <= low < high <= cPointsSize
      invariant mid == (low + high) / 2
      invariant value < knots[high] as real
      invariant SearchFrom(knots, value, low, high) == search
      decreases high - low
    {
      if value < knots[mid] as real {
        high := mid;
      } else {
        low := mid;
      }
      mid := (low + high) / 2;
    }
    r := Ok(mid);
    forall s | degree <= s < cPointsSize && Sorted(knots) && InSpan(knots, s, value)
      ensures mid == s
    {
      SpanUnique(knots, mid, s, value);
    }
    if Sorted(knots) {
      assert knots[degree] <= knots[mid];
      KnotSpanInSpan(knots, degree, cPointsSize, value);
      SpanUnique(knots, mid, KnotSpan(knots, degree, cPointsSize, value), value);
    }
  }

  // ---------------------------------------------------------------------------
  // Basis weights
  // ---------------------------------------------------------------------------

  /** What GetSinglePoint needs of its arguments to evaluate without an index error or a
      division by zero: at most 4 (the weight buffer holds 5), a span index past the first
      `degree` knots, the knots it reads, and no empty knot interval among the ones it
      divides by. */
  predicate BasisDefined(k: nat, degree: nat, knots: seq<byte>) {
    && degree <= 4
    && degree <= k
    && k + degree < |knots|
    && forall a, b :: k - degree < a <= k < b <= k + degree && b - a <= degree ==> knots[a] != knots[b]
  }

  /** The blending ratio of row i, position j: (frame - knots[k - j]) / (knots[k + i - j] - knots[k - j]). */
  function Alpha(k: nat, degree: nat, i: nat, j: nat, frame: real, knots: seq<byte>): real
    requires BasisDefined(k, degree, knots) && 1 <= i <= degree && j < i
  {
    assert knots[k - j] != knots[k + i - j];
    (frame - knots[k - j] as real) / (knots[k + i - j] as real - knots[k - j] as real)
  }

  /** One step of the inner loop: N[j] keeps the fraction a of its weight and passes the
      rest on to N[j + 1]. */
  function Update(N: seq<real>, j: nat, a: real): (r: seq<real>)
    requires |N| == 5 && j < 4
    ensures |r| == 5
  {
    N[j := N[j] * a][j + 1 := N[j + 1] + N[j] - N[j] * a]
  }

  /** The inner loop of row i from position j down to 0. */
  function SweepFrom(N: seq<real>, k: nat, degree: nat, i: nat, j: int, frame: real, knots: seq<byte>): (r: seq<real>)
    requires |N| == 5 && BasisDefined(k, degree, knots) && 1 <= i <= degree && -1 <= j < i
    ensures |r| == 5
    decreases j + 1
  {
    if j < 0 then N
    else SweepFrom(Update(N, j, Alpha(k, degree, i, j, frame, knots)), k, degree, i, j - 1, frame, knots)
  }

  /** The outer loop from row i to row degree. */
  function RowsFrom(N: seq<real>, k: nat, degree: nat, i: nat, frame: real, knots: seq<byte>): (r: seq<real>)
    requires |N| == 5 && BasisDefined(k, degree, knots) && 1 <= i <= degree + 1
    ensures |r| == 5
    decreases degree + 1 - i
  {
    if i > degree then N
    else RowsFrom(SweepFrom(N, k, degree, i, i - 1, frame, knots), k, degree, i + 1, frame, knots)
  }

  const InitialWeights: seq<real> := [1.0, 0.0, 0.0, 0.0, 0.0]

  /** The basis weights N[0..degree] of span k at `frame`; N[i] weighs control point k - i. */
  function Basis(k: nat, degree: nat, frame: real, knots: seq<byte>): (r: seq<real>)
    requires BasisDefined(k, degree, knots)
    ensures |r| == 5
  {
    RowsFrom(InitialWeights, k, degree, 1, frame, knots)
  }

  function Sum(N: seq<real>): real
    requires |N| == 5
  {
    N[0] + N[1] + N[2] + N[3] + N[4]
  }

  /** Every weight from position m on is zero. */
  predicate ZeroFrom(N: seq<real>, m: nat) {
    forall p :: m <= p < |N| ==> N[p] == 0.0
  }

  lemma {:induction false} SweepKeepsSum(N: seq<real>, k: nat, degree: nat, i: nat, j: int, frame: real, knots: seq<byte>)
    requires |N| == 5 && BasisDefined(k, degree, knots) && 1 <= i <= degree && -1 <= j < i
    requires ZeroFrom(N, i + 1)
    ensures Sum(SweepFrom(N, k, degree, i, j, frame, knots)) == Sum(N)
    ensures ZeroFrom(SweepFrom(N, k, degree, i, j, frame, knots), i + 1)
    decreases j + 1
  {
    if j >= 0 {
      var N' := Update(N, j, Alpha(k, degree, i, j, frame, knots));
      assert Sum(N') == Sum(N);
      SweepKeepsSum(N', k, degree, i, j - 1, frame, knots);
    }
  }

  lemma {:induction false} RowsKeepSum(N: seq<real>, k: nat, degree: nat, i: nat, frame: real, knots: seq<byte>)
    requires |N| == 5 && BasisDefined(k, degree, knots) && 1 <= i <= degree + 1
    requires ZeroFrom(N, i)
    ensures Sum(RowsFrom(N, k, degree, i, frame, knots)) == Sum(N)
    ensures ZeroFrom(RowsFrom(N, k, degree, i, frame, knots), degree + 1)
    decreases degree + 1 - i
  {
    if i <= degree {
      SweepKeepsSum(N, k, degree, i, i - 1, frame, knots);
      RowsKeepSum(SweepFrom(N, k, degree, i, i - 1, frame, knots), k, degree, i + 1, frame, knots);
    }
  }

  /** Partition of unity: the weights add up to 1, and only the first degree + 1 can be nonzero. */
  lemma BasisPartition(k: nat, degree: nat, frame: real, knots: seq<byte>)
    requires BasisDefined(k, degree, knots)
    ensures Sum(Basis(k, degree, frame, knots)) == 1.0
    ensures ZeroFrom(Basis(k, degree, frame, knots), degree + 1)
  {
    RowsKeepSum(InitialWeights, k, degree, 1, frame, knots);
  }

  /** The denominators of a span are never zero when the knots are sorted and the span itself
      is not empty. */
  lemma SortedSpanIsDefined(k: nat, degree: nat, knots: seq<byte>)
    requires Sorted(knots) && degree <= 4 && degree <= k && k + degree < |knots|
    requires k + 1 < |knots| && knots[k] < knots[k + 1]
    ensures BasisDefined(k, degree, knots)
  {
    forall a, b | k - degree < a <= k < b <= k + degree && b - a <= degree
      ensures knots[a] != knots[b]
    {
      assert knots[a] <= knots[k] && knots[k + 1] <= knots[b];
    }
  }

  predicate NonNegative(N: seq<real>) {
    forall p :: 0 <= p < |N| ==> N[p] >= 0.0
  }

  lemma ProductBounds(x: real, a: real)
    requires x >= 0.0 && 0.0 <= a <= 1.0
    ensures 0.0 <= x * a <= x
  {
    assert x * (1.0 - a) >= 0.0 by {
      if x > 0.0 && a < 1.0 {
        assert x * (1.0 - a) > 0.0;
      }
    }
  }

  /** With sorted knots and the frame inside span k, every blending ratio lies in [0, 1]. */
  lemma AlphaInUnit(k: nat, degree: nat, i: nat, j: nat, frame: real, knots: seq<byte>)
    requires BasisDefined(k, degree, knots) && 1 <= i <= degree && j < i
    requires Sorted(knots) && k + 1 < |knots| && knots[k] as real <= frame <= knots[k + 1] as real
    ensures 0.0 <= Alpha(k, degree, i, j, frame, knots) <= 1.0
  {
    var lo, hi := knots[k - j] as real, knots[k + i - j] as real;
    assert knots[k - j] <= knots[k] && knots[k + 1] <= knots[k + i - j];
    assert lo <= frame <= hi && lo < hi;
    RatioInUnit(frame - lo, hi - lo);
  }

  lemma RatioInUnit(x: real, d: real)
    requires 0.0 <= x <= d && d > 0.0
    ensures 0.0 <= x / d <= 1.0
  {
    var a := x / d;
    assert a * d == x;
    if a < 0.0 {
      PositiveProduct(-a, d);
    }
    if a > 1.0 {
      PositiveProduct(a - 1.0, d);
    }
  }

  lemma {:induction false} SweepNonNegative(N: seq<real>, k: nat, degree: nat, i: nat, j: int, frame: real, knots: seq<byte>)
    requires |N| == 5 && BasisDefined(k, degree, knots) && 1 <= i <= degree && -1 <= j < i
    requires Sorted(knots) && k + 1 < |knots| && knots[k] as real <= frame <= knots[k + 1] as real
    requires NonNegative(N)
    ensures NonNegative(SweepFrom(N, k, degree, i, j, frame, knots))
    decreases j + 1
  {
    if j >= 0 {
      var a := Alpha(k, degree, i, j, frame, knots);
      AlphaInUnit(k, degree, i, j, frame, knots);
      ProductBounds(N[j], a);
      SweepNonNegative(Update(N, j, a), k, degree, i, j - 1, frame, knots);
    }
  }

  lemma {:induction false} RowsNonNegative(N: seq<real>, k: nat, degree: nat, i: nat, frame: real, knots: seq<byte>)
    requires |N| == 5 && BasisDefined(k, degree, knots) && 1 <= i <= degree + 1
    requires Sorted(knots) && k + 1 < |knots| && knots[k] as real <= frame <= knots[k + 1] as real
    requires NonNegative(N)
    ensures NonNegative(RowsFrom(N, k, degree, i, frame, knots))
    decreases degree + 1 - i
  {
    if i <= degree {
      SweepNonNegative(N, k, degree, i, i - 1, frame, knots);
      RowsNonNegative(SweepFrom(N, k, degree, i, i - 1, frame, knots), k, degree, i + 1, frame, knots);
    }
  }

  /** Inside its span the curve is a convex combination: no weight is negative. */
  lemma BasisNonNegative(k: nat, degree: nat, frame: real, knots: seq<byte>)
    requires BasisDefined(k, degree, knots)
    requires Sorted(knots) && k + 1 < |knots| && knots[k] as real <= frame <= knots[k + 1] as real
    ensures NonNegative(Basis(k, degree, frame, knots))
  {
    RowsNonNegative(InitialWeights, k, degree, 1, frame, knots);
  }

  /** The body of the inner loop on the weight buffer. */
  method WeightStep(N: array<real>, j: nat, A: real)
    requires N.Length == 5 && j < 4
    modifies N
    ensures N[..] == Update(old(N[..]), j, A)
  {
    ghost var before := N[..];
    var tmp := N[j] * A;
    N[j + 1] := N[j + 1] + N[j] - tmp;
    N[j] := tmp;
    assert forall p :: 0 <= p < 5 ==> N[..][p] == Update(before, j, A)[p];
  }

  /** The weight loops of GetSinglePoint, on a five-element buffer. */
  method ComputeBasis(k: nat, degree: nat, frame: real, knots: seq<byte>) returns (weights: seq<real>)
    requires BasisDefined(k, degree, knots)
    ensures weights == Basis(k, degree, frame, knots)
  {
    var N := new real[5];
    N[0], N[1], N[2], N[3], N[4] := 1.0, 0.0, 0.0, 0.0, 0.0;
    assert N[..] == InitialWeights;
    var i := 1;
    while i <= degree
      invariant 1 <= i <= degree + 1
      invariant RowsFrom(N[..], k, degree, i, frame, knots) == Basis(k, degree, frame, knots)
    {
      var j := i - 1;
      while j >= 0
        invariant -1 <= j < i
        invariant RowsFrom(SweepFrom(N[..], k, degree, i, j, frame, knots), k, degree, i + 1, frame, knots)
                  == Basis(k, degree, frame, knots)
      {
        assert knots[k - j] != knots[k + i - j];
        var A := (frame - knots[k - j] as real) / (knots[k + i - j] as real - knots[k - j] as real);
        assert A == Alpha(k, degree, i, j, frame, knots);
        ghost var before := N[..];
        WeightStep(N, j, A);
        assert SweepFrom(before, k, degree, i, j, frame, knots) == SweepFrom(N[..], k, degree, i, j - 1, frame, knots);
        j := j - 1;
      }
      i := i + 1;
    }
    weights := N[..];
  }

  // ---------------------------------------------------------------------------
  // Blending control points
  // ---------------------------------------------------------------------------

  /** The sum over i < count of cPoints[k - i] * N[i]. */
  function Blend(cPoints: seq<real>, k: nat, N: seq<real>, count: nat): real
    requires count <= |N| && count <= k + 1 && k < |cPoints|
  {
    if count == 0 then 0.0
    else Blend(cPoints, k, N, count - 1) + cPoints[k - (count - 1)] * N[count - 1]
  }

  /** The quaternion sum over i < count of cPoints[k - i] * N[i], component by component. */
  function QBlend(cPoints: seq<Quat>, k: nat, N: seq<real>, count: nat): Quat
    requires count <= |N| && count <= k + 1 && k < |cPoints|
  {
    if count == 0 then ZeroQuat
    else QBlend(cPoints, k, N, count - 1).Add(cPoints[k - (count - 1)].Scale(N[count - 1]))
  }

  function PrefixSum(N: seq<real>, count: nat): real
    requires count <= |N|
  {
    if count == 0 then 0.0 else PrefixSum(N, count - 1) + N[count - 1]
  }

  /** Component c of every control point. */
  function Column(cPoints: seq<Quat>, c: nat): (r: seq<real>)
    requires c < 4
    ensures |r| == |cPoints|
  {
    seq(|cPoints|, i requires 0 <= i < |cPoints| => cPoints[i].Get(c))
  }

  /** Blending quaternions is blending each of their components. */
  lemma {:induction false} QBlendByComponent(cPoints: seq<Quat>, k: nat, N: seq<real>, count: nat, c: nat)
    requires count <= |N| && count <= k + 1 && k < |cPoints| && c < 4
    ensures QBlend(cPoints, k, N, count).Get(c) == Blend(Column(cPoints, c), k, N, count)
  {
    if count > 0 {
      QBlendByComponent(cPoints, k, N, count - 1, c);
      var p := cPoints[k - (count - 1)];
      assert Column(cPoints, c)[k - (count - 1)] == p.Get(c);
      AddScaleGet(QBlend(cPoints, k, N, count - 1), p, N[count - 1], c);
    }
  }

  lemma AddScaleGet(a: Quat, b: Quat, s: real, c: nat)
    requires c < 4
    ensures a.Add(b.Scale(s)).Get(c) == a.Get(c) + b.Get(c) * s
  {
  }

  /** Equal control points blend to their common value times the total weight. */
  lemma {:induction false} BlendConstant(cPoints: seq<real>, k: nat, N: seq<real>, count: nat, v: real)
    requires count <= |N| && count <= k + 1 && k < |cPoints|
    requires forall i :: k + 1 - count <= i <= k ==> cPoints[i] == v
    ensures Blend(cPoints, k, N, count) == v * PrefixSum(N, count)
  {
    if count > 0 {
      BlendConstant(cPoints, k, N, count - 1, v);
    }
  }

  lemma PrefixSumAll(N: seq<real>, degree: nat)
    requires |N| == 5 && degree <= 4 && ZeroFrom(N, degree + 1)
    ensures PrefixSum(N, degree + 1) == Sum(N)
  {
    assert PrefixSum(N, 1) == N[0];
    assert PrefixSum(N, 2) == N[0] + N[1];
    assert PrefixSum(N, 3) == N[0] + N[1] + N[2];
    assert PrefixSum(N, 4) == N[0] + N[1] + N[2] + N[3];
    assert PrefixSum(N, 5) == Sum(N);
  }

  /** A curve whose control points in the span all equal v takes the value v. */
  lemma ConstantCurve(k: nat, degree: nat, frame: real, knots: seq<byte>, cPoints: seq<real>, v: real)
    requires BasisDefined(k, degree, knots) && k < |cPoints|
    requires forall i :: k - degree <= i <= k ==> cPoints[i] == v
    ensures Blend(cPoints, k, Basis(k, degree, frame, knots), degree + 1) == v
  {
    BasisPartition(k, degree, frame, knots);
    PartitionBlendConstant(cPoints, k, Basis(k, degree, frame, knots), degree, v);
  }

  /** Weights that sum to one and vanish past degree + 1 reproduce a constant. */
  lemma PartitionBlendConstant(cPoints: seq<real>, k: nat, N: seq<real>, degree: nat, v: real)
    requires |N| == 5 && degree <= 4 && degree <= k && k < |cPoints|
    requires Sum(N) == 1.0 && ZeroFrom(N, degree + 1)
    requires forall i :: k - degree <= i <= k ==> cPoints[i] == v
    ensures Blend(cPoints, k, N, degree + 1) == v
  {
    PrefixSumAll(N, degree);
    BlendConstant(cPoints, k, N, degree + 1, v);
  }

  /** GetSinglePoint for scalar control points: the basis-weighted sum of the degree + 1
      control points ending at the span index; at degree 0 the control point itself. */
  method GetSinglePoint(knotSpanIndex: nat, degree: nat, frame: real, knots: seq<byte>, cPoints: seq<real>)
    returns (retVal: real)
    requires BasisDefined(knotSpanIndex, degree, knots) && knotSpanIndex < |cPoints|
    ensures retVal == Blend(cPoints, knotSpanIndex, Basis(knotSpanIndex, degree, frame, knots), degree + 1)
    ensures degree == 0 ==> retVal == cPoints[knotSpanIndex]
  {
    var N := ComputeBasis(knotSpanIndex, degree, frame, knots);
    retVal := BlendWeights(cPoints, knotSpanIndex, N, degree + 1);
    if degree == 0 {
      DegreeZeroBlend(knotSpanIndex, frame, knots, cPoints);
    }
  }

  /** The accumulation loop of GetSinglePoint. */
  method BlendWeights(cPoints: seq<real>, k: nat, N: seq<real>, count: nat) returns (retVal: real)
    requires count <= |N| && count <= k + 1 && k < |cPoints|
    ensures retVal == Blend(cPoints, k, N, count)
  {
    retVal := 0.0;
    for i := 0 to count
      invariant retVal == Blend(cPoints, k, N, i)
    {
      retVal := retVal + cPoints[k - i] * N[i];
    }
  }

  /** At degree 0 the only weight is 1, so the blend is the control point itself. */
  lemma DegreeZeroBlend(k: nat, frame: real, knots: seq<byte>, cPoints: seq<real>)
    requires BasisDefined(k, 0, knots) && k < |cPoints|
    ensures Blend(cPoints, k, Basis(k, 0, frame, knots), 1) == cPoints[k]
  {
    assert Basis(k, 0, frame, knots) == InitialWeights;
    assert Blend(cPoints, k, InitialWeights, 1) == 0.0 + cPoints[k] * 1.0;
  }

  /** GetSinglePoint for quaternion control points. */
  method GetSinglePointQuat(knotSpanIndex: nat, degree: nat, frame: real, knots: seq<byte>, cPoints: seq<Quat>)
    returns (retVal: Quat)
    requires BasisDefined(knotSpanIndex, degree, knots) && knotSpanIndex < |cPoints|
    ensures retVal == QBlend(cPoints, knotSpanIndex, Basis(knotSpanIndex, degree, frame, knots), degree + 1)
    ensures degree == 0 ==> retVal == cPoints[knotSpanIndex]
  {
    var N := ComputeBasis(knotSpanIndex, degree, frame, knots);
    retVal := QBlendWeights(cPoints, knotSpanIndex, N, degree + 1);
    if degree == 0 {
      DegreeZeroQBlend(knotSpanIndex, frame, knots, cPoints);
    }
  }

  /** The accumulation loop of the quaternion GetSinglePoint. */
  method QBlendWeights(cPoints: seq<Quat>, k: nat, N: seq<real>, count: nat) returns (retVal: Quat)
    requires count <= |N| && count <= k + 1 && k < |cPoints|
    ensures retVal == QBlend(cPoints, k, N, count)
  {
    retVal := ZeroQuat;
    for i := 0 to count
      invariant retVal == QBlend(cPoints, k, N, i)
    {
      retVal := retVal.Add(cPoints[k - i].Scale(N[i]));
    }
  }

  lemma DegreeZeroQBlend(k: nat, frame: real, knots: seq<byte>, cPoints: seq<Quat>)
    requires BasisDefined(k, 0, knots) && k < |cPoints|
    ensures QBlend(cPoints, k, Basis(k, 0, frame, knots), 1) == cPoints[k]
  {
    assert Basis(k, 0, frame, knots) == InitialWeights;
    assert QBlend(cPoints, k, InitialWeights, 1) == ZeroQuat.Add(cPoints[k].Scale(1.0));
  }
}
