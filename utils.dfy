/**
 * utils.py: the radial averager (construction, the call that bins an image, bin centres and
 * pixel counts) and the run-number formatting.
 */
module Utils {
  import opened Wrappers
  import opened Binning
  import opened Decimal

  /** A numpy array: its shape and its pixels in flattened (row-major) order. */
  datatype Frame = Frame(shape: seq<nat>, pixels: seq<real>)

  function Size(shape: seq<nat>): nat {
    if |shape| == 0 then 1 else shape[0] * Size(shape[1..])
  }

  predicate WellShaped(f: Frame) {
    |f.pixels| == Size(f.shape)
  }

  datatype ConstructionError =
    | EmptyField            // max() of an empty coordinate array raises
    | DegenerateRange       // zero range: zero bin width, NaN indices that bincount rejects
    | BadBinAssignment      // the assertion that every index fits in n_bins
    | WeightsLengthMismatch // bincount's weights differ in length from the assignments

  datatype CallError = ImageQShapeMismatch | ImageMaskShapeMismatch

  function IntSeqMax(a: seq<int>): (m: int)
    requires |a| > 0
    ensures forall i :: 0 <= i < |a| ==> a[i] <= m
    ensures exists i :: 0 <= i < |a| && a[i] == m
  {
    if |a| == 1 then a[0]
    else
      var rest := IntSeqMax(a[1..]);
      assert forall i :: 1 <= i < |a| ==> a[i] == a[1..][i - 1];
      if a[0] >= rest then a[0] else rest
  }

  /** Construction exactly as the source writes it: floor indices, then the n_bins >= max + 1 check. */
  function ConstructAsWritten(q: seq<real>, weightCount: nat, n: int): (r: Result<seq<int>, ConstructionError>)
    ensures |q| == 0 ==> r == Failure(EmptyField)
    ensures |q| > 0 && SeqMin(q) == SeqMax(q) ==> r == Failure(DegenerateRange)
    ensures |q| > 0 && SeqMin(q) < SeqMax(q) && n <= 0 ==> r == Failure(BadBinAssignment)
    ensures r.Success? ==> Binnable(q, n) && weightCount == |q| && r.value == FloorAssignments(q, n)
  {
    if |q| == 0 then Failure(EmptyField)
    else if SeqMin(q) == SeqMax(q) then Failure(DegenerateRange)
    else if n <= 0 then Failure(BadBinAssignment)
    else
      var a := FloorAssignments(q, n);
      if n < IntSeqMax(a) + 1 then Failure(BadBinAssignment)
      else if weightCount != |q| then Failure(WeightsLengthMismatch)
      else Success(a)
  }

  /** Under exact arithmetic the source's construction never succeeds: the maximum pixel gets index n. */
  lemma AsWrittenConstructionAlwaysFails(q: seq<real>, weightCount: nat, n: int)
    ensures ConstructAsWritten(q, weightCount, n).Failure?
    ensures Binnable(q, n) ==> ConstructAsWritten(q, weightCount, n) == Failure(BadBinAssignment)
  {
    if Binnable(q, n) {
      TopPixelOverflows(q, n);
    }
  }

  /** The field [0, 1, 2, 3] with two bins: indices [0, 0, 1, 2], and construction aborts. */
  lemma SmallFieldOverflows()
    ensures Binnable([0.0, 1.0, 2.0, 3.0], 2)
    ensures FloorAssignments([0.0, 1.0, 2.0, 3.0], 2) == [0, 0, 1, 2]
    ensures ConstructAsWritten([0.0, 1.0, 2.0, 3.0], 4, 2) == Failure(BadBinAssignment)
  {
    var q := [0.0, 1.0, 2.0, 3.0];
    assert SeqMin(q[3..]) == 3.0;
    assert SeqMin(q[2..]) == 2.0;
    assert SeqMin(q[1..]) == 1.0;
    assert SeqMin(q) == 0.0;
    assert SeqMax(q[3..]) == 3.0;
    assert SeqMax(q[2..]) == 3.0;
    assert SeqMax(q[1..]) == 3.0;
    assert SeqMax(q) == 3.0;
    assert BinWidth(q, 2) == 1.5;
    var a := FloorAssignments(q, 2);
    assert a[1] == (1.0 / 1.5).Floor;
    assert a[2] == (2.0 / 1.5).Floor;
    assert a[3] == (3.0 / 1.5).Floor;
    assert a == [0, 0, 1, 2];
    AsWrittenConstructionAlwaysFails(q, 4, 2);
  }

  /** Construction with the maximum pixel clamped into the last bin, so the index check always passes. */
  function Construct(q: seq<real>, weightCount: nat, n: int): (r: Result<seq<int>, ConstructionError>)
    ensures r.Success? <==> Binnable(q, n) && weightCount == |q|
    ensures |q| == 0 ==> r == Failure(EmptyField)
    ensures |q| > 0 && SeqMin(q) == SeqMax(q) ==> r == Failure(DegenerateRange)
    ensures |q| > 0 && SeqMin(q) < SeqMax(q) && n <= 0 ==> r == Failure(BadBinAssignment)
    ensures Binnable(q, n) && weightCount != |q| ==> r == Failure(WeightsLengthMismatch)
    ensures r.Success? ==> r.value == BinAssignments(q, n)
    ensures r.Success? ==> |r.value| == |q|
    ensures r.Success? ==> forall i :: 0 <= i < |q| ==> 0 <= r.value[i] < n
    ensures r.Success? ==> n >= IntSeqMax(r.value) + 1
    ensures r.Success? ==> exists i :: 0 <= i < |q| && r.value[i] == n - 1
  {
    if |q| == 0 then Failure(EmptyField)
    else if SeqMin(q) == SeqMax(q) then Failure(DegenerateRange)
    else if n <= 0 then Failure(BadBinAssignment)
    else if weightCount != |q| then Failure(WeightsLengthMismatch)
    else
      BinAssignmentsInRange(q, n);
      Success(BinAssignments(q, n))
  }

  /** numpy's weighted bincount: one accumulating pass over the pixels. */
  method BinCount(a: seq<int>, w: seq<real>) returns (counts: array<real>)
    requires |a| == |w|
    requires forall i :: 0 <= i < |a| ==> a[i] >= 0
    ensures fresh(counts)
    ensures counts.Length == BinCountLength(a)
    ensures forall b :: 0 <= b < counts.Length ==> counts[b] == WeightInBin(a, w, b)
  {
    counts := new real[BinCountLength(a)](_ => 0.0);
    var i := 0;
    while i < |a|
      invariant 0 <= i <= |a|
      invariant forall b :: 0 <= b < counts.Length ==> counts[b] == WeightInBin(a[..i], w[..i], b)
    {
      assert a[..i + 1][..i] == a[..i];
      assert w[..i + 1][..i] == w[..i];
      counts[a[i]] := counts[a[i]] + w[i];
      i := i + 1;
    }
    assert a[..i] == a;
    assert w[..i] == w;
  }

  /** `(bincount + eps)[:n]` built from the counts the loop produced is the normalisation. */
  lemma TruncatedCountsAreNormalization(c: seq<real>, a: seq<int>, mask: seq<real>, n: int)
    requires |a| == |mask| && n > 0
    requires forall i :: 0 <= i < |a| ==> a[i] >= 0
    requires |c| == BinCountLength(a)
    requires forall b :: 0 <= b < |c| ==> c[b] == WeightInBin(a, mask, b)
    ensures var e := seq(|c|, b requires 0 <= b < |c| => c[b] + Eps);
      e[..if n < |e| then n else |e|] == Normalization(a, mask, n)
  {
    var e := seq(|c|, b requires 0 <= b < |c| => c[b] + Eps);
    var k := if n < |e| then n else |e|;
    var norm := Normalization(a, mask, n);
    assert |norm| == k;
    forall b | 0 <= b < k ensures e[..k][b] == norm[b] {
      assert e[b] == c[b] + Eps;
    }
  }

  /** `(np.bincount(assignments, weights=mask) + eps)[:n]`, computed by the counting pass. */
  method NormalizationOf(a: seq<int>, mask: seq<real>, n: int) returns (norm: seq<real>)
    requires |a| == |mask| && AssignmentsFit(a, n) && NonNegative(mask)
    ensures norm == Normalization(a, mask, n)
    ensures |norm| == n && Positive(norm)
  {
    var counts := BinCount(a, mask);
    var c := counts[..];
    var e := seq(|c|, b requires 0 <= b < |c| => c[b] + Eps);
    norm := e[..if n < |e| then n else |e|];
    TruncatedCountsAreNormalization(c, a, mask, n);
    NormalizationPositive(a, mask, n);
  }

  class RadialAverager {
    var qValues: Frame
    var mask: Frame
    var nBins: int
    var qRange: real
    var binWidth: real
    var binAssignments: seq<int>
    var normalizationArray: seq<real>

    /** The state construction leaves, which no call changes. */
    ghost predicate Valid()
      reads this
    {
      && WellShaped(qValues) && WellShaped(mask)
      && |mask.pixels| == |qValues.pixels|
      && NonNegative(mask.pixels)
      && Binnable(qValues.pixels, nBins)
      && qRange == SeqMax(qValues.pixels) - SeqMin(qValues.pixels)
      && binWidth == BinWidth(qValues.pixels, nBins)
      && binAssignments == BinAssignments(qValues.pixels, nBins)
      && AssignmentsFit(binAssignments, nBins)
      && normalizationArray == Normalization(binAssignments, mask.pixels, nBins)
      && |normalizationArray| == nBins
      && Positive(normalizationArray)
    }

    constructor (q: Frame, m: Frame, n: int)
      requires WellShaped(q) && WellShaped(m)
      requires NonNegative(m.pixels)
      requires Binnable(q.pixels, n) && |m.pixels| == |q.pixels|
      ensures Valid()
      ensures qValues == q && mask == m && nBins == n
    {
      var assignments := BinAssignments(q.pixels, n);
      BinAssignmentsFit(q.pixels, n);
      var norm := NormalizationOf(assignments, m.pixels, n);
      qValues, mask, nBins := q, m, n;
      qRange := SeqMax(q.pixels) - SeqMin(q.pixels);
      binWidth := BinWidth(q.pixels, n);
      binAssignments, normalizationArray := assignments, norm;
    }

    /** The source's constructor, with its exceptions as the failure case. */
    static method Create(q: Frame, m: Frame, n: int) returns (r: Result<RadialAverager, ConstructionError>)
      requires WellShaped(q) && WellShaped(m)
      requires NonNegative(m.pixels)
      ensures r.Failure? ==> Construct(q.pixels, |m.pixels|, n) == Failure(r.error)
      ensures r.Success? ==> Construct(q.pixels, |m.pixels|, n).Success?
      ensures r.Success? ==> fresh(r.value) && r.value.Valid()
      ensures r.Success? ==> r.value.qValues == q && r.value.mask == m && r.value.nBins == n
    {
      var check := Construct(q.pixels, |m.pixels|, n);
      if check.Failure? {
        return Failure(check.error);
      }
      var averager := new RadialAverager(q, m, n);
      return Success(averager);
    }

    /** `__call__`: the mask-weighted mean intensity of every bin, or the shape error. */
    method Call(image: Frame) returns (r: Result<seq<real>, CallError>)
      requires Valid() && WellShaped(image)
      ensures image.shape != qValues.shape ==> r == Failure(ImageQShapeMismatch)
      ensures image.shape == qValues.shape && image.shape != mask.shape ==> r == Failure(ImageMaskShapeMismatch)
      ensures image.shape == qValues.shape == mask.shape ==>
        && r.Success? && |r.value| == nBins
        && r == Success(Profile(binAssignments, Combine(image.pixels, mask.pixels), normalizationArray))
    {
      if image.shape != qValues.shape {
        return Failure(ImageQShapeMismatch);
      }
      if image.shape != mask.shape {
        return Failure(ImageMaskShapeMismatch);
      }
      var weights := Combine(image.pixels, mask.pixels);
      var binValues := BinCount(binAssignments, weights);
      assert binValues.Length == nBins;
      forall b | 0 <= b < binValues.Length {
        binValues[b] := binValues[b] / normalizationArray[b];
      }
      assert binValues[..] == Profile(binAssignments, weights, normalizationArray);
      return Success(binValues[..]);
    }

    /** `bin_centers`: n equally spaced centres, half a bin in from either end of the range. */
    function BinCenters(): (c: seq<real>)
      reads this
      requires Valid()
      ensures |c| == nBins
      ensures c[0] == SeqMin(qValues.pixels) + binWidth / 2.0
      ensures c[nBins - 1] == SeqMax(qValues.pixels) - binWidth / 2.0
      ensures forall b :: 0 <= b < nBins - 1 ==> c[b + 1] - c[b] == binWidth
      ensures forall b, b' :: 0 <= b < b' < nBins ==> c[b] < c[b']
    {
      Centers(SeqMin(qValues.pixels), SeqMax(qValues.pixels), nBins)
    }

    /** `pixel_counts`: per bin, eps plus the mask weight of its pixels; together they hold the whole mask. */
    function PixelCounts(): (p: seq<real>)
      reads this
      requires Valid()
      ensures |p| == nBins
      ensures forall b :: 0 <= b < nBins ==> p[b] == Eps + WeightInBin(binAssignments, mask.pixels, b)
      ensures forall b :: 0 <= b < nBins ==> p[b] > 0.0
      ensures Sum(AboveEps(p)) == Sum(mask.pixels)
    {
      NormalizationShape(binAssignments, mask.pixels, nBins);
      NormalizationConservesMask(binAssignments, mask.pixels, nBins);
      normalizationArray
    }
  }

  /** `(arange(n) + 0.5) * bin_width + qmin` for the range [qmin, qmax] cut into n bins. */
  function Centers(qmin: real, qmax: real, n: int): (c: seq<real>)
    requires qmin < qmax && n > 0
    ensures |c| == n
    ensures c[0] == qmin + SpanWidth(qmin, qmax, n) / 2.0
    ensures c[n - 1] == qmax - SpanWidth(qmin, qmax, n) / 2.0
    ensures forall b :: 0 <= b < n - 1 ==> c[b + 1] - c[b] == SpanWidth(qmin, qmax, n)
    ensures forall b, b' :: 0 <= b < b' < n ==> c[b] < c[b']
  {
    var w := SpanWidth(qmin, qmax, n);
    SpanWidthCoversRange(qmin, qmax, n);
    var c := seq(n, b requires 0 <= b < n => (b as real + 0.5) * w + qmin);
    forall b, b' | 0 <= b < b' < n ensures c[b] < c[b'] {
      assert c[b'] - c[b] == (b' - b) as real * w;
    }
    assert c[n - 1] == (n as real) * w - w / 2.0 + qmin;
    c
  }

  /** Calling the averager twice on one image gives the same profile: a call changes no field. */
  method RepeatedCallsAgree(averager: RadialAverager, image: Frame) returns (first: Result<seq<real>, CallError>, second: Result<seq<real>, CallError>)
    requires averager.Valid() && WellShaped(image)
    ensures first == second
  {
    first := averager.Call(image);
    second := averager.Call(image);
  }

  /** `str(num)` left-padded with '0' to at least `width` characters. */
  function ZeroPadded(s: string, width: nat): string {
    if |s| < width then Zeros(width - |s|) + s else s
  }

  /** `runNumToString`: prepend '0' until the string has four characters. */
  method RunNumToString(num: int) returns (numstr: string)
    ensures numstr == ZeroPadded(IntToString(num), 4)
  {
    ghost var s := IntToString(num);
    numstr := IntToString(num);
    while |numstr| < 4
      invariant |s| <= |numstr|
      invariant numstr == Zeros(|numstr| - |s|) + s
      invariant |s| < 4 ==> |numstr| <= 4
      invariant |s| >= 4 ==> numstr == s
      decreases 4 - |numstr|
    {
      assert "0" + (Zeros(|numstr| - |s|) + s) == Zeros(|numstr| - |s| + 1) + s;
      numstr := "0" + numstr;
    }
  }

  /** For a run number n >= 0 the padded string has max(4, len(str(n))) digits, ends in str(n) and reads back as n. */
  lemma RunNumberStringReadsBack(n: nat)
    ensures var s, p := NatToString(n), ZeroPadded(NatToString(n), 4);
      && |p| == (if |s| < 4 then 4 else |s|)
      && p[|p| - |s|..] == s
      && AllDigits(p)
      && DecimalValue(p) == n
  {
    var s := NatToString(n);
    NatToStringCanonical(n);
    if |s| < 4 {
      LeadingZerosKeepValue(4 - |s|, s);
      assert ZeroPadded(s, 4) == Zeros(4 - |s|) + s;
    }
  }

  /** Distinct run numbers >= 0 give distinct run strings, so run files never collide. */
  lemma RunNumberStringInjective(a: nat, b: nat)
    requires ZeroPadded(NatToString(a), 4) == ZeroPadded(NatToString(b), 4)
    ensures a == b
  {
    RunNumberStringReadsBack(a);
    RunNumberStringReadsBack(b);
  }
}
