/**
 * Mask/masking_py3.py: `maskmaker.__call__`, range-then-outlier mask refinement. The base mask
 * keeps the pixels of a reference image strictly inside (lowerbound, upperbound) that the old
 * mask accepts; the reference image itself is multiplied by that mask IN PLACE; mean and
 * population variance are taken over the nonzero entries of the zeroed image; and the final
 * mask keeps the base pixels strictly within tolerance standard deviations of the mean.
 *
 * The standard deviation is not computed: `mean - tol*s < x < mean + tol*s` with `s = sqrt(var)`
 * is stated as `tol > 0 && (x - mean)^2 < tol^2 * var`, and BandMatchesDeviation proves the two
 * agree for any `s >= 0` with `s * s == var`.
 */
module Masking {
  import opened Wrappers
  import opened Binning
  import opened MaskOps

  /** `image` is never bound when `img` names neither array. */
  datatype MaskError = UnboundImage(img: string)

  /** The nonzero entries, in order: `image[image != 0]`. */
  function NonZero(s: seq<real>): (r: seq<real>)
    ensures |r| <= |s|
    ensures forall x :: x in r <==> x in s && x != 0.0
  {
    if |s| == 0 then []
    else
      assert s == s[..|s| - 1] + [s[|s| - 1]];
      if s[|s| - 1] != 0.0 then NonZero(s[..|s| - 1]) + [s[|s| - 1]] else NonZero(s[..|s| - 1])
  }

  lemma {:induction false} NonZeroDistributes(a: seq<real>, b: seq<real>)
    ensures NonZero(a + b) == NonZero(a) + NonZero(b)
  {
    if |b| > 0 {
      var c := b[..|b| - 1];
      assert (a + b)[..|a + b| - 1] == a + c;
      NonZeroDistributes(a, c);
    } else {
      assert a + b == a;
    }
  }

  function SquaredDeviations(s: seq<real>, m: real): (d: seq<real>)
    ensures |d| == |s| && NonNegative(d)
  {
    var d := seq(|s|, i requires 0 <= i < |s| => (s[i] - m) * (s[i] - m));
    assert forall i :: 0 <= i < |s| ==> d[i] >= 0.0 by {
      forall i | 0 <= i < |s| ensures d[i] >= 0.0 {
        SquareNonNegative(s[i] - m);
      }
    }
    d
  }

  lemma SquareNonNegative(x: real)
    ensures x * x >= 0.0
  {
    if x > 0.0 {
      MulPositive(x, x);
    } else if x < 0.0 {
      MulPositive(-x, -x);
      assert (-x) * (-x) == x * x;
    }
  }

  /** `np.average` and (the square of) `np.std` of the survivors. */
  datatype Stats = Stats(mean: real, variance: real)

  /**
   * Mean and population variance of the nonzero entries; None when there are none, where numpy
   * yields NaN and every comparison against it is false.
   */
  function SurvivorStats(masked: seq<real>): (st: Option<Stats>)
    ensures st.None? <==> NonZero(masked) == []
    ensures st.Some? ==> st.value.variance >= 0.0
  {
    var nz := NonZero(masked);
    if |nz| == 0 then None
    else
      var count := |nz| as real;
      var mean := Sum(nz) / count;
      var squares := SquaredDeviations(nz, mean);
      SumNonNegative(squares);
      QuotientNonNegative(Sum(squares), count);
      Some(Stats(mean, Sum(squares) / count))
  }

  lemma QuotientNonNegative(a: real, c: real)
    requires a >= 0.0 && c > 0.0
    ensures a / c >= 0.0
  {
  }

  /** `(image > mean - tol*sigma) * (image < mean + tol*sigma)` on one pixel. */
  function InBand(x: real, st: Option<Stats>, tol: real): (r: real)
    ensures r == 0.0 || r == 1.0
  {
    match st
    case None => 0.0
    case Some(s) =>
      if tol > 0.0 && (x - s.mean) * (x - s.mean) < tol * tol * s.variance then 1.0 else 0.0
  }

  /** `(image < upperbound) * (image > lowerbound) * self.oldmask`. */
  function BaseMask(image: seq<real>, oldmask: seq<real>, lo: real, hi: real): (base: seq<real>)
    requires |image| == |oldmask|
    ensures |base| == |image|
    ensures forall i :: 0 <= i < |image| ==> base[i] == if lo < image[i] < hi then oldmask[i] else 0.0
  {
    seq(|image|, i requires 0 <= i < |image| => RangeTest(image[i], lo, hi) * oldmask[i])
  }

  /** The reference image after `image *= newmask`. */
  function Masked(image: seq<real>, oldmask: seq<real>, lo: real, hi: real): (m: seq<real>)
    requires |image| == |oldmask|
    ensures |m| == |image|
    ensures forall i :: 0 <= i < |image| ==> m[i] == if lo < image[i] < hi then image[i] * oldmask[i] else 0.0
  {
    Combine(image, BaseMask(image, oldmask, lo, hi))
  }

  /** `newmask *= (image > lb) * (image < ub)` with the statistics of the zeroed image. */
  function Refine(base: seq<real>, masked: seq<real>, tol: real): (r: seq<real>)
    requires |base| == |masked|
    ensures |r| == |base|
  {
    var st := SurvivorStats(masked);
    seq(|base|, i requires 0 <= i < |base| => base[i] * InBand(masked[i], st, tol))
  }

  /** The mask the call returns for a reference image. */
  function FinalMask(image: seq<real>, oldmask: seq<real>, lo: real, hi: real, tol: real): (r: seq<real>)
    requires |image| == |oldmask|
    ensures |r| == |image|
    ensures forall i :: 0 <= i < |image| ==> r[i] == 0.0 || r[i] == BaseMask(image, oldmask, lo, hi)[i]
    ensures SurvivorStats(Masked(image, oldmask, lo, hi)).None? ==> forall i :: 0 <= i < |image| ==> r[i] == 0.0
  {
    Refine(BaseMask(image, oldmask, lo, hi), Masked(image, oldmask, lo, hi), tol)
  }

  /** numpy's in-place `a *= b`. */
  method MultiplyInPlace(a: array<real>, b: seq<real>)
    requires a.Length == |b|
    modifies a
    ensures a[..] == Combine(old(a[..]), b)
  {
    ghost var before := a[..];
    forall i | 0 <= i < a.Length {
      a[i] := a[i] * b[i];
    }
    assert forall i :: 0 <= i < a.Length ==> a[..][i] == Combine(before, b)[i];
  }

  class MaskMaker {
    /** The reference images `self.dark` and `self.xray`, which the call multiplies in place. */
    var dark: array<real>
    var xray: array<real>
    var oldmask: seq<real>

    ghost predicate Valid()
      reads this
    {
      dark != xray && dark.Length == |oldmask| && xray.Length == |oldmask|
    }

    /** The reference images as the (left out) file reader would deliver them. */
    constructor (darkImage: seq<real>, xrayImage: seq<real>, oldmask: seq<real>)
      requires |darkImage| == |oldmask| && |xrayImage| == |oldmask|
      ensures Valid() && fresh(dark) && fresh(xray)
      ensures dark[..] == darkImage && xray[..] == xrayImage && this.oldmask == oldmask
    {
      dark := new real[|darkImage|](i requires 0 <= i < |darkImage| => darkImage[i]);
      xray := new real[|xrayImage|](i requires 0 <= i < |xrayImage| => xrayImage[i]);
      this.oldmask := oldmask;
    }

    /**
     * `__call__`: the refined mask of the named reference image, which is left zeroed outside
     * the base mask; the other reference image is untouched.
     */
    method Call(img: string, upperbound: real, lowerbound: real, tolerance: real) returns (r: Result<seq<real>, MaskError>)
      requires Valid()
      modifies dark, xray
      ensures Valid()
      ensures img != "dark" && img != "xray" ==>
        r == Failure(UnboundImage(img)) && unchanged(dark) && unchanged(xray)
      ensures img == "dark" ==>
        && r == Success(FinalMask(old(dark[..]), oldmask, lowerbound, upperbound, tolerance))
        && dark[..] == Masked(old(dark[..]), oldmask, lowerbound, upperbound)
        && unchanged(xray)
      ensures img == "xray" ==>
        && r == Success(FinalMask(old(xray[..]), oldmask, lowerbound, upperbound, tolerance))
        && xray[..] == Masked(old(xray[..]), oldmask, lowerbound, upperbound)
        && unchanged(dark)
    {
      var image: array<real>;
      if img == "dark" {
        image := dark;
      } else if img == "xray" {
        image := xray;
      } else {
        return Failure(UnboundImage(img));
      }
      var refined := RefineInPlace(image, oldmask, lowerbound, upperbound, tolerance);
      return Success(refined);
    }
  }

  /**
   * The body of `__call__` once the image is chosen: zero the image outside the base mask in
   * place, then multiply a copy of the base mask by the tolerance band of the survivors.
   */
  method RefineInPlace(image: array<real>, oldmask: seq<real>, lowerbound: real, upperbound: real, tolerance: real)
    returns (refined: seq<real>)
    requires image.Length == |oldmask|
    modifies image
    ensures image[..] == Masked(old(image[..]), oldmask, lowerbound, upperbound)
    ensures refined == FinalMask(old(image[..]), oldmask, lowerbound, upperbound, tolerance)
  {
    var reference := image[..];
    var base := BaseMask(reference, oldmask, lowerbound, upperbound);
    var newmask := new real[|base|](i requires 0 <= i < |base| => base[i]);
    MultiplyInPlace(image, base);
    var masked := image[..];
    assert masked == Masked(reference, oldmask, lowerbound, upperbound);
    var stats := SurvivorStats(masked);
    var band := seq(|base|, i requires 0 <= i < |base| => InBand(masked[i], stats, tolerance));
    assert newmask[..] == base;
    MultiplyInPlace(newmask, band);
    forall i | 0 <= i < newmask.Length
      ensures newmask[i] == FinalMask(reference, oldmask, lowerbound, upperbound, tolerance)[i]
    {
      assert newmask[i] == base[i] * band[i];
      FinalMaskPixel(reference, oldmask, lowerbound, upperbound, tolerance, i);
    }
    refined := newmask[..];
  }

  /** A pixel is in the base mask iff it lies strictly inside the bounds and the old mask keeps it. */
  lemma BaseMaskAccepts(image: seq<real>, oldmask: seq<real>, lo: real, hi: real)
    requires |image| == |oldmask|
    ensures forall i :: 0 <= i < |image| ==>
      (BaseMask(image, oldmask, lo, hi)[i] != 0.0 <==> lo < image[i] < hi && oldmask[i] != 0.0)
  {
  }

  /** The in-place zeroing keeps accepted pixels of a 0/1 old mask and zeroes the rest. */
  lemma ZeroingKeepsSurvivors(image: seq<real>, oldmask: seq<real>, lo: real, hi: real)
    requires |image| == |oldmask| && IsBinary(oldmask)
    ensures IsBinary(BaseMask(image, oldmask, lo, hi))
    ensures forall i :: 0 <= i < |image| ==>
      Masked(image, oldmask, lo, hi)[i] ==
        if BaseMask(image, oldmask, lo, hi)[i] == 1.0 then image[i] else 0.0
  {
  }

  /** A pixel survives refinement iff it is in the base mask and within the tolerance band. */
  lemma FinalMaskAccepts(image: seq<real>, oldmask: seq<real>, lo: real, hi: real, tol: real)
    requires |image| == |oldmask|
    ensures var masked := Masked(image, oldmask, lo, hi);
      var st := SurvivorStats(masked);
      forall i :: 0 <= i < |image| ==>
        (FinalMask(image, oldmask, lo, hi, tol)[i] != 0.0 <==>
          && lo < image[i] < hi && oldmask[i] != 0.0
          && st.Some? && tol > 0.0
          && (masked[i] - st.value.mean) * (masked[i] - st.value.mean) < tol * tol * st.value.variance)
  {
    forall i | 0 <= i < |image| {
      FinalMaskAt(image, oldmask, lo, hi, tol, i);
    }
  }

  lemma FinalMaskAt(image: seq<real>, oldmask: seq<real>, lo: real, hi: real, tol: real, i: int)
    requires |image| == |oldmask| && 0 <= i < |image|
    ensures var masked := Masked(image, oldmask, lo, hi);
      var st := SurvivorStats(masked);
      FinalMask(image, oldmask, lo, hi, tol)[i] != 0.0 <==>
        && lo < image[i] < hi && oldmask[i] != 0.0
        && st.Some? && tol > 0.0
        && (masked[i] - st.value.mean) * (masked[i] - st.value.mean) < tol * tol * st.value.variance
  {
    var base := BaseMask(image, oldmask, lo, hi);
    var masked := Masked(image, oldmask, lo, hi);
    var st := SurvivorStats(masked);
    var band := InBand(masked[i], st, tol);
    FinalMaskPixel(image, oldmask, lo, hi, tol, i);
    var inBase := lo < image[i] < hi && oldmask[i] != 0.0;
    assert base[i] != 0.0 <==> inBase;
    InBandNonZero(masked[i], st, tol);
    var inBand := st.Some? && tol > 0.0
      && (masked[i] - st.value.mean) * (masked[i] - st.value.mean) < tol * tol * st.value.variance;
    ProductNonZero(FinalMask(image, oldmask, lo, hi, tol)[i], base[i], band, inBase, inBand);
  }

  lemma InBandNonZero(x: real, st: Option<Stats>, tol: real)
    ensures InBand(x, st, tol) != 0.0 <==>
      st.Some? && tol > 0.0 && (x - st.value.mean) * (x - st.value.mean) < tol * tol * st.value.variance
  {
  }

  lemma FinalMaskPixel(image: seq<real>, oldmask: seq<real>, lo: real, hi: real, tol: real, i: int)
    requires |image| == |oldmask| && 0 <= i < |image|
    ensures var masked := Masked(image, oldmask, lo, hi);
      FinalMask(image, oldmask, lo, hi, tol)[i] == BaseMask(image, oldmask, lo, hi)[i] * InBand(masked[i], SurvivorStats(masked), tol)
  {
  }

  /** A product is nonzero iff both factors are, whatever conditions stand for those factors. */
  lemma ProductNonZero(p: real, x: real, y: real, px: bool, py: bool)
    requires p == x * y && (x != 0.0 <==> px) && (y != 0.0 <==> py)
    ensures p != 0.0 <==> px && py
  {
  }

  /** Refinement only removes pixels: final <= base <= oldmask, and 0/1 masks stay 0/1. */
  lemma RefinementOnlyRemoves(image: seq<real>, oldmask: seq<real>, lo: real, hi: real, tol: real)
    requires |image| == |oldmask| && NonNegative(oldmask)
    ensures var base := BaseMask(image, oldmask, lo, hi);
      var final := FinalMask(image, oldmask, lo, hi, tol);
      forall i :: 0 <= i < |image| ==> 0.0 <= final[i] <= base[i] <= oldmask[i]
    ensures IsBinary(oldmask) ==>
      IsBinary(BaseMask(image, oldmask, lo, hi)) && IsBinary(FinalMask(image, oldmask, lo, hi, tol))
  {
    var base := BaseMask(image, oldmask, lo, hi);
    var masked := Masked(image, oldmask, lo, hi);
    var st := SurvivorStats(masked);
    var final := FinalMask(image, oldmask, lo, hi, tol);
    forall i | 0 <= i < |image| ensures 0.0 <= final[i] <= base[i] <= oldmask[i] {
      assert final[i] == base[i] * InBand(masked[i], st, tol);
    }
  }

  /**
   * The squared comparison is the source's two-sided test `mean - tol*s < x < mean + tol*s`
   * for the standard deviation s, the non-negative square root of the variance.
   */
  lemma BandMatchesDeviation(x: real, st: Stats, tol: real, s: real)
    requires s >= 0.0 && s * s == st.variance
    ensures InBand(x, Some(st), tol) == 1.0 <==> st.mean - tol * s < x < st.mean + tol * s
  {
    var d, t := x - st.mean, tol * s;
    assert tol * tol * st.variance == t * t;
    if tol <= 0.0 {
      MulMono(tol, 0.0, s);
    } else {
      MulMono(0.0, tol, s);
      SquareBelow(d, t);
    }
  }

  lemma MulMono(a: real, b: real, c: real)
    requires a <= b && c >= 0.0
    ensures a * c <= b * c
  {
  }

  /** For t >= 0, d^2 < t^2 iff -t < d < t. */
  lemma SquareBelow(d: real, t: real)
    requires t >= 0.0
    ensures d * d < t * t <==> -t < d < t
  {
    if d >= 0.0 {
      SquareBelowNonNegative(d, t);
    } else {
      SquareBelowNonNegative(-d, t);
      assert (-d) * (-d) == d * d;
    }
  }

  lemma SquareBelowNonNegative(e: real, t: real)
    requires e >= 0.0 && t >= 0.0
    ensures e * e < t * t <==> e < t
  {
    if e < t {
      SquareStrictlyIncreasing(e, t);
    } else if t < e {
      SquareStrictlyIncreasing(t, e);
    }
  }

  lemma SquareStrictlyIncreasing(e: real, t: real)
    requires 0.0 <= e < t
    ensures e * e < t * t
  {
    MulPositive(t - e, t + e);
    assert (t - e) * (t + e) == t * t - e * e;
  }

  lemma MulPositive(a: real, b: real)
    requires a > 0.0 && b > 0.0
    ensures a * b > 0.0
  {
  }

  /** Accepted pixels that are exactly 0 do not move the mean or the variance. */
  lemma ZerosDoNotCount(s: seq<real>, i: nat)
    requires i <= |s|
    ensures SurvivorStats(s[..i] + [0.0] + s[i..]) == SurvivorStats(s)
  {
    NonZeroDistributes(s[..i] + [0.0], s[i..]);
    NonZeroDistributes(s[..i], [0.0]);
    NonZeroDistributes(s[..i], s[i..]);
    NonZeroOfOne(0.0);
    assert s[..i] + s[i..] == s;
  }

  /** When nothing survives the range test, the refinement rejects every pixel. */
  lemma NoSurvivorsRejectAll(image: seq<real>, oldmask: seq<real>, lo: real, hi: real, tol: real)
    requires |image| == |oldmask| && NonZero(Masked(image, oldmask, lo, hi)) == []
    ensures forall i :: 0 <= i < |image| ==> FinalMask(image, oldmask, lo, hi, tol)[i] == 0.0
  {
  }

  /**
   * A second call on the zeroed reference image sees 0 at every pixel the first call rejected,
   * so such a pixel that the old mask keeps enters the new base mask iff lowerbound < 0 < upperbound.
   */
  lemma RerunAdmitsZeroedPixels(image: seq<real>, oldmask: seq<real>, lo: real, hi: real)
    requires |image| == |oldmask|
    ensures var base := BaseMask(image, oldmask, lo, hi);
      var again := BaseMask(Masked(image, oldmask, lo, hi), oldmask, lo, hi);
      forall i :: 0 <= i < |image| && base[i] == 0.0 && oldmask[i] != 0.0 ==>
        (again[i] != 0.0 <==> lo < 0.0 < hi)
  {
    var base := BaseMask(image, oldmask, lo, hi);
    var masked := Masked(image, oldmask, lo, hi);
    forall i | 0 <= i < |image| && base[i] == 0.0 ensures masked[i] == 0.0 {
      assert masked[i] == image[i] * base[i];
    }
  }

  /** Under an all-ones old mask the base mask is the range test, pixel by pixel. */
  lemma BaseMaskOfTests(image: seq<real>, ones: seq<real>, lo: real, hi: real, tests: seq<real>)
    requires |image| == |ones| == |tests|
    requires forall i :: 0 <= i < |ones| ==> ones[i] == 1.0
    requires forall i :: 0 <= i < |tests| ==> tests[i] == (if lo < image[i] < hi then 1.0 else 0.0)
    ensures BaseMask(image, ones, lo, hi) == tests
  {
    var base := BaseMask(image, ones, lo, hi);
    forall i | 0 <= i < |image| ensures base[i] == tests[i] {
      var t := RangeTest(image[i], lo, hi);
      assert t == tests[i];
      assert base[i] == t * ones[i];
    }
  }

  lemma SumOfOne(x: real)
    ensures Sum([x]) == x
  {
    assert [x][..0] == [];
    assert Sum([x]) == Sum([]) + x;
  }

  lemma SumOfTwo(x: real, y: real)
    ensures Sum([x, y]) == x + y
  {
    assert [x, y][..1] == [x];
    assert Sum([x, y]) == Sum([x]) + y;
    SumOfOne(x);
  }

  lemma SumOfThree(x: real, y: real, z: real)
    ensures Sum([x, y, z]) == x + y + z
  {
    assert [x, y, z][..2] == [x, y];
    assert Sum([x, y, z]) == Sum([x, y]) + z;
    SumOfTwo(x, y);
  }

  lemma NonZeroOfOne(x: real)
    ensures NonZero([x]) == if x != 0.0 then [x] else []
  {
    assert [x][..0] == [];
  }

  /** The zeroed reference [1, 2, 3, 0] has survivors [1, 2, 3], mean 2 and variance 2/3. */
  lemma WorkedExampleStats()
    ensures SurvivorStats([1.0, 2.0, 3.0, 0.0]) == Some(Stats(2.0, 2.0 / 3.0))
  {
    var masked := [1.0, 2.0, 3.0, 0.0];
    assert masked == [1.0] + [2.0] + [3.0] + [0.0];
    NonZeroDistributes([1.0] + [2.0] + [3.0], [0.0]);
    NonZeroDistributes([1.0] + [2.0], [3.0]);
    NonZeroDistributes([1.0], [2.0]);
    NonZeroOfOne(1.0);
    NonZeroOfOne(2.0);
    NonZeroOfOne(3.0);
    NonZeroOfOne(0.0);
    var nz := NonZero(masked);
    assert nz == [1.0, 2.0, 3.0];
    SumOfThree(1.0, 2.0, 3.0);
    var squares := SquaredDeviations(nz, 2.0);
    assert squares == [1.0, 0.0, 1.0];
    SumOfThree(1.0, 0.0, 1.0);
  }

  /** Reference [1, 2, 3, 100], bounds (0, 50), tolerance 1: mean 2, variance 2/3, mask [0, 1, 0, 0]. */
  lemma WorkedExample()
    ensures FinalMask([1.0, 2.0, 3.0, 100.0], [1.0, 1.0, 1.0, 1.0], 0.0, 50.0, 1.0) == [0.0, 1.0, 0.0, 0.0]
  {
    var image, ones := [1.0, 2.0, 3.0, 100.0], [1.0, 1.0, 1.0, 1.0];
    var base := BaseMask(image, ones, 0.0, 50.0);
    BaseMaskOfTests(image, ones, 0.0, 50.0, [1.0, 1.0, 1.0, 0.0]);
    var masked := Masked(image, ones, 0.0, 50.0);
    assert masked == [1.0, 2.0, 3.0, 0.0];
    WorkedExampleStats();
    var st := Some(Stats(2.0, 2.0 / 3.0));
    var final := seq(4, i requires 0 <= i < 4 => base[i] * InBand(masked[i], st, 1.0));
    assert FinalMask(image, ones, 0.0, 50.0, 1.0) == final;
    assert InBand(1.0, st, 1.0) == 0.0 && InBand(2.0, st, 1.0) == 1.0 && InBand(3.0, st, 1.0) == 0.0;
    assert final == [0.0, 1.0, 0.0, 0.0];
  }

  /** The zeroed reference [0, 1, -1] has survivors [1, -1], mean 0 and variance 1. */
  lemma RepeatedCallStats()
    ensures SurvivorStats([0.0, 1.0, -1.0]) == Some(Stats(0.0, 1.0))
  {
    var masked := [0.0, 1.0, -1.0];
    assert masked == [0.0] + [1.0] + [-1.0];
    NonZeroDistributes([0.0] + [1.0], [-1.0]);
    NonZeroDistributes([0.0], [1.0]);
    NonZeroOfOne(0.0);
    NonZeroOfOne(1.0);
    NonZeroOfOne(-1.0);
    var nz := NonZero(masked);
    assert nz == [1.0, -1.0];
    SumOfTwo(1.0, -1.0);
    var squares := SquaredDeviations(nz, 0.0);
    assert squares == [1.0, 1.0];
    SumOfTwo(1.0, 1.0);
  }

  /**
   * The call is not idempotent: reference [100, 1, -1], bounds (-50, 50), tolerance 10 gives
   * [0, 1, 1], and the same call on the zeroed reference gives [1, 1, 1].
   */
  lemma RepeatedCallDiffers()
    ensures var image, ones := [100.0, 1.0, -1.0], [1.0, 1.0, 1.0];
      && FinalMask(image, ones, -50.0, 50.0, 10.0) == [0.0, 1.0, 1.0]
      && Masked(image, ones, -50.0, 50.0) == [0.0, 1.0, -1.0]
      && FinalMask(Masked(image, ones, -50.0, 50.0), ones, -50.0, 50.0, 10.0) == [1.0, 1.0, 1.0]
  {
    var image, ones := [100.0, 1.0, -1.0], [1.0, 1.0, 1.0];
    var base := BaseMask(image, ones, -50.0, 50.0);
    BaseMaskOfTests(image, ones, -50.0, 50.0, [0.0, 1.0, 1.0]);
    var masked := Masked(image, ones, -50.0, 50.0);
    assert masked == [0.0, 1.0, -1.0];
    RepeatedCallStats();
    var st := Some(Stats(0.0, 1.0));
    assert InBand(0.0, st, 10.0) == 1.0 && InBand(1.0, st, 10.0) == 1.0 && InBand(-1.0, st, 10.0) == 1.0;
    var first := seq(3, i requires 0 <= i < 3 => base[i] * InBand(masked[i], st, 10.0));
    assert FinalMask(image, ones, -50.0, 50.0, 10.0) == first;
    assert first == [0.0, 1.0, 1.0];
    var base2 := BaseMask(masked, ones, -50.0, 50.0);
    BaseMaskOfTests(masked, ones, -50.0, 50.0, [1.0, 1.0, 1.0]);
    assert Masked(masked, ones, -50.0, 50.0) == masked;
    var second := seq(3, i requires 0 <= i < 3 => base2[i] * InBand(masked[i], st, 10.0));
    assert FinalMask(masked, ones, -50.0, 50.0, 10.0) == second;
    assert second == [1.0, 1.0, 1.0];
  }
}
