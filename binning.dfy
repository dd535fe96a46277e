/**
 * Exact-arithmetic specification of radial binning: extremes of the coordinate field, the
 * per-pixel bin index, per-bin weight sums (what numpy's bincount computes) and the
 * normalisation and profile built from them.
 */
module Binning {

  /** The epsilon added to every normalisation entry so that empty bins never divide by zero. */
  const Eps: real := 1e-100

  function SeqMin(s: seq<real>): (m: real)
    requires |s| > 0
    ensures m in s
    ensures forall i :: 0 <= i < |s| ==> m <= s[i]
  {
    if |s| == 1 then s[0]
    else
      var rest := SeqMin(s[1..]);
      if s[0] <= rest then s[0] else rest
  }

  function SeqMax(s: seq<real>): (m: real)
    requires |s| > 0
    ensures m in s
    ensures forall i :: 0 <= i < |s| ==> s[i] <= m
  {
    if |s| == 1 then s[0]
    else
      var rest := SeqMax(s[1..]);
      if s[0] >= rest then s[0] else rest
  }

  function Sum(s: seq<real>): real {
    if |s| == 0 then 0.0 else Sum(s[..|s| - 1]) + s[|s| - 1]
  }

  /** A field whose bins are well defined: at least one pixel, not constant, at least one bin. */
  predicate Binnable(q: seq<real>, n: int) {
    |q| > 0 && SeqMin(q) < SeqMax(q) && n > 0
  }

  /** `q_range / float(n_bins)`: n bins of this width exactly cover the range. */
  function BinWidth(q: seq<real>, n: int): real
    requires Binnable(q, n)
  {
    SpanWidth(SeqMin(q), SeqMax(q), n)
  }

  function SpanWidth(lo: real, hi: real, n: int): (w: real)
    requires lo < hi && n > 0
    ensures w > 0.0
  {
    (hi - lo) / (n as real)
  }

  /** n bins of the width exactly cover the range. */
  lemma SpanWidthCoversRange(lo: real, hi: real, n: int)
    requires lo < hi && n > 0
    ensures SpanWidth(lo, hi, n) * (n as real) == hi - lo
  {
    QuotientTimesDivisor(hi - lo, n as real);
  }

  lemma QuotientTimesDivisor(d: real, c: real)
    requires c > 0.0
    ensures (d / c) * c == d
  {
  }

  /**
   * Where an offset d in [0, span] falls when measured in units of span / c: in [0, c], strictly
   * below c unless d is the whole span, where it is exactly c.
   */
  lemma OffsetInUnits(d: real, span: real, c: real)
    requires 0.0 <= d <= span && span > 0.0 && c > 0.0
    ensures var t := d / (span / c); 0.0 <= t <= c && (d < span ==> t < c) && (d == span ==> t == c)
  {
    var w := span / c;
    QuotientTimesDivisor(span, c);
    assert w > 0.0;
    var t := d / w;
    QuotientTimesDivisor(d, w);
    assert t * w == d;
    if d == span {
      assert t * w == c * w;
    }
  }

  /** `floor((x - qmin) / width)`, the index numpy computes before the int32 cast. */
  function FloorBin(x: real, qmin: real, width: real): int
    requires width > 0.0
  {
    ((x - qmin) / width).Floor
  }

  /** Under exact reals every pixel lands in [0, n], and only a pixel at the maximum lands at n. */
  lemma FloorBinBounds(q: seq<real>, n: int, x: real)
    requires Binnable(q, n)
    requires SeqMin(q) <= x <= SeqMax(q)
    ensures 0 <= FloorBin(x, SeqMin(q), BinWidth(q, n)) <= n
    ensures x < SeqMax(q) ==> FloorBin(x, SeqMin(q), BinWidth(q, n)) < n
    ensures x == SeqMax(q) ==> FloorBin(x, SeqMin(q), BinWidth(q, n)) == n
  {
    OffsetInUnits(x - SeqMin(q), SeqMax(q) - SeqMin(q), n as real);
  }

  /** The assignments the source computes (utils.py, lines 43-45), before its range check. */
  function FloorAssignments(q: seq<real>, n: int): (a: seq<int>)
    requires Binnable(q, n)
    ensures |a| == |q|
    ensures forall i :: 0 <= i < |q| ==> 0 <= a[i] <= n
    ensures forall i :: 0 <= i < |q| ==> (a[i] == n <==> q[i] == SeqMax(q))
  {
    var qmin, w := SeqMin(q), BinWidth(q, n);
    var a := seq(|q|, i requires 0 <= i < |q| => FloorBin(q[i], qmin, w));
    assert forall i :: 0 <= i < |q| ==> 0 <= a[i] <= n && (a[i] == n <==> q[i] == SeqMax(q)) by {
      forall i | 0 <= i < |q| ensures 0 <= a[i] <= n && (a[i] == n <==> q[i] == SeqMax(q)) {
        FloorBinBounds(q, n, q[i]);
      }
    }
    a
  }

  /** The corrected bin index: the floor, with the pixel at the maximum clamped into the last bin. */
  function BinIndex(x: real, qmin: real, width: real, n: int): int
    requires width > 0.0
  {
    var f := FloorBin(x, qmin, width);
    if f < n - 1 then f else n - 1
  }

  function BinAssignments(q: seq<real>, n: int): (a: seq<int>)
    requires Binnable(q, n)
    ensures |a| == |q|
  {
    var qmin, w := SeqMin(q), BinWidth(q, n);
    seq(|q|, i requires 0 <= i < |q| => BinIndex(q[i], qmin, w, n))
  }

  /** Every corrected assignment is a valid bin, the top bin is used, and clamping moves only pixels at the maximum. */
  lemma BinAssignmentsInRange(q: seq<real>, n: int)
    requires Binnable(q, n)
    ensures forall i :: 0 <= i < |q| ==> 0 <= BinAssignments(q, n)[i] < n
    ensures forall i :: 0 <= i < |q| && q[i] < SeqMax(q) ==> BinAssignments(q, n)[i] == FloorAssignments(q, n)[i]
    ensures forall i :: 0 <= i < |q| && q[i] == SeqMax(q) ==> BinAssignments(q, n)[i] == n - 1
    ensures exists i :: 0 <= i < |q| && BinAssignments(q, n)[i] == n - 1
  {
    forall i | 0 <= i < |q|
      ensures 0 <= BinAssignments(q, n)[i] < n
      ensures q[i] < SeqMax(q) ==> BinAssignments(q, n)[i] == FloorAssignments(q, n)[i]
      ensures q[i] == SeqMax(q) ==> BinAssignments(q, n)[i] == n - 1
    {
      FloorBinBounds(q, n, q[i]);
    }
    var top :| 0 <= top < |q| && q[top] == SeqMax(q);
    FloorBinBounds(q, n, q[top]);
  }

  /** Every index names one of the n bins and the last bin is used. */
  predicate AssignmentsFit(a: seq<int>, n: int) {
    && (forall i :: 0 <= i < |a| ==> 0 <= a[i] < n)
    && (exists i :: 0 <= i < |a| && a[i] == n - 1)
  }

  lemma BinAssignmentsFit(q: seq<real>, n: int)
    requires Binnable(q, n)
    ensures AssignmentsFit(BinAssignments(q, n), n)
  {
    BinAssignmentsInRange(q, n);
  }

  /** The pixel holding the maximum is assigned index n by the uncorrected floor. */
  lemma TopPixelOverflows(q: seq<real>, n: int)
    requires Binnable(q, n)
    ensures exists i :: 0 <= i < |q| && FloorAssignments(q, n)[i] == n
  {
    var top :| 0 <= top < |q| && q[top] == SeqMax(q);
    FloorBinBounds(q, n, q[top]);
    assert FloorAssignments(q, n)[top] == n;
  }

  /** Sum of the weights of the pixels assigned to bin b: one entry of numpy's weighted bincount. */
  function WeightInBin(a: seq<int>, w: seq<real>, b: int): real
    requires |a| == |w|
  {
    if |a| == 0 then 0.0
    else WeightInBin(a[..|a| - 1], w[..|w| - 1], b) + (if a[|a| - 1] == b then w[|w| - 1] else 0.0)
  }

  /** The length of numpy's bincount output: one more than the largest index, 0 for no pixels. */
  function BinCountLength(a: seq<int>): (len: nat)
    requires forall i :: 0 <= i < |a| ==> a[i] >= 0
    ensures forall i :: 0 <= i < |a| ==> a[i] < len
    ensures |a| == 0 <==> len == 0
    ensures |a| > 0 ==> exists i :: 0 <= i < |a| && a[i] == len - 1
  {
    if |a| == 0 then 0
    else
      var rest := BinCountLength(a[1..]);
      if a[0] + 1 >= rest then a[0] + 1 else rest
  }

  function BinSums(a: seq<int>, w: seq<real>, n: nat): (s: seq<real>)
    requires |a| == |w|
    ensures |s| == n
  {
    seq(n, b requires 0 <= b < n => WeightInBin(a, w, b))
  }

  /** Adding one pixel raises exactly its own bin's sum, when that bin is below m. */
  lemma {:induction false} BinSumsLast(a: seq<int>, w: seq<real>, m: nat)
    requires |a| == |w| && |a| > 0
    requires a[|a| - 1] >= 0
    ensures Sum(BinSums(a, w, m))
         == Sum(BinSums(a[..|a| - 1], w[..|w| - 1], m)) + (if a[|a| - 1] < m then w[|w| - 1] else 0.0)
  {
    if m > 0 {
      BinSumsLast(a, w, m - 1);
      assert BinSums(a, w, m)[..m - 1] == BinSums(a, w, m - 1);
      assert BinSums(a[..|a| - 1], w[..|w| - 1], m)[..m - 1] == BinSums(a[..|a| - 1], w[..|w| - 1], m - 1);
    }
  }

  lemma {:induction false} BinSumsOfNothing(m: nat)
    ensures Sum(BinSums([], [], m)) == 0.0
  {
    if m > 0 {
      BinSumsOfNothing(m - 1);
      assert BinSums([], [], m)[..m - 1] == BinSums([], [], m - 1);
    }
  }

  /** Each pixel's weight lands in exactly one of the n bins: the bin sums add up to the total weight. */
  lemma {:induction false} BinsPartitionWeight(a: seq<int>, w: seq<real>, n: nat)
    requires |a| == |w|
    requires forall i :: 0 <= i < |a| ==> 0 <= a[i] < n
    ensures Sum(BinSums(a, w, n)) == Sum(w)
  {
    if |a| == 0 {
      BinSumsOfNothing(n);
    } else {
      BinsPartitionWeight(a[..|a| - 1], w[..|w| - 1], n);
      BinSumsLast(a, w, n);
    }
  }

  lemma {:induction false} WeightInBinNonNegative(a: seq<int>, w: seq<real>, b: int)
    requires |a| == |w|
    requires forall i :: 0 <= i < |w| ==> w[i] >= 0.0
    ensures WeightInBin(a, w, b) >= 0.0
  {
    if |a| > 0 {
      WeightInBinNonNegative(a[..|a| - 1], w[..|w| - 1], b);
    }
  }

  function Scale(v: real, w: seq<real>): (r: seq<real>)
    ensures |r| == |w|
  {
    seq(|w|, i requires 0 <= i < |w| => v * w[i])
  }

  lemma {:induction false} WeightInBinScales(a: seq<int>, v: real, w: seq<real>, b: int)
    requires |a| == |w|
    ensures WeightInBin(a, Scale(v, w), b) == v * WeightInBin(a, w, b)
  {
    if |a| > 0 {
      WeightInBinScales(a[..|a| - 1], v, w[..|w| - 1], b);
      var k := |w| - 1;
      forall i | 0 <= i < k ensures Scale(v, w)[..k][i] == Scale(v, w[..k])[i] {
      }
      assert Scale(v, w)[..k] == Scale(v, w[..k]);
    }
  }

  /** Element-wise `a * b` of two arrays of one shape: the mask-weighted image `image * mask`. */
  function Combine(a: seq<real>, b: seq<real>): (r: seq<real>)
    requires |a| == |b|
    ensures |r| == |a|
  {
    seq(|a|, i requires 0 <= i < |a| => a[i] * b[i])
  }

  /**
   * `(bincount(a, weights=mask) + eps)[:n]`, with Python's slice rule: a negative n drops that
   * many entries from the end.
   */
  function Normalization(a: seq<int>, mask: seq<real>, n: int): (norm: seq<real>)
    requires |a| == |mask|
    requires forall i :: 0 <= i < |a| ==> a[i] >= 0
    ensures |norm| <= BinCountLength(a)
    ensures 0 <= n <= BinCountLength(a) ==> |norm| == n
    ensures n >= BinCountLength(a) ==> |norm| == BinCountLength(a)
    ensures NonNegative(mask) ==> Positive(norm)
  {
    var len := BinCountLength(a);
    var kept := if n < 0 then (if len + n < 0 then 0 else len + n) else if n < len then n else len;
    var norm := seq(kept, b requires 0 <= b < kept => WeightInBin(a, mask, b) + Eps);
    assert NonNegative(mask) ==> Positive(norm) by {
      if NonNegative(mask) {
        forall b | 0 <= b < kept ensures norm[b] > 0.0 {
          WeightInBinNonNegative(a, mask, b);
        }
      }
    }
    norm
  }

  /** `bincount(a, weights) / norm`: the mean weighted intensity of each bin. */
  function Profile(a: seq<int>, weights: seq<real>, norm: seq<real>): (v: seq<real>)
    requires |a| == |weights|
    requires forall b :: 0 <= b < |norm| ==> norm[b] != 0.0
    ensures |v| == |norm|
    ensures forall b :: 0 <= b < |v| ==> v[b] * norm[b] == WeightInBin(a, weights, b)
  {
    seq(|norm|, b requires 0 <= b < |norm| => WeightInBin(a, weights, b) / norm[b])
  }

  /** For valid assignments that reach the top bin, normalisation has one entry per bin, each eps plus its bin's mask weight. */
  lemma NormalizationShape(a: seq<int>, mask: seq<real>, n: int)
    requires |a| == |mask| && n > 0
    requires forall i :: 0 <= i < |a| ==> 0 <= a[i] < n
    requires exists i :: 0 <= i < |a| && a[i] == n - 1
    ensures |Normalization(a, mask, n)| == n
    ensures forall b :: 0 <= b < n ==> Normalization(a, mask, n)[b] == Eps + WeightInBin(a, mask, b)
    ensures (forall i :: 0 <= i < |mask| ==> mask[i] >= 0.0) ==> forall b :: 0 <= b < n ==> Normalization(a, mask, n)[b] > 0.0
  {
    if forall i :: 0 <= i < |mask| ==> mask[i] >= 0.0 {
      forall b | 0 <= b < n ensures WeightInBin(a, mask, b) >= 0.0 {
        WeightInBinNonNegative(a, mask, b);
      }
    }
  }

  /** Each normalisation entry with the epsilon taken off again. */
  function AboveEps(norm: seq<real>): (r: seq<real>)
    ensures |r| == |norm|
  {
    seq(|norm|, b requires 0 <= b < |norm| => norm[b] - Eps)
  }

  predicate NonNegative(s: seq<real>) {
    forall i :: 0 <= i < |s| ==> s[i] >= 0.0
  }

  predicate Positive(s: seq<real>) {
    forall i :: 0 <= i < |s| ==> s[i] > 0.0
  }

  lemma NormalizationPositive(a: seq<int>, mask: seq<real>, n: int)
    requires |a| == |mask| && n > 0
    requires AssignmentsFit(a, n)
    requires NonNegative(mask)
    ensures |Normalization(a, mask, n)| == n
    ensures Positive(Normalization(a, mask, n))
  {
    NormalizationShape(a, mask, n);
  }

  /** The whole mask weight is in the normalisation: sum over bins of (norm[b] - eps) is the mask's sum. */
  lemma NormalizationConservesMask(a: seq<int>, mask: seq<real>, n: int)
    requires |a| == |mask| && n > 0
    requires forall i :: 0 <= i < |a| ==> 0 <= a[i] < n
    requires exists i :: 0 <= i < |a| && a[i] == n - 1
    ensures |Normalization(a, mask, n)| == n
    ensures Sum(AboveEps(Normalization(a, mask, n))) == Sum(mask)
  {
    NormalizationShape(a, mask, n);
    var norm := Normalization(a, mask, n);
    assert AboveEps(norm) == BinSums(a, mask, n);
    BinsPartitionWeight(a, mask, n);
  }

  /** bin values times normalisation recover the weighted intensity, and their total is the whole weighted image. */
  lemma ProfileConservesIntensity(a: seq<int>, image: seq<real>, mask: seq<real>, norm: seq<real>)
    requires |a| == |image| == |mask|
    requires forall i :: 0 <= i < |a| ==> 0 <= a[i] < |norm|
    requires forall b :: 0 <= b < |norm| ==> norm[b] != 0.0
    ensures forall b :: 0 <= b < |norm| ==> Profile(a, Combine(image, mask), norm)[b] * norm[b] == WeightInBin(a, Combine(image, mask), b)
    ensures Sum(seq(|norm|, b requires 0 <= b < |norm| => Profile(a, Combine(image, mask), norm)[b] * norm[b])) == Sum(Combine(image, mask))
  {
    var v := Profile(a, Combine(image, mask), norm);
    var totals := seq(|norm|, b requires 0 <= b < |norm| => v[b] * norm[b]);
    forall b | 0 <= b < |norm| ensures totals[b] == BinSums(a, Combine(image, mask), |norm|)[b] {
    }
    assert totals == BinSums(a, Combine(image, mask), |norm|);
    BinsPartitionWeight(a, Combine(image, mask), |norm|);
  }

  /** With a constant image v, each bin holds v scaled by c / (c + eps), c its mask weight. */
  lemma ProfileOfConstantImage(a: seq<int>, v: real, image: seq<real>, mask: seq<real>, n: int)
    requires |a| == |image| == |mask| && n > 0
    requires forall i :: 0 <= i < |image| ==> image[i] == v
    requires forall i :: 0 <= i < |mask| ==> mask[i] >= 0.0
    requires forall i :: 0 <= i < |a| ==> 0 <= a[i] < n
    requires exists i :: 0 <= i < |a| && a[i] == n - 1
    ensures forall b :: 0 <= b < |Normalization(a, mask, n)| ==> Normalization(a, mask, n)[b] > 0.0
    ensures |Profile(a, Combine(image, mask), Normalization(a, mask, n))| == n
    ensures forall b :: 0 <= b < n ==>
      Profile(a, Combine(image, mask), Normalization(a, mask, n))[b]
      == v * (Normalization(a, mask, n)[b] - Eps) / Normalization(a, mask, n)[b]
  {
    NormalizationShape(a, mask, n);
    forall i | 0 <= i < |image| ensures Combine(image, mask)[i] == Scale(v, mask)[i] {
    }
    assert Combine(image, mask) == Scale(v, mask);
    forall b | 0 <= b < n ensures WeightInBin(a, Combine(image, mask), b) == v * WeightInBin(a, mask, b) {
      WeightInBinScales(a, v, mask, b);
    }
  }

  /** With an all-zero mask every bin value is 0 / eps = 0: no division error, no spurious intensity. */
  lemma ProfileOfZeroMask(a: seq<int>, image: seq<real>, mask: seq<real>, n: int)
    requires |a| == |image| == |mask| && n > 0
    requires forall i :: 0 <= i < |mask| ==> mask[i] == 0.0
    requires forall i :: 0 <= i < |a| ==> 0 <= a[i] < n
    requires exists i :: 0 <= i < |a| && a[i] == n - 1
    ensures forall b :: 0 <= b < |Normalization(a, mask, n)| ==> Normalization(a, mask, n)[b] == Eps
    ensures forall b :: 0 <= b < n ==> Profile(a, Combine(image, mask), Normalization(a, mask, n))[b] == 0.0
  {
    NormalizationShape(a, mask, n);
    forall i | 0 <= i < |image| ensures Combine(image, mask)[i] == Scale(0.0, image)[i] && mask[i] == Scale(0.0, image)[i] {
    }
    assert Combine(image, mask) == Scale(0.0, image);
    assert mask == Scale(0.0, image);
    forall b | 0 <= b < n ensures WeightInBin(a, Scale(0.0, image), b) == 0.0 {
      WeightInBinScales(a, 0.0, image, b);
    }
  }
}
