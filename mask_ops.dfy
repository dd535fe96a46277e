/**
 * Per-pixel mask algebra shared by the mask makers and the combiner scripts: numpy's
 * `(x < hi) * (x > lo)` range test as 0/1, the laws of the element-wise product `Combine`
 * (logical AND on 0/1 masks) and the pixel counts of masks.
 */
module MaskOps {
  import opened Binning

  /** numpy's boolean-to-number conversion of one comparison. */
  function Indicator(b: bool): real {
    if b then 1.0 else 0.0
  }

  /** `(x < hi) * (x > lo)` on one pixel: the product of the two comparisons is the open-interval test. */
  function RangeTest(x: real, lo: real, hi: real): (r: real)
    ensures r == 1.0 <==> lo < x < hi
    ensures r == 0.0 <==> !(lo < x < hi)
  {
    Indicator(x < hi) * Indicator(x > lo)
  }

  /** A mask whose every pixel is 0 (rejected) or 1 (accepted). */
  predicate IsBinary(m: seq<real>) {
    forall i :: 0 <= i < |m| ==> m[i] == 0.0 || m[i] == 1.0
  }

  /** `np.ones_like`: the mask that accepts every pixel. */
  function Ones(n: nat): (r: seq<real>)
    ensures |r| == n && IsBinary(r)
  {
    seq(n, i => 1.0)
  }

  lemma CombineCommutes(a: seq<real>, b: seq<real>)
    requires |a| == |b|
    ensures Combine(a, b) == Combine(b, a)
  {
    forall i | 0 <= i < |a| ensures Combine(a, b)[i] == Combine(b, a)[i] {}
  }

  lemma CombineAssociates(a: seq<real>, b: seq<real>, c: seq<real>)
    requires |a| == |b| == |c|
    ensures Combine(Combine(a, b), c) == Combine(a, Combine(b, c))
  {
    forall i | 0 <= i < |a| ensures Combine(Combine(a, b), c)[i] == Combine(a, Combine(b, c))[i] {
      assert Combine(Combine(a, b), c)[i] == (a[i] * b[i]) * c[i];
      assert Combine(a, Combine(b, c))[i] == a[i] * (b[i] * c[i]);
    }
  }

  /** The all-ones mask changes nothing. */
  lemma CombineWithOnes(a: seq<real>)
    ensures Combine(Ones(|a|), a) == a
  {
    forall i | 0 <= i < |a| ensures Combine(Ones(|a|), a)[i] == a[i] {}
  }

  /** On 0/1 masks the product is logical AND: a pixel survives iff both masks accept it. */
  lemma CombineIsAnd(a: seq<real>, b: seq<real>)
    requires |a| == |b| && IsBinary(a) && IsBinary(b)
    ensures IsBinary(Combine(a, b))
    ensures forall i :: 0 <= i < |a| ==> (Combine(a, b)[i] == 1.0 <==> a[i] == 1.0 && b[i] == 1.0)
  {
  }

  /** Combining only removes pixels: the product lies below each 0/1 input. */
  lemma CombineBelowEach(a: seq<real>, b: seq<real>)
    requires |a| == |b| && IsBinary(a) && IsBinary(b)
    ensures forall i :: 0 <= i < |a| ==> Combine(a, b)[i] <= a[i] && Combine(a, b)[i] <= b[i]
  {
  }

  lemma {:induction false} SumMonotone(a: seq<real>, b: seq<real>)
    requires |a| == |b|
    requires forall i :: 0 <= i < |a| ==> a[i] <= b[i]
    ensures Sum(a) <= Sum(b)
  {
    if |a| > 0 {
      SumMonotone(a[..|a| - 1], b[..|b| - 1]);
    }
  }

  /** The number of accepted pixels of a 0/1 mask lies between 0 and its size. */
  lemma {:induction false} BinarySumBounds(m: seq<real>)
    requires IsBinary(m)
    ensures 0.0 <= Sum(m) <= |m| as real
  {
    if |m| > 0 {
      BinarySumBounds(m[..|m| - 1]);
    }
  }

  /** The printed pixel count of a product is at most the count of each input. */
  lemma CombineCountBelowEach(a: seq<real>, b: seq<real>)
    requires |a| == |b| && IsBinary(a) && IsBinary(b)
    ensures Sum(Combine(a, b)) <= Sum(a) && Sum(Combine(a, b)) <= Sum(b)
  {
    CombineBelowEach(a, b);
    SumMonotone(Combine(a, b), a);
    SumMonotone(Combine(a, b), b);
  }

  lemma {:induction false} SumNonNegative(s: seq<real>)
    requires NonNegative(s)
    ensures Sum(s) >= 0.0
  {
    if |s| > 0 {
      SumNonNegative(s[..|s| - 1]);
    }
  }
}
