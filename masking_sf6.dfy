/**
 * Mask/masking_SF6_py3.py: `maskmaker_SF6.__call__`, band selection. An all-ones mask is
 * overwritten at the pixels `inds` selects with the band test of the reference image, then
 * multiplied by the old mask. The reference images are only read.
 *
 * `inds` is an integer index array into the flattened image: numpy accepts -n <= k < n, with a
 * negative k naming pixel k + n, and raises IndexError for any other entry before writing.
 */
module MaskingSF6 {
  import opened Wrappers
  import opened MaskOps

  datatype MaskError = UnboundImage(img: string) | IndexOutOfRange(index: int)

  predicate InBounds(k: int, n: nat) {
    -(n as int) <= k < n
  }

  /** The pixel a numpy index names. */
  function Wrap(k: int, n: nat): (i: int)
    requires InBounds(k, n)
    ensures 0 <= i < n
  {
    if k < 0 then k + n else k
  }

  predicate AllInBounds(inds: seq<int>, n: nat) {
    forall k :: 0 <= k < |inds| ==> InBounds(inds[k], n)
  }

  /** Pixel i is one of those `inds` selects. */
  predicate Selected(inds: seq<int>, n: nat, i: int)
    requires AllInBounds(inds, n)
  {
    exists k :: 0 <= k < |inds| && Wrap(inds[k], n) == i
  }

  /** `newmask = ones; newmask[inds] = (lo < image[inds] < hi); newmask *= oldmask`. */
  function BandMask(image: seq<real>, oldmask: seq<real>, lo: real, hi: real, inds: seq<int>): (r: seq<real>)
    requires |image| == |oldmask| && AllInBounds(inds, |image|)
    ensures |r| == |image|
    ensures forall i :: 0 <= i < |image| ==> r[i] == 0.0 || r[i] == oldmask[i]
  {
    seq(|image|, i requires 0 <= i < |image| =>
      (if Selected(inds, |image|, i) then RangeTest(image[i], lo, hi) else 1.0) * oldmask[i])
  }

  /** The index of the first entry of `inds` numpy rejects. */
  function FirstOutOfBounds(inds: seq<int>, n: nat): (k: int)
    requires !AllInBounds(inds, n)
    ensures 0 <= k < |inds| && !InBounds(inds[k], n)
    ensures forall j :: 0 <= j < k ==> InBounds(inds[j], n)
  {
    if !InBounds(inds[0], n) then 0
    else
      assert !AllInBounds(inds[1..], n) by {
        var k :| 0 <= k < |inds| && !InBounds(inds[k], n);
        assert inds[1..][k - 1] == inds[k];
      }
      var k := FirstOutOfBounds(inds[1..], n);
      assert forall j :: 1 <= j < k + 1 ==> inds[j] == inds[1..][j - 1];
      k + 1
  }

  /** What the call returns for a reference image: the band mask, or numpy's IndexError. */
  function SelectBand(image: seq<real>, oldmask: seq<real>, lo: real, hi: real, inds: seq<int>): (r: Result<seq<real>, MaskError>)
    requires |image| == |oldmask|
    ensures r.Success? <==> AllInBounds(inds, |image|)
    ensures r.Success? ==> |r.value| == |image|
    ensures r.Failure? ==> r.error.IndexOutOfRange? && r.error.index in inds && !InBounds(r.error.index, |image|)
  {
    if AllInBounds(inds, |image|) then Success(BandMask(image, oldmask, lo, hi, inds))
    else Failure(IndexOutOfRange(inds[FirstOutOfBounds(inds, |image|)]))
  }

  class MaskMakerSF6 {
    var dark: array<real>
    var xray: array<real>
    var oldmask: seq<real>

    ghost predicate Valid()
      reads this
    {
      dark.Length == |oldmask| && xray.Length == |oldmask|
    }

    /** The reference images as the (left out) file reader would deliver them. */
    constructor (darkImage: seq<real>, xrayImage: seq<real>, oldmask: seq<real>)
      requires |darkImage| == |oldmask| && |xrayImage| == |oldmask|
      ensures Valid() && fresh(dark) && fresh(xray)
      ensures dark[..] == darkImage && xray[..] == xrayImage && this.oldmask == oldmask
    {
      dark := new real[|darkImage|](i requires 0 <= i < |darkImage| => darkImage[i]);
      xray := new real[|xrayImage|](i requires 0 <= i < |xrayImage| => xrayImage[i]);
      this.oldmask := oldmask;
    }

    /**
     * `__call__`: 'dark' reads the dark image, 'xray' and 'SF6' both read the x-ray image, any
     * other name leaves the image unbound. The method has no modifies clause, so neither
     * reference image nor any field changes.
     */
    method Call(img: string, upperboundSignal: real, lowerboundSignal: real, inds: seq<int>) returns (r: Result<seq<real>, MaskError>)
      requires Valid()
      ensures img == "dark" ==> r == SelectBand(dark[..], oldmask, lowerboundSignal, upperboundSignal, inds)
      ensures img == "xray" || img == "SF6" ==>
        r == SelectBand(xray[..], oldmask, lowerboundSignal, upperboundSignal, inds)
      ensures img != "dark" && img != "xray" && img != "SF6" ==> r == Failure(UnboundImage(img))
    {
      var image: array<real>;
      if img == "dark" {
        image := dark;
      } else if img == "xray" || img == "SF6" {
        image := xray;
      } else {
        return Failure(UnboundImage(img));
      }
      var n := image.Length;
      var j := 0;
      while j < |inds|
        invariant 0 <= j <= |inds|
        invariant forall k :: 0 <= k < j ==> InBounds(inds[k], n)
      {
        if !InBounds(inds[j], n) {
          assert !AllInBounds(inds, n);
          assert FirstOutOfBounds(inds, n) == j;
          return Failure(IndexOutOfRange(inds[j]));
        }
        j := j + 1;
      }
      var newmask := new real[n](_ => 1.0);
      j := 0;
      while j < |inds|
        invariant 0 <= j <= |inds|
        invariant forall i :: 0 <= i < n ==>
          newmask[i] == if Selected(inds[..j], n, i) then RangeTest(image[i], lowerboundSignal, upperboundSignal) else 1.0
      {
        var p := Wrap(inds[j], n);
        newmask[p] := RangeTest(image[p], lowerboundSignal, upperboundSignal);
        forall i | 0 <= i < n
          ensures Selected(inds[..j + 1], n, i) <==> Selected(inds[..j], n, i) || i == p
        {
          if Selected(inds[..j + 1], n, i) {
            var k :| 0 <= k < j + 1 && Wrap(inds[..j + 1][k], n) == i;
            if k < j {
              assert inds[..j][k] == inds[..j + 1][k];
            }
          }
          if Selected(inds[..j], n, i) {
            var k :| 0 <= k < j && Wrap(inds[..j][k], n) == i;
            assert inds[..j + 1][k] == inds[..j][k];
          }
          if i == p {
            assert inds[..j + 1][j] == inds[j];
          }
        }
        j := j + 1;
      }
      assert inds[..j] == inds;
      ghost var written := newmask[..];
      forall i | 0 <= i < n {
        newmask[i] := newmask[i] * oldmask[i];
      }
      forall i | 0 <= i < n
        ensures newmask[i] == BandMask(image[..], oldmask, lowerboundSignal, upperboundSignal, inds)[i]
      {
        assert newmask[i] == written[i] * oldmask[i];
      }
      assert newmask[..] == BandMask(image[..], oldmask, lowerboundSignal, upperboundSignal, inds);
      return Success(newmask[..]);
    }
  }

  /** Pixels outside `inds` keep the old mask; pixels inside get the band test times the old mask. */
  lemma BandMaskPixels(image: seq<real>, oldmask: seq<real>, lo: real, hi: real, inds: seq<int>)
    requires |image| == |oldmask| && AllInBounds(inds, |image|)
    ensures forall i :: 0 <= i < |image| && !Selected(inds, |image|, i) ==>
      BandMask(image, oldmask, lo, hi, inds)[i] == oldmask[i]
    ensures forall i :: 0 <= i < |image| && Selected(inds, |image|, i) ==>
      BandMask(image, oldmask, lo, hi, inds)[i] == RangeTest(image[i], lo, hi) * oldmask[i]
  {
  }

  /** Band selection only removes pixels from a non-negative old mask. */
  lemma BandMaskBelowOldmask(image: seq<real>, oldmask: seq<real>, lo: real, hi: real, inds: seq<int>)
    requires |image| == |oldmask| && AllInBounds(inds, |image|)
    requires forall i :: 0 <= i < |oldmask| ==> oldmask[i] >= 0.0
    ensures forall i :: 0 <= i < |image| ==> 0.0 <= BandMask(image, oldmask, lo, hi, inds)[i] <= oldmask[i]
  {
  }

  /** With no indices the call returns the old mask. */
  lemma NoIndicesKeepOldmask(image: seq<real>, oldmask: seq<real>, lo: real, hi: real)
    requires |image| == |oldmask|
    ensures SelectBand(image, oldmask, lo, hi, []) == Success(oldmask)
  {
    var r := BandMask(image, oldmask, lo, hi, []);
    forall i | 0 <= i < |image| ensures r[i] == oldmask[i] {
      assert !Selected([], |image|, i);
    }
    assert r == oldmask;
  }

  /** A 0/1 old mask gives a 0/1 result. */
  lemma BandMaskBinary(image: seq<real>, oldmask: seq<real>, lo: real, hi: real, inds: seq<int>)
    requires |image| == |oldmask| && AllInBounds(inds, |image|) && IsBinary(oldmask)
    ensures IsBinary(BandMask(image, oldmask, lo, hi, inds))
  {
  }

  /**
   * Only the set of selected pixels matters: reordering or repeating indices, or writing one
   * pixel as a negative index, gives the same mask.
   */
  lemma BandMaskDependsOnSelection(image: seq<real>, oldmask: seq<real>, lo: real, hi: real, inds: seq<int>, other: seq<int>)
    requires |image| == |oldmask| && AllInBounds(inds, |image|) && AllInBounds(other, |image|)
    requires forall i :: 0 <= i < |image| ==> (Selected(inds, |image|, i) <==> Selected(other, |image|, i))
    ensures BandMask(image, oldmask, lo, hi, inds) == BandMask(image, oldmask, lo, hi, other)
  {
    var a, b := BandMask(image, oldmask, lo, hi, inds), BandMask(image, oldmask, lo, hi, other);
    forall i | 0 <= i < |image| ensures a[i] == b[i] {}
  }

  /**
   * Any index outside [-n, n) aborts the call; the error reports the first such entry, which is
   * the offending index itself when no earlier entry is out of range.
   */
  lemma OutOfRangeIndexFails(image: seq<real>, oldmask: seq<real>, lo: real, hi: real, inds: seq<int>, k: int)
    requires |image| == |oldmask| && 0 <= k < |inds| && !InBounds(inds[k], |image|)
    ensures SelectBand(image, oldmask, lo, hi, inds).Failure?
    ensures SelectBand(image, oldmask, lo, hi, inds).error.index == inds[FirstOutOfBounds(inds, |image|)]
    ensures FirstOutOfBounds(inds, |image|) <= k
    ensures (forall j :: 0 <= j < k ==> InBounds(inds[j], |image|)) ==>
      SelectBand(image, oldmask, lo, hi, inds) == Failure(IndexOutOfRange(inds[k]))
  {
  }
}
