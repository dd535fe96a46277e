/**
 * Mask/Mask_scratch/Mask_Combiner_Lisa.py and Mask/Mask_scratch/Mask_Combiner.py: the
 * pixel-wise product (logical AND on 0/1 masks) of masks saved by earlier runs, the file names
 * built from run numbers, and the reported pixel count or valid fraction.
 *
 * The file system is a map from file name to the flattened mask stored under it; loading a
 * missing name fails as np.load does, and saving is represented by the name the result would be
 * saved under.
 */
module MaskCombiner {
  import opened Wrappers
  import opened Binning
  import opened MaskOps
  import opened Decimal

  predicate SameSize(masks: seq<seq<real>>, n: nat) {
    forall k :: 0 <= k < |masks| ==> |masks[k]| == n
  }

  predicate AllBinary(masks: seq<seq<real>>) {
    forall k :: 0 <= k < |masks| ==> IsBinary(masks[k])
  }

  /** `m0 * m1 * ... * mk`, evaluated left to right as Python does. */
  function AndReduce(masks: seq<seq<real>>, n: nat): (r: seq<real>)
    requires |masks| > 0 && SameSize(masks, n)
    ensures |r| == n
    ensures forall k, i :: 0 <= k < |masks| && 0 <= i < n && masks[k][i] == 0.0 ==> r[i] == 0.0
  {
    if |masks| == 1 then masks[0] else Combine(AndReduce(masks[..|masks| - 1], n), masks[|masks| - 1])
  }

  /** On 0/1 masks the product keeps a pixel iff every mask keeps it. */
  lemma {:induction false} AndReduceIsAnd(masks: seq<seq<real>>, n: nat)
    requires |masks| > 0 && SameSize(masks, n) && AllBinary(masks)
    ensures IsBinary(AndReduce(masks, n))
    ensures forall i :: 0 <= i < n ==>
      (AndReduce(masks, n)[i] == 1.0 <==> forall k :: 0 <= k < |masks| ==> masks[k][i] == 1.0)
  {
    if |masks| > 1 {
      var init, last := masks[..|masks| - 1], masks[|masks| - 1];
      AndReduceIsAnd(init, n);
      var prefix := AndReduce(init, n);
      CombineIsAnd(prefix, last);
      forall i | 0 <= i < n
        ensures AndReduce(masks, n)[i] == 1.0 <==> forall k :: 0 <= k < |masks| ==> masks[k][i] == 1.0
      {
        assert forall k :: 0 <= k < |init| ==> init[k] == masks[k];
      }
    }
  }

  /** The product lies below every 0/1 input mask. */
  lemma AndReduceBelowEach(masks: seq<seq<real>>, n: nat)
    requires |masks| > 0 && SameSize(masks, n) && AllBinary(masks)
    ensures forall k, i :: 0 <= k < |masks| && 0 <= i < n ==> AndReduce(masks, n)[i] <= masks[k][i]
  {
    AndReduceIsAnd(masks, n);
  }

  predicate HasPixel(masks: seq<seq<real>>, i: nat) {
    forall k :: 0 <= k < |masks| ==> i < |masks[k]|
  }

  /** Pixel i of the product of all masks: `m0[i] * m1[i] * ... * mk[i]`. */
  function PixelProduct(masks: seq<seq<real>>, i: nat): real
    requires HasPixel(masks, i)
  {
    if |masks| == 0 then 1.0 else PixelProduct(masks[..|masks| - 1], i) * masks[|masks| - 1][i]
  }

  lemma WithoutHasPixel(masks: seq<seq<real>>, j: int, i: nat)
    requires 0 <= j < |masks| && HasPixel(masks, i)
    ensures HasPixel(masks[..j] + masks[j + 1..], i)
  {
    var rest := masks[..j] + masks[j + 1..];
    forall k | 0 <= k < |rest| ensures i < |rest[k]| {
      if k < j {
        assert rest[k] == masks[k];
      } else {
        assert rest[k] == masks[k + 1];
      }
    }
  }

  /** Taking mask j out of the product and multiplying it back in last gives the same pixel. */
  lemma {:induction false} PixelProductWithout(masks: seq<seq<real>>, j: int, i: nat)
    requires 0 <= j < |masks| && HasPixel(masks, i)
    ensures HasPixel(masks[..j] + masks[j + 1..], i)
    ensures PixelProduct(masks, i) == PixelProduct(masks[..j] + masks[j + 1..], i) * masks[j][i]
  {
    var m := |masks| - 1;
    var rest := masks[..j] + masks[j + 1..];
    WithoutHasPixel(masks, j, i);
    if j < m {
      var init := masks[..m];
      PixelProductWithout(init, j, i);
      var r0 := init[..j] + init[j + 1..];
      assert r0 == rest[..|rest| - 1];
      assert rest[|rest| - 1] == masks[m];
      var a, b, c := PixelProduct(r0, i), masks[j][i], masks[m][i];
      assert PixelProduct(masks, i) == PixelProduct(init, i) * c;
      assert PixelProduct(rest, i) == a * c;
      assert (a * b) * c == (a * c) * b;
    } else {
      assert rest == masks[..m];
    }
  }

  /** Reordering the masks does not change any pixel of their product. */
  lemma {:induction false} PixelProductPermutation(masks: seq<seq<real>>, reordered: seq<seq<real>>, i: nat)
    requires multiset(reordered) == multiset(masks)
    requires HasPixel(masks, i) && HasPixel(reordered, i)
    ensures PixelProduct(masks, i) == PixelProduct(reordered, i)
    decreases |masks|
  {
    if |masks| == 0 {
      assert |reordered| == |multiset(reordered)| == |multiset(masks)| == 0;
    } else {
      var m := |masks| - 1;
      var x := masks[m];
      var j := RemovedIndex(masks, reordered);
      var rest := reordered[..j] + reordered[j + 1..];
      assert HasPixel(masks[..m], i);
      PixelProductWithout(reordered, j, i);
      PixelProductPermutation(masks[..m], rest, i);
      PixelProductLast(masks, i);
    }
  }

  lemma PixelProductLast(masks: seq<seq<real>>, i: nat)
    requires |masks| > 0 && HasPixel(masks, i)
    ensures HasPixel(masks[..|masks| - 1], i)
    ensures PixelProduct(masks, i) == PixelProduct(masks[..|masks| - 1], i) * masks[|masks| - 1][i]
  {
  }

  /** Where the last mask sits in a reordering, and what the reordering is without it. */
  lemma RemovedIndex(masks: seq<seq<real>>, reordered: seq<seq<real>>) returns (j: int)
    requires |masks| > 0 && multiset(reordered) == multiset(masks)
    ensures 0 <= j < |reordered| && reordered[j] == masks[|masks| - 1]
    ensures multiset(reordered[..j] + reordered[j + 1..]) == multiset(masks[..|masks| - 1])
  {
    var m := |masks| - 1;
    var x := masks[m];
    assert masks == masks[..m] + [x];
    assert x in multiset(reordered);
    j :| 0 <= j < |reordered| && reordered[j] == x;
    assert reordered == reordered[..j] + [x] + reordered[j + 1..];
    assert multiset(reordered) == multiset(reordered[..j]) + multiset{x} + multiset(reordered[j + 1..]);
    assert multiset(masks) == multiset(masks[..m]) + multiset{x};
    assert multiset(reordered[..j] + reordered[j + 1..]) == multiset(reordered[..j]) + multiset(reordered[j + 1..]);
    assert multiset(masks[..m]) == multiset(masks) - multiset{x};
    assert multiset(reordered[..j]) + multiset(reordered[j + 1..]) == multiset(reordered) - multiset{x};
  }

  lemma {:induction false} AndReduceIsPixelProduct(masks: seq<seq<real>>, n: nat, i: nat)
    requires |masks| > 0 && SameSize(masks, n) && i < n
    ensures HasPixel(masks, i)
    ensures AndReduce(masks, n)[i] == PixelProduct(masks, i)
  {
    if |masks| == 1 {
      assert masks[..0] == [];
    } else {
      AndReduceIsPixelProduct(masks[..|masks| - 1], n, i);
      PixelProductLast(masks, i);
    }
  }

  /** The order in which the masks are multiplied does not matter. */
  lemma AndReduceOrderIndependent(masks: seq<seq<real>>, reordered: seq<seq<real>>, n: nat)
    requires |masks| > 0 && SameSize(masks, n)
    requires multiset(reordered) == multiset(masks)
    ensures |reordered| > 0 && SameSize(reordered, n)
    ensures AndReduce(reordered, n) == AndReduce(masks, n)
  {
    assert |reordered| == |multiset(reordered)| == |multiset(masks)| == |masks|;
    forall k | 0 <= k < |reordered| ensures reordered[k] in masks {
      assert reordered[k] in multiset(reordered);
    }
    var a, b := AndReduce(masks, n), AndReduce(reordered, n);
    forall i | 0 <= i < n ensures a[i] == b[i] {
      AndReduceIsPixelProduct(masks, n, i);
      AndReduceIsPixelProduct(reordered, n, i);
      PixelProductPermutation(masks, reordered, i);
    }
  }

  /** A four-mask product is the left-to-right chain of pairwise products, `a * b * c * d`. */
  lemma AndReduceFour(masks: seq<seq<real>>, n: nat)
    requires |masks| == 4 && SameSize(masks, n)
    ensures AndReduce(masks, n) == Combine(Combine(Combine(masks[0], masks[1]), masks[2]), masks[3])
  {
    assert masks[..3][..2][..1] == masks[..1];
    assert masks[..3][..2] == masks[..2];
    assert AndReduce(masks[..2], n) == Combine(masks[0], masks[1]);
    assert AndReduce(masks[..3], n) == Combine(Combine(masks[0], masks[1]), masks[2]);
  }

  // File names

  /** `'run%d_mask_xray.npy' % r`: between "run" and the suffix stand the digits of the run. */
  function RunMaskFile(run: int): (name: string)
    ensures 17 < |name| && name[..3] == "run" && name[|name| - 14..] == "_mask_xray.npy"
    ensures run >= 0 ==> AllDigits(name[3..|name| - 14]) && DecimalValue(name[3..|name| - 14]) == run
  {
    IntToStringShape(run);
    NatToStringCanonical(if run < 0 then -run else run);
    assert ("run" + IntToString(run) + "_mask_xray.npy")[3..|IntToString(run)| + 3] == IntToString(run);
    "run" + IntToString(run) + "_mask_xray.npy"
  }

  /** `'Mask_Jungfrau_%d_%d_T_Edge.npy' % (dark, blank)`, the two-run script's output: it never names a run mask. */
  function EdgeMaskFile(dark: int, blank: int): (name: string)
    ensures forall run :: name != RunMaskFile(run)
  {
    var name := "Mask_Jungfrau_" + RunPair(dark, blank) + "_T_Edge.npy";
    assert name[0] == 'M';
    name
  }

  /** `'%d_%d' % (dark, blank)`, the part of the output names that carries the runs. */
  function RunPair(dark: int, blank: int): string {
    IntToString(dark) + "_" + IntToString(blank)
  }

  /** `'Mask_Jungfrau_%d_%d.npy' % (dark, blank)`, the four-mask script's output: it never names one of its inputs. */
  function CombinedMaskFile(dark: int, blank: int): (name: string)
    ensures forall run :: name != RunMaskFile(run)
    ensures name != LineMaskFile && name != ShadowMaskFile
  {
    var name := "Mask_Jungfrau_" + RunPair(dark, blank) + ".npy";
    IntToStringShape(dark);
    NatToStringCanonical(if dark < 0 then -dark else dark);
    assert name[0] == 'M' && name[14] == IntToString(dark)[0];
    assert IntToString(dark)[0] == '-' || IsDigit(IntToString(dark)[0]);
    assert ShadowMaskFile[14] == 'S';
    name
  }

  /** Distinct runs read distinct mask files. */
  lemma RunMaskFilesDistinct(a: int, b: int)
    requires RunMaskFile(a) == RunMaskFile(b)
    ensures a == b
  {
    StripAffixes("run", IntToString(a), IntToString(b), "_mask_xray.npy");
    IntToStringInjective(a, b);
  }

  /** Two underscore-free words joined by '_' split back uniquely. */
  lemma SplitAtUnderscore(x: string, y: string, x': string, y': string)
    requires '_' !in x && '_' !in x'
    requires x + "_" + y == x' + "_" + y'
    ensures x == x' && y == y'
  {
    var s, s' := x + "_" + y, x' + "_" + y';
    assert s[|x|] == '_' && s'[|x'|] == '_';
    assert forall j :: 0 <= j < |x| ==> s[j] == x[j];
    assert forall j :: 0 <= j < |x'| ==> s'[j] == x'[j];
    assert |x| == |x'|;
    assert x == s[..|x|] && x' == s'[..|x'|];
    assert y == s[|x| + 1..] && y' == s'[|x'| + 1..];
  }

  /** A name with a known prefix and suffix determines its middle. */
  lemma StripAffixes(prefix: string, m: string, m': string, suffix: string)
    requires prefix + m + suffix == prefix + m' + suffix
    ensures m == m'
  {
    var s, s' := prefix + m + suffix, prefix + m' + suffix;
    assert m == s[|prefix|..|s| - |suffix|];
    assert m' == s'[|prefix|..|s'| - |suffix|];
  }

  lemma RunPairDistinct(dark: int, blank: int, dark': int, blank': int)
    requires RunPair(dark, blank) == RunPair(dark', blank')
    ensures dark == dark' && blank == blank'
  {
    IntToStringHasNoUnderscore(dark);
    IntToStringHasNoUnderscore(dark');
    SplitAtUnderscore(IntToString(dark), IntToString(blank), IntToString(dark'), IntToString(blank'));
    IntToStringInjective(dark, dark');
    IntToStringInjective(blank, blank');
  }

  /** The output name determines both run numbers, dark run first. */
  lemma EdgeMaskFilesDistinct(dark: int, blank: int, dark': int, blank': int)
    requires EdgeMaskFile(dark, blank) == EdgeMaskFile(dark', blank')
    ensures dark == dark' && blank == blank'
  {
    StripAffixes("Mask_Jungfrau_", RunPair(dark, blank), RunPair(dark', blank'), "_T_Edge.npy");
    RunPairDistinct(dark, blank, dark', blank');
  }

  lemma CombinedMaskFilesDistinct(dark: int, blank: int, dark': int, blank': int)
    requires CombinedMaskFile(dark, blank) == CombinedMaskFile(dark', blank')
    ensures dark == dark' && blank == blank'
  {
    StripAffixes("Mask_Jungfrau_", RunPair(dark, blank), RunPair(dark', blank'), ".npy");
    RunPairDistinct(dark, blank, dark', blank');
  }

  lemma PrintedRuns()
    ensures IntToString(123) == "123" && IntToString(125) == "125"
    ensures IntToString(418) == "418" && IntToString(429) == "429"
  {
    assert NatToString(12) == "12" && NatToString(41) == "41" && NatToString(42) == "42";
  }

  // The names the two scripts read and write, one fact per name: each equality of string literals is costly.

  lemma LisaDarkFile()
    ensures RunMaskFile(LisaDarkRun) == "run123_mask_xray.npy"
  {
    PrintedRuns();
  }

  lemma LisaBlankFile()
    ensures RunMaskFile(LisaBlankRun) == "run125_mask_xray.npy"
  {
    PrintedRuns();
  }

  lemma LisaOutputFile()
    ensures EdgeMaskFile(LisaDarkRun, LisaBlankRun) == "Mask_Jungfrau_123_125_T_Edge.npy"
  {
    PrintedRuns();
  }

  lemma CombinerDarkFile()
    ensures RunMaskFile(DarkRun) == "run418_mask_xray.npy"
  {
    PrintedRuns();
  }

  lemma CombinerBlankFile()
    ensures RunMaskFile(BlankRun) == "run429_mask_xray.npy"
  {
    PrintedRuns();
  }

  lemma CombinerOutputFile()
    ensures CombinedMaskFile(DarkRun, BlankRun) == "Mask_Jungfrau_418_429.npy"
  {
    PrintedRuns();
  }

  // The scripts

  type Files = map<string, seq<real>>

  datatype ScriptError = FileNotFound(file: string) | ShapeMismatch | NameError(name: string)

  function Load(files: Files, name: string): Result<seq<real>, ScriptError> {
    if name in files then Success(files[name]) else Failure(FileNotFound(name))
  }

  /** What a script produces: the mask, the number it prints and the name it saves under. */
  datatype Output = Output(mask: seq<real>, printed: real, savedAs: string)

  const LisaDarkRun: int := 123
  const LisaBlankRun: int := 125

  /** Mask_Combiner_Lisa.py: the product of the dark- and blank-run masks and its pixel count. */
  function LisaScript(files: Files): (r: Result<Output, ScriptError>)
    ensures r.Failure? ==> r.error.FileNotFound? || r.error == ShapeMismatch
    ensures r.Success? ==> RunMaskFile(LisaDarkRun) in files && RunMaskFile(LisaBlankRun) in files
    ensures r.Success? ==> |r.value.mask| == |files[RunMaskFile(LisaDarkRun)]| == |files[RunMaskFile(LisaBlankRun)]|
    ensures r.Success? ==> r.value.printed == Sum(r.value.mask)
  {
    var off :- Load(files, RunMaskFile(LisaDarkRun));
    var on :- Load(files, RunMaskFile(LisaBlankRun));
    if |off| != |on| then Failure(ShapeMismatch)
    else
      var total := Combine(off, on);
      Success(Output(total, Sum(total), EdgeMaskFile(LisaDarkRun, LisaBlankRun)))
  }

  /**
   * The two-run script succeeds iff both run masks exist with one size; it then saves the
   * product as Mask_Jungfrau_123_125_T_Edge.npy, the same whichever mask comes first, and for
   * 0/1 masks a pixel survives iff both keep it and the printed count is at most either count.
   */
  lemma LisaScriptResult(files: Files)
    ensures var off, on := "run123_mask_xray.npy", "run125_mask_xray.npy";
      var r := LisaScript(files);
      && (r.Success? <==> off in files && on in files && |files[off]| == |files[on]|)
      && (r.Success? ==>
        && r.value.mask == Combine(files[off], files[on]) == Combine(files[on], files[off])
        && r.value.savedAs == "Mask_Jungfrau_123_125_T_Edge.npy"
        && r.value.printed == Sum(r.value.mask)
        && (IsBinary(files[off]) && IsBinary(files[on]) ==>
          && IsBinary(r.value.mask)
          && (forall i :: 0 <= i < |r.value.mask| ==>
               (r.value.mask[i] == 1.0 <==> files[off][i] == 1.0 && files[on][i] == 1.0))
          && r.value.printed <= Sum(files[off]) && r.value.printed <= Sum(files[on])))
  {
    LisaDarkFile();
    LisaBlankFile();
    LisaOutputFile();
    var off, on := "run123_mask_xray.npy", "run125_mask_xray.npy";
    if off in files && on in files && |files[off]| == |files[on]| {
      CombineCommutes(files[off], files[on]);
      if IsBinary(files[off]) && IsBinary(files[on]) {
        CombineIsAnd(files[off], files[on]);
        CombineCountBelowEach(files[off], files[on]);
      }
    }
  }

  /** The detector's pixel count, 8 * 512 * 1024, the fraction's denominator. */
  const DetectorPixels: nat := 8 * 512 * 1024

  const DarkRun: int := 418
  const BlankRun: int := 429
  const LineMaskFile: string := "line_mask.npy"
  const ShadowMaskFile: string := "Mask_Jungfrau_Shadow.npy"

  /** The script's global names when the save line runs. */
  function ScriptGlobals(): map<string, int> {
    map["dark_run" := DarkRun, "blank_run" := BlankRun]
  }

  function LookUp(globals: map<string, int>, name: string): Result<int, ScriptError> {
    if name in globals then Success(globals[name]) else Failure(NameError(name))
  }

  /** The four masks of Mask_Combiner.py, multiplied, and the valid fraction it prints. */
  function CombineFour(files: Files): (r: Result<(seq<real>, real), ScriptError>)
    ensures r.Failure? ==> r.error.FileNotFound? || r.error == ShapeMismatch
    ensures r.Success? ==> RunMaskFile(DarkRun) in files && |r.value.0| == |files[RunMaskFile(DarkRun)]|
    ensures r.Success? ==> r.value.1 * (DetectorPixels as real) == Sum(r.value.0)
  {
    var off :- Load(files, RunMaskFile(DarkRun));
    var on :- Load(files, RunMaskFile(BlankRun));
    var line :- Load(files, LineMaskFile);
    var shadow :- Load(files, ShadowMaskFile);
    if !(|off| == |on| == |line| == |shadow|) then Failure(ShapeMismatch)
    else
      var total := AndReduce([off, on, line, shadow], |off|);
      Success((total, Sum(total) / (DetectorPixels as real)))
  }

  /**
   * Mask_Combiner.py whose save line formats the globals `darkName` and `blankName`: the masks
   * are combined first, then the name is formatted, raising NameError for the first unbound name.
   */
  function RunCombiner(files: Files, globals: map<string, int>, darkName: string, blankName: string): (r: Result<Output, ScriptError>)
    ensures r.Success? <==> CombineFour(files).Success? && darkName in globals && blankName in globals
    ensures r.Success? ==> (r.value.mask, r.value.printed) == CombineFour(files).value
    ensures r.Success? ==> r.value.savedAs == CombinedMaskFile(globals[darkName], globals[blankName])
    ensures CombineFour(files).Failure? ==> r == Failure(CombineFour(files).error)
    ensures CombineFour(files).Success? && darkName !in globals ==> r == Failure(NameError(darkName))
  {
    var combined :- CombineFour(files);
    var dark :- LookUp(globals, darkName);
    var blank :- LookUp(globals, blankName);
    Success(Output(combined.0, combined.1, CombinedMaskFile(dark, blank)))
  }

  /** Mask_Combiner.py as written: the save line names `dark_run_1` and `blank_run_1`, which are unbound. */
  function CombinerScriptAsWritten(files: Files): (r: Result<Output, ScriptError>)
    ensures r.Failure?
  {
    RunCombiner(files, ScriptGlobals(), "dark_run_1", "blank_run_1")
  }

  /** Mask_Combiner.py with the save line naming the runs it loaded. */
  function CombinerScript(files: Files): (r: Result<Output, ScriptError>)
    ensures r.Success? <==> CombineFour(files).Success?
    ensures r.Success? ==> r.value.savedAs == CombinedMaskFile(DarkRun, BlankRun)
  {
    RunCombiner(files, ScriptGlobals(), "dark_run", "blank_run")
  }

  /** As written the script never saves: once the masks load, the save line raises NameError. */
  lemma CombinerAsWrittenNeverSaves(files: Files)
    ensures CombinerScriptAsWritten(files).Failure?
    ensures CombineFour(files).Success? ==> CombinerScriptAsWritten(files) == Failure(NameError("dark_run_1"))
  {
  }

  /** A 0/1 mask over the whole detector has a valid fraction in [0, 1]. */
  lemma FractionInUnitInterval(total: seq<real>)
    requires IsBinary(total) && |total| == DetectorPixels
    ensures 0.0 <= Sum(total) / (DetectorPixels as real) <= 1.0
  {
    BinarySumBounds(total);
  }

  /**
   * The corrected script succeeds iff the four masks exist with one size; it then saves their
   * product under Mask_Jungfrau_418_429.npy and prints its valid fraction. (AndReduceIsAnd,
   * AndReduceBelowEach and FractionInUnitInterval give the product's meaning on 0/1 masks.)
   */
  lemma CombinerScriptResult(files: Files)
    ensures var off, on := "run418_mask_xray.npy", "run429_mask_xray.npy";
      var r := CombinerScript(files);
      && (r.Success? <==>
        && off in files && on in files && LineMaskFile in files && ShadowMaskFile in files
        && |files[off]| == |files[on]| == |files[LineMaskFile]| == |files[ShadowMaskFile]|)
      && (r.Success? ==>
        && r.value.mask == AndReduce([files[off], files[on], files[LineMaskFile], files[ShadowMaskFile]], |files[off]|)
        && r.value.savedAs == "Mask_Jungfrau_418_429.npy"
        && r.value.printed == Sum(r.value.mask) / (DetectorPixels as real))
  {
    CombinerDarkFile();
    CombinerBlankFile();
    CombinerOutputFile();
  }
}
