/** Stretching and binarising an image, one pixel after another. */
module Preprocess {
  import opened Histograms
  import Otsu
  import Stretch

  type Image = img: seq<nat> | forall i :: 0 <= i < |img| ==> img[i] < LEVELS

  function Count(img: Image, g: nat): nat {
    if img == [] then 0 else (if img[0] == g then 1 else 0) + Count(img[1..], g)
  }

  function CountBelow(img: Image, n: nat): nat {
    if img == [] then 0 else (if img[0] < n then 1 else 0) + CountBelow(img[1..], n)
  }

  function HistogramOf(img: Image): Histogram { seq(LEVELS, g requires 0 <= g => Count(img, g)) }

  lemma {:induction false} CountBelowStep(img: Image, n: nat)
    ensures CountBelow(img, n + 1) == CountBelow(img, n) + Count(img, n)
    decreases |img|
  {
    if img != [] { CountBelowStep(img[1..], n); }
  }

  lemma {:induction false} WeightCounts(img: Image, n: nat)
    requires n <= LEVELS
    ensures Weight(HistogramOf(img), n) == CountBelow(img, n)
    decreases n
  {
    if n == 0 {
      NothingBelowZero(img);
    } else {
      WeightCounts(img, n - 1);
      CountBelowStep(img, n - 1);
    }
  }

  lemma {:induction false} NothingBelowZero(img: Image)
    ensures CountBelow(img, 0) == 0
    decreases |img|
  {
    if img != [] { NothingBelowZero(img[1..]); }
  }

  lemma {:induction false} AllBelowTop(img: Image)
    ensures CountBelow(img, LEVELS) == |img|
    decreases |img|
  {
    if img != [] { AllBelowTop(img[1..]); }
  }

  /** A histogram accounts for every pixel, and its cumulative counts count the darker pixels. */
  lemma HistogramIsComplete(img: Image)
    ensures Total(HistogramOf(img)) == |img|
  {
    WeightCounts(img, LEVELS);
    AllBelowTop(img);
  }

  /** Replace each pixel by its table entry. */
  method Point(img: Image, lut: seq<nat>) returns (out: Image)
    requires |lut| == LEVELS && forall i :: 0 <= i < LEVELS ==> lut[i] < LEVELS
    ensures |out| == |img| && forall i :: 0 <= i < |img| ==> out[i] == lut[img[i]]
  {
    out := [];
    for i := 0 to |img|
      invariant |out| == i && forall k :: 0 <= k < i ==> out[k] == lut[img[k]]
    {
      out := out + [lut[img[i]]];
    }
  }

  /** The least cut that separates, through a non-decreasing table, the levels mapped above `threshold`. */
  function Cut(lut: seq<nat>, threshold: nat, from: nat): (g: int)
    requires |lut| == LEVELS && from <= LEVELS
    requires forall i, j :: 0 <= i <= j < LEVELS ==> lut[i] <= lut[j]
    requires forall i :: 0 <= i < from ==> lut[i] <= threshold
    ensures -1 <= g < LEVELS
    ensures forall i :: 0 <= i < LEVELS ==> (lut[i] > threshold <==> i > g)
    decreases LEVELS - from
  {
    if from == LEVELS || lut[from] > threshold then from - 1 else Cut(lut, threshold, from + 1)
  }

  function Binarised(p: nat, g: int): nat { if p > g then 255 else 0 }

  /** The image is cut at grey level `g`: white above, black at or below. */
  predicate CutAt(img: Image, binary: Image, g: int) {
    |binary| == |img| && forall i :: 0 <= i < |img| ==> binary[i] == Binarised(img[i], g)
  }

  /** `out` is `img` mapped through the stretch table of its own histogram. */
  predicate Stretched(img: Image, out: Image) {
    Stretch.TableShape(HistogramOf(img));
    |out| == |img| && forall i :: 0 <= i < |img| ==> out[i] == Stretch.Table(HistogramOf(img))[img[i]]
  }

  method Binarise(img: Image, threshold: nat) returns (binary: Image)
    ensures CutAt(img, binary, threshold)
  {
    binary := [];
    for i := 0 to |img|
      invariant |binary| == i
      invariant forall k :: 0 <= k < i ==> binary[k] == Binarised(img[k], threshold)
    {
      binary := binary + [if img[i] > threshold then 255 else 0];
    }
  }

  /** Grey image to black and white: stretch, then cut at the Otsu threshold of the stretched histogram. */
  method PreprocessImage(img: Image) returns (enhanced: Image, threshold: nat, binary: Image)
    ensures Stretched(img, enhanced)
    ensures Otsu.IsOtsu(HistogramOf(enhanced), threshold)
    ensures CutAt(enhanced, binary, threshold)
  {
    var lut := Stretch.BuildContrastStretchLut(HistogramOf(img));
    Stretch.TableShape(HistogramOf(img));
    enhanced := Point(img, lut);
    threshold := Otsu.OtsuThreshold(HistogramOf(enhanced));
    binary := Binarise(enhanced, threshold);
  }

  lemma {:induction false} CountFlat(img: Image, g: nat, level: nat)
    requires forall i :: 0 <= i < |img| ==> img[i] == g
    ensures Count(img, level) == if level == g then |img| else 0
    decreases |img|
  {
    if img != [] { CountFlat(img[1..], g, level); }
  }

  /** The histogram of an image of one level: nothing below it, everything from it on. */
  lemma {:induction false} WeightFlat(img: Image, g: nat, n: nat)
    requires n <= LEVELS && forall i :: 0 <= i < |img| ==> img[i] == g
    ensures Weight(HistogramOf(img), n) == if n <= g then 0 else |img|
    decreases n
  {
    if n > 0 {
      WeightFlat(img, g, n - 1);
      CountFlat(img, g, n - 1);
    }
  }

  /** An image of a single level is not stretched, gets the default threshold, and turns white exactly above it. */
  lemma FlatImage(img: Image, enhanced: Image, threshold: nat, binary: Image, g: nat)
    requires img != [] && forall i :: 0 <= i < |img| ==> img[i] == g
    requires Stretched(img, enhanced) && Otsu.IsOtsu(HistogramOf(enhanced), threshold)
    requires CutAt(enhanced, binary, threshold)
    ensures enhanced == img && threshold == 128
    ensures forall i :: 0 <= i < |img| ==> binary[i] == (if g > 128 then 255 else 0)
  {
    var h := HistogramOf(img);
    assert img[0] == g;
    FlatRangeIsEmpty(img, g);
    Stretch.TableKeepsLevels(h);
    assert enhanced == img;
    forall level | 0 <= level < LEVELS && level != g ensures h[level] == 0 { CountFlat(img, g, level); }
    Otsu.OtsuTies(h, threshold);
  }

  lemma FlatRangeIsEmpty(img: Image, g: nat)
    requires img != [] && g < LEVELS && forall i :: 0 <= i < |img| ==> img[i] == g
    ensures Total(HistogramOf(img)) > 0 && Stretch.High(HistogramOf(img)) <= Stretch.Low(HistogramOf(img))
  {
    var h := HistogramOf(img);
    WeightFlat(img, g, LEVELS);
    Stretch.TargetsInOrder(h);
    if g < 2 {
      WeightFlat(img, g, 2);
    } else {
      WeightFlat(img, g, g);
      WeightFlat(img, g, g + 1);
    }
    Stretch.RangeEmptyIff(h);
  }

  /**
   Stretching and then cutting the stretched image anywhere is one single cut on the original grey
   level, the same for every pixel of every image with this histogram; no pixel is lost on the way.
   */
  lemma StretchThenCutIsOneCut(img: Image, enhanced: Image, threshold: nat, binary: Image) returns (g: int)
    requires Stretched(img, enhanced) && CutAt(enhanced, binary, threshold)
    ensures -1 <= g < LEVELS && CutAt(img, binary, g)
    ensures Total(HistogramOf(enhanced)) == Total(HistogramOf(img)) == |img|
  {
    Stretch.TableShape(HistogramOf(img));
    g := Cut(Stretch.Table(HistogramOf(img)), threshold, 0);
    HistogramIsComplete(img);
    HistogramIsComplete(enhanced);
  }
}
