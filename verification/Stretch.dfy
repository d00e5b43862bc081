/** The contrast-stretch look-up table, built in one pass over the cumulative histogram. */
module Stretch {
  import opened Histograms

  const MIN_PERCENTILE := 2.0
  const MAX_PERCENTILE := 98.0

  function Cumulative(h: Histogram, i: nat): nat
    requires i < LEVELS
  {
    Weight(h, i + 1)
  }

  function LowTarget(h: Histogram): real { Total(h) as real * (MIN_PERCENTILE / 100.0) }
  function HighTarget(h: Histogram): real { Total(h) as real * (MAX_PERCENTILE / 100.0) }

  /** Least level at or above `from` whose cumulative count reaches the target, or the last level. */
  function FirstReaching(h: Histogram, target: real, from: nat): (level: nat)
    requires from < LEVELS
    ensures from <= level < LEVELS
    ensures forall i :: from <= i < level ==> Cumulative(h, i) as real < target
    ensures Cumulative(h, LEVELS - 1) as real >= target ==> Cumulative(h, level) as real >= target
    decreases LEVELS - from
  {
    if from == LEVELS - 1 || Cumulative(h, from) as real >= target then from
    else FirstReaching(h, target, from + 1)
  }

  /** Upper end of the stretched range. */
  function High(h: Histogram): nat { FirstReaching(h, HighTarget(h), 0) }

  /** Lower end: the scan cannot settle on level 0, because 0 also means "not found yet". */
  function Low(h: Histogram): nat { if High(h) == 0 then 0 else FirstReaching(h, LowTarget(h), 1) }

  function Identity(): seq<nat> { seq(LEVELS, i => i) }

  /** The exact image of `d` steps above the lower end of a range of the given width. */
  function Scaled(d: nat, width: nat): real
    requires width > 0
  {
    d as real * (255.0 / width as real)
  }

  lemma ScaledRange(d: nat, width: nat)
    requires 0 <= d <= width && width > 0
    ensures 0.0 <= Scaled(d, width) <= 255.0
    ensures d == 0 ==> Scaled(d, width) == 0.0
    ensures d == width ==> Scaled(d, width) == 255.0
  {
  }

  lemma ScaledMonotone(d: nat, e: nat, width: nat)
    requires d <= e && width > 0
    ensures Scaled(d, width) <= Scaled(e, width)
  {
  }

  /** Where level `i` lands when `lo..hi` is stretched to the full range. */
  function Entry(lo: nat, hi: nat, i: nat): (e: nat)
    requires lo < hi
    ensures e <= 255
  {
    if i <= lo then 0 else if i >= hi then 255
    else
      ScaledRange(i - lo, hi - lo);
      Scaled(i - lo, hi - lo).Floor
  }

  lemma EntryMonotone(lo: nat, hi: nat, i: nat, j: nat)
    requires lo < hi && i <= j
    ensures Entry(lo, hi, i) <= Entry(lo, hi, j)
  {
    if lo < i && j < hi { ScaledMonotone(i - lo, j - lo, hi - lo); }
  }

  /** Outside `lo..hi` an entry is clamped; inside it is the exact linear image, rounded down. */
  predicate LinearEntry(lo: nat, hi: nat, i: nat, e: nat)
    requires lo < hi
  {
    && (i <= lo ==> e == 0)
    && (i >= hi ==> e == 255)
    && (lo <= i <= hi ==> e as real <= Scaled(i - lo, hi - lo) < e as real + 1.0)
  }

  lemma EntryIsLinear(lo: nat, hi: nat, i: nat)
    requires lo < hi
    ensures LinearEntry(lo, hi, i, Entry(lo, hi, i))
  {
  }

  function Stretched(lo: nat, hi: nat): (lut: seq<nat>)
    requires lo < hi
    ensures |lut| == LEVELS && forall i :: 0 <= i < LEVELS ==> lut[i] == Entry(lo, hi, i)
  {
    seq(LEVELS, i requires 0 <= i => Entry(lo, hi, i))
  }

  function Table(h: Histogram): seq<nat> {
    if Total(h) == 0 || High(h) <= Low(h) then Identity()
    else Stretched(Low(h), High(h))
  }

  /** First loop: the ends of the stretched range, in one pass over the cumulative counts. */
  method ScanRange(h: Histogram) returns (lo: nat, hi: nat)
    requires Total(h) > 0
    ensures lo == Low(h) && hi == High(h)
  {
    var cum := 0;
    lo, hi := 0, 255;
    var loTarget, hiTarget := LowTarget(h), HighTarget(h);
    TargetsInOrder(h);
    assert Cumulative(h, LEVELS - 1) == Total(h);
    var i := 0;
    while i < LEVELS
      invariant 0 <= i <= LEVELS && cum == Weight(h, i)
      invariant hi == 255
      invariant forall k :: 0 <= k < i ==> Cumulative(h, k) as real < hiTarget
      invariant lo == 0 ==> forall k :: 1 <= k < i ==> Cumulative(h, k) as real < loTarget
      invariant lo != 0 ==> 1 <= lo < i && Cumulative(h, lo) as real >= loTarget
                            && forall k :: 1 <= k < lo ==> Cumulative(h, k) as real < loTarget
    {
      cum := cum + h[i];
      assert cum == Cumulative(h, i);
      if cum as real >= loTarget && lo == 0 { lo := i; }
      if cum as real >= hiTarget {
        hi := i;
        break;
      }
      i := i + 1;
    }
    assert hi == High(h);
    if hi != 0 { assert lo == FirstReaching(h, loTarget, 1); }
  }

  method BuildContrastStretchLut(h: Histogram) returns (lut: seq<nat>)
    ensures lut == Table(h)
  {
    if Total(h) == 0 { return Identity(); }
    var lo, hi := ScanRange(h);
    if hi <= lo { return Identity(); }
    lut := FillTable(lo, hi);
  }

  /** Second loop: one entry per level. */
  method FillTable(lo: nat, hi: nat) returns (lut: seq<nat>)
    requires lo < hi
    ensures lut == Stretched(lo, hi)
  {
    lut := [];
    for j := 0 to LEVELS
      invariant |lut| == j && forall k :: 0 <= k < j ==> lut[k] == Entry(lo, hi, k)
    {
      if j <= lo {
        lut := lut + [0];
      } else if j >= hi {
        lut := lut + [255];
      } else {
        var entry := ScaleEntry(lo, hi, j);
        lut := lut + [entry];
      }
    }
  }

  method ScaleEntry(lo: nat, hi: nat, i: nat) returns (entry: nat)
    requires lo < i < hi
    ensures entry == Entry(lo, hi, i)
  {
    ScaledRange(i - lo, hi - lo);
    var scale := 255.0 / (hi - lo) as real;
    entry := ((i - lo) as real * scale).Floor;
  }

  // ---- What the table means -------------------------------------------------------------------

  /** 256 entries in 0..255, never decreasing. */
  lemma TableShape(h: Histogram)
    ensures |Table(h)| == 256
    ensures forall i :: 0 <= i < 256 ==> Table(h)[i] <= 255
    ensures forall i, j :: 0 <= i <= j < 256 ==> Table(h)[i] <= Table(h)[j]
  {
    if Total(h) != 0 && High(h) > Low(h) {
      forall i, j | 0 <= i <= j < LEVELS ensures Table(h)[i] <= Table(h)[j] {
        EntryMonotone(Low(h), High(h), i, j);
      }
    }
  }

  /**
   Every entry is the linear image of its level between the two ends, rounded down: `255 * d / width`
   for a level `d` above the lower end.
   */
  lemma TableIsLinear(h: Histogram, i: nat)
    requires i < LEVELS && Total(h) > 0 && Low(h) < High(h)
    ensures i <= Low(h) ==> Table(h)[i] == 0
    ensures i >= High(h) ==> Table(h)[i] == 255
    ensures Low(h) <= i <= High(h) ==>
              var d, width := i - Low(h), High(h) - Low(h);
              Table(h)[i] * width <= 255 * d < (Table(h)[i] + 1) * width
  {
    EntryIsRounded(Low(h), High(h), i, Table(h)[i]);
  }

  lemma EntryIsRounded(lo: nat, hi: nat, i: nat, e: nat)
    requires lo < hi && e == Entry(lo, hi, i)
    ensures i <= lo ==> e == 0
    ensures i >= hi ==> e == 255
    ensures lo <= i <= hi ==> e * (hi - lo) <= 255 * (i - lo) < (e + 1) * (hi - lo)
  {
    EntryIsLinear(lo, hi, i);
    if lo <= i <= hi { RoundedDown(i - lo, hi - lo, e); }
  }

  lemma RoundedDown(d: nat, width: nat, e: nat)
    requires width > 0 && e as real <= Scaled(d, width) < e as real + 1.0
    ensures e * width <= 255 * d < (e + 1) * width
  {
    var w, x := width as real, Scaled(d, width);
    assert x * w == 255.0 * d as real;
    assert e as real * w <= x * w < (e as real + 1.0) * w;
    assert (e * width) as real == e as real * w;
    assert ((e + 1) * width) as real == (e as real + 1.0) * w;
  }

  lemma TargetsInOrder(h: Histogram)
    ensures LowTarget(h) == Total(h) as real * 0.02 && HighTarget(h) == Total(h) as real * 0.98
    ensures LowTarget(h) <= HighTarget(h) <= Total(h) as real
  {
  }

  /**
   The clipped tails are small: at most 2% of the pixels lie above the upper end, and fewer than 2%
   lie strictly between level 0 and the lower end. Both ends are the first levels for which that holds.
   */
  lemma ClippedTails(h: Histogram)
    requires Total(h) > 0
    ensures Low(h) <= High(h)
    ensures (Total(h) - Cumulative(h, High(h))) as real <= Total(h) as real * 0.02
    ensures Low(h) >= 1 ==> (Cumulative(h, Low(h) - 1) - h[0]) as real < Total(h) as real * 0.02
    ensures Low(h) >= 1 ==> Cumulative(h, Low(h)) as real >= Total(h) as real * 0.02
    ensures High(h) >= 1 ==> Cumulative(h, High(h) - 1) as real < Total(h) as real * 0.98
  {
    TargetsInOrder(h);
    var lo, hi := Low(h), High(h);
    assert Cumulative(h, LEVELS - 1) == Total(h);
    if lo >= 2 {
      assert Cumulative(h, lo - 1) as real < LowTarget(h);
    } else if lo == 1 {
      assert Cumulative(h, 0) == Weight(h, 0) + h[0];
    }
  }

  /** For an empty histogram or an empty range the table leaves every level as it is. */
  lemma TableKeepsLevels(h: Histogram)
    requires Total(h) == 0 || High(h) <= Low(h)
    ensures |Table(h)| == LEVELS && forall i :: 0 <= i < LEVELS ==> Table(h)[i] == i
  {
  }

  lemma OneLevelRange(h: Histogram, g: nat)
    requires Total(h) > 0 && 1 <= g < LEVELS
    requires Weight(h, g) as real < LowTarget(h) && Weight(h, g + 1) as real >= HighTarget(h)
    ensures High(h) == g && Low(h) == g
  {
    TargetsInOrder(h);
    assert Cumulative(h, LEVELS - 1) == Total(h);
    assert Cumulative(h, g) == Weight(h, g + 1);
    forall i | 0 <= i < g ensures Cumulative(h, i) as real < LowTarget(h) { WeightMonotone(h, i + 1, g); }
    assert Cumulative(h, High(h)) as real >= HighTarget(h);
    assert Cumulative(h, Low(h)) as real >= LowTarget(h);
  }

  /**
   The range is empty exactly when the darkest two levels together reach the high target, or one
   other level alone lifts the count from below the low target to the high one.
   */
  lemma RangeEmptyIff(h: Histogram)
    requires Total(h) > 0
    ensures High(h) <= Low(h) <==>
            || Weight(h, 2) as real >= HighTarget(h)
            || exists g :: 2 <= g < LEVELS && Weight(h, g) as real < LowTarget(h)
                           && Weight(h, g + 1) as real >= HighTarget(h)
  {
    TargetsInOrder(h);
    ClippedTails(h);
    var hi := High(h);
    assert Cumulative(h, LEVELS - 1) == Total(h);
    if Weight(h, 2) as real >= HighTarget(h) {
      assert Cumulative(h, 1) == Weight(h, 2);
    } else {
      WeightMonotone(h, 1, 2);
      assert Cumulative(h, 0) == Weight(h, 1) && Cumulative(h, 1) == Weight(h, 2);
      assert hi >= 2;
      if High(h) <= Low(h) {
        assert Cumulative(h, hi - 1) == Weight(h, hi) && Cumulative(h, hi) == Weight(h, hi + 1);
      }
      if g :| 2 <= g < LEVELS && Weight(h, g) as real < LowTarget(h) && Weight(h, g + 1) as real >= HighTarget(h) {
        OneLevelRange(h, g);
      }
    }
  }

  /** The lower end the percentile rule asks for: the least level of all that reaches the low target. */
  function LowByPercentile(h: Histogram): nat { FirstReaching(h, LowTarget(h), 0) }

  /**
   The scan finds that level exactly when level 0 alone does not reach the low target, or reaches
   even the high one. Otherwise the lower end slips to level 1.
   */
  lemma LowIsPercentileIff(h: Histogram)
    requires Total(h) > 0
    ensures Low(h) == LowByPercentile(h) <==> (h[0] as real < LowTarget(h) || h[0] as real >= HighTarget(h))
    ensures LowTarget(h) <= h[0] as real < HighTarget(h) ==> LowByPercentile(h) == 0 && Low(h) == 1
  {
    TargetsInOrder(h);
    assert Cumulative(h, 0) == Weight(h, 0) + h[0];
    if h[0] as real >= LowTarget(h) && High(h) > 0 { WeightMonotone(h, 1, 2); }
  }

  /** A picture that is half black: the percentile rule keeps level 0 as the lower end, the scan moves it to 1. */
  lemma HalfBlackSlips()
    ensures var h: Histogram := seq(LEVELS, i => if i == 0 || i == 255 then 50 else 0);
            Total(h) == 100 && LowByPercentile(h) == 0 && Low(h) == 1
  {
    var h: Histogram := seq(LEVELS, i => if i == 0 || i == 255 then 50 else 0);
    WeightMonotone(h, 1, 255);
    assert Weight(h, 1) == Weight(h, 0) + h[0];
    assert Weight(h, 256) == Weight(h, 255) + h[255];
    assert Cumulative(h, 0) == 50;
    LowIsPercentileIff(h);
  }
}
