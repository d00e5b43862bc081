/** Grey-level histograms and the sums that the image preprocessing runs over them. */
module Histograms {
  const LEVELS := 256

  type Histogram = h: seq<nat> | |h| == LEVELS witness seq(LEVELS, _ => 0)

  /** Number of pixels on levels below `n`. */
  function Weight(h: Histogram, n: nat): nat
    requires n <= LEVELS
  {
    if n == 0 then 0 else Weight(h, n - 1) + h[n - 1]
  }

  /** Sum of level times count below `n`. */
  function Moment(h: Histogram, n: nat): nat
    requires n <= LEVELS
  {
    if n == 0 then 0 else Moment(h, n - 1) + (n - 1) * h[n - 1]
  }

  function Total(h: Histogram): nat { Weight(h, LEVELS) }

  lemma {:induction false} WeightMonotone(h: Histogram, a: nat, b: nat)
    requires a <= b <= LEVELS
    ensures Weight(h, a) <= Weight(h, b)
    ensures Weight(h, a) == Weight(h, b) ==> Moment(h, a) == Moment(h, b)
    ensures Weight(h, a) == Weight(h, b) <==> forall i :: a <= i < b ==> h[i] == 0
    decreases b - a
  {
    if a < b { WeightMonotone(h, a, b - 1); }
  }

  lemma {:induction false} MomentMonotone(h: Histogram, a: nat, b: nat)
    requires a <= b <= LEVELS
    ensures Moment(h, a) <= Moment(h, b)
    decreases b - a
  {
    if a < b { MomentMonotone(h, a, b - 1); }
  }

  // ---- Real-valued sums over a range of levels ------------------------------------------------

  function SumW(h: Histogram, a: nat, b: nat): real
    requires a <= b <= LEVELS
    decreases b
  {
    if a == b then 0.0 else SumW(h, a, b - 1) + h[b - 1] as real
  }

  function SumS(h: Histogram, a: nat, b: nat): real
    requires a <= b <= LEVELS
    decreases b
  {
    if a == b then 0.0 else SumS(h, a, b - 1) + Times((b - 1) as real, h[b - 1] as real)
  }

  function SumQ(h: Histogram, a: nat, b: nat): real
    requires a <= b <= LEVELS
    decreases b
  {
    if a == b then 0.0
    else SumQ(h, a, b - 1) + Times((b - 1) as real, Times((b - 1) as real, h[b - 1] as real))
  }

  function Times(x: real, y: real): real { x * y }

  function Square(x: real): real { x * x }

  /** Squared distance to `m` of `c` pixels on level `x`. */
  function Spread(c: real, x: real, m: real): real { Times(c, Square(x - m)) }

  /** Sum of squared distances to `m` of the pixels on levels `a..b`. */
  function SqDev(h: Histogram, a: nat, b: nat, m: real): real
    requires a <= b <= LEVELS
    decreases b
  {
    if a == b then 0.0 else SqDev(h, a, b - 1, m) + Spread(h[b - 1] as real, (b - 1) as real, m)
  }

  /** The closed form of a sum of squared distances, from second moment, moment and weight. */
  function Closed(q: real, s: real, w: real, m: real): real { q - 2.0 * Times(m, s) + Times(Square(m), w) }

  lemma ClosedStep(q: real, s: real, w: real, m: real, c: real, x: real)
    ensures Closed(q, s, w, m) + Spread(c, x, m) == Closed(q + Times(x, Times(x, c)), s + Times(x, c), w + c, m)
  {
  }

  lemma {:induction false} SqDevClosed(h: Histogram, a: nat, b: nat, m: real)
    requires a <= b <= LEVELS
    ensures SqDev(h, a, b, m) == Closed(SumQ(h, a, b), SumS(h, a, b), SumW(h, a, b), m)
    decreases b
  {
    if a < b {
      SqDevClosed(h, a, b - 1, m);
      ClosedStep(SumQ(h, a, b - 1), SumS(h, a, b - 1), SumW(h, a, b - 1), m, h[b - 1] as real, (b - 1) as real);
    }
  }

  lemma Cast(x: nat, y: nat)
    ensures (x * y) as real == Times(x as real, y as real)
  {
  }

  /** The integer sums of the loops and the real sums agree. */
  lemma {:induction false} WeightAgrees(h: Histogram, a: nat, b: nat)
    requires a <= b <= LEVELS
    ensures SumW(h, a, b) == (Weight(h, b) - Weight(h, a)) as real
    decreases b
  {
    if a < b { WeightAgrees(h, a, b - 1); }
  }

  lemma {:induction false} MomentAgrees(h: Histogram, a: nat, b: nat)
    requires a <= b <= LEVELS
    ensures SumS(h, a, b) == (Moment(h, b) - Moment(h, a)) as real
    decreases b
  {
    if a < b {
      MomentAgrees(h, a, b - 1);
      Cast(b - 1, h[b - 1]);
    }
  }

  lemma {:induction false} SecondAdds(h: Histogram, a: nat, b: nat)
    requires a <= b <= LEVELS
    ensures SumQ(h, 0, b) == SumQ(h, 0, a) + SumQ(h, a, b)
    decreases b
  {
    if a < b { SecondAdds(h, a, b - 1); }
  }
}
