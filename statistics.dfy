/**
  Exact arithmetic behind the detector's "mean + 2 sd" tests.

  The source computes, over a list of counts v_1 .. v_n,
    mean = (v_1 + ... + v_n) / n   and   sd = sqrt(sd_temp),  sd_temp = (mean - v_1)^2 + ... + (mean - v_n)^2
  (sd_temp is NOT divided by n), and then asks whether a count v satisfies
  v > mean + 2 * sd.

  A `Stats` value keeps the mean as the fraction numer / denom and the
  deviation scaled by denom^2, as an integer:
    dev = (numer - denom * v_1)^2 + ... + (numer - denom * v_n)^2.
  DevIsScaledSdTemp proves dev = denom^2 * sd_temp, so sd = sqrt(dev) / denom,
  and the source's test reads
    v > numer / denom + 2 * sqrt(dev) / denom
      <==>  denom * v - numer > 2 * sqrt(dev)
      <==>  d > 0 && d * d > 4 * dev      where d = denom * v - numer,
  which is the predicate Exceeds below: ExceedsIsTwoSigma proves this chain for
  every real square root of dev, and ExceedsIsMeanPlusTwoSd states it for
  StatsOf(xs) against the source's own mean and sd_temp.
 */
module Statistics {

  /** A (mean, sd) pair as the source returns it: mean = numer / denom, sd = sqrt(dev) / denom. */
  datatype Stats = Stats(numer: int, denom: int, dev: int)

  /** Sum of a sequence of counts, accumulated left to right as the source's loops do. */
  function Sum(xs: seq<int>): int
  {
    if |xs| == 0 then 0 else Sum(xs[..|xs| - 1]) + xs[|xs| - 1]
  }

  function Square(x: int): int
  {
    x * x
  }

  /**
    The source's `sd_temp` for the mean numer / denom, scaled by denom^2:
    the sum over xs of (numer - denom * x)^2.  It is never negative.
   */
  function Dev(xs: seq<int>, numer: int, denom: int): (r: int)
    ensures r >= 0
  {
    if |xs| == 0 then 0
    else Dev(xs[..|xs| - 1], numer, denom) + Square(Gap(numer, denom, xs[|xs| - 1]))
  }

  lemma SumSnoc(xs: seq<int>, x: int)
    ensures Sum(xs + [x]) == Sum(xs) + x
  {
    assert (xs + [x])[..|xs|] == xs;
  }

  lemma DevSnoc(xs: seq<int>, x: int, numer: int, denom: int)
    ensures Dev(xs + [x], numer, denom) == Dev(xs, numer, denom) + Square(Gap(numer, denom, x))
  {
    assert (xs + [x])[..|xs|] == xs;
  }

  /** One more step of the source's summing loop over xs. */
  lemma SumStep(xs: seq<int>, i: int)
    requires 0 <= i < |xs|
    ensures Sum(xs[..i + 1]) == Sum(xs[..i]) + xs[i]
  {
    assert xs[..i + 1] == xs[..i] + [xs[i]];
    SumSnoc(xs[..i], xs[i]);
  }

  /** One more step of the source's deviation loop over xs. */
  lemma DevStep(xs: seq<int>, i: int, numer: int, denom: int)
    requires 0 <= i < |xs|
    ensures Dev(xs[..i + 1], numer, denom) == Dev(xs[..i], numer, denom) + Square(Gap(numer, denom, xs[i]))
  {
    assert xs[..i + 1] == xs[..i] + [xs[i]];
    DevSnoc(xs[..i], xs[i], numer, denom);
  }

  /**
    The source's `sd_temp` (utils.py:51, 116): the sum of (mean - x)^2 over xs,
    with the mean as a real number.
   */
  function SdTemp(xs: seq<int>, mean: real): (r: real)
    ensures r >= 0.0
  {
    if |xs| == 0 then 0.0
    else
      var e := mean - xs[|xs| - 1] as real;
      SdTemp(xs[..|xs| - 1], mean) + e * e
  }

  /** The mean a Stats value stands for. */
  function Mean(s: Stats): real
    requires s.denom > 0
  {
    s.numer as real / s.denom as real
  }

  lemma PositiveProduct(x: real, y: real)
    requires x > 0.0 && y > 0.0
    ensures x * y > 0.0
  {
  }

  lemma NonNegativeProduct(x: real, y: real)
    requires x >= 0.0 && y >= 0.0
    ensures x * y >= 0.0
  {
  }

  /** r is the square root of x that the source's `math.sqrt` stands for. */
  predicate IsSqrt(r: real, x: real)
  {
    r >= 0.0 && r * r == x
  }

  /**
    The integer d is the real v multiplied by n^2.  Facts of this shape, and
    IsQuotient below, are stated through a predicate so that a proof can match
    them as a whole.
   */
  predicate ScaledBy(d: int, n: int, v: real)
  {
    d as real == (n as real * n as real) * v
  }

  /** m is the real quotient numer / denom. */
  predicate IsQuotient(m: real, numer: int, denom: int)
  {
    numer as real == denom as real * m
  }

  /** Adding a scaled term to a scaled sum keeps the scale: the step of DevIsScaledSdTemp. */
  lemma ScaledSum(dev: int, rest: int, gap: int, n: int, sd: real, sdRest: real, e2: real)
    requires dev == rest + gap && sd == sdRest + e2
    requires ScaledBy(rest, n, sdRest) && ScaledBy(gap, n, e2)
    ensures ScaledBy(dev, n, sd)
  {
    var scale := n as real * n as real;
    assert scale * (sdRest + e2) == scale * sdRest + scale * e2;
  }

  /** The mean multiplied back by the count gives the total. */
  lemma MeanTimesCount(s: Stats)
    requires s.denom > 0
    ensures IsQuotient(Mean(s), s.numer, s.denom)
  {
  }

  /** Multiplying both sides by a positive n keeps a strict comparison. */
  lemma ScaleCompare(n: real, a: real, b: real)
    requires n > 0.0
    ensures n * a > n * b <==> a > b
  {
    assert n * a - n * b == n * (a - b);
    if a > b {
      PositiveProduct(n, a - b);
    } else {
      NonNegativeProduct(n, b - a);
    }
  }

  /** One squared scaled gap is denom^2 times the squared distance e of x from the mean m = numer / denom. */
  lemma GapScaled(numer: int, denom: int, x: int, m: real, e: real)
    requires IsQuotient(m, numer, denom) && e == m - x as real
    ensures ScaledBy(Square(Gap(numer, denom, x)), denom, e * e)
  {
    var n := denom as real;
    var g := Gap(numer, denom, x);
    assert Square(g) as real == (g as real) * (g as real);
    assert g as real == n * e;
  }

  lemma SdTempSnoc(xs: seq<int>, x: int, m: real, e: real)
    requires e == m - x as real
    ensures SdTemp(xs + [x], m) == SdTemp(xs, m) + e * e
  {
    assert (xs + [x])[..|xs|] == xs;
  }

  /** Appending one count keeps Dev at denom^2 times SdTemp. */
  lemma DevScaledSnoc(xs: seq<int>, x: int, numer: int, denom: int, m: real)
    requires IsQuotient(m, numer, denom)
    requires ScaledBy(Dev(xs, numer, denom), denom, SdTemp(xs, m))
    ensures ScaledBy(Dev(xs + [x], numer, denom), denom, SdTemp(xs + [x], m))
  {
    var e := m - x as real;
    GapScaled(numer, denom, x, m, e);
    DevSnoc(xs, x, numer, denom);
    SdTempSnoc(xs, x, m, e);
    ScaledSum(Dev(xs + [x], numer, denom), Dev(xs, numer, denom), Square(Gap(numer, denom, x)),
              denom, SdTemp(xs + [x], m), SdTemp(xs, m), e * e);
  }

  /**
    The integer deviation is the source's sd_temp for the mean m = numer / denom,
    scaled by denom^2.
   */
  lemma {:induction false} DevIsScaledSdTemp(xs: seq<int>, numer: int, denom: int, m: real)
    requires IsQuotient(m, numer, denom)
    ensures ScaledBy(Dev(xs, numer, denom), denom, SdTemp(xs, m))
    decreases |xs|
  {
    if |xs| > 0 {
      var init, x := xs[..|xs| - 1], xs[|xs| - 1];
      assert xs == init + [x];
      DevIsScaledSdTemp(init, numer, denom, m);
      DevScaledSnoc(init, x, numer, denom, m);
    }
  }

  /**
    Mean and deviation of a non-empty sequence of counts, as the source's two
    loops compute them, in integers (StatsOfIsSourceStats gives their real values).
   */
  function StatsOf(xs: seq<int>): (s: Stats)
    requires |xs| > 0
    ensures s.numer == Sum(xs) && s.denom == |xs| > 0
    ensures s.dev == Dev(xs, s.numer, s.denom) >= 0
  {
    Stats(Sum(xs), |xs|, Dev(xs, Sum(xs), |xs|))
  }

  /** The mean of StatsOf(xs) is the source's mean of xs, a real number. */
  lemma StatsOfMean(xs: seq<int>)
    requires |xs| > 0
    ensures Mean(StatsOf(xs)) == Sum(xs) as real / |xs| as real
  {
  }

  /**
    The dev of StatsOf(xs) is the source's sd_temp for the mean of xs, times
    the count squared.
   */
  lemma StatsOfIsSourceStats(xs: seq<int>)
    requires |xs| > 0
    ensures ScaledBy(StatsOf(xs).dev, StatsOf(xs).denom, SdTemp(xs, Mean(StatsOf(xs))))
  {
    MeanTimesCount(StatsOf(xs));
    DevIsScaledSdTemp(xs, StatsOf(xs).numer, StatsOf(xs).denom, Mean(StatsOf(xs)));
  }

  /** The source's test `v > mean + 2 * sd`, exactly, for a Stats value with denom > 0. */
  predicate Exceeds(v: int, s: Stats)
  {
    var d := s.denom * v - s.numer;
    d > 0 && Square(d) > 4 * s.dev
  }

  /** For non-negative a and b, a < b exactly when a^2 < b^2. */
  lemma SquareMonotone(a: int, b: int)
    requires 0 <= a && 0 <= b
    ensures a < b <==> Square(a) < Square(b)
  {
    if a < b {
      assert a * a <= a * b;
      assert a * b < b * b;
    } else {
      assert b * b <= b * a;
      assert b * a <= a * a;
    }
  }

  /** For non-negative a and b, a < b exactly when a^2 < b^2. */
  lemma SquareMonotoneReal(a: real, b: real)
    requires 0.0 <= a && 0.0 <= b
    ensures a < b <==> a * a < b * b
  {
    assert (b - a) * (b + a) == b * b - a * a;
    if a < b {
      PositiveProduct(b - a, b + a);
    } else {
      NonNegativeProduct(a - b, a + b);
      assert (a - b) * (a + b) == a * a - b * b;
    }
  }

  /**
    For every real square root k of dev (k = denom * sd), Exceeds is the
    source's comparison `v > mean + 2 * sd`, multiplied through by denom.
   */
  lemma ExceedsIsTwoSigma(v: int, s: Stats, k: real)
    requires s.denom > 0 && IsSqrt(k, s.dev as real)
    ensures Exceeds(v, s) <==> (s.denom * v - s.numer) as real > 2.0 * k
  {
    var d := s.denom * v - s.numer;
    var dr := d as real;
    assert Square(d) as real == dr * dr;
    assert (4 * s.dev) as real == (2.0 * k) * (2.0 * k);
    if d > 0 {
      SquareMonotoneReal(2.0 * k, dr);
    }
  }

  /**
    For every square root sd of sq, where dev is sq scaled by denom^2, Exceeds
    is the source's comparison `v > mean + 2 * sd`.
   */
  lemma ExceedsIsMeanPlusTwoSdOf(v: int, s: Stats, sd: real, sq: real)
    requires s.denom > 0 && IsSqrt(sd, sq) && ScaledBy(s.dev, s.denom, sq)
    ensures Exceeds(v, s) <==> v as real > Mean(s) + 2.0 * sd
  {
    var n, m := s.denom as real, Mean(s);
    var k := n * sd;
    MeanTimesCount(s);
    assert k * k == s.dev as real by {
      assert (n * sd) * (n * sd) == (n * n) * (sd * sd);
    }
    ExceedsIsTwoSigma(v, s, k);
    assert (s.denom * v - s.numer) as real == n * (v as real - m);
    assert 2.0 * k == n * (2.0 * sd);
    ScaleCompare(n, v as real - m, 2.0 * sd);
  }

  /**
    Exceeds(v, StatsOf(xs)) is the source's test `v > mean + 2 * sd` with the
    mean of xs and sd the square root of the source's sd_temp (any sd >= 0 with
    sd * sd == sd_temp is that root).
   */
  lemma ExceedsIsMeanPlusTwoSd(xs: seq<int>, v: int, sd: real)
    requires |xs| > 0
    requires IsSqrt(sd, SdTemp(xs, Mean(StatsOf(xs))))
    ensures Exceeds(v, StatsOf(xs)) <==> v as real > Mean(StatsOf(xs)) + 2.0 * sd
  {
    StatsOfIsSourceStats(xs);
    ExceedsIsMeanPlusTwoSdOf(v, StatsOf(xs), sd, SdTemp(xs, Mean(StatsOf(xs))));
  }

  /** The test is a threshold: every count above an exceeding count exceeds too. */
  lemma ExceedsUpwardClosed(v: int, w: int, s: Stats)
    requires s.denom > 0 && Exceeds(v, s) && v <= w
    ensures Exceeds(w, s)
  {
    var d, e := s.denom * v - s.numer, s.denom * w - s.numer;
    assert d <= e by {
      assert s.denom * v <= s.denom * w;
    }
    if d < e {
      SquareMonotone(d, e);
    }
  }

  /** How far x lies from the mean numer / denom, scaled by denom. */
  function Gap(numer: int, denom: int, x: int): int
  {
    numer - denom * x
  }

  lemma SquareZero(x: int)
    ensures Square(x) == 0 <==> x == 0
  {
  }

  /** The deviation vanishes exactly when every value equals the mean numer / denom. */
  lemma {:induction false} DevZeroIff(xs: seq<int>, numer: int, denom: int)
    ensures Dev(xs, numer, denom) == 0 <==> forall i :: 0 <= i < |xs| ==> Gap(numer, denom, xs[i]) == 0
  {
    if |xs| > 0 {
      var init, x := xs[..|xs| - 1], xs[|xs| - 1];
      DevZeroIff(init, numer, denom);
      assert Dev(xs, numer, denom) == Dev(init, numer, denom) + Square(Gap(numer, denom, x));
      SquareZero(Gap(numer, denom, x));
      assert forall i :: 0 <= i < |init| ==> init[i] == xs[i];
    }
  }

  lemma {:induction false} SumConstant(xs: seq<int>, c: int)
    requires forall i :: 0 <= i < |xs| ==> xs[i] == c
    ensures Sum(xs) == |xs| * c
  {
    if |xs| > 0 {
      SumConstant(xs[..|xs| - 1], c);
    }
  }

  /**
    A history whose values all equal c has mean c and zero deviation, so every
    count above c trips the test: a baseline of equal values tolerates no excess.
   */
  lemma ConstantHistoryTripsOnAnyExcess(xs: seq<int>, c: int, v: int)
    requires |xs| > 0
    requires forall i :: 0 <= i < |xs| ==> xs[i] == c
    ensures StatsOf(xs) == Stats(|xs| * c, |xs|, 0)
    ensures Exceeds(v, StatsOf(xs)) <==> v > c
  {
    SumConstant(xs, c);
    var n := |xs|;
    DevZeroIff(xs, n * c, n);
    var d := n * v - n * c;
    assert d == n * (v - c);
    if v > c {
      assert d > 0;
      assert Square(d) > 0 by {
        assert d * d >= d;
      }
    } else {
      assert d <= 0;
    }
  }
}
