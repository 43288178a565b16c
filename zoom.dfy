/** The zoom actuator arithmetic of the local simulator: limits on the image
    distance s', magnification `s'/f - 1`, its percentage of the configured
    range, and how far the step loops of `zoom_in` and `home_zoom` move s'. */
module Zoom {
  import opened Motion

  /** `config['zoom']` and `config['lens']['focal_length']`. */
  datatype ZoomConfig = ZoomConfig(
    minSPrime: real,
    maxSPrime: real,
    stepsPerMm: real,
    focalLength: real)

  /** The constructor divides by the focal length, so a zero one never
      yields an object; steps_per_mm is only divided by inside `zoom_in`,
      which raises there when it is zero. */
  predicate ValidConfig(c: ZoomConfig)
  {
    c.focalLength != 0.0
  }

  /** `str()` of the ZeroDivisionError that `steps / steps_per_mm` raises
      when steps_per_mm is the integer 0. */
  const DivisionByZero := "division by zero"

  /** `check_zoom_limits(s')`: both ends included. */
  predicate WithinZoomLimits(c: ZoomConfig, s: real)
  {
    c.minSPrime <= s <= c.maxSPrime
  }

  /** `_calculate_magnification(s')`. */
  function Magnification(c: ZoomConfig, s: real): real
    requires c.focalLength != 0.0
  {
    s / c.focalLength - 1.0
  }

  /** `_calculate_zoom_percentage()` for the current s'. */
  function ZoomPercentage(c: ZoomConfig, s: real): real
    requires c.focalLength != 0.0
  {
    var current := Magnification(c, s);
    var minM := Magnification(c, c.minSPrime);
    var maxM := Magnification(c, c.maxSPrime);
    if maxM > minM then ((current - minM) / (maxM - minM)) * 100.0 else 0.0
  }

  lemma MagnificationDifference(c: ZoomConfig, a: real, b: real)
    requires c.focalLength != 0.0
    ensures Magnification(c, a) - Magnification(c, b) == (a - b) / c.focalLength
  {
  }

  /** With a positive focal length the percentage is the position of s'
      within [min_s_prime, max_s_prime]: the focal length cancels out. */
  lemma PercentageIsExtentFraction(c: ZoomConfig, s: real)
    requires c.focalLength > 0.0 && c.minSPrime < c.maxSPrime
    ensures ZoomPercentage(c, s) == (s - c.minSPrime) / (c.maxSPrime - c.minSPrime) * 100.0
  {
    var f := c.focalLength;
    MagnificationDifference(c, s, c.minSPrime);
    MagnificationDifference(c, c.maxSPrime, c.minSPrime);
    var d := c.maxSPrime - c.minSPrime;
    assert d / f > 0.0;
    assert ((s - c.minSPrime) / f) / (d / f) == (s - c.minSPrime) / d;
  }

  /** When the magnification range is empty or reversed (max <= min, or a
      negative focal length) the percentage is 0 everywhere; otherwise it
      is 0 at min_s_prime and 100 at max_s_prime. */
  lemma PercentageEnds(c: ZoomConfig, s: real)
    requires c.focalLength != 0.0
    ensures Magnification(c, c.maxSPrime) <= Magnification(c, c.minSPrime) ==> ZoomPercentage(c, s) == 0.0
    ensures Magnification(c, c.maxSPrime) > Magnification(c, c.minSPrime) ==>
              ZoomPercentage(c, c.minSPrime) == 0.0 && ZoomPercentage(c, c.maxSPrime) == 100.0
  {
    var d := Magnification(c, c.maxSPrime) - Magnification(c, c.minSPrime);
    if d > 0.0 {
      assert d / d == 1.0;
    }
  }

  /** For a positive focal length, every in-limit s' has a percentage in [0, 100]. */
  lemma PercentageInRange(c: ZoomConfig, s: real)
    requires c.focalLength > 0.0 && WithinZoomLimits(c, s)
    ensures 0.0 <= ZoomPercentage(c, s) <= 100.0
  {
    if c.minSPrime < c.maxSPrime {
      PercentageIsExtentFraction(c, s);
      var d := c.maxSPrime - c.minSPrime;
      var r := (s - c.minSPrime) / d;
      assert r * d == s - c.minSPrime;
      assert 0.0 <= r <= 1.0;
    } else {
      MagnificationDifference(c, c.maxSPrime, c.minSPrime);
    }
  }

  /** `(steps / steps_per_mm) * progress / steps_count`, the amount one
      iteration of the `zoom_in` loop adds to s'. */
  function ZoomIncrement(delta: real, i: nat, n: nat): real
    requires 0 < n
  {
    delta * Progress(i, n) / n as real
  }

  /** Total change of s' after the first `k` of `n` iterations of `zoom_in`. */
  function ZoomTravel(delta: real, n: nat, k: nat): real
    requires 0 < n
    decreases k
  {
    if k == 0 then 0.0 else ZoomTravel(delta, n, k - 1) + ZoomIncrement(delta, k - 1, n)
  }

  lemma IncrementScaled(delta: real, i: nat, n: nat)
    requires 0 < n
    ensures ZoomIncrement(delta, i, n) * (n as real * n as real) == delta * (i + 1) as real
  {
    var m := n as real;
    var p := Progress(i, n);
    assert p * m == (i + 1) as real;
    var inc := ZoomIncrement(delta, i, n);
    assert inc * m == delta * p;
    assert inc * (m * m) == (inc * m) * m;
    assert (delta * p) * m == delta * (p * m);
  }

  /** Progress is applied twice per iteration, so after `k` iterations s'
      has moved by `delta * k (k + 1) / (2 n^2)`. */
  lemma {:induction false} ZoomTravelScaled(delta: real, n: nat, k: nat)
    requires 0 < n
    ensures ZoomTravel(delta, n, k) * (2.0 * n as real * n as real) == delta * (k as real * (k as real + 1.0))
    decreases k
  {
    if k > 0 {
      var m := n as real;
      var kr := k as real;
      var d := 2.0 * m * m;
      ZoomTravelScaled(delta, n, k - 1);
      IncrementScaled(delta, k - 1, n);
      var prev := ZoomTravel(delta, n, k - 1);
      var inc := ZoomIncrement(delta, k - 1, n);
      assert prev * d == delta * ((kr - 1.0) * kr);
      assert inc * d == 2.0 * (inc * (m * m));
      assert inc * d == delta * (2.0 * kr);
      assert (prev + inc) * d == prev * d + inc * d;
      assert delta * ((kr - 1.0) * kr) + delta * (2.0 * kr) == delta * (kr * (kr + 1.0));
    }
  }

  /** `k (k + 1) / (2 n^2)`: the share of the requested delta covered after
      `k` of `n` iterations. */
  function TravelFraction(n: nat, k: nat): real
    requires 0 < n
  {
    (k as real * (k as real + 1.0)) / (2.0 * n as real * n as real)
  }

  lemma ZoomTravelClosedForm(delta: real, n: nat, k: nat)
    requires 0 < n
    ensures ZoomTravel(delta, n, k) == delta * TravelFraction(n, k)
  {
    ZoomTravelScaled(delta, n, k);
    var d := 2.0 * n as real * n as real;
    var f := TravelFraction(n, k);
    assert f * d == k as real * (k as real + 1.0);
    assert (delta * f) * d == delta * (f * d);
    assert (ZoomTravel(delta, n, k) - delta * f) * d == 0.0;
  }

  /** A complete `zoom_in` moves s' by `delta (n + 1) / (2 n)`: the full
      requested delta only when the loop runs once. */
  lemma ZoomFullTravelIff(delta: real, n: nat)
    requires 0 < n && delta != 0.0
    ensures ZoomTravel(delta, n, n) == delta * (n as real + 1.0) / (2.0 * n as real)
    ensures ZoomTravel(delta, n, n) == delta <==> n == 1
  {
    ZoomTravelClosedForm(delta, n, n);
    var m := n as real;
    var f := TravelFraction(n, n);
    var g := (m + 1.0) / (2.0 * m);
    assert f * (2.0 * m * m) == m * (m + 1.0);
    assert g * (2.0 * m) == m + 1.0;
    assert (f - g) * (2.0 * m * m) == 0.0;
    assert f == g;
    assert delta * g == delta * (m + 1.0) / (2.0 * m);
    if ZoomTravel(delta, n, n) == delta {
      assert delta * (g - 1.0) == 0.0;
      assert g == 1.0;
      assert m + 1.0 == 2.0 * m;
    }
  }

  lemma RatioInUnit(a: real, d: real)
    requires 0.0 <= a <= d && 0.0 < d
    ensures 0.0 <= a / d <= 1.0
  {
    var q := a / d;
    assert q * d == a;
    assert (1.0 - q) * d == d - a;
  }

  lemma NonNegProduct(a: real, b: real)
    requires 0.0 <= a && 0.0 <= b
    ensures 0.0 <= a * b
  {
  }

  lemma NumeratorBound(m: real, kr: real)
    requires 0.0 <= kr <= m && 1.0 <= m
    ensures 0.0 <= kr * (kr + 1.0) <= 2.0 * m * m
  {
    NonNegProduct(m - kr, m + kr + 1.0);
    NonNegProduct(m, m - 1.0);
    NonNegProduct(kr, kr + 1.0);
    assert 2.0 * m * m - kr * (kr + 1.0) == (m - kr) * (m + kr + 1.0) + m * (m - 1.0);
  }

  lemma TravelFractionInUnit(n: nat, k: nat)
    requires 0 < n && k <= n
    ensures 0.0 <= TravelFraction(n, k) <= 1.0
  {
    var m, kr := n as real, k as real;
    NumeratorBound(m, kr);
    NonNegProduct(m - 1.0, m);
    assert 2.0 * m * m - 2.0 == 2.0 * ((m - 1.0) * m) + 2.0 * (m - 1.0);
    RatioInUnit(kr * (kr + 1.0), 2.0 * m * m);
  }

  /** Every partial `zoom_in` run stays between the start and the checked
      target, so the loop never leaves the zoom limits. */
  lemma ZoomTravelWithinLimits(c: ZoomConfig, s: real, delta: real, n: nat, k: nat)
    requires 0 < n && k <= n
    requires WithinZoomLimits(c, s) && WithinZoomLimits(c, s + delta)
    ensures WithinZoomLimits(c, s + ZoomTravel(delta, n, k))
  {
    ZoomTravelClosedForm(delta, n, k);
    TravelFractionInUnit(n, k);
    var q := TravelFraction(n, k);
    assert s + delta * q == Lerp(s, s + delta, q);
    BetweenWithin(c.minSPrime, c.maxSPrime, s, s + delta, q);
  }

  /** `min_s_prime + (s' - min_s_prime) * (1 - progress)`, one iteration of the
      `home_zoom` loop. */
  function HomeStep(c: ZoomConfig, s: real, i: nat, n: nat): real
    requires 0 < n
  {
    c.minSPrime + (s - c.minSPrime) * (1.0 - Progress(i, n))
  }

  /** s' after the first `k` of `n` iterations of the `home_zoom` loop. */
  function HomeApproach(c: ZoomConfig, s: real, n: nat, k: nat): real
    requires 0 < n
    decreases k
  {
    if k == 0 then s else HomeStep(c, HomeApproach(c, s, n, k - 1), k - 1, n)
  }

  /** The last homing iteration lands on min_s_prime, and no earlier one
      leaves the segment between the start and min_s_prime. */
  lemma {:induction false} HomeApproachBetween(c: ZoomConfig, s: real, n: nat, k: nat)
    requires 0 < n && k <= n
    ensures s <= c.minSPrime ==> s <= HomeApproach(c, s, n, k) <= c.minSPrime
    ensures c.minSPrime <= s ==> c.minSPrime <= HomeApproach(c, s, n, k) <= s
    ensures k == n ==> HomeApproach(c, s, n, k) == c.minSPrime
    decreases k
  {
    if k > 0 {
      HomeApproachBetween(c, s, n, k - 1);
      var h := HomeApproach(c, s, n, k - 1);
      var q := Progress(k - 1, n);
      ProgressInUnit(k - 1, n);
      assert HomeStep(c, h, k - 1, n) == Lerp(h, c.minSPrime, q);
      LerpBetween(h, c.minSPrime, q);
      if k == n {
        assert q == 1.0;
      }
    }
  }
}
