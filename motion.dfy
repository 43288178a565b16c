/** The safe-limit check every backend applies (`check_nozzle_limits`) and
    the step-wise interpolation the two simulators use to move the nozzle. */
module Motion {
  import opened Types

  /** `config['printer']['safe_limits']`. */
  datatype SafeLimits = SafeLimits(
    xMin: real, xMax: real,
    yMin: real, yMax: real,
    zMin: real, zMax: real)

  /** `check_nozzle_limits(x, y, z)`: every axis within its bounds, both ends included. */
  predicate WithinLimits(l: SafeLimits, x: real, y: real, z: real)
  {
    l.xMin <= x <= l.xMax && l.yMin <= y <= l.yMax && l.zMin <= z <= l.zMax
  }

  predicate PositionWithin(l: SafeLimits, p: Position)
  {
    WithinLimits(l, p.x, p.y, p.z)
  }

  /** `a + (b - a) * q`: move the fraction `q` of the way from `a` to `b`. */
  function Lerp(a: real, b: real, q: real): real
  {
    a + (b - a) * q
  }

  /** `progress = (i + 1) / steps` of loop iteration `i`. */
  function Progress(i: nat, n: nat): real
    requires 0 < n
  {
    (i + 1) as real / n as real
  }

  /** One iteration of the simulators' move loop: each axis covers the
      fraction `q` of its remaining distance to the target. */
  function StepToward(p: Position, t: Position, q: real): Position
  {
    Position(Lerp(p.x, t.x, q), Lerp(p.y, t.y, q), Lerp(p.z, t.z, q))
  }

  /** Toward the origin a step scales each axis by `1 - q`, the form in
      which the test simulator's homing loop writes it. */
  lemma StepTowardOrigin(p: Position, q: real)
    ensures StepToward(p, Origin, q) == Position(p.x * (1.0 - q), p.y * (1.0 - q), p.z * (1.0 - q))
  {
  }

  lemma ProgressInUnit(i: nat, n: nat)
    requires i < n
    ensures 0.0 < Progress(i, n) <= 1.0
  {
    var a, b := (i + 1) as real, n as real;
    assert a <= b;
    assert Progress(i, n) * b == a;
  }

  /** The stored position after the first `k` of `n` loop iterations. */
  function Approach(p: Position, t: Position, n: nat, k: nat): Position
    requires 0 < n && k <= n
    decreases k
  {
    if k == 0 then p else StepToward(Approach(p, t, n, k - 1), t, Progress(k - 1, n))
  }

  /** The last iteration has progress 1, so a move that is not interrupted
      ends exactly on its target, whatever the start and the step count. */
  lemma ApproachLands(p: Position, t: Position, n: nat)
    requires 0 < n
    ensures Approach(p, t, n, n) == t
  {
    assert Progress(n - 1, n) == 1.0;
  }

  /** Fraction of the start-to-target distance covered after `k` iterations. */
  function Covered(n: nat, k: nat): real
    requires 0 < n && k <= n
    decreases k
  {
    if k == 0 then 0.0
    else
      var c := Covered(n, k - 1);
      c + (1.0 - c) * Progress(k - 1, n)
  }

  lemma {:induction false} CoveredInUnit(n: nat, k: nat)
    requires 0 < n && k <= n
    ensures 0.0 <= Covered(n, k) <= 1.0
    decreases k
  {
    if k > 0 {
      CoveredInUnit(n, k - 1);
      ProgressInUnit(k - 1, n);
      CoverStep(Covered(n, k - 1), Progress(k - 1, n));
    }
  }

  /** One more iteration covers part of what is left, so the covered
      fraction stays within the unit interval. */
  lemma CoverStep(c: real, q: real)
    requires 0.0 <= c <= 1.0 && 0.0 <= q <= 1.0
    ensures 0.0 <= c + (1.0 - c) * q <= 1.0
  {
    ScaleWithin(1.0 - c, q);
    assert c + (1.0 - c) * q <= c + (1.0 - c);
  }

  lemma LerpCompose(a: real, b: real, c: real, q: real)
    ensures Lerp(Lerp(a, b, c), b, q) == Lerp(a, b, c + (1.0 - c) * q)
  {
    calc {
      Lerp(Lerp(a, b, c), b, q);
      a + (b - a) * c + (b - (a + (b - a) * c)) * q;
      a + (b - a) * c + (b - a) * (1.0 - c) * q;
      a + (b - a) * (c + (1.0 - c) * q);
    }
  }

  lemma MulNonNeg(a: real, b: real)
    requires 0.0 <= a && 0.0 <= b
    ensures 0.0 <= a * b
  {
  }

  lemma ScaleWithin(d: real, q: real)
    requires 0.0 <= d && 0.0 <= q <= 1.0
    ensures 0.0 <= d * q <= d
  {
    MulNonNeg(d, q);
    MulNonNeg(d, 1.0 - q);
    assert d * (1.0 - q) == d - d * q;
  }

  lemma LerpBetween(a: real, b: real, c: real)
    requires 0.0 <= c <= 1.0
    ensures a <= b ==> a <= Lerp(a, b, c) <= b
    ensures b <= a ==> b <= Lerp(a, b, c) <= a
  {
    var p := (b - a) * c;
    assert Lerp(a, b, c) == a + p;
    if a <= b {
      ScaleWithin(b - a, c);
    } else {
      ScaleWithin(a - b, c);
      assert (a - b) * c == -p;
    }
  }

  /** After `k` iterations the nozzle sits at the covered fraction of the
      straight segment from the start to the target. */
  lemma {:induction false} ApproachCovered(p: Position, t: Position, n: nat, k: nat)
    requires 0 < n && k <= n
    ensures Approach(p, t, n, k) == StepToward(p, t, Covered(n, k))
    decreases k
  {
    if k > 0 {
      ApproachCovered(p, t, n, k - 1);
      var c := Covered(n, k - 1);
      var q := Progress(k - 1, n);
      assert Covered(n, k) == c + (1.0 - c) * q;
      assert Approach(p, t, n, k) == StepToward(StepToward(p, t, c), t, q);
      LerpCompose(p.x, t.x, c, q);
      LerpCompose(p.y, t.y, c, q);
      LerpCompose(p.z, t.z, c, q);
    } else {
      assert Lerp(p.x, t.x, 0.0) == p.x && Lerp(p.y, t.y, 0.0) == p.y && Lerp(p.z, t.z, 0.0) == p.z;
    }
  }

  lemma BetweenWithin(lo: real, hi: real, a: real, b: real, c: real)
    requires lo <= a <= hi && lo <= b <= hi && 0.0 <= c <= 1.0
    ensures lo <= Lerp(a, b, c) <= hi
  {
    LerpBetween(a, b, c);
  }

  /** The safe box is convex: a move between two in-limit positions never
      stores an out-of-limit position, even when it is interrupted. */
  lemma ApproachWithinLimits(l: SafeLimits, p: Position, t: Position, n: nat, k: nat)
    requires 0 < n && k <= n
    requires PositionWithin(l, p) && PositionWithin(l, t)
    ensures PositionWithin(l, Approach(p, t, n, k))
  {
    ApproachCovered(p, t, n, k);
    CoveredInUnit(n, k);
    var c := Covered(n, k);
    BetweenWithin(l.xMin, l.xMax, p.x, t.x, c);
    BetweenWithin(l.yMin, l.yMax, p.y, t.y, c);
    BetweenWithin(l.zMin, l.zMax, p.z, t.z, c);
  }

  /** An emergency stop raised by another task lands before poll `i`. */
  predicate StopArrives(stops: seq<bool>, i: nat)
  {
    i < |stops| && stops[i]
  }

  /** The first of `n` polls that sees a stop arrive, or `n` if none does. */
  function FirstStop(stops: seq<bool>, n: nat): (k: nat)
    ensures k <= n
    ensures forall j :: 0 <= j < k ==> !StopArrives(stops, j)
    ensures k < n ==> StopArrives(stops, k)
  {
    FirstStopFrom(stops, n, 0)
  }

  function FirstStopFrom(stops: seq<bool>, n: nat, i: nat): (k: nat)
    requires i <= n
    requires forall j :: 0 <= j < i ==> !StopArrives(stops, j)
    ensures i <= k <= n
    ensures forall j :: 0 <= j < k ==> !StopArrives(stops, j)
    ensures k < n ==> StopArrives(stops, k)
    decreases n - i
  {
    if i == n || StopArrives(stops, i) then i else FirstStopFrom(stops, n, i + 1)
  }
}
