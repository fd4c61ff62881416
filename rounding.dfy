/**
 * What `round!`, `ceil!` and `floor!` of vendor/scale.rb promise, proved
 * of `RoundedFactor`: the result is a conventional scale (a target value
 * times a power of ten, or the inverse of one), `ceil` never lowers and
 * `floor` never raises the factor, and rounding twice changes nothing.
 */
module ScaleRounding {
  import opened Wrappers
  import opened Scales

  // ---------------------------------------------------------------------------
  // Powers of ten
  // ---------------------------------------------------------------------------

  lemma {:induction false} ShiftMonotonic(s: real, t: real, e: int)
    requires s <= t
    ensures Shift(s, e) <= Shift(t, e)
    decreases if e >= 0 then e else -e
  {
    if e > 0 {
      ShiftMonotonic(s, t, e - 1);
    } else if e < 0 {
      ShiftMonotonic(s, t, e + 1);
    }
  }

  /** Ten times t at 10^e is t at 10^(e+1). */
  lemma {:induction false} ShiftTenfold(t: real, e: int)
    ensures Shift(10.0 * t, e) == Shift(t, e + 1)
    decreases if e >= 0 then e else -e
  {
    if e > 0 {
      ShiftTenfold(t, e - 1);
      ShiftSucc(t, e);
    } else if e < 0 {
      ShiftTenfold(t, e + 1);
      ShiftSucc(t, e);
    }
  }

  /** Where a coefficient of [1, 10) lands at 10^e: at least 10 above e = 0, below 1 under it. */
  lemma {:induction false} ShiftRange(c: real, e: int)
    requires 1.0 <= c < 10.0
    ensures e >= 0 ==> Shift(c, e) >= 1.0
    ensures e <= 0 ==> Shift(c, e) < 10.0
    ensures e >= 1 ==> Shift(c, e) >= 10.0
    ensures e <= -1 ==> Shift(c, e) < 1.0
    decreases if e >= 0 then e else -e
  {
    if e > 0 {
      ShiftRange(c, e - 1);
    } else if e < 0 {
      ShiftRange(c, e + 1);
    }
  }

  /** `split_number` undoes the shift: the coefficient and exponent come back. */
  lemma {:induction false} SplitOfShift(c: real, e: int)
    requires 1.0 <= c < 10.0
    ensures Shift(c, e) > 0.0 && Split(Shift(c, e)) == (c, e)
    decreases if e >= 0 then e else -e
  {
    ShiftRange(c, e);
    if e > 0 {
      ShiftRange(c, e - 1);
      SplitOfShift(c, e - 1);
    } else if e < 0 {
      ShiftRange(c, e + 1);
      SplitOfShift(c, e + 1);
    }
  }

  /** A factor of at least 1 splits with a non-negative exponent. */
  lemma SplitExponentNatural(x: real)
    requires x >= 1.0
    ensures Split(x).1 >= 0
  {
    ShiftRange(Split(x).0, Split(x).1);
  }

  // ---------------------------------------------------------------------------
  // Snapping
  // ---------------------------------------------------------------------------

  /** A coefficient already in the target snaps to itself, in every direction. */
  lemma SnapFixed(t: real, target: seq<real>, d: int)
    requires t in target && -1 <= d <= 1
    ensures RoundToTarget(t, target, d) == Some(t)
  {
    var j :| 0 <= j < |target| && target[j] == t;
    if d == 0 {
      var i := NearestIndex(target, t);
      assert Dist(target[i], t) <= Dist(target[j], t);
    }
  }

  /** A conventional scale at or above 1 is left where it is by the snapping step. */
  lemma SnapFixedPoint(t: real, e: int, target: seq<real>, d: int)
    requires t in target && 1.0 <= t <= 10.0 && CoversDecade(target) && -1 <= d <= 1
    ensures Shift(t, e) > 0.0 && SnapToTarget(Shift(t, e), target, d) == Shift(t, e)
  {
    if t < 10.0 {
      SplitOfShift(t, e);
      SnapFixed(t, target, d);
    } else {
      ShiftTenfold(1.0, e);
      assert Shift(t, e) == Shift(1.0, e + 1);
      SplitOfShift(1.0, e + 1);
      SnapFixed(1.0, target, d);
    }
  }

  /** The snapped coefficient and the exponent the rounding of a factor of at least 1 uses. */
  lemma SnapShape(x: real, target: seq<real>, d: int)
    requires x >= 1.0 && CoversDecade(target) && -1 <= d <= 1
    ensures RoundToTarget(Split(x).0, target, d).Some?
    ensures SnapToTarget(x, target, d) == Shift(RoundToTarget(Split(x).0, target, d).value, Split(x).1)
    ensures Split(x).1 >= 0 && SnapToTarget(x, target, d) >= 1.0
  {
    var (c, e) := Split(x);
    SnapWithinDecade(c, target, d);
    SplitExponentNatural(x);
    var t := RoundToTarget(c, target, d).value;
    ShiftMonotonic(1.0, t, e);
    ShiftRange(1.0, e);
  }

  // ---------------------------------------------------------------------------
  // Properties of round!
  // ---------------------------------------------------------------------------

  /** A conventional scale: a target value times 10^e, or for 1:N scales the inverse of one. */
  ghost predicate Conventional(r: real, target: seq<real>)
  {
    exists t: real, e: nat | t in target && t > 0.0 :: r == Shift(t, e) || r == 1.0 / Shift(t, e)
  }

  /** `round!` always lands on a conventional scale. */
  lemma RoundedIsConventional(f: real, target: seq<real>, d: int)
    requires f > 0.0 && CoversDecade(target) && -1 <= d <= 1
    ensures Conventional(RoundedFactor(f, target, d), target)
  {
    var x := if f < 1.0 then 1.0 / f else f;
    var dir := if f < 1.0 then -d else d;
    SnapShape(x, target, dir);
    var (c, e) := Split(x);
    var t := RoundToTarget(c, target, dir).value;
    var r := RoundedFactor(f, target, d);
    SnapWithinDecade(c, target, dir);
    assert t in target && t > 0.0 && (r == Shift(t, e) || r == 1.0 / Shift(t, e));
  }

  /** Snapping a factor of at least 1 upwards never lowers it, downwards never raises it. */
  lemma SnapDirection(x: real, target: seq<real>, d: int)
    requires x >= 1.0 && CoversDecade(target) && -1 <= d <= 1
    ensures d == 1 ==> SnapToTarget(x, target, d) >= x
    ensures d == -1 ==> SnapToTarget(x, target, d) <= x
  {
    SnapShape(x, target, d);
    var (c, e) := Split(x);
    var t := RoundToTarget(c, target, d).value;
    if d == 1 {
      ShiftMonotonic(c, t, e);
    } else if d == -1 {
      ShiftMonotonic(t, c, e);
    }
  }

  /** `ceil!` never lowers the factor and `floor!` never raises it. */
  lemma RoundedDirection(f: real, target: seq<real>, d: int)
    requires f > 0.0 && CoversDecade(target) && -1 <= d <= 1
    ensures d == 1 ==> RoundedFactor(f, target, d) >= f
    ensures d == -1 ==> RoundedFactor(f, target, d) <= f
  {
    if f < 1.0 {
      var x := 1.0 / f;
      SnapDirection(x, target, -d);
      var s := SnapToTarget(x, target, -d);
      InverseInverse(f);
      if d == 1 {
        InverseAntitone(s, x);
      } else if d == -1 {
        InverseAntitone(x, s);
      }
    } else {
      SnapDirection(f, target, d);
    }
  }

  /** A snapped factor of at least 1 stays put when snapped again, in any direction. */
  lemma SnapStable(x: real, target: seq<real>, d: int, d2: int)
    requires x >= 1.0 && CoversDecade(target) && -1 <= d <= 1 && -1 <= d2 <= 1
    ensures SnapToTarget(x, target, d) >= 1.0
    ensures SnapToTarget(SnapToTarget(x, target, d), target, d2) == SnapToTarget(x, target, d)
  {
    SnapShape(x, target, d);
    var (c, e) := Split(x);
    SnapWithinDecade(c, target, d);
    var t := RoundToTarget(c, target, d).value;
    SnapFixedPoint(t, e, target, d2);
  }

  /** Rounding an already rounded scale with the same target and direction changes nothing. */
  lemma RoundIdempotent(f: real, target: seq<real>, d: int)
    requires f > 0.0 && CoversDecade(target) && -1 <= d <= 1
    ensures RoundedFactor(RoundedFactor(f, target, d), target, d) == RoundedFactor(f, target, d)
  {
    if f < 1.0 {
      var x := 1.0 / f;
      SnapStable(x, target, -d, -d);
      SnapStable(x, target, -d, d);
      InverseStable(SnapToTarget(x, target, -d), target, d);
    } else {
      SnapStable(f, target, d, d);
    }
  }

  /** The inverse of a snapped value s >= 1 is rounded back to itself. */
  lemma InverseStable(s: real, target: seq<real>, d: int)
    requires s >= 1.0 && CoversDecade(target) && -1 <= d <= 1
    requires SnapToTarget(s, target, d) == s && SnapToTarget(s, target, -d) == s
    ensures RoundedFactor(1.0 / s, target, d) == 1.0 / s
  {
    var r := 1.0 / s;
    InverseInverse(s);
    if s == 1.0 {
      assert r == 1.0;
      assert RoundedFactor(r, target, d) == SnapToTarget(s, target, d);
    } else {
      InverseAntitone(1.0, s);
      assert r < 1.0 && 1.0 / r == s;
      assert RoundedFactor(r, target, d) == 1.0 / SnapToTarget(s, target, -d);
    }
  }

  lemma CommonCoversDecade()
    ensures CoversDecade(CommonScaleFactors)
  {
    assert CommonScaleFactors[0] == 1.0 && CommonScaleFactors[3] == 10.0;
  }

  /** Among the common factors, a coefficient strictly between 2 and 3.5 goes down and to nearest 2, up to 5. */
  lemma CommonSnapsNearTwo(c: real)
    requires 2.0 < c < 3.5
    ensures RoundToTarget(c, CommonScaleFactors, -1) == Some(2.0)
    ensures RoundToTarget(c, CommonScaleFactors, 1) == Some(5.0)
    ensures RoundToTarget(c, CommonScaleFactors, 0) == Some(2.0)
  {
    var target := CommonScaleFactors;
    assert target[1] == 2.0 && target[2] == 5.0;
    var down := GreatestAtMost(target, c);
    assert down.value in target;
    var up := LeastAtLeast(target, c);
    assert up.value in target;
    var i := NearestIndex(target, c);
    assert Dist(target[i], c) <= Dist(target[1], c);
  }

  /** 1 / 0.0456 is about 21.9: coefficient 2.19, exponent 1. */
  lemma ExampleSplit()
    ensures 2.0 < 1.0 / 0.0456 / 10.0 < 3.5 && Split(1.0 / 0.0456) == (1.0 / 0.0456 / 10.0, 1)
  {
    var x := 1.0 / 0.0456;
    var c := x / 10.0;
    assert Shift(c, 1) == x;
    SplitOfShift(c, 1);
  }

  /** 21.93, the inverse of 0.0456, snaps down to 20, up to 50 and to nearest 20. */
  lemma ExampleSnaps()
    ensures CoversDecade(CommonScaleFactors)
    ensures SnapToTarget(1.0 / 0.0456, CommonScaleFactors, -1) == 20.0
    ensures SnapToTarget(1.0 / 0.0456, CommonScaleFactors, 1) == 50.0
    ensures SnapToTarget(1.0 / 0.0456, CommonScaleFactors, 0) == 20.0
  {
    CommonCoversDecade();
    var x := 1.0 / 0.0456;
    var c := x / 10.0;
    ExampleSplit();
    CommonSnapsNearTwo(c);
    assert Shift(2.0, 1) == 20.0 && Shift(5.0, 1) == 50.0;
  }

  /**
   * Scale 0.0456 (about 1:21.9) with the common factors: below 1 it is the
   * 21.9 of 1:21.9 that is rounded, the other way round, so `ceil` gives
   * 1:20 and `floor` 1:50; the nearest is 1:20 as well.
   */
  lemma RoundExample()
    ensures CoversDecade(CommonScaleFactors)
    ensures RoundedFactor(0.0456, CommonScaleFactors, 1) == 0.05
    ensures RoundedFactor(0.0456, CommonScaleFactors, -1) == 0.02
    ensures RoundedFactor(0.0456, CommonScaleFactors, 0) == 0.05
  {
    ExampleSnaps();
  }
}
