/**
 * The drafting-scale value type of vendor/scale.rb: parsing scale texts
 * ("1:100", "1/100", "10%", "2,5", "~1:42", "1\" = 4 m") into a ratio,
 * validity, tolerance-based comparison, rounding to conventional
 * coefficients {1, 2, 5, 10} x 10^n, and formatting back to "N:1" / "1:N".
 *
 * The ratio is a `real`; the source's floats are not modelled bit for bit.
 */
module Scales {
  import opened Wrappers
  import opened Text

  /**
   * What `@factor` can hold: nil (no grammar matched, or a length failed to
   * parse), a finite number, or the Infinity/NaN a float division by zero gives.
   */
  datatype Factor = Missing | Finite(value: real) | NonFinite

  /** The host's `String#to_l`: the length a text denotes, or None where it raises ArgumentError. */
  type LengthParser = string -> Option<real>

  /** Absolute tolerance under which two factors compare equal. */
  const FloatTolerance: real := 0.0000000001

  /** Multiples of 10^N used in common scales (1:1, 1:2, 1:5, 1:10, 1:20 ...). */
  const CommonScaleFactors: seq<real> := [1.0, 2.0, 5.0, 10.0]

  /** Multiples of 10^N used in common and less common scales (1:30, 1:800 ...). */
  const ExtendedScaleFactors: seq<real> := [1.0, 1.5, 2.0, 3.0, 4.0, 5.0, 8.0, 10.0]

  /** `valid?`: the factor is present, finite and non-zero. */
  predicate Valid(f: Factor) { f.Finite? && f.value != 0.0 }

  // ---------------------------------------------------------------------------
  // Parsing
  // ---------------------------------------------------------------------------

  /** `string.tr(",", ".").delete("~")`. */
  function Normalize(s: string): (t: string)
    ensures forall i | 0 <= i < |t| :: t[i] != '~' && t[i] != ','
    ensures |t| <= |s|
    decreases |s|
  {
    if s == [] then []
    else (if s[0] == '~' then [] else [if s[0] == ',' then '.' else s[0]]) + Normalize(s[1..])
  }

  /** Float division: a zero divisor gives Infinity or NaN, never a usable factor. */
  function Divide(a: real, b: real): (f: Factor)
    ensures Valid(f) <==> a != 0.0 && b != 0.0
    ensures f.Finite? ==> f.value * b == a
  {
    if b == 0.0 then NonFinite else Finite(a / b)
  }

  /**
   * The three number grammars, tried in order: a plain decimal, a
   * percentage, and a ratio with ':' or '/'. None when none matches.
   */
  function NumberForm(t: string): Option<Factor>
  {
    if IsDecimal(t) then Some(Finite(ToF(t)))
    else if |t| > 0 && t[|t| - 1] == '%' && IsDecimal(t[..|t| - 1]) then
      Some(Finite(ToF(t[..|t| - 1]) / 100.0))
    else
      // The left operand holds no separator, so a match splits at the first one.
      var k := FirstIn(t, {':', '/'});
      if k < |t| && IsDecimal(t[..k]) && IsDecimal(t[k + 1..]) then
        Some(Divide(ToF(t[..k]), ToF(t[k + 1..])))
      else None
  }

  /** The characters Ruby's `String#strip` removes: null, tab to carriage return, space. */
  predicate IsStripped(c: char) { c == ' ' || c as int == 0 || 9 <= c as int <= 13 }

  function TrimStart(s: string): (r: string)
    ensures |r| <= |s|
    decreases |s|
  {
    if s != [] && IsStripped(s[0]) then TrimStart(s[1..]) else s
  }

  function TrimEnd(s: string): (r: string)
    ensures |r| <= |s|
    decreases |s|
  {
    if s != [] && IsStripped(s[|s| - 1]) then TrimEnd(s[..|s| - 1]) else s
  }

  /** `String#strip`. */
  function Strip(s: string): string { TrimEnd(TrimStart(s)) }

  /**
   * The greatest k in [1, i] with t[k] == '=', or -1: where the greedy
   * `^(.+)\=(.+)$` splits, when called with i = |t| - 2.
   */
  function LastEquals(t: string, i: int): (k: int)
    requires i < |t|
    ensures k == -1 || (1 <= k <= i && t[k] == '=')
    ensures forall j | 1 <= j <= i && k < j :: t[j] != '='
    decreases i
  {
    if i < 1 then -1 else if t[i] == '=' then i else LastEquals(t, i - 1)
  }

  /**
   * The fourth grammar, "<length> = <length>": each side stripped and read
   * by the host's length parser; a side it rejects gives nil.
   */
  function DimensionForm(t: string, toLength: LengthParser): Factor
  {
    var k := LastEquals(t, |t| - 2);
    if k < 0 || '\n' in t then Missing
    else
      match (toLength(Strip(t[..k])), toLength(Strip(t[k + 1..])))
      case (Some(a), Some(b)) => Divide(a, b)
      case _ => Missing
  }

  /** `parse`: the factor a scale text denotes. Invalidity is the only error channel. */
  function Parse(s: string, toLength: LengthParser): Factor
  {
    var t := Normalize(s);
    match NumberForm(t)
    case Some(f) => f
    case None => DimensionForm(t, toLength)
  }

  /** A length parser that rejects everything (the scale texts `format` builds hold no '='). */
  function NoLength(text: string): Option<real> { None }

  // ---------------------------------------------------------------------------
  // Comparison
  // ---------------------------------------------------------------------------

  function Dist(a: real, b: real): (d: real)
    ensures d >= 0.0 && (d == a - b || d == b - a)
  {
    if a >= b then a - b else b - a
  }

  /** `<=>` on two factors: nil unless both are valid; 0 within the tolerance; else their order. */
  function CompareFactors(a: Factor, b: Factor): (r: Option<int>)
    ensures r.Some? <==> Valid(a) && Valid(b)
    ensures r == Some(0) <==> Valid(a) && Valid(b) && a.value - FloatTolerance <= b.value <= a.value + FloatTolerance
    ensures r == Some(-1) <==> Valid(a) && Valid(b) && a.value + FloatTolerance < b.value
    ensures r == Some(1) <==> Valid(a) && Valid(b) && b.value + FloatTolerance < a.value
  {
    if !Valid(b) || !Valid(a) then None
    else if Dist(a.value, b.value) <= FloatTolerance then Some(0)
    else if a.value < b.value then Some(-1) else Some(1)
  }

  // ---------------------------------------------------------------------------
  // Rounding to conventional scales
  // ---------------------------------------------------------------------------

  /** `t * 10**e`, by steps of ten, so that no product of two unknowns appears. */
  function Shift(t: real, e: int): (r: real)
    ensures t > 0.0 ==> r > 0.0
    decreases if e >= 0 then e else -e
  {
    if e == 0 then t
    else if e > 0 then 10.0 * Shift(t, e - 1)
    else Shift(t, e + 1) / 10.0
  }

  lemma ShiftSucc(t: real, e: int)
    ensures Shift(t, e + 1) == 10.0 * Shift(t, e)
  {
  }

  /**
   * `split_number`: x = coefficient * 10**exponent with the coefficient in
   * [1, 10). The source reads this off `format("%e")`; here it is exact.
   */
  function Split(x: real): (r: (real, int))
    requires x > 0.0
    ensures 1.0 <= r.0 < 10.0 && Shift(r.0, r.1) == x
    decreases SplitMeasure(x)
  {
    if x >= 10.0 then
      SplitMeasureTenth(x);
      var r := Split(x / 10.0);
      ShiftSucc(r.0, r.1);
      (r.0, r.1 + 1)
    else if x < 1.0 then
      SplitMeasureTenfold(x);
      var r := Split(x * 10.0);
      ShiftSucc(r.0, r.1 - 1);
      (r.0, r.1 - 1)
    else (x, 0)
  }

  /** How far `Split` still has to go: the whole part of x, or of 1/x. */
  function SplitMeasure(x: real): nat
    requires x > 0.0
  {
    if x >= 10.0 then x.Floor else if x < 1.0 then (1.0 / x).Floor else 0
  }

  lemma SplitMeasureTenth(x: real)
    requires x >= 10.0
    ensures SplitMeasure(x / 10.0) < SplitMeasure(x)
  {
  }

  lemma SplitMeasureTenfold(x: real)
    requires 0.0 < x < 1.0
    ensures SplitMeasure(x * 10.0) < SplitMeasure(x)
  {
    var y := 1.0 / x;
    assert y > 1.0;
    if x * 10.0 < 1.0 {
      assert 1.0 / (x * 10.0) == y / 10.0;
      assert y >= 10.0;
    }
  }

  /** `target.min_by { |t| (t - number).abs }`: the first target value nearest to `n`. */
  function NearestIndex(ts: seq<real>, n: real): (i: nat)
    requires |ts| > 0
    ensures i < |ts|
    ensures forall j | 0 <= j < |ts| :: Dist(ts[i], n) <= Dist(ts[j], n)
    ensures forall j | 0 <= j < i :: Dist(ts[j], n) > Dist(ts[i], n)
    decreases |ts|
  {
    if |ts| == 1 then 0
    else
      var k := NearestIndex(ts[..|ts| - 1], n);
      assert forall j | 0 <= j < |ts| - 1 :: ts[..|ts| - 1][j] == ts[j];
      if Dist(ts[|ts| - 1], n) < Dist(ts[k], n) then |ts| - 1 else k
  }

  /** `target.select { |t| t <= number }.max`. */
  function GreatestAtMost(ts: seq<real>, n: real): (r: Option<real>)
    ensures r.Some? <==> exists j | 0 <= j < |ts| :: ts[j] <= n
    ensures r.Some? ==> r.value in ts && r.value <= n
    ensures r.Some? ==> forall j | 0 <= j < |ts| :: ts[j] <= n ==> ts[j] <= r.value
    decreases |ts|
  {
    if ts == [] then None
    else
      var rest := GreatestAtMost(ts[1..], n);
      assert forall j | 1 <= j < |ts| :: ts[j] == ts[1..][j - 1];
      if ts[0] <= n && (rest.None? || rest.value < ts[0]) then Some(ts[0]) else rest
  }

  /** `target.select { |t| t >= number }.min`. */
  function LeastAtLeast(ts: seq<real>, n: real): (r: Option<real>)
    ensures r.Some? <==> exists j | 0 <= j < |ts| :: ts[j] >= n
    ensures r.Some? ==> r.value in ts && r.value >= n
    ensures r.Some? ==> forall j | 0 <= j < |ts| :: ts[j] >= n ==> ts[j] >= r.value
    decreases |ts|
  {
    if ts == [] then None
    else
      var rest := LeastAtLeast(ts[1..], n);
      assert forall j | 1 <= j < |ts| :: ts[j] == ts[1..][j - 1];
      if ts[0] >= n && (rest.None? || rest.value > ts[0]) then Some(ts[0]) else rest
  }

  /** `round_to_target`: direction 0 nearest, -1 down, 1 up; any other direction gives nil. */
  function RoundToTarget(n: real, target: seq<real>, direction: int): Option<real>
  {
    if direction == 0 then
      if |target| == 0 then None else Some(target[NearestIndex(target, n)])
    else if direction == -1 then GreatestAtMost(target, n)
    else if direction == 1 then LeastAtLeast(target, n)
    else None
  }

  /** A target holds 1 and 10, so every coefficient in [1, 10) has a neighbour each way. */
  predicate CoversDecade(target: seq<real>) { 1.0 in target && 10.0 in target }

  /** Snapping a coefficient of [1, 10) to a covering target stays within [1, 10]. */
  lemma SnapWithinDecade(c: real, target: seq<real>, d: int)
    requires 1.0 <= c < 10.0 && CoversDecade(target) && -1 <= d <= 1
    ensures RoundToTarget(c, target, d).Some?
    ensures 1.0 <= RoundToTarget(c, target, d).value <= 10.0
  {
    var one :| 0 <= one < |target| && target[one] == 1.0;
    var ten :| 0 <= ten < |target| && target[ten] == 10.0;
    if d == 0 {
      var i := NearestIndex(target, c);
      assert Dist(target[i], c) <= Dist(target[one], c);
      assert Dist(target[i], c) <= Dist(target[ten], c);
    } else if d == -1 {
      assert target[one] <= c;
    } else {
      assert target[ten] >= c;
    }
  }

  /**
   * The rounding step proper: split x into coefficient and exponent, snap
   * the coefficient to the target, and put the exponent back.
   */
  function SnapToTarget(x: real, target: seq<real>, direction: int): (y: real)
    requires x > 0.0 && CoversDecade(target) && -1 <= direction <= 1
    ensures y > 0.0
  {
    var split := Split(x);
    SnapWithinDecade(split.0, target, direction);
    Shift(RoundToTarget(split.0, target, direction).value, split.1)
  }

  /** `round!` on a positive factor, as a value: the new factor. */
  function RoundedFactor(f: real, target: seq<real>, direction: int): (r: real)
    requires f > 0.0 && CoversDecade(target) && -1 <= direction <= 1
    ensures r > 0.0
  {
    // In 1:x it is x that should be a sensible number, so a factor below 1
    // is rounded through its inverse, with the direction reversed.
    if f < 1.0 then 1.0 / SnapToTarget(1.0 / f, target, -direction)
    else SnapToTarget(f, target, direction)
  }

  /** The steps `round!` takes, one by one, give `RoundedFactor`. */
  lemma RoundSteps(f: real, target: seq<real>, direction: int, c: real, e: int, t: real)
    requires f > 0.0 && CoversDecade(target) && -1 <= direction <= 1
    requires (c, e) == Split(if f < 1.0 then 1.0 / f else f)
    requires RoundToTarget(c, target, if f < 1.0 then -direction else direction) == Some(t)
    ensures RoundedFactor(f, target, direction)
         == if f < 1.0 then 1.0 / Shift(t, e) else Shift(t, e)
  {
  }

  lemma InverseInverse(a: real)
    requires a > 0.0
    ensures 1.0 / a > 0.0 && 1.0 / (1.0 / a) == a
  {
    var b := 1.0 / a;
    assert b * a == 1.0;
  }

  lemma InverseAntitone(a: real, b: real)
    requires 0.0 < a <= b
    ensures 1.0 / b <= 1.0 / a
  {
  }

  // ---------------------------------------------------------------------------
  // Formatting
  // ---------------------------------------------------------------------------

  /** Ruby's `Float#round`: to the nearest integer, halves away from zero. */
  function RoundHalfAway(x: real): int
  {
    if x >= 0.0 then (x + 0.5).Floor else -((0.5 - x).Floor)
  }

  /**
   * `format`: "N:1" for a factor above 1, else "1:N", N rounded; prefixed
   * with "~" unless the text parses back to a factor that compares equal.
   */
  function FormatFactor(f: real): string
    requires f != 0.0
  {
    var text := FormatText(f);
    if CompareFactors(Finite(f), Parse(text, NoLength)) == Some(0) then text else "~" + text
  }

  /** The text `format` builds before the "~" check: "N:1" above 1, else "1:N". */
  function FormatText(f: real): string
    requires f != 0.0
  {
    if f > 1.0 then IntText(RoundHalfAway(f)) + ":1"
    else "1:" + IntText(RoundHalfAway(1.0 / f))
  }

  // ---------------------------------------------------------------------------
  // The Scale object
  // ---------------------------------------------------------------------------

  /**
   * A scale: its factor and, while it has not been rounded, the text it
   * was built from (`source_string`).
   */
  class Scale {
    var factor: Factor
    var sourceString: Option<string>

    /** `Scale.new(number)`. */
    constructor FromNumber(x: real)
      ensures factor == Finite(x) && sourceString == None
    {
      factor := Finite(x);
      sourceString := None;
    }

    /** `Scale.new(string)`: parsed, and the text remembered verbatim. */
    constructor FromText(s: string, toLength: LengthParser)
      ensures factor == Parse(s, toLength) && sourceString == Some(s)
      ensures ToS() == s
    {
      factor := Parse(s, toLength);
      sourceString := Some(s);
    }

    /** `dup`: a shallow copy. */
    constructor Dup(original: Scale)
      ensures factor == original.factor && sourceString == original.sourceString
    {
      factor := original.factor;
      sourceString := original.sourceString;
    }

    /** `valid?`. */
    predicate IsValid()
      reads this
    {
      Valid(factor)
    }

    /** `factor`: the ratio of a valid scale, nil for an invalid one. */
    function Factor(): (r: Option<real>)
      reads this
      ensures r.Some? <==> factor.Finite? && factor.value != 0.0
      ensures r.Some? ==> factor == Finite(r.value)
    {
      if IsValid() then Some(factor.value) else None
    }

    /** `<=>`; `other` null stands for any value that is not a Scale. */
    function CompareTo(other: Scale?): (r: Option<int>)
      reads this, other
      ensures other == null ==> r.None?
      ensures other != null ==> r == CompareFactors(factor, other.factor)
    {
      if other == null then None else CompareFactors(factor, other.factor)
    }

    /** `format`. */
    function Format(): string
      reads this
      requires IsValid()
    {
      FormatFactor(factor.value)
    }

    /** `to_s`: the source text while there is one, else `format`. */
    function ToS(): string
      reads this
      requires sourceString.Some? || IsValid()
    {
      if sourceString.Some? then sourceString.value else Format()
    }

    /** `round!`: rounds the factor in place and forgets the source text. */
    method RoundInPlace(target: seq<real>, direction: int) returns (r: Scale)
      requires IsValid() && factor.value > 0.0 && CoversDecade(target) && -1 <= direction <= 1
      modifies this
      ensures r == this
      ensures factor == Finite(RoundedFactor(old(factor.value), target, direction))
      ensures sourceString == None
      ensures IsValid() && ToS() == Format()
    {
      // The scale can no longer be considered generated from its text.
      sourceString := None;
      var f := factor.value;
      var x := f;
      var dir := direction;
      var downsize := x < 1.0;
      if downsize {
        x := 1.0 / x;
        dir := -dir;
      }
      var (coefficient, exponent) := Split(x);
      SnapWithinDecade(coefficient, target, dir);
      var snapped := RoundToTarget(coefficient, target, dir).value;
      x := Shift(snapped, exponent);
      if downsize {
        x := 1.0 / x;
      }
      RoundSteps(f, target, direction, coefficient, exponent, snapped);
      factor := Finite(x);
      r := this;
    }

    /** `ceil!`: rounds upwards, for a larger drawing. */
    method CeilInPlace(target: seq<real>) returns (r: Scale)
      requires IsValid() && factor.value > 0.0 && CoversDecade(target)
      modifies this
      ensures r == this
      ensures factor == Finite(RoundedFactor(old(factor.value), target, 1))
      ensures sourceString == None && ToS() == Format()
    {
      r := RoundInPlace(target, 1);
    }

    /** `floor!`: rounds downwards, for a smaller drawing. */
    method FloorInPlace(target: seq<real>) returns (r: Scale)
      requires IsValid() && factor.value > 0.0 && CoversDecade(target)
      modifies this
      ensures r == this
      ensures factor == Finite(RoundedFactor(old(factor.value), target, -1))
      ensures sourceString == None && ToS() == Format()
    {
      r := RoundInPlace(target, -1);
    }

    /** `round`: a rounded copy; the receiver keeps its factor and its text. */
    method Round(target: seq<real>, direction: int) returns (r: Scale)
      requires IsValid() && factor.value > 0.0 && CoversDecade(target) && -1 <= direction <= 1
      ensures fresh(r) && r.sourceString == None
      ensures r.factor == Finite(RoundedFactor(factor.value, target, direction))
    {
      var copy := new Scale.Dup(this);
      r := copy.RoundInPlace(target, direction);
    }

    /** `ceil`: a copy rounded upwards. */
    method Ceil(target: seq<real>) returns (r: Scale)
      requires IsValid() && factor.value > 0.0 && CoversDecade(target)
      ensures fresh(r) && r.sourceString == None
      ensures r.factor == Finite(RoundedFactor(factor.value, target, 1))
    {
      var copy := new Scale.Dup(this);
      r := copy.CeilInPlace(target);
    }

    /** `floor`: a copy rounded downwards. */
    method Floor(target: seq<real>) returns (r: Scale)
      requires IsValid() && factor.value > 0.0 && CoversDecade(target)
      ensures fresh(r) && r.sourceString == None
      ensures r.factor == Finite(RoundedFactor(factor.value, target, -1))
    {
      var copy := new Scale.Dup(this);
      r := copy.FloorInPlace(target);
    }
  }
}
