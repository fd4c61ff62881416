/**
 * What vendor/scale.rb promises about its scales, proved of the model:
 * which texts each grammar accepts and what they denote, that `<=>` is a
 * tolerance comparison, that rounding lands on a conventional scale in the
 * requested direction and is idempotent, and that `format` marks exactly
 * the texts that do not read back as the same scale.
 */
module ScaleProperties {
  import opened Wrappers
  import opened Text
  import opened Scales

  // ---------------------------------------------------------------------------
  // Parsing
  // ---------------------------------------------------------------------------

  /** Texts free of '~' and ',' pass through the normalisation unchanged. */
  lemma {:induction false} NormalizeIdentity(s: string)
    requires forall i | 0 <= i < |s| :: s[i] != '~' && s[i] != ','
    ensures Normalize(s) == s
    decreases |s|
  {
    if s != [] {
      NormalizeIdentity(s[1..]);
    }
  }

  /** A leading "~" is ignored: "~1:42" denotes what "1:42" does. */
  lemma ParseIgnoresTilde(s: string, toLength: LengthParser)
    ensures Parse("~" + s, toLength) == Parse(s, toLength)
  {
    var t := "~" + s;
    assert t[0] == '~' && t[1..] == s;
    assert Normalize(t) == Normalize(s);
  }

  /** The host's length parser is only consulted for a text holding '='. */
  lemma ParseWithoutEquals(s: string, toLength: LengthParser)
    requires '=' !in s
    ensures Parse(s, toLength) == Parse(s, NoLength)
  {
    NormalizeKeepsOut(s, '=');
  }

  /** The normalisation brings in no character but '.'. */
  lemma {:induction false} NormalizeKeepsOut(s: string, c: char)
    requires c !in s && c != '.'
    ensures c !in Normalize(s)
    decreases |s|
  {
    if s != [] {
      assert c !in s[1..] by {
        assert forall i | 1 <= i < |s| :: s[1..][i - 1] == s[i];
      }
      NormalizeKeepsOut(s[1..], c);
    }
  }

  /** Grammar 1: a plain decimal denotes its value. */
  lemma ParseDecimal(s: string, toLength: LengthParser)
    requires IsDecimal(s)
    ensures Parse(s, toLength) == Finite(ToF(s))
  {
    DecimalCharacters(s);
    NormalizeIdentity(s);
  }

  /** Grammar 2: a decimal followed by '%' denotes a hundredth of it. */
  lemma ParsePercent(s: string, toLength: LengthParser)
    requires IsDecimal(s)
    ensures Parse(s + "%", toLength) == Finite(ToF(s) / 100.0)
  {
    var t := s + "%";
    DecimalCharacters(s);
    NormalizeIdentity(t);
    assert t[..|t| - 1] == s && t[|t| - 1] == '%';
    assert !IsDecimal(t) by {
      if IsDecimal(t) {
        DecimalCharacters(t);
      }
    }
  }

  /** A text the number grammars accept denotes what they make of it. */
  lemma ParseNumberForm(s: string, toLength: LengthParser)
    requires forall i | 0 <= i < |s| :: s[i] != '~' && s[i] != ','
    requires NumberForm(s).Some?
    ensures Parse(s, toLength) == NumberForm(s).value
  {
    NormalizeIdentity(s);
  }

  /** Grammar 3: two decimals around ':' or '/' denote their quotient. */
  lemma ParseRatio(a: string, sep: char, b: string, toLength: LengthParser)
    requires IsDecimal(a) && IsDecimal(b) && (sep == ':' || sep == '/')
    ensures Parse(a + [sep] + b, toLength) == Divide(ToF(a), ToF(b))
  {
    var t := a + [sep] + b;
    DecimalCharacters(a);
    DecimalCharacters(b);
    assert forall i | 0 <= i < |t| :: t[i] == sep || IsDigit(t[i]) || t[i] == '.' by {
      forall i | 0 <= i < |t| ensures t[i] == sep || IsDigit(t[i]) || t[i] == '.' {
        if i < |a| {
          assert t[i] == a[i];
        } else if i > |a| {
          assert t[i] == b[i - |a| - 1];
        }
      }
    }
    NumberFormRatio(a, sep, b, t);
    ParseNumberForm(t, toLength);
  }

  lemma NumberFormRatio(a: string, sep: char, b: string, t: string)
    requires IsDecimal(a) && IsDecimal(b) && (sep == ':' || sep == '/')
    requires t == a + [sep] + b
    requires forall i | 0 <= i < |t| :: t[i] == sep || IsDigit(t[i]) || t[i] == '.'
    ensures NumberForm(t) == Some(Divide(ToF(a), ToF(b)))
  {
    RatioNotDecimal(a, sep, b, t);
    RatioSeparator(a, sep, b, t);
    assert t[..|a|] == a;
    assert t[|a| + 1..] == b;
  }

  lemma RatioSeparator(a: string, sep: char, b: string, t: string)
    requires IsDecimal(a) && (sep == ':' || sep == '/')
    requires t == a + [sep] + b
    ensures FirstIn(t, {':', '/'}) == |a|
  {
    DecimalCharacters(a);
    var k := FirstIn(t, {':', '/'});
    assert t[|a|] in {':', '/'};
  }

  lemma RatioNotDecimal(a: string, sep: char, b: string, t: string)
    requires sep == ':' || sep == '/'
    requires t == a + [sep] + b
    requires forall i | 0 <= i < |t| :: t[i] == sep || IsDigit(t[i]) || t[i] == '.'
    ensures !IsDecimal(t) && t[|t| - 1] != '%'
  {
    assert t[|a|] == sep;
    assert !IsDecimal(t) by {
      if IsDecimal(t) {
        DecimalCharacters(t);
      }
    }
  }

  /**
   * Grammar 4: "<length>=<length>", when no number grammar matches, splits
   * at its last '=', strips both normalised sides and divides the lengths
   * the host reads; a side it rejects gives nil.
   */
  lemma ParseDimension(a: string, b: string, toLength: LengthParser)
    requires Normalize(a) != [] && Normalize(b) != []
    requires '=' !in b && '\n' !in a && '\n' !in b
    requires NumberForm(Normalize(a + "=" + b)).None?
    ensures Parse(a + "=" + b, toLength)
         == match (toLength(Strip(Normalize(a))), toLength(Strip(Normalize(b))))
            case (Some(x), Some(y)) => Divide(x, y)
            case _ => Missing
  {
    NormalizeAround(a, b);
    NormalizeKeepsOut(b, '=');
    NormalizeKeepsOut(a, '\n');
    NormalizeKeepsOut(b, '\n');
    DimensionSplit(Normalize(a), Normalize(b), Normalize(a + "=" + b), toLength);
  }

  /** An '=' survives the normalisation, with each side normalised on its own. */
  lemma NormalizeAround(a: string, b: string)
    ensures Normalize(a + "=" + b) == Normalize(a) + "=" + Normalize(b)
  {
    NormalizeJoin(a + "=", b);
    NormalizeJoin(a, "=");
    NormalizeChar('=');
  }

  lemma DimensionSplit(a: string, b: string, t: string, toLength: LengthParser)
    requires a != [] && b != [] && t == a + "=" + b
    requires '=' !in b && '\n' !in a && '\n' !in b
    ensures DimensionForm(t, toLength)
         == match (toLength(Strip(a)), toLength(Strip(b)))
            case (Some(x), Some(y)) => Divide(x, y)
            case _ => Missing
  {
    AroundEquals(a, b, t);
    assert LastEquals(t, |t| - 2) == |a|;
  }

  /** The pieces of a + "=" + b, position by position. */
  lemma AroundEquals(a: string, b: string, t: string)
    requires t == a + "=" + b
    requires '=' !in b && '\n' !in a && '\n' !in b
    ensures t[|a|] == '=' && t[..|a|] == a && t[|a| + 1..] == b
    ensures forall i | |a| < i < |t| :: t[i] != '='
    ensures '\n' !in t
  {
    forall i | 0 <= i < |t| ensures t[i] != '\n' && (i > |a| ==> t[i] != '=') {
      if i < |a| {
        assert t[i] == a[i];
      } else if i > |a| {
        assert t[i] == b[i - |a| - 1];
      }
    }
    assert t[..|a|] == a && t[|a| + 1..] == b;
  }

  /** The imperial drafting text 1/4"=1' reads as a dimension: the ratio grammar rejects it. */
  lemma ParseImperialExample(toLength: LengthParser)
    ensures Parse("1/4\"=1'", toLength)
         == match (toLength("1/4\""), toLength("1'"))
            case (Some(x), Some(y)) => Divide(x, y)
            case _ => Missing
  {
    var a, b, t := "1/4\"", "1'", "1/4\"=1'";
    ImperialPlain(a, b, t);
    ImperialNotNumber(t);
    ParseDimension(a, b, toLength);
  }

  lemma ImperialPlain(a: string, b: string, t: string)
    requires a == "1/4\"" && b == "1'" && t == "1/4\"=1'"
    ensures t == a + "=" + b
    ensures Normalize(a) == a && Normalize(b) == b && Normalize(t) == t
    ensures Strip(a) == a && Strip(b) == b
    ensures '=' !in b && '\n' !in a && '\n' !in b
  {
    NormalizeIdentity(a);
    NormalizeIdentity(b);
    NormalizeAround(a, b);
  }

  lemma ImperialNotNumber(t: string)
    requires t == "1/4\"=1'"
    ensures NumberForm(t).None?
  {
    assert t[1] == '/';
    assert !IsDecimal(t) by {
      if IsDecimal(t) {
        DecimalCharacters(t);
      }
    }
    assert t[|t| - 1] != '%';
    assert t[0] !in {':', '/'};
    assert FirstIn(t, {':', '/'}) == 1;
    var r := t[2..];
    assert r[1] == '"';
    assert !IsDecimal(r) by {
      if IsDecimal(r) {
        DecimalCharacters(r);
      }
    }
  }

  /** A text that no grammar matches makes an invalid scale: its factor is nil. */
  lemma ParseUnmatched(s: string, toLength: LengthParser)
    requires NumberForm(Normalize(s)).None? && '=' !in s
    ensures Parse(s, toLength) == Missing
  {
    NormalizeKeepsOut(s, '=');
    var t := Normalize(s);
    if |t| >= 2 {
      var k := LastEquals(t, |t| - 2);
      assert k == -1;
    }
  }

  /** The normalisation works character by character. */
  lemma {:induction false} NormalizeJoin(a: string, b: string)
    ensures Normalize(a + b) == Normalize(a) + Normalize(b)
    decreases |a|
  {
    if a != [] {
      assert (a + b)[0] == a[0] && (a + b)[1..] == a[1..] + b;
      NormalizeJoin(a[1..], b);
      var head: string := if a[0] == '~' then [] else [if a[0] == ',' then '.' else a[0]];
      assert Normalize(a + b) == head + (Normalize(a[1..]) + Normalize(b));
      assert Normalize(a) == head + Normalize(a[1..]);
      assert head + (Normalize(a[1..]) + Normalize(b)) == (head + Normalize(a[1..])) + Normalize(b);
    } else {
      assert a + b == b;
    }
  }

  /** What the normalisation makes of each single character. */
  lemma NormalizeChar(c: char)
    ensures Normalize([c]) == if c == '~' then [] else if c == ',' then "." else [c]
  {
    assert [c][1..] == [];
  }

  /** Every '~' is deleted, wherever it stands. */
  lemma ParseDropsTilde(a: string, b: string, toLength: LengthParser)
    ensures Parse(a + "~" + b, toLength) == Parse(a + b, toLength)
  {
    NormalizeJoin(a + "~", b);
    NormalizeJoin(a, "~");
    NormalizeJoin(a, b);
    NormalizeChar('~');
    assert Normalize(a + "~") == Normalize(a);
    assert Normalize(a + "~" + b) == Normalize(a + b);
  }

  /** Every ',' reads as a decimal point, wherever it stands. */
  lemma ParseCommaIsPoint(a: string, b: string, toLength: LengthParser)
    ensures Parse(a + "," + b, toLength) == Parse(a + "." + b, toLength)
  {
    NormalizeJoin(a + ",", b);
    NormalizeJoin(a, ",");
    NormalizeJoin(a + ".", b);
    NormalizeJoin(a, ".");
    NormalizeChar(',');
    NormalizeChar('.');
  }

  /** A plain decimal makes a valid scale exactly when one of its digits is not zero. */
  lemma ParseDecimalValid(s: string, toLength: LengthParser)
    requires IsDecimal(s)
    ensures Valid(Parse(s, toLength)) <==> exists i | 0 <= i < |s| :: s[i] != '0' && s[i] != '.'
  {
    ParseDecimal(s, toLength);
    ToFZero(s);
  }

  /** The texts `format` writes, "N:M" with N and M in decimal digits, denote N / M. */
  lemma ParseNatRatio(n: nat, sep: char, m: nat, s: string, toLength: LengthParser)
    requires sep == ':' || sep == '/'
    requires s == NatText(n) + [sep] + NatText(m)
    ensures Parse(s, toLength) == Divide(n as real, m as real)
  {
    NatTextToF(n);
    NatTextToF(m);
    ParseRatio(NatText(n), sep, NatText(m), toLength);
  }

  /** "1:100" and "1/100" both denote 1/100. */
  lemma ParseRatioExample(toLength: LengthParser)
    ensures Parse("1:100", toLength) == Finite(0.01)
    ensures Parse("1/100", toLength) == Finite(0.01)
  {
    assert NatText(1) == "1" && NatText(100) == "100";
    assert "1:100" == NatText(1) + [':'] + NatText(100);
    assert "1/100" == NatText(1) + ['/'] + NatText(100);
    ParseNatRatio(1, ':', 100, "1:100", toLength);
    ParseNatRatio(1, '/', 100, "1/100", toLength);
    assert Divide(1 as real, 100 as real) == Finite(0.01);
  }

  /** A zero denominator gives no valid scale. */
  lemma ParseZeroDenominatorExample(toLength: LengthParser)
    ensures Parse("5:0", toLength) == NonFinite
  {
    assert NatText(5) == "5" && NatText(0) == "0";
    ParseNatRatio(5, ':', 0, "5:0", toLength);
  }

  /** "~1:42", the text `format` writes for an inexact 1:42, reads as 1:42. */
  lemma ParseApproximateExample(toLength: LengthParser)
    ensures Parse("~1:42", toLength) == Finite(1.0 / 42.0)
  {
    assert NatText(1) == "1" && NatText(42) == "42";
    var s := "~1:42";
    var u := s[1..];
    ParseNatRatio(1, ':', 42, u, toLength);
    ParseIgnoresTilde(u, toLength);
    assert s == "~" + u;
  }

  /** "10%" denotes 0.1. */
  lemma ParsePercentExample(toLength: LengthParser)
    ensures Parse("10%", toLength) == Finite(0.1)
  {
    var ten := NatText(10);
    NatTextToF(10);
    assert ten == "10";
    ParsePercent(ten, toLength);
    assert ten + "%" == "10%";
  }

  /** The empty text parses to an invalid zero. */
  lemma ParseEmptyExample(toLength: LengthParser)
    ensures Parse("", toLength) == Finite(0.0) && !Valid(Parse("", toLength))
  {
    ParseDecimal("", toLength);
  }

  /** A decimal comma reads as a decimal point: "2,5" denotes 2.5. */
  lemma ParseCommaExample(toLength: LengthParser)
    ensures Parse("2,5", toLength) == Finite(2.5)
  {
    var s, t := "2,5", "2.5";
    var s1 := s[1..];
    var s2 := s1[1..];
    assert s2[1..] == [];
    assert Normalize(s2) == "5";
    assert Normalize(s1) == ".5";
    assert Normalize(s) == t;
    assert FirstIn(t, {'.'}) == 1 by {
      assert t[1..] == ".5";
    }
    assert t[..1] == "2" && t[2..] == "5";
    NatTextToF(2);
    NatTextToF(5);
    assert NatText(2) == "2" && NatText(5) == "5";
    assert IsDecimal(t) && ToF(t) == 2.5;
    DecimalCharacters(t);
    NormalizeIdentity(t);
    ParseDecimal(t, toLength);
  }

  // ---------------------------------------------------------------------------
  // Comparison
  // ---------------------------------------------------------------------------

  /** `<=>` is antisymmetric, and a valid scale equals itself. */
  lemma CompareAntisymmetric(a: Factor, b: Factor)
    ensures CompareFactors(a, b).Some? ==> CompareFactors(b, a) == Some(-CompareFactors(a, b).value)
    ensures Valid(a) ==> CompareFactors(a, a) == Some(0)
  {
    var r := CompareFactors(a, b);
    if r.Some? {
      assert r.value == -1 || r.value == 0 || r.value == 1 by {
        if r.value != 0 && r.value != -1 {
          assert Dist(a.value, b.value) > FloatTolerance && a.value >= b.value;
        }
      }
    }
  }

  // ---------------------------------------------------------------------------
  // Formatting
  // ---------------------------------------------------------------------------

  /**
   * `Float#round` is within 1/2 of its argument, and a half goes away from
   * zero: the result is the one integer in (x - 1/2, x + 1/2] for x >= 0 and
   * in [x - 1/2, x + 1/2) for x < 0.
   */
  lemma RoundHalfAwayNearest(x: real, n: int)
    ensures x >= 0.0 ==> x - 0.5 < RoundHalfAway(x) as real <= x + 0.5
    ensures x < 0.0 ==> x - 0.5 <= RoundHalfAway(x) as real < x + 0.5
    ensures x >= 0.0 && x - 0.5 < n as real <= x + 0.5 ==> n == RoundHalfAway(x)
    ensures x < 0.0 && x - 0.5 <= n as real < x + 0.5 ==> n == RoundHalfAway(x)
  {
  }

  lemma RoundHalfAwayWhole(n: nat)
    ensures RoundHalfAway(n as real) == n
  {
  }

  lemma FormatTextShape(f: real)
    requires f != 0.0
    ensures FormatFactor(f) == FormatText(f) || FormatFactor(f) == "~" + FormatText(f)
    ensures |FormatText(f)| > 0 && FormatText(f)[0] != '~' && '=' !in FormatText(f)
  {
    var n := if f > 1.0 then RoundHalfAway(f) else RoundHalfAway(1.0 / f);
    IntTextCharacters(n);
    var t := FormatText(f);
    if f > 1.0 {
      assert t == IntText(n) + ":1";
      assert t[0] == IntText(n)[0];
    } else {
      assert t == "1:" + IntText(n);
    }
    assert forall i | 0 <= i < |t| :: t[i] != '=' by {
      forall i | 0 <= i < |t| ensures t[i] != '=' {
        if f > 1.0 {
          if i < |IntText(n)| {
            assert t[i] == IntText(n)[i];
          }
        } else if i >= 2 {
          assert t[i] == IntText(n)[i - 2];
        }
      }
    }
  }

  lemma IntTextCharacters(i: int)
    ensures |IntText(i)| > 0
    ensures forall k | 0 <= k < |IntText(i)| :: IsDigit(IntText(i)[k]) || IntText(i)[k] == '-'
  {
    if i < 0 {
      var s := IntText(i);
      assert forall k | 1 <= k < |s| :: s[k] == NatText(-i)[k - 1];
    }
  }

  /**
   * `format` prefixes "~" exactly when its text, read back, is not the same
   * scale: without the mark the text reads as an equal scale, with it not,
   * whatever the host's length parser.
   */
  lemma FormatMarksApproximation(f: real, toLength: LengthParser)
    requires f != 0.0
    ensures FormatFactor(f)[0] == '~' <==> CompareFactors(Finite(f), Parse(FormatFactor(f), toLength)) != Some(0)
  {
    var t := FormatText(f);
    FormatTextShape(f);
    ParseWithoutEquals(t, toLength);
    ParseIgnoresTilde(t, toLength);
  }

  /** A whole factor n >= 2 formats as "n:1", with no "~". */
  lemma FormatWhole(n: nat)
    requires n >= 2
    ensures FormatFactor(n as real) == NatText(n) + ":1"
  {
    RoundHalfAwayWhole(n);
    var t := NatText(n) + ":1";
    assert NatText(1) == "1";
    ParseNatRatio(n, ':', 1, t, NoLength);
  }

  /** The inverse of a whole n >= 1 formats as "1:n", with no "~"; 1 itself as "1:1". */
  lemma FormatReciprocal(n: nat)
    requires n >= 1
    ensures FormatFactor(1.0 / n as real) == "1:" + NatText(n)
  {
    var f := 1.0 / n as real;
    var t := "1:" + NatText(n);
    ReciprocalText(n);
    ReciprocalParse(n, t);
    assert FormatText(f) == t && Parse(t, NoLength) == Finite(f);
  }

  lemma ReciprocalText(n: nat)
    requires n >= 1
    ensures 1.0 / n as real != 0.0 && FormatText(1.0 / n as real) == "1:" + NatText(n)
  {
    var m := n as real;
    var f := 1.0 / m;
    InverseInverse(m);
    InverseAntitone(1.0, m);
    RoundHalfAwayWhole(n);
    assert f <= 1.0 && 1.0 / f == m;
    assert RoundHalfAway(1.0 / f) == n;
    assert IntText(n) == NatText(n);
  }

  lemma ReciprocalParse(n: nat, t: string)
    requires n >= 1 && t == "1:" + NatText(n)
    ensures Parse(t, NoLength) == Finite(1.0 / n as real)
  {
    assert NatText(1) == "1";
    ParseNatRatio(1, ':', n, t, NoLength);
  }

  /** 1:42.3 formats as "~1:42": the text names the nearest whole 1:N and is marked. */
  lemma FormatApproximateExample()
    ensures FormatFactor(1.0 / 42.3) == "~1:42"
  {
    var f := 1.0 / 42.3;
    var t := FormatText(f);
    ApproximateText(f, t);
    ApproximateCompare(f, t);
    FormatMarked(f, t);
  }

  lemma ApproximateText(f: real, t: string)
    requires f == 1.0 / 42.3 && t == FormatText(f)
    ensures t == "1:42"
  {
    assert f <= 1.0 && 1.0 / f == 42.3;
    assert RoundHalfAway(1.0 / f) == 42;
    assert IntText(42) == NatText(42) == "42";
  }

  lemma ApproximateCompare(f: real, t: string)
    requires f == 1.0 / 42.3 && t == "1:42"
    ensures CompareFactors(Finite(f), Parse(t, NoLength)) == Some(-1)
  {
    assert NatText(1) == "1" && NatText(42) == "42";
    ParseNatRatio(1, ':', 42, t, NoLength);
    assert Dist(f, 1.0 / 42.0) > FloatTolerance;
  }

  lemma FormatMarked(f: real, t: string)
    requires f != 0.0 && FormatText(f) == t
    requires CompareFactors(Finite(f), Parse(t, NoLength)) != Some(0)
    ensures FormatFactor(f) == "~" + t
  {
  }
}
