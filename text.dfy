/**
 * Character-level helpers shared by the scale parser and the SVG writer:
 * decimal digits, Ruby's `Integer#to_s` and the value `String#to_f` gives a
 * text of the shape `\d*\.?\d*`.
 */
module Text {

  predicate IsDigit(c: char) { '0' <= c <= '9' }

  predicate AllDigits(s: string) { forall i | 0 <= i < |s| :: IsDigit(s[i]) }

  function DigitChar(d: nat): (c: char)
    requires d < 10
    ensures IsDigit(c) && c as int - '0' as int == d
  {
    ('0' as int + d) as char
  }

  /** The number a non-empty or empty run of decimal digits denotes ("" denotes 0). */
  function DigitsValue(s: string): nat
    requires AllDigits(s)
    decreases |s|
  {
    if s == [] then 0 else 10 * DigitsValue(s[..|s| - 1]) + (s[|s| - 1] as int - '0' as int)
  }

  /** Ruby's `Integer#to_s` for a non-negative integer: its shortest decimal digits. */
  function NatText(n: nat): (s: string)
    ensures |s| > 0 && AllDigits(s)
    ensures DigitsValue(s) == n
    ensures |s| > 1 ==> s[0] != '0'
    decreases n
  {
    if n < 10 then [DigitChar(n)]
    else
      var s := NatText(n / 10) + [DigitChar(n % 10)];
      assert s[..|s| - 1] == NatText(n / 10);
      s
  }

  /** Ruby's `Integer#to_s`, with a leading "-" for a negative integer. */
  function IntText(i: int): string
  {
    if i < 0 then "-" + NatText(-i) else NatText(i)
  }

  /** The first index of `s` holding a character of `cs`, or `|s|` when there is none. */
  function FirstIn(s: string, cs: set<char>): (k: nat)
    ensures k <= |s|
    ensures k < |s| ==> s[k] in cs
    ensures forall i | 0 <= i < k :: s[i] !in cs
    decreases |s|
  {
    if s == [] then 0 else if s[0] in cs then 0 else 1 + FirstIn(s[1..], cs)
  }

  /** `s` matches `\d*\.?\d*` as a whole: digits with at most one '.' among them. */
  predicate IsDecimal(s: string)
  {
    var k := FirstIn(s, {'.'});
    AllDigits(s[..k]) && (k == |s| || AllDigits(s[k + 1..]))
  }

  function PowNat(n: nat): (r: real)
    ensures r >= 1.0
    decreases n
  {
    if n == 0 then 1.0 else 10.0 * PowNat(n - 1)
  }

  /**
   * Ruby's `String#to_f` on a text matching `\d*\.?\d*`: the whole part
   * plus the fraction after the dot ("" and "." give 0, "5." gives 5).
   */
  function ToF(s: string): (r: real)
    requires IsDecimal(s)
  {
    var k := FirstIn(s, {'.'});
    var whole := DigitsValue(s[..k]) as real;
    if k == |s| then whole
    else whole + DigitsValue(s[k + 1..]) as real / PowNat(|s| - k - 1)
  }

  lemma {:induction false} DigitsValueZero(s: string)
    requires AllDigits(s)
    ensures DigitsValue(s) == 0 <==> forall i | 0 <= i < |s| :: s[i] == '0'
    decreases |s|
  {
    if s != [] {
      var init := s[..|s| - 1];
      DigitsValueZero(init);
      assert forall i | 0 <= i < |init| :: init[i] == s[i];
    }
  }

  /** `to_f` gives zero exactly for the decimal texts made of '0's and at most one '.'. */
  lemma ToFZero(s: string)
    requires IsDecimal(s)
    ensures ToF(s) >= 0.0
    ensures ToF(s) == 0.0 <==> forall i | 0 <= i < |s| :: s[i] == '0' || s[i] == '.'
  {
    var k := FirstIn(s, {'.'});
    var head := s[..k];
    DigitsValueZero(head);
    if k == |s| {
      assert head == s;
    } else {
      var tail := s[k + 1..];
      DigitsValueZero(tail);
      FractionZero(DigitsValue(tail), PowNat(|s| - k - 1));
      ZerosAroundDot(s, k, head, tail);
    }
  }

  lemma FractionZero(n: nat, p: real)
    requires p >= 1.0
    ensures n as real / p >= 0.0
    ensures n as real / p == 0.0 <==> n == 0
  {
  }

  lemma ZerosAroundDot(s: string, k: nat, head: string, tail: string)
    requires k < |s| && s[k] == '.' && head == s[..k] && tail == s[k + 1..]
    requires AllDigits(head) && AllDigits(tail)
    ensures (forall i | 0 <= i < |s| :: s[i] == '0' || s[i] == '.') <==>
            (forall i | 0 <= i < |head| :: head[i] == '0') && (forall i | 0 <= i < |tail| :: tail[i] == '0')
  {
    if forall i | 0 <= i < |s| :: s[i] == '0' || s[i] == '.' {
      forall i | 0 <= i < k ensures head[i] == '0' {
        assert head[i] == s[i] && IsDigit(head[i]);
      }
      forall i | 0 <= i < |s| - k - 1 ensures tail[i] == '0' {
        assert tail[i] == s[k + 1 + i] && IsDigit(tail[i]);
      }
    }
    if (forall i | 0 <= i < k :: head[i] == '0') && (forall i | 0 <= i < |s| - k - 1 :: tail[i] == '0') {
      forall i | 0 <= i < |s| ensures s[i] == '0' || s[i] == '.' {
        if i < k { assert s[i] == head[i]; }
        else if i > k { assert s[i] == tail[i - k - 1]; }
      }
    }
  }

  /** Every character of a decimal text is a digit or the dot. */
  lemma DecimalCharacters(s: string)
    requires IsDecimal(s)
    ensures forall i | 0 <= i < |s| :: IsDigit(s[i]) || s[i] == '.'
  {
    var k := FirstIn(s, {'.'});
    forall i | 0 <= i < |s|
      ensures IsDigit(s[i]) || s[i] == '.'
    {
      if i < k {
        assert s[i] == s[..k][i];
      } else if i > k {
        assert s[i] == s[k + 1..][i - k - 1];
      }
    }
  }

  /** The digits `NatText` writes read back, through `to_f`, as the same number. */
  lemma NatTextToF(n: nat)
    ensures IsDecimal(NatText(n)) && ToF(NatText(n)) == n as real
  {
    var s := NatText(n);
    assert forall i | 0 <= i < |s| :: s[i] != '.';
    assert FirstIn(s, {'.'}) == |s|;
    assert s[..|s|] == s;
  }
}
