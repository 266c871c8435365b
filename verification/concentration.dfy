/**
 * `get_numerical_concent`: the value of the first numeral in a free-text
 * concentration such as "500mg" or "2.5 ml", or 0 when it has none.
 *
 * The source runs `re.findall(r'\d+\.?\d*', concent)` and converts the
 * first match with `float`. Both steps are modelled: `FindAll` is the
 * left-to-right scan of `findall`, `MatchEnd` the greedy match at one
 * position, and `FloatOf` the exact decimal value of a numeral. `IsNumeral`
 * is the language of the regular expression, stated independently of the
 * scan, and `ParseFirstNumeral` proves that the parser returns the value of
 * the leftmost, longest word of that language.
 */
module Concentration {

  /** ASCII `\d`. */
  predicate IsDigit(c: char)
  {
    '0' <= c <= '9'
  }

  predicate AllDigits(t: string)
  {
    forall j :: 0 <= j < |t| ==> IsDigit(t[j])
  }

  predicate HasDigit(s: string)
  {
    exists j :: 0 <= j < |s| && IsDigit(s[j])
  }

  /** The words matched by `\d+\.?\d*`: digits, then optionally a dot and more digits. */
  ghost predicate IsNumeral(t: string)
  {
    exists k :: 0 < k <= |t| && AllDigits(t[..k]) && (k == |t| || (t[k] == '.' && AllDigits(t[k + 1..])))
  }

  /** Index just past the run of digits that starts at `i`. */
  function DigitRunEnd(s: string, i: nat): (e: nat)
    requires i <= |s|
    ensures i <= e <= |s|
    ensures forall j :: i <= j < e ==> IsDigit(s[j])
    ensures e < |s| ==> !IsDigit(s[e])
    decreases |s| - i
  {
    if i < |s| && IsDigit(s[i]) then DigitRunEnd(s, i + 1) else i
  }

  /** End of the greedy match of `\d+\.?\d*` that starts at the digit `s[i]`. */
  function MatchEnd(s: string, i: nat): (e: nat)
    requires i < |s| && IsDigit(s[i])
    ensures i < e <= |s|
  {
    var d := DigitRunEnd(s, i);
    if d < |s| && s[d] == '.' then DigitRunEnd(s, d + 1) else d
  }

  /** `re.findall(r'\d+\.?\d*', s[i..])`: every match, scanning left to right. */
  function FindAll(s: string, i: nat): (r: seq<string>)
    requires i <= |s|
    ensures forall k :: 0 <= k < |r| ==> IsNumeral(r[k])
    decreases |s| - i
  {
    if i == |s| then []
    else if IsDigit(s[i]) then
      MatchIsNumeral(s, i);
      [s[i..MatchEnd(s, i)]] + FindAll(s, MatchEnd(s, i))
    else FindAll(s, i + 1)
  }

  function Pow10(n: nat): (r: nat)
    ensures r >= 1
  {
    if n == 0 then 1 else 10 * Pow10(n - 1)
  }

  function DigitValue(c: char): nat
    requires IsDigit(c)
  {
    (c as int - '0' as int) as nat
  }

  /** The integer a string of decimal digits denotes. */
  function DigitsValue(t: string): nat
    requires AllDigits(t)
  {
    if t == [] then 0 else 10 * DigitsValue(t[..|t| - 1]) + DigitValue(t[|t| - 1])
  }

  /** The text of a match has its digits-and-dot shape at the end of its leading digit run. */
  lemma NumeralShape(t: string)
    requires IsNumeral(t)
    ensures var d := DigitRunEnd(t, 0);
      0 < d && (d == |t| || (t[d] == '.' && AllDigits(t[d + 1..])))
  {
    var k :| 0 < k <= |t| && AllDigits(t[..k]) && (k == |t| || (t[k] == '.' && AllDigits(t[k + 1..])));
    assert forall j :: 0 <= j < k ==> t[..k][j] == t[j];
    assert DigitRunEnd(t, 0) == k;
  }

  /** `float(t)` for a numeral `t`, as an exact decimal. */
  function FloatOf(t: string): (r: real)
    requires IsNumeral(t)
    ensures r >= 0.0
  {
    NumeralShape(t);
    var d := DigitRunEnd(t, 0);
    var frac := if d == |t| then "" else t[d + 1..];
    Decimal(DigitsValue(t[..d]), DigitsValue(frac), |frac|)
  }

  /** The number written `whole.fraction` with `places` digits after the dot. */
  function Decimal(whole: nat, fraction: nat, places: nat): (r: real)
    ensures r >= whole as real
  {
    whole as real + fraction as real / Pow10(places) as real
  }

  /** A numeral without a dot is worth the integer its digits denote. */
  lemma FloatOfInteger(t: string)
    requires t != [] && AllDigits(t)
    ensures IsNumeral(t) && FloatOf(t) == DigitsValue(t) as real
  {
    assert t[..|t|] == t;
    assert DigitRunEnd(t, 0) == |t|;
  }

  /** A numeral `a.b` is worth `a + b / 10^|b|`. */
  lemma FloatOfDecimal(a: string, b: string)
    requires a != [] && AllDigits(a) && AllDigits(b)
    ensures IsNumeral(a + "." + b)
    ensures FloatOf(a + "." + b) == Decimal(DigitsValue(a), DigitsValue(b), |b|)
  {
    var t := a + "." + b;
    assert t[..|a|] == a && t[|a|] == '.' && t[|a| + 1..] == b;
    assert IsNumeral(t) by {
      assert 0 < |a| <= |t| && AllDigits(t[..|a|]) && t[|a|] == '.' && AllDigits(t[|a| + 1..]);
    }
    forall j | 0 <= j < |a|
      ensures IsDigit(t[j])
    {
      assert t[j] == a[j];
    }
    assert DigitRunEnd(t, 0) == |a|;
  }

  /** The match that starts at a digit is a numeral. */
  lemma MatchIsNumeral(s: string, i: nat)
    requires i < |s| && IsDigit(s[i])
    ensures IsNumeral(s[i..MatchEnd(s, i)])
  {
    var d, e := DigitRunEnd(s, i), MatchEnd(s, i);
    var t := s[i..e];
    var k := d - i;
    assert AllDigits(t[..k]);
    if k < |t| {
      assert t[k] == '.';
      assert AllDigits(t[k + 1..]);
    }
  }

  /** A numeral that starts at `i` ends no later than the match there. */
  lemma NumeralWithinMatch(s: string, i: nat, q: nat)
    requires i < q <= |s| && IsDigit(s[i])
    requires IsNumeral(s[i..q])
    ensures q <= MatchEnd(s, i)
  {
    var d := DigitRunEnd(s, i);
    var t := s[i..q];
    var k :| 0 < k <= |t| && AllDigits(t[..k]) && (k == |t| || (t[k] == '.' && AllDigits(t[k + 1..])));
    forall j | i <= j < i + k
      ensures IsDigit(s[j])
    {
      assert t[..k][j - i] == s[j];
    }
    assert i + k <= d;
    if k < |t| {
      assert s[i + k] == t[k] == '.';
      assert i + k == d;
      assert forall j :: d + 1 <= j < q ==> t[k + 1..][j - d - 1] == s[j];
    }
  }

  /** The match is greedy: no longer word starting at `i` is a numeral. */
  lemma MatchIsLongest(s: string, i: nat, q: nat)
    requires i < |s| && IsDigit(s[i])
    requires MatchEnd(s, i) < q <= |s|
    ensures !IsNumeral(s[i..q])
  {
    if IsNumeral(s[i..q]) {
      NumeralWithinMatch(s, i, q);
    }
  }

  /** `findall` from `i` begins with the match at the first digit at or after `i`. */
  lemma {:induction false} FindAllFirst(s: string, i: nat, p: nat)
    requires i <= p < |s| && IsDigit(s[p])
    requires forall j :: i <= j < p ==> !IsDigit(s[j])
    ensures FindAll(s, i) != [] && FindAll(s, i)[0] == s[p..MatchEnd(s, p)]
    decreases p - i
  {
    if i < p {
      FindAllFirst(s, i + 1, p);
    }
  }

  /** `findall` from `i` finds nothing exactly when no digit follows `i`. */
  lemma {:induction false} FindAllEmpty(s: string, i: nat)
    requires i <= |s|
    ensures FindAll(s, i) == [] <==> forall j :: i <= j < |s| ==> !IsDigit(s[j])
    decreases |s| - i
  {
    if i < |s| && !IsDigit(s[i]) {
      FindAllEmpty(s, i + 1);
    }
  }

  /** `get_numerical_concent`: never negative, since a match carries no sign. */
  function ParseConcent(s: string): (r: real)
    ensures r >= 0.0
  {
    var numbers := FindAll(s, 0);
    if numbers != [] then FloatOf(numbers[0]) else 0.0
  }

  /** Index of the first digit at or after `i`, when there is one. */
  function FirstDigit(s: string, i: nat): (p: nat)
    requires i <= |s|
    requires FindAll(s, i) != []
    ensures i <= p < |s| && IsDigit(s[p])
    ensures forall j :: i <= j < p ==> !IsDigit(s[j])
    decreases |s| - i
  {
    FindAllEmpty(s, i);
    if IsDigit(s[i]) then i else FirstDigit(s, i + 1)
  }

  /** No digit: the parser returns 0. */
  lemma ParseNoDigit(s: string)
    requires !HasDigit(s)
    ensures ParseConcent(s) == 0.0
  {
    FindAllEmpty(s, 0);
  }

  /** With a digit, the parser returns the value of the leftmost, longest numeral. */
  lemma ParseFirstNumeral(s: string, p: nat)
    requires p < |s| && IsDigit(s[p])
    requires forall j :: 0 <= j < p ==> !IsDigit(s[j])
    ensures exists e ::
              && p < e <= |s|
              && IsNumeral(s[p..e])
              && (forall q :: e < q <= |s| ==> !IsNumeral(s[p..q]))
              && ParseConcent(s) == FloatOf(s[p..e])
  {
    var e := MatchEnd(s, p);
    FindAllFirst(s, 0, p);
    MatchIsNumeral(s, p);
    forall q | e < q <= |s|
      ensures !IsNumeral(s[p..q])
    {
      MatchIsLongest(s, p, q);
    }
  }

  /** A concentration that starts with a whole number followed by a unit parses to that number. */
  lemma ParseLeadingInteger(n: string, unit: string)
    requires n != [] && AllDigits(n)
    requires unit == [] || (!IsDigit(unit[0]) && unit[0] != '.')
    ensures ParseConcent(n + unit) == DigitsValue(n) as real
  {
    var s := n + unit;
    assert forall j :: 0 <= j < |n| ==> s[j] == n[j];
    assert |n| < |s| ==> s[|n|] == unit[0];
    assert DigitRunEnd(s, 0) == |n|;
    FindAllFirst(s, 0, 0);
    assert s[0..|n|] == n;
    FloatOfInteger(n);
  }

  /** A digit run that stops inside `s` stops at the same place in any extension of `s`. */
  lemma {:induction false} DigitRunEndExtend(s: string, rest: string, i: nat)
    requires i <= |s| && DigitRunEnd(s, i) < |s|
    ensures DigitRunEnd(s + rest, i) == DigitRunEnd(s, i)
    decreases |s| - i
  {
    assert (s + rest)[i] == s[i];
    if IsDigit(s[i]) {
      DigitRunEndExtend(s, rest, i + 1);
    }
  }

  /** Only the first numeral counts: text after it, and any later numbers, are ignored. */
  lemma ParseIgnoresSuffix(s: string, rest: string)
    requires HasDigit(s)
    requires !IsDigit(s[|s| - 1]) && s[|s| - 1] != '.'
    ensures ParseConcent(s + rest) == ParseConcent(s)
  {
    var u := s + rest;
    FindAllEmpty(s, 0);
    var p := FirstDigit(s, 0);
    assert forall j :: 0 <= j < p ==> u[j] == s[j];
    assert u[p] == s[p];
    FindAllFirst(s, 0, p);
    FindAllFirst(u, 0, p);
    var d := DigitRunEnd(s, p);
    DigitRunEndExtend(s, rest, p);
    if s[d] == '.' {
      assert u[d] == '.';
      DigitRunEndExtend(s, rest, d + 1);
    } else {
      assert u[d] == s[d];
    }
    assert MatchEnd(u, p) == MatchEnd(s, p);
    assert u[p..MatchEnd(u, p)] == s[p..MatchEnd(s, p)];
  }
}

/** The worked examples of the concentration parser. */
module ConcentrationExamples {
  import opened Concentration

  lemma ParseInteger()
    ensures ParseConcent("500mg") == 500.0
  {
    ParseLeadingInteger("500", "mg");
    assert DigitsValue("500") == 500 by {
      assert "500"[..2] == "50" && "50"[..1] == "5" && "5"[..0] == "";
    }
    assert "500" + "mg" == "500mg";
  }

  lemma Parse20()
    ensures ParseConcent("20mg") == 20.0
  {
    ParseLeadingInteger("20", "mg");
    assert DigitsValue("20") == 20 by {
      assert "20"[..1] == "2" && "2"[..0] == "";
    }
    assert "20" + "mg" == "20mg";
  }

  lemma Parse100()
    ensures ParseConcent("100mg") == 100.0
  {
    ParseLeadingInteger("100", "mg");
    assert DigitsValue("100") == 100 by {
      assert "100"[..2] == "10" && "10"[..1] == "1" && "1"[..0] == "";
    }
    assert "100" + "mg" == "100mg";
  }

  lemma ParseDecimal()
    ensures ParseConcent("2.5 ml") == 2.5
  {
    assert DigitRunEnd("2.5 ml", 0) == 1;
    assert DigitRunEnd("2.5 ml", 2) == 3;
    FindAllFirst("2.5 ml", 0, 0);
    assert "2.5 ml"[0..3] == "2" + "." + "5";
    FloatOfDecimal("2", "5");
    assert DigitsValue("2") == 2 && DigitsValue("5") == 5 by {
      assert "2"[..0] == "" && "5"[..0] == "";
    }
    assert Pow10(1) == 10;
  }

  lemma ParseNoNumber()
    ensures ParseConcent("mg") == 0.0
  {
    ParseNoDigit("mg");
  }

  /** A match must start with a digit, so a leading dot is skipped. */
  lemma ParseLeadingDot()
    ensures ParseConcent(".5mg") == 5.0
  {
    assert DigitRunEnd(".5mg", 1) == 2;
    FindAllFirst(".5mg", 0, 1);
    assert ".5mg"[1..2] == "5";
    FloatOfInteger("5");
    assert DigitsValue("5") == 5 by {
      assert "5"[..0] == "";
    }
  }

  /** A range counts as its first number. */
  lemma ParseRange()
    ensures ParseConcent("10-20mg") == 10.0
  {
    assert DigitRunEnd("10-20mg", 0) == 2;
    FindAllFirst("10-20mg", 0, 0);
    assert "10-20mg"[0..2] == "10";
    FloatOfInteger("10");
    assert DigitsValue("10") == 10 by {
      assert "10"[..1] == "1" && "1"[..0] == "";
    }
  }
}
