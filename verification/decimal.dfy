/**
 `int(token)` on one token (squares.py, line 51): a base-10 integer with an
 optional sign. As in Python, leading zeros are accepted (`int("007") == 7`)
 and `-0` is 0. The tokens reaching `int()` never hold whitespace, so the
 whitespace `int()` itself would skip does not arise.
 */
module Decimal {
  import opened Results

  predicate IsDigit(c: char)
  {
    '0' <= c <= '9'
  }

  predicate AllDigits(s: string)
  {
    forall i :: 0 <= i < |s| ==> IsDigit(s[i])
  }

  /** The grammar `int()` accepts here: `[+|-]digit+`. */
  predicate IsIntLiteral(t: string)
  {
    if |t| > 0 && (t[0] == '+' || t[0] == '-') then |t| > 1 && AllDigits(t[1..])
    else |t| > 0 && AllDigits(t)
  }

  /** The number a string of digits denotes, most significant digit first. */
  function DigitsValue(s: string): nat
    requires AllDigits(s)
    decreases |s|
  {
    if |s| == 0 then 0
    else 10 * DigitsValue(s[..|s| - 1]) + (s[|s| - 1] as int - '0' as int)
  }

  /** `int(t)`, or `None` where Python raises `ValueError`. An unsigned
      literal denotes its digits; `+` keeps the value of what follows it and
      `-` negates it, so `int("+5") == 5` and `int("-0") == 0`. */
  function ParseInt(t: string): (r: Option<int>)
    ensures r.Some? <==> IsIntLiteral(t)
    ensures r.Some? && t[0] != '+' && t[0] != '-' ==> r.value == DigitsValue(t)
    ensures r.Some? && t[0] == '+' ==> r.value == DigitsValue(t[1..])
    ensures r.Some? && t[0] == '-' ==> r.value == -(DigitsValue(t[1..]) as int)
    ensures r.Some? && t[0] == '-' ==> r.value <= 0
    ensures r.Some? && t[0] != '-' ==> r.value >= 0
  {
    if |t| == 0 then None
    else
      match t[0]
      case '+' => if |t| > 1 && AllDigits(t[1..]) then Some(DigitsValue(t[1..])) else None
      case '-' => if |t| > 1 && AllDigits(t[1..]) then Some(-(DigitsValue(t[1..]) as int)) else None
      case _ => if AllDigits(t) then Some(DigitsValue(t)) else None
  }

  function DigitChar(d: nat): (c: char)
    requires d < 10
    ensures IsDigit(c) && c as int - '0' as int == d
  {
    (d + '0' as int) as char
  }

  /** The decimal digits of `n`, without leading zeros: Python's `str(n)`. */
  function ShowNat(n: nat): (s: string)
    ensures |s| > 0 && AllDigits(s)
    ensures |s| > 1 ==> s[0] != '0'
  {
    if n < 10 then [DigitChar(n)]
    else ShowNat(n / 10) + [DigitChar(n % 10)]
  }

  /** Python's `str(n)` of an integer: a `-` before the digits of a negative one. */
  function ShowInt(n: int): (s: string)
    ensures IsIntLiteral(s)
  {
    if n < 0 then "-" + ShowNat(-n) else ShowNat(n)
  }

  // ---------------------------------------------------------------------
  // Lemmas
  // ---------------------------------------------------------------------

  lemma {:induction false} DigitsValueOfShowNat(n: nat)
    ensures DigitsValue(ShowNat(n)) == n
  {
    if n >= 10 {
      DigitsValueOfShowNat(n / 10);
      var s := ShowNat(n);
      assert s[..|s| - 1] == ShowNat(n / 10);
    }
  }

  /** Parsing what `ShowInt` writes gives the number back. */
  lemma ParseShowInt(n: int)
    ensures ParseInt(ShowInt(n)) == Some(n)
  {
    if n < 0 {
      var s := ShowNat(-n);
      DigitsValueOfShowNat(-n);
      var t := "-" + s;
      assert ShowInt(n) == t;
      assert t[0] == '-' && t[1..] == s && |t| > 1;
      assert ParseInt(t) == Some(-(DigitsValue(s) as int));
    } else {
      DigitsValueOfShowNat(n);
    }
  }

  /** The form `str()` writes: digits without a leading zero (a lone `0`
      allowed), preceded by `-` only for a non-zero value. */
  predicate IsCanonical(t: string)
  {
    if |t| > 0 && t[0] == '-' then
      |t| > 1 && AllDigits(t[1..]) && t[1] != '0'
    else
      |t| > 0 && AllDigits(t) && (|t| == 1 || t[0] != '0')
  }

  lemma {:induction false} DigitsValuePositive(s: string)
    requires |s| > 0 && AllDigits(s) && s[0] != '0'
    ensures DigitsValue(s) > 0
    decreases |s|
  {
    if |s| > 1 {
      DigitsValuePositive(s[..|s| - 1]);
    }
  }

  lemma {:induction false} ShowNatOfDigitsValue(s: string)
    requires |s| > 0 && AllDigits(s) && (|s| == 1 || s[0] != '0')
    ensures ShowNat(DigitsValue(s)) == s
    decreases |s|
  {
    if |s| > 1 {
      var p := s[..|s| - 1];
      DigitsValuePositive(p);
      ShowNatOfDigitsValue(p);
      var d := s[|s| - 1] as int - '0' as int;
      var v := DigitsValue(s);
      assert v == 10 * DigitsValue(p) + d;
      assert v / 10 == DigitsValue(p) && v % 10 == d;
      assert DigitChar(d) == s[|s| - 1];
      assert s == p + [s[|s| - 1]];
    }
  }

  /** Rendering what `ParseInt` reads gives the text back, for every text
      in the form `str()` writes: the other half of the round trip. */
  lemma ShowParseInt(t: string)
    requires IsCanonical(t)
    ensures ParseInt(t).Some? && ShowInt(ParseInt(t).value) == t
  {
    if t[0] == '-' {
      var s := t[1..];
      ShowNatOfDigitsValue(s);
      DigitsValuePositive(s);
      assert t == "-" + s;
    } else {
      ShowNatOfDigitsValue(t);
    }
  }

  /** A sign in front of an unsigned text: `+` keeps what the text parses
      to and `-` negates it; both fail exactly when the text does. */
  lemma SignLaws(u: string)
    requires |u| == 0 || (u[0] != '+' && u[0] != '-')
    ensures ParseInt("+" + u) == ParseInt(u)
    ensures ParseInt("-" + u) == if ParseInt(u).Some? then Some(-ParseInt(u).value) else None
  {
    var p, m := "+" + u, "-" + u;
    assert p[0] == '+' && p[1..] == u;
    assert m[0] == '-' && m[1..] == u;
  }

  /** Signs on a literal: `int("+5") == 5`, `int("-0") == 0`, `int("-5") == -5`. */
  lemma SignExamples()
    ensures ParseInt("+5") == Some(5)
    ensures ParseInt("-0") == Some(0)
    ensures ParseInt("-5") == Some(-5)
  {
    assert "+5"[1..] == "5" && "-0"[1..] == "0" && "-5"[1..] == "5";
  }

  /** A leading zero does not change the value of a digit string. */
  lemma {:induction false} LeadingZeroIgnored(s: string)
    requires AllDigits(s)
    ensures DigitsValue("0" + s) == DigitsValue(s)
    decreases |s|
  {
    if |s| > 0 {
      var z := "0" + s;
      assert z[..|z| - 1] == "0" + s[..|s| - 1];
      LeadingZeroIgnored(s[..|s| - 1]);
    }
  }

  /** `int()` reads zero-padded numbers: `int("-007") == int("-7")`. */
  lemma ZeroPaddingIgnored(sign: string, s: string)
    requires sign == "" || sign == "+" || sign == "-"
    requires |s| > 0 && AllDigits(s)
    ensures ParseInt(sign + "0" + s) == ParseInt(sign + s)
  {
    LeadingZeroIgnored(s);
    assert AllDigits("0" + s) by {
      forall i | 0 < i < |s| + 1 ensures IsDigit(("0" + s)[i]) {
        assert ("0" + s)[i] == s[i - 1];
      }
    }
    if sign != "" {
      assert (sign + "0" + s)[1..] == "0" + s;
      assert (sign + s)[1..] == s;
      assert (sign + "0" + s)[0] == (sign + s)[0] == sign[0];
    } else {
      assert sign + "0" + s == "0" + s && sign + s == s;
    }
  }
}
