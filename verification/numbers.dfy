/** Python's `int(token)` for base-10 text, and the abstract `float(token)`.

    `int()` accepts surrounding whitespace, one optional sign and ASCII digits
    that may be grouped by single underscores ("1_000"); anything else is a
    `ValueError`. `float()` is left abstract: a `FloatParser` is any partial
    map from a token to an exact real. */
module Numbers {
  import opened Wrappers
  import opened Text

  /** `float(token)`: `None` where Python raises `ValueError`. */
  type FloatParser = string -> Option<real>

  predicate IsDigit(c: char) {
    '0' <= c <= '9'
  }

  function DigitValue(c: char): nat
    requires IsDigit(c)
  {
    (c as int - '0' as int) as nat
  }

  function DigitChar(d: nat): (c: char)
    requires d < 10
    ensures IsDigit(c) && DigitValue(c) == d
  {
    ('0' as int + d) as char
  }

  /** Digits with single underscores strictly between two digits: it starts
      and ends with a digit, holds nothing but digits and underscores, and no
      two underscores are adjacent. */
  predicate IsDigitGroup(t: string) {
    && |t| > 0 && IsDigit(t[0]) && IsDigit(t[|t| - 1])
    && (forall i | 0 <= i < |t| :: IsDigit(t[i]) || t[i] == '_')
    && (forall i, j | 0 <= i < |t| && 0 <= j < |t| && j == i + 1 :: t[i] != '_' || t[j] != '_')
  }

  /** The number the digits of `t` spell, underscores ignored. */
  function DigitsValue(t: string): nat
    requires forall i | 0 <= i < |t| :: IsDigit(t[i]) || t[i] == '_'
  {
    if |t| == 0 then 0
    else if t[|t| - 1] == '_' then DigitsValue(t[..|t| - 1])
    else 10 * DigitsValue(t[..|t| - 1]) + DigitValue(t[|t| - 1])
  }

  function ParseUnsigned(t: string): Option<nat> {
    if IsDigitGroup(t) then Some(DigitsValue(t)) else None
  }

  /** `int(token)`; `None` where Python raises `ValueError`. Its properties
      are lemmas (`ParseSigned`, `ParseShowInt`, `ParseSurroundingSpace` and
      the examples below) rather than postconditions, which every numeric
      field read would otherwise carry into its proofs. */
  function ParseInt(token: string): (r: Option<int>)
  {
    var t := Strip(token);
    if |t| > 0 && t[0] == '-' then
      match ParseUnsigned(t[1..])
      case Some(n) => Some(-(n as int))
      case None => None
    else if |t| > 0 && t[0] == '+' then
      match ParseUnsigned(t[1..])
      case Some(n) => Some(n)
      case None => None
    else
      match ParseUnsigned(t)
      case Some(n) => Some(n)
      case None => None
  }

  /** Canonical decimal text of a natural number. */
  function ShowNat(n: nat): (t: string)
    ensures |t| > 0
    ensures forall i | 0 <= i < |t| :: IsDigit(t[i])
  {
    if n < 10 then [DigitChar(n)] else ShowNat(n / 10) + [DigitChar(n % 10)]
  }

  /** Canonical decimal text of an integer, as Python's `str(n)` writes it. */
  function ShowInt(n: int): string {
    if n < 0 then "-" + ShowNat(-n) else ShowNat(n)
  }

  lemma {:induction false} ShowNatValue(n: nat)
    ensures DigitsValue(ShowNat(n)) == n
  {
    if n >= 10 {
      var t := ShowNat(n);
      assert t[..|t| - 1] == ShowNat(n / 10);
      ShowNatValue(n / 10);
    }
  }

  lemma NoSpaceStrip(t: string)
    requires forall i | 0 <= i < |t| :: !IsSpace(t[i])
    ensures Strip(t) == t
  {
  }

  /** `int(str(n)) == n`: every integer the pipeline could have written is read
      back unchanged. */
  lemma ParseShowInt(n: int)
    ensures ParseInt(ShowInt(n)) == Some(n)
  {
    var t := ShowInt(n);
    if n < 0 {
      assert t[1..] == ShowNat(-n);
      ShowNatValue(-n);
    } else {
      ShowNatValue(n);
    }
    NoSpaceStrip(t);
  }

  /** A digit group reads as the number its digits spell; a minus sign in
      front negates it and a plus sign leaves it unchanged. */
  lemma ParseSigned(t: string)
    requires IsDigitGroup(t)
    ensures ParseInt(t) == Some(DigitsValue(t))
    ensures ParseInt("-" + t) == Some(-(DigitsValue(t) as int))
    ensures ParseInt("+" + t) == Some(DigitsValue(t))
  {
    ParseUnsignedGroup(t);
    ParseSignedGroup('-', t);
    ParseSignedGroup('+', t);
  }

  lemma ParseUnsignedGroup(t: string)
    requires IsDigitGroup(t)
    ensures ParseInt(t) == Some(DigitsValue(t))
  {
    NoSpaceStrip(t);
  }

  lemma ParseSignedGroup(sign: char, t: string)
    requires IsDigitGroup(t) && (sign == '-' || sign == '+')
    ensures ParseInt([sign] + t) == Some(if sign == '-' then -(DigitsValue(t) as int) else DigitsValue(t))
  {
    var s := [sign] + t;
    NoSpaceStrip(s);
    assert s[0] == sign && s[1..] == t;
  }

  /** Whitespace around a token never changes what `int()` makes of it. */
  lemma ParseSurroundingSpace(a: string, t: string, b: string)
    requires AllSpace(a) && AllSpace(b) && Trimmed(t)
    ensures ParseInt(a + t + b) == ParseInt(t)
  {
    StripExact(a, t, b);
    StripExact([], t, []);
    assert [] + t + [] == t;
  }

  /** An unsigned token without whitespace is read by its digits alone. */
  lemma UnsignedToken(t: string)
    requires forall k | 0 <= k < |t| :: IsDigit(t[k]) || t[k] == '_' || t[k] == '.'
    requires |t| > 0 && t[0] != '-' && t[0] != '+'
    ensures ParseInt(t) == ParseUnsigned(t)
  {
    NoSpaceStrip(t);
  }

  /** Underscore grouping is accepted and ignored. */
  lemma UnderscoreAccepted()
    ensures ParseInt("1_000") == Some(1000)
  {
    UnsignedToken("1_000");
    ThousandIsDigitGroup();
    ThousandValue();
  }

  lemma ThousandIsDigitGroup()
    ensures IsDigitGroup("1_000")
  {
    var t := "1_000";
    assert forall k | 0 <= k < |t| :: IsDigit(t[k]) || k == 1;
  }

  lemma ThousandValue()
    ensures DigitsValue("1_000") == 1000
  {
    assert DigitsValue("1_") == 1 by {
      assert "1_"[..1] == "1";
    }
    assert DigitsValue("1_0") == 10 by {
      assert "1_0"[..2] == "1_";
    }
    assert DigitsValue("1_00") == 100 by {
      assert "1_00"[..3] == "1_0";
    }
    assert "1_000"[..4] == "1_00";
  }

  /** An underscore must stand between two digits: a leading, trailing or
      doubled one is rejected. */
  lemma LeadingUnderscore()
    ensures ParseInt("_1") == None
  {
    UnsignedToken("_1");
    assert !IsDigit("_1"[0]);
  }

  lemma TrailingUnderscore()
    ensures ParseInt("1_") == None
  {
    UnsignedToken("1_");
    assert !IsDigit("1_"[1]);
  }

  lemma DoubledUnderscore()
    ensures ParseInt("1__0") == None
  {
    UnsignedToken("1__0");
    assert "1__0"[1] == '_' && "1__0"[2] == '_';
  }

  /** A decimal point makes the token a float literal, which `int()` refuses. */
  lemma FractionRejected()
    ensures ParseInt("3.5") == None
  {
    UnsignedToken("3.5");
    assert !IsDigit("3.5"[1]);
  }

  lemma ShowIntIsWord(n: int)
    ensures IsWord(ShowInt(n))
  {
    var t := ShowInt(n);
    if n < 0 {
      assert forall i | 1 <= i < |t| :: t[i] == ShowNat(-n)[i - 1];
    }
  }
}
