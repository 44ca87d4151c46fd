/**
 * Python's `int(text)` with the default base 10, and the decimal rendering `str(n)`
 * that it reads back.
 */
module PyInt {
  import opened Results
  import opened PyText

  /** The ValueError `int()` raises, with the text it could not convert. */
  datatype ValueError = InvalidLiteral(text: string)

  predicate IsDigit(c: char) {
    '0' <= c <= '9'
  }

  function DigitValue(c: char): (d: nat)
    requires IsDigit(c)
    ensures d < 10
  {
    c as int - '0' as int
  }

  function DigitChar(d: nat): (c: char)
    requires d < 10
    ensures IsDigit(c) && DigitValue(c) == d
  {
    ('0' as int + d) as char
  }

  /**
   * The digit body Python accepts: ASCII digits, with a single underscore allowed
   * between two digits (`1_000`), but not at either end and never two in a row.
   * Read from the end: a digit, preceded by nothing, by a body, or by a body and `_`.
   */
  predicate IsDigitBody(s: string) {
    |s| > 0 && IsDigit(s[|s| - 1]) &&
    (|s| == 1 || IsDigitBody(s[..|s| - 1]) ||
     (|s| >= 3 && s[|s| - 2] == '_' && IsDigitBody(s[..|s| - 2])))
  }

  /** The number a digit body denotes, underscores being ignored. */
  function BodyValue(s: string): nat {
    if s == [] then 0
    else if IsDigit(s[|s| - 1]) then BodyValue(s[..|s| - 1]) * 10 + DigitValue(s[|s| - 1])
    else BodyValue(s[..|s| - 1])
  }

  /** A stripped literal: an optional `+` or `-` sign followed by a digit body. */
  function ParseLiteral(t: string): (r: Option<int>)
    ensures r.Some? ==> |t| > 0 && IsDigit(t[|t| - 1])
  {
    var signed := |t| > 0 && (t[0] == '-' || t[0] == '+');
    var body := if signed then t[1..] else t;
    if IsDigitBody(body) then
      var v: int := BodyValue(body);
      Some(if signed && t[0] == '-' then -v else v)
    else None
  }

  /**
   * `int(s)`: surrounding blanks are ignored and the rest must be a literal;
   * unlike `str.strip()`, `int()` does not skip the ASCII separators.
   * Anything else raises ValueError, which carries `s`.
   */
  function ParseInt(s: string): (r: Result<int, ValueError>)
    ensures r.Err? ==> r.error == InvalidLiteral(s)
  {
    match ParseLiteral(StripChars(s, IsBlank))
    case Some(v) => Ok(v)
    case None => Err(InvalidLiteral(s))
  }

  /** The decimal digits of `n`, most significant first, with no leading zero. */
  function Digits(n: nat): (r: string)
    ensures |r| > 0 && (r[0] == '0' ==> n == 0)
    ensures forall i :: 0 <= i < |r| ==> IsDigit(r[i])
    ensures BodyValue(r) == n
  {
    if n < 10 then [DigitChar(n)]
    else
      var r := Digits(n / 10) + [DigitChar(n % 10)];
      assert r[..|r| - 1] == Digits(n / 10);
      r
  }

  /** `str(n)`: an optional minus sign followed by the digits of `|n|`. */
  function Show(n: int): (r: string)
    ensures NoSpace(r) && ',' !in r && |r| > 0
  {
    if n < 0 then "-" + Digits(-n) else Digits(n)
  }

  /** The digits of a number form a body `int()` accepts. */
  lemma {:induction false} DigitsAreBody(n: nat)
    ensures IsDigitBody(Digits(n))
  {
    if n >= 10 {
      DigitsAreBody(n / 10);
      var d := Digits(n);
      assert d[..|d| - 1] == Digits(n / 10);
    }
  }

  /** The digits of a number, with or without a minus sign, are a literal for it. */
  lemma DigitsLiteral(n: nat)
    ensures ParseLiteral(Digits(n)) == Some(n as int)
    ensures ParseLiteral("-" + Digits(n)) == Some(-(n as int))
  {
    var d := Digits(n);
    DigitsAreBody(n);
    assert IsDigit(d[0]);
    assert ("-" + d)[1..] == d;
  }

  /** The rendering of a number is a literal for it. */
  lemma ShowLiteral(n: int)
    ensures ParseLiteral(Show(n)) == Some(n)
  {
    DigitsLiteral(if n < 0 then -n else n);
  }

  /** `int(str(n)) == n`: the rendering reads back exactly. */
  lemma ShowRoundTrip(n: int)
    ensures ParseInt(Show(n)) == Ok(n)
  {
    ShowLiteral(n);
    StripNoSpace(Show(n), IsBlank);
  }

  /** A text with no digit in it, the empty text included, is never an integer. */
  lemma NoDigitIsError(s: string)
    requires forall i :: 0 <= i < |s| ==> !IsDigit(s[i])
    ensures ParseInt(s) == Err(InvalidLiteral(s))
  {
    StripKeepsChars(s, IsBlank);
  }

  /** Blanks around a literal are removed before it is read. */
  lemma StripExample()
    ensures StripChars(" 007\n", IsBlank) == "007"
  {
    var s := " 007\n";
    assert s[1..] == "007\n";
    assert !IsBlank('0');
    assert TrimStart(s, IsBlank) == "007\n";
    assert ("007\n")[..3] == "007";
    assert TrimEnd("007\n", IsBlank) == "007";
  }

  /** Leading zeros are accepted. */
  lemma LeadingZeros()
    ensures ParseLiteral("007") == Some(7)
  {
    assert BodyValue("007") == 7 by {
      assert ("007")[..2] == "00";
      assert ("00")[..1] == "0";
      assert ("0")[..0] == "";
    }
    assert IsDigitBody("007");
  }

  /** Leading zeros and surrounding blanks are accepted. */
  lemma LeadingZerosAndBlanks()
    ensures ParseInt(" 007\n") == Ok(7)
  {
    StripExample();
    LeadingZeros();
  }

  /** An underscore between two digits is accepted. */
  lemma SingleUnderscore()
    ensures ParseInt("+1_0") == Ok(10)
  {
    var s := "+1_0";
    StripNoSpace(s, IsBlank);
    assert ParseLiteral(s) == Some(10) by {
      assert s[1..] == "1_0";
      assert BodyValue("1_0") == 10 by {
        assert ("1_0")[..2] == "1_";
        assert ("1_")[..1] == "1";
        assert ("1")[..0] == "";
      }
      assert IsDigitBody("1_0");
    }
  }

  /** Two underscores in a row are refused. */
  lemma DoubleUnderscore()
    ensures ParseInt("1__0") == Err(InvalidLiteral("1__0"))
  {
    var s := "1__0";
    StripNoSpace(s, IsBlank);
    assert !IsDigitBody(s) by {
      assert s[..3] == "1__" && s[..2] == "1_" && s[..1] == "1";
      assert !IsDigitBody(s[..3]);
      assert !IsDigitBody(s[..2]);
    }
  }

  /** A blank between the sign and the digits is refused. */
  lemma SignMustTouchDigits()
    ensures ParseInt("- 3") == Err(InvalidLiteral("- 3"))
  {
    var s := "- 3";
    assert TrimStart(s, IsBlank) == s;
    assert s[..|s|] == s;
    assert TrimEnd(s, IsBlank) == s;
    assert s[1..] == " 3";
    assert !IsDigitBody(" 3") by { assert (" 3")[..1] == " "; }
  }

  /**
   * An ASCII separator next to the digits is refused by `int()`, although
   * `str.strip()` would have removed it.
   */
  lemma SeparatorNotBlank()
    ensures Strip("\U{1C}7") == "7"
    ensures ParseInt("\U{1C}7") == Err(InvalidLiteral("\U{1C}7"))
    ensures ParseInt("7\U{1F}") == Err(InvalidLiteral("7\U{1F}"))
  {
    var s, t := "\U{1C}7", "7\U{1F}";
    assert s[1..] == "7";
    assert TrimStart(s, IsSpace) == "7";
    assert ("7")[..1] == "7";
    assert TrimStart(s, IsBlank) == s;
    assert TrimEnd(s, IsBlank) == s by { assert s[..|s|] == s; }
    assert !IsDigitBody(s) by { assert s[..1] == "\U{1C}"; }
    assert TrimStart(t, IsBlank) == t;
    assert TrimEnd(t, IsBlank) == t;
  }
}
