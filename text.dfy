/** Character classes and conversions of Python's `str`: whitespace as `str.isspace()`
    and `\s` see it, case mapping restricted to ASCII, and decimal numerals. */
module Text {
  import opened Common

  /** The characters for which Python's `str.isspace()` holds; `str.strip()` and the
      regular-expression class `\s` use the same set. */
  predicate IsSpace(c: char) {
    var n := c as int;
    (9 <= n <= 13) || (28 <= n <= 32) || n == 0x85 || n == 0xA0 || n == 0x1680
    || (0x2000 <= n <= 0x200A) || n == 0x2028 || n == 0x2029 || n == 0x202F
    || n == 0x205F || n == 0x3000
  }

  predicate NoSpace(s: string) {
    forall i :: 0 <= i < |s| ==> !IsSpace(s[i])
  }

  /** Drops the leading whitespace. */
  function DropSpaces(s: string): (r: string)
    ensures |r| <= |s|
    ensures r == [] || !IsSpace(r[0])
  {
    if s != [] && IsSpace(s[0]) then DropSpaces(s[1..]) else s
  }

  /** What DropSpaces leaves is a suffix of its argument. */
  lemma {:induction false} DropSpacesSuffix(s: string)
    ensures DropSpaces(s) == s[|s| - |DropSpaces(s)|..]
  {
    if s != [] && IsSpace(s[0]) {
      DropSpacesSuffix(s[1..]);
      assert s[1..][|s| - 1 - |DropSpaces(s)|..] == s[|s| - |DropSpaces(s)|..];
    }
  }

  /** Drops the trailing whitespace. */
  function DropSpacesEnd(s: string): (r: string)
    ensures |r| <= |s|
    ensures r == [] || !IsSpace(r[|r| - 1])
  {
    if s != [] && IsSpace(s[|s| - 1]) then DropSpacesEnd(s[..|s| - 1]) else s
  }

  /** `s.strip()` */
  function Strip(s: string): string {
    DropSpacesEnd(DropSpaces(s))
  }

  function LowerChar(c: char): char {
    if 'A' <= c <= 'Z' then (c as int + 32) as char else c
  }

  function UpperChar(c: char): char {
    if 'a' <= c <= 'z' then (c as int - 32) as char else c
  }

  /** `s.lower()` on ASCII letters */
  function Lower(s: string): (r: string)
    ensures |r| == |s|
  {
    seq(|s|, i requires 0 <= i < |s| => LowerChar(s[i]))
  }

  /** `s.upper()` on ASCII letters */
  function Upper(s: string): (r: string)
    ensures |r| == |s|
  {
    seq(|s|, i requires 0 <= i < |s| => UpperChar(s[i]))
  }

  predicate IsDigit(c: char) {
    '0' <= c <= '9'
  }

  predicate AllDigits(s: string) {
    forall i :: 0 <= i < |s| ==> IsDigit(s[i])
  }

  function DigitChar(d: nat): (c: char)
    requires d < 10
    ensures IsDigit(c)
  {
    ('0' as int + d) as char
  }

  function DigitValue(c: char): nat
    requires IsDigit(c)
  {
    c as int - '0' as int
  }

  /** `str(n)` for a natural number. */
  function NatToString(n: nat): (s: string)
    ensures s != [] && AllDigits(s)
  {
    if n < 10 then [DigitChar(n)] else NatToString(n / 10) + [DigitChar(n % 10)]
  }

  /** `str(i)` for an integer. */
  function IntToString(i: int): string {
    if i < 0 then "-" + NatToString(-i) else NatToString(i)
  }

  /** The number a string of decimal digits denotes. */
  function DigitsValue(s: string): nat
    requires AllDigits(s)
  {
    if s == [] then 0 else DigitsValue(s[..|s| - 1]) * 10 + DigitValue(s[|s| - 1])
  }

  function Pow10(k: nat): (r: nat)
    ensures r >= 1
  {
    if k == 0 then 1 else 10 * Pow10(k - 1)
  }

  /** Position of the first '.', or |s| when there is none. */
  function DotIndex(s: string): (k: nat)
    ensures k <= |s|
    ensures k < |s| ==> s[k] == '.'
    ensures forall i :: 0 <= i < k ==> s[i] != '.'
  {
    if s == [] then 0 else if s[0] == '.' then 0 else 1 + DotIndex(s[1..])
  }

  predicate IsExpMark(c: char) {
    c == 'e' || c == 'E'
  }

  /** Position of the first exponent mark 'e' or 'E', or |s| when there is none. */
  function ExpIndex(s: string): (k: nat)
    ensures k <= |s|
    ensures k < |s| ==> IsExpMark(s[k])
    ensures forall i :: 0 <= i < k ==> !IsExpMark(s[i])
  {
    if s == [] then 0 else if IsExpMark(s[0]) then 0 else 1 + ExpIndex(s[1..])
  }

  /** The value of the literal `whole.frac`. */
  function DecimalValue(whole: string, frac: string): real
    requires AllDigits(whole) && AllDigits(frac)
  {
    DigitsValue(whole) as real + Scale(DigitsValue(frac) as real, -(|frac| as int))
  }

  /** What a run of digits contributes to a literal: the number it denotes and how many
      digits it has (the scale of a fraction). */
  datatype DigitRun = DigitRun(value: nat, count: nat)

  /** A digit part `digit (["_"] digit)*`, digits grouped by single underscores, or None
      when s is not one. */
  function DigitPart(s: string): (r: Option<DigitRun>)
    ensures r.Some? ==> 1 <= r.value.count <= |s|
    decreases |s|
  {
    if s == [] || !IsDigit(s[|s| - 1]) then None
    else if |s| == 1 then Some(DigitRun(DigitValue(s[0]), 1))
    else
      var init := if s[|s| - 2] == '_' then s[..|s| - 2] else s[..|s| - 1];
      AppendDigit(DigitPart(init), s[|s| - 1])
  }

  /** A digit part followed by one more digit. */
  function AppendDigit(r: Option<DigitRun>, c: char): Option<DigitRun>
    requires IsDigit(c)
  {
    match r
    case Some(d) => Some(DigitRun(d.value * 10 + DigitValue(c), d.count + 1))
    case None => None
  }

  /** A digit part that may also be empty, as the whole or the fraction of a mantissa. */
  function OptDigitPart(s: string): Option<DigitRun> {
    if s == [] then Some(DigitRun(0, 0)) else DigitPart(s)
  }

  /** A mantissa `[digitpart] "." digitpart | digitpart ["."]`: its value. */
  function ParseMantissa(s: string): Option<real> {
    var k := DotIndex(s);
    var frac := if k < |s| then s[k + 1..] else [];
    match (OptDigitPart(s[..k]), OptDigitPart(frac))
    case (Some(w), Some(f)) =>
      if w.count == 0 && f.count == 0 then None
      else Some(w.value as real + Scale(f.value as real, -(f.count as int)))
    case _ => None
  }

  /** An exponent `[sign] digitpart`: its value. */
  function ParseExponent(s: string): Option<int> {
    var signed := s != [] && (s[0] == '+' || s[0] == '-');
    match DigitPart(if signed then s[1..] else s)
    case Some(d) => Some(if signed && s[0] == '-' then -(d.value as int) else d.value)
    case None => None
  }

  /** v times 10 to the power x, one decimal place at a time. */
  function Scale(v: real, x: int): real
    decreases if x >= 0 then x else -x
  {
    if x == 0 then v
    else if x > 0 then 10.0 * Scale(v, x - 1)
    else Scale(v, x + 1) / 10.0
  }

  /** An unsigned literal: a mantissa, optionally followed by 'e' or 'E' and an exponent. */
  function ParseUnsigned(s: string): Option<real> {
    var e := ExpIndex(s);
    match ParseMantissa(s[..e])
    case Some(v) =>
      if e == |s| then Some(v)
      else (match ParseExponent(s[e + 1..])
            case Some(x) => Some(Scale(v, x))
            case None => None)
    case None => None
  }

  /** The value `float(s)` gives a finite literal: surrounding whitespace is ignored, one
      leading sign is allowed, and digits may be grouped by single underscores. */
  function ParseLiteral(s: string): Option<real> {
    ParseSigned(Strip(s))
  }

  /** A literal with an optional leading sign. */
  function ParseSigned(t: string): Option<real> {
    var k := if t != [] && (t[0] == '-' || t[0] == '+') then 1 else 0;
    match ParseUnsigned(t[k..])
    case Some(v) => Some(if k == 1 && t[0] == '-' then -v else v)
    case None => None
  }

  /** The text without its underscores. */
  function DropUnderscores(s: string): (r: string)
    ensures '_' !in r
  {
    if s == [] then [] else (if s[0] == '_' then [] else [s[0]]) + DropUnderscores(s[1..])
  }

  /** The value `decimal.Decimal(s)` gives a finite literal. The constructor drops every
      underscore, wherever it stands, and then reads the same grammar. */
  function ParseDecimal(s: string): Option<real> {
    ParseLiteral(DropUnderscores(s))
  }

  lemma {:induction false} DigitsValueOfNatToString(n: nat)
    ensures DigitsValue(NatToString(n)) == n
  {
    if n >= 10 {
      var s := NatToString(n);
      assert s[..|s| - 1] == NatToString(n / 10);
      DigitsValueOfNatToString(n / 10);
    }
  }

  /** A string of digits is a digit part denoting its value. */
  lemma {:induction false} DigitPartOfDigits(d: string)
    requires AllDigits(d) && d != []
    ensures DigitPart(d) == Some(DigitRun(DigitsValue(d), |d|))
  {
    if |d| > 1 {
      DigitPartOfDigits(d[..|d| - 1]);
    } else {
      assert d[..0] == [];
    }
  }

  /** One underscore between two digits is invisible to a digit part. */
  lemma {:induction false} GroupedDigitPart(a: string, b: string)
    requires a != [] && IsDigit(a[|a| - 1]) && AllDigits(b) && b != []
    ensures DigitPart(a + "_" + b) == DigitPart(a + b)
    decreases |b|
  {
    var s, t := a + "_" + b, a + b;
    var c := b[|b| - 1];
    assert s[|s| - 1] == c && t[|t| - 1] == c && IsDigit(c);
    if |b| == 1 {
      assert s[|s| - 2] == '_' && s[..|s| - 2] == a;
      assert t[|t| - 2] == a[|a| - 1] && t[..|t| - 1] == a;
      assert DigitPart(s) == AppendDigit(DigitPart(a), c);
    } else {
      var initB := b[..|b| - 1];
      assert s[|s| - 2] == b[|b| - 2] && t[|t| - 2] == b[|b| - 2] && IsDigit(b[|b| - 2]);
      assert s[..|s| - 1] == a + "_" + initB;
      assert t[..|t| - 1] == a + initB;
      assert DigitPart(s) == AppendDigit(DigitPart(a + "_" + initB), c);
      assert DigitPart(t) == AppendDigit(DigitPart(a + initB), c);
      GroupedDigitPart(a, initB);
    }
  }

  /** Two underscores in a row never belong to a digit part. */
  lemma {:induction false} DoubleUnderscoreNoDigitPart(a: string, b: string)
    ensures DigitPart(a + "__" + b) == None
    decreases |b|
  {
    var s := a + "__" + b;
    if b == [] {
      assert s[|s| - 1] == '_';
    } else if |b| == 1 {
      assert s[|s| - 2] == '_' && s[..|s| - 2] == a + "_";
      assert (a + "_")[|a + "_"| - 1] == '_';
    } else {
      var initB := if b[|b| - 2] == '_' then b[..|b| - 2] else b[..|b| - 1];
      assert s[|s| - 2] == b[|b| - 2];
      assert (if s[|s| - 2] == '_' then s[..|s| - 2] else s[..|s| - 1]) == a + "__" + initB;
      DoubleUnderscoreNoDigitPart(a, initB);
    }
  }

  /** Digits and underscores: the characters of a mantissa without a dot. */
  predicate GroupedChars(s: string) {
    forall i :: 0 <= i < |s| ==> IsDigit(s[i]) || s[i] == '_'
  }

  lemma DigitsAreGrouped(s: string)
    requires AllDigits(s)
    ensures GroupedChars(s)
  {
  }

  lemma GroupedJoin(a: string, sep: string, b: string)
    requires GroupedChars(a) && GroupedChars(sep) && GroupedChars(b)
    ensures GroupedChars(a + sep + b)
  {
    var s := a + sep + b;
    forall i | 0 <= i < |s|
      ensures IsDigit(s[i]) || s[i] == '_'
    {
      if i < |a| {
        assert s[i] == a[i];
      } else if i < |a| + |sep| {
        assert s[i] == sep[i - |a|];
      } else {
        assert s[i] == b[i - |a| - |sep|];
      }
    }
  }

  lemma AllDigitsJoin(a: string, b: string)
    requires AllDigits(a) && AllDigits(b)
    ensures AllDigits(a + b)
  {
    forall i | 0 <= i < |a + b|
      ensures IsDigit((a + b)[i])
    {
      if i < |a| {
        assert (a + b)[i] == a[i];
      } else {
        assert (a + b)[i] == b[i - |a|];
      }
    }
  }

  lemma NoUnderscoreInDigits(s: string)
    requires AllDigits(s)
    ensures '_' !in s
  {
    assert forall i :: 0 <= i < |s| ==> s[i] != '_';
  }

  /** Digits and underscores hold neither a dot nor an exponent mark. */
  lemma {:induction false} NoMarksInGrouped(s: string)
    requires GroupedChars(s)
    ensures DotIndex(s) == |s| && ExpIndex(s) == |s|
  {
    if s != [] {
      assert GroupedChars(s[1..]) by {
        assert forall i :: 0 <= i < |s[1..]| ==> s[1..][i] == s[i + 1];
      }
      NoMarksInGrouped(s[1..]);
    }
  }

  /** A text of digits and underscores reads as the value of its digit part, or as
      nothing when it is not one. */
  lemma GroupedLiteral(s: string)
    requires GroupedChars(s)
    ensures ParseUnsigned(s) == match DigitPart(s)
                                case Some(d) => Some(d.value as real)
                                case None => None
  {
    NoMarksInGrouped(s);
    assert s[..|s|] == s;
  }

  lemma ParseUnsignedDigits(n: nat)
    ensures ParseUnsigned(NatToString(n)) == Some(n as real)
  {
    var d := NatToString(n);
    DigitsValueOfNatToString(n);
    DigitsAreGrouped(d);
    GroupedLiteral(d);
    DigitPartOfDigits(d);
  }

  lemma StripUnchanged(t: string)
    requires t != [] && !IsSpace(t[0]) && !IsSpace(t[|t| - 1])
    ensures Strip(t) == t
  {
  }

  /** A literal without surrounding whitespace or sign is read as an unsigned literal. */
  lemma ParseLiteralPlain(s: string)
    requires s != [] && !IsSpace(s[0]) && !IsSpace(s[|s| - 1]) && s[0] != '-' && s[0] != '+'
    ensures ParseLiteral(s) == ParseUnsigned(s)
  {
    StripUnchanged(s);
    assert s[0..] == s;
  }

  /** The same literal without underscores reads the same as a Decimal. */
  lemma ParseDecimalPlain(s: string)
    requires s != [] && !IsSpace(s[0]) && !IsSpace(s[|s| - 1]) && s[0] != '-' && s[0] != '+'
    requires '_' !in s
    ensures ParseDecimal(s) == ParseUnsigned(s)
  {
    DropUnderscoresNone(s);
    ParseLiteralPlain(s);
  }

  /** A literal with a leading minus reads as the negation of the rest. */
  lemma ParseLiteralNegated(d: string)
    requires d != [] && !IsSpace(d[0]) && !IsSpace(d[|d| - 1])
    ensures ParseLiteral("-" + d) == match ParseUnsigned(d)
                                     case Some(v) => Some(-v)
                                     case None => None
  {
    var t := "-" + d;
    assert Strip(t) == t by {
      assert t[0] == '-' && t[|t| - 1] == d[|d| - 1];
      StripUnchanged(t);
    }
    SignedNegated(d);
  }

  lemma SignedNegated(d: string)
    ensures ParseSigned("-" + d) == match ParseUnsigned(d)
                                    case Some(v) => Some(-v)
                                    case None => None
  {
    assert ("-" + d)[1..] == d;
  }

  /** The same, read as a Decimal, when there is no underscore. */
  lemma ParseDecimalNegated(d: string)
    requires d != [] && !IsSpace(d[0]) && !IsSpace(d[|d| - 1]) && '_' !in d
    ensures ParseDecimal("-" + d) == ParseLiteral("-" + d)
  {
    assert '_' !in "-" + d;
    DropUnderscoresNone("-" + d);
  }

  /** A text without underscores is left as it is. */
  lemma {:induction false} DropUnderscoresNone(s: string)
    requires '_' !in s
    ensures DropUnderscores(s) == s
  {
    if s != [] {
      DropUnderscoresNone(s[1..]);
      assert s == [s[0]] + s[1..];
    }
  }

  /** Dropping underscores works piece by piece. */
  lemma {:induction false} DropUnderscoresConcat(a: string, b: string)
    ensures DropUnderscores(a + b) == DropUnderscores(a) + DropUnderscores(b)
  {
    if a != [] {
      assert (a + b)[0] == a[0] && (a + b)[1..] == a[1..] + b;
      DropUnderscoresConcat(a[1..], b);
    } else {
      assert a + b == b;
    }
  }

  lemma {:induction false} DotIndexAfterDigits(w: string, rest: string)
    requires AllDigits(w)
    ensures DotIndex(w + rest) == |w| + DotIndex(rest)
  {
    if w != [] {
      assert (w + rest)[0] == w[0] && IsDigit(w[0]);
      assert (w + rest)[1..] == w[1..] + rest;
      DotIndexAfterDigits(w[1..], rest);
    } else {
      assert w + rest == rest;
    }
  }

  /** A mantissa `w.f` with digit strings w (non-empty) and f denotes w + f / 10^|f|. */
  lemma ParseMantissaFraction(w: string, f: string)
    requires AllDigits(w) && AllDigits(f) && w != []
    ensures ParseMantissa(w + "." + f) == Some(DecimalValue(w, f))
  {
    var s := w + ("." + f);
    assert w + "." + f == s;
    DotIndexAfterDigits(w, "." + f);
    assert DotIndex("." + f) == 0;
    var k := DotIndex(s);
    assert k == |w| < |s|;
    assert s[..k] == w;
    assert s[k + 1..] == f;
    DigitPartOfDigits(w);
    if f != [] {
      DigitPartOfDigits(f);
    }
  }

  /** Digits and dots hold no exponent mark. */
  lemma {:induction false} NoExpInNumeral(s: string)
    requires forall i :: 0 <= i < |s| ==> IsDigit(s[i]) || s[i] == '.'
    ensures ExpIndex(s) == |s|
  {
    if s != [] {
      NoExpInNumeral(s[1..]);
    }
  }

  /** A literal `w.f` with digit strings w (non-empty) and f denotes w + f / 10^|f|. */
  lemma ParseUnsignedFraction(w: string, f: string)
    requires AllDigits(w) && AllDigits(f) && w != []
    ensures ParseUnsigned(w + "." + f) == Some(DecimalValue(w, f))
  {
    var s := w + "." + f;
    forall i | 0 <= i < |s|
      ensures IsDigit(s[i]) || s[i] == '.'
    {
      if i < |w| {
        assert s[i] == w[i];
      } else if i > |w| {
        assert s[i] == f[i - |w| - 1];
      }
    }
    NoExpInNumeral(s);
    assert s[..|s|] == s;
    ParseMantissaFraction(w, f);
  }

  /** A mantissa must end in a digit or a dot. */
  lemma MantissaBadEnd(m: string)
    requires m != [] && !IsDigit(m[|m| - 1]) && m[|m| - 1] != '.'
    ensures ParseMantissa(m) == None
  {
    var k := DotIndex(m);
    if k < |m| {
      var frac := m[k + 1..];
      assert frac != [] && frac[|frac| - 1] == m[|m| - 1];
    } else {
      assert m[..k] == m;
    }
  }

  /** A text whose mantissa ends in neither a digit nor a dot is no literal. */
  lemma BadMantissaNoLiteral(s: string)
    requires 0 < ExpIndex(s) && !IsDigit(s[ExpIndex(s) - 1]) && s[ExpIndex(s) - 1] != '.'
    ensures ParseUnsigned(s) == None
  {
    var e := ExpIndex(s);
    MantissaBadEnd(s[..e]);
    if e == |s| {
      assert s[..e] == s;
    }
  }

  lemma DigitIsPlain(c: char)
    requires IsDigit(c)
    ensures !IsSpace(c) && c != '-' && c != '+'
  {
  }

  /** A digit string read as a Decimal has its unsigned value. */
  lemma ParseDigits(d: string, v: real)
    requires AllDigits(d) && d != [] && ParseUnsigned(d) == Some(v)
    ensures ParseDecimal(d) == Some(v)
  {
    DigitIsPlain(d[0]);
    DigitIsPlain(d[|d| - 1]);
    NoUnderscoreInDigits(d);
    ParseDecimalPlain(d);
  }

  /** A digit string after a minus sign read as a Decimal has the negated value. */
  lemma ParseNegatedDigits(d: string, v: real)
    requires AllDigits(d) && d != [] && ParseUnsigned(d) == Some(v)
    ensures ParseDecimal("-" + d) == Some(-v)
  {
    DigitIsPlain(d[0]);
    DigitIsPlain(d[|d| - 1]);
    assert ParseLiteral("-" + d) == Some(-v) by {
      ParseLiteralNegated(d);
    }
    assert ParseDecimal("-" + d) == ParseLiteral("-" + d) by {
      NoUnderscoreInDigits(d);
      ParseDecimalNegated(d);
    }
  }

  /** A string of digits is a mantissa denoting its digits' value. */
  lemma MantissaOfDigits(m: string)
    requires AllDigits(m) && m != []
    ensures ParseMantissa(m) == Some(DigitsValue(m) as real)
  {
    DigitPartOfDigits(m);
    DigitsAreGrouped(m);
    NoMarksInGrouped(m);
    assert m[..|m|] == m;
  }

  /** A mantissa of digits followed by 'e' and an exponent reads as the digits scaled. */
  lemma {:induction false} ParseUnsignedExp(m: string, ex: string, x: int)
    requires AllDigits(m) && m != [] && ParseExponent(ex) == Some(x)
    ensures ParseUnsigned(m + "e" + ex) == Some(Scale(DigitsValue(m) as real, x))
  {
    MantissaOfDigits(m);
    var p := m + "e" + ex;
    ExpAfterNumeral(m, "e" + ex);
    assert p == m + ("e" + ex);
    assert ExpIndex(p) == |m|;
    assert p[..|m|] == m && p[|m| + 1..] == ex;
  }

  /** The same, for a literal p already known to be laid out as `m e ex`. */
  lemma {:induction false} ParseUnsignedExpAt(p: string, m: string, ex: string, x: int)
    requires p == m + "e" + ex
    requires AllDigits(m) && m != [] && ParseExponent(ex) == Some(x)
    ensures ParseUnsigned(p) == Some(Scale(DigitsValue(m) as real, x))
  {
    ParseUnsignedExp(m, ex, x);
  }

  lemma PlusMarkSplit(m: string, d: string)
    ensures m + "e+" + d == m + "e" + ("+" + d)
  {
  }

  lemma MinusMarkSplit(m: string, d: string)
    ensures m + "e-" + d == m + "e" + ("-" + d)
  {
  }

  /** A digit string d, with or without a sign, is an exponent denoting its value. */
  lemma ExponentOfDigits(d: string)
    requires AllDigits(d) && d != []
    ensures ParseExponent(d) == Some(DigitsValue(d))
    ensures ParseExponent("+" + d) == Some(DigitsValue(d))
    ensures ParseExponent("-" + d) == Some(-(DigitsValue(d) as int))
  {
    DigitPartOfDigits(d);
    assert ("+" + d)[1..] == d;
    assert ("-" + d)[1..] == d;
  }

  /** A literal in scientific notation `m e d` denotes the digits of m times 10 to the
      power d. */
  lemma {:induction false} ExponentForm(m: string, d: string)
    requires AllDigits(m) && m != [] && AllDigits(d) && d != []
    ensures ParseUnsigned(m + "e" + d) == Some(Scale(DigitsValue(m) as real, DigitsValue(d)))
  {
    ExponentOfDigits(d);
    ParseUnsignedExp(m, d, DigitsValue(d));
  }

  /** A literal `m e+d` denotes the same as `m e d`. */
  lemma {:induction false} PlusExponentForm(m: string, d: string)
    requires AllDigits(m) && m != [] && AllDigits(d) && d != []
    ensures ParseUnsigned(m + "e+" + d) == Some(Scale(DigitsValue(m) as real, DigitsValue(d)))
  {
    ExponentOfDigits(d);
    PlusMarkSplit(m, d);
    ParseUnsignedExpAt(m + "e+" + d, m, "+" + d, DigitsValue(d));
  }

  /** A literal `m e-d` denotes the digits of m divided by 10 to the power d. */
  lemma {:induction false} NegativeExponentForm(m: string, d: string)
    requires AllDigits(m) && m != [] && AllDigits(d) && d != []
    ensures ParseUnsigned(m + "e-" + d) == Some(Scale(DigitsValue(m) as real, -(DigitsValue(d) as int)))
  {
    var x := -(DigitsValue(d) as int);
    assert ParseExponent("-" + d) == Some(x) by {
      ExponentOfDigits(d);
    }
    MinusMarkSplit(m, d);
    ParseUnsignedExpAt(m + "e-" + d, m, "-" + d, x);
  }

  /** Scaling up multiplies by 10^x. */
  lemma {:induction false} ScaleUp(v: real, x: nat)
    ensures Scale(v, x) == v * Pow10(x) as real
  {
    if x > 0 {
      ScaleUp(v, x - 1);
      assert Pow10(x) as real == 10.0 * Pow10(x - 1) as real;
    }
  }

  /** Scaling down divides by 10^k. */
  lemma {:induction false} ScaleDown(v: real, k: nat)
    ensures Scale(v, -(k as int)) == v / Pow10(k) as real
  {
    if k > 0 {
      ScaleDown(v, k - 1);
      var p := Pow10(k - 1) as real;
      assert Pow10(k) as real == 10.0 * p;
      DivideByTenMore(v, p);
    }
  }

  lemma DivideByTenMore(v: real, p: real)
    requires p > 0.0
    ensures v / (10.0 * p) == (v / p) / 10.0
  {
  }

  lemma {:induction false} ExpAfterNumeral(w: string, rest: string)
    requires AllDigits(w)
    ensures ExpIndex(w + rest) == |w| + ExpIndex(rest)
  {
    if w != [] {
      assert (w + rest)[0] == w[0] && IsDigit(w[0]);
      assert (w + rest)[1..] == w[1..] + rest;
      ExpAfterNumeral(w[1..], rest);
    } else {
      assert w + rest == rest;
    }
  }

  /** Digits grouped by one underscore read as the digits joined: `float("1_000")` is 1000. */
  lemma GroupedDigits(a: string, b: string)
    requires AllDigits(a) && a != [] && AllDigits(b) && b != []
    ensures ParseUnsigned(a + "_" + b) == Some(DigitsValue(a + b) as real)
  {
    DigitsAreGrouped(a);
    DigitsAreGrouped(b);
    GroupedJoin(a, "_", b);
    GroupedLiteral(a + "_" + b);
    GroupedDigitPart(a, b);
    AllDigitsJoin(a, b);
    DigitPartOfDigits(a + b);
  }

  /** Two underscores in a row make the text no literal at all. */
  lemma DoubleUnderscore(a: string, b: string)
    requires AllDigits(a) && AllDigits(b)
    ensures ParseUnsigned(a + "__" + b) == None
  {
    DigitsAreGrouped(a);
    DigitsAreGrouped(b);
    GroupedJoin(a, "__", b);
    GroupedLiteral(a + "__" + b);
    DoubleUnderscoreNoDigitPart(a, b);
  }

  lemma DropOneUnderscore(a: string, b: string)
    ensures DropUnderscores(a + "_" + b) == DropUnderscores(a + b)
  {
    DropUnderscoresConcat(a + "_", b);
    DropUnderscoresConcat(a, "_");
    DropUnderscoresConcat(a, b);
    assert DropUnderscores("_") == [];
    assert DropUnderscores(a) + [] == DropUnderscores(a);
  }

  /** `Decimal` ignores underscores: a text reads as the same text with one removed. */
  lemma DecimalIgnoresUnderscore(a: string, b: string)
    ensures ParseDecimal(a + "_" + b) == ParseDecimal(a + b)
  {
    DropOneUnderscore(a, b);
  }

  // ------------------------------------------------------------ whitespace runs

  /** `re.sub(r"\s+", " ", s)`: every maximal run of whitespace becomes one space. */
  function CollapseRuns(s: string): string
    decreases |s|
  {
    if s == [] then []
    else if IsSpace(s[0]) then
      assert DropSpaces(s) == DropSpaces(s[1..]);
      " " + CollapseRuns(DropSpaces(s))
    else [s[0]] + CollapseRuns(s[1..])
  }

  /** The longest prefix without whitespace. */
  function TakeWord(s: string): (w: string)
    ensures |w| <= |s| && w == s[..|w|] && NoSpace(w)
    ensures |w| < |s| ==> IsSpace(s[|w|])
    ensures s != [] && !IsSpace(s[0]) ==> |w| >= 1
  {
    if s == [] || IsSpace(s[0]) then [] else [s[0]] + TakeWord(s[1..])
  }

  /** `s.split()`: the maximal runs of non-whitespace characters, in order. */
  function Words(s: string): (ws: seq<string>)
    ensures forall i :: 0 <= i < |ws| ==> ws[i] != [] && NoSpace(ws[i])
    decreases |s|
  {
    var t := DropSpaces(s);
    if t == [] then []
    else
      var w := TakeWord(t);
      [w] + Words(t[|w|..])
  }

  /** `" ".join(ws)` */
  function Unwords(ws: seq<string>): string {
    if ws == [] then []
    else if |ws| == 1 then ws[0]
    else ws[0] + " " + Unwords(ws[1..])
  }

  /** A string in normal form: no whitespace at either end, and every whitespace
      character is a single space between two non-whitespace characters. */
  predicate SingleSpaced(s: string) {
    forall i :: 0 <= i < |s| && IsSpace(s[i]) ==>
      s[i] == ' ' && 0 < i < |s| - 1 && !IsSpace(s[i - 1]) && !IsSpace(s[i + 1])
  }

  predicate NoUpper(s: string) {
    forall i :: 0 <= i < |s| ==> !('A' <= s[i] <= 'Z')
  }

  lemma {:induction false} CollapseAfterWord(w: string, x: string)
    requires NoSpace(w)
    ensures CollapseRuns(w + x) == w + CollapseRuns(x)
  {
    if w != [] {
      assert (w + x)[0] == w[0] && (w + x)[1..] == w[1..] + x;
      CollapseAfterWord(w[1..], x);
      assert w == [w[0]] + w[1..];
    } else {
      assert w + x == x;
    }
  }

  predicate AllSpace(s: string) {
    forall i :: 0 <= i < |s| ==> IsSpace(s[i])
  }

  lemma {:induction false} DropSpacesPrefix(sp: string, u: string)
    requires AllSpace(sp) && (u == [] || !IsSpace(u[0]))
    ensures DropSpaces(sp + u) == u
  {
    if sp != [] {
      assert (sp + u)[0] == sp[0] && (sp + u)[1..] == sp[1..] + u;
      DropSpacesPrefix(sp[1..], u);
    } else {
      assert sp + u == u;
    }
  }

  lemma {:induction false} DropSpacesEndSuffix(w: string, sp: string)
    requires AllSpace(sp) && (w == [] || !IsSpace(w[|w| - 1]))
    ensures DropSpacesEnd(w + sp) == w
  {
    if sp != [] {
      var n := |sp| - 1;
      assert (w + sp)[|w + sp| - 1] == sp[n] && (w + sp)[..|w + sp| - 1] == w + sp[..n];
      DropSpacesEndSuffix(w, sp[..n]);
    } else {
      assert w + sp == w;
    }
  }

  /** Trailing whitespace lies within `b` when `b` has a non-whitespace character. */
  lemma {:induction false} DropSpacesEndAppend(a: string, b: string)
    requires DropSpacesEnd(b) != []
    ensures DropSpacesEnd(a + b) == a + DropSpacesEnd(b)
  {
    var n := |b| - 1;
    assert (a + b)[|a + b| - 1] == b[n];
    if IsSpace(b[n]) {
      assert (a + b)[..|a + b| - 1] == a + b[..n];
      DropSpacesEndAppend(a, b[..n]);
    }
  }

  /** Strings that start with a non-whitespace character: collapsing the runs of the
      right-trimmed string joins its words with single spaces. */
  lemma {:induction false} CollapseIsUnwords(t: string)
    requires t == [] || !IsSpace(t[0])
    ensures CollapseRuns(DropSpacesEnd(t)) == Unwords(Words(t))
    decreases |t|
  {
    if t != [] {
      var w, sp, t' := FirstWordSplit(t);
      if t' == [] {
        assert t == w + sp;
        LastWord(w, sp);
        assert Words(t') == [];
        assert [w] + Words(t') == [w];
      } else {
        CollapseIsUnwords(t');
        MoreWords(w, sp, t');
        assert Words(t') != [];
        UnwordsCons(w, Words(t'));
      }
    }
  }

  /** A string starting with a non-whitespace character is its first word, a run of
      whitespace, and the rest. */
  lemma FirstWordSplit(t: string) returns (w: string, sp: string, t': string)
    requires t != [] && !IsSpace(t[0])
    ensures w != [] && NoSpace(w) && AllSpace(sp) && t == w + sp + t'
    ensures t' == [] || (sp != [] && !IsSpace(t'[0]))
    ensures Words(t) == [w] + Words(t')
  {
    w := TakeWord(t);
    var rest := t[|w|..];
    assert t == w + rest;
    t' := DropSpaces(rest);
    sp := SpaceRun(rest);
    assert w + sp + t' == w + (sp + t');
    WordsUnfold(t);
    if t' != [] {
      assert rest != [] && IsSpace(rest[0]);
    }
  }

  /** The whitespace that DropSpaces removes. */
  lemma {:induction false} SpaceRun(s: string) returns (sp: string)
    ensures AllSpace(sp) && s == sp + DropSpaces(s)
    ensures s != [] && IsSpace(s[0]) ==> sp != []
  {
    if s != [] && IsSpace(s[0]) {
      var sp' := SpaceRun(s[1..]);
      var d := DropSpaces(s[1..]);
      assert DropSpaces(s) == d;
      sp := [s[0]] + sp';
      calc {
        s;
        [s[0]] + s[1..];
        [s[0]] + (sp' + d);
        sp + d;
      }
    } else {
      sp := [];
      assert s == [] + s;
    }
  }

  lemma WordsUnfold(t: string)
    requires t != [] && !IsSpace(t[0])
    ensures Words(t) == [TakeWord(t)] + Words(DropSpaces(t[|TakeWord(t)|..]))
  {
    assert DropSpaces(t) == t;
    DropSpacesIdempotent(t[|TakeWord(t)|..]);
  }

  lemma UnwordsCons(w: string, ws: seq<string>)
    requires ws != []
    ensures Unwords([w] + ws) == w + " " + Unwords(ws)
  {
    assert ([w] + ws)[1..] == ws;
  }

  lemma LastWord(w: string, sp: string)
    requires w != [] && NoSpace(w) && AllSpace(sp)
    ensures CollapseRuns(DropSpacesEnd(w + sp)) == w
  {
    DropSpacesEndSuffix(w, sp);
    CollapseAfterWord(w, []);
    assert w + [] == w;
  }

  lemma MoreWords(w: string, sp: string, t': string)
    requires w != [] && NoSpace(w) && sp != [] && AllSpace(sp) && t' != [] && !IsSpace(t'[0])
    ensures CollapseRuns(DropSpacesEnd(w + sp + t')) == w + " " + CollapseRuns(DropSpacesEnd(t'))
  {
    var u := DropSpacesEnd(t');
    TrimAfterSpaces(w, sp, t');
    CollapseWordSpaces(w, sp, u);
  }

  lemma TrimAfterSpaces(w: string, sp: string, t': string)
    requires t' != [] && !IsSpace(t'[0])
    ensures DropSpacesEnd(w + sp + t') == w + (sp + DropSpacesEnd(t'))
    ensures DropSpacesEnd(t') != [] && !IsSpace(DropSpacesEnd(t')[0])
  {
    DropSpacesEndKeepsFirst(t');
    DropSpacesEndAppend(w + sp, t');
    assert w + sp + DropSpacesEnd(t') == w + (sp + DropSpacesEnd(t'));
  }

  lemma CollapseWordSpaces(w: string, sp: string, u: string)
    requires NoSpace(w) && sp != [] && AllSpace(sp) && u != [] && !IsSpace(u[0])
    ensures CollapseRuns(w + (sp + u)) == w + " " + CollapseRuns(u)
  {
    CollapseAfterWord(w, sp + u);
    DropSpacesPrefix(sp, u);
    assert (sp + u)[0] == sp[0];
    assert CollapseRuns(sp + u) == " " + CollapseRuns(u);
  }

  lemma DropSpacesPrefixAllSpace(s: string)
    ensures AllSpace(s[..|s| - |DropSpaces(s)|])
  {
    if s != [] && IsSpace(s[0]) {
      DropSpacesPrefixAllSpace(s[1..]);
      var k := |s| - |DropSpaces(s)|;
      assert s[..k] == [s[0]] + s[1..][..k - 1];
    }
  }

  lemma DropSpacesIdempotent(s: string)
    ensures Words(DropSpaces(s)) == Words(s)
  {
    var t := DropSpaces(s);
    assert DropSpaces(t) == t;
  }

  lemma DropSpacesEndKeepsFirst(t: string)
    requires t != [] && !IsSpace(t[0])
    ensures DropSpacesEnd(t) != [] && DropSpacesEnd(t)[0] == t[0]
  {
  }

  lemma LowerKeepsSpace(c: char)
    ensures IsSpace(LowerChar(c)) == IsSpace(c)
  {
  }

  lemma {:induction false} LowerDropSpaces(s: string)
    ensures Lower(DropSpaces(s)) == DropSpaces(Lower(s))
  {
    if s != [] {
      LowerKeepsSpace(s[0]);
      if IsSpace(s[0]) {
        assert Lower(s)[1..] == Lower(s[1..]);
        LowerDropSpaces(s[1..]);
      }
    }
  }

  lemma {:induction false} LowerDropSpacesEnd(s: string)
    ensures Lower(DropSpacesEnd(s)) == DropSpacesEnd(Lower(s))
  {
    if s != [] {
      LowerKeepsSpace(s[|s| - 1]);
      if IsSpace(s[|s| - 1]) {
        assert Lower(s)[..|s| - 1] == Lower(s[..|s| - 1]);
        LowerDropSpacesEnd(s[..|s| - 1]);
      }
    }
  }

  /** Lower-casing and stripping commute: case mapping never touches whitespace. */
  lemma LowerStrip(s: string)
    ensures Lower(Strip(s)) == Strip(Lower(s))
  {
    LowerDropSpaces(s);
    LowerDropSpacesEnd(DropSpaces(s));
  }

  lemma WordsSkipsSpace(r: string)
    ensures Words(" " + r) == Words(r)
  {
    assert (" " + r)[1..] == r;
    assert DropSpaces(" " + r) == DropSpaces(r);
  }

  lemma {:induction false} TakeWordPrefix(w: string, x: string)
    requires NoSpace(w) && (x == [] || IsSpace(x[0]))
    ensures TakeWord(w + x) == w
  {
    if w != [] {
      assert (w + x)[0] == w[0] && (w + x)[1..] == w[1..] + x;
      TakeWordPrefix(w[1..], x);
      assert w == [w[0]] + w[1..];
    } else {
      assert w + x == x;
    }
  }

  predicate IsWordList(ws: seq<string>) {
    forall i :: 0 <= i < |ws| ==> ws[i] != [] && NoSpace(ws[i])
  }

  lemma WordsOfWord(w: string)
    requires w != [] && NoSpace(w)
    ensures Words(w) == [w]
  {
    TakeWordPrefix(w, []);
    assert w + [] == w;
    assert DropSpaces(w) == w;
    assert w[|w|..] == [];
  }

  lemma WordsOfJoin(w: string, rest: string)
    requires w != [] && NoSpace(w)
    ensures Words(w + " " + rest) == [w] + Words(rest)
  {
    var t := w + (" " + rest);
    assert w + " " + rest == t;
    TakeWordPrefix(w, " " + rest);
    assert t[0] == w[0] && DropSpaces(t) == t;
    assert t[|w|..] == " " + rest;
    WordsSkipsSpace(rest);
  }

  /** Round trip: splitting words joined by single spaces gives the words back. */
  lemma {:induction false} WordsUnwords(ws: seq<string>)
    requires IsWordList(ws)
    ensures Words(Unwords(ws)) == ws
  {
    if |ws| == 1 {
      WordsOfWord(ws[0]);
    } else if |ws| > 1 {
      WordListTail(ws);
      WordsUnwords(ws[1..]);
      WordsUnwordsStep(ws);
    }
  }

  lemma WordListTail(ws: seq<string>)
    requires IsWordList(ws) && ws != []
    ensures IsWordList(ws[1..])
  {
    forall i | 0 <= i < |ws| - 1
      ensures ws[1..][i] != [] && NoSpace(ws[1..][i])
    {
      assert ws[1..][i] == ws[i + 1];
    }
  }

  lemma WordsUnwordsStep(ws: seq<string>)
    requires |ws| > 1 && ws[0] != [] && NoSpace(ws[0])
    requires Words(Unwords(ws[1..])) == ws[1..]
    ensures Words(Unwords(ws)) == ws
  {
    WordsOfJoin(ws[0], Unwords(ws[1..]));
    assert ws == [ws[0]] + ws[1..];
  }

  /** Joined words are in normal form. */
  lemma {:induction false} UnwordsSingleSpaced(ws: seq<string>)
    requires IsWordList(ws)
    ensures SingleSpaced(Unwords(ws))
    ensures ws != [] ==> Unwords(ws) != []
  {
    if |ws| > 1 {
      UnwordsSingleSpaced(ws[1..]);
      JoinSingleSpaced(ws[0], Unwords(ws[1..]));
    }
  }

  lemma JoinSingleSpaced(w: string, r: string)
    requires w != [] && NoSpace(w) && r != [] && SingleSpaced(r)
    ensures SingleSpaced(w + " " + r)
  {
    var s := w + " " + r;
    forall i | 0 <= i < |s| && IsSpace(s[i])
      ensures s[i] == ' ' && 0 < i < |s| - 1 && !IsSpace(s[i - 1]) && !IsSpace(s[i + 1])
    {
      if i > |w| {
        var k := i - |w| - 1;
        assert s[i] == r[k];
        if k > 0 {
          assert s[i - 1] == r[k - 1];
        }
        assert s[i + 1] == r[k + 1];
      } else {
        assert i == |w|;
        assert s[i - 1] == w[|w| - 1] && s[i + 1] == r[0];
        assert !IsSpace(r[0]);
      }
    }
  }

  lemma {:induction false} CollapseNoUpper(s: string)
    requires NoUpper(s)
    ensures NoUpper(CollapseRuns(s))
    decreases |s|
  {
    if s != [] {
      if IsSpace(s[0]) {
        var t := DropSpaces(s);
        assert DropSpaces(s) == DropSpaces(s[1..]);
        assert NoUpper(t) by {
          DropSpacesSuffix(s);
          NoUpperSuffix(s, |s| - |t|);
        }
        CollapseNoUpper(t);
        NoUpperCons(' ', CollapseRuns(t));
        assert CollapseRuns(s) == [' '] + CollapseRuns(t);
      } else {
        assert NoUpper(s[1..]) by {
          NoUpperSuffix(s, 1);
        }
        CollapseNoUpper(s[1..]);
        NoUpperCons(s[0], CollapseRuns(s[1..]));
      }
    }
  }

  lemma NoUpperSuffix(s: string, k: nat)
    requires NoUpper(s) && k <= |s|
    ensures NoUpper(s[k..])
  {
    forall i | 0 <= i < |s| - k
      ensures !('A' <= s[k..][i] <= 'Z')
    {
      assert s[k..][i] == s[k + i];
    }
  }

  lemma NoUpperCons(c: char, s: string)
    requires !('A' <= c <= 'Z') && NoUpper(s)
    ensures NoUpper([c] + s)
  {
    forall i | 0 <= i < |s| + 1
      ensures !('A' <= ([c] + s)[i] <= 'Z')
    {
      if i > 0 {
        assert ([c] + s)[i] == s[i - 1];
      }
    }
  }

  lemma LowerNoUpper(s: string)
    ensures NoUpper(Lower(s))
    ensures NoUpper(s) ==> Lower(s) == s
  {
  }
}
