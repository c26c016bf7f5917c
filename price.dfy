/** backend/utils/price.py: decimal and currency normalisation used by the adapters. */
module Price {
  import opened Common
  import opened Text
  import opened Json

  /** `to_decimal(value)`: `Decimal(str(value))`, or 0 when that string is not a decimal
      literal. A float converts to its own value; a list or dict prints with a bracket,
      which is never a decimal literal. */
  function ToDecimal(value: Json): real {
    match PyStr(value)
    case Ok(s) => ParseDecimal(s).GetOr(0.0)
    case Err(_) => if value.JFloat? then value.f else 0.0
  }

  /** `normalize_currency(currency)`: upper-cased when truthy, "USD" otherwise; a truthy
      value that is not a string has no `.upper()`. */
  function NormalizeCurrency(currency: Json): Result<string> {
    if !Truthy(currency) then Ok("USD")
    else if currency.JStr? then Ok(Upper(currency.s))
    else Err(AttributeError)
  }

  /** Round trip: printing an integer and reading it back as a decimal gives the integer. */
  lemma ParseIntToString(i: int)
    ensures ParseDecimal(IntToString(i)) == Some(i as real)
  {
    if i < 0 {
      ParseNegativeNumeral(i, (-i) as real);
    } else {
      ParseNatNumeral(i);
    }
  }

  lemma ParseNatNumeral(n: nat)
    ensures ParseDecimal(NatToString(n)) == Some(n as real)
  {
    ParseUnsignedDigits(n);
    ParseDigits(NatToString(n), n as real);
  }

  lemma NegatedMagnitude(i: int)
    ensures -((-i) as real) == i as real
  {
  }

  /** The magnitude v is passed in so that its negation is a fact of its own. */
  lemma ParseNegativeNumeral(i: int, v: real)
    requires i < 0 && v == (-i) as real
    ensures ParseDecimal("-" + NatToString(-i)) == Some(i as real)
  {
    NegatedMagnitude(i);
    ParseUnsignedDigits(-i);
    ParseNegatedDigits(NatToString(-i), v);
  }

  /** An integer keeps its value. */
  lemma ToDecimalInt(i: int)
    ensures ToDecimal(JInt(i)) == i as real
  {
    var s := IntToString(i);
    assert PyStr(JInt(i)) == Ok(s);
    ParseIntToString(i);
  }

  /** A string holding an integer numeral converts to that integer. */
  lemma ToDecimalIntString(i: int)
    ensures ToDecimal(JStr(IntToString(i))) == i as real
  {
    var s := IntToString(i);
    assert PyStr(JStr(s)) == Ok(s);
    ParseIntToString(i);
  }

  /** None prints as "None", which is not a decimal literal: it falls back to 0. */
  lemma ToDecimalNone()
    ensures ToDecimal(JNull) == 0.0
  {
    assert PyStr(JNull) == Ok("None");
    NoneIsNotDecimal();
  }

  /** The empty string falls back to 0. */
  lemma ToDecimalEmpty()
    ensures ToDecimal(JStr("")) == 0.0
  {
    assert PyStr(JStr("")) == Ok("");
    EmptyIsNotDecimal();
  }

  lemma NoneIsNotDecimal()
    ensures ParseDecimal("None") == None
  {
    var none := "None";
    assert none[0] == 'N' && none[1] == 'o' && none[2] == 'n' && none[3] == 'e';
    assert ExpIndex(none) == 3 by {
      assert none[1..][1..][1..] == "e";
    }
    assert '_' !in none;
    ParseDecimalPlain(none);
    BadMantissaNoLiteral(none);
  }

  lemma EmptyIsNotDecimal()
    ensures ParseDecimal("") == None
  {
    assert DropUnderscores("") == "";
    assert DropSpaces("") == "";
    assert DropSpacesEnd("") == "";
    assert Strip("") == "";
    assert ExpIndex("") == 0 && DotIndex("") == 0;
  }

  /** A decimal string `w.f` converts to the number it denotes. */
  lemma ToDecimalFractionString(w: string, f: string)
    requires AllDigits(w) && AllDigits(f) && w != []
    ensures ToDecimal(JStr(w + "." + f)) == DecimalValue(w, f)
  {
    var s := w + "." + f;
    assert PyStr(JStr(s)) == Ok(s);
    assert s[0] == w[0] && s[|s| - 1] == (if f == [] then '.' else f[|f| - 1]);
    assert forall i :: 0 <= i < |s| ==> s[i] != '_' by {
      forall i | 0 <= i < |s|
        ensures s[i] != '_'
      {
        if i < |w| {
          assert s[i] == w[i];
        } else if i > |w| {
          assert s[i] == f[i - |w| - 1];
        }
      }
    }
    DropUnderscoresNone(s);
    ParseLiteralPlain(s);
    ParseUnsignedFraction(w, f);
  }

  /** A string in scientific notation `m e d` (digits m and d) converts to m times 10^d,
      and `m e-d` to m divided by 10^d. */
  lemma ToDecimalExponent(m: string, d: string)
    requires AllDigits(m) && m != [] && AllDigits(d) && d != []
    ensures ToDecimal(JStr(m + "e" + d)) == Scale(DigitsValue(m) as real, DigitsValue(d))
    ensures ToDecimal(JStr(m + "e-" + d)) == Scale(DigitsValue(m) as real, -(DigitsValue(d) as int))
  {
    assert PyStr(JStr(m + "e" + d)) == Ok(m + "e" + d);
    assert PyStr(JStr(m + "e-" + d)) == Ok(m + "e-" + d);
    ExponentForm(m, d);
    NegativeExponentForm(m, d);
    PlainExponentLiteral(m, "e", d);
    PlainExponentLiteral(m, "e-", d);
  }

  /** `m` + mark + `d` has no underscore, no surrounding space and no leading sign. */
  lemma PlainExponentLiteral(m: string, mark: string, d: string)
    requires AllDigits(m) && m != [] && AllDigits(d) && d != []
    requires mark == "e" || mark == "e-"
    ensures ParseDecimal(m + mark + d) == ParseUnsigned(m + mark + d)
  {
    var s := m + mark + d;
    assert s[0] == m[0] && s[|s| - 1] == d[|d| - 1];
    DigitIsPlain(m[0]);
    DigitIsPlain(d[|d| - 1]);
    assert forall i :: 0 <= i < |s| ==> s[i] != '_' by {
      forall i | 0 <= i < |s|
        ensures s[i] != '_'
      {
        if i < |m| {
          assert s[i] == m[i];
        } else if i >= |m| + |mark| {
          assert s[i] == d[i - |m| - |mark|];
        }
      }
    }
    DropUnderscoresNone(s);
    ParseLiteralPlain(s);
  }

  /** `Decimal` drops underscores wherever they stand, so `to_decimal("1_000")` is 1000
      and so is `to_decimal("1__000")`: removing any one underscore changes nothing. */
  lemma ToDecimalIgnoresUnderscore(a: string, b: string)
    ensures ToDecimal(JStr(a + "_" + b)) == ToDecimal(JStr(a + b))
  {
    assert PyStr(JStr(a + "_" + b)) == Ok(a + "_" + b);
    assert PyStr(JStr(a + b)) == Ok(a + b);
    DecimalIgnoresUnderscore(a, b);
  }

  /** "7.25" denotes 7.25 (together with ToDecimalFractionString, `to_decimal("7.25")`). */
  lemma DecimalValueExample()
    ensures DecimalValue("7", "25") == 7.25
  {
    DigitsExample();
    assert Scale(25.0, -2) == 0.25 by {
      assert Scale(25.0, 0) == 25.0;
      assert Scale(25.0, -1) == 2.5;
    }
  }

  lemma DigitsExample()
    ensures DigitsValue("7") == 7 && DigitsValue("25") == 25
  {
    DigitsValueOfNatToString(7);
    DigitsValueOfNatToString(25);
    assert NatToString(7) == "7";
    assert NatToString(25) == "25";
  }

  /** None or "" give "USD"; any string is upper-cased, so the result has no lower-case
      ASCII letter, and normalising a result again leaves it unchanged. */
  lemma NormalizeCurrencyProperties(currency: Json)
    ensures currency == JNull || currency == JStr("") ==> NormalizeCurrency(currency) == Ok("USD")
    ensures currency.JStr? && currency.s != "" ==> NormalizeCurrency(currency) == Ok(Upper(currency.s))
    ensures NormalizeCurrency(currency).Ok? ==>
              var c := NormalizeCurrency(currency).value;
              (forall i :: 0 <= i < |c| ==> !('a' <= c[i] <= 'z'))
              && NormalizeCurrency(JStr(c)) == Ok(c)
  {
    if NormalizeCurrency(currency).Ok? {
      var c := NormalizeCurrency(currency).value;
      assert c != "";
      assert Upper(c) == c;
    }
  }

  lemma NormalizeCurrencyExamples()
    ensures NormalizeCurrency(JStr("usd")) == Ok("USD")
    ensures NormalizeCurrency(JStr("EUR")) == Ok("EUR")
  {
    assert Upper("usd") == "USD";
    assert Upper("EUR") == "EUR";
  }
}
