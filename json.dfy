/** Decoded JSON as the adapters see it: Python dicts, lists, strings, numbers,
    booleans and None, with the few built-ins the adapters apply to them. */
module Json {
  import opened Common
  import opened Text

  datatype Json =
    | JNull
    | JBool(b: bool)
    | JInt(i: int)
    | JFloat(f: real)
    | JStr(s: string)
    | JArr(items: seq<Json>)
    | JObj(fields: map<string, Json>)

  /** Python truthiness: None, False, zero, and empty strings, lists and dicts are false. */
  predicate Truthy(j: Json) {
    match j
    case JNull => false
    case JBool(b) => b
    case JInt(i) => i != 0
    case JFloat(f) => f != 0.0
    case JStr(s) => s != ""
    case JArr(a) => a != []
    case JObj(m) => m != map[]
  }

  /** `d.get(key, default)` on a dict. */
  function Get(m: map<string, Json>, key: string, default: Json): (r: Json)
    ensures key in m ==> r == m[key]
    ensures key !in m ==> r == default
  {
    if key in m then m[key] else default
  }

  /** `x.get(key, default)` on any value: only a dict has `.get`. */
  function GetFrom(x: Json, key: string, default: Json): (r: Result<Json>)
    ensures r.Err? <==> !x.JObj?
    ensures x.JObj? ==> r == Ok(Get(x.fields, key, default))
  {
    if x.JObj? then Ok(Get(x.fields, key, default)) else Err(AttributeError)
  }

  /** `str(x)` where the model reproduces it: None, booleans, integers and strings. */
  function PyStr(x: Json): (r: Result<string>)
    ensures r.Err? <==> x.JFloat? || x.JArr? || x.JObj?
  {
    match x
    case JNull => Ok("None")
    case JBool(b) => Ok(if b then "True" else "False")
    case JInt(i) => Ok(IntToString(i))
    case JStr(s) => Ok(s)
    case _ => Err(Unmodelled)
  }

  /** `float(x)`: numbers and booleans convert, a string must be a finite float literal
      (see ParseLiteral), anything else is a TypeError. */
  function PyFloat(x: Json): (r: Result<real>)
    ensures x.JInt? ==> r == Ok(x.i as real)
    ensures x.JFloat? ==> r == Ok(x.f)
    ensures x.JNull? || x.JArr? || x.JObj? ==> r == Err(TypeError)
  {
    match x
    case JNull => Err(TypeError)
    case JBool(b) => Ok(if b then 1.0 else 0.0)
    case JInt(i) => Ok(i as real)
    case JFloat(f) => Ok(f)
    case JStr(s) => if ParseLiteral(s).Some? then Ok(ParseLiteral(s).value) else Err(ValueError)
    case _ => Err(TypeError)
  }

  /** `float` reads scientific notation: `float("m e d")` is m times 10^d and
      `float("m e-d")` is m divided by 10^d. */
  lemma PyFloatExponent(m: string, d: string)
    requires AllDigits(m) && m != [] && AllDigits(d) && d != []
    ensures PyFloat(JStr(m + "e" + d)) == Ok(Scale(DigitsValue(m) as real, DigitsValue(d)))
    ensures PyFloat(JStr(m + "e-" + d)) == Ok(Scale(DigitsValue(m) as real, -(DigitsValue(d) as int)))
  {
    assert PyFloat(JStr(m + "e" + d)) == Ok(Scale(DigitsValue(m) as real, DigitsValue(d))) by {
      ExponentForm(m, d);
      PyFloatPlain(m + "e" + d, m[0], d[|d| - 1]);
    }
    assert PyFloat(JStr(m + "e-" + d)) == Ok(Scale(DigitsValue(m) as real, -(DigitsValue(d) as int))) by {
      NegativeExponentForm(m, d);
      PyFloatPlain(m + "e-" + d, m[0], d[|d| - 1]);
    }
  }

  /** `float` accepts digits grouped by one underscore and rejects two in a row:
      `float("1_000")` is 1000.0 while `float("1__000")` raises ValueError. */
  lemma PyFloatGrouping(a: string, b: string)
    requires AllDigits(a) && a != [] && AllDigits(b) && b != []
    ensures PyFloat(JStr(a + "_" + b)) == Ok(DigitsValue(a + b) as real)
    ensures PyFloat(JStr(a + "__" + b)) == Err(ValueError)
  {
    assert PyFloat(JStr(a + "_" + b)) == Ok(DigitsValue(a + b) as real) by {
      GroupedDigits(a, b);
      PyFloatPlain(a + "_" + b, a[0], b[|b| - 1]);
    }
    assert PyFloat(JStr(a + "__" + b)) == Err(ValueError) by {
      DoubleUnderscore(a, b);
      PyFloatPlain(a + "__" + b, a[0], b[|b| - 1]);
    }
  }

  /** A string that starts and ends with a digit converts as an unsigned literal. */
  lemma PyFloatPlain(s: string, first: char, last: char)
    requires s != [] && s[0] == first && s[|s| - 1] == last && IsDigit(first) && IsDigit(last)
    ensures PyFloat(JStr(s)) == match ParseUnsigned(s)
                                case Some(v) => Ok(v)
                                case None => Err(ValueError)
  {
    DigitIsPlain(first);
    DigitIsPlain(last);
    ParseLiteralPlain(s);
  }

  /** The value x takes in `float + x`: integers, floats and booleans are numbers, and
      anything else raises TypeError. */
  function PyNumber(x: Json): (r: Option<real>)
    ensures r.Some? <==> x.JInt? || x.JFloat? || x.JBool?
    ensures x.JInt? ==> r == Some(x.i as real)
    ensures x.JFloat? ==> r == Some(x.f)
  {
    match x
    case JInt(i) => Some(i as real)
    case JFloat(f) => Some(f)
    case JBool(b) => Some(if b then 1.0 else 0.0)
    case _ => None
  }

  /** Python's `round(x)` on a float: the nearest integer, ties going to the even one. */
  function RoundHalfEven(x: real): (n: int)
    ensures -0.5 <= x - n as real <= 0.5
  {
    var f := x.Floor;
    var d := x - f as real;
    if d < 0.5 then f
    else if d > 0.5 then f + 1
    else if f % 2 == 0 then f
    else f + 1
  }

  /** `round(x)`: integers and booleans are already integral, a float rounds half to
      even, anything else is a TypeError. */
  function PyRound(x: Json): (r: Result<int>)
    ensures r.Err? <==> !(x.JInt? || x.JBool? || x.JFloat?)
    ensures x.JInt? ==> r == Ok(x.i)
    ensures x.JFloat? ==> r == Ok(RoundHalfEven(x.f))
  {
    match x
    case JInt(i) => Ok(i)
    case JBool(b) => Ok(if b then 1 else 0)
    case JFloat(f) => Ok(RoundHalfEven(f))
    case _ => Err(TypeError)
  }

  function Abs(x: real): real {
    if x < 0.0 then -x else x
  }

  /** No integer is nearer to x than `RoundHalfEven(x)`; one exactly as near is a tie,
      and then the chosen one is even. An integral value rounds to itself. */
  lemma RoundHalfEvenIsNearest(x: real, m: int)
    ensures Abs(x - RoundHalfEven(x) as real) <= Abs(x - m as real)
    ensures (Abs(x - RoundHalfEven(x) as real) == Abs(x - m as real) && m != RoundHalfEven(x))
            ==> RoundHalfEven(x) % 2 == 0
    ensures x == m as real ==> RoundHalfEven(x) == m
  {
    var f := x.Floor;
    assert f as real <= x < f as real + 1.0;
    if m <= f - 1 {
      assert x - m as real >= 1.0 + (x - f as real);
    } else if m >= f + 2 {
      assert m as real - x > 1.0;
    }
  }
}
