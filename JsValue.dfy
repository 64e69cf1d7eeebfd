/** The JavaScript value coercions the rate code relies on: `Number(v)`,
    `String(v || "")`, `Math.round` and `toFixed(2)`. Numbers are exact reals;
    a parse that JavaScript would turn into NaN or an infinity is `None`
    (the code only ever asks `Number.isFinite` of it). */
module JsValue {
  import opened Wrappers
  import opened Text

  /** A value the settings store may hold for `rate`. */
  datatype Value =
    | Num(n: real)        // a finite number
    | NaN
    | PosInfinity
    | NegInfinity
    | Str(s: string)
    | Null
    | Undefined
    | Bool(b: bool)

  function Pow10(n: nat): (r: nat)
    ensures r >= 1
  {
    if n == 0 then 1 else 10 * Pow10(n - 1)
  }

  /** The value of the decimal literal `whole.frac`. */
  function DecimalValue(whole: string, frac: string): real
    requires AllDigits(whole) && AllDigits(frac)
  {
    DigitsValue(whole) as real + DigitsValue(frac) as real / Pow10(|frac|) as real
  }

  /** An unsigned decimal literal: digits, optionally a point and more digits,
      with at least one digit in all. */
  function ParseDecimal(u: string): Option<real> {
    var whole := Before(u, '.');
    var frac := if |whole| < |u| then u[|whole| + 1..] else "";
    if AllDigits(whole) && AllDigits(frac) && (whole != [] || frac != []) then
      Some(DecimalValue(whole, frac))
    else None
  }

  /** The magnitude after an optional sign: `Infinity` parses but is not finite. */
  function ParseMagnitude(u: string): Option<real> {
    if u == "Infinity" then None else ParseDecimal(u)
  }

  /** StringToNumber on an already trimmed, non-empty string. */
  function ParseLiteral(t: string): Option<real>
    requires t != []
  {
    if t[0] == '+' then ParseMagnitude(t[1..])
    else if t[0] == '-' then
      match ParseMagnitude(t[1..])
      case Some(m) => Some(-m)
      case None => None
    else ParseMagnitude(t)
  }

  /** `Number(s)` for a string, `None` when the result is not finite. Surrounding
      whitespace is ignored and a blank string is 0. */
  function ParseNumber(s: string): Option<real> {
    var t := Trim(s);
    if t == [] then Some(0.0) else ParseLiteral(t)
  }

  /** `Number(v)`, `None` when the result is not finite. */
  function ToNumber(v: Value): Option<real> {
    match v
    case Num(n) => Some(n)
    case NaN => None
    case PosInfinity => None
    case NegInfinity => None
    case Str(s) => ParseNumber(s)
    case Null => Some(0.0)
    case Undefined => None
    case Bool(b) => Some(if b then 1.0 else 0.0)
  }

  /** `String(v || "")` for a value that is not a finite number (falsy values give ""). */
  function StringOrEmpty(v: Value): string
    requires !v.Num?
  {
    match v
    case PosInfinity => "Infinity"
    case NegInfinity => "-Infinity"
    case Str(s) => s
    case Bool(b) => if b then "true" else ""
    case _ => ""
  }

  /** `Math.round`: the nearest integer, halves rounded up. */
  function Round(x: real): (r: int)
    ensures r as real <= x + 0.5 < r as real + 1.0
  {
    (x + 0.5).Floor
  }

  /** The whole part `q`, a point, and the two digits of `d`. */
  function TwoDecimals(q: nat, d: nat): string
    requires d < 100
  {
    NatToString(q) + "." + [DigitChar(d / 10), DigitChar(d % 10)]
  }

  function FixedMagnitude(x: real): string
    requires x >= 0.0
  {
    var n := Round(x * 100.0);
    TwoDecimals(n / 100, n % 100)
  }

  /** `x.toFixed(2)` on exact reals: the nearest multiple of 0.01 (ties go up)
      with exactly two decimals. */
  function ToFixed2(x: real): string {
    if x < 0.0 then "-" + FixedMagnitude(-x) else FixedMagnitude(x)
  }

  /** Digits and the separators used here are not whitespace. */
  lemma NotWhitespace(c: char)
    requires IsDigit(c) || c == '-' || c == '%'
    ensures !IsWhitespace(c)
  {
  }

  /** A non-empty run of digits parses to the number it denotes. */
  lemma ParseDigits(u: string)
    requires u != [] && AllDigits(u)
    ensures ParseMagnitude(u) == Some(DigitsValue(u) as real)
  {
    assert u[0] != 'I';
    assert '.' !in u;
    BeforeWhole(u, '.');
  }

  /** `Number` reads back what a template literal writes for an integer. */
  lemma ParseIntToString(n: int)
    ensures ParseNumber(IntToString(n)) == Some(n as real)
  {
    var t := IntToString(n);
    var m: nat := if n < 0 then -n else n;
    var u := NatToString(m);
    NotWhitespace(t[0]);
    NotWhitespace(t[|t| - 1]);
    TrimNoop(t);
    ParseDigits(u);
    NatToStringValue(m);
    if n < 0 {
      assert t == "-" + u && t[1..] == u;
    } else {
      assert t == u && t[0] != '+' && t[0] != '-';
    }
  }

  /** A trimmed literal without a sign parses as its magnitude. */
  lemma ParseUnsigned(t: string)
    requires t != [] && !IsWhitespace(t[0]) && !IsWhitespace(t[|t| - 1]) && t[0] != '+' && t[0] != '-'
    ensures ParseNumber(t) == ParseMagnitude(t)
  {
    TrimNoop(t);
  }

  /** A two-decimal rendering determines its whole part and its hundredths. */
  lemma TwoDecimalsInjective(q: nat, d: nat, q': nat, d': nat)
    requires d < 100 && d' < 100
    requires TwoDecimals(q, d) == TwoDecimals(q', d')
    ensures q == q' && d == d'
  {
    var t := TwoDecimals(q, d);
    var frac := [DigitChar(d / 10), DigitChar(d % 10)];
    var frac' := [DigitChar(d' / 10), DigitChar(d' % 10)];
    assert '.' !in NatToString(q) && '.' !in NatToString(q');
    BeforeSeparator(NatToString(q), '.', frac);
    BeforeSeparator(NatToString(q'), '.', frac');
    assert NatToString(q) == NatToString(q');
    NatToStringValue(q);
    NatToStringValue(q');
    assert t[|t| - 2] == frac[0] == frac'[0] && t[|t| - 1] == frac[1] == frac'[1];
    assert DigitValue(frac[0]) == d / 10 && DigitValue(frac'[0]) == d' / 10;
    assert DigitValue(frac[1]) == d % 10 && DigitValue(frac'[1]) == d' % 10;
  }

  /** Two rates with the same `toFixed(2)` text round to the same hundredths. */
  lemma ToFixed2Injective(x: real, y: real)
    requires x >= 0.0 && y >= 0.0
    requires ToFixed2(x) == ToFixed2(y)
    ensures Round(x * 100.0) == Round(y * 100.0)
  {
    var n: nat := Round(x * 100.0);
    var m: nat := Round(y * 100.0);
    assert ToFixed2(x) == TwoDecimals(n / 100, n % 100);
    assert ToFixed2(y) == TwoDecimals(m / 100, m % 100);
    TwoDecimalsInjective(n / 100, n % 100, m / 100, m % 100);
  }

  /** Rates at least 0.01 apart round to different hundredths. */
  lemma RoundSeparates(x: real, y: real)
    requires y - x >= 0.01
    ensures Round(x * 100.0) < Round(y * 100.0)
  {
  }

  /** Rates at least 0.01 apart have different `toFixed(2)` text. */
  lemma ToFixed2Separates(x: real, y: real)
    requires x >= 0.0 && y - x >= 0.01
    ensures ToFixed2(x) != ToFixed2(y)
  {
    RoundSeparates(x, y);
    if ToFixed2(x) == ToFixed2(y) {
      ToFixed2Injective(x, y);
    }
  }
}
