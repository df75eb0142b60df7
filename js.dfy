/** The slice of JavaScript value semantics that the controllers' checks depend on:
    JSON payload values, truthiness, `.length`, `Number.isInteger`, `Number(string)`
    and the relational operators `<`, `>=`, `<=` between primitives. */
module Js {

  datatype Option<T> = None | Some(value: T)

  /** A primitive value of a JSON request body (numbers are exact, never NaN). */
  datatype Value = Undefined | Null | Bool(b: bool) | Num(n: real) | Str(s: string)

  /** A JSON object: a field that is not there reads as `undefined`. */
  type Fields = map<string, Value>

  function Get(o: Fields, key: string): (v: Value)
    ensures key !in o ==> v == Undefined
  {
    if key in o then o[key] else Undefined
  }

  /** `!!v` */
  predicate Truthy(v: Value)
  {
    match v
    case Undefined => false
    case Null => false
    case Bool(b) => b
    case Num(n) => n != 0.0
    case Str(s) => s != ""
  }

  /** `v.length` on a truthy primitive: only strings have one. */
  function Length(v: Value): (r: Value)
    ensures r != Undefined <==> v.Str?
    ensures v.Str? ==> r == Num(|v.s| as real)
  {
    if v.Str? then Num(|v.s| as real) else Undefined
  }

  predicate IsIntegral(r: real)
  {
    r == r.Floor as real
  }

  /** `Number.isInteger(v)`: no coercion, only numbers qualify. */
  predicate IsInteger(v: Value)
  {
    v.Num? && IsIntegral(v.n)
  }

  /** A JavaScript number, as produced by `Number(...)`. */
  datatype Number = NaN | PosInf | NegInf | Finite(r: real)

  /** `Number.isInteger` applied to a number. */
  predicate IsIntegerNumber(x: Number)
  {
    x.Finite? && IsIntegral(x.r)
  }

  // ---------------------------------------------------------------------------
  // StringToNumber (what `Number(s)` does to a string)
  // ---------------------------------------------------------------------------

  /** WhiteSpace and LineTerminator code points, which `Number(s)` ignores at both ends. */
  predicate IsWhiteSpace(c: char)
  {
    c == '\t' || c == '\n' || c == '\U{B}' || c == '\U{C}' || c == '\r' || c == ' ' ||
    c == '\U{A0}' || c == '\U{1680}' || ('\U{2000}' <= c <= '\U{200A}') ||
    c == '\U{2028}' || c == '\U{2029}' || c == '\U{202F}' || c == '\U{205F}' ||
    c == '\U{3000}' || c == '\U{FEFF}'
  }

  function TrimStart(s: string): (t: string)
    ensures |t| <= |s|
    ensures t == [] || !IsWhiteSpace(t[0])
  {
    if s != [] && IsWhiteSpace(s[0]) then TrimStart(s[1..]) else s
  }

  function TrimEnd(s: string): (t: string)
    ensures |t| <= |s|
    ensures t == [] || !IsWhiteSpace(t[|t| - 1])
  {
    if s != [] && IsWhiteSpace(s[|s| - 1]) then TrimEnd(s[..|s| - 1]) else s
  }

  function Trim(s: string): string
  {
    TrimEnd(TrimStart(s))
  }

  predicate IsDigit(c: char)
  {
    '0' <= c <= '9'
  }

  predicate AllDigits(s: string)
  {
    forall i :: 0 <= i < |s| ==> IsDigit(s[i])
  }

  /** The value of `c` as a digit of radix up to 16, or 16 when it is none. */
  function DigitValue(c: char): (d: nat)
    ensures d <= 16
    ensures IsDigit(c) <==> d < 10
  {
    if '0' <= c <= '9' then (c as int) - ('0' as int)
    else if 'a' <= c <= 'f' then (c as int) - ('a' as int) + 10
    else if 'A' <= c <= 'F' then (c as int) - ('A' as int) + 10
    else 16
  }

  predicate AllRadixDigits(s: string, radix: nat)
  {
    forall i :: 0 <= i < |s| ==> DigitValue(s[i]) < radix
  }

  /** The value of a digit string read in `radix`, most significant digit first. */
  function RadixValue(s: string, radix: nat): nat
    requires AllRadixDigits(s, radix)
  {
    if s == [] then 0 else RadixValue(s[..|s| - 1], radix) * radix + DigitValue(s[|s| - 1])
  }

  function DecimalValue(s: string): nat
    requires AllDigits(s)
  {
    RadixValue(s, 10)
  }

  function Pow10(k: nat): (p: nat)
    ensures p >= 1
  {
    if k == 0 then 1 else 10 * Pow10(k - 1)
  }

  /** 10 raised to an integer power, as an exact real. */
  function Scale(k: int): real
  {
    if k >= 0 then Pow10(k) as real else 1.0 / (Pow10(-k) as real)
  }

  /** Index of the first `e` or `E`, or the length when there is none. */
  function ExponentIndex(s: string): (i: nat)
    ensures i <= |s|
    ensures i < |s| ==> s[i] == 'e' || s[i] == 'E'
    ensures forall j :: 0 <= j < i ==> s[j] != 'e' && s[j] != 'E'
  {
    if s == [] then 0 else if s[0] == 'e' || s[0] == 'E' then 0 else 1 + ExponentIndex(s[1..])
  }

  /** Index of the first `.`, or the length when there is none. */
  function DotIndex(s: string): (i: nat)
    ensures i <= |s|
    ensures i < |s| ==> s[i] == '.'
    ensures forall j :: 0 <= j < i ==> s[j] != '.'
  {
    if s == [] then 0 else if s[0] == '.' then 0 else 1 + DotIndex(s[1..])
  }

  /** ExponentPart after the `e`: an optional sign and at least one digit. */
  function SignedInteger(s: string): Option<int>
  {
    if s != [] && (s[0] == '+' || s[0] == '-') then
      var ds := s[1..];
      if ds != [] && AllDigits(ds) then Some(if s[0] == '-' then -(DecimalValue(ds) as int) else DecimalValue(ds))
      else None
    else if s != [] && AllDigits(s) then Some(DecimalValue(s))
    else None
  }

  /** StrUnsignedDecimalLiteral without `Infinity`: `12`, `1.5`, `.5`, `1.`, `15e-1`. */
  function UnsignedDecimal(s: string): Option<real>
  {
    var e := ExponentIndex(s);
    var mantissa := s[..e];
    var exponent := if e == |s| then Some(0) else SignedInteger(s[e + 1..]);
    var dot := DotIndex(mantissa);
    var whole := mantissa[..dot];
    var fraction := if dot < |mantissa| then mantissa[dot + 1..] else "";
    if exponent.Some? && AllDigits(whole) && AllDigits(fraction) && |whole| + |fraction| > 0 then
      Some(DecimalValue(whole + fraction) as real * Scale(exponent.value - |fraction|))
    else None
  }

  function UnsignedNumber(s: string): Number
  {
    if s == "Infinity" then PosInf
    else match UnsignedDecimal(s)
      case Some(r) => Finite(r)
      case None => NaN
  }

  function Negate(x: Number): Number
  {
    match x
    case NaN => NaN
    case PosInf => NegInf
    case NegInf => PosInf
    case Finite(r) => Finite(-r)
  }

  function RadixOfPrefix(c: char): nat
  {
    if c == 'x' || c == 'X' then 16 else if c == 'o' || c == 'O' then 8 else 2
  }

  /** `Number(s)` for a string: blank is 0, then a hex/octal/binary literal, a signed
      decimal literal or a signed `Infinity`; anything else is NaN. */
  function StringToNumber(s: string): Number
  {
    var t := Trim(s);
    if t == "" then Finite(0.0)
    else if |t| >= 2 && t[0] == '0' && t[1] in "xXoObB" then
      var ds := t[2..];
      var radix := RadixOfPrefix(t[1]);
      if ds != [] && AllRadixDigits(ds, radix) then Finite(RadixValue(ds, radix) as real) else NaN
    else if t[0] == '-' then Negate(UnsignedNumber(t[1..]))
    else if t[0] == '+' then UnsignedNumber(t[1..])
    else UnsignedNumber(t)
  }

  /** ToNumber on a primitive. */
  function ToNumber(v: Value): Number
  {
    match v
    case Undefined => NaN
    case Null => Finite(0.0)
    case Bool(b) => Finite(if b then 1.0 else 0.0)
    case Num(n) => Finite(n)
    case Str(s) => StringToNumber(s)
  }

  // ---------------------------------------------------------------------------
  // Relational comparison
  // ---------------------------------------------------------------------------

  /** String `<`: code-point order, a proper prefix is smaller. */
  predicate StringLess(a: string, b: string)
  {
    if a == [] then b != []
    else if b == [] then false
    else if a[0] != b[0] then a[0] < b[0]
    else StringLess(a[1..], b[1..])
  }

  /** Number `<`; `None` stands for the `undefined` that a NaN operand yields. */
  function NumberLess(a: Number, b: Number): Option<bool>
  {
    if a.NaN? || b.NaN? then None
    else if a.PosInf? || b.NegInf? then Some(false)
    else if a.NegInf? || b.PosInf? then Some(true)
    else Some(a.r < b.r)
  }

  /** IsLessThan(x, y) on primitives: two strings compare as strings, anything else as numbers. */
  function LessThan(x: Value, y: Value): Option<bool>
  {
    if x.Str? && y.Str? then Some(StringLess(x.s, y.s))
    else NumberLess(ToNumber(x), ToNumber(y))
  }

  /** `x >= y` */
  predicate AtLeast(x: Value, y: Value)
  {
    match LessThan(x, y)
    case None => false
    case Some(less) => !less
  }

  /** `x <= y` */
  predicate AtMost(x: Value, y: Value)
  {
    match LessThan(y, x)
    case None => false
    case Some(less) => !less
  }

  // ---------------------------------------------------------------------------
  // Lemmas
  // ---------------------------------------------------------------------------

  lemma TrimDigits(s: string)
    requires s != [] && AllDigits(s)
    ensures Trim(s) == s
  {
    assert TrimStart(s) == s;
  }

  lemma {:induction false} NoExponentInDigits(s: string)
    requires AllDigits(s)
    ensures ExponentIndex(s) == |s| && DotIndex(s) == |s|
  {
    if s != [] {
      NoExponentInDigits(s[1..]);
    }
  }

  /** A non-empty run of decimal digits converts to its decimal value. */
  lemma DigitsToNumber(s: string)
    requires s != [] && AllDigits(s)
    ensures StringToNumber(s) == Finite(DecimalValue(s) as real)
  {
    TrimDigits(s);
    NoExponentInDigits(s);
    assert s[..|s|] == s;
    assert s + "" == s;
    assert !IsDigit('I');
    assert s != "Infinity";
    assert UnsignedDecimal(s) == Some(DecimalValue(s) as real);
  }

  /** Comparing a digit string with a number compares its decimal value. */
  lemma DigitsCompare(s: string, k: int)
    requires s != [] && AllDigits(s)
    ensures AtLeast(Str(s), Num(k as real)) <==> DecimalValue(s) >= k
    ensures AtMost(Str(s), Num(k as real)) <==> DecimalValue(s) <= k
  {
    DigitsToNumber(s);
  }

  lemma DecimalValue2(a: char, b: char)
    requires IsDigit(a) && IsDigit(b)
    ensures DecimalValue([a, b]) == DigitValue(a) * 10 + DigitValue(b)
  {
    assert [a, b][..1] == [a];
    assert [a][..0] == [];
    assert RadixValue([a], 10) == DigitValue(a);
  }

  lemma DecimalValue4(a: char, b: char, c: char, d: char)
    requires IsDigit(a) && IsDigit(b) && IsDigit(c) && IsDigit(d)
    ensures DecimalValue([a, b, c, d]) == ((DigitValue(a) * 10 + DigitValue(b)) * 10 + DigitValue(c)) * 10 + DigitValue(d)
  {
    assert [a, b, c, d][..3] == [a, b, c];
    assert [a, b, c][..2] == [a, b];
    DecimalValue2(a, b);
    assert RadixValue([a, b, c], 10) == DecimalValue([a, b]) * 10 + DigitValue(c);
  }
}
