/** The slice of JavaScript value semantics the components rely on: decoded JSON
    values, truthiness, strict and loose comparison with `true`, member access
    (with the `TypeError` thrown on `null`/`undefined`), the text a template
    literal produces, and decimal printing and parsing of integers.

    Numbers are modelled as integers: the data the components handle are counts
    and attribute totals. */
module Js {
  import opened Wrappers

  /** A decoded JSON value. */
  datatype Json =
    | JNull
    | JBool(b: bool)
    | JNum(n: int)
    | JStr(s: string)
    | JArr(items: seq<Json>)
    | JObj(fields: map<string, Json>)

  /** A JavaScript value as the components see it: `None` is `undefined`. */
  type Value = Option<Json>

  /** The exception thrown when a member of `null` or `undefined` is read. */
  datatype TypeError = TypeError

  predicate Nullish(v: Value)
  {
    v == None || v == Some(JNull)
  }

  /** JavaScript truthiness: `undefined`, `null`, `false`, `0` and `""` are falsy. */
  predicate Truthy(v: Value)
  {
    match v
    case None => false
    case Some(j) =>
      match j
      case JNull => false
      case JBool(b) => b
      case JNum(n) => n != 0
      case JStr(s) => s != ""
      case JArr(_) => true
      case JObj(_) => true
  }

  /** `v === true`. */
  predicate StrictTrue(v: Value)
  {
    v == Some(JBool(true))
  }

  // ---------------------------------------------------------------------------
  // Decimal text of integers
  // ---------------------------------------------------------------------------

  predicate IsDigit(c: char)
  {
    '0' <= c <= '9'
  }

  predicate AllDigits(s: string)
  {
    forall i :: 0 <= i < |s| ==> IsDigit(s[i])
  }

  function DigitChar(d: nat): (c: char)
    requires d < 10
    ensures IsDigit(c)
    ensures c as int - '0' as int == d
  {
    (d + '0' as int) as char
  }

  /** The shortest decimal numeral of `n`, as `String(n)` prints it. */
  function NatToDecimal(n: nat): (s: string)
    ensures |s| >= 1 && AllDigits(s)
    ensures |s| > 1 ==> s[0] != '0'
  {
    if n < 10 then [DigitChar(n)] else NatToDecimal(n / 10) + [DigitChar(n % 10)]
  }

  function IntToDecimal(n: int): string
  {
    if n < 0 then "-" + NatToDecimal(-n) else NatToDecimal(n)
  }

  /** The value of a string of decimal digits, read most significant first. */
  function DigitsValue(s: string): nat
    requires AllDigits(s)
  {
    if |s| == 0 then 0 else 10 * DigitsValue(s[..|s| - 1]) + (s[|s| - 1] as int - '0' as int)
  }

  /** Reads an optionally negative decimal numeral; anything else is `None`. */
  function ParseDecimal(s: string): Option<int>
  {
    if |s| > 0 && AllDigits(s) then Some(DigitsValue(s) as int)
    else if |s| > 1 && s[0] == '-' && AllDigits(s[1..]) then Some(-(DigitsValue(s[1..]) as int))
    else None
  }

  lemma {:induction false} DigitsValueOfNatToDecimal(n: nat)
    ensures DigitsValue(NatToDecimal(n)) == n
  {
    var s := NatToDecimal(n);
    if n >= 10 {
      DigitsValueOfNatToDecimal(n / 10);
      assert s[..|s| - 1] == NatToDecimal(n / 10);
    }
  }

  /** Printing an integer and reading it back gives the integer. */
  lemma ParseDecimalOfIntToDecimal(n: int)
    ensures ParseDecimal(IntToDecimal(n)) == Some(n)
  {
    if n < 0 {
      var s := IntToDecimal(n);
      DigitsValueOfNatToDecimal(-n);
      assert s[1..] == NatToDecimal(-n);
      assert !IsDigit(s[0]);
    } else {
      DigitsValueOfNatToDecimal(n);
    }
  }

  // ---------------------------------------------------------------------------
  // Conversion to text (template literals and `String(v)`)
  // ---------------------------------------------------------------------------

  /** `String(v)` for a JSON value: arrays join their elements with commas,
      printing `null` elements as nothing; objects print as `[object Object]`. */
  function ToText(v: Json): string
    decreases v
  {
    match v
    case JNull => "null"
    case JBool(b) => if b then "true" else "false"
    case JNum(n) => IntToDecimal(n)
    case JStr(s) => s
    case JArr(xs) => JoinTexts(xs)
    case JObj(_) => "[object Object]"
  }

  function JoinTexts(xs: seq<Json>): string
    decreases xs
  {
    if |xs| == 0 then ""
    else
      var head := if xs[0] == JNull then "" else ToText(xs[0]);
      if |xs| == 1 then head else head + "," + JoinTexts(xs[1..])
  }

  /** The text `${v}` produces, `undefined` included. */
  function TemplateText(v: Value): string
  {
    match v
    case None => "undefined"
    case Some(j) => ToText(j)
  }

  // ---------------------------------------------------------------------------
  // Loose equality with `true`
  // ---------------------------------------------------------------------------

  /** JavaScript's ToNumber, for the inputs whose result is an integer; `None`
      stands for NaN and for numerals other than plain decimal integers. */
  function ToNumber(v: Json): Option<int>
  {
    match v
    case JNull => Some(0)
    case JBool(b) => Some(if b then 1 else 0)
    case JNum(n) => Some(n)
    case JStr(s) => if s == "" then Some(0) else ParseDecimal(s)
    case JArr(_) => var t := ToText(v); if t == "" then Some(0) else ParseDecimal(t)
    case JObj(_) => None
  }

  /** `v == true`: a boolean compares by value; anything else other than
      `null`/`undefined` is converted to a number and compared with 1. */
  predicate LooseEqualsTrue(v: Value)
  {
    match v
    case None => false
    case Some(JNull) => false
    case Some(JBool(b)) => b
    case Some(j) => ToNumber(j) == Some(1)
  }

  // ---------------------------------------------------------------------------
  // Member access
  // ---------------------------------------------------------------------------

  /** The array index a property key names: the canonical decimal numeral of an
      index below `len`. */
  function ArrayIndex(key: string, len: nat): (r: Option<nat>)
    ensures r.Some? ==> r.value < len && key == NatToDecimal(r.value)
  {
    match ParseDecimal(key)
    case Some(n) => if 0 <= n < len && NatToDecimal(n) == key then Some(n) else None
    case None => None
  }

  /** `v[key]` on a value that is neither `null` nor `undefined`. */
  function Member(v: Json, key: string): Value
  {
    match v
    case JObj(m) => if key in m then Some(m[key]) else None
    case JArr(xs) =>
      (match ArrayIndex(key, |xs|)
       case Some(i) => Some(xs[i])
       case None => if key == "length" then Some(JNum(|xs|)) else None)
    case JStr(s) =>
      (match ArrayIndex(key, |s|)
       case Some(i) => Some(JStr([s[i]]))
       case None => if key == "length" then Some(JNum(|s|)) else None)
    case _ => None
  }

  /** `v.key`: throws on `null` and `undefined`. */
  function GetProp(v: Value, key: string): (r: Result<Value, TypeError>)
    ensures r.Failure? <==> Nullish(v)
  {
    match v
    case None => Failure(TypeError)
    case Some(JNull) => Failure(TypeError)
    case Some(j) => Success(Member(j, key))
  }

  /** `v?.[key]`: `undefined` when `v` is nullish. */
  function OptionalMember(v: Value, key: string): Value
  {
    match v
    case None => None
    case Some(JNull) => None
    case Some(j) => Member(j, key)
  }

  /** `a || b`: `a` when it is truthy, `b` otherwise. */
  function Or(a: Value, b: Value): Value
  {
    if Truthy(a) then a else b
  }

  /** The three tests against `true` are nested: strict equality implies
      loose equality, which implies truthiness. */
  lemma TruthTestsNested(v: Value)
    ensures StrictTrue(v) ==> LooseEqualsTrue(v)
    ensures LooseEqualsTrue(v) ==> Truthy(v)
  {
  }

  /** `v ?? fallback`. */
  function Coalesce(v: Value, fallback: Json): Json
  {
    if Nullish(v) then fallback else v.value
  }

  /** Reading index `i` of an array by its property key gives the element. */
  lemma ArrayMemberAt(xs: seq<Json>, i: nat)
    requires i < |xs|
    ensures Member(JArr(xs), NatToDecimal(i)) == Some(xs[i])
  {
    ParseDecimalOfIntToDecimal(i);
  }

  /** `s.includes(sub)`. */
  predicate Includes(s: string, sub: string)
  {
    exists i :: 0 <= i <= |s| && OccursAt(s, sub, i)
  }

  predicate OccursAt(s: string, sub: string, i: int)
  {
    0 <= i && i + |sub| <= |s| && s[i..i + |sub|] == sub
  }
}
