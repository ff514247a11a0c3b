/**
 * `parseSearchType`: the type the fallback search gives the whole search text,
 * trying strconv.ParseInt (base 10, 64 bits), then strconv.ParseFloat, then
 * strconv.ParseBool, and otherwise keeping the text as a string.
 *
 * ParseInt and ParseBool are written out; which texts strconv.ParseFloat
 * accepts is a parameter, `isFloat`, because the float value itself never
 * reaches a query (no column classification yields "float").
 */
module SearchType {
  import opened Wrappers
  import opened Machine

  predicate IsDigit(c: char) {
    '0' <= c <= '9'
  }

  predicate AllDigits(s: string) {
    forall i :: 0 <= i < |s| ==> IsDigit(s[i])
  }

  /** The number a string of decimal digits denotes. */
  function DigitsValue(ds: string): nat
    requires AllDigits(ds)
  {
    if ds == [] then 0 else DigitsValue(ds[..|ds| - 1]) * 10 + (ds[|ds| - 1] as int - '0' as int)
  }

  /**
   * strconv.ParseInt(s, 10, 64): an optional sign, then one or more decimal
   * digits (no base prefix, no underscores), denoting a value within int64;
   * anything else is a syntax or range error.
   */
  function ParseInt(s: string): (r: Option<int>)
    ensures r.Some? ==> MinInt64 <= r.value <= MaxInt64
  {
    if s == [] then None
    else
      var digits := if s[0] == '+' || s[0] == '-' then s[1..] else s;
      if digits == [] || !AllDigits(digits) then None
      else
        var n: int := DigitsValue(digits);
        var v := if s[0] == '-' then 0 - n else n;
        if MinInt64 <= v <= MaxInt64 then Some(v) else None
  }

  /** The decimal digits of `n` (strconv.FormatUint). */
  function Digits(n: nat): (ds: string)
    ensures |ds| > 0 && AllDigits(ds)
  {
    var d := ((n % 10) + '0' as int) as char;
    if n < 10 then [d] else Digits(n / 10) + [d]
  }

  /** strconv.FormatInt(n, 10). */
  function FormatInt(n: int): string {
    if n < 0 then "-" + Digits(-n) else Digits(n)
  }

  lemma {:induction false} DigitsValueOfDigits(n: nat)
    ensures DigitsValue(Digits(n)) == n
  {
    var ds := Digits(n);
    if n >= 10 {
      DigitsValueOfDigits(n / 10);
      assert ds[..|ds| - 1] == Digits(n / 10);
    }
  }

  /** Every int64 printed in decimal parses back to itself. */
  lemma ParseFormatInt(n: int)
    requires MinInt64 <= n <= MaxInt64
    ensures ParseInt(FormatInt(n)) == Some(n)
  {
    var s := FormatInt(n);
    if n < 0 {
      DigitsValueOfDigits(-n);
      assert s[1..] == Digits(-n);
    } else {
      DigitsValueOfDigits(n);
    }
  }

  /** strconv.ParseBool. */
  function ParseBool(s: string): (r: Option<bool>)
    ensures r == Some(true) <==> s in {"1", "t", "T", "TRUE", "true", "True"}
    ensures r == Some(false) <==> s in {"0", "f", "F", "FALSE", "false", "False"}
  {
    if s == "1" || s == "t" || s == "T" || s == "TRUE" || s == "true" || s == "True" then Some(true)
    else if s == "0" || s == "f" || s == "F" || s == "FALSE" || s == "false" || s == "False" then Some(false)
    else None
  }

  /** strconv.FormatBool. */
  function FormatBool(b: bool): string {
    if b then "true" else "false"
  }

  /** Printed booleans parse back to themselves. */
  lemma ParseFormatBool(b: bool)
    ensures ParseBool(FormatBool(b)) == Some(b)
  {
  }

  /** The value `parseSearchType` returns; its Go dynamic type is what TypeName gives. */
  datatype SearchValue =
    | IntValue(i: int)
    | FloatValue(text: string)
    | BoolValue(b: bool)
    | StringValue(s: string)

  /** The type name `parseSearchType` pairs with the value. */
  function TypeName(v: SearchValue): string {
    match v
    case IntValue(_) => "int"
    case FloatValue(_) => "float"
    case BoolValue(_) => "bool"
    case StringValue(_) => "string"
  }

  /** `parseSearchType`: the first of int, float, bool that parses, else the text itself. */
  function ParseSearchType(key: string, isFloat: string -> bool): (v: SearchValue)
    ensures v.IntValue? <==> ParseInt(key).Some?
    ensures v.IntValue? ==> Some(v.i) == ParseInt(key)
    ensures v.FloatValue? <==> ParseInt(key).None? && isFloat(key)
    ensures v.BoolValue? <==> ParseInt(key).None? && !isFloat(key) && ParseBool(key).Some?
    ensures v.BoolValue? ==> Some(v.b) == ParseBool(key)
    ensures v.StringValue? ==> v.s == key
  {
    match ParseInt(key)
    case Some(i) => IntValue(i)
    case None =>
      if isFloat(key) then FloatValue(key)
      else match ParseBool(key)
        case Some(b) => BoolValue(b)
        case None => StringValue(key)
  }

  /** "1" and "0" are read as integers before ParseBool is consulted. */
  lemma OneAndZeroAreIntegers(isFloat: string -> bool)
    ensures ParseSearchType("1", isFloat) == IntValue(1)
    ensures ParseSearchType("0", isFloat) == IntValue(0)
  {
    assert "1"[..0] == "" && "0"[..0] == "";
  }

  /** A printed int64 is always typed "int", whatever ParseFloat would say. */
  lemma PrintedIntegersAreIntegers(n: int, isFloat: string -> bool)
    requires MinInt64 <= n <= MaxInt64
    ensures ParseSearchType(FormatInt(n), isFloat) == IntValue(n)
  {
    ParseFormatInt(n);
  }

  /** A printed boolean is typed "bool", unless ParseFloat takes it. */
  lemma PrintedBooleansAreBooleans(b: bool, isFloat: string -> bool)
    requires !isFloat(FormatBool(b))
    ensures ParseSearchType(FormatBool(b), isFloat) == BoolValue(b)
  {
    assert !IsDigit(FormatBool(b)[0]);
  }
}
