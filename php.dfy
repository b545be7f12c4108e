/** The slice of the PHP runtime that the library's code relies on: dynamic
    values, exceptions, integer printing and parsing, truthiness and the
    byte-wise (locale-independent) case and whitespace functions of PHP 8.

    A PHP string is a byte string; it is modelled as a Dafny `string` whose
    characters stand for bytes. */
module Php {

  datatype Option<+T> = None | Some(value: T)

  /** The exception classes the library throws or lets escape. */
  datatype ExcKind =
    | CallerExc            // QCubed\Exception\Caller
    | InvalidCastExc       // QCubed\Exception\InvalidCast (a Caller)
    | UndefinedPropertyExc // QCubed\Exception\UndefinedProperty (a Caller)
    | UndefinedMethodExc   // QCubed\Exception\UndefinedMethod (a Caller)
    | CryptographyExc      // QCubed\Exception\Cryptography
    | PlainException       // \Exception
    | TypeError            // \TypeError raised by the engine
    | ValueError           // \ValueError raised by a built-in function
    | ConversionError      // \Error: an object without __toString used as a string
    | OutsideModel         // a floating-point result, which this model does not represent

  datatype Exc = Exc(kind: ExcKind, message: string)

  /** The result of a PHP call that either returns or throws. */
  datatype Outcome<+T> = Ok(value: T) | Raise(exc: Exc) {
    predicate IsFailure() { Raise? }
    function PropagateFailure<U>(): Outcome<U>
      requires Raise?
    {
      Raise(exc)
    }
    function Extract(): T
      requires Ok?
    {
      value
    }
  }

  /** An array key: PHP normalises decimal-integer strings to integer keys,
      so a StrKey here is never the canonical text of an integer. */
  datatype Key = IntKey(i: int) | StrKey(s: string)

  datatype Value =
    | Null
    | Bool(b: bool)
    | Int(i: int)
    | Str(s: string)
    | Arr(entries: seq<(Key, Value)>)   // insertion order, distinct keys
    | Obj(obj: Object)
    | Resource(id: nat)

  /** The objects the library's code distinguishes. */
  datatype Object =
    | SimpleXml(xmlText: string)                         // \SimpleXMLElement
    | PhpClosure(closureId: nat)                          // \Closure
    | JsFunc(funcName: string, params: seq<(Key, Value)>, context: Option<string>)    // QCubed\Js\Func (null params as [])
    | JsClosure(body: string, paramNames: Option<seq<string>>)  // QCubed\Js\Closure
    | JsParameterList(items: seq<Value>)                  // QCubed\Js\ParameterList
    | JsNoQuoteKey(keyValue: Value)                       // QCubed\Js\NoQuoteKey
    | JsVarName(varName: string)                          // QCubed\Js\VarName
    | Instance(cls: string, instanceId: nat, toStringText: Option<string>, jsText: Option<string>)
      // any other object: its class, its __toString result (None: no __toString),
      // and its toJsObject() result (None: no toJsObject method)

  function ClassName(o: Object): string
  {
    match o
    case SimpleXml(_) => "SimpleXMLElement"
    case PhpClosure(_) => "Closure"
    case JsFunc(_, _, _) => "QCubed\\Js\\Func"
    case JsClosure(_, _) => "QCubed\\Js\\Closure"
    case JsParameterList(_) => "QCubed\\Js\\ParameterList"
    case JsNoQuoteKey(_) => "QCubed\\Js\\NoQuoteKey"
    case JsVarName(_) => "QCubed\\Js\\VarName"
    case Instance(c, _, _, _) => c
  }

  /** gettype() */
  function TypeName(v: Value): string
  {
    match v
    case Null => "NULL"
    case Bool(_) => "boolean"
    case Int(_) => "integer"
    case Str(_) => "string"
    case Arr(_) => "array"
    case Obj(_) => "object"
    case Resource(_) => "resource"
  }

  // ---------------------------------------------------------------------
  // 64-bit integers

  const MinInt: int := -0x8000_0000_0000_0000
  const MaxInt: int := 0x7FFF_FFFF_FFFF_FFFF

  predicate InIntRange(n: int) { MinInt <= n <= MaxInt }

  function Saturate(n: int): (r: int)
    ensures InIntRange(r)
    ensures InIntRange(n) ==> r == n
  {
    if n < MinInt then MinInt else if n > MaxInt then MaxInt else n
  }

  // ---------------------------------------------------------------------
  // Digits and decimal text

  predicate IsDigit(c: char) { '0' <= c <= '9' }

  predicate AllDigits(s: string) { forall i | 0 <= i < |s| :: IsDigit(s[i]) }

  function DigitChar(d: nat): char
    requires d < 10
  {
    ('0' as int + d) as char
  }

  function DigitVal(c: char): nat
    requires IsDigit(c)
  {
    c as int - '0' as int
  }

  /** The value of a string of decimal digits. */
  function DigitsValue(s: string): nat
    requires AllDigits(s)
  {
    if s == [] then 0 else DigitsValue(s[..|s| - 1]) * 10 + DigitVal(s[|s| - 1])
  }

  /** Decimal text of a natural number, no leading zeros. */
  function NatText(n: nat): (r: string)
    ensures |r| > 0 && AllDigits(r)
    ensures r[0] == '0' ==> n == 0 && r == "0"
  {
    if n < 10 then [DigitChar(n)] else NatText(n / 10) + [DigitChar(n % 10)]
  }

  /** PHP's (string) of an integer. */
  function IntText(n: int): string
  {
    if n < 0 then "-" + NatText(-n) else NatText(n)
  }

  lemma {:induction false} NatTextValue(n: nat)
    ensures DigitsValue(NatText(n)) == n
  {
    if n >= 10 {
      var s := NatText(n);
      assert s[..|s| - 1] == NatText(n / 10);
      NatTextValue(n / 10);
    }
  }

  /** NatText is injective, so equal texts mean equal numbers. */
  lemma NatTextInjective(a: nat, b: nat)
    requires NatText(a) == NatText(b)
    ensures a == b
  {
    NatTextValue(a);
    NatTextValue(b);
  }

  lemma IntTextInjective(a: int, b: int)
    requires IntText(a) == IntText(b)
    ensures a == b
  {
    if a < 0 && b < 0 {
      assert IntText(a)[1..] == NatText(-a);
      assert IntText(b)[1..] == NatText(-b);
      NatTextInjective(-a, -b);
    } else if a >= 0 && b >= 0 {
      NatTextInjective(a, b);
    }
  }

  // ---------------------------------------------------------------------
  // PHP's (int) of a string

  /** The whitespace that is_numeric_string() skips before a number. */
  predicate IsNumericSpace(c: char) { c == ' ' || c == '\t' || c == '\n' || c == '\r' || c == 11 as char || c == 12 as char }

  function SkipLeadingSpace(s: string): (r: string)
    ensures |r| <= |s| && r == s[|s| - |r|..]
    ensures r == [] || !IsNumericSpace(r[0])
  {
    if s != [] && IsNumericSpace(s[0]) then SkipLeadingSpace(s[1..]) else s
  }

  /** Whether a string starts, after the whitespace that numbers may carry,
      with a number: an optional sign and a digit, or a '.' and a digit.
      PHP refuses a string that does not for an int parameter. */
  predicate LeadingNumeric(s: string)
  {
    var t := SkipLeadingSpace(s);
    var u := if t != [] && (t[0] == '+' || t[0] == '-') then t[1..] else t;
    (u != [] && IsDigit(u[0])) || (|u| >= 2 && u[0] == '.' && IsDigit(u[1]))
  }

  /** A digit, or a '-' and a digit, starts a number. */
  lemma StartsWithNumber(s: string)
    requires s != [] && (IsDigit(s[0]) || (|s| > 1 && s[0] == '-' && IsDigit(s[1])))
    ensures LeadingNumeric(s)
  {
    assert SkipLeadingSpace(s) == s;
  }

  /** The number of leading digits. */
  function DigitRun(s: string): (k: nat)
    ensures k <= |s| && AllDigits(s[..k])
    ensures k < |s| ==> !IsDigit(s[k])
  {
    if s != [] && IsDigit(s[0]) then
      1 + DigitRun(s[1..])
    else 0
  }

  /** The value of an optional sign followed by the leading digits. */
  function SignedPrefixValue(t: string): int
  {
    if |t| > 0 && (t[0] == '-' || t[0] == '+') then
      var u := t[1..];
      var d: int := DigitsValue(u[..DigitRun(u)]);
      if t[0] == '-' then -d else d
    else
      DigitsValue(t[..DigitRun(t)])
  }

  /** (int)$s for a PHP 8 string: leading whitespace, an optional sign and the
      leading digits; out-of-range values saturate. Exponent and fraction
      syntax (which goes through a float) is not modelled. */
  function StringToInt(s: string): (r: int)
    ensures InIntRange(r)
  {
    Saturate(SignedPrefixValue(SkipLeadingSpace(s)))
  }

  lemma {:induction false} DigitRunOfDigits(s: string)
    requires AllDigits(s)
    ensures DigitRun(s) == |s|
  {
    if s != [] {
      DigitRunOfDigits(s[1..]);
    }
  }

  /** (int) of a non-empty digit string is its value, capped at 64 bits. */
  lemma DigitsInt(s: string)
    requires AllDigits(s) && s != []
    ensures StringToInt(s) == Saturate(DigitsValue(s))
  {
    calc {
      StringToInt(s);
      { DigitsSkipNoSpace(s); }
      Saturate(SignedPrefixValue(s));
      { DigitsUnsigned(s); }
      Saturate(DigitsValue(s));
    }
  }

  lemma DigitsSkipNoSpace(s: string)
    requires AllDigits(s) && s != []
    ensures SkipLeadingSpace(s) == s
  {
    assert IsDigit(s[0]);
  }

  lemma DigitsUnsigned(s: string)
    requires AllDigits(s) && s != []
    ensures SignedPrefixValue(s) == DigitsValue(s)
  {
    assert IsDigit(s[0]);
    DigitRunOfDigits(s);
    assert s[..|s|] == s;
  }

  lemma NatTextInt(n: nat)
    requires n <= MaxInt
    ensures StringToInt(NatText(n)) == n
  {
    DigitsInt(NatText(n));
    NatTextValue(n);
  }

  lemma NegDigitsValue(t: string)
    requires AllDigits(t)
    ensures SignedPrefixValue("-" + t) == -(DigitsValue(t) as int)
  {
    var s := "-" + t;
    assert s[1..] == t;
    DigitRunOfDigits(t);
    assert t[..|t|] == t;
  }

  lemma NegTextInt(n: nat)
    requires 0 < n <= -MinInt
    ensures StringToInt("-" + NatText(n)) == -(n as int)
  {
    var t := NatText(n);
    assert SkipLeadingSpace("-" + t) == "-" + t;
    NegDigitsValue(t);
    NatTextValue(n);
  }

  /** Printing an in-range integer and converting it back gives the integer. */
  lemma IntTextRoundTrip(n: int)
    requires InIntRange(n)
    ensures StringToInt(IntText(n)) == n
  {
    if n < 0 {
      NegTextInt(-n);
    } else {
      NatTextInt(n);
    }
  }

  // ---------------------------------------------------------------------
  // Numeric strings (is_numeric), syntax only

  /** digits, optional '.', digits: at least one digit in all. */
  predicate IsDecimalMantissa(s: string)
  {
    if exists k | 0 <= k < |s| :: s[k] == '.' then
      exists k | 0 <= k < |s| && s[k] == '.' ::
        AllDigits(s[..k]) && AllDigits(s[k + 1..]) && |s| >= 2
    else
      |s| > 0 && AllDigits(s)
  }

  predicate IsExponent(s: string)
  {
    |s| >= 2 && (s[0] == 'e' || s[0] == 'E') &&
    (if s[1] == '+' || s[1] == '-' then |s| >= 3 && AllDigits(s[2..]) else AllDigits(s[1..]))
  }

  predicate IsUnsignedNumber(s: string)
  {
    IsDecimalMantissa(s) ||
    exists k | 0 < k < |s| :: IsDecimalMantissa(s[..k]) && IsExponent(s[k..])
  }

  /** is_numeric() for a string in PHP 8: optional leading and trailing
      whitespace around an optionally signed decimal or exponent number. */
  predicate IsNumericString(s: string)
  {
    exists i, j | 0 <= i <= j <= |s| :: IsNumberBetween(s, i, j)
  }

  /** s[i..j] is an optionally signed number with only whitespace around it. */
  predicate IsNumberBetween(s: string, i: int, j: int)
    requires 0 <= i <= j <= |s|
  {
    (forall k | 0 <= k < i :: IsNumericSpace(s[k])) &&
    (forall k | j <= k < |s| :: IsNumericSpace(s[k])) &&
    (if i < j && (s[i] == '+' || s[i] == '-') then IsUnsignedNumber(s[i + 1..j]) else IsUnsignedNumber(s[i..j]))
  }

  // ---------------------------------------------------------------------
  // Truthiness and string conversion

  /** PHP's boolean conversion. */
  predicate Truthy(v: Value)
  {
    match v
    case Null => false
    case Bool(b) => b
    case Int(n) => n != 0
    case Str(s) => s != "" && s != "0"
    case Arr(e) => e != []
    case Obj(_) => true
    case Resource(_) => true
  }

  /** PHP's (int) of any value. */
  function ToInt(v: Value): int
  {
    match v
    case Null => 0
    case Bool(b) => if b then 1 else 0
    case Int(n) => n
    case Str(s) => StringToInt(s)
    case Arr(e) => if e == [] then 0 else 1
    case Obj(_) => 1
    case Resource(id) => id
  }

  function KeyText(k: Key): string
  {
    match k
    case IntKey(i) => IntText(i)
    case StrKey(s) => s
  }

  // ---------------------------------------------------------------------
  // Byte-wise case mapping and whitespace (PHP 8 is locale-independent)

  predicate IsUpper(c: char) { 'A' <= c <= 'Z' }
  predicate IsLower(c: char) { 'a' <= c <= 'z' }

  function LowerChar(c: char): (r: char)
    ensures !IsUpper(r)
    ensures !IsUpper(c) ==> r == c
  {
    if IsUpper(c) then (c as int + 32) as char else c
  }

  function UpperChar(c: char): (r: char)
    ensures !IsLower(r)
    ensures !IsLower(c) ==> r == c
  {
    if IsLower(c) then (c as int - 32) as char else c
  }

  /** strtolower() */
  function ToLower(s: string): (r: string)
    ensures |r| == |s|
  {
    if s == [] then [] else [LowerChar(s[0])] + ToLower(s[1..])
  }

  /** strtolower() lower-cases every character in place. */
  lemma {:induction false} ToLowerAt(s: string, i: nat)
    requires i < |s|
    ensures ToLower(s)[i] == LowerChar(s[i])
  {
    if i > 0 {
      ToLowerAt(s[1..], i - 1);
    }
  }

  lemma ToLowerPointwise(s: string)
    ensures forall i | 0 <= i < |s| :: ToLower(s)[i] == LowerChar(s[i])
  {
    forall i | 0 <= i < |s| ensures ToLower(s)[i] == LowerChar(s[i]) {
      ToLowerAt(s, i);
    }
  }

  /** The characters trim() removes by default. */
  predicate IsTrimSpace(c: char) { c == ' ' || c == '\t' || c == '\n' || c == '\r' || c == '\0' || c == 11 as char }

  function TrimLeft(s: string): (r: string)
    ensures |r| <= |s| && r == s[|s| - |r|..]
    ensures r == [] || !IsTrimSpace(r[0])
    ensures forall i | 0 <= i < |s| - |r| :: IsTrimSpace(s[i])
  {
    if s != [] && IsTrimSpace(s[0]) then TrimLeft(s[1..]) else s
  }

  function TrimRight(s: string): (r: string)
    ensures |r| <= |s| && r == s[..|r|]
    ensures r == [] || !IsTrimSpace(r[|r| - 1])
    ensures forall i | |r| <= i < |s| :: IsTrimSpace(s[i])
  {
    if s != [] && IsTrimSpace(s[|s| - 1]) then TrimRight(s[..|s| - 1]) else s
  }

  /** trim() */
  function Trim(s: string): (r: string)
    ensures |r| <= |s|
    ensures r == [] || (!IsTrimSpace(r[0]) && !IsTrimSpace(r[|r| - 1]))
  {
    TrimRight(TrimLeft(s))
  }

}
