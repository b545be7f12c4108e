/** QCubed\Type: the value coercion engine behind Type::cast. */
module TypeCast {
  import opened Php

  const STRING: string := "string"
  const INTEGER: string := "integer"
  const FLOAT: string := "double"
  const BOOLEAN: string := "boolean"
  const OBJECT: string := "object"
  const ARRAY_TYPE: string := "array"
  const DATE_TIME: string := "\\QCubed\\QDateTime"
  const RESOURCE: string := "resource"
  const CALLABLE_TYPE: string := "callable"

  const NO_OP: int := 1
  const CHECK_ONLY: int := 2
  const CAST_ONLY: int := 3
  const CHECK_AND_CAST: int := 4

  /** What the engine asks of the running program: which class names exist
      (ReflectionClass), the instanceof relation, and is_callable. */
  datatype Host = Host(classExists: string -> bool, instanceOf: (Object, string) -> bool, isCallable: Value -> bool)

  /** Which name castValueTo hands to settype(): the type name as the caller
      wrote it (the library as written) or the canonical name the alias
      resolved to (the corrected engine). */
  datatype SettypeName = RawAlias | Canonical

  function InvalidCast(msg: string): Exc { Exc(InvalidCastExc, msg) }

  // ---------------------------------------------------------------------
  // The process-wide behaviour mode

  /** Holds Type::$intBehaviour, the static mode every call of cast reads. */
  class TypeMode {
    var behaviour: int

    constructor()
      ensures behaviour == CHECK_AND_CAST
    {
      behaviour := CHECK_AND_CAST;
    }

    /** setBehaviour: installs the new mode and hands back the one it replaced. */
    method SetBehaviour(mode: int) returns (previous: int)
      modifies this
      ensures behaviour == mode && previous == old(behaviour)
    {
      previous := behaviour;
      behaviour := mode;
    }

    /** Type::cast under the installed mode. */
    method Cast(host: Host, v: Value, t: string) returns (r: Outcome<Value>)
      ensures r == CastIn(behaviour, host, v, t)
    {
      r := CastIn(behaviour, host, v, t);
    }

    /** The save/restore idiom callers use around a cast that must not check:
        switch to NO_OP, cast, put the saved mode back. */
    method CastUnchecked(host: Host, v: Value, t: string) returns (r: Outcome<Value>)
      modifies this
      ensures r == Ok(v)
      ensures behaviour == old(behaviour)
    {
      var saved := SetBehaviour(NO_OP);
      r := Cast(host, v, t);
      var _ := SetBehaviour(saved);
    }
  }

  // ---------------------------------------------------------------------
  // constant() and soapType()

  const ConstantPrefix: string := "QCubed\\Type::"

  /** constant(): the source text of the Type::Xxx constant whose value is t. */
  function Constant(t: string): (r: Outcome<string>)
    ensures r.Ok? <==> t in {OBJECT, STRING, INTEGER, FLOAT, BOOLEAN, ARRAY_TYPE, RESOURCE, DATE_TIME}
    ensures r.Ok? ==> ConstantPrefix <= r.value
    ensures r.Raise? ==> r.exc.kind == InvalidCastExc
  {
    if t == OBJECT then Ok("QCubed\\Type::OBJECT")
    else if t == STRING then Ok("QCubed\\Type::STRING")
    else if t == INTEGER then Ok("QCubed\\Type::INTEGER")
    else if t == FLOAT then Ok("QCubed\\Type::FLOAT")
    else if t == BOOLEAN then Ok("QCubed\\Type::BOOLEAN")
    else if t == ARRAY_TYPE then Ok("QCubed\\Type::ARRAY_TYPE")
    else if t == RESOURCE then Ok("QCubed\\Type::RESOURCE")
    else if t == DATE_TIME then Ok("QCubed\\Type::DATE_TIME")
    else Raise(InvalidCast("Unable to determine a type of item to look up its constant: " + t))
  }

  /** Distinct types have distinct constants. */
  lemma ConstantInjective(a: string, b: string)
    requires Constant(a).Ok? && Constant(a) == Constant(b)
    ensures a == b
  {
  }

  /** soapType(): the XML Schema type name of a scalar Type constant. */
  function SoapType(t: string): (r: Outcome<string>)
    ensures r.Ok? <==> t in {STRING, INTEGER, FLOAT, BOOLEAN, DATE_TIME}
    ensures r.Raise? ==> r.exc.kind == InvalidCastExc
  {
    if t == STRING then Ok("string")
    else if t == INTEGER then Ok("int")
    else if t == FLOAT then Ok("float")
    else if t == BOOLEAN then Ok("boolean")
    else if t == DATE_TIME then Ok("dateTime")
    else Raise(InvalidCast("Unable to determine a type of item to look up its constant: " + t))
  }

  // ---------------------------------------------------------------------
  // typeFromDoc()

  /** The alias table of typeFromDoc, on the lower-cased name. */
  function AliasOf(l: string): Option<string>
  {
    if l == "string" || l == "str" then Some(STRING)
    else if l == "integer" || l == "int" then Some(INTEGER)
    else if l == "float" || l == "flt" || l == "double" || l == "dbl" || l == "single" || l == "decimal" then Some(FLOAT)
    else if l == "bool" || l == "boolean" || l == "bit" then Some(BOOLEAN)
    else if l == "datetime" || l == "date" || l == "time" || l == "qdatetime" then Some(DATE_TIME)
    else if l == "callable" then Some(CALLABLE_TYPE)
    else if l == "null" || l == "void" then Some("void")
    else None
  }

  /** t is, in some letter case, one of the aliases of `target`. */
  predicate IsAliasOf(t: string, target: string)
  {
    AliasOf(ToLower(t)) == Some(target)
  }

  /** typeFromDoc(): resolves a PHPDoc type name, compared without regard to
      letter case, to a Type constant, 'void', or a known class name. */
  function TypeFromDoc(host: Host, t: string): (r: Outcome<string>)
    ensures AliasOf(ToLower(t)).Some? ==> r == Ok(AliasOf(ToLower(t)).value)
    ensures AliasOf(ToLower(t)).None? ==> (r.Ok? <==> host.classExists(t)) && (r.Ok? ==> r.value == t)
    ensures r.Raise? ==> r.exc.kind == InvalidCastExc
  {
    match AliasOf(ToLower(t))
    case Some(target) => Ok(target)
    case None =>
      if host.classExists(t) then Ok(t)
      else Raise(InvalidCast("Unable to determine a type of item from PHPDoc Comment to look up its Type or Class: " + t))
  }

  lemma LowerOfLower(s: string)
    requires forall i | 0 <= i < |s| :: !IsUpper(s[i])
    ensures ToLower(s) == s
  {
  }

  lemma LowerDateTime()
    ensures ToLower("dateTime") == "datetime"
  {
    var s, t := "dateTime", "datetime";
    forall i | 0 <= i < |s| ensures ToLower(s)[i] == t[i] {
      ToLowerAt(s, i);
    }
  }

  lemma ResolvesDateTime(host: Host)
    ensures TypeFromDoc(host, "dateTime") == Ok(DATE_TIME)
  {
    LowerDateTime();
  }

  lemma ResolvesLowerName(host: Host, s: string, target: string)
    requires forall i | 0 <= i < |s| :: !IsUpper(s[i])
    requires AliasOf(s) == Some(target)
    ensures TypeFromDoc(host, s) == Ok(target)
  {
    LowerOfLower(s);
  }

  /** The SOAP name of every scalar type reads back, through typeFromDoc, as
      that type. */
  lemma SoapTypeRoundTrip(host: Host, t: string)
    requires SoapType(t).Ok?
    ensures TypeFromDoc(host, SoapType(t).value) == Ok(t)
  {
    if t == DATE_TIME {
      ResolvesDateTime(host);
    } else if t == STRING {
      ResolvesSoapString(host);
    } else if t == INTEGER {
      ResolvesSoapInt(host);
    } else if t == FLOAT {
      ResolvesSoapFloat(host);
    } else {
      ResolvesSoapBoolean(host);
    }
  }

  lemma ResolvesSoapString(host: Host)
    ensures TypeFromDoc(host, "string") == Ok(STRING)
  {
    ResolvesLowerName(host, "string", STRING);
  }

  lemma ResolvesSoapInt(host: Host)
    ensures TypeFromDoc(host, "int") == Ok(INTEGER)
  {
    ResolvesLowerName(host, "int", INTEGER);
  }

  lemma ResolvesSoapFloat(host: Host)
    ensures TypeFromDoc(host, "float") == Ok(FLOAT)
  {
    ResolvesLowerName(host, "float", FLOAT);
  }

  lemma ResolvesSoapBoolean(host: Host)
    ensures TypeFromDoc(host, "boolean") == Ok(BOOLEAN)
  {
    ResolvesLowerName(host, "boolean", BOOLEAN);
  }

  // ---------------------------------------------------------------------
  // PHP's settype() on the scalar kinds castValueTo hands it

  /** The text (string) gives a scalar. */
  function ScalarText(v: Value): string
  {
    match v
    case Bool(b) => if b then "1" else ""
    case Int(n) => IntText(n)
    case Str(s) => s
    case _ => ""
  }

  /** The conversions settype() knows, on the lower-cased name. */
  datatype SettypeConversion = ConvBool | ConvInt | ConvString | ConvOther | ConvInvalid

  function SettypeConversionOf(l: string): SettypeConversion
  {
    if l == "bool" || l == "boolean" then ConvBool
    else if l == "int" || l == "integer" then ConvInt
    else if l == "string" then ConvString
    else if l == "float" || l == "double" || l == "array" || l == "object" || l == "null" then ConvOther
    else ConvInvalid
  }

  /** settype() on a copy; the type name is compared without regard to case. */
  function SetType(v: Value, name: string): (r: Outcome<Value>)
  {
    match SettypeConversionOf(ToLower(name))
    case ConvBool => Ok(Bool(Truthy(v)))
    case ConvInt => Ok(Int(ToInt(v)))
    case ConvString =>
      if v.Bool? || v.Int? || v.Str? then Ok(Str(ScalarText(v)))
      else Raise(Exc(OutsideModel, "settype() of a non-scalar to string"))
    case ConvOther => Raise(Exc(OutsideModel, "settype() to a type outside the model"))
    case ConvInvalid => Raise(Exc(ValueError, "settype(): Argument #2 ($type) must be a valid type"))
  }

  // ---------------------------------------------------------------------
  // The pieces of cast()

  /** preg_match('/^-?\d+$/', s): PCRE's '$' also matches before a final
      newline. */
  predicate MatchesIntegerPattern(s: string)
  {
    SignedDigits(s) || (|s| > 0 && s[|s| - 1] == '\n' && SignedDigits(s[..|s| - 1]))
  }

  predicate SignedDigits(s: string)
  {
    if |s| > 0 && s[0] == '-' then |s| > 1 && AllDigits(s[1..]) else |s| > 0 && AllDigits(s)
  }

  /** A string of the form -?digits starts with a number. */
  lemma IntegerPatternIsNumeric(s: string)
    requires MatchesIntegerPattern(s)
    ensures LeadingNumeric(s)
  {
    var p := if SignedDigits(s) then s else s[..|s| - 1];
    assert SignedDigits(p) && p[0] == s[0];
    if s[0] == '-' {
      assert p[1..][0] == s[1];
    }
    StartsWithNumber(s);
  }

  function CastFailure(v: Value, t: string): Exc
  {
    InvalidCast("Unable to cast " + TypeName(v) + " value to " + t + ": " + ScalarText(v))
  }

  /** castValueTo, boolean target; `name` is what settype() receives. */
  function ToBoolean(v: Value, name: string): Outcome<Value>
    requires v.Bool? || v.Int? || v.Str?
  {
    if v.Bool? then Ok(v)
    else if |ScalarText(v)| == 0 then Ok(Bool(false))
    else if ToLower(ScalarText(v)) == "false" then Ok(Bool(false))
    else SetType(v, name)
  }

  /** castValueTo, integer target: convert, convert back, compare. */
  function ToInteger(v: Value, t: string, name: string): Outcome<Value>
    requires v.Bool? || v.Int? || v.Str?
  {
    if v.Bool? then Raise(CastFailure(v, t))
    else if |ScalarText(v)| == 0 then Ok(Null)
    else if v.Int? then Ok(v)
    else
      var intItem :- SetType(v, name);
      var test :- SetType(intItem, TypeName(v));
      if ScalarText(test) == v.s then Ok(intItem)
      else if MatchesIntegerPattern(v.s) then Ok(Str(v.s))
      else Raise(CastFailure(v, t))
  }

  /** castValueTo, float target, up to the point where a float comes out. */
  function ToFloat(v: Value, t: string, name: string): Outcome<Value>
    requires v.Bool? || v.Int? || v.Str?
  {
    if v.Bool? then Raise(CastFailure(v, t))
    else if |ScalarText(v)| == 0 then Ok(Null)
    else if v.Str? && !IsNumericString(v.s) then Raise(InvalidCast("Invalid float: " + v.s))
    else
      match SetType(v, name)
      case Raise(e) => Raise(e)
      case Ok(_) => Raise(Exc(OutsideModel, "float result"))
  }

  /** castValueTo, string target: convert, convert back, compare. */
  function ToStringTarget(v: Value, t: string, name: string): Outcome<Value>
    requires v.Bool? || v.Int? || v.Str?
  {
    if v.Str? then Ok(v)
    else
      var strItem :- SetType(v, name);
      var test :- SetType(strItem, TypeName(v));
      if test != v then Raise(CastFailure(v, t))
      else Ok(strItem)
  }

  /** castValueTo(): the scalar kinds, dispatched on the resolved type. */
  function CastValueTo(host: Host, v: Value, t: string, naming: SettypeName): (r: Outcome<Value>)
    requires v.Bool? || v.Int? || v.Str?
  {
    var target :- TypeFromDoc(host, t);
    CastToTarget(host, v, t, target, if naming == Canonical then target else t)
  }

  /** The switch of castValueTo on the resolved type `target`; `name` is what
      settype() receives. */
  function CastToTarget(host: Host, v: Value, t: string, target: string, name: string): (r: Outcome<Value>)
    requires v.Bool? || v.Int? || v.Str?
  {
    if target == BOOLEAN then ToBoolean(v, name)
    else if target == INTEGER then ToInteger(v, t, name)
    else if target == FLOAT then ToFloat(v, t, name)
    else if target == STRING then ToStringTarget(v, t, name)
    else if target == CALLABLE_TYPE then
      if host.isCallable(v) then Ok(v)
      else Raise(InvalidCast("Unable to cast " + TypeName(v) + " value to callable"))
    else Raise(InvalidCast("Unable to cast " + TypeName(v) + " value to unknown type " + t))
  }

  /** (string) of an object: its __toString text, if it has one. */
  function ObjectText(o: Object): Option<string>
  {
    match o
    case SimpleXml(text) => Some(text)
    case Instance(_, _, text, _) => text
    case _ => None
  }

  function CastObjectTo(host: Host, o: Object, t: string, naming: SettypeName): (r: Outcome<Value>)
    ensures !o.SimpleXml? && !(o.PhpClosure? && t == CALLABLE_TYPE) && host.instanceOf(o, t) ==> r == Ok(Obj(o))
    ensures o.PhpClosure? && t == CALLABLE_TYPE ==> r.Raise? && r.exc.kind == InvalidCastExc
    ensures o.SimpleXml? && t == STRING ==> r == Ok(Str(o.xmlText))
    ensures r.Ok? && !o.SimpleXml? ==> r.value == Obj(o) || r.value.Str?
    ensures r.Raise? ==> r.exc.kind in {InvalidCastExc, ConversionError}
  {
    var failure := Raise(InvalidCast("Unable to cast " + ClassName(o) + " object to " + t));
    if o.SimpleXml? && t == STRING then Ok(Str(o.xmlText))
    else if o.SimpleXml? && t == INTEGER then
      // the nested Type::cast runs in CHECK_AND_CAST mode; whatever it
      // throws is caught and replaced by the generic message
      match CastValueTo(host, Str(o.xmlText), INTEGER, naming)
      case Ok(x) => Ok(x)
      case Raise(_) => failure
    else if o.SimpleXml? && t == BOOLEAN then
      var item := ToLower(Trim(o.xmlText));
      Ok(Bool(!(item == "false" || !Truthy(Str(item)))))
    else if o.PhpClosure? && t == CALLABLE_TYPE then failure
    else if host.instanceOf(o, t) then Ok(Obj(o))
    else if t == STRING then
      match ObjectText(o)
      case Some(text) => Ok(Str(text))
      case None => Raise(Exc(ConversionError, "Object of class " + ClassName(o) + " could not be converted to string"))
    else failure
  }

  function CastArrayTo(host: Host, a: Value, t: string): (r: Outcome<Value>)
    requires a.Arr?
    ensures r.Ok? <==> t == ARRAY_TYPE || (t == CALLABLE_TYPE && host.isCallable(a))
    ensures r.Ok? ==> r.value == a
    ensures r.Raise? ==> r.exc.kind == InvalidCastExc
  {
    if t == ARRAY_TYPE then Ok(a)
    else if t == CALLABLE_TYPE && host.isCallable(a) then Ok(a)
    else Raise(InvalidCast("Unable to cast Array to " + t))
  }

  /** Type::cast under a given behaviour mode. */
  function CastWith(naming: SettypeName, mode: int, host: Host, v: Value, t: string): (r: Outcome<Value>)
    ensures mode == NO_OP ==> r == Ok(v)
    ensures mode == CAST_ONLY || mode == CHECK_ONLY ==> r.Raise? && r.exc.kind == CallerExc
    ensures mode !in {NO_OP, CHECK_ONLY, CAST_ONLY, CHECK_AND_CAST} ==> r.Raise? && r.exc.kind == PlainException
    ensures mode == CHECK_AND_CAST && v == Null ==> r == Ok(Null)
    ensures mode == CHECK_AND_CAST && v.Resource? ==> r.Raise? && r.exc.kind == InvalidCastExc
  {
    if mode == NO_OP then Ok(v)
    else if mode == CAST_ONLY then Raise(Exc(CallerExc, "Type::CAST_ONLY handling not yet implemented"))
    else if mode == CHECK_ONLY then Raise(Exc(CallerExc, "Type::CHECK_ONLY handling not yet implemented"))
    else if mode != CHECK_AND_CAST then Raise(Exc(PlainException, "Unknown Type behavior"))
    else
      match v
      case Null => Ok(Null)
      case Obj(o) => CastObjectTo(host, o, t, naming)
      case Bool(_) => CastValueTo(host, v, t, naming)
      case Int(_) => CastValueTo(host, v, t, naming)
      case Str(_) => CastValueTo(host, v, t, naming)
      case Arr(_) => CastArrayTo(host, v, t)
      case Resource(_) => Raise(InvalidCast("Resources cannot be cast"))
  }

  /** Type::cast with settype() given the canonical type name; the rest of the
      model uses this one. */
  function CastIn(mode: int, host: Host, v: Value, t: string): Outcome<Value>
  {
    CastWith(Canonical, mode, host, v, t)
  }

  /** Type::cast as written, with settype() given the caller's alias. */
  function CastAsWritten(mode: int, host: Host, v: Value, t: string): Outcome<Value>
  {
    CastWith(RawAlias, mode, host, v, t)
  }

  /** Type::cast in the default CHECK_AND_CAST mode. */
  function Cast(host: Host, v: Value, t: string): Outcome<Value>
  {
    CastIn(CHECK_AND_CAST, host, v, t)
  }

  // ---------------------------------------------------------------------
  // Properties of cast

  /** How typeFromDoc resolves each name; with the canonical settype name the
      corrected engine then dispatches to the matching target. */
  lemma Resolves(host: Host, t: string, target: string)
    requires IsAliasOf(t, target)
    ensures TypeFromDoc(host, t) == Ok(target)
  {
  }

  lemma SetTypeInteger(v: Value)
    ensures SetType(v, INTEGER) == Ok(Int(ToInt(v)))
  {
    IntegerConversion();
  }

  lemma SetTypeBoolean(v: Value)
    ensures SetType(v, BOOLEAN) == Ok(Bool(Truthy(v)))
  {
    BooleanConversion();
  }

  lemma SetTypeString(v: Value)
    requires v.Bool? || v.Int? || v.Str?
    ensures SetType(v, STRING) == Ok(Str(ScalarText(v)))
  {
    StringConversion();
  }

  predicate IsIntegerName(t: string) { IsAliasOf(t, INTEGER) }

  lemma IntegerDispatch(host: Host, v: Value, t: string)
    requires v.Bool? || v.Int? || v.Str?
    requires IsIntegerName(t)
    ensures Cast(host, v, t) == ToInteger(v, t, INTEGER)
  {
    Resolves(host, t, INTEGER);
  }

  /** s is exactly how PHP prints some 64-bit integer. */
  ghost predicate IsCanonicalInt(s: string)
  {
    exists n | InIntRange(n) :: IntText(n) == s
  }

  lemma CanonicalIntValue(s: string, n: int)
    requires InIntRange(n) && IntText(n) == s
    ensures StringToInt(s) == n
  {
    IntTextRoundTrip(n);
  }

  lemma ToIntegerStringValue(s: string, t: string)
    requires s != ""
    ensures ToInteger(Str(s), t, INTEGER) ==
      if IntText(StringToInt(s)) == s then Ok(Int(StringToInt(s)))
      else if MatchesIntegerPattern(s) then Ok(Str(s))
      else Raise(CastFailure(Str(s), t))
  {
    ToIntegerSteps(s, t, StringToInt(s));
  }

  /** The convert-and-compare step of the integer target, given the two
      settype() results. */
  lemma ToIntegerSteps(s: string, t: string, k: int)
    requires s != ""
    requires ToInt(Str(s)) == k
    ensures ToInteger(Str(s), t, INTEGER) ==
      if IntText(k) == s then Ok(Int(k))
      else if MatchesIntegerPattern(s) then Ok(Str(s))
      else Raise(CastFailure(Str(s), t))
  {
    SetTypeInteger(Str(s));
    SetTypeString(Int(k));
    assert TypeName(Str(s)) == STRING;
  }

  /** The integer target's string rule, on the convert-and-compare step. */
  lemma {:induction false} ToIntegerString(s: string, t: string)
    requires s != ""
    ensures var r := ToInteger(Str(s), t, INTEGER);
      && (r.Ok? && r.value.Int? <==> IsCanonicalInt(s))
      && (r.Ok? && r.value.Int? ==> IntText(r.value.i) == s)
      && (r.Ok? && !r.value.Int? <==> !IsCanonicalInt(s) && MatchesIntegerPattern(s))
      && (r.Ok? && !r.value.Int? ==> r.value == Str(s))
      && (r.Raise? ==> r.exc.kind == InvalidCastExc)
  {
    var n := StringToInt(s);
    ToIntegerStringValue(s, t);
    if IntText(n) == s {
      assert IsCanonicalInt(s);
    } else if IsCanonicalInt(s) {
      var m :| InIntRange(m) && IntText(m) == s;
      CanonicalIntValue(s, m);
    }
  }

  /** The integer target's string rule: a string that is the printed form of
      an int gives that int; otherwise a string of the form -?digits (leading
      zeros, overflow) comes back as itself; anything else is refused. */
  lemma IntegerTargetString(host: Host, s: string, t: string)
    requires IsIntegerName(t) && s != ""
    ensures var r := Cast(host, Str(s), t);
      && (r.Ok? && r.value.Int? <==> IsCanonicalInt(s))
      && (r.Ok? && r.value.Int? ==> IntText(r.value.i) == s)
      && (r.Ok? && !r.value.Int? <==> !IsCanonicalInt(s) && MatchesIntegerPattern(s))
      && (r.Ok? && !r.value.Int? ==> r.value == Str(s))
      && (r.Raise? ==> r.exc.kind == InvalidCastExc)
  {
    IntegerDispatch(host, Str(s), t);
    ToIntegerString(s, t);
  }

  /** The guards of the integer target. */
  lemma IntegerTargetGuards(host: Host, t: string, b: bool, n: int)
    requires IsIntegerName(t)
    ensures Cast(host, Bool(b), t).Raise? && Cast(host, Bool(b), t).exc.kind == InvalidCastExc
    ensures Cast(host, Str(""), t) == Ok(Null)
    ensures Cast(host, Int(n), t) == Ok(Int(n))
  {
    IntegerDispatch(host, Bool(b), t);
    IntegerDispatch(host, Str(""), t);
    IntegerDispatch(host, Int(n), t);
    NonEmptyIntText(n);
  }

  lemma NonEmptyIntText(n: int)
    ensures IntText(n) != ""
  {
  }

  lemma NoLeadingZero(n: int)
    ensures IntText(n) != "007" && IntText(n) != "-0"
  {
    if n < 0 {
      assert IntText(n)[1..] == NatText(-n);
    }
  }

  lemma NotDigitsText(n: int, s: string, k: nat)
    requires k < |s| && !IsDigit(s[k]) && s[k] != '-'
    ensures IntText(n) != s
  {
  }

  /** Worked cases of the integer target: leading zeros and a negative zero
      come back as the original string; trailing letters and leading blanks
      are refused. */
  lemma IntegerLeadingZeros(host: Host)
    ensures Cast(host, Str("007"), INTEGER) == Ok(Str("007"))
  {
    forall n | InIntRange(n) ensures IntText(n) != "007" {
      NoLeadingZero(n);
    }
    assert MatchesIntegerPattern("007");
    IntegerTargetString(host, "007", INTEGER);
  }

  lemma IntegerNegativeZero(host: Host)
    ensures Cast(host, Str("-0"), INTEGER) == Ok(Str("-0"))
  {
    forall n | InIntRange(n) ensures IntText(n) != "-0" {
      NoLeadingZero(n);
    }
    assert MatchesIntegerPattern("-0") by {
      assert "-0"[1..] == "0";
    }
    IntegerTargetString(host, "-0", INTEGER);
  }

  lemma IntegerTrailingLetters(host: Host)
    ensures Cast(host, Str("12abc"), INTEGER).Raise?
  {
    forall n | InIntRange(n) ensures IntText(n) != "12abc" {
      NotDigitsText(n, "12abc", 2);
    }
    assert !MatchesIntegerPattern("12abc") by {
      assert !IsDigit("12abc"[2]);
      assert !IsDigit("12abc"[..4][2]);
    }
    IntegerTargetString(host, "12abc", INTEGER);
  }

  lemma IntegerLeadingBlank(host: Host)
    ensures Cast(host, Str(" 12"), INTEGER).Raise?
  {
    var s := " 12";
    forall n | InIntRange(n) ensures IntText(n) != s {
      NotDigitsText(n, s, 0);
    }
    NoIntegerPatternAt(s, 0);
    IntegerRefused(host, s);
  }

  /** A character that is neither a digit, a sign nor the final newline keeps
      a string from matching the integer pattern. */
  lemma NoIntegerPatternAt(s: string, k: nat)
    requires k < |s| - 1 && !IsDigit(s[k]) && s[k] != '-'
    ensures !MatchesIntegerPattern(s)
  {
    var u := s[..|s| - 1];
    assert u[k] == s[k];
    if |s| > 0 && s[0] == '-' {
      assert s[1..][k - 1] == s[k];
    }
    if |u| > 0 && u[0] == '-' {
      assert u[1..][k - 1] == u[k];
    }
  }

  /** The integer target refuses a string that is neither canonical nor
      matches the pattern. */
  lemma IntegerRefused(host: Host, s: string)
    requires s != "" && !MatchesIntegerPattern(s)
    requires forall n | InIntRange(n) :: IntText(n) != s
    ensures Cast(host, Str(s), INTEGER).Raise?
  {
    IntegerTargetString(host, s, INTEGER);
  }

  /** What the boolean target makes of a scalar: PHP truthiness, except that
      "false" in any letter case is false too. */
  predicate BooleanReading(v: Value)
    requires v.Bool? || v.Int? || v.Str?
  {
    match v
    case Bool(b) => b
    case Int(n) => n != 0
    case Str(s) => s != "" && s != "0" && ToLower(s) != "false"
  }

  lemma IntTextShape(n: int)
    ensures n != 0 ==> IntText(n) != "0"
    ensures IntText(n) != ""
    ensures ToLower(IntText(n)) != "false"
  {
    var s := IntText(n);
    assert IsDigit(s[|s| - 1]) by {
      if n < 0 {
        assert s[1..] == NatText(-n);
        assert s[|s| - 1] == NatText(-n)[|s| - 2];
      }
    }
    ToLowerAt(s, |s| - 1);
    if n < 0 {
      assert s[0] == '-';
    }
  }

  lemma ToBooleanReading(v: Value)
    requires v.Bool? || v.Int? || v.Str?
    ensures ToBoolean(v, BOOLEAN) == Ok(Bool(BooleanReading(v)))
  {
    SetTypeBoolean(v);
    if v.Int? {
      IntTextShape(v.i);
    }
  }

  /** Boolean target: booleans stay, "" and "false" in any case give false,
      otherwise PHP truthiness. */
  lemma BooleanTarget(host: Host, v: Value, t: string)
    requires v.Bool? || v.Int? || v.Str?
    requires IsAliasOf(t, BOOLEAN)
    ensures Cast(host, v, t) == Ok(Bool(BooleanReading(v)))
  {
    Resolves(host, t, BOOLEAN);
    ToBooleanReading(v);
  }

  lemma ToStringReading(v: Value, t: string)
    requires v.Str? || v.Bool? || (v.Int? && InIntRange(v.i))
    ensures ToStringTarget(v, t, STRING) == Ok(Str(ScalarText(v)))
  {
    if v.Int? {
      IntToStringReading(v.i, t);
    } else if v.Bool? {
      BoolToStringReading(v.b, t);
    }
  }

  lemma IntToStringReading(n: int, t: string)
    requires InIntRange(n)
    ensures ToStringTarget(Int(n), t, STRING) == Ok(Str(IntText(n)))
  {
    SetTypeString(Int(n));
    IntTextSetType(n);
    assert TypeName(Int(n)) == INTEGER;
  }

  lemma IntTextSetType(n: int)
    requires InIntRange(n)
    ensures SetType(Str(IntText(n)), INTEGER) == Ok(Int(n))
  {
    IntTextRoundTrip(n);
    SetTypeIntOf(IntText(n), n);
  }

  lemma SetTypeIntOf(s: string, k: int)
    requires StringToInt(s) == k
    ensures SetType(Str(s), INTEGER) == Ok(Int(k))
  {
    SetTypeInteger(Str(s));
  }

  lemma BoolToStringReading(b: bool, t: string)
    ensures ToStringTarget(Bool(b), t, STRING) == Ok(Str(if b then "1" else ""))
  {
    var text := if b then "1" else "";
    SetTypeString(Bool(b));
    assert Truthy(Str(text)) == b;
    SetTypeBoolean(Str(text));
    BoolRoundTrip(b, text, t);
  }

  lemma BoolRoundTrip(b: bool, text: string, t: string)
    requires SetType(Bool(b), STRING) == Ok(Str(text))
    requires SetType(Str(text), BOOLEAN) == Ok(Bool(b))
    ensures ToStringTarget(Bool(b), t, STRING) == Ok(Str(text))
  {
    assert TypeName(Bool(b)) == BOOLEAN;
  }

  /** String target: strings stay, an int becomes its decimal text, true
      becomes "1" and false "". */
  lemma StringTarget(host: Host, v: Value, t: string)
    requires v.Str? || v.Bool? || (v.Int? && InIntRange(v.i))
    requires IsAliasOf(t, STRING)
    ensures Cast(host, v, t) == Ok(Str(ScalarText(v)))
  {
    Resolves(host, t, STRING);
    ToStringReading(v, t);
  }

  /** Arrays, resources and objects. */
  lemma NonScalarTargets(host: Host, e: seq<(Key, Value)>, id: nat, o: Object, t: string)
    ensures Cast(host, Arr(e), t).Ok? <==> t == ARRAY_TYPE || (t == CALLABLE_TYPE && host.isCallable(Arr(e)))
    ensures Cast(host, Arr(e), t).Ok? ==> Cast(host, Arr(e), t).value == Arr(e)
    ensures Cast(host, Resource(id), t).Raise?
    ensures o.PhpClosure? ==> Cast(host, Obj(o), CALLABLE_TYPE).Raise?
    ensures !o.SimpleXml? && !o.PhpClosure? && host.instanceOf(o, t) ==> Cast(host, Obj(o), t) == Ok(Obj(o))
  {
  }

  // ---------------------------------------------------------------------
  // The settype() alias defect

  /** The aliases of a settype()-backed target that settype() itself does not
      know: 'bit', 'str', 'flt', 'dbl', 'single' and 'decimal'. */
  predicate IsSettypeRejectedAlias(t: string)
  {
    AliasOf(ToLower(t)) in {Some(BOOLEAN), Some(STRING), Some(FLOAT)} && SettypeConversionOf(ToLower(t)) == ConvInvalid
  }

  lemma SetTypeRejects(v: Value, name: string)
    requires IsSettypeRejectedAlias(name)
    ensures SetType(v, name).Raise? && SetType(v, name).exc.kind == ValueError
  {
  }

  lemma AsWrittenBitFails(host: Host)
    ensures CastAsWritten(CHECK_AND_CAST, host, Int(1), "bit").Raise?
    ensures CastAsWritten(CHECK_AND_CAST, host, Int(1), "bit").exc.kind == ValueError
  {
    ResolvesLowerName(host, "bit", BOOLEAN);
    IntTextShape(1);
    SetTypeRejects(Int(1), "bit");
  }

  lemma AsWrittenStrFails(host: Host)
    ensures CastAsWritten(CHECK_AND_CAST, host, Int(5), "str").Raise?
    ensures CastAsWritten(CHECK_AND_CAST, host, Int(5), "str").exc.kind == ValueError
  {
    ResolvesLowerName(host, "str", STRING);
    SetTypeRejects(Int(5), "str");
  }

  /** Corrected, the documented aliases work: the int 1 cast to 'bit' is
      true and the int 5 cast to 'str' is "5". */
  lemma CorrectedBit(host: Host)
    ensures Cast(host, Int(1), "bit") == Ok(Bool(true))
  {
    LowerOfLower("bit");
    BooleanTarget(host, Int(1), "bit");
  }

  lemma CorrectedStr(host: Host)
    ensures Cast(host, Int(5), "str") == Ok(Str("5"))
  {
    LowerOfLower("str");
    StringTarget(host, Int(5), "str");
  }

  lemma IntegerAliasConversion(l: string)
    requires AliasOf(l) == Some(INTEGER)
    ensures SettypeConversionOf(l) == ConvInt
  {
  }

  lemma FloatAliasConversion(l: string)
    requires AliasOf(l) == Some(FLOAT) && SettypeConversionOf(l) != ConvInvalid
    ensures SettypeConversionOf(l) == ConvOther
  {
  }

  lemma BooleanAliasConversion(l: string)
    requires AliasOf(l) == Some(BOOLEAN) && SettypeConversionOf(l) != ConvInvalid
    ensures SettypeConversionOf(l) == ConvBool
  {
  }

  lemma StringAliasConversion(l: string)
    requires AliasOf(l) == Some(STRING) && SettypeConversionOf(l) != ConvInvalid
    ensures SettypeConversionOf(l) == ConvString
  {
  }

  lemma SetTypeSameConversion(v: Value, a: string, b: string)
    requires SettypeConversionOf(ToLower(a)) == SettypeConversionOf(ToLower(b))
    ensures SetType(v, a) == SetType(v, b)
  {
  }

  /** settype() compares names without regard to case, so every alias of a
      settype()-backed target other than the rejected ones names that
      target's canonical type to settype(). */
  lemma SetTypeAlias(v: Value, t: string, target: string)
    requires target in {STRING, INTEGER, FLOAT, BOOLEAN} && IsAliasOf(t, target)
    requires !IsSettypeRejectedAlias(t)
    ensures SetType(v, t) == SetType(v, target)
  {
    var l := ToLower(t);
    if target == INTEGER {
      IntegerAliasConversion(l);
      IntegerConversion();
      SetTypeSameConversion(v, t, INTEGER);
    } else if target == FLOAT {
      FloatAliasConversion(l);
      FloatConversion();
      SetTypeSameConversion(v, t, FLOAT);
    } else if target == BOOLEAN {
      BooleanAliasConversion(l);
      BooleanConversion();
      SetTypeSameConversion(v, t, BOOLEAN);
    } else {
      StringAliasConversion(l);
      StringConversion();
      SetTypeSameConversion(v, t, STRING);
    }
  }

  /** What settype() makes of the canonical names. */
  lemma IntegerConversion()
    ensures SettypeConversionOf(ToLower(INTEGER)) == ConvInt
  {
    LowerOfLower(INTEGER);
  }

  lemma FloatConversion()
    ensures SettypeConversionOf(ToLower(FLOAT)) == ConvOther
  {
    LowerOfLower(FLOAT);
  }

  lemma BooleanConversion()
    ensures SettypeConversionOf(ToLower(BOOLEAN)) == ConvBool
  {
    LowerOfLower(BOOLEAN);
  }

  lemma StringConversion()
    ensures SettypeConversionOf(ToLower(STRING)) == ConvString
  {
    LowerOfLower(STRING);
  }

  /** The scalar step differs between the two engines only in the name
      settype() is given. */
  lemma CastValueToAgrees(host: Host, v: Value, t: string)
    requires v.Bool? || v.Int? || v.Str?
    requires !IsSettypeRejectedAlias(t)
    ensures CastValueTo(host, v, t, RawAlias) == CastValueTo(host, v, t, Canonical)
  {
    match TypeFromDoc(host, t)
    case Raise(_) =>
    case Ok(target) =>
      CastValueToTarget(host, v, t, target);
      if target !in {STRING, INTEGER, FLOAT, BOOLEAN} {
        NameIrrelevant(host, v, t, target, t, target);
      } else if IsAliasOf(t, target) {
        SetTypeAlias(v, t, target);
        SameSettypeResult(host, v, t, target, t, target);
      } else {
        assert t == target;
      }
  }

  lemma CastValueToTarget(host: Host, v: Value, t: string, target: string)
    requires v.Bool? || v.Int? || v.Str?
    requires TypeFromDoc(host, t) == Ok(target)
    ensures CastValueTo(host, v, t, RawAlias) == CastToTarget(host, v, t, target, t)
    ensures CastValueTo(host, v, t, Canonical) == CastToTarget(host, v, t, target, target)
  {
  }

  /** Outside the settype()-backed targets the name is never used. */
  lemma NameIrrelevant(host: Host, v: Value, t: string, target: string, a: string, b: string)
    requires v.Bool? || v.Int? || v.Str?
    requires target !in {STRING, INTEGER, FLOAT, BOOLEAN}
    ensures CastToTarget(host, v, t, target, a) == CastToTarget(host, v, t, target, b)
  {
  }

  lemma SameSettypeResult(host: Host, v: Value, t: string, target: string, a: string, b: string)
    requires v.Bool? || v.Int? || v.Str?
    requires SetType(v, a) == SetType(v, b)
    ensures CastToTarget(host, v, t, target, a) == CastToTarget(host, v, t, target, b)
  {
    if target == BOOLEAN {
      assert ToBoolean(v, a) == ToBoolean(v, b);
    } else if target == INTEGER {
      SameSettypeInteger(v, t, a, b);
    } else if target == FLOAT {
      assert ToFloat(v, t, a) == ToFloat(v, t, b);
    } else if target == STRING {
      SameSettypeString(v, t, a, b);
    }
  }

  lemma SameSettypeInteger(v: Value, t: string, a: string, b: string)
    requires v.Bool? || v.Int? || v.Str?
    requires SetType(v, a) == SetType(v, b)
    ensures ToInteger(v, t, a) == ToInteger(v, t, b)
  {
  }

  lemma SameSettypeString(v: Value, t: string, a: string, b: string)
    requires v.Bool? || v.Int? || v.Str?
    requires SetType(v, a) == SetType(v, b)
    ensures ToStringTarget(v, t, a) == ToStringTarget(v, t, b)
  {
  }

  /** For every other name the two engines agree, so the defect is confined
      to those six aliases. */
  lemma AsWrittenAgreesElsewhere(mode: int, host: Host, v: Value, t: string)
    requires !IsSettypeRejectedAlias(t)
    ensures CastAsWritten(mode, host, v, t) == CastIn(mode, host, v, t)
  {
    if mode == CHECK_AND_CAST {
      if v.Bool? || v.Int? || v.Str? {
        CastValueToAgrees(host, v, t);
      } else if v.Obj? && v.obj.SimpleXml? && t == INTEGER {
        LowerOfLower(INTEGER);
        CastValueToAgrees(host, Str(v.obj.xmlText), INTEGER);
      }
    }
  }
}
