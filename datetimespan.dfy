/** QCubed\DateTimeSpan: a signed number of seconds, with unit-scaled
    adders, a greedy split into years/months/days/hours/minutes/seconds,
    whole-unit getters that truncate toward zero, and a one-phrase display. */
module Span {
  import opened Php
  import opened I18n
  import TypeCast
  import ObjectBase

  const SECONDS_PER_YEAR: int := 31556926
  const SECONDS_PER_MONTH: int := 2592000
  const SECONDS_PER_DAY: int := 86400
  const SECONDS_PER_HOUR: int := 3600
  const SECONDS_PER_MINUTE: int := 60

  const CLASS_NAME: string := "QCubed\\DateTimeSpan"

  function Abs(n: int): nat { if n < 0 then -n else n }

  // ---------------------------------------------------------------------
  // The time array

  /** The array getTimearray() returns. */
  datatype TimeArray = TimeArray(years: int, months: int, days: int, hours: int, minutes: int, seconds: int)

  /** The number of seconds a time array stands for. */
  function Weighted(t: TimeArray): int
  {
    t.years * SECONDS_PER_YEAR + t.months * SECONDS_PER_MONTH + t.days * SECONDS_PER_DAY
      + t.hours * SECONDS_PER_HOUR + t.minutes * SECONDS_PER_MINUTE + t.seconds
  }

  function BelowYear(t: TimeArray): int
  {
    t.months * SECONDS_PER_MONTH + t.days * SECONDS_PER_DAY
      + t.hours * SECONDS_PER_HOUR + t.minutes * SECONDS_PER_MINUTE + t.seconds
  }

  /** A split in which no unit could take more: every part non-negative, the
      part below a year less than a year, and days, hours, minutes and seconds
      below the next unit. */
  predicate Greedy(t: TimeArray)
  {
    && t.years >= 0 && t.months >= 0 && t.days >= 0 && t.hours >= 0 && t.minutes >= 0 && t.seconds >= 0
    && BelowYear(t) < SECONDS_PER_YEAR
    && t.days < 30 && t.hours < 24 && t.minutes < 60 && t.seconds < 60
  }

  function Negate(t: TimeArray): TimeArray
  {
    TimeArray(-t.years, -t.months, -t.days, -t.hours, -t.minutes, -t.seconds)
  }

  /** The split of s, as a reference independent of getTimearray's running
      remainder: quotients and remainders of |s|, negated for a negative s. */
  function Decompose(s: int): TimeArray
  {
    var a := Abs(s);
    var m := TimeArray(a / SECONDS_PER_YEAR,
                       a % SECONDS_PER_YEAR / SECONDS_PER_MONTH,
                       a % SECONDS_PER_YEAR % SECONDS_PER_MONTH / SECONDS_PER_DAY,
                       a % SECONDS_PER_YEAR % SECONDS_PER_MONTH % SECONDS_PER_DAY / SECONDS_PER_HOUR,
                       a % SECONDS_PER_YEAR % SECONDS_PER_MONTH % SECONDS_PER_DAY % SECONDS_PER_HOUR / SECONDS_PER_MINUTE,
                       a % SECONDS_PER_YEAR % SECONDS_PER_MONTH % SECONDS_PER_DAY % SECONDS_PER_HOUR % SECONDS_PER_MINUTE);
    if s < 0 then Negate(m) else m
  }

  /** The magnitude of the split is greedy and recomposes |s|; a negative
      span has every part negated. */
  lemma DecomposeRecomposes(s: int)
    ensures s >= 0 ==> Greedy(Decompose(s)) && Weighted(Decompose(s)) == s
    ensures s < 0 ==> Greedy(Negate(Decompose(s))) && Weighted(Negate(Decompose(s))) == -s
  {
    var a := Abs(s);
    var m := if s < 0 then Negate(Decompose(s)) else Decompose(s);
    assert m.years == a / SECONDS_PER_YEAR;
    var r1 := a % SECONDS_PER_YEAR;
    var r2 := r1 % SECONDS_PER_MONTH;
    var r3 := r2 % SECONDS_PER_DAY;
    var r4 := r3 % SECONDS_PER_HOUR;
    assert r1 == m.months * SECONDS_PER_MONTH + r2;
    assert r2 == m.days * SECONDS_PER_DAY + r3;
    assert r3 == m.hours * SECONDS_PER_HOUR + r4;
    assert r4 == m.minutes * SECONDS_PER_MINUTE + m.seconds;
    assert BelowYear(m) == r1;
    assert m.days < 30 && m.hours < 24 && m.minutes < 60;
  }

  /** A greedy split of a number is unique. */
  lemma GreedyUnique(t: TimeArray, u: TimeArray)
    requires Greedy(t) && Greedy(u) && Weighted(t) == Weighted(u)
    ensures t == u
  {
    SameQuotient(t.years, BelowYear(t), u.years, BelowYear(u), SECONDS_PER_YEAR);
    SameQuotient(t.months, t.days * SECONDS_PER_DAY + t.hours * SECONDS_PER_HOUR + t.minutes * 60 + t.seconds,
                 u.months, u.days * SECONDS_PER_DAY + u.hours * SECONDS_PER_HOUR + u.minutes * 60 + u.seconds,
                 SECONDS_PER_MONTH);
    SameQuotient(t.days, t.hours * SECONDS_PER_HOUR + t.minutes * 60 + t.seconds,
                 u.days, u.hours * SECONDS_PER_HOUR + u.minutes * 60 + u.seconds, SECONDS_PER_DAY);
    SameQuotient(t.hours, t.minutes * 60 + t.seconds, u.hours, u.minutes * 60 + u.seconds, SECONDS_PER_HOUR);
    SameQuotient(t.minutes, t.seconds, u.minutes, u.seconds, 60);
  }

  lemma SameQuotient(q1: int, r1: int, q2: int, r2: int, d: int)
    requires d > 0 && 0 <= r1 < d && 0 <= r2 < d && q1 >= 0 && q2 >= 0
    requires q1 * d + r1 == q2 * d + r2
    ensures q1 == q2 && r1 == r2
  {
    if q1 < q2 {
      MulAtLeast(q2 - q1, d);
    } else if q2 < q1 {
      MulAtLeast(q1 - q2, d);
    }
  }

  lemma {:induction false} MulAtLeast(k: int, d: int)
    requires k >= 1 && d >= 0
    ensures k * d >= d
    decreases k
  {
    if k > 1 {
      MulAtLeast(k - 1, d);
      assert k * d == (k - 1) * d + d;
    }
  }

  /** So Decompose gives the only greedy split: the one getTimearray must
      produce. */
  lemma DecomposeIsTheGreedySplit(s: int, t: TimeArray)
    requires Greedy(t) && Weighted(t) == Abs(s)
    ensures Decompose(s) == if s < 0 then Negate(t) else t
  {
    DecomposeRecomposes(s);
    if s < 0 {
      GreedyUnique(t, Negate(Decompose(s)));
    } else {
      GreedyUnique(t, Decompose(s));
    }
  }

  /** The month part never exceeds 12: a year is a little over twelve
      30-day months. */
  lemma MonthsAtMostTwelve(s: int)
    ensures -12 <= Decompose(s).months <= 12
    ensures Abs(Decompose(s).months) == 12 ==> Abs(Decompose(s).days) <= 5
  {
    DecomposeRecomposes(s);
  }

  // ---------------------------------------------------------------------
  // Whole-unit getters

  /** The value of PHP's floor(a / b) for integers a and b (b != 0), as an
      exact integer; PHP computes it as a float. */
  function FloorDiv(a: int, b: int): (r: int)
    requires b != 0
    ensures b > 0 ==> r * b <= a < r * b + b
    ensures b < 0 ==> r * (-b) <= -a < r * (-b) + (-b)
    ensures (a >= 0 && b > 0) || (a <= 0 && b < 0) ==> r >= 0
  {
    if b > 0 then a / b else (-a) / (-b)
  }

  /** getYears() and its siblings: divide by the unit, signed like the span,
      take the floor, and flip the sign back for a negative span. */
  function WholeUnits(s: int, unit: int): (r: int)
    requires unit > 0
    ensures s >= 0 ==> 0 <= r && r * unit <= s < r * unit + unit
    ensures s < 0 ==> r <= 0 && (-r) * unit <= -s < (-r) * unit + unit
  {
    var perUnit := if s > 0 then unit else -unit;
    var q := FloorDiv(s, perUnit);
    if s < 0 then -q else
      assert s == 0 ==> q == 0 / unit == 0;
      q
  }

  /** The whole years agree with the year part of the time array. */
  lemma WholeYearsArePart(s: int)
    ensures WholeUnits(s, SECONDS_PER_YEAR) == Decompose(s).years
  {
    var q := WholeUnits(s, SECONDS_PER_YEAR);
    var a := Abs(s);
    SameQuotient(Abs(q), a - Abs(q) * SECONDS_PER_YEAR, a / SECONDS_PER_YEAR, a % SECONDS_PER_YEAR, SECONDS_PER_YEAR);
  }

  // ---------------------------------------------------------------------
  // simpleDisplay

  /** sprintf(format, n) for formats whose only conversion is %s: the first
      "%s" becomes the decimal text of n. */
  function FormatOne(format: string, arg: string): (r: string)
    ensures |format| < 2 ==> r == format
  {
    if |format| < 2 then format
    else if format[0] == '%' && format[1] == 's' then arg + format[2..]
    else [format[0]] + FormatOne(format[1..], arg)
  }

  predicate NoConversion(s: string)
  {
    forall i | 0 <= i < |s| - 1 :: !(s[i] == '%' && s[i + 1] == 's')
  }

  lemma NoConversionTail(s: string)
    requires |s| > 0 && NoConversion(s)
    ensures NoConversion(s[1..])
  {
  }

  /** A format without %s is printed as it is; in `pre + "%s" + post` with no
      %s in pre, the argument takes the place of the %s. */
  lemma {:induction false} FormatOneFills(pre: string, post: string, arg: string)
    requires NoConversion(pre + "%")
    ensures FormatOne(pre + "%s" + post, arg) == pre + arg + post
  {
    if pre != [] {
      var format := pre + "%s" + post;
      FillsLayout(pre, post);
      FormatOneFills(pre[1..], post, arg);
      FormatOneStep(format, arg);
      assert [pre[0]] + (pre[1..] + arg + post) == pre + arg + post;
    }
  }

  /** The text in front of the first %s is copied character by character. */
  lemma FormatOneStep(format: string, arg: string)
    requires |format| >= 2 && !(format[0] == '%' && format[1] == 's')
    ensures FormatOne(format, arg) == [format[0]] + FormatOne(format[1..], arg)
  {
  }

  lemma FillsLayout(pre: string, post: string)
    requires pre != [] && NoConversion(pre + "%")
    ensures var format := pre + "%s" + post;
      |format| >= 2 && format[0] == pre[0] && !(format[0] == '%' && format[1] == 's')
      && format[1..] == pre[1..] + "%s" + post && NoConversion(pre[1..] + "%")
  {
    var format := pre + "%s" + post;
    assert format[0] == (pre + "%")[0] && format[1] == (pre + "%")[1];
    assert format[1..] == pre[1..] + "%s" + post;
    NoConversionTail(pre + "%");
    assert (pre + "%")[1..] == pre[1..] + "%";
  }

  lemma {:induction false} FormatOnePlain(format: string, arg: string)
    requires NoConversion(format)
    ensures FormatOne(format, arg) == format
  {
    if |format| >= 2 {
      assert !(format[0] == '%' && format[1] == 's');
      NoConversionTail(format);
      FormatOnePlain(format[1..], arg);
    }
  }

  /** The text for one unit: the translation of the singular or plural form,
      formatted with the count. */
  function Phrase(service: Translator, singular: string, plural: string, n: int): string
  {
    FormatOne(Tp(service, singular, plural, n, None), IntText(n))
  }

  /** Without a translation service, a count of 1 reads as the singular form
      and any other count as the plural with the count filled in. */
  lemma PhraseFallback(singular: string, pre: string, post: string, n: int)
    requires NoConversion(singular) && NoConversion(pre + "%")
    ensures n == 1 ==> Phrase(NoService, singular, pre + "%s" + post, n) == singular
    ensures n != 1 ==> Phrase(NoService, singular, pre + "%s" + post, n) == pre + IntText(n) + post
  {
    if n == 1 {
      FormatOnePlain(singular, IntText(n));
    } else {
      FormatOneFills(pre, post, IntText(n));
    }
  }

  /** The phrase for the largest non-zero unit of a time array, or None. */
  function Display(service: Translator, t: TimeArray): Option<string>
  {
    if t.years != 0 then Some(Phrase(service, "a year", "about %s years", t.years))
    else if t.months != 0 then Some(Phrase(service, "a month", "about %s months", t.months))
    else if t.days != 0 then Some(Phrase(service, "a day", "about %s days", t.days))
    else if t.hours != 0 then Some(Phrase(service, "an hour", "about %s hours", t.hours))
    else if t.minutes != 0 then Some(Phrase(service, "a minute", "%s minutes", t.minutes))
    else if t.seconds != 0 then Some(Phrase(service, "a second", "%s seconds", t.seconds))
    else None
  }

  /** Only the zero span has no display. */
  lemma DisplayNoneIffZero(service: Translator, s: int)
    ensures Display(service, Decompose(s)).None? <==> s == 0
  {
    DecomposeRecomposes(s);
  }

  /** The fallback texts of two units, filled in. */
  lemma DaysPhrase(n: int)
    requires n != 1
    ensures Phrase(NoService, "a day", "about %s days", n) == "about " + IntText(n) + " days"
  {
    assert "about " + "%s" + " days" == "about %s days";
    PhraseFallback("a day", "about ", " days", n);
  }

  lemma YearsPhrase(n: int)
    requires n != 1
    ensures Phrase(NoService, "a year", "about %s years", n) == "about " + IntText(n) + " years"
  {
    assert "about " + "%s" + " years" == "about %s years";
    PhraseFallback("a year", "about ", " years", n);
  }

  /** Examples: 90 seconds is "a minute", two days and five seconds are
      "about 2 days", and a negative span reads with its sign. */
  lemma DisplayMinute()
    ensures Display(NoService, Decompose(90)) == Some("a minute")
  {
    assert Decompose(90) == TimeArray(0, 0, 0, 0, 1, 30);
    assert "" + "%s" + " minutes" == "%s minutes";
    PhraseFallback("a minute", "", " minutes", 1);
  }

  lemma DisplayDays()
    ensures Display(NoService, Decompose(172805)) == Some("about " + "2" + " days")
  {
    TwoDaysFiveSeconds();
    DaysPhrase(2);
    assert IntText(2) == "2";
  }

  lemma DisplayNegativeYears()
    ensures Display(NoService, Decompose(-94670778)) == Some("about " + "-3" + " years")
  {
    ThreeYearsBack();
    YearsPhrase(-3);
    MinusThreeText();
  }

  lemma TwoDaysFiveSeconds()
    ensures Decompose(172805) == TimeArray(0, 0, 2, 0, 0, 5)
  {
  }

  lemma ThreeYearsBack()
    ensures Decompose(-94670778) == TimeArray(-3, 0, 0, 0, 0, 0)
  {
  }

  lemma MinusThreeText()
    ensures IntText(-3) == "-3"
  {
  }

  // ---------------------------------------------------------------------
  // Setting Seconds

  function PropertyTypeError(what: string): Exc
  {
    Exc(TypeError, "Cannot assign " + what + " to property " + CLASS_NAME + "::$intSeconds of type int")
  }

  /** What assigning a value to the typed `int` property $intSeconds does in
      PHP's coercive typing mode: ints and bools are taken, a string of the
      form -?digits is taken when it fits in 64 bits, a string that does not
      start with a number, null, arrays, objects and resources raise
      TypeError. The other strings that start with a number (with blanks,
      decimals, exponents or trailing text) are not modelled. */
  function IntPropertyValue(v: Value): (r: Outcome<int>)
    ensures r.Ok? ==> InIntRange(r.value) || !v.Str?
    ensures v.Str? && !LeadingNumeric(v.s) ==> r == Raise(PropertyTypeError("string"))
    ensures r.Raise? && r.exc.kind == OutsideModel ==>
      v.Str? && LeadingNumeric(v.s) && !TypeCast.MatchesIntegerPattern(v.s)
  {
    match v
    case Int(n) => Ok(n)
    case Bool(b) => Ok(if b then 1 else 0)
    case Null => Raise(PropertyTypeError("null"))
    case Str(s) =>
      if TypeCast.MatchesIntegerPattern(s) then
        TypeCast.IntegerPatternIsNumeric(s);
        var n := SignedPrefixValue(s);
        if InIntRange(n) then Ok(n) else Raise(PropertyTypeError("string"))
      else if !LeadingNumeric(s) then Raise(PropertyTypeError("string"))
      else Raise(Exc(OutsideModel, "numeric-string coercion of " + s))
    case Arr(_) => Raise(PropertyTypeError("array"))
    case Obj(o) => Raise(PropertyTypeError(ClassName(o)))
    case Resource(_) => Raise(PropertyTypeError("resource"))
  }

  /** __set('Seconds', v): Type::cast to an integer, then the typed
      assignment. */
  function SecondsFrom(behaviour: int, host: TypeCast.Host, v: Value): Outcome<int>
  {
    var c :- TypeCast.CastIn(behaviour, host, v, TypeCast.INTEGER);
    IntPropertyValue(c)
  }

  /** In the default mode an int is stored as it is, a boolean raises
      InvalidCast, and '' (which cast turns into null) raises TypeError. */
  lemma SecondsRules(host: TypeCast.Host, n: int, b: bool)
    ensures SecondsFrom(TypeCast.CHECK_AND_CAST, host, Int(n)) == Ok(n)
    ensures SecondsFrom(TypeCast.CHECK_AND_CAST, host, Bool(b)).Raise?
    ensures SecondsFrom(TypeCast.CHECK_AND_CAST, host, Bool(b)).exc.kind == InvalidCastExc
    ensures SecondsFrom(TypeCast.CHECK_AND_CAST, host, Str("")) == Raise(PropertyTypeError("null"))
  {
    TypeCast.IntegerConversion();
    TypeCast.IntegerTargetGuards(host, TypeCast.INTEGER, b, n);
  }

  /** A decimal string in the default mode: "007" passes cast as the string
      itself and the typed assignment reads it as 7. */
  lemma SecondsLeadingZeros(host: TypeCast.Host)
    ensures SecondsFrom(TypeCast.CHECK_AND_CAST, host, Str("007")) == Ok(7)
  {
    TypeCast.IntegerLeadingZeros(host);
    SecondsAfterCast(TypeCast.CHECK_AND_CAST, host, Str("007"), Str("007"));
    SevenFromText();
  }

  /** In the no-op mode cast hands every string to the typed assignment, so
      a string that does not start with a number raises TypeError there. */
  lemma SecondsNonNumeric(host: TypeCast.Host, s: string)
    requires !LeadingNumeric(s)
    ensures SecondsFrom(TypeCast.NO_OP, host, Str(s)) == Raise(PropertyTypeError("string"))
  {
    SecondsAfterCast(TypeCast.NO_OP, host, Str(s), Str(s));
  }

  /** "abc" and "" are two such strings. */
  lemma SecondsNonNumericExamples(host: TypeCast.Host)
    ensures SecondsFrom(TypeCast.NO_OP, host, Str("abc")) == Raise(PropertyTypeError("string"))
    ensures SecondsFrom(TypeCast.NO_OP, host, Str("")) == Raise(PropertyTypeError("string"))
  {
    var t := "abc";
    assert SkipLeadingSpace(t) == t;
    SecondsNonNumeric(host, t);
    SecondsNonNumeric(host, "");
  }

  lemma SecondsAfterCast(behaviour: int, host: TypeCast.Host, v: Value, c: Value)
    requires TypeCast.CastIn(behaviour, host, v, TypeCast.INTEGER) == Ok(c)
    ensures SecondsFrom(behaviour, host, v) == IntPropertyValue(c)
  {
  }

  lemma SevenFromText()
    ensures IntPropertyValue(Str("007")) == Ok(7)
  {
    assert TypeCast.SignedDigits("007");
    assert TypeCast.MatchesIntegerPattern("007");
    DigitRunOfDigits("007");
    assert "007"[..3] == "007";
    assert "007"[..2] == "00" && "00"[..1] == "0" && "0"[..0] == "";
    assert DigitsValue("007") == 7;
  }

  // ---------------------------------------------------------------------
  // The span object

  class DateTimeSpan {
    var seconds: int

    constructor(seconds: int)
      ensures this.seconds == seconds
    {
      this.seconds := seconds;
    }

    predicate IsZero() reads this { seconds == 0 }
    predicate IsPositive() reads this { seconds > 0 }
    predicate IsNegative() reads this { seconds < 0 }

    /** Exactly one of the sign tests holds. */
    lemma SignTrichotomy()
      ensures IsZero() || IsPositive() || IsNegative()
      ensures !(IsZero() && IsPositive()) && !(IsZero() && IsNegative()) && !(IsPositive() && IsNegative())
    {
    }

    method AddSeconds(n: int)
      modifies this
      ensures seconds == old(seconds) + n
    {
      seconds := seconds + n;
    }

    method AddMinutes(n: int)
      modifies this
      ensures seconds == old(seconds) + n * SECONDS_PER_MINUTE
    {
      seconds := seconds + n * SECONDS_PER_MINUTE;
    }

    method AddHours(n: int)
      modifies this
      ensures seconds == old(seconds) + n * SECONDS_PER_HOUR
    {
      seconds := seconds + n * SECONDS_PER_HOUR;
    }

    method AddDays(n: int)
      modifies this
      ensures seconds == old(seconds) + n * SECONDS_PER_DAY
    {
      seconds := seconds + n * SECONDS_PER_DAY;
    }

    method AddMonths(n: int)
      modifies this
      ensures seconds == old(seconds) + n * SECONDS_PER_MONTH
    {
      seconds := seconds + n * SECONDS_PER_MONTH;
    }

    /** add(): o may be this span itself, which then doubles. */
    method Add(o: DateTimeSpan)
      modifies this
      ensures seconds == old(seconds) + old(o.seconds)
    {
      seconds := seconds + o.seconds;
    }

    method Subtract(o: DateTimeSpan)
      modifies this
      ensures seconds == old(seconds) - old(o.seconds)
    {
      seconds := seconds - o.seconds;
    }

    /** difference(): a new span, neither operand changed. */
    method Difference(o: DateTimeSpan) returns (d: DateTimeSpan)
      ensures fresh(d) && d.seconds == seconds - o.seconds
    {
      var diff := seconds - o.seconds;
      d := new DateTimeSpan(0);
      d.AddSeconds(diff);
    }

    /** getTimearray(): the running remainder of |Seconds| goes through the
        units from the year down, then every part takes the span's sign. */
    method GetTimearray() returns (t: TimeArray)
      ensures t == Decompose(seconds)
      ensures seconds >= 0 ==> Greedy(t) && Weighted(t) == seconds
      ensures seconds < 0 ==> Greedy(Negate(t)) && Weighted(Negate(t)) == -seconds
    {
      var rest := Abs(seconds);
      var years := rest / SECONDS_PER_YEAR;
      rest := rest - years * SECONDS_PER_YEAR;
      var months := rest / SECONDS_PER_MONTH;
      rest := rest - months * SECONDS_PER_MONTH;
      var days := rest / SECONDS_PER_DAY;
      rest := rest - days * SECONDS_PER_DAY;
      var hours := rest / SECONDS_PER_HOUR;
      rest := rest - hours * SECONDS_PER_HOUR;
      var minutes := rest / SECONDS_PER_MINUTE;
      rest := rest - minutes * SECONDS_PER_MINUTE;
      if IsNegative() {
        years, months, days, hours, minutes, rest := -years, -months, -days, -hours, -minutes, -rest;
      }
      t := TimeArray(years, months, days, hours, minutes, rest);
      DecomposeRecomposes(seconds);
    }

    function Years(): int reads this { WholeUnits(seconds, SECONDS_PER_YEAR) }
    function Months(): int reads this { WholeUnits(seconds, SECONDS_PER_MONTH) }
    function Days(): int reads this { WholeUnits(seconds, SECONDS_PER_DAY) }
    function Hours(): int reads this { WholeUnits(seconds, SECONDS_PER_HOUR) }
    function Minutes(): int reads this { WholeUnits(seconds, SECONDS_PER_MINUTE) }

    /** simpleDisplay(): the phrase for the largest non-zero unit of the time
        array; None for a zero span. Its tp() is taken to be the library's
        translation fallback. */
    method SimpleDisplay(service: Translator) returns (r: Option<string>)
      ensures r == Display(service, Decompose(seconds))
      ensures r.None? <==> seconds == 0
    {
      var t := GetTimearray();
      r := None;
      if t.years != 0 {
        r := Some(FormatOne(Tp(service, "a year", "about %s years", t.years, None), IntText(t.years)));
      } else if t.months != 0 {
        r := Some(FormatOne(Tp(service, "a month", "about %s months", t.months, None), IntText(t.months)));
      } else if t.days != 0 {
        r := Some(FormatOne(Tp(service, "a day", "about %s days", t.days, None), IntText(t.days)));
      } else if t.hours != 0 {
        r := Some(FormatOne(Tp(service, "an hour", "about %s hours", t.hours, None), IntText(t.hours)));
      } else if t.minutes != 0 {
        r := Some(FormatOne(Tp(service, "a minute", "%s minutes", t.minutes, None), IntText(t.minutes)));
      } else if t.seconds != 0 {
        r := Some(FormatOne(Tp(service, "a second", "%s seconds", t.seconds, None), IntText(t.seconds)));
      }
      DisplayNoneIffZero(service, seconds);
    }

    /** __get(): the unit getters, Seconds, the time array as a PHP array, and
        the undefined-property error for any other name. */
    method Get(name: string) returns (r: Outcome<Value>)
      ensures name == "Years" ==> r == Ok(Int(Years()))
      ensures name == "Months" ==> r == Ok(Int(Months()))
      ensures name == "Days" ==> r == Ok(Int(Days()))
      ensures name == "Hours" ==> r == Ok(Int(Hours()))
      ensures name == "Minutes" ==> r == Ok(Int(Minutes()))
      ensures name == "Seconds" ==> r == Ok(Int(seconds))
      ensures name == "Timearray" ==> r == Ok(TimeArrayValue(Decompose(seconds)))
      ensures name !in {"Years", "Months", "Days", "Hours", "Minutes", "Seconds", "Timearray"} ==>
        r == ObjectBase.BaseGet(CLASS_NAME, name)
    {
      if name == "Years" {
        r := Ok(Int(Years()));
      } else if name == "Months" {
        r := Ok(Int(Months()));
      } else if name == "Days" {
        r := Ok(Int(Days()));
      } else if name == "Hours" {
        r := Ok(Int(Hours()));
      } else if name == "Minutes" {
        r := Ok(Int(Minutes()));
      } else if name == "Seconds" {
        r := Ok(Int(seconds));
      } else if name == "Timearray" {
        var t := GetTimearray();
        r := Ok(TimeArrayValue(t));
      } else {
        r := ObjectBase.BaseGet(CLASS_NAME, name);
      }
    }

    /** __set(): only Seconds can be set, through Type::cast under the
        installed mode; on any exception the span keeps its value. */
    method Set(behaviour: int, host: TypeCast.Host, name: string, v: Value) returns (r: Outcome<()>)
      modifies this
      ensures name == "Seconds" && SecondsFrom(behaviour, host, v).Ok? ==>
        r == Ok(()) && seconds == SecondsFrom(behaviour, host, v).value
      ensures name == "Seconds" && SecondsFrom(behaviour, host, v).Raise? ==>
        r == Raise(SecondsFrom(behaviour, host, v).exc) && seconds == old(seconds)
      ensures name != "Seconds" ==> r == ObjectBase.BaseSet(CLASS_NAME, name, v) && seconds == old(seconds)
    {
      if name == "Seconds" {
        match SecondsFrom(behaviour, host, v) {
          case Ok(n) =>
            seconds := n;
            r := Ok(());
          case Raise(e) =>
            r := Raise(e);
        }
      } else {
        r := ObjectBase.BaseSet(CLASS_NAME, name, v);
      }
    }
  }

  /** The PHP array getTimearray() returns, keyed by unit name. */
  function TimeArrayValue(t: TimeArray): Value
  {
    Arr([(StrKey("Years"), Int(t.years)), (StrKey("Months"), Int(t.months)), (StrKey("Days"), Int(t.days)),
         (StrKey("Hours"), Int(t.hours)), (StrKey("Minutes"), Int(t.minutes)), (StrKey("Seconds"), Int(t.seconds))])
  }

  /** add() then subtract() of another span restores this one; with the span
      itself as the argument the first call doubles it and the second leaves
      zero. */
  method AddThenSubtract(a: DateTimeSpan, b: DateTimeSpan)
    modifies a
    ensures a != b ==> a.seconds == old(a.seconds) && b.seconds == old(b.seconds)
    ensures a == b ==> a.seconds == 0
  {
    a.Add(b);
    a.Subtract(b);
  }
}
