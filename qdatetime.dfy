/** QCubed\QDateTime: a PHP DateTime whose date half and time half can each
    be "null". Two flags say which half is null; a null half is kept at
    2000-01-01 or 00:00:00 so that the other half still calculates. The
    wall clock is the parameter `now` (a Unix timestamp), strtotime() is a
    parameter, and every moment is read in UTC. */
module QDateTimes {
  import opened Php
  import opened Calendar
  import TypeCast
  import ObjectBase
  import Span

  const FORMAT_ISO: string := "YYYY-MM-DD hhhh:mm:ss"
  const FORMAT_ISO_COMPRESSED: string := "YYYYMMDDhhhhmmss"
  const FORMAT_DISPLAY_DATE: string := "MMM DD YYYY"
  const FORMAT_DISPLAY_DATE_FULL: string := "DDD, MMMM D, YYYY"
  const FORMAT_DISPLAY_DATE_TIME: string := "MMM DD YYYY hh:mm zz"
  const FORMAT_DISPLAY_DATE_TIME_FULL: string := "DDDD, MMMM D, YYYY, h:mm:ss zz"
  const FORMAT_DISPLAY_TIME: string := "hh:mm:ss zz"
  const FORMAT_RFC_822: string := "DDD, DD MMM YYYY hhhh:mm:ss ttt"
  const FORMAT_RFC_5322: string := "DDD, DD MMM YYYY hhhh:mm:ss ttttt"
  const FORMAT_SOAP: string := "YYYY-MM-DDThhhh:mm:ss"

  const UNKNOWN_TYPE: int := 0
  const DATE_ONLY_TYPE: int := 1
  const TIME_ONLY_TYPE: int := 2
  const DATE_AND_TIME_TYPE: int := 3

  /** Timestamps below this one (0000-01-01 00:00:00 less a few seconds)
      are taken as a null date. */
  const EARLIEST: int := -62167241486

  /** '2000-01-01 00:00:00', where a null date is kept. */
  const NULL_DATE: Moment := Moment(2000, 1, 1, 0, 0, 0)

  /** The static $DefaultFormat, $DefaultTimeFormat and $DefaultDateOnlyFormat. */
  datatype Defaults = Defaults(full: string, timeOnly: string, dateOnly: string)

  const DEFAULTS: Defaults := Defaults(FORMAT_DISPLAY_DATE_TIME, FORMAT_DISPLAY_TIME, FORMAT_DISPLAY_DATE)

  /** The two null flags and the DateTime moment beneath them. */
  datatype DateState = DateState(dateNull: bool, timeNull: bool, moment: Moment)

  /** The static Type::$intBehaviour and the class environment Type::cast
      consults. */
  datatype Typing = Typing(behaviour: int, host: TypeCast.Host)

  /** The wall clock and strtotime() of the default time zone. */
  datatype Clock = Clock(now: int, strtotime: string -> Option<int>)

  // ---------------------------------------------------------------------
  // Null halves

  /** isNull(): both halves are null. */
  predicate IsNull(s: DateState)
  {
    s.dateNull && s.timeNull
  }

  /** reinforceNullProperties(): a null date becomes 2000-01-01 and a null
      time 00:00:00; flags never change. */
  function Reinforced(s: DateState): (r: DateState)
    requires Valid(s.moment)
    ensures Valid(r.moment) && r.dateNull == s.dateNull && r.timeNull == s.timeNull
    ensures s.dateNull ==> r.moment.year == 2000 && r.moment.month == 1 && r.moment.day == 1
    ensures !s.dateNull ==> r.moment.year == s.moment.year && r.moment.month == s.moment.month && r.moment.day == s.moment.day
    ensures s.timeNull ==> r.moment.hour == 0 && r.moment.minute == 0 && r.moment.second == 0
    ensures !s.timeNull ==> r.moment.hour == s.moment.hour && r.moment.minute == s.moment.minute && r.moment.second == s.moment.second
  {
    var m := if s.dateNull then SetDate(s.moment, 2000, 1, 1) else s.moment;
    var n := if s.timeNull then SetTime(m, 0, 0, 0) else m;
    DateState(s.dateNull, s.timeNull, n)
  }

  /** Reinforcing twice changes nothing more. */
  lemma ReinforcedIdempotent(s: DateState)
    requires Valid(s.moment)
    ensures Reinforced(Reinforced(s)) == Reinforced(s)
  {
  }

  // ---------------------------------------------------------------------
  // Construction

  /** What the constructor is given: another QDateTime (its state), a PHP
      DateTime (its moment), null, or a string. */
  datatype Source = CloneOf(state: DateState) | DateTimeOf(m: Moment) | NoValue | Text(s: string)

  predicate ValidSource(src: Source)
  {
    match src
    case CloneOf(s) => Valid(s.moment)
    case DateTimeOf(m) => Valid(m)
    case _ => true
  }

  /** A value passed to an int parameter of a built-in function (date(),
      setDate(), setTime(), setTimestamp()) in PHP's coercive typing mode:
      null is read as 0, a string of the form -?digits as its value when it
      fits in 64 bits, and a string that does not start with a number is
      refused. The other strings that start with a number (blanks, a '+',
      a fraction, an exponent, trailing text) are not modelled. */
  function IntArgument(v: Value): (r: Outcome<int>)
    ensures r.Ok? ==> InIntRange(r.value) || v.Int?
    ensures v.Str? && !LeadingNumeric(v.s) ==> r == Raise(Exc(TypeError, "must be of type int, string given"))
    ensures r.Raise? && r.exc.kind == OutsideModel ==>
      v.Str? && LeadingNumeric(v.s) && !TypeCast.MatchesIntegerPattern(v.s)
  {
    match v
    case Int(n) => Ok(n)
    case Bool(b) => Ok(if b then 1 else 0)
    case Null => Ok(0)
    case Str(s) =>
      if TypeCast.MatchesIntegerPattern(s) then
        TypeCast.IntegerPatternIsNumeric(s);
        var n := SignedPrefixValue(s);
        if InIntRange(n) then Ok(n) else Raise(Exc(TypeError, "must be of type int, string given"))
      else if !LeadingNumeric(s) then Raise(Exc(TypeError, "must be of type int, string given"))
      else Raise(Exc(OutsideModel, "numeric-string coercion of " + s))
    case _ => Raise(Exc(TypeError, "must be of type int, " + TypeName(v) + " given"))
  }

  /** In the default and the no-op behaviour an int passes through. */
  predicate PassesInts(typing: Typing)
  {
    typing.behaviour == TypeCast.CHECK_AND_CAST || typing.behaviour == TypeCast.NO_OP
  }

  /** Type::cast(v, Type::INTEGER), then passed on as an int argument. */
  function CastThenPass(typing: Typing, v: Value): Outcome<int>
  {
    var c :- TypeCast.CastIn(typing.behaviour, typing.host, v, TypeCast.INTEGER);
    IntArgument(c)
  }

  /** The cast __set and the setters apply, with the case of an int under
      a behaviour that passes ints taken first (CastAgrees shows this is
      the same function). */
  function CastToInt(typing: Typing, v: Value): Outcome<int>
  {
    if PassesInts(typing) && v.Int? then Ok(v.i) else CastThenPass(typing, v)
  }

  lemma CastAgrees(typing: Typing, v: Value)
    ensures CastToInt(typing, v) == CastThenPass(typing, v)
  {
    if PassesInts(typing) && v.Int? {
      TypeCast.IntegerTargetGuards(typing.host, TypeCast.INTEGER, false, v.i);
    }
  }

  /** The relative-date branch for the result of strtotime(), as written:
      a result of 0 fails the truth test like false does, and gives the
      clock's moment with both halves null. The constructor uses this one. */
  function ParsedAsWritten(stamp: Option<int>, now: int): (r: DateState)
    ensures Valid(r.moment)
    ensures stamp.None? || stamp == Some(0) ==> r == DateState(true, true, FromTimestamp(now))
    ensures stamp.Some? && stamp.value != 0 && stamp.value < EARLIEST ==> r == DateState(true, true, NULL_DATE)
    ensures stamp.Some? && stamp.value != 0 && stamp.value >= EARLIEST ==> r == DateState(false, false, FromTimestamp(stamp.value))
  {
    if stamp.Some? && stamp.value != 0 then
      (if stamp.value < EARLIEST then DateState(true, true, NULL_DATE)
       else DateState(false, false, FromTimestamp(stamp.value)))
    else DateState(true, true, FromTimestamp(now))
  }

  /** The relative-date branch with only false taken as a parse failure,
      as the code evidently intends. */
  function Parsed(stamp: Option<int>, now: int): (r: DateState)
    ensures Valid(r.moment)
    ensures stamp.None? ==> IsNull(r)
    ensures stamp.Some? && stamp.value >= EARLIEST ==> r == DateState(false, false, FromTimestamp(stamp.value))
  {
    if stamp.Some? then
      (if stamp.value < EARLIEST then DateState(true, true, NULL_DATE)
       else DateState(false, false, FromTimestamp(stamp.value)))
    else DateState(true, true, FromTimestamp(now))
  }

  /** new QDateTime('1970-01-01 00:00:00') in UTC: strtotime() gives 0,
      which the code as written reads as a failure and so yields a null
      value, while the moment is a valid one. */
  lemma EpochIsNullAsWritten(now: int)
    ensures IsNull(ParsedAsWritten(Some(0), now))
    ensures Parsed(Some(0), now) == DateState(false, false, FromTimestamp(0))
    ensures FromTimestamp(0) == Moment(1970, 1, 1, 0, 0, 0)
  {
    EpochMoment();
  }

  /** The two readings of strtotime() differ only at the timestamp 0. */
  lemma ParsedAgrees(stamp: Option<int>, now: int)
    requires stamp != Some(0)
    ensures ParsedAsWritten(stamp, now) == Parsed(stamp, now)
  {
  }

  /** new QDateTime(s) for a relative date that strtotime() reads as the
      timestamp 0 gives, as written, the clock's moment with both halves
      null: the same state as a failed parse. */
  lemma ConstructedEpochAsWritten(s: string, clock: Clock)
    requires Truthy(Str(s)) && ToLower(s) != "now" && s[0] != '@'
    requires clock.strtotime(s) == Some(0)
    ensures Initial(Text(s), false, clock) == Ok(DateState(true, true, FromTimestamp(clock.now)))
    ensures Initial(Text(s), false, clock) == Ok(ParsedAsWritten(None, clock.now))
  {
  }

  /** The state the constructor reaches before the requested type is
      forced, or the exception it raises. */
  function Initial(src: Source, hasZone: bool, clock: Clock): (r: Outcome<DateState>)
    requires ValidSource(src)
    ensures r.Ok? ==> Valid(r.value.moment)
  {
    match src
    case CloneOf(s) =>
      if hasZone then Raise(Exc(CallerExc, "QDateTime cloning cannot take in a DateTimeZone parameter"))
      else Ok(Reinforced(s))
    case DateTimeOf(m) =>
      if hasZone then Raise(Exc(CallerExc, "QDateTime subclassing of a DateTime object cannot take in a DateTimeZone parameter"))
      else Ok(DateState(false, false, m))
    case NoValue => Ok(DateState(true, true, NULL_DATE))
    case Text(s) =>
      if !Truthy(Str(s)) then Ok(DateState(true, true, NULL_DATE))
      else if ToLower(s) == "now" then Ok(DateState(false, false, FromTimestamp(clock.now)))
      else if s[0] == '@' then
        var n :- IntArgument(Str(s[1..]));
        Ok(DateState(false, false, FromTimestamp(n)))
      else Ok(ParsedAsWritten(clock.strtotime(s), clock.now))
  }

  /** The switch on $intType at the end of the constructor. */
  function ForceType(s: DateState, intType: int): (r: DateState)
    requires Valid(s.moment)
    ensures Valid(r.moment)
    ensures intType == DATE_ONLY_TYPE ==> r == Reinforced(s.(timeNull := true))
    ensures intType == TIME_ONLY_TYPE ==> r == Reinforced(s.(dateNull := true))
    ensures intType == DATE_AND_TIME_TYPE ==> r == s.(dateNull := false, timeNull := false)
    ensures intType !in {DATE_ONLY_TYPE, TIME_ONLY_TYPE, DATE_AND_TIME_TYPE} ==> r == s
  {
    if intType == DATE_ONLY_TYPE then Reinforced(s.(timeNull := true))
    else if intType == TIME_ONLY_TYPE then Reinforced(s.(dateNull := true))
    else if intType == DATE_AND_TIME_TYPE then s.(dateNull := false, timeNull := false)
    else s
  }

  /** new QDateTime(src, zone, type). */
  function Constructed(src: Source, hasZone: bool, intType: int, clock: Clock): (r: Outcome<DateState>)
    requires ValidSource(src)
    ensures r.Ok? ==> Valid(r.value.moment)
  {
    var s :- Initial(src, hasZone, clock);
    Ok(ForceType(s, intType))
  }

  /** The forced types: DATE_ONLY nulls the time and keeps the date,
      TIME_ONLY nulls the date and keeps the time, DATE_AND_TIME clears both
      flags; the moment's remaining half is kept. */
  lemma ForcedTypes(src: Source, hasZone: bool, clock: Clock)
    requires ValidSource(src) && Initial(src, hasZone, clock).Ok?
    ensures var s := Initial(src, hasZone, clock).value;
      var d := Constructed(src, hasZone, DATE_ONLY_TYPE, clock).value;
      var t := Constructed(src, hasZone, TIME_ONLY_TYPE, clock).value;
      var b := Constructed(src, hasZone, DATE_AND_TIME_TYPE, clock).value;
      && d.timeNull && d.dateNull == s.dateNull
      && d.moment.hour == 0 && d.moment.minute == 0 && d.moment.second == 0
      && (!s.dateNull ==> d.moment.year == s.moment.year && d.moment.month == s.moment.month && d.moment.day == s.moment.day)
      && t.dateNull && t.timeNull == s.timeNull
      && t.moment.year == 2000 && t.moment.month == 1 && t.moment.day == 1
      && (!s.timeNull ==> t.moment.hour == s.moment.hour && t.moment.minute == s.moment.minute && t.moment.second == s.moment.second)
      && !b.dateNull && !b.timeNull && b.moment == s.moment
  {
  }

  /** Null, '' and '0' give the null value; 'now' in any letter case gives
      the current moment with neither half null. */
  lemma ConstructedDefaults(clock: Clock)
    ensures Constructed(NoValue, false, UNKNOWN_TYPE, clock) == Ok(DateState(true, true, NULL_DATE))
    ensures Constructed(Text(""), false, UNKNOWN_TYPE, clock) == Ok(DateState(true, true, NULL_DATE))
    ensures Constructed(Text("0"), false, UNKNOWN_TYPE, clock) == Ok(DateState(true, true, NULL_DATE))
    ensures Constructed(Text("NOW"), false, UNKNOWN_TYPE, clock) == Ok(DateState(false, false, FromTimestamp(clock.now)))
  {
    assert ToLower("NOW") == "now";
  }

  /** A clone keeps both flags and reinforces the null halves. */
  lemma CloneKeepsFlags(s: DateState, clock: Clock)
    requires Valid(s.moment)
    ensures Constructed(CloneOf(s), false, UNKNOWN_TYPE, clock) == Ok(Reinforced(s))
    ensures Constructed(CloneOf(s), true, UNKNOWN_TYPE, clock).Raise?
  {
  }

  /** '@n' is the moment of Unix timestamp n, with neither half null. */
  lemma AtTimestamp(n: nat, clock: Clock)
    requires n <= MaxInt
    ensures Constructed(Text("@" + NatText(n)), false, UNKNOWN_TYPE, clock) == Ok(DateState(false, false, FromTimestamp(n)))
  {
    var s := "@" + NatText(n);
    assert s[1..] == NatText(n);
    assert s != "" && s != "0";
    assert ToLower(s) != "now" by {
      assert ToLower(s)[0] == '@';
    }
    DigitsArgument(n);
  }

  /** Decimal text passed as an int argument is read as its value. */
  lemma DigitsArgument(n: nat)
    requires n <= MaxInt
    ensures IntArgument(Str(NatText(n))) == Ok(n)
  {
    var t := NatText(n);
    assert t[0] != '-' by {
      assert IsDigit(t[0]);
    }
    assert TypeCast.SignedDigits(t);
    assert t[0] != '+' by {
      assert IsDigit(t[0]);
    }
    DigitRunOfDigits(t);
    assert t[..|t|] == t;
    NatTextValue(n);
  }

  // ---------------------------------------------------------------------
  // __get

  predicate IsDatePart(name: string) { name == "Month" || name == "Day" || name == "Year" }
  predicate IsTimePart(name: string) { name == "Hour" || name == "Minute" || name == "Second" }

  /** __get(name) for the properties that depend only on the state; Age and
      the first and last day of the month are not modelled. A part of a
      non-null half reads `(int) format(c)` for its format letter c, and the
      timestamp `(int) format('U')`: each is the field itself
      (GetReadsFormat). */
  function Get(s: DateState, name: string): (r: Outcome<Value>)
    requires Valid(s.moment)
    ensures IsDatePart(name) || IsTimePart(name) ==> r.Ok?
    ensures IsDatePart(name) ==> (r == Ok(Null) <==> s.dateNull)
    ensures IsTimePart(name) ==> (r == Ok(Null) <==> s.timeNull)
  {
    if IsDatePart(name) then (if s.dateNull then Ok(Null) else Ok(Int(Part(s.moment, name))))
    else if IsTimePart(name) then (if s.timeNull then Ok(Null) else Ok(Int(Part(s.moment, name))))
    else GetOther(s, name)
  }

  /** The field a date or time part reads. */
  function Part(t: Moment, name: string): int
  {
    if name == "Month" then t.month
    else if name == "Day" then t.day
    else if name == "Year" then t.year
    else if name == "Hour" then t.hour
    else if name == "Minute" then t.minute
    else t.second
  }

  /** __get for the names other than the six parts. */
  function GetOther(s: DateState, name: string): Outcome<Value>
    requires Valid(s.moment)
  {
    match name
    case "Timestamp" => Ok(Int(Timestamp(s.moment)))
    case "Age" => Raise(Exc(OutsideModel, "QDateTime::Age"))
    case "LastDayOfTheMonth" => Raise(Exc(OutsideModel, "QDateTime::LastDayOfTheMonth"))
    case "FirstDayOfTheMonth" => Raise(Exc(OutsideModel, "QDateTime::FirstDayOfTheMonth"))
    case _ => Raise(ObjectBase.UndefinedProperty("GET", "DateTime", name))
  }

  /** The int cast of format('m'), 'd', 'Y', 'H', 'i', 's' and 'U' is the
      field the part reads (the year and the timestamp when they are PHP
      ints). */
  lemma GetReadsFormat(t: Moment)
    requires Valid(t) && InIntRange(t.year) && InIntRange(Timestamp(t))
    ensures StringToInt(FieldText(t, 'm')) == t.month
    ensures StringToInt(FieldText(t, 'd')) == t.day
    ensures StringToInt(FieldText(t, 'Y')) == t.year
    ensures StringToInt(FieldText(t, 'H')) == t.hour
    ensures StringToInt(FieldText(t, 'i')) == t.minute
    ensures StringToInt(FieldText(t, 's')) == t.second
    ensures StringToInt(FieldText(t, 'U')) == Timestamp(t)
  {
    PaddedFieldReadsBack(t, 'm', t.month);
    PaddedFieldReadsBack(t, 'd', t.day);
    YearFieldReadsBack(t);
    PaddedFieldReadsBack(t, 'H', t.hour);
    PaddedFieldReadsBack(t, 'i', t.minute);
    PaddedFieldReadsBack(t, 's', t.second);
    TimestampFieldReadsBack(t);
  }

  // ---------------------------------------------------------------------
  // __set

  /** DateTime::setDate with one date part replaced. */
  function WithDatePart(t: Moment, name: string, n: int): Moment
    requires IsDatePart(name)
  {
    if name == "Month" then SetDate(t, t.year, n, t.day)
    else if name == "Day" then SetDate(t, t.year, t.month, n)
    else SetDate(t, n, t.month, t.day)
  }

  /** DateTime::setTime with one time part replaced. */
  function WithTimePart(t: Moment, name: string, n: int): Moment
    requires IsTimePart(name) && Valid(t)
  {
    if name == "Hour" then SetTime(t, n, t.minute, t.second)
    else if name == "Minute" then SetTime(t, t.hour, n, t.second)
    else SetTime(t, t.hour, t.minute, n)
  }

  function NullPartError(name: string, half: string, setter: string): Exc
  {
    Exc(CallerExc, "Cannot set the " + name + " property on a null " + half + ".  Use " + setter + "().")
  }

  /** __set(name, v) on a state: the new state or the exception. */
  function Assigned(s: DateState, name: string, v: Value, typing: Typing): (r: Outcome<DateState>)
    requires Valid(s.moment)
    ensures r.Ok? ==> Valid(r.value.moment)
  {
    if IsDatePart(name) then
      if s.dateNull && v != Null then Raise(NullPartError(name, "date", "SetDate"))
      else if v == Null then Ok(Reinforced(s.(dateNull := true)))
      else
        var n :- CastToInt(typing, v);
        Ok(Stored(s, name, n))
    else if IsTimePart(name) then
      if s.timeNull && v != Null then Raise(NullPartError(name, "time", "SetTime"))
      else if v == Null then Ok(Reinforced(s.(timeNull := true)))
      else
        var n :- CastToInt(typing, v);
        Ok(Stored(s, name, n))
    else if name == "Timestamp" then
      var n :- CastToInt(typing, v);
      Ok(Stored(s, name, n))
    else Raise(ObjectBase.UndefinedProperty("SET", "DateTime", name))
  }

  /** What __set does with the int n once it has passed the cast: a part
      goes through setDate() or setTime(), the timestamp through
      setTimestamp(), which clears both flags. */
  function Stored(s: DateState, name: string, n: int): (r: DateState)
    requires Valid(s.moment) && (IsDatePart(name) || IsTimePart(name) || name == "Timestamp")
    ensures Valid(r.moment)
  {
    if IsDatePart(name) then s.(moment := WithDatePart(s.moment, name, n))
    else if IsTimePart(name) then s.(moment := WithTimePart(s.moment, name, n))
    else DateState(false, false, FromTimestamp(n))
  }

  /** An int assigned to a part of a non-null half, or to the timestamp,
      under a behaviour that passes ints, is stored as it is. */
  lemma AssignedStores(s: DateState, name: string, n: int, typing: Typing)
    requires Valid(s.moment) && PassesInts(typing)
    requires (IsDatePart(name) && !s.dateNull) || (IsTimePart(name) && !s.timeNull) || name == "Timestamp"
    ensures Assigned(s, name, Int(n), typing) == Ok(Stored(s, name, n))
  {
  }

  /** Setting a part of a null half raises Caller and changes nothing;
      setting a part to null nulls its half and resets it. */
  lemma NullPartRules(s: DateState, name: string, v: Value, typing: Typing)
    requires Valid(s.moment)
    ensures IsDatePart(name) && s.dateNull && v != Null ==>
      Assigned(s, name, v, typing) == Raise(NullPartError(name, "date", "SetDate"))
    ensures IsTimePart(name) && s.timeNull && v != Null ==>
      Assigned(s, name, v, typing) == Raise(NullPartError(name, "time", "SetTime"))
    ensures IsDatePart(name) ==> (Assigned(s, name, Null, typing) == Ok(Reinforced(s.(dateNull := true))))
    ensures IsTimePart(name) ==> (Assigned(s, name, Null, typing) == Ok(Reinforced(s.(timeNull := true))))
    ensures IsDatePart(name) || IsTimePart(name) ==>
      (Assigned(s, name, Null, typing).Ok? && Get(Assigned(s, name, Null, typing).value, name) == Ok(Null))
  {
  }

  /** A date part set within its range on a non-null date reads back, and
      the flags do not change. */
  lemma SetDatePartReadsBack(s: DateState, name: string, n: int, typing: Typing)
    requires Valid(s.moment) && PassesInts(typing) && !s.dateNull
    requires (name == "Month" && ValidDate(s.moment.year, n, s.moment.day))
      || (name == "Day" && ValidDate(s.moment.year, s.moment.month, n))
      || (name == "Year" && ValidDate(n, s.moment.month, s.moment.day))
    ensures Assigned(s, name, Int(n), typing).Ok?
    ensures var u := Assigned(s, name, Int(n), typing).value;
      Get(u, name) == Ok(Int(n)) && u.dateNull == s.dateNull && u.timeNull == s.timeNull
  {
    AssignedStores(s, name, n, typing);
  }

  /** A time part set within its range on a non-null time reads back, and
      the flags do not change. */
  lemma SetTimePartReadsBack(s: DateState, name: string, n: int, typing: Typing)
    requires Valid(s.moment) && PassesInts(typing) && !s.timeNull
    requires (name == "Hour" && 0 <= n < 24) || (name == "Minute" && 0 <= n < 60) || (name == "Second" && 0 <= n < 60)
    ensures Assigned(s, name, Int(n), typing).Ok?
    ensures var u := Assigned(s, name, Int(n), typing).value;
      Get(u, name) == Ok(Int(n)) && u.dateNull == s.dateNull && u.timeNull == s.timeNull
  {
    AssignedStores(s, name, n, typing);
  }

  /** Setting the timestamp clears both flags and reads back. */
  lemma SetTimestampReadsBack(s: DateState, n: int, typing: Typing)
    requires Valid(s.moment) && PassesInts(typing)
    ensures Assigned(s, "Timestamp", Int(n), typing) == Ok(DateState(false, false, FromTimestamp(n)))
    ensures Get(DateState(false, false, FromTimestamp(n)), "Timestamp") == Ok(Int(n))
  {
    TimestampRoundTrip(n);
  }

  /** Any other name raises UndefinedProperty in both directions. */
  lemma UnknownProperty(s: DateState, name: string, v: Value, typing: Typing)
    requires Valid(s.moment)
    requires !IsDatePart(name) && !IsTimePart(name) && name != "Timestamp"
    requires name != "Age" && name != "LastDayOfTheMonth" && name != "FirstDayOfTheMonth"
    ensures Assigned(s, name, v, typing) == Raise(ObjectBase.UndefinedProperty("SET", "DateTime", name))
    ensures Get(s, name) == Raise(ObjectBase.UndefinedProperty("GET", "DateTime", name))
  {
  }

  // ---------------------------------------------------------------------
  // qFormat

  /** The letters the qFormat pattern groups into runs. */
  predicate IsFormatLetter(c: char)
  {
    c == 'D' || c == 'M' || c == 'Y' || c == 'h' || c == 'm' || c == 's' || c == 'z' || c == 't'
  }

  /** The end of the maximal run of f[q] that starts at q. */
  function RunEnd(f: string, q: nat): (e: nat)
    requires q < |f|
    ensures q < e <= |f|
    ensures forall k | q <= k < e :: f[k] == f[q]
    ensures e == |f| || f[e] != f[q]
    decreases |f| - q
  {
    if q + 1 < |f| && f[q + 1] == f[q] then RunEnd(f, q + 1) else q + 1
  }

  /** A non-empty run of one letter. */
  predicate IsRun(tok: string)
  {
    tok != [] && forall k | 0 <= k < |tok| :: tok[k] == tok[0]
  }

  /** The text parent::format(c) gives for each format character c the
      token table uses. */
  datatype Fields = Fields(
    n: string, m: string, M: string, F: string,
    j: string, d: string, D: string, l: string,
    y: string, Y: string,
    g: string, h: string, G: string, H: string,
    i: string, s: string, a: string, A: string,
    T: string, e: string, O: string)

  /** The field texts of a moment in a zone. */
  function FieldsOf(t: Moment, z: Zone): Fields
    requires Valid(t)
  {
    Fields(
      FieldText(t, 'n'), FieldText(t, 'm'), FieldText(t, 'M'), FieldText(t, 'F'),
      FieldText(t, 'j'), FieldText(t, 'd'), FieldText(t, 'D'), FieldText(t, 'l'),
      FieldText(t, 'y'), FieldText(t, 'Y'),
      FieldText(t, 'g'), FieldText(t, 'h'), FieldText(t, 'G'), FieldText(t, 'H'),
      FieldText(t, 'i'), FieldText(t, 's'), FieldText(t, 'a'), FieldText(t, 'A'),
      FormatChar(t, z, 'T'), FormatChar(t, z, 'e'), FormatChar(t, z, 'O'))
  }

  /** substr(x, 0, 1). */
  function FirstChar(x: string): string
  {
    if x == "" then "" else x[..1]
  }

  /** The text of one token, a run of n copies of one letter: a run found
      in the table becomes a field text, anything else is copied. */
  function TokenText(fx: Fields, tok: string): string
    requires IsRun(tok)
  {
    var n := |tok|;
    match tok[0]
    case 'M' => if n == 1 then fx.n else if n == 2 then fx.m else if n == 3 then fx.M else if n == 4 then fx.F else tok
    case 'D' => if n == 1 then fx.j else if n == 2 then fx.d else if n == 3 then fx.D else if n == 4 then fx.l else tok
    case 'Y' => if n == 2 then fx.y else if n == 4 then fx.Y else tok
    case 'h' => if n == 1 then fx.g else if n == 2 then fx.h else if n == 3 then fx.G else if n == 4 then fx.H else tok
    case 'm' => if n == 2 then fx.i else tok
    case 's' => if n == 2 then fx.s else tok
    case 'z' =>
      if n == 1 then fx.a else if n == 2 then fx.A
      else if n == 3 then FirstChar(fx.a) + ".m." else if n == 4 then FirstChar(fx.A) + ".M." else tok
    case 't' => if n == 3 then fx.T else if n == 4 then fx.e else if n == 5 then fx.O else tok
    case _ => tok
  }

  /** The rendering of f from position q: every maximal run of a format
      letter is replaced by its token text, every other character copied. */
  function RenderFrom(fx: Fields, f: string, q: nat): string
    requires q <= |f|
    decreases |f| - q
  {
    if q == |f| then ""
    else if IsFormatLetter(f[q]) then
      var e := RunEnd(f, q);
      TokenText(fx, f[q..e]) + RenderFrom(fx, f, e)
    else [f[q]] + RenderFrom(fx, f, q + 1)
  }

  function Render(fx: Fields, f: string): string
  {
    RenderFrom(fx, f, 0)
  }

  /** preg_match_all of the qFormat pattern from offset q: at a format
      letter its maximal run matches; anywhere else the empty alternative
      matches and the scan moves on one character; a last empty match is
      found at the end of the subject. */
  function MatchesFrom(f: string, q: nat): (r: seq<string>)
    requires q <= |f|
    ensures |r| >= 1
    decreases |f| - q
  {
    if q == |f| then [""]
    else if IsFormatLetter(f[q]) then
      var e := RunEnd(f, q);
      [f[q..e]] + MatchesFrom(f, e)
    else [""] + MatchesFrom(f, q + 1)
  }

  function Matches(f: string): seq<string>
  {
    MatchesFrom(f, 0)
  }

  /** n occurs in h at position p. */
  predicate OccursAt(h: string, n: string, p: nat)
  {
    p + |n| <= |h| && h[p..p + |n|] == n
  }

  /** strpos(h, n, from): the first position at or after from where n
      occurs. */
  function StrPos(h: string, n: string, from: nat): (r: Option<nat>)
    requires from <= |h|
    ensures r.Some? ==> from <= r.value && OccursAt(h, n, r.value)
    ensures r.Some? ==> forall p | from <= p < r.value :: !OccursAt(h, n, p)
    ensures r.None? ==> forall p | from <= p :: !OccursAt(h, n, p)
    decreases |h| - from
  {
    if from + |n| > |h| then None
    else if OccursAt(h, n, from) then Some(from)
    else StrPos(h, n, from + 1)
  }

  /** No format letter lies in f[a..b]. */
  predicate Plain(f: string, a: nat, b: nat)
    requires a <= b <= |f|
  {
    forall k | a <= k < b :: !IsFormatLetter(f[k])
  }

  /** A stretch without format letters is copied. */
  lemma {:induction false} PlainRender(fx: Fields, f: string, a: nat, b: nat)
    requires a <= b <= |f| && Plain(f, a, b)
    ensures RenderFrom(fx, f, a) == f[a..b] + RenderFrom(fx, f, b)
    decreases b - a
  {
    if a < b {
      PlainStep(fx, f, a);
      assert Plain(f, a + 1, b);
      PlainRender(fx, f, a + 1, b);
      calc {
        RenderFrom(fx, f, a);
        [f[a]] + RenderFrom(fx, f, a + 1);
        [f[a]] + (f[a + 1..b] + RenderFrom(fx, f, b));
        ([f[a]] + f[a + 1..b]) + RenderFrom(fx, f, b);
        { assert f[a..b] == [f[a]] + f[a + 1..b]; }
        f[a..b] + RenderFrom(fx, f, b);
      }
    }
  }

  /** A character that is not a format letter is copied. */
  lemma PlainStep(fx: Fields, f: string, a: nat)
    requires a < |f| && !IsFormatLetter(f[a])
    ensures RenderFrom(fx, f, a) == [f[a]] + RenderFrom(fx, f, a + 1)
  {
  }

  /** A format with no format letters is returned unchanged. */
  lemma PlainFormat(fx: Fields, f: string)
    requires Plain(f, 0, |f|)
    ensures Render(fx, f) == f
  {
    PlainRender(fx, f, 0, |f|);
    assert f[0..|f|] == f;
  }

  /** strpos finds a run at its own position when only plain characters
      precede it from the search offset. */
  lemma StrPosAtRun(f: string, a: nat, q: nat)
    requires a <= q < |f| && Plain(f, a, q) && IsFormatLetter(f[q])
    ensures StrPos(f, f[q..RunEnd(f, q)], a) == Some(q)
    decreases q - a
  {
    var tok := f[q..RunEnd(f, q)];
    if a < q {
      assert !OccursAt(f, tok, a) by {
        if a + |tok| <= |f| {
          assert f[a..a + |tok|][0] == f[a];
          assert tok[0] == f[q];
        }
      }
      StrPosAtRun(f, a + 1, q);
    } else {
      assert OccursAt(f, tok, q);
    }
  }

  /** A run of format letters is its own trim, and is truthy. */
  lemma RunToken(f: string, q: nat)
    requires q < |f| && IsFormatLetter(f[q])
    ensures var tok := f[q..RunEnd(f, q)];
      Trim(tok) == tok && Truthy(Str(Trim(tok)))
  {
    var tok := f[q..RunEnd(f, q)];
    assert tok[0] == f[q];
    assert !IsTrimSpace(tok[0]);
    assert TrimLeft(tok) == tok;
    assert tok[|tok| - 1] == f[q];
    assert TrimRight(tok) == tok;
    assert tok != "0" by {
      assert tok[0] != '0';
    }
  }

  /** The text between q and the end of its run is a run. */
  lemma RunIsRun(f: string, q: nat)
    requires q < |f|
    ensures IsRun(f[q..RunEnd(f, q)])
  {
    var tok := f[q..RunEnd(f, q)];
    forall k | 0 <= k < |tok|
      ensures tok[k] == tok[0]
    {
      assert tok[k] == f[q + k];
    }
  }

  /** One turn of the qFormat loop at a format letter: the next match is
      the run there, which strpos finds at the scan position. */
  lemma RunStep(f: string, ms: seq<string>, i: nat, start: nat, q: nat)
    requires i < |ms| && start <= q < |f| && Plain(f, start, q) && IsFormatLetter(f[q])
    requires ms[i..] == MatchesFrom(f, q)
    ensures var e := RunEnd(f, q);
      && ms[i] == f[q..e] && IsRun(ms[i]) && StrPos(f, ms[i], start) == Some(q)
      && i + 1 < |ms| && ms[i + 1..] == MatchesFrom(f, e)
  {
    assert ms[i + 1..] == ms[i..][1..];
    RunIsRun(f, q);
    StrPosAtRun(f, start, q);
  }

  /** The next match is truthy after trim() exactly when the scan is at a
      format letter. */
  lemma TokenTruth(f: string, ms: seq<string>, i: nat, q: nat)
    requires i < |ms| && q <= |f| && ms[i..] == MatchesFrom(f, q)
    ensures Truthy(Str(Trim(ms[i]))) <==> q < |f| && IsFormatLetter(f[q])
  {
    assert ms[i] == ms[i..][0];
    if q < |f| && IsFormatLetter(f[q]) {
      RunToken(f, q);
    } else {
      assert |Trim("")| == 0;
    }
  }

  /** One turn of the qFormat loop anywhere else: the next match is empty,
      and trim() makes it falsy. */
  lemma EmptyStep(f: string, ms: seq<string>, i: nat, start: nat, q: nat)
    requires i < |ms| && start <= q <= |f| && Plain(f, start, q) && !(q < |f| && IsFormatLetter(f[q]))
    requires ms[i..] == MatchesFrom(f, q)
    ensures ms[i] == "" && !Truthy(Str(Trim(ms[i])))
    ensures q < |f| ==> i + 1 < |ms| && ms[i + 1..] == MatchesFrom(f, q + 1) && Plain(f, start, q + 1)
    ensures q == |f| ==> i + 1 == |ms|
  {
    assert ms[i + 1..] == ms[i..][1..];
    assert ms[i] == ms[i..][0];
    assert |Trim("")| == 0;
  }

  // ---------------------------------------------------------------------
  // setDate and setTime

  /** setDate(y, m, d) on a state: each part goes through Type::cast, the
      date is no longer null and DateTime::setDate carries any overflow. */
  function DateSet(s: DateState, y: int, m: int, d: int, typing: Typing): (r: Outcome<DateState>)
    requires Valid(s.moment)
    ensures r.Ok? ==> Valid(r.value.moment) && !r.value.dateNull && r.value.timeNull == s.timeNull
  {
    var cy :- CastToInt(typing, Int(y));
    var cm :- CastToInt(typing, Int(m));
    var cd :- CastToInt(typing, Int(d));
    Ok(DateState(false, s.timeNull, SetDate(s.moment, cy, cm, cd)))
  }

  /** A valid date set with setDate reads back part by part, and the time
      is untouched. */
  lemma SetDateReadsBack(s: DateState, y: int, m: int, d: int, typing: Typing)
    requires Valid(s.moment) && PassesInts(typing) && ValidDate(y, m, d)
    ensures DateSet(s, y, m, d, typing).Ok?
    ensures var u := DateSet(s, y, m, d, typing).value;
      && Get(u, "Year") == Ok(Int(y)) && Get(u, "Month") == Ok(Int(m)) && Get(u, "Day") == Ok(Int(d))
      && u.timeNull == s.timeNull && u.moment.hour == s.moment.hour
      && u.moment.minute == s.moment.minute && u.moment.second == s.moment.second
  {
    var u := DateSet(s, y, m, d, typing).value;
  }

  /** The first argument of setTime: another QDateTime, or an hour with
      the optional minute and second. */
  datatype TimeArg = FromOther(other: DateState) | Parts(hour: Value, minute: Option<int>, second: Option<int>)

  predicate ValidTimeArg(arg: TimeArg)
  {
    arg.FromOther? ==> Valid(arg.other.moment)
  }

  function OrNull(o: Option<int>): Value
  {
    if o.Some? then Int(o.value) else Null
  }

  /** setTime(hour, minute, second) on a state. A null hour or minute is
      handed to DateTime::setTime as 0 before the time is nulled and reset;
      otherwise each part goes through Type::cast and the time is no longer
      null. */
  function PartsSet(s: DateState, h: Value, i: Option<int>, sec: Option<int>, typing: Typing): (r: Outcome<DateState>)
    requires Valid(s.moment)
    ensures r.Ok? ==> Valid(r.value.moment) && r.value.dateNull == s.dateNull
  {
    if h == Null || i.None? then
      var ph :- IntArgument(h);
      var m := SetTime(s.moment, ph, if i.Some? then i.value else 0, if sec.Some? then sec.value else 0);
      Ok(Reinforced(DateState(s.dateNull, true, m)))
    else
      var ch :- CastToInt(typing, h);
      var ci :- CastToInt(typing, Int(i.value));
      var cs :- CastToInt(typing, OrNull(sec));
      Ok(DateState(s.dateNull, false, SetTime(s.moment, ch, ci, cs)))
  }

  /** setTime(arg) on a state: the time of a QDateTime whose time is null
      nulls this time; otherwise its hour, minute and second are used. */
  function TimeSet(s: DateState, arg: TimeArg, typing: Typing): (r: Outcome<DateState>)
    requires Valid(s.moment) && ValidTimeArg(arg)
    ensures r.Ok? ==> Valid(r.value.moment) && r.value.dateNull == s.dateNull
  {
    match arg
    case FromOther(o) =>
      if o.timeNull then Ok(Reinforced(s.(timeNull := true)))
      else PartsSet(s, Int(o.moment.hour), Some(o.moment.minute), Some(o.moment.second), typing)
    case Parts(h, i, sec) => PartsSet(s, h, i, sec, typing)
  }

  /** A valid time set with setTime reads back part by part, the time is no
      longer null and the date is untouched. */
  lemma SetTimeReadsBack(s: DateState, h: int, i: int, sec: int, typing: Typing)
    requires Valid(s.moment) && PassesInts(typing)
    requires 0 <= h < 24 && 0 <= i < 60 && 0 <= sec < 60
    ensures TimeSet(s, Parts(Int(h), Some(i), Some(sec)), typing).Ok?
    ensures var u := TimeSet(s, Parts(Int(h), Some(i), Some(sec)), typing).value;
      && Get(u, "Hour") == Ok(Int(h)) && Get(u, "Minute") == Ok(Int(i)) && Get(u, "Second") == Ok(Int(sec))
      && !u.timeNull && u.dateNull == s.dateNull && u.moment.year == s.moment.year
      && u.moment.month == s.moment.month && u.moment.day == s.moment.day
  {
    var u := TimeSet(s, Parts(Int(h), Some(i), Some(sec)), typing).value;
  }

  /** Copying the time of a QDateTime with a null time, or passing a null
      hour, nulls the time and resets it to 00:00:00; with the other parts
      within a day a non-null date is untouched. */
  lemma SetTimeToNull(s: DateState, o: DateState, i: Option<int>, sec: Option<int>, typing: Typing)
    requires Valid(s.moment) && Valid(o.moment) && o.timeNull
    requires i.Some? ==> 0 <= i.value < 60
    requires sec.Some? ==> 0 <= sec.value < 60
    ensures TimeSet(s, FromOther(o), typing) == Ok(Reinforced(s.(timeNull := true)))
    ensures TimeSet(s, Parts(Null, i, sec), typing).Ok?
    ensures var u := TimeSet(s, Parts(Null, i, sec), typing).value;
      && u.timeNull && u.dateNull == s.dateNull
      && u.moment.hour == 0 && u.moment.minute == 0 && u.moment.second == 0
      && (!s.dateNull ==> u.moment.year == s.moment.year && u.moment.month == s.moment.month && u.moment.day == s.moment.day)
  {
    var mi := if i.Some? then i.value else 0;
    var se := if sec.Some? then sec.value else 0;
    var m := SetTime(s.moment, 0, mi, se);
    assert m == Moment(s.moment.year, s.moment.month, s.moment.day, 0, mi, se);
    assert TimeSet(s, Parts(Null, i, sec), typing) == Ok(Reinforced(DateState(s.dateNull, true, m)));
  }

  /** Passing an hour within a day with a null minute nulls the time and
      resets it to 00:00:00; with the second within a minute a non-null
      date is untouched. */
  lemma SetTimeNullMinute(s: DateState, h: int, sec: Option<int>, typing: Typing)
    requires Valid(s.moment) && 0 <= h < 24
    requires sec.Some? ==> 0 <= sec.value < 60
    ensures TimeSet(s, Parts(Int(h), None, sec), typing).Ok?
    ensures var u := TimeSet(s, Parts(Int(h), None, sec), typing).value;
      && u.timeNull && u.dateNull == s.dateNull
      && u.moment.hour == 0 && u.moment.minute == 0 && u.moment.second == 0
      && (!s.dateNull ==> u.moment.year == s.moment.year && u.moment.month == s.moment.month && u.moment.day == s.moment.day)
  {
    var se := if sec.Some? then sec.value else 0;
    var m := SetTime(s.moment, h, 0, se);
    assert m == Moment(s.moment.year, s.moment.month, s.moment.day, h, 0, se);
    assert TimeSet(s, Parts(Int(h), None, sec), typing) == Ok(Reinforced(DateState(s.dateNull, true, m)));
  }

  /** In general a null hour or minute nulls the time at 00:00:00 on the
      date DateTime::setTime reaches with the raw parts, which an hour past
      23 or a large minute or second carries into a later day; an hour that
      is no int parameter raises its TypeError. */
  lemma SetTimeNullCarries(s: DateState, h: Value, i: Option<int>, sec: Option<int>, typing: Typing)
    requires Valid(s.moment) && (h == Null || i.None?)
    ensures var r := TimeSet(s, Parts(h, i, sec), typing);
      && (IntArgument(h).Raise? ==> r == Raise(IntArgument(h).exc))
      && (IntArgument(h).Ok? ==>
            var raw := SetTime(s.moment, IntArgument(h).value, if i.Some? then i.value else 0, if sec.Some? then sec.value else 0);
            && r.Ok? && r.value.timeNull && r.value.dateNull == s.dateNull
            && r.value.moment.hour == 0 && r.value.moment.minute == 0 && r.value.moment.second == 0
            && (!s.dateNull ==> r.value.moment.year == raw.year && r.value.moment.month == raw.month && r.value.moment.day == raw.day))
  {
  }

  /** setTime(25, null) on 2020-01-31 10:00:00 ends on 2020-02-01 with a
      null time. */
  lemma SetTimeNullNextDay(typing: Typing)
    ensures TimeSet(DateState(false, false, Moment(2020, 1, 31, 10, 0, 0)), Parts(Int(25), None, None), typing)
      == Ok(DateState(false, true, Moment(2020, 2, 1, 0, 0, 0)))
  {
    var s := DateState(false, false, Moment(2020, 1, 31, 10, 0, 0));
    assert DaysInMonth(2020, 1) == 31;
    assert DaysInMonth(2020, 2) == 29;
    assert CarryDays(2020, 2, 1) == (2020, 2, 1);
    assert CarryDays(2020, 1, 32) == (2020, 2, 1);
    assert SetTime(s.moment, 25, 0, 0).day == 1;
    SetTimeNullCarries(s, Int(25), None, None, typing);
  }

  // ---------------------------------------------------------------------
  // Comparisons

  /** A copy of the state with its time nulled: new QDateTime(s), then
      Hour = null. */
  function TimeNulled(s: DateState): (r: DateState)
    requires Valid(s.moment)
    ensures Valid(r.moment) && r.timeNull && r.dateNull == s.dateNull
  {
    Reinforced(Reinforced(s).(timeNull := true))
  }

  /** The timestamps a comparison looks at: those of the two states, or,
      when exactly one time is null, those of copies with the time nulled. */
  function Stamps(a: DateState, b: DateState): (int, int)
    requires Valid(a.moment) && Valid(b.moment)
  {
    if a.timeNull != b.timeNull then (Timestamp(TimeNulled(a).moment), Timestamp(TimeNulled(b).moment))
    else (Timestamp(a.moment), Timestamp(b.moment))
  }

  /** isEqualTo, isEarlierThan, isEarlierOrEqualTo, isLaterThan and
      isLaterOrEqualTo. */
  datatype Relation = EqualTo | EarlierThan | EarlierOrEqualTo | LaterThan | LaterOrEqualTo

  /** a.is<rel>(b): false when the date flags differ, otherwise the order
      of the compared timestamps. */
  function Relates(rel: Relation, a: DateState, b: DateState): bool
    requires Valid(a.moment) && Valid(b.moment)
  {
    if a.dateNull != b.dateNull then false
    else
      var (x, y) := Stamps(a, b);
      match rel
      case EqualTo => x == y
      case EarlierThan => x < y
      case EarlierOrEqualTo => x <= y
      case LaterThan => x > y
      case LaterOrEqualTo => x >= y
  }

  /** a.compare(b). */
  function Compare(a: DateState, b: DateState): (r: int)
    requires Valid(a.moment) && Valid(b.moment)
    ensures -1 <= r <= 1
  {
    if a.dateNull && !b.dateNull then -1
    else if !a.dateNull && b.dateNull then 1
    else
      var (x, y) := Stamps(a, b);
      if x < y then -1 else if x == y then 0 else 1
  }

  /** Differing date flags: every boolean comparison is false, and compare
      puts the null date first. */
  lemma DateFlagsDiffer(rel: Relation, a: DateState, b: DateState)
    requires Valid(a.moment) && Valid(b.moment) && a.dateNull != b.dateNull
    ensures !Relates(rel, a, b)
    ensures Compare(a, b) == if a.dateNull then -1 else 1
  {
  }

  /** With matching date flags, compare and the boolean comparisons agree. */
  lemma CompareAgrees(a: DateState, b: DateState)
    requires Valid(a.moment) && Valid(b.moment) && a.dateNull == b.dateNull
    ensures Relates(EqualTo, a, b) <==> Compare(a, b) == 0
    ensures Relates(EarlierThan, a, b) <==> Compare(a, b) == -1
    ensures Relates(EarlierOrEqualTo, a, b) <==> Compare(a, b) <= 0
    ensures Relates(LaterThan, a, b) <==> Compare(a, b) == 1
    ensures Relates(LaterOrEqualTo, a, b) <==> Compare(a, b) >= 0
  {
  }

  /** compare is antisymmetric, isEarlierThan is the converse of isLaterThan. */
  lemma CompareAntisymmetric(a: DateState, b: DateState)
    requires Valid(a.moment) && Valid(b.moment)
    ensures Compare(a, b) == -Compare(b, a)
    ensures Relates(EarlierThan, a, b) == Relates(LaterThan, b, a)
    ensures Relates(EqualTo, a, b) == Relates(EqualTo, b, a)
  {
  }

  /** The time-nulled copy keeps the date and is at midnight. */
  lemma TimeNulledStamp(s: DateState)
    requires Valid(s.moment) && !s.dateNull
    ensures Timestamp(TimeNulled(s).moment) == DayNumber(s.moment) * 86400
  {
    var r := TimeNulled(s).moment;
    assert r.year == s.moment.year && r.month == s.moment.month && r.day == s.moment.day;
    assert r.hour == 0 && r.minute == 0 && r.second == 0;
  }

  /** When only the time flags differ, only the dates are compared. */
  lemma TimeFlagsDiffer(a: DateState, b: DateState)
    requires Valid(a.moment) && Valid(b.moment) && !a.dateNull && !b.dateNull && a.timeNull != b.timeNull
    ensures Relates(EqualTo, a, b) <==>
      a.moment.year == b.moment.year && a.moment.month == b.moment.month && a.moment.day == b.moment.day
    ensures Relates(EarlierThan, a, b) <==> DayNumber(a.moment) < DayNumber(b.moment)
    ensures Compare(a, b) == if DayNumber(a.moment) < DayNumber(b.moment) then -1
      else if DayNumber(a.moment) == DayNumber(b.moment) then 0 else 1
  {
    TimeNulledStamp(a);
    TimeNulledStamp(b);
    if DayNumber(a.moment) == DayNumber(b.moment) {
      var x := a.moment;
      var y := b.moment;
      DateInjective(x.year, x.month, x.day, y.year, y.month, y.day);
    }
  }

  /** With matching flags, isEqualTo holds exactly for equal moments. */
  lemma SameFlagsEqual(a: DateState, b: DateState)
    requires Valid(a.moment) && Valid(b.moment) && a.dateNull == b.dateNull && a.timeNull == b.timeNull
    ensures Relates(EqualTo, a, b) <==> a.moment == b.moment
  {
    if Timestamp(a.moment) == Timestamp(b.moment) {
      TimestampInjective(a.moment, b.moment);
    }
  }

  /** The text rendered so far, the plain stretch before the run at q,
      the run's token text and the rendering after the run make up the
      whole. */
  lemma AdvanceRun(fx: Fields, f: string, s: string, start: nat, q: nat, tok: string, s': string, start': nat)
    requires start <= q < |f| && Plain(f, start, q) && IsFormatLetter(f[q])
    requires tok == f[q..RunEnd(f, q)] && IsRun(tok)
    requires s + RenderFrom(fx, f, start) == Render(fx, f)
    requires s' == s + f[start..q] + TokenText(fx, tok) && start' == q + |tok|
    ensures start' <= |f| && s' + RenderFrom(fx, f, start') == Render(fx, f)
  {
    assert start' == RunEnd(f, q);
    PlainRender(fx, f, start, q);
    var a, b, c := f[start..q], TokenText(fx, tok), RenderFrom(fx, f, start');
    assert RenderFrom(fx, f, q) == b + c;
    assert s' + c == s + (a + (b + c));
  }

  /** One pass of qFormat()'s loop over the matches: a non-empty match is
      a run of format letters, found from `start` on and replaced by its
      text; an empty one moves the scan past one character. */
  method FormatStep(fx: Fields, f: string, ms: seq<string>, i: nat, s: string, start: nat, ghost q: nat)
    returns (s': string, start': nat, ghost q': nat)
    requires i < |ms| && start <= q <= |f| && Plain(f, start, q)
    requires ms[i..] == MatchesFrom(f, q)
    requires s + RenderFrom(fx, f, start) == Render(fx, f)
    ensures start' <= q' <= |f| && Plain(f, start', q')
    ensures i + 1 < |ms| ==> ms[i + 1..] == MatchesFrom(f, q')
    ensures i + 1 == |ms| ==> q' == |f|
    ensures s' + RenderFrom(fx, f, start') == Render(fx, f)
  {
    var tok := ms[i];
    TokenTruth(f, ms, i, q);
    if Truthy(Str(Trim(tok))) {
      RunStep(f, ms, i, start, q);
      var end := StrPos(f, tok, start);
      s' := s + f[start..end.value] + TokenText(fx, tok);
      start' := end.value + |tok|;
      q' := RunEnd(f, q);
      AdvanceRun(fx, f, s, start, q, tok, s', start');
    } else {
      EmptyStep(f, ms, i, start, q);
      s', start', q' := s, start, q;
      if q < |f| {
        q' := q + 1;
      }
    }
  }

  /** The loop of qFormat over the matches of f: the text before each run
      is copied, the run replaced by its token text, and what follows the
      last run copied. */
  method FormatTokens(fx: Fields, f: string) returns (s: string)
    ensures s == Render(fx, f)
  {
    var ms := Matches(f);
    s := "";
    var start: nat := 0;
    ghost var q: nat := 0;
    var i := 0;
    while i < |ms|
      invariant 0 <= i <= |ms|
      invariant start <= q <= |f| && Plain(f, start, q)
      invariant i < |ms| ==> ms[i..] == MatchesFrom(f, q)
      invariant i == |ms| ==> q == |f|
      invariant s + RenderFrom(fx, f, start) == Render(fx, f)
    {
      s, start, q := FormatStep(fx, f, ms, i, s, start, q);
      i := i + 1;
    }
    PlainRender(fx, f, start, |f|);
    if start < |f| {
      s := s + f[start..];
    }
  }

  // ---------------------------------------------------------------------
  // The object

  /** PHP's `+=` of an int to a property that reads as an int or null. */
  function Plus(v: Value, n: int): Value
  {
    if v.Int? then Int(v.i + n) else Int(n)
  }

  // ---------------------------------------------------------------------
  // addSeconds() ... addYears(): `$this->Part += n` through __get and __set

  /** The state after `$this->name += n`, or the exception __set raises. */
  function Added(s: DateState, name: string, n: int, typing: Typing): (r: Outcome<DateState>)
    requires Valid(s.moment) && (IsDatePart(name) || IsTimePart(name))
    ensures r.Ok? ==> Valid(r.value.moment)
  {
    Assigned(s, name, Plus(Get(s, name).value, n), typing)
  }

  /** The int-level effect of `$this->name += n` on a part of a non-null
      half: the part is read as an int and n more is stored. */
  function Shifted(s: DateState, name: string, n: int): (r: DateState)
    requires Valid(s.moment) && (IsDatePart(name) || IsTimePart(name))
    ensures Valid(r.moment)
  {
    Stored(s, name, Part(s.moment, name) + n)
  }

  /** Under a behaviour that passes ints, adding to a part of a non-null
      half never raises and is the int-level shift. */
  lemma AddedShifts(s: DateState, name: string, n: int, typing: Typing)
    requires Valid(s.moment) && PassesInts(typing)
    requires (IsDatePart(name) && !s.dateNull) || (IsTimePart(name) && !s.timeNull)
    ensures Added(s, name, n, typing) == Ok(Shifted(s, name, n))
  {
    AssignedStores(s, name, Part(s.moment, name) + n, typing);
  }

  /** A null part reads as null, null + n is the int n, and __set refuses a
      non-null value on a null half: adding to a part of a null half raises
      Caller. */
  lemma AddedToNullHalf(s: DateState, name: string, n: int, typing: Typing)
    requires Valid(s.moment)
    ensures IsDatePart(name) && s.dateNull ==>
      Added(s, name, n, typing) == Raise(NullPartError(name, "date", "SetDate"))
    ensures IsTimePart(name) && s.timeNull ==>
      Added(s, name, n, typing) == Raise(NullPartError(name, "time", "SetTime"))
  {
  }

  /** Shifting the seconds by n moves the timestamp by n seconds, whatever
      the overflow into minutes, hours and days, and keeps the flags. */
  lemma ShiftedSeconds(s: DateState, n: int)
    requires Valid(s.moment)
    ensures var u := Shifted(s, "Second", n);
      u.dateNull == s.dateNull && u.timeNull == s.timeNull && Timestamp(u.moment) == Timestamp(s.moment) + n
  {
    var t := s.moment;
    assert Shifted(s, "Second", n) == s.(moment := SetTime(t, t.hour, t.minute, t.second + n));
    SetTimeTimestamp(t, t.hour, t.minute, t.second + n);
  }

  /** Shifting the minutes by n moves the timestamp by 60 n seconds. */
  lemma ShiftedMinutes(s: DateState, n: int)
    requires Valid(s.moment)
    ensures var u := Shifted(s, "Minute", n);
      u.dateNull == s.dateNull && u.timeNull == s.timeNull && Timestamp(u.moment) == Timestamp(s.moment) + 60 * n
  {
    var t := s.moment;
    assert Shifted(s, "Minute", n) == s.(moment := SetTime(t, t.hour, t.minute + n, t.second));
    SetTimeTimestamp(t, t.hour, t.minute + n, t.second);
  }

  /** Shifting the hours by n moves the timestamp by 3600 n seconds. */
  lemma ShiftedHours(s: DateState, n: int)
    requires Valid(s.moment)
    ensures var u := Shifted(s, "Hour", n);
      u.dateNull == s.dateNull && u.timeNull == s.timeNull && Timestamp(u.moment) == Timestamp(s.moment) + 3600 * n
  {
    var t := s.moment;
    assert Shifted(s, "Hour", n) == s.(moment := SetTime(t, t.hour + n, t.minute, t.second));
    SetTimeTimestamp(t, t.hour + n, t.minute, t.second);
  }

  /** Shifting the seconds by n and then by -n gives the state back. */
  lemma ShiftedSecondsInverse(s: DateState, n: int)
    requires Valid(s.moment)
    ensures Shifted(Shifted(s, "Second", n), "Second", -n) == s
  {
    ShiftedSeconds(s, n);
    SecondsShiftedBack(s, Shifted(s, "Second", n), n);
  }

  /** A state n seconds on from s, with the same flags, shifted back by n
      seconds is s. */
  lemma SecondsShiftedBack(s: DateState, u: DateState, n: int)
    requires Valid(s.moment) && Valid(u.moment)
    requires u.dateNull == s.dateNull && u.timeNull == s.timeNull
    requires Timestamp(u.moment) == Timestamp(s.moment) + n
    ensures Shifted(u, "Second", -n) == s
  {
    ShiftedSeconds(u, -n);
    TimestampInjective(Shifted(u, "Second", -n).moment, s.moment);
  }

  /** Shifting the day by n moves the day number by n and keeps the time of
      day and the flags. */
  lemma ShiftedDays(s: DateState, n: int)
    requires Valid(s.moment)
    ensures var u := Shifted(s, "Day", n);
      && u.dateNull == s.dateNull && u.timeNull == s.timeNull
      && DayNumber(u.moment) == DayNumber(s.moment) + n
      && u.moment.hour == s.moment.hour && u.moment.minute == s.moment.minute && u.moment.second == s.moment.second
  {
    var t := s.moment;
    assert Shifted(s, "Day", n) == s.(moment := SetDate(t, t.year, t.month, t.day + n));
    SetDayShift(t, t.day + n);
  }

  /** Shifting the day by n and then by -n gives the state back. */
  lemma ShiftedDaysInverse(s: DateState, n: int)
    requires Valid(s.moment)
    ensures Shifted(Shifted(s, "Day", n), "Day", -n) == s
  {
    ShiftedDays(s, n);
    DaysShiftedBack(s, Shifted(s, "Day", n), n);
  }

  /** A state n days on from s, with the same time of day and flags,
      shifted back by n days is s. */
  lemma DaysShiftedBack(s: DateState, u: DateState, n: int)
    requires Valid(s.moment) && Valid(u.moment)
    requires u.dateNull == s.dateNull && u.timeNull == s.timeNull
    requires DayNumber(u.moment) == DayNumber(s.moment) + n
    requires u.moment.hour == s.moment.hour && u.moment.minute == s.moment.minute && u.moment.second == s.moment.second
    ensures Shifted(u, "Day", -n) == s
  {
    ShiftedDays(u, -n);
    DayNumberInjective(Shifted(u, "Day", -n).moment, s.moment);
  }

  /** Shifting the year keeps month and day when the date exists in the
      target year; 29 February of a year with no such day becomes 1 March. */
  lemma ShiftedYears(s: DateState, n: int)
    requires Valid(s.moment)
    ensures var u := Shifted(s, "Year", n); var t := s.moment;
      && u.dateNull == s.dateNull && u.timeNull == s.timeNull
      && u.moment.hour == t.hour && u.moment.minute == t.minute && u.moment.second == t.second
      && (ValidDate(t.year + n, t.month, t.day) ==>
            u.moment.year == t.year + n && u.moment.month == t.month && u.moment.day == t.day)
      && (!ValidDate(t.year + n, t.month, t.day) ==>
            t.month == 2 && t.day == 29 && u.moment.year == t.year + n && u.moment.month == 3 && u.moment.day == 1)
  {
    var t := s.moment;
    assert Shifted(s, "Year", n) == s.(moment := SetDate(t, t.year + n, t.month, t.day));
    if !ValidDate(t.year + n, t.month, t.day) {
      CarryDaysOver(t.year + n, 2, 29);
    }
  }

  /** addMonths(n): the month moves by n; when the day changed in doing so
      (it overflowed into the month after), the day is set to 1 and one day
      taken off. */
  function MonthsAdded(s: DateState, n: int, typing: Typing): (r: Outcome<DateState>)
    requires Valid(s.moment)
    ensures r.Ok? ==> Valid(r.value.moment)
  {
    var prevDay := Get(s, "Day").value;
    var u :- Added(s, "Month", n, typing);
    if Get(u, "Day").value != prevDay then
      var w :- Assigned(u, "Day", Int(1), typing);
      Added(w, "Day", -1, typing)
    else Ok(u)
  }

  /** addMonths(n) on the ints of a non-null date. */
  function MonthsShifted(s: DateState, n: int): (r: DateState)
    requires Valid(s.moment)
    ensures Valid(r.moment)
  {
    var u := Shifted(s, "Month", n);
    if u.moment.day != s.moment.day then Shifted(Stored(u, "Day", 1), "Day", -1) else u
  }

  /** Under a behaviour that passes ints, addMonths() on a non-null date
      never raises and is the int-level computation. */
  lemma MonthsAddedShifts(s: DateState, n: int, typing: Typing)
    requires Valid(s.moment) && PassesInts(typing) && !s.dateNull
    ensures MonthsAdded(s, n, typing) == Ok(MonthsShifted(s, n))
  {
    AddedShifts(s, "Month", n, typing);
    var u := Shifted(s, "Month", n);
    assert Get(u, "Day") == Ok(Int(u.moment.day)) && Get(s, "Day") == Ok(Int(s.moment.day));
    if u.moment.day != s.moment.day {
      AssignedStores(u, "Day", 1, typing);
      AddedShifts(Stored(u, "Day", 1), "Day", -1, typing);
    }
  }

  /** addMonths(n) lands in the month n months on, on the same day when that
      month has it and on its last day otherwise; the time of day and the
      flags are kept. */
  lemma MonthsShiftedClamps(s: DateState, n: int)
    requires Valid(s.moment)
    ensures var u := MonthsShifted(s, n); var t := s.moment;
      var g := MonthsOn(t.year, t.month, n);
      && u.dateNull == s.dateNull && u.timeNull == s.timeNull
      && u.moment.year == g.0 && u.moment.month == g.1
      && u.moment.day == (if t.day <= DaysInMonth(g.0, g.1) then t.day else DaysInMonth(g.0, g.1))
      && u.moment.hour == t.hour && u.moment.minute == t.minute && u.moment.second == t.second
  {
    var t := s.moment;
    var g := MonthsOn(t.year, t.month, n);
    var u := Shifted(s, "Month", n);
    assert u == s.(moment := SetDate(t, t.year, t.month + n, t.day));
    SetMonthShift(t, n);
    if t.day > DaysInMonth(g.0, g.1) {
      assert u.moment.day == t.day - DaysInMonth(g.0, g.1) < t.day;
      assert MonthsShifted(s, n) == Shifted(Stored(u, "Day", 1), "Day", -1);
      MonthOverflowRepaired(u, g);
    } else {
      assert MonthsShifted(s, n) == u;
    }
  }

  /** The repair addMonths() makes when the day ran over into the month
      after g: day 1 of that month, then one day back, is the last day of g. */
  lemma MonthOverflowRepaired(u: DateState, g: (int, int))
    requires Valid(u.moment) && 1 <= g.1 <= 12
    requires (u.moment.year, u.moment.month) == NextMonth(g.0, g.1)
    ensures var r := Shifted(Stored(u, "Day", 1), "Day", -1);
      && r.dateNull == u.dateNull && r.timeNull == u.timeNull
      && r.moment.year == g.0 && r.moment.month == g.1 && r.moment.day == DaysInMonth(g.0, g.1)
      && r.moment.hour == u.moment.hour && r.moment.minute == u.moment.minute && r.moment.second == u.moment.second
  {
    var w := Stored(u, "Day", 1);
    assert w == u.(moment := SetDate(u.moment, u.moment.year, u.moment.month, 1));
    assert Shifted(w, "Day", -1) == w.(moment := SetDate(w.moment, w.moment.year, w.moment.month, 0));
    SetDayZero(w.moment);
    PrevOfNext(g.0, g.1);
  }

  /** addMonths() on a null date raises Caller at the assignment of the
      month. */
  lemma MonthsAddedToNullDate(s: DateState, n: int, typing: Typing)
    requires Valid(s.moment) && s.dateNull
    ensures MonthsAdded(s, n, typing) == Raise(NullPartError("Month", "date", "SetDate"))
  {
  }

  /** addSpan() with the span difference() gives lands on the other
      value's moment, with both halves no longer null. */
  lemma DifferenceThenAddSpan(s: DateState, t: DateState, typing: Typing)
    requires Valid(s.moment) && Valid(t.moment) && PassesInts(typing)
    ensures Assigned(t, "Timestamp", Int(Timestamp(t.moment) + (Timestamp(s.moment) - Timestamp(t.moment))), typing)
      == Ok(DateState(false, false, s.moment))
  {
    SetTimestampReadsBack(t, Timestamp(s.moment), typing);
    MomentRoundTrip(s.moment);
  }

  class QDateTime {
    var dateNull: bool
    var timeNull: bool
    var moment: Moment

    predicate Valid()
      reads this
    {
      Calendar.Valid(moment)
    }

    function Current(): DateState
      reads this
    {
      DateState(dateNull, timeNull, moment)
    }

    /** DateTime's constructor with the moment m; both flags start out true. */
    constructor (m: Moment)
      ensures dateNull && timeNull && moment == m
    {
      dateNull := true;
      timeNull := true;
      moment := m;
    }

    /** new QDateTime(src, zone, intType): the start state, then the type
        switch. */
    static method New(src: Source, hasZone: bool, intType: int, clock: Clock) returns (r: Outcome<QDateTime>)
      requires ValidSource(src)
      ensures var c := Constructed(src, hasZone, intType, clock);
        && (c.Raise? ==> r == Raise(c.exc))
        && (c.Ok? ==> r.Ok? && fresh(r.value) && r.value.Valid() && r.value.Current() == c.value)
    {
      var d :- Start(src, hasZone, clock);
      d.ForceTyped(intType);
      r := Ok(d);
    }

    /** The branches of the constructor on its first argument. */
    static method Start(src: Source, hasZone: bool, clock: Clock) returns (r: Outcome<QDateTime>)
      requires ValidSource(src)
      ensures var c := Initial(src, hasZone, clock);
        && (c.Raise? ==> r == Raise(c.exc))
        && (c.Ok? ==> r.Ok? && fresh(r.value) && r.value.Valid() && r.value.Current() == c.value)
    {
      var d: QDateTime;
      match src {
        case CloneOf(s) =>
          if hasZone {
            return Raise(Exc(CallerExc, "QDateTime cloning cannot take in a DateTimeZone parameter"));
          }
          d := new QDateTime(s.moment);
          d.dateNull := s.dateNull;
          d.timeNull := s.timeNull;
          d.ReinforceNullProperties();
          assert Initial(src, hasZone, clock) == Ok(Reinforced(s));
        case DateTimeOf(m) =>
          if hasZone {
            return Raise(Exc(CallerExc, "QDateTime subclassing of a DateTime object cannot take in a DateTimeZone parameter"));
          }
          d := new QDateTime(m);
          d.dateNull := false;
          d.timeNull := false;
          assert Initial(src, hasZone, clock) == Ok(DateState(false, false, m));
        case NoValue =>
          d := new QDateTime(NULL_DATE);
          assert Initial(src, hasZone, clock) == Ok(DateState(true, true, NULL_DATE));
        case Text(s) =>
          assert Initial(src, hasZone, clock) == Initial(Text(s), false, clock);
          r := StartText(s, clock);
          return;
      }
      r := Ok(d);
    }

    /** The branches of the constructor on a non-empty string. */
    static method StartText(s: string, clock: Clock) returns (r: Outcome<QDateTime>)
      ensures var c := Initial(Text(s), false, clock);
        && (c.Raise? ==> r == Raise(c.exc))
        && (c.Ok? ==> r.Ok? && fresh(r.value) && r.value.Valid() && r.value.Current() == c.value)
    {
      var d: QDateTime;
      if !Truthy(Str(s)) {
        d := new QDateTime(NULL_DATE);
      } else if ToLower(s) == "now" {
        d := new QDateTime(FromTimestamp(clock.now));
        d.dateNull := false;
        d.timeNull := false;
      } else if s[0] == '@' {
        var n := IntArgument(Str(s[1..]));
        if n.Raise? {
          return Raise(n.exc);
        }
        d := new QDateTime(FromTimestamp(n.value));
        d.dateNull := false;
        d.timeNull := false;
      } else {
        var stamp := clock.strtotime(s);
        if stamp.Some? && stamp.value != 0 {
          if stamp.value < EARLIEST {
            d := new QDateTime(NULL_DATE);
          } else {
            d := new QDateTime(FromTimestamp(stamp.value));
            d.dateNull := false;
            d.timeNull := false;
          }
        } else {
          d := new QDateTime(FromTimestamp(clock.now));
        }
      }
      r := Ok(d);
    }

    /** The switch on $intType at the end of the constructor. */
    method ForceTyped(intType: int)
      requires Valid()
      modifies this
      ensures Valid() && Current() == ForceType(old(Current()), intType)
    {
      if intType == DATE_ONLY_TYPE {
        timeNull := true;
        ReinforceNullProperties();
      } else if intType == TIME_ONLY_TYPE {
        dateNull := true;
        ReinforceNullProperties();
      } else if intType == DATE_AND_TIME_TYPE {
        dateNull := false;
        timeNull := false;
      }
    }

    /** reinforceNullProperties(). */
    method ReinforceNullProperties()
      requires Valid()
      modifies this
      ensures Valid() && Current() == Reinforced(old(Current()))
    {
      if dateNull {
        moment := Calendar.SetDate(moment, 2000, 1, 1);
      }
      if timeNull {
        moment := Calendar.SetTime(moment, 0, 0, 0);
      }
    }

    /** __set(name, v): the new state is what Assigned gives; an exception
        leaves the object unchanged. */
    method Set(name: string, v: Value, typing: Typing) returns (r: Outcome<()>)
      requires Valid()
      modifies this
      ensures Valid()
      ensures var a := Assigned(old(Current()), name, v, typing);
        && (a.Ok? ==> r == Ok(()) && Current() == a.value)
        && (a.Raise? ==> r == Raise(a.exc) && Current() == old(Current()))
    {
      if IsDatePart(name) {
        if dateNull && v != Null {
          return Raise(NullPartError(name, "date", "SetDate"));
        }
        if v == Null {
          dateNull := true;
          ReinforceNullProperties();
          return Ok(());
        }
      } else if IsTimePart(name) {
        if timeNull && v != Null {
          return Raise(NullPartError(name, "time", "SetTime"));
        }
        if v == Null {
          timeNull := true;
          ReinforceNullProperties();
          return Ok(());
        }
      } else if name != "Timestamp" {
        return Raise(ObjectBase.UndefinedProperty("SET", "DateTime", name));
      }
      var n := CastToInt(typing, v);
      if n.Raise? {
        return Raise(n.exc);
      }
      Store(name, n.value);
      r := Ok(());
    }

    /** The setDate(), setTime() or setTimestamp() call __set makes with an
        int that has passed the cast. */
    method Store(name: string, n: int)
      requires Valid() && (IsDatePart(name) || IsTimePart(name) || name == "Timestamp")
      modifies this
      ensures Valid() && Current() == Stored(old(Current()), name, n)
    {
      if IsDatePart(name) {
        moment := WithDatePart(moment, name, n);
      } else if IsTimePart(name) {
        moment := WithTimePart(moment, name, n);
      } else {
        moment := FromTimestamp(n);
        dateNull := false;
        timeNull := false;
      }
    }

    /** `$this->name += n`: the part is read through __get, n added the PHP
        way, and the sum written back through __set. */
    method Add(name: string, n: int, typing: Typing) returns (r: Outcome<()>)
      requires Valid() && (IsDatePart(name) || IsTimePart(name))
      modifies this
      ensures Valid()
      ensures var a := Added(old(Current()), name, n, typing);
        && (a.Ok? ==> r == Ok(()) && Current() == a.value)
        && (a.Raise? ==> r == Raise(a.exc) && Current() == old(Current()))
    {
      var v := Get(Current(), name).value;
      r := Set(name, Plus(v, n), typing);
    }

    /** addSeconds(n). */
    method AddSeconds(n: int, typing: Typing) returns (r: Outcome<()>)
      requires Valid()
      modifies this
      ensures Valid()
      ensures var a := Added(old(Current()), "Second", n, typing);
        && (a.Ok? ==> r == Ok(()) && Current() == a.value)
        && (a.Raise? ==> r == Raise(a.exc) && Current() == old(Current()))
    {
      r := Add("Second", n, typing);
    }

    /** addMinutes(n). */
    method AddMinutes(n: int, typing: Typing) returns (r: Outcome<()>)
      requires Valid()
      modifies this
      ensures Valid()
      ensures var a := Added(old(Current()), "Minute", n, typing);
        && (a.Ok? ==> r == Ok(()) && Current() == a.value)
        && (a.Raise? ==> r == Raise(a.exc) && Current() == old(Current()))
    {
      r := Add("Minute", n, typing);
    }

    /** addHours(n). */
    method AddHours(n: int, typing: Typing) returns (r: Outcome<()>)
      requires Valid()
      modifies this
      ensures Valid()
      ensures var a := Added(old(Current()), "Hour", n, typing);
        && (a.Ok? ==> r == Ok(()) && Current() == a.value)
        && (a.Raise? ==> r == Raise(a.exc) && Current() == old(Current()))
    {
      r := Add("Hour", n, typing);
    }

    /** addDays(n). */
    method AddDays(n: int, typing: Typing) returns (r: Outcome<()>)
      requires Valid()
      modifies this
      ensures Valid()
      ensures var a := Added(old(Current()), "Day", n, typing);
        && (a.Ok? ==> r == Ok(()) && Current() == a.value)
        && (a.Raise? ==> r == Raise(a.exc) && Current() == old(Current()))
    {
      r := Add("Day", n, typing);
    }

    /** addYears(n). */
    method AddYears(n: int, typing: Typing) returns (r: Outcome<()>)
      requires Valid()
      modifies this
      ensures Valid()
      ensures var a := Added(old(Current()), "Year", n, typing);
        && (a.Ok? ==> r == Ok(()) && Current() == a.value)
        && (a.Raise? ==> r == Raise(a.exc) && Current() == old(Current()))
    {
      r := Add("Year", n, typing);
    }

    /** addMonths(n): the month moved by n, then the overflow repaired when
        the day changed. */
    method AddMonths(n: int, typing: Typing) returns (r: Outcome<()>)
      requires Valid()
      modifies this
      ensures Valid()
      ensures var a := MonthsAdded(old(Current()), n, typing);
        && (a.Ok? ==> r == Ok(()) && Current() == a.value)
        && (a.Raise? ==> r == Raise(a.exc))
    {
      var prevDay := Get(Current(), "Day").value;
      r := Add("Month", n, typing);
      if r.Raise? {
        return;
      }
      if Get(Current(), "Day").value != prevDay {
        r := Set("Day", Int(1), typing);
        if r.Raise? {
          return;
        }
        r := Add("Day", -1, typing);
      }
    }

    /** setDate(y, m, d). */
    method SetDate(y: int, m: int, d: int, typing: Typing) returns (r: Outcome<()>)
      requires Valid()
      modifies this
      ensures Valid()
      ensures var a := DateSet(old(Current()), y, m, d, typing);
        && (a.Ok? ==> r == Ok(()) && Current() == a.value)
        && (a.Raise? ==> r == Raise(a.exc) && Current() == old(Current()))
    {
      var cy := CastToInt(typing, Int(y));
      if cy.Raise? {
        return Raise(cy.exc);
      }
      var cm := CastToInt(typing, Int(m));
      if cm.Raise? {
        return Raise(cm.exc);
      }
      var cd := CastToInt(typing, Int(d));
      if cd.Raise? {
        return Raise(cd.exc);
      }
      dateNull := false;
      moment := Calendar.SetDate(moment, cy.value, cm.value, cd.value);
      r := Ok(());
    }

    /** setTime(arg). */
    method SetTime(arg: TimeArg, typing: Typing) returns (r: Outcome<()>)
      requires Valid() && ValidTimeArg(arg)
      modifies this
      ensures Valid()
      ensures var a := TimeSet(old(Current()), arg, typing);
        && (a.Ok? ==> r == Ok(()) && Current() == a.value)
        && (a.Raise? ==> r == Raise(a.exc) && Current() == old(Current()))
    {
      var h: Value, i: Option<int>, sec: Option<int>;
      match arg {
        case FromOther(o) =>
          if o.timeNull {
            timeNull := true;
            ReinforceNullProperties();
            return Ok(());
          }
          h, i, sec := Int(o.moment.hour), Some(o.moment.minute), Some(o.moment.second);
        case Parts(ph, pi, ps) =>
          h, i, sec := ph, pi, ps;
      }
      if h == Null || i.None? {
        var n := IntArgument(h);
        if n.Raise? {
          return Raise(n.exc);
        }
        moment := Calendar.SetTime(moment, n.value, if i.Some? then i.value else 0, if sec.Some? then sec.value else 0);
        timeNull := true;
        ReinforceNullProperties();
        return Ok(());
      }
      var ch := CastToInt(typing, h);
      if ch.Raise? {
        return Raise(ch.exc);
      }
      var ci := CastToInt(typing, Int(i.value));
      if ci.Raise? {
        return Raise(ci.exc);
      }
      var cs := CastToInt(typing, OrNull(sec));
      if cs.Raise? {
        return Raise(cs.exc);
      }
      timeNull := false;
      moment := Calendar.SetTime(moment, ch.value, ci.value, cs.value);
      r := Ok(());
    }

    /** qFormat(format): '' for a null value; otherwise the format, or the
        default for whichever half is not null, rendered run by run. */
    method QFormat(format: Option<string>, defaults: Defaults, zone: Zone) returns (s: string)
      requires Valid()
      ensures dateNull && timeNull ==> s == ""
      ensures !(dateNull && timeNull) && format.Some? ==> s == Render(FieldsOf(moment, zone), format.value)
      ensures format.None? && dateNull && !timeNull ==> s == Render(FieldsOf(moment, zone), defaults.timeOnly)
      ensures format.None? && !dateNull && timeNull ==> s == Render(FieldsOf(moment, zone), defaults.dateOnly)
      ensures format.None? && !dateNull && !timeNull ==> s == Render(FieldsOf(moment, zone), defaults.full)
    {
      if dateNull && timeNull {
        return "";
      }
      var f: string;
      if format.None? {
        if dateNull && !timeNull {
          f := defaults.timeOnly;
        } else if !dateNull && timeNull {
          f := defaults.dateOnly;
        } else {
          f := defaults.full;
        }
      } else {
        f := format.value;
      }
      s := FormatTokens(FieldsOf(moment, zone), f);
    }

    /** difference(): a new span of this timestamp less the other's. */
    method Difference(other: QDateTime) returns (d: Span.DateTimeSpan)
      requires Valid() && other.Valid()
      ensures fresh(d) && d.seconds == Timestamp(moment) - Timestamp(other.moment)
    {
      d := new Span.DateTimeSpan(Timestamp(moment) - Timestamp(other.moment));
    }

    /** addSpan(): the Timestamp property set to itself plus the span's
        seconds, which makes neither half null. */
    method AddSpan(span: Span.DateTimeSpan, typing: Typing) returns (r: Outcome<()>)
      requires Valid()
      modifies this
      ensures Valid()
      ensures var a := Assigned(old(Current()), "Timestamp", Int(Timestamp(old(moment)) + old(span.seconds)), typing);
        && (a.Ok? ==> r == Ok(()) && Current() == a.value)
        && (a.Raise? ==> r == Raise(a.exc) && Current() == old(Current()))
    {
      r := Set("Timestamp", Int(Timestamp(moment) + span.seconds), typing);
    }
  }

  /** DateTimeSpan::setFromQDateTime(from, to): adds from->difference(to),
      the timestamp of `from` less that of `to`, to the span. */
  method SetSpanFromQDateTime(span: Span.DateTimeSpan, from: QDateTime, to: QDateTime)
    requires from.Valid() && to.Valid()
    modifies span
    ensures span.seconds == old(span.seconds) + (Timestamp(from.moment) - Timestamp(to.moment))
  {
    var d := from.Difference(to);
    span.Add(d);
  }
}
