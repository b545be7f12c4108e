# qcubed-4/common in Dafny

A Dafny model of the rule systems at the heart of the QCubed common library
(`QCubed\…`, PHP 8), with proofs of what the code promises. Each PHP class
becomes one Dafny module:

| Dafny file | module | PHP source |
|---|---|---|
| php.dfy | Php | the PHP runtime the code relies on: dynamic values, exceptions, `(int)` and `(string)` of integers on 64 bits, truthiness, `strtolower`, `trim` |
| type.dfy | TypeCast | `QCubed\Type`: `cast`, the behaviour mode, `typeFromDoc`, `constant`, `soapType` |
| base64.dfy | Base64 | PHP's `base64_encode` and non-strict `base64_decode` |
| qstring.dfy | QString | `QCubed\QString` in byte mode |
| i18n.dfy | I18n | `t()` and `tp()` |
| datetimespan.dfy | Span | `QCubed\DateTimeSpan` |
| calendar.dfy | Calendar | the parts of PHP's `DateTime` that `QDateTime` calls |
| qdatetime.dfy | QDateTimes | `QCubed\QDateTime` |
| js.dfy | Js | `QCubed\Js\Helper` and its wrappers `Func`, `Closure`, `ParameterList`, `NoQuoteKey`, `VarName` |
| session.dfy | Sessions | `QCubed\Helper\SessionCleaner` |
| objectbase.dfy | ObjectBase | `QCubed\ObjectBase` |
| timer.dfy | Timers | `QCubed\Timer` |
| caller.dfy | CallerException | `QCubed\Exception\Caller` |
| crypto.dfy | Crypto | `QCubed\Cryptography` |

The model follows the form of the PHP code.

- Code that computes a value becomes a function on datatypes. This covers the cast rules, the string helpers, the JavaScript renderer, the framing in `Cryptography`, and the `__get`/`__set`/`compare` rules of `QDateTime`.
- Code that changes fields becomes a class whose methods are specified against those functions:
  - `DateTimeSpan`, `QDateTime`, `Timer` and its registry;
  - the `Caller` exception;
  - `SessionCleaner` together with the session;
  - the attribute target of `overrideAttributes`;
  - the behaviour mode of `Type`.
- Loops in the source stay loops:
  - the CSL table fill of `longestCommonSubsequence`;
  - the token loop of `qFormat`;
  - the list and hash loops of `toJsObject`;
  - the parameter loops of `Func` and `ParameterList`;
  - the session sweeps;
  - the item loop of `overrideAttributes`.
- `getTimearray` has no loop: it reassigns a running remainder unit by unit, and its method does the same.

Exceptions are values. An operation that can throw returns
`Outcome<T>`, which is either `Ok(v)` or `Raise(Exc(kind, message))`, and
the kind and the message are those of the PHP `throw`.

Time, randomness and external code become parameters:

- The wall clock (`time()`, `microtime()` and `new DateTime('now')`) is passed in as `now`, one instant for all the clock reads of one call.
- `strtotime()` is a `Clock` parameter.
- `openssl_*` and `hash_hmac` are uninterpreted functions in a record.
- `ReflectionClass`, `instanceof` and `is_callable` are functions of a `Host` record.
- The translation service of `t()`/`tp()` and `_nl()` are parameters.
- `Helper::makeJsonEncodable` takes the encoding as a parameter.
- `session_status()` is a flag.

Where the code and its documentation disagree, the model follows the code:

- `DateTimeSpan->Seconds = ''` casts to null, and then the `int` property refuses it with a `TypeError`.
- In `Helper::toJsObject`, only the leading items of a list that render as '' lose their separator. A later empty item still gets its ','.
- `terminateScript("0")` gives '', because the trimmed script goes through a truth test.
- `Cryptography::decrypt` treats a ':' at position 0 like a missing one, because `$offset == null` is a loose comparison.
- `Cryptography::decrypt` returns '' when `openssl_decrypt()` fails: the file does not declare strict types, so its string return type coerces the `false`.

## Model

| member | source | states |
|---|---|---|
| Php.IntTextRoundTrip | src/Type.php:339-345 | settype() to integer of an integer's decimal text gives that integer back |
| Php.IntTextInjective | src/Type.php:345 | two integers with the same decimal text are equal |
| Php.StringToInt | src/Type.php:340 | settype() to integer of a string always lands in the 64-bit range |
| Php.Trim | src/Type.php:187 | trim() leaves no blank at either end and never lengthens its input |
| Php.ToLower | src/Type.php:454 | strtolower() keeps the length |
| TypeCast.TypeMode.constructor | src/Type.php:75 | the mode starts as CHECK_AND_CAST |
| TypeCast.TypeMode.SetBehaviour | src/Type.php:102-107 | the new mode is installed and the replaced one is returned |
| TypeCast.TypeMode.Cast | src/Type.php:232-245 | cast reads the installed mode |
| TypeCast.TypeMode.CastUnchecked | src/Type.php:102-107 | saving the mode with setBehaviour(NO_OP) and handing the returned value back restores the original mode, and the cast in between returns its input unchanged |
| TypeCast.Constant | src/Type.php:120-133 | succeeds exactly for the eight Type constants, with text that starts 'QCubed\Type::'; any other name raises InvalidCast |
| TypeCast.ConstantInjective | src/Type.php:120-133 | distinct types never share a constant text |
| TypeCast.SoapType | src/Type.php:144-154 | succeeds exactly for string, integer, double, boolean and QDateTime; anything else raises InvalidCast |
| TypeCast.SoapTypeRoundTrip | src/Type.php:144-154 | the SOAP name of each scalar type resolves back through typeFromDoc to that type |
| TypeCast.TypeFromDoc | src/Type.php:452-498 | an alias in any letter case resolves to its group's target; any other name comes back unchanged exactly when the class exists, and otherwise raises InvalidCast |
| TypeCast.Resolves | src/Type.php:452-498 | every alias spelling of a target resolves to it |
| TypeCast.ResolvesDateTime | src/Type.php:476-480 | the mixed-case name 'dateTime' resolves to the QDateTime type |
| TypeCast.Cast | src/Type.php:232-290 | Type::cast in the default CHECK_AND_CAST mode with the canonical settype() name; its rules are the CastWith and target rows |
| TypeCast.CastIn | src/Type.php:232-290 | Type::cast in whichever behaviour mode is given, with settype() handed the canonical type name; the casts of Span, QDateTimes and Crypto go through it, and its rules are the CastWith and target rows |
| TypeCast.CastAsWritten | src/Type.php:232-290 | Type::cast as written, with settype() given the caller's alias; AsWrittenAgreesElsewhere and the Findings rows relate it to the corrected cast |
| TypeCast.CastValueTo | src/Type.php:305-440 | castValueTo(): resolve the target through typeFromDoc, then the boolean, integer, float, string or callable branch, and InvalidCast for any other resolved type |
| TypeCast.CastWith | src/Type.php:232-286 | NO_OP returns the input for every value and target; CAST_ONLY and CHECK_ONLY raise Caller; an unknown mode raises Exception; in CHECK_AND_CAST null gives null and a resource raises InvalidCast |
| TypeCast.CastArrayTo | src/Type.php:511-520 | an array is returned unchanged exactly for the array target and, when callable, the callable target; otherwise InvalidCast |
| TypeCast.CastObjectTo | src/Type.php:169-216 | an instance of the target is returned itself; a Closure cast to callable raises InvalidCast; a SimpleXMLElement cast to string is its text; every failure is InvalidCast, except the Error of a string cast of an object without __toString |
| TypeCast.NonScalarTargets | src/Type.php:169-216 | through cast: arrays, resources and objects follow the rules above (arrays only to array or callable, resources never, Closures never to callable) |
| TypeCast.IntegerDispatch | src/Type.php:305-309 | every integer alias reaches the integer branch |
| TypeCast.ToInteger | src/Type.php:326-356 | castValueTo's integer branch: a bool raises InvalidCast, an empty text gives null, an int comes back as it is, and a string is converted, converted back and compared, falling back to the string itself when it matches ^-?\d+$ and to InvalidCast otherwise; ToIntegerStringValue and ToIntegerString state it in closed form |
| TypeCast.IntegerTargetGuards | src/Type.php:326-336 | integer target: a boolean raises InvalidCast, '' gives null, an int is returned unchanged |
| TypeCast.ToIntegerStringValue | src/Type.php:338-356 | the convert-and-compare step in closed form: the int when it prints back as the string, else the string when it matches ^-?\d+$, else InvalidCast |
| TypeCast.ToIntegerString | src/Type.php:338-356 | the same rule stated on the string: an int comes out iff the string is how some 64-bit int prints, and then it prints as the string; the string itself comes out iff it is not such a text but matches the pattern; otherwise InvalidCast |
| TypeCast.IntegerTargetString | src/Type.php:326-356 | the rule above for cast with any integer alias |
| TypeCast.IntegerLeadingZeros | src/Type.php:348-351 | "007" comes back as the string "007" |
| TypeCast.IntegerNegativeZero | src/Type.php:348-351 | "-0" comes back as the string "-0" |
| TypeCast.IntegerTrailingLetters | src/Type.php:353-355 | "12abc" raises |
| TypeCast.IntegerLeadingBlank | src/Type.php:353-355 | " 12" raises |
| TypeCast.ToBooleanReading | src/Type.php:310-324 | the boolean branch is BooleanReading: booleans unchanged, '' and 'false' in any case false, otherwise PHP truthiness |
| TypeCast.BooleanTarget | src/Type.php:310-324 | the same rule for cast with any boolean alias |
| TypeCast.ToStringReading | src/Type.php:394-427 | the string branch: a string unchanged, an int its decimal text, true "1", false "" (the back-conversion always agrees) |
| TypeCast.StringTarget | src/Type.php:394-427 | the same rule for cast with any string alias |
| TypeCast.SetTypeRejects | src/Type.php:321-403 | settype() refuses the aliases 'bit', 'str', 'flt', 'dbl', 'single' and 'decimal' with ValueError |
| TypeCast.AsWrittenBitFails | src/Type.php:323 | as written, casting the int 1 to 'bit' raises ValueError |
| TypeCast.AsWrittenStrFails | src/Type.php:401 | as written, casting the int 5 to 'str' raises ValueError |
| TypeCast.CorrectedBit | src/Type.php:310-324 | corrected, the int 1 cast to 'bit' is true |
| TypeCast.CorrectedStr | src/Type.php:394-427 | corrected, the int 5 cast to 'str' is "5" |
| TypeCast.SetTypeAlias | src/Type.php:338-403 | every other alias of a settype()-backed target means to settype() what the canonical name means |
| TypeCast.CastValueToAgrees | src/Type.php:305-441 | the scalar branch gives the same result with either name when the alias is not one of the six |
| TypeCast.AsWrittenAgreesElsewhere | src/Type.php:232-286 | cast as written and corrected cast agree on every value, mode and target outside the six aliases |
| Base64.Encode | src/QString.php:237 | base64_encode() output has a length divisible by four and is empty exactly for the empty input |
| Base64.Decode | src/QString.php:248 | base64_decode() in its lenient mode always yields a byte string |
| Base64.EncodeDecode | src/QString.php:235-249 | decoding the encoding of a byte string gives it back |
| QString.LastCharacter | src/QString.php:58-72 | null or '' gives null; otherwise the single last byte, which with the text before it makes up the input |
| QString.StartsWith | src/QString.php:81-94 | startsWith(): true for an empty needle, else whether the haystack begins with the needle; the next row states it as the prefix relation |
| QString.StartsWithMeansPrefix | src/QString.php:81-94 | startsWith holds exactly when the haystack is the needle followed by some rest (so always for an empty needle) |
| QString.EndsWith | src/QString.php:103-116 | endsWith(): true for an empty needle, else whether the haystack ends with the needle; the next row states it as the suffix relation |
| QString.EndsWithMeansSuffix | src/QString.php:103-116 | endsWith holds exactly when the haystack is some front followed by the needle (so always for an empty needle) |
| QString.SubstrFromStart | src/QString.php:143 | substr($s, 0, $len) is a prefix of $s of length min(len, length) for len >= 0 and of length max(0, length + len) for a negative len |
| QString.TruncateAsWritten | src/QString.php:126-148 | truncate() as written: '' for a maximum of 0 or less, the text itself when it fits, else substr(text, 0, max - 3) and '...' (substr(text, 0, max) without ellipses), with substr's negative length cutting from the end |
| QString.TruncateAsWrittenOverruns | src/QString.php:126-148 | as written, truncate("abcdef", 2) is "abcde...", longer than the limit 2 |
| QString.Truncate | src/QString.php:126-148 | corrected truncate: max <= 0 gives ''; a text within max is unchanged; a longer one has length exactly max, the first max-3 bytes plus '...' when ellipses are on and max >= 3, otherwise the first max bytes |
| QString.TruncateAgrees | src/QString.php:126-148 | corrected and as-written truncate agree whenever max >= 3 or ellipses are off |
| QString.XmlEscape | src/QString.php:159-174 | xmlEscape(): a text holding '<' or '&' wrapped in one CDATA section with every ']]>' split across two sections, any other text unchanged; the next two rows state what it promises |
| QString.XmlEscapeLeavesPlainText | src/QString.php:159-174 | a string with no '<' and no '&' comes back unchanged |
| QString.XmlEscapeReadsBack | src/QString.php:159-174 | otherwise the output, read as a run of CDATA sections the way section 2.7 of XML 1.0 reads them, gives back exactly the original string |
| QString.LongestCommonSubsequence | src/QString.php:185-226 | '' when either input is empty or no byte is shared; otherwise a substring of both, no common substring is longer, and it ends at an (i, j) where no earlier row of str1 ends one as long |
| QString.LongestCommonSubstringMeaning | src/QString.php:185-226 | the answer is the common substring ending at that (i, j), it has the greatest length of all common substrings, and every common substring of that length ends in str1 at i or later |
| QString.Base64UrlSafeEncode | src/QString.php:235-238 | base64UrlSafeEncode(): base64_encode, then '+' to '-' and '/' to '_', then the trailing '=' removed; its alphabet and round trip are the rows below |
| QString.Base64UrlSafeDecode | src/QString.php:246-249 | base64UrlSafeDecode(): '-' to '+' and '_' to '/', non-strict base64_decode, and '' for a result that is '' or '0' (the `?:` fallback) |
| QString.ToUrlAlphabet | src/QString.php:237 | strtr('+/', '-_') maps each character on its own |
| QString.FromUrlAlphabet | src/QString.php:248 | strtr('-_', '+/') maps each character on its own |
| QString.TrimPadding | src/QString.php:237 | rtrim('=') removes exactly the trailing run of '=' |
| QString.EncodeCharacters | src/QString.php:237 | base64_encode() output uses only the 64 letters of the standard alphabet and '=' |
| QString.UrlSafeChars | src/QString.php:237 | strtr('+/', '-_') then rtrim('=') of a text of alphabet characters whose '=' all trail leaves only A-Z, a-z, 0-9, '-' and '_' |
| QString.UrlSafeAlphabet | src/QString.php:235-238 | base64UrlSafeEncode output holds only A-Z, a-z, 0-9, '-' and '_': no '+', '/' or '=' |
| QString.UrlSafeRoundTrip | src/QString.php:235-249 | base64UrlSafeDecode(base64UrlSafeEncode(s)) is s, except that "0" comes back as '' through the ?: fallback |
| QString.IsUtf8 | src/QString.php:367-379 | isUtf8(): false for null, true for '', else whether the byte string scans as UTF-8 units; the next row states it against the regular expression's grammar |
| QString.IsUtf8MeansPattern | src/QString.php:366-379 | isUtf8 holds exactly for non-null strings that split into the pattern's units (ASCII restricted to TAB, LF, CR and 0x20-0x7E; 2-4 byte sequences with no overlong form or surrogate), with an optional final LF |
| QString.UnitLength | src/QString.php:368-377 | a unit's leading byte fixes its length, so the left-to-right scan is exact |
| QString.WordsFromUnderscore | src/QString.php:417-421 | wordsFromUnderscore(): '_' becomes ' ', the text is trimmed, and ucwords() is applied when the result is all lowercase; the next row states its shape |
| QString.WordsFromUnderscoreShape | src/QString.php:417-421 | wordsFromUnderscore has no '_', differs from trim(str_replace('_', ' ')) only in letter case; for an all-lowercase text each word starts with a capital, otherwise the text is returned as it is |
| QString.UcWordsAt | src/QString.php:478 | ucwords upper-cases a character exactly when it starts the text or follows a delimiter, and leaves every other one as it is |
| QString.UcWordsCaseOnly | src/QString.php:420 | ucwords changes only letter case, and adds no '_' |
| QString.UcWordsCapitalises | src/QString.php:420 | on lowercase text, every word start is not lowercase afterwards |
| QString.SplitCamelHumps | src/QString.php:461 | preg_replace('/([a-z\d])([A-Z])/', '$1_$2'): '_' is inserted between a lowercase letter or digit and the capital after it, matches taken left to right without overlap; the next row states that every hump is marked |
| QString.SplitCamelHumpsMarksAll | src/QString.php:461 | the left-to-right preg_replace puts '_' between every lowercase letter or digit and the capital after it |
| QString.CamelCaseFromUnderscore | src/QString.php:471-479 | the result has no '_' |
| QString.JavaCaseFromUnderscore | src/QString.php:488-496 | the result has no '_' |
| QString.CamelCaseOfWord | src/QString.php:471-479 | a word without '_' comes back with its first character upper-cased and nothing else changed; '' gives '' |
| QString.CamelCaseSplits | src/QString.php:471-479 | the text before the first '_' is capitalised, that '_' is deleted and the rest converted the same way, so every character after a '_' is upper-cased and every '_' removed |
| QString.JavaCaseOfWord | src/QString.php:488-496 | a word without '_' comes back with its first character lower-cased |
| QString.JavaCaseSplits | src/QString.php:488-496 | the first word starts lowercase, every later word is capitalised, and the '_' are removed |
| QString.UnderscoreFromCamelCase | src/QString.php:455-462 | underscoreFromCamelCase(): '' for a falsy name, else strtolower of the name with '_' inserted before every capital that follows a lowercase letter or digit |
| QString.PascalCaseRoundTrip | src/QString.php:455-479 | camelCaseFromUnderscore undoes underscoreFromCamelCase on a camel-case name that starts with a capital |
| QString.JavaCaseRoundTrip | src/QString.php:455-496 | javaCaseFromUnderscore undoes underscoreFromCamelCase on a camel-case name that starts lowercase |
| QString.AdjacentCapitalsLost | src/QString.php:455-479 | "ABc" becomes "abc" and comes back as "Abc": adjacent capitals do not survive the round trip |
| QString.IsInteger | src/QString.php:533-536 | isInteger(): is_numeric and ctype_digit of the string form; the next row states which values pass |
| QString.IsIntegerMeaning | src/QString.php:533-536 | an int is an integer exactly when non-negative, a string exactly when it is a non-empty run of digits; any other value is not |
| I18n.T | i18n/i18n-lib.inc.php:19-29 | without a translation service the message id comes back unchanged; with one, its translation |
| I18n.Tp | i18n/i18n-lib.inc.php:40-61 | without a service: the singular form for n == 1 and the plural form for every other n, 0 and negatives included; with one, its plural translation |
| I18n.FallbackIgnoresContext | i18n/i18n-lib.inc.php:19-61 | the context argument changes neither fallback |
| Span.DateTimeSpan.constructor | src/DateTimeSpan.php:58-61 | the span holds the given seconds |
| Span.DateTimeSpan.IsZero | src/DateTimeSpan.php:68-71 | isZero(): the span holds 0 seconds |
| Span.DateTimeSpan.IsPositive | src/DateTimeSpan.php:345-348 | isPositive(): the span holds more than 0 seconds |
| Span.DateTimeSpan.IsNegative | src/DateTimeSpan.php:253-256 | isNegative(): the span holds fewer than 0 seconds |
| Span.DateTimeSpan.SignTrichotomy | src/DateTimeSpan.php:68-71 | exactly one of isZero, isPositive and isNegative holds (isPositive and isNegative at lines 345-348 and 253-256) |
| Span.DateTimeSpan.AddSeconds | src/DateTimeSpan.php:92-95 | adds n seconds and changes nothing else |
| Span.DateTimeSpan.AddMinutes | src/DateTimeSpan.php:123-126 | adds 60n seconds and changes nothing else |
| Span.DateTimeSpan.AddHours | src/DateTimeSpan.php:133-136 | adds 3600n seconds and changes nothing else |
| Span.DateTimeSpan.AddDays | src/DateTimeSpan.php:143-146 | adds 86400n seconds and changes nothing else |
| Span.DateTimeSpan.AddMonths | src/DateTimeSpan.php:153-156 | adds 2592000n seconds and changes nothing else |
| Span.DateTimeSpan.Add | src/DateTimeSpan.php:113-116 | adds the other span's seconds (read before the update, so adding a span to itself doubles it) |
| Span.DateTimeSpan.Subtract | src/DateTimeSpan.php:163-166 | subtracts the other span's seconds |
| Span.AddThenSubtract | src/DateTimeSpan.php:113-166 | add(b) then subtract(b) restores a's seconds and leaves b alone; when b is a itself the result is 0 |
| Span.DateTimeSpan.Difference | src/DateTimeSpan.php:79-85 | a fresh span holding this.Seconds - o.Seconds; neither operand changes |
| Span.DateTimeSpan.GetTimearray | src/DateTimeSpan.php:209-246 | the running-remainder split equals Decompose: for a non-negative span a greedy split that recomposes Seconds, for a negative one the negated greedy split of -Seconds |
| Span.Decompose | src/DateTimeSpan.php:209-246 | the reference split of getTimearray: quotient and remainder of |s| by the year, month, day, hour and minute lengths, negated for a negative span |
| Span.DecomposeRecomposes | src/DateTimeSpan.php:209-246 | the weighted sum of the parts re-composes abs(Seconds), with the part below a year under a year, days < 30, hours < 24, minutes and seconds < 60, and every part negated for a negative span |
| Span.GreedyUnique | src/DateTimeSpan.php:209-246 | two greedy splits with the same weighted sum are equal |
| Span.DecomposeIsTheGreedySplit | src/DateTimeSpan.php:209-246 | any greedy split of abs(s) is the time array of s (negated when s < 0) |
| Span.MonthsAtMostTwelve | src/DateTimeSpan.php:215-219 | since a year is longer than twelve 30-day months, the month part can reach 12, and then the day part is at most 5 |
| Span.WholeUnits | src/DateTimeSpan.php:330-408 | the getters truncate toward zero: the quotient of abs(s) by the unit, with the sign of s |
| Span.DateTimeSpan.Years | src/DateTimeSpan.php:330-338 | getYears(): the whole years of the span, truncated toward zero (WholeUnits) |
| Span.DateTimeSpan.Months | src/DateTimeSpan.php:355-363 | getMonths(): the whole 30-day months of the span, truncated toward zero |
| Span.DateTimeSpan.Days | src/DateTimeSpan.php:370-378 | getDays(): the whole days of the span, truncated toward zero |
| Span.DateTimeSpan.Hours | src/DateTimeSpan.php:385-393 | getHours(): the whole hours of the span, truncated toward zero |
| Span.DateTimeSpan.Minutes | src/DateTimeSpan.php:400-408 | getMinutes(): the whole minutes of the span, truncated toward zero |
| Span.WholeYearsArePart | src/DateTimeSpan.php:330-339 | the Years getter equals the years part of the time array (the time array at line 213) |
| Span.FormatOneFills | src/DateTimeSpan.php:183-198 | sprintf with one '%s' and no other conversion puts the count in its place |
| Span.FormatOnePlain | src/DateTimeSpan.php:183-198 | sprintf of a format with no conversion returns the format |
| Span.PhraseFallback | src/DateTimeSpan.php:182-198 | without a translation service a count of 1 reads as the singular phrase, any other as the plural with the count filled in |
| Span.DaysPhrase | src/DateTimeSpan.php:188-189 | n != 1 days reads "about n days" |
| Span.YearsPhrase | src/DateTimeSpan.php:182-183 | n != 1 years reads "about n years" |
| Span.DateTimeSpan.SimpleDisplay | src/DateTimeSpan.php:176-202 | the phrase for the largest non-zero unit of the time array, and null exactly for a zero span |
| Span.Display | src/DateTimeSpan.php:176-202 | simpleDisplay() on a time array: the phrase of the largest non-zero unit with its count, or null for an all-zero array |
| Span.DisplayNoneIffZero | src/DateTimeSpan.php:176-202 | only the zero span has no display |
| Span.DisplayMinute | src/DateTimeSpan.php:194-195 | 90 seconds display as "a minute" |
| Span.DisplayDays | src/DateTimeSpan.php:188-189 | 172805 seconds display as "about 2 days" |
| Span.DisplayNegativeYears | src/DateTimeSpan.php:176-202 | -94670778 seconds display as "about -3 years", through the time array of lines 209-246 |
| Span.TwoDaysFiveSeconds | src/DateTimeSpan.php:209-246 | 172805 seconds split into 2 days and 5 seconds |
| Span.ThreeYearsBack | src/DateTimeSpan.php:209-246 | -94670778 seconds split into -3 years and nothing else |
| Span.DateTimeSpan.Get | src/DateTimeSpan.php:269-293 | each property name reads its getter, Seconds the stored value, Timearray the split; any other name raises as ObjectBase does |
| Span.DateTimeSpan.Set | src/DateTimeSpan.php:309-323 | Seconds is set to the cast-and-typed value, and on an error nothing changes and that error is raised; any other name raises as ObjectBase does, with nothing changed |
| Span.IntPropertyValue | src/DateTimeSpan.php:314 | a value stored in the typed int property is a 64-bit integer; a string that does not start with a number (such as 'abc' or '') raises the property's TypeError; only strings that start with a number but are not -?digits are outside the model |
| Span.SecondsNonNumeric | src/DateTimeSpan.php:313-315 | in the no-op mode a string that does not start with a number passes the cast unchanged and the typed assignment raises TypeError |
| Span.SecondsNonNumericExamples | src/DateTimeSpan.php:313-315 | in the no-op mode `Seconds = 'abc'` and `Seconds = ''` raise the property's TypeError |
| Span.SecondsRules | src/DateTimeSpan.php:313-315 | in the default mode an int is stored, a boolean raises InvalidCast, and '' (null after the cast) raises TypeError |
| Span.SecondsLeadingZeros | src/DateTimeSpan.php:313-315 | "007" passes the cast as the string itself and is stored as 7 |
| Span.SecondsAfterCast | src/DateTimeSpan.php:314 | the stored value is the typed reading of whatever the cast returned |
| Calendar.DaysInMonth | src/QDateTime.php:1212 | a month of the proleptic Gregorian calendar has 28 to 31 days |
| Calendar.CarryDays | src/QDateTime.php:1212-1238 | DateTime::setDate's day overflow always lands on a real date |
| Calendar.CarryDaysFits | src/QDateTime.php:644 | a real date is kept as it is |
| Calendar.CarryDaysOver | src/QDateTime.php:1212 | a day past the month's end spills into the next month |
| Calendar.CarryDaysZero | src/QDateTime.php:1225 | day 0 is the last day of the previous month |
| Calendar.CarryDaysKeepsDay | src/QDateTime.php:644 | the carried date is the same day count from the month start as the day asked for |
| Calendar.PrevOfNext | src/QDateTime.php:1212 | the month before the next one is the month itself |
| Calendar.SetDate | src/QDateTime.php:644 | DateTime::setDate keeps the time, always gives a real date, and gives exactly y-m-d when that date exists |
| Calendar.SetDateDay | src/QDateTime.php:644 | the day number of setDate(y, m, d) is the start of the normalised month plus d - 1, so months and days overflow linearly |
| Calendar.SetDayShift | src/QDateTime.php:1225 | setting the day to d moves the day number by d minus the old day |
| Calendar.SetMonthShift | src/QDateTime.php:1212 | setting the month to m + n keeps the day when the target month has it, and otherwise moves into the following month by the excess |
| Calendar.SetDayZero | src/QDateTime.php:1225 | setting the day to 0 gives the last day of the previous month |
| Calendar.SetTime | src/QDateTime.php:613 | DateTime::setTime always gives a valid moment, and the exact time when the parts are in range |
| Calendar.SetTimeTimestamp | src/QDateTime.php:613 | after setTime(h, i, s) the timestamp is the day's midnight plus 3600h + 60i + s, for any h, i, s |
| Calendar.TimestampOfMidnight | src/QDateTime.php:665 | setTime(0, 0) leaves the timestamp at the day's midnight |
| Calendar.TimestampSplit | src/QDateTime.php:1150 | the timestamp lies within the day of its date |
| Calendar.Weekday | src/QDateTime.php:528-529 | the weekday is one of seven |
| Calendar.LeapStep | src/QDateTime.php:1212 | the Gregorian leap-year count grows by one exactly at a leap year |
| Calendar.NextMonthStart | src/QDateTime.php:1212 | the next month starts where this month's days end |
| Calendar.FromTimestamp | src/QDateTime.php:1282 | setTimestamp always gives a valid moment |
| Calendar.TimestampRoundTrip | src/QDateTime.php:1280-1285 | reading the timestamp of the moment a timestamp sets gives that timestamp back (the getter at lines 1149-1150) |
| Calendar.MomentRoundTrip | src/QDateTime.php:1280-1285 | setting the timestamp a valid moment reads gives that moment back (the getter at lines 1149-1150) |
| Calendar.TimestampInjective | src/QDateTime.php:1149-1150 | two valid moments with the same timestamp are equal |
| Calendar.DateInjective | src/QDateTime.php:1149-1150 | two real dates with the same day count are equal |
| Calendar.DayNumberInjective | src/QDateTime.php:1149-1150 | two real dates with the same day number are the same date |
| Calendar.EpochMoment | src/QDateTime.php:1282 | timestamp 0 is 1970-01-01 00:00:00 |
| Calendar.Hour12 | src/QDateTime.php:532-533 | the 12-hour clock reads 1 to 12 |
| Calendar.FieldText | src/QDateTime.php:521-544 | the am/pm texts have two characters |
| Calendar.PadTo | src/QDateTime.php:523 | padding gives at least the width and never shortens |
| Calendar.PaddedFieldReadsBack | src/QDateTime.php:1107-1148 | the (int) cast of format('m'), 'd', 'H', 'i' or 's' is the field |
| Calendar.YearFieldReadsBack | src/QDateTime.php:1121-1126 | the (int) cast of format('Y') is the year, negative years included |
| Calendar.TimestampFieldReadsBack | src/QDateTime.php:1149-1150 | the (int) cast of format('U') is the timestamp |
| QDateTimes.Reinforced | src/QDateTime.php:659-667 | reinforceNullProperties keeps both flags, resets a null date to 2000-01-01 and a null time to 00:00:00, and keeps the other half |
| QDateTimes.ReinforcedIdempotent | src/QDateTime.php:659-667 | reinforcing twice is reinforcing once |
| QDateTimes.QDateTime.ReinforceNullProperties | src/QDateTime.php:659-667 | the object's new state is the reinforced old state |
| QDateTimes.IntArgument | src/QDateTime.php:1212-1282 | an int parameter of a DateTime method accepts a 64-bit integer (or an int as it is), null as 0 and a bool as 0 or 1; a string that does not start with a number (such as the '' that `new QDateTime('@')` passes to date()) raises TypeError; only strings that start with a number but are not -?digits are outside the model |
| QDateTimes.DigitsArgument | src/QDateTime.php:305 | decimal text handed to an int parameter reads as its value |
| QDateTimes.CastToInt | src/QDateTime.php:1211-1281 | the Type::cast to integer that __set (and setDate and setTime at lines 605-607 and 638-640) applies before the int parameter it feeds, with an int taken straight through in the CHECK_AND_CAST and NO_OP behaviours |
| QDateTimes.CastAgrees | src/QDateTime.php:1211-1281 | taking an int straight through in the default and no-op modes is the same as Type::cast to integer and then the int parameter |
| QDateTimes.EpochIsNullAsWritten | src/QDateTime.php:310 | as written, a string strtotime reads as timestamp 0 (1970-01-01 00:00:00 UTC) is a null value; corrected, it is that moment with neither half null |
| QDateTimes.ParsedAsWritten | src/QDateTime.php:310-331 | the strtotime branch as written, which the constructor uses: false or 0 gives the clock's moment with both halves null; a timestamp before year 0 is the null value; otherwise the moment of that timestamp with neither half null |
| QDateTimes.ParsedAgrees | src/QDateTime.php:310 | the written and the corrected branch agree on every result of strtotime() except 0 |
| QDateTimes.ConstructedEpochAsWritten | src/QDateTime.php:309-331 | `new QDateTime(s)` for a string strtotime reads as 0 gives, as written, the clock's moment with both halves null, like a failed parse |
| QDateTimes.Parsed | src/QDateTime.php:310-331 | corrected strtotime branch (not used by the constructor): a failed parse is null on both halves; a timestamp before year 0 is the null value; otherwise the moment of that timestamp with neither half null |
| QDateTimes.Initial | src/QDateTime.php:271-336 | the state the constructor reaches before forcing a type is always a valid moment; its strtotime branch is the written one, where 0 counts as a failure |
| QDateTimes.ConstructedDefaults | src/QDateTime.php:292-302 | null, '' and '0' give the null value 2000-01-01 00:00:00 with both halves null; 'now' in any letter case gives the clock's moment with neither half null |
| QDateTimes.CloneKeepsFlags | src/QDateTime.php:271-279 | a clone keeps both flags and reinforces the null halves; a clone with a time zone raises Caller |
| QDateTimes.AtTimestamp | src/QDateTime.php:303-308 | '@n' gives the moment of Unix timestamp n with neither half null |
| QDateTimes.ForceType | src/QDateTime.php:339-354 | DATE_ONLY nulls the time and reinforces, TIME_ONLY nulls the date and reinforces, DATE_AND_TIME clears both flags, any other type changes nothing |
| QDateTimes.Constructed | src/QDateTime.php:269-355 | the constructor: Initial's state with the requested type forced, or Initial's exception |
| QDateTimes.ForcedTypes | src/QDateTime.php:339-354 | through the constructor: DATE_ONLY gives a null time at 00:00:00 and keeps the date, TIME_ONLY a null date at 2000-01-01 and keeps the time, DATE_AND_TIME neither half null and the moment unchanged |
| QDateTimes.QDateTime.New | src/QDateTime.php:269-355 | a fresh object in the constructed state, or the constructor's exception |
| QDateTimes.QDateTime.Start | src/QDateTime.php:271-336 | a fresh object in the state reached before the type is forced, or the exception |
| QDateTimes.QDateTime.StartText | src/QDateTime.php:292-335 | a fresh object in the state of Initial's string branches, with the truth test of strtotime()'s result as written (0 is a failure) |
| QDateTimes.QDateTime.ForceTyped | src/QDateTime.php:339-354 | the object's new state is the old one with the requested type forced |
| QDateTimes.Get | src/QDateTime.php:1104-1180 | Month, Day and Year read null exactly when the date is null, Hour, Minute and Second exactly when the time is null; the six parts never raise |
| QDateTimes.GetReadsFormat | src/QDateTime.php:1107-1150 | the (int) casts of format('m'), 'd', 'Y', 'H', 'i', 's' and 'U' are the month, day, year, hour, minute, second and timestamp |
| QDateTimes.UnknownProperty | src/QDateTime.php:1177-1178 | any other property name raises UndefinedProperty on get and on set (the setter's default at lines 1287-1288) |
| QDateTimes.NullPartRules | src/QDateTime.php:1202-1279 | a non-null date part on a null date, or time part on a null time, raises Caller naming SetDate or SetTime; null marks that half null and resets it, after which the part reads null |
| QDateTimes.Assigned | src/QDateTime.php:1198-1294 | __set on a state: Caller for a part of a null half, null resets that half, else the int cast and the setter; UndefinedProperty for any other name |
| QDateTimes.AssignedStores | src/QDateTime.php:1202-1285 | with a non-null half (or for Timestamp) an int is stored through setDate, setTime or setTimestamp |
| QDateTimes.SetDatePartReadsBack | src/QDateTime.php:1202-1240 | setting Month, Day or Year to a value that keeps the date real reads back that value, with the flags unchanged |
| QDateTimes.SetTimePartReadsBack | src/QDateTime.php:1241-1279 | setting Hour, Minute or Second to an in-range value reads back that value, with the flags unchanged |
| QDateTimes.SetTimestampReadsBack | src/QDateTime.php:1280-1285 | setting Timestamp clears both flags and reads back the same timestamp |
| QDateTimes.QDateTime.Set | src/QDateTime.php:1198-1294 | the object's new state is the one __set computes, and on an exception the state is unchanged and that exception is raised |
| QDateTimes.QDateTime.Store | src/QDateTime.php:1212-1282 | the object's new state is the int stored through setDate, setTime or setTimestamp |
| QDateTimes.DateSet | src/QDateTime.php:635-648 | setDate leaves the date non-null and keeps the time flag |
| QDateTimes.SetDateReadsBack | src/QDateTime.php:635-648 | setDate of a real date reads back year, month and day, and keeps the time |
| QDateTimes.QDateTime.SetDate | src/QDateTime.php:635-648 | the object's new state is the one setDate computes, or the state is unchanged and the error raised |
| QDateTimes.PartsSet | src/QDateTime.php:591-618 | setTime keeps the date flag |
| QDateTimes.TimeSet | src/QDateTime.php:570-620 | setTime keeps the date flag, whichever argument form it is given |
| QDateTimes.SetTimeReadsBack | src/QDateTime.php:604-618 | setTime of an in-range time reads back hour, minute and second, makes the time non-null and keeps the date |
| QDateTimes.SetTimeToNull | src/QDateTime.php:573-602 | copying the time of a QDateTime whose time is null, or passing a null hour with a minute and second (when given) within 0..59, nulls the time at 00:00:00 and keeps a non-null date |
| QDateTimes.SetTimeNullMinute | src/QDateTime.php:591-602 | an hour within 0..23 with a null minute and a second (when given) within 0..59 nulls the time at 00:00:00 and keeps a non-null date |
| QDateTimes.SetTimeNullCarries | src/QDateTime.php:591-602 | with a null hour or minute, DateTime::setTime first gets the raw parts and only then is the time nulled at 00:00:00: a non-null date ends on the date that raw setTime reaches, which an hour past 23 or a large minute or second carries into a later day; an hour that is no valid int parameter raises its TypeError |
| QDateTimes.SetTimeNullNextDay | src/QDateTime.php:591-602 | setTime(25, null) on 2020-01-31 10:00:00 ends on 2020-02-01 00:00:00 with a null time |
| QDateTimes.QDateTime.SetTime | src/QDateTime.php:570-620 | the object's new state is the one setTime computes, or the state is unchanged and the error raised |
| QDateTimes.TimeNulled | src/QDateTime.php:712-715 | a copy with Hour set to null has a null time and the same date flag |
| QDateTimes.TimeNulledStamp | src/QDateTime.php:712-718 | such a copy's timestamp is the midnight of its date |
| QDateTimes.Compare | src/QDateTime.php:870-891 | compare returns -1, 0 or 1 |
| QDateTimes.DateFlagsDiffer | src/QDateTime.php:702-891 | when the date flags differ every boolean comparison is false, and compare gives -1 if only this date is null and 1 if only the other's is |
| QDateTimes.TimeFlagsDiffer | src/QDateTime.php:702-891 | when only the time flags differ, equality holds exactly for the same date and the order is that of the dates |
| QDateTimes.SameFlagsEqual | src/QDateTime.php:702-722 | with the same flags, isEqualTo holds exactly for the same moment |
| QDateTimes.CompareAgrees | src/QDateTime.php:702-891 | with the same date flag, each boolean comparison agrees with compare's sign |
| QDateTimes.CompareAntisymmetric | src/QDateTime.php:702-891 | swapping the operands negates compare, swaps earlier and later, and keeps equality |
| QDateTimes.RunEnd | src/QDateTime.php:508 | the run at q is maximal: every character up to its end is the letter at q, and the next one is not |
| QDateTimes.MatchesFrom | src/QDateTime.php:508-510 | preg_match_all of the token pattern always finds at least one match |
| QDateTimes.StrPos | src/QDateTime.php:517 | strpos finds the first occurrence at or after the offset, or reports that there is none |
| QDateTimes.StrPosAtRun | src/QDateTime.php:517 | strpos of a run from the scan position finds the run itself, since the gap before it holds no format letter |
| QDateTimes.PlainFormat | src/QDateTime.php:508-553 | a format without any of the letters D M Y h m s z t is returned as it is |
| QDateTimes.PlainRender | src/QDateTime.php:514-551 | characters that are not format letters are copied in order |
| QDateTimes.TokenTruth | src/QDateTime.php:515-516 | a match is a token (truthy after trim) exactly when a format letter starts there |
| QDateTimes.RunToken | src/QDateTime.php:515-516 | a run of format letters is unchanged by trim and truthy |
| QDateTimes.FormatStep | src/QDateTime.php:514-547 | one pass of the loop keeps the rendering invariant: text so far plus the rendering of the rest is the rendering of the whole format |
| QDateTimes.TokenText | src/QDateTime.php:521-546 | qFormat's match table: each listed run of a format letter becomes its DateTime::format field ('zzz' and 'zzzz' the first letter of 'a' or 'A' followed by '.m.' or '.M.'), any other run is copied as it is |
| QDateTimes.FormatTokens | src/QDateTime.php:508-553 | the tokenizer loop produces the rendering of the format: each maximal run of a format letter becomes the table's field text if the run is in the table, or itself if not, and every other character is copied in order |
| QDateTimes.QDateTime.QFormat | src/QDateTime.php:492-555 | '' when both halves are null; otherwise the rendering of the format given, or when none is given of the time-only, date-only or full default according to which half is null |
| QDateTimes.Plus | src/QDateTime.php:927-994 | PHP's += of an int to a part: an int part gains n, and a part that reads as null counts as 0 |
| QDateTimes.Added | src/QDateTime.php:925-996 | $this->Part += n is __set of the part's read value plus n |
| QDateTimes.Shifted | src/QDateTime.php:925-996 | the state after adding to a part of a non-null half |
| QDateTimes.AddedShifts | src/QDateTime.php:925-996 | on a non-null half, adding succeeds and stores the part plus n |
| QDateTimes.AddedToNullHalf | src/QDateTime.php:925-996 | adding to a part of a null half raises the Caller of the setter (null + n is n, not null) |
| QDateTimes.ShiftedSeconds | src/QDateTime.php:925-929 | addSeconds(n) moves the timestamp by n and keeps both flags |
| QDateTimes.ShiftedMinutes | src/QDateTime.php:937-941 | addMinutes(n) moves the timestamp by 60n and keeps both flags |
| QDateTimes.ShiftedHours | src/QDateTime.php:949-953 | addHours(n) moves the timestamp by 3600n and keeps both flags |
| QDateTimes.ShiftedSecondsInverse | src/QDateTime.php:925-929 | addSeconds(-n) undoes addSeconds(n) |
| QDateTimes.SecondsShiftedBack | src/QDateTime.php:925-929 | any state with the same flags and a timestamp n later comes back with addSeconds(-n) |
| QDateTimes.ShiftedDays | src/QDateTime.php:961-965 | addDays(n) moves the day number by n, keeps the time and both flags |
| QDateTimes.ShiftedDaysInverse | src/QDateTime.php:961-965 | addDays(-n) undoes addDays(n) |
| QDateTimes.DaysShiftedBack | src/QDateTime.php:961-965 | any state with the same flags and time and a day number n later comes back with addDays(-n) |
| QDateTimes.ShiftedYears | src/QDateTime.php:992-996 | addYears(n) keeps month and day when the date exists n years on, and otherwise turns 29 February into 1 March; time and flags are kept |
| QDateTimes.MonthsAdded | src/QDateTime.php:975-984 | addMonths as the code does it: add to Month, and when the day changed set Day to 1 and add -1 day |
| QDateTimes.MonthsShifted | src/QDateTime.php:975-984 | the same steps on a non-null date |
| QDateTimes.MonthsAddedShifts | src/QDateTime.php:975-984 | on a non-null date addMonths succeeds with those steps |
| QDateTimes.MonthsShiftedClamps | src/QDateTime.php:975-984 | addMonths lands in the month n months on, keeps the day when that month has it and otherwise clamps to its last day (Jan 31 + 1 month is the last day of February); time and flags are kept |
| QDateTimes.MonthOverflowRepaired | src/QDateTime.php:978-981 | after an overflow into the following month, Day = 1 then one day back is the last day of the intended month |
| QDateTimes.MonthsAddedToNullDate | src/QDateTime.php:975-984 | on a null date addMonths raises the Month setter's Caller |
| QDateTimes.QDateTime.Add | src/QDateTime.php:925-996 | the object's new state is the one adding computes, or the state is unchanged and the error raised |
| QDateTimes.QDateTime.AddSeconds | src/QDateTime.php:925-929 | the object's new state is Second += n, or unchanged with the error raised |
| QDateTimes.QDateTime.AddMinutes | src/QDateTime.php:937-941 | the object's new state is Minute += n, or unchanged with the error raised |
| QDateTimes.QDateTime.AddHours | src/QDateTime.php:949-953 | the object's new state is Hour += n, or unchanged with the error raised |
| QDateTimes.QDateTime.AddDays | src/QDateTime.php:961-965 | the object's new state is Day += n, or unchanged with the error raised |
| QDateTimes.QDateTime.AddYears | src/QDateTime.php:992-996 | the object's new state is Year += n, or unchanged with the error raised |
| QDateTimes.QDateTime.AddMonths | src/QDateTime.php:975-984 | the object's new state is the one addMonths computes on success; on an error that error is raised |
| QDateTimes.QDateTime.Difference | src/QDateTime.php:900-904 | a new span of this value's timestamp less the other's |
| QDateTimes.QDateTime.AddSpan | src/QDateTime.php:912-917 | the new state is that of setting Timestamp to the timestamp plus the span's seconds, or unchanged with the error raised |
| QDateTimes.DifferenceThenAddSpan | src/QDateTime.php:900-917 | adding a->difference(b) to b lands on a's moment, and neither half of b is null afterwards |
| QDateTimes.SetSpanFromQDateTime | src/DateTimeSpan.php:103-106 | setFromQDateTime adds the timestamp of `from` less that of `to` to the span |
| Js.ReplaceSevenIsEscapeAll | src/Js/Helper.php:159-162 | str_replace with the eight search strings applied one after the other equals escaping each character on its own |
| Js.ReplaceAsWrittenIsEscapeAll | src/Js/Helper.php:159-162 | the same holds with the "\b" pair, which searches for a backslash already escaped and so changes nothing |
| Js.EscapeKeeps | src/Js/Helper.php:159-162 | every character other than backslash, '/', LF, TAB, CR, FF and '"' is kept as it is |
| Js.JsEncodeString | src/Js/Helper.php:157-163 | the input wrapped in '"' with each character escaped on its own |
| Js.EscapeAllConcat | src/Js/Helper.php:157-163 | escaping distributes over concatenation |
| Js.UnescapeOne | src/Js/Helper.php:157-163 | the reading back of one escaped character gives that character |
| Js.EscapeAllRoundTrip | src/Js/Helper.php:157-163 | the escaping is undone by reading back JavaScript escapes, so no two strings encode alike |
| Js.JsStringReadsBack | src/Js/Helper.php:157-163 | a string renders between two quotes and its content reads back as the string |
| Js.Js | src/Js/Helper.php:80-144 | toJsObject() as a recursive reference: null, booleans, ints, quoted strings, lists and hashes, and each JavaScript wrapper; ToJsObject proves the loop encoder equal to it |
| Js.ToJsObject | src/Js/Helper.php:80-144 | the recursive encoder returns the rendering Js of its value |
| Js.ObjectToJs | src/Js/Helper.php:102-106 | an object delegates to its own toJsObject, or renders as '' when it has none |
| Js.IsListShaped | src/Js/Helper.php:110 | array_diff_key($array, array_keys(array_keys($array))) is empty exactly when every key is an integer within 0..n-1 |
| Js.ArrayToJs | src/Js/Helper.php:108-134 | an array renders as a list when its key set is {0..n-1} and as a hash otherwise |
| Js.HashToJs | src/Js/Helper.php:110-123 | the hash loop gives '{' + the entries joined, a ',' added whenever the text so far is truthy, + '}' |
| Js.HashJoinStep | src/Js/Helper.php:113-121 | one pass of the hash loop extends the joined entries by one |
| Js.ListToJs | src/Js/Helper.php:124-133 | the list loop gives '[' + the items joined, a ',' added whenever the text so far is non-empty, + ']' |
| Js.FuncToJs | src/Js/Func.php:48-64 | the parameter loop gives Func's rendering |
| Js.ParameterListToJs | src/Js/ParameterList.php:39-49 | the loop gives ParameterList's rendering |
| Js.JsScalars | src/Js/Helper.php:84-100 | null renders 'null', booleans 'true' and 'false', integers their decimal text |
| Js.JsEmptyArray | src/Js/Helper.php:108-134 | the empty array renders '[]' |
| Js.JsList | src/Js/Helper.php:124-133 | a list-shaped array renders its items in insertion order joined by ',', with the leading items that render as '' dropped |
| Js.JsHash | src/Js/Helper.php:110-123 | any other array renders '{' + its entries in insertion order joined by ',' + '}' |
| Js.HashEntryKey | src/Js/Helper.php:117-121 | an entry is its key rendered as a value (string keys quoted), ': ' and its rendered value; with a NoQuoteKey value the key goes out raw |
| Js.KeyJsIsJs | src/Js/Helper.php:120 | a key renders as the value it stands for |
| Js.ListJoinMeaning | src/Js/Helper.php:126-133 | the list join is implode(',') of the renderings after the leading empty ones |
| Js.LeadingEmpty | src/Js/Helper.php:126-133 | the count of leading empty renderings: all before it are '' and the next one is not |
| Js.LeadingEmptyUnique | src/Js/Helper.php:126-133 | that count is the only one with this property |
| Js.HashJoinMeaning | src/Js/Helper.php:113-121 | since every entry text is at least two characters, the hash join is plain implode(',') |
| Js.EntryTextsLong | src/Js/Helper.php:117-121 | every entry text holds at least ': ' |
| Js.ListSkipsLeadingEmpty | src/Js/Helper.php:126-133 | a list whose first item renders as '' and second as 1 renders '[1]' |
| Js.JsWithoutMethod | src/Js/Helper.php:102-106 | an object without toJsObject renders as '' |
| Js.VarNameRaw | src/Js/VarName.php:42-45 | a VarName renders exactly as its raw content |
| Js.NoQuoteKeyDelegates | src/Js/NoQuoteKey.php:48-51 | a NoQuoteKey renders as its content does |
| Js.FuncRendering | src/Js/Func.php:48-64 | a Func renders as its callee name, '(', each parameter rendered and joined by ',', ')'; no parameters give 'name()' |
| Js.CalleeName | src/Js/Func.php:59-62 | the name Func calls: 'context.name' when the context is truthy, otherwise the bare name |
| Js.CalleeNameRule | src/Js/Func.php:59-62 | a truthy context gives 'context.name', anything else the bare name |
| Js.FuncKeepsEmptyParameter | src/Js/Func.php:52-55 | unlike a list, a Func puts ',' between every parameter: an empty then a 1 give 'f(,1)' |
| Js.ClosureRendering | src/Js/Closure.php:44-48 | a Closure renders as 'function(' + its parameter names joined by ', ' + ') {' + the body verbatim + '}', with no names giving 'function() {' |
| Js.ParameterListEmpty | src/Js/ParameterList.php:39-49 | an empty ParameterList renders '' |
| Js.ParameterListBrackets | src/Js/ParameterList.php:39-49 | for a list-shaped array, '[' + the ParameterList of its values + ']' is the array's rendering |
| Js.Values | src/Js/ParameterList.php:29-31 | the values of an array in insertion order |
| Js.Assign | src/Js/Func.php:72-80 | $a[k] = x makes k read x and leaves every other key as it was |
| Js.MakeJsonEncodable | src/Js/Helper.php:202-225 | with UTF-8 as the encoding the value is returned as it is |
| Js.FuncJsonSerialize | src/Js/Func.php:70-82 | qObjType is 'qFunc' and func the name; context is present only when truthy and params only when non-empty; no other key |
| Js.NameList | src/Js/Closure.php:57-60 | the parameter names as a list-shaped PHP array in order |
| Js.ClosureJsonSerialize | src/Js/Closure.php:54-61 | qObjType is 'qClosure', func the body, params the names, present even when null; no other key |
| Js.VarNameJsonSerialize | src/Js/VarName.php:52-57 | qObjType is 'qVarName' and varName the content; no other key |
| Js.NoQuoteKeyJsonSerialize | src/Js/NoQuoteKey.php:58-61 | the content itself |
| Js.DataNameFromCamelCase | src/Js/Helper.php:37-48 | raises Caller exactly when two capitals are adjacent |
| Js.DashedIsLowerCase | src/Js/Helper.php:37-48 | the dashed name has no capital |
| Js.DashedStart | src/Js/Helper.php:37-48 | a capital start becomes '-', anything else stays |
| Js.DashedRoundTrip | src/Js/Helper.php:37-66 | dataNameToCamelCase undoes the dashing when no '-' stands directly before a lowercase letter |
| Js.DataNameToCamelCase | src/Js/Helper.php:58-66 | dataNameToCamelCase(): each '-' followed by a lowercase letter becomes that letter in upper case, left to right; DataNameRoundTrip inverts dataNameFromCamelCase with it |
| Js.DataNameRoundTrip | src/Js/Helper.php:37-66 | for such a name with no adjacent capitals, dataNameFromCamelCase succeeds and dataNameToCamelCase gives the name back |
| Js.TerminateScript | src/Js/Helper.php:236-248 | '' exactly when the trimmed script is falsy ('' or "0"); otherwise the trimmed script, ';' unless it ends in one, then the newline |
| Js.TrimTerminated | src/Js/Helper.php:241 | trimming a trimmed text followed by blank newline characters gives the text |
| Js.TerminateScriptIdempotent | src/Js/Helper.php:236-248 | terminating a terminated script changes nothing |
| Sessions.TsKeyOwner | src/Helper/SessionCleaner.php:82 | a timestamp key starts with '__sc_ts_' and names the key it stamps |
| Sessions.TsKeyInjective | src/Helper/SessionCleaner.php:82 | two keys never share a timestamp key |
| Sessions.TsKeyOfTsKey | src/Helper/SessionCleaner.php:82 | the timestamp key of a timestamp key starts with the prefix twice |
| Sessions.NestedOwner | src/Helper/SessionCleaner.php:82 | a key whose timestamp key starts with the prefix twice is itself a timestamp key |
| Sessions.Unique | src/Helper/SessionCleaner.php:40 | array_unique returns the same elements, each once |
| Sessions.UniqueOfDistinct | src/Helper/SessionCleaner.php:40 | array_unique leaves a list without repeats as it is |
| Sessions.UniqueExtends | src/Helper/SessionCleaner.php:40 | merging more keys keeps the earlier unique list as a prefix, so preserved keys are never dropped |
| Sessions.Without | src/Helper/SessionCleaner.php:91 | removing a key from the key order keeps every other key and no repeats |
| Sessions.Remove | src/Helper/SessionCleaner.php:91 | unset removes exactly that key and keeps the session well formed |
| Sessions.Put | src/Helper/SessionCleaner.php:125 | assignment sets exactly that key and keeps the session well formed |
| Sessions.SweepStepEffect | src/Helper/SessionCleaner.php:78-92 | one autoClean step only removes entries; it removes the key and its timestamp when the key is not preserved and its timestamp is set and old enough, and otherwise changes nothing |
| Sessions.StampEffect | src/Helper/SessionCleaner.php:124-126 | a set key without a set timestamp gets the time now as its timestamp; nothing else changes |
| Sessions.Sweep | src/Helper/SessionCleaner.php:64-99 | autoClean()'s loop over the first n keys of the snapshot, one SweepStep each: a preserved or unstamped key is skipped, an expired key goes with its stamp |
| Sessions.SweepKeepsPreserved | src/Helper/SessionCleaner.php:76-93 | a preserved key keeps its value through the whole autoClean loop |
| Sessions.CleanSweep | src/Helper/SessionCleaner.php:111-143 | clean()'s loop over the first n listed keys, one CleanStep each: stamp a present unstamped key, then the autoClean age rule |
| Sessions.CleanKeepsPreserved | src/Helper/SessionCleaner.php:117-137 | a preserved key keeps its value through the whole clean loop |
| Sessions.CleanTouchesOnlyListed | src/Helper/SessionCleaner.php:117-137 | clean touches only the listed keys and their timestamps |
| Sessions.CleanStepRule | src/Helper/SessionCleaner.php:122-136 | a set key without a timestamp is stamped and then removed at once exactly when maxAge <= 0; a key already stamped follows the autoClean rule |
| Sessions.SweepEntry | src/Helper/SessionCleaner.php:76-93 | whatever survives the autoClean loop keeps its value |
| Sessions.SweepSkipsTsKey | src/Helper/SessionCleaner.php:82-86 | a timestamp key in the snapshot whose own timestamp is missing is skipped |
| Sessions.SweepTracksKey | src/Helper/SessionCleaner.php:76-93 | after the loop has passed a key, it stays exactly when it is preserved or not expired, and its timestamp goes with it |
| Sessions.SweepTracksStamp | src/Helper/SessionCleaner.php:76-93 | a timestamp disappears only together with the key it stamps |
| Sessions.AutoCleanRule | src/Helper/SessionCleaner.php:64-99 | over the whole session: nothing is changed, only removed; a key stays exactly when preserved or not expired and takes its timestamp along; a timestamp goes only with its key |
| Sessions.Session.constructor | src/Helper/SessionCleaner.php:76 | holds the given session contents |
| Sessions.Session.Unset | src/Helper/SessionCleaner.php:91 | the session loses the key |
| Sessions.Session.Assign | src/Helper/SessionCleaner.php:125 | the session gains or updates the key |
| Sessions.SessionCleaner.constructor | src/Helper/SessionCleaner.php:23-26 | no preserved keys and autoClean not yet run |
| Sessions.SessionCleaner.SetPreserveKeys | src/Helper/SessionCleaner.php:38-41 | the preserved keys become array_unique of the old ones merged with the new ones |
| Sessions.SessionCleaner.Expire | src/Helper/SessionCleaner.php:78-92 | one pass of the autoClean loop body |
| Sessions.SessionCleaner.AutoClean | src/Helper/SessionCleaner.php:64-99 | runs at most once: a second call or an inactive session changes nothing; the first active call sweeps a snapshot of the keys in order |
| Sessions.AutoCleanTwice | src/Helper/SessionCleaner.php:66-70 | a second autoClean leaves the session as the first one left it |
| Sessions.SessionCleaner.Clean | src/Helper/SessionCleaner.php:111-143 | an inactive session is left alone; otherwise the listed keys are processed in order |
| Sessions.SessionCleaner.CleanOne | src/Helper/SessionCleaner.php:117-137 | one pass of the clean loop body |
| ObjectBase.BaseGet | src/ObjectBase.php:41-45 | reading any property of the base object raises UndefinedProperty for GET with the class and the name |
| ObjectBase.BaseSet | src/ObjectBase.php:60-64 | writing any property raises UndefinedProperty for SET with the class and the name |
| ObjectBase.BaseCall | src/ObjectBase.php:74-78 | calling any missing method raises UndefinedMethod naming the class and the method |
| ObjectBase.FirstIndexOf | src/ObjectBase.php:112 | strpos: none exactly when the character is absent, otherwise its first position |
| ObjectBase.ParseAttribute | src/ObjectBase.php:112-130 | a text without '=' is malformed, and every failure is the "Improperly formatted overrideAttribute" Caller for that text |
| ObjectBase.ParseUnquoted | src/ObjectBase.php:112-130 | key=value with the value not starting with a quote yields that key and value |
| ObjectBase.KeyBeforeFirstEquals | src/ObjectBase.php:112-117 | the key is the text before the first '=' |
| ObjectBase.ParseQuoted | src/ObjectBase.php:120-129 | a single- or double-quoted value loses its two quotes |
| ObjectBase.ParseUnbalanced | src/ObjectBase.php:120-128 | a value opening with a quote it does not end with is malformed |
| ObjectBase.PairsApplied | src/ObjectBase.php:101-109 | the pairs loop assigns at most as many pairs as it visits, and all of them when no assignment raises |
| ObjectBase.ItemsApplied | src/ObjectBase.php:95-142 | the __set calls of the first n items of overrideAttributes' list, item by item, up to and including the first that raises |
| ObjectBase.OverrideApplied | src/ObjectBase.php:95-142 | overrideAttributes() on its argument: nothing for a string (a falsy one fails the test, and foreach does not iterate any other), else the items of the array applied in order until one raises |
| ObjectBase.RaiseStops | src/ObjectBase.php:99-140 | the first item that raises ends the loop: what it assigned before raising stays and its exception is the result |
| ObjectBase.MalformedText | src/ObjectBase.php:112-115 | a text item without '=' assigns nothing and raises Caller |
| ObjectBase.PairsAllAssigned | src/ObjectBase.php:101-109 | when no assignment raises, every pair is assigned in order |
| ObjectBase.PairsAllAssignedUpTo | src/ObjectBase.php:101-109 | the same for the first n pairs |
| ObjectBase.PairsStop | src/ObjectBase.php:103-108 | once a pair raises, the later pairs change nothing |
| ObjectBase.ItemsStop | src/ObjectBase.php:99-140 | once an item raises, the later items change nothing |
| ObjectBase.Attributes.constructor | src/ObjectBase.php:27 | an object of the class with its __set rule and nothing assigned |
| ObjectBase.Attributes.Set | src/ObjectBase.php:104 | __set either raises and assigns nothing, or records the assignment (the call at line 134 is the same) |
| ObjectBase.Attributes.SetPairs | src/ObjectBase.php:101-109 | the pairs loop makes the assignments PairsApplied describes and ends with its outcome |
| ObjectBase.Attributes.ApplyItem | src/ObjectBase.php:100-139 | one override item, array or text, has the effect ItemApplied describes |
| ObjectBase.Attributes.ApplyNext | src/ObjectBase.php:99-140 | one more pass of the item loop extends the assignments by that item's |
| ObjectBase.Attributes.ApplyItems | src/ObjectBase.php:99-140 | the item loop has the effect ItemsApplied describes |
| ObjectBase.Attributes.OverrideAttributes | src/ObjectBase.php:95-142 | a falsy argument assigns nothing; otherwise every item is applied in order until one raises |
| Timers.Timer.constructor | src/Timer.php:56-62 | a new timer has its name, no start, zero accumulated time and zero starts |
| Timers.Timer.Running | src/Timer.php:131-137 | a timer runs while its start time is set |
| Timers.Timer.TimerTime | src/Timer.php:131-137 | a stopped timer reads its accumulated time; a running one adds the time since its start |
| Timers.Timer.StartTimer | src/Timer.php:68-76 | starting a running timer raises Caller and changes nothing; otherwise it records the start and counts one more start |
| Timers.Timer.StopTimer | src/Timer.php:159-164 | stopping returns the reading, keeps it as the accumulated time and leaves the timer stopped; a stopped timer keeps its time |
| Timers.Timer.ResetTimer | src/Timer.php:183-189 | resetting returns the reading, zeroes the time and restarts from now, counting one more start |
| Timers.Timer.Get | src/Timer.php:250-257 | CountStarted and TimeStart read their fields; any other name raises Caller "Undefined property: " + name |
| Timers.StoppedReadingFrozen | src/Timer.php:131-137 | a stopped timer reads the same whenever it is read |
| Timers.StartStop | src/Timer.php:159-164 | a start at s then a stop at e adds e - s to the accumulated time (startTimer at lines 68-76) |
| Timers.Registry.constructor | src/Timer.php:29 | the registry starts empty |
| Timers.Registry.Start | src/Timer.php:84-109 | start creates the named timer when missing (one start, no time) and starts it, keeping its accumulated time and counting the start; when it already runs it raises Caller and the timer is unchanged; no other timer changes |
| Timers.Registry.GetTime | src/Timer.php:117-125 | the named timer's reading, or Caller when no such timer exists |
| Timers.Registry.Stop | src/Timer.php:145-153 | stops the named timer, stores its current reading as the accumulated time and returns it, with the start count unchanged; raises Caller when it does not exist |
| Timers.Registry.Reset | src/Timer.php:172-176 | resets the named timer (no time, started now, one more start) and returns its reading before the reset, or null when it does not exist |
| Timers.Registry.GetTimer | src/Timer.php:197-205 | the named timer, or null; never creates one |
| CallerException.TraceValue | src/Exception/Caller.php:165-166 | the trace as a list-shaped array, one frame per index in order |
| CallerException.Caller.constructor | src/Exception/Caller.php:84-94 | keeps message, offset and trace; the location is that of the frame at the offset when it has a file, and the throw site otherwise |
| CallerException.Caller.SetMessage | src/Exception/Caller.php:101-104 | only the message changes |
| CallerException.Caller.MoveTo | src/Exception/Caller.php:109-141 | moving the offset relocates the exception at the frame it reaches ('' and 0 for a frame without location); a missing frame raises and keeps the location |
| CallerException.Caller.IncrementOffset | src/Exception/Caller.php:109-122 | the offset goes up by one and the exception is relocated at that frame, the line reset to 0 for a frame without one |
| CallerException.Caller.DecrementOffset | src/Exception/Caller.php:128-141 | the offset goes down by one with the same relocation |
| CallerException.Caller.IncrementOffsetAsWritten | src/Exception/Caller.php:109-122 | as written: at a frame without location the file becomes '' and assigning '' to the int line raises a TypeError |
| CallerException.AsWrittenInternalFrame | src/Exception/Caller.php:117-121 | a trace whose next frame has no location: the code as written raises, the corrected one relocates to '' and 0 |
| CallerException.IncrementThenDecrement | src/Exception/Caller.php:109-141 | an increment then a decrement restore the offset and, when both find a frame, the location |
| CallerException.Caller.Get | src/Exception/Caller.php:155-176 | Offset, BackTrace, TraceArray and ErrorNumber (0) read back; any other name raises "Unknown property " + name |
| Crypto.Configure | src/Cryptography.php:92-142 | without a key argument and without a default key the constructor raises; otherwise the key is the argument or the default, the cipher is the chosen one, the IV hash key is kept as given, and a cipher openssl does not know leaves the IV null |
| Crypto.ChosenCipher | src/Cryptography.php:119-125 | the configured default cipher wins, then a truthy argument, then 'AES-256-CBC' |
| Crypto.ConfigureUnknownCipher | src/Cryptography.php:128-138 | as written, a cipher openssl does not know gives an instance with that cipher and a null IV: the warning and `false` of openssl_cipher_iv_length() pass the catch, and `false == 0` holds |
| Crypto.ConfigureChecked | src/Cryptography.php:128-133 | the intended constructor never yields an instance whose cipher openssl does not know |
| Crypto.CheckedUnknownCipher | src/Cryptography.php:128-133 | the intended constructor raises Caller "No Cipher with name ... could be found" for an unknown cipher |
| Crypto.CheckedAgrees | src/Cryptography.php:128-141 | for a cipher openssl knows, the intended constructor is the one as written |
| Crypto.ConfigureKnownCipher | src/Cryptography.php:106-141 | a known cipher is kept, the Base64 flag is the cast to boolean of the argument or the static default, and the IV is null exactly when the cipher's IV length is 0 |
| Crypto.ConfigureBase64Flag | src/Cryptography.php:107-112 | casting a boolean flag to boolean keeps it |
| Crypto.HexDigit | src/Cryptography.php:170 | a nibble becomes one lowercase hex digit |
| Crypto.HexValueOfDigit | src/Cryptography.php:215 | reading a hex digit back gives its nibble |
| Crypto.Hex | src/Cryptography.php:170 | bin2hex doubles the length and yields only hex digits |
| Crypto.HexDecode | src/Cryptography.php:215 | hex2bin(): None (false) for an odd length or a non-hex character, else the bytes; HexRoundTrip inverts bin2hex with it |
| Crypto.HexRoundTrip | src/Cryptography.php:215 | hex2bin undoes bin2hex |
| Crypto.LastIndexOf | src/Cryptography.php:196 | strrpos: the last position of the character, or none when it is absent |
| Crypto.Unframe | src/Cryptography.php:195-216 | the unframing of decrypt(): split at the last ':' and check the HMAC, then split at the last ':' of the rest for the hex IV; a missing ':' or one at position 0 raises, and every raise is a Cryptography exception |
| Crypto.Framed | src/Cryptography.php:170-171 | encrypt's framing with an IV hash key: ':' and bin2hex of the IV, then ':' and the HMAC of everything before that second colon |
| Crypto.UnframeFramed | src/Cryptography.php:195-217 | reading back a framed ciphertext ('ciphertext:hex(iv):hmac') recovers the ciphertext and the IV |
| Crypto.UnframeAt | src/Cryptography.php:195-217 | the unframing splits at the last ':' and then at the last ':' before it, and decodes the IV from hex |
| Crypto.ColonJoin | src/Cryptography.php:170-171 | 'a:b' splits back into a and b at the colon |
| Crypto.LastColonAt | src/Cryptography.php:196 | a ':' with none after it is the one strrpos finds |
| Crypto.TamperDetected | src/Cryptography.php:204-207 | a trailing hash other than the HMAC of the rest raises "Encryption tampering detected" |
| Crypto.NoHashValue | src/Cryptography.php:196-199 | no ':' at all, or only one at position 0 (loosely equal to null), raises "Hash value not found." |
| Crypto.NoIv | src/Cryptography.php:209-213 | a correctly hashed text without a second ':' raises "IV not found." |
| Crypto.Encrypt | src/Cryptography.php:155-179 | without Base64 the result is the framed payload itself; with Base64 it holds only URL-safe characters |
| Crypto.Decrypt | src/Cryptography.php:189-219 | only the unframing raises, with a Cryptography exception; without IV hash key and Base64 the result is what openssl_decrypt gives, and '' when it returns false (the string return type coerces it) |
| Crypto.EncryptDecrypt | src/Cryptography.php:155-219 | decrypting an encryption never raises and gives what openssl_decrypt makes of the ciphertext with the IV used ('' for its false): the framing and the Base64 layer are undone exactly |

## Left out

- Floating point is not modelled. This covers the FLOAT target of `Type::cast`, float sources, and the float-to-string comparison (src/Type.php:357-392, 407-415). It also covers the double rendering of `Helper::toJsObject` and `formatFileSize`. A cast whose result would be a float returns `Raise` with the kind `OutsideModel`.
- Span.DateTimeSpan.GetTimearray: the parts are exact integers. In PHP `floor()` returns a float, so every part is a float such as `3.0`. Beyond 2^53 seconds, and for the `abs()` of the least 64-bit integer, the float division rounds and the parts can differ from the exact split.
- Span.DateTimeSpan.Get: the whole-unit getters and the Timearray parts are `Ok(Int(..))`, where PHP returns the float of `floor()`. This is exact only below 2^53 seconds.
- Span.WholeUnits: the same exact-integer reading of `floor($intSeconds / $unit)`.
- Span.DateTimeSpan.SimpleDisplay assumes that its unqualified `tp()` calls behave like the library's fallback `QCubed\Common\tp` (i18n/i18n-lib.inc.php:40). DateTimeSpan.php is in the namespace `QCubed` and has no `use function`, so PHP resolves the call to `QCubed\tp()` or the global `tp()`. This repository defines neither. As written, the call raises the Error "Call to undefined function QCubed\tp()" unless the application supplies one, and the model does not capture that.
- Sessions.CleanStepRule: one instant `now` stands for every `time()` call of an `autoClean()` or `clean()` call, where PHP reads the clock again at each one (src/Helper/SessionCleaner.php:88, 125 and 132). The rule that a freshly stamped key goes at once exactly when maxAge <= 0 depends on that: if a second boundary falls between the stamp at line 125 and the age test at line 132, a key with maxAge 1 is removed too.
- Sessions.AutoCleanRule, Sessions.SessionCleaner.AutoClean and Sessions.SessionCleaner.Clean: the age of every key is measured at the same instant `now`. PHP measures each key at its own `time()` call, so a later key can be found expired at a later second.
- Timer readings are whole numbers here. `microtime(true)` is a float in PHP, and this model passes it in as an integer `now`.
- Span.IntPropertyValue: strings that start with a number but are not -?digits (blanks, a '+', a fraction, an exponent, trailing text) give `OutsideModel`; strings that do not start with a number raise TypeError as in PHP.
- QDateTimes.IntArgument: strings that start with a number but are not -?digits (leading or trailing blanks, a '+', a fraction, an exponent, trailing text that PHP accepts with a warning) give `OutsideModel`; strings that do not start with a number raise TypeError as in PHP.
- PHP's conversion of numeric strings through a float is not modelled. This means exponents, leading blanks in an int argument, and values beyond 64 bits that go through a float. Those strings give `OutsideModel` where a DateTime or DateTimeSpan method would receive them. The integer parser itself follows `(int)` with 64-bit saturation.
- Integer overflow into float is not modelled. The sums in the `add*` methods and the timestamps of QDateTime are unbounded integers, whereas PHP 8 would turn an overflowing sum into a float.
- Time zones are not modelled. Every moment is read in UTC. This drops the zone argument of the QDateTime constructor and `convertToTimezone`. It also drops the re-basing that `setTime` does for a QDateTime argument in another zone (src/QDateTime.php:579-583).
- `strtotime()` parsing is not modelled. It is the `parse` function of the `Clock` parameter.
- `QDateTime::now`, `nowToString`, `fromTimestamp`, `phpDate`, `getSoapDateTimeArray`, `lastDayOfTheMonth`, `firstDayOfTheMonth`, `modify`, `__toString`, `serialize`/`unserialize`, `toJsObject` and `jsonSerialize` are not modelled. They read the wall clock, go through DateTime's own formatting and parsing, or produce transport formats.
- The properties `Age`, `LastDayOfTheMonth` and `FirstDayOfTheMonth` read the wall clock or call `DateTime::modify`. They give `OutsideModel`.
- Microseconds are not modelled. The `$intMicroSeconds` argument of `setTime` is ignored.
- Calendar.FieldText: the two-digit year 'y' takes the year modulo 100 the Euclidean way. For negative years, the `date('y')` of C-style remainder is not modelled.
- QDateTimes.AddedShifts: stated for the default (CHECK_AND_CAST) and NO_OP behaviours of `Type` only. Under any other behaviour every cast raises, which `Assigned` models.
- QDateTimes.MonthsAddedShifts: stated for the default (CHECK_AND_CAST) and NO_OP behaviours of `Type` only. Under any other behaviour every cast raises, which `Assigned` models.
- QDateTimes.SetDatePartReadsBack: stated for the default (CHECK_AND_CAST) and NO_OP behaviours of `Type` only. Under any other behaviour every cast raises, which `Assigned` models.
- QDateTimes.SetTimePartReadsBack: stated for the default (CHECK_AND_CAST) and NO_OP behaviours of `Type` only. Under any other behaviour every cast raises, which `Assigned` models.
- QDateTimes.SetTimestampReadsBack: stated for the default (CHECK_AND_CAST) and NO_OP behaviours of `Type` only. Under any other behaviour every cast raises, which `Assigned` models.
- QDateTimes.SetDateReadsBack: stated for the default (CHECK_AND_CAST) and NO_OP behaviours of `Type` only. Under any other behaviour every cast raises, which `Assigned` models.
- QDateTimes.SetTimeReadsBack: stated for the default (CHECK_AND_CAST) and NO_OP behaviours of `Type` only. Under any other behaviour every cast raises, which `Assigned` models.
- QDateTimes.AssignedStores: stated for the default (CHECK_AND_CAST) and NO_OP behaviours of `Type` only. Under any other behaviour every cast raises, which `Assigned` models.
- QDateTimes.DifferenceThenAddSpan: stated for the default (CHECK_AND_CAST) and NO_OP behaviours of `Type` only. Under any other behaviour every cast raises, which `Assigned` models.
- QDateTimes.QDateTime.AddMonths does not state the object's state when the second or third step of `addMonths` raises. It states only the exception.
- Crypto.Decrypt: its own contract states the result only for the case without IV hash key and without Base64 (for the others it states that only the unframing raises). The Base64 layer and the framed paths are stated by Crypto.EncryptDecrypt and by the unframing lemmas.
- Crypto.Configure follows PHP's default error handler, under which the warning of `openssl_cipher_iv_length()` is only reported. With QCubed's own handler installed the warning is displayed and the script ends (src/Error/Manager.php:244), which the model does not capture. A `QCUBED_CRYPTOGRAPHY_DEFAULT_CIPHER` defined as '' is chosen as it is (src/Cryptography.php:119-120), and PHP 8's `openssl_cipher_iv_length('')` then throws a ValueError that the `catch (Exception)` does not catch; `ssl.ivLength` leaves that case to the parameter.
- The tamper check of `decrypt` compares the two HMACs with `!=`, which in PHP is a loose comparison. The model compares them strictly. Two different hex digests that PHP compares as equal numeric strings (for example "0e1" and "0e2") are not modelled.
- The openssl functions, `hash_hmac` (HMAC-SHA256, RFC 2104) and `openssl_random_pseudo_bytes` are uninterpreted functions. `encryptFile` and `decryptFile` (file I/O) are not modelled.
- `Caller::incrementOffset` in the `catch` blocks of `Type`, `DateTimeSpan`, `QDateTime`, `ObjectBase` and `Cryptography` is not modelled there. The exception object and its offsets are modelled in caller.dfy; elsewhere an exception is a value without a trace.
- CallerException.Caller.DecrementOffset is modelled with the corrected line rule, like IncrementOffset. The `''` it assigns at a frame without a line is the same defect as in `incrementOffset`, listed under Findings.
- A PHP array's keys are distinct, but the `Arr` value of the model is a sequence of key and value pairs that does not enforce this; no operation requires it. Js.IsListShaped, Js.Lookup and the list or hash choice of Js.ArrayToJs agree with PHP only on arrays with distinct keys, which are the only ones PHP can build.
- A backtrace frame keeps only its 'file' and 'line' keys. `CallerException.Caller.Get` of 'TraceArray' therefore returns those keys of each `debug_backtrace()` frame, and not its 'function', 'class', 'type', 'object' or 'args'.
- Span.FormatOne replaces the first `%s` of a format by the count and copies the rest. That is `sprintf` for the library's own `tp()` formats, but a format from a Translator that holds `%%`, `%d`, another conversion or a second `%s` renders differently from `sprintf` (which also raises ArgumentCountError for a second argument it lacks).
- QString.IsUtf8 is the exact UTF-8 scan. PHP's `preg_match(...) === 1` also reads a PCRE failure (the backtrack or JIT stack limit hit on a long input, where `preg_match` returns false) as not UTF-8; the model does not capture that.
- `Helper::toJSON` (json_encode) is not modelled. The non-UTF-8 branch of `makeJsonEncodable` (`mb_convert_encoding`) gives `OutsideModel`.
- `_nl()` is the `nl` parameter of `terminateScript`.
- `SessionCleaner::debugDump` and the `sc_debug` request flag (echo output) are not modelled.
- The TranslationService branch of `t()`/`tp()` is a parameter of type `Translator`.
- The multibyte branches of QString (`QCUBED_ENCODING` defined) are not modelled. Neither are `sanitizeForUrl`, `removeAccents`, `htmlEntities`, `wordsFromCamelCase`, `firstCharacter`, `generateQueryString`, `getRandomString`, `obfuscateEmail`, `renderObfuscatedEmail` or `formatFileSize`. They depend on Unicode regular expressions, tables, randomness, request data, the application or the filesystem.
- The commented-out `soapArrayType` and `alterSoapComplexTypeArray` of `Type` are not code, so they are not modelled.
- The following files are not modelled: `Error/*`, `Folder.php`, `File.php`, `AutoloaderService.php`, `Route.php`, `Test/*`, `tools/common.regex.php`, `QCubed.php` and `ErrorAttribute.php`. They are handler registration, HTML output, filesystem and loading code, regex routing, test plumbing, or constant tables. `UndefinedMethod` and `UndefinedProperty` appear only through the messages they build.
- Global state and concurrency are not modelled. The behaviour mode, the timer registry, the preserve list and `$_SESSION` are objects passed to the methods that use them.

## Findings

| source | as written | input that shows it | evidently intended | confidence | as-written member | corrected member |
|---|---|---|---|---|---|---|
| src/Type.php:323 | `settype()` receives the alias as the caller wrote it, and PHP 8's `settype()` rejects 'bit' with a ValueError | `Type::cast(1, 'bit')` | the boolean cast of the canonical target: true | high, not executed | TypeCast.AsWrittenBitFails | TypeCast.CorrectedBit |
| src/Type.php:401 | the same for the string target and the alias 'str' | `Type::cast(5, 'str')` | "5" | high, not executed | TypeCast.AsWrittenStrFails | TypeCast.CorrectedStr |
| src/QString.php:133-144 | with ellipses and a maximum of 1 or 2, `substr` gets a negative length and the result is longer than the maximum | `QString::truncate('abcdef', 2)` gives 'abcde...' | a result of at most the maximum length | high, not executed | QString.TruncateAsWrittenOverruns | QString.Truncate |
| src/Exception/Caller.php:117-121 | at a frame without a 'line' key, '' is assigned to the int-typed `Exception::$line`, which raises a TypeError after the offset and the file have already changed | `incrementOffset()` reaching a frame of an internal function call | line 0 | medium, not executed | CallerException.AsWrittenInternalFrame | CallerException.Caller.IncrementOffset |
| src/Cryptography.php:128-137 | `openssl_cipher_iv_length()` warns and returns `false` for an unknown cipher instead of throwing, so the `catch` never runs and `false == 0` gives an instance with a null IV | `new Cryptography('k', false, 'NO-SUCH-CIPHER')` | the Caller "No Cipher with name NO-SUCH-CIPHER could be found in an openssl library" | medium, not executed | Crypto.ConfigureUnknownCipher | Crypto.CheckedUnknownCipher |
| src/QDateTime.php:310 | `if ($intTime = strtotime(...))` treats the timestamp 0 as a failed parse | `new QDateTime('1970-01-01 00:00:00')` in UTC gives a null value | that moment, with neither half null | high, not executed | QDateTimes.EpochIsNullAsWritten | QDateTimes.Parsed |
