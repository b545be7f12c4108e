/** QCubed\QString: the byte-mode string helpers, as they behave when no
    multibyte encoding is configured (QCUBED_ENCODING undefined). */
module QString {

  import opened Php
  import Base64

  // ---------------------------------------------------------------------
  // lastCharacter, startsWith, endsWith

  /** lastCharacter(): null for null or '', else the final byte. */
  function LastCharacter(s: Option<string>): (r: Option<string>)
    ensures r.None? <==> (s.None? || s.value == "")
    ensures r.Some? ==> |r.value| == 1 && s.value == s.value[..|s.value| - 1] + r.value
  {
    if s.None? || s.value == "" then None
    else Some([s.value[|s.value| - 1]])
  }

  lemma LastCharacterOfAppend(t: string, c: char)
    ensures LastCharacter(Some(t + [c])) == Some([c])
  {
  }

  /** startsWith(): an empty needle always matches; otherwise
      str_starts_with compares the first |needle| bytes. */
  function StartsWith(haystack: string, needle: string): bool
  {
    if needle == "" then true
    else |needle| <= |haystack| && haystack[..|needle|] == needle
  }

  /** endsWith(): an empty needle always matches; otherwise
      str_ends_with compares the last |needle| bytes. */
  function EndsWith(haystack: string, needle: string): bool
  {
    if needle == "" then true
    else |needle| <= |haystack| && haystack[|haystack| - |needle|..] == needle
  }

  /** startsWith holds exactly when the haystack is the needle followed by
      something. */
  lemma StartsWithMeansPrefix(haystack: string, needle: string)
    ensures StartsWith(haystack, needle) <==> exists rest :: haystack == needle + rest
  {
    if StartsWith(haystack, needle) {
      assert haystack == needle + haystack[|needle|..];
    }
    if exists rest :: haystack == needle + rest {
      var rest :| haystack == needle + rest;
      assert haystack[..|needle|] == needle;
    }
  }

  /** endsWith holds exactly when the haystack is something followed by the
      needle. */
  lemma EndsWithMeansSuffix(haystack: string, needle: string)
    ensures EndsWith(haystack, needle) <==> exists front :: haystack == front + needle
  {
    if EndsWith(haystack, needle) {
      assert haystack == haystack[..|haystack| - |needle|] + needle;
    }
    if exists front :: haystack == front + needle {
      var front :| haystack == front + needle;
      assert haystack[|haystack| - |needle|..] == needle;
    }
  }

  // ---------------------------------------------------------------------
  // truncate

  /** substr($s, 0, $len) in PHP 8: a negative length drops that many bytes
      from the end, and a cut at or before the start gives ''. */
  function SubstrFromStart(s: string, len: int): (r: string)
    ensures |r| <= |s| && r == s[..|r|]
    ensures len >= 0 ==> |r| == if len < |s| then len else |s|
    ensures len < 0 ==> |r| == if |s| + len > 0 then |s| + len else 0
  {
    if len >= 0 then (if len < |s| then s[..len] else s)
    else if |s| + len > 0 then s[..|s| + len]
    else ""
  }

  /** truncate() as written: the text part is substr($text, 0, $max - 3)
      when ellipses are on, so for a maximum of 1 or 2 the length passed to
      substr is negative and cuts from the END of the text. */
  function TruncateAsWritten(text: string, max: int, addEllipses: bool): string
  {
    if max <= 0 then ""
    else
      var ellipsis := if addEllipses then "..." else "";
      var maxTextLength := if addEllipses then max - 3 else max;
      if |text| > max then SubstrFromStart(text, maxTextLength) + ellipsis
      else text
  }

  /** The as-written truncate returns eight bytes for a limit of two. */
  lemma TruncateAsWrittenOverruns()
    ensures TruncateAsWritten("abcdef", 2, true) == "abcde..."
    ensures |TruncateAsWritten("abcdef", 2, true)| > 2
  {
    assert SubstrFromStart("abcdef", -1) == "abcde";
  }

  /** truncate() with the limit honoured: when there is no room for the
      ellipsis (a limit of 1 or 2) the text is cut to the limit without it. */
  function Truncate(text: string, max: int, addEllipses: bool): (r: string)
    ensures max <= 0 ==> r == ""
    ensures max > 0 && |text| <= max ==> r == text
    ensures max > 0 && |text| > max ==> |r| == max
    ensures max > 0 && |text| > max && addEllipses && max >= 3 ==>
      r == text[..max - 3] + "..."
    ensures max > 0 && |text| > max && (!addEllipses || max < 3) ==> r == text[..max]
  {
    if max <= 0 then ""
    else if addEllipses && max < 3 then (if |text| > max then text[..max] else text)
    else TruncateAsWritten(text, max, addEllipses)
  }

  /** Where the ellipsis fits, or ellipses are off, the corrected truncate is
      the code as written. */
  lemma TruncateAgrees(text: string, max: int, addEllipses: bool)
    requires max >= 3 || !addEllipses
    ensures Truncate(text, max, addEllipses) == TruncateAsWritten(text, max, addEllipses)
  {
  }

  // ---------------------------------------------------------------------
  // xmlEscape and the CDATA sections of section 2.7 of XML 1.0

  predicate NeedsCdata(s: string)
  {
    '<' in s || '&' in s
  }

  /** The sequence "]]>" starts at index k of u. */
  predicate CdataEndAt(u: string, k: int)
  {
    0 <= k && k + 3 <= |u| && u[k] == ']' && u[k + 1] == ']' && u[k + 2] == '>'
  }

  predicate NoCdataEndBefore(u: string, k: int)
  {
    forall i | 0 <= i < k :: !CdataEndAt(u, i)
  }

  const CdataOpen: string := "<![CDATA["
  const CdataSplit: string := "]]]]><![CDATA[>"

  /** str_replace(']]>', ']]]]><![CDATA[>', s): occurrences are found left to
      right and do not overlap. */
  function EscapeCdataEnd(s: string): string
    decreases |s|
  {
    if CdataEndAt(s, 0) then CdataSplit + EscapeCdataEnd(s[3..])
    else if s == [] then []
    else [s[0]] + EscapeCdataEnd(s[1..])
  }

  /** xmlEscape(): a text holding '<' or '&' is wrapped in a CDATA section,
      with every "]]>" in it split across two sections. */
  function XmlEscape(s: string): string
  {
    if NeedsCdata(s) then CdataOpen + EscapeCdataEnd(s) + "]]>" else s
  }

  /** The content of a CDATA section up to the first "]]>", and what follows
      that terminator. */
  function CdataBody(u: string): (r: Option<(string, string)>)
    ensures r.Some? ==> |r.value.1| + 3 <= |u|
    decreases |u|
  {
    if |u| < 3 then None
    else if CdataEndAt(u, 0) then Some(("", u[3..]))
    else
      match CdataBody(u[1..])
      case None => None
      case Some(p) => Some(([u[0]] + p.0, p.1))
  }

  /** The character data of a sequence of CDATA sections, as an XML
      processor reads it (section 2.7 of XML 1.0): each section's content
      ends at its first "]]>". None when t is not such a sequence. */
  function CdataText(t: string): Option<string>
    decreases |t|
  {
    if t == [] then Some([])
    else if |t| >= 9 && t[..9] == CdataOpen then
      match CdataBody(t[9..])
      case None => None
      case Some(p) =>
        match CdataText(p.1)
        case None => None
        case Some(x) => Some(p.0 + x)
    else None
  }

  lemma {:induction false} EscapeWithoutEnd(r: string)
    requires NoCdataEndBefore(r, |r|)
    ensures EscapeCdataEnd(r) == r
    decreases |r|
  {
    if r != [] {
      assert !CdataEndAt(r, 0);
      forall i | 0 <= i < |r| - 1 ensures !CdataEndAt(r[1..], i) {
        assert !CdataEndAt(r, i + 1);
      }
      EscapeWithoutEnd(r[1..]);
    }
  }

  /** Where "]]>" occurs in u[1..] is where it occurs in u, one place on. */
  lemma CdataEndShift(u: string)
    requires u != []
    ensures forall i | 0 <= i < |u| - 1 :: CdataEndAt(u[1..], i) == CdataEndAt(u, i + 1)
  {
  }

  lemma {:induction false} EscapeFirstEnd(r: string, k: nat)
    requires CdataEndAt(r, k) && NoCdataEndBefore(r, k)
    ensures EscapeCdataEnd(r) == r[..k] + CdataSplit + EscapeCdataEnd(r[k + 3..])
    decreases k
  {
    if k == 0 {
      assert r[..0] + CdataSplit == CdataSplit;
    } else {
      assert !CdataEndAt(r, 0);
      CdataEndShift(r);
      var r1 := r[1..];
      EscapeFirstEnd(r1, k - 1);
      assert r1[k - 1 + 3..] == r[k + 3..];
      assert r[..k] == [r[0]] + r1[..k - 1];
      var a := r1[..k - 1];
      var e := EscapeCdataEnd(r[k + 3..]);
      calc {
        EscapeCdataEnd(r);
        [r[0]] + EscapeCdataEnd(r1);
        [r[0]] + ((a + CdataSplit) + e);
        { ConcatAssoc([r[0]], a + CdataSplit, e); }
        ([r[0]] + (a + CdataSplit)) + e;
        { ConcatAssoc([r[0]], a, CdataSplit); }
        (([r[0]] + a) + CdataSplit) + e;
      }
    }
  }

  lemma {:induction false} CdataBodyFirstEnd(u: string, k: nat)
    requires CdataEndAt(u, k) && NoCdataEndBefore(u, k)
    ensures CdataBody(u) == Some((u[..k], u[k + 3..]))
    decreases k
  {
    if k > 0 {
      assert !CdataEndAt(u, 0);
      forall i | 0 <= i < k - 1 ensures !CdataEndAt(u[1..], i) {
        assert !CdataEndAt(u, i + 1);
      }
      assert CdataEndAt(u[1..], k - 1);
      CdataBodyFirstEnd(u[1..], k - 1);
      assert u[1..][k - 1 + 3..] == u[k + 3..];
      assert u[..k] == [u[0]] + u[1..][..k - 1];
    }
  }

  /** Reading one section off the front of a sequence of sections. */
  lemma CdataTextStep(u: string, body: string, rest: string, x: string)
    requires CdataBody(u) == Some((body, rest)) && CdataText(rest) == Some(x)
    ensures CdataText(CdataOpen + u) == Some(body + x)
  {
    var t := CdataOpen + u;
    assert t[..9] == CdataOpen && t[9..] == u;
  }

  /** Reading back a section that starts with p (no ']' in it) followed by
      the escaped remainder r gives p + r. */
  lemma {:induction false} ReadEscaped(p: string, r: string)
    requires ']' !in p
    ensures CdataText(CdataOpen + p + EscapeCdataEnd(r) + "]]>") == Some(p + r)
    decreases |r|
  {
    var k := FirstCdataEnd(r);
    if k < 0 {
      ReadEscapedLast(p, r);
    } else {
      var r' := r[k + 3..];
      ReadEscaped(">", r');
      ReadEscapedSplit(p, r, k);
    }
  }

  /** In p + q + w, with no ']' in p, no "]]>" in q and w starting with n
      ']'s, the first "]]>" cannot start before index |p + q| + n - 2. */
  lemma NoCdataEndInFront(p: string, q: string, w: string, n: nat)
    requires ']' !in p && NoCdataEndBefore(q, |q|)
    requires n <= |w| && forall j | 0 <= j < n :: w[j] == ']'
    ensures NoCdataEndBefore(p + q + w, |p + q| + n - 2)
  {
    var u := p + q + w;
    forall i | 0 <= i < |p + q| + n - 2 ensures !CdataEndAt(u, i) {
      if i + 2 >= |p + q| {
        assert u[i + 2] == w[i + 2 - |p + q|];
      } else if i < |p| {
        assert u[i] == p[i];
      } else {
        assert CdataEndAt(u, i) ==> CdataEndAt(q, i - |p|);
      }
    }
  }

  /** The last section: r holds no "]]>". */
  lemma ReadEscapedLast(p: string, r: string)
    requires ']' !in p && NoCdataEndBefore(r, |r|)
    ensures CdataText(CdataOpen + p + EscapeCdataEnd(r) + "]]>") == Some(p + r)
  {
    var t := CdataOpen + p + EscapeCdataEnd(r) + "]]>";
    var s := p + r;
    EscapeWithoutEnd(r);
    NoCdataEndInFront(p, r, "]]>", 2);
    assert s + ("]]>" + []) == p + r + "]]>";
    SectionThen(t, s, [], []);
    assert s + [] == s;
  }

  /** A section whose content s holds no "]]>", followed by sections that
      read as x, reads as s + x. */
  lemma SectionThen(t: string, s: string, rest: string, x: string)
    requires t == CdataOpen + (s + ("]]>" + rest))
    requires NoCdataEndBefore(s + ("]]>" + rest), |s|) && CdataText(rest) == Some(x)
    ensures CdataText(t) == Some(s + x)
  {
    var u := s + ("]]>" + rest);
    CdataBodyFirstEnd(u, |s|);
    assert u[..|s|] == s && u[|s| + 3..] == rest;
    CdataTextStep(u, s, rest, x);
  }

  /** A section cut at the first "]]>" of r, at index k. */
  lemma ReadEscapedSplit(p: string, r: string, k: nat)
    requires ']' !in p && CdataEndAt(r, k) && NoCdataEndBefore(r, k)
    requires CdataText(CdataOpen + ">" + EscapeCdataEnd(r[k + 3..]) + "]]>") == Some(">" + r[k + 3..])
    ensures CdataText(CdataOpen + p + EscapeCdataEnd(r) + "]]>") == Some(p + r)
  {
    EscapeFirstEnd(r, k);
    NoCdataEndInPrefix(r, k);
    ReadSplitLayout(p, r[..k], EscapeCdataEnd(r[k + 3..]), r[k + 3..]);
    SplitJoin(p, r, k);
  }

  /** The section cut in two by the escape reads back as its first part,
      the "]]" kept, then what the second section reads as. */
  lemma ReadSplitLayout(p: string, q: string, e: string, x: string)
    requires ']' !in p && NoCdataEndBefore(q, |q|)
    requires CdataText(CdataOpen + ">" + e + "]]>") == Some(">" + x)
    ensures CdataText(CdataOpen + p + (q + CdataSplit + e) + "]]>") == Some(p + q + "]]" + (">" + x))
  {
    SplitFacts(p, q, e);
    SectionThen(CdataOpen + p + (q + CdataSplit + e) + "]]>", p + q + "]]", CdataOpen + ">" + e + "]]>", ">" + x);
  }

  /** The layout of the escaped text around the first "]]>": the first
      section ends at the "]]>" of the escape. */
  lemma SplitFacts(p: string, q: string, e: string)
    requires ']' !in p && NoCdataEndBefore(q, |q|)
    ensures var t := p + q + "]]"; var rest := CdataOpen + ">" + e + "]]>";
      && CdataOpen + p + (q + CdataSplit + e) + "]]>" == CdataOpen + (t + ("]]>" + rest))
      && NoCdataEndBefore(t + ("]]>" + rest), |t|)
  {
    var rest := CdataOpen + ">" + e + "]]>";
    var t := p + q + "]]";
    SplitLayout(p, q, e);
    NoCdataEndInFront(p, q, "]]" + ("]]>" + rest), 4);
    assert p + q + ("]]" + ("]]>" + rest)) == t + ("]]>" + rest);
  }

  /** The text in front of the first "]]>" holds no "]]>" of its own. */
  lemma NoCdataEndInPrefix(r: string, k: nat)
    requires k <= |r| && NoCdataEndBefore(r, k)
    ensures NoCdataEndBefore(r[..k], k)
  {
    forall i | 0 <= i < k ensures !CdataEndAt(r[..k], i) {
      assert !CdataEndAt(r, i);
    }
  }

  lemma SplitLayout(p: string, q: string, e: string)
    ensures CdataOpen + p + (q + CdataSplit + e) + "]]>" ==
      CdataOpen + ((p + q + "]]") + ("]]>" + (CdataOpen + ">" + e + "]]>")))
  {
    assert CdataSplit == "]]" + "]]>" + CdataOpen + ">";
  }

  lemma SplitJoin(p: string, r: string, k: nat)
    requires CdataEndAt(r, k)
    ensures (p + r[..k] + "]]") + (">" + r[k + 3..]) == p + r
  {
    assert r == r[..k] + "]]>" + r[k + 3..];
  }

  /** The first index at which "]]>" starts in u, or -1. */
  function FirstCdataEnd(u: string): (k: int)
    ensures k == -1 <==> NoCdataEndBefore(u, |u|)
    ensures k >= 0 ==> CdataEndAt(u, k) && NoCdataEndBefore(u, k)
    decreases |u|
  {
    if CdataEndAt(u, 0) then 0
    else if u == [] then -1
    else
      var k := FirstCdataEnd(u[1..]);
      CdataEndShift(u);
      assert forall i | 1 <= i < |u| :: CdataEndAt(u, i) == CdataEndAt(u[1..], i - 1);
      if k < 0 then -1 else k + 1
  }

  /** An XML processor reads back exactly the text xmlEscape() was given. */
  lemma XmlEscapeReadsBack(s: string)
    requires NeedsCdata(s)
    ensures CdataText(XmlEscape(s)) == Some(s)
  {
    ReadEscaped("", s);
    assert CdataOpen + "" == CdataOpen;
    assert "" + s == s;
  }

  /** A text with no '<' and no '&' is returned untouched. */
  lemma XmlEscapeLeavesPlainText(s: string)
    requires !NeedsCdata(s)
    ensures XmlEscape(s) == s
  {
  }

  // ---------------------------------------------------------------------
  // base64UrlSafeEncode / base64UrlSafeDecode (section 5 of RFC 4648)

  /** strtr($t, '+/', '-_') */
  function ToUrlAlphabet(t: string): (r: string)
    ensures |r| == |t|
    ensures forall i | 0 <= i < |t| :: r[i] == ToUrlChar(t[i])
  {
    if t == [] then [] else [ToUrlChar(t[0])] + ToUrlAlphabet(t[1..])
  }

  function ToUrlChar(c: char): char
  {
    if c == '+' then '-' else if c == '/' then '_' else c
  }

  function FromUrlChar(c: char): char
  {
    if c == '-' then '+' else if c == '_' then '/' else c
  }

  /** strtr($t, '-_', '+/') */
  function FromUrlAlphabet(t: string): (r: string)
    ensures |r| == |t|
    ensures forall i | 0 <= i < |t| :: r[i] == FromUrlChar(t[i])
  {
    if t == [] then [] else [FromUrlChar(t[0])] + FromUrlAlphabet(t[1..])
  }

  /** rtrim($t, '=') */
  function TrimPadding(t: string): (r: string)
    ensures |r| <= |t| && r == t[..|r|]
    ensures r == [] || r[|r| - 1] != '='
    ensures forall i | |r| <= i < |t| :: t[i] == '='
  {
    if t != [] && t[|t| - 1] == '=' then TrimPadding(t[..|t| - 1]) else t
  }

  /** base64UrlSafeEncode() */
  function Base64UrlSafeEncode(s: string): string
    requires Base64.IsByteString(s)
  {
    TrimPadding(ToUrlAlphabet(Base64.Encode(s)))
  }

  /** base64UrlSafeDecode(): a falsy decoding ('' or "0") becomes ''. */
  function Base64UrlSafeDecode(t: string): string
  {
    var d := Base64.Decode(FromUrlAlphabet(t));
    if d == "" || d == "0" then "" else d
  }

  /** Every character of a standard encoding is of the alphabet or '='. */
  lemma {:induction false} EncodeCharacters(s: string)
    requires Base64.IsByteString(s)
    ensures forall i | 0 <= i < |Base64.Encode(s)| :: IsEncodingChar(Base64.Encode(s)[i])
    decreases |s|
  {
    if |s| >= 3 {
      Base64.ByteStringSuffix(s, 3);
      EncodeCharacters(s[3..]);
      var g := Base64.Chars(Base64.Group(s[..3]));
      assert Base64.Encode(s) == g + Base64.Encode(s[3..]);
      forall i | 0 <= i < |Base64.Encode(s)| ensures IsEncodingChar(Base64.Encode(s)[i]) {
        if i >= |g| {
          assert Base64.Encode(s)[i] == Base64.Encode(s[3..])[i - |g|];
        }
      }
    }
  }

  predicate IsEncodingChar(c: char)
  {
    c == '=' || Base64.Sextet(c).Some?
  }

  predicate IsUrlSafeChar(c: char)
  {
    IsUpper(c) || IsLower(c) || IsDigit(c) || c == '-' || c == '_'
  }

  /** Mapping and trimming a string of alphabet characters followed by
      padding leaves only URL-safe characters. */
  lemma UrlSafeChars(e: string)
    requires forall i | 0 <= i < |e| :: IsEncodingChar(e[i])
    requires PaddingTrailing(e)
    ensures forall i | 0 <= i < |TrimPadding(ToUrlAlphabet(e))| :: IsUrlSafeChar(TrimPadding(ToUrlAlphabet(e))[i])
  {
    var m := ToUrlAlphabet(e);
    var t := TrimPadding(m);
    forall i | 0 <= i < |t| ensures IsUrlSafeChar(t[i]) {
      var k := |t| - 1;
      assert t[k] == m[k];
      assert e[k] != '=';
      assert e[i] != '=';
      assert t[i] == m[i];
    }
  }

  /** The URL-safe encoding holds only A-Z, a-z, 0-9, '-' and '_': no '+',
      '/' or '='. */
  lemma UrlSafeAlphabet(s: string)
    requires Base64.IsByteString(s)
    ensures forall i | 0 <= i < |Base64UrlSafeEncode(s)| :: IsUrlSafeChar(Base64UrlSafeEncode(s)[i])
  {
    EncodeCharacters(s);
    PaddingIsTrailing(s);
    UrlSafeChars(Base64.Encode(s));
  }

  predicate PaddingTrailing(e: string)
  {
    forall i, j | 0 <= i <= j < |e| :: e[i] == '=' ==> e[j] == '='
  }

  /** The '=' of a standard encoding are all at its end. */
  lemma {:induction false} PaddingIsTrailing(s: string)
    requires Base64.IsByteString(s)
    ensures PaddingTrailing(Base64.Encode(s))
    decreases |s|
  {
    var e := Base64.Encode(s);
    if |s| >= 3 {
      Base64.ByteStringSuffix(s, 3);
      PaddingIsTrailing(s[3..]);
      var g := Base64.Chars(Base64.Group(s[..3]));
      assert e == g + Base64.Encode(s[3..]);
      forall i, j | 0 <= i <= j < |e| && e[i] == '=' ensures e[j] == '=' {
        assert i >= |g|;
        assert e[i] == Base64.Encode(s[3..])[i - |g|];
        assert e[j] == Base64.Encode(s[3..])[j - |g|];
      }
    } else if |s| > 0 {
      var g := Base64.Chars(Base64.Group(s));
      forall i | 0 <= i < |g| ensures e[i] == g[i] && e[i] != '=' {
        assert Base64.Sextet(g[i]).Some?;
      }
    }
  }

  /** Dropping '=' and swapping the two alphabet characters does not change
      the sextets a non-strict decoder reads. */
  lemma UrlSafeSextets(s: string)
    requires Base64.IsByteString(s)
    ensures Base64.Sextets(FromUrlAlphabet(Base64UrlSafeEncode(s))) == Base64.Sextets(Base64.Encode(s))
  {
    EncodeCharacters(s);
    UrlMapSextets(Base64.Encode(s));
  }

  lemma UrlMapSextets(e: string)
    requires forall i | 0 <= i < |e| :: IsEncodingChar(e[i])
    ensures Base64.Sextets(FromUrlAlphabet(TrimPadding(ToUrlAlphabet(e)))) == Base64.Sextets(e)
  {
    var t := TrimPadding(ToUrlAlphabet(e));
    var front := e[..|t|];
    var pad := e[|t|..];
    UrlMapBack(e);
    TrimmedArePadding(e);
    NoSextets(pad);
    SextetsSplit(e, |t|);
    calc {
      Base64.Sextets(FromUrlAlphabet(t));
      Base64.Sextets(front);
      Base64.Sextets(front) + Base64.Sextets(pad);
      Base64.Sextets(e);
    }
  }

  lemma SextetsSplit(e: string, k: nat)
    requires k <= |e|
    ensures Base64.Sextets(e) == Base64.Sextets(e[..k]) + Base64.Sextets(e[k..])
  {
    assert e == e[..k] + e[k..];
    Base64.SextetsAppend(e[..k], e[k..]);
  }

  lemma UrlMapBack(e: string)
    requires forall i | 0 <= i < |e| :: IsEncodingChar(e[i])
    ensures var t := TrimPadding(ToUrlAlphabet(e));
      FromUrlAlphabet(t) == e[..|t|]
  {
    var m := ToUrlAlphabet(e);
    var t := TrimPadding(m);
    var back := FromUrlAlphabet(t);
    forall i | 0 <= i < |t| ensures back[i] == e[i] {
      UrlCharBack(e[i]);
      assert t[i] == m[i];
    }
    assert |back| == |e[..|t|]|;
  }

  lemma UrlCharBack(c: char)
    requires IsEncodingChar(c)
    ensures FromUrlChar(ToUrlChar(c)) == c
  {
  }

  lemma TrimmedArePadding(e: string)
    ensures var t := TrimPadding(ToUrlAlphabet(e));
      forall i | 0 <= i < |e| - |t| :: e[|t|..][i] == '='
  {
    var m := ToUrlAlphabet(e);
    var t := TrimPadding(m);
    forall i | 0 <= i < |e| - |t| ensures e[|t|..][i] == '=' {
      assert m[|t| + i] == '=';
    }
  }

  lemma {:induction false} NoSextets(t: string)
    requires forall i | 0 <= i < |t| :: t[i] == '='
    ensures Base64.Sextets(t) == []
  {
    if t != [] {
      NoSextets(t[1..]);
    }
  }

  /** base64UrlSafeDecode(base64UrlSafeEncode(s)) == s, except for "0",
      whose decoding is falsy and becomes ''. */
  lemma UrlSafeRoundTrip(s: string)
    requires Base64.IsByteString(s)
    ensures Base64UrlSafeDecode(Base64UrlSafeEncode(s)) == if s == "0" then "" else s
  {
    UrlSafeSextets(s);
    Base64.EncodeDecode(s);
  }

  // ---------------------------------------------------------------------
  // isUtf8 (the UTF-8 byte sequences of section 4 of RFC 3629)

  predicate InRange(c: char, lo: int, hi: int) { lo <= c as int <= hi }

  predicate IsContinuation(c: char) { InRange(c, 0x80, 0xBF) }

  /** One alternative of isUtf8's pattern: TAB, LF, CR or 0x20-0x7E, or a
      two-, three- or four-byte sequence with no overlong form, no
      surrogate and nothing above U+10FFFF. */
  predicate IsUnit(u: string)
  {
    (|u| == 1 && (u[0] == '\t' || u[0] == '\n' || u[0] == '\r' || InRange(u[0], 0x20, 0x7E)))
    || (|u| == 2 && InRange(u[0], 0xC2, 0xDF) && IsContinuation(u[1]))
    || (|u| == 3 && IsContinuation(u[2]) &&
         ((u[0] as int == 0xE0 && InRange(u[1], 0xA0, 0xBF))
          || ((InRange(u[0], 0xE1, 0xEC) || u[0] as int == 0xEE || u[0] as int == 0xEF) && IsContinuation(u[1]))
          || (u[0] as int == 0xED && InRange(u[1], 0x80, 0x9F))))
    || (|u| == 4 && IsContinuation(u[2]) && IsContinuation(u[3]) &&
         ((u[0] as int == 0xF0 && InRange(u[1], 0x90, 0xBF))
          || (InRange(u[0], 0xF1, 0xF3) && IsContinuation(u[1]))
          || (u[0] as int == 0xF4 && InRange(u[1], 0x80, 0x8F))))
  }

  /** The length of the unit a leading byte announces (0 for none). */
  function LeadLength(c: char): (k: nat)
    ensures k <= 4
  {
    if c == '\t' || c == '\n' || c == '\r' || InRange(c, 0x20, 0x7E) then 1
    else if InRange(c, 0xC2, 0xDF) then 2
    else if InRange(c, 0xE0, 0xEF) then 3
    else if InRange(c, 0xF0, 0xF4) then 4
    else 0
  }

  /** The leading byte fixes a unit's length, so no unit is a prefix of
      another. */
  lemma UnitLength(u: string)
    requires IsUnit(u)
    ensures |u| == LeadLength(u[0])
  {
  }

  /** Left-to-right scan: cut the unit the leading byte announces. */
  predicate ScanUtf8(s: string)
    decreases |s|
  {
    s == [] ||
    (var k := LeadLength(s[0]); 0 < k <= |s| && IsUnit(s[..k]) && ScanUtf8(s[k..]))
  }

  function Concat(parts: seq<string>): string
  {
    if parts == [] then [] else parts[0] + Concat(parts[1..])
  }

  /** (?:unit)* : s splits into units. */
  ghost predicate SplitsIntoUnits(s: string)
  {
    exists parts: seq<string> :: (forall i | 0 <= i < |parts| :: IsUnit(parts[i])) && Concat(parts) == s
  }

  /** The whole pattern ^(?:unit)*$ without the D modifier, where $ also
      matches before a final "\n". */
  ghost predicate PatternMatches(s: string)
  {
    SplitsIntoUnits(s) || (|s| > 0 && s[|s| - 1] == '\n' && SplitsIntoUnits(s[..|s| - 1]))
  }

  /** isUtf8() */
  predicate IsUtf8(s: Option<string>)
  {
    s.Some? && (s.value == "" || ScanUtf8(s.value))
  }

  lemma {:induction false} ScanSplits(s: string)
    requires ScanUtf8(s)
    ensures SplitsIntoUnits(s)
    decreases |s|
  {
    if s == [] {
      assert Concat([]) == s;
    } else {
      var k := LeadLength(s[0]);
      assert s[..k] + s[k..] == s;
      ScanSplits(s[k..]);
      var parts :| (forall i | 0 <= i < |parts| :: IsUnit(parts[i])) && Concat(parts) == s[k..];
      ConsUnit(s[..k], parts);
    }
  }

  lemma ConsUnit(u: string, parts: seq<string>)
    requires IsUnit(u) && forall i | 0 <= i < |parts| :: IsUnit(parts[i])
    ensures SplitsIntoUnits(u + Concat(parts))
  {
    var all := [u] + parts;
    assert all[1..] == parts;
    assert Concat(all) == u + Concat(parts);
    assert forall i | 0 <= i < |all| :: IsUnit(all[i]);
  }

  lemma {:induction false} SplitsScan(s: string, parts: seq<string>)
    requires forall i | 0 <= i < |parts| :: IsUnit(parts[i])
    requires Concat(parts) == s
    ensures ScanUtf8(s)
    decreases |parts|
  {
    if parts != [] {
      var u := parts[0];
      UnitLength(u);
      assert s == u + Concat(parts[1..]);
      assert s[0] == u[0];
      var k := |u|;
      assert s[..k] == u && s[k..] == Concat(parts[1..]);
      SplitsScan(s[k..], parts[1..]);
    }
  }

  /** A final "\n" is itself a unit, so the $-before-newline reading of the
      pattern accepts nothing more. */
  lemma NewlineUnit(w: string)
    requires SplitsIntoUnits(w)
    ensures SplitsIntoUnits(w + "\n")
  {
    var parts :| (forall i | 0 <= i < |parts| :: IsUnit(parts[i])) && Concat(parts) == w;
    ConcatAppend(parts, "\n");
    var all := parts + ["\n"];
    assert forall i | 0 <= i < |all| :: IsUnit(all[i]);
  }

  lemma {:induction false} ConcatAppend(parts: seq<string>, u: string)
    ensures Concat(parts + [u]) == Concat(parts) + u
  {
    if parts == [] {
      assert [] + [u] == [u];
    } else {
      assert (parts + [u])[1..] == parts[1..] + [u];
      ConcatAppend(parts[1..], u);
    }
  }

  /** isUtf8 is true exactly for null-free-of-doubt input: a string that
      the pattern matches, with null false and '' true. */
  lemma IsUtf8MeansPattern(s: Option<string>)
    ensures IsUtf8(s) <==> s.Some? && PatternMatches(s.value)
  {
    if s.Some? {
      var t := s.value;
      if ScanUtf8(t) {
        ScanSplits(t);
      }
      if PatternMatches(t) && !SplitsIntoUnits(t) {
        var w := t[..|t| - 1];
        assert w + "\n" == t;
        NewlineUnit(w);
      }
      if SplitsIntoUnits(t) {
        var parts :| (forall i | 0 <= i < |parts| :: IsUnit(parts[i])) && Concat(parts) == t;
        SplitsScan(t, parts);
      }
    }
  }

  // ---------------------------------------------------------------------
  // Case-style converters

  /** The characters ucwords() treats as word separators by default. */
  const WordDelimiters: set<char> := {' ', '\t', '\r', '\n', 12 as char, 11 as char}

  /** ucwords() from a position: upper-case the first character when it
      starts a word, and every character that follows a delimiter. */
  function UcWordsFrom(s: string, delims: set<char>, atStart: bool): (r: string)
    ensures |r| == |s|
  {
    if s == [] then []
    else [if atStart then UpperChar(s[0]) else s[0]] + UcWordsFrom(s[1..], delims, s[0] in delims)
  }

  /** Character i is upper-cased exactly when it starts the text (and
      atStart holds) or follows a delimiter; nothing else changes. */
  lemma {:induction false} UcWordsAt(s: string, delims: set<char>, atStart: bool, i: nat)
    requires i < |s|
    ensures UcWordsFrom(s, delims, atStart)[i] ==
      if (if i == 0 then atStart else s[i - 1] in delims) then UpperChar(s[i]) else s[i]
  {
    if i > 0 {
      UcWordsAt(s[1..], delims, s[0] in delims, i - 1);
      assert s[1..][i - 1] == s[i];
      if i > 1 {
        assert s[1..][i - 2] == s[i - 1];
      }
    }
  }

  /** ucwords($s, $delims) */
  function UcWords(s: string, delims: set<char>): string
  {
    UcWordsFrom(s, delims, true)
  }

  /** lcfirst() */
  function LcFirst(s: string): (r: string)
  {
    if s == [] then [] else [LowerChar(s[0])] + s[1..]
  }

  /** str_replace($a, $b, $s) for single characters. */
  function ReplaceChar(s: string, a: char, b: char): (r: string)
    ensures |r| == |s|
    ensures forall i | 0 <= i < |s| :: r[i] == if s[i] == a then b else s[i]
  {
    if s == [] then [] else [if s[0] == a then b else s[0]] + ReplaceChar(s[1..], a, b)
  }

  /** str_replace($c, '', $s) */
  function RemoveChar(s: string, c: char): (r: string)
    ensures c !in r
    ensures |r| <= |s|
  {
    if s == [] then [] else (if s[0] == c then [] else [s[0]]) + RemoveChar(s[1..], c)
  }

  lemma {:induction false} RemoveCharAppend(a: string, b: string, c: char)
    ensures RemoveChar(a + b, c) == RemoveChar(a, c) + RemoveChar(b, c)
  {
    if a == [] {
      assert a + b == b;
    } else {
      var h := if a[0] == c then [] else [a[0]];
      assert (a + b)[0] == a[0] && (a + b)[1..] == a[1..] + b;
      RemoveCharAppend(a[1..], b, c);
      ConcatAssoc(h, RemoveChar(a[1..], c), RemoveChar(b, c));
    }
  }

  lemma {:induction false} ToLowerAppend(a: string, b: string)
    ensures ToLower(a + b) == ToLower(a) + ToLower(b)
  {
    if a == [] {
      assert a + b == b;
    } else {
      assert (a + b)[0] == a[0] && (a + b)[1..] == a[1..] + b;
      ToLowerAppend(a[1..], b);
      ConcatAssoc([LowerChar(a[0])], ToLower(a[1..]), ToLower(b));
    }
  }

  lemma UcWordsCons(c: char, t: string, delims: set<char>, atStart: bool)
    ensures UcWordsFrom([c] + t, delims, atStart) ==
      [if atStart then UpperChar(c) else c] + UcWordsFrom(t, delims, c in delims)
  {
    assert ([c] + t)[1..] == t;
  }

  /** wordsFromUnderscore(): underscores become spaces, the result is
      trimmed, and an all-lowercase result has its words capitalised. */
  function WordsFromUnderscore(name: string): string
  {
    var t := Trim(ReplaceChar(name, '_', ' '));
    if ToLower(t) == t then UcWords(t, WordDelimiters) else t
  }

  /** wordsFromUnderscore() leaves no underscore, changes only letter case
      relative to the spaced and trimmed text, and capitalises each word of
      an all-lowercase text (leaving any other text as it is). */
  lemma WordsFromUnderscoreShape(name: string)
    ensures var t := Trim(ReplaceChar(name, '_', ' '));
      var r := WordsFromUnderscore(name);
      && '_' !in r
      && ToLower(r) == ToLower(t)
      && (ToLower(t) == t ==>
            forall i | 0 <= i < |r| && (i == 0 || r[i - 1] in WordDelimiters) :: !IsLower(r[i]))
      && (ToLower(t) != t ==> r == t)
  {
    var t := Trim(ReplaceChar(name, '_', ' '));
    SpacedHasNoUnderscore(name);
    if ToLower(t) == t {
      UcWordsCaseOnly(t, WordDelimiters);
      UcWordsCapitalises(t, WordDelimiters);
    }
  }

  lemma SpacedHasNoUnderscore(name: string)
    ensures '_' !in Trim(ReplaceChar(name, '_', ' '))
  {
    var spaced := ReplaceChar(name, '_', ' ');
    forall k | 0 <= k < |spaced| ensures spaced[k] != '_' {
    }
    TrimKeepsAbsent(spaced, '_');
  }

  /** trim() only removes characters. */
  lemma TrimKeepsAbsent(s: string, c: char)
    requires c !in s
    ensures c !in Trim(s)
  {
    var l := TrimLeft(s);
    assert l == s[|s| - |l|..];
    assert c !in l;
    var r := TrimRight(l);
    assert r == l[..|r|];
  }

  /** ucwords() changes letter case only, and adds no '_'. */
  lemma UcWordsCaseOnly(t: string, delims: set<char>)
    ensures ToLower(UcWords(t, delims)) == ToLower(t)
    ensures '_' !in t ==> '_' !in UcWords(t, delims)
  {
    var r := UcWordsFrom(t, delims, true);
    forall i | 0 <= i < |t| ensures LowerChar(r[i]) == LowerChar(t[i]) && (t[i] != '_' ==> r[i] != '_') {
      CharCases(t[i]);
      UcWordsAt(t, delims, true, i);
    }
    ToLowerPointwise(r);
    ToLowerPointwise(t);
    assert ToLower(r) == ToLower(t);
  }

  lemma CharCases(c: char)
    ensures LowerChar(UpperChar(c)) == LowerChar(c)
    ensures IsLower(c) ==> IsUpper(UpperChar(c))
    ensures !IsLower(c) ==> UpperChar(c) == c
    ensures UpperChar(LowerChar(c)) == UpperChar(c)
  {
  }

  /** On a text with no capitals, ucwords() leaves every word start
      non-lowercase, provided no letter is a delimiter. */
  lemma UcWordsCapitalises(t: string, delims: set<char>)
    requires ToLower(t) == t
    requires forall c | c in delims :: !IsLower(c) && !IsUpper(c)
    ensures var r := UcWords(t, delims);
      forall i | 0 <= i < |r| && (i == 0 || r[i - 1] in delims) :: !IsLower(r[i])
  {
    var r := UcWordsFrom(t, delims, true);
    forall i | 0 <= i < |r| && (i == 0 || r[i - 1] in delims) ensures !IsLower(r[i]) {
      CharCases(t[i]);
      ToLowerAt(t, i);
      UcWordsAt(t, delims, true, i);
      if i > 0 {
        CharCases(t[i - 1]);
        ToLowerAt(t, i - 1);
        UcWordsAt(t, delims, true, i - 1);
        assert t[i - 1] in delims;
      }
    }
  }

  /** preg_replace('/([a-z\d])([A-Z])/', '$1_$2', $s): matches are taken
      left to right without overlapping. */
  function SplitCamelHumps(s: string): string
    decreases |s|
  {
    if |s| < 2 then s
    else if (IsLower(s[0]) || IsDigit(s[0])) && IsUpper(s[1]) then [s[0], '_', s[1]] + SplitCamelHumps(s[2..])
    else [s[0]] + SplitCamelHumps(s[1..])
  }

  /** A lowercase letter or digit followed by a capital: the places the
      pattern matches. */
  predicate IsHump(a: char, b: char)
  {
    (IsLower(a) || IsDigit(a)) && IsUpper(b)
  }

  /** The independent reading: an '_' between every lowercase letter or
      digit and the capital after it. */
  function MarkHumps(s: string): string
    decreases |s|
  {
    if |s| < 2 then s
    else [s[0]] + (if IsHump(s[0], s[1]) then "_" else "") + MarkHumps(s[1..])
  }

  /** Left-to-right matching finds every hump: a capital cannot start a
      match, so no match hides another. */
  lemma {:induction false} SplitCamelHumpsMarksAll(s: string)
    ensures SplitCamelHumps(s) == MarkHumps(s)
    decreases |s|
  {
    if |s| >= 2 {
      if IsHump(s[0], s[1]) {
        SplitCamelHumpsMarksAll(s[2..]);
        var t := s[1..];
        assert t[1..] == s[2..];
        if |t| >= 2 {
          assert !IsHump(t[0], t[1]);
          assert MarkHumps(t) == [t[0]] + MarkHumps(t[1..]);
        }
      } else {
        SplitCamelHumpsMarksAll(s[1..]);
      }
    }
  }

  /** underscoreFromCamelCase(): empty() inputs ('' and "0") give ''. */
  function UnderscoreFromCamelCase(name: string): string
  {
    if name == "" || name == "0" then "" else ToLower(SplitCamelHumps(name))
  }

  /** camelCaseFromUnderscore(): ucwords with '_' as the only delimiter,
      then every '_' removed. */
  function CamelCaseFromUnderscore(name: string): (r: string)
    ensures '_' !in r
  {
    if name == "" then "" else RemoveChar(UcWords(name, {'_'}), '_')
  }

  /** javaCaseFromUnderscore(): camelCaseFromUnderscore with the first
      character lower-cased. */
  function JavaCaseFromUnderscore(name: string): (r: string)
    ensures '_' !in r
  {
    if name == "" then "" else LcFirst(CamelCaseFromUnderscore(name))
  }

  lemma NoUnderscoreKept(u: string)
    requires '_' !in u
    ensures RemoveChar(u, '_') == u
  {
  }

  /** A camel-case name: letters and digits only, and a capital other than
      the first character always follows a lowercase letter or a digit. */
  predicate IsCamelName(x: string)
  {
    |x| > 0
    && (forall i | 0 <= i < |x| :: IsUpper(x[i]) || IsLower(x[i]) || IsDigit(x[i]))
    && (forall i | 1 <= i < |x| :: IsUpper(x[i]) ==> IsLower(x[i - 1]) || IsDigit(x[i - 1]))
  }

  lemma CamelNameTail(x: string)
    requires IsCamelName(x) && |x| >= 2
    ensures IsCamelName(x[1..])
    ensures IsHump(x[0], x[1]) == IsUpper(x[1])
  {
    var y := x[1..];
    assert forall i | 1 <= i < |y| :: y[i] == x[i + 1] && y[i - 1] == x[i];
  }

  lemma LowerMarkHumpsCons(x: string)
    requires |x| >= 2
    ensures ToLower(MarkHumps(x)) ==
      [LowerChar(x[0])] + ((if IsHump(x[0], x[1]) then "_" else "") + ToLower(MarkHumps(x[1..])))
  {
    var gap := if IsHump(x[0], x[1]) then "_" else "";
    MarkHumpsHead(x);
    LowerCons(x[0], gap, MarkHumps(x[1..]));
  }

  lemma LowerCons(c: char, gap: string, m: string)
    requires gap == "_" || gap == ""
    ensures ToLower(([c] + gap) + m) == [LowerChar(c)] + (gap + ToLower(m))
  {
    var lm := ToLower(m);
    ToLowerAppend([c] + gap, m);
    LowerHead(c, gap);
    ConcatAssoc([LowerChar(c)], gap, lm);
  }

  lemma ConcatAssoc(a: string, b: string, d: string)
    ensures (a + b) + d == a + (b + d)
  {
  }

  lemma MarkHumpsHead(x: string)
    requires |x| >= 2
    ensures MarkHumps(x) == ([x[0]] + (if IsHump(x[0], x[1]) then "_" else "")) + MarkHumps(x[1..])
  {
  }

  lemma LowerHead(c: char, gap: string)
    requires gap == "_" || gap == ""
    ensures ToLower([c] + gap) == [LowerChar(c)] + gap
  {
    ToLowerAppend([c], gap);
  }

  /** The core of both round trips: rebuilding a camel-case name from its
      underscored, lower-cased form gives the name back, the first
      character as ucwords leaves it. */
  lemma {:induction false} RebuildHumps(x: string, up: bool)
    requires IsCamelName(x)
    ensures RemoveChar(UcWordsFrom(ToLower(MarkHumps(x)), {'_'}, up), '_') ==
      [if up then UpperChar(LowerChar(x[0])) else LowerChar(x[0])] + x[1..]
    decreases |x|
  {
    var first := if up then UpperChar(LowerChar(x[0])) else LowerChar(x[0]);
    if |x| == 1 {
      RebuildSingle(x[0], up);
      assert MarkHumps(x) == [x[0]];
    } else {
      var y := x[1..];
      CamelNameTail(x);
      var hump := IsUpper(x[1]);
      var gap := if hump then "_" else "";
      var tail := ToLower(MarkHumps(y));
      RebuildHumps(y, hump);
      RebuildGap(y, hump, tail);
      LowerMarkHumpsCons(x);
      RebuildHead(x[0], up, gap + tail, y);
    }
  }

  /** Putting one lower-cased letter or digit in front of an underscored
      tail puts its ucwords form in front of the rebuilt tail. */
  lemma RebuildHead(c: char, up: bool, u: string, y: string)
    requires IsUpper(c) || IsLower(c) || IsDigit(c)
    requires RemoveChar(UcWordsFrom(u, {'_'}, false), '_') == y
    ensures RemoveChar(UcWordsFrom([LowerChar(c)] + u, {'_'}, up), '_') ==
      [if up then UpperChar(LowerChar(c)) else LowerChar(c)] + y
  {
    var first := if up then UpperChar(LowerChar(c)) else LowerChar(c);
    var rest := UcWordsFrom(u, {'_'}, false);
    UcWordsCons(LowerChar(c), u, {'_'}, up);
    RemoveCharAppend([first], rest, '_');
    assert RemoveChar([first], '_') == [first] + RemoveChar([], '_');
  }

  lemma RebuildSingle(c: char, up: bool)
    requires IsUpper(c) || IsLower(c) || IsDigit(c)
    ensures var first := if up then UpperChar(LowerChar(c)) else LowerChar(c);
      RemoveChar(UcWordsFrom(ToLower([c]), {'_'}, up), '_') == [first]
  {
    var first := if up then UpperChar(LowerChar(c)) else LowerChar(c);
    assert ToLower([c]) == [LowerChar(c)];
    assert UcWordsFrom([LowerChar(c)], {'_'}, up) == [first];
    assert RemoveChar([first], '_') == [first] + RemoveChar([], '_');
  }

  lemma RebuildGap(y: string, hump: bool, tail: string)
    requires |y| > 0 && (hump <==> IsUpper(y[0])) && (IsUpper(y[0]) || IsLower(y[0]) || IsDigit(y[0]))
    requires RemoveChar(UcWordsFrom(tail, {'_'}, hump), '_') ==
      [if hump then UpperChar(LowerChar(y[0])) else LowerChar(y[0])] + y[1..]
    ensures RemoveChar(UcWordsFrom((if hump then "_" else "") + tail, {'_'}, false), '_') == y
  {
    if hump {
      UcWordsCons('_', tail, {'_'}, false);
      assert "_" + tail == ['_'] + tail;
      RemoveCharAppend(['_'], UcWordsFrom(tail, {'_'}, true), '_');
      assert RemoveChar(['_'], '_') == [];
    } else {
      assert "" + tail == tail;
    }
    assert y == [y[0]] + y[1..];
  }

  /** For a camel-case name starting with a capital,
      camelCaseFromUnderscore(underscoreFromCamelCase(x)) == x. */
  lemma PascalCaseRoundTrip(x: string)
    requires IsCamelName(x) && IsUpper(x[0])
    ensures CamelCaseFromUnderscore(UnderscoreFromCamelCase(x)) == x
  {
    SplitCamelHumpsMarksAll(x);
    RebuildHumps(x, true);
    assert x == [x[0]] + x[1..];
    assert ToLower(MarkHumps(x)) != "" by {
      assert |ToLower(MarkHumps(x))| == |MarkHumps(x)|;
      MarkHumpsNonEmpty(x);
    }
  }

  /** For a camel-case name starting with a lowercase letter,
      javaCaseFromUnderscore(underscoreFromCamelCase(x)) == x. */
  lemma JavaCaseRoundTrip(x: string)
    requires IsCamelName(x) && IsLower(x[0])
    ensures JavaCaseFromUnderscore(UnderscoreFromCamelCase(x)) == x
  {
    SplitCamelHumpsMarksAll(x);
    RebuildHumps(x, true);
    assert x == [x[0]] + x[1..];
    assert ToLower(MarkHumps(x)) != "" by {
      assert |ToLower(MarkHumps(x))| == |MarkHumps(x)|;
      MarkHumpsNonEmpty(x);
    }
  }

  lemma MarkHumpsNonEmpty(x: string)
    requires x != ""
    ensures MarkHumps(x) != ""
  {
  }

  /** Two capitals in a row are not a camel-case name, and the round trip
      does lose them. */
  lemma AdjacentCapitalsLost()
    ensures UnderscoreFromCamelCase("ABc") == "abc"
    ensures CamelCaseFromUnderscore("abc") == "Abc"
  {
    assert SplitCamelHumps("ABc") == "ABc" by {
      assert "ABc"[1..] == "Bc";
      assert "Bc"[1..] == "c";
    }
    var u := UcWords("abc", {'_'});
    assert u == "Abc" by {
      assert "abc"[1..] == "bc" && "bc"[1..] == "c" && "c"[1..] == "";
      assert UcWordsFrom("c", {'_'}, false) == "c";
      assert UcWordsFrom("bc", {'_'}, false) == "bc";
    }
    NoUnderscoreKept(u);
  }

  /** A word with its first character upper-cased. */
  function Capitalised(w: string): string
  {
    if w == [] then [] else [UpperChar(w[0])] + w[1..]
  }

  /** ucwords() changes nothing after a non-delimiter in a text without
      delimiters. */
  lemma {:induction false} UcWordsNoDelimiter(t: string, delims: set<char>)
    requires forall i | 0 <= i < |t| :: t[i] !in delims
    ensures UcWordsFrom(t, delims, false) == t
  {
    if t != [] {
      UcWordsNoDelimiter(t[1..], delims);
      UcWordsCons(t[0], t[1..], delims, false);
      assert t == [t[0]] + t[1..];
    }
  }

  /** ucwords() of a concatenation: the second part starts where the first
      leaves off. */
  lemma {:induction false} UcWordsAppend(x: string, y: string, delims: set<char>, atStart: bool)
    ensures UcWordsFrom(x + y, delims, atStart) ==
      UcWordsFrom(x, delims, atStart) + UcWordsFrom(y, delims, if x == [] then atStart else x[|x| - 1] in delims)
    decreases |x|
  {
    if x == [] {
      assert x + y == y;
    } else {
      var t := x[1..];
      assert x + y == [x[0]] + (t + y);
      assert x == [x[0]] + t;
      UcWordsCons(x[0], t + y, delims, atStart);
      UcWordsAppend(t, y, delims, x[0] in delims);
      UcWordsCons(x[0], t, delims, atStart);
      if t != [] {
        assert t[|t| - 1] == x[|x| - 1];
      }
      ConcatAssoc([if atStart then UpperChar(x[0]) else x[0]], UcWordsFrom(t, delims, x[0] in delims),
        UcWordsFrom(y, delims, if x == [] then atStart else x[|x| - 1] in delims));
    }
  }

  /** A word without '_' has only its first character upper-cased by
      camelCaseFromUnderscore(). */
  lemma CamelCaseOfWord(w: string)
    requires '_' !in w
    ensures CamelCaseFromUnderscore(w) == Capitalised(w)
  {
    if w != [] {
      assert w == [w[0]] + w[1..];
      UcWordsCons(w[0], w[1..], {'_'}, true);
      UcWordsNoDelimiter(w[1..], {'_'});
      CharCases(w[0]);
      NoUnderscoreKept(Capitalised(w));
    }
  }

  /** camelCaseFromUnderscore() works word by word: the text before the
      first '_' is capitalised, the '_' dropped, and the rest converted on
      its own. With CamelCaseOfWord this determines the result on every
      input. */
  lemma CamelCaseSplits(a: string, b: string)
    requires '_' !in a
    ensures CamelCaseFromUnderscore(a + "_" + b) == Capitalised(a) + CamelCaseFromUnderscore(b)
  {
    CamelCaseUnderscore(a, b);
    CamelCaseOfWord(a);
    CamelCaseOfUcWords(a);
    CamelCaseOfUcWords(b);
  }

  /** camelCaseFromUnderscore() removes the '_' between two parts
      capitalised on their own. */
  lemma CamelCaseUnderscore(a: string, b: string)
    ensures CamelCaseFromUnderscore(a + "_" + b) ==
      RemoveChar(UcWordsFrom(a, {'_'}, true), '_') + RemoveChar(UcWordsFrom(b, {'_'}, true), '_')
  {
    var ua := UcWordsFrom(a, {'_'}, true);
    var ub := UcWordsFrom(b, {'_'}, true);
    var s := a + "_" + b;
    calc {
      CamelCaseFromUnderscore(s);
      { assert s != ""; }
      RemoveChar(UcWords(s, {'_'}), '_');
      { UcWordsUnderscore(a, b); }
      RemoveChar(ua + (['_'] + ub), '_');
      { RemoveCharAppend(ua, ['_'] + ub, '_'); }
      RemoveChar(ua, '_') + RemoveChar(['_'] + ub, '_');
      { RemoveCharLeading(ub, '_'); }
      RemoveChar(ua, '_') + RemoveChar(ub, '_');
    }
  }

  lemma RemoveCharLeading(s: string, c: char)
    ensures RemoveChar([c] + s, c) == RemoveChar(s, c)
  {
    assert ([c] + s)[1..] == s;
  }

  /** camelCaseFromUnderscore() is ucwords() without its '_', the empty
      text included. */
  lemma CamelCaseOfUcWords(a: string)
    ensures RemoveChar(UcWordsFrom(a, {'_'}, true), '_') == CamelCaseFromUnderscore(a)
  {
  }

  /** ucwords() with '_' as delimiter keeps the '_' and starts a new word
      after it. */
  lemma UcWordsUnderscore(a: string, b: string)
    ensures UcWords(a + "_" + b, {'_'}) == UcWordsFrom(a, {'_'}, true) + (['_'] + UcWordsFrom(b, {'_'}, true))
  {
    var d := {'_'};
    assert a + "_" + b == a + (['_'] + b);
    UcWordsAppend(a, ['_'] + b, d, true);
    var flag := if a == [] then true else a[|a| - 1] in d;
    UcWordsCons('_', b, d, flag);
    CharCases('_');
  }

  /** javaCaseFromUnderscore() of a word without '_' lower-cases its first
      character only. */
  lemma JavaCaseOfWord(w: string)
    requires '_' !in w
    ensures JavaCaseFromUnderscore(w) == LcFirst(w)
  {
    CamelCaseOfWord(w);
    if w != [] {
      CharCases(w[0]);
    }
  }

  /** javaCaseFromUnderscore() word by word: the first word starts
      lowercase, every later word is capitalised and the '_' dropped. */
  lemma JavaCaseSplits(a: string, b: string)
    requires '_' !in a
    ensures a != "" ==> JavaCaseFromUnderscore(a + "_" + b) == [LowerChar(a[0])] + a[1..] + CamelCaseFromUnderscore(b)
    ensures a == "" ==> JavaCaseFromUnderscore(a + "_" + b) == LcFirst(CamelCaseFromUnderscore(b))
  {
    var s := a + "_" + b;
    assert s != "" by {
      assert |s| == |a| + 1 + |b|;
    }
    CamelCaseSplits(a, b);
    if a != "" {
      LcFirstCapitalised(a, CamelCaseFromUnderscore(b));
    }
  }

  lemma LcFirstCapitalised(a: string, c: string)
    requires a != ""
    ensures LcFirst(Capitalised(a) + c) == [LowerChar(a[0])] + a[1..] + c
  {
    var x := UpperChar(a[0]);
    assert Capitalised(a) + c == [x] + (a[1..] + c);
    LcFirstOf(x, a[1..] + c);
    CharCases(a[0]);
  }

  lemma LcFirstOf(x: char, rest: string)
    ensures LcFirst([x] + rest) == [LowerChar(x)] + rest
  {
    assert ([x] + rest)[1..] == rest;
  }

  // ---------------------------------------------------------------------
  // isInteger

  /** ctype_digit() on a string. */
  predicate CtypeDigit(s: string)
  {
    |s| > 0 && AllDigits(s)
  }

  /** isInteger(): is_numeric($v) && ctype_digit((string)$v). Only
      integers and strings are numeric among the values modelled here. */
  predicate IsInteger(v: Value)
  {
    match v
    case Int(n) => CtypeDigit(IntText(n))
    case Str(s) => IsNumericString(s) && CtypeDigit(s)
    case _ => false
  }

  lemma DigitsAreNumeric(s: string)
    requires CtypeDigit(s)
    ensures IsNumericString(s)
  {
    assert !exists k | 0 <= k < |s| :: s[k] == '.' by {
      forall k | 0 <= k < |s| ensures s[k] != '.' {
        assert IsDigit(s[k]);
      }
    }
    assert IsDecimalMantissa(s);
    assert s[0..|s|] == s;
    assert IsDigit(s[0]);
    assert IsNumberBetween(s, 0, |s|);
  }

  /** isInteger accepts exactly the non-negative integers and the non-empty
      all-digit strings (leading zeros allowed, no sign, no spaces). */
  lemma IsIntegerMeaning(v: Value)
    ensures v.Int? ==> (IsInteger(v) <==> v.i >= 0)
    ensures v.Str? ==> (IsInteger(v) <==> |v.s| > 0 && AllDigits(v.s))
    ensures !v.Int? && !v.Str? ==> !IsInteger(v)
  {
    match v {
      case Int(n) =>
        if n < 0 {
          assert IntText(n)[0] == '-';
        }
      case Str(s) =>
        if CtypeDigit(s) {
          DigitsAreNumeric(s);
        }
      case _ =>
    }
  }

  // ---------------------------------------------------------------------
  // longestCommonSubsequence: despite its name, the longest common
  // contiguous substring, by the O(n*m) table of common-suffix lengths

  /** The length of the longest common suffix of a[..i+1] and b[..j+1]:
      the value the table holds at row i, column j. */
  function SuffixMatch(a: string, b: string, i: nat, j: nat): (k: nat)
    requires i < |a| && j < |b|
    ensures k <= i + 1 && k <= j + 1
    ensures k > 0 <==> a[i] == b[j]
  {
    if a[i] != b[j] then 0
    else if i == 0 || j == 0 then 1
    else SuffixMatch(a, b, i - 1, j - 1) + 1
  }

  /** The table entry at (i, j) is the length of a common substring ending
      at i in a and at j in b. */
  lemma {:induction false} SuffixMatchIsCommon(a: string, b: string, i: nat, j: nat)
    requires i < |a| && j < |b|
    ensures var k := SuffixMatch(a, b, i, j); a[i + 1 - k..i + 1] == b[j + 1 - k..j + 1]
  {
    if a[i] == b[j] && i > 0 && j > 0 {
      SuffixMatchIsCommon(a, b, i - 1, j - 1);
      var k := SuffixMatch(a, b, i - 1, j - 1);
      assert a[i - k..i + 1] == a[i - k..i] + [a[i]];
      assert b[j - k..j + 1] == b[j - k..j] + [b[j]];
    }
  }

  /** Every common substring ending at i in a and at j in b is at most as
      long as the table entry there. */
  lemma {:induction false} CommonSuffixBound(a: string, b: string, i: nat, j: nat, len: nat)
    requires i < |a| && j < |b| && len <= i + 1 && len <= j + 1
    requires a[i + 1 - len..i + 1] == b[j + 1 - len..j + 1]
    ensures len <= SuffixMatch(a, b, i, j)
    decreases len
  {
    if len > 0 {
      assert a[i] == a[i + 1 - len..i + 1][len - 1];
      assert b[j] == b[j + 1 - len..j + 1][len - 1];
      if len > 1 {
        assert a[i - (len - 1)..i] == a[i + 1 - len..i + 1][..len - 1];
        assert b[j - (len - 1)..j] == b[j + 1 - len..j + 1][..len - 1];
        CommonSuffixBound(a, b, i - 1, j - 1, len - 1);
      }
    }
  }

  /** Row-major order of the table cells: (p, q) is filled before (i, j). */
  predicate Before(p: int, q: int, i: int, j: int)
  {
    p < i || (p == i && q < j)
  }

  /** No table entry exceeds len. */
  ghost predicate NoLongerMatch(a: string, b: string, len: nat)
  {
    forall i, j | 0 <= i < |a| && 0 <= j < |b| :: SuffixMatch(a, b, i, j) <= len
  }

  /** r is a[i+1-|r|..i+1], the entry at (i, j) equals |r|, and no earlier
      row reaches |r|. */
  ghost predicate EarliestMatchAt(a: string, b: string, r: string, i: int, j: int)
  {
    0 <= i < |a| && 0 <= j < |b| && SuffixMatch(a, b, i, j) == |r| && r == a[i + 1 - |r|..i + 1]
    && forall p, q | 0 <= p < i && 0 <= q < |b| :: SuffixMatch(a, b, p, q) < |r|
  }

  /** The table holds the suffix lengths of the cells filled so far, and
      its initial 0 elsewhere. */
  predicate TableFilled(csl: array2<nat>, a: string, b: string, i: int, j: int)
    reads csl
    requires csl.Length0 == |a| && csl.Length1 == |b|
  {
    forall p, q | 0 <= p < |a| && 0 <= q < |b| ::
      csl[p, q] == if Before(p, q, i, j) then SuffixMatch(a, b, p, q) else 0
  }

  /** No cell filled before (i, j) holds more than largest. */
  ghost predicate MaxBefore(a: string, b: string, i: int, j: int, largest: nat)
  {
    forall p, q | 0 <= p < |a| && 0 <= q < |b| && Before(p, q, i, j) :: SuffixMatch(a, b, p, q) <= largest
  }

  /** (bi, bj) is the first cell holding largest, with the substring ending
      there in first. */
  ghost predicate FirstMax(a: string, b: string, largest: nat, first: string, bi: int, bj: int)
  {
    0 <= bi < |a| && 0 <= bj < |b| && SuffixMatch(a, b, bi, bj) == largest
    && first == a[bi + 1 - largest..bi + 1]
    && forall p, q | 0 <= p < |a| && 0 <= q < |b| && Before(p, q, bi, bj) :: SuffixMatch(a, b, p, q) < largest
  }

  /** The state of the scan before cell (i, j): largest is the largest entry
      so far, and ret[0] the substring ending at the first cell holding it. */
  ghost predicate ScanState(a: string, b: string, i: int, j: int, largest: nat, ret: seq<string>, bi: int, bj: int)
  {
    MaxBefore(a, b, i, j, largest)
    && (largest == 0 <==> ret == [])
    && (largest > 0 ==> Before(bi, bj, i, j) && FirstMax(a, b, largest, ret[0], bi, bj))
  }

  lemma MaxExtends(a: string, b: string, i: nat, j: nat, largest: nat)
    requires i < |a| && j < |b| && MaxBefore(a, b, i, j, largest) && SuffixMatch(a, b, i, j) <= largest
    ensures MaxBefore(a, b, i, j + 1, largest)
  {
    forall p, q | 0 <= p < |a| && 0 <= q < |b| && Before(p, q, i, j + 1)
      ensures SuffixMatch(a, b, p, q) <= largest
    {
      if !(p == i && q == j) {
        assert Before(p, q, i, j);
      }
    }
  }

  lemma NewMax(a: string, b: string, i: nat, j: nat, largest: nat)
    requires i < |a| && j < |b| && MaxBefore(a, b, i, j, largest) && SuffixMatch(a, b, i, j) > largest
    ensures var k := SuffixMatch(a, b, i, j);
      MaxBefore(a, b, i, j + 1, k) && FirstMax(a, b, k, a[i + 1 - k..i + 1], i, j)
  {
    var k := SuffixMatch(a, b, i, j);
    forall p, q | 0 <= p < |a| && 0 <= q < |b| && Before(p, q, i, j + 1)
      ensures SuffixMatch(a, b, p, q) <= k
    {
      if !(p == i && q == j) {
        assert Before(p, q, i, j);
      }
    }
  }

  /** One cell of two equal characters, with entry k: a new maximum
      restarts the list; an entry equal to the maximum is appended behind
      the first one. */
  lemma ScanMatch(a: string, b: string, i: nat, j: nat, k: nat, largest: nat, ret: seq<string>, bi: int, bj: int,
                  largest': nat, ret': seq<string>, bi': int, bj': int)
    requires i < |a| && j < |b| && a[i] == b[j] && k == SuffixMatch(a, b, i, j) && ScanState(a, b, i, j, largest, ret, bi, bj)
    requires k > largest ==> largest' == k && ret' == [a[i + 1 - k..i + 1]] && bi' == i && bj' == j
    requires k == largest ==> largest' == largest && ret' == ret + [a[i + 1 - k..i + 1]] && bi' == bi && bj' == bj
    requires k < largest ==> largest' == largest && ret' == ret && bi' == bi && bj' == bj
    ensures ScanState(a, b, i, j + 1, largest', ret', bi', bj')
  {
    if k > largest {
      NewMax(a, b, i, j, largest);
    } else {
      MaxExtends(a, b, i, j, largest);
      if largest > 0 {
        assert ret'[0] == ret[0];
      }
    }
  }

  /** A cell of two different characters changes nothing. */
  lemma ScanSkip(a: string, b: string, i: nat, j: nat, largest: nat, ret: seq<string>, bi: int, bj: int)
    requires i < |a| && j < |b| && a[i] != b[j] && ScanState(a, b, i, j, largest, ret, bi, bj)
    ensures ScanState(a, b, i, j + 1, largest, ret, bi, bj)
  {
    MaxExtends(a, b, i, j, largest);
  }

  lemma ScanNextRow(a: string, b: string, i: nat, largest: nat, ret: seq<string>, bi: int, bj: int)
    requires ScanState(a, b, i, |b|, largest, ret, bi, bj)
    ensures ScanState(a, b, i + 1, 0, largest, ret, bi, bj)
  {
    forall p, q | 0 <= p < |a| && 0 <= q < |b| && Before(p, q, i + 1, 0)
      ensures SuffixMatch(a, b, p, q) <= largest
    {
      assert Before(p, q, i, |b|);
    }
  }

  /** Fills the cell (i, j) of two equal characters from its upper left
      neighbour; the new entry is the length of the common suffix there. */
  method FillCell(csl: array2<nat>, a: string, b: string, i: nat, j: nat) returns (k: nat)
    modifies csl
    requires csl.Length0 == |a| && csl.Length1 == |b| && i < |a| && j < |b| && a[i] == b[j]
    requires TableFilled(csl, a, b, i, j)
    ensures TableFilled(csl, a, b, i, j + 1)
    ensures k == SuffixMatch(a, b, i, j)
  {
    k := if i == 0 || j == 0 then 1 else csl[i - 1, j - 1] + 1;
    csl[i, j] := k;
  }

  /** The result once every cell is scanned. */
  lemma ScanResult(a: string, b: string, largest: nat, ret: seq<string>, bi: int, bj: int, r: string)
    requires ScanState(a, b, |a|, 0, largest, ret, bi, bj)
    requires r == if |ret| > 0 then ret[0] else ""
    ensures NoLongerMatch(a, b, |r|)
    ensures r == "" <==> forall i, j | 0 <= i < |a| && 0 <= j < |b| :: a[i] != b[j]
    ensures r != "" ==> exists i, j :: EarliestMatchAt(a, b, r, i, j)
  {
    if largest == 0 {
      forall i, j | 0 <= i < |a| && 0 <= j < |b| ensures a[i] != b[j] {
        assert SuffixMatch(a, b, i, j) <= 0;
      }
    } else {
      assert |r| == largest;
      assert SuffixMatch(a, b, bi, bj) > 0;
      assert EarliestMatchAt(a, b, r, bi, bj);
    }
  }

  /** The body of the inner loop of longestCommonSubsequence(): cell
      (i, j) is filled when the characters are equal, and the best match
      so far updated. */
  method ScanCell(csl: array2<nat>, str1: string, str2: string, i: nat, j: nat, largest0: nat, ret0: seq<string>,
                  ghost bi0: int, ghost bj0: int)
    returns (largest: nat, ret: seq<string>, ghost bi: int, ghost bj: int)
    modifies csl
    requires csl.Length0 == |str1| && csl.Length1 == |str2| && i < |str1| && j < |str2|
    requires TableFilled(csl, str1, str2, i, j) && ScanState(str1, str2, i, j, largest0, ret0, bi0, bj0)
    ensures TableFilled(csl, str1, str2, i, j + 1) && ScanState(str1, str2, i, j + 1, largest, ret, bi, bj)
  {
    largest, ret, bi, bj := largest0, ret0, bi0, bj0;
    if str1[i] == str2[j] {
      var k := FillCell(csl, str1, str2, i, j);
      if k > largest {
        largest := k;
        ret := [];
        bi, bj := i, j;
      }
      if k == largest {
        ret := ret + [str1[i + 1 - largest..i + 1]];
      }
      ScanMatch(str1, str2, i, j, k, largest0, ret0, bi0, bj0, largest, ret, bi, bj);
    } else {
      ScanSkip(str1, str2, i, j, largest, ret, bi, bj);
    }
  }

  /** The inner loop of longestCommonSubsequence(): row i of the table. */
  method ScanRow(csl: array2<nat>, str1: string, str2: string, i: nat, largest0: nat, ret0: seq<string>,
                 ghost bi0: int, ghost bj0: int)
    returns (largest: nat, ret: seq<string>, ghost bi: int, ghost bj: int)
    modifies csl
    requires csl.Length0 == |str1| && csl.Length1 == |str2| && i < |str1|
    requires TableFilled(csl, str1, str2, i, 0) && ScanState(str1, str2, i, 0, largest0, ret0, bi0, bj0)
    ensures TableFilled(csl, str1, str2, i + 1, 0) && ScanState(str1, str2, i + 1, 0, largest, ret, bi, bj)
  {
    largest, ret, bi, bj := ScanCells(csl, str1, str2, i, largest0, ret0, bi0, bj0);
    ScanNextRow(str1, str2, i, largest, ret, bi, bj);
    TableNextRow(csl, str1, str2, i);
  }

  /** The cells of row i, one after the other. */
  method ScanCells(csl: array2<nat>, str1: string, str2: string, i: nat, largest0: nat, ret0: seq<string>,
                   ghost bi0: int, ghost bj0: int)
    returns (largest: nat, ret: seq<string>, ghost bi: int, ghost bj: int)
    modifies csl
    requires csl.Length0 == |str1| && csl.Length1 == |str2| && i < |str1|
    requires TableFilled(csl, str1, str2, i, 0) && ScanState(str1, str2, i, 0, largest0, ret0, bi0, bj0)
    ensures TableFilled(csl, str1, str2, i, |str2|) && ScanState(str1, str2, i, |str2|, largest, ret, bi, bj)
  {
    largest, ret, bi, bj := largest0, ret0, bi0, bj0;
    var m := |str2|;
    for j := 0 to m
      invariant TableFilled(csl, str1, str2, i, j)
      invariant ScanState(str1, str2, i, j, largest, ret, bi, bj)
    {
      largest, ret, bi, bj := ScanCell(csl, str1, str2, i, j, largest, ret, bi, bj);
    }
  }

  lemma TableNextRow(csl: array2<nat>, a: string, b: string, i: nat)
    requires csl.Length0 == |a| && csl.Length1 == |b|
    requires TableFilled(csl, a, b, i, |b|)
    ensures TableFilled(csl, a, b, i + 1, 0)
  {
    forall p, q | 0 <= p < |a| && 0 <= q < |b|
      ensures csl[p, q] == if Before(p, q, i + 1, 0) then SuffixMatch(a, b, p, q) else 0
    {
      assert Before(p, q, i + 1, 0) == Before(p, q, i, |b|);
    }
  }

  /** longestCommonSubsequence() */
  method LongestCommonSubsequence(str1: string, str2: string) returns (r: string)
    ensures |str1| == 0 || |str2| == 0 ==> r == ""
    ensures NoLongerMatch(str1, str2, |r|)
    ensures r == "" <==> forall i, j | 0 <= i < |str1| && 0 <= j < |str2| :: str1[i] != str2[j]
    ensures r != "" ==> exists i, j :: EarliestMatchAt(str1, str2, r, i, j)
  {
    var n := |str1|;
    var m := |str2|;
    if n == 0 || m == 0 {
      return "";
    }
    var csl := new nat[n, m]((_, _) => 0);
    var largest: nat := 0;
    var ret: seq<string> := [];
    ghost var bi: int, bj: int := 0, 0;
    for i := 0 to n
      invariant TableFilled(csl, str1, str2, i, 0)
      invariant ScanState(str1, str2, i, 0, largest, ret, bi, bj)
    {
      largest, ret, bi, bj := ScanRow(csl, str1, str2, i, largest, ret, bi, bj);
    }
    r := if |ret| > 0 then ret[0] else "";
    ScanResult(str1, str2, largest, ret, bi, bj, r);
  }

  /** a[p..p+len] and b[q..q+len] are the same non-empty substring. */
  ghost predicate IsCommonAt(a: string, b: string, p: int, q: int, len: int)
  {
    0 <= p && 0 <= q && 0 < len && p + len <= |a| && q + len <= |b| && a[p..p + len] == b[q..q + len]
  }

  /** What the postcondition of LongestCommonSubsequence means: r is a
      substring of both inputs, no common substring is longer, and no
      common substring of the same length ends earlier in str1. */
  lemma LongestCommonSubstringMeaning(a: string, b: string, r: string, i: int, j: int)
    requires r != "" && NoLongerMatch(a, b, |r|) && EarliestMatchAt(a, b, r, i, j)
    ensures r == b[j + 1 - |r|..j + 1]
    ensures forall p, q, len | IsCommonAt(a, b, p, q, len) :: len <= |r|
    ensures forall p, q | IsCommonAt(a, b, p, q, |r|) :: p + |r| - 1 >= i
  {
    SuffixMatchIsCommon(a, b, i, j);
    forall p, q, len | IsCommonAt(a, b, p, q, len) ensures len <= |r| {
      CommonSuffixBound(a, b, p + len - 1, q + len - 1, len);
    }
    forall p, q | IsCommonAt(a, b, p, q, |r|) ensures p + |r| - 1 >= i {
      CommonSuffixBound(a, b, p + |r| - 1, q + |r| - 1, |r|);
    }
  }
}
