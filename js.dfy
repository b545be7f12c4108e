/** QCubed\Js: rendering PHP values as JavaScript source text (Helper) and the
    wrapper objects the renderer knows about (Func, Closure, ParameterList,
    NoQuoteKey, VarName). The wrappers are the Js* variants of Php.Object;
    their constructors store their arguments, which is all the datatype
    constructors do. */
module Js {
  import opened Php

  const JSON_OBJECT_TYPE: string := "qObjType"

  /** The form-feed character. */
  const FF: char := 12 as char

  // ---------------------------------------------------------------------
  // PHP built-ins: str_replace() with one needle, implode()

  /** str_replace() of one needle: occurrences are found left to right, do
      not overlap, and the inserted text is not searched again. */
  function Replace(s: string, needle: string, rep: string): string
    requires needle != []
    decreases |s|
  {
    if |s| < |needle| then s
    else if s[..|needle|] == needle then rep + Replace(s[|needle|..], needle, rep)
    else [s[0]] + Replace(s[1..], needle, rep)
  }

  /** Replacing a needle by itself changes nothing. */
  lemma {:induction false} ReplaceSame(s: string, needle: string)
    requires needle != []
    ensures Replace(s, needle, needle) == s
    decreases |s|
  {
    if |s| >= |needle| {
      if s[..|needle|] == needle {
        ReplaceSame(s[|needle|..], needle);
        assert s == needle + s[|needle|..];
      } else {
        ReplaceSame(s[1..], needle);
        assert s == [s[0]] + s[1..];
      }
    }
  }

  /** A one-character needle is replaced character by character. */
  lemma {:induction false} ReplaceCharConcat(a: string, b: string, c: char, rep: string)
    ensures Replace(a + b, [c], rep) == Replace(a, [c], rep) + Replace(b, [c], rep)
    decreases |a|
  {
    if a == [] {
      assert a + b == b;
    } else {
      assert (a + b)[1..] == a[1..] + b;
      assert (a + b)[..1] == a[..1];
      ReplaceCharConcat(a[1..], b, c, rep);
    }
  }

  lemma ReplaceCharSingle(x: char, c: char, rep: string)
    ensures Replace([x], [c], rep) == if x == c then rep else [x]
  {
    assert [x][1..] == [];
    assert [x][..1] == [x];
  }

  /** implode(sep, parts) */
  function Implode(sep: string, parts: seq<string>): string
    decreases |parts|
  {
    if parts == [] then ""
    else if |parts| == 1 then parts[0]
    else Implode(sep, parts[..|parts| - 1]) + sep + parts[|parts| - 1]
  }

  /** The first part is where the imploded text starts. */
  lemma {:induction false} ImplodeStartsWithFirst(sep: string, parts: seq<string>)
    requires parts != []
    ensures parts[0] <= Implode(sep, parts)
    decreases |parts|
  {
    if |parts| > 1 {
      var init := parts[..|parts| - 1];
      ImplodeStartsWithFirst(sep, init);
      assert init[0] == parts[0];
    }
  }

  lemma ImplodeAppend(sep: string, parts: seq<string>, last: string)
    requires parts != []
    ensures Implode(sep, parts + [last]) == Implode(sep, parts) + sep + last
  {
    assert (parts + [last])[..|parts|] == parts;
  }

  // ---------------------------------------------------------------------
  // jsEncodeString()

  /** The escape of one character in a JavaScript string literal. */
  function Escape(c: char): string
  {
    if c == '\\' then "\\\\"
    else if c == '/' then "\\/"
    else if c == '\n' then "\\n"
    else if c == '\t' then "\\t"
    else if c == '\r' then "\\r"
    else if c == FF then "\\f"
    else if c == '"' then "\\\""
    else [c]
  }

  /** Every character escaped independently. */
  function EscapeAll(s: string): string
    decreases |s|
  {
    if s == [] then [] else Escape(s[0]) + EscapeAll(s[1..])
  }

  /** The replacements other than the "\b" entry, in the order of the search
      array: backslash, slash, LF, TAB, CR, FF, double quote. */
  function ReplaceSeven(s: string): string
  {
    Replace(Replace(Replace(Replace(Replace(Replace(Replace(s,
      "\\", "\\\\"), "/", "\\/"), "\n", "\\n"), "\t", "\\t"), "\r", "\\r"),
      [FF], "\\f"), "\"", "\\\"")
  }

  /** str_replace($search, $replace, s) as written: the eight pairs are
      applied one after another over the whole text. In double quotes "\b"
      is a backslash followed by 'b', and '\\b' is the same two characters,
      so the sixth pair replaces a text by itself. */
  function ReplaceAsWritten(s: string): string
  {
    var r5 := Replace(Replace(Replace(Replace(Replace(s,
      "\\", "\\\\"), "/", "\\/"), "\n", "\\n"), "\t", "\\t"), "\r", "\\r");
    Replace(Replace(Replace(r5, "\\b", "\\b"), [FF], "\\f"), "\"", "\\\"")
  }

  lemma ReplaceSevenConcat(a: string, b: string)
    ensures ReplaceSeven(a + b) == ReplaceSeven(a) + ReplaceSeven(b)
  {
    var a1, b1 := Replace(a, "\\", "\\\\"), Replace(b, "\\", "\\\\");
    ReplaceCharConcat(a, b, '\\', "\\\\");
    var a2, b2 := Replace(a1, "/", "\\/"), Replace(b1, "/", "\\/");
    ReplaceCharConcat(a1, b1, '/', "\\/");
    var a3, b3 := Replace(a2, "\n", "\\n"), Replace(b2, "\n", "\\n");
    ReplaceCharConcat(a2, b2, '\n', "\\n");
    var a4, b4 := Replace(a3, "\t", "\\t"), Replace(b3, "\t", "\\t");
    ReplaceCharConcat(a3, b3, '\t', "\\t");
    var a5, b5 := Replace(a4, "\r", "\\r"), Replace(b4, "\r", "\\r");
    ReplaceCharConcat(a4, b4, '\r', "\\r");
    var a6, b6 := Replace(a5, [FF], "\\f"), Replace(b5, [FF], "\\f");
    ReplaceCharConcat(a5, b5, FF, "\\f");
    ReplaceCharConcat(a6, b6, '"', "\\\"");
  }

  /** Replacing a character that does not occur changes nothing. */
  lemma {:induction false} ReplaceAbsent(s: string, c: char, rep: string)
    requires c !in s
    ensures Replace(s, [c], rep) == s
    decreases |s|
  {
    if s != [] {
      assert s[..1] == [s[0]];
      ReplaceAbsent(s[1..], c, rep);
      assert s == [s[0]] + s[1..];
    }
  }

  /** After the first replacement of one character, the remaining ones
      leave the inserted escape alone. */
  lemma ReplaceSevenChar(c: char)
    ensures ReplaceSeven([c]) == Escape(c)
  {
    var r1 := Replace([c], "\\", "\\\\");
    ReplaceCharSingle(c, '\\', "\\\\");
    assert '/' !in r1 || r1 == [c];
    var e := Escape(c);
    if c == '\\' {
      assert r1 == e;
      ReplaceAbsent(e, '/', "\\/");
      ReplaceAbsent(e, '\n', "\\n");
      ReplaceAbsent(e, '\t', "\\t");
      ReplaceAbsent(e, '\r', "\\r");
      ReplaceAbsent(e, FF, "\\f");
      ReplaceAbsent(e, '"', "\\\"");
    } else {
      AfterFirst(c);
    }
  }

  /** The six replacements after the backslash one, on one character other
      than a backslash. */
  lemma AfterFirst(c: char)
    requires c != '\\'
    ensures Replace(Replace(Replace(Replace(Replace(Replace([c],
      "/", "\\/"), "\n", "\\n"), "\t", "\\t"), "\r", "\\r"), [FF], "\\f"), "\"", "\\\"") == Escape(c)
  {
    var e := Escape(c);
    ReplaceCharSingle(c, '/', "\\/");
    var r2 := Replace([c], "/", "\\/");
    if c == '/' {
      ReplaceAbsent(r2, '\n', "\\n");
      ReplaceAbsent(r2, '\t', "\\t");
      ReplaceAbsent(r2, '\r', "\\r");
      ReplaceAbsent(r2, FF, "\\f");
      ReplaceAbsent(r2, '"', "\\\"");
    } else {
      ReplaceCharSingle(c, '\n', "\\n");
      var r3 := Replace([c], "\n", "\\n");
      if c == '\n' {
        ReplaceAbsent(r3, '\t', "\\t");
        ReplaceAbsent(r3, '\r', "\\r");
        ReplaceAbsent(r3, FF, "\\f");
        ReplaceAbsent(r3, '"', "\\\"");
      } else {
        AfterThird(c);
      }
    }
  }

  lemma AfterThird(c: char)
    requires c != '\\' && c != '/' && c != '\n'
    ensures Replace(Replace(Replace(Replace([c], "\t", "\\t"), "\r", "\\r"), [FF], "\\f"), "\"", "\\\"") == Escape(c)
  {
    ReplaceCharSingle(c, '\t', "\\t");
    var r4 := Replace([c], "\t", "\\t");
    if c == '\t' {
      ReplaceAbsent(r4, '\r', "\\r");
      ReplaceAbsent(r4, FF, "\\f");
      ReplaceAbsent(r4, '"', "\\\"");
    } else {
      ReplaceCharSingle(c, '\r', "\\r");
      var r5 := Replace([c], "\r", "\\r");
      if c == '\r' {
        ReplaceAbsent(r5, FF, "\\f");
        ReplaceAbsent(r5, '"', "\\\"");
      } else {
        ReplaceCharSingle(c, FF, "\\f");
        var r6 := Replace([c], [FF], "\\f");
        if c == FF {
          ReplaceAbsent(r6, '"', "\\\"");
        } else {
          ReplaceCharSingle(c, '"', "\\\"");
        }
      }
    }
  }

  /** The sequential replacements amount to escaping each character on its
      own. */
  lemma {:induction false} ReplaceSevenIsEscapeAll(s: string)
    ensures ReplaceSeven(s) == EscapeAll(s)
    decreases |s|
  {
    if s != [] {
      assert s == [s[0]] + s[1..];
      ReplaceSevenConcat([s[0]], s[1..]);
      ReplaceSevenChar(s[0]);
      ReplaceSevenIsEscapeAll(s[1..]);
    }
  }

  lemma ReplaceAsWrittenIsEscapeAll(s: string)
    ensures ReplaceAsWritten(s) == EscapeAll(s)
  {
    var r5 := Replace(Replace(Replace(Replace(Replace(s,
      "\\", "\\\\"), "/", "\\/"), "\n", "\\n"), "\t", "\\t"), "\r", "\\r");
    ReplaceSame(r5, "\\b");
    ReplaceSevenIsEscapeAll(s);
  }

  /** jsEncodeString(): a double-quoted literal in which every character is
      escaped on its own. */
  function JsEncodeString(s: string): (r: string)
    ensures r == "\"" + EscapeAll(s) + "\""
  {
    ReplaceAsWrittenIsEscapeAll(s);
    "\"" + ReplaceAsWritten(s) + "\""
  }

  /** How JavaScript reads the inside of a string literal back: a backslash
      and the next character stand for one character. */
  function Unescape(t: string): string
    decreases |t|
  {
    if t == [] then []
    else if t[0] == '\\' && |t| >= 2 then [Unescaped(t[1])] + Unescape(t[2..])
    else [t[0]] + Unescape(t[1..])
  }

  function Unescaped(c: char): char
  {
    if c == 'n' then '\n' else if c == 't' then '\t' else if c == 'r' then '\r'
    else if c == 'f' then FF else c
  }

  lemma UnescapeOne(c: char, t: string)
    ensures Unescape(Escape(c) + t) == [c] + Unescape(t)
  {
    var e := Escape(c);
    if |e| == 2 {
      assert (e + t)[2..] == t;
    } else {
      assert (e + t)[1..] == t;
    }
  }

  /** Reading the escaped text back gives the original string. */
  lemma {:induction false} EscapeAllRoundTrip(s: string)
    ensures Unescape(EscapeAll(s)) == s
    decreases |s|
  {
    if s != [] {
      UnescapeOne(s[0], EscapeAll(s[1..]));
      EscapeAllRoundTrip(s[1..]);
    }
  }

  /** Escaping works character by character, so it distributes over
      concatenation. */
  lemma {:induction false} EscapeAllConcat(a: string, b: string)
    ensures EscapeAll(a + b) == EscapeAll(a) + EscapeAll(b)
    decreases |a|
  {
    if a != [] {
      assert (a + b)[0] == a[0];
      assert (a + b)[1..] == a[1..] + b;
      EscapeAllConcat(a[1..], b);
      assert EscapeAll(a + b) == Escape(a[0]) + EscapeAll(a[1..] + b);
      assert EscapeAll(a) == Escape(a[0]) + EscapeAll(a[1..]);
    } else {
      assert a + b == b;
    }
  }

  /** Only the seven listed characters are changed. */
  lemma EscapeKeeps(c: char)
    requires c !in {'\\', '/', '\n', '\t', '\r', FF, '"'}
    ensures Escape(c) == [c]
  {
  }

  // ---------------------------------------------------------------------
  // toJsObject(): the rendering, as a specification

  predicate IsNoQuoteKey(v: Value)
  {
    v.Obj? && v.obj.JsNoQuoteKey?
  }

  /** array_diff_key($array, array_keys(array_keys($array))) is empty: every
      key is one of the integers 0 .. n-1. */
  predicate IsListShaped(e: seq<(Key, Value)>)
  {
    forall i | 0 <= i < |e| :: e[i].0.IntKey? && 0 <= e[i].0.i < |e|
  }

  /** A key as the value toJsObject() receives for it. */
  function KeyValue(k: Key): Value
  {
    match k
    case IntKey(i) => Int(i)
    case StrKey(s) => Str(s)
  }

  /** toJsObject($objKey): integer keys as numbers, string keys quoted. */
  function KeyJs(k: Key): string
  {
    match k
    case IntKey(i) => IntText(i)
    case StrKey(s) => JsEncodeString(s)
  }

  /** $strList after the items with these renderings: ',' is added before
      an item only when the text so far is not empty. */
  function ListJoin(parts: seq<string>): string
    decreases |parts|
  {
    if parts == [] then ""
    else
      var acc := ListJoin(parts[..|parts| - 1]);
      (if |acc| > 0 then acc + "," else acc) + parts[|parts| - 1]
  }

  /** $strHash after the entries with these renderings: ',' is added when
      the text so far is truthy. */
  function HashJoin(parts: seq<string>): string
    decreases |parts|
  {
    if parts == [] then ""
    else
      var acc := HashJoin(parts[..|parts| - 1]);
      (if Truthy(Str(acc)) then acc + "," else acc) + parts[|parts| - 1]
  }

  /** One entry of a hash: the key raw when the value is a NoQuoteKey,
      otherwise rendered, then ': ' and the rendered value. */
  function EntryText(k: Key, item: Value, itemText: string): string
  {
    (if IsNoQuoteKey(item) then KeyText(k) else KeyJs(k)) + ": " + itemText
  }

  function EntryTexts(e: seq<(Key, Value)>, texts: seq<string>): (r: seq<string>)
    requires |texts| == |e|
    ensures |r| == |e|
    ensures forall i | 0 <= i < |e| :: r[i] == EntryText(e[i].0, e[i].1, texts[i])
  {
    seq(|e|, i requires 0 <= i < |e| => EntryText(e[i].0, e[i].1, texts[i]))
  }

  /** An array, given the rendering of each of its values. */
  function ArrayText(e: seq<(Key, Value)>, texts: seq<string>): string
    requires |texts| == |e|
  {
    if IsListShaped(e) then "[" + ListJoin(texts) + "]"
    else "{" + HashJoin(EntryTexts(e, texts)) + "}"
  }

  /** The name Func calls: 'context.name' for a truthy context. */
  function CalleeName(name: string, context: Option<string>): string
  {
    if context.Some? && Truthy(Str(context.value)) then context.value + "." + name else name
  }

  /** Func::toJsObject(), given the rendering of each parameter. */
  function FuncText(name: string, context: Option<string>, paramTexts: seq<string>): string
  {
    CalleeName(name, context) + "(" + Implode(",", paramTexts) + ")"
  }

  /** Closure::toJsObject(): the body goes in verbatim. */
  function ClosureText(body: string, paramNames: Option<seq<string>>): string
  {
    var params := if paramNames.Some? && paramNames.value != [] then Implode(", ", paramNames.value) else "";
    "function(" + params + ") {" + body + "}"
  }

  /** Helper::toJsObject() for every value but floats. */
  function Js(v: Value): string
    decreases v
  {
    match v
    case Null => "null"
    case Bool(b) => if b then "true" else "false"
    case Int(i) => IntText(i)
    case Str(s) => JsEncodeString(s)
    case Arr(e) => ArrayText(e, seq(|e|, i requires 0 <= i < |e| => Js(e[i].1)))
    case Resource(id) => JsEncodeString("Resource id #" + IntText(id))
    case Obj(o) =>
      match o
      case JsFunc(name, params, context) =>
        FuncText(name, context, seq(|params|, i requires 0 <= i < |params| => Js(params[i].1)))
      case JsClosure(body, names) => ClosureText(body, names)
      case JsParameterList(items) => ListJoin(seq(|items|, i requires 0 <= i < |items| => Js(items[i])))
      case JsNoQuoteKey(content) => Js(content)
      case JsVarName(name) => name
      case Instance(_, _, _, jsText) => if jsText.Some? then jsText.value else ""
      case SimpleXml(_) => ""
      case PhpClosure(_) => ""
  }

  /** The renderings of the values of an array, in insertion order. */
  function ValueTexts(e: seq<(Key, Value)>): (r: seq<string>)
    ensures |r| == |e| && forall i | 0 <= i < |e| :: r[i] == Js(e[i].1)
  {
    seq(|e|, i requires 0 <= i < |e| => Js(e[i].1))
  }

  // ---------------------------------------------------------------------
  // toJsObject(): the code, with its loops

  /** Helper::toJsObject() */
  method ToJsObject(v: Value) returns (s: string)
    ensures s == Js(v)
    decreases v, 2
  {
    match v {
      case Null => s := "null";
      case Bool(b) => s := if b then "true" else "false";
      case Int(i) => s := IntText(i);
      case Str(t) => s := JsEncodeString(t);
      case Arr(_) => s := ArrayToJs(v);
      case Obj(_) => s := ObjectToJs(v);
      case Resource(id) => s := JsEncodeString("Resource id #" + IntText(id));
    }
  }

  /** The 'object' case: delegate to toJsObject() where the class has one. */
  method ObjectToJs(v: Value) returns (s: string)
    requires v.Obj?
    ensures s == Js(v)
    decreases v, 1
  {
    match v.obj {
      case JsFunc(_, _, _) => s := FuncToJs(v);
      case JsClosure(body, names) => s := ClosureText(body, names);
      case JsParameterList(_) => s := ParameterListToJs(v);
      case JsNoQuoteKey(content) => s := ToJsObject(content);
      case JsVarName(name) => s := name;
      case Instance(_, _, _, jsText) => s := if jsText.Some? then jsText.value else "";
      case SimpleXml(_) => s := "";
      case PhpClosure(_) => s := "";
    }
  }

  /** The 'array' case: a list when the keys are 0 .. n-1, a hash otherwise. */
  method ArrayToJs(v: Value) returns (s: string)
    requires v.Arr?
    ensures s == Js(v)
    decreases v, 1
  {
    if !IsListShaped(v.entries) {
      s := HashToJs(v);
    } else {
      s := ListToJs(v);
    }
    assert Js(v) == ArrayText(v.entries, ValueTexts(v.entries));
  }

  /** The hash branch: '{', the entries with a ',' before all but the first,
      and '}'. */
  method HashToJs(v: Value) returns (s: string)
    requires v.Arr?
    ensures s == "{" + HashJoin(EntryTexts(v.entries, ValueTexts(v.entries))) + "}"
    decreases v, 0
  {
    var e := v.entries;
    ghost var parts := EntryTexts(e, ValueTexts(e));
    var hash := "";
    for i := 0 to |e|
      invariant hash == HashJoin(parts[..i])
    {
      ghost var prev := hash;
      if Truthy(Str(hash)) {
        hash := hash + ",";
      }
      ghost var mid := hash;
      assert mid == if Truthy(Str(prev)) then prev + "," else prev;
      var item := ToJsObject(e[i].1);
      if IsNoQuoteKey(e[i].1) {
        hash := hash + (KeyText(e[i].0) + ": " + item);
      } else {
        hash := hash + (KeyJs(e[i].0) + ": " + item);
      }
      assert parts[i] == EntryText(e[i].0, e[i].1, item);
      HashJoinStep(parts, i, prev, mid, hash);
    }
    assert parts[..|e|] == parts;
    s := "{" + hash + "}";
  }

  /** One more part joined onto the hash built so far. */
  lemma HashJoinStep(parts: seq<string>, i: nat, prev: string, mid: string, hash: string)
    requires i < |parts| && prev == HashJoin(parts[..i])
    requires mid == if Truthy(Str(prev)) then prev + "," else prev
    requires hash == mid + parts[i]
    ensures hash == HashJoin(parts[..i + 1])
  {
    assert parts[..i + 1][..i] == parts[..i];
  }

  /** The list branch: '[', the items with a ',' before each one that
      follows non-empty text, and ']'. */
  method ListToJs(v: Value) returns (s: string)
    requires v.Arr?
    ensures s == "[" + ListJoin(ValueTexts(v.entries)) + "]"
    decreases v, 0
  {
    var e := v.entries;
    ghost var texts := ValueTexts(e);
    var list := "";
    for i := 0 to |e|
      invariant list == ListJoin(texts[..i])
    {
      if |list| > 0 {
        list := list + ",";
      }
      var item := ToJsObject(e[i].1);
      list := list + item;
      assert texts[..i + 1][..i] == texts[..i];
    }
    assert texts[..|e|] == texts;
    s := "[" + list + "]";
  }

  /** Func::toJsObject() */
  method FuncToJs(v: Value) returns (s: string)
    requires v.Obj? && v.obj.JsFunc?
    ensures s == Js(v)
    decreases v, 0
  {
    var f := v.obj;
    var strParams := "";
    ghost var texts := ValueTexts(f.params);
    if f.params != [] {
      var params := f.params;
      var rendered: seq<string> := [];
      for i := 0 to |params|
        invariant rendered == texts[..i]
      {
        var t := ToJsObject(params[i].1);
        rendered := rendered + [t];
      }
      assert texts[..|params|] == texts;
      strParams := Implode(",", rendered);
    }
    var name := f.funcName;
    if f.context.Some? && Truthy(Str(f.context.value)) {
      name := f.context.value + "." + name;
    }
    s := name + "(" + strParams + ")";
  }

  /** The renderings of a sequence of values. */
  function ItemTexts(items: seq<Value>): (r: seq<string>)
    ensures |r| == |items| && forall i | 0 <= i < |items| :: r[i] == Js(items[i])
  {
    seq(|items|, i requires 0 <= i < |items| => Js(items[i]))
  }

  /** ParameterList::toJsObject() */
  method ParameterListToJs(v: Value) returns (s: string)
    requires v.Obj? && v.obj.JsParameterList?
    ensures s == Js(v)
    decreases v, 0
  {
    var items := v.obj.items;
    ghost var texts := ItemTexts(items);
    s := "";
    for i := 0 to |items|
      invariant s == ListJoin(texts[..i])
    {
      if |s| > 0 {
        s := s + ",";
      }
      var item := ToJsObject(items[i]);
      s := s + item;
      assert texts[..i + 1][..i] == texts[..i];
    }
    assert texts[..|items|] == texts;
  }

  // ---------------------------------------------------------------------
  // What the rendering means

  /** The number of leading renderings that are empty. */
  function LeadingEmpty(parts: seq<string>): (k: nat)
    ensures k <= |parts|
    ensures forall i | 0 <= i < k :: parts[i] == ""
    ensures k < |parts| ==> parts[k] != ""
    decreases |parts|
  {
    if parts == [] || parts[0] != "" then 0 else 1 + LeadingEmpty(parts[1..])
  }

  lemma LeadingEmptyUnique(parts: seq<string>, k: nat)
    requires k <= |parts|
    requires forall i | 0 <= i < k :: parts[i] == ""
    requires k < |parts| ==> parts[k] != ""
    ensures LeadingEmpty(parts) == k
  {
  }

  /** The list text is the renderings from the first non-empty one on,
      joined by ','; later empty renderings still get their separator. */
  lemma {:induction false} ListJoinMeaning(parts: seq<string>)
    ensures ListJoin(parts) == Implode(",", parts[LeadingEmpty(parts)..])
    decreases |parts|
  {
    if parts != [] {
      var init := parts[..|parts| - 1];
      var last := parts[|parts| - 1];
      assert parts == init + [last];
      ListJoinMeaning(init);
      var k := LeadingEmpty(init);
      if k < |init| {
        LeadingEmptyUnique(parts, k);
        ImplodeStartsWithFirst(",", init[k..]);
        assert parts[k..] == init[k..] + [last];
        ImplodeAppend(",", init[k..], last);
      } else if last == "" {
        LeadingEmptyUnique(parts, |parts|);
      } else {
        LeadingEmptyUnique(parts, |init|);
        assert parts[|init|..] == [last];
      }
    }
  }

  /** When every part has at least two characters, so that the text so far
      is truthy as soon as it is not empty, the hash text is the parts
      joined by ','. */
  lemma {:induction false} HashJoinMeaning(parts: seq<string>)
    requires forall i | 0 <= i < |parts| :: |parts[i]| >= 2
    ensures HashJoin(parts) == Implode(",", parts)
    decreases |parts|
  {
    if |parts| > 1 {
      var init := parts[..|parts| - 1];
      HashJoinMeaning(init);
      ImplodeStartsWithFirst(",", init);
      assert |HashJoin(init)| >= 2;
    }
  }

  lemma EntryTextsLong(e: seq<(Key, Value)>, texts: seq<string>)
    requires |texts| == |e|
    ensures forall i | 0 <= i < |e| :: |EntryTexts(e, texts)[i]| >= 2
  {
    forall i | 0 <= i < |e|
      ensures |EntryTexts(e, texts)[i]| >= 2
    {
      var k := if IsNoQuoteKey(e[i].1) then KeyText(e[i].0) else KeyJs(e[i].0);
      assert EntryTexts(e, texts)[i] == k + ": " + texts[i];
    }
  }

  /** null, booleans and integers. */
  lemma JsScalars(b: bool, n: int)
    ensures Js(Null) == "null"
    ensures Js(Bool(b)) == (if b then "true" else "false")
    ensures Js(Int(n)) == IntText(n)
  {
  }

  /** A string renders as a double-quoted literal that JavaScript reads back
      as the same string. */
  lemma JsStringReadsBack(s: string)
    ensures |Js(Str(s))| >= 2
    ensures Js(Str(s))[0] == '"' && Js(Str(s))[|Js(Str(s))| - 1] == '"'
    ensures Unescape(Js(Str(s))[1..|Js(Str(s))| - 1]) == s
  {
    var r := Js(Str(s));
    assert r[1..|r| - 1] == EscapeAll(s);
    EscapeAllRoundTrip(s);
  }

  /** A list-shaped array renders as '[', the renderings of its values in
      insertion order from the first non-empty one, joined by ',', and ']'. */
  lemma JsList(e: seq<(Key, Value)>)
    requires IsListShaped(e)
    ensures var texts := ValueTexts(e);
      Js(Arr(e)) == "[" + Implode(",", texts[LeadingEmpty(texts)..]) + "]"
  {
    ListJoinMeaning(ValueTexts(e));
    assert Js(Arr(e)) == ArrayText(e, ValueTexts(e));
  }

  lemma JsEmptyArray()
    ensures Js(Arr([])) == "[]"
  {
    assert Js(Arr([])) == ArrayText([], []);
  }

  /** Any other array renders as '{', one 'key: value' per entry in insertion
      order joined by ',', and '}'. */
  lemma JsHash(e: seq<(Key, Value)>)
    requires !IsListShaped(e)
    ensures Js(Arr(e)) == "{" + Implode(",", EntryTexts(e, ValueTexts(e))) + "}"
  {
    var texts := ValueTexts(e);
    EntryTextsLong(e, texts);
    HashJoinMeaning(EntryTexts(e, texts));
    assert Js(Arr(e)) == ArrayText(e, texts);
  }

  /** A hash entry whose value is a NoQuoteKey shows its key raw; any other
      shows it as toJsObject() renders the key, so string keys are quoted. */
  lemma HashEntryKey(e: seq<(Key, Value)>, i: nat)
    requires i < |e|
    ensures IsNoQuoteKey(e[i].1) ==> EntryTexts(e, ValueTexts(e))[i] == KeyText(e[i].0) + ": " + Js(e[i].1)
    ensures !IsNoQuoteKey(e[i].1) ==> EntryTexts(e, ValueTexts(e))[i] == Js(KeyValue(e[i].0)) + ": " + Js(e[i].1)
  {
  }

  /** Objects without toJsObject() render as ''. */
  lemma JsWithoutMethod(o: Object)
    requires o.SimpleXml? || o.PhpClosure? || (o.Instance? && o.jsText.None?)
    ensures Js(Obj(o)) == ""
  {
  }

  /** A VarName renders as its content, unquoted. */
  lemma VarNameRaw(name: string)
    ensures Js(Obj(JsVarName(name))) == name
  {
  }

  /** A NoQuoteKey renders as its content would. */
  lemma {:induction false} NoQuoteKeyDelegates(content: Value)
    ensures Js(Obj(JsNoQuoteKey(content))) == Js(content)
  {
    var o := JsNoQuoteKey(content);
    assert o.JsNoQuoteKey? && o.keyValue == content;
  }

  /** toJsObject() of a key renders the key as the value it stands for. */
  lemma KeyJsIsJs(k: Key)
    ensures KeyJs(k) == Js(KeyValue(k))
  {
  }

  /** Func renders as the callee, then the rendered parameters joined by ','
      between every two of them, in parentheses. */
  lemma FuncRendering(name: string, params: seq<(Key, Value)>, context: Option<string>)
    ensures Js(Obj(JsFunc(name, params, context))) ==
      CalleeName(name, context) + "(" + Implode(",", ValueTexts(params)) + ")"
    ensures params == [] ==> Js(Obj(JsFunc(name, params, context))) == CalleeName(name, context) + "()"
  {
    assert Js(Obj(JsFunc(name, params, context))) == FuncText(name, context, ValueTexts(params));
  }

  /** The callee is 'context.name' for a truthy context and the bare name
      otherwise. */
  lemma CalleeNameRule(name: string, context: Option<string>)
    ensures context.Some? && context.value != "" && context.value != "0" ==>
      CalleeName(name, context) == context.value + "." + name
    ensures context.None? || context.value == "" || context.value == "0" ==>
      CalleeName(name, context) == name
  {
  }

  /** Closure renders as 'function(', the parameter names joined by ', ',
      ') {', the body verbatim and '}'. */
  lemma ClosureRendering(body: string, names: Option<seq<string>>)
    ensures Js(Obj(JsClosure(body, names))) ==
      "function(" + Implode(", ", if names.Some? then names.value else []) + ") {" + body + "}"
  {
  }

  /** The values of an array, in insertion order: what foreach yields. */
  function Values(e: seq<(Key, Value)>): (r: seq<Value>)
    ensures |r| == |e| && forall i | 0 <= i < |e| :: r[i] == e[i].1
  {
    seq(|e|, i requires 0 <= i < |e| => e[i].1)
  }

  /** ParameterList joins like Helper's list branch, without the brackets. */
  lemma ParameterListBrackets(e: seq<(Key, Value)>)
    requires IsListShaped(e)
    ensures "[" + Js(Obj(JsParameterList(Values(e)))) + "]" == Js(Arr(e))
  {
    assert ItemTexts(Values(e)) == ValueTexts(e);
    assert Js(Obj(JsParameterList(Values(e)))) == ListJoin(ItemTexts(Values(e)));
    assert Js(Arr(e)) == ArrayText(e, ValueTexts(e));
  }

  lemma ParameterListEmpty()
    ensures Js(Obj(JsParameterList([]))) == ""
  {
    assert Js(Obj(JsParameterList([]))) == ListJoin(ItemTexts([]));
  }

  /** The entries of the example below: an object that renders as '' and the
      integer 1. */
  function EmptyThenOne(): seq<(Key, Value)>
  {
    [(IntKey(0), Obj(SimpleXml(""))), (IntKey(1), Int(1))]
  }

  lemma EmptyThenOneTexts()
    ensures ValueTexts(EmptyThenOne()) == ["", "1"]
  {
    assert Js(Int(1)) == "1";
  }

  /** A leading empty rendering leaves no separator in a list ... */
  lemma ListSkipsLeadingEmpty()
    ensures Js(Arr(EmptyThenOne())) == "[1]"
  {
    EmptyThenOneTexts();
    var e := EmptyThenOne();
    assert IsListShaped(e);
    assert ListJoin(["", "1"]) == "1" by {
      assert ["", "1"][..1] == [""];
    }
    assert Js(Arr(e)) == ArrayText(e, ValueTexts(e));
  }

  /** ... while Func's implode() puts ',' between every two parameters. */
  lemma FuncKeepsEmptyParameter()
    ensures Js(Obj(JsFunc("f", EmptyThenOne(), None))) == "f(,1)"
  {
    EmptyThenOneTexts();
    FuncRendering("f", EmptyThenOne(), None);
    assert Implode(",", ["", "1"]) == "," + "1" by {
      assert ["", "1"][..1] == [""];
    }
  }

  // ---------------------------------------------------------------------
  // jsonSerialize() and makeJsonEncodable()

  /** $a[k] of an array: the value under the key, if any. */
  function Lookup(e: seq<(Key, Value)>, k: Key): Option<Value>
    decreases |e|
  {
    if e == [] then None else if e[0].0 == k then Some(e[0].1) else Lookup(e[1..], k)
  }

  /** $a[k] = x: an existing key keeps its place, a new one is appended. */
  function Assign(e: seq<(Key, Value)>, k: Key, x: Value): (r: seq<(Key, Value)>)
    ensures Lookup(r, k) == Some(x)
    ensures forall k' | k' != k :: Lookup(r, k') == Lookup(e, k')
    decreases |e|
  {
    if e == [] then [(k, x)]
    else if e[0].0 == k then [(k, x)] + e[1..]
    else [e[0]] + Assign(e[1..], k, x)
  }

  /** makeJsonEncodable(): with the UTF-8 encoding the value is returned as
      it is; any other encoding is not represented. */
  function MakeJsonEncodable(encoding: string, v: Value): (r: Outcome<Value>)
    ensures encoding == "UTF-8" ==> r == Ok(v)
    ensures encoding != "UTF-8" ==> r.Raise? && r.exc.kind == OutsideModel
  {
    if encoding == "UTF-8" then Ok(v) else Raise(Exc(OutsideModel, "mb_convert_encoding"))
  }

  const QOBJ: Key := StrKey(JSON_OBJECT_TYPE)
  const FUNC: Key := StrKey("func")
  const CONTEXT: Key := StrKey("context")
  const PARAMS: Key := StrKey("params")
  const VAR_NAME: Key := StrKey("varName")

  /** Func::jsonSerialize(): the type tag and the name always; the context
      and the parameters only when truthy. */
  method FuncJsonSerialize(f: Object, encoding: string) returns (r: Outcome<Value>)
    requires f.JsFunc?
    ensures encoding != "UTF-8" ==> r.Raise? && r.exc.kind == OutsideModel
    ensures encoding == "UTF-8" ==> r.Ok? && r.value.Arr?
    ensures r.Ok? ==> Lookup(r.value.entries, QOBJ) == Some(Str("qFunc"))
    ensures r.Ok? ==> Lookup(r.value.entries, FUNC) == Some(Str(f.funcName))
    ensures r.Ok? ==> (Lookup(r.value.entries, CONTEXT) ==
      if f.context.Some? && Truthy(Str(f.context.value)) then Some(Str(f.context.value)) else None)
    ensures r.Ok? ==> Lookup(r.value.entries, PARAMS) == (if f.params != [] then Some(Arr(f.params)) else None)
    ensures r.Ok? ==> forall k | k !in {QOBJ, FUNC, CONTEXT, PARAMS} :: Lookup(r.value.entries, k) == None
  {
    var a: seq<(Key, Value)> := [];
    a := Assign(a, QOBJ, Str("qFunc"));
    a := Assign(a, FUNC, Str(f.funcName));
    if f.context.Some? && Truthy(Str(f.context.value)) {
      a := Assign(a, CONTEXT, Str(f.context.value));
    }
    if f.params != [] {
      a := Assign(a, PARAMS, Arr(f.params));
    }
    r := MakeJsonEncodable(encoding, Arr(a));
  }

  /** The parameter names as the PHP list they are. */
  function NameList(names: seq<string>): (r: Value)
    ensures r.Arr? && |r.entries| == |names| && IsListShaped(r.entries)
    ensures forall i | 0 <= i < |names| :: r.entries[i] == (IntKey(i), Str(names[i]))
  {
    Arr(seq(|names|, i requires 0 <= i < |names| => (IntKey(i), Str(names[i]))))
  }

  /** Closure::jsonSerialize(): the type tag, the body and the parameter
      names, which are present as null when there are none. */
  function ClosureJsonSerialize(c: Object, encoding: string): (r: Outcome<Value>)
    requires c.JsClosure?
    ensures encoding == "UTF-8" ==> r.Ok?
    ensures r.Ok? ==> r.value.Arr?
    ensures r.Ok? ==> Lookup(r.value.entries, QOBJ) == Some(Str("qClosure"))
    ensures r.Ok? ==> Lookup(r.value.entries, FUNC) == Some(Str(c.body))
    ensures r.Ok? ==> (Lookup(r.value.entries, PARAMS) ==
      Some(if c.paramNames.Some? then NameList(c.paramNames.value) else Null))
    ensures r.Ok? ==> forall k | k !in {QOBJ, FUNC, PARAMS} :: Lookup(r.value.entries, k) == None
  {
    var a := Assign(Assign(Assign([], QOBJ, Str("qClosure")), FUNC, Str(c.body)),
      PARAMS, if c.paramNames.Some? then NameList(c.paramNames.value) else Null);
    MakeJsonEncodable(encoding, Arr(a))
  }

  /** VarName::jsonSerialize(): the type tag and the name. */
  function VarNameJsonSerialize(n: Object, encoding: string): (r: Outcome<Value>)
    requires n.JsVarName?
    ensures encoding == "UTF-8" ==> r.Ok?
    ensures r.Ok? ==> r.value.Arr?
    ensures r.Ok? ==> Lookup(r.value.entries, QOBJ) == Some(Str("qVarName"))
    ensures r.Ok? ==> Lookup(r.value.entries, VAR_NAME) == Some(Str(n.varName))
    ensures r.Ok? ==> forall k | k !in {QOBJ, VAR_NAME} :: Lookup(r.value.entries, k) == None
  {
    MakeJsonEncodable(encoding, Arr(Assign(Assign([], QOBJ, Str("qVarName")), VAR_NAME, Str(n.varName))))
  }

  /** NoQuoteKey::jsonSerialize(): the content, passed through untouched. */
  function NoQuoteKeyJsonSerialize(n: Object): (r: Value)
    requires n.JsNoQuoteKey?
    ensures r == n.keyValue
  {
    n.keyValue
  }

  // ---------------------------------------------------------------------
  // data-* attribute names

  /** preg_match('/[A-Z][A-Z]/') */
  predicate AdjacentCapitals(s: string)
  {
    exists i | 0 <= i < |s| - 1 :: IsUpper(s[i]) && IsUpper(s[i + 1])
  }

  /** The callback replacement: each capital X becomes '-x'. */
  function Dashed(s: string): string
    decreases |s|
  {
    if s == [] then []
    else (if IsUpper(s[0]) then ['-', LowerChar(s[0])] else [s[0]]) + Dashed(s[1..])
  }

  /** dataNameFromCamelCase() */
  function DataNameFromCamelCase(s: string): (r: Outcome<string>)
    ensures r.Raise? <==> AdjacentCapitals(s)
    ensures r.Raise? ==> r.exc == Exc(CallerExc, "Not a camel case string")
  {
    if AdjacentCapitals(s) then Raise(Exc(CallerExc, "Not a camel case string")) else Ok(Dashed(s))
  }

  /** dataNameToCamelCase(): scanning left to right, '-' followed by a
      lower-case letter becomes that letter in upper case. */
  function DataNameToCamelCase(s: string): string
    decreases |s|
  {
    if s == [] then []
    else if |s| >= 2 && s[0] == '-' && IsLower(s[1]) then [UpperChar(s[1])] + DataNameToCamelCase(s[2..])
    else [s[0]] + DataNameToCamelCase(s[1..])
  }

  /** No '-' is directly followed by a lower-case letter. */
  predicate NoDashBeforeLower(s: string)
  {
    forall i | 0 <= i < |s| - 1 :: !(s[i] == '-' && IsLower(s[i + 1]))
  }

  /** Data names are lower case. */
  lemma {:induction false} DashedIsLowerCase(s: string)
    ensures forall i | 0 <= i < |Dashed(s)| :: !IsUpper(Dashed(s)[i])
    decreases |s|
  {
    if s != [] {
      DashedIsLowerCase(s[1..]);
    }
  }

  lemma DashedStart(s: string)
    requires s != []
    ensures Dashed(s) != [] && Dashed(s)[0] == if IsUpper(s[0]) then '-' else s[0]
  {
  }

  lemma {:induction false} DashedRoundTrip(s: string)
    requires NoDashBeforeLower(s)
    ensures DataNameToCamelCase(Dashed(s)) == s
    decreases |s|
  {
    if s != [] {
      var rest := s[1..];
      assert NoDashBeforeLower(rest) by {
        forall i | 0 <= i < |rest| - 1
          ensures !(rest[i] == '-' && IsLower(rest[i + 1]))
        {
          assert rest[i] == s[i + 1] && rest[i + 1] == s[i + 2];
        }
      }
      DashedRoundTrip(rest);
      var d := Dashed(rest);
      var t := Dashed(s);
      if IsUpper(s[0]) {
        var lc := LowerChar(s[0]);
        assert IsLower(lc) && UpperChar(lc) == s[0];
        assert t == ['-', lc] + d;
        assert t[2..] == d;
      } else if s[0] == '-' {
        assert t == ['-'] + d;
        assert t[1..] == d;
        if rest != [] {
          DashedStart(rest);
          assert !IsLower(s[1]);
        }
      } else {
        assert t == [s[0]] + d;
        assert t[1..] == d;
      }
      assert s == [s[0]] + rest;
    }
  }

  /** dataNameToCamelCase() undoes dataNameFromCamelCase() unless the input
      has a '-' directly before a lower-case letter. */
  lemma DataNameRoundTrip(s: string)
    requires !AdjacentCapitals(s) && NoDashBeforeLower(s)
    ensures DataNameFromCamelCase(s).Ok?
    ensures DataNameToCamelCase(DataNameFromCamelCase(s).value) == s
  {
    DashedRoundTrip(s);
  }

  // ---------------------------------------------------------------------
  // terminateScript()

  predicate EndsWithSemicolon(s: string)
  {
    s != [] && s[|s| - 1] == ';'
  }

  /** terminateScript(); `nl` is what _nl() returns. */
  function TerminateScript(script: string, nl: string): (r: string)
    ensures r == "" <==> !Truthy(Str(Trim(script)))
    ensures r != "" ==> Trim(script) <= r && |r| > |nl| && r[|r| - |nl|..] == nl && r[|r| - |nl| - 1] == ';'
    ensures r != "" ==> |r| == |Trim(script)| + (if EndsWithSemicolon(Trim(script)) then 0 else 1) + |nl|
  {
    if !Truthy(Str(script)) then ""
    else
      var t := Trim(script);
      if !Truthy(Str(t)) then ""
      else (if EndsWithSemicolon(t) then t else t + ";") + nl
  }

  /** Trailing whitespace does not survive rtrim(). */
  lemma {:induction false} TrimRightSpaces(a: string, w: string)
    requires forall i | 0 <= i < |w| :: IsTrimSpace(w[i])
    ensures TrimRight(a + w) == TrimRight(a)
    decreases |w|
  {
    if w == [] {
      assert a + w == a;
    } else {
      var w' := w[..|w| - 1];
      assert (a + w)[..|a + w| - 1] == a + w';
      TrimRightSpaces(a, w');
    }
  }

  /** A terminated script trims back to itself without the newline. */
  lemma TrimTerminated(u: string, nl: string)
    requires u != [] && !IsTrimSpace(u[0]) && !IsTrimSpace(u[|u| - 1])
    requires forall i | 0 <= i < |nl| :: IsTrimSpace(nl[i])
    ensures Trim(u + nl) == u
  {
    assert (u + nl)[0] == u[0];
    assert TrimLeft(u + nl) == u + nl;
    TrimRightSpaces(u, nl);
  }

  /** A script already terminated with a whitespace newline is left as it
      is. */
  lemma TerminateScriptIdempotent(script: string, nl: string)
    requires forall i | 0 <= i < |nl| :: IsTrimSpace(nl[i])
    ensures TerminateScript(TerminateScript(script, nl), nl) == TerminateScript(script, nl)
  {
    var r := TerminateScript(script, nl);
    if r != "" {
      var t := Trim(script);
      var u := if EndsWithSemicolon(t) then t else t + ";";
      assert r == u + nl;
      TrimTerminated(u, nl);
      assert EndsWithSemicolon(u) && u != "0";
      assert Truthy(Str(r)) && Truthy(Str(u));
      assert TerminateScript(r, nl) == u + nl;
    }
  }
}
