/** QCubed\ObjectBase: the default property and method errors, and
    overrideAttributes(), which applies `Key=Value` strings and key/value
    arrays to an object through its __set. */
module ObjectBase {
  import opened Php

  function UndefinedProperty(access: string, cls: string, name: string): Exc
  {
    Exc(UndefinedPropertyExc, "Undefined " + access + " property or variable in '" + cls + "' class: " + name)
  }

  /** The base __get: every property is undefined. */
  function BaseGet(cls: string, name: string): (r: Outcome<Value>)
    ensures r.Raise? && r.exc == UndefinedProperty("GET", cls, name)
  {
    Raise(UndefinedProperty("GET", cls, name))
  }

  /** The base __set: every property is undefined. */
  function BaseSet(cls: string, name: string, v: Value): (r: Outcome<()>)
    ensures r.Raise? && r.exc == UndefinedProperty("SET", cls, name)
  {
    Raise(UndefinedProperty("SET", cls, name))
  }

  /** The base __call: every method is undefined. */
  function BaseCall(cls: string, name: string, arguments: seq<Value>): (r: Outcome<Value>)
    ensures r.Raise? && r.exc.kind == UndefinedMethodExc
    ensures r.exc.message == "Undefined method in '" + cls + "' class: " + name
  {
    Raise(Exc(UndefinedMethodExc, "Undefined method in '" + cls + "' class: " + name))
  }

  // ---------------------------------------------------------------------
  // Parsing one `Key=Value` string

  function Malformed(item: string): Exc
  {
    Exc(CallerExc, "Improperly formatted overrideAttribute: " + item)
  }

  /** strpos(s, c): the first position of c in s. */
  function FirstIndexOf(s: string, c: char): (r: Option<nat>)
    ensures r.None? <==> c !in s
    ensures r.Some? ==> r.value < |s| && s[r.value] == c && c !in s[..r.value]
  {
    if s == [] then None
    else if s[0] == c then Some(0)
    else
      match FirstIndexOf(s[1..], c)
      case None => None
      case Some(k) =>
        assert s[..k + 1] == [s[0]] + s[1..][..k];
        Some(k + 1)
  }

  /** substr(v, 1, strlen(v) - 2): the value without its first and last byte
      ('' when v is the single quote character). */
  function StripQuotes(v: string): string
    requires |v| >= 1
  {
    if |v| >= 2 then v[1..|v| - 1] else ""
  }

  /** The value check: a value opening with ' or " must close with the same
      character, and loses both; any other value is used as it is. */
  function UnquoteValue(item: string, v: string): (r: Outcome<string>)
  {
    if |v| > 0 && v[0] == '\'' then
      if v[|v| - 1] != '\'' then Raise(Malformed(item)) else Ok(StripQuotes(v))
    else if |v| > 0 && v[0] == '"' then
      if v[|v| - 1] != '"' then Raise(Malformed(item)) else Ok(StripQuotes(v))
    else Ok(v)
  }

  /** The key and value a `Key=Value` string stands for. */
  function ParseAttribute(item: string): (r: Outcome<(string, string)>)
    ensures '=' !in item ==> r == Raise(Malformed(item))
    ensures r.Raise? ==> r.exc == Malformed(item)
  {
    match FirstIndexOf(item, '=')
    case None => Raise(Malformed(item))
    case Some(p) =>
      var value :- UnquoteValue(item, item[p + 1..]);
      Ok((item[..p], value))
  }

  /** The key is the text before the first '=', and an unquoted value is the
      whole rest of the string, further '=' included. */
  lemma ParseUnquoted(key: string, value: string)
    requires '=' !in key
    requires value == [] || (value[0] != '\'' && value[0] != '"')
    ensures ParseAttribute(key + "=" + value) == Ok((key, value))
  {
    var item := key + "=" + value;
    KeyBeforeFirstEquals(key, value);
    assert item[|key| + 1..] == value;
  }

  lemma KeyBeforeFirstEquals(key: string, value: string)
    requires '=' !in key
    ensures FirstIndexOf(key + "=" + value, '=') == Some(|key|)
    ensures (key + "=" + value)[..|key|] == key
  {
    var item := key + "=" + value;
    assert item[|key|] == '=';
    assert item[..|key|] == key;
    assert '=' in item;
  }

  /** A quoted value loses exactly its enclosing quotes. */
  lemma ParseQuoted(key: string, inner: string, q: char)
    requires '=' !in key && (q == '\'' || q == '"')
    ensures ParseAttribute(key + "=" + [q] + inner + [q]) == Ok((key, inner))
  {
    var value := [q] + inner + [q];
    assert key + "=" + [q] + inner + [q] == key + "=" + value;
    KeyBeforeFirstEquals(key, value);
    assert (key + "=" + value)[|key| + 1..] == value;
    assert value[1..|value| - 1] == inner;
  }

  /** A value that opens with a quote and does not close with it is refused. */
  lemma ParseUnbalanced(key: string, value: string)
    requires '=' !in key
    requires |value| > 0 && (value[0] == '\'' || value[0] == '"') && value[|value| - 1] != value[0]
    ensures ParseAttribute(key + "=" + value) == Raise(Malformed(key + "=" + value))
  {
    KeyBeforeFirstEquals(key, value);
    assert (key + "=" + value)[|key| + 1..] == value;
  }

  // ---------------------------------------------------------------------
  // overrideAttributes()

  /** One element of the override list: a key/value array or a string. */
  datatype OverrideItem = Pairs(pairs: seq<(Key, Value)>) | Text(text: string)

  /** The argument: an array of items, or a string, on which PHP's foreach
      does nothing. */
  datatype OverrideArg = Items(items: seq<OverrideItem>) | Plain(s: string)

  /** The outcome of a run of __set calls: the assignments made, and the
      exception that stopped it, if any. */
  datatype Applied = Applied(done: seq<(string, Value)>, error: Option<Exc>)

  /** The __set calls the first n pairs of an array item make, in order, up
      to the first one the object refuses (`refuse` gives its exception). */
  function PairsApplied(pairs: seq<(Key, Value)>, n: nat, refuse: (string, Value) -> Option<Exc>): (r: Applied)
    requires n <= |pairs|
    ensures |r.done| <= n
    ensures r.error.None? ==> |r.done| == n
  {
    if n == 0 then Applied([], None)
    else
      var prev := PairsApplied(pairs, n - 1, refuse);
      if prev.error.Some? then prev
      else
        var (k, v) := pairs[n - 1];
        match refuse(KeyText(k), v)
        case Some(e) => Applied(prev.done, Some(e))
        case None => Applied(prev.done + [(KeyText(k), v)], None)
  }

  /** The __set calls one item makes. */
  function ItemApplied(item: OverrideItem, refuse: (string, Value) -> Option<Exc>): Applied
  {
    match item
    case Pairs(pairs) => PairsApplied(pairs, |pairs|, refuse)
    case Text(s) => TextApplied(s, refuse)
  }

  /** The __set call a `Key=Value` string makes. */
  function TextApplied(s: string, refuse: (string, Value) -> Option<Exc>): Applied
  {
    var parsed := ParseAttribute(s);
    if parsed.Raise? then Applied([], Some(parsed.exc))
    else
      var key := parsed.value.0;
      var value := Str(parsed.value.1);
      if refuse(key, value).Some? then Applied([], refuse(key, value))
      else Applied([(key, value)], None)
  }

  /** The __set calls of the first n items of the list, item by item, up to
      the first exception. */
  function ItemsApplied(items: seq<OverrideItem>, n: nat, refuse: (string, Value) -> Option<Exc>): Applied
    requires n <= |items|
  {
    if n == 0 then Applied([], None)
    else
      var prev := ItemsApplied(items, n - 1, refuse);
      if prev.error.Some? then prev
      else
        var last := ItemApplied(items[n - 1], refuse);
        Applied(prev.done + last.done, last.error)
  }

  /** What overrideAttributes does with its argument: none of it when the
      argument is falsy or a string. */
  function OverrideApplied(arg: OverrideArg, refuse: (string, Value) -> Option<Exc>): Applied
  {
    match arg
    case Plain(_) => Applied([], None)
    case Items(items) => ItemsApplied(items, |items|, refuse)
  }

  /** The first item that raises ends the run: the assignments before it,
      and those it made itself, stay made. */
  lemma RaiseStops(items: seq<OverrideItem>, i: nat, refuse: (string, Value) -> Option<Exc>)
    requires i < |items| && ItemsApplied(items, i, refuse).error.None?
    requires ItemApplied(items[i], refuse).error.Some?
    ensures ItemsApplied(items, |items|, refuse) ==
      Applied(ItemsApplied(items, i, refuse).done + ItemApplied(items[i], refuse).done,
              ItemApplied(items[i], refuse).error)
  {
    ItemsStop(items, i + 1, |items|, refuse);
  }

  /** A string item without '=' raises, before any assignment. */
  lemma MalformedText(text: string, refuse: (string, Value) -> Option<Exc>)
    requires '=' !in text
    ensures ItemApplied(Text(text), refuse) == Applied([], Some(Malformed(text)))
  {
  }

  /** When the object accepts everything, every array pair is settings, in
      order, with no parsing. */
  lemma PairsAllAssigned(pairs: seq<(Key, Value)>, refuse: (string, Value) -> Option<Exc>)
    requires forall k, v :: refuse(k, v).None?
    ensures PairsApplied(pairs, |pairs|, refuse).error.None?
    ensures forall i | 0 <= i < |pairs| ::
      PairsApplied(pairs, |pairs|, refuse).done[i] == (KeyText(pairs[i].0), pairs[i].1)
  {
    PairsAllAssignedUpTo(pairs, |pairs|, refuse);
  }

  lemma {:induction false} PairsAllAssignedUpTo(pairs: seq<(Key, Value)>, n: nat, refuse: (string, Value) -> Option<Exc>)
    requires n <= |pairs|
    requires forall k, v :: refuse(k, v).None?
    ensures PairsApplied(pairs, n, refuse).error.None?
    ensures forall i | 0 <= i < n ::
      PairsApplied(pairs, n, refuse).done[i] == (KeyText(pairs[i].0), pairs[i].1)
  {
    if n > 0 {
      PairsAllAssignedUpTo(pairs, n - 1, refuse);
      var (k, v) := pairs[n - 1];
      assert refuse(KeyText(k), v).None?;
    }
  }

  /** An object holding the assignments its __set has accepted. */
  class Attributes {
    const cls: string
    /** Which assignments __set refuses, and with what exception. */
    const refuse: (string, Value) -> Option<Exc>
    var settings: seq<(string, Value)>

    constructor(cls: string, refuse: (string, Value) -> Option<Exc>)
      ensures this.cls == cls && this.refuse == refuse && settings == []
    {
      this.cls := cls;
      this.refuse := refuse;
      settings := [];
    }

    /** __set: records an accepted assignment. */
    method Set(name: string, v: Value) returns (r: Outcome<()>)
      modifies this
      ensures refuse(name, v).Some? ==> r == Raise(refuse(name, v).value) && settings == old(settings)
      ensures refuse(name, v).None? ==> r == Ok(()) && settings == old(settings) + [(name, v)]
    {
      match refuse(name, v)
      case Some(e) =>
        r := Raise(e);
      case None =>
        settings := settings + [(name, v)];
        r := Ok(());
    }

    method SetPairs(pairs: seq<(Key, Value)>) returns (r: Outcome<()>)
      modifies this
      ensures settings == old(settings) + PairsApplied(pairs, |pairs|, refuse).done
      ensures r.Ok? <==> PairsApplied(pairs, |pairs|, refuse).error.None?
      ensures r.Raise? ==> Some(r.exc) == PairsApplied(pairs, |pairs|, refuse).error
    {
      var j := 0;
      while j < |pairs|
        invariant 0 <= j <= |pairs|
        invariant PairsApplied(pairs, j, refuse).error.None?
        invariant settings == old(settings) + PairsApplied(pairs, j, refuse).done
      {
        var (k, v) := pairs[j];
        var s := Set(KeyText(k), v);
        if s.Raise? {
          PairsStop(pairs, j + 1, |pairs|, refuse);
          return Raise(s.exc);
        }
        j := j + 1;
      }
      r := Ok(());
    }

    /** One item of the list: its pairs, or its parsed `Key=Value`. */
    method ApplyItem(item: OverrideItem) returns (r: Outcome<()>)
      modifies this
      ensures settings == old(settings) + ItemApplied(item, refuse).done
      ensures r.Ok? <==> ItemApplied(item, refuse).error.None?
      ensures r.Raise? ==> Some(r.exc) == ItemApplied(item, refuse).error
    {
      match item {
        case Pairs(pairs) =>
          r := SetPairs(pairs);
        case Text(text) =>
          var parsed := ParseAttribute(text);
          if parsed.Raise? {
            r := Raise(parsed.exc);
          } else {
            r := Set(parsed.value.0, Str(parsed.value.1));
          }
      }
    }

    /** Item i, after the items before it went through. */
    method ApplyNext(items: seq<OverrideItem>, i: nat, ghost before: seq<(string, Value)>) returns (r: Outcome<()>)
      requires i < |items| && ItemsApplied(items, i, refuse).error.None?
      requires settings == before + ItemsApplied(items, i, refuse).done
      modifies this
      ensures settings == before + ItemsApplied(items, i + 1, refuse).done
      ensures r.Ok? <==> ItemsApplied(items, i + 1, refuse).error.None?
      ensures r.Raise? ==> Some(r.exc) == ItemsApplied(items, i + 1, refuse).error
    {
      r := ApplyItem(items[i]);
    }

    /** The items, in order, up to the first exception. */
    method ApplyItems(items: seq<OverrideItem>) returns (r: Outcome<()>)
      modifies this
      ensures settings == old(settings) + ItemsApplied(items, |items|, refuse).done
      ensures r.Ok? <==> ItemsApplied(items, |items|, refuse).error.None?
      ensures r.Raise? ==> Some(r.exc) == ItemsApplied(items, |items|, refuse).error
    {
      var i := 0;
      while i < |items|
        invariant 0 <= i <= |items|
        invariant ItemsApplied(items, i, refuse).error.None?
        invariant settings == old(settings) + ItemsApplied(items, i, refuse).done
      {
        r := ApplyNext(items, i, old(settings));
        if r.Raise? {
          ItemsStop(items, i + 1, |items|, refuse);
          return;
        }
        i := i + 1;
      }
      r := Ok(());
    }

    /** overrideAttributes(): applies the items in order; the first exception
        ends the run and the assignments before it remain. A string argument
        is not iterated. */
    method OverrideAttributes(arg: OverrideArg) returns (r: Outcome<()>)
      modifies this
      ensures settings == old(settings) + OverrideApplied(arg, refuse).done
      ensures r.Ok? <==> OverrideApplied(arg, refuse).error.None?
      ensures r.Raise? ==> Some(r.exc) == OverrideApplied(arg, refuse).error
    {
      match arg {
        case Plain(_) =>
          r := Ok(());
        case Items(items) =>
          r := ApplyItems(items);
      }
    }
  }

  /** Once a pair is refused, the later pairs are not applied. */
  lemma {:induction false} PairsStop(pairs: seq<(Key, Value)>, j: nat, n: nat, refuse: (string, Value) -> Option<Exc>)
    requires 0 < j <= n <= |pairs|
    requires PairsApplied(pairs, j, refuse).error.Some?
    ensures PairsApplied(pairs, n, refuse) == PairsApplied(pairs, j, refuse)
  {
    if j < n {
      PairsStop(pairs, j, n - 1, refuse);
    }
  }

  /** Once an item raises, the later items are not applied. */
  lemma {:induction false} ItemsStop(items: seq<OverrideItem>, j: nat, n: nat, refuse: (string, Value) -> Option<Exc>)
    requires 0 < j <= n <= |items|
    requires ItemsApplied(items, j, refuse).error.Some?
    ensures ItemsApplied(items, n, refuse) == ItemsApplied(items, j, refuse)
  {
    if j < n {
      ItemsStop(items, j, n - 1, refuse);
    }
  }
}
