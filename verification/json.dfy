/** The JSON-shaped Python values that flow through the backend: decoded response bodies,
    tool arguments, tool results and service results. Dictionaries keep insertion order, as
    Python's do. */
module Json {
  import opened Common
  import opened Strings
  import opened Dates

  /** A `DateObj` is a Python `datetime.date`, as `params.dict()` keeps a date field; JSON
      bodies never hold one. */
  datatype Value =
    | Null
    | Bool(b: bool)
    | Num(n: int)
    | Str(s: string)
    | DateObj(d: Date)
    | Arr(items: seq<Value>)
    | Obj(entries: seq<(string, Value)>)

  /** The empty dictionary `{}`, one of the tool dispatcher's sentinels. */
  const EmptyObj: Value := Obj([])

  /** The empty list `[]`, the other sentinel. */
  const EmptyArr: Value := Arr([])

  // ---------------------------------------------------------------- dictionaries

  /** The keys of a dictionary, in insertion order. */
  function Keys(entries: seq<(string, Value)>): (ks: seq<string>)
    ensures |ks| == |entries|
    ensures forall i :: 0 <= i < |entries| ==> ks[i] == entries[i].0
  {
    if |entries| == 0 then [] else [entries[0].0] + Keys(entries[1..])
  }

  /** Python's `d.get(key)`: the value stored under the first entry with that key, if any.
      Nothing in `Obj` keeps keys distinct, so a list of entries may repeat a key, which a
      Python dictionary cannot; `get` then finds the first, and `Set` rewrites only the first. */
  function Get(entries: seq<(string, Value)>, key: string): Option<Value>
  {
    if |entries| == 0 then None
    else if entries[0].0 == key then Some(entries[0].1)
    else Get(entries[1..], key)
  }

  /** `get` finds nothing exactly when the key is absent, and otherwise returns a value stored
      under that key. */
  lemma {:induction false} GetSpec(entries: seq<(string, Value)>, key: string)
    ensures Get(entries, key).None? <==> key !in Keys(entries)
    ensures Get(entries, key).Some? ==>
              exists i :: 0 <= i < |entries| && entries[i] == (key, Get(entries, key).value)
  {
    if |entries| > 0 && entries[0].0 != key {
      GetSpec(entries[1..], key);
      var r := Get(entries[1..], key);
      if r.Some? {
        var i :| 0 <= i < |entries[1..]| && entries[1..][i] == (key, r.value);
        assert entries[i + 1] == (key, r.value);
      }
    }
  }

  /** An entry appended under a different key does not change what `get` finds. */
  lemma {:induction false} GetAppendOther(entries: seq<(string, Value)>, k: string, v: Value, key: string)
    requires key != k
    ensures Get(entries + [(k, v)], key) == Get(entries, key)
  {
    if |entries| > 0 {
      assert (entries + [(k, v)])[1..] == entries[1..] + [(k, v)];
      GetAppendOther(entries[1..], k, v, key);
    }
  }

  /** Python's `d[key] = v`: an existing key keeps its position and gets the new value; a new key
      is appended. */
  function Set(entries: seq<(string, Value)>, key: string, v: Value): (r: seq<(string, Value)>)
    ensures key in Keys(entries) ==> |r| == |entries|
    ensures key !in Keys(entries) ==> r == entries + [(key, v)]
  {
    if |entries| == 0 then [(key, v)]
    else if entries[0].0 == key then [(key, v)] + entries[1..]
    else [entries[0]] + Set(entries[1..], key, v)
  }

  /** Assigning a key makes `get` return the assigned value and leaves every other key's value
      as it was. */
  lemma {:induction false} GetSet(entries: seq<(string, Value)>, key: string, v: Value, other: string)
    ensures Get(Set(entries, key, v), key) == Some(v)
    ensures other != key ==> Get(Set(entries, key, v), other) == Get(entries, other)
  {
    if |entries| > 0 && entries[0].0 != key {
      GetSet(entries[1..], key, v, other);
    }
  }

  /** Assigning a key leaves the key order alone, appending the key only when it is new. */
  lemma {:induction false} KeysSet(entries: seq<(string, Value)>, key: string, v: Value)
    ensures key in Keys(entries) ==> Keys(Set(entries, key, v)) == Keys(entries)
    ensures key !in Keys(entries) ==> Keys(Set(entries, key, v)) == Keys(entries) + [key]
  {
    if |entries| > 0 && entries[0].0 != key {
      KeysSet(entries[1..], key, v);
    }
  }

  // ---------------------------------------------------------------- truthiness and str()

  /** Python truthiness: `None`, `False`, `0`, and empty strings, lists and dicts are false. */
  predicate Truthy(v: Value) {
    match v
    case Null => false
    case Bool(b) => b
    case Num(n) => n != 0
    case Str(s) => s != []
    case DateObj(_) => true
    case Arr(items) => items != []
    case Obj(entries) => entries != []
  }

  /** Two hexadecimal digits, lower case, as Python's `repr` writes `\xNN`. */
  function Hex2(n: nat): (r: string)
    requires n < 256
    ensures |r| == 2
  {
    var digits := "0123456789abcdef";
    [digits[n / 16], digits[n % 16]]
  }

  /** A character Python's `repr` writes as `\xNN` in the Latin-1 range. */
  predicate HexEscaped(c: char) {
    c < ' ' || ('\U{007F}' <= c <= '\U{00A0}') || c == '\U{00AD}'
  }

  /** One character of a string literal as Python's `repr` writes it inside `quote`. */
  function EscapeChar(c: char, quote: char): string {
    if c == '\\' then "\\\\"
    else if c == quote then ['\\', quote]
    else if c == '\n' then "\\n"
    else if c == '\r' then "\\r"
    else if c == '\t' then "\\t"
    else if HexEscaped(c) then "\\x" + Hex2(c as int)
    else [c]
  }

  /** Python's `repr` of a string: single quotes unless the text holds a single quote and no
      double quote. */
  function QuoteRepr(s: string): string {
    var quote := if '\'' in s && '"' !in s then '"' else '\'';
    [quote] + EscapeAll(s, quote) + [quote]
  }

  function EscapeAll(s: string, quote: char): string {
    if |s| == 0 then [] else EscapeChar(s[0], quote) + EscapeAll(s[1..], quote)
  }

  /** Python's `repr` of a value, the form `str()` uses for the elements of lists and dicts. */
  function Repr(v: Value): string
    decreases v
  {
    match v
    case Null => "None"
    case Bool(b) => if b then "True" else "False"
    case Num(n) => IntToString(n)
    case Str(s) => QuoteRepr(s)
    case DateObj(d) => DateRepr(d)
    case Arr(items) =>
      "[" + Join(seq(|items|, i requires 0 <= i < |items| => Repr(items[i])), ", ") + "]"
    case Obj(entries) =>
      "{" + Join(seq(|entries|, i requires 0 <= i < |entries| =>
                       QuoteRepr(entries[i].0) + ": " + Repr(entries[i].1)), ", ") + "}"
  }

  /** `repr` of a `date`: the constructor call with unpadded numbers. */
  function DateRepr(d: Date): string {
    "datetime.date(" + IntToString(d.year) + ", " + IntToString(d.month) + ", "
    + IntToString(d.day) + ")"
  }

  /** Python's `str(v)`: a string is itself, a date its ISO text, anything else its `repr`. */
  function PyStr(v: Value): (r: string)
    ensures v.Str? ==> r == v.s
    ensures v.DateObj? ==> r == FormatDate(v.d)
    ensures !v.Str? && !v.DateObj? ==> r == Repr(v)
    ensures v == EmptyObj ==> r == "{}"
    ensures v == EmptyArr ==> r == "[]"
  {
    if v.Str? then v.s else if v.DateObj? then FormatDate(v.d) else Repr(v)
  }

  /** A date shows differently in the two forms: `str()` of the date alone is its ISO text,
      while a dictionary holding it shows the constructor call. */
  lemma DateStrAndRepr()
    ensures PyStr(DateObj(Date(2020, 1, 1))) == "2020-01-01"
    ensures PyStr(Obj([("savedLow", DateObj(Date(2020, 1, 1)))]))
            == "{'savedLow': datetime.date(2020, 1, 1)}"
  {
    IsoExample();
    SavedLowDictRepr();
  }

  lemma SavedLowDictRepr()
    ensures Repr(Obj([("savedLow", DateObj(Date(2020, 1, 1)))]))
            == "{'savedLow': datetime.date(2020, 1, 1)}"
  {
    DateReprExample();
    SavedLowQuoted();
    ReprOneEntry("savedLow", DateObj(Date(2020, 1, 1)));
    SavedLowDictText();
  }

  lemma SavedLowDictText()
    ensures "{" + "'savedLow'" + ": " + "datetime.date(2020, 1, 1)" + "}"
            == "{'savedLow': datetime.date(2020, 1, 1)}"
  {
  }

  lemma ReprOneEntry(k: string, v: Value)
    ensures Repr(Obj([(k, v)])) == "{" + QuoteRepr(k) + ": " + Repr(v) + "}"
  {
    var entries := [(k, v)];
    var shown := seq(|entries|, i requires 0 <= i < |entries| =>
                       QuoteRepr(entries[i].0) + ": " + Repr(entries[i].1));
    assert shown == [QuoteRepr(k) + ": " + Repr(v)];
  }

  lemma IsoExample()
    ensures FormatDate(Date(2020, 1, 1)) == "2020-01-01"
  {
    assert PadDigits(2020, 4) == "2020" by {
      assert PadDigits(202, 3) == "202" by { assert PadDigits(20, 2) == "20"; }
    }
  }

  lemma DateReprExample()
    ensures DateRepr(Date(2020, 1, 1)) == "datetime.date(2020, 1, 1)"
  {
    assert NatToString(2020) == "2020" by {
      assert NatToString(202) == "202" by { assert NatToString(20) == "20"; }
    }
  }

  lemma SavedLowQuoted()
    ensures QuoteRepr("savedLow") == "'savedLow'"
  {
    var w := "savedLow";
    assert forall i :: 0 <= i < |w| ==> AsciiLetter(w[i]);
    QuoteLetters(w);
  }

  /** A string of ASCII letters shows in single quotes, unescaped. */
  lemma QuoteLetters(s: string)
    requires forall i :: 0 <= i < |s| ==> AsciiLetter(s[i])
    ensures QuoteRepr(s) == "'" + s + "'"
  {
    assert '\'' !in s;
    LettersPlain(s, '\'');
  }

  predicate AsciiLetter(c: char) {
    'a' <= c <= 'z' || 'A' <= c <= 'Z'
  }

  /** Text of ASCII letters is written as it is. */
  lemma {:induction false} LettersPlain(s: string, quote: char)
    requires quote == '\'' || quote == '"'
    requires forall i :: 0 <= i < |s| ==> AsciiLetter(s[i])
    ensures EscapeAll(s, quote) == s
  {
    if |s| > 0 {
      LetterPlain(s[0], quote);
      LettersPlain(s[1..], quote);
    }
  }

  lemma LetterPlain(c: char, quote: char)
    requires quote == '\'' || quote == '"'
    requires AsciiLetter(c)
    ensures EscapeChar(c, quote) == [c]
  {
    assert !HexEscaped(c);
  }
}
