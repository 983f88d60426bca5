/** The JSON viewer's renderer: a value becomes a sequence of display tokens. A list or object
    opens with its bracket, puts each element on a new line after an indentation pad, separates
    elements with commas, and closes on a new line after a pad of its own level. Object
    elements show the key in quotes and `: ` before the value; strings show in quotes without
    escaping, numbers, booleans and `null` as written. A date, which reaches the page only as
    the ISO text the backend's JSON encoder writes, shows as that text. */
module JsonViewer {
  import opened Strings
  import opened Json
  import opened Dates

  /** One rendered element of the display. */
  datatype Token =
    | Punct(text: string)   // a bracket, `,` or `: `
    | Break                 // a line break
    | Pad(level: nat)       // two spaces per level
    | KeyName(key: string)
    | Text(s: string)
    | Number(n: int)
    | Truth(b: bool)
    | NullWord

  /** The text a token displays. */
  function TokenText(t: Token): string {
    match t
    case Punct(text) => text
    case Break => "\n"
    case Pad(level) => Repeat("  ", level)
    case KeyName(key) => "\"" + key + "\""
    case Text(s) => "\"" + s + "\""
    case Number(n) => IntToString(n)
    case Truth(b) => if b then "true" else "false"
    case NullWord => "null"
  }

  function Show(ts: seq<Token>): string {
    if |ts| == 0 then [] else TokenText(ts[0]) + Show(ts[1..])
  }

  function Flatten(parts: seq<seq<Token>>): seq<Token> {
    if |parts| == 0 then [] else parts[0] + Flatten(parts[1..])
  }

  /** The comma after element `i` of `n`, except after the last. */
  function Comma(i: nat, n: nat): seq<Token> {
    if i + 1 < n then [Punct(",")] else []
  }

  /** The tokens of `v` rendered at level `indent`, each element of a list or object padded
      to level `indent + shift`. */
  function Render(v: Value, indent: nat, shift: nat): seq<Token>
    decreases v
  {
    match v
    case Null => [NullWord]
    case Bool(b) => [Truth(b)]
    case Num(n) => [Number(n)]
    case Str(s) => [Text(s)]
    case DateObj(d) => [Text(FormatDate(d))]
    case Arr(items) =>
      [Punct("[")]
      + Flatten(seq(|items|, i requires 0 <= i < |items| =>
          [Break, Pad(indent + shift)] + Render(items[i], indent + 1, shift) + Comma(i, |items|)))
      + [Break, Pad(indent), Punct("]")]
    case Obj(entries) =>
      [Punct("{")]
      + Flatten(seq(|entries|, i requires 0 <= i < |entries| =>
          [Break, Pad(indent + shift), KeyName(entries[i].0), Punct(": ")]
          + Render(entries[i].1, indent + 1, shift) + Comma(i, |entries|)))
      + [Break, Pad(indent), Punct("}")]
  }

  /** `formatJson(obj, indent)` as written: elements are padded to the level of their
      container, the same as its closing bracket. */
  function FormatJson(v: Value, indent: nat): seq<Token> {
    Render(v, indent, 0)
  }

  /** `formatJson` with elements one level deeper than their container's brackets. */
  function FormatJsonNested(v: Value, indent: nat): seq<Token> {
    Render(v, indent, 1)
  }

  // ---------------------------------------------------------------- content without layout

  /** The tokens without line breaks and pads. */
  function Unpadded(ts: seq<Token>): (r: seq<Token>)
    ensures forall i :: 0 <= i < |r| ==> !r[i].Break? && !r[i].Pad?
  {
    if |ts| == 0 then []
    else if ts[0].Break? || ts[0].Pad? then Unpadded(ts[1..])
    else [ts[0]] + Unpadded(ts[1..])
  }

  /** The value's tokens on one line: the reference for what the display shows. */
  function Compact(v: Value): seq<Token>
    decreases v
  {
    match v
    case Null => [NullWord]
    case Bool(b) => [Truth(b)]
    case Num(n) => [Number(n)]
    case Str(s) => [Text(s)]
    case DateObj(d) => [Text(FormatDate(d))]
    case Arr(items) =>
      [Punct("[")]
      + Flatten(seq(|items|, i requires 0 <= i < |items| => Compact(items[i]) + Comma(i, |items|)))
      + [Punct("]")]
    case Obj(entries) =>
      [Punct("{")]
      + Flatten(seq(|entries|, i requires 0 <= i < |entries| =>
          [KeyName(entries[i].0), Punct(": ")] + Compact(entries[i].1) + Comma(i, |entries|)))
      + [Punct("}")]
  }

  lemma {:induction false} UnpaddedAppend(a: seq<Token>, b: seq<Token>)
    ensures Unpadded(a + b) == Unpadded(a) + Unpadded(b)
  {
    if |a| > 0 {
      assert (a + b)[1..] == a[1..] + b;
      UnpaddedAppend(a[1..], b);
    } else {
      assert a + b == b;
    }
  }

  lemma {:induction false} UnpaddedFlatten(parts: seq<seq<Token>>, flat: seq<seq<Token>>)
    requires |flat| == |parts|
    requires forall i :: 0 <= i < |parts| ==> Unpadded(parts[i]) == flat[i]
    ensures Unpadded(Flatten(parts)) == Flatten(flat)
  {
    if |parts| > 0 {
      UnpaddedAppend(parts[0], Flatten(parts[1..]));
      UnpaddedFlatten(parts[1..], flat[1..]);
    }
  }

  /** Layout is all the renderer adds: without breaks and pads, the display is the compact
      rendering, whatever the level and the element shift. */
  lemma LayoutOnly(v: Value, indent: nat, shift: nat)
    ensures Unpadded(Render(v, indent, shift)) == Compact(v)
    decreases v, 1
  {
    match v
    case Arr(items) => LayoutList(items, indent, shift);
    case Obj(entries) => LayoutObject(entries, indent, shift);
    case _ =>
  }

  lemma {:induction false} LayoutList(items: seq<Value>, indent: nat, shift: nat)
    ensures Unpadded(Render(Arr(items), indent, shift)) == Compact(Arr(items))
    decreases Arr(items), 0
  {
    var parts := seq(|items|, i requires 0 <= i < |items| =>
      [Break, Pad(indent + shift)] + Render(items[i], indent + 1, shift) + Comma(i, |items|));
    var flat := seq(|items|, i requires 0 <= i < |items| => Compact(items[i]) + Comma(i, |items|));
    forall i | 0 <= i < |items| ensures Unpadded(parts[i]) == flat[i] {
      ListElement(items, i, indent, shift);
    }
    assert Render(Arr(items), indent, shift) == [Punct("[")] + Flatten(parts) + [Break, Pad(indent), Punct("]")];
    assert Compact(Arr(items)) == [Punct("[")] + Flatten(flat) + [Punct("]")];
    ContainerUnpadded("[", parts, flat, indent, "]");
  }

  lemma ListElement(items: seq<Value>, i: nat, indent: nat, shift: nat)
    requires i < |items|
    ensures Unpadded([Break, Pad(indent + shift)] + Render(items[i], indent + 1, shift) + Comma(i, |items|))
            == Compact(items[i]) + Comma(i, |items|)
    decreases Arr(items), -1
  {
    LayoutOnly(items[i], indent + 1, shift);
    ElementHeads(indent + shift, "");
    ElementUnpadded([Break, Pad(indent + shift)], Render(items[i], indent + 1, shift), Comma(i, |items|));
  }

  lemma {:induction false} LayoutObject(entries: seq<(string, Value)>, indent: nat, shift: nat)
    ensures Unpadded(Render(Obj(entries), indent, shift)) == Compact(Obj(entries))
    decreases Obj(entries), 0
  {
    var parts := seq(|entries|, i requires 0 <= i < |entries| =>
      [Break, Pad(indent + shift), KeyName(entries[i].0), Punct(": ")]
      + Render(entries[i].1, indent + 1, shift) + Comma(i, |entries|));
    var flat := seq(|entries|, i requires 0 <= i < |entries| =>
      [KeyName(entries[i].0), Punct(": ")] + Compact(entries[i].1) + Comma(i, |entries|));
    forall i | 0 <= i < |entries| ensures Unpadded(parts[i]) == flat[i] {
      ObjectElement(entries, i, indent, shift);
    }
    assert Render(Obj(entries), indent, shift) == [Punct("{")] + Flatten(parts) + [Break, Pad(indent), Punct("}")];
    assert Compact(Obj(entries)) == [Punct("{")] + Flatten(flat) + [Punct("}")];
    ContainerUnpadded("{", parts, flat, indent, "}");
  }

  lemma ObjectElement(entries: seq<(string, Value)>, i: nat, indent: nat, shift: nat)
    requires i < |entries|
    ensures Unpadded([Break, Pad(indent + shift), KeyName(entries[i].0), Punct(": ")]
                     + Render(entries[i].1, indent + 1, shift) + Comma(i, |entries|))
            == [KeyName(entries[i].0), Punct(": ")] + Compact(entries[i].1) + Comma(i, |entries|)
    decreases Obj(entries), -1
  {
    LayoutOnly(entries[i].1, indent + 1, shift);
    ElementHeads(indent + shift, entries[i].0);
    ElementUnpadded([Break, Pad(indent + shift), KeyName(entries[i].0), Punct(": ")],
                    Render(entries[i].1, indent + 1, shift), Comma(i, |entries|));
  }

  lemma ContainerUnpadded(open: string, parts: seq<seq<Token>>, flat: seq<seq<Token>>, indent: nat, close: string)
    requires |flat| == |parts|
    requires forall i :: 0 <= i < |parts| ==> Unpadded(parts[i]) == flat[i]
    ensures Unpadded([Punct(open)] + Flatten(parts) + [Break, Pad(indent), Punct(close)])
              == [Punct(open)] + Flatten(flat) + [Punct(close)]
  {
    var body := Flatten(parts);
    UnpaddedFlatten(parts, flat);
    var closing := [Break, Pad(indent), Punct(close)];
    UnpaddedCons(Break, [Pad(indent), Punct(close)]);
    UnpaddedCons(Pad(indent), [Punct(close)]);
    UnpaddedCons(Punct(close), []);
    assert Unpadded(closing) == [Punct(close)];
    UnpaddedCons(Punct(open), body);
    UnpaddedAppend([Punct(open)] + body, closing);
  }

  lemma UnpaddedCons(t: Token, ts: seq<Token>)
    ensures Unpadded([t] + ts) == (if t.Break? || t.Pad? then [] else [t]) + Unpadded(ts)
  {
    assert ([t] + ts)[1..] == ts;
  }

  lemma ElementUnpadded(head: seq<Token>, body: seq<Token>, tail: seq<Token>)
    requires tail == [] || tail == [Punct(",")]
    ensures Unpadded(head + body + tail) == Unpadded(head) + Unpadded(body) + tail
  {
    UnpaddedAppend(head + body, tail);
    UnpaddedAppend(head, body);
    UnpaddedCons(Punct(","), []);
  }

  /** The line break and pad before an element leave nothing; the key and colon stay. */
  lemma ElementHeads(level: nat, key: string)
    ensures Unpadded([Break, Pad(level)]) == []
    ensures Unpadded([Break, Pad(level), KeyName(key), Punct(": ")]) == [KeyName(key), Punct(": ")]
  {
    UnpaddedCons(Punct(": "), []);
    UnpaddedCons(KeyName(key), [Punct(": ")]);
    UnpaddedCons(Pad(level), [KeyName(key), Punct(": ")]);
    UnpaddedCons(Break, [Pad(level), KeyName(key), Punct(": ")]);
    UnpaddedCons(Pad(level), []);
    UnpaddedCons(Break, [Pad(level)]);
  }

  /** The display as written and the nested display show the same content. */
  lemma SameContent(v: Value, indent: nat)
    ensures Unpadded(FormatJson(v, indent)) == Unpadded(FormatJsonNested(v, indent))
  {
    LayoutOnly(v, indent, 0);
    LayoutOnly(v, indent, 1);
  }

  // ---------------------------------------------------------------- element indentation

  /** As written, the first element of a non-empty list is padded to the same level as the
      list's closing bracket. */
  lemma ElementPadAsWritten(items: seq<Value>, indent: nat)
    requires |items| > 0
    ensures var ts := FormatJson(Arr(items), indent);
            ts[..3] == [Punct("["), Break, Pad(indent)] && ts[|ts| - 3..] == [Break, Pad(indent), Punct("]")]
  {
    FirstElement(items, indent, 0);
  }

  /** Nested, the first element is padded one level deeper than the closing bracket. */
  lemma ElementPadNested(items: seq<Value>, indent: nat)
    requires |items| > 0
    ensures var ts := FormatJsonNested(Arr(items), indent);
            ts[..3] == [Punct("["), Break, Pad(indent + 1)] && ts[|ts| - 3..] == [Break, Pad(indent), Punct("]")]
  {
    FirstElement(items, indent, 1);
  }

  lemma FirstElement(items: seq<Value>, indent: nat, shift: nat)
    requires |items| > 0
    ensures var ts := Render(Arr(items), indent, shift);
            ts[..3] == [Punct("["), Break, Pad(indent + shift)] && ts[|ts| - 3..] == [Break, Pad(indent), Punct("]")]
  {
    var parts := seq(|items|, i requires 0 <= i < |items| =>
      [Break, Pad(indent + shift)] + Render(items[i], indent + 1, shift) + Comma(i, |items|));
    assert Flatten(parts) == parts[0] + Flatten(parts[1..]);
    var ts := Render(Arr(items), indent, shift);
    assert ts == [Punct("[")] + (parts[0] + Flatten(parts[1..])) + [Break, Pad(indent), Punct("]")];
    assert ts[1] == parts[0][0] && ts[2] == parts[0][1];
  }

  /** A one-element list of a scalar at the top level, such as `[true]`: as written the
      element sits at the margin, in line with the closing bracket. */
  lemma OneElementListAsWritten(x: Value)
    requires !x.Arr? && !x.Obj?
    ensures Show(FormatJson(Arr([x]), 0)) == "[\n" + TokenText(Render(x, 1, 0)[0]) + "\n]"
  {
    var t := TokenText(Render(x, 1, 0)[0]);
    OneElementShown(x, 0);
    assert Repeat("  ", 0) == "";
    Regroup("[", "\n", "[\n", "", t, "\n]");
    DropEmpty("[\n", "", t, "\n]");
  }

  /** Nested, the element of `[true]` is indented by one level. */
  lemma OneElementListNested(x: Value)
    requires !x.Arr? && !x.Obj?
    ensures Show(FormatJsonNested(Arr([x]), 0)) == "[\n  " + TokenText(Render(x, 1, 1)[0]) + "\n]"
  {
    var t := TokenText(Render(x, 1, 1)[0]);
    OneElementShown(x, 1);
    assert Repeat("  ", 1) == "  ";
    Regroup("[", "\n", "[\n", "  ", t, "\n]");
  }

  lemma DropEmpty(ab: string, pad: string, t: string, c: string)
    requires pad == []
    ensures ab + pad + t + c == ab + t + c
  {
  }

  /** Moves the line break of a one-element display into the opening text. */
  lemma Regroup(a: string, b: string, ab: string, pad: string, t: string, c: string)
    requires a + b == ab
    ensures a + (b + pad + t) + c == ab + pad + t + c
  {
  }

  lemma OneElementShown(x: Value, shift: nat)
    requires !x.Arr? && !x.Obj?
    ensures Show(Render(Arr([x]), 0, shift)) == "[" + ("\n" + Repeat("  ", shift) + TokenText(Render(x, 1, shift)[0])) + "\n]"
  {
    var t := Render(x, 1, shift)[0];
    OneElementTokens(x, shift);
    var open, element, close := [Punct("[")], [Break, Pad(shift), t], [Break, Pad(0), Punct("]")];
    assert Render(Arr([x]), 0, shift) == open + element + close;
    assert Show(open + element + close) == Show(open) + Show(element) + Show(close) by {
      ShowAppend(open + element, close);
      ShowAppend(open, element);
    }
    assert Show(open) == "[" by {
      ShowCons(Punct("["), []);
    }
    assert Show(element) == "\n" + Repeat("  ", shift) + TokenText(t) by {
      ShowThree(Break, Pad(shift), t);
    }
    assert Show(close) == "\n]" by {
      ShowThree(Break, Pad(0), Punct("]"));
      assert Repeat("  ", 0) == "";
    }
  }

  lemma ShowThree(a: Token, b: Token, c: Token)
    ensures Show([a, b, c]) == TokenText(a) + TokenText(b) + TokenText(c)
  {
    ShowCons(c, []);
    ShowCons(b, [c]);
    ShowCons(a, [b, c]);
  }

  lemma {:induction false} ShowAppend(a: seq<Token>, b: seq<Token>)
    ensures Show(a + b) == Show(a) + Show(b)
  {
    if |a| > 0 {
      assert (a + b)[1..] == a[1..] + b;
      ShowAppend(a[1..], b);
    } else {
      assert a + b == b;
    }
  }

  lemma ShowCons(t: Token, ts: seq<Token>)
    ensures Show([t] + ts) == TokenText(t) + Show(ts)
  {
    assert ([t] + ts)[1..] == ts;
  }

  lemma OneElementTokens(x: Value, shift: nat)
    requires !x.Arr? && !x.Obj?
    ensures |Render(x, 1, shift)| == 1
    ensures Render(Arr([x]), 0, shift) ==
              [Punct("["), Break, Pad(shift), Render(x, 1, shift)[0], Break, Pad(0), Punct("]")]
  {
    var items := [x];
    var parts := seq(1, i requires 0 <= i < 1 => [Break, Pad(shift)] + Render(items[i], 1, shift) + Comma(i, 1));
    assert Comma(0, 1) == [];
    assert parts[0] == [Break, Pad(shift), Render(x, 1, shift)[0]];
    assert Flatten(parts) == parts[0] + Flatten(parts[1..]);
  }
}
