/** The XML viewer's re-indenter: a line break goes between every `>` and `<` that touch, the
    text is split into lines, each line is trimmed, blank lines are dropped, and each remaining
    line is written after two spaces per open element. A closing tag steps the level back
    before it is written (never below zero); an opening tag steps it forward after it is written,
    unless it closes itself, is a processing instruction or a comment. */
module XmlViewer {
  import opened Strings

  // ---------------------------------------------------------------- breaking between tags

  /** `>` immediately followed by `<` at position `i`. */
  predicate JunctionAt(s: string, i: nat) {
    i + 1 < |s| && s[i] == '>' && s[i + 1] == '<'
  }

  /** No `>` touches a following `<`. */
  predicate NoJunction(s: string) {
    forall i :: 0 <= i < |s| ==> !JunctionAt(s, i)
  }

  /** `s.replace(/></g, ">\n<")`: matches are found left to right, without overlap. */
  function InsertBreaks(s: string): (r: string)
    ensures NoJunction(r)
    ensures |s| > 0 ==> |r| > 0 && r[0] == s[0]
    decreases |s|
  {
    if |s| == 0 then []
    else if JunctionAt(s, 0) then
      var rest := InsertBreaks(s[2..]);
      var a := ['<'] + rest;
      var b := ['\n'] + a;
      ConsNoJunction('<', rest);
      ConsNoJunction('\n', a);
      ConsNoJunction('>', b);
      ['>'] + b
    else
      var rest := InsertBreaks(s[1..]);
      ConsNoJunction(s[0], rest);
      [s[0]] + rest
  }

  /** Putting a character before a text creates a junction only with a `>` before a `<`. */
  lemma ConsNoJunction(c: char, rest: string)
    requires NoJunction(rest) && (c == '>' ==> rest == [] || rest[0] != '<')
    ensures NoJunction([c] + rest)
  {
    var s := [c] + rest;
    forall i | 0 <= i < |s| ensures !JunctionAt(s, i) {
      if i > 0 {
        assert s[i] == rest[i - 1];
        if i + 1 < |s| {
          assert s[i + 1] == rest[i];
          assert !JunctionAt(rest, i - 1);
        }
      }
    }
  }

  /** `s` without its line breaks. */
  function Unbroken(s: string): (r: string)
    ensures '\n' !in r
  {
    if |s| == 0 then []
    else if s[0] == '\n' then Unbroken(s[1..])
    else [s[0]] + Unbroken(s[1..])
  }

  lemma {:induction false} UnbrokenAppend(a: string, b: string)
    ensures Unbroken(a + b) == Unbroken(a) + Unbroken(b)
  {
    if |a| > 0 {
      assert (a + b)[1..] == a[1..] + b;
      UnbrokenAppend(a[1..], b);
    } else {
      assert a + b == b;
    }
  }

  /** The only change is the inserted line breaks: without line breaks, input and output read
      the same. */
  lemma {:induction false} InsertBreaksOnlyBreaks(s: string)
    ensures Unbroken(InsertBreaks(s)) == Unbroken(s)
    decreases |s|
  {
    if |s| > 0 {
      if JunctionAt(s, 0) {
        InsertBreaksOnlyBreaks(s[2..]);
        assert InsertBreaks(s) == ">\n<" + InsertBreaks(s[2..]);
        UnbrokenAppend(">\n<", InsertBreaks(s[2..]));
        assert s == "><" + s[2..];
        UnbrokenAppend("><", s[2..]);
      } else {
        InsertBreaksOnlyBreaks(s[1..]);
        UnbrokenAppend([s[0]], InsertBreaks(s[1..]));
        assert s == [s[0]] + s[1..];
        UnbrokenAppend([s[0]], s[1..]);
      }
    }
  }

  /** Text in which no tags touch passes through unchanged. */
  lemma {:induction false} InsertBreaksIdentity(s: string)
    requires NoJunction(s)
    ensures InsertBreaks(s) == s
    decreases |s|
  {
    if |s| > 0 {
      assert !JunctionAt(s, 0);
      assert forall i :: 0 <= i < |s[1..]| ==> !JunctionAt(s[1..], i) by {
        forall i | 0 <= i < |s[1..]| ensures !JunctionAt(s[1..], i) {
          assert !JunctionAt(s, i + 1);
        }
      }
      InsertBreaksIdentity(s[1..]);
      assert [s[0]] + s[1..] == s;
    }
  }

  // ---------------------------------------------------------------- lines

  /** A line as the re-indenter keeps it: non-empty, trimmed, on one line, no tags touching. */
  predicate CleanLine(l: string) {
    l != [] && !IsSpace(l[0]) && !IsSpace(l[|l| - 1]) && '\n' !in l && NoJunction(l)
  }

  /** A slice of text without touching tags has none either. */
  lemma SliceNoJunction(s: string, i: nat, j: nat)
    requires i <= j <= |s| && NoJunction(s)
    ensures NoJunction(s[i..j])
  {
    forall m | 0 <= m < |s[i..j]| ensures !JunctionAt(s[i..j], m) {
      assert !JunctionAt(s, i + m);
    }
  }

  /** The first piece of a split is a prefix of the text. */
  lemma {:induction false} SplitFirstIsPrefix(s: string, c: char)
    ensures |Split(s, c)[0]| <= |s| && Split(s, c)[0] == s[..|Split(s, c)[0]|]
    decreases |s|
  {
    if |s| > 0 && s[0] != c {
      SplitFirstIsPrefix(s[1..], c);
    }
  }

  /** Splitting text without touching tags gives pieces without them. */
  lemma {:induction false} SplitNoJunction(s: string, c: char)
    requires NoJunction(s)
    ensures forall k :: 0 <= k < |Split(s, c)| ==> NoJunction(Split(s, c)[k])
    decreases |s|
  {
    if |s| > 0 {
      SliceNoJunction(s, 1, |s|);
      assert s[1..|s|] == s[1..];
      SplitNoJunction(s[1..], c);
      if s[0] != c {
        var rest := Split(s[1..], c);
        SplitFirstIsPrefix(s[1..], c);
        var p := [s[0]] + rest[0];
        assert p == s[..|p|];
        SliceNoJunction(s, 0, |p|);
        assert Split(s, c) == [p] + rest[1..];
        forall k | 0 <= k < |Split(s, c)| ensures NoJunction(Split(s, c)[k]) {
          if k > 0 {
            assert Split(s, c)[k] == rest[k];
          }
        }
      }
    }
  }

  /** Trimming a piece without touching tags or line breaks leaves a clean line or nothing. */
  lemma TrimClean(x: string)
    requires NoJunction(x) && '\n' !in x
    ensures Trim(x) != [] ==> CleanLine(Trim(x))
  {
    var i := SkipSpace(x, 0);
    var j := BackSpace(x, i, |x|);
    if i < j {
      SliceClean(x, i, j);
    }
  }

  /** A slice of a piece without touching tags or line breaks, with no whitespace at either
      end, is a clean line. */
  lemma SliceClean(x: string, i: nat, j: nat)
    requires i < j <= |x| && NoJunction(x) && '\n' !in x
    requires !IsSpace(x[i]) && !IsSpace(x[j - 1])
    ensures CleanLine(x[i..j])
  {
    SliceKeeps(x, i, j, '\n');
  }

  lemma SliceKeeps(s: string, i: nat, j: nat, c: char)
    requires i <= j <= |s| && NoJunction(s) && c !in s
    ensures NoJunction(s[i..j]) && c !in s[i..j]
  {
    SliceNoJunction(s, i, j);
    assert forall m :: 0 <= m < j - i ==> s[i..j][m] == s[i + m];
  }

  /** The trimmed, non-blank pieces, in order. */
  function Clean(parts: seq<string>): (lines: seq<string>)
    requires forall k :: 0 <= k < |parts| ==> NoJunction(parts[k]) && '\n' !in parts[k]
    ensures forall k :: 0 <= k < |lines| ==> CleanLine(lines[k])
    ensures |lines| <= |parts|
  {
    if |parts| == 0 then []
    else
      var t := Trim(parts[0]);
      var rest := Clean(parts[1..]);
      if t == [] then rest
      else
        TrimClean(parts[0]);
        ConsClean(t, rest);
        [t] + rest
  }

  lemma ConsClean(t: string, rest: seq<string>)
    requires CleanLine(t) && forall k :: 0 <= k < |rest| ==> CleanLine(rest[k])
    ensures forall k :: 0 <= k < |[t] + rest| ==> CleanLine(([t] + rest)[k])
  {
    forall k | 0 <= k < |[t] + rest| ensures CleanLine(([t] + rest)[k]) {
      if k > 0 {
        assert ([t] + rest)[k] == rest[k - 1];
      }
    }
  }

  /** The lines the re-indenter works on. */
  function XmlLines(xml: string): (lines: seq<string>)
    ensures forall k :: 0 <= k < |lines| ==> CleanLine(lines[k])
  {
    var broken := InsertBreaks(xml);
    SplitNoJunction(broken, '\n');
    Clean(Split(broken, '\n'))
  }

  // ---------------------------------------------------------------- indentation

  predicate Closes(line: string) {
    StartsWith(line, "</")
  }

  /** A line that opens an element whose content follows. */
  predicate Opens(line: string) {
    StartsWith(line, "<") && !StartsWith(line, "</") && !EndsWith(line, "/>")
    && !StartsWith(line, "<?") && !StartsWith(line, "<!--")
  }

  /** The level a line is written at, from the level before it. */
  function Before(level: nat, line: string): nat {
    if Closes(line) then (if level == 0 then 0 else level - 1) else level
  }

  /** The level after a line is written. */
  function After(level: nat, line: string): nat {
    var written := Before(level, line);
    if Opens(line) then written + 1 else written
  }

  /** The level after all of `lines`, starting from zero. */
  function Depth(lines: seq<string>): nat {
    if |lines| == 0 then 0 else After(Depth(lines[..|lines| - 1]), lines[|lines| - 1])
  }

  /** The level line `i` is written at. */
  function Level(lines: seq<string>, i: nat): nat
    requires i < |lines|
  {
    Before(Depth(lines[..i]), lines[i])
  }

  function Indented(level: nat, line: string): string {
    Repeat("  ", level) + line
  }

  /** Every line written after two spaces per level. */
  function Layout(lines: seq<string>): (out: seq<string>)
    ensures |out| == |lines|
  {
    seq(|lines|, i requires 0 <= i < |lines| => Indented(Level(lines, i), lines[i]))
  }

  /** The re-indenting loop, one line at a time with a running level. */
  method IndentLines(lines: seq<string>) returns (out: seq<string>)
    ensures |out| == |lines|
    ensures forall i :: 0 <= i < |lines| ==> out[i] == Indented(Level(lines, i), lines[i])
  {
    var level: nat := 0;
    out := [];
    var i := 0;
    while i < |lines|
      invariant 0 <= i <= |lines|
      invariant level == Depth(lines[..i])
      invariant |out| == i
      invariant forall j :: 0 <= j < i ==> out[j] == Indented(Level(lines, j), lines[j])
    {
      var line := lines[i];
      LevelStep(lines, i);
      if StartsWith(line, "</") {
        level := if level == 0 then 0 else level - 1;
      }
      assert level == Before(Depth(lines[..i]), line);
      out := out + [Repeat("  ", level) + line];
      if Opens(line) {
        level := level + 1;
      }
      assert level == Depth(lines[..i + 1]);
      i := i + 1;
    }
  }

  /** One line moves the running level from before it to after it. */
  lemma LevelStep(lines: seq<string>, i: nat)
    requires i < |lines|
    ensures Depth(lines[..i + 1]) == After(Depth(lines[..i]), lines[i])
    ensures Level(lines, i) == Before(Depth(lines[..i]), lines[i])
  {
    assert lines[..i + 1][..i] == lines[..i];
  }

  /** `formatXmlWithIndentation`. */
  function FormatXml(xml: string): string {
    Join(Layout(XmlLines(xml)), "\n")
  }

  // ---------------------------------------------------------------- properties

  /** A closing tag right after an opening one lines up with it; anything else right after an
      opening tag is one level deeper. */
  lemma OpenThenNext(lines: seq<string>, i: nat)
    requires i + 1 < |lines| && Opens(lines[i])
    ensures Closes(lines[i + 1]) ==> Level(lines, i + 1) == Level(lines, i)
    ensures !Closes(lines[i + 1]) ==> Level(lines, i + 1) == Level(lines, i) + 1
  {
    assert lines[..i + 1][..i] == lines[..i];
  }

  /** Text lines, self-closing tags, comments and declarations leave the level alone: the next
      line that does not close is written at the same level. */
  lemma LeafThenNext(lines: seq<string>, i: nat)
    requires i + 1 < |lines| && !Opens(lines[i]) && !Closes(lines[i]) && !Closes(lines[i + 1])
    ensures Level(lines, i + 1) == Level(lines, i)
  {
    assert lines[..i + 1][..i] == lines[..i];
  }

  /** Trimming an indented clean line gives the line back. */
  lemma TrimIndented(n: nat, line: string)
    requires CleanLine(line)
    ensures Trim(Indented(n, line)) == line
  {
    var pad := Repeat("  ", n);
    var s := pad + line;
    RepeatSpaces(n);
    assert forall k :: 0 <= k < |pad| ==> s[k] == pad[k];
    SkipBlanks(s, |pad|, 0);
    assert s[|s| - 1] == line[|line| - 1];
    assert BackSpace(s, |pad|, |s|) == |s|;
    assert s[|pad|..] == line;
  }

  /** An indented clean line is itself free of touching tags and line breaks. */
  lemma IndentedClean(n: nat, line: string)
    requires CleanLine(line)
    ensures NoJunction(Indented(n, line)) && '\n' !in Indented(n, line)
  {
    var s := Indented(n, line);
    var pad := Repeat("  ", n);
    assert forall m :: 0 <= m < |pad| ==> pad[m] == ' ' by {
      RepeatSpaces(n);
    }
    forall m | 0 <= m < |s| ensures !JunctionAt(s, m) && s[m] != '\n' {
      if m >= |pad| {
        assert s[m] == line[m - |pad|];
        if m + 1 < |s| {
          assert s[m + 1] == line[m + 1 - |pad|];
          assert !JunctionAt(line, m - |pad|);
        }
      } else {
        assert s[m] == ' ';
      }
    }
  }

  lemma {:induction false} RepeatSpaces(n: nat)
    ensures forall m :: 0 <= m < |Repeat("  ", n)| ==> Repeat("  ", n)[m] == ' '
  {
    if n > 0 {
      RepeatSpaces(n - 1);
      assert Repeat("  ", n) == "  " + Repeat("  ", n - 1);
    }
  }

  /** Joining pieces without touching tags on line breaks creates none. */
  lemma {:induction false} JoinNoJunction(parts: seq<string>)
    requires forall k :: 0 <= k < |parts| ==> NoJunction(parts[k])
    ensures NoJunction(Join(parts, "\n"))
  {
    if |parts| > 1 {
      JoinNoJunction(parts[1..]);
      var rest := Join(parts[1..], "\n");
      var s := parts[0] + "\n" + rest;
      forall m | 0 <= m < |s| ensures !JunctionAt(s, m) {
        if m < |parts[0]| {
          if m + 1 < |parts[0]| {
            assert !JunctionAt(parts[0], m);
          } else {
            assert s[m + 1] == '\n';
          }
        } else if m == |parts[0]| {
          assert s[m] == '\n';
        } else {
          assert s[m] == rest[m - |parts[0]| - 1];
          if m + 1 < |s| {
            assert s[m + 1] == rest[m + 1 - |parts[0]| - 1];
            assert !JunctionAt(rest, m - |parts[0]| - 1);
          }
        }
      }
    }
  }

  /** Cleaning the written lines gives back the lines that were written. */
  lemma {:induction false} CleanLayout(lines: seq<string>, levels: seq<nat>, written: seq<string>)
    requires |levels| == |lines| == |written|
    requires forall k :: 0 <= k < |lines| ==> CleanLine(lines[k])
    requires forall k :: 0 <= k < |lines| ==> written[k] == Indented(levels[k], lines[k])
    ensures forall k :: 0 <= k < |written| ==> NoJunction(written[k]) && '\n' !in written[k]
    ensures Clean(written) == lines
  {
    forall k | 0 <= k < |written| ensures NoJunction(written[k]) && '\n' !in written[k] {
      IndentedClean(levels[k], lines[k]);
    }
    if |lines| > 0 {
      CleanLayout(lines[1..], levels[1..], written[1..]);
      TrimIndented(levels[0], lines[0]);
      assert [lines[0]] + lines[1..] == lines;
    }
  }

  /** The written lines are clean of junctions and breaks, and cleaning them gives back the
      lines that were written. */
  lemma LayoutCleans(lines: seq<string>)
    requires forall k :: 0 <= k < |lines| ==> CleanLine(lines[k])
    ensures forall k :: 0 <= k < |lines| ==> NoJunction(Layout(lines)[k]) && '\n' !in Layout(lines)[k]
    ensures Clean(Layout(lines)) == lines
  {
    var levels := seq(|lines|, i requires 0 <= i < |lines| => Level(lines, i));
    CleanLayout(lines, levels, Layout(lines));
  }

  /** Reading back formatted text gives the lines it was formatted from. */
  lemma ReadBack(lines: seq<string>)
    requires forall k :: 0 <= k < |lines| ==> CleanLine(lines[k])
    ensures XmlLines(Join(Layout(lines), "\n")) == lines
  {
    var out := Layout(lines);
    LayoutCleans(lines);
    var text := Join(out, "\n");
    JoinNoJunction(out);
    InsertBreaksIdentity(text);
    if |out| == 0 {
      assert Split(text, '\n') == [[]];
      assert Trim([]) == [];
    } else {
      SplitJoin(out, '\n');
    }
  }

  /** Re-indenting is idempotent: formatting already formatted XML changes nothing, because the
      lines it reads back are exactly the lines it wrote. */
  lemma FormatIdempotent(xml: string)
    ensures XmlLines(FormatXml(xml)) == XmlLines(xml)
    ensures FormatXml(FormatXml(xml)) == FormatXml(xml)
  {
    ReadBack(XmlLines(xml));
  }
}
