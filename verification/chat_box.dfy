/** The chat box of the web client: linking model keys in an answer, and the message list a
    send produces. Message ids and timestamps are not modelled; the backend is an oracle. */
module ChatBox {
  import opened Common
  import opened Strings
  import opened UriEncoding

  // ---------------------------------------------------------------- whole-word key links

  /** A word character of the regular-expression engine (without the Unicode flag). */
  predicate IsWordChar(c: char) {
    ('a' <= c <= 'z') || ('A' <= c <= 'Z') || ('0' <= c <= '9') || c == '_'
  }

  /** Whether position `p` of `s` (0..|s|) lies between a word and a non-word character; the
      outside of the string counts as non-word. */
  predicate Boundary(s: string, p: nat)
    requires p <= |s|
  {
    (p > 0 && IsWordChar(s[p - 1])) != (p < |s| && IsWordChar(s[p]))
  }

  /** The characters of `k` occur in `s` from position `i` on. */
  predicate OccursAt(s: string, k: string, i: nat) {
    i + |k| <= |s| && AgreeFrom(s, k, i, 0)
  }

  /** The characters of `k` from `m` on agree with those of `s` from `i + m` on. */
  predicate AgreeFrom(s: string, k: string, i: nat, m: nat)
    requires i + |k| <= |s| && m <= |k|
    decreases |k| - m
  {
    m == |k| || (s[i + m] == k[m] && AgreeFrom(s, k, i, m + 1))
  }

  lemma {:induction false} AgreeFromChars(s: string, k: string, i: nat, m: nat)
    requires i + |k| <= |s| && m <= |k|
    ensures AgreeFrom(s, k, i, m) <==> forall n :: m <= n < |k| ==> s[i + n] == k[n]
    decreases |k| - m
  {
    if m < |k| {
      AgreeFromChars(s, k, i, m + 1);
    }
  }

  /** An occurrence, character by character. */
  lemma OccursAtChars(s: string, k: string, i: nat)
    ensures OccursAt(s, k, i) <==> i + |k| <= |s| && forall n :: 0 <= n < |k| ==> s[i + n] == k[n]
  {
    if i + |k| <= |s| {
      AgreeFromChars(s, k, i, 0);
    }
  }

  /** `\bk\b` matches at `i`. */
  predicate MatchAt(s: string, k: string, i: nat) {
    OccursAt(s, k, i) && Boundary(s, i) && Boundary(s, i + |k|)
  }

  /** A character the regular-expression syntax treats specially. */
  predicate IsMeta(c: char) {
    c in "\\^$.|?*+()[]{}"
  }

  /** A key that reads as literal text when spliced into a pattern. */
  predicate LiteralKey(k: string) {
    forall i :: 0 <= i < |k| ==> !IsMeta(k[i])
  }

  /** The prompt a model link opens the analysis page with, and its percent-encoding. */
  const LinkPromptText: string := "Describe" + " " + "model"
  const EncodedLinkPrompt: string := EncodeUriComponent(LinkPromptText)

  /** The markdown link a key becomes. */
  function Link(k: string): string {
    "[" + k + "](/analyze/" + k + "?prompt=" + EncodedLinkPrompt + ")"
  }

  /** The global replacement of `\bk\b` by `link` from position `i` on: the scan moves past a
      match, or one character when there is none (an empty match copies the character). */
  function ReplaceFrom(s: string, k: string, link: string, i: nat): string
    requires i <= |s|
    decreases |s| - i
  {
    if MatchAt(s, k, i) then
      if |k| > 0 then link + ReplaceFrom(s, k, link, i + |k|)
      else if i == |s| then link
      else link + [s[i]] + ReplaceFrom(s, k, link, i + 1)
    else if i == |s| then []
    else [s[i]] + ReplaceFrom(s, k, link, i + 1)
  }

  /** `content.replace(new RegExp("\\b" + k + "\\b", "g"), Link(k))`. */
  function ReplaceKey(s: string, k: string): string {
    ReplaceFrom(s, k, Link(k), 0)
  }

  /** `formatBiomodelIds`: the keys applied one after the other, each to the previous output. */
  function FormatBiomodelIds(content: string, keys: seq<string>): (r: string)
    requires forall i :: 0 <= i < |keys| ==> LiteralKey(keys[i])
    ensures |keys| == 0 ==> r == content
    ensures |keys| > 0 ==> r == ReplaceKey(FormatBiomodelIds(content, keys[..|keys| - 1]), keys[|keys| - 1])
    decreases |keys|
  {
    if |keys| == 0 then content
    else ReplaceKey(FormatBiomodelIds(content, keys[..|keys| - 1]), keys[|keys| - 1])
  }

  /** The link's prompt is percent-encoded, its space written as `%20`, so a key becomes
      `[k](/analyze/k?prompt=Describe%20model)`. */
  lemma LinkShape(k: string)
    ensures Link(k) == "[" + k + "](/analyze/" + k + "?prompt=Describe%20model)"
  {
    PromptEncoded();
  }

  lemma PromptEncoded()
    ensures EncodedLinkPrompt == "Describe%20model"
  {
    EncodeSpaced(LinkPromptText, "Describe", "model");
  }

  /** Two alphanumeric words joined by a space, such as the link's prompt, encode with `%20`
      in between. */
  lemma EncodeSpaced(s: string, a: string, b: string)
    requires s == a + " " + b
    requires forall i :: 0 <= i < |a| ==> a[i] as int < 0x80 && IsAsciiAlnum(a[i] as int)
    requires forall i :: 0 <= i < |b| ==> b[i] as int < 0x80 && IsAsciiAlnum(b[i] as int)
    ensures EncodeUriComponent(s) == a + "%20" + b
  {
    assert s == a + (" " + b);
    EncodeAppend(Component, a, " " + b);
    EncodeAppend(Component, " ", b);
    EncodeAlnum(Component, a);
    EncodeAlnum(Component, b);
    assert Encode(Component, " ") == "%20" by {
      var space := " ";
      assert Utf8Encode(space) == [32];
    }
    SpliceAround(a, "%20", b, "");
  }

  /** Text without a whole-word occurrence of the key comes back unchanged, from any position. */
  lemma {:induction false} NoMatchUnchanged(s: string, k: string, link: string, i: nat)
    requires i <= |s|
    requires forall j :: i <= j <= |s| ==> !MatchAt(s, k, j)
    ensures ReplaceFrom(s, k, link, i) == s[i..]
    decreases |s| - i
  {
    if i < |s| {
      NoMatchUnchanged(s, k, link, i + 1);
    }
  }

  /** A text holding no whole-word occurrence of any key is shown unchanged. */
  lemma {:induction false} UnmatchedKeysUnchanged(content: string, keys: seq<string>)
    requires forall i :: 0 <= i < |keys| ==> LiteralKey(keys[i])
    requires forall i, j :: 0 <= i < |keys| && 0 <= j <= |content| ==> !MatchAt(content, keys[i], j)
    ensures FormatBiomodelIds(content, keys) == content
    decreases |keys|
  {
    if |keys| > 0 {
      var init := keys[..|keys| - 1];
      UnmatchedKeysUnchanged(content, init);
      var k := keys[|keys| - 1];
      NoMatchUnchanged(content, k, Link(k), 0);
    }
  }

  /** An occurrence glued to word characters on either side is no whole-word match. */
  lemma EmbeddedNotMatched(s: string, k: string, i: nat)
    requires i + |k| <= |s| && s[i..i + |k|] == k && |k| > 0
    requires IsWordChar(k[0]) && IsWordChar(k[|k| - 1])
    requires (i > 0 && IsWordChar(s[i - 1])) || (i + |k| < |s| && IsWordChar(s[i + |k|]))
    ensures !MatchAt(s, k, i)
  {
    OccursAtChars(s, k, i);
    assert s[i] == k[0];
    assert s[i + |k| - 1] == k[|k| - 1];
  }

  /** A key standing alone is replaced by its link. */
  lemma {:induction false} WholeKeyLinked(k: string)
    requires |k| > 0 && IsWordChar(k[0]) && IsWordChar(k[|k| - 1])
    ensures ReplaceKey(k, k) == Link(k)
  {
    OccursAtChars(k, k, 0);
    assert MatchAt(k, k, 0);
    assert ReplaceFrom(k, k, Link(k), |k|) == [];
    assert Link(k) + [] == Link(k);
  }

  /** A key in the middle of a sentence, between spaces, is linked and the text around it is
      kept, when the text holds no other whole-word occurrence of it. */
  lemma KeyInSentenceLinked(s: string, pre: string, k: string, post: string)
    requires s == pre + " " + k + " " + post
    requires |k| > 0 && IsWordChar(k[0]) && IsWordChar(k[|k| - 1])
    requires forall j :: 0 <= j <= |s| && j != |pre| + 1 ==> !MatchAt(s, k, j)
    ensures ReplaceKey(s, k) == pre + " " + Link(k) + " " + post
  {
    KeyInSentenceReplaced(s, pre, k, post, Link(k));
  }

  lemma KeyInSentenceReplaced(s: string, pre: string, k: string, post: string, link: string)
    requires s == pre + " " + k + " " + post
    requires |k| > 0 && IsWordChar(k[0]) && IsWordChar(k[|k| - 1])
    requires forall j :: 0 <= j <= |s| && j != |pre| + 1 ==> !MatchAt(s, k, j)
    ensures ReplaceFrom(s, k, link, 0) == pre + " " + link + " " + post
  {
    var at := |pre| + 1;
    SentenceParts(s, pre, k, post);
    ReplaceOneMatch(s, k, link, at);
    SpliceAround(pre, " ", link, post);
  }

  /** A text with exactly one whole-word occurrence of a non-empty key has that occurrence
      replaced and everything around it kept. */
  lemma ReplaceOneMatch(s: string, k: string, link: string, at: nat)
    requires |k| > 0 && MatchAt(s, k, at)
    requires forall j :: 0 <= j <= |s| && j != at ==> !MatchAt(s, k, j)
    ensures ReplaceFrom(s, k, link, 0) == s[..at] + link + s[at + |k|..]
  {
    var rest := ReplaceFrom(s, k, link, at + |k|);
    assert rest == s[at + |k|..] by {
      NoMatchUnchanged(s, k, link, at + |k|);
    }
    assert ReplaceFrom(s, k, link, 0) == s[..at] + (link + rest) by {
      MatchStep(s, k, link, at);
      PrefixCopied(s, k, link, 0, at);
      assert s[0..at] == s[..at];
    }
    Assoc(s[..at], link, rest);
  }

  /** A whole-word match of a non-empty key is replaced and the scan moves past it. */
  lemma MatchStep(s: string, k: string, link: string, i: nat)
    requires i <= |s| && |k| > 0 && MatchAt(s, k, i)
    ensures ReplaceFrom(s, k, link, i) == link + ReplaceFrom(s, k, link, i + |k|)
  {
  }

  /** A position without a match is copied. */
  lemma CopyStep(s: string, k: string, link: string, i: nat)
    requires i < |s| && !MatchAt(s, k, i)
    ensures ReplaceFrom(s, k, link, i) == [s[i]] + ReplaceFrom(s, k, link, i + 1)
  {
  }

  /** How a sentence `pre k post`, with spaces around the key, splits at the key. */
  lemma SentenceParts(s: string, pre: string, k: string, post: string)
    requires s == pre + " " + k + " " + post
    requires |k| > 0 && IsWordChar(k[0]) && IsWordChar(k[|k| - 1])
    ensures |pre| + 1 + |k| < |s|
    ensures s[0..|pre| + 1] == pre + " "
    ensures s[|pre| + 1 + |k|..] == " " + post
    ensures MatchAt(s, k, |pre| + 1)
  {
    var at := |pre| + 1;
    assert s[at..at + |k|] == k;
    OccursAtChars(s, k, at);
    assert s[at - 1] == ' ' && s[at + |k|] == ' ';
  }

  lemma SpliceAround(pre: string, sep: string, mid: string, post: string)
    ensures (pre + sep) + (mid + (sep + post)) == pre + sep + mid + sep + post
  {
  }

  /** Positions without a match are copied one by one. */
  lemma {:induction false} PrefixCopied(s: string, k: string, link: string, i: nat, j: nat)
    requires i <= j <= |s|
    requires forall m :: i <= m < j ==> !MatchAt(s, k, m)
    ensures ReplaceFrom(s, k, link, i) == s[i..j] + ReplaceFrom(s, k, link, j)
    decreases j - i
  {
    if i < j {
      PrefixCopied(s, k, link, i + 1, j);
      CopiedOneMore(s, k, link, i, j);
    }
  }

  lemma CopiedOneMore(s: string, k: string, link: string, i: nat, j: nat)
    requires i < j <= |s| && !MatchAt(s, k, i)
    requires ReplaceFrom(s, k, link, i + 1) == s[i + 1..j] + ReplaceFrom(s, k, link, j)
    ensures ReplaceFrom(s, k, link, i) == s[i..j] + ReplaceFrom(s, k, link, j)
  {
    CopyStep(s, k, link, i);
    assert s[i..j] == [s[i]] + s[i + 1..j];
    Assoc([s[i]], s[i + 1..j], ReplaceFrom(s, k, link, j));
  }

  lemma Assoc(a: string, b: string, c: string)
    ensures (a + b) + c == a + (b + c)
  {
  }

  // ---------------------------------------------------------------- every match of one key

  /** The places in `ps`, each `n` characters long, lie in order from `lo` on, do not overlap
      and end within `len`. */
  predicate Fits(ps: seq<nat>, n: nat, lo: nat, len: nat)
    decreases |ps|
  {
    |ps| == 0 || (lo <= ps[0] && ps[0] + n <= len && Fits(ps[1..], n, ps[0] + n, len))
  }

  /** Position `j` lies inside one of the places in `ps`. */
  predicate Covered(ps: seq<nat>, n: nat, j: nat)
    decreases |ps|
  {
    |ps| > 0 && ((ps[0] <= j < ps[0] + n) || Covered(ps[1..], n, j))
  }

  /** `ps` lists the whole-word matches of `k` the scan from `i` replaces: matches in order, not
      overlapping, from `i` on, such that every match from `i` on is one of them or starts
      inside one of them. */
  predicate ScanMatches(s: string, k: string, i: nat, ps: seq<nat>) {
    && Fits(ps, |k|, i, |s|)
    && (forall m :: 0 <= m < |ps| ==> MatchAt(s, k, ps[m]))
    && (forall j :: i <= j <= |s| && MatchAt(s, k, j) ==> Covered(ps, |k|, j))
  }

  /** A covered position lies at or after the start of the places. */
  lemma {:induction false} CoveredAbove(ps: seq<nat>, n: nat, lo: nat, len: nat, j: nat)
    requires Fits(ps, n, lo, len) && Covered(ps, n, j)
    ensures |ps| > 0 && lo <= ps[0] <= j
    decreases |ps|
  {
    if !(ps[0] <= j < ps[0] + n) {
      CoveredAbove(ps[1..], n, ps[0] + n, len, j);
    }
  }

  /** The text from `i` on with `link` put at each place of `ps` in place of the `n`
      characters there, and the text between those places copied. */
  function Spliced(s: string, n: nat, link: string, i: nat, ps: seq<nat>): string
    requires i <= |s| && Fits(ps, n, i, |s|)
    decreases |ps|
  {
    if |ps| == 0 then s[i..]
    else s[i..ps[0]] + link + Spliced(s, n, link, ps[0] + n, ps[1..])
  }

  /** The matches the scan from `i` takes, found left to right. */
  function ScanPositions(s: string, k: string, i: nat): (ps: seq<nat>)
    requires |k| > 0 && i <= |s|
    ensures Fits(ps, |k|, i, |s|)
    decreases |s| - i
  {
    if i == |s| then []
    else if MatchAt(s, k, i) then
      var rest := ScanPositions(s, k, i + |k|);
      assert ([i] + rest)[1..] == rest;
      [i] + rest
    else
      ScanPositions(s, k, i + 1)
  }

  /** The places the scan takes are exactly the whole-word matches it replaces. */
  lemma {:induction false} ScanPositionsMatch(s: string, k: string, i: nat)
    requires |k| > 0 && i <= |s|
    ensures ScanMatches(s, k, i, ScanPositions(s, k, i))
    decreases |s| - i
  {
    if i < |s| {
      if MatchAt(s, k, i) {
        ScanPositionsMatch(s, k, i + |k|);
        ScanMatchesCons(s, k, i, ScanPositions(s, k, i + |k|));
      } else {
        ScanPositionsMatch(s, k, i + 1);
        ScanMatchesSkip(s, k, i, ScanPositions(s, k, i + 1));
      }
    }
  }

  /** Only one list of places meets `ScanMatches`: the one the scan takes. */
  lemma {:induction false} ScanUnique(s: string, k: string, i: nat, ps: seq<nat>)
    requires |k| > 0 && i <= |s| && ScanMatches(s, k, i, ps)
    ensures ps == ScanPositions(s, k, i)
    decreases |s| - i
  {
    if i == |s| {
      UniqueAtEnd(s, k, ps);
    } else if MatchAt(s, k, i) {
      UniqueAtMatch(s, k, i, ps);
      ScanUnique(s, k, i + |k|, ps[1..]);
      assert ps == [i] + ps[1..];
    } else {
      UniqueAtSkip(s, k, i, ps);
      ScanUnique(s, k, i + 1, ps);
    }
  }

  lemma UniqueAtEnd(s: string, k: string, ps: seq<nat>)
    requires |k| > 0 && ScanMatches(s, k, |s|, ps)
    ensures ps == []
  {
  }

  lemma UniqueAtMatch(s: string, k: string, i: nat, ps: seq<nat>)
    requires |k| > 0 && i < |s| && MatchAt(s, k, i) && ScanMatches(s, k, i, ps)
    ensures |ps| > 0 && ps[0] == i && i + |k| <= |s|
    ensures ScanMatches(s, k, i + |k|, ps[1..])
  {
    assert Covered(ps, |k|, i);
    CoveredAbove(ps, |k|, i, |s|, i);
    ScanMatchesRest(s, k, i, ps);
  }

  lemma UniqueAtSkip(s: string, k: string, i: nat, ps: seq<nat>)
    requires |k| > 0 && i < |s| && !MatchAt(s, k, i) && ScanMatches(s, k, i, ps)
    ensures ScanMatches(s, k, i + 1, ps)
  {
    if |ps| > 0 {
      assert MatchAt(s, k, ps[0]);
      assert ps[0] != i;
    }
  }

  lemma ScanMatchesCons(s: string, k: string, i: nat, rest: seq<nat>)
    requires |k| > 0 && MatchAt(s, k, i) && ScanMatches(s, k, i + |k|, rest)
    ensures ScanMatches(s, k, i, [i] + rest)
  {
    var ps := [i] + rest;
    assert ps[1..] == rest;
    forall j | i <= j <= |s| && MatchAt(s, k, j)
      ensures Covered(ps, |k|, j)
    {
    }
  }

  lemma ScanMatchesSkip(s: string, k: string, i: nat, rest: seq<nat>)
    requires |k| > 0 && i < |s| && !MatchAt(s, k, i) && ScanMatches(s, k, i + 1, rest)
    ensures ScanMatches(s, k, i, rest)
  {
    if |rest| > 0 {
      assert i <= rest[0];
    }
  }

  /** The global replacement of one non-empty key copies the text between the matches the
      scan takes and puts the link in place of each of them. */
  lemma ReplaceAllMatches(s: string, k: string, link: string, i: nat, ps: seq<nat>)
    requires |k| > 0 && i <= |s|
    requires ScanMatches(s, k, i, ps)
    ensures ReplaceFrom(s, k, link, i) == Spliced(s, |k|, link, i, ps)
  {
    ScanUnique(s, k, i, ps);
    ReplaceScan(s, k, link, i);
  }

  lemma {:induction false} ReplaceScan(s: string, k: string, link: string, i: nat)
    requires |k| > 0 && i <= |s|
    ensures ReplaceFrom(s, k, link, i) == Spliced(s, |k|, link, i, ScanPositions(s, k, i))
    decreases |s| - i
  {
    if i == |s| {
      EndEmpty(s, k, link);
    } else {
      StepUnfolds(s, k, link, i);
      ScanStepSpliced(s, k, link, i);
      ReplaceScan(s, k, link, StepNext(s, k, i));
    }
  }

  /** The splice at the scan's places emits the scan's step and then the splice from where the
      scan moves. */
  lemma ScanStepSpliced(s: string, k: string, link: string, i: nat)
    requires |k| > 0 && i < |s|
    ensures StepNext(s, k, i) <= |s|
    ensures Spliced(s, |k|, link, i, ScanPositions(s, k, i))
         == StepOut(s, k, link, i) + Spliced(s, |k|, link, StepNext(s, k, i), ScanPositions(s, k, StepNext(s, k, i)))
  {
    if MatchAt(s, k, i) {
      var rest := ScanPositions(s, k, i + |k|);
      assert ScanPositions(s, k, i) == [i] + rest;
      SplicedMatch(s, |k|, link, i, rest);
    } else {
      SplicedSkip(s, |k|, link, i, ScanPositions(s, k, i + 1));
    }
  }

  /** A place right at the start puts the link first. */
  lemma SplicedMatch(s: string, n: nat, link: string, i: nat, rest: seq<nat>)
    requires i + n <= |s| && Fits(rest, n, i + n, |s|)
    ensures Fits([i] + rest, n, i, |s|)
    ensures Spliced(s, n, link, i, [i] + rest) == link + Spliced(s, n, link, i + n, rest)
  {
    var ps := [i] + rest;
    assert ps[1..] == rest;
    assert s[i..i] + link == link;
  }

  lemma ScanCopySpliced(s: string, k: string, link: string, i: nat)
    requires |k| > 0 && i < |s| && !MatchAt(s, k, i)
    requires ReplaceFrom(s, k, link, i + 1) == Spliced(s, |k|, link, i + 1, ScanPositions(s, k, i + 1))
    ensures ReplaceFrom(s, k, link, i) == Spliced(s, |k|, link, i, ScanPositions(s, k, i))
  {
    CopyStep(s, k, link, i);
    SplicedSkip(s, |k|, link, i, ScanPositions(s, k, i + 1));
  }

  /** A character before the first place is copied. */
  lemma SplicedSkip(s: string, n: nat, link: string, i: nat, ps: seq<nat>)
    requires i < |s| && Fits(ps, n, i + 1, |s|)
    ensures Fits(ps, n, i, |s|)
    ensures Spliced(s, n, link, i, ps) == [s[i]] + Spliced(s, n, link, i + 1, ps)
  {
    if |ps| == 0 {
      assert s[i..] == [s[i]] + s[i + 1..];
    } else {
      var a := s[i + 1..ps[0]];
      assert s[i..ps[0]] == [s[i]] + a;
      Assoc([s[i]], a, link);
      Assoc([s[i]], a + link, Spliced(s, n, link, ps[0] + n, ps[1..]));
    }
  }

  /** After the first place it takes, the scan takes the remaining places. */
  lemma ScanMatchesRest(s: string, k: string, i: nat, ps: seq<nat>)
    requires |ps| > 0 && ScanMatches(s, k, i, ps)
    ensures ScanMatches(s, k, ps[0] + |k|, ps[1..])
  {
    var rest := ps[1..];
    forall m | 0 <= m < |rest| ensures MatchAt(s, k, rest[m]) {
      assert rest[m] == ps[m + 1];
    }
  }

  /** Hence, for any text: the replacement of a non-empty key is the text spliced at the
      matches the scan finds. */
  lemma ReplaceKeySpliced(s: string, k: string)
    requires |k| > 0
    ensures ReplaceKey(s, k) == Spliced(s, |k|, Link(k), 0, ScanPositions(s, k, 0))
  {
    ReplaceScan(s, k, Link(k), 0);
  }

  // ---------------------------------------------------------------- several keys, word by word

  /** A non-empty run of word characters. */
  predicate IsWord(t: string) {
    |t| > 0 && forall i :: 0 <= i < |t| ==> IsWordChar(t[i])
  }

  /** A non-empty run of other characters. */
  predicate IsGap(t: string) {
    |t| > 0 && forall i :: 0 <= i < |t| ==> !IsWordChar(t[i])
  }

  /** A division of a text into words and gaps in which no two words are adjacent, so that
      every word is a whole word of the text. */
  predicate Tokens(ts: seq<string>) {
    && (forall m :: 0 <= m < |ts| ==> IsWord(ts[m]) || IsGap(ts[m]))
    && (forall m :: 0 < m < |ts| ==> !IsWord(ts[m - 1]) || !IsWord(ts[m]))
  }

  function Concat(ts: seq<string>): string {
    if |ts| == 0 then [] else ts[0] + Concat(ts[1..])
  }

  /** The length of the run at the start of `s` of characters that agree with the first on
      being word characters. */
  function RunLength(s: string): (n: nat)
    requires |s| > 0
    ensures 0 < n <= |s|
    ensures forall i :: 0 <= i < n ==> IsWordChar(s[i]) == IsWordChar(s[0])
    ensures n < |s| ==> IsWordChar(s[n]) != IsWordChar(s[0])
  {
    if |s| == 1 || IsWordChar(s[1]) != IsWordChar(s[0]) then 1
    else
      var n := 1 + RunLength(s[1..]);
      assert forall i :: 1 <= i < n ==> s[i] == s[1..][i - 1];
      n
  }

  /** The division of a text into its maximal runs of word and other characters. */
  function Tokenize(s: string): (ts: seq<string>)
    ensures Tokens(ts) && Concat(ts) == s
    ensures |s| == 0 ==> ts == []
    ensures |s| > 0 ==> |ts| > 0 && ts[0][0] == s[0]
    decreases |s|
  {
    if |s| == 0 then []
    else
      var n := RunLength(s);
      var rest := Tokenize(s[n..]);
      TokenizeCons(s, n, rest);
      [s[..n]] + rest
  }

  /** The first run put in front of the division of the rest divides the whole text. */
  lemma TokenizeCons(s: string, n: nat, rest: seq<string>)
    requires |s| > 0 && n == RunLength(s)
    requires Tokens(rest) && Concat(rest) == s[n..]
    requires n < |s| <==> |rest| > 0
    requires n < |s| ==> rest[0][0] == s[n]
    ensures Tokens([s[..n]] + rest) && Concat([s[..n]] + rest) == s
    ensures ([s[..n]] + rest)[0][0] == s[0]
  {
    var t := s[..n];
    FirstRunToken(s, n, rest);
    TokensAppend([t], rest);
    ConcatCons(t, rest);
    assert s == t + s[n..];
  }

  /** The first run is a word or a gap, and not a word next to a word. */
  lemma FirstRunToken(s: string, n: nat, rest: seq<string>)
    requires |s| > 0 && n == RunLength(s)
    requires |rest| > 0 ==> |rest[0]| > 0
    requires n < |s| <==> |rest| > 0
    requires n < |s| ==> rest[0][0] == s[n]
    ensures Tokens([s[..n]]) && s[..n][0] == s[0]
    ensures |rest| == 0 || !IsWord(s[..n]) || !IsWord(rest[0])
  {
    var t := s[..n];
    RunIsToken(s, n);
    assert [t][0] == t;
    if IsWordChar(s[0]) && |rest| > 0 {
      assert !IsWordChar(rest[0][0]);
    }
  }

  /** A run is a word when it starts with a word character and a gap otherwise. */
  lemma RunIsToken(s: string, n: nat)
    requires |s| > 0 && n == RunLength(s)
    ensures s[..n][0] == s[0]
    ensures IsWordChar(s[0]) ==> IsWord(s[..n])
    ensures !IsWordChar(s[0]) ==> IsGap(s[..n]) && !IsWord(s[..n])
  {
    var t := s[..n];
    assert forall i :: 0 <= i < |t| ==> t[i] == s[i];
  }

  /** The text of a division with every word that is one of `keys` replaced by its link. */
  function LinkWords(ts: seq<string>, keys: set<string>): string {
    if |ts| == 0 then []
    else (if ts[0] in keys then Link(ts[0]) else ts[0]) + LinkWords(ts[1..], keys)
  }

  /** The words a link consists of besides its key. */
  const LinkTextWords: set<string> := {"analyze", "prompt", "Describe", "20model"}

  /** A link divided into words and gaps. */
  function LinkTokens(k: string): seq<string> {
    ["[", k] + LinkMiddle + [k] + LinkTail
  }

  const LinkMiddle: seq<string> := ["](/", "analyze", "/"]
  const LinkTail: seq<string> := ["?", "prompt", "=", "Describe", "%", "20model", ")"]

  lemma {:induction false} ConcatAppend(a: seq<string>, b: seq<string>)
    ensures Concat(a + b) == Concat(a) + Concat(b)
  {
    if |a| > 0 {
      assert (a + b)[1..] == a[1..] + b;
      ConcatAppend(a[1..], b);
      Assoc(a[0], Concat(a[1..]), Concat(b));
    } else {
      assert a + b == b;
    }
  }

  /** `Concat` of a division with one more token in front. */
  lemma ConcatCons(t: string, ts: seq<string>)
    ensures Concat([t] + ts) == t + Concat(ts)
  {
    assert ([t] + ts)[1..] == ts;
  }

  lemma ConcatMiddle()
    ensures Concat(LinkMiddle) == "](/analyze/"
  {
    assert LinkMiddle == ["](/"] + (["analyze"] + (["/"] + []));
    ConcatCons("/", []);
    ConcatCons("analyze", ["/"]);
    ConcatCons("](/", ["analyze", "/"]);
  }

  lemma ConcatTail()
    ensures Concat(LinkTail) == "?prompt=Describe%20model)"
  {
    ConcatCons(")", []);
    ConcatCons("20model", [")"]);
    ConcatCons("%", ["20model", ")"]);
    ConcatCons("Describe", ["%", "20model", ")"]);
    ConcatTailHead();
  }

  lemma ConcatTailHead()
    requires Concat(["Describe", "%", "20model", ")"]) == "Describe%20model)"
    ensures Concat(LinkTail) == "?prompt=Describe%20model)"
  {
    ConcatCons("=", ["Describe", "%", "20model", ")"]);
    ConcatCons("prompt", ["=", "Describe", "%", "20model", ")"]);
    ConcatCons("?", ["prompt", "=", "Describe", "%", "20model", ")"]);
  }

  lemma LinkTokensText(k: string)
    ensures Concat(LinkTokens(k)) == Link(k)
  {
    LinkShape(k);
    LinkTokensConcat(k);
  }

  lemma LinkTokensConcat(k: string)
    ensures Concat(LinkTokens(k)) == "[" + k + "](/analyze/" + k + "?prompt=Describe%20model)"
  {
    var head: seq<string> := ["[", k];
    ConcatMiddle();
    ConcatTail();
    ConcatCons(k, []);
    ConcatCons("[", [k]);
    assert k + Concat([]) == k;
    ConcatAppend(head, LinkMiddle);
    ConcatAppend(head + LinkMiddle, [k]);
    ConcatAppend(head + LinkMiddle + [k], LinkTail);
  }

  lemma LinkTokensShape(k: string)
    requires IsWord(k)
    ensures Tokens(LinkTokens(k))
  {
    var head: seq<string> := ["[", k];
    LinkPartsShape();
    assert Tokens(head) by {
      var g := head[0];
      assert g == "[" && !IsWordChar(g[0]);
      GapNotWord(g);
    }
    assert Tokens([k]);
    TokensAppend(head, LinkMiddle);
    var hm := head + LinkMiddle;
    assert hm[|hm| - 1] == LinkMiddle[|LinkMiddle| - 1];
    TokensAppend(hm, [k]);
    TokensAppend(hm + [k], LinkTail);
  }

  /** The fixed parts of a link divide into words and gaps, beginning and ending with gaps. */
  lemma LinkPartsShape()
    ensures Tokens(LinkMiddle) && !IsWord(LinkMiddle[0]) && !IsWord(LinkMiddle[|LinkMiddle| - 1])
    ensures Tokens(LinkTail) && !IsWord(LinkTail[0]) && !IsWord(LinkTail[|LinkTail| - 1])
  {
    LinkMiddleShape();
    LinkTailShape();
  }

  lemma LinkMiddleShape()
    ensures Tokens(LinkMiddle) && !IsWord(LinkMiddle[0]) && !IsWord(LinkMiddle[|LinkMiddle| - 1])
  {
    assert IsWord("analyze");
    GapNotWord("](/");
    GapNotWord("/");
  }

  lemma LinkTailShape()
    ensures Tokens(LinkTail) && !IsWord(LinkTail[0]) && !IsWord(LinkTail[|LinkTail| - 1])
  {
    assert IsWord("prompt") && IsWord("Describe") && IsWord("20model");
    GapNotWord("?");
    GapNotWord("=");
    GapNotWord("%");
    GapNotWord(")");
  }

  /** A text whose first character is no word character is a gap when all its characters are
      such, and never a word. */
  lemma GapNotWord(g: string)
    requires |g| > 0 && forall i :: 0 <= i < |g| ==> !IsWordChar(g[i])
    ensures IsGap(g) && !IsWord(g)
  {
    assert !IsWordChar(g[0]);
  }

  /** Two divisions joined where at least one side is not a word form a division. */
  lemma TokensAppend(a: seq<string>, b: seq<string>)
    requires Tokens(a) && Tokens(b)
    requires |a| == 0 || |b| == 0 || !IsWord(a[|a| - 1]) || !IsWord(b[0])
    ensures Tokens(a + b)
  {
    var ab := a + b;
    forall m | 0 <= m < |ab| ensures IsWord(ab[m]) || IsGap(ab[m]) {
      if m < |a| {
        assert ab[m] == a[m];
      } else {
        assert ab[m] == b[m - |a|];
      }
    }
    forall m | 0 < m < |ab| ensures !IsWord(ab[m - 1]) || !IsWord(ab[m]) {
      if m < |a| {
        assert ab[m - 1] == a[m - 1] && ab[m] == a[m];
      } else if m == |a| {
        assert ab[m - 1] == a[|a| - 1] && ab[m] == b[0];
      } else {
        assert ab[m - 1] == b[m - 1 - |a|] && ab[m] == b[m - |a|];
      }
    }
  }

  lemma LinkTokensSpec(k: string)
    requires IsWord(k)
    ensures Tokens(LinkTokens(k)) && Concat(LinkTokens(k)) == Link(k)
    ensures forall m :: 0 <= m < |LinkTokens(k)| ==> LinkTokens(k)[m] == k || LinkTokens(k)[m] in LinkTextWords || IsGap(LinkTokens(k)[m])
  {
    LinkTokensShape(k);
    LinkTokensText(k);
    var ts := LinkTokens(k);
    assert ts == ["[", k, "](/", "analyze", "/", k, "?", "prompt", "=", "Describe", "%", "20model", ")"];
  }

  /** Two texts that do not join a word character to a word character. */
  predicate Junction(a: string, b: string) {
    a == [] || b == [] || !IsWordChar(a[|a| - 1]) || !IsWordChar(b[0])
  }

  /** Near a junction, a word key matches in the joined text where it matches in the left part. */
  lemma MatchLeft(a: string, b: string, k: string, i: nat)
    requires IsWord(k) && Junction(a, b) && i < |a|
    ensures MatchAt(a + b, k, i) <==> MatchAt(a, k, i)
  {
    var s := a + b;
    OccursAtChars(s, k, i);
    OccursAtChars(a, k, i);
    if i + |k| <= |a| {
      assert OccursAt(s, k, i) <==> OccursAt(a, k, i);
      if OccursAt(a, k, i) && i + |k| == |a| {
        assert a[|a| - 1] == k[|k| - 1];
      }
    } else {
      StraddleNoMatch(a, b, k, i);
    }
  }

  /** No occurrence of a word key straddles a junction. */
  lemma StraddleNoMatch(a: string, b: string, k: string, i: nat)
    requires IsWord(k) && Junction(a, b) && i < |a| < i + |k|
    ensures !OccursAt(a + b, k, i)
  {
    var s := a + b;
    OccursAtChars(s, k, i);
    var m := |a| - 1 - i;
    assert IsWordChar(k[m]) && IsWordChar(k[m + 1]);
    assert s[|a| - 1] == a[|a| - 1];
    if |b| > 0 {
      assert s[|a|] == b[0];
    }
  }

  /** Past a junction, a word key matches in the joined text where it matches in the right part. */
  lemma MatchRight(p: string, b: string, k: string, j: nat)
    requires IsWord(k) && Junction(p, b) && j <= |b|
    ensures MatchAt(p + b, k, |p| + j) <==> MatchAt(b, k, j)
  {
    var s := p + b;
    OccursAtChars(s, k, |p| + j);
    OccursAtChars(b, k, j);
    assert OccursAt(s, k, |p| + j) <==> OccursAt(b, k, j);
    if OccursAt(b, k, j) {
      assert b[j] == k[0];
      assert s[|p| + j + |k| - 1] == b[j + |k| - 1];
      if |p| + j > 0 {
        assert s[|p| + j - 1] == (if j > 0 then b[j - 1] else p[|p| - 1]);
      }
      if j + |k| < |b| {
        assert s[|p| + j + |k|] == b[j + |k|];
      }
    }
  }

  lemma {:induction false} ReplaceRight(p: string, b: string, k: string, link: string, j: nat)
    requires IsWord(k) && Junction(p, b) && j <= |b|
    ensures ReplaceFrom(p + b, k, link, |p| + j) == ReplaceFrom(b, k, link, j)
    decreases |b| - j
  {
    if j == |b| {
      RightEnd(p, b, k, link);
    } else {
      StepUnfolds(b, k, link, j);
      JoinedStep(p, b, k, link, j);
      ReplaceRight(p, b, k, link, StepNext(b, k, j));
    }
  }

  /** One step of the scan past a junction in the joined text is the step in the right part. */
  lemma JoinedStep(p: string, b: string, k: string, link: string, j: nat)
    requires IsWord(k) && Junction(p, b) && j < |b|
    ensures ReplaceFrom(p + b, k, link, |p| + j)
         == StepOut(b, k, link, j) + ReplaceFrom(p + b, k, link, |p| + StepNext(b, k, j))
  {
    StepUnfolds(p + b, k, link, |p| + j);
    StepShift(p, b, k, link, j);
  }

  lemma RightEnd(p: string, b: string, k: string, link: string)
    requires |k| > 0
    ensures ReplaceFrom(p + b, k, link, |p| + |b|) == ReplaceFrom(b, k, link, |b|)
  {
    EndEmpty(b, k, link);
    EndEmpty(p + b, k, link);
    assert |p| + |b| == |p + b|;
  }

  /** Where the scan of a non-empty key moves from a position before the end. */
  function StepNext(s: string, k: string, i: nat): nat {
    if MatchAt(s, k, i) then i + |k| else i + 1
  }

  /** What the scan of a non-empty key emits at a position before the end. */
  function StepOut(s: string, k: string, link: string, i: nat): string
    requires i < |s|
  {
    if MatchAt(s, k, i) then link else [s[i]]
  }

  /** The replacement of a non-empty key is one step followed by the rest. */
  lemma StepUnfolds(s: string, k: string, link: string, i: nat)
    requires |k| > 0 && i < |s|
    ensures i < StepNext(s, k, i) <= |s|
    ensures ReplaceFrom(s, k, link, i) == StepOut(s, k, link, i) + ReplaceFrom(s, k, link, StepNext(s, k, i))
  {
  }

  /** Past a junction, a step in the joined text is the step in the right part, shifted. */
  lemma StepShift(p: string, b: string, k: string, link: string, j: nat)
    requires IsWord(k) && Junction(p, b) && j < |b|
    ensures StepOut(p + b, k, link, |p| + j) == StepOut(b, k, link, j)
    ensures StepNext(p + b, k, |p| + j) == |p| + StepNext(b, k, j)
  {
    MatchRight(p, b, k, j);
    assert (p + b)[|p| + j] == b[j];
  }

  /** At the end of the text a non-empty key has nothing left to replace. */
  lemma EndEmpty(s: string, k: string, link: string)
    requires |k| > 0
    ensures ReplaceFrom(s, k, link, |s|) == []
  {
  }

  lemma {:induction false} ReplaceLeft(a: string, b: string, k: string, link: string, i: nat)
    requires IsWord(k) && Junction(a, b) && i <= |a|
    ensures ReplaceFrom(a + b, k, link, i) == ReplaceFrom(a, k, link, i) + ReplaceFrom(b, k, link, 0)
    decreases |a| - i
  {
    var tail := ReplaceFrom(b, k, link, 0);
    if i == |a| {
      ReplaceRight(a, b, k, link, 0);
      EndEmpty(a, k, link);
    } else {
      MatchLeft(a, b, k, i);
      if MatchAt(a, k, i) {
        MatchStep(a, k, link, i);
        MatchStep(a + b, k, link, i);
        ReplaceLeft(a, b, k, link, i + |k|);
        Assoc(link, ReplaceFrom(a, k, link, i + |k|), tail);
      } else {
        assert (a + b)[i] == a[i];
        CopyStep(a, k, link, i);
        CopyStep(a + b, k, link, i);
        ReplaceLeft(a, b, k, link, i + 1);
        Assoc([a[i]], ReplaceFrom(a, k, link, i + 1), tail);
      }
    }
  }

  /** Replacing a word key distributes over a junction that joins no two word characters. */
  lemma ReplaceSplits(a: string, b: string, k: string, link: string)
    requires IsWord(k) && Junction(a, b)
    ensures ReplaceFrom(a + b, k, link, 0) == ReplaceFrom(a, k, link, 0) + ReplaceFrom(b, k, link, 0)
  {
    ReplaceLeft(a, b, k, link, 0);
  }

  /** A gap, or a word other than the key, holds no whole-word match of a word key. */
  lemma TokenUntouched(t: string, k: string, link: string)
    requires IsWord(k) && (IsGap(t) || (IsWord(t) && t != k))
    ensures ReplaceFrom(t, k, link, 0) == t
  {
    forall j | 0 <= j <= |t|
      ensures !MatchAt(t, k, j)
    {
      OccursAtChars(t, k, j);
      if IsWord(t) && j == 0 && OccursAt(t, k, 0) && |k| < |t| {
        assert t[|k| - 1] == k[|k| - 1];
      } else if IsGap(t) && j < |t| {
        assert t[j] != k[0];
      } else if IsWord(t) && 0 < j < |t| {
        assert IsWordChar(t[j - 1]) && IsWordChar(t[j]);
      }
    }
    NoMatchUnchanged(t, k, link, 0);
    assert t[0..] == t;
  }

  /** The first character of a division whose first token is a gap. */
  lemma ConcatHead(ts: seq<string>)
    requires |ts| > 0 && |ts[0]| > 0
    ensures |Concat(ts)| > 0 && Concat(ts)[0] == ts[0][0]
  {
  }

  /** A division holding no token equal to a word key is left as it is. */
  lemma {:induction false} UntouchedTokens(ts: seq<string>, k: string)
    requires Tokens(ts) && IsWord(k)
    requires forall m :: 0 <= m < |ts| ==> ts[m] != k
    ensures ReplaceKey(Concat(ts), k) == Concat(ts)
  {
    if |ts| > 0 {
      var rest := Concat(ts[1..]);
      UntouchedTokens(ts[1..], k);
      if |ts| > 1 {
        ConcatHead(ts[1..]);
      }
      ReplaceSplits(ts[0], rest, k, Link(k));
      TokenUntouched(ts[0], k, Link(k));
    }
  }

  lemma LinkWordsHead(ts: seq<string>, keys: set<string>)
    requires |ts| > 0 && IsGap(ts[0])
    requires forall w :: w in keys ==> IsWord(w)
    ensures |LinkWords(ts, keys)| > 0 && LinkWords(ts, keys)[0] == ts[0][0]
  {
    assert !IsWord(ts[0]) by {
      assert !IsWordChar(ts[0][0]);
    }
  }

  /** One more key, not yet linked and no word of any link, links its own whole words and
      leaves everything else, links included, as it was. */
  lemma {:induction false} LinkOneMore(ts: seq<string>, keys: set<string>, k: string)
    requires Tokens(ts) && IsWord(k) && k !in keys && k !in LinkTextWords
    requires forall w :: w in keys ==> IsWord(w)
    ensures ReplaceKey(LinkWords(ts, keys), k) == LinkWords(ts, keys + {k})
  {
    if |ts| > 0 {
      LinkOneMore(ts[1..], keys, k);
      var a := HeadJunction(ts, keys);
      ReplaceSplits(a, LinkWords(ts[1..], keys), k, Link(k));
      LinkOneToken(ts[0], keys, k);
    }
  }

  /** The first token's output does not join a word to the output of the rest. */
  lemma HeadJunction(ts: seq<string>, keys: set<string>) returns (a: string)
    requires |ts| > 0 && Tokens(ts)
    requires forall w :: w in keys ==> IsWord(w)
    ensures a == (if ts[0] in keys then Link(ts[0]) else ts[0])
    ensures LinkWords(ts, keys) == a + LinkWords(ts[1..], keys)
    ensures Junction(a, LinkWords(ts[1..], keys))
  {
    var t := ts[0];
    a := if t in keys then Link(t) else t;
    if t in keys {
      assert a[|a| - 1] == ')';
    } else if IsWord(t) && |ts| > 1 {
      LinkWordsHead(ts[1..], keys);
    }
  }

  /** The new key's replacement on one token's output: a link of an earlier key and a token
      other than the key stay as they are, the key becomes its link. */
  lemma LinkOneToken(t: string, keys: set<string>, k: string)
    requires IsWord(t) || IsGap(t)
    requires IsWord(k) && k !in keys && k !in LinkTextWords
    requires forall w :: w in keys ==> IsWord(w)
    ensures ReplaceKey(if t in keys then Link(t) else t, k) == (if t in keys + {k} then Link(t) else t)
  {
    if t in keys {
      var ts := LinkTokens(t);
      LinkTokensSpec(t);
      forall m | 0 <= m < |ts| ensures ts[m] != k {
        if IsGap(ts[m]) {
          assert !IsWordChar(ts[m][0]);
        }
      }
      UntouchedTokens(ts, k);
    } else if t == k {
      WholeKeyLinked(k);
    } else {
      TokenUntouched(t, k, Link(k));
    }
  }

  lemma {:induction false} LinkNoKeys(ts: seq<string>, keys: set<string>)
    requires keys == {}
    ensures LinkWords(ts, keys) == Concat(ts)
  {
    if |ts| > 0 {
      LinkNoKeys(ts[1..], keys);
    }
  }

  lemma WordIsLiteral(k: string)
    requires IsWord(k)
    ensures LiteralKey(k)
  {
  }

  /** Keys applied one after another link every whole word of the text that is one of them,
      all at once: the text divided into words and gaps comes back with each word that is a key
      replaced by its link. This needs distinct keys that are words and none of which is a word
      of a link, so that no key occurs inside the link of another. */
  lemma {:induction false} LinkedWords(content: string, keys: seq<string>, ts: seq<string>)
    requires Tokens(ts) && Concat(ts) == content
    requires forall i :: 0 <= i < |keys| ==> IsWord(keys[i]) && keys[i] !in LinkTextWords
    requires forall i, j :: 0 <= i < j < |keys| ==> keys[i] != keys[j]
    ensures forall i :: 0 <= i < |keys| ==> LiteralKey(keys[i])
    ensures FormatBiomodelIds(content, keys) == LinkWords(ts, set w | w in keys)
    decreases |keys|
  {
    WordsAreLiteral(keys);
    if |keys| == 0 {
      LinkNoKeys(ts, set w | w in keys);
    } else {
      var init := keys[..|keys| - 1];
      InitKeys(keys, init);
      LinkedWords(content, init, ts);
      LinkedWordsStep(content, keys, init, ts);
    }
  }

  /** The earlier keys meet the conditions the keys meet. */
  lemma InitKeys(keys: seq<string>, init: seq<string>)
    requires |keys| > 0 && init == keys[..|keys| - 1]
    requires forall i :: 0 <= i < |keys| ==> IsWord(keys[i]) && keys[i] !in LinkTextWords
    requires forall i, j :: 0 <= i < j < |keys| ==> keys[i] != keys[j]
    ensures keys == init + [keys[|keys| - 1]]
    ensures forall i :: 0 <= i < |init| ==> IsWord(init[i]) && init[i] !in LinkTextWords
    ensures forall i, j :: 0 <= i < j < |init| ==> init[i] != init[j]
  {
  }

  /** The last key applied to the output of the earlier ones links its own words. */
  lemma LinkedWordsStep(content: string, keys: seq<string>, init: seq<string>, ts: seq<string>)
    requires Tokens(ts) && |keys| > 0 && keys == init + [keys[|keys| - 1]]
    requires forall i :: 0 <= i < |keys| ==> IsWord(keys[i]) && keys[i] !in LinkTextWords
    requires forall i, j :: 0 <= i < j < |keys| ==> keys[i] != keys[j]
    requires forall i :: 0 <= i < |keys| ==> LiteralKey(keys[i])
    requires forall i :: 0 <= i < |init| ==> LiteralKey(init[i])
    requires FormatBiomodelIds(content, init) == LinkWords(ts, set w | w in init)
    ensures FormatBiomodelIds(content, keys) == LinkWords(ts, set w | w in keys)
  {
    var k := keys[|keys| - 1];
    assert keys[..|keys| - 1] == init;
    var before := set w | w in init;
    KeySetGrows(keys, init, k, before);
    LinkOneMore(ts, before, k);
  }

  lemma WordsAreLiteral(keys: seq<string>)
    requires forall i :: 0 <= i < |keys| ==> IsWord(keys[i])
    ensures forall i :: 0 <= i < |keys| ==> LiteralKey(keys[i])
  {
    forall i | 0 <= i < |keys| ensures LiteralKey(keys[i]) {
      WordIsLiteral(keys[i]);
    }
  }

  /** The set of distinct keys grows by the last key, which is not among the earlier ones. */
  lemma KeySetGrows(keys: seq<string>, init: seq<string>, k: string, before: set<string>)
    requires keys == init + [k] && before == (set w | w in init)
    requires forall i :: 0 <= i < |keys| ==> IsWord(keys[i])
    requires forall i, j :: 0 <= i < j < |keys| ==> keys[i] != keys[j]
    ensures k !in before
    ensures (set w | w in keys) == before + {k}
    ensures forall v :: v in before ==> IsWord(v)
  {
    assert keys[|keys| - 1] == k;
    forall v | v in before ensures IsWord(v) && v != k {
      var i :| 0 <= i < |init| && init[i] == v;
      assert keys[i] == v;
    }
  }

  /** The same for a text's division into maximal runs, which every text has. */
  lemma FormatLinksWords(content: string, keys: seq<string>)
    requires forall i :: 0 <= i < |keys| ==> IsWord(keys[i]) && keys[i] !in LinkTextWords
    requires forall i, j :: 0 <= i < j < |keys| ==> keys[i] != keys[j]
    ensures forall i :: 0 <= i < |keys| ==> LiteralKey(keys[i])
    ensures FormatBiomodelIds(content, keys) == LinkWords(Tokenize(content), set w | w in keys)
  {
    LinkedWords(content, keys, Tokenize(content));
  }

  // ---------------------------------------------------------------- sending a message

  datatype Role = UserRole | AssistantRole

  datatype ChatMessage = ChatMessage(role: Role, content: string)

  /** What the backend call yields: the decoded body's `response` and `bmkeys` fields (absent as
      `None`), or a failure of the request or of decoding. */
  datatype Backend = Answered(response: Option<string>, bmkeys: Option<seq<string>>) | Failed

  const NoResponse: string := "Sorry, I didn't get a response from the server."
  const ConnectionError: string := "There was an error connecting to the backend. Please try again."

  /** The prompt sent: the prefix and the message separated by a space, when there is a prefix. */
  function FinalPrompt(prefix: Option<string>, msg: string): (p: string)
    ensures prefix.None? || prefix == Some([]) ==> p == msg
    ensures prefix.Some? && prefix.value != [] ==> EndsWith(p, " " + msg) && StartsWith(p, prefix.value)
  {
    if prefix.Some? && prefix.value != [] then prefix.value + " " + msg else msg
  }

  /** The query URL of a prompt. */
  function QueryUrl(api: string, prompt: string): string {
    api + "/query?user_prompt=" + EncodeUriComponent(prompt)
  }

  /** The outcome of a send: the new message list and the URL requested, if any. */
  datatype Sent = Sent(messages: seq<ChatMessage>, requested: Option<string>)

  /** The assistant message for a backend outcome. */
  function AssistantText(outcome: Backend): (text: string)
    requires outcome.Answered? && outcome.bmkeys.Some? ==> forall i :: 0 <= i < |outcome.bmkeys.value| ==> LiteralKey(outcome.bmkeys.value[i])
    ensures outcome.Failed? ==> text == ConnectionError
    ensures outcome.Answered? && outcome.bmkeys.None? ==>
              text == (if outcome.response.None? || outcome.response == Some([]) then NoResponse else outcome.response.value)
  {
    match outcome
    case Failed => ConnectionError
    case Answered(response, bmkeys) =>
      var text := if response.Some? && response.value != [] then response.value else NoResponse;
      FormatBiomodelIds(text, bmkeys.GetOr([]))
  }

  /** `handleSendMessage`, given what the backend answers to the request: a blank message
      changes nothing and sends nothing; otherwise the user's message is appended, the prompt is
      requested, and exactly one assistant message follows. */
  function HandleSendMessage(messages: seq<ChatMessage>, msg: string, prefix: Option<string>,
                             api: string, outcome: Backend): (r: Sent)
    requires outcome.Answered? && outcome.bmkeys.Some? ==> forall i :: 0 <= i < |outcome.bmkeys.value| ==> LiteralKey(outcome.bmkeys.value[i])
    ensures Trim(msg) == [] ==> r == Sent(messages, None)
    ensures Trim(msg) != [] ==> r.requested == Some(QueryUrl(api, FinalPrompt(prefix, msg)))
    ensures Trim(msg) != [] ==> r.messages == messages + [ChatMessage(UserRole, msg), ChatMessage(AssistantRole, AssistantText(outcome))]
  {
    if Trim(msg) == [] then Sent(messages, None)
    else
      var url := QueryUrl(api, FinalPrompt(prefix, msg));
      Sent(messages + [ChatMessage(UserRole, msg), ChatMessage(AssistantRole, AssistantText(outcome))], Some(url))
  }

  /** A send that fails to reach the backend still ends with one assistant message: the
      connection error, after the user's own message. */
  lemma FailedSendExplains(messages: seq<ChatMessage>, msg: string, prefix: Option<string>, api: string)
    requires Trim(msg) != []
    ensures var r := HandleSendMessage(messages, msg, prefix, api, Failed);
            |r.messages| == |messages| + 2 && r.messages[..|messages|] == messages &&
            r.messages[|messages|] == ChatMessage(UserRole, msg) &&
            r.messages[|messages| + 1] == ChatMessage(AssistantRole, ConnectionError)
  {
    var r := HandleSendMessage(messages, msg, prefix, api, Failed);
    assert r.messages[..|messages|] == messages;
  }
}
