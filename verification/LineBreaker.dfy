/** Breaking help text into lines of a limited width (arg.cpp, break_str_into_lines). */
module LineBreaker {
  import opened Prelude

  // ----- Reading lines and words, as the standard streams do -----

  function UpToNewline(s: string): (n: nat)
    ensures n <= |s| && '\n' !in s[..n] && (n < |s| ==> s[n] == '\n')
  {
    if s == "" || s[0] == '\n' then 0
    else
      var n := UpToNewline(s[1..]);
      assert s[..1 + n] == [s[0]] + s[1..][..n];
      1 + n
  }

  /** The lines of a text; a final newline starts no line of its own. */
  function Lines(s: string): seq<string>
    decreases |s|
  {
    if s == "" then []
    else
      var n := UpToNewline(s);
      if n == |s| then [s] else [s[..n]] + Lines(s[n + 1..])
  }

  function WordLength(s: string): (n: nat)
    ensures n <= |s| && IsWordText(s[..n]) && (n < |s| ==> IsSpace(s[n]))
  {
    if s == "" || IsSpace(s[0]) then 0
    else
      var n := WordLength(s[1..]);
      assert s[..1 + n] == [s[0]] + s[1..][..n];
      1 + n
  }

  predicate IsWordText(s: string) {
    forall i :: 0 <= i < |s| ==> !IsSpace(s[i])
  }

  predicate IsWord(s: string) {
    s != "" && IsWordText(s)
  }

  function Words(s: string): (ws: seq<string>)
    ensures forall k :: 0 <= k < |ws| ==> IsWord(ws[k])
    decreases |s|
  {
    if s == "" then []
    else if IsSpace(s[0]) then Words(s[1..])
    else
      var n := WordLength(s);
      [s[..n]] + Words(s[n..])
  }

  // ----- Groups of words -----

  function Join(words: seq<string>): string {
    if words == [] then ""
    else if |words| == 1 then words[0]
    else words[0] + " " + Join(words[1..])
  }

  function JoinAll(groups: seq<seq<string>>): (r: seq<string>)
    ensures |r| == |groups|
    ensures forall k :: 0 <= k < |r| ==> r[k] == Join(groups[k])
  {
    if groups == [] then [] else [Join(groups[0])] + JoinAll(groups[1..])
  }

  function Flat(groups: seq<seq<string>>): seq<string> {
    if groups == [] then [] else groups[0] + Flat(groups[1..])
  }

  /** A line that may be written: within the width, or one word that is too long for any line. */
  predicate Fits(words: seq<string>, width: nat) {
    |words| <= 1 || |Join(words)| <= width
  }

  /** How many words the first line takes: the longest start that fits. */
  function FitCount(words: seq<string>, width: nat): (k: nat)
    ensures k <= |words| && Fits(words[..k], width)
    ensures words != [] ==> k > 0
  {
    if Fits(words, width) then assert words[..|words|] == words; |words|
    else
      var k := FitCount(words[..|words| - 1], width);
      assert words[..|words| - 1][..k] == words[..k];
      k
  }

  /** Each line as full as it can be. */
  function Fill(words: seq<string>, width: nat): seq<seq<string>>
    decreases |words|
  {
    if words == [] then []
    else
      var k := FitCount(words, width);
      [words[..k]] + Fill(words[k..], width)
  }

  // ----- The code -----

  function BrokenLine(l: string, width: nat): seq<string> {
    if |l| <= width then [l] else JoinAll(Fill(Words(l), width))
  }

  function BrokenLines(lines: seq<string>, width: nat): seq<string> {
    if lines == [] then [] else BrokenLine(lines[0], width) + BrokenLines(lines[1..], width)
  }

  lemma {:induction false} JoinSnoc(words: seq<string>, w: string)
    ensures Join(words + [w]) == if words == [] then w else Join(words) + " " + w
  {
    if words == [] {
      assert words + [w] == [w];
    } else {
      assert (words + [w])[1..] == words[1..] + [w];
      JoinSnoc(words[1..], w);
      if |words| == 1 {
        assert words[1..] == [];
      }
    }
  }

  lemma {:induction false} JoinNonEmpty(words: seq<string>)
    requires words != [] && words[0] != ""
    ensures Join(words) != ""
  {}

  /** Dropping words from either end keeps a line within the width. */
  lemma {:induction false} JoinShrinks(words: seq<string>, a: nat, b: nat)
    requires a <= b <= |words|
    ensures |Join(words[a..b])| <= |Join(words)|
    decreases |words|
  {
    if b < |words| {
      var shorter := words[..|words| - 1];
      JoinSnoc(shorter, words[|words| - 1]);
      assert words == shorter + [words[|words| - 1]];
      JoinShrinks(shorter, a, b);
      assert shorter[a..b] == words[a..b];
    } else if a > 0 {
      JoinShrinks(words[1..], a - 1, b - 1);
      assert words[1..][a - 1..b - 1] == words[a..b];
    } else {
      assert words[a..b] == words;
    }
  }

  lemma {:induction false} FitCountIs(words: seq<string>, width: nat, k: nat)
    requires 0 < k <= |words| && Fits(words[..k], width)
    requires k < |words| ==> !Fits(words[..k + 1], width)
    ensures FitCount(words, width) == k
  {
    var n := FitCount(words, width);
    if n > k {
      assert words[..n][0..k + 1] == words[..k + 1];
      JoinShrinks(words[..n], 0, k + 1);
    } else if n < k {
      FitCountIsLargest(words, width, k);
    }
  }

  lemma {:induction false} FitCountIsLargest(words: seq<string>, width: nat, k: nat)
    requires k <= |words| && Fits(words[..k], width)
    ensures k <= FitCount(words, width)
  {
    if k < |words| {
      assert words[..|words| - 1][..k] == words[..k];
      FitCountIsLargest(words[..|words| - 1], width, k);
    } else {
      assert words[..k] == words;
    }
  }

  lemma NextWord(words: seq<string>, start: nat, i: nat, width: nat)
    requires start <= i < |words| && forall k :: 0 <= k < |words| ==> IsWord(words[k])
    ensures var here, next := Join(words[start..i]), Join(words[start..i + 1]);
      && next == (if start == i then words[i] else here + " " + words[i])
      && next != "" && (here == "" <==> start == i)
      && (Fits(words[start..i + 1], width) <==> start == i || |next| <= width)
  {
    assert words[start..i + 1] == words[start..i] + [words[i]];
    JoinSnoc(words[start..i], words[i]);
    if start < i {
      JoinNonEmpty(words[start..i]);
    }
  }

  lemma SingleWord(word: string, width: nat)
    ensures Join([word]) == word && Fits([word], width)
  {}

  lemma {:induction false} NothingFilled(words: seq<string>, width: nat)
    ensures words[0..0] == [] && words[0..] == words
    ensures Join([]) == "" && Fits([], width) && JoinAll([]) == [] && Fill([], width) == []
  {}

  /** The first line of what is left is complete. */
  lemma {:induction false} CloseLine(words: seq<string>, start: nat, end: nat, width: nat, groups: seq<seq<string>>)
    requires start < end <= |words| && Fits(words[start..end], width)
    requires end < |words| ==> !Fits(words[start..end + 1], width)
    requires Fill(words, width) == groups + Fill(words[start..], width)
    ensures Fill(words, width) == groups + [words[start..end]] + Fill(words[end..], width)
    ensures JoinAll(groups + [words[start..end]]) == JoinAll(groups) + [Join(words[start..end])]
  {
    hide Fits, Join;
    var rest := words[start..];
    assert rest[..end - start] == words[start..end] && rest[end - start..] == words[end..];
    if end < |words| {
      assert rest[..end - start + 1] == words[start..end + 1];
    }
    FitCountIs(rest, width, end - start);
    UnfoldFill(rest, width);
  }

  lemma {:induction false} UnfoldFill(words: seq<string>, width: nat)
    requires words != []
    ensures var k := FitCount(words, width); Fill(words, width) == [words[..k]] + Fill(words[k..], width)
  {}

  method AddLine(l: string, maxCharPerLine: nat, before: seq<string>) returns (result: seq<string>)
    ensures result == before + BrokenLine(l, maxCharPerLine)
  {
    hide Fill, Fits, Join, JoinAll, Words, FitCount, IsWordText;
    result := before;
    if |l| <= maxCharPerLine {
      result := result + [l];
    } else {
      var words := Words(l);
      var currentLine := "";
      ghost var start, groups := 0, [];
      NothingFilled(words, maxCharPerLine);
      for i := 0 to |words|
        invariant 0 <= start <= i && (start == i ==> i == 0)
        invariant currentLine == Join(words[start..i]) && Fits(words[start..i], maxCharPerLine)
        invariant currentLine == "" <==> start == i
        invariant result == before + JoinAll(groups)
        invariant Fill(words, maxCharPerLine) == groups + Fill(words[start..], maxCharPerLine)
      {
        var word := words[i];
        NextWord(words, start, i, maxCharPerLine);
        if |currentLine| + (if currentLine != "" then 1 else 0) + |word| > maxCharPerLine {
          if currentLine != "" {
            CloseLine(words, start, i, maxCharPerLine, groups);
            result := result + [currentLine];
            groups := groups + [words[start..i]];
          }
          currentLine := word;
          start := i;
          SingleWord(word, maxCharPerLine);
          assert words[i..i + 1] == [word];
        } else {
          currentLine := currentLine + (if currentLine != "" then " " else "") + word;
        }
      }
      if currentLine != "" {
        CloseLine(words, start, |words|, maxCharPerLine, groups);
        result := result + [currentLine];
        groups := groups + [words[start..|words|]];
      }
      assert words[|words|..] == [];
    }
  }

  lemma {:induction false} NextLine(lines: seq<string>, width: nat, i: nat)
    requires i < |lines|
    ensures BrokenLines(lines[i..], width) == BrokenLine(lines[i], width) + BrokenLines(lines[i + 1..], width)
  {
    hide BrokenLine;
    assert lines[i..][0] == lines[i] && lines[i..][1..] == lines[i + 1..];
  }

  lemma Reassociate(a: seq<string>, b: seq<string>, c: seq<string>)
    ensures a + (b + c) == (a + b) + c
  {}

  lemma {:induction false} NoLines(width: nat)
    ensures BrokenLines([], width) == [] && forall s: seq<string> :: [] + s == s && s + [] == s
  {}

  method BreakStrIntoLines(input: string, maxCharPerLine: nat) returns (result: seq<string>)
    ensures result == BrokenLines(Lines(input), maxCharPerLine)
  {
    hide BrokenLine, BrokenLines, Lines;
    result := [];
    var lines := Lines(input);
    assert lines[0..] == lines;
    NoLines(maxCharPerLine);
    for i := 0 to |lines|
      invariant BrokenLines(lines, maxCharPerLine) == result + BrokenLines(lines[i..], maxCharPerLine)
    {
      NextLine(lines, maxCharPerLine, i);
      ghost var before := result;
      result := AddLine(lines[i], maxCharPerLine, result);
      Reassociate(before, BrokenLine(lines[i], maxCharPerLine), BrokenLines(lines[i + 1..], maxCharPerLine));
    }
    assert lines[|lines|..] == [];
  }

  // ----- The fewest lines -----

  /** A way to put the words on lines, in order. */
  ghost predicate IsLayout(words: seq<string>, width: nat, groups: seq<seq<string>>) {
    && Flat(groups) == words
    && forall k :: 0 <= k < |groups| ==> groups[k] != [] && Fits(groups[k], width)
  }

  lemma {:induction false} FillIsLayout(words: seq<string>, width: nat)
    ensures IsLayout(words, width, Fill(words, width))
    decreases |words|
  {
    hide Fits, FitCount;
    if words != [] {
      var k := FitCount(words, width);
      FillIsLayout(words[k..], width);
      UnfoldFill(words, width);
      assert words == words[..k] + words[k..];
    }
  }

  /** The greedy layout of a rest of the words is no longer than any layout of all of them. */
  lemma {:induction false} GreedyStaysAhead(words: seq<string>, width: nat, groups: seq<seq<string>>, d: nat)
    requires IsLayout(words, width, groups) && d <= |words|
    ensures |Fill(words[d..], width)| <= |groups|
    decreases |groups|
  {
    hide Fits, FitCount;
    if d < |words| {
      var first := groups[0];
      var others := words[|first|..];
      assert first <= words && others == Flat(groups[1..]);
      if d >= |first| {
        assert words[d..] == others[d - |first|..];
        GreedyStaysAhead(others, width, groups[1..], d - |first|);
      } else {
        var rest := words[d..];
        UnfoldFill(rest, width);
        var k := FitCount(rest, width);
        assert rest[..|first| - d] == first[d..];
        FitsRest(first, width, d);
        FitCountIsLargest(rest, width, |first| - d);
        assert rest[k..] == others[d + k - |first|..];
        GreedyStaysAhead(others, width, groups[1..], d + k - |first|);
      }
    }
  }

  lemma FitsRest(words: seq<string>, width: nat, d: nat)
    requires d < |words| && Fits(words, width)
    ensures Fits(words[d..], width)
  {
    JoinShrinks(words, d, |words|);
    assert words[d..|words|] == words[d..];
  }

  /** No layout of the words of a line uses fewer lines; words too long for any line included. */
  lemma {:induction false} FewestLines(words: seq<string>, width: nat, groups: seq<seq<string>>)
    requires IsLayout(words, width, groups)
    ensures |Fill(words, width)| <= |groups|
  {
    GreedyStaysAhead(words, width, groups, 0);
    assert words[0..] == words;
  }

  // ----- No word is lost -----

  function AllWords(lines: seq<string>): seq<string> {
    if lines == [] then [] else Words(lines[0]) + AllWords(lines[1..])
  }

  /** A text can be cut where a space begins. */
  lemma {:induction false} WordsConcat(a: string, b: string)
    requires b == "" || IsSpace(b[0])
    ensures Words(a + b) == Words(a) + Words(b)
    decreases |a|
  {
    if a == "" {
      assert a + b == b;
    } else if IsSpace(a[0]) {
      assert (a + b)[1..] == a[1..] + b;
      WordsConcat(a[1..], b);
    } else {
      var n := WordLength(a);
      assert (a + b)[..n] == a[..n] && (a + b)[n..] == a[n..] + b;
      WordLengthIs(a + b, n);
      hide WordLength, IsWordText;
      WordsConcat(a[n..], b);
    }
  }

  lemma {:induction false} WordLengthIs(s: string, n: nat)
    requires n <= |s| && IsWordText(s[..n]) && (n < |s| ==> IsSpace(s[n]))
    ensures WordLength(s) == n
  {
    if n > 0 {
      assert s[..n][0] == s[0] && s[1..][..n - 1] == s[..n][1..];
      WordLengthIs(s[1..], n - 1);
    }
  }

  lemma {:induction false} WordsOfWord(w: string)
    requires IsWord(w)
    ensures Words(w) == [w]
  {
    WordLengthIs(w, |w|);
    assert w[..|w|] == w && w[|w|..] == "";
  }

  /** Reading a joined line gives its words. */
  lemma {:induction false} WordsOfJoin(words: seq<string>)
    requires forall k :: 0 <= k < |words| ==> IsWord(words[k])
    ensures Words(Join(words)) == words
  {
    if |words| == 1 {
      WordsOfWord(words[0]);
    } else if words != [] {
      var rest := Join(words[1..]);
      assert Join(words) == words[0] + (" " + rest);
      WordsConcat(words[0], " " + rest);
      WordsOfWord(words[0]);
      WordsAfterSpace(' ', rest);
      WordsOfJoin(words[1..]);
    }
  }

  lemma {:induction false} WordsAfterSpace(c: char, s: string)
    requires IsSpace(c)
    ensures Words([c] + s) == Words(s)
  {
    assert ([c] + s)[1..] == s;
  }

  lemma {:induction false} AllWordsOfGroups(groups: seq<seq<string>>)
    requires forall w :: w in Flat(groups) ==> IsWord(w)
    ensures AllWords(JoinAll(groups)) == Flat(groups)
  {
    if groups != [] {
      assert forall k :: 0 <= k < |groups[0]| ==> groups[0][k] in Flat(groups);
      WordsOfJoin(groups[0]);
      assert JoinAll(groups)[1..] == JoinAll(groups[1..]);
      AllWordsOfGroups(groups[1..]);
    }
  }

  lemma {:induction false} AllWordsConcat(a: seq<string>, b: seq<string>)
    ensures AllWords(a + b) == AllWords(a) + AllWords(b)
  {
    if a == [] {
      assert a + b == b;
    } else {
      assert (a + b)[1..] == a[1..] + b;
      AllWordsConcat(a[1..], b);
    }
  }

  lemma {:induction false} BrokenLineKeepsWords(l: string, width: nat)
    ensures AllWords(BrokenLine(l, width)) == Words(l)
  {
    if |l| <= width {
      assert [l][1..] == [];
    } else {
      FillIsLayout(Words(l), width);
      AllWordsOfGroups(Fill(Words(l), width));
    }
  }

  lemma {:induction false} BrokenLinesKeepWords(lines: seq<string>, width: nat)
    ensures AllWords(BrokenLines(lines, width)) == AllWords(lines)
  {
    if lines != [] {
      BrokenLineKeepsWords(lines[0], width);
      BrokenLinesKeepWords(lines[1..], width);
      AllWordsConcat(BrokenLine(lines[0], width), BrokenLines(lines[1..], width));
    }
  }

  lemma {:induction false} WordsOfLines(input: string)
    ensures AllWords(Lines(input)) == Words(input)
    decreases |input|
  {
    if input != "" {
      var n := UpToNewline(input);
      if n == |input| {
        assert [input][1..] == [];
      } else {
        var rest := input[n + 1..];
        assert input == input[..n] + (['\n'] + rest);
        WordsConcat(input[..n], ['\n'] + rest);
        WordsAfterSpace('\n', rest);
        WordsOfLines(rest);
      }
    }
  }

  /** The words of the output are those of the input, in order. */
  lemma {:induction false} WordsAreKept(input: string, width: nat)
    ensures AllWords(BrokenLines(Lines(input), width)) == Words(input)
  {
    BrokenLinesKeepWords(Lines(input), width);
    WordsOfLines(input);
  }

  /** A line wider than allowed is a single word. */
  lemma {:induction false} WidthIsKept(lines: seq<string>, width: nat, k: nat)
    requires k < |BrokenLines(lines, width)|
    ensures var l := BrokenLines(lines, width)[k]; |l| <= width || Words(l) == [l]
  {
    var first := BrokenLine(lines[0], width);
    if k >= |first| {
      WidthIsKept(lines[1..], width, k - |first|);
    } else if |lines[0]| > width {
      var words := Words(lines[0]);
      FillIsLayout(words, width);
      var g := Fill(words, width)[k];
      GroupIsPart(Fill(words, width), k);
      if |g| == 1 {
        assert g[0] in Flat(Fill(words, width));
        WordsOfWord(g[0]);
      }
    }
  }

  lemma {:induction false} GroupIsPart(groups: seq<seq<string>>, k: nat)
    requires k < |groups|
    ensures forall w :: w in groups[k] ==> w in Flat(groups)
  {
    if k > 0 {
      GroupIsPart(groups[1..], k - 1);
    }
  }

  // ----- What stays as it is -----

  /** The lines hold the text without its newlines; only a final newline leaves no trace. */
  function WithNewlines(lines: seq<string>): string {
    if lines == [] then "" else lines[0] + "\n" + WithNewlines(lines[1..])
  }

  lemma {:induction false} LinesAre(s: string)
    ensures forall k :: 0 <= k < |Lines(s)| ==> '\n' !in Lines(s)[k]
    ensures WithNewlines(Lines(s)) == if s == "" || s[|s| - 1] == '\n' then s else s + "\n"
    decreases |s|
  {
    hide UpToNewline;
    if s != "" {
      var n := UpToNewline(s);
      if n == |s| {
        assert s[..n] == s && [s][1..] == [];
      } else {
        var line, rest := s[..n], s[n + 1..];
        LinesAre(rest);
        var tail := Lines(rest);
        assert Lines(s) == [line] + tail && ([line] + tail)[1..] == tail;
        hide Lines, WithNewlines;
        FirstLine(s, line, rest, tail);
      }
    }
  }

  lemma {:induction false} FirstLine(s: string, line: string, rest: string, tail: seq<string>)
    requires s == line + "\n" + rest
    ensures WithNewlines([line] + tail) == line + "\n" + WithNewlines(tail)
    ensures rest == "" ==> s[|s| - 1] == '\n' && line + "\n" + rest == s
    ensures rest != "" ==> s[|s| - 1] == rest[|rest| - 1] && line + "\n" + (rest + "\n") == s + "\n"
  {
    assert ([line] + tail)[1..] == tail;
  }

  /** A text whose lines all fit is broken at its own newlines alone, spaces included. */
  lemma {:induction false} ShortLinesStay(lines: seq<string>, width: nat)
    requires forall k :: 0 <= k < |lines| ==> |lines[k]| <= width
    ensures BrokenLines(lines, width) == lines
  {
    if lines != [] {
      ShortLinesStay(lines[1..], width);
    }
  }

  /** One line among others: as it is when it fits, and otherwise its words on lines. */
  lemma {:induction false} LineBecomes(before: seq<string>, l: string, after: seq<string>, width: nat)
    ensures BrokenLines(before + [l] + after, width) ==
      BrokenLines(before, width) + (if |l| <= width then [l] else JoinAll(Fill(Words(l), width)))
      + BrokenLines(after, width)
  {
    if before == [] {
      assert ([l] + after)[1..] == after;
      assert [] + [l] + after == [l] + after;
    } else {
      assert (before + [l] + after)[1..] == before[1..] + [l] + after;
      LineBecomes(before[1..], l, after, width);
    }
  }

  /** Each line is full: the first word of the next would not fit on it. */
  lemma {:induction false} LinesAreFull(words: seq<string>, width: nat, k: nat)
    requires k + 1 < |Fill(words, width)|
    ensures var groups := Fill(words, width);
      groups[k] != [] && groups[k + 1] != [] && |Join(groups[k] + [groups[k + 1][0]])| > width
    decreases |words|
  {
    hide Join;
    var n := FitCount(words, width);
    var rest := words[n..];
    UnfoldFill(words, width);
    if k == 0 {
      UnfoldFill(rest, width);
      var next := Fill(rest, width)[0];
      assert next[0] == rest[0] == words[n];
      assert words[..n + 1] == words[..n] + [words[n]];
      if Fits(words[..n + 1], width) {
        FitCountIsLargest(words, width, n + 1);
      }
    } else {
      LinesAreFull(rest, width, k - 1);
    }
  }
}
