/**
 Marker segmentation (chat-auto-parser-helpers.cpp, segmentize_markers): a text is lexed
 into markers `<...>` and `[...]` and the text between them.
 */
module Segments {

  datatype Kind = TextSegment | Marker

  datatype Segment = Segment(kind: Kind, value: string)

  predicate IsOpener(c: char) {
    c == '<' || c == '['
  }

  predicate IsCloser(opener: char, c: char) {
    (opener == '<' && c == '>') || (opener == '[' && c == ']')
  }

  /** Index of the first opener, or the length. */
  function FirstOpener(s: string): (k: nat)
    ensures k <= |s| && (forall i :: 0 <= i < k ==> !IsOpener(s[i])) && (k < |s| ==> IsOpener(s[k]))
  {
    if s == "" || IsOpener(s[0]) then 0 else 1 + FirstOpener(s[1..])
  }

  /** Index of the first closer of `opener`, or the length. */
  function FirstCloser(opener: char, s: string): (k: nat)
    ensures k <= |s| && (forall i :: 0 <= i < k ==> !IsCloser(opener, s[i])) && (k < |s| ==> IsCloser(opener, s[k]))
  {
    if s == "" || IsCloser(opener, s[0]) then 0 else 1 + FirstCloser(opener, s[1..])
  }

  function Segmentize(text: string): seq<Segment>
    decreases |text|
  {
    if text == "" then []
    else if IsOpener(text[0]) then
      var k := FirstCloser(text[0], text);
      if k == |text| then [Segment(TextSegment, text)]
      else [Segment(Marker, text[..k + 1])] + Segmentize(text[k + 1..])
    else
      var k := FirstOpener(text);
      [Segment(TextSegment, text[..k])] + Segmentize(text[k..])
  }

  function Concat(segs: seq<Segment>): string {
    if segs == [] then "" else segs[0].value + Concat(segs[1..])
  }

  lemma {:induction false} ConcatAppend(a: seq<Segment>, b: seq<Segment>)
    ensures Concat(a + b) == Concat(a) + Concat(b)
  {
    if a == [] {
      assert a + b == b;
    } else {
      assert (a + b)[1..] == a[1..] + b;
      ConcatAppend(a[1..], b);
    }
  }

  // ----- The first segment -----

  /** Length of the first segment. */
  function FirstLength(text: string): (k: nat)
    requires text != ""
    ensures 0 < k <= |text|
  {
    if !IsOpener(text[0]) then FirstOpener(text)
    else if FirstCloser(text[0], text) == |text| then |text| else FirstCloser(text[0], text) + 1
  }

  function FirstSegment(text: string): (seg: Segment)
    requires text != ""
  {
    var closed := IsOpener(text[0]) && FirstCloser(text[0], text) < |text|;
    Segment(if closed then Marker else TextSegment, text[..FirstLength(text)])
  }

  lemma {:induction false} NothingLeft(text: string)
    requires text == ""
    ensures Segmentize(text) == []
  {}

  lemma {:induction false} UnfoldFirst(text: string)
    requires text != ""
    ensures Segmentize(text) == [FirstSegment(text)] + Segmentize(text[FirstLength(text)..])
  {
    NothingLeft(text[|text|..]);
    assert text[..|text|] == text;
  }

  // ----- The loop of the source -----

  lemma {:induction false} FirstOpenerIs(s: string, k: nat)
    requires k <= |s| && (forall i :: 0 <= i < k ==> !IsOpener(s[i])) && (k < |s| ==> IsOpener(s[k]))
    ensures FirstOpener(s) == k
  {}

  lemma {:induction false} FirstCloserIs(opener: char, s: string, k: nat)
    requires k <= |s| && (forall i :: 0 <= i < k ==> !IsCloser(opener, s[i])) && (k < |s| ==> IsCloser(opener, s[k]))
    ensures FirstCloser(opener, s) == k
  {}

  /** What the loop knows about the text since the last border. */
  ghost predicate Scanned(text: string, border: nat, pos: nat, inMarker: bool) {
    && border <= pos <= |text|
    && (inMarker ==> border < pos && IsOpener(text[border])
                     && forall i :: border <= i < pos ==> !IsCloser(text[border], text[i]))
    && (!inMarker ==> forall i :: border <= i < pos ==> !IsOpener(text[i]))
  }

  lemma TextBeforeOpener(text: string, border: nat, pos: nat)
    requires Scanned(text, border, pos, false) && border < pos < |text| && IsOpener(text[pos])
    ensures Segmentize(text[border..]) == [Segment(TextSegment, text[border..pos])] + Segmentize(text[pos..])
  {
    hide Segmentize;
    var s := text[border..];
    FirstOpenerIs(s, pos - border);
    UnfoldFirst(s);
    assert s[..pos - border] == text[border..pos] && s[pos - border..] == text[pos..];
  }

  lemma MarkerAtCloser(text: string, border: nat, pos: nat)
    requires Scanned(text, border, pos, true) && pos < |text| && IsCloser(text[border], text[pos])
    ensures Segmentize(text[border..]) == [Segment(Marker, text[border..pos + 1])] + Segmentize(text[pos + 1..])
  {
    hide Segmentize;
    var s := text[border..];
    FirstCloserIs(s[0], s, pos - border);
    UnfoldFirst(s);
    assert s[..pos - border + 1] == text[border..pos + 1] && s[pos - border + 1..] == text[pos + 1..];
  }

  lemma TextAtEnd(text: string, border: nat, inMarker: bool)
    requires Scanned(text, border, |text|, inMarker) && border < |text|
    ensures Segmentize(text[border..]) == [Segment(TextSegment, text[border..])]
  {
    hide Segmentize;
    var s := text[border..];
    UnfoldFirst(s);
    NothingLeft(s[|s|..]);
    assert s[..|s|] == s;
    if inMarker {
      FirstCloserIs(s[0], s, |s|);
    } else {
      FirstOpenerIs(s, |s|);
    }
  }

  method SegmentizeMarkers(text: string) returns (segs: seq<Segment>)
    ensures segs == Segmentize(text)
  {
    hide Segmentize;
    segs := [];
    var inMarker := false;
    var opener := '\0';
    var lastBorder := 0;
    assert text[0..] == text;
    for pos := 0 to |text|
      invariant Scanned(text, lastBorder, pos, inMarker)
      invariant inMarker ==> opener == text[lastBorder]
      invariant segs + Segmentize(text[lastBorder..]) == Segmentize(text)
    {
      if !inMarker && IsOpener(text[pos]) {
        if lastBorder < pos {
          TextBeforeOpener(text, lastBorder, pos);
          segs := segs + [Segment(TextSegment, text[lastBorder..pos])];
        }
        lastBorder := pos;
        inMarker := true;
        opener := text[pos];
      } else if inMarker && IsCloser(opener, text[pos]) {
        MarkerAtCloser(text, lastBorder, pos);
        segs := segs + [Segment(Marker, text[lastBorder..pos + 1])];
        lastBorder := pos + 1;
        inMarker := false;
        opener := '\0';
      }
    }
    if lastBorder == |text| {
      NothingLeft(text[lastBorder..]);
    } else {
      TextAtEnd(text, lastBorder, inMarker);
      segs := segs + [Segment(TextSegment, text[lastBorder..])];
    }
  }

  // ----- The lexing rules determine the segments -----

  /** An opener up to its first matching closer. */
  predicate IsMarkerText(v: string) {
    && |v| >= 2 && IsOpener(v[0]) && IsCloser(v[0], v[|v| - 1])
    && forall i :: 0 <= i < |v| - 1 ==> !IsCloser(v[0], v[i])
  }

  predicate OpenerFree(v: string) {
    forall i :: 0 <= i < |v| ==> !IsOpener(v[i])
  }

  /** An opener that nothing closes. */
  predicate Unclosed(v: string) {
    v != "" && IsOpener(v[0]) && forall i :: 0 <= i < |v| ==> !IsCloser(v[0], v[i])
  }

  predicate Lexeme(seg: Segment, last: bool) {
    && seg.value != ""
    && (seg.kind.Marker? ==> IsMarkerText(seg.value))
    && (seg.kind.TextSegment? ==> OpenerFree(seg.value) || (last && Unclosed(seg.value)))
  }

  predicate IsPlain(seg: Segment) {
    seg.kind.TextSegment? && OpenerFree(seg.value)
  }

  /** Every segment is a lexeme, and plain text is never split. */
  predicate Lexes(segs: seq<Segment>) {
    && (forall i :: 0 <= i < |segs| ==> Lexeme(segs[i], i == |segs| - 1))
    && (forall i :: 0 < i < |segs| ==> !(IsPlain(segs[i - 1]) && IsPlain(segs[i])))
  }

  lemma LexesCons(seg: Segment, rest: seq<Segment>)
    requires Lexes(rest) && Lexeme(seg, rest == [])
    requires rest != [] ==> !(IsPlain(seg) && IsPlain(rest[0]))
    ensures Lexes([seg] + rest)
  {
    hide Lexeme, IsPlain;
    var segs := [seg] + rest;
    forall i | 0 <= i < |segs| ensures Lexeme(segs[i], i == |segs| - 1) {
      if i > 0 {
        assert segs[i] == rest[i - 1];
      }
    }
    forall i | 0 < i < |segs| ensures !(IsPlain(segs[i - 1]) && IsPlain(segs[i])) {
      assert segs[i] == rest[i - 1];
      if i > 1 {
        assert segs[i - 1] == rest[i - 2];
      }
    }
  }

  lemma LexesTail(segs: seq<Segment>)
    requires Lexes(segs) && segs != []
    ensures Lexes(segs[1..]) && Lexeme(segs[0], segs[1..] == [])
    ensures |segs| > 1 ==> !(IsPlain(segs[0]) && IsPlain(segs[1]))
  {
    hide Lexeme, IsPlain;
  }

  lemma {:induction false} SegmentizeLexes(text: string)
    ensures Concat(Segmentize(text)) == text && Lexes(Segmentize(text))
    decreases |text|
  {
    hide Lexes, Segmentize, Lexeme;
    if text == "" {
      NothingLeft(text);
      EmptyLexes();
    } else {
      var segs := Segmentize(text);
      var k := FirstLength(text);
      var rest := text[k..];
      FirstLexeme(text);
      SegmentizeLexes(rest);
      if rest != "" && IsOpener(rest[0]) {
        StartsWithOpener(rest);
      }
      NothingLeft(text[|text|..]);
      assert text == text[..k] + rest;
      LexesCons(segs[0], Segmentize(rest));
    }
  }

  lemma {:induction false} StartsWithOpener(text: string)
    requires text != "" && IsOpener(text[0])
    ensures Segmentize(text) != [] && !IsPlain(Segmentize(text)[0])
  {
    FirstLexeme(text);
  }

  lemma EmptyLexes()
    ensures Lexes([])
  {}

  lemma {:induction false} MarkerFirst(text: string, k: nat)
    requires k < |text| && IsMarkerText(text[..k + 1])
    ensures Segmentize(text) == [Segment(Marker, text[..k + 1])] + Segmentize(text[k + 1..])
  {
    var v := text[..k + 1];
    forall i | 0 <= i < k ensures !IsCloser(text[0], text[i]) {
      assert text[i] == v[i];
    }
    assert text[k] == v[k] && text[0] == v[0];
    FirstCloserIs(text[0], text, k);
  }

  lemma {:induction false} PlainFirst(text: string, k: nat)
    requires 0 < k <= |text| && OpenerFree(text[..k]) && (k < |text| ==> IsOpener(text[k]))
    ensures Segmentize(text) == [Segment(TextSegment, text[..k])] + Segmentize(text[k..])
  {
    var v := text[..k];
    forall i | 0 <= i < k ensures !IsOpener(text[i]) {
      assert text[i] == v[i];
    }
    FirstOpenerIs(text, k);
  }

  lemma {:induction false} UnclosedFirst(text: string)
    requires Unclosed(text)
    ensures Segmentize(text) == [Segment(TextSegment, text)]
  {
    FirstCloserIs(text[0], text, |text|);
  }

  lemma FirstIsLexeme(text: string)
    requires text != ""
    ensures Lexeme(FirstSegment(text), FirstLength(text) == |text|)
    ensures FirstLength(text) < |text| && IsPlain(FirstSegment(text)) ==> IsOpener(text[FirstLength(text)])
  {
    var v := FirstSegment(text).value;
    assert forall i :: 0 <= i < |v| ==> v[i] == text[i];
  }

  lemma {:induction false} FirstLexeme(text: string)
    requires text != ""
    ensures var k := FirstLength(text);
      var segs := Segmentize(text);
      && segs != [] && segs[0].value == text[..k] && segs == [segs[0]] + Segmentize(text[k..])
      && Lexeme(segs[0], k == |text|)
      && (k < |text| && IsPlain(segs[0]) ==> IsOpener(text[k]))
  {
    hide Segmentize, Lexeme, IsPlain, FirstLength, FirstOpener, FirstCloser;
    UnfoldFirst(text);
    FirstIsLexeme(text);
  }

  lemma {:induction false} LexingIsUnique(segs: seq<Segment>)
    requires Lexes(segs)
    ensures segs == Segmentize(Concat(segs))
  {
    hide Lexes, Lexeme, IsPlain, Segmentize;
    if segs == [] {
      NothingLeft("");
    } else {
      var rest := segs[1..];
      LexesTail(segs);
      if rest != [] {
        LexesTail(rest);
        assert rest[0] == segs[1] && (rest[1..] == [] <==> |rest| == 1);
      }
      LexingIsUnique(rest);
      FirstIsForced(segs[0], rest);
      assert segs == [segs[0]] + rest;
    }
  }

  lemma {:induction false} FirstIsForced(seg: Segment, rest: seq<Segment>)
    requires Lexeme(seg, rest == []) && rest == Segmentize(Concat(rest))
    requires rest != [] ==> Lexeme(rest[0], |rest| == 1) && !(IsPlain(seg) && IsPlain(rest[0]))
    ensures Segmentize(seg.value + Concat(rest)) == [seg] + rest
  {
    hide Segmentize;
    var v, t := seg.value, Concat(rest);
    var text := v + t;
    assert text[..|v|] == v && text[|v|..] == t;
    if seg.kind.Marker? {
      MarkerFirst(text, |v| - 1);
    } else if OpenerFree(v) {
      if rest != [] {
        assert t[0] == rest[0].value[0];
      }
      PlainFirst(text, |v|);
    } else {
      assert t == "" && text == v;
      UnclosedFirst(text);
    }
  }

  /** The segments are the one lexing of the text: both directions. */
  lemma {:induction false} LexingIff(text: string, segs: seq<Segment>)
    ensures segs == Segmentize(text) <==> Lexes(segs) && Concat(segs) == text
  {
    SegmentizeLexes(text);
    if Lexes(segs) {
      LexingIsUnique(segs);
    }
  }

  /** Both kinds of markers, whatever is inside them, and text that begins none. */
  lemma {:induction false} PlainCases(t: string)
    ensures '>' !in t ==> Segmentize("<" + t + ">") == [Segment(Marker, "<" + t + ">")]
    ensures ']' !in t ==> Segmentize("[" + t + "]") == [Segment(Marker, "[" + t + "]")]
    ensures '<' !in t && '[' !in t && t != "" ==> Segmentize(t) == [Segment(TextSegment, t)]
    ensures '>' !in t ==> Segmentize("<" + t) == [Segment(TextSegment, "<" + t)]
    ensures ']' !in t ==> Segmentize("[" + t) == [Segment(TextSegment, "[" + t)]
  {
    hide Segmentize;
    var angle, square := "<" + t + ">", "[" + t + "]";
    var k := |t| + 1;
    NothingLeft("");
    if '>' !in t {
      MarkerFirst(angle, k);
      assert angle[..k + 1] == angle && angle[k + 1..] == "";
      UnclosedFirst("<" + t);
    }
    if ']' !in t {
      MarkerFirst(square, k);
      assert square[..k + 1] == square && square[k + 1..] == "";
      UnclosedFirst("[" + t);
    }
    if '<' !in t && '[' !in t && t != "" {
      PlainFirst(t, |t|);
      assert t[..|t|] == t && t[|t|..] == "";
    }
  }
}
