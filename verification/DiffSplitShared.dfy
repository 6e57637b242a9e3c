/**
 What the two-ended difference takes out (chat-auto-parser-helpers.cpp,
 calculate_diff_split): no text is left on both sides that could have been shared, except
 where a marker stands in the way.
 */
module DiffSplitShared {
  import opened Segments
  import opened DiffSplit
  import opened DiffSplitLaws

  // ----- A consumed side has no rest -----

  predicate DoneIsEmpty(e: Ends) {
    (e.leftDone ==> e.ls == e.le) && (e.rightDone ==> e.rs == e.re)
  }

  lemma {:induction false} LoopDone(l: seq<Segment>, r: seq<Segment>, e: Ends)
    requires InRange(l, r, e) && DoneIsEmpty(e)
    ensures DoneIsEmpty(Loop(l, r, e))
    decreases e.le - e.ls + e.re - e.rs
  {
    LoopUnfold(l, r, e);
    if e.ls != e.le && e.rs != e.re {
      var e1 := TakePrefix(l, r, e);
      if l[e.ls] == r[e.rs] || l[e1.le] == r[e1.re] {
        LoopDone(l, r, TakeSuffix(l, r, e1));
      }
    }
  }

  // ----- The borders of what is left -----

  lemma {:induction false} MarkerBorders(seg: Segment, last: bool)
    requires Lexeme(seg, last) && seg.kind.Marker?
    ensures seg.value[0] == '<' || seg.value[0] == '['
    ensures seg.value[|seg.value| - 1] == '>' || seg.value[|seg.value| - 1] == ']'
  {}

  lemma {:induction false} RestBorders(segs: seq<Segment>, i: nat, j: nat, done: bool)
    requires Lexes(segs) && i <= j < |segs| && (done ==> i == j)
    ensures var rest := Concat(segs[i..if done then j else j + 1]);
      rest != "" ==>
        && (segs[i].kind.Marker? ==> rest[0] == '<' || rest[0] == '[')
        && (segs[j].kind.Marker? ==> rest[|rest| - 1] == '>' || rest[|rest| - 1] == ']')
  {
    hide Concat, Lexeme;
    EmptyRange(segs, i);
    if !done {
      assert Lexeme(segs[i], i == |segs| - 1) && Lexeme(segs[j], j == |segs| - 1);
      ConcatFirst(segs, i, j + 1);
      ConcatLast(segs, i, j);
      RangeNonempty(segs, i, j + 1);
      if segs[i].kind.Marker? {
        MarkerBorders(segs[i], i == |segs| - 1);
      }
      if segs[j].kind.Marker? {
        MarkerBorders(segs[j], j == |segs| - 1);
      }
    }
  }

  /** What a trim leaves on both sides differs at the ends that were compared. */
  lemma {:induction false} TrimSeparates(prefix: string, suffix: string, a: string, b: string, atStart: bool,
                                         atEnd: bool)
    ensures var d := Trim(prefix, suffix, a, b, atStart, atEnd);
      d.left != "" && d.right != "" ==>
        && a != "" && b != ""
        && (atStart ==> d.left[0] != d.right[0])
        && (!atStart ==> d.left[0] == a[0] && d.right[0] == b[0])
        && (atEnd ==> d.left[|d.left| - 1] != d.right[|d.right| - 1])
        && (!atEnd ==> d.left[|d.left| - 1] == a[|a| - 1] && d.right[|d.right| - 1] == b[|b| - 1])
  {}

  /**
   Two rests that begin alike begin with a marker, and two that end alike end with one:
   everything else that is shared at an end is taken out.
   */
  lemma {:induction false} SharedEndsAreTaken(left: string, right: string)
    ensures var d := DiffOf(left, right);
      d.left != "" && d.right != "" ==>
        && (d.left[0] == d.right[0] ==> d.left[0] == '<' || d.left[0] == '[')
        && (var x := d.left[|d.left| - 1];
            x == d.right[|d.right| - 1] ==> x == '>' || x == ']')
  {
    hide Segmentize, Loop, Concat, Lexes, Trim;
    var l, r := Segmentize(left), Segmentize(right);
    if l != [] && r != [] {
      SegmentizeLexes(left);
      SegmentizeLexes(right);
      var e := Loop(l, r, DiffSplit.Start(l, r));
      LoopDone(l, r, DiffSplit.Start(l, r));
      MiddleSeparates(l, r, LastMatch(l, r, e));
    }
  }

  lemma {:induction false} MiddleSeparates(l: seq<Segment>, r: seq<Segment>, e: Ends)
    requires InRange(l, r, e) && DoneIsEmpty(e) && Lexes(l) && Lexes(r)
    ensures var d := Middle(l, r, e);
      d.left != "" && d.right != "" ==>
        && (d.left[0] == d.right[0] ==> d.left[0] == '<' || d.left[0] == '[')
        && (var x := d.left[|d.left| - 1];
            x == d.right[|d.right| - 1] ==> x == '>' || x == ']')
  {
    hide Concat, Lexes, Trim;
    RestBorders(l, e.ls, e.le, e.leftDone);
    RestBorders(r, e.rs, e.re, e.rightDone);
    TrimSeparates(e.prefix, e.suffix, LeftRest(l, e), RightRest(r, e),
                  r[e.rs].kind.TextSegment? && l[e.ls].kind.TextSegment?,
                  l[e.le].kind.TextSegment? && r[e.re].kind.TextSegment?);
  }

  // ----- Texts without markers -----

  predicate HasNoMarker(text: string) {
    forall i :: 0 <= i < |text| ==> text[i] != '<' && text[i] != '['
  }

  lemma {:induction false} OneSegment(text: string)
    requires HasNoMarker(text) && text != ""
    ensures Segmentize(text) == [Segment(TextSegment, text)]
  {
    assert FirstOpener(text) == |text|;
    assert text[..|text|] == text && text[|text|..] == "";
  }

  /** `d` takes the longest common suffix, then the longest common prefix of the rests, and keeps the rest. */
  predicate TakesAll(left: string, right: string, d: Split) {
    var n := |d.suffix|;
    && d.prefix + d.left + d.suffix == left && d.prefix + d.right + d.suffix == right
    && (n < |left| && n < |right| ==> left[|left| - 1 - n] != right[|right| - 1 - n])
    && (d.left != "" && d.right != "" ==> d.left[0] != d.right[0])
  }

  /** The suffix taken by a trim that compares the ends is as long as it can be. */
  lemma {:induction false} TrimSuffix(a: string, b: string)
    ensures var n := |Trim("", "", a, b, true, true).suffix|;
      n < |a| && n < |b| ==> a[|a| - 1 - n] != b[|b| - 1 - n]
  {
    hide CommonPrefix;
    var s := CommonSuffix(a, b);
    assert |a[|a| - s..] + ""| == s;
  }

  lemma {:induction false} TrimTakesAll(a: string, b: string)
    ensures TakesAll(a, b, Trim("", "", a, b, true, true))
  {
    hide Trim;
    TrimKeeps("", "", a, b, true, true);
    TrimSeparates("", "", a, b, true, true);
    TrimSuffix(a, b);
    assert "" + a + "" == a && "" + b + "" == b;
  }

  lemma TidyKeepsProper(left: string, right: string, d: Split)
    requires TakesAll(left, right, d) && !(left <= right)
    ensures Tidy(left, right, d) == d
  {}

  lemma {:induction false} OneSegmentEach(left: string, right: string)
    requires left != "" && right != ""
    ensures var l, r := [Segment(TextSegment, left)], [Segment(TextSegment, right)];
      var e := DiffSplit.Start(l, r);
      LastMatch(l, r, Loop(l, r, e)) == e && Middle(l, r, e) == Trim("", "", left, right, true, true)
  {
    hide Trim;
    var l, r := [Segment(TextSegment, left)], [Segment(TextSegment, right)];
    assert l[0..1] == l && r[0..1] == r && l[1..] == [] && r[1..] == [];
    assert Concat(l) == left + "" == left && Concat(r) == right + "" == right;
  }

  /**
   Plain texts lose the longest suffix they share, then the longest prefix that the rests
   share, unless the left one starts the right one.
   */
  lemma {:induction false} PlainTexts(left: string, right: string)
    requires HasNoMarker(left) && HasNoMarker(right) && !(left <= right)
    ensures TakesAll(left, right, DiffOf(left, right))
  {
    hide Segmentize, Concat, Trim, Tidy, Loop, LastMatch, Middle;
    EmptyTextHasNone();
    OneSegment(left);
    if right == "" {
      NothingShared(left);
    } else {
      OneSegment(right);
      OneSegmentEach(left, right);
      TrimTakesAll(left, right);
      TidyKeepsProper(left, right, Trim("", "", left, right, true, true));
    }
  }

  lemma NothingShared(left: string)
    ensures TakesAll(left, "", Split("", "", left, ""))
  {
    assert "" + left + "" == left;
  }

  lemma EmptyTextHasNone()
    ensures Segmentize("") == []
  {}

  // ----- Where a segment is shared twice -----

  /** When the left text has no content of its own and starts the right one, it is all prefix. */
  lemma {:induction false} LeftIsPrefix(left: string, right: string)
    ensures var d := DiffOf(left, right);
      d.left == "" && left <= right ==> d.prefix == left && d.suffix == ""
  {
    hide Segmentize, Loop, Concat;
    if Segmentize(left) == [] {
      SegmentizeLexes(left);
      EmptyConcat(Segmentize(left));
    }
    EqualTextsHaveNoDiff(left);
  }

  /** A right text of one segment that both starts and ends the left one is taken as suffix. */
  lemma {:induction false} SuffixComesFirst(l: seq<Segment>, v: Segment)
    requires |l| > 1 && l[0] == v == l[|l| - 1]
    ensures var e := LastMatch(l, [v], Loop(l, [v], DiffSplit.Start(l, [v])));
      && e.prefix == "" && e.suffix == v.value
      && LeftRest(l, e) == Concat(l[..|l| - 1]) && RightRest([v], e) == ""
  {
    hide Concat;
    EmptyRange([v], 0);
    assert v.value + "" == v.value && l[0..|l| - 1] == l[..|l| - 1];
  }
}
