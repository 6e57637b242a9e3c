/**
 When the two-ended difference conserves its inputs: exactly unless one segmentation is
 two matched halves around extra segments and the segment after the first half is
 repeated at the border of the extra ones.
 */
module DiffSplitLaws {
  import opened Segments
  import opened DiffSplit

  // ----- The condition, on the two segmentations -----

  /** `long` is the first half of `short`, something extra, and the second half of `short`. */
  predicate Halves(short: seq<Segment>, long: seq<Segment>) {
    var k := |short| / 2;
    && |short| % 2 == 0 && short != [] && |short| < |long|
    && long[..k] == short[..k] && long[|long| - k..] == short[k..]
  }

  /** The segment that starts the second half is found again at a border of the extra ones. */
  predicate Rotated(short: seq<Segment>, long: seq<Segment>) {
    Halves(short, long) &&
    var k := |short| / 2;
    var v := short[k];
    if |long| == |short| + 1 then long[k] == v && v.kind.Marker?
    else long[k] == v || long[|long| - 1 - k] == v
  }

  predicate Miscounts(left: string, right: string) {
    var l, r := Segmentize(left), Segmentize(right);
    || (Rotated(l, r) && (|r| == |l| + 1 || !(left <= right)))
    || Rotated(r, l)
  }

  // ----- Texts are conserved up to the end of the loop -----

  ghost predicate Whole(l: seq<Segment>, r: seq<Segment>, e: Ends) {
    && InRange(l, r, e)
    && e.prefix + LeftRest(l, e) + e.suffix == Concat(l)
    && e.prefix + RightRest(r, e) + e.suffix == Concat(r)
  }

  lemma ConcatFirst(s: seq<Segment>, i: nat, j: nat)
    requires i < j <= |s|
    ensures Concat(s[i..j]) == s[i].value + Concat(s[i + 1..j])
  {
    assert s[i..j][1..] == s[i + 1..j];
  }

  lemma ConcatLast(s: seq<Segment>, i: nat, j: nat)
    requires i <= j < |s|
    ensures Concat(s[i..j + 1]) == Concat(s[i..j]) + s[j].value
  {
    assert s[i..j + 1] == s[i..j] + [s[j]];
    ConcatAppend(s[i..j], [s[j]]);
    assert [s[j]][1..] == [];
    assert Concat([s[j]]) == s[j].value;
  }

  lemma TakePrefixWhole(l: seq<Segment>, r: seq<Segment>, e: Ends)
    requires Whole(l, r, e) && e.ls < e.le && e.rs < e.re && !e.leftDone && !e.rightDone
    ensures Whole(l, r, TakePrefix(l, r, e))
  {
    hide Concat;
    ConcatFirst(l, e.ls, e.le + 1);
    ConcatFirst(r, e.rs, e.re + 1);
    Regroup(e.prefix, l[e.ls].value, Concat(l[e.ls + 1..e.le + 1]), e.suffix);
    Regroup(e.prefix, l[e.ls].value, Concat(r[e.rs + 1..e.re + 1]), e.suffix);
  }

  lemma Regroup(a: string, b: string, c: string, d: string)
    ensures a + (b + c) + d == (a + b) + c + d
    ensures a + (c + b) + d == a + c + (b + d)
  {}

  lemma TakeSuffixWhole(l: seq<Segment>, r: seq<Segment>, e: Ends)
    requires Whole(l, r, e) && !e.leftDone && !e.rightDone
    ensures Whole(l, r, TakeSuffix(l, r, e))
  {
    hide Concat;
    ConcatLast(l, e.ls, e.le);
    ConcatLast(r, e.rs, e.re);
    Regroup(e.prefix, l[e.le].value, Concat(l[e.ls..e.le]), e.suffix);
    Regroup(e.prefix, l[e.le].value, Concat(r[e.rs..e.re]), e.suffix);
  }

  lemma {:induction false} LoopWhole(l: seq<Segment>, r: seq<Segment>, e: Ends)
    requires Whole(l, r, e) && !e.leftDone && !e.rightDone
    ensures Whole(l, r, Loop(l, r, e))
    decreases e.le - e.ls + e.re - e.rs
  {
    hide Concat, Whole;
    WholeInRange(l, r, e);
    if e.ls != e.le && e.rs != e.re {
      var e1 := TakePrefix(l, r, e);
      TakePrefixWhole(l, r, e);
      var e2 := TakeSuffix(l, r, e1);
      TakeSuffixWhole(l, r, e1);
      if (l[e.ls] == r[e.rs] || l[e1.le] == r[e1.re]) && !e2.leftDone && !e2.rightDone {
        LoopWhole(l, r, e2);
      }
    }
  }

  lemma WholeInRange(l: seq<Segment>, r: seq<Segment>, e: Ends)
    requires Whole(l, r, e)
    ensures InRange(l, r, e)
  {}

  // ----- How the loop ends -----

  predicate Flagless(e: Ends) {
    !e.leftDone && !e.rightDone
  }

  /** Every round so far matched at both ends. */
  predicate InStep(l: seq<Segment>, r: seq<Segment>, e: Ends, j: nat) {
    && InRange(l, r, e) && Flagless(e)
    && e.ls == e.rs == j && e.le == |l| - 1 - j && e.re == |r| - 1 - j
    && l[..j] == r[..j] && l[|l| - j..] == r[|r| - j..]
  }

  /** One end is stuck, so the iterators that meet never meet over a matched segment. */
  predicate OutOfStep(l: seq<Segment>, r: seq<Segment>, e: Ends) {
    && InRange(l, r, e) && Flagless(e)
    && (l[e.ls] != r[e.rs] || l[e.le] != r[e.re])
  }

  lemma {:induction false} OutOfStepStays(l: seq<Segment>, r: seq<Segment>, e: Ends)
    requires OutOfStep(l, r, e)
    ensures Flagless(Loop(l, r, e))
    decreases e.le - e.ls + e.re - e.rs
  {
    if e.ls != e.le && e.rs != e.re {
      var e1 := TakePrefix(l, r, e);
      var e2 := TakeSuffix(l, r, e1);
      if l[e.ls] == r[e.rs] {
        assert e2 == e1;
        OutOfStepStays(l, r, e1);
      } else if l[e.le] == r[e.re] {
        OutOfStepStays(l, r, e2);
      }
    }
  }

  /** The end of a loop that consumed all of `short` and left the extra segments of `long`. */
  predicate HalfWay(short: nat, long: nat, ss: nat, se: nat, ts: nat, te: nat) {
    ss == se == ts == short / 2 && te == long - 1 - short / 2
  }

  ghost predicate LoopEnd(l: seq<Segment>, r: seq<Segment>, e: Ends) {
    && (e.leftDone && e.rightDone ==> l == r && e.ls == e.le && e.rs == e.re)
    && (e.leftDone && !e.rightDone <==> Halves(l, r))
    && (e.rightDone && !e.leftDone <==> Halves(r, l))
    && (Halves(l, r) ==> HalfWay(|l|, |r|, e.ls, e.le, e.rs, e.re))
    && (Halves(r, l) ==> HalfWay(|r|, |l|, e.rs, e.re, e.ls, e.le))
  }

  lemma HalvesAgree(short: seq<Segment>, long: seq<Segment>, j: nat)
    requires Halves(short, long) && 2 * j + 1 < |short|
    ensures short[j] == long[j] && short[|short| - 1 - j] == long[|long| - 1 - j]
  {
    var k := |short| / 2;
    assert long[j] == long[..k][j] && short[j] == short[..k][j];
    assert long[|long| - 1 - j] == long[|long| - k..][k - 1 - j];
    assert short[|short| - 1 - j] == short[k..][k - 1 - j];
  }

  lemma NotHalves(short: seq<Segment>, long: seq<Segment>, j: nat)
    requires 2 * j + 1 < |short| && |short| <= |long|
    requires short[j] != long[j] || short[|short| - 1 - j] != long[|long| - 1 - j]
    ensures !Halves(short, long)
  {
    if Halves(short, long) {
      HalvesAgree(short, long, j);
    }
  }

  lemma InStepNext(l: seq<Segment>, r: seq<Segment>, j: nat)
    requires 2 * j + 1 < |l| && 2 * j + 1 < |r|
    requires l[..j] == r[..j] && l[|l| - j..] == r[|r| - j..]
    requires l[j] == r[j] && l[|l| - 1 - j] == r[|r| - 1 - j]
    ensures l[..j + 1] == r[..j + 1] && l[|l| - (j + 1)..] == r[|r| - (j + 1)..]
  {
    assert l[..j + 1] == l[..j] + [l[j]] && r[..j + 1] == r[..j] + [r[j]];
    assert l[|l| - (j + 1)..] == [l[|l| - 1 - j]] + l[|l| - j..];
    assert r[|r| - (j + 1)..] == [r[|r| - 1 - j]] + r[|r| - j..];
  }

  lemma {:induction false} LoopEnds(l: seq<Segment>, r: seq<Segment>, e: Ends, j: nat)
    requires InStep(l, r, e, j)
    ensures LoopEnd(l, r, Loop(l, r, e))
    decreases |l| - j
  {
    hide Halves;
    if e.ls == e.le || e.rs == e.re {
      OddIsNotHalved(l, r, j);
    } else if l[j] == r[j] && l[e.le] == r[e.re] {
      InStepNext(l, r, j);
      var e1 := TakePrefix(l, r, e);
      var e2 := TakeSuffix(l, r, e1);
      if e1.ls < e1.le && e1.rs < e1.re {
        LoopEnds(l, r, e2, j + 1);
      } else {
        assert Loop(l, r, e) == e2;
        HalvesAt(l, r, j + 1);
        HalvesAt(r, l, j + 1);
      }
    } else {
      OneSided(l, r, e, j);
    }
  }

  lemma OddIsNotHalved(l: seq<Segment>, r: seq<Segment>, j: nat)
    requires 2 * j + 1 <= |l| && 2 * j + 1 <= |r| && (|l| == 2 * j + 1 || |r| == 2 * j + 1)
    ensures !Halves(l, r) && !Halves(r, l)
  {}

  /** Both halves of a `2k` long segmentation are matched. */
  lemma HalvesAt(short: seq<Segment>, long: seq<Segment>, k: nat)
    requires 0 < k && 2 * k <= |short| && 2 * k <= |long|
    requires short[..k] == long[..k] && short[|short| - k..] == long[|long| - k..]
    requires |short| == 2 * k || |long| == 2 * k
    ensures Halves(short, long) <==> |short| == 2 * k < |long|
    ensures |short| == |long| == 2 * k ==> short == long
  {
    if |short| == |long| {
      assert short == short[..k] + short[k..] && long == long[..k] + long[k..];
    }
  }

  lemma {:induction false} OneSided(l: seq<Segment>, r: seq<Segment>, e: Ends, j: nat)
    requires InStep(l, r, e, j) && e.ls != e.le && e.rs != e.re
    requires l[j] != r[j] || l[e.le] != r[e.re]
    ensures LoopEnd(l, r, Loop(l, r, e))
  {
    hide Halves;
    OutOfStepStays(l, r, e);
    if |l| <= |r| {
      NotHalves(l, r, j);
    } else {
      LongerIsNotHalved(l, r);
    }
    if |r| <= |l| {
      NotHalves(r, l, j);
    } else {
      LongerIsNotHalved(r, l);
    }
  }

  lemma LongerIsNotHalved(short: seq<Segment>, long: seq<Segment>)
    requires |short| > |long|
    ensures !Halves(short, long)
  {}

  // ----- What the matches after the loop do -----

  /** A segment that the loop consumed is matched once more. */
  ghost predicate Recounts(l: seq<Segment>, r: seq<Segment>, e: Ends)
    requires InRange(l, r, e)
  {
    || (e.leftDone && !e.rightDone &&
        if e.rs == e.re then l[e.ls] == r[e.rs] && l[e.ls].kind.Marker?
        else l[e.ls] == r[e.re] || l[e.ls] == r[e.rs])
    || (e.rightDone && !e.leftDone &&
        if e.ls == e.le then l[e.ls] == r[e.rs] && l[e.ls].kind.Marker?
        else l[e.le] == r[e.rs] || l[e.ls] == r[e.rs])
  }

  lemma RecountsIffRotated(l: seq<Segment>, r: seq<Segment>, e: Ends)
    requires InRange(l, r, e) && LoopEnd(l, r, e)
    ensures e.leftDone && !e.rightDone ==> (Recounts(l, r, e) <==> Rotated(l, r))
    ensures e.rightDone && !e.leftDone ==> (Recounts(l, r, e) <==> Rotated(r, l))
    ensures e.leftDone == e.rightDone ==> !Recounts(l, r, e) && !Rotated(l, r) && !Rotated(r, l)
    ensures !(Rotated(l, r) && Rotated(r, l))
  {}

  lemma LastMatchWhole(l: seq<Segment>, r: seq<Segment>, e: Ends)
    requires Whole(l, r, e) && LoopEnd(l, r, e) && !Recounts(l, r, e) && !(e.leftDone && e.rightDone)
    ensures Whole(l, r, LastMatch(l, r, e))
  {
    hide Concat, Halves, Whole;
    WholeInRange(l, r, e);
    if LastMatch(l, r, e) != e {
      assert Flagless(e);
      if e.ls == e.le && e.rs == e.re {
        BothEaten(l, r, e);
      } else if l[e.le] == r[e.re] {
        SuffixEaten(l, r, e);
      } else {
        PrefixEaten(l, r, e);
      }
    }
  }

  lemma SuffixEaten(l: seq<Segment>, r: seq<Segment>, e: Ends)
    requires Whole(l, r, e) && Flagless(e) && (e.ls == e.le) != (e.rs == e.re) && l[e.le] == r[e.re]
    ensures Whole(l, r, LastMatch(l, r, e))
  {
    hide Concat;
    var e' := LastMatch(l, r, e);
    ConcatLast(l, e.ls, e.le);
    ConcatLast(r, e.rs, e.re);
    EmptyRange(l, e.ls);
    EmptyRange(r, e.rs);
    Regroup(e.prefix, l[e.le].value, LeftRest(l, e'), e.suffix);
    Regroup(e.prefix, l[e.le].value, RightRest(r, e'), e.suffix);
  }

  lemma PrefixEaten(l: seq<Segment>, r: seq<Segment>, e: Ends)
    requires Whole(l, r, e) && Flagless(e) && (e.ls == e.le) != (e.rs == e.re)
    requires l[e.le] != r[e.re] && l[e.ls] == r[e.rs]
    ensures Whole(l, r, LastMatch(l, r, e))
  {
    hide Concat;
    var e' := LastMatch(l, r, e);
    ConcatFirst(l, e.ls, e.le + 1);
    ConcatFirst(r, e.rs, e.re + 1);
    EmptyRange(l, e.ls);
    EmptyRange(r, e.rs);
    Regroup(e.prefix, l[e.ls].value, LeftRest(l, e'), e.suffix);
    Regroup(e.prefix, l[e.ls].value, RightRest(r, e'), e.suffix);
  }

  lemma EmptyRange(s: seq<Segment>, i: nat)
    requires i < |s|
    ensures Concat(s[i..i]) == "" && Concat(s[i + 1..i + 1]) == ""
  {}

  lemma BothEaten(l: seq<Segment>, r: seq<Segment>, e: Ends)
    requires Whole(l, r, e) && Flagless(e) && e.ls == e.le && e.rs == e.re && l[e.ls] == r[e.rs] && l[e.ls].kind.Marker?
    ensures Whole(l, r, LastMatch(l, r, e))
  {
    hide Concat;
    ConcatLast(l, e.ls, e.le);
    ConcatLast(r, e.rs, e.re);
    EmptyRange(l, e.ls);
    EmptyRange(r, e.rs);
    var v := l[e.ls].value;
    assert "" + v == v;
    assert (e.prefix + v) + "" + e.suffix == e.prefix + v + e.suffix;
  }

  // ----- Trimming and tidying -----

  lemma ThreeParts(prefix: string, suffix: string, a: string, p: nat, s: nat)
    requires p + s <= |a|
    ensures (prefix + a[..p]) + a[p..|a| - s] + (a[|a| - s..] + suffix) == prefix + a + suffix
  {
    assert a == a[..p] + a[p..|a| - s] + a[|a| - s..];
  }

  /** The shared ends of two texts are the same text. */
  lemma SharedEnds(a: string, b: string, p: nat, s: nat)
    requires s <= CommonSuffix(a, b) && s <= |a| && s <= |b|
    requires p <= CommonPrefix(a[..|a| - s], b[..|b| - s])
    ensures p + s <= |a| && p + s <= |b| && a[..p] == b[..p] && a[|a| - s..] == b[|b| - s..]
  {
    hide AgreeFrom, AgreeBefore;
    forall i | 0 <= i < p ensures a[i] == b[i] {
      assert a[..|a| - s][i] == b[..|b| - s][i];
    }
  }

  lemma TrimKeeps(prefix: string, suffix: string, a: string, b: string, atStart: bool, atEnd: bool)
    ensures Conserves(prefix + a + suffix, prefix + b + suffix, Trim(prefix, suffix, a, b, atStart, atEnd))
  {
    hide CommonPrefix, CommonSuffix;
    var s := if atEnd then CommonSuffix(a, b) else 0;
    var p := if atStart then CommonPrefix(a[..|a| - s], b[..|b| - s]) else 0;
    SharedEnds(a, b, p, s);
    ThreeParts(prefix, suffix, a, p, s);
    ThreeParts(prefix, suffix, b, p, s);
  }

  lemma TidyKeeps(left: string, right: string, d: Split)
    requires Conserves(left, right, d)
    ensures Conserves(left, right, Tidy(left, right, d))
  {
    if d.left == "" && d.right == "" {
      assert left == d.prefix + d.suffix == right;
    }
  }

  lemma TidyEmpty(left: string, right: string, d: Split)
    requires d.left == "" && d.right == ""
    ensures Conserves(left, right, Tidy(left, right, d)) <==> left == right
  {}

  lemma {:induction false} WholeConserves(left: string, right: string, l: seq<Segment>, r: seq<Segment>, e: Ends)
    requires left == Concat(l) && right == Concat(r) && Whole(l, r, e)
    ensures Conserves(left, right, Tidy(left, right, Middle(l, r, e)))
  {
    hide Concat, Trim;
    TrimKeeps(e.prefix, e.suffix, LeftRest(l, e), RightRest(r, e),
              r[e.rs].kind.TextSegment? && l[e.ls].kind.TextSegment?,
              l[e.le].kind.TextSegment? && r[e.re].kind.TextSegment?);
    TidyKeeps(left, right, Middle(l, r, e));
  }

  // ----- The failing family -----

  lemma RangeNonempty(segs: seq<Segment>, i: nat, j: nat)
    requires i < j <= |segs| && Lexes(segs)
    ensures Concat(segs[i..j]) != "" && segs[i].value != "" && segs[j - 1].value != ""
  {
    assert Lexeme(segs[i], i == |segs| - 1) && Lexeme(segs[j - 1], j == |segs|);
    assert segs[i..j][0] == segs[i];
  }

  /**
   The matches after the loop keep both texts whole exactly when they do not take a segment
   that the loop had taken already.
   */
  lemma LastMatchIff(l: seq<Segment>, r: seq<Segment>, e: Ends)
    requires Lexes(l) && Lexes(r) && Whole(l, r, e) && LoopEnd(l, r, e) && !(e.leftDone && e.rightDone)
    ensures Whole(l, r, LastMatch(l, r, e)) <==> !Recounts(l, r, e)
  {
    if !Recounts(l, r, e) {
      LastMatchWhole(l, r, e);
    } else {
      RecountAddsText(l, r, e);
    }
  }

  lemma RecountAddsText(l: seq<Segment>, r: seq<Segment>, e: Ends)
    requires Lexes(l) && Lexes(r) && Whole(l, r, e) && LoopEnd(l, r, e) && Recounts(l, r, e)
    ensures var e' := LastMatch(l, r, e);
      && |e'.prefix| + |e'.suffix| > |e.prefix| + |e.suffix|
      && (e.leftDone ==> LeftRest(l, e) == LeftRest(l, e') == "")
      && (e.rightDone ==> RightRest(r, e) == RightRest(r, e') == "")
      && !Whole(l, r, e')
  {
    hide Concat, Halves, Lexes;
    RangeNonempty(l, e.ls, e.le + 1);
    RangeNonempty(r, e.rs, e.re + 1);
    EmptyRange(l, e.ls);
    EmptyRange(r, e.rs);
    var e' := LastMatch(l, r, e);
    assert e.leftDone ==> e.ls == e.le == e'.ls == e'.le && e'.leftDone;
    assert e.rightDone ==> e.rs == e.re == e'.rs == e'.re && e'.rightDone;
    assert |e'.prefix| + |e'.suffix| > |e.prefix| + |e.suffix|;
    if e.leftDone {
      assert |e'.prefix + LeftRest(l, e') + e'.suffix| > |e.prefix + LeftRest(l, e) + e.suffix|;
    } else {
      assert |e'.prefix + RightRest(r, e') + e'.suffix| > |e.prefix + RightRest(r, e) + e.suffix|;
    }
  }

  /** What a trim of one empty text gives: nothing moves. */
  lemma TrimOneEmpty(prefix: string, suffix: string, a: string, b: string, atStart: bool, atEnd: bool)
    requires a == "" || b == ""
    ensures Trim(prefix, suffix, a, b, atStart, atEnd) == Split(prefix, suffix, a, b)
  {
    assert a[..0] == "" && a[|a| - 0..] == "" && a[0..|a|] == a && b[0..|b|] == b;
  }

  lemma {:induction false} LeftRecount(left: string, right: string, l: seq<Segment>, r: seq<Segment>, e: Ends)
    requires left == Concat(l) && right == Concat(r) && Lexes(l) && Lexes(r)
    requires Whole(l, r, e) && LoopEnd(l, r, e) && Recounts(l, r, e) && e.leftDone
    ensures Conserves(left, right, Tidy(left, right, Middle(l, r, LastMatch(l, r, e))))
       <==> e.rs < e.re && left <= right
  {
    hide Concat, Lexes, Halves, Trim;
    var e' := LastMatch(l, r, e);
    var d := Middle(l, r, e');
    RangeNonempty(l, e.ls, e.le + 1);
    RangeNonempty(r, e.rs, e.re + 1);
    EmptyRange(l, e.ls);
    EmptyRange(r, e.rs);
    assert LeftRest(l, e') == "";
    TrimOneEmpty(e'.prefix, e'.suffix, "", RightRest(r, e'),
                 r[e'.rs].kind.TextSegment? && l[e'.ls].kind.TextSegment?,
                 l[e'.le].kind.TextSegment? && r[e'.re].kind.TextSegment?);
    assert |left| == |e.prefix| + |e.suffix| && |right| > |left|;
    if e.rs < e.re {
      RangeNonempty(r, e'.rs, e'.re + 1);
      assert d.left == "" && d.right != "" && |d.prefix + d.left + d.suffix| > |left|;
    } else {
      TidyEmpty(left, right, d);
    }
  }

  lemma {:induction false} RightRecount(left: string, right: string, l: seq<Segment>, r: seq<Segment>, e: Ends)
    requires left == Concat(l) && right == Concat(r) && Lexes(l) && Lexes(r)
    requires Whole(l, r, e) && LoopEnd(l, r, e) && Recounts(l, r, e) && e.rightDone
    ensures !Conserves(left, right, Tidy(left, right, Middle(l, r, LastMatch(l, r, e))))
  {
    hide Concat, Lexes, Halves, Trim;
    var e' := LastMatch(l, r, e);
    var d := Middle(l, r, e');
    RangeNonempty(l, e.ls, e.le + 1);
    RangeNonempty(r, e.rs, e.re + 1);
    EmptyRange(l, e.ls);
    EmptyRange(r, e.rs);
    assert RightRest(r, e') == "";
    TrimOneEmpty(e'.prefix, e'.suffix, LeftRest(l, e'), "",
                 r[e'.rs].kind.TextSegment? && l[e'.ls].kind.TextSegment?,
                 l[e'.le].kind.TextSegment? && r[e'.re].kind.TextSegment?);
    assert |right| == |e.prefix| + |e.suffix| && |left| > |right|;
    if e.ls < e.le {
      RangeNonempty(l, e'.ls, e'.le + 1);
      RangeNonempty(l, e.ls, e.ls + 1);
      assert d.right == "" && d.left != "" && |d.prefix + d.right + d.suffix| > |right|;
    } else {
      TidyEmpty(left, right, d);
    }
  }

  /** Both segmentations were used up together: they are equal. */
  lemma {:induction false} BothDone(left: string, right: string, l: seq<Segment>, r: seq<Segment>, e: Ends)
    requires left == Concat(l) && right == Concat(r)
    requires Whole(l, r, e) && LoopEnd(l, r, e) && e.leftDone && e.rightDone
    ensures Conserves(left, right, Tidy(left, right, Middle(l, r, LastMatch(l, r, e))))
  {
    hide Concat, Halves, Trim;
    var e' := LastMatch(l, r, e);
    EmptyRange(l, e.ls);
    EmptyRange(r, e.rs);
    TrimOneEmpty(e'.prefix, e'.suffix, "", "",
                 r[e'.rs].kind.TextSegment? && l[e'.ls].kind.TextSegment?,
                 l[e'.le].kind.TextSegment? && r[e'.re].kind.TextSegment?);
    TidyEmpty(left, right, Middle(l, r, e'));
  }

  // ----- The theorem -----

  lemma StartWhole(l: seq<Segment>, r: seq<Segment>)
    requires l != [] && r != []
    ensures Whole(l, r, Start(l, r)) && InStep(l, r, Start(l, r), 0)
  {
    assert l[0..|l|] == l && r[0..|r|] == r;
    assert "" + Concat(l) + "" == Concat(l) && "" + Concat(r) + "" == Concat(r);
    assert l[|l| - 0..] == [] && r[|r| - 0..] == [];
  }

  /** For all inputs, the difference conserves both texts exactly when nothing is counted twice. */
  lemma ConservesIff(left: string, right: string)
    ensures Conserves(left, right, DiffOf(left, right)) <==> !Miscounts(left, right)
  {
    hide Segmentize, Loop, LastMatch, Tidy, Middle, Concat, Lexes, Whole, LoopEnd, Recounts, Rotated;
    var l, r := Segmentize(left), Segmentize(right);
    SegmentizeLexes(left);
    SegmentizeLexes(right);
    if l == [] || r == [] {
      OneEmpty(left, right);
    } else {
      var e := Loop(l, r, Start(l, r));
      StartWhole(l, r);
      LoopWhole(l, r, Start(l, r));
      LoopEnds(l, r, Start(l, r), 0);
      RecountsIffRotated(l, r, e);
      RotatedEnds(l, r, e);
      if Recounts(l, r, e) {
        if e.leftDone {
          LeftRecount(left, right, l, r, e);
        } else {
          RightRecount(left, right, l, r, e);
        }
      } else if e.leftDone && e.rightDone {
        BothDone(left, right, l, r, e);
      } else {
        LastMatchWhole(l, r, e);
        WholeConserves(left, right, l, r, LastMatch(l, r, e));
      }
    }
  }

  lemma RotatedEnds(l: seq<Segment>, r: seq<Segment>, e: Ends)
    requires InRange(l, r, e) && LoopEnd(l, r, e)
    ensures Rotated(l, r) ==> e.leftDone && !e.rightDone && (e.rs < e.re <==> |r| != |l| + 1)
    ensures Rotated(r, l) ==> e.rightDone && !e.leftDone
    ensures Recounts(l, r, e) ==> e.leftDone != e.rightDone
  {}

  lemma {:induction false} OneEmpty(left: string, right: string)
    requires Segmentize(left) == [] || Segmentize(right) == []
    ensures Conserves(left, right, DiffOf(left, right)) && !Miscounts(left, right)
  {
    hide Segmentize, Loop, LastMatch, Middle, Tidy, Lexes;
    SegmentizeLexes(left);
    SegmentizeLexes(right);
    assert "" + right + "" == right && "" + left + "" == left;
  }

  // ----- Corollaries -----

  predicate NoRepeats(segs: seq<Segment>) {
    forall i, j :: 0 <= i < j < |segs| ==> segs[i] != segs[j]
  }

  /** Texts whose segments never repeat are always conserved. */
  lemma {:induction false} DistinctSegmentsConserve(left: string, right: string)
    requires NoRepeats(Segmentize(left)) && NoRepeats(Segmentize(right))
    ensures Conserves(left, right, DiffOf(left, right))
  {
    hide Segmentize, DiffOf, Rotated, NoRepeats;
    ConservesIff(left, right);
    var l, r := Segmentize(left), Segmentize(right);
    if Rotated(l, r) {
      RotatedRepeats(l, r);
    }
    if Rotated(r, l) {
      RotatedRepeats(r, l);
    }
  }

  lemma RotatedRepeats(short: seq<Segment>, long: seq<Segment>)
    requires Rotated(short, long)
    ensures !NoRepeats(long)
  {
    var k := |short| / 2;
    assert short[k] == short[k..][0] && long[|long| - k] == long[|long| - k..][0];
    var i := if long[k] == short[k] then k else |long| - 1 - k;
    assert long[i] == long[|long| - k] && i < |long| - k;
  }

  lemma {:induction false} SameLoop(l: seq<Segment>, e: Ends)
    requires InRange(l, l, e) && Flagless(e) && e.ls == e.rs && e.le == e.re
    ensures var e' := Loop(l, l, e);
      e'.ls == e'.le == e'.rs == e'.re && e'.leftDone == e'.rightDone
    decreases e.le - e.ls
  {
    LoopUnfold(l, l, e);
    if e.ls != e.le {
      var e1 := TakePrefix(l, l, e);
      var e2 := TakeSuffix(l, l, e1);
      if e1.ls < e1.le {
        SameLoop(l, e2);
      } else {
        LoopUnfold(l, l, e2);
      }
    }
  }

  /** Equal texts have no difference: everything is prefix. */
  lemma EqualTextsHaveNoDiff(text: string)
    ensures DiffOf(text, text) == Split(text, "", "", "")
  {
    hide Segmentize, Loop, Concat;
    var l := Segmentize(text);
    SegmentizeLexes(text);
    if l == [] {
      assert text == Concat(l) == "" by {
        EmptyConcat(l);
      }
    } else {
      var e := Loop(l, l, Start(l, l));
      SameLoop(l, Start(l, l));
      var e' := LastMatch(l, l, e);
      EmptyRange(l, e.ls);
      var a := LeftRest(l, e');
      assert a == RightRest(l, e');
      assert a == "" || l[e.ls].kind.TextSegment?;
      AllShared(e'.prefix, e'.suffix, a);
    }
  }

  lemma {:induction false} EmptyConcat(l: seq<Segment>)
    requires l == []
    ensures Concat(l) == ""
  {}

  lemma AllShared(prefix: string, suffix: string, a: string)
    ensures var d := Trim(prefix, suffix, a, a, true, true);
      d.left == "" && d.right == ""
    ensures a == "" ==> forall x, y :: var d := Trim(prefix, suffix, a, a, x, y);
      d.left == "" && d.right == ""
  {}

  /** `<a><b>` against `<a><b><b>`: the extra marker is lost. */
  lemma MiscountWitness()
    ensures !Conserves("<a><b>", "<a><b><b>", DiffOf("<a><b>", "<a><b><b>"))
  {
    hide DiffOf, Segmentize;
    var a, b := Segment(Marker, "<a>"), Segment(Marker, "<b>");
    var l, r := [a, b], [a, b, b];
    assert Concat(l[2..]) == "" && Concat(l[1..]) == "<b>" && Concat(l) == "<a><b>";
    assert r[1..] == [b, b] && Concat([b, b][1..]) == "<b>" && Concat(r) == "<a>" + Concat(r[1..]) == "<a><b><b>";
    assert Lexes(l) && Lexes(r);
    LexingIff("<a><b>", l);
    LexingIff("<a><b><b>", r);
    assert r[..1] == l[..1] && r[2..] == l[1..];
    assert Rotated(l, r);
    ConservesIff("<a><b>", "<a><b><b>");
  }
}
