/**
 The two-ended difference of two texts (chat-auto-parser-helpers.cpp,
 calculate_diff_split). It should split both into a common prefix, their own middle and a
 common suffix. It does so except when a segment that the loop already took as suffix is
 matched once more after the loop.
 */
module DiffSplit {
  import opened Segments

  datatype Split = Split(prefix: string, suffix: string, left: string, right: string)

  /** Both inputs can be put together again from the parts. */
  predicate Conserves(left: string, right: string, r: Split) {
    r.prefix + r.left + r.suffix == left && r.prefix + r.right + r.suffix == right
  }

  // ----- The loop over segments -----

  /**
   The four iterators (`le` and `re` are inclusive), the two consumed flags and the texts
   collected so far.
   */
  datatype Ends = Ends(ls: nat, le: nat, rs: nat, re: nat, leftDone: bool, rightDone: bool,
                       prefix: string, suffix: string)

  predicate InRange(l: seq<Segment>, r: seq<Segment>, e: Ends) {
    e.ls <= e.le < |l| && e.rs <= e.re < |r|
  }

  function TakePrefix(l: seq<Segment>, r: seq<Segment>, e: Ends): (e': Ends)
    requires InRange(l, r, e) && e.ls < e.le && e.rs < e.re
    ensures InRange(l, r, e')
  {
    if l[e.ls] == r[e.rs] then e.(prefix := e.prefix + l[e.ls].value, ls := e.ls + 1, rs := e.rs + 1) else e
  }

  function TakeSuffix(l: seq<Segment>, r: seq<Segment>, e: Ends): (e': Ends)
    requires InRange(l, r, e)
    ensures InRange(l, r, e')
  {
    if l[e.le] == r[e.re] then
      e.(suffix := l[e.le].value + e.suffix,
         le := if e.ls != e.le then e.le - 1 else e.le, leftDone := e.leftDone || e.ls == e.le,
         re := if e.rs != e.re then e.re - 1 else e.re, rightDone := e.rightDone || e.rs == e.re)
    else e
  }

  function Loop(l: seq<Segment>, r: seq<Segment>, e: Ends): (e': Ends)
    requires InRange(l, r, e)
    ensures InRange(l, r, e')
    decreases e.le - e.ls + e.re - e.rs
  {
    if e.ls == e.le || e.rs == e.re then e
    else
      var e1 := TakePrefix(l, r, e);
      if l[e.ls] != r[e.rs] && l[e1.le] != r[e1.re] then e
      else Loop(l, r, TakeSuffix(l, r, e1))
  }

  /** The one-segment cases after the loop. */
  function LastMatch(l: seq<Segment>, r: seq<Segment>, e: Ends): (e': Ends)
    requires InRange(l, r, e)
    ensures InRange(l, r, e')
  {
    if e.ls == e.le && e.rs != e.re then
      if l[e.ls] == r[e.re] then e.(suffix := r[e.re].value + e.suffix, re := e.re - 1, leftDone := true)
      else if l[e.ls] == r[e.rs] then e.(prefix := e.prefix + r[e.rs].value, rs := e.rs + 1, leftDone := true)
      else e
    else if e.rs == e.re && e.ls != e.le then
      if l[e.le] == r[e.rs] then e.(suffix := l[e.le].value + e.suffix, le := e.le - 1, rightDone := true)
      else if l[e.ls] == r[e.rs] then e.(prefix := e.prefix + l[e.ls].value, ls := e.ls + 1, rightDone := true)
      else e
    else if e.ls == e.le && e.rs == e.re && l[e.ls] == r[e.rs] && l[e.ls].kind.Marker? then
      e.(prefix := e.prefix + r[e.rs].value, leftDone := true, rightDone := true)
    else e
  }

  function Start(l: seq<Segment>, r: seq<Segment>): Ends
    requires l != [] && r != []
  {
    Ends(0, |l| - 1, 0, |r| - 1, false, false, "", "")
  }

  // ----- Text in the remaining segments -----

  /** How far two texts agree, given that they do on the first `n` characters. */
  function AgreeFrom(a: string, b: string, n: nat): (k: nat)
    requires n <= |a| && n <= |b|
    ensures n <= k <= |a| && k <= |b| && (forall i :: n <= i < k ==> a[i] == b[i])
    ensures k < |a| && k < |b| ==> a[k] != b[k]
    decreases |a| - n
  {
    if n < |a| && n < |b| && a[n] == b[n] then AgreeFrom(a, b, n + 1) else n
  }

  /** The same from the ends. */
  function AgreeBefore(a: string, b: string, n: nat): (k: nat)
    requires n <= |a| && n <= |b|
    ensures n <= k <= |a| && k <= |b| && (forall j :: |a| - k <= j < |a| - n ==> a[j] == b[j - |a| + |b|])
    ensures k < |a| && k < |b| ==> a[|a| - 1 - k] != b[|b| - 1 - k]
    decreases |a| - n
  {
    if n < |a| && n < |b| && a[|a| - 1 - n] == b[|b| - 1 - n] then AgreeBefore(a, b, n + 1) else n
  }

  function CommonPrefix(a: string, b: string): (n: nat)
    ensures n <= |a| && n <= |b|
  {
    AgreeFrom(a, b, 0)
  }

  function CommonSuffix(a: string, b: string): (n: nat)
    ensures n <= |a| && n <= |b|
  {
    AgreeBefore(a, b, 0)
  }

  function LeftRest(l: seq<Segment>, e: Ends): string
    requires e.ls <= e.le < |l|
  {
    Concat(l[e.ls..if e.leftDone then e.le else e.le + 1])
  }

  function RightRest(r: seq<Segment>, e: Ends): string
    requires e.rs <= e.re < |r|
  {
    Concat(r[e.rs..if e.rightDone then e.re else e.re + 1])
  }

  /** What two texts share at their ends moves from the middles to the prefix and the suffix. */
  function Trim(prefix: string, suffix: string, a: string, b: string, atStart: bool, atEnd: bool): Split {
    var s := if atEnd then CommonSuffix(a, b) else 0;
    var p := if atStart then CommonPrefix(a[..|a| - s], b[..|b| - s]) else 0;
    Split(prefix + a[..p], a[|a| - s..] + suffix, a[p..|a| - s], b[p..|b| - s])
  }

  function Middle(l: seq<Segment>, r: seq<Segment>, e: Ends): Split
    requires InRange(l, r, e)
  {
    Trim(e.prefix, e.suffix, LeftRest(l, e), RightRest(r, e),
         r[e.rs].kind.TextSegment? && l[e.ls].kind.TextSegment?,
         l[e.le].kind.TextSegment? && r[e.re].kind.TextSegment?)
  }

  /** Equal inputs are all prefix, and a left that starts the right one is all prefix. */
  function Tidy(left: string, right: string, d: Split): Split {
    var d1 := if d.left == "" && d.right == "" then d.(prefix := left, suffix := "") else d;
    if d1.left == "" && d1.right != "" && left <= right then Split(left, "", "", right[|left|..]) else d1
  }

  function DiffOf(left: string, right: string): Split {
    var l, r := Segmentize(left), Segmentize(right);
    if l == [] then Split("", "", "", right)
    else if r == [] then Split("", "", left, "")
    else Tidy(left, right, Middle(l, r, LastMatch(l, r, Loop(l, r, Start(l, r)))))
  }

  // ----- The method of the source -----

  method CommonPrefixLen(a: string, b: string) returns (n: nat)
    ensures n == CommonPrefix(a, b)
    ensures n <= |a| && n <= |b| && a[..n] == b[..n]
    ensures n < |a| && n < |b| ==> a[n] != b[n]
  {
    n := 0;
    while n < |a| && n < |b| && a[n] == b[n]
      invariant n <= |a| && n <= |b| && AgreeFrom(a, b, n) == AgreeFrom(a, b, 0)
    {
      n := n + 1;
    }
  }

  method CommonSuffixLen(a: string, b: string) returns (n: nat)
    ensures n == CommonSuffix(a, b)
    ensures n <= |a| && n <= |b| && a[|a| - n..] == b[|b| - n..]
    ensures n < |a| && n < |b| ==> a[|a| - 1 - n] != b[|b| - 1 - n]
  {
    n := 0;
    while n < |a| && n < |b| && a[|a| - 1 - n] == b[|b| - 1 - n]
      invariant n <= |a| && n <= |b| && AgreeBefore(a, b, n) == AgreeBefore(a, b, 0)
    {
      n := n + 1;
    }
  }

  /** The accumulation of segment values. */
  method EatSegments(segs: seq<Segment>) returns (text: string)
    ensures text == Concat(segs)
  {
    text := "";
    for i := 0 to |segs|
      invariant text + Concat(segs[i..]) == Concat(segs)
    {
      assert segs[i..][1..] == segs[i + 1..];
      text := text + segs[i].value;
    }
  }

  lemma {:induction false} LoopUnfold(l: seq<Segment>, r: seq<Segment>, e: Ends)
    requires InRange(l, r, e)
    ensures e.ls == e.le || e.rs == e.re ==> Loop(l, r, e) == e
    ensures e.ls != e.le && e.rs != e.re ==>
      var e1 := TakePrefix(l, r, e);
      Loop(l, r, e) == if l[e.ls] != r[e.rs] && l[e1.le] != r[e1.re] then e else Loop(l, r, TakeSuffix(l, r, e1))
  {}

  method MatchEnds(l: seq<Segment>, r: seq<Segment>) returns (e: Ends)
    requires l != [] && r != []
    ensures InRange(l, r, e) && e == Loop(l, r, Start(l, r))
  {
    hide Loop, Segmentize, Concat;
    var ls, le, rs, re := 0, |l| - 1, 0, |r| - 1;
    var leftDone, rightDone := false, false;
    var prefix, suffix := "", "";
    while ls != le && rs != re
      invariant ls <= le < |l| && rs <= re < |r|
      invariant Loop(l, r, Ends(ls, le, rs, re, leftDone, rightDone, prefix, suffix)) == Loop(l, r, Start(l, r))
      decreases le - ls + re - rs
    {
      LoopUnfold(l, r, Ends(ls, le, rs, re, leftDone, rightDone, prefix, suffix));
      var advanced := false;
      if l[ls] == r[rs] {
        prefix := prefix + l[ls].value;
        ls, rs := ls + 1, rs + 1;
        advanced := true;
      }
      if l[le] == r[re] {
        suffix := l[le].value + suffix;
        if ls != le {
          le := le - 1;
        } else {
          leftDone := true;
        }
        if rs != re {
          re := re - 1;
        } else {
          rightDone := true;
        }
        advanced := true;
      }
      if !advanced {
        return Ends(ls, le, rs, re, leftDone, rightDone, prefix, suffix);
      }
    }
    e := Ends(ls, le, rs, re, leftDone, rightDone, prefix, suffix);
    LoopUnfold(l, r, e);
  }

  method MatchLast(l: seq<Segment>, r: seq<Segment>, ends: Ends) returns (e: Ends)
    requires InRange(l, r, ends)
    ensures e == LastMatch(l, r, ends) && InRange(l, r, e)
  {
    e := ends;
    if e.ls == e.le && e.rs != e.re {
      if l[e.ls] == r[e.re] {
        e := e.(suffix := r[e.re].value + e.suffix);
        e := e.(re := e.re - 1, leftDone := true);
      } else if l[e.ls] == r[e.rs] {
        e := e.(prefix := e.prefix + r[e.rs].value);
        e := e.(rs := e.rs + 1, leftDone := true);
      }
    } else if e.rs == e.re && e.ls != e.le {
      if l[e.le] == r[e.rs] {
        e := e.(suffix := l[e.le].value + e.suffix);
        e := e.(le := e.le - 1, rightDone := true);
      } else if l[e.ls] == r[e.rs] {
        e := e.(prefix := e.prefix + l[e.ls].value);
        e := e.(ls := e.ls + 1, rightDone := true);
      }
    } else if e.ls == e.le && e.rs == e.re && l[e.ls] == r[e.rs] && l[e.ls].kind.Marker? {
      e := e.(prefix := e.prefix + r[e.rs].value, leftDone := true, rightDone := true);
    }
  }

  method TrimTexts(prefix: string, suffix: string, a: string, b: string, atStart: bool, atEnd: bool) returns (d: Split)
    ensures d == Trim(prefix, suffix, a, b, atStart, atEnd)
  {
    hide AgreeFrom, AgreeBefore;
    var s, p := 0, 0;
    if atEnd {
      s := CommonSuffixLen(a, b);
    }
    if atStart {
      p := CommonPrefixLen(a[..|a| - s], b[..|b| - s]);
    }
    d := Split(prefix + a[..p], a[|a| - s..] + suffix, a[p..|a| - s], b[p..|b| - s]);
  }

  method CalculateDiffSplit(left: string, right: string) returns (result: Split)
    ensures result == DiffOf(left, right)
  {
    hide Segmentize, Loop, LastMatch, Trim, Concat;
    result := Split("", "", "", "");
    var l := SegmentizeMarkers(left);
    var r := SegmentizeMarkers(right);
    if l == [] {
      return result.(right := right);
    }
    if r == [] {
      return result.(left := left);
    }
    var e := MatchEnds(l, r);
    e := MatchLast(l, r, e);
    var suffixText := l[e.le].kind.TextSegment? && r[e.re].kind.TextSegment?;
    var prefixText := r[e.rs].kind.TextSegment? && l[e.ls].kind.TextSegment?;
    var a := EatSegments(l[e.ls..if e.leftDone then e.le else e.le + 1]);
    var b := EatSegments(r[e.rs..if e.rightDone then e.re else e.re + 1]);
    result := TrimTexts(e.prefix, e.suffix, a, b, prefixText, suffixText);
    if result.left == "" && result.right == "" {
      result := result.(prefix := left, suffix := "");
    }
    if result.left == "" && result.right != "" && left <= right {
      result := Split(left, "", "", right[|left|..]);
    }
  }
}
