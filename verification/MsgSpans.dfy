/**
 Splitting a token sequence into role spans at message delimiters (chat.cpp,
 common_chat_msg_delimiters::split), jumping over skip regions.
 */
module MsgSpans {
  import opened Prelude

  datatype Role = Unknown | System | Assistant | User | Tool

  type Token = int

  datatype Delimiter = Delimiter(role: Role, tokens: seq<Token>)

  /** A skip region, from the ordered map of start index to length. */
  datatype Skip = Skip(start: nat, len: nat)

  datatype Span = Span(role: Role, pos: nat, len: nat)

  predicate Sorted(skips: seq<Skip>) {
    forall j, k :: 0 <= j < k < |skips| ==> skips[j].start < skips[k].start
  }

  // ----- What a delimiter match is -----

  predicate MatchesAt(tokens: seq<Token>, d: Delimiter, i: nat) {
    i + |d.tokens| <= |tokens| && tokens[i..i + |d.tokens|] == d.tokens
  }

  /** The role of the first delimiter in the list that matches. */
  function RoleAt(tokens: seq<Token>, ds: seq<Delimiter>, i: nat): Option<Role> {
    if ds == [] then None
    else if MatchesAt(tokens, ds[0], i) then Some(ds[0].role)
    else RoleAt(tokens, ds[1..], i)
  }

  /** It is the role of the first delimiter in the list whose tokens stand at `i`. */
  lemma {:induction false} RoleAtIs(tokens: seq<Token>, ds: seq<Delimiter>, i: nat, k: nat)
    requires k < |ds| && i + |ds[k].tokens| <= |tokens| && tokens[i..i + |ds[k].tokens|] == ds[k].tokens
    requires forall j :: 0 <= j < k ==> !MatchesAt(tokens, ds[j], i)
    ensures RoleAt(tokens, ds, i) == Some(ds[k].role)
  {
    if k > 0 {
      assert !MatchesAt(tokens, ds[0], i);
      RoleAtIs(tokens, ds[1..], i, k - 1);
    }
  }

  lemma {:induction false} RoleAtNone(tokens: seq<Token>, ds: seq<Delimiter>, i: nat)
    ensures RoleAt(tokens, ds, i) == None <==>
      forall k :: 0 <= k < |ds| && i + |ds[k].tokens| <= |tokens| ==> tokens[i..i + |ds[k].tokens|] != ds[k].tokens
  {
    if ds != [] {
      RoleAtNone(tokens, ds[1..], i);
      if RoleAt(tokens, ds, i) != None && !MatchesAt(tokens, ds[0], i) {
        var k :| 0 <= k < |ds| - 1 && i + |ds[1..][k].tokens| <= |tokens|
          && tokens[i..i + |ds[1..][k].tokens|] == ds[1..][k].tokens;
        assert ds[k + 1] == ds[1..][k];
      }
    }
  }

  // ----- Which skips take effect -----

  /**
   The number of skips that take effect, at least `k`: a skip that starts before the end
   of the one before it is never reached, nor is any later one.
   */
  function Effective(skips: seq<Skip>, k: nat): (n: nat)
    requires k <= |skips|
    ensures k <= n <= |skips|
    decreases |skips| - k
  {
    if k < |skips| && (k == 0 || skips[k - 1].start + skips[k - 1].len <= skips[k].start)
    then Effective(skips, k + 1) else k
  }

  predicate InSkip(s: Skip, p: nat) {
    s.start <= p < s.start + s.len
  }

  /** Position `p` lies in one of the first `n` skips. */
  predicate Skipped(skips: seq<Skip>, n: nat, p: nat)
    requires n <= |skips|
  {
    exists j :: 0 <= j < n && InSkip(skips[j], p)
  }

  predicate NonOverlapping(skips: seq<Skip>) {
    forall j :: 0 < j < |skips| ==> skips[j - 1].start + skips[j - 1].len <= skips[j].start
  }

  lemma {:induction false} AllEffective(skips: seq<Skip>, k: nat)
    requires NonOverlapping(skips) && k <= |skips|
    ensures Effective(skips, k) == |skips|
    decreases |skips| - k
  {
    if k < |skips| {
      AllEffective(skips, k + 1);
    }
  }

  /** A span starts exactly where some delimiter matches outside the effective skips. */
  ghost predicate IsStart(tokens: seq<Token>, ds: seq<Delimiter>, skips: seq<Skip>, p: nat) {
    p < |tokens| && !Skipped(skips, Effective(skips, 0), p) && RoleAt(tokens, ds, p).Some?
  }

  // ----- The loop -----

  method RoleOfFirstMatch(tokens: seq<Token>, ds: seq<Delimiter>, i: nat) returns (role: Option<Role>)
    ensures role == RoleAt(tokens, ds, i)
  {
    for k := 0 to |ds|
      invariant RoleAt(tokens, ds, i) == RoleAt(tokens, ds[k..], i)
    {
      assert ds[k..][1..] == ds[k + 1..];
      if i + |ds[k].tokens| > |tokens| {
        continue;
      }
      if tokens[i..i + |ds[k].tokens|] == ds[k].tokens {
        return Some(ds[k].role);
      }
    }
    return None;
  }

  /** The skip iterator at position `i`: waiting for a skip ahead, or stuck at an overlapping one. */
  ghost predicate SkipState(skips: seq<Skip>, next: nat, i: nat) {
    && next <= |skips|
    && Effective(skips, 0) == Effective(skips, next)
    && (forall j :: 0 <= j < next ==> skips[j].start + skips[j].len <= i)
    && (next < |skips| && skips[next].start < i ==> Effective(skips, next) == next)
  }

  /** The matches found below `i` are exactly the starts below `i`, in order, with their roles. */
  ghost predicate Found(tokens: seq<Token>, ds: seq<Delimiter>, skips: seq<Skip>, i: nat, matches: seq<(Role, nat)>) {
    && (forall k :: 0 <= k < |matches| ==>
          matches[k].1 < i && IsStart(tokens, ds, skips, matches[k].1)
          && RoleAt(tokens, ds, matches[k].1) == Some(matches[k].0))
    && (forall j, k :: 0 <= j < k < |matches| ==> matches[j].1 < matches[k].1)
    && (forall p: nat :: p < i && IsStart(tokens, ds, skips, p) ==> exists k :: 0 <= k < |matches| && matches[k].1 == p)
  }

  lemma {:induction false} TakeSkip(skips: seq<Skip>, next: nat, i: nat)
    requires Sorted(skips) && SkipState(skips, next, i) && next < |skips| && skips[next].start == i
    ensures SkipState(skips, next + 1, i + skips[next].len)
    ensures forall p :: i <= p < i + skips[next].len ==> Skipped(skips, Effective(skips, 0), p)
  {
    assert Effective(skips, next) == Effective(skips, next + 1);
    forall p | i <= p < i + skips[next].len ensures Skipped(skips, Effective(skips, 0), p) {
      assert InSkip(skips[next], p) && next < Effective(skips, 0);
    }
  }

  lemma {:induction false} NotInSkip(skips: seq<Skip>, next: nat, i: nat)
    requires Sorted(skips) && SkipState(skips, next, i) && !(next < |skips| && skips[next].start == i)
    ensures !Skipped(skips, Effective(skips, 0), i)
    ensures SkipState(skips, next, i + 1)
  {
    if next < |skips| && skips[next].start < i {
      assert Effective(skips, 0) == next;
    } else {
      assert forall j :: next <= j < |skips| ==> skips[j].start > i;
    }
  }

  /** The tokens from the first start on, cut at every start. */
  ghost predicate IsSplit(tokens: seq<Token>, ds: seq<Delimiter>, skips: seq<Skip>, spans: seq<Span>) {
    && (forall k :: 0 <= k < |spans| ==>
          IsStart(tokens, ds, skips, spans[k].pos) && RoleAt(tokens, ds, spans[k].pos) == Some(spans[k].role))
    && (forall p: nat :: IsStart(tokens, ds, skips, p) ==> exists k :: 0 <= k < |spans| && spans[k].pos == p)
    && (forall k :: 0 <= k < |spans| ==>
          spans[k].len > 0 && spans[k].pos + spans[k].len == NextPos(spans, k, |tokens|))
  }

  /** Where the span after `k` starts, or the end of the tokens. */
  function NextPos(spans: seq<Span>, k: nat, end: nat): nat
    requires k < |spans|
  {
    if k + 1 < |spans| then spans[k + 1].pos else end
  }

  method Split(tokens: seq<Token>, ds: seq<Delimiter>, skips: seq<Skip>) returns (spans: seq<Span>)
    requires Sorted(skips)
    ensures IsSplit(tokens, ds, skips, spans)
  {
    var matches: seq<(Role, nat)> := [];
    var next: nat := 0;
    var i: nat := 0;
    while i < |tokens|
      invariant SkipState(skips, next, i)
      invariant Found(tokens, ds, skips, i, matches)
      decreases |tokens| - i, |skips| - next
    {
      if next < |skips| && i == skips[next].start {
        TakeSkip(skips, next, i);
        i := i + skips[next].len;
        next := next + 1;
        continue;
      }
      NotInSkip(skips, next, i);
      var role := RoleOfFirstMatch(tokens, ds, i);
      ghost var before := matches;
      if role.Some? {
        matches := matches + [(role.value, i)];
      }
      FoundNext(tokens, ds, skips, i, before, matches);
      i := i + 1;
    }
    spans := SpansOf(tokens, matches);
    SplitFromMatches(tokens, ds, skips, i, matches, spans);
  }

  lemma {:induction false} FoundNext(tokens: seq<Token>, ds: seq<Delimiter>, skips: seq<Skip>, i: nat,
                                     before: seq<(Role, nat)>, after: seq<(Role, nat)>)
    requires i < |tokens| && Found(tokens, ds, skips, i, before) && !Skipped(skips, Effective(skips, 0), i)
    requires var role := RoleAt(tokens, ds, i);
      after == if role.Some? then before + [(role.value, i)] else before
    ensures Found(tokens, ds, skips, i + 1, after)
  {
    hide Skipped, RoleAt, Effective;
    forall p: nat | p < i + 1 && IsStart(tokens, ds, skips, p) ensures exists k :: 0 <= k < |after| && after[k].1 == p {
      if p < i {
        var k :| 0 <= k < |before| && before[k].1 == p;
        assert after[k].1 == p;
      } else {
        assert after[|before|].1 == p;
      }
    }
  }

  method SpansOf(tokens: seq<Token>, found: seq<(Role, nat)>) returns (spans: seq<Span>)
    requires forall k :: 0 <= k < |found| ==> found[k].1 < |tokens|
    requires forall j, k :: 0 <= j < k < |found| ==> found[j].1 < found[k].1
    ensures |spans| == |found|
    ensures forall k :: 0 <= k < |found| ==> spans[k].role == found[k].0 && spans[k].pos == found[k].1
    ensures forall k :: 0 <= k < |found| ==>
      spans[k].pos + spans[k].len == if k + 1 < |found| then found[k + 1].1 else |tokens|
  {
    var matches := found + [(Unknown, |tokens|)];
    spans := [];
    var i := 0;
    while i + 1 < |matches|
      invariant |spans| == i <= |found|
      invariant forall k :: 0 <= k < i ==> spans[k].role == found[k].0 && spans[k].pos == found[k].1
      invariant forall k :: 0 <= k < i ==>
        spans[k].pos + spans[k].len == if k + 1 < |found| then found[k + 1].1 else |tokens|
    {
      spans := spans + [Span(matches[i].0, matches[i].1, matches[i + 1].1 - matches[i].1)];
      i := i + 1;
    }
  }

  lemma SplitFromMatches(tokens: seq<Token>, ds: seq<Delimiter>, skips: seq<Skip>, i: nat, found: seq<(Role, nat)>,
                         spans: seq<Span>)
    requires |tokens| <= i && Found(tokens, ds, skips, i, found) && |spans| == |found|
    requires forall k :: 0 <= k < |found| ==> spans[k].role == found[k].0 && spans[k].pos == found[k].1
    requires forall k :: 0 <= k < |found| ==>
      spans[k].pos + spans[k].len == if k + 1 < |found| then found[k + 1].1 else |tokens|
    ensures IsSplit(tokens, ds, skips, spans)
  {
    hide Skipped, RoleAt, Effective;
    forall p: nat | IsStart(tokens, ds, skips, p) ensures exists k :: 0 <= k < |spans| && spans[k].pos == p {
      var k :| 0 <= k < |found| && found[k].1 == p;
      assert spans[k].pos == p;
    }
  }

  // ----- The rules determine the spans -----

  lemma {:induction false} SpanAt(tokens: seq<Token>, ds: seq<Delimiter>, skips: seq<Skip>, spans: seq<Span>, k: nat)
    requires IsSplit(tokens, ds, skips, spans) && k < |spans|
    ensures IsStart(tokens, ds, skips, spans[k].pos) && RoleAt(tokens, ds, spans[k].pos) == Some(spans[k].role)
    ensures spans[k].len > 0
    ensures spans[k].pos + spans[k].len == NextPos(spans, k, |tokens|)
  {}

  /** Where a span of one split starts in another split of the same tokens. */
  lemma IndexOf(tokens: seq<Token>, ds: seq<Delimiter>, skips: seq<Skip>, from: seq<Span>, to: seq<Span>, j: nat)
    returns (k: nat)
    requires IsSplit(tokens, ds, skips, from) && IsSplit(tokens, ds, skips, to) && j < |from|
    ensures k < |to| && to[k].pos == from[j].pos
  {
    SpanAt(tokens, ds, skips, from, j);
    k :| 0 <= k < |to| && to[k].pos == from[j].pos;
  }

  lemma {:induction false} PositionsIncrease(tokens: seq<Token>, ds: seq<Delimiter>, skips: seq<Skip>,
                                             spans: seq<Span>, j: nat, k: nat)
    requires IsSplit(tokens, ds, skips, spans) && j <= k < |spans|
    ensures spans[j].pos <= spans[k].pos && (j < k ==> spans[j].pos < spans[k].pos)
    decreases k - j
  {
    hide IsSplit, IsStart, RoleAt;
    if j < k {
      SpanAt(tokens, ds, skips, spans, k - 1);
      PositionsIncrease(tokens, ds, skips, spans, j, k - 1);
    }
  }

  /** Two splits agree from the front: each lists the starts in order, leaving none out. */
  lemma {:induction false} SplitsAgree(tokens: seq<Token>, ds: seq<Delimiter>, skips: seq<Skip>, a: seq<Span>,
                                       b: seq<Span>, k: nat)
    requires IsSplit(tokens, ds, skips, a) && IsSplit(tokens, ds, skips, b) && k < |a|
    ensures k < |b| && a[k].pos == b[k].pos
  {
    hide IsSplit, IsStart, RoleAt;
    var m := IndexOf(tokens, ds, skips, a, b, k);
    if k > 0 {
      SplitsAgree(tokens, ds, skips, a, b, k - 1);
      PositionsIncrease(tokens, ds, skips, a, k - 1, k);
    }
    if m < k {
      PositionsIncrease(tokens, ds, skips, b, m, k - 1);
    } else if m > k {
      var n := IndexOf(tokens, ds, skips, b, a, k);
      PositionsIncrease(tokens, ds, skips, b, k, m);
      if n < k {
        PositionsIncrease(tokens, ds, skips, a, n, k - 1);
        PositionsIncrease(tokens, ds, skips, b, k - 1, k);
      } else {
        PositionsIncrease(tokens, ds, skips, a, k, n);
      }
    }
  }

  /** The result of `Split` is the only one that meets the rules. */
  lemma SplitIsUnique(tokens: seq<Token>, ds: seq<Delimiter>, skips: seq<Skip>, a: seq<Span>, b: seq<Span>)
    requires IsSplit(tokens, ds, skips, a) && IsSplit(tokens, ds, skips, b)
    ensures a == b
  {
    hide IsSplit, IsStart, RoleAt;
    if |a| > |b| {
      SplitsAgree(tokens, ds, skips, a, b, |b|);
    } else if |b| > |a| {
      SplitsAgree(tokens, ds, skips, b, a, |a|);
    }
    forall k | 0 <= k < |a| ensures a[k] == b[k] {
      SplitsAgree(tokens, ds, skips, a, b, k);
      SpanAt(tokens, ds, skips, a, k);
      SpanAt(tokens, ds, skips, b, k);
      if k + 1 < |a| {
        SplitsAgree(tokens, ds, skips, a, b, k + 1);
      }
    }
  }

  /** With non-overlapping skips, the starts are the matches outside every skip region. */
  lemma {:induction false} NonOverlappingStarts(tokens: seq<Token>, ds: seq<Delimiter>, skips: seq<Skip>, p: nat)
    requires NonOverlapping(skips)
    ensures IsStart(tokens, ds, skips, p) <==>
      p < |tokens| && RoleAt(tokens, ds, p).Some?
      && forall j :: 0 <= j < |skips| ==> !(skips[j].start <= p < skips[j].start + skips[j].len)
  {
    AllEffective(skips, 0);
  }

  // ----- Overlapping skips -----

  lemma {:induction false} EffectiveIff(skips: seq<Skip>, k: nat)
    requires k <= |skips|
    ensures Effective(skips, k) == |skips| <==>
      forall j :: k <= j < |skips| && 0 < j ==> skips[j - 1].start + skips[j - 1].len <= skips[j].start
    decreases |skips| - k
  {
    if k < |skips| {
      EffectiveIff(skips, k + 1);
    }
  }

  /** All skips act exactly when none starts inside the one before it. */
  lemma {:induction false} AllActIff(skips: seq<Skip>)
    ensures Effective(skips, 0) == |skips| <==> NonOverlapping(skips)
  {
    EffectiveIff(skips, 0);
  }

  /** Whatever is skipped at all is skipped by a skip that acts. */
  ghost predicate Covered(skips: seq<Skip>) {
    forall p: nat :: Skipped(skips, |skips|, p) ==> Skipped(skips, Effective(skips, 0), p)
  }

  /**
   Spans keep out of all skip regions, whatever the tokens and the delimiters are, exactly
   when the regions that are ignored are covered by those that act.
   */
  lemma {:induction false} KeptOutIff(skips: seq<Skip>)
    ensures Covered(skips) <==>
      forall tokens: seq<Token>, ds: seq<Delimiter>, p: nat ::
        IsStart(tokens, ds, skips, p) ==> !Skipped(skips, |skips|, p)
  {
    hide Skipped;
    if !Covered(skips) {
      var p: nat :| Skipped(skips, |skips|, p) && !Skipped(skips, Effective(skips, 0), p);
      var tokens, ds := seq(p + 1, _ => 0), [Delimiter(User, [0])];
      assert MatchesAt(tokens, ds[0], p);
      assert IsStart(tokens, ds, skips, p);
    }
  }

  /** A skip inside another one switches off a third one far away from both. */
  lemma {:induction false} IgnoredSkip()
    ensures var skips := [Skip(0, 2), Skip(1, 0), Skip(4, 1)];
      var tokens, ds := [9, 9, 9, 9, 7], [Delimiter(User, [7])];
      Sorted(skips) && InSkip(skips[2], 4) && IsStart(tokens, ds, skips, 4)
  {
    var skips := [Skip(0, 2), Skip(1, 0), Skip(4, 1)];
    var tokens, ds := [9, 9, 9, 9, 7], [Delimiter(User, [7])];
    assert Effective(skips, 0) == Effective(skips, 1) == 1;
    assert tokens[4..5] == [7] && MatchesAt(tokens, ds[0], 4);
  }
}
