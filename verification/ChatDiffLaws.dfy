/**
 What the differences say and what the client ends with (chat.cpp, compute_diffs), also
 where the new message does not extend the old one.
 */
module ChatDiffLaws {
  import opened Prelude
  import opened ChatDiff

  // ----- What the client ends with, whether or not the new message extends the old one -----

  /** The longer of two texts of which one starts the other. */
  predicate IsLonger(a: string, b: string, r: string) {
    (a <= b ==> r == b) && (b <= a ==> r == a)
  }

  predicate IsLongerCall(p: ToolCall, q: ToolCall, r: ToolCall) {
    && IsLonger(p.arguments, q.arguments, r.arguments)
    && r.name == (if q.name == "" then p.name else q.name)
    && r.id == (if q.id == "" then p.id else q.id)
  }

  /** Earlier calls stay, the last known one gets the longer arguments, and the new ones are there. */
  ghost predicate AreLonger(prev: seq<ToolCall>, next: seq<ToolCall>, r: seq<ToolCall>) {
    var n := |prev|;
    && |r| == |next| >= n
    && (forall i :: 0 <= i < n - 1 ==> r[i] == prev[i])
    && (forall i :: n <= i < |r| ==> r[i] == next[i])
    && (n > 0 ==> IsLongerCall(prev[n - 1], next[n - 1], r[n - 1]))
  }

  /** A text that got shorter is not sent again: the client keeps the longer one. */
  lemma {:induction false} ClientKeepsLonger(prev: Msg, next: Msg)
    requires ComputeDiffs(prev, next).Ok?
    ensures var m := ApplyAll(prev, ComputeDiffs(prev, next).value);
      && IsLonger(prev.content, next.content, m.content)
      && IsLonger(prev.reasoning, next.reasoning, m.reasoning)
      && AreLonger(prev.toolCalls, next.toolCalls, m.toolCalls)
  {
    DiffsExistIff(prev, next);
    ApplyDiffsIsPatched(prev, next);
    PatchedTexts(prev, next, ApplyAll(prev, ComputeDiffs(prev, next).value));
  }

  lemma PatchedTexts(prev: Msg, next: Msg, m: Msg)
    requires Comparable(prev.content, next.content) && Comparable(prev.reasoning, next.reasoning)
    requires |prev.toolCalls| <= |next.toolCalls|
    requires prev.toolCalls != [] ==>
      Comparable(prev.toolCalls[|prev.toolCalls| - 1].arguments, next.toolCalls[|prev.toolCalls| - 1].arguments)
    requires StringDiff(prev.content, next.content).Ok? && StringDiff(prev.reasoning, next.reasoning).Ok?
    requires prev.toolCalls != [] ==>
      StringDiff(prev.toolCalls[|prev.toolCalls| - 1].arguments, next.toolCalls[|prev.toolCalls| - 1].arguments).Ok?
    requires m == Msg(prev.content + StringDiff(prev.content, next.content).value,
                      prev.reasoning + StringDiff(prev.reasoning, next.reasoning).value,
                      PatchedCalls(prev.toolCalls, next.toolCalls))
    ensures IsLonger(prev.content, next.content, m.content) && IsLonger(prev.reasoning, next.reasoning, m.reasoning)
    ensures AreLonger(prev.toolCalls, next.toolCalls, m.toolCalls)
  {
    hide StringDiff, PatchedCall, IsLonger, IsLongerCall;
    LongerIs(prev.content, next.content);
    LongerIs(prev.reasoning, next.reasoning);
    if prev.toolCalls != [] {
      var i := |prev.toolCalls| - 1;
      PatchedCallIs(prev.toolCalls[i], next.toolCalls[i]);
    }
  }

  lemma PatchedCallIs(p: ToolCall, q: ToolCall)
    requires Comparable(p.arguments, q.arguments)
    ensures StringDiff(p.arguments, q.arguments).Ok?
    ensures IsLongerCall(p, q, PatchedCall(p, q))
  {
    LongerIs(p.arguments, q.arguments);
  }

  lemma LongerIs(a: string, b: string)
    requires Comparable(a, b)
    ensures StringDiff(a, b).Ok? && IsLonger(a, b, a + StringDiff(a, b).value)
  {
    assert a + "" == a;
  }

  /** Everything of call `i` that the differences say. */
  function CallDeltas(ds: seq<Diff>, i: nat): seq<ToolCall> {
    if ds == [] then [] else (if ds[0].index == Some(i) then [ds[0].callDelta] else []) + CallDeltas(ds[1..], i)
  }

  lemma {:induction false} CallDeltasConcat(a: seq<Diff>, b: seq<Diff>, i: nat)
    ensures CallDeltas(a + b, i) == CallDeltas(a, i) + CallDeltas(b, i)
  {
    if a == [] {
      assert a + b == b;
    } else {
      var first := if a[0].index == Some(i) then [a[0].callDelta] else [];
      assert (a + b)[1..] == a[1..] + b && (a + b)[0] == a[0];
      CallDeltasConcat(a[1..], b, i);
      assert first + (CallDeltas(a[1..], i) + CallDeltas(b, i)) == (first + CallDeltas(a[1..], i)) + CallDeltas(b, i);
    }
  }

  lemma {:induction false} NewCallDeltas(calls: seq<ToolCall>, from: nat, i: nat)
    requires from <= |calls|
    ensures CallDeltas(NewCalls(calls, from), i) == if from <= i < |calls| then [calls[i]] else []
    decreases |calls| - from
  {
    if from < |calls| {
      NewCallsNext(calls, from);
      NewCallDeltas(calls, from + 1, i);
      assert NewCalls(calls, from)[1..] == NewCalls(calls, from + 1);
    }
  }

  lemma {:induction false} NoCallDeltas(ds: seq<Diff>, i: nat)
    requires forall k :: 0 <= k < |ds| ==> ds[k].index.None?
    ensures CallDeltas(ds, i) == []
  {
    if ds != [] {
      NoCallDeltas(ds[1..], i);
    }
  }

  /**
   Each new call is sent once and whole. Of the last known call, what was added is sent, with
   its name and id exactly when one of them changed, and nothing when nothing did. Of earlier
   calls nothing is sent.
   */
  lemma {:induction false} DeltasOfCall(prev: Msg, next: Msg, i: nat)
    requires ComputeDiffs(prev, next).Ok? && i < |next.toolCalls|
    ensures var deltas := CallDeltas(ComputeDiffs(prev, next).value, i);
      var n := |prev.toolCalls|;
      if i >= n then deltas == [next.toolCalls[i]]
      else if i < n - 1 then deltas == []
      else
        var p, q := prev.toolCalls[i], next.toolCalls[i];
        var added := if p.arguments <= q.arguments then q.arguments[|p.arguments|..] else "";
        deltas == if p.name != q.name || p.id != q.id then [ToolCall(q.name, added, q.id)]
                  else if added != "" then [ToolCall("", added, "")] else []
  {
    hide CallDeltas, NewCalls;
    var n := |prev.toolCalls|;
    var r := TextDiffs(prev.reasoning, next.reasoning, true).value;
    var c := TextDiffs(prev.content, next.content, false).value;
    var k := if n == 0 then [] else CallDiffs(n - 1, prev.toolCalls[n - 1], next.toolCalls[n - 1]).value;
    var added := NewCalls(next.toolCalls, n);
    assert ComputeDiffs(prev, next).value == (r + c + k) + added by {
      assert n == 0 ==> r + c + k == r + c;
    }
    NoCallDeltas(r + c, i);
    CallDeltasConcat(r + c + k, added, i);
    CallDeltasConcat(r + c, k, i);
    NewCallDeltas(next.toolCalls, n, i);
    if k != [] {
      OneCallDelta(k[0], i);
    } else {
      NoCallDeltas([], i);
    }
  }

  lemma {:induction false} OneCallDelta(d: Diff, i: nat)
    ensures CallDeltas([d], i) == if d.index == Some(i) then [d.callDelta] else []
  {
    assert [d][1..] == [];
  }

  // ----- The order of the differences, and the errors -----

  /** Differences of calls only, for ascending indices from `from` on. */
  ghost predicate CallsAscend(ds: seq<Diff>, from: nat) {
    && (forall k :: 0 <= k < |ds| ==>
          ds[k].index.Some? && from <= ds[k].index.value && ds[k].reasoningDelta == ds[k].contentDelta == "")
    && (forall j, k :: 0 <= j < k < |ds| ==> ds[j].index.value < ds[k].index.value)
  }

  lemma {:induction false} NewCallsAscend(calls: seq<ToolCall>, from: nat)
    requires from <= |calls|
    ensures CallsAscend(NewCalls(calls, from), from)
    decreases |calls| - from
  {
    if from < |calls| {
      NewCallsNext(calls, from);
      NewCallsAscend(calls, from + 1);
    }
  }

  lemma TextDiffsAre(last: string, current: string, isReasoning: bool)
    requires TextDiffs(last, current, isReasoning).Ok?
    ensures var ds := TextDiffs(last, current, isReasoning).value;
      && |ds| == (if last == current then 0 else 1)
      && (ds != [] ==> ds[0].index == None && (if isReasoning then ds[0].contentDelta else ds[0].reasoningDelta) == "")
  {}

  lemma CallDiffsAscend(index: nat, prev: ToolCall, next: ToolCall, added: seq<Diff>)
    requires CallDiffs(index, prev, next).Ok? && CallsAscend(added, index + 1)
    ensures CallsAscend(CallDiffs(index, prev, next).value + added, 0)
  {
    hide StringDiff;
    var ds := CallDiffs(index, prev, next).value;
    assert |ds| <= 1;
  }

  lemma ThreeParts(a: seq<Diff>, b: seq<Diff>, c: seq<Diff>)
    ensures var ds := a + b + c;
      && ds[|a| + |b|..] == c
      && (forall i :: 0 <= i < |a| ==> ds[i] == a[i])
      && (forall i :: 0 <= i < |b| ==> ds[|a| + i] == b[i])
  {}

  /** Each difference says one thing: the reasoning first, then the content, then the calls by index. */
  lemma {:induction false} DiffsAreOrdered(prev: Msg, next: Msg)
    requires ComputeDiffs(prev, next).Ok?
    ensures var ds := ComputeDiffs(prev, next).value;
      var r := if prev.reasoning == next.reasoning then 0 else 1;
      var c := if prev.content == next.content then 0 else 1;
      && r + c <= |ds|
      && (r == 1 ==> ds[0].index == None && ds[0].contentDelta == "")
      && (c == 1 ==> ds[r].index == None && ds[r].reasoningDelta == "")
      && CallsAscend(ds[r + c..], 0)
  {
    hide NewCalls, StringDiff, TextDiffs, CallDiffs, CallsAscend;
    var n := |prev.toolCalls|;
    var r := TextDiffs(prev.reasoning, next.reasoning, true).value;
    var c := TextDiffs(prev.content, next.content, false).value;
    var added := NewCalls(next.toolCalls, n);
    NewCallsAscend(next.toolCalls, n);
    TextDiffsAre(prev.reasoning, next.reasoning, true);
    TextDiffsAre(prev.content, next.content, false);
    if n == 0 {
      ThreeParts(r, c, added);
      assert ComputeDiffs(prev, next).value == r + c + added;
    } else {
      var k := CallDiffs(n - 1, prev.toolCalls[n - 1], next.toolCalls[n - 1]).value;
      CallDiffsAscend(n - 1, prev.toolCalls[n - 1], next.toolCalls[n - 1], added);
      assert ComputeDiffs(prev, next).value == r + c + (k + added);
      ThreeParts(r, c, k + added);
    }
  }

  /** Which error is thrown: that of the texts before that of the calls, names before arguments. */
  lemma ErrorIs(prev: Msg, next: Msg)
    ensures var r, n := ComputeDiffs(prev, next), |prev.toolCalls|;
      if !Comparable(prev.reasoning, next.reasoning) || !Comparable(prev.content, next.content)
      then r == Err(TextMismatch)
      else if |next.toolCalls| < n then r == Err(FewerToolCalls)
      else if n == 0 then r.Ok?
      else
        var p, q := prev.toolCalls[n - 1], next.toolCalls[n - 1];
        if p.name != "" && q.name != "" && !(p.name <= q.name) then r == Err(NameMismatch)
        else if !Comparable(p.arguments, q.arguments) then r == Err(TextMismatch)
        else r.Ok?
  {}
}
