/**
 What the reordering of tool results promises: nothing but tool messages moves, each
 maximal run is stably sorted by the calls of the latest tool-calling assistant, and
 doing it twice changes nothing.
 */
module ToolResultOrderLaws {
  import opened Prelude
  import opened ToolResultOrder

  /** The call order in force at index `i`: that of the latest tool-calling assistant before it. */
  function OrderAt(order: CallOrder, ms: seq<Message>, i: nat): CallOrder
    requires i <= |ms|
  {
    if i == 0 then order
    else if CallsTools(ms[i - 1]) then OrderOf(ms[i - 1])
    else OrderAt(order, ms, i - 1)
  }

  predicate MaximalRun(ms: seq<Message>, a: nat, b: nat) {
    && a < b <= |ms|
    && (forall i :: a <= i < b ==> InRun(ms[i]))
    && (a > 0 ==> !InRun(ms[a - 1]))
    && (b < |ms| ==> !InRun(ms[b]))
  }

  /** Tool messages stay at tool positions, stably sorted; the others stay put. */
  ghost predicate RunSorted(order: CallOrder, run: seq<Message>, out: seq<Message>) {
    && |out| == |run|
    && (forall i :: 0 <= i < |run| ==> out[i].role == run[i].role)
    && (forall i :: 0 <= i < |run| && !IsTool(run[i]) ==> out[i] == run[i])
    && StablySorted(order, Tools(run), Tools(out))
    && multiset(Tools(out)) == multiset(Tools(run))
  }

  // ----- One run -----

  lemma {:induction false} ToolsAreTools(run: seq<Message>)
    ensures forall i :: 0 <= i < |Tools(run)| ==> IsTool(Tools(run)[i])
  {
    if run != [] {
      ToolsAreTools(run[1..]);
    }
  }

  lemma {:induction false} PlacedRun(run: seq<Message>, tools: seq<Message>)
    requires |tools| == |Tools(run)| && forall i :: 0 <= i < |tools| ==> IsTool(tools[i])
    ensures var out := PlaceTools(run, tools);
      && Tools(out) == tools
      && (forall i :: 0 <= i < |run| ==> out[i].role == run[i].role)
      && (forall i :: 0 <= i < |run| && !IsTool(run[i]) ==> out[i] == run[i])
  {
    hide Tools;
    if run == [] {
      ToolsCons(Message("", None, "", ""), []);
    } else {
      var rest := run[1..];
      assert run == [run[0]] + rest;
      ToolsCons(run[0], rest);
      if IsTool(run[0]) {
        PlacedRun(rest, tools[1..]);
        ToolsCons(tools[0], PlaceTools(rest, tools[1..]));
      } else {
        PlacedRun(rest, tools);
        ToolsCons(run[0], PlaceTools(rest, tools));
      }
    }
  }

  lemma {:induction false} SortedTools(order: CallOrder, run: seq<Message>)
    ensures |Sort(order, Tools(run))| == |Tools(run)|
    ensures forall i :: 0 <= i < |Sort(order, Tools(run))| ==> IsTool(Sort(order, Tools(run))[i])
  {
    var ts, s := Tools(run), Sort(order, Tools(run));
    SortIsStable(order, ts);
    ToolsAreTools(run);
    forall i | 0 <= i < |s| ensures IsTool(s[i]) {
      assert s[i] in multiset(s);
      assert s[i] in ts;
    }
  }

  lemma RunIsSorted(order: CallOrder, run: seq<Message>)
    ensures RunSorted(order, run, SortRun(order, run))
  {
    hide Tools, Sort, PlaceTools;
    SortIsStable(order, Tools(run));
    SortedTools(order, run);
    PlacedRun(run, Sort(order, Tools(run)));
  }

  lemma {:induction false} PlaceOwnTools(run: seq<Message>)
    ensures PlaceTools(run, Tools(run)) == run
  {
    hide Tools;
    if run != [] {
      var rest := run[1..];
      PlaceOwnTools(rest);
      assert run == [run[0]] + rest;
      ToolsCons(run[0], rest);
      assert ([run[0]] + Tools(rest))[1..] == Tools(rest);
      assert [] + Tools(rest) == Tools(rest);
    }
  }

  lemma RunSortedTwice(order: CallOrder, run: seq<Message>)
    ensures SortRun(order, SortRun(order, run)) == SortRun(order, run)
  {
    hide Tools, Sort, PlaceTools;
    var out := SortRun(order, run);
    var ts := Tools(out);
    RunIsSorted(order, run);
    SortIsStable(order, ts);
    StableSortIsUnique(order, ts, Sort(order, ts));
    PlaceOwnTools(out);
  }

  // ----- The whole list -----

  lemma {:induction false} OrderAtShift(order: CallOrder, ms: seq<Message>, n: nat, i: nat)
    requires n <= i <= |ms|
    ensures OrderAt(order, ms, i) == OrderAt(OrderAt(order, ms, n), ms[n..], i - n)
    decreases i
  {
    if n < i {
      OrderAtShift(order, ms, n, i - 1);
      assert ms[n..][i - 1 - n] == ms[i - 1];
    }
  }

  lemma {:induction false} OrderInRun(order: CallOrder, ms: seq<Message>, n: nat)
    requires n <= |ms| && forall i :: 0 <= i < n ==> InRun(ms[i])
    ensures OrderAt(order, ms, n) == order
  {
    if n > 0 {
      OrderInRun(order, ms, n - 1);
    }
  }

  lemma {:induction false} RunLengthIs(ms: seq<Message>, n: nat)
    requires n <= |ms| && (forall i :: 0 <= i < n ==> InRun(ms[i])) && (n < |ms| ==> !InRun(ms[n]))
    ensures RunLength(ms) == n
  {}

  /** Each maximal run of the output is the sorted run of the input, under the order in force. */
  lemma {:induction false} RunsAreSeparate(order: CallOrder, ms: seq<Message>, a: nat, b: nat)
    requires MaximalRun(ms, a, b)
    ensures SortResults(order, ms)[a..b] == SortRun(OrderAt(order, ms, a), ms[a..b])
    decreases |ms|
  {
    hide SortResults, SortRun, RunLength, OrderOf;
    SortUnfold(order, ms);
    if InRun(ms[0]) {
      var n := RunLength(ms);
      if a < n {
        assert a == 0;
        RunLengthIs(ms, b);
        assert ms[0..b] == ms[..b];
      } else {
        SkipHead(order, ms, n, a, b);
        RunsAreSeparate(order, ms[n..], a - n, b - n);
        OrderInRun(order, ms, n);
        OrderAtShift(order, ms, n, a);
        SliceOfRest(ms, n, a, b);
      }
    } else {
      var next := OrderAt(order, ms, 1);
      SkipOther(order, ms, a, b);
      RunsAreSeparate(next, ms[1..], a - 1, b - 1);
      OrderAtShift(order, ms, 1, a);
      SliceOfRest(ms, 1, a, b);
    }
  }

  lemma SliceOfRest(ms: seq<Message>, n: nat, a: nat, b: nat)
    requires n <= a <= b <= |ms|
    ensures ms[n..][a - n..b - n] == ms[a..b]
  {}

  /** A run after a message that is in none. */
  lemma {:induction false} SkipOther(order: CallOrder, ms: seq<Message>, a: nat, b: nat)
    requires MaximalRun(ms, a, b) && !InRun(ms[0])
    ensures a > 0 && MaximalRun(ms[1..], a - 1, b - 1)
    ensures SortResults(order, ms)[a..b] == SortResults(OrderAt(order, ms, 1), ms[1..])[a - 1..b - 1]
  {
    hide SortResults, SortRun, RunLength, OrderOf;
    SortUnfold(order, ms);
    assert OrderAt(order, ms, 1) == if CallsTools(ms[0]) then OrderOf(ms[0]) else order;
  }

  lemma {:induction false} SkipHead(order: CallOrder, ms: seq<Message>, n: nat, a: nat, b: nat)
    requires MaximalRun(ms, a, b) && InRun(ms[0]) && n == RunLength(ms) <= a
    ensures n > 0 && MaximalRun(ms[n..], a - n, b - n)
    ensures SortResults(order, ms)[a..b] == SortResults(order, ms[n..])[a - n..b - n]
  {
    hide SortResults, SortRun, RunLength;
    SortUnfold(order, ms);
    RunAdvances(ms);
  }

  /** Messages outside the runs are untouched, and no role changes anywhere. */
  lemma {:induction false} NothingElseMoves(order: CallOrder, ms: seq<Message>, i: nat)
    requires i < |ms|
    ensures SortResults(order, ms)[i].role == ms[i].role
    ensures !IsTool(ms[i]) ==> SortResults(order, ms)[i] == ms[i]
    decreases |ms|
  {
    hide SortResults, SortRun, OrderOf, RunLength, RunSorted;
    SortUnfold(order, ms);
    if InRun(ms[0]) {
      var n := RunLength(ms);
      RunAdvances(ms);
      if i < n {
        RunIsSorted(order, ms[..n]);
        SortedAt(order, ms[..n], SortRun(order, ms[..n]), i);
      } else {
        NothingElseMoves(order, ms[n..], i - n);
      }
    } else if i > 0 {
      NothingElseMoves(if CallsTools(ms[0]) then OrderOf(ms[0]) else order, ms[1..], i - 1);
    }
  }

  lemma SortedAt(order: CallOrder, run: seq<Message>, out: seq<Message>, i: nat)
    requires RunSorted(order, run, out) && i < |run|
    ensures i < |out| && out[i].role == run[i].role && (!IsTool(run[i]) ==> out[i] == run[i])
  {}

  /**
   The whole promise: every maximal run comes out stably sorted by the latest tool-calling
   assistant before it, and every other message stays where it was.
   */
  lemma {:induction false} ResultsAreSorted(ms: seq<Message>)
    ensures var out := SortResults(map[], ms);
      && |out| == |ms|
      && (forall i :: 0 <= i < |ms| ==> out[i].role == ms[i].role)
      && (forall i :: 0 <= i < |ms| && !IsTool(ms[i]) ==> out[i] == ms[i])
      && forall a: nat, b: nat :: MaximalRun(ms, a, b) ==> RunSorted(OrderAt(map[], ms, a), ms[a..b], out[a..b])
  {
    hide SortResults, SortRun, RunSorted, OrderAt;
    var out := SortResults(map[], ms);
    forall i | 0 <= i < |ms| ensures out[i].role == ms[i].role && (!IsTool(ms[i]) ==> out[i] == ms[i]) {
      NothingElseMoves(map[], ms, i);
    }
    forall a: nat, b: nat | MaximalRun(ms, a, b) ensures RunSorted(OrderAt(map[], ms, a), ms[a..b], out[a..b]) {
      RunsAreSeparate(map[], ms, a, b);
      RunIsSorted(OrderAt(map[], ms, a), ms[a..b]);
    }
  }

  lemma {:induction false} Idempotent(order: CallOrder, ms: seq<Message>)
    ensures SortResults(order, SortResults(order, ms)) == SortResults(order, ms)
    decreases |ms|
  {
    hide SortResults, SortRun, OrderOf, RunLength;
    var out := SortResults(order, ms);
    SortUnfold(order, ms);
    SortUnfold(order, out);
    if ms == [] {
    } else if InRun(ms[0]) {
      var n := RunLength(ms);
      RunAdvances(ms);
      var head, tail := SortRun(order, ms[..n]), SortResults(order, ms[n..]);
      assert out == head + tail && out[..n] == head && out[n..] == tail;
      SameRunLength(order, ms);
      RunSortedTwice(order, ms[..n]);
      Idempotent(order, ms[n..]);
      NothingElseMoves(order, ms, 0);
    } else {
      var next := if CallsTools(ms[0]) then OrderOf(ms[0]) else order;
      assert out[0] == ms[0] && out[1..] == SortResults(next, ms[1..]);
      Idempotent(next, ms[1..]);
    }
  }

  lemma {:induction false} SameRunLength(order: CallOrder, ms: seq<Message>)
    ensures RunLength(SortResults(order, ms)) == RunLength(ms)
  {
    hide SortResults;
    var out := SortResults(order, ms);
    forall i | 0 <= i < |ms| ensures InRun(out[i]) == InRun(ms[i]) {
      NothingElseMoves(order, ms, i);
    }
    RunLengthIs(out, RunLength(ms));
  }

  // ----- In plain terms -----

  /** Index `k` is that of the last call with the non-empty id of `m`. */
  ghost predicate AnswersCall(ids: seq<string>, m: Message, k: nat) {
    && m.toolCallId != "" && k < |ids| && ids[k] == m.toolCallId
    && forall j :: k < j < |ids| ==> ids[j] != m.toolCallId
  }

  ghost predicate AnswersNoCall(ids: seq<string>, m: Message) {
    m.toolCallId == "" || m.toolCallId !in ids
  }

  /** A result ranks as the last call with its id, and first when there is none. */
  lemma {:induction false} RankIs(m: Message, result: Message)
    requires CallsTools(m)
    ensures var ids, rank := m.toolCalls.value, Rank(OrderOf(m), result);
      && (forall k: nat :: AnswersCall(ids, result, k) ==> rank == k)
      && (AnswersNoCall(ids, result) ==> rank == 0)
      && (AnswersNoCall(ids, result) || AnswersCall(ids, result, rank))
  {
    var ids := m.toolCalls.value;
    OrderFromIsLast(ids, 0, map[]);
    assert ids[..|ids|] == ids;
    var order := OrderFrom(ids, 0, map[]);
    if result.toolCallId in order {
      assert IsLastIndex(ids, |ids|, result.toolCallId, order[result.toolCallId]);
    }
  }

  /** The latest message before index `a` that is an assistant's with calls is at `c`. */
  ghost predicate LatestCalls(ms: seq<Message>, c: nat, a: nat) {
    && c < a <= |ms|
    && ms[c].role == "assistant" && ms[c].toolCalls.Some? && ms[c].toolCalls.value != []
    && forall k :: c < k < a ==> ms[k].role != "assistant" || ms[k].toolCalls.None? || ms[k].toolCalls.value == []
  }

  /** A stretch of user and tool messages with no other such message next to it. */
  ghost predicate WholeStretch(ms: seq<Message>, a: nat, b: nat) {
    && a < b <= |ms|
    && (forall i :: a <= i < b ==> ms[i].role in {"user", "tool"})
    && (a > 0 ==> ms[a - 1].role !in {"user", "tool"})
    && (b < |ms| ==> ms[b].role !in {"user", "tool"})
  }

  lemma {:induction false} OrderAtCalls(ms: seq<Message>, c: nat, a: nat)
    requires LatestCalls(ms, c, a)
    ensures OrderAt(map[], ms, a) == OrderOf(ms[c])
    decreases a
  {
    if c + 1 < a {
      OrderAtCalls(ms, c, a - 1);
    }
  }

  lemma {:induction false} OrderAtNone(ms: seq<Message>, a: nat)
    requires a <= |ms|
    requires forall k :: 0 <= k < a ==>
      ms[k].role != "assistant" || ms[k].toolCalls.None? || ms[k].toolCalls.value == []
    ensures OrderAt(map[], ms, a) == map[]
    decreases a
  {
    if a > 0 {
      OrderAtNone(ms, a - 1);
    }
  }

  /** The tool messages of a sorted run ascend, at whatever positions they are. */
  lemma {:induction false} RunAscends(order: CallOrder, out: seq<Message>, i: nat, j: nat)
    requires Sorted(order, Tools(out)) && i < j < |out| && IsTool(out[i]) && IsTool(out[j])
    ensures Rank(order, out[i]) <= Rank(order, out[j])
  {
    hide Rank;
    ToolIsAt(out, i);
    ToolIsAt(out, j);
    CountIncreases(out, i, j);
  }

  lemma {:induction false} ToolIsAt(run: seq<Message>, j: nat)
    requires j < |run| && IsTool(run[j])
    ensures |Tools(run[..j])| < |Tools(run)| && Tools(run)[|Tools(run[..j])|] == run[j]
  {
    CountBelow(run, j);
    if j > 0 {
      assert run[..j][1..] == run[1..][..j - 1];
      ToolIsAt(run[1..], j - 1);
    }
  }

  /**
   In the output, the results after a message with calls are in the order of the calls they
   answer, and those that answer none are not behind a result of a call after the first.
   */
  lemma {:induction false} ResultsFollowCalls(ms: seq<Message>, c: nat, a: nat, b: nat, i: nat, j: nat)
    requires LatestCalls(ms, c, a) && WholeStretch(ms, a, b)
    requires a <= i < j < b && ms[i].role == ms[j].role == "tool"
    ensures var out, ids := SortResults(map[], ms), ms[c].toolCalls.value;
      && out[i].role == out[j].role == "tool"
      && (forall p: nat, q: nat :: AnswersCall(ids, out[i], p) && AnswersCall(ids, out[j], q) ==> p <= q)
      && (forall p: nat :: AnswersCall(ids, out[i], p) && AnswersNoCall(ids, out[j]) ==> p == 0)
  {
    hide SortResults, SortRun, RunSorted, OrderAt, OrderOf, Rank, AnswersCall, AnswersNoCall, Tools, Sorted;
    var out, order := SortResults(map[], ms), OrderAt(map[], ms, a);
    assert MaximalRun(ms, a, b);
    NothingElseMoves(map[], ms, i);
    NothingElseMoves(map[], ms, j);
    RunsAreSeparate(map[], ms, a, b);
    RunIsSorted(order, ms[a..b]);
    RunSortedAscends(order, ms[a..b], out[a..b], i - a, j - a);
    OrderAtCalls(ms, c, a);
    RankIs(ms[c], out[i]);
    RankIs(ms[c], out[j]);
  }

  lemma {:induction false} RunSortedAscends(order: CallOrder, run: seq<Message>, out: seq<Message>, i: nat, j: nat)
    requires RunSorted(order, run, out) && i < j < |out| && IsTool(out[i]) && IsTool(out[j])
    ensures Rank(order, out[i]) <= Rank(order, out[j])
  {
    RunAscends(order, out, i, j);
  }

  /** Before any message with calls, nothing is reordered. */
  lemma {:induction false} NoCallsNoChange(ms: seq<Message>, i: nat)
    requires i < |ms|
    requires forall k :: 0 <= k < i ==>
      ms[k].role != "assistant" || ms[k].toolCalls.None? || ms[k].toolCalls.value == []
    ensures SortResults(map[], ms)[i] == ms[i]
  {
    NoCallsPrefix(ms, i);
  }

  lemma {:induction false} NoCallsPrefix(ms: seq<Message>, i: nat)
    requires i < |ms|
    requires forall k :: 0 <= k < i ==> !CallsTools(ms[k])
    ensures SortResults(map[], ms)[i] == ms[i]
    decreases |ms|
  {
    hide SortResults, RunLength, OrderOf;
    SortUnfold(map[], ms);
    if InRun(ms[0]) {
      var n := RunLength(ms);
      RunAdvances(ms);
      if i >= n {
        NoCallsPrefix(ms[n..], i - n);
      }
    } else if i > 0 {
      NoCallsPrefix(ms[1..], i - 1);
    }
  }
}
