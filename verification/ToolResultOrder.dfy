/**
 Reordering tool results (chat.cpp, deepseek_v4_sort_tool_results): inside each maximal
 run of user and tool messages, the tool messages are put in the order of the tool calls
 they answer; everything else stays where it is.
 */
module ToolResultOrder {
  import opened Prelude

  /** `toolCalls` holds the ids of an array of tool calls, when the message has one. */
  datatype Message = Message(role: string, toolCalls: Option<seq<string>>, toolCallId: string, content: string)

  type CallOrder = map<string, nat>

  predicate IsTool(m: Message) {
    m.role == "tool"
  }

  predicate InRun(m: Message) {
    m.role == "user" || m.role == "tool"
  }

  predicate CallsTools(m: Message) {
    m.role == "assistant" && m.toolCalls.Some? && m.toolCalls.value != []
  }

  /** Each non-empty id with the last index it has among `ids[i..]`, over `order`. */
  function OrderFrom(ids: seq<string>, i: nat, order: CallOrder): CallOrder
    requires i <= |ids|
    decreases |ids| - i
  {
    if i == |ids| then order
    else OrderFrom(ids, i + 1, if ids[i] != "" then order[ids[i] := i] else order)
  }

  function OrderOf(m: Message): CallOrder
    requires CallsTools(m)
  {
    OrderFrom(m.toolCalls.value, 0, map[])
  }

  /** Unknown ids rank first, like the first call. */
  function Rank(order: CallOrder, m: Message): nat {
    if m.toolCallId in order then order[m.toolCallId] else 0
  }

  // ----- Stable sorting -----

  function Insert(order: CallOrder, m: Message, sorted: seq<Message>): seq<Message> {
    if sorted == [] || Rank(order, m) <= Rank(order, sorted[0]) then [m] + sorted
    else [sorted[0]] + Insert(order, m, sorted[1..])
  }

  function Sort(order: CallOrder, ms: seq<Message>): seq<Message> {
    if ms == [] then [] else Insert(order, ms[0], Sort(order, ms[1..]))
  }

  predicate Sorted(order: CallOrder, ms: seq<Message>) {
    forall i, j :: 0 <= i < j < |ms| ==> Rank(order, ms[i]) <= Rank(order, ms[j])
  }

  /** The messages of one rank, in order. */
  function OfRank(order: CallOrder, ms: seq<Message>, rank: nat): seq<Message> {
    if ms == [] then []
    else (if Rank(order, ms[0]) == rank then [ms[0]] else []) + OfRank(order, ms[1..], rank)
  }

  /** A stably sorted rearrangement: ranks ascend, and messages of equal rank keep their order. */
  ghost predicate StablySorted(order: CallOrder, before: seq<Message>, after: seq<Message>) {
    Sorted(order, after) && forall rank: nat :: OfRank(order, after, rank) == OfRank(order, before, rank)
  }

  function IfRank(order: CallOrder, m: Message, rank: nat): seq<Message> {
    if Rank(order, m) == rank then [m] else []
  }

  lemma {:induction false} OfRankCons(order: CallOrder, m: Message, tail: seq<Message>, rank: nat)
    ensures OfRank(order, [m] + tail, rank) == IfRank(order, m, rank) + OfRank(order, tail, rank)
  {
    assert ([m] + tail)[1..] == tail;
  }

  /** Messages of different ranks may be exchanged. */
  lemma {:induction false} OfRankSwap(order: CallOrder, x: Message, y: Message, tail: seq<Message>, rank: nat)
    requires Rank(order, x) != Rank(order, y)
    ensures OfRank(order, [x] + ([y] + tail), rank) == OfRank(order, [y] + ([x] + tail), rank)
  {
    hide OfRank;
    OfRankCons(order, x, [y] + tail, rank);
    OfRankCons(order, y, [x] + tail, rank);
    OfRankCons(order, x, tail, rank);
    OfRankCons(order, y, tail, rank);
  }

  lemma {:induction false} InsertKeeps(order: CallOrder, m: Message, sorted: seq<Message>)
    requires Sorted(order, sorted)
    ensures var r := Insert(order, m, sorted);
      && Sorted(order, r)
      && |r| == |sorted| + 1
      && (r[0] == m || (sorted != [] && r[0] == sorted[0]))
      && multiset(r) == multiset([m]) + multiset(sorted)
      && forall rank: nat :: OfRank(order, r, rank) == OfRank(order, [m] + sorted, rank)
  {
    hide Rank, OfRank;
    if sorted == [] || Rank(order, m) <= Rank(order, sorted[0]) {
      SortedCons(order, m, sorted);
    } else {
      var s0, rest := sorted[0], sorted[1..];
      InsertKeeps(order, m, rest);
      var tail := Insert(order, m, rest);
      assert sorted == [s0] + rest;
      forall rank: nat ensures OfRank(order, [s0] + tail, rank) == OfRank(order, [m] + sorted, rank) {
        OfRankCons(order, s0, tail, rank);
        OfRankCons(order, s0, [m] + rest, rank);
        OfRankSwap(order, s0, m, rest, rank);
      }
      SortedCons(order, s0, tail);
    }
  }

  lemma SortedCons(order: CallOrder, m: Message, tail: seq<Message>)
    requires Sorted(order, tail) && (tail != [] ==> Rank(order, m) <= Rank(order, tail[0]))
    ensures Sorted(order, [m] + tail)
  {}

  lemma {:induction false} SortIsStable(order: CallOrder, ms: seq<Message>)
    ensures StablySorted(order, ms, Sort(order, ms)) && multiset(Sort(order, ms)) == multiset(ms)
    ensures |Sort(order, ms)| == |ms|
  {
    if ms != [] {
      var rest := Sort(order, ms[1..]);
      SortIsStable(order, ms[1..]);
      InsertKeeps(order, ms[0], rest);
      assert ms == [ms[0]] + ms[1..];
      forall rank: nat ensures OfRank(order, Sort(order, ms), rank) == OfRank(order, ms, rank) {
        OfRankCons(order, ms[0], rest, rank);
        OfRankCons(order, ms[0], ms[1..], rank);
      }
    }
  }

  lemma {:induction false} OfRankNonempty(order: CallOrder, ms: seq<Message>, i: nat)
    requires i < |ms|
    ensures OfRank(order, ms, Rank(order, ms[i])) != []
  {
    if i > 0 {
      OfRankNonempty(order, ms[1..], i - 1);
    }
  }

  lemma {:induction false} OfRankMember(order: CallOrder, ms: seq<Message>, rank: nat)
    requires OfRank(order, ms, rank) != []
    ensures exists i :: 0 <= i < |ms| && Rank(order, ms[i]) == rank
  {
    if Rank(order, ms[0]) != rank {
      OfRankMember(order, ms[1..], rank);
      var i :| 0 <= i < |ms[1..]| && Rank(order, ms[1..][i]) == rank;
      assert Rank(order, ms[i + 1]) == rank;
    }
  }

  /** The stably sorted rearrangement is unique. */
  lemma {:induction false} StableSortIsUnique(order: CallOrder, a: seq<Message>, b: seq<Message>)
    requires Sorted(order, a) && StablySorted(order, a, b)
    ensures a == b
    decreases |a|
  {
    if a == [] {
      if b != [] {
        OfRankNonempty(order, b, 0);
      }
    } else {
      HeadsAgree(order, a, b);
      TailsAgree(order, a, b);
      StableSortIsUnique(order, a[1..], b[1..]);
      assert a == [a[0]] + a[1..] && b == [b[0]] + b[1..];
    }
  }

  lemma HeadsAgree(order: CallOrder, a: seq<Message>, b: seq<Message>)
    requires Sorted(order, a) && StablySorted(order, a, b) && a != []
    ensures b != [] && a[0] == b[0]
  {
    var r := Rank(order, a[0]);
    OfRankNonempty(order, a, 0);
    OfRankMember(order, b, r);
    var s := Rank(order, b[0]);
    OfRankNonempty(order, b, 0);
    OfRankMember(order, a, s);
    assert r == s;
    assert OfRank(order, a, r)[0] == a[0] && OfRank(order, b, r)[0] == b[0];
  }

  lemma TailsAgree(order: CallOrder, a: seq<Message>, b: seq<Message>)
    requires StablySorted(order, a, b) && a != [] && b != [] && a[0] == b[0]
    ensures StablySorted(order, a[1..], b[1..])
  {
    forall rank: nat ensures OfRank(order, b[1..], rank) == OfRank(order, a[1..], rank) {
      assert a == [a[0]] + a[1..] && b == [b[0]] + b[1..];
      OfRankCons(order, a[0], a[1..], rank);
      OfRankCons(order, b[0], b[1..], rank);
      var head := IfRank(order, a[0], rank);
      assert (head + OfRank(order, a[1..], rank))[|head|..] == OfRank(order, a[1..], rank);
      assert (head + OfRank(order, b[1..], rank))[|head|..] == OfRank(order, b[1..], rank);
    }
  }

  // ----- One run -----

  function Tools(run: seq<Message>): seq<Message> {
    if run == [] then [] else (if IsTool(run[0]) then [run[0]] else []) + Tools(run[1..])
  }

  /** The run with its tool messages replaced, in order, by those of `tools`. */
  function PlaceTools(run: seq<Message>, tools: seq<Message>): (r: seq<Message>)
    requires |tools| == |Tools(run)|
    ensures |r| == |run|
  {
    if run == [] then []
    else if IsTool(run[0]) then [tools[0]] + PlaceTools(run[1..], tools[1..])
    else [run[0]] + PlaceTools(run[1..], tools)
  }

  function SortRun(order: CallOrder, run: seq<Message>): (r: seq<Message>)
    ensures |r| == |run|
  {
    SortIsStable(order, Tools(run));
    if |Tools(run)| > 1 && |order| > 0 then PlaceTools(run, Sort(order, Tools(run))) else run
  }

  // ----- The whole list -----

  function RunLength(ms: seq<Message>): (n: nat)
    ensures n <= |ms| && (forall i :: 0 <= i < n ==> InRun(ms[i])) && (n < |ms| ==> !InRun(ms[n]))
  {
    if ms != [] && InRun(ms[0]) then 1 + RunLength(ms[1..]) else 0
  }

  function SortResults(order: CallOrder, ms: seq<Message>): (r: seq<Message>)
    ensures |r| == |ms|
    decreases |ms|
  {
    if ms == [] then []
    else if CallsTools(ms[0]) then [ms[0]] + SortResults(OrderOf(ms[0]), ms[1..])
    else if !InRun(ms[0]) then [ms[0]] + SortResults(order, ms[1..])
    else
      var n := RunLength(ms);
      SortRun(order, ms[..n]) + SortResults(order, ms[n..])
  }

  // ----- The loop of the source -----

  /** `k` is the last index of `id` among the first `n` ids. */
  predicate IsLastIndex(ids: seq<string>, n: nat, id: string, k: nat)
    requires n <= |ids|
  {
    k < n && ids[k] == id && forall j :: k < j < n ==> ids[j] != id
  }

  /** Every id but the empty one is mapped to its last index, and nothing else is mapped. */
  ghost predicate LastIndexes(ids: seq<string>, n: nat, order: CallOrder)
    requires n <= |ids|
  {
    && (forall id :: id in order <==> id != "" && id in ids[..n])
    && (forall id :: id in order ==> IsLastIndex(ids, n, id, order[id]))
  }

  lemma NextIndex(ids: seq<string>, n: nat, order: CallOrder)
    requires n < |ids| && LastIndexes(ids, n, order)
    ensures LastIndexes(ids, n + 1, if ids[n] != "" then order[ids[n] := n] else order)
  {
    assert ids[..n + 1] == ids[..n] + [ids[n]];
  }

  /** The order in force after a message that calls tools. */
  lemma {:induction false} OrderFromIsLast(ids: seq<string>, i: nat, order: CallOrder)
    requires i <= |ids| && LastIndexes(ids, i, order)
    ensures LastIndexes(ids, |ids|, OrderFrom(ids, i, order))
    decreases |ids| - i
  {
    hide LastIndexes;
    if i < |ids| {
      NextIndex(ids, i, order);
      OrderFromIsLast(ids, i + 1, if ids[i] != "" then order[ids[i] := i] else order);
    }
  }

  method BuildCallOrder(ids: seq<string>) returns (order: CallOrder)
    ensures order == OrderFrom(ids, 0, map[])
    ensures forall id :: id in order <==> id != "" && id in ids
    ensures forall id :: id in order ==> IsLastIndex(ids, |ids|, id, order[id])
  {
    order := map[];
    for idx := 0 to |ids|
      invariant OrderFrom(ids, idx, order) == OrderFrom(ids, 0, map[])
      invariant LastIndexes(ids, idx, order)
    {
      NextIndex(ids, idx, order);
      if ids[idx] != "" {
        order := order[ids[idx] := idx];
      }
    }
    assert ids[..|ids|] == ids;
  }

  lemma {:induction false} ToolsCons(m: Message, run: seq<Message>)
    ensures Tools([m] + run) == (if IsTool(m) then [m] else []) + Tools(run)
    ensures Tools([]) == []
  {
    assert ([m] + run)[1..] == run;
  }

  lemma {:induction false} ToolsSnoc(run: seq<Message>, m: Message)
    ensures Tools(run + [m]) == Tools(run) + (if IsTool(m) then [m] else [])
  {
    hide Tools;
    ToolsCons(m, []);
    assert [m] + [] == [m];
    if run == [] {
      assert run + [m] == [m];
    } else {
      var rest := run[1..];
      ToolsSnoc(rest, m);
      ToolsCons(run[0], rest);
      ToolsCons(run[0], rest + [m]);
      assert run == [run[0]] + rest && run + [m] == [run[0]] + (rest + [m]);
    }
  }

  /** The tool positions of a run, as collected by the scan. */
  ghost predicate ToolPositions(run: seq<Message>, base: nat, positions: seq<nat>) {
    && |positions| == |Tools(run)|
    && (forall k :: 0 <= k < |positions| ==>
          base <= positions[k] < base + |run| && IsTool(run[positions[k] - base])
          && |Tools(run[..positions[k] - base])| == k && Tools(run)[k] == run[positions[k] - base])
  }

  lemma NoPositions(base: nat)
    ensures ToolPositions([], base, [])
  {}

  lemma {:induction false} RunLengthUnfold(ms: seq<Message>)
    ensures RunLength(ms) == if ms != [] && InRun(ms[0]) then 1 + RunLength(ms[1..]) else 0
  {}

  method ScanRun(ms: seq<Message>, start: nat) returns (positions: seq<nat>, end: nat)
    requires start <= |ms|
    ensures end == start + RunLength(ms[start..])
    ensures ToolPositions(ms[start..end], start, positions)
  {
    hide Tools, ToolPositions, RunLength;
    positions := [];
    end := start;
    NoPositions(start);
    assert ms[start..start] == [];
    while end < |ms|
      invariant start <= end <= |ms|
      invariant RunLength(ms[start..]) == end - start + RunLength(ms[end..])
      invariant ToolPositions(ms[start..end], start, positions)
    {
      RunLengthUnfold(ms[end..]);
      assert ms[end..][1..] == ms[end + 1..];
      if !InRun(ms[end]) {
        return;
      }
      PositionsNext(ms, start, end, positions);
      if IsTool(ms[end]) {
        positions := positions + [end];
      }
      end := end + 1;
    }
    RunLengthUnfold(ms[end..]);
  }

  lemma PositionsSnoc(run: seq<Message>, m: Message, base: nat, positions: seq<nat>)
    requires ToolPositions(run, base, positions)
    ensures ToolPositions(run + [m], base, if IsTool(m) then positions + [base + |run|] else positions)
  {
    hide Tools;
    var next := run + [m];
    var after := if IsTool(m) then positions + [base + |run|] else positions;
    ToolsSnoc(run, m);
    forall k | 0 <= k < |after|
      ensures base <= after[k] < base + |next| && IsTool(next[after[k] - base])
      ensures |Tools(next[..after[k] - base])| == k && Tools(next)[k] == next[after[k] - base]
    {
      var p := after[k] - base;
      if k < |positions| {
        assert next[..p] == run[..p] && next[p] == run[p];
      } else {
        assert next[..p] == run;
      }
    }
  }

  lemma PositionsNext(ms: seq<Message>, start: nat, end: nat, positions: seq<nat>)
    requires start <= end < |ms| && ToolPositions(ms[start..end], start, positions)
    ensures ToolPositions(ms[start..end + 1], start, if IsTool(ms[end]) then positions + [end] else positions)
  {
    hide Tools, ToolPositions;
    PositionsSnoc(ms[start..end], ms[end], start, positions);
    assert ms[start..end + 1] == ms[start..end] + [ms[end]];
  }

  lemma {:induction false} ToolsBefore(run: seq<Message>, j: nat)
    requires 0 < j <= |run|
    ensures |Tools(run[..j])| == (if IsTool(run[0]) then 1 else 0) + |Tools(run[1..][..j - 1])|
  {
    assert run[..j][1..] == run[1..][..j - 1];
  }

  lemma {:induction false} PlaceNext(run: seq<Message>, tools: seq<Message>)
    requires run != [] && |tools| == |Tools(run)|
    ensures var rest := if IsTool(run[0]) then 1 else 0;
      && rest <= |tools| && |tools[rest..]| == |Tools(run[1..])|
      && PlaceTools(run, tools)
         == [if IsTool(run[0]) then tools[0] else run[0]] + PlaceTools(run[1..], tools[rest..])
  {}

  lemma {:induction false} PlacedAt(run: seq<Message>, tools: seq<Message>, j: nat)
    requires |tools| == |Tools(run)| && j < |run|
    ensures IsTool(run[j]) ==> |Tools(run[..j])| < |tools|
    ensures PlaceTools(run, tools)[j] == if IsTool(run[j]) then tools[|Tools(run[..j])|] else run[j]
  {
    hide IsTool, PlaceTools, Tools;
    PlaceNext(run, tools);
    if j == 0 {
      NoTools();
      assert run[..0] == [];
    } else {
      ToolsBefore(run, j);
      PlacedAt(run[1..], tools[if IsTool(run[0]) then 1 else 0..], j - 1);
    }
  }

  lemma {:induction false} NoTools()
    ensures Tools([]) == []
  {}

  /** Every tool message of the run is at one of the positions. */
  lemma PositionExists(run: seq<Message>, base: nat, positions: seq<nat>, j: nat)
    requires ToolPositions(run, base, positions) && j < |run| && IsTool(run[j])
    ensures |Tools(run[..j])| < |positions| && positions[|Tools(run[..j])|] == base + j
  {
    var k := |Tools(run[..j])|;
    CountBelow(run, j);
    var p := positions[k] - base;
    CountInjective(run, p, j);
  }

  lemma {:induction false} CountBelow(run: seq<Message>, j: nat)
    requires j < |run| && IsTool(run[j])
    ensures |Tools(run[..j])| < |Tools(run)|
  {
    if j > 0 {
      assert run[..j][1..] == run[1..][..j - 1];
      CountBelow(run[1..], j - 1);
    }
  }

  lemma CountInjective(run: seq<Message>, p: nat, j: nat)
    requires p < |run| && j < |run| && IsTool(run[p]) && IsTool(run[j])
    requires |Tools(run[..p])| == |Tools(run[..j])|
    ensures p == j
  {
    if p < j {
      CountIncreases(run, p, j);
    } else if j < p {
      CountIncreases(run, j, p);
    }
  }

  lemma CountIncreases(run: seq<Message>, p: nat, j: nat)
    requires p < j <= |run| && IsTool(run[p])
    ensures |Tools(run[..p])| < |Tools(run[..j])|
  {
    CountBelow(run[..j], p);
    assert run[..j][..p] == run[..p];
  }

  method WriteBack(ms: seq<Message>, start: nat, end: nat, positions: seq<nat>, results: seq<Message>)
    returns (r: seq<Message>)
    requires start <= end <= |ms| && ToolPositions(ms[start..end], start, positions)
    requires |results| == |positions|
    ensures r == ms[..start] + PlaceTools(ms[start..end], results) + ms[end..]
  {
    hide Tools, PlaceTools;
    r := ms;
    ghost var run := ms[start..end];
    for k := 0 to |positions|
      invariant |r| == |ms|
      invariant forall j :: 0 <= j < |ms| && (j < start || end <= j || !IsTool(ms[j])) ==> r[j] == ms[j]
      invariant forall m :: 0 <= m < k ==> r[positions[m]] == results[m]
    {
      DistinctPositions(run, start, positions, k);
      r := r[positions[k] := results[k]];
    }
    forall j | start <= j < end ensures r[j] == PlaceTools(run, results)[j - start] {
      PlacedAt(run, results, j - start);
      if IsTool(ms[j]) {
        PositionExists(run, start, positions, j - start);
      }
    }
    assert r == ms[..start] + PlaceTools(run, results) + ms[end..];
  }

  lemma DistinctPositions(run: seq<Message>, base: nat, positions: seq<nat>, k: nat)
    requires ToolPositions(run, base, positions) && k < |positions|
    ensures forall m :: 0 <= m < k ==> positions[m] != positions[k]
  {
    hide Tools;
    forall m | 0 <= m < k ensures positions[m] != positions[k] {
      assert |Tools(run[..positions[m] - base])| == m && |Tools(run[..positions[k] - base])| == k;
    }
  }

  /** The first `i` messages are done, the others untouched, and `order` is in force. */
  ghost predicate Progress(messages: seq<Message>, i: nat, order: CallOrder, adjusted: seq<Message>) {
    && i <= |messages| == |adjusted| && adjusted[i..] == messages[i..]
    && adjusted[..i] + SortResults(order, messages[i..]) == SortResults(map[], messages)
  }

  lemma StepOver(messages: seq<Message>, i: nat, order: CallOrder, adjusted: seq<Message>)
    requires Progress(messages, i, order, adjusted) && i < |messages| && !InRun(adjusted[i])
    ensures Progress(messages, i + 1, if CallsTools(adjusted[i]) then OrderOf(adjusted[i]) else order, adjusted)
  {
    hide SortResults;
    var rest := messages[i..];
    assert rest[0] == adjusted[i..][0] == adjusted[i] && rest[1..] == messages[i + 1..];
    assert adjusted[i + 1..] == adjusted[i..][1..];
    SortUnfold(order, rest);
    assert adjusted[..i + 1] == adjusted[..i] + [adjusted[i]];
  }

  lemma StepRun(messages: seq<Message>, i: nat, order: CallOrder, adjusted: seq<Message>, end: nat)
    requires Progress(messages, i, order, adjusted) && i < |messages| && InRun(adjusted[i])
    requires end == i + RunLength(adjusted[i..])
    ensures i < end <= |messages|
    ensures Progress(messages, end, order, adjusted[..i] + SortRun(order, adjusted[i..end]) + adjusted[end..])
  {
    hide SortResults, SortRun, RunLength;
    var rest := messages[i..];
    var run := adjusted[i..end];
    assert rest[0] == adjusted[i..][0] == adjusted[i];
    RunAdvances(rest);
    SortUnfold(order, rest);
    assert rest[..end - i] == run && rest[end - i..] == messages[end..];
    var next := adjusted[..i] + SortRun(order, run) + adjusted[end..];
    assert next[..end] == adjusted[..i] + SortRun(order, run);
    assert next[end..] == adjusted[end..] == adjusted[i..][end - i..];
  }

  method SortToolResults(messages: seq<Message>) returns (adjusted: seq<Message>)
    ensures adjusted == SortResults(map[], messages)
  {
    hide SortResults, RunLength, SortRun, Tools, Sort, PlaceTools, OrderFrom, Progress;
    adjusted := messages;
    var order: CallOrder := map[];
    var i := 0;
    ProgressAtEnds(messages, order, adjusted);
    while i < |adjusted|
      invariant i <= |adjusted| == |messages| && Progress(messages, i, order, adjusted)
    {
      var msg := adjusted[i];
      if msg.role == "assistant" && msg.toolCalls.Some? && msg.toolCalls.value != [] {
        StepOver(messages, i, order, adjusted);
        order := BuildCallOrder(msg.toolCalls.value);
        i := i + 1;
        continue;
      }
      if msg.role != "user" && msg.role != "tool" {
        StepOver(messages, i, order, adjusted);
        i := i + 1;
        continue;
      }
      var positions, end := ScanRun(adjusted, i);
      StepRun(messages, i, order, adjusted, end);
      RunResult(order, adjusted, i, end);
      if |positions| > 1 && |order| > 0 {
        var results := Collect(adjusted, positions, i, end);
        SortIsStable(order, results);
        results := Sort(order, results);
        adjusted := WriteBack(adjusted, i, end, positions, results);
      }
      i := end;
    }
    ProgressAtEnds(messages, order, adjusted);
  }

  lemma {:induction false} ProgressAtEnds(messages: seq<Message>, order: CallOrder, adjusted: seq<Message>)
    ensures adjusted == messages ==> Progress(messages, 0, map[], adjusted)
    ensures Progress(messages, |messages|, order, adjusted) ==> adjusted == SortResults(map[], messages)
  {
    hide SortResults;
    assert messages[0..] == messages && adjusted[..0] == [];
    SortUnfold(order, messages[|messages|..]);
    if |adjusted| == |messages| {
      assert adjusted[..|messages|] == adjusted;
    }
  }

  lemma {:induction false} RunAdvances(ms: seq<Message>)
    requires ms != [] && InRun(ms[0])
    ensures RunLength(ms) > 0
  {}

  lemma {:induction false} SortUnfold(order: CallOrder, ms: seq<Message>)
    ensures SortResults(order, ms) ==
      if ms == [] then []
      else if CallsTools(ms[0]) then [ms[0]] + SortResults(OrderOf(ms[0]), ms[1..])
      else if !InRun(ms[0]) then [ms[0]] + SortResults(order, ms[1..])
      else SortRun(order, ms[..RunLength(ms)]) + SortResults(order, ms[RunLength(ms)..])
  {}

  /** Writing the sorted tools back gives the sorted run; not writing is right when there is nothing to sort. */
  lemma {:induction false} RunResult(order: CallOrder, ms: seq<Message>, i: nat, end: nat)
    requires i <= end <= |ms|
    ensures var run := ms[i..end];
      |Sort(order, Tools(run))| == |Tools(run)| &&
      ms[..i] + SortRun(order, run) + ms[end..] ==
        if |Tools(run)| > 1 && |order| > 0 then ms[..i] + PlaceTools(run, Sort(order, Tools(run))) + ms[end..] else ms
  {
    hide Tools, Sort, PlaceTools;
    SortIsStable(order, Tools(ms[i..end]));
    assert ms[..i] + ms[i..end] + ms[end..] == ms;
  }

  method Collect(ms: seq<Message>, positions: seq<nat>, start: nat, end: nat) returns (results: seq<Message>)
    requires start <= end <= |ms| && ToolPositions(ms[start..end], start, positions)
    ensures results == Tools(ms[start..end])
  {
    hide Tools;
    results := [];
    for k := 0 to |positions|
      invariant results == Tools(ms[start..end])[..k]
    {
      results := results + [ms[positions[k]]];
    }
    assert Tools(ms[start..end])[..|positions|] == Tools(ms[start..end]);
  }
}
