/**
 Chat messages, the difference between two of them (chat.cpp, string_diff and
 compute_diffs) and the client that applies the differences it is sent.
 */
module ChatDiff {
  import opened Prelude

  datatype ToolCall = ToolCall(name: string, arguments: string, id: string)

  datatype Msg = Msg(content: string, reasoning: string, toolCalls: seq<ToolCall>)

  const EMPTY_MSG := Msg("", "", [])

  datatype Diff = Diff(reasoningDelta: string, contentDelta: string, index: Option<nat>, callDelta: ToolCall)

  const EMPTY_DIFF := Diff("", "", None, ToolCall("", "", ""))

  datatype DiffError = TextMismatch | FewerToolCalls | NameMismatch

  /** The text to send after `last`; nothing when the new text is a shortened one. */
  function StringDiff(last: string, current: string): Result<string, DiffError> {
    if last <= current then Ok(current[|last|..])
    else if current <= last then Ok("")
    else Err(TextMismatch)
  }

  function TextDiffs(last: string, current: string, isReasoning: bool): Result<seq<Diff>, DiffError> {
    if last == current then Ok([])
    else match StringDiff(last, current)
      case Err(e) => Err(e)
      case Ok(d) => Ok([if isReasoning then EMPTY_DIFF.(reasoningDelta := d) else EMPTY_DIFF.(contentDelta := d)])
  }

  predicate NamesCompatible(prev: string, next: string) {
    prev == "" || next == "" || prev <= next
  }

  /** The difference for the last call the previous message had. */
  function CallDiffs(index: nat, prev: ToolCall, next: ToolCall): Result<seq<Diff>, DiffError> {
    if !NamesCompatible(prev.name, next.name) then Err(NameMismatch)
    else match StringDiff(prev.arguments, next.arguments)
      case Err(e) => Err(e)
      case Ok(args) =>
        var header := prev.id != next.id || prev.name != next.name;
        if args == "" && !header then Ok([])
        else if header then Ok([EMPTY_DIFF.(index := Some(index), callDelta := ToolCall(next.name, args, next.id))])
        else Ok([EMPTY_DIFF.(index := Some(index), callDelta := ToolCall("", args, ""))])
  }

  /** The differences that announce the calls from `from` on. */
  function NewCalls(calls: seq<ToolCall>, from: nat): seq<Diff>
    requires from <= |calls|
    decreases |calls| - from
  {
    if from == |calls| then []
    else [EMPTY_DIFF.(index := Some(from), callDelta := calls[from])] + NewCalls(calls, from + 1)
  }

  function ComputeDiffs(prev: Msg, next: Msg): Result<seq<Diff>, DiffError> {
    match TextDiffs(prev.reasoning, next.reasoning, true)
    case Err(e) => Err(e)
    case Ok(r) =>
      match TextDiffs(prev.content, next.content, false)
      case Err(e) => Err(e)
      case Ok(c) =>
        var n := |prev.toolCalls|;
        if |next.toolCalls| < n then Err(FewerToolCalls)
        else if n == 0 then Ok(r + c + NewCalls(next.toolCalls, 0))
        else match CallDiffs(n - 1, prev.toolCalls[n - 1], next.toolCalls[n - 1])
          case Err(e) => Err(e)
          case Ok(k) => Ok(r + c + k + NewCalls(next.toolCalls, n))
  }

  // ----- The method of the source -----

  method StringDiffText(last: string, current: string) returns (r: Result<string, DiffError>)
    ensures r == StringDiff(last, current)
  {
    if last == "" {
      return Ok(current);
    }
    if !(last <= current) {
      if current <= last {
        return Ok("");
      }
      return Err(TextMismatch);
    }
    return Ok(current[|last|..]);
  }

  lemma NewCallsNext(calls: seq<ToolCall>, from: nat)
    requires from <= |calls|
    ensures NewCalls(calls, from) == if from == |calls| then []
      else [EMPTY_DIFF.(index := Some(from), callDelta := calls[from])] + NewCalls(calls, from + 1)
  {}

  method ComputeMsgDiffs(prev: Msg, next: Msg) returns (result: Result<seq<Diff>, DiffError>)
    ensures result == ComputeDiffs(prev, next)
  {
    hide NewCalls;
    var diffs: seq<Diff> := [];
    if prev.reasoning != next.reasoning {
      var d := StringDiffText(prev.reasoning, next.reasoning);
      if d.Err? {
        return Err(d.error);
      }
      diffs := diffs + [EMPTY_DIFF.(reasoningDelta := d.value)];
    }
    if prev.content != next.content {
      var d := StringDiffText(prev.content, next.content);
      if d.Err? {
        return Err(d.error);
      }
      diffs := diffs + [EMPTY_DIFF.(contentDelta := d.value)];
    }
    if |next.toolCalls| < |prev.toolCalls| {
      return Err(FewerToolCalls);
    }
    ghost var texts := TextDiffs(prev.reasoning, next.reasoning, true).value
      + TextDiffs(prev.content, next.content, false).value;
    ghost var k: seq<Diff> := [];
    assert diffs == texts + k;
    if prev.toolCalls != [] {
      var idx := |prev.toolCalls| - 1;
      var pref, newf := prev.toolCalls[idx], next.toolCalls[idx];
      if pref.name != newf.name && pref.name != "" && newf.name != "" {
        if !(pref.name <= newf.name) {
          return Err(NameMismatch);
        }
      }
      var args := StringDiffText(pref.arguments, newf.arguments);
      if args.Err? {
        return Err(args.error);
      }
      if args.value != "" || pref.id != newf.id || pref.name != newf.name {
        var diff := EMPTY_DIFF.(index := Some(idx));
        if pref.id != newf.id || pref.name != newf.name {
          diff := diff.(callDelta := ToolCall(newf.name, "", newf.id));
        }
        diff := diff.(callDelta := diff.callDelta.(arguments := args.value));
        diffs, k := diffs + [diff], [diff];
      }
      assert CallDiffs(idx, pref, newf) == Ok(k);
    }
    assert diffs == texts + k;
    ghost var before := diffs;
    assert TextDiffs(prev.reasoning, next.reasoning, true).Ok? && TextDiffs(prev.content, next.content, false).Ok?;
    if prev.toolCalls == [] {
      assert before == texts;
      assert ComputeDiffs(prev, next) == Ok(texts + NewCalls(next.toolCalls, 0));
    } else {
      assert ComputeDiffs(prev, next) == Ok(texts + k + NewCalls(next.toolCalls, |prev.toolCalls|));
    }
    assert ComputeDiffs(prev, next) == Ok(before + NewCalls(next.toolCalls, |prev.toolCalls|));
    var idx := |prev.toolCalls|;
    while idx < |next.toolCalls|
      invariant |prev.toolCalls| <= idx <= |next.toolCalls|
      invariant diffs + NewCalls(next.toolCalls, idx) == before + NewCalls(next.toolCalls, |prev.toolCalls|)
    {
      NewCallsNext(next.toolCalls, idx);
      diffs := diffs + [EMPTY_DIFF.(index := Some(idx), callDelta := next.toolCalls[idx])];
      idx := idx + 1;
    }
    NewCallsNext(next.toolCalls, idx);
    assert diffs == diffs + NewCalls(next.toolCalls, idx);
    return Ok(diffs);
  }

  // ----- The client -----

  /** An empty field of a delta is not sent, so it leaves the client's value alone. */
  function ApplyCall(call: ToolCall, d: ToolCall): ToolCall {
    ToolCall(if d.name == "" then call.name else d.name,
             call.arguments + d.arguments,
             if d.id == "" then call.id else d.id)
  }

  function ApplyDiff(m: Msg, d: Diff): Msg {
    var calls := match d.index
      case None => m.toolCalls
      case Some(i) =>
        if i < |m.toolCalls| then m.toolCalls[i := ApplyCall(m.toolCalls[i], d.callDelta)]
        else m.toolCalls + [d.callDelta];
    Msg(m.content + d.contentDelta, m.reasoning + d.reasoningDelta, calls)
  }

  function ApplyAll(m: Msg, ds: seq<Diff>): Msg
    decreases |ds|
  {
    if ds == [] then m else ApplyAll(ApplyDiff(m, ds[0]), ds[1..])
  }

  lemma {:induction false} ApplyConcat(m: Msg, a: seq<Diff>, b: seq<Diff>)
    ensures ApplyAll(m, a + b) == ApplyAll(ApplyAll(m, a), b)
    decreases |a|
  {
    if a == [] {
      assert a + b == b;
    } else {
      assert (a + b)[1..] == a[1..] + b;
      ApplyConcat(ApplyDiff(m, a[0]), a[1..], b);
    }
  }

  lemma {:induction false} ApplyOne(m: Msg, d: Diff)
    ensures ApplyAll(m, [d]) == ApplyDiff(m, d)
  {
    assert [d][1..] == [];
  }

  lemma {:induction false} ApplyNewCalls(m: Msg, calls: seq<ToolCall>)
    requires |m.toolCalls| <= |calls|
    ensures ApplyAll(m, NewCalls(calls, |m.toolCalls|))
         == m.(toolCalls := m.toolCalls + calls[|m.toolCalls|..])
    decreases |calls| - |m.toolCalls|
  {
    var n := |m.toolCalls|;
    if n == |calls| {
      assert m.toolCalls + calls[n..] == m.toolCalls;
    } else {
      var d := EMPTY_DIFF.(index := Some(n), callDelta := calls[n]);
      var m' := m.(toolCalls := m.toolCalls + [calls[n]]);
      assert ApplyDiff(m, d) == m' by {
        assert m.content + "" == m.content && m.reasoning + "" == m.reasoning;
      }
      assert NewCalls(calls, n)[1..] == NewCalls(calls, n + 1);
      ApplyNewCalls(m', calls);
      assert m'.toolCalls + calls[n + 1..] == m.toolCalls + calls[n..];
    }
  }

  // ----- When the differences are a correct patch -----

  predicate Comparable(a: string, b: string) {
    a <= b || b <= a
  }

  /** The last call known so far may change only in ways the client can see. */
  predicate CallExtends(prev: ToolCall, next: ToolCall) {
    && prev.arguments <= next.arguments
    && NamesCompatible(prev.name, next.name)
    && (next.name == "" ==> prev.name == "")
    && (next.id == "" ==> prev.id == "")
  }

  predicate Extends(prev: Msg, next: Msg) {
    var n := |prev.toolCalls|;
    && prev.content <= next.content
    && prev.reasoning <= next.reasoning
    && n <= |next.toolCalls|
    && (forall i :: 0 <= i < n - 1 ==> prev.toolCalls[i] == next.toolCalls[i])
    && (n > 0 ==> CallExtends(prev.toolCalls[n - 1], next.toolCalls[n - 1]))
  }

  /** Exactly which pairs of messages are diffed without an exception. */
  lemma DiffsExistIff(prev: Msg, next: Msg)
    ensures ComputeDiffs(prev, next).Ok? <==>
      && Comparable(prev.reasoning, next.reasoning)
      && Comparable(prev.content, next.content)
      && |prev.toolCalls| <= |next.toolCalls|
      && (prev.toolCalls != [] ==>
            var p, q := prev.toolCalls[|prev.toolCalls| - 1], next.toolCalls[|prev.toolCalls| - 1];
            NamesCompatible(p.name, q.name) && Comparable(p.arguments, q.arguments))
  {}

  /** What the client's copy of a call becomes. */
  function PatchedCall(p: ToolCall, q: ToolCall): ToolCall
    requires StringDiff(p.arguments, q.arguments).Ok?
  {
    var header := p.id != q.id || p.name != q.name;
    ToolCall(if header && q.name != "" then q.name else p.name,
             p.arguments + StringDiff(p.arguments, q.arguments).value,
             if header && q.id != "" then q.id else p.id)
  }

  function PatchedCalls(prev: seq<ToolCall>, next: seq<ToolCall>): seq<ToolCall>
    requires |prev| <= |next|
    requires prev != [] ==> StringDiff(prev[|prev| - 1].arguments, next[|prev| - 1].arguments).Ok?
  {
    var n := |prev|;
    (if n == 0 then [] else prev[n - 1 := PatchedCall(prev[n - 1], next[n - 1])]) + next[n..]
  }

  lemma {:induction false} ApplyTextDiffs(m: Msg, next: string, isReasoning: bool)
    requires TextDiffs(if isReasoning then m.reasoning else m.content, next, isReasoning).Ok?
    ensures var last := if isReasoning then m.reasoning else m.content;
      var ds := TextDiffs(last, next, isReasoning).value;
      var text := last + StringDiff(last, next).value;
      ApplyAll(m, ds) == if isReasoning then m.(reasoning := text) else m.(content := text)
  {
    var last := if isReasoning then m.reasoning else m.content;
    var ds := TextDiffs(last, next, isReasoning).value;
    assert m.content + "" == m.content && m.reasoning + "" == m.reasoning;
    if ds != [] {
      ApplyOne(m, ds[0]);
    }
  }

  lemma {:induction false} ApplyCallDiffs(m: Msg, next: ToolCall)
    requires m.toolCalls != [] && CallDiffs(|m.toolCalls| - 1, m.toolCalls[|m.toolCalls| - 1], next).Ok?
    ensures var i := |m.toolCalls| - 1;
      ApplyAll(m, CallDiffs(i, m.toolCalls[i], next).value)
      == m.(toolCalls := m.toolCalls[i := PatchedCall(m.toolCalls[i], next)])
  {
    var i := |m.toolCalls| - 1;
    var p := m.toolCalls[i];
    var ds := CallDiffs(i, p, next).value;
    assert m.content + "" == m.content && m.reasoning + "" == m.reasoning;
    if ds == [] {
      assert p.arguments + "" == p.arguments;
      assert m.toolCalls[i := p] == m.toolCalls;
    } else {
      ApplyOne(m, ds[0]);
    }
  }

  lemma {:induction false} ApplyTexts(prev: Msg, next: Msg)
    requires TextDiffs(prev.reasoning, next.reasoning, true).Ok? && TextDiffs(prev.content, next.content, false).Ok?
    ensures ApplyAll(prev, TextDiffs(prev.reasoning, next.reasoning, true).value
                           + TextDiffs(prev.content, next.content, false).value)
         == Msg(prev.content + StringDiff(prev.content, next.content).value,
                prev.reasoning + StringDiff(prev.reasoning, next.reasoning).value, prev.toolCalls)
  {
    var r := TextDiffs(prev.reasoning, next.reasoning, true).value;
    var c := TextDiffs(prev.content, next.content, false).value;
    ApplyTextDiffs(prev, next.reasoning, true);
    ApplyTextDiffs(ApplyAll(prev, r), next.content, false);
    ApplyConcat(prev, r, c);
  }

  lemma {:induction false} ApplyCalls(m: Msg, next: seq<ToolCall>)
    requires |m.toolCalls| <= |next|
    requires m.toolCalls != [] ==>
      var last := |m.toolCalls| - 1;
      CallDiffs(last, m.toolCalls[last], next[last]).Ok?
    ensures var n := |m.toolCalls|;
      var k := if n == 0 then [] else CallDiffs(n - 1, m.toolCalls[n - 1], next[n - 1]).value;
      ApplyAll(m, k + NewCalls(next, n)) == m.(toolCalls := PatchedCalls(m.toolCalls, next))
  {
    var n := |m.toolCalls|;
    if n == 0 {
      assert [] + NewCalls(next, 0) == NewCalls(next, 0);
      ApplyNewCalls(m, next);
      assert m.toolCalls + next[n..] == PatchedCalls(m.toolCalls, next);
    } else {
      var k := CallDiffs(n - 1, m.toolCalls[n - 1], next[n - 1]).value;
      ApplyCallDiffs(m, next[n - 1]);
      ApplyConcat(m, k, NewCalls(next, n));
      ApplyNewCalls(ApplyAll(m, k), next);
    }
  }

  lemma {:induction false} ApplyDiffsIsPatched(prev: Msg, next: Msg)
    requires ComputeDiffs(prev, next).Ok?
    ensures ApplyAll(prev, ComputeDiffs(prev, next).value)
         == Msg(prev.content + StringDiff(prev.content, next.content).value,
                prev.reasoning + StringDiff(prev.reasoning, next.reasoning).value,
                PatchedCalls(prev.toolCalls, next.toolCalls))
  {
    hide StringDiff, PatchedCall, NewCalls, ApplyAll, TextDiffs, CallDiffs;
    var n := |prev.toolCalls|;
    var texts := TextDiffs(prev.reasoning, next.reasoning, true).value + TextDiffs(prev.content, next.content,
      false).value;
    var k := if n == 0 then [] else CallDiffs(n - 1, prev.toolCalls[n - 1], next.toolCalls[n - 1]).value;
    var added := NewCalls(next.toolCalls, n);
    assert ComputeDiffs(prev, next).value == texts + (k + added);
    ApplyTexts(prev, next);
    ApplyConcat(prev, texts, k + added);
    ApplyCalls(ApplyAll(prev, texts), next.toolCalls);
  }

  lemma DiffReaches(last: string, current: string)
    requires StringDiff(last, current).Ok?
    ensures last + StringDiff(last, current).value == current <==> last <= current
  {}

  lemma CallReaches(p: ToolCall, q: ToolCall)
    requires StringDiff(p.arguments, q.arguments).Ok? && NamesCompatible(p.name, q.name)
    ensures PatchedCall(p, q) == q <==> CallExtends(p, q)
  {
    DiffReaches(p.arguments, q.arguments);
  }

  lemma CallsReach(prev: seq<ToolCall>, next: seq<ToolCall>)
    requires |prev| <= |next|
    requires prev != [] ==>
      var p, q := prev[|prev| - 1], next[|prev| - 1];
      StringDiff(p.arguments, q.arguments).Ok? && NamesCompatible(p.name, q.name)
    ensures PatchedCalls(prev, next) == next <==>
      && (forall i :: 0 <= i < |prev| - 1 ==> prev[i] == next[i])
      && (prev != [] ==> CallExtends(prev[|prev| - 1], next[|prev| - 1]))
  {
    var n := |prev|;
    var out := PatchedCalls(prev, next);
    if n > 0 {
      CallReaches(prev[n - 1], next[n - 1]);
      assert out[n - 1] == PatchedCall(prev[n - 1], next[n - 1]);
    }
    assert forall i :: 0 <= i < n - 1 ==> out[i] == prev[i];
    assert forall i :: n <= i < |next| ==> out[i] == next[i];
    if out == next {
      assert forall i :: 0 <= i < |next| ==> out[i] == next[i];
    }
  }

  /** The differences exist and rebuild the new message exactly when it extends the old one. */
  lemma {:induction false} PatchIff(prev: Msg, next: Msg)
    ensures Extends(prev, next) <==>
      ComputeDiffs(prev, next).Ok? && ApplyAll(prev, ComputeDiffs(prev, next).value) == next
  {
    DiffsExistIff(prev, next);
    if ComputeDiffs(prev, next).Ok? {
      ApplyDiffsIsPatched(prev, next);
      DiffReaches(prev.content, next.content);
      DiffReaches(prev.reasoning, next.reasoning);
      CallsReach(prev.toolCalls, next.toolCalls);
    }
  }

  // ----- Whole runs -----

  /** Diffing each message against the one before it, starting from `prev`. */
  function RunDiffs(prev: Msg, msgs: seq<Msg>): Result<seq<Diff>, DiffError>
    decreases |msgs|
  {
    if msgs == [] then Ok([])
    else match ComputeDiffs(prev, msgs[0])
      case Err(e) => Err(e)
      case Ok(d) =>
        match RunDiffs(msgs[0], msgs[1..])
        case Err(e) => Err(e)
        case Ok(ds) => Ok(d + ds)
  }

  ghost predicate ExtendingRun(prev: Msg, msgs: seq<Msg>)
    decreases |msgs|
  {
    msgs != [] ==> Extends(prev, msgs[0]) && ExtendingRun(msgs[0], msgs[1..])
  }

  /** Over any run of extending messages nothing is thrown and the client ends with the last one. */
  lemma {:induction false} RunRebuilds(prev: Msg, msgs: seq<Msg>)
    requires ExtendingRun(prev, msgs)
    ensures RunDiffs(prev, msgs).Ok?
    ensures ApplyAll(prev, RunDiffs(prev, msgs).value) == if msgs == [] then prev else msgs[|msgs| - 1]
    decreases |msgs|
  {
    hide ComputeDiffs, Extends, ApplyDiff;
    if msgs != [] {
      var rest := msgs[1..];
      PatchIff(prev, msgs[0]);
      RunRebuilds(msgs[0], rest);
      var d, ds := ComputeDiffs(prev, msgs[0]).value, RunDiffs(msgs[0], rest).value;
      assert RunDiffs(prev, msgs) == Ok(d + ds);
      ApplyConcat(prev, d, ds);
    }
  }
}
