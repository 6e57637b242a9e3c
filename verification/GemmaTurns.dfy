/**
 Folding tool calls, their results and the final answer into one gemma4 model turn
 (chat.cpp, gemma4_model_turn_builder and convert_tool_responses_gemma4).
 */
module GemmaTurns {
  import opened Prelude

  datatype Content = NoContent | NullContent | Text(text: string) | Parts(parts: seq<string>) | OtherJson(raw: string)

  /** A tool call; the name is empty when the call carries none. */
  datatype Call = Call(name: string, arguments: string)

  /** `toolCalls` is present only when the field is an array, `reasoning` only when it is a string. */
  datatype Message = Message(role: string, content: Content, toolCalls: Option<seq<Call>>,
                             reasoning: Option<string>, toolCallId: string)

  /** A tool result: its text read as JSON when that works, otherwise the content as it is. */
  datatype Value = Parsed(json: string) | Unparsed(content: Content)

  datatype Response = Response(name: string, value: Value)

  datatype Output =
    | Kept(message: Message)
    | Turn(calls: seq<Call>, responses: seq<Response>, content: Content, reasoning: Option<string>)

  /** The JSON reader, which may refuse a text. */
  type JsonReader = string -> Option<string>

  predicate IsTool(m: Message) {
    m.role == "tool"
  }

  predicate HasToolCalls(m: Message) {
    m.toolCalls.Some? && m.toolCalls.value != []
  }

  predicate StartsTurn(m: Message) {
    m.role == "assistant" && HasToolCalls(m)
  }

  predicate HasContent(m: Message) {
    (m.content.Text? && m.content.text != "") || (m.content.Parts? && m.content.parts != [])
  }

  /** The answer that closes a turn. */
  predicate IsAnswer(m: Message) {
    m.role == "assistant" && !HasToolCalls(m) && HasContent(m)
  }

  function ResultOf(parse: JsonReader, m: Message): Value {
    match m.content
    case Text(text) => (match parse(text) case Some(json) => Parsed(json) case None => Unparsed(m.content))
    case NoContent => Unparsed(NullContent)
    case c => Unparsed(c)
  }

  /** The k-th result is named after the k-th call, or by its own call id. */
  function NameOf(calls: seq<Call>, k: nat, m: Message): string {
    if k < |calls| && calls[k].name != "" then calls[k].name else m.toolCallId
  }

  // ----- The builder of the source -----

  /** The tool messages at `from`, `from + 1`, ... are the given responses to the calls, in order. */
  ghost predicate Collected(parse: JsonReader, ms: seq<Message>, from: nat, calls: seq<Call>,
                            responses: seq<Response>) {
    && from + |responses| <= |ms|
    && forall k {:trigger responses[k]} :: 0 <= k < |responses| ==> Answers(parse, calls, k, ms[from + k], responses[k])
  }

  ghost predicate Answers(parse: JsonReader, calls: seq<Call>, k: nat, m: Message, response: Response) {
    IsTool(m) && response == Response(NameOf(calls, k, m), ResultOf(parse, m))
  }

  /** What one turn makes of `ms[start..end]`: all the results there are, and the answer if it follows. */
  ghost predicate IsTurn(parse: JsonReader, ms: seq<Message>, start: nat, end: nat, out: Output) {
    && start < |ms| && StartsTurn(ms[start]) && out.Turn?
    && out.calls == ms[start].toolCalls.value
    && out.reasoning == ms[start].reasoning
    && Collected(parse, ms, start + 1, out.calls, out.responses)
    && ClosesTurn(ms, start + 1 + |out.responses|, end, out.content)
  }

  ghost predicate ClosesTurn(ms: seq<Message>, next: nat, end: nat, content: Content)
    requires next <= |ms|
  {
    if next < |ms| && IsAnswer(ms[next]) then end == next + 1 && content == ms[next].content
    else end == next && content == NoContent && (next < |ms| ==> !IsTool(ms[next]))
  }

  class TurnBuilder {
    const parse: JsonReader
    const messages: seq<Message>
    var pos: nat
    var toolCalls: seq<Call>
    var toolResponses: seq<Response>
    var content: Content
    var reasoning: Option<string>

    constructor (parse: JsonReader, msgs: seq<Message>, start: nat)
      ensures this.parse == parse && messages == msgs && pos == start
      ensures toolCalls == [] && toolResponses == [] && content == NoContent && reasoning == None
    {
      this.parse := parse;
      messages, pos := msgs, start;
      toolCalls, toolResponses, content, reasoning := [], [], NoContent, None;
    }

    method CollectResult(curr: Message)
      modifies this`toolResponses
      ensures toolResponses == old(toolResponses)
        + [Response(NameOf(toolCalls, |old(toolResponses)|, curr), ResultOf(parse, curr))]
    {
      var response := Unparsed(NullContent);
      if curr.content != NoContent {
        response := Unparsed(curr.content);
        if curr.content.Text? {
          var json := parse(curr.content.text);
          if json.Some? {
            response := Parsed(json.value);
          }
        }
      }
      var name := "";
      var idx := |toolResponses|;
      if idx < |toolCalls| {
        name := toolCalls[idx].name;
      }
      if name == "" {
        name := curr.toolCallId;
      }
      toolResponses := toolResponses + [Response(name, response)];
    }

    method Build() returns (turn: Output)
      requires pos < |messages| && StartsTurn(messages[pos])
      requires toolCalls == [] && toolResponses == [] && content == NoContent && reasoning == None
      modifies this
      ensures IsTurn(parse, messages, old(pos), pos, turn)
    {
      hide IsTool, NameOf, ResultOf;
      ghost var start := pos;
      var msg := messages[pos];
      reasoning := msg.reasoning;
      var calls := msg.toolCalls.value;
      for i := 0 to |calls|
        invariant toolCalls == calls[..i]
        invariant pos == start && toolResponses == [] && content == NoContent && reasoning == msg.reasoning
      {
        toolCalls := toolCalls + [calls[i]];
      }
      pos := pos + 1;
      while pos < |messages| && IsTool(messages[pos])
        invariant start + 1 + |toolResponses| == pos <= |messages|
        invariant toolCalls == calls && content == NoContent && reasoning == msg.reasoning
        invariant Collected(parse, messages, start + 1, toolCalls, toolResponses)
      {
        CollectResult(messages[pos]);
        pos := pos + 1;
      }
      if pos < |messages| && messages[pos].role == "assistant" {
        if !HasToolCalls(messages[pos]) && HasContent(messages[pos]) {
          content := messages[pos].content;
          pos := pos + 1;
        }
      }
      turn := Turn(toolCalls, toolResponses, content, reasoning);
    }
  }

  // ----- The whole list -----

  /** `ends[j]` is where the part of the input that made `out[j]` ends. */
  ghost function StartOf(ends: seq<nat>, j: nat): nat
    requires j <= |ends|
  {
    if j == 0 then 0 else ends[j - 1]
  }

  ghost predicate IsPart(parse: JsonReader, ms: seq<Message>, start: nat, end: nat, out: Output) {
    && start < end <= |ms|
    && if StartsTurn(ms[start]) then IsTurn(parse, ms, start, end, out)
       else end == start + 1 && out == Kept(ms[start])
  }

  /** The outputs are made, in order, from consecutive parts of the first `upto` messages. */
  ghost predicate Folds(parse: JsonReader, ms: seq<Message>, upto: nat, out: seq<Output>, ends: seq<nat>) {
    && |ends| == |out| && StartOf(ends, |ends|) == upto <= |ms|
    && forall j :: 0 <= j < |out| ==> IsPart(parse, ms, StartOf(ends, j), ends[j], out[j])
  }

  method ConvertToolResponses(parse: JsonReader, messages: seq<Message>) returns (result: seq<Output>)
    ensures exists ends :: Folds(parse, messages, |messages|, result, ends)
  {
    result := [];
    ghost var ends: seq<nat> := [];
    var i: nat := 0;
    while i < |messages|
      invariant Folds(parse, messages, i, result, ends)
      decreases |messages| - i
    {
      var msg := messages[i];
      if msg.role != "assistant" || msg.toolCalls.None? || msg.toolCalls.value == [] {
        FoldsNext(parse, messages, i, result, ends, i + 1, Kept(msg));
        result, ends := result + [Kept(msg)], ends + [i + 1];
        i := i + 1;
        continue;
      }
      var builder := new TurnBuilder(parse, messages, i);
      var turn := builder.Build();
      FoldsNext(parse, messages, i, result, ends, builder.pos, turn);
      result, ends := result + [turn], ends + [builder.pos];
      i := builder.pos;
    }
  }

  lemma FoldsNext(parse: JsonReader, ms: seq<Message>, i: nat, out: seq<Output>, ends: seq<nat>, end: nat, next: Output)
    requires Folds(parse, ms, i, out, ends) && IsPart(parse, ms, i, end, next)
    ensures Folds(parse, ms, end, out + [next], ends + [end])
  {
    hide IsPart;
    PartStartsInside(parse, ms, i, end, next);
    var out', ends' := out + [next], ends + [end];
    forall j | 0 <= j < |out'| ensures IsPart(parse, ms, StartOf(ends', j), ends'[j], out'[j]) {
      assert StartOf(ends', j) == StartOf(ends, j);
      if j < |out| {
        assert out'[j] == out[j] && ends'[j] == ends[j];
      }
    }
  }

  // ----- The folding is determined -----

  lemma CollectedAt(parse: JsonReader, ms: seq<Message>, from: nat, calls: seq<Call>, responses: seq<Response>, k: nat)
    requires Collected(parse, ms, from, calls, responses) && k < |responses|
    ensures IsTool(ms[from + k])
    ensures responses[k] == Response(NameOf(calls, k, ms[from + k]), ResultOf(parse, ms[from + k]))
  {
    assert Answers(parse, calls, k, ms[from + k], responses[k]);
  }

  lemma CollectedPrefix(parse: JsonReader, ms: seq<Message>, from: nat, calls: seq<Call>, r1: seq<Response>,
                        r2: seq<Response>)
    requires Collected(parse, ms, from, calls, r1) && Collected(parse, ms, from, calls, r2) && |r1| <= |r2|
    ensures r1 <= r2
  {
    hide Collected;
    forall k | 0 <= k < |r1| ensures r1[k] == r2[k] {
      CollectedAt(parse, ms, from, calls, r1, k);
      CollectedAt(parse, ms, from, calls, r2, k);
    }
  }

  lemma PartIsUnique(parse: JsonReader, ms: seq<Message>, start: nat, e1: nat, o1: Output, e2: nat, o2: Output)
    requires IsPart(parse, ms, start, e1, o1) && IsPart(parse, ms, start, e2, o2)
    ensures e1 == e2 && o1 == o2
  {
    hide ResultOf, NameOf, HasToolCalls, HasContent, Collected;
    if StartsTurn(ms[start]) {
      var n1, n2 := |o1.responses|, |o2.responses|;
      if n1 < n2 {
        CollectedAt(parse, ms, start + 1, o2.calls, o2.responses, n1);
      } else if n2 < n1 {
        CollectedAt(parse, ms, start + 1, o1.calls, o1.responses, n2);
      }
      assert n1 == n2;
      CollectedPrefix(parse, ms, start + 1, o1.calls, o1.responses, o2.responses);
    }
  }

  /** The output is the only folding of the input. */
  lemma {:induction false} FoldingIsUnique(parse: JsonReader, ms: seq<Message>, o1: seq<Output>, e1: seq<nat>,
                                           o2: seq<Output>, e2: seq<nat>, j: nat)
    requires Folds(parse, ms, |ms|, o1, e1) && Folds(parse, ms, |ms|, o2, e2) && j <= |o1|
    ensures j <= |o2| && o1[..j] == o2[..j] && e1[..j] == e2[..j]
    ensures j == |o1| ==> j == |o2|
  {
    hide IsPart, IsTurn;
    if j > 0 {
      FoldingIsUnique(parse, ms, o1, e1, o2, e2, j - 1);
      var start := StartOf(e1, j - 1);
      assert start == StartOf(e2, j - 1) by {
        if j > 1 {
          assert e1[..j - 1][j - 2] == e2[..j - 1][j - 2];
        }
      }
      PartStartsInside(parse, ms, start, e1[j - 1], o1[j - 1]);
      assert |o2| >= j;
      PartIsUnique(parse, ms, start, e1[j - 1], o1[j - 1], e2[j - 1], o2[j - 1]);
      assert o1[..j] == o1[..j - 1] + [o1[j - 1]] && o2[..j] == o2[..j - 1] + [o2[j - 1]];
      assert e1[..j] == e1[..j - 1] + [e1[j - 1]] && e2[..j] == e2[..j - 1] + [e2[j - 1]];
    }
    if j == |o1| && j < |o2| {
      assert StartOf(e2, j) == |ms| by {
        if j > 0 {
          assert e1[..j][j - 1] == e2[..j][j - 1];
        }
      }
      PartStartsInside(parse, ms, StartOf(e2, j), e2[j], o2[j]);
    }
  }

  lemma PartStartsInside(parse: JsonReader, ms: seq<Message>, start: nat, end: nat, out: Output)
    requires IsPart(parse, ms, start, end, out)
    ensures start < end <= |ms|
  {}

  // ----- A part in plain terms -----

  /** A response: named after its call, or by its id; the text read as JSON, or the content as it is. */
  lemma ResponseIs(parse: JsonReader, calls: seq<Call>, k: nat, m: Message, r: Response)
    requires Answers(parse, calls, k, m, r)
    ensures m.role == "tool"
    ensures k < |calls| && calls[k].name != "" ==> r.name == calls[k].name
    ensures k >= |calls| || calls[k].name == "" ==> r.name == m.toolCallId
    ensures forall text, json :: m.content == Text(text) && parse(text) == Some(json) ==> r.value == Parsed(json)
    ensures forall text :: m.content == Text(text) && parse(text) == None ==> r.value == Unparsed(Text(text))
    ensures m.content == NoContent ==> r.value == Unparsed(NullContent)
    ensures m.content.NullContent? || m.content.Parts? || m.content.OtherJson? ==> r.value == Unparsed(m.content)
  {}

  /**
   An assistant's message with calls becomes a turn: it keeps the calls and the reasoning,
   takes the tool messages that follow up to the first that is none, and then the content
   of an assistant's message with content and without calls.
   */
  lemma {:induction false} TurnIs(parse: JsonReader, ms: seq<Message>, start: nat, end: nat, out: Output)
    requires IsPart(parse, ms, start, end, out)
    requires ms[start].role == "assistant" && ms[start].toolCalls.Some? && ms[start].toolCalls.value != []
    ensures out.Turn? && out.calls == ms[start].toolCalls.value && out.reasoning == ms[start].reasoning
    ensures var next := start + 1 + |out.responses|;
      && next <= |ms|
      && (forall k {:trigger out.responses[k]} :: 0 <= k < |out.responses| ==>
            Answers(parse, out.calls, k, ms[start + 1 + k], out.responses[k]))
      && if next < |ms| && ms[next].role == "assistant" && (ms[next].toolCalls.None? || ms[next].toolCalls.value == [])
            && ((ms[next].content.Text? && ms[next].content.text != "")
                || (ms[next].content.Parts? && ms[next].content.parts != []))
         then end == next + 1 && out.content == ms[next].content
         else end == next && out.content == NoContent && (next < |ms| ==> ms[next].role != "tool")
  {
    hide Answers;
  }

  /** Every other message is kept as it is. */
  lemma {:induction false} KeptIs(parse: JsonReader, ms: seq<Message>, start: nat, end: nat, out: Output)
    requires IsPart(parse, ms, start, end, out)
    requires ms[start].role != "assistant" || ms[start].toolCalls.None? || ms[start].toolCalls.value == []
    ensures end == start + 1 && out == Kept(ms[start])
  {}

  // ----- No tool result is lost -----

  /** The tool results of a message list, in order. */
  function Results(parse: JsonReader, ms: seq<Message>): seq<Value> {
    if ms == [] then []
    else (if IsTool(ms[0]) then [ResultOf(parse, ms[0])] else []) + Results(parse, ms[1..])
  }

  function ValuesOf(rs: seq<Response>): (vs: seq<Value>)
    ensures |vs| == |rs| && forall k :: 0 <= k < |rs| ==> vs[k] == rs[k].value
  {
    if rs == [] then [] else [rs[0].value] + ValuesOf(rs[1..])
  }

  /** The tool results of the output: those left as messages and those collected into turns. */
  function OutputResults(parse: JsonReader, out: seq<Output>): seq<Value> {
    if out == [] then []
    else (match out[0]
          case Kept(m) => if IsTool(m) then [ResultOf(parse, m)] else []
          case Turn(_, responses, _, _) => ValuesOf(responses))
         + OutputResults(parse, out[1..])
  }

  lemma {:induction false} ResultsConcat(parse: JsonReader, a: seq<Message>, b: seq<Message>)
    ensures Results(parse, a + b) == Results(parse, a) + Results(parse, b)
  {
    if a == [] {
      assert a + b == b;
    } else {
      assert (a + b)[1..] == a[1..] + b;
      ResultsConcat(parse, a[1..], b);
    }
  }

  lemma {:induction false} OutputResultsSnoc(parse: JsonReader, out: seq<Output>, o: Output)
    ensures OutputResults(parse, out + [o]) == OutputResults(parse, out) + OutputResults(parse, [o])
  {
    if out == [] {
      assert out + [o] == [o];
    } else {
      assert (out + [o])[1..] == out[1..] + [o];
      OutputResultsSnoc(parse, out[1..], o);
    }
  }

  lemma {:induction false} AllTools(parse: JsonReader, ms: seq<Message>)
    requires forall k :: 0 <= k < |ms| ==> IsTool(ms[k])
    ensures |Results(parse, ms)| == |ms|
    ensures forall k :: 0 <= k < |ms| ==> Results(parse, ms)[k] == ResultOf(parse, ms[k])
  {
    if ms != [] {
      AllTools(parse, ms[1..]);
    }
  }

  lemma OneResult(parse: JsonReader, m: Message)
    ensures Results(parse, [m]) == if IsTool(m) then [ResultOf(parse, m)] else []
  {
    assert [m][1..] == [];
  }

  lemma PartKeepsResults(parse: JsonReader, ms: seq<Message>, start: nat, end: nat, out: Output)
    requires IsPart(parse, ms, start, end, out)
    ensures OutputResults(parse, [out]) == Results(parse, ms[start..end])
  {
    hide Results, ResultOf;
    assert [out][1..] == [];
    if StartsTurn(ms[start]) {
      TurnKeepsResults(parse, ms, start, end, out);
    } else {
      assert ms[start..end] == [ms[start]];
      OneResult(parse, ms[start]);
    }
  }

  lemma {:induction false} CollectedResults(parse: JsonReader, ms: seq<Message>, from: nat, calls: seq<Call>,
                                            responses: seq<Response>)
    requires Collected(parse, ms, from, calls, responses)
    ensures Results(parse, ms[from..from + |responses|]) == ValuesOf(responses)
  {
    hide Results, ResultOf, NameOf;
    var tools := ms[from..from + |responses|];
    forall k | 0 <= k < |tools| ensures IsTool(tools[k]) && ResultOf(parse, tools[k]) == responses[k].value {
      CollectedAt(parse, ms, from, calls, responses, k);
    }
    AllTools(parse, tools);
  }

  lemma TurnKeepsResults(parse: JsonReader, ms: seq<Message>, start: nat, end: nat, out: Output)
    requires IsTurn(parse, ms, start, end, out)
    ensures start < end <= |ms| && Results(parse, ms[start..end]) == ValuesOf(out.responses)
  {
    hide Results, ResultOf, NameOf, HasToolCalls, HasContent;
    var next := start + 1 + |out.responses|;
    var tools := ms[start + 1..next];
    CollectedResults(parse, ms, start + 1, out.calls, out.responses);
    hide Collected, ValuesOf;
    OneResult(parse, ms[start]);
    ResultsConcat(parse, [ms[start]], tools);
    if end == next {
      assert ms[start..end] == [ms[start]] + tools;
    } else {
      assert ms[start..end] == ([ms[start]] + tools) + [ms[next]];
      ResultsConcat(parse, [ms[start]] + tools, [ms[next]]);
      OneResult(parse, ms[next]);
    }
  }

  /** Every tool result is in the output exactly once, and they keep their order. */
  lemma {:induction false} ResultsAreConserved(parse: JsonReader, ms: seq<Message>, upto: nat, out: seq<Output>,
                                               ends: seq<nat>)
    requires Folds(parse, ms, upto, out, ends)
    ensures OutputResults(parse, out) == Results(parse, ms[..upto])
    decreases |out|
  {
    hide IsPart, Results, OutputResults;
    if out == [] {
      NoResults(parse);
      assert ms[..upto] == [];
    } else {
      var last := |out| - 1;
      var start := StartOf(ends, last);
      FoldsPrefix(parse, ms, upto, out, ends);
      ResultsAreConserved(parse, ms, start, out[..last], ends[..last]);
      PartKeepsResults(parse, ms, start, upto, out[last]);
      PartStartsInside(parse, ms, start, upto, out[last]);
      OutputResultsSnoc(parse, out[..last], out[last]);
      ResultsConcat(parse, ms[..start], ms[start..upto]);
      assert out == out[..last] + [out[last]] && ms[..upto] == ms[..start] + ms[start..upto];
    }
  }

  lemma NoResults(parse: JsonReader)
    ensures Results(parse, []) == [] && OutputResults(parse, []) == []
  {}

  lemma FoldsPrefix(parse: JsonReader, ms: seq<Message>, upto: nat, out: seq<Output>, ends: seq<nat>)
    requires Folds(parse, ms, upto, out, ends) && out != []
    ensures var last := |out| - 1;
      && StartOf(ends, last) <= |ms|
      && Folds(parse, ms, StartOf(ends, last), out[..last], ends[..last])
      && IsPart(parse, ms, StartOf(ends, last), upto, out[last])
  {
    hide IsPart;
    var last := |out| - 1;
    PartStartsInside(parse, ms, StartOf(ends, last), upto, out[last]);
    forall j | 0 <= j < last ensures IsPart(parse, ms, StartOf(ends[..last], j), ends[..last][j], out[..last][j]) {
      assert StartOf(ends[..last], j) == StartOf(ends, j);
    }
  }

  // ----- Tool messages next to turns -----

  /**
   A tool message comes directly after a built turn exactly when the turn closed with an
   answer and the input has a tool message right after that answer.
   */
  lemma {:induction false} ToolAfterTurn(parse: JsonReader, ms: seq<Message>, out: seq<Output>, ends: seq<nat>, j: nat)
    requires Folds(parse, ms, |ms|, out, ends) && j < |out|
    ensures out[j].Turn? ==>
      ((j + 1 < |out| && out[j + 1].Kept? && IsTool(out[j + 1].message))
       <==> (out[j].content != NoContent && ends[j] < |ms| && IsTool(ms[ends[j]])))
  {
    hide IsPart, IsTool;
    var end := ends[j];
    assert IsPart(parse, ms, StartOf(ends, j), end, out[j]);
    PartStartsInside(parse, ms, StartOf(ends, j), end, out[j]);
    if out[j].Turn? {
      OpenTurnTakesTools(parse, ms, StartOf(ends, j), end, out[j]);
    }
    assert StartOf(ends, j + 1) == end;
    if j + 1 < |out| {
      assert IsPart(parse, ms, StartOf(ends, j + 1), ends[j + 1], out[j + 1]);
      KeptIsInput(parse, ms, end, ends[j + 1], out[j + 1]);
    }
  }

  lemma OpenTurnTakesTools(parse: JsonReader, ms: seq<Message>, start: nat, end: nat, out: Output)
    requires IsPart(parse, ms, start, end, out) && out.Turn?
    ensures end < |ms| && IsTool(ms[end]) ==> out.content != NoContent
  {
    hide Collected, HasToolCalls;
  }

  lemma KeptIsInput(parse: JsonReader, ms: seq<Message>, start: nat, end: nat, out: Output)
    requires IsPart(parse, ms, start, end, out)
    ensures start < |ms| && (out.Kept? && IsTool(out.message) <==> IsTool(ms[start]))
  {
    hide Collected, HasToolCalls;
  }

  /** Calls at `i`, then nothing but tool messages up to an answer at `p`, and one more after that. */
  predicate HasLateTool(ms: seq<Message>, i: nat, p: nat) {
    && i < p && p + 1 < |ms| && StartsTurn(ms[i])
    && (forall k :: i < k < p ==> IsTool(ms[k]))
    && IsAnswer(ms[p]) && IsTool(ms[p + 1])
  }

  ghost predicate ToolFollowsTurn(out: seq<Output>, j: nat) {
    j + 1 < |out| && out[j].Turn? && out[j + 1].Kept? && IsTool(out[j + 1].message)
  }

  /** No turn starts inside a part. */
  lemma {:induction false} InsideIsNoStart(parse: JsonReader, ms: seq<Message>, start: nat, end: nat, out: Output,
                                           i: nat)
    requires IsPart(parse, ms, start, end, out) && start < i < end
    ensures i < |ms| && !StartsTurn(ms[i])
  {
    hide Collected;
    if i <= start + |out.responses| {
      CollectedAt(parse, ms, start + 1, out.calls, out.responses, i - start - 1);
    }
  }

  /** Every message that starts a turn begins a part of the output. */
  lemma {:induction false} StartBeginsPart(parse: JsonReader, ms: seq<Message>, upto: nat, out: seq<Output>,
                                           ends: seq<nat>, i: nat)
    returns (j: nat)
    requires Folds(parse, ms, upto, out, ends) && i < upto && StartsTurn(ms[i])
    ensures j < |out| && StartOf(ends, j) == i
    decreases |out|
  {
    hide IsPart, StartsTurn;
    var last := |out| - 1;
    FoldsPrefix(parse, ms, upto, out, ends);
    var start := StartOf(ends, last);
    if i < start {
      j := StartBeginsPart(parse, ms, start, out[..last], ends[..last], i);
      assert StartOf(ends[..last], j) == StartOf(ends, j);
    } else {
      j := last;
      if start < i {
        InsideIsNoStart(parse, ms, start, upto, out[last], i);
      }
    }
  }

  /** What is taken by a turn whose input has a late tool message. */
  lemma {:induction false} LateToolTurn(parse: JsonReader, ms: seq<Message>, i: nat, p: nat, end: nat, out: Output)
    requires HasLateTool(ms, i, p) && IsPart(parse, ms, i, end, out)
    ensures out.Turn? && end == p + 1 && out.content != NoContent
  {
    hide Collected, HasToolCalls, HasLateTool;
    LateToolEnds(ms, i, p);
    var n := |out.responses|;
    if p < i + 1 + n {
      CollectedAt(parse, ms, i + 1, out.calls, out.responses, p - i - 1);
    } else if i + 1 + n < p {
      BetweenIsTool(ms, i, p, i + 1 + n);
    }
  }

  lemma {:induction false} TurnIsLate(parse: JsonReader, ms: seq<Message>, start: nat, end: nat, out: Output)
    requires IsPart(parse, ms, start, end, out) && out.Turn? && out.content != NoContent
    requires end < |ms| && IsTool(ms[end])
    ensures HasLateTool(ms, start, end - 1)
  {
    hide Collected, HasToolCalls, HasContent;
    forall k | start < k < end - 1 ensures IsTool(ms[k]) {
      CollectedAt(parse, ms, start + 1, out.calls, out.responses, k - start - 1);
    }
  }

  /**
   Some turn is directly followed by a tool message exactly when the input has calls whose
   results end in an answer with a tool message right after it.
   */
  lemma {:induction false} ToolAfterTurnIff(parse: JsonReader, ms: seq<Message>, out: seq<Output>, ends: seq<nat>)
    requires Folds(parse, ms, |ms|, out, ends)
    ensures (exists j: nat :: ToolFollowsTurn(out, j)) <==> (exists i: nat, p: nat :: HasLateTool(ms, i, p))
  {
    hide IsPart, HasLateTool, IsTool;
    if j: nat :| ToolFollowsTurn(out, j) {
      ToolAfterTurn(parse, ms, out, ends, j);
      assert IsPart(parse, ms, StartOf(ends, j), ends[j], out[j]);
      PartStartsInside(parse, ms, StartOf(ends, j), ends[j], out[j]);
      TurnIsLate(parse, ms, StartOf(ends, j), ends[j], out[j]);
      assert HasLateTool(ms, StartOf(ends, j), ends[j] - 1);
    }
    if i: nat, p: nat :| HasLateTool(ms, i, p) {
      LateToolEnds(ms, i, p);
      var j := StartBeginsPart(parse, ms, |ms|, out, ends, i);
      assert IsPart(parse, ms, StartOf(ends, j), ends[j], out[j]);
      LateToolTurn(parse, ms, i, p, ends[j], out[j]);
      ToolAfterTurn(parse, ms, out, ends, j);
      assert ToolFollowsTurn(out, j);
    }
  }

  lemma LateToolEnds(ms: seq<Message>, i: nat, p: nat)
    requires HasLateTool(ms, i, p)
    ensures i < p && p + 1 < |ms| && StartsTurn(ms[i]) && IsAnswer(ms[p]) && IsTool(ms[p + 1])
  {}

  lemma BetweenIsTool(ms: seq<Message>, i: nat, p: nat, k: nat)
    requires HasLateTool(ms, i, p) && i < k < p
    ensures k < |ms| && IsTool(ms[k])
  {}

  /** It can happen: a call, an answer, then a late result. */
  lemma LateResult(parse: JsonReader, out: seq<Output>, ends: seq<nat>)
    requires var ms := [Message("assistant", NoContent, Some([Call("f", "")]), None, ""),
                        Message("assistant", Text("done"), None, None, ""),
                        Message("tool", Text("42"), None, None, "c")];
      Folds(parse, ms, |ms|, out, ends)
    ensures |out| == 2 && out[0].Turn? && out[1].Kept? && IsTool(out[1].message)
  {
    hide ResultOf, NameOf;
    var ms := [Message("assistant", NoContent, Some([Call("f", "")]), None, ""),
               Message("assistant", Text("done"), None, None, ""),
               Message("tool", Text("42"), None, None, "c")];
    assert IsPart(parse, ms, StartOf(ends, 0), ends[0], out[0]);
    assert IsAnswer(ms[1]) && !IsTool(ms[1]);
    assert out[0].responses == [] by {
      if out[0].responses != [] {
        CollectedAt(parse, ms, 1, out[0].calls, out[0].responses, 0);
      }
    }
    assert ends[0] == 2;
    assert IsPart(parse, ms, StartOf(ends, 1), ends[1], out[1]);
  }
}
