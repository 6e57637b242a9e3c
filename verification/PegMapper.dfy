/**
 The streaming tool-call mapper (chat-peg-parser.cpp, common_chat_peg_mapper): a state
 machine that turns tagged AST nodes, in visiting order, into a chat message whose
 tool-call arguments are JSON text built piece by piece.
 */
module PegMapper {
  import opened Prelude
  import opened JsonText
  import opened QuoteNormalizer
  import opened ChatDiff

  datatype Tag =
    | ReasoningTag | ContentTag
    | ToolOpen | ToolClose | ToolId | ToolName | ToolArgs
    | ArgOpen | ArgClose | ArgName | ArgValue | ArgStringValue
    | OtherTag

  datatype Node = Node(tag: Tag, text: string)

  /** Where `current_tool` points: nowhere, at the pending call, or at the last call of the message. */
  datatype Cursor = NoTool | AtPending | AtLast

  datatype State = State(msg: Msg, pending: Option<ToolCall>, cursor: Cursor,
                         argCount: nat, closingQuote: bool, buffer: string)

  const INITIAL := State(EMPTY_MSG, None, NoTool, 0, false, "")

  // ----- Text helpers -----

  function TrimTrailing(s: string): (r: string)
    ensures r <= s
  {
    if s != "" && IsSpace(s[|s| - 1]) then TrimTrailing(s[..|s| - 1]) else s
  }

  /** At most one leading space goes, and every trailing one. */
  function Trim(s: string): string {
    TrimTrailing(if s != "" && IsSpace(s[0]) then s[1..] else s)
  }

  function Unquote(s: string): string {
    if |s| >= 2 && s[0] == '"' && s[|s| - 1] == '"' then s[1..|s| - 1] else s
  }

  predicate AllSpace(s: string) {
    forall i :: 0 <= i < |s| ==> IsSpace(s[i])
  }

  predicate EndsInSpace(s: string) {
    s != "" && IsSpace(s[|s| - 1])
  }

  /** Exactly the trailing spaces go. */
  lemma {:induction false} TrimTrailingIs(s: string) returns (tail: string)
    ensures s == TrimTrailing(s) + tail && AllSpace(tail) && !EndsInSpace(TrimTrailing(s))
  {
    if EndsInSpace(s) {
      var shorter := TrimTrailingIs(s[..|s| - 1]);
      tail := shorter + [s[|s| - 1]];
    } else {
      tail := "";
    }
  }

  /** Exactly the trailing spaces and one leading space go. */
  lemma {:induction false} TrimIs(s: string) returns (lead: string, tail: string)
    ensures s == lead + Trim(s) + tail && AllSpace(lead) && AllSpace(tail) && !EndsInSpace(Trim(s))
    ensures |lead| == if s != "" && IsSpace(s[0]) then 1 else 0
  {
    hide TrimTrailing, IsSpace;
    lead := if s != "" && IsSpace(s[0]) then s[..1] else "";
    var rest := s[|lead|..];
    tail := TrimTrailingIs(rest);
    assert Trim(s) == TrimTrailing(rest);
    assert s == lead + rest && lead + (Trim(s) + tail) == lead + Trim(s) + tail;
  }

  /** Text without spaces at its ends is kept. */
  lemma {:induction false} TrimKeeps(s: string)
    ensures !EndsInSpace(s) ==> TrimTrailing(s) == s
    ensures !EndsInSpace(s) && (s == "" || !IsSpace(s[0])) ==> Trim(s) == s
  {}

  /** One pair of quotes goes, when there is one. */
  lemma {:induction false} UnquoteIs(s: string)
    ensures (exists t: string :: s == "\"" + t + "\"") ==> s == "\"" + Unquote(s) + "\""
    ensures (forall t: string :: s != "\"" + t + "\"") ==> Unquote(s) == s
  {
    if |s| >= 2 && s[0] == '"' && s[|s| - 1] == '"' {
      assert s == "\"" + Unquote(s) + "\"";
    }
  }

  lemma SpacesAre(c: char)
    ensures IsSpace(c) <==> c in " \t\n\r" || c as int == 11 || c as int == 12
  {}

  predicate IsBlank(s: string) {
    forall i :: 0 <= i < |s| ==> s[i] == ' ' || s[i] == '\n' || s[i] == '\r' || s[i] == '\t'
  }

  function Repeat(c: char, n: int): string
    decreases n
  {
    if n <= 0 then "" else [c] + Repeat(c, n - 1)
  }

  predicate StartsObject(s: string) {
    s != "" && s[0] == '{'
  }

  // ----- The state machine -----

  /** A call is pending only until its name arrives, so a pending call is nameless. */
  predicate Valid(s: State) {
    && (s.cursor.AtPending? <==> s.pending.Some?)
    && (s.pending.Some? ==> s.pending.value.name == "")
    && (s.cursor.AtLast? ==> s.msg.toolCalls != [])
  }

  function Current(s: State): ToolCall
    requires Valid(s) && !s.cursor.NoTool?
  {
    if s.cursor.AtPending? then s.pending.value else s.msg.toolCalls[|s.msg.toolCalls| - 1]
  }

  function WithLast(m: Msg, call: ToolCall): Msg
    requires m.toolCalls != []
  {
    m.(toolCalls := m.toolCalls[|m.toolCalls| - 1 := call])
  }

  function WithCurrent(s: State, call: ToolCall): State
    requires Valid(s) && !s.cursor.NoTool?
  {
    if s.cursor.AtPending? then s.(pending := Some(call)) else s.(msg := WithLast(s.msg, call))
  }

  /** Arguments go to the buffer until the current call has a name. */
  predicate Buffers(s: State)
    requires Valid(s)
  {
    s.cursor.NoTool? || Current(s).name == ""
  }

  function Target(s: State): string
    requires Valid(s)
  {
    if Buffers(s) then s.buffer else Current(s).arguments
  }

  function WithTarget(s: State, args: string): (r: State)
    requires Valid(s)
    ensures Valid(r)
  {
    if Buffers(s) then s.(buffer := args) else WithCurrent(s, Current(s).(arguments := args))
  }

  function NameCall(s: State, name: string): (r: State)
    requires Valid(s) && !s.cursor.NoTool?
    ensures Valid(r) && r.cursor.AtLast?
  {
    var call := Current(s).(name := name);
    var filled :=
      if s.buffer != "" then call.(arguments := s.buffer)
      else if call.arguments == "" then call.(arguments := "{")
      else call;
    var t := s.(buffer := "");
    if s.pending.Some? then
      t.(msg := s.msg.(toolCalls := s.msg.toolCalls + [filled]), pending := None, cursor := AtLast)
    else WithCurrent(t, filled)
  }

  /** The text a value node adds to the arguments, and whether its string stays open. */
  function ValueText(tag: Tag, closingQuote: bool, text: string): (string, bool) {
    if tag.ArgStringValue? then
      if text == "" then ("\"", true)
      else ((if closingQuote then "" else "\"") + Escape(text), true)
    else (NormalizeText(text), closingQuote)
  }

  function AddKey(s: State, key: string): (r: State)
    requires Valid(s)
    ensures Valid(r)
  {
    var target := if Target(s) == "" then "{" else Target(s);
    WithTarget(s, target + (if s.argCount > 0 then "," else "") + Dump(key) + ":").(argCount := s.argCount + 1)
  }

  function AddValue(s: State, n: Node): (r: State)
    requires Valid(s)
    ensures Valid(r)
  {
    var (text, open) := ValueText(n.tag, s.closingQuote, n.text);
    WithTarget(s, Target(s) + text).(closingQuote := open)
  }

  function CloseBraces(args: string): string {
    args + Repeat('}', ScanText(START, args).depth)
  }

  function CloseCall(s: State): (r: State)
    requires Valid(s) && !s.cursor.NoTool?
    ensures Valid(r)
  {
    var call := Current(s);
    var flush := call.name == "" && s.buffer != "";
    var args := (if flush then s.buffer else call.arguments) + (if s.closingQuote then "\"" else "");
    var t := WithCurrent(s, call.(arguments := CloseBraces(args)))
             .(buffer := if flush then "" else s.buffer, closingQuote := false);
    if s.cursor.AtPending? then t.(pending := None, cursor := NoTool) else t
  }

  function Step(s: State, n: Node): (r: State)
    requires Valid(s)
    ensures Valid(r)
  {
    match n.tag
    case ReasoningTag => s.(msg := s.msg.(reasoning := s.msg.reasoning + n.text))
    case ContentTag => s.(msg := s.msg.(content := s.msg.content + n.text))
    case ToolOpen => State(s.msg, Some(ToolCall("", "", "")), AtPending, 0, false, "")
    case ArgOpen => s.(closingQuote := false)
    case OtherTag => s
    case ToolId =>
      if s.cursor.NoTool? then s
      else WithCurrent(s, Current(s).(id := Unquote(TrimTrailing(n.text))))
    case ToolName => if s.cursor.NoTool? then s else NameCall(s, TrimTrailing(n.text))
    case ToolArgs =>
      if s.cursor.NoTool? || !StartsObject(TrimTrailing(n.text)) then s
      else WithTarget(s, TrimTrailing(n.text))
    case ArgName => if s.cursor.NoTool? then s else AddKey(s, Trim(n.text))
    case ArgValue => if s.cursor.NoTool? then s else AddValue(s, n)
    case ArgStringValue => if s.cursor.NoTool? then s else AddValue(s, n)
    case ArgClose =>
      if s.cursor.NoTool? || !s.closingQuote then s
      else WithTarget(s, Target(s) + "\"").(closingQuote := false)
    case ToolClose => if s.cursor.NoTool? then s else CloseCall(s)
  }

  function Run(s: State, nodes: seq<Node>): (r: State)
    requires Valid(s)
    ensures Valid(r)
    decreases |nodes|
  {
    if nodes == [] then s else Run(Step(s, nodes[0]), nodes[1..])
  }

  /** Whitespace-only reasoning is dropped at the end of a parse. */
  function Finish(m: Msg): Msg {
    if IsBlank(m.reasoning) then m.(reasoning := "") else m
  }

  /** Reasoning is dropped exactly when it holds nothing but space, tab and line ends. */
  lemma FinishIs(m: Msg)
    ensures Finish(m).content == m.content && Finish(m).toolCalls == m.toolCalls
    ensures (forall i :: 0 <= i < |m.reasoning| ==> m.reasoning[i] in " \t\n\r") ==> Finish(m).reasoning == ""
    ensures (exists i :: 0 <= i < |m.reasoning| && m.reasoning[i] !in " \t\n\r") ==> Finish(m).reasoning == m.reasoning
  {
    if i :| 0 <= i < |m.reasoning| && m.reasoning[i] !in " \t\n\r" {
      assert !(m.reasoning[i] == ' ' || m.reasoning[i] == '\n' || m.reasoning[i] == '\r' || m.reasoning[i] == '\t');
    } else {
      forall i | 0 <= i < |m.reasoning|
        ensures m.reasoning[i] == ' ' || m.reasoning[i] == '\n' || m.reasoning[i] == '\r' || m.reasoning[i] == '\t'
      {
        assert m.reasoning[i] in " \t\n\r";
      }
    }
  }

  function Mapped(nodes: seq<Node>): Msg {
    Finish(Run(INITIAL, nodes).msg)
  }

  /** Nodes that change nothing: those without a tool tag, and argument text that is no object. */
  predicate IsIdle(n: Node) {
    n.tag.OtherTag? || (n.tag.ToolArgs? && !StartsObject(TrimTrailing(n.text)))
  }

  lemma IdleStep(s: State, n: Node)
    requires Valid(s) && IsIdle(n)
    ensures Step(s, n) == s
  {}

  function Busy(ns: seq<Node>): seq<Node> {
    if ns == [] then [] else (if IsIdle(ns[0]) then [] else [ns[0]]) + Busy(ns[1..])
  }

  lemma {:induction false} BusyRun(s: State, ns: seq<Node>)
    requires Valid(s)
    ensures Run(s, Busy(ns)) == Run(s, ns)
    decreases |ns|
  {
    hide Step, IsIdle;
    if ns != [] {
      if IsIdle(ns[0]) {
        IdleStep(s, ns[0]);
        BusyRun(s, ns[1..]);
        assert Busy(ns) == Busy(ns[1..]);
      } else {
        BusyRun(Step(s, ns[0]), ns[1..]);
        assert Busy(ns)[1..] == Busy(ns[1..]);
      }
    }
  }

  /** Parses that differ in idle nodes only give the same message. */
  lemma {:induction false} SameBusy(a: seq<Node>, b: seq<Node>)
    requires Busy(a) == Busy(b)
    ensures Mapped(a) == Mapped(b)
  {
    BusyRun(INITIAL, a);
    BusyRun(INITIAL, b);
  }

  lemma {:induction false} RunConcat(s: State, a: seq<Node>, b: seq<Node>)
    requires Valid(s)
    ensures Run(s, a + b) == Run(Run(s, a), b)
    decreases |a|
  {
    if a == [] {
      assert a + b == b;
    } else {
      assert (a + b)[1..] == a[1..] + b;
      RunConcat(Step(s, a[0]), a[1..], b);
    }
  }

  // ----- The class of the source -----

  class Mapper {
    var result: Msg
    var pendingToolCall: Option<ToolCall>
    var currentTool: Cursor
    var argCount: nat
    var closingQuotePending: bool
    var argsBuffer: string

    ghost function Abs(): State
      reads this
    {
      State(result, pendingToolCall, currentTool, argCount, closingQuotePending, argsBuffer)
    }

    constructor ()
      ensures Abs() == INITIAL
    {
      result, pendingToolCall, currentTool := EMPTY_MSG, None, NoTool;
      argCount, closingQuotePending, argsBuffer := 0, false, "";
    }

    /** A read of `*current_tool`. */
    method Tool() returns (call: ToolCall)
      requires Valid(Abs()) && !currentTool.NoTool?
      ensures call == Current(Abs())
    {
      if currentTool.AtPending? {
        call := pendingToolCall.value;
      } else {
        call := result.toolCalls[|result.toolCalls| - 1];
      }
    }

    /** A write through `current_tool`. */
    method SetTool(call: ToolCall)
      requires Valid(Abs()) && !currentTool.NoTool?
      modifies this
      ensures Abs() == WithCurrent(old(Abs()), call)
    {
      if currentTool.AtPending? {
        pendingToolCall := Some(call);
      } else {
        result := result.(toolCalls := result.toolCalls[|result.toolCalls| - 1 := call]);
      }
    }

    method ArgsTarget() returns (args: string)
      requires Valid(Abs())
      ensures args == Target(Abs())
    {
      args := argsBuffer;
      if !currentTool.NoTool? {
        var call := Tool();
        if call.name != "" {
          args := call.arguments;
        }
      }
    }

    method SetArgsTarget(args: string)
      requires Valid(Abs())
      modifies this
      ensures Abs() == WithTarget(old(Abs()), args)
    {
      if !currentTool.NoTool? {
        var call := Tool();
        if call.name != "" {
          SetTool(call.(arguments := args));
          return;
        }
      }
      argsBuffer := args;
    }

    method MapName(text: string)
      requires Valid(Abs()) && !currentTool.NoTool?
      modifies this
      ensures Abs() == NameCall(old(Abs()), TrimTrailing(text))
    {
      var call := Tool();
      call := call.(name := TrimTrailing(text));
      if argsBuffer != "" {
        call := call.(arguments := argsBuffer);
        argsBuffer := "";
      } else if call.arguments == "" {
        call := call.(arguments := "{");
      }
      if pendingToolCall.Some? {
        result := result.(toolCalls := result.toolCalls + [call]);
        pendingToolCall := None;
        currentTool := AtLast;
      } else {
        SetTool(call);
      }
    }

    method CloseBrackets(args: string) returns (r: string)
      ensures r == CloseBraces(args)
    {
      r := args;
      var d := JsonBraceDepth(r);
      ghost var depth := d;
      while d > 0
        invariant r + Repeat('}', d) == args + Repeat('}', depth)
      {
        assert r + Repeat('}', d) == (r + "}") + Repeat('}', d - 1);
        r := r + "}";
        d := d - 1;
      }
      assert r == r + Repeat('}', d);
    }

    method MapClose()
      requires Valid(Abs()) && !currentTool.NoTool?
      modifies this
      ensures Abs() == CloseCall(old(Abs()))
    {
      var call := Tool();
      ghost var flush := call.name == "" && argsBuffer != "";
      ghost var args := (if flush then argsBuffer else call.arguments) + (if closingQuotePending then "\"" else "");
      if call.name == "" && argsBuffer != "" {
        call := call.(arguments := argsBuffer);
        argsBuffer := "";
      }
      if closingQuotePending {
        call := call.(arguments := call.arguments + "\"");
        closingQuotePending := false;
      }
      assert call.arguments == args;
      var closed := CloseBrackets(call.arguments);
      call := call.(arguments := closed);
      SetTool(call);
      if pendingToolCall.Some? {
        if call.name != "" {
          assert false;
        }
        pendingToolCall := None;
        currentTool := NoTool;
      }
    }

    method MapKey(text: string)
      requires Valid(Abs())
      modifies this
      ensures Abs() == AddKey(old(Abs()), Trim(text))
    {
      var sep := "";
      if argCount > 0 {
        sep := ",";
      }
      var key := Dump(Trim(text));
      var target := ArgsTarget();
      if target == "" {
        target := "{";
      }
      SetArgsTarget(target + sep + key + ":");
      argCount := argCount + 1;
    }

    method MapValue(node: Node)
      requires Valid(Abs()) && (node.tag.ArgValue? || node.tag.ArgStringValue?)
      modifies this
      ensures Abs() == AddValue(old(Abs()), node)
    {
      var valueToAdd := "";
      if node.text == "" && node.tag.ArgStringValue? {
        valueToAdd := "\"";
        closingQuotePending := true;
      } else if node.text != "" && node.tag.ArgStringValue? {
        if !closingQuotePending {
          valueToAdd := "\"";
          closingQuotePending := true;
        }
        valueToAdd := valueToAdd + Escape(node.text);
      } else if node.text != "" {
        valueToAdd := NormalizeQuotesToJson(node.text);
      }
      assert valueToAdd == ValueText(node.tag, old(closingQuotePending), node.text).0;
      var target := ArgsTarget();
      SetArgsTarget(target + valueToAdd);
    }

    method CloseQuote()
      requires Valid(Abs())
      modifies this
      ensures Abs() == if old(closingQuotePending)
        then WithTarget(old(Abs()), Target(old(Abs())) + "\"").(closingQuote := false) else old(Abs())
    {
      if closingQuotePending {
        var target := ArgsTarget();
        SetArgsTarget(target + "\"");
        closingQuotePending := false;
      }
    }

    method Map(node: Node)
      requires Valid(Abs())
      modifies this
      ensures Abs() == Step(old(Abs()), node)
    {
      match node.tag
      case ReasoningTag => result := result.(reasoning := result.reasoning + node.text);
      case ContentTag => result := result.(content := result.content + node.text);
      case ToolOpen =>
        pendingToolCall := Some(ToolCall("", "", ""));
        currentTool := AtPending;
        argCount, argsBuffer, closingQuotePending := 0, "", false;
      case ArgOpen => closingQuotePending := false;
      case OtherTag =>
      case ToolId =>
        if currentTool != NoTool {
          var call := Tool();
          SetTool(call.(id := Unquote(TrimTrailing(node.text))));
        }
      case ToolName =>
        if currentTool != NoTool {
          MapName(node.text);
        }
      case ToolArgs =>
        if currentTool != NoTool {
          var text := TrimTrailing(node.text);
          if text != "" && text[0] == '{' {
            SetArgsTarget(text);
          }
        }
      case ArgName =>
        if currentTool != NoTool {
          MapKey(node.text);
        }
      case ArgValue =>
        if currentTool != NoTool {
          MapValue(node);
        }
      case ArgStringValue =>
        if currentTool != NoTool {
          MapValue(node);
        }
      case ArgClose =>
        if currentTool != NoTool {
          CloseQuote();
        }
      case ToolClose =>
        if currentTool != NoTool {
          MapClose();
        }
    }

    /** The end of a parse: the flush of a named pending call never happens, since `Valid` excludes one. */
    method FromAst(nodes: seq<Node>) returns (msg: Msg)
      requires Valid(Abs())
      modifies this
      ensures msg == result == Finish(Run(old(Abs()), nodes).msg)
    {
      ghost var start := Abs();
      for i := 0 to |nodes|
        invariant Valid(Abs())
        invariant Run(start, nodes) == Run(Abs(), nodes[i..])
      {
        assert nodes[i..][1..] == nodes[i + 1..];
        Map(nodes[i]);
      }
      if pendingToolCall.Some? && pendingToolCall.value.name != "" {
        assert false;
      }
      if result.reasoning != "" {
        var allWhitespace := true;
        for i := 0 to |result.reasoning|
          invariant allWhitespace ==> IsBlank(result.reasoning[..i])
          invariant !allWhitespace ==> !IsBlank(result.reasoning)
          invariant Abs() == Run(start, nodes)
        {
          var c := result.reasoning[i];
          if c != ' ' && c != '\n' && c != '\r' && c != '\t' {
            allWhitespace := false;
            break;
          }
        }
        if allWhitespace {
          assert result.reasoning[..|result.reasoning|] == result.reasoning;
          result := result.(reasoning := "");
        }
      }
      msg := result;
    }
  }
}
