/**
 Streaming: a message parsed from a growing output is cut at successive points of its
 node stream. Later cuts extend earlier ones exactly when no raw value is caught in the
 middle of something the quote normaliser has to take back.
 */
module Streaming {
  import opened Prelude
  import opened JsonText
  import opened QuoteNormalizer
  import opened NormalizerLaws
  import opened ChatDiff
  import opened PegMapper
  import opened MapperPrinting

  // ----- Growth of messages; ids are the business of the id cache -----

  predicate CallGrows(p: ToolCall, q: ToolCall) {
    p.name == q.name && p.arguments <= q.arguments
  }

  predicate SameCall(p: ToolCall, q: ToolCall) {
    p.name == q.name && p.arguments == q.arguments
  }

  ghost predicate Grows(p: Msg, q: Msg) {
    var n := |p.toolCalls|;
    && p.content <= q.content
    && p.reasoning <= q.reasoning
    && n <= |q.toolCalls|
    && (forall i :: 0 <= i < n - 1 ==> SameCall(p.toolCalls[i], q.toolCalls[i]))
    && (n > 0 ==> CallGrows(p.toolCalls[n - 1], q.toolCalls[n - 1]))
  }

  lemma GrowsTransitive(p: Msg, q: Msg, r: Msg)
    requires Grows(p, q) && Grows(q, r)
    ensures Grows(p, r)
  {
    var n := |p.toolCalls|;
    forall i | 0 <= i < n - 1 ensures SameCall(p.toolCalls[i], r.toolCalls[i]) {
      assert SameCall(p.toolCalls[i], q.toolCalls[i]) && SameCall(q.toolCalls[i], r.toolCalls[i]);
    }
    if n > 0 && n < |q.toolCalls| {
      assert SameCall(q.toolCalls[n - 1], r.toolCalls[n - 1]);
    }
  }

  lemma GrowsFinished(p: Msg, q: Msg)
    requires Grows(p, q)
    ensures Grows(Finish(p), Finish(q))
  {
    if IsBlank(q.reasoning) {
      assert IsBlank(p.reasoning);
    }
  }

  /** The last call of `p` is contradicted by what `q` has at its place. */
  ghost predicate Contradicts(p: Msg, q: Msg) {
    var n := |p.toolCalls|;
    0 < n <= |q.toolCalls| && Diverge(p.toolCalls[n - 1].arguments, q.toolCalls[n - 1].arguments)
  }

  lemma ContradictionStays(p: Msg, q: Msg, r: Msg)
    requires Contradicts(p, q) && Grows(q, r)
    ensures Contradicts(p, r)
  {
    var n := |p.toolCalls|;
    var a, b, c := p.toolCalls[n - 1].arguments, q.toolCalls[n - 1].arguments, r.toolCalls[n - 1].arguments;
    if n < |q.toolCalls| {
      assert SameCall(q.toolCalls[n - 1], r.toolCalls[n - 1]);
    }
    assert b <= c;
    DivergeIsFinal(a, b, "", c[|b|..]);
    assert a + "" == a && b + c[|b|..] == c;
  }

  // ----- One node only extends the message -----

  predicate LastNamed(s: State)
    requires Valid(s)
  {
    s.cursor.AtLast? ==> Current(s).name != ""
  }

  /** A call is named once, its JSON arguments come at once, and a string value starts unquoted. */
  predicate DisciplinedStep(s: State, n: Node)
    requires Valid(s)
  {
    match n.tag
    case ToolName => !s.cursor.AtLast? && TrimTrailing(n.text) != ""
    case ToolArgs => s.cursor.AtLast? && StartsObject(TrimTrailing(n.text)) ==> Current(s).arguments == "{"
    case ArgStringValue => !s.closingQuote
    case _ => true
  }

  lemma SameCalls(calls: seq<ToolCall>, call: ToolCall)
    requires calls != [] && CallGrows(calls[|calls| - 1], call)
    ensures forall c, r :: Grows(Msg(c, r, calls), Msg(c, r, calls[|calls| - 1 := call]))
  {}

  lemma TargetGrows(s: State, args: string)
    requires Valid(s) && LastNamed(s) && (s.cursor.AtLast? ==> Current(s).arguments <= args)
    ensures Grows(s.msg, WithTarget(s, args).msg) && LastNamed(WithTarget(s, args))
  {
    if s.cursor.AtLast? {
      SameCalls(s.msg.toolCalls, Current(s).(arguments := args));
    }
  }

  lemma KeyGrows(s: State, n: Node)
    requires Valid(s) && LastNamed(s) && n.tag.ArgName?
    ensures Grows(s.msg, Step(s, n).msg) && LastNamed(Step(s, n))
  {
    hide Dump, Trim, Grows;
    NothingGrows(s.msg);
    if !s.cursor.NoTool? {
      TargetGrows(s, (if Target(s) == "" then "{" else Target(s))
                     + (if s.argCount > 0 then "," else "") + Dump(Trim(n.text)) + ":");
    }
  }

  lemma ValueNodeGrows(s: State, n: Node)
    requires Valid(s) && LastNamed(s) && (n.tag.ArgValue? || n.tag.ArgStringValue?)
    ensures Grows(s.msg, Step(s, n).msg) && LastNamed(Step(s, n))
  {
    hide ValueText, Grows;
    NothingGrows(s.msg);
    if !s.cursor.NoTool? {
      TargetGrows(s, Target(s) + ValueText(n.tag, s.closingQuote, n.text).0);
    }
  }

  lemma QuoteGrows(s: State, n: Node)
    requires Valid(s) && LastNamed(s) && n.tag.ArgClose?
    ensures Grows(s.msg, Step(s, n).msg) && LastNamed(Step(s, n))
  {
    hide Grows;
    NothingGrows(s.msg);
    TargetGrows(s, Target(s) + "\"");
  }

  lemma JsonGrows(s: State, n: Node)
    requires Valid(s) && LastNamed(s) && n.tag.ToolArgs? && DisciplinedStep(s, n)
    ensures Grows(s.msg, Step(s, n).msg) && LastNamed(Step(s, n))
  {
    hide TrimTrailing, Grows;
    NothingGrows(s.msg);
    if !s.cursor.NoTool? && StartsObject(TrimTrailing(n.text)) {
      TargetGrows(s, TrimTrailing(n.text));
    }
  }

  lemma NameGrows(s: State, n: Node)
    requires Valid(s) && LastNamed(s) && n.tag.ToolName? && DisciplinedStep(s, n)
    ensures Grows(s.msg, Step(s, n).msg) && LastNamed(Step(s, n))
  {
    hide TrimTrailing;
  }

  lemma IdGrows(s: State, n: Node)
    requires Valid(s) && LastNamed(s) && n.tag.ToolId?
    ensures Grows(s.msg, Step(s, n).msg) && LastNamed(Step(s, n))
  {
    hide TrimTrailing, Unquote;
    if s.cursor.AtLast? {
      SameCalls(s.msg.toolCalls, Current(s).(id := Unquote(TrimTrailing(n.text))));
    }
  }

  lemma NothingGrows(m: Msg)
    ensures Grows(m, m)
  {}

  lemma StepGrows(s: State, n: Node)
    requires Valid(s) && LastNamed(s) && DisciplinedStep(s, n)
    ensures Grows(s.msg, Step(s, n).msg) && LastNamed(Step(s, n))
  {
    hide WithTarget, AddKey, AddValue, NameCall, CloseCall, TrimTrailing, Unquote, Trim;
    match n.tag
    case ArgName => KeyGrows(s, n);
    case ArgValue => ValueNodeGrows(s, n);
    case ArgStringValue => ValueNodeGrows(s, n);
    case ArgClose => QuoteGrows(s, n);
    case ToolArgs => JsonGrows(s, n);
    case ToolName => NameGrows(s, n);
    case ToolId => IdGrows(s, n);
    case ToolClose =>
      NothingGrows(s.msg);
      if !s.cursor.NoTool? {
        CloseGrows(s);
      }
    case _ =>
  }

  lemma CloseGrows(s: State)
    requires Valid(s) && LastNamed(s) && !s.cursor.NoTool?
    ensures Grows(s.msg, CloseCall(s).msg) && LastNamed(CloseCall(s))
  {
    hide ScanText, Repeat;
    if s.cursor.AtLast? {
      var args := Current(s).arguments + (if s.closingQuote then "\"" else "");
      SameCalls(s.msg.toolCalls, Current(s).(arguments := CloseBraces(args)));
    }
  }

  // ----- Growing text inside one node -----

  /** The nodes whose text a partial parse can cut short; the others are atomic. */
  predicate Streamed(t: Tag) {
    t.ReasoningTag? || t.ContentTag? || t.ToolArgs? || t.ArgValue? || t.ArgStringValue?
  }

  lemma {:induction false} TrimTrailingMonotone(a: string, b: string)
    requires a <= b
    ensures TrimTrailing(a) <= TrimTrailing(b)
    decreases |b|
  {
    if a != b && b != "" {
      if IsSpace(b[|b| - 1]) {
        TrimTrailingMonotone(a, b[..|b| - 1]);
      } else {
        assert TrimTrailing(a) <= a;
      }
    }
  }

  /** Whether growing a node's text from `a` to `b` in state `s` keeps what was sent. */
  predicate SafeGrowth(s: State, tag: Tag, a: string, b: string)
    requires a <= b
  {
    tag.ArgValue? && s.cursor.AtLast? ==> SafeExtension(PyRun(PY_START, a), b[|a|..])
  }

  ghost predicate GrowsOrContradicts(safe: bool, p: Msg, q: Msg) {
    if safe then Grows(p, q) else Contradicts(p, q)
  }

  /** Two writes to the same target compare as their texts do. */
  lemma TargetsCompare(s: State, a: string, b: string)
    requires Valid(s) && LastNamed(s)
    ensures a <= b ==> Grows(WithTarget(s, a).msg, WithTarget(s, b).msg)
    ensures s.cursor.AtLast? && Diverge(a, b) ==> Contradicts(WithTarget(s, a).msg, WithTarget(s, b).msg)
  {}

  lemma ValueGrows(s: State, tag: Tag, a: string, b: string)
    requires Valid(s) && LastNamed(s) && (tag.ArgValue? || (tag.ArgStringValue? && !s.closingQuote)) && a <= b
    ensures GrowsOrContradicts(SafeGrowth(s, tag, a, b), AddValue(s, Node(tag, a)).msg, AddValue(s, Node(tag, b)).msg)
  {
    hide Normalize, Escape;
    var t := Target(s);
    var x, y := ValueText(tag, s.closingQuote, a).0, ValueText(tag, s.closingQuote, b).0;
    if tag.ArgStringValue? {
      EscapeMonotone(a, b);
      PrefixAfterCommon("\"", Escape(a), Escape(b));
      assert x <= y;
    } else if s.cursor.AtLast? {
      assert b == a + b[|a|..];
      MonotoneIff(a, b[|a|..]);
      if !SafeGrowth(s, tag, a, b) {
        DivergeIsFinal(x, y, t, t);
      }
    }
    PrefixAfterCommon(t, x, y);
    TargetsCompare(s, t + x, t + y);
  }

  lemma TextGrows(s: State, tag: Tag, a: string, b: string)
    requires Valid(s) && LastNamed(s) && Streamed(tag) && a <= b && DisciplinedStep(s, Node(tag, b))
    ensures DisciplinedStep(s, Node(tag, a))
    ensures GrowsOrContradicts(SafeGrowth(s, tag, a, b), Step(s, Node(tag, a)).msg, Step(s, Node(tag, b)).msg)
  {
    hide Normalize, Escape, TrimTrailing, SafeExtension;
    if tag.ToolArgs? {
      TrimTrailingMonotone(a, b);
      var x, y := TrimTrailing(a), TrimTrailing(b);
      if !s.cursor.NoTool? && StartsObject(y) {
        if StartsObject(x) {
          TargetsCompare(s, x, y);
        } else if s.cursor.AtLast? {
          TargetGrows(s, y);
        }
      }
    } else if tag.ArgValue? || tag.ArgStringValue? {
      if !s.cursor.NoTool? {
        ValueGrows(s, tag, a, b);
      }
    } else if tag.ReasoningTag? {
      PrefixAfterCommon(s.msg.reasoning, a, b);
    } else {
      PrefixAfterCommon(s.msg.content, a, b);
    }
  }

  // ----- Cuts of a node stream -----

  /** The first `k` nodes, then `part` characters of the next one when it is there at all. */
  datatype Cut = Cut(k: nat, part: Option<nat>)

  predicate ValidCut(ns: seq<Node>, c: Cut) {
    && c.k <= |ns|
    && (c.part.Some? ==> c.k < |ns| && Streamed(ns[c.k].tag) && c.part.value <= |ns[c.k].text|)
  }

  predicate Before(c: Cut, d: Cut) {
    c.k < d.k || (c.k == d.k && (c.part.None? || (d.part.Some? && c.part.value <= d.part.value)))
  }

  function CutNodes(ns: seq<Node>, c: Cut): seq<Node>
    requires ValidCut(ns, c)
  {
    ns[..c.k] + (if c.part.Some? then [Node(ns[c.k].tag, ns[c.k].text[..c.part.value])] else [])
  }

  /** The message that a parse of the output up to the cut gives. */
  function CutMsg(ns: seq<Node>, c: Cut): Msg
    requires ValidCut(ns, c)
  {
    Mapped(CutNodes(ns, c))
  }

  function At(ns: seq<Node>, k: nat): (s: State)
    requires k <= |ns|
    ensures Valid(s)
  {
    Run(INITIAL, ns[..k])
  }

  /** Along the whole stream, every node is disciplined. */
  ghost predicate Disciplined(ns: seq<Node>) {
    forall k :: 0 <= k < |ns| ==> DisciplinedStep(At(ns, k), ns[k])
  }

  lemma AtNext(ns: seq<Node>, k: nat, n: Node)
    requires k <= |ns|
    ensures Run(INITIAL, ns[..k] + [n]) == Step(At(ns, k), n)
    ensures k < |ns| && n == ns[k] ==> At(ns, k + 1) == Step(At(ns, k), n)
  {
    hide Step;
    RunConcat(INITIAL, ns[..k], [n]);
    assert [n][1..] == [];
    assert Run(At(ns, k), [n]) == Run(Step(At(ns, k), n), []);
    if k < |ns| && n == ns[k] {
      assert ns[..k + 1] == ns[..k] + [n];
    }
  }

  lemma {:induction false} LastNamedAt(ns: seq<Node>, k: nat)
    requires k <= |ns| && Disciplined(ns)
    ensures LastNamed(At(ns, k))
  {
    if k == 0 {
      assert ns[..0] == [];
    } else {
      LastNamedAt(ns, k - 1);
      AtNext(ns, k - 1, ns[k - 1]);
      StepGrows(At(ns, k - 1), ns[k - 1]);
    }
  }

  /** Whole nodes only extend the message. */
  lemma {:induction false} NodesGrow(ns: seq<Node>, j: nat, k: nat)
    requires j <= k <= |ns| && Disciplined(ns)
    ensures Grows(At(ns, j).msg, At(ns, k).msg)
    decreases k - j
  {
    hide Step;
    if j < k {
      NodesGrow(ns, j, k - 1);
      AtNext(ns, k - 1, ns[k - 1]);
      LastNamedAt(ns, k - 1);
      StepGrows(At(ns, k - 1), ns[k - 1]);
      GrowsTransitive(At(ns, j).msg, At(ns, k - 1).msg, At(ns, k).msg);
    }
  }

  /** The text that the cut node has at `c`, and at the later cut `d`. */
  function TextAt(ns: seq<Node>, k: nat, c: Cut): string
    requires ValidCut(ns, c) && k < |ns|
  {
    if c.k == k && c.part.Some? then ns[k].text[..c.part.value] else ns[k].text
  }

  /** Whether nothing sent at cut `c` has to be taken back at the later cut `d`. */
  predicate SafeCuts(ns: seq<Node>, c: Cut, d: Cut)
    requires ValidCut(ns, c) && ValidCut(ns, d) && Before(c, d)
  {
    c.part.Some? ==> SafeGrowth(At(ns, c.k), ns[c.k].tag, TextAt(ns, c.k, c), TextAt(ns, c.k, d))
  }

  function Partial(ns: seq<Node>, c: Cut): Msg
    requires ValidCut(ns, c)
  {
    Run(INITIAL, CutNodes(ns, c)).msg
  }

  lemma PartialIs(ns: seq<Node>, c: Cut)
    requires ValidCut(ns, c)
    ensures Partial(ns, c) == if c.part.Some?
      then Step(At(ns, c.k), Node(ns[c.k].tag, TextAt(ns, c.k, c))).msg else At(ns, c.k).msg
  {
    hide Step;
    if c.part.Some? {
      AtNext(ns, c.k, Node(ns[c.k].tag, TextAt(ns, c.k, c)));
    } else {
      assert ns[..c.k] + [] == ns[..c.k];
    }
  }

  /** From a whole number of nodes to a cut inside the next one. */
  lemma PartGrows(ns: seq<Node>, c: Cut)
    requires Disciplined(ns) && ValidCut(ns, c)
    ensures Grows(At(ns, c.k).msg, Partial(ns, c))
  {
    hide Step;
    PartialIs(ns, c);
    if c.part.Some? {
      var s, n := At(ns, c.k), ns[c.k];
      assert DisciplinedStep(s, n);
      LastNamedAt(ns, c.k);
      TextGrows(s, n.tag, TextAt(ns, c.k, c), n.text);
      StepGrows(s, Node(n.tag, TextAt(ns, c.k, c)));
    }
  }

  lemma SameNodeCuts(ns: seq<Node>, c: Cut, d: Cut)
    requires Disciplined(ns) && ValidCut(ns, c) && ValidCut(ns, d) && Before(c, d) && c.k == d.k && c.part.Some?
    ensures GrowsOrContradicts(SafeCuts(ns, c, d), Partial(ns, c), Partial(ns, d))
  {
    hide Step;
    var s, n := At(ns, c.k), ns[c.k];
    var a, b := TextAt(ns, c.k, c), TextAt(ns, c.k, d);
    assert DisciplinedStep(s, n);
    LastNamedAt(ns, c.k);
    PartialIs(ns, c);
    PartialIs(ns, d);
    TextGrows(s, n.tag, b, n.text);
    TextGrows(s, n.tag, a, b);
  }

  lemma LaterNodeCuts(ns: seq<Node>, c: Cut, d: Cut)
    requires Disciplined(ns) && ValidCut(ns, c) && ValidCut(ns, d) && c.k < d.k && c.part.Some?
    ensures GrowsOrContradicts(SafeCuts(ns, c, d), Partial(ns, c), Partial(ns, d))
  {
    hide Step;
    var s, n := At(ns, c.k), ns[c.k];
    var next := At(ns, c.k + 1).msg;
    assert DisciplinedStep(s, n);
    LastNamedAt(ns, c.k);
    PartialIs(ns, c);
    AtNext(ns, c.k, n);
    TextGrows(s, n.tag, TextAt(ns, c.k, c), n.text);
    NodesGrow(ns, c.k + 1, d.k);
    PartGrows(ns, d);
    GrowsTransitive(next, At(ns, d.k).msg, Partial(ns, d));
    if SafeCuts(ns, c, d) {
      GrowsTransitive(Partial(ns, c), next, Partial(ns, d));
    } else {
      ContradictionStays(Partial(ns, c), next, Partial(ns, d));
    }
  }

  /** Later cuts extend earlier ones exactly when the cuts are safe. */
  lemma CutsGrow(ns: seq<Node>, c: Cut, d: Cut)
    requires Disciplined(ns) && ValidCut(ns, c) && ValidCut(ns, d) && Before(c, d)
    ensures GrowsOrContradicts(SafeCuts(ns, c, d), CutMsg(ns, c), CutMsg(ns, d))
  {
    hide Step;
    if c.part.None? {
      PartialIs(ns, c);
      NodesGrow(ns, c.k, d.k);
      PartGrows(ns, d);
      GrowsTransitive(Partial(ns, c), At(ns, d.k).msg, Partial(ns, d));
    } else if c.k == d.k {
      SameNodeCuts(ns, c, d);
    } else {
      LaterNodeCuts(ns, c, d);
    }
    if SafeCuts(ns, c, d) {
      GrowsFinished(Partial(ns, c), Partial(ns, d));
    }
  }

  // ----- Well-formed messages make disciplined streams -----

  ghost predicate DisciplinedRun(s: State, ns: seq<Node>)
    requires Valid(s)
    decreases |ns|
  {
    ns != [] ==> DisciplinedStep(s, ns[0]) && DisciplinedRun(Step(s, ns[0]), ns[1..])
  }

  lemma {:induction false} DisciplinedConcat(s: State, a: seq<Node>, b: seq<Node>)
    requires Valid(s) && DisciplinedRun(s, a) && DisciplinedRun(Run(s, a), b)
    ensures DisciplinedRun(s, a + b)
    decreases |a|
  {
    hide Step, DisciplinedStep;
    if a == [] {
      assert a + b == b;
    } else {
      assert (a + b)[1..] == a[1..] + b;
      DisciplinedConcat(Step(s, a[0]), a[1..], b);
    }
  }

  lemma {:induction false} DisciplinedAt(ns: seq<Node>, j: nat)
    requires j <= |ns| && DisciplinedRun(At(ns, j), ns[j..])
    ensures forall k :: j <= k < |ns| ==> DisciplinedStep(At(ns, k), ns[k])
    decreases |ns| - j
  {
    hide Step, DisciplinedStep;
    if j < |ns| {
      AtNext(ns, j, ns[j]);
      assert ns[j..][1..] == ns[j + 1..];
      DisciplinedAt(ns, j + 1);
    }
  }

  lemma {:induction false} ArgDisciplined(s: State, a: Arg)
    requires Valid(s)
    ensures DisciplinedRun(s, ArgNodes(a))
  {
    hide ValueText, Dump, Trim, WithTarget;
    var ns := ArgNodes(a);
    var t1, t2, t3, t4 := ns[1..], ns[2..], ns[3..], ns[4..];
    assert t1[1..] == t2 && t2[1..] == t3 && t3[1..] == t4 && t4[1..] == [];
    var s1 := Step(s, ns[0]);
    var s2 := Step(s1, ns[1]);
    var s3 := Step(s2, ns[2]);
    var s4 := Step(s3, ns[3]);
    KeyKeepsQuote(s2, a.key);
    assert DisciplinedRun(s4, t4);
    assert DisciplinedRun(s3, t3);
    assert DisciplinedRun(s2, t2);
    assert DisciplinedRun(s1, t1);
  }

  lemma KeyKeepsQuote(s: State, key: string)
    requires Valid(s)
    ensures Step(s, Node(ArgName, key)).closingQuote == s.closingQuote
  {}

  lemma {:induction false} ArgsDisciplined(s: State, args: seq<Arg>)
    requires Valid(s)
    ensures DisciplinedRun(s, ArgsNodes(args))
    decreases |args|
  {
    hide Step, DisciplinedStep, ArgNodes;
    if args != [] {
      ArgDisciplined(s, args[0]);
      ArgsDisciplined(Run(s, ArgNodes(args[0])), args[1..]);
      DisciplinedConcat(s, ArgNodes(args[0]), ArgsNodes(args[1..]));
    }
  }

  lemma {:induction false} OneDisciplined(s: State, n: Node)
    requires Valid(s) && DisciplinedStep(s, n)
    ensures DisciplinedRun(s, [n])
  {
    hide Step, DisciplinedStep;
    assert [n][1..] == [];
  }

  lemma {:induction false} BodyDisciplined(m: Msg, name: string, id: string, body: Body)
    requires WellFormedBody(body)
    ensures DisciplinedRun(Building(m, name, id, "", 0), BodyNodes(body))
  {
    hide Step, Building, DisciplinedStep;
    var s := Building(m, name, id, "", 0);
    if body.Tagged? {
      ArgsDisciplined(s, body.args);
      if body.wrapper.Some? {
        var node := Node(ToolArgs, body.wrapper.value);
        IdleDisciplined(s, node);
        IdleStep(s, node);
        RunOne(s, node);
        DisciplinedConcat(s, [node], ArgsNodes(body.args));
      } else {
        assert [] + ArgsNodes(body.args) == ArgsNodes(body.args);
      }
    } else {
      JsonDisciplined(m, name, id, body.text);
    }
  }

  lemma {:induction false} IdleDisciplined(s: State, n: Node)
    requires Valid(s) && IsIdle(n)
    ensures DisciplinedRun(s, [n])
  {
    OneDisciplined(s, n);
  }

  /** The parts of a call are disciplined in any order. */
  lemma {:induction false} PartsDisciplined(m: Msg, item: Item, layout: seq<Part>, name: string, id: string,
                                            args: string, n: nat)
    requires item.Call? && TrimTrailing(item.name) != "" && WellFormedBody(item.body) && Distinct(layout)
    requires (NamePart in layout ==> name == "") && (BodyPart in layout ==> args == "" && n == 0)
    requires IdPart in layout ==> item.id.Some?
    ensures DisciplinedRun(Building(m, name, id, args, n), PartsNodes(item, layout))
    decreases |layout|
  {
    hide Step, Building, TrimTrailing, Unquote, BodyText, BodyCount, BodyNodes, WellFormedBody, DisciplinedStep;
    if layout != [] {
      var s, rest := Building(m, name, id, args, n), layout[1..];
      DistinctTail(layout);
      match layout[0]
      case NamePart =>
        NameDisciplined(m, id, args, n, item.name);
        NameStep(m, id, args, n, item.name);
        RunOne(s, Node(ToolName, item.name));
        PartsDisciplined(m, item, rest, TrimTrailing(item.name), id, args, n);
      case IdPart =>
        IdDisciplined(s, item.id.value);
        IdStep(m, name, id, args, n, item.id.value);
        RunOne(s, Node(ToolId, item.id.value));
        PartsDisciplined(m, item, rest, name, Unquote(TrimTrailing(item.id.value)), args, n);
      case BodyPart =>
        BodyDisciplined(m, name, id, item.body);
        BodySteps(m, name, id, item.body);
        PartsDisciplined(m, item, rest, name, id, BodyText(item.body), BodyCount(item.body));
      DisciplinedConcat(s, PartNodes(item, layout[0]), PartsNodes(item, rest));
    }
  }

  lemma {:induction false} NameDisciplined(m: Msg, id: string, args: string, n: nat, text: string)
    requires TrimTrailing(text) != ""
    ensures DisciplinedRun(Building(m, "", id, args, n), [Node(ToolName, text)])
  {
    OneDisciplined(Building(m, "", id, args, n), Node(ToolName, text));
  }

  lemma {:induction false} IdDisciplined(s: State, text: string)
    requires Valid(s)
    ensures DisciplinedRun(s, [Node(ToolId, text)])
  {
    OneDisciplined(s, Node(ToolId, text));
  }

  lemma {:induction false} ItemDisciplined(s: State, item: Item)
    requires Valid(s) && WellFormed(item)
    ensures DisciplinedRun(s, ItemNodes(item))
  {
    hide Step, DisciplinedStep, TrimTrailing, Building, PartsNodes;
    if item.Call? {
      var open, close := [Node(ToolOpen, "")], [Node(ToolClose, "")];
      var parts := PartsNodes(item, item.layout);
      OpenDisciplined(s);
      OpenStep(s);
      RunOne(s, open[0]);
      PartsDisciplined(s.msg, item, item.layout, "", "", "", 0);
      DisciplinedConcat(s, open, parts);
      CloseDisciplined(Run(s, open + parts));
      DisciplinedConcat(s, open + parts, close);
    } else {
      TextDisciplined(s, ItemNodes(item)[0]);
    }
  }

  lemma {:induction false} OpenDisciplined(s: State)
    requires Valid(s)
    ensures DisciplinedRun(s, [Node(ToolOpen, "")])
  {
    OneDisciplined(s, Node(ToolOpen, ""));
  }

  lemma {:induction false} TextDisciplined(s: State, n: Node)
    requires Valid(s) && (n.tag.ReasoningTag? || n.tag.ContentTag?)
    ensures DisciplinedRun(s, [n])
  {
    OneDisciplined(s, n);
  }

  lemma {:induction false} JsonDisciplined(m: Msg, name: string, id: string, text: string)
    ensures DisciplinedRun(Building(m, name, id, "", 0), [Node(ToolArgs, text)])
  {
    OneDisciplined(Building(m, name, id, "", 0), Node(ToolArgs, text));
  }

  lemma {:induction false} CloseDisciplined(s: State)
    requires Valid(s)
    ensures DisciplinedRun(s, [Node(ToolClose, "")])
  {
    OneDisciplined(s, Node(ToolClose, ""));
  }

  lemma {:induction false} ItemsDisciplined(s: State, items: seq<Item>)
    requires Valid(s) && AllWellFormed(items)
    ensures DisciplinedRun(s, Nodes(items))
    decreases |items|
  {
    hide Step, DisciplinedStep, ItemNodes;
    if items != [] {
      ItemDisciplined(s, items[0]);
      ItemsDisciplined(Run(s, ItemNodes(items[0])), items[1..]);
      DisciplinedConcat(s, ItemNodes(items[0]), Nodes(items[1..]));
    }
  }

  lemma {:induction false} WellFormedIsDisciplined(items: seq<Item>)
    requires AllWellFormed(items)
    ensures Disciplined(Nodes(items))
  {
    var ns := Nodes(items);
    ItemsDisciplined(INITIAL, items);
    assert ns[..0] == [] && ns[0..] == ns;
    DisciplinedAt(ns, 0);
  }
}
