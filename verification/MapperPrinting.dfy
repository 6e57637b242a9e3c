/**
 The mapper refines a plain printer: for a well-formed message, the arguments it builds
 event by event are one closed JSON object with the keys and values in order.
 */
module MapperPrinting {
  import opened Prelude
  import opened JsonText
  import opened QuoteNormalizer
  import opened NormalizerLaws
  import opened ChatDiff
  import opened PegMapper

  // ----- What a model writes, and the nodes a parser reports for it -----

  /** `Text` is declared a string by the schema; `Raw` is written in Python or JSON syntax. */
  datatype Value = Text(text: string) | Raw(text: string)

  datatype Arg = Arg(key: string, value: Value)

  /** Tagged arguments may be inside a node of their own, whose text is all of theirs. */
  datatype Body = Tagged(args: seq<Arg>, wrapper: Option<string>) | Json(text: string)

  /** The parts of a call come in the order that its format has them in. */
  datatype Part = NamePart | IdPart | BodyPart

  datatype Item =
    | Reasoning(text: string)
    | Content(text: string)
    | Call(name: string, id: Option<string>, body: Body, layout: seq<Part>)

  function ArgNodes(a: Arg): seq<Node> {
    [Node(OtherTag, ""), Node(ArgOpen, ""), Node(ArgName, a.key),
     Node(if a.value.Text? then ArgStringValue else ArgValue, a.value.text), Node(ArgClose, "")]
  }

  function ArgsNodes(args: seq<Arg>): seq<Node> {
    if args == [] then [] else ArgNodes(args[0]) + ArgsNodes(args[1..])
  }

  function BodyNodes(body: Body): seq<Node> {
    match body
    case Tagged(args, wrapper) => (if wrapper.Some? then [Node(ToolArgs, wrapper.value)] else []) + ArgsNodes(args)
    case Json(text) => [Node(ToolArgs, text)]
  }

  function PartNodes(item: Item, part: Part): seq<Node>
    requires item.Call?
  {
    match part
    case NamePart => [Node(ToolName, item.name)]
    case IdPart => if item.id.Some? then [Node(ToolId, item.id.value)] else []
    case BodyPart => BodyNodes(item.body)
  }

  function PartsNodes(item: Item, layout: seq<Part>): seq<Node>
    requires item.Call?
  {
    if layout == [] then [] else PartNodes(item, layout[0]) + PartsNodes(item, layout[1..])
  }

  function ItemNodes(item: Item): seq<Node> {
    match item
    case Reasoning(text) => [Node(ReasoningTag, text)]
    case Content(text) => [Node(ContentTag, text)]
    case Call(_, _, _, layout) => [Node(ToolOpen, "")] + PartsNodes(item, layout) + [Node(ToolClose, "")]
  }

  function Nodes(items: seq<Item>): seq<Node> {
    if items == [] then [] else ItemNodes(items[0]) + Nodes(items[1..])
  }

  // ----- The plain printer -----

  function PrintValue(v: Value): string {
    if v.Text? then Dump(v.text) else NormalizeText(v.text)
  }

  function PrintArg(a: Arg): string {
    Dump(Trim(a.key)) + ":" + PrintValue(a.value)
  }

  function PrintArgs(args: seq<Arg>): string {
    if args == [] then ""
    else if |args| == 1 then PrintArg(args[0])
    else PrintArg(args[0]) + "," + PrintArgs(args[1..])
  }

  function PrintBody(body: Body): string {
    if body.Tagged? then "{" + PrintArgs(body.args) + "}" else TrimTrailing(body.text)
  }

  function PrintItem(m: Msg, item: Item): Msg {
    match item
    case Reasoning(text) => m.(reasoning := m.reasoning + text)
    case Content(text) => m.(content := m.content + text)
    case Call(name, id, body, _) =>
      m.(toolCalls := m.toolCalls + [ToolCall(
        TrimTrailing(name), PrintBody(body),
        if id.Some? then Unquote(TrimTrailing(id.value)) else "")])
  }

  function PrintItems(m: Msg, items: seq<Item>): Msg
    decreases |items|
  {
    if items == [] then m else PrintItems(PrintItem(m, items[0]), items[1..])
  }

  function Print(items: seq<Item>): Msg {
    Finish(PrintItems(EMPTY_MSG, items))
  }

  // ----- Well-formed messages -----

  /** Braces balance outside Python quotes, and no quote stays open. */
  predicate ClosedRaw(v: string) {
    var end := PyRun(PY_START, v);
    Braces(PyEvents(PY_START, v)) == 0 && end.mode.Bare? && !end.escaped
  }

  predicate WellFormedArgs(args: seq<Arg>) {
    forall i :: 0 <= i < |args| ==> args[i].value.Raw? ==> ClosedRaw(args[i].value.text)
  }

  predicate WellFormedBody(body: Body) {
    match body
    case Tagged(args, wrapper) =>
      WellFormedArgs(args) && (wrapper.Some? ==> !StartsObject(TrimTrailing(wrapper.value)))
    case Json(text) => StartsObject(TrimTrailing(text)) && ScanText(START, TrimTrailing(text)) == START
  }

  /** Name and body once each, and the id if there is one, in any order. */
  predicate WellLaid(item: Item)
    requires item.Call?
  {
    && Distinct(item.layout)
    && NamePart in item.layout && BodyPart in item.layout && (IdPart in item.layout <==> item.id.Some?)
  }

  predicate Distinct(layout: seq<Part>) {
    forall i, j :: 0 <= i < j < |layout| ==> layout[i] != layout[j]
  }

  predicate WellFormed(item: Item) {
    item.Call? ==> TrimTrailing(item.name) != "" && WellFormedBody(item.body) && WellLaid(item)
  }

  predicate AllWellFormed(items: seq<Item>) {
    forall i :: 0 <= i < |items| ==> WellFormed(items[i])
  }

  // ----- Printed text is closed -----

  lemma PlainIsNeutral(c: char)
    requires c == ':' || c == ','
    ensures Neutral([c])
  {
    forall d ensures ScanText(Scan(d, false, false), [c]) == Scan(d, false, false) {
      assert [c][1..] == "";
    }
  }

  lemma ArgIsNeutral(a: Arg)
    requires a.value.Raw? ==> ClosedRaw(a.value.text)
    ensures Neutral(PrintArg(a))
  {
    DumpIsNeutral(Trim(a.key));
    PlainIsNeutral(':');
    NeutralConcat(Dump(Trim(a.key)), ":");
    if a.value.Text? {
      DumpIsNeutral(a.value.text);
    } else {
      KeepsStructure(a.value.text);
      BalancedIsNeutral(NormalizeText(a.value.text));
    }
    NeutralConcat(Dump(Trim(a.key)) + ":", PrintValue(a.value));
  }

  lemma {:induction false} ArgsAreNeutral(args: seq<Arg>)
    requires WellFormedArgs(args)
    ensures Neutral(PrintArgs(args))
  {
    if args != [] {
      ArgIsNeutral(args[0]);
      if |args| > 1 {
        ArgsAreNeutral(args[1..]);
        PlainIsNeutral(',');
        NeutralConcat(PrintArg(args[0]), ",");
        NeutralConcat(PrintArg(args[0]) + ",", PrintArgs(args[1..]));
      }
    }
  }

  lemma {:induction false} OpenObject(j: string)
    requires Neutral(j)
    ensures ScanText(START, "{" + j) == Scan(1, false, false)
    ensures ScanText(START, "{" + j + "}") == START
  {
    assert ("{" + j)[1..] == j;
    ScanConcat(START, "{" + j, "}");
    assert ScanText(Scan(1, false, false), "}") == START by {
      assert "}"[1..] == "";
    }
  }

  /** Every printed argument object is balanced and leaves no string open. */
  lemma PrintedIsClosed(body: Body)
    requires WellFormedBody(body)
    ensures ScanText(START, PrintBody(body)) == START
  {
    if body.Tagged? {
      ArgsAreNeutral(body.args);
      OpenObject(PrintArgs(body.args));
    }
  }

  // ----- The mapper prints the same -----

  /** An argument object that has text, if only its opening brace. */
  function Begun(args: string): string {
    if args == "" then "{" else args
  }

  /** The state inside a call: what is known of it so far, named or not. */
  function Building(m: Msg, name: string, id: string, args: string, n: nat): (r: State)
    ensures Valid(r)
  {
    if name == "" then State(m, Some(ToolCall("", "", id)), AtPending, n, false, args)
    else State(m.(toolCalls := m.toolCalls + [ToolCall(name, Begun(args), id)]), None, AtLast, n, false, "")
  }

  lemma LastOf(m: Msg, name: string, id: string, args: string, args': string, id': string)
    ensures var calls, call := m.toolCalls + [ToolCall(name, args, id)], ToolCall(name, args', id');
      calls[|calls| - 1 := call] == m.toolCalls + [call]
  {}

  lemma OpenStep(s: State)
    requires Valid(s)
    ensures Step(s, Node(ToolOpen, "")) == Building(s.msg, "", "", "", 0)
  {}

  lemma {:induction false} NameStep(m: Msg, id: string, args: string, n: nat, text: string)
    requires TrimTrailing(text) != ""
    ensures Step(Building(m, "", id, args, n), Node(ToolName, text)) == Building(m, TrimTrailing(text), id, args, n)
  {}

  lemma {:induction false} IdStep(m: Msg, name: string, id: string, args: string, n: nat, text: string)
    ensures Step(Building(m, name, id, args, n), Node(ToolId, text))
         == Building(m, name, Unquote(TrimTrailing(text)), args, n)
  {
    LastOf(m, name, id, Begun(args), Begun(args), Unquote(TrimTrailing(text)));
  }

  lemma {:induction false} JsonStep(m: Msg, name: string, id: string, text: string)
    requires StartsObject(TrimTrailing(text))
    ensures Step(Building(m, name, id, "", 0), Node(ToolArgs, text)) == Building(m, name, id, TrimTrailing(text), 0)
  {
    LastOf(m, name, id, "{", TrimTrailing(text), id);
  }

  lemma KeyStep(m: Msg, name: string, id: string, args: string, n: nat, key: string)
    ensures Step(Building(m, name, id, args, n), Node(OtherTag, "")) == Building(m, name, id, args, n)
    ensures Step(Building(m, name, id, args, n), Node(ArgOpen, "")) == Building(m, name, id, args, n)
    ensures Step(Building(m, name, id, args, n), Node(ArgName, key))
         == Building(m, name, id, Begun(args) + (if n > 0 then "," else "") + Dump(Trim(key)) + ":", n + 1)
  {
    LastOf(m, name, id, Begun(args), Begun(args) + (if n > 0 then "," else "") + Dump(Trim(key)) + ":", id);
  }

  lemma ValueStep(m: Msg, name: string, id: string, args: string, n: nat, v: Value)
    requires args != ""
    ensures var node := Node(if v.Text? then ArgStringValue else ArgValue, v.text);
      Step(Step(Building(m, name, id, args, n), node), Node(ArgClose, ""))
      == Building(m, name, id, args + PrintValue(v), n)
  {
    hide Escape, NormalizeText;
    var s := Building(m, name, id, args, n);
    var node := Node(if v.Text? then ArgStringValue else ArgValue, v.text);
    LastOf(m, name, id, args, args + PrintValue(v), id);
    if v.Text? {
      var text := "\"" + Escape(v.text);
      EmptyEscape();
      assert ValueText(ArgStringValue, false, v.text) == (text, true);
      assert Step(s, node) == Building(m, name, id, args + text, n).(closingQuote := true) by {
        LastOf(m, name, id, args, args + text, id);
      }
      LastOf(m, name, id, args + text, args + PrintValue(v), id);
      assert args + text + "\"" == args + Dump(v.text);
    }
  }

  lemma EmptyEscape()
    ensures "\"" + Escape("") == "\""
  {}

  lemma {:induction false} ArgSteps(m: Msg, name: string, id: string, args: string, n: nat, a: Arg)
    ensures Run(Building(m, name, id, args, n), ArgNodes(a))
         == Building(m, name, id, Begun(args) + (if n > 0 then "," else "") + PrintArg(a), n + 1)
  {
    hide Step, Dump, Trim, PrintValue, Building;
    var key := Begun(args) + (if n > 0 then "," else "") + Dump(Trim(a.key)) + ":";
    KeyStep(m, name, id, args, n, a.key);
    ValueStep(m, name, id, key, n + 1, a.value);
    assert key + PrintValue(a.value) == Begun(args) + (if n > 0 then "," else "") + PrintArg(a);
    RunFive(Building(m, name, id, args, n), ArgNodes(a));
  }

  lemma {:induction false} RunFive(s: State, ns: seq<Node>)
    requires Valid(s) && |ns| == 5
    ensures Run(s, ns) == Step(Step(Step(Step(Step(s, ns[0]), ns[1]), ns[2]), ns[3]), ns[4])
  {
    hide Step;
    var t1, t2, t3, t4 := ns[1..], ns[2..], ns[3..], ns[4..];
    assert t1[1..] == t2 && t2[1..] == t3 && t3[1..] == t4 && t4[1..] == [];
    var s1 := Step(s, ns[0]);
    var s2 := Step(s1, ns[1]);
    var s3 := Step(s2, ns[2]);
    assert Run(s, ns) == Run(s1, t1) == Run(s2, t2) == Run(s3, t3);
    var s4 := Step(s3, ns[3]);
    assert Run(s3, t3) == Run(s4, t4) == Run(Step(s4, ns[4]), []);
  }

  /** The text that `args` adds after `n` arguments. */
  function Appended(args: seq<Arg>, n: nat): string {
    if args == [] then "" else (if n > 0 then "," else "") + PrintArg(args[0]) + Appended(args[1..], n + 1)
  }

  lemma {:induction false} AppendedIsPrinted(args: seq<Arg>, n: nat)
    ensures Appended(args, n) == (if n > 0 && args != [] then "," else "") + PrintArgs(args)
  {
    hide PrintArg;
    if args != [] {
      var rest := args[1..];
      AppendedIsPrinted(rest, n + 1);
      var first := (if n > 0 then "," else "") + PrintArg(args[0]);
      assert Appended(args, n) == first + Appended(rest, n + 1);
      if rest == [] {
        assert first + "" == first;
      }
    }
  }

  lemma AppendedNext(list: seq<Arg>, begun: string, n: nat)
    requires list != [] && begun != ""
    ensures var next := begun + (if n > 0 then "," else "") + PrintArg(list[0]);
      && next != "" && Begun(next) == next
      && begun + Appended(list, n) == if list[1..] == [] then next else next + Appended(list[1..], n + 1)
  {
    hide PrintArg;
    var first := (if n > 0 then "," else "") + PrintArg(list[0]);
    assert begun + first == begun + (if n > 0 then "," else "") + PrintArg(list[0]);
    if list[1..] == [] {
      assert first + "" == first;
    } else {
      assert begun + (first + Appended(list[1..], n + 1)) == (begun + first) + Appended(list[1..], n + 1);
    }
  }

  lemma {:induction false} ArgsSteps(m: Msg, name: string, id: string, args: string, n: nat, list: seq<Arg>)
    ensures Run(Building(m, name, id, args, n), ArgsNodes(list))
         == Building(m, name, id, if list == [] then args else Begun(args) + Appended(list, n), n + |list|)
    decreases |list|
  {
    hide Step, PrintArg, ArgNodes, Building, Appended;
    if list != [] {
      var args' := Begun(args) + (if n > 0 then "," else "") + PrintArg(list[0]);
      AppendedNext(list, Begun(args), n);
      ArgSteps(m, name, id, args, n, list[0]);
      RunConcat(Building(m, name, id, args, n), ArgNodes(list[0]), ArgsNodes(list[1..]));
      ArgsSteps(m, name, id, args', n + 1, list[1..]);
    }
  }

  /** The argument text of a body before the call is closed. */
  function BodyText(body: Body): string {
    if body.Json? then TrimTrailing(body.text)
    else if body.args == [] then "" else "{" + PrintArgs(body.args)
  }

  function BodyCount(body: Body): nat {
    if body.Tagged? then |body.args| else 0
  }

  /** The node around tagged arguments changes nothing. */
  lemma {:induction false} WrapperSteps(s: State, args: seq<Arg>, wrapper: Option<string>)
    requires Valid(s) && (wrapper.Some? ==> !StartsObject(TrimTrailing(wrapper.value)))
    ensures Run(s, BodyNodes(Tagged(args, wrapper))) == Run(s, ArgsNodes(args))
  {
    hide Step, ArgsNodes;
    if wrapper.Some? {
      var node := Node(ToolArgs, wrapper.value);
      IdleStep(s, node);
      RunOne(s, node);
      RunConcat(s, [node], ArgsNodes(args));
    } else {
      assert [] + ArgsNodes(args) == ArgsNodes(args);
    }
  }

  lemma {:induction false} BodySteps(m: Msg, name: string, id: string, body: Body)
    requires WellFormedBody(body)
    ensures Run(Building(m, name, id, "", 0), BodyNodes(body)) == Building(m, name, id, BodyText(body), BodyCount(body))
  {
    hide Step, Building, PrintArgs, ArgsNodes, Appended, Run, TrimTrailing;
    var s := Building(m, name, id, "", 0);
    match body
    case Tagged(args, wrapper) =>
      WrapperSteps(s, args, wrapper);
      ArgsSteps(m, name, id, "", 0, args);
      AppendedIsPrinted(args, 0);
      assert "" + PrintArgs(args) == PrintArgs(args);
    case Json(text) =>
      JsonStep(m, name, id, text);
      RunOne(s, BodyNodes(body)[0]);
  }

  lemma {:induction false} RunOne(s: State, n: Node)
    requires Valid(s)
    ensures Run(s, [n]) == Step(s, n)
  {
    hide Step;
    assert [n][1..] == [] && Run(s, [n]) == Run(Step(s, n), []);
  }

  lemma CloseStep(m: Msg, name: string, id: string, args: string, n: nat)
    requires name != ""
    ensures Step(Building(m, name, id, args, n), Node(ToolClose, "")).msg
         == m.(toolCalls := m.toolCalls + [ToolCall(name, CloseBraces(Begun(args)), id)])
  {
    hide ScanText, Repeat;
    assert Begun(args) + "" == Begun(args);
    LastOf(m, name, id, Begun(args), CloseBraces(Begun(args)), id);
  }

  lemma {:induction false} BodyCloses(body: Body)
    requires WellFormedBody(body)
    ensures CloseBraces(Begun(BodyText(body))) == PrintBody(body)
  {
    match body
    case Tagged(args, _) =>
      ArgsAreNeutral(args);
      OpenObject(PrintArgs(args));
      assert args == [] ==> "{" + PrintArgs(args) == "{";
      assert Repeat('}', 1) == "}";
    case Json(text) =>
      assert Repeat('}', 0) == "" && TrimTrailing(text) + "" == TrimTrailing(text);
  }

  /** The parts that are left are read in any order, each into its own place. */
  lemma {:induction false} PartsSteps(m: Msg, item: Item, layout: seq<Part>, name: string, id: string, args: string,
                                      n: nat)
    requires item.Call? && TrimTrailing(item.name) != "" && WellFormedBody(item.body) && Distinct(layout)
    requires (NamePart in layout ==> name == "") && (BodyPart in layout ==> args == "" && n == 0)
    requires IdPart in layout ==> item.id.Some?
    ensures Run(Building(m, name, id, args, n), PartsNodes(item, layout)) == Building(m,
        if NamePart in layout then TrimTrailing(item.name) else name,
        if IdPart in layout then Unquote(TrimTrailing(item.id.value)) else id,
        if BodyPart in layout then BodyText(item.body) else args,
        if BodyPart in layout then BodyCount(item.body) else n)
    decreases |layout|
  {
    hide Step, Building, TrimTrailing, Unquote, BodyText, BodyCount, BodyNodes, WellFormedBody;
    if layout != [] {
      var s, rest := Building(m, name, id, args, n), layout[1..];
      RunConcat(s, PartNodes(item, layout[0]), PartsNodes(item, rest));
      DistinctTail(layout);
      match layout[0]
      case NamePart =>
        NameStep(m, id, args, n, item.name);
        RunOne(s, Node(ToolName, item.name));
        PartsSteps(m, item, rest, TrimTrailing(item.name), id, args, n);
      case IdPart =>
        IdStep(m, name, id, args, n, item.id.value);
        RunOne(s, Node(ToolId, item.id.value));
        PartsSteps(m, item, rest, name, Unquote(TrimTrailing(item.id.value)), args, n);
      case BodyPart =>
        BodySteps(m, name, id, item.body);
        PartsSteps(m, item, rest, name, id, BodyText(item.body), BodyCount(item.body));
    }
  }

  lemma DistinctTail(layout: seq<Part>)
    requires Distinct(layout) && layout != []
    ensures Distinct(layout[1..]) && layout[0] !in layout[1..]
    ensures forall part :: part in layout <==> part == layout[0] || part in layout[1..]
  {}

  lemma {:induction false} CallSteps(s: State, item: Item)
    requires Valid(s) && WellFormed(item) && item.Call?
    ensures Run(s, ItemNodes(item)).msg == PrintItem(s.msg, item)
  {
    hide Step, Building, Unquote, TrimTrailing, PrintBody, BodyText, WellFormedBody, PartsNodes;
    var open, close := Node(ToolOpen, ""), Node(ToolClose, "");
    var parts := PartsNodes(item, item.layout);
    OpenStep(s);
    RunOne(s, open);
    RunConcat(s, [open] + parts, [close]);
    RunConcat(s, [open], parts);
    PartsSteps(s.msg, item, item.layout, "", "", "", 0);
    var id := if item.id.Some? then Unquote(TrimTrailing(item.id.value)) else "";
    var built := Building(s.msg, TrimTrailing(item.name), id, BodyText(item.body), BodyCount(item.body));
    RunOne(built, close);
    CloseStep(s.msg, TrimTrailing(item.name), id, BodyText(item.body), BodyCount(item.body));
    BodyCloses(item.body);
  }

  lemma {:induction false} ItemSteps(s: State, item: Item)
    requires Valid(s) && WellFormed(item)
    ensures Run(s, ItemNodes(item)).msg == PrintItem(s.msg, item)
  {
    if item.Call? {
      CallSteps(s, item);
    } else {
      assert ItemNodes(item)[1..] == [];
    }
  }

  lemma {:induction false} ItemsSteps(s: State, items: seq<Item>)
    requires Valid(s) && AllWellFormed(items)
    ensures Run(s, Nodes(items)).msg == PrintItems(s.msg, items)
    decreases |items|
  {
    if items != [] {
      ItemSteps(s, items[0]);
      RunConcat(s, ItemNodes(items[0]), Nodes(items[1..]));
      ItemsSteps(Run(s, ItemNodes(items[0])), items[1..]);
    }
  }

  /** The mapper's message for a whole well-formed output is the plain printer's. */
  lemma {:induction false} MapperRefinesPrinter(items: seq<Item>)
    requires AllWellFormed(items)
    ensures Mapped(Nodes(items)) == Print(items)
  {
    ItemsSteps(INITIAL, items);
  }

  // ----- Calls without a name, and values in pieces -----

  /** A call that is closed before it got a name leaves no trace in the message. */
  lemma {:induction false} NamelessIsDropped(m: Msg, id: string, args: seq<Arg>)
    ensures Run(Building(m, "", id, "", 0), ArgsNodes(args) + [Node(ToolClose, "")]).msg == m
  {
    hide ArgsNodes, Appended, Step;
    var s := Building(m, "", id, "", 0);
    RunConcat(s, ArgsNodes(args), [Node(ToolClose, "")]);
    ArgsSteps(m, "", id, "", 0, args);
    var text := if args == [] then "" else Begun("") + Appended(args, 0);
    RunOne(Building(m, "", id, text, |args|), Node(ToolClose, ""));
    NamelessClose(m, id, text, |args|);
  }

  lemma {:induction false} NamelessClose(m: Msg, id: string, args: string, n: nat)
    ensures Step(Building(m, "", id, args, n), Node(ToolClose, "")).msg == m
  {
    hide ScanText, Repeat;
  }

  /** A string value reported in two pieces is the same as one reported at once. */
  lemma {:induction false} PiecesJoin(m: Msg, name: string, id: string, args: string, n: nat, a: string, b: string)
    requires args != "" && b != ""
    ensures var s := Building(m, name, id, args, n);
      Step(Step(s, Node(ArgStringValue, a)), Node(ArgStringValue, b)) == Step(s, Node(ArgStringValue, a + b))
  {
    hide Escape;
    EscapeConcat(a, b);
    EmptyEscape();
    var s := Building(m, name, id, args, n);
    var x, y := args + ("\"" + Escape(a)), args + ("\"" + Escape(a + b));
    assert x + Escape(b) == y;
    LastOf(m, name, id, args, x, id);
    LastOf(m, name, id, x, y, id);
    LastOf(m, name, id, args, y, id);
    assert ValueText(ArgStringValue, false, a) == ("\"" + Escape(a), true);
    assert ValueText(ArgStringValue, true, b) == (Escape(b), true) by {
      assert "" + Escape(b) == Escape(b);
    }
    assert Step(s, Node(ArgStringValue, a)) == Building(m, name, id, x, n).(closingQuote := true);
    assert Step(s, Node(ArgStringValue, a + b)) == Building(m, name, id, y, n).(closingQuote := true);
  }

  // ----- The same, with names, keys and texts written out -----

  /** Text that trimming keeps. */
  predicate IsTrimmed(s: string) {
    s == "" || (!IsSpace(s[0]) && !IsSpace(s[|s| - 1]))
  }

  predicate IsLiteralArg(a: Arg) {
    IsTrimmed(a.key) && (a.value.Raw? ==> ClosedRaw(a.value.text))
  }

  /** A call whose parts are just what the message should have. */
  predicate IsLiteral(item: Item) {
    item.Call? ==>
      && item.name != "" && IsTrimmed(item.name) && WellLaid(item)
      && (item.id.Some? ==> IsTrimmed(item.id.value) && (item.id.value == "" || item.id.value[0] != '"'))
      && match item.body
         case Tagged(args, wrapper) =>
           && (forall i :: 0 <= i < |args| ==> IsLiteralArg(args[i]))
           && (wrapper.Some? && wrapper.value != "" ==> wrapper.value[0] != '{')
         case Json(text) => text != "" && text[0] == '{' && IsTrimmed(text) && ScanText(START, text) == START
  }

  function LiteralArg(a: Arg): string {
    "\"" + Escape(a.key) + "\":"
    + if a.value.Text? then "\"" + Escape(a.value.text) + "\"" else NormalizeText(a.value.text)
  }

  function LiteralArgs(args: seq<Arg>): string {
    if args == [] then ""
    else if |args| == 1 then LiteralArg(args[0])
    else LiteralArg(args[0]) + "," + LiteralArgs(args[1..])
  }

  function LiteralCall(item: Item): ToolCall
    requires item.Call?
  {
    ToolCall(item.name,
             match item.body case Tagged(args, _) => "{" + LiteralArgs(args) + "}" case Json(text) => text,
             if item.id.Some? then item.id.value else "")
  }

  function ContentOf(items: seq<Item>): string {
    if items == [] then "" else (if items[0].Content? then items[0].text else "") + ContentOf(items[1..])
  }

  function ReasoningOf(items: seq<Item>): string {
    if items == [] then "" else (if items[0].Reasoning? then items[0].text else "") + ReasoningOf(items[1..])
  }

  function CallsOf(items: seq<Item>): seq<ToolCall> {
    if items == [] then [] else (if items[0].Call? then [LiteralCall(items[0])] else []) + CallsOf(items[1..])
  }

  lemma {:induction false} LiteralArgsPrint(args: seq<Arg>)
    requires forall i :: 0 <= i < |args| ==> IsLiteralArg(args[i])
    ensures PrintArgs(args) == LiteralArgs(args) && WellFormedArgs(args)
  {
    hide Trim, Escape, NormalizeText, ClosedRaw;
    if args != [] {
      TrimKeeps(args[0].key);
      assert PrintArg(args[0]) == LiteralArg(args[0]);
      LiteralArgsPrint(args[1..]);
    }
  }

  lemma {:induction false} WrapperStaysIdle(text: string)
    requires text != "" ==> text[0] != '{'
    ensures !StartsObject(TrimTrailing(text))
  {
    var t := TrimTrailing(text);
    assert t <= text && (t != "" ==> t[0] == text[0]);
  }

  lemma {:induction false} LiteralBody(item: Item)
    requires item.Call? && IsLiteral(item)
    ensures WellFormed(item)
    ensures PrintBody(item.body) == LiteralCall(item).arguments
  {
    hide ScanText, ClosedRaw, Trim, TrimTrailing, Escape, NormalizeText, WellLaid;
    TrimKeeps(item.name);
    match item.body
    case Tagged(args, wrapper) =>
      LiteralArgsPrint(args);
      if wrapper.Some? {
        WrapperStaysIdle(wrapper.value);
      }
    case Json(text) => TrimKeeps(text);
  }

  lemma {:induction false} LiteralItem(m: Msg, item: Item)
    requires IsLiteral(item)
    ensures WellFormed(item)
    ensures PrintItem(m, item) == Msg(m.content + ContentOf([item]), m.reasoning + ReasoningOf([item]),
                                      m.toolCalls + CallsOf([item]))
  {
    hide PrintBody, WellFormedBody, WellLaid, TrimTrailing, Unquote;
    assert [item][1..] == [];
    assert m.content + "" == m.content && m.reasoning + "" == m.reasoning && m.toolCalls + [] == m.toolCalls;
    assert ContentOf([item]) == if item.Content? then item.text else "";
    assert ReasoningOf([item]) == if item.Reasoning? then item.text else "";
    assert CallsOf([item]) == if item.Call? then [LiteralCall(item)] else [];
    if item.Call? {
      LiteralBody(item);
      TrimKeeps(item.name);
      if item.id.Some? {
        TrimKeeps(item.id.value);
        NotQuoted(item.id.value);
      }
    }
  }

  lemma NotQuoted(s: string)
    requires s == "" || s[0] != '"'
    ensures Unquote(s) == s
  {}

  lemma {:induction false} LiteralItems(m: Msg, items: seq<Item>)
    requires forall i :: 0 <= i < |items| ==> IsLiteral(items[i])
    ensures AllWellFormed(items)
    ensures PrintItems(m, items) == Msg(m.content + ContentOf(items), m.reasoning + ReasoningOf(items),
                                        m.toolCalls + CallsOf(items))
    decreases |items|
  {
    hide PrintItem, IsLiteral, WellFormed, ContentOf, ReasoningOf, CallsOf;
    NoItems(m);
    if items != [] {
      LiteralItem(m, items[0]);
      LiteralItems(PrintItem(m, items[0]), items[1..]);
      FirstOf(m, items);
    }
  }

  lemma {:induction false} NoItems(m: Msg)
    ensures m == Msg(m.content + ContentOf([]), m.reasoning + ReasoningOf([]), m.toolCalls + CallsOf([]))
  {}

  lemma {:induction false} FirstOf(m: Msg, items: seq<Item>)
    requires items != []
    ensures var one, rest := [items[0]], items[1..];
      && m.content + ContentOf(items) == (m.content + ContentOf(one)) + ContentOf(rest)
      && m.reasoning + ReasoningOf(items) == (m.reasoning + ReasoningOf(one)) + ReasoningOf(rest)
      && m.toolCalls + CallsOf(items) == (m.toolCalls + CallsOf(one)) + CallsOf(rest)
  {
    hide LiteralCall;
    assert [items[0]][1..] == [];
    assert ContentOf([items[0]]) == if items[0].Content? then items[0].text else "";
    assert ReasoningOf([items[0]]) == if items[0].Reasoning? then items[0].text else "";
    assert CallsOf([items[0]]) == if items[0].Call? then [LiteralCall(items[0])] else [];
  }

  /**
   For a message whose names, ids, keys and JSON texts have no spaces or quotes around them,
   the mapper gives them as they are: each call with its name, its id and `{"key":value,...}`,
   the contents in order, and the reasoning in order unless it is blank.
   */
  lemma {:induction false} MapperPrintsLiterally(items: seq<Item>)
    requires forall i :: 0 <= i < |items| ==> IsLiteral(items[i])
    ensures var m := Mapped(Nodes(items));
      && m.content == ContentOf(items)
      && m.toolCalls == CallsOf(items)
      && m.reasoning == if IsBlank(ReasoningOf(items)) then "" else ReasoningOf(items)
  {
    hide Mapped, Nodes, PrintItems, ContentOf, ReasoningOf, CallsOf, IsLiteral, AllWellFormed, IsBlank;
    LiteralItems(EMPTY_MSG, items);
    MapperRefinesPrinter(items);
    assert "" + ContentOf(items) == ContentOf(items) && "" + ReasoningOf(items) == ReasoningOf(items);
    assert [] + CallsOf(items) == CallsOf(items);
  }
}
