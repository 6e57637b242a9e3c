/**
 The visitor shared by the tree-based mappers (chat-peg-parser.cpp, the visit methods):
 reasoning and content are concatenated, and each tool node gives at most one call.
 */
module TreeVisitor {
  import opened Prelude
  import opened AstTree
  import opened ChatDiff
  import opened Streaming
  import opened ServerRun

  /** How a format prints the call of a tool node, if it can yet. */
  type CallPrinter = Tree -> Option<ToolCall>

  function Visit(call: CallPrinter, m: Msg, t: Tree): Msg
    decreases t
  {
    match t.tag
    case ReasoningNode => m.(reasoning := m.reasoning + t.text)
    case ContentNode => m.(content := m.content + t.text)
    case ToolNode => if call(t).Some? then m.(toolCalls := m.toolCalls + [call(t).value]) else m
    case _ => VisitAll(call, m, t.children)
  }

  function VisitAll(call: CallPrinter, m: Msg, ts: seq<Tree>): Msg
    decreases ts
  {
    if ts == [] then m else VisitAll(call, Visit(call, m, ts[0]), ts[1..])
  }

  function MappedTrees(call: CallPrinter, ts: seq<Tree>): Msg {
    VisitAll(call, EMPTY_MSG, ts)
  }

  // ----- The message of a forest, on its own -----

  /** The outermost reasoning, content and tool nodes, in order. */
  function Visible(ts: seq<Tree>): seq<Tree>
    decreases ts
  {
    if ts == [] then []
    else
      var tag := ts[0].tag;
      (if tag.ReasoningNode? || tag.ContentNode? || tag.ToolNode? then [ts[0]] else Visible(ts[0].children))
      + Visible(ts[1..])
  }

  /** The texts of the nodes with the tag, one after the other. */
  function TextsOf(tag: NodeTag, nodes: seq<Tree>): string {
    if nodes == [] then "" else (if nodes[0].tag == tag then nodes[0].text else "") + TextsOf(tag, nodes[1..])
  }

  /** The calls that the tool nodes print, in order. */
  function CallsOf(call: CallPrinter, nodes: seq<Tree>): seq<ToolCall> {
    if nodes == [] then []
    else (if nodes[0].tag.ToolNode? && call(nodes[0]).Some? then [call(nodes[0]).value] else [])
         + CallsOf(call, nodes[1..])
  }

  function Shown(call: CallPrinter, m: Msg, nodes: seq<Tree>): Msg {
    Msg(m.content + TextsOf(ContentNode, nodes), m.reasoning + TextsOf(ReasoningNode, nodes),
        m.toolCalls + CallsOf(call, nodes))
  }

  lemma {:induction false} TextsConcat(tag: NodeTag, a: seq<Tree>, b: seq<Tree>)
    ensures TextsOf(tag, a + b) == TextsOf(tag, a) + TextsOf(tag, b)
  {
    if a == [] {
      assert a + b == b;
    } else {
      assert (a + b)[1..] == a[1..] + b;
      TextsConcat(tag, a[1..], b);
    }
  }

  lemma {:induction false} CallsConcat(call: CallPrinter, a: seq<Tree>, b: seq<Tree>)
    ensures CallsOf(call, a + b) == CallsOf(call, a) + CallsOf(call, b)
  {
    if a == [] {
      assert a + b == b;
    } else {
      assert (a + b)[1..] == a[1..] + b;
      CallsConcat(call, a[1..], b);
    }
  }

  lemma {:induction false} ShownConcat(call: CallPrinter, m: Msg, a: seq<Tree>, b: seq<Tree>)
    ensures Shown(call, m, a + b) == Shown(call, Shown(call, m, a), b)
  {
    hide TextsOf, CallsOf;
    TextsConcat(ContentNode, a, b);
    TextsConcat(ReasoningNode, a, b);
    CallsConcat(call, a, b);
  }

  lemma {:induction false} ShownOne(call: CallPrinter, m: Msg, t: Tree)
    requires t.tag.ReasoningNode? || t.tag.ContentNode? || t.tag.ToolNode?
    ensures Shown(call, m, [t]) == Visit(call, m, t)
  {
    assert [t][1..] == [];
    assert TextsOf(ContentNode, [t]) == if t.tag.ContentNode? then t.text else "";
    assert TextsOf(ReasoningNode, [t]) == if t.tag.ReasoningNode? then t.text else "";
    assert CallsOf(call, [t]) == if t.tag.ToolNode? && call(t).Some? then [call(t).value] else [];
    assert m.content + "" == m.content && m.reasoning + "" == m.reasoning && m.toolCalls + [] == m.toolCalls;
  }

  lemma {:induction false} NothingShown(call: CallPrinter, m: Msg)
    ensures Shown(call, m, []) == m
  {}

  lemma {:induction false} VisitShows(call: CallPrinter, m: Msg, ts: seq<Tree>)
    ensures VisitAll(call, m, ts) == Shown(call, m, Visible(ts))
    decreases ts
  {
    hide Shown;
    NothingShown(call, m);
    if ts != [] {
      var t := ts[0];
      if t.tag.ReasoningNode? || t.tag.ContentNode? || t.tag.ToolNode? {
        ShownOne(call, m, t);
        ShownConcat(call, m, [t], Visible(ts[1..]));
      } else {
        VisitShows(call, m, t.children);
        ShownConcat(call, m, Visible(t.children), Visible(ts[1..]));
      }
      VisitShows(call, Visit(call, m, t), ts[1..]);
    }
  }

  /**
   The message has the texts of the outermost content nodes as content, those of the
   outermost reasoning nodes as reasoning, and the calls of the outermost tool nodes.
   */
  lemma {:induction false} MappedIs(call: CallPrinter, ts: seq<Tree>)
    ensures var m := MappedTrees(call, ts);
      && m.content == TextsOf(ContentNode, Visible(ts))
      && m.reasoning == TextsOf(ReasoningNode, Visible(ts))
      && m.toolCalls == CallsOf(call, Visible(ts))
  {
    hide VisitAll, Visible, TextsOf, CallsOf;
    VisitShows(call, EMPTY_MSG, ts);
  }

  // ----- Growth -----

  /** A cut tool node prints nothing, or the same name with a prefix of the arguments. */
  ghost predicate StreamsCalls(call: CallPrinter) {
    forall p, t :: CutOf(p, t) && t.tag.ToolNode? && call(p).Some? ==>
      call(t).Some? && CallGrows(call(p).value, call(t).value)
  }

  lemma {:induction false} VisitGrows(call: CallPrinter, m: Msg, t: Tree)
    ensures Grows(m, Visit(call, m, t))
    decreases t
  {
    match t.tag
    case ReasoningNode =>
    case ContentNode =>
    case ToolNode =>
    case _ => VisitAllGrows(call, m, t.children);
  }

  lemma {:induction false} VisitAllGrows(call: CallPrinter, m: Msg, ts: seq<Tree>)
    ensures Grows(m, VisitAll(call, m, ts))
    decreases ts
  {
    hide Visit;
    if ts != [] {
      VisitGrows(call, m, ts[0]);
      VisitAllGrows(call, Visit(call, m, ts[0]), ts[1..]);
      GrowsTransitive(m, Visit(call, m, ts[0]), VisitAll(call, m, ts));
    }
  }

  /** Visiting leaves the calls there are as they are. */
  lemma {:induction false} VisitAppendsOne(call: CallPrinter, m: Msg, t: Tree)
    ensures m.toolCalls <= Visit(call, m, t).toolCalls
    decreases t
  {
    match t.tag
    case ReasoningNode =>
    case ContentNode =>
    case ToolNode =>
    case _ => VisitAppends(call, m, t.children);
  }

  lemma {:induction false} VisitAppends(call: CallPrinter, m: Msg, ts: seq<Tree>)
    ensures m.toolCalls <= VisitAll(call, m, ts).toolCalls
    decreases ts
  {
    hide Visit;
    if ts != [] {
      VisitAppendsOne(call, m, ts[0]);
      VisitAppends(call, Visit(call, m, ts[0]), ts[1..]);
    }
  }

  lemma AppendedCallsGrow(m: Msg, p: ToolCall, q: ToolCall)
    requires CallGrows(p, q)
    ensures Grows(m.(toolCalls := m.toolCalls + [p]), m.(toolCalls := m.toolCalls + [q]))
  {}

  lemma {:induction false} VisitCut(call: CallPrinter, m: Msg, p: Tree, t: Tree)
    requires StreamsCalls(call) && CutOf(p, t)
    ensures Grows(Visit(call, m, p), Visit(call, m, t))
    decreases t
  {
    match t.tag
    case ReasoningNode => PrefixAfterCommon(m.reasoning, p.text, t.text);
    case ContentNode => PrefixAfterCommon(m.content, p.text, t.text);
    case ToolNode =>
      if call(p).Some? {
        AppendedCallsGrow(m, call(p).value, call(t).value);
      }
    case _ =>
      CutChildren(p, t);
      VisitCutForest(call, m, p.children, t.children);
  }

  /** The message of a cut parse is extended by the message of the longer parse. */
  lemma {:induction false} VisitCutForest(call: CallPrinter, m: Msg, ps: seq<Tree>, ts: seq<Tree>)
    requires StreamsCalls(call) && CutForest(ps, ts)
    ensures Grows(VisitAll(call, m, ps), VisitAll(call, m, ts))
    decreases ts
  {
    hide Visit;
    if ps == [] {
      VisitAllGrows(call, m, ts);
    } else if |ps| == 1 {
      VisitCut(call, m, ps[0], ts[0]);
      VisitAllGrows(call, Visit(call, m, ts[0]), ts[1..]);
      assert ps[1..] == [];
      assert VisitAll(call, m, ps) == Visit(call, m, ps[0]);
      GrowsTransitive(VisitAll(call, m, ps), Visit(call, m, ts[0]), VisitAll(call, m, ts));
    } else {
      CutTail(ps, ts);
      VisitCutForest(call, Visit(call, m, ps[0]), ps[1..], ts[1..]);
    }
  }

  // ----- Nodes that go away again -----

  /** Nothing in the tree is shown: rules without tags, and arguments not even opened. */
  predicate Silent(t: Tree)
    decreases t
  {
    && (t.tag.NoTag? || t.tag.ArgNode? || t.tag.ArgItemNode?)
    && forall i :: 0 <= i < |t.children| ==> Silent(t.children[i])
  }

  predicate AllSilent(ts: seq<Tree>) {
    forall i :: 0 <= i < |ts| ==> Silent(ts[i])
  }

  /**
   `qs` is `ps` without some silent nodes at the end of its rightmost spine: a rule begun
   inside what might have been a delimiter is not there in the next parse.
   */
  ghost predicate Drops(qs: seq<Tree>, ps: seq<Tree>)
    decreases ps
  {
    || (|qs| <= |ps| && qs == ps[..|qs|] && AllSilent(ps[|qs|..]))
    || (&& 0 < |qs| == |ps| && qs[..|qs| - 1] == ps[..|qs| - 1]
        && qs[|qs| - 1].tag.NoTag? && ps[|qs| - 1].tag.NoTag?
        && Drops(qs[|qs| - 1].children, ps[|qs| - 1].children))
  }

  /** `ts` is a later parse than `ps`: apart from silent nodes, `ps` is a cut of it. */
  ghost predicate GrowsInto(ps: seq<Tree>, ts: seq<Tree>) {
    exists qs :: Drops(qs, ps) && CutForest(qs, ts)
  }

  lemma {:induction false} VisitSilent(call: CallPrinter, m: Msg, t: Tree)
    requires Silent(t)
    ensures Visit(call, m, t) == m
    decreases t
  {
    VisitAllSilent(call, m, t.children);
  }

  lemma {:induction false} VisitAllSilent(call: CallPrinter, m: Msg, ts: seq<Tree>)
    requires AllSilent(ts)
    ensures VisitAll(call, m, ts) == m
    decreases ts
  {
    hide Visit;
    if ts != [] {
      VisitSilent(call, m, ts[0]);
      VisitAllSilent(call, m, ts[1..]);
    }
  }

  lemma {:induction false} VisitConcat(call: CallPrinter, m: Msg, a: seq<Tree>, b: seq<Tree>)
    ensures VisitAll(call, m, a + b) == VisitAll(call, VisitAll(call, m, a), b)
    decreases a
  {
    hide Visit;
    if a == [] {
      assert a + b == b;
    } else {
      assert (a + b)[1..] == a[1..] + b;
      VisitConcat(call, Visit(call, m, a[0]), a[1..], b);
    }
  }

  lemma {:induction false} VisitLast(call: CallPrinter, m: Msg, ts: seq<Tree>)
    requires ts != []
    ensures VisitAll(call, m, ts) == Visit(call, VisitAll(call, m, ts[..|ts| - 1]), ts[|ts| - 1])
  {
    hide Visit;
    var n := |ts| - 1;
    assert ts == ts[..n] + [ts[n]];
    VisitConcat(call, m, ts[..n], [ts[n]]);
    assert [ts[n]][1..] == [];
  }

  /** Silent nodes make no difference to the message. */
  lemma {:induction false} DroppedIsSilent(call: CallPrinter, m: Msg, qs: seq<Tree>, ps: seq<Tree>)
    requires Drops(qs, ps)
    ensures VisitAll(call, m, qs) == VisitAll(call, m, ps)
    decreases ps
  {
    if |qs| <= |ps| && qs == ps[..|qs|] && AllSilent(ps[|qs|..]) {
      assert ps == qs + ps[|qs|..];
      VisitConcat(call, m, qs, ps[|qs|..]);
      VisitAllSilent(call, VisitAll(call, m, qs), ps[|qs|..]);
    } else {
      var n := |qs| - 1;
      VisitLast(call, m, qs);
      VisitLast(call, m, ps);
      DroppedIsSilent(call, VisitAll(call, m, ps[..n]), qs[n].children, ps[n].children);
    }
  }

  /** The message of a parse is extended by the message of any later parse. */
  lemma {:induction false} VisitForest(call: CallPrinter, m: Msg, ps: seq<Tree>, ts: seq<Tree>)
    requires StreamsCalls(call) && GrowsInto(ps, ts)
    ensures Grows(VisitAll(call, m, ps), VisitAll(call, m, ts))
  {
    hide Drops, CutForest, VisitAll, StreamsCalls;
    var qs :| Drops(qs, ps) && CutForest(qs, ts);
    DroppedIsSilent(call, m, qs, ps);
    VisitCutForest(call, m, qs, ts);
  }

  /** Content that may end in a delimiter: the rule begun after it goes away when it does not. */
  lemma DelimiterIsDropped(text: string, longer: string, rest: string)
    requires text <= longer
    ensures var message := (s: string) => Tree(NoRule, NoTag, s, [Tree(NoRule, ContentNode, s, [], false)], true);
      GrowsInto([message(text), Tree(NoRule, NoTag, rest, [], true)], [message(longer)])
  {
    var message := (s: string) => Tree(NoRule, NoTag, s, [Tree(NoRule, ContentNode, s, [], false)], true);
    var ps, ts := [message(text), Tree(NoRule, NoTag, rest, [], true)], [message(longer)];
    var qs := [message(text)];
    assert qs == ps[..1] && Silent(ps[1]) && Drops(qs, ps);
    assert CutOf(message(text).children[0], message(longer).children[0]);
    assert CutForest(qs, ts);
  }

  // ----- Streams of growing parses -----

  /** Each parse grows into the next one. */
  ghost predicate GrowingForests(from: seq<Tree>, forests: seq<seq<Tree>>)
    decreases |forests|
  {
    forests != [] ==> GrowsInto(from, forests[0]) && GrowingForests(forests[0], forests[1..])
  }

  function MappedAll(call: CallPrinter, forests: seq<seq<Tree>>): seq<Msg> {
    seq(|forests|, i requires 0 <= i < |forests| => MappedTrees(call, forests[i]))
  }

  /** Over any stream of growing parses nothing is thrown, and the client ends with the server's message. */
  lemma {:induction false} TreesDeliver(call: CallPrinter, gen: nat -> string, s: Server, from: seq<Tree>,
                                        forests: seq<seq<Tree>>)
    requires StreamsCalls(call) && GrowingForests(from, forests) && Holds(s, MappedTrees(call, from))
    ensures var (end, ds) := RunServer(gen, s, MappedAll(call, forests));
      && ds.Ok? && ApplyAll(s.msg, ds.value) == end.msg
      && Holds(end, MappedTrees(call, if forests == [] then from else forests[|forests| - 1]))
    decreases |forests|
  {
    hide Update, MappedTrees, Holds;
    if forests != [] {
      var next := forests[0];
      var parses := MappedAll(call, forests);
      assert parses[1..] == MappedAll(call, forests[1..]);
      MappedGrows(call, from, next);
      UpdateRebuilds(gen, s, MappedTrees(call, from), MappedTrees(call, next));
      var (s', d) := Update(gen, s, MappedTrees(call, next));
      TreesDeliver(call, gen, s', next, forests[1..]);
      ApplyConcat(s.msg, d.value, RunServer(gen, s', parses[1..]).1.value);
    }
  }

  lemma MappedGrows(call: CallPrinter, ps: seq<Tree>, ts: seq<Tree>)
    requires StreamsCalls(call) && GrowsInto(ps, ts)
    ensures Grows(MappedTrees(call, ps), MappedTrees(call, ts))
  {
    VisitForest(call, EMPTY_MSG, ps, ts);
  }
}
