/**
 Parse trees (peg-parser.h, common_peg_ast_node) and the relation between the tree of a
 cut-short input and the tree of a longer one.
 */
module AstTree {
  import opened Prelude

  /** The grammar rules the gemma4 printer dispatches on (chat.cpp, the gemma4 parser). */
  datatype Rule =
    | NumberRule | BoolRule | NullRule | StringContentRule | StringRule | ArrayRule
    | KeyNameRule | KeyRule | KvRule | DictRule | ValueRule | NoRule

  datatype NodeTag =
    | NoTag | ReasoningNode | ContentNode | ToolNode | ToolOpenNode | ToolNameNode | ToolArgsNode
    | ArgNode | ArgOpenNode | ArgCloseNode | ArgNameNode
    | ArgValueNode | ArgStringValueNode | ArgObjectNode | ArgArrayNode | ArgItemNode

  datatype Tree = Tree(rule: Rule, tag: NodeTag, text: string, children: seq<Tree>, partial: bool)

  /** Nodes that a partial parse reports whole or not at all. */
  predicate Atomic(t: NodeTag) {
    t.ToolOpenNode? || t.ToolNameNode? || t.ArgOpenNode? || t.ArgCloseNode? || t.ArgNameNode?
  }

  /** Nodes whose printed form ends in a closer, which only a complete node prints. */
  predicate Closes(t: Tree) {
    || t.rule.StringRule? || t.rule.ArrayRule? || t.rule.KeyRule? || t.rule.DictRule?
    || t.tag.ToolNode? || t.tag.ArgNode? || t.tag.ArgItemNode?
  }

  /**
   An empty rule node: the first alternative of a choice, tried where the input ended. More
   input may replace it by any other rule.
   */
  predicate Placeholder(p: Tree) {
    p.text == "" && p.children == [] && p.tag.NoTag?
  }

  /** `p` is `t`, or `t` cut somewhere on its rightmost spine. */
  ghost predicate CutOf(p: Tree, t: Tree)
    decreases t
  {
    || p == t
    || (Placeholder(p) && t.tag.NoTag?)
    || (&& p.rule == t.rule && p.tag == t.tag && !Atomic(t.tag)
        && (Closes(t) ==> p.partial)
        && p.text <= t.text
        && |p.children| <= |t.children|
        && (forall i :: 0 <= i < |p.children| - 1 ==> p.children[i] == t.children[i])
        && (p.children != [] ==> CutOf(p.children[|p.children| - 1], t.children[|p.children| - 1])))
  }

  ghost predicate CutForest(ps: seq<Tree>, ts: seq<Tree>) {
    && |ps| <= |ts|
    && (forall i :: 0 <= i < |ps| - 1 ==> ps[i] == ts[i])
    && (ps != [] ==> CutOf(ps[|ps| - 1], ts[|ps| - 1]))
  }

  /** Before a value that is not a string, the value starts as an empty string rule. */
  lemma PlaceholderIsCut(text: string, value: Tree)
    requires value.tag.NoTag?
    ensures var start := Tree(StringRule, NoTag, "", [], true);
      CutOf(Tree(ValueRule, NoTag, "", [start], true), Tree(ValueRule, NoTag, text, [value], value.partial))
  {
    var start := Tree(StringRule, NoTag, "", [], true);
    var p, t := Tree(ValueRule, NoTag, "", [start], true), Tree(ValueRule, NoTag, text, [value], value.partial);
    assert p.children[0] == start && t.children[0] == value;
    assert CutOf(start, value);
  }

  lemma {:induction false} CutChildren(p: Tree, t: Tree)
    requires CutOf(p, t)
    ensures CutForest(p.children, t.children)
  {}

  lemma {:induction false} CutSameRule(p: Tree, t: Tree)
    requires CutOf(p, t) && p != t && p.text != ""
    ensures p.rule == t.rule && p.tag == t.tag && p.text <= t.text && (Closes(t) ==> p.partial)
    ensures CutForest(p.children, t.children)
  {}

  lemma CutTail(ps: seq<Tree>, ts: seq<Tree>)
    requires CutForest(ps, ts) && |ps| > 1
    ensures ps[0] == ts[0] && CutForest(ps[1..], ts[1..])
  {}

  lemma CutHead(ps: seq<Tree>, ts: seq<Tree>)
    requires CutForest(ps, ts) && ps != []
    ensures CutOf(ps[0], ts[0])
  {}

  lemma CutPrepend(a: seq<Tree>, ps: seq<Tree>, ts: seq<Tree>)
    requires CutForest(ps, ts)
    ensures CutForest(a + ps, a + ts)
  {
    if ps == [] {
      assert a + ps == a;
    }
  }

  lemma CutAppend(ps: seq<Tree>, ts: seq<Tree>, b: seq<Tree>)
    requires CutForest(ps, ts)
    ensures CutForest(ps, ts + b)
  {}

  // ----- Search by tag (peg-parser.cpp, find_by_tag) -----

  const MAX_DEPTH := 3

  function Find(ts: seq<Tree>, tag: NodeTag, depth: nat): Option<Tree>
    decreases ts
  {
    if ts == [] || depth == 0 then None
    else if ts[0].tag == tag then Some(ts[0])
    else
      var inner := Find(ts[0].children, tag, depth - 1);
      if inner.Some? then inner else Find(ts[1..], tag, depth)
  }

  /** What is found in a cut forest is found in the full one, at the same place. */
  lemma {:induction false} FindInCut(ps: seq<Tree>, ts: seq<Tree>, tag: NodeTag, depth: nat)
    requires CutForest(ps, ts) && Find(ps, tag, depth).Some?
    ensures Find(ts, tag, depth).Some?
    ensures CutOf(Find(ps, tag, depth).value, Find(ts, tag, depth).value)
    ensures Find(ps, tag, depth).value.tag == Find(ts, tag, depth).value.tag == tag
    decreases ts
  {
    CutHead(ps, ts);
    if ps[0].tag != tag {
      CutChildren(ps[0], ts[0]);
      if Find(ps[0].children, tag, depth - 1).Some? {
        FindInCut(ps[0].children, ts[0].children, tag, depth - 1);
      } else {
        CutTail(ps, ts);
        FindInCut(ps[1..], ts[1..], tag, depth);
      }
    }
  }

  /** The nodes at most `depth` deep, each before its children. */
  function Reachable(ts: seq<Tree>, depth: nat): seq<Tree>
    decreases ts
  {
    if ts == [] || depth == 0 then []
    else [ts[0]] + Reachable(ts[0].children, depth - 1) + Reachable(ts[1..], depth)
  }

  ghost predicate IsFirst(all: seq<Tree>, tag: NodeTag, found: Option<Tree>) {
    match found
    case None => forall k :: 0 <= k < |all| ==> all[k].tag != tag
    case Some(t) =>
      t.tag == tag && exists k :: 0 <= k < |all| && all[k] == t && forall j :: 0 <= j < k ==> all[j].tag != tag
  }

  lemma FirstOfBoth(a: seq<Tree>, b: seq<Tree>, tag: NodeTag, inA: Option<Tree>, inB: Option<Tree>)
    requires IsFirst(a, tag, inA) && IsFirst(b, tag, inB)
    ensures IsFirst(a + b, tag, if inA.Some? then inA else inB)
  {
    var all := a + b;
    if inA.Some? {
      var k :| 0 <= k < |a| && a[k] == inA.value && forall j :: 0 <= j < k ==> a[j].tag != tag;
      assert all[k] == inA.value;
    } else if inB.Some? {
      var k :| 0 <= k < |b| && b[k] == inB.value && forall j :: 0 <= j < k ==> b[j].tag != tag;
      assert all[|a| + k] == inB.value;
    }
  }

  lemma FirstOfOne(t: Tree, tag: NodeTag)
    ensures IsFirst([t], tag, if t.tag == tag then Some(t) else None) && IsFirst([], tag, None)
  {
    assert [t][0] == t;
  }

  /** The search finds the first reachable node with the tag, if there is one. */
  lemma {:induction false} FindIsFirst(ts: seq<Tree>, tag: NodeTag, depth: nat)
    ensures IsFirst(Reachable(ts, depth), tag, Find(ts, tag, depth))
    decreases ts
  {
    hide IsFirst;
    if ts == [] || depth == 0 {
      FirstOfOne(Tree(NoRule, NoTag, "", [], false), tag);
    } else {
      var inner, others := Reachable(ts[0].children, depth - 1), Reachable(ts[1..], depth);
      FindIsFirst(ts[0].children, tag, depth - 1);
      FindIsFirst(ts[1..], tag, depth);
      FirstOfOne(ts[0], tag);
      FirstOfBoth([ts[0]], inner, tag, if ts[0].tag == tag then Some(ts[0]) else None,
                  Find(ts[0].children, tag, depth - 1));
      FirstOfBoth([ts[0]] + inner, others, tag,
                  if ts[0].tag == tag then Some(ts[0]) else Find(ts[0].children, tag, depth - 1),
                  Find(ts[1..], tag, depth));
    }
  }
}
