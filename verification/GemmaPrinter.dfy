/**
 The gemma4 mapper (chat-peg-parser.cpp, gemma4_to_json and the gemma4 visitor): tool
 arguments are printed from the parse tree, leaving out the closers of partial nodes.
 */
module GemmaPrinter {
  import opened Prelude
  import opened JsonText
  import opened JsonValues
  import opened AstTree
  import opened ChatDiff
  import opened Streaming
  import opened ServerRun
  import opened TreeVisitor

  function Json(t: Tree): string
    decreases t
  {
    if t.text == "" then ""
    else match t.rule
      case NumberRule => t.text
      case BoolRule => t.text
      case NullRule => t.text
      case StringContentRule => Escape(t.text)
      case StringRule =>
        "\"" + (if t.children == [] then "" else Json(t.children[0]) + (if t.partial then "" else "\""))
      case ArrayRule => "[" + JoinJson(",", t.children) + (if t.partial then "" else "]")
      case KeyNameRule => t.text
      case KeyRule =>
        "\"" + (if t.children == [] then "" else Escape(Json(t.children[0]))) + (if t.partial then "" else "\":")
      case KvRule => JoinJson("", t.children)
      case DictRule => "{" + JoinJson(",", t.children) + (if t.partial then "" else "}")
      case ValueRule => if t.children == [] then "" else Json(t.children[0])
      case NoRule => ""
  }

  function JoinJson(sep: string, ts: seq<Tree>): string
    decreases ts
  {
    if ts == [] then ""
    else if |ts| == 1 then Json(ts[0])
    else Json(ts[0]) + sep + JoinJson(sep, ts[1..])
  }

  // ----- Printing a cut tree gives a prefix -----

  lemma {:induction false} JoinPrefix(sep: string, ps: seq<Tree>, ts: seq<Tree>)
    requires CutForest(ps, ts)
    ensures JoinJson(sep, ps) <= JoinJson(sep, ts)
    decreases ts
  {
    if |ps| > 1 {
      CutTail(ps, ts);
      JoinPrefix(sep, ps[1..], ts[1..]);
      PrefixAfterCommon(Json(ts[0]) + sep, JoinJson(sep, ps[1..]), JoinJson(sep, ts[1..]));
    } else if |ps| == 1 {
      JsonPrefix(ps[0], ts[0]);
    }
  }

  lemma {:induction false} JsonPrefix(p: Tree, t: Tree)
    requires CutOf(p, t)
    ensures Json(p) <= Json(t)
    decreases t
  {
    hide CutOf, CutForest, Escape, JoinJson;
    if p != t && p.text != "" {
      CutSameRule(p, t);
      match t.rule
      case StringContentRule => EscapeMonotone(p.text, t.text);
      case ArrayRule => JoinPrefix(",", p.children, t.children);
      case KvRule => JoinPrefix("", p.children, t.children);
      case DictRule => JoinPrefix(",", p.children, t.children);
      case _ =>
        if p.children != [] {
          CutHead(p.children, t.children);
          JsonPrefix(p.children[0], t.children[0]);
          EscapeMonotone(Json(p.children[0]), Json(t.children[0]));
        }
    }
  }

  // ----- A complete tree prints closed JSON -----

  /** Scalar text: nothing in it opens a string or a brace. */
  predicate Plain(s: string) {
    '"' !in s && '{' !in s && '}' !in s
  }

  /** Complete trees of the gemma4 grammar. */
  predicate Complete(t: Tree)
    decreases t
  {
    && !t.partial
    && t.text != ""
    && match t.rule
       case NumberRule => Plain(t.text)
       case BoolRule => Plain(t.text)
       case NullRule => Plain(t.text)
       case StringRule => |t.children| == 1 && t.children[0].rule.StringContentRule?
       case ArrayRule => forall i :: 0 <= i < |t.children| ==> t.children[i].rule.ValueRule? && Complete(t.children[i])
       case KeyRule => |t.children| == 1 && t.children[0].rule.KeyNameRule?
       case KvRule => |t.children| == 2 && t.children[0].rule.KeyRule? && Complete(t.children[0])
                      && t.children[1].rule.ValueRule? && Complete(t.children[1])
       case DictRule => forall i :: 0 <= i < |t.children| ==> t.children[i].rule.KvRule? && Complete(t.children[i])
       case ValueRule => |t.children| == 1 && !t.children[0].rule.KeyRule? && Complete(t.children[0])
       case _ => false
  }

  lemma {:induction false} PlainIsNeutral(s: string, d: int)
    requires Plain(s)
    ensures ScanText(Scan(d, false, false), s) == Scan(d, false, false)
  {
    if s != "" {
      PlainIsNeutral(s[1..], d);
    }
  }

  lemma PlainNeutral(s: string)
    requires Plain(s)
    ensures Neutral(s)
  {
    forall d ensures ScanText(Scan(d, false, false), s) == Scan(d, false, false) {
      PlainIsNeutral(s, d);
    }
  }

  lemma BracesNeutral(s: string)
    requires Neutral(s)
    ensures Neutral("{" + s + "}") && Neutral("[" + s + "]")
  {
    PlainNeutral("[");
    PlainNeutral("]");
    NeutralConcat("[", s);
    NeutralConcat("[" + s, "]");
    forall d ensures ScanText(Scan(d, false, false), "{" + s + "}") == Scan(d, false, false) {
      assert ("{" + s)[1..] == s;
      ScanConcat(Scan(d, false, false), "{" + s, "}");
      assert "}"[1..] == "";
    }
  }

  lemma {:induction false} JoinNeutral(sep: string, ts: seq<Tree>)
    requires Neutral(sep) && forall i :: 0 <= i < |ts| ==> Complete(ts[i])
    ensures Neutral(JoinJson(sep, ts))
    decreases ts
  {
    if ts == [] {
      PlainNeutral("");
    } else {
      JsonNeutral(ts[0]);
      if |ts| > 1 {
        JoinNeutral(sep, ts[1..]);
        NeutralConcat(Json(ts[0]), sep);
        NeutralConcat(Json(ts[0]) + sep, JoinJson(sep, ts[1..]));
      }
    }
  }

  /** A complete tree prints with brace depth 0 and no open string. */
  lemma {:induction false} JsonNeutral(t: Tree)
    requires Complete(t)
    ensures Neutral(Json(t))
    decreases t
  {
    match t.rule
    case StringRule =>
      DumpIsNeutral(t.children[0].text);
      assert Json(t) == Dump(t.children[0].text);
    case KeyRule =>
      DumpIsNeutral(t.children[0].text);
      PlainNeutral(":");
      NeutralConcat(Dump(t.children[0].text), ":");
      assert Json(t) == Dump(t.children[0].text) + ":";
    case ArrayRule =>
      PlainNeutral(",");
      JoinNeutral(",", t.children);
      BracesNeutral(JoinJson(",", t.children));
    case DictRule =>
      PlainNeutral(",");
      JoinNeutral(",", t.children);
      BracesNeutral(JoinJson(",", t.children));
    case KvRule =>
      PlainNeutral("");
      JoinNeutral("", t.children);
    case ValueRule => JsonNeutral(t.children[0]);
    case _ => PlainNeutral(t.text);
  }

  // ----- What a partial node leaves out -----

  /** A partial node prints what it would print complete, but for its own closer. */
  lemma {:induction false} PartialLacksCloser(t: Tree)
    ensures Json(t.(partial := false)) == Json(t.(partial := true)) +
      (if t.text == "" then ""
       else match t.rule
         case StringRule => if t.children == [] then "" else "\""
         case ArrayRule => "]"
         case DictRule => "}"
         case KeyRule => "\":"
         case _ => "")
  {
    hide JoinJson, Escape;
    assert Json(t.(partial := true)) + "" == Json(t.(partial := true));
    if t.text != "" && t.rule.StringRule? && t.children != [] {
      assert "\"" + (Json(t.children[0]) + "\"") == "\"" + Json(t.children[0]) + "\"";
    }
  }

  // ----- A complete tree prints the value it stands for -----

  /** A complete tree of a value, in which every value is one of the alternatives of the grammar. */
  predicate IsWhole(t: Tree)
    decreases t
  {
    && Complete(t)
    && match t.rule
       case ArrayRule => forall i :: 0 <= i < |t.children| ==> IsWhole(t.children[i])
       case DictRule => forall i :: 0 <= i < |t.children| ==> IsWholeMember(t.children[i])
       case ValueRule => IsWhole(t.children[0])
       case KeyRule => false
       case KvRule => false
       case _ => true
  }

  predicate IsWholeMember(t: Tree)
    decreases t
  {
    t.rule.KvRule? && Complete(t) && IsWhole(t.children[1])
  }

  /** The value that a complete tree stands for. */
  function Meaning(t: Tree): JsonValues.Json
    requires IsWhole(t)
    decreases t, 0
  {
    match t.rule
    case StringRule => Str(t.children[0].text)
    case ArrayRule => Arr(MeaningOfAll(t.children))
    case DictRule => Obj(MembersOf(t.children))
    case ValueRule => Meaning(t.children[0])
    case _ => Verbatim(t.text)
  }

  function MeaningOfAll(ts: seq<Tree>): seq<JsonValues.Json>
    requires forall i :: 0 <= i < |ts| ==> IsWhole(ts[i])
    decreases ts, 1
  {
    if ts == [] then [] else [Meaning(ts[0])] + MeaningOfAll(ts[1..])
  }

  function MemberOf(t: Tree): Member
    requires IsWholeMember(t)
    decreases t, 2
  {
    assert Complete(t.children[0]);
    Member(t.children[0].children[0].text, Meaning(t.children[1]))
  }

  function MembersOf(ts: seq<Tree>): seq<Member>
    requires forall i :: 0 <= i < |ts| ==> IsWholeMember(ts[i])
    decreases ts, 1
  {
    if ts == [] then []
    else [MemberOf(ts[0])] + MembersOf(ts[1..])
  }

  lemma {:induction false} KeyPrints(t: Tree)
    requires t.rule.KeyRule? && Complete(t)
    ensures Json(t) == Dump(t.children[0].text) + ":"
  {
    assert "\"" + Escape(t.children[0].text) + "\":" == Dump(t.children[0].text) + ":";
  }

  lemma {:induction false} KvPrints(t: Tree)
    requires t.rule.KvRule? && t.text != "" && |t.children| == 2
    ensures Json(t) == Json(t.children[0]) + Json(t.children[1])
  {
    var k, v := Json(t.children[0]), Json(t.children[1]);
    assert t.children[1..] == [t.children[1]];
    assert JoinJson("", t.children[1..]) == v;
    assert JoinJson("", t.children) == k + "" + v;
    assert k + "" == k;
  }

  lemma {:induction false} MemberPrints(t: Tree)
    requires IsWholeMember(t)
    ensures Json(t) == PrintMember(MemberOf(t))
    decreases t, 0
  {
    hide Json, PrintJson, Meaning, IsWhole, Dump;
    KvPrints(t);
    KeyPrints(t.children[0]);
    JsonPrintsMeaning(t.children[1]);
  }

  lemma {:induction false} MembersPrint(ts: seq<Tree>)
    requires forall i :: 0 <= i < |ts| ==> IsWholeMember(ts[i])
    ensures JoinJson(",", ts) == PrintMembers(MembersOf(ts))
    decreases ts, 1
  {
    hide Json, IsWholeMember, PrintMember, MemberOf;
    if ts != [] {
      MemberPrints(ts[0]);
      MembersPrint(ts[1..]);
      assert MembersOf(ts)[1..] == MembersOf(ts[1..]);
    }
  }

  lemma {:induction false} ItemsPrint(ts: seq<Tree>)
    requires forall i :: 0 <= i < |ts| ==> IsWhole(ts[i])
    ensures JoinJson(",", ts) == PrintItems(MeaningOfAll(ts))
    decreases ts, 1
  {
    hide Json, IsWhole, PrintJson, Meaning;
    if ts != [] {
      JsonPrintsMeaning(ts[0]);
      ItemsPrint(ts[1..]);
      assert MeaningOfAll(ts)[1..] == MeaningOfAll(ts[1..]);
    }
  }

  /** A complete tree prints as the plain form of the value it stands for. */
  lemma {:induction false} JsonPrintsMeaning(t: Tree)
    requires IsWhole(t)
    ensures Json(t) == PrintJson(Meaning(t))
    decreases t, 0
  {
    match t.rule
    case StringRule => assert "\"" + Escape(t.children[0].text) + "\"" == Dump(t.children[0].text);
    case ArrayRule => ItemsPrint(t.children);
    case DictRule => MembersPrint(t.children);
    case ValueRule => JsonPrintsMeaning(t.children[0]);
    case _ =>
  }

  // ----- The call of a tool node -----

  function Call(t: Tree): Option<ToolCall> {
    match (Find(t.children, ToolNameNode, MAX_DEPTH), Find(t.children, ToolArgsNode, MAX_DEPTH))
    case (Some(name), Some(args)) =>
      if name.partial then None
      else Some(ToolCall(name.text, if args.children == [] then "" else Json(args.children[0]), ""))
    case _ => None
  }

  /** A tool node with its name and its arguments gives that name and the printed arguments. */
  lemma {:induction false} CallIs(t: Tree, name: Tree, value: Tree)
    requires |t.children| == 2 && t.children[0].tag.ToolOpenNode? && t.children[1].tag.ToolArgsNode?
    requires t.children[0].children != [] && t.children[0].children[0] == name && name.tag.ToolNameNode?
    requires forall i :: 0 <= i < |t.children[0].children| ==> IsLeafName(t.children[0].children[i])
    requires t.children[1].children != [] && t.children[1].children[0] == value
    ensures Call(t) == if name.partial then None else Some(ToolCall(name.text, Json(value), ""))
  {
    hide Json;
    var open, rest := t.children[0], t.children[1..];
    assert rest == [t.children[1]];
    assert Find(open.children, ToolNameNode, 2) == Some(name);
    NoArgsInName(open.children);
    assert Find(t.children, ToolNameNode, MAX_DEPTH) == Some(name);
    assert Find(rest, ToolArgsNode, MAX_DEPTH) == Some(t.children[1]);
    assert Find(t.children, ToolArgsNode, MAX_DEPTH) == Some(t.children[1]);
  }

  predicate IsLeafName(t: Tree) {
    t.tag.ToolNameNode? && t.children == []
  }

  lemma {:induction false} NoArgsInName(ts: seq<Tree>)
    requires forall i :: 0 <= i < |ts| ==> IsLeafName(ts[i])
    ensures Find(ts, ToolArgsNode, 2).None?
  {
    if ts != [] {
      assert IsLeafName(ts[0]);
      NoArgsInName(ts[1..]);
    }
  }

  /** A call printed from a cut tree has the full name and a prefix of the arguments. */
  lemma {:induction false} CallGrowsWithCut(p: Tree, t: Tree)
    requires CutOf(p, t) && Call(p).Some?
    ensures Call(t).Some? && CallGrows(Call(p).value, Call(t).value)
  {
    CutChildren(p, t);
    FindInCut(p.children, t.children, ToolNameNode, MAX_DEPTH);
    FindInCut(p.children, t.children, ToolArgsNode, MAX_DEPTH);
    var a, b := Find(p.children, ToolArgsNode, MAX_DEPTH).value, Find(t.children, ToolArgsNode, MAX_DEPTH).value;
    CutChildren(a, b);
    if a.children != [] {
      CutHead(a.children, b.children);
      JsonPrefix(a.children[0], b.children[0]);
    }
  }

  /** Over any stream of growing parses nothing is thrown, and the client ends with the server's message. */
  lemma {:induction false} StreamDelivers(gen: nat -> string, forests: seq<seq<Tree>>)
    requires forests != [] && GrowingForests([], forests)
    ensures var (end, ds) := RunServer(gen, IDLE, MappedAll(Call, forests));
      && ds.Ok? && ApplyAll(EMPTY_MSG, ds.value) == end.msg
      && Holds(end, MappedTrees(Call, forests[|forests| - 1]))
  {
    forall p, t | CutOf(p, t) && t.tag.ToolNode? && Call(p).Some?
      ensures Call(t).Some? && CallGrows(Call(p).value, Call(t).value)
    {
      CallGrowsWithCut(p, t);
    }
    assert WithIds(EMPTY_MSG, []).toolCalls == [];
    TreesDeliver(Call, gen, IDLE, [], forests);
  }
}
