/**
 The minimax-m3 mapper (chat-peg-parser.cpp, minimax_m3_*_to_json and the visitor): nested
 XML-like arguments are printed as JSON, and an element is closed only when complete.
 */
module MinimaxPrinter {
  import opened Prelude
  import opened JsonText
  import opened JsonValues
  import opened AstTree
  import opened ChatDiff
  import opened Streaming
  import Gemma = GemmaPrinter

  function Size(t: Tree): nat
    decreases t
  {
    1 + SizeAll(t.children)
  }

  function SizeAll(ts: seq<Tree>): nat
    decreases ts
  {
    if ts == [] then 0 else Size(ts[0]) + SizeAll(ts[1..])
  }

  lemma {:induction false} SizeAllConcat(a: seq<Tree>, b: seq<Tree>)
    ensures SizeAll(a + b) == SizeAll(a) + SizeAll(b)
    decreases a
  {
    if a == [] {
      assert a + b == b;
    } else {
      assert (a + b)[1..] == a[1..] + b;
      SizeAllConcat(a[1..], b);
    }
  }

  /** The outermost descendants with the tag, in order. */
  function Collect(ts: seq<Tree>, tag: NodeTag): (r: seq<Tree>)
    ensures SizeAll(r) <= SizeAll(ts)
    decreases ts
  {
    if ts == [] then []
    else
      var head := if ts[0].tag == tag then [ts[0]] else Collect(ts[0].children, tag);
      assert SizeAll(head) <= Size(ts[0]);
      SizeAllConcat(head, Collect(ts[1..], tag));
      head + Collect(ts[1..], tag)
  }

  predicate IsValue(t: Tree) {
    t.tag.ArgValueNode? || t.tag.ArgStringValueNode? || t.tag.ArgObjectNode? || t.tag.ArgArrayNode?
  }

  /** The first value among the children of a member or an item. */
  function ValueOf(ts: seq<Tree>): (r: Option<Tree>)
    ensures r.Some? ==> IsValue(r.value) && Size(r.value) <= SizeAll(ts)
  {
    if ts == [] then None else if IsValue(ts[0]) then Some(ts[0]) else ValueOf(ts[1..])
  }

  function ValueJson(v: Option<Tree>, closed: bool): string
    decreases if v.Some? then Size(v.value) else 0, 1
  {
    if v.None? then ""
    else match v.value.tag
      case ArgObjectNode => ContainerJson(v.value, true, closed)
      case ArgArrayNode => ContainerJson(v.value, false, closed)
      case ArgStringValueNode => "\"" + Escape(v.value.text) + (if closed then "\"" else "")
      case _ => v.value.text
  }

  function ContainerJson(t: Tree, isObject: bool, closed: bool): string
    decreases Size(t), 0
  {
    (if isObject then "{" else "[")
    + EntriesJson(Collect(t.children, if isObject then ArgNode else ArgItemNode), isObject, false)
    + (if closed then (if isObject then "}" else "]") else "")
  }

  /** Entries that print nothing are skipped, with their comma. */
  function EntriesJson(entries: seq<Tree>, isObject: bool, comma: bool): string
    decreases SizeAll(entries), 3
  {
    if entries == [] then ""
    else
      var text := EntryJson(entries[0], isObject);
      if text == "" then EntriesJson(entries[1..], isObject, comma)
      else (if comma then "," else "") + text + EntriesJson(entries[1..], isObject, true)
  }

  function EntryJson(t: Tree, isObject: bool): string
    decreases Size(t), 2
  {
    var value := ValueJson(ValueOf(t.children), !t.partial);
    if isObject then
      var name := Find(t.children, ArgNameNode, MAX_DEPTH);
      if name.None? then "" else Dump(name.value.text) + ":" + value
    else value
  }

  // ----- Printing a cut tree gives a prefix -----

  lemma {:induction false} CollectCut(ps: seq<Tree>, ts: seq<Tree>, tag: NodeTag)
    requires CutForest(ps, ts)
    ensures CutForest(Collect(ps, tag), Collect(ts, tag))
    decreases ts
  {
    if |ps| > 1 {
      CutTail(ps, ts);
      CollectCut(ps[1..], ts[1..], tag);
      var head := if ts[0].tag == tag then [ts[0]] else Collect(ts[0].children, tag);
      CutPrepend(head, Collect(ps[1..], tag), Collect(ts[1..], tag));
    } else if |ps| == 1 {
      var p, t := ps[0], ts[0];
      assert ps[1..] == [];
      if t.tag == tag {
        assert Collect(ps, tag) == [p];
        CutAppend([p], [t], Collect(ts[1..], tag));
      } else {
        CutChildren(p, t);
        CollectCut(p.children, t.children, tag);
        assert Collect(ps, tag) == Collect(p.children, tag);
        CutAppend(Collect(p.children, tag), Collect(t.children, tag), Collect(ts[1..], tag));
      }
    }
  }

  lemma {:induction false} CollectHasTag(ts: seq<Tree>, tag: NodeTag)
    ensures forall i :: 0 <= i < |Collect(ts, tag)| ==> Collect(ts, tag)[i].tag == tag
    decreases ts
  {
    if ts != [] {
      CollectHasTag(ts[0].children, tag);
      CollectHasTag(ts[1..], tag);
    }
  }

  lemma {:induction false} ValueOfCut(ps: seq<Tree>, ts: seq<Tree>)
    requires CutForest(ps, ts) && ValueOf(ps).Some?
    ensures ValueOf(ts).Some? && CutOf(ValueOf(ps).value, ValueOf(ts).value)
  {
    CutHead(ps, ts);
    if !IsValue(ps[0]) {
      CutTail(ps, ts);
      ValueOfCut(ps[1..], ts[1..]);
    }
  }

  lemma {:induction false} ValuePrefix(p: Tree, t: Tree, cutClosed: bool, closed: bool)
    requires CutOf(p, t) && (cutClosed ==> closed && p == t)
    ensures ValueJson(Some(p), cutClosed) <= ValueJson(Some(t), closed)
    decreases Size(t), 1
  {
    match t.tag
    case ArgObjectNode => ContainerPrefix(p, t, true, cutClosed, closed);
    case ArgArrayNode => ContainerPrefix(p, t, false, cutClosed, closed);
    case ArgStringValueNode =>
      EscapeMonotone(p.text, t.text);
      PrefixAfterCommon("\"", Escape(p.text), Escape(t.text));
    case _ =>
  }

  /** An unclosed container prints a prefix, whatever else follows. */
  lemma {:induction false} ContainerPrefix(p: Tree, t: Tree, isObject: bool, cutClosed: bool, closed: bool)
    requires CutOf(p, t) && (cutClosed ==> closed && p == t)
    ensures ContainerJson(p, isObject, cutClosed) <= ContainerJson(t, isObject, closed)
    decreases Size(t), 0
  {
    var tag := if isObject then ArgNode else ArgItemNode;
    var xs, ys := Collect(p.children, tag), Collect(t.children, tag);
    CutChildren(p, t);
    CollectCut(p.children, t.children, tag);
    CollectHasTag(t.children, tag);
    assert Size(t) == 1 + SizeAll(t.children);
    if !cutClosed {
      EntriesPrefix(xs, ys, isObject, false);
      PrefixAfterCommon(if isObject then "{" else "[",
                        EntriesJson(xs, isObject, false), EntriesJson(ys, isObject, false));
    }
  }

  lemma {:induction false} EntriesPrefix(ps: seq<Tree>, ts: seq<Tree>, isObject: bool, comma: bool)
    requires CutForest(ps, ts) && forall i :: 0 <= i < |ts| ==> ts[i].tag == (if isObject then ArgNode else ArgItemNode)
    ensures EntriesJson(ps, isObject, comma) <= EntriesJson(ts, isObject, comma)
    decreases SizeAll(ts), 3
  {
    hide EntryJson, CutOf;
    assert ts != [] ==> SizeAll(ts) == Size(ts[0]) + SizeAll(ts[1..]) && Size(ts[0]) >= 1;
    if |ps| > 1 {
      CutTail(ps, ts);
      var text := EntryJson(ts[0], isObject);
      var next := comma || text != "";
      EntriesPrefix(ps[1..], ts[1..], isObject, next);
      PrefixAfterCommon((if comma then "," else "") + text,
                        EntriesJson(ps[1..], isObject, true), EntriesJson(ts[1..], isObject, true));
    } else if |ps| == 1 {
      CutHead(ps, ts);
      EntryPrefix(ps[0], ts[0], isObject);
      assert ps[1..] == [];
      var x, y := EntryJson(ps[0], isObject), EntryJson(ts[0], isObject);
      var sep := if comma then "," else "";
      if x != "" {
        assert sep + x + "" == sep + x;
        PrefixAfterCommon(sep, x, y);
        assert sep + x <= sep + y;
      }
    }
  }

  lemma {:induction false} EntryPrefix(p: Tree, t: Tree, isObject: bool)
    requires CutOf(p, t) && (t.tag.ArgNode? || t.tag.ArgItemNode?)
    ensures EntryJson(p, isObject) <= EntryJson(t, isObject)
    decreases Size(t), 2
  {
    CutChildren(p, t);
    var v, w := ValueJson(ValueOf(p.children), !p.partial), ValueJson(ValueOf(t.children), !t.partial);
    assert v <= w by {
      if ValueOf(p.children).Some? {
        ValueOfCut(p.children, t.children);
        ValuePrefix(ValueOf(p.children).value, ValueOf(t.children).value, !p.partial, !t.partial);
      }
    }
    if isObject && Find(p.children, ArgNameNode, MAX_DEPTH).Some? {
      FindInCut(p.children, t.children, ArgNameNode, MAX_DEPTH);
      PrefixAfterCommon(Dump(Find(t.children, ArgNameNode, MAX_DEPTH).value.text) + ":", v, w);
    }
  }

  // ----- A complete tree prints closed JSON -----

  /** No node is partial, and verbatim JSON is balanced and closed. */
  predicate Complete(t: Tree)
    decreases t
  {
    !t.partial && (t.tag.ArgValueNode? ==> ScanText(START, t.text) == START)
    && forall i :: 0 <= i < |t.children| ==> Complete(t.children[i])
  }

  predicate AllComplete(ts: seq<Tree>) {
    forall i :: 0 <= i < |ts| ==> Complete(ts[i])
  }

  lemma {:induction false} CollectComplete(ts: seq<Tree>, tag: NodeTag)
    requires AllComplete(ts)
    ensures AllComplete(Collect(ts, tag))
    decreases ts
  {
    if ts != [] {
      CollectComplete(ts[0].children, tag);
      CollectComplete(ts[1..], tag);
    }
  }

  lemma {:induction false} ValueOfComplete(ts: seq<Tree>)
    requires AllComplete(ts) && ValueOf(ts).Some?
    ensures Complete(ValueOf(ts).value)
  {
    if !IsValue(ts[0]) {
      ValueOfComplete(ts[1..]);
    }
  }

  lemma {:induction false} ValueNeutral(t: Tree)
    requires Complete(t) && IsValue(t)
    ensures Neutral(ValueJson(Some(t), true))
    decreases Size(t), 1
  {
    match t.tag
    case ArgObjectNode => ContainerNeutral(t, true);
    case ArgArrayNode => ContainerNeutral(t, false);
    case ArgStringValueNode =>
      DumpIsNeutral(t.text);
      assert ValueJson(Some(t), true) == Dump(t.text);
    case _ => BalancedIsNeutral(t.text);
  }

  /** A complete container prints with brace depth 0 and no open string. */
  lemma {:induction false} ContainerNeutral(t: Tree, isObject: bool)
    requires Complete(t)
    ensures Neutral(ContainerJson(t, isObject, true))
    decreases Size(t), 0
  {
    var tag := if isObject then ArgNode else ArgItemNode;
    CollectComplete(t.children, tag);
    EntriesNeutral(Collect(t.children, tag), isObject, false);
    Gemma.BracesNeutral(EntriesJson(Collect(t.children, tag), isObject, false));
  }

  lemma {:induction false} EntriesNeutral(ts: seq<Tree>, isObject: bool, comma: bool)
    requires AllComplete(ts)
    ensures Neutral(EntriesJson(ts, isObject, comma))
    decreases SizeAll(ts), 3
  {
    hide EntryJson, Neutral;
    var sep := if comma then "," else "";
    Gemma.PlainNeutral(sep);
    Gemma.PlainNeutral("");
    if ts != [] {
      var text := EntryJson(ts[0], isObject);
      EntryNeutral(ts[0], isObject);
      EntriesNeutral(ts[1..], isObject, comma || text != "");
      NeutralConcat(sep, text);
      NeutralConcat(sep + text, EntriesJson(ts[1..], isObject, comma || text != ""));
    }
  }

  lemma {:induction false} EntryNeutral(t: Tree, isObject: bool)
    requires Complete(t)
    ensures Neutral(EntryJson(t, isObject))
    decreases Size(t), 2
  {
    hide Neutral;
    var v := ValueOf(t.children);
    Gemma.PlainNeutral("");
    if v.Some? {
      ValueOfComplete(t.children);
      ValueNeutral(v.value);
    }
    var name := Find(t.children, ArgNameNode, MAX_DEPTH);
    if isObject && name.Some? {
      DumpIsNeutral(name.value.text);
      Gemma.PlainNeutral(":");
      NeutralConcat(Dump(name.value.text), ":");
      NeutralConcat(Dump(name.value.text) + ":", ValueJson(v, true));
    }
  }

  // ----- What an unfinished element leaves out -----

  function CloserOf(v: Option<Tree>): string {
    match v
    case None => ""
    case Some(t) =>
      match t.tag
      case ArgObjectNode => "}"
      case ArgArrayNode => "]"
      case ArgStringValueNode => "\""
      case _ => ""
  }

  /** An unclosed value prints what it would print closed, but for its own closer. */
  lemma {:induction false} OpenLacksCloser(v: Option<Tree>)
    ensures ValueJson(v, true) == ValueJson(v, false) + CloserOf(v)
  {
    hide EntriesJson, Collect, Escape;
    assert ValueJson(v, false) + "" == ValueJson(v, false);
    if v.Some? && v.value.tag.ArgStringValueNode? {
      assert "\"" + Escape(v.value.text) + "" == "\"" + Escape(v.value.text);
    }
  }

  /** So does an unfinished argument or item. */
  lemma {:induction false} PartialLacksCloser(t: Tree, isObject: bool)
    requires isObject ==> Find(t.children, ArgNameNode, MAX_DEPTH).Some?
    ensures EntryJson(t.(partial := false), isObject)
         == EntryJson(t.(partial := true), isObject) + CloserOf(ValueOf(t.children))
  {
    hide ValueJson;
    var v := ValueOf(t.children);
    OpenLacksCloser(v);
    if isObject {
      var key := Dump(Find(t.children, ArgNameNode, MAX_DEPTH).value.text) + ":";
      assert key + (ValueJson(v, false) + CloserOf(v)) == key + ValueJson(v, false) + CloserOf(v);
    }
  }

  // ----- A complete container prints the value it stands for -----

  /** A complete value in which every member has its name and every element its value. */
  predicate IsWhole(t: Tree)
    decreases Size(t), 0
  {
    && IsValue(t)
    && match t.tag
       case ArgObjectNode => AreWhole(Collect(t.children, ArgNode), true)
       case ArgArrayNode => AreWhole(Collect(t.children, ArgItemNode), false)
       case ArgValueNode => t.text != ""
       case _ => true
  }

  predicate AreWhole(entries: seq<Tree>, isObject: bool)
    decreases SizeAll(entries), 2
  {
    entries != [] ==> IsWholeEntry(entries[0], isObject) && AreWhole(entries[1..], isObject)
  }

  predicate IsWholeEntry(t: Tree, isObject: bool)
    decreases Size(t), 1
  {
    && !t.partial && ValueOf(t.children).Some? && IsWhole(ValueOf(t.children).value)
    && (isObject ==> Find(t.children, ArgNameNode, MAX_DEPTH).Some?)
  }

  function Meaning(t: Tree): Json
    requires IsWhole(t)
    decreases Size(t), 0
  {
    match t.tag
    case ArgObjectNode => Obj(MembersOf(Collect(t.children, ArgNode)))
    case ArgArrayNode => Arr(ItemsOf(Collect(t.children, ArgItemNode)))
    case ArgStringValueNode => Str(t.text)
    case _ => Verbatim(t.text)
  }

  function MembersOf(entries: seq<Tree>): seq<Member>
    requires AreWhole(entries, true)
    decreases SizeAll(entries), 2
  {
    if entries == [] then []
    else
      assert IsWholeEntry(entries[0], true) && AreWhole(entries[1..], true);
      assert Size(entries[0]) == 1 + SizeAll(entries[0].children);
      var name := Find(entries[0].children, ArgNameNode, MAX_DEPTH).value.text;
      [Member(name, Meaning(ValueOf(entries[0].children).value))] + MembersOf(entries[1..])
  }

  function ItemsOf(entries: seq<Tree>): seq<Json>
    requires AreWhole(entries, false)
    decreases SizeAll(entries), 2
  {
    if entries == [] then []
    else
      assert IsWholeEntry(entries[0], false) && AreWhole(entries[1..], false);
      assert Size(entries[0]) == 1 + SizeAll(entries[0].children);
      [Meaning(ValueOf(entries[0].children).value)] + ItemsOf(entries[1..])
  }

  lemma {:induction false} ValuePrintsMeaning(t: Tree)
    requires IsWhole(t)
    ensures ValueJson(Some(t), true) == PrintJson(Meaning(t)) != ""
    decreases Size(t), 0
  {
    hide EntriesJson, Collect, MembersOf, ItemsOf, PrintMembers, PrintItems;
    assert Size(t) == 1 + SizeAll(t.children);
    match t.tag
    case ArgObjectNode => MembersPrint(Collect(t.children, ArgNode), false);
    case ArgArrayNode => ItemsPrint(Collect(t.children, ArgItemNode), false);
    case _ =>
  }

  /** One entry, and what it takes to go on to the next. */
  lemma {:induction false} EntryPrintsMeaning(entries: seq<Tree>, isObject: bool)
    requires entries != [] && AreWhole(entries, isObject)
    ensures AreWhole(entries[1..], isObject) && SizeAll(entries[1..]) < SizeAll(entries)
    ensures IsWholeEntry(entries[0], isObject)
    ensures var v := Meaning(ValueOf(entries[0].children).value);
      && EntryJson(entries[0], isObject) != ""
      && EntryJson(entries[0], isObject)
         == if !isObject then PrintJson(v)
            else PrintMember(Member(Find(entries[0].children, ArgNameNode, MAX_DEPTH).value.text, v))
    decreases SizeAll(entries), 1
  {
    hide PrintJson, Meaning, IsWhole;
    assert IsWholeEntry(entries[0], isObject) && Size(entries[0]) == 1 + SizeAll(entries[0].children);
    assert SizeAll(entries) == Size(entries[0]) + SizeAll(entries[1..]);
    ValuePrintsMeaning(ValueOf(entries[0].children).value);
  }

  lemma {:induction false} MembersPrint(entries: seq<Tree>, comma: bool)
    requires AreWhole(entries, true)
    ensures EntriesJson(entries, true, comma)
         == (if comma && entries != [] then "," else "") + PrintMembers(MembersOf(entries))
    decreases SizeAll(entries), 2
  {
    hide EntryJson, PrintMember, PrintMembers, Meaning, IsWhole;
    NothingPrints();
    if entries != [] {
      EntryPrintsMeaning(entries, true);
      MembersPrint(entries[1..], true);
      MembersNext(MembersOf(entries)[0], MembersOf(entries[1..]));
    }
  }

  lemma {:induction false} ItemsPrint(entries: seq<Tree>, comma: bool)
    requires AreWhole(entries, false)
    ensures EntriesJson(entries, false, comma)
         == (if comma && entries != [] then "," else "") + PrintItems(ItemsOf(entries))
    decreases SizeAll(entries), 2
  {
    hide EntryJson, PrintJson, PrintItems, Meaning, IsWhole;
    NothingPrints();
    if entries != [] {
      EntryPrintsMeaning(entries, false);
      ItemsPrint(entries[1..], true);
      ItemsNext(ItemsOf(entries)[0], ItemsOf(entries[1..]));
    }
  }

  /** The arguments of a complete call are the plain form of the object they stand for. */
  lemma {:induction false} ArgumentsPrintMeaning(t: Tree)
    requires AreWhole(Collect(t.children, ArgNode), true)
    ensures ContainerJson(t, true, true) == PrintJson(Obj(MembersOf(Collect(t.children, ArgNode))))
  {
    hide EntriesJson, Collect, AreWhole, MembersOf, PrintMembers;
    MembersPrint(Collect(t.children, ArgNode), false);
  }

  // ----- The call of a tool node -----

  function Call(t: Tree): Option<ToolCall> {
    match Find(t.children, ToolNameNode, MAX_DEPTH)
    case None => None
    case Some(name) => Some(ToolCall(name.text, ContainerJson(t, true, !t.partial), ""))
  }

  /** A tool node whose opening has the name gives that name and its arguments, closed when it is complete. */
  lemma {:induction false} CallIs(t: Tree, name: Tree)
    requires t.children != [] && t.children[0].tag.ToolOpenNode?
    requires t.children[0].children != [] && t.children[0].children[0] == name && name.tag.ToolNameNode?
    ensures Call(t) == Some(ToolCall(name.text, ContainerJson(t, true, !t.partial), ""))
  {
    hide ContainerJson;
    assert Find(t.children[0].children, ToolNameNode, 2) == Some(name);
    assert Find(t.children, ToolNameNode, MAX_DEPTH) == Some(name);
  }

  lemma {:induction false} CallGrowsWithCut(p: Tree, t: Tree)
    requires CutOf(p, t) && t.tag.ToolNode? && Call(p).Some?
    ensures Call(t).Some? && CallGrows(Call(p).value, Call(t).value)
  {
    CutChildren(p, t);
    FindInCut(p.children, t.children, ToolNameNode, MAX_DEPTH);
    ContainerPrefix(p, t, true, !p.partial, !t.partial);
  }
}
