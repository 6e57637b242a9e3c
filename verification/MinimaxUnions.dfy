/**
 Streams of minimax-m3 calls whose arguments have union schemas (chat.cpp, value_of in the
 minimax-m3 parser). The parser tries the alternatives in order, so the last unfinished
 value may be given up and printed anew under a later alternative. The server throws
 exactly when the two printed forms contradict each other.
 */
module MinimaxUnions {
  import opened Prelude
  import opened JsonText
  import opened AstTree
  import opened ChatDiff
  import opened Streaming
  import opened ServerRun
  import opened TreeVisitor
  import opened MinimaxPrinter
  import opened Delivery

  // ----- What a later parse may give up -----

  /** Where on the spine of a parse a list of children is. */
  datatype Level = Outside | InObject | InArray | InEntry

  function Below(level: Level, tag: NodeTag): Option<Level> {
    match level
    case Outside => if tag.NoTag? then Some(Outside) else if tag.ToolNode? then Some(InObject) else None
    case InObject => if tag.NoTag? then Some(InObject) else if tag.ArgNode? then Some(InEntry) else None
    case InArray => if tag.NoTag? then Some(InArray) else if tag.ArgItemNode? then Some(InEntry) else None
    case InEntry => if tag.ArgObjectNode? then Some(InObject) else if tag.ArgArrayNode? then Some(InArray) else None
  }

  /** `q` and `p` are the same unfinished node up to their children, and it has its name. */
  predicate SameOpen(level: Level, q: Tree, p: Tree) {
    && q.tag == p.tag && Below(level, p.tag).Some?
    && (p.tag.ToolNode? || p.tag.ArgNode? || p.tag.ArgItemNode? ==> q.partial && p.partial)
    && (p.tag.ToolNode? ==> Find(q.children, ToolNameNode, MAX_DEPTH).Some?)
    && (p.tag.ArgNode? ==> Find(q.children, ArgNameNode, MAX_DEPTH).Some?)
  }

  predicate DropsTail(qs: seq<Tree>, ps: seq<Tree>) {
    |qs| <= |ps| && qs == ps[..|qs|] && AllSilent(ps[|qs|..])
  }

  predicate GivesUp(level: Level, qs: seq<Tree>, ps: seq<Tree>, v: Tree) {
    level.InEntry? && ps == qs + [v] && IsValue(v) && ValueOf(qs).None?
  }

  predicate SameButLast(level: Level, qs: seq<Tree>, ps: seq<Tree>) {
    && 0 < |qs| == |ps| && qs[..|qs| - 1] == ps[..|qs| - 1]
    && SameOpen(level, qs[|qs| - 1], ps[|qs| - 1])
    && (level.InEntry? ==> ValueOf(qs[..|qs| - 1]).None?)
  }

  /**
   `qs` is what a later parse keeps of `ps`: all but some silent nodes at the end, or all but
   the value `v` of the last unfinished argument or item.
   */
  ghost predicate Abandons(level: Level, qs: seq<Tree>, ps: seq<Tree>, v: Option<Tree>)
    decreases ps
  {
    || (v.None? && DropsTail(qs, ps))
    || (v.Some? && GivesUp(level, qs, ps, v.value))
    || (SameButLast(level, qs, ps)
        && Abandons(Below(level, ps[|qs| - 1].tag).value, qs[|qs| - 1].children, ps[|qs| - 1].children, v))
  }

  // ----- Facts about lists of children -----

  lemma {:induction false} CollectConcat(a: seq<Tree>, b: seq<Tree>, tag: NodeTag)
    ensures Collect(a + b, tag) == Collect(a, tag) + Collect(b, tag)
    decreases a
  {
    if a == [] {
      assert a + b == b;
    } else {
      assert (a + b)[1..] == a[1..] + b;
      CollectConcat(a[1..], b, tag);
    }
  }

  lemma CollectLast(ts: seq<Tree>, tag: NodeTag)
    requires ts != []
    ensures var n := |ts| - 1;
      Collect(ts, tag) == Collect(ts[..n], tag) + if ts[n].tag == tag then [ts[n]] else Collect(ts[n].children, tag)
  {
    var n := |ts| - 1;
    assert ts == ts[..n] + [ts[n]] && [ts[n]][1..] == [];
    CollectConcat(ts[..n], [ts[n]], tag);
  }

  lemma {:induction false} CollectSilent(ts: seq<Tree>, tag: NodeTag)
    requires AllSilent(ts)
    ensures AllSilent(Collect(ts, tag))
    decreases ts
  {
    if ts != [] {
      assert Silent(ts[0]);
      CollectSilent(ts[0].children, tag);
      CollectSilent(ts[1..], tag);
    }
  }

  lemma {:induction false} FindSilent(ts: seq<Tree>, tag: NodeTag, depth: nat)
    requires AllSilent(ts) && !tag.NoTag? && !tag.ArgNode? && !tag.ArgItemNode?
    ensures Find(ts, tag, depth).None?
    decreases ts
  {
    if ts != [] && depth > 0 {
      assert Silent(ts[0]);
      FindSilent(ts[0].children, tag, depth - 1);
      FindSilent(ts[1..], tag, depth);
    }
  }

  lemma {:induction false} FindConcat(a: seq<Tree>, b: seq<Tree>, tag: NodeTag, depth: nat)
    ensures Find(a + b, tag, depth) == if Find(a, tag, depth).Some? then Find(a, tag, depth) else Find(b, tag, depth)
    decreases a
  {
    if a == [] {
      assert a + b == b;
    } else if depth > 0 {
      assert (a + b)[1..] == a[1..] + b;
      FindConcat(a[1..], b, tag, depth);
    }
  }

  lemma {:induction false} ValueOfConcat(a: seq<Tree>, b: seq<Tree>)
    ensures ValueOf(a + b) == if ValueOf(a).Some? then ValueOf(a) else ValueOf(b)
  {
    if a == [] {
      assert a + b == b;
    } else {
      assert (a + b)[1..] == a[1..] + b;
      ValueOfConcat(a[1..], b);
    }
  }

  lemma {:induction false} ValueOfSilent(ts: seq<Tree>)
    requires AllSilent(ts)
    ensures ValueOf(ts).None?
  {
    if ts != [] {
      assert Silent(ts[0]);
      ValueOfSilent(ts[1..]);
    }
  }

  /** A name that was found stays. */
  lemma {:induction false} FindKept(level: Level, qs: seq<Tree>, ps: seq<Tree>, v: Option<Tree>, tag: NodeTag,
                                    depth: nat)
    requires Abandons(level, qs, ps, v) && Find(qs, tag, depth).Some?
    requires tag.ToolNameNode? || tag.ArgNameNode?
    ensures Find(ps, tag, depth) == Find(qs, tag, depth)
    decreases ps
  {
    if v.None? && DropsTail(qs, ps) {
      assert ps == qs + ps[|qs|..];
      FindConcat(qs, ps[|qs|..], tag, depth);
    } else if v.Some? && GivesUp(level, qs, ps, v.value) {
      FindConcat(qs, [v.value], tag, depth);
    } else {
      var n := |qs| - 1;
      assert qs == qs[..n] + [qs[n]] && ps == qs[..n] + [ps[n]];
      FindConcat(qs[..n], [qs[n]], tag, depth);
      FindConcat(qs[..n], [ps[n]], tag, depth);
      FindOne(qs[n], tag, depth);
      FindOne(ps[n], tag, depth);
      if Find(qs[..n], tag, depth).None? {
        FindKept(Below(level, ps[n].tag).value, qs[n].children, ps[n].children, v, tag, depth - 1);
      }
    }
  }

  lemma {:induction false} FindOne(t: Tree, tag: NodeTag, depth: nat)
    ensures Find([t], tag, depth) ==
      if depth == 0 then None else if t.tag == tag then Some(t) else Find(t.children, tag, depth - 1)
  {
    assert [t][1..] == [];
  }

  // ----- Printing what is kept, then what was given up -----

  function Sep(comma: bool): string {
    if comma then "," else ""
  }

  lemma {:induction false} EntriesConcat(a: seq<Tree>, b: seq<Tree>, isObject: bool, comma: bool)
    ensures EntriesJson(a + b, isObject, comma)
         == EntriesJson(a, isObject, comma) + EntriesJson(b, isObject, comma || EntriesJson(a, isObject, false) != "")
    decreases |a|
  {
    hide EntryJson;
    if a == [] {
      assert a + b == b;
    } else {
      assert (a + b)[1..] == a[1..] + b;
      var text := EntryJson(a[0], isObject);
      EntriesConcat(a[1..], b, isObject, comma || text != "");
    }
  }

  lemma {:induction false} EntriesSilent(ts: seq<Tree>, isObject: bool, comma: bool)
    requires AllSilent(ts)
    ensures EntriesJson(ts, isObject, comma) == ""
    decreases |ts|
  {
    hide EntryJson;
    if ts != [] {
      SilentEntry(ts[0], isObject);
      EntriesSilent(ts[1..], isObject, comma);
    }
  }

  lemma {:induction false} SilentEntry(t: Tree, isObject: bool)
    requires Silent(t)
    ensures EntryJson(t, isObject) == ""
  {
    FindSilent(t.children, ArgNameNode, MAX_DEPTH);
    ValueOfSilent(t.children);
  }

  lemma {:induction false} OneEntry(t: Tree, isObject: bool, comma: bool)
    ensures EntriesJson([t], isObject, comma)
         == if EntryJson(t, isObject) == "" then "" else Sep(comma) + EntryJson(t, isObject)
  {
    hide EntryJson;
    assert [t][1..] == [];
    var text := EntryJson(t, isObject);
    assert Sep(comma) + text + "" == Sep(comma) + text;
  }

  function EntryTag(isObject: bool): NodeTag {
    if isObject then ArgNode else ArgItemNode
  }

  lemma {:induction false} EntriesDrop(isObject: bool, comma: bool, qs: seq<Tree>, ps: seq<Tree>)
    requires DropsTail(qs, ps)
    ensures Entries(isObject, comma, ps) == Entries(isObject, comma, qs)
  {
    hide EntriesJson;
    var rest, tag := ps[|qs|..], EntryTag(isObject);
    assert ps == qs + rest;
    CollectConcat(qs, rest, tag);
    CollectSilent(rest, tag);
    EntriesConcat(Collect(qs, tag), Collect(rest, tag), isObject, comma);
    EntriesSilent(Collect(rest, tag), isObject, comma || EntriesJson(Collect(qs, tag), isObject, false) != "");
  }

  /** The printed entries among the children of a container. */
  function Entries(isObject: bool, comma: bool, ts: seq<Tree>): string {
    EntriesJson(Collect(ts, EntryTag(isObject)), isObject, comma)
  }

  /** The entries of one child. */
  function Here(isObject: bool, t: Tree): seq<Tree> {
    if t.tag == EntryTag(isObject) then [t] else Collect(t.children, EntryTag(isObject))
  }

  /** Whether an entry after the first `n` children needs a comma. */
  function After(isObject: bool, comma: bool, ts: seq<Tree>, n: nat): bool
    requires n <= |ts|
  {
    comma || Entries(isObject, false, ts[..n]) != ""
  }

  lemma {:induction false} EntriesEmpty(ts: seq<Tree>, isObject: bool, comma: bool)
    ensures EntriesJson(ts, isObject, comma) == "" <==> EntriesJson(ts, isObject, false) == ""
    decreases |ts|
  {
    hide EntryJson;
    if ts != [] {
      EntriesEmpty(ts[1..], isObject, comma);
    }
  }

  /** The entries up to a child, those of the child and those after it. */
  lemma {:induction false} EntriesAt(isObject: bool, comma: bool, ts: seq<Tree>, n: nat)
    requires n < |ts|
    ensures var here := Here(isObject, ts[n]);
      var after := After(isObject, comma, ts, n);
      Entries(isObject, comma, ts) == Entries(isObject, comma, ts[..n]) + EntriesJson(here, isObject, after)
        + Entries(isObject, after || EntriesJson(here, isObject, false) != "", ts[n + 1..])
  {
    hide EntriesJson, Collect;
    var tag, here := EntryTag(isObject), Here(isObject, ts[n]);
    var front, later := Collect(ts[..n], tag), Collect(ts[n + 1..], tag);
    assert ts == ts[..n + 1] + ts[n + 1..] && ts[..n + 1][..n] == ts[..n];
    CollectConcat(ts[..n + 1], ts[n + 1..], tag);
    CollectLast(ts[..n + 1], tag);
    EntriesConcat(front + here, later, isObject, comma);
    EntriesConcat(front, here, isObject, comma);
    EntriesConcat(front, here, isObject, false);
    EntriesEmpty(here, isObject, EntriesJson(front, isObject, false) != "");
  }

  lemma {:induction false} EntriesUpTo(isObject: bool, comma: bool, ts: seq<Tree>)
    requires ts != []
    ensures var n := |ts| - 1;
      Entries(isObject, comma, ts)
      == Entries(isObject, comma, ts[..n]) + EntriesJson(Here(isObject, ts[n]), isObject, After(isObject, comma, ts, n))
  {
    hide EntriesJson, Collect;
    EntriesAt(isObject, comma, ts, |ts| - 1);
    NoEntries(isObject);
    assert ts[|ts|..] == [];
  }

  lemma NoEntries(isObject: bool)
    ensures forall comma :: Entries(isObject, comma, []) == ""
    ensures forall s: string :: s + "" == s
  {}

  lemma {:induction false} SameLast(isObject: bool, comma: bool, qs: seq<Tree>, ps: seq<Tree>)
    requires 0 < |qs| == |ps| && qs[..|qs| - 1] == ps[..|qs| - 1]
    requires var n := |qs| - 1;
      var after := After(isObject, comma, qs, n);
      EntriesJson(Here(isObject, qs[n]), isObject, after) == EntriesJson(Here(isObject, ps[n]), isObject, after)
    ensures Entries(isObject, comma, qs) == Entries(isObject, comma, ps)
  {
    hide EntriesJson, Entries, Here;
    EntriesUpTo(isObject, comma, qs);
    EntriesUpTo(isObject, comma, ps);
  }

  /** Nothing given up: silent nodes make no difference to what is printed. */
  lemma {:induction false} EntriesKept(isObject: bool, comma: bool, qs: seq<Tree>, ps: seq<Tree>)
    requires Abandons(if isObject then InObject else InArray, qs, ps, None)
    ensures Entries(isObject, comma, ps) == Entries(isObject, comma, qs)
    decreases ps, 1
  {
    hide EntryJson, Find, EntriesJson, DropsTail, Entries, Collect, After;
    if DropsTail(qs, ps) {
      EntriesDrop(isObject, comma, qs, ps);
    } else {
      var n := |qs| - 1;
      var after := After(isObject, comma, qs, n);
      if ps[n].tag == EntryTag(isObject) {
        EntryKept(isObject, qs[n], ps[n]);
        OneEntry(qs[n], isObject, after);
        OneEntry(ps[n], isObject, after);
      } else {
        EntriesKept(isObject, after, qs[n].children, ps[n].children);
        EntriesOf(isObject, after, qs[n].children);
        EntriesOf(isObject, after, ps[n].children);
      }
      SameLast(isObject, comma, qs, ps);
    }
  }

  lemma {:induction false} EntriesOf(isObject: bool, comma: bool, ts: seq<Tree>)
    ensures Entries(isObject, comma, ts) == EntriesJson(Collect(ts, EntryTag(isObject)), isObject, comma)
  {}

  lemma {:induction false} EntryKept(isObject: bool, q: Tree, p: Tree)
    requires q.partial && p.partial && Abandons(InEntry, q.children, p.children, None)
    requires isObject ==> Find(q.children, ArgNameNode, MAX_DEPTH).Some?
    ensures EntryJson(p, isObject) == EntryJson(q, isObject)
    decreases p.children, 1
  {
    if isObject {
      FindKept(InEntry, q.children, p.children, None, ArgNameNode, MAX_DEPTH);
    }
    ValueKept(q.children, p.children);
  }

  lemma {:induction false} ValueKept(qs: seq<Tree>, ps: seq<Tree>)
    requires Abandons(InEntry, qs, ps, None)
    ensures ValueJson(ValueOf(ps), false) == ValueJson(ValueOf(qs), false)
    decreases ps, 0
  {
    hide Entries, ContainerJson, Silent, ValueJson;
    if DropsTail(qs, ps) {
      assert ps == qs + ps[|qs|..];
      ValueOfConcat(qs, ps[|qs|..]);
      ValueOfSilent(ps[|qs|..]);
    } else {
      var n := |qs| - 1;
      var isObject := ps[n].tag.ArgObjectNode?;
      LastValue(qs, n);
      LastValue(ps, n);
      EntriesKept(isObject, false, qs[n].children, ps[n].children);
      OpenContainer(isObject, qs[n], false);
      OpenContainer(isObject, ps[n], false);
      ContainerValue(qs[n], false);
      ContainerValue(ps[n], false);
    }
  }

  /** The first value is the one at `n`. */
  lemma {:induction false} LastValue(ts: seq<Tree>, n: nat)
    requires n < |ts| && IsValue(ts[n]) && ValueOf(ts[..n]).None?
    ensures ValueOf(ts) == Some(ts[n])
  {
    assert ts == ts[..n] + ([ts[n]] + ts[n + 1..]);
    ValueOfConcat(ts[..n], [ts[n]] + ts[n + 1..]);
  }

  lemma {:induction false} ContainerValue(t: Tree, closed: bool)
    requires t.tag.ArgObjectNode? || t.tag.ArgArrayNode?
    ensures ValueJson(Some(t), closed) == ContainerJson(t, t.tag.ArgObjectNode?, closed)
  {}

  function Opener(isObject: bool): string {
    if isObject then "{" else "["
  }

  function Closer(isObject: bool, closed: bool): string {
    if !closed then "" else if isObject then "}" else "]"
  }

  lemma {:induction false} OpenContainer(isObject: bool, t: Tree, closed: bool)
    ensures ContainerJson(t, isObject, closed)
         == Opener(isObject) + Entries(isObject, false, t.children) + Closer(isObject, closed)
    ensures ContainerJson(t, isObject, closed) != ""
  {
    hide EntriesJson, Collect;
  }

  // ----- Where the value given up is printed anew -----

  /** The value in that place, whether its element is closed, what is printed before it and after it. */
  datatype Place = Place(value: Option<Tree>, closed: bool, sep: string, rest: string)

  const NOWHERE := Place(None, false, "", "")

  /** Among the children of an argument or an item: its value, or a place inside that. */
  function ValuePlace(qs: seq<Tree>, ts: seq<Tree>, closed: bool): Place
    decreases qs, 0
  {
    if qs == [] || |qs| > |ts| || ValueOf(qs).None? then Place(ValueOf(ts), closed, "", "")
    else
      var n := |qs| - 1;
      var isObject := qs[n].tag.ArgObjectNode?;
      var place := EntriesPlace(isObject, false, qs[n].children, ts[n].children);
      place.(rest := place.rest + Closer(isObject, closed))
  }

  /** Among the children of a container: in its last entry, which may be the first to print a comma. */
  function EntriesPlace(isObject: bool, comma: bool, qs: seq<Tree>, ts: seq<Tree>): Place
    decreases qs, 1
  {
    if qs == [] || |qs| > |ts| then NOWHERE
    else
      var n := |qs| - 1;
      var after := After(isObject, comma, ts, n);
      var place :=
        if qs[n].tag != EntryTag(isObject) then EntriesPlace(isObject, after, qs[n].children, ts[n].children)
        else
          var inner := ValuePlace(qs[n].children, ts[n].children, !ts[n].partial);
          if EntryJson(qs[n], isObject) == "" then inner.(sep := Sep(after)) else inner;
      var next := after || EntriesJson(Here(isObject, ts[n]), isObject, false) != "";
      place.(rest := place.rest + Entries(isObject, next, ts[n + 1..]))
  }

  /** Among the nodes the visitor walks: in the arguments of the last call. */
  function CallPlace(qs: seq<Tree>, ts: seq<Tree>): Place
    decreases qs
  {
    if qs == [] || |qs| > |ts| then NOWHERE
    else
      var n := |qs| - 1;
      if !qs[n].tag.ToolNode? then CallPlace(qs[n].children, ts[n].children)
      else
        var place := EntriesPlace(true, false, qs[n].children, ts[n].children);
        place.(rest := place.rest + Closer(true, !ts[n].partial))
  }

  function Behind(sep: string, text: string): string {
    if text == "" then "" else sep + text
  }

  /** What is printed of the value given up, and of what stands in its place, to the end. */
  function Given(place: Place, v: Tree): string {
    Behind(place.sep, ValueJson(Some(v), false))
  }

  function Instead(place: Place): string {
    Behind(place.sep, ValueJson(place.value, place.closed)) + place.rest
  }

  /** `q` is printed of what is kept, `p` of the earlier parse and `t` of the later one. */
  predicate Prints(q: string, p: string, t: string, place: Place, v: Tree) {
    p == q + Given(place, v) && t == q + Instead(place)
  }

  lemma PrintsAround(before: string, q: string, p: string, t: string, after: string, place: Place, v: Tree)
    requires Prints(q, p, t, place, v)
    ensures Prints(before + q, before + p, before + t + after, place.(rest := place.rest + after), v)
  {
    hide ValueJson;
    assert before + (q + Instead(place)) + after == before + q + (Instead(place) + after);
    assert Instead(place) + after == Instead(place.(rest := place.rest + after));
  }

  lemma {:induction false} SpineTag(q: Tree, t: Tree)
    requires CutOf(q, t)
    ensures q.tag == t.tag && CutForest(q.children, t.children)
  {}

  lemma {:induction false} AtomicIsWhole(q: Tree, t: Tree)
    requires CutOf(q, t) && t.tag.ArgNameNode?
    ensures q == t
  {}

  lemma {:induction false} ValueReplaced(qs: seq<Tree>, ps: seq<Tree>, ts: seq<Tree>, v: Tree, closed: bool)
    requires Abandons(InEntry, qs, ps, Some(v)) && CutForest(qs, ts)
    ensures Prints(ValueJson(ValueOf(qs), false), ValueJson(ValueOf(ps), false), ValueJson(ValueOf(ts), closed),
                   ValuePlace(qs, ts, closed), v)
    ensures ValueJson(ValueOf(qs), false) == "" ==>
      ValuePlace(qs, ts, closed).sep == "" && ValuePlace(qs, ts, closed).rest == ""
    decreases ps, 0
  {
    hide Entries, ContainerJson, Silent, ValueJson, CutOf, EntriesPlace;
    if GivesUp(InEntry, qs, ps, v) {
      ValueOfConcat(qs, [v]);
      NoValue();
    } else {
      var n := |qs| - 1;
      var isObject := ps[n].tag.ArgObjectNode?;
      SpineTag(qs[n], ts[n]);
      assert ts[..n] == qs[..n];
      LastValue(qs, n);
      LastValue(ps, n);
      LastValue(ts, n);
      EntriesReplaced(isObject, false, qs[n].children, ps[n].children, ts[n].children, v);
      ContainerReplaced(isObject, qs[n], ps[n], ts[n], closed, v);
      ContainerValue(qs[n], false);
      ContainerValue(ps[n], false);
      ContainerValue(ts[n], closed);
    }
  }

  lemma NoValue()
    ensures ValueJson(None, false) == "" && forall s: string :: "" + s == s && s + "" == s
  {}

  lemma {:induction false} ContainerReplaced(isObject: bool, q: Tree, p: Tree, t: Tree, closed: bool, v: Tree)
    requires Prints(Entries(isObject, false, q.children), Entries(isObject, false, p.children),
                    Entries(isObject, false, t.children),
                    EntriesPlace(isObject, false, q.children, t.children), v)
    ensures var place := EntriesPlace(isObject, false, q.children, t.children);
      Prints(ContainerJson(q, isObject, false), ContainerJson(p, isObject, false), ContainerJson(t, isObject, closed),
             place.(rest := place.rest + Closer(isObject, closed)), v)
    ensures ContainerJson(q, isObject, false) != ""
  {
    hide Entries, ContainerJson, Prints, EntriesPlace;
    OpenContainer(isObject, q, false);
    OpenContainer(isObject, p, false);
    OpenContainer(isObject, t, closed);
    NoValue();
    PrintsAround(Opener(isObject), Entries(isObject, false, q.children), Entries(isObject, false, p.children),
                 Entries(isObject, false, t.children), Closer(isObject, closed),
                 EntriesPlace(isObject, false, q.children, t.children), v);
  }

  lemma {:induction false} EntryReplaced(isObject: bool, q: Tree, p: Tree, t: Tree, v: Tree)
    requires q.partial && p.partial && Abandons(InEntry, q.children, p.children, Some(v)) && CutOf(q, t)
    requires isObject ==> Find(q.children, ArgNameNode, MAX_DEPTH).Some?
    ensures var place := ValuePlace(q.children, t.children, !t.partial);
      && Prints(EntryJson(q, isObject), EntryJson(p, isObject), EntryJson(t, isObject), place, v)
      && (EntryJson(q, isObject) == "" ==> place.sep == "" && place.rest == "")
    decreases p.children, 1
  {
    hide ValuePlace, CutOf, ValueJson, Prints;
    var qs, ps, ts := q.children, p.children, t.children;
    SpineTag(q, t);
    ValueReplaced(qs, ps, ts, v, !t.partial);
    if isObject {
      FindKept(InEntry, qs, ps, Some(v), ArgNameNode, MAX_DEPTH);
      FindInCut(qs, ts, ArgNameNode, MAX_DEPTH);
      AtomicIsWhole(Find(qs, ArgNameNode, MAX_DEPTH).value, Find(ts, ArgNameNode, MAX_DEPTH).value);
      PrintsAround(Dump(Find(qs, ArgNameNode, MAX_DEPTH).value.text) + ":", ValueJson(ValueOf(qs), false),
                   ValueJson(ValueOf(ps), false), ValueJson(ValueOf(ts), !t.partial), "",
                   ValuePlace(qs, ts, !t.partial), v);
      NoValue();
    }
  }

  /** One entry behind a comma, when the entry is not the first to print anything. */
  lemma {:induction false} OneEntryReplaced(isObject: bool, comma: bool, q: Tree, p: Tree, t: Tree, place: Place,
                                            v: Tree)
    requires Prints(EntryJson(q, isObject), EntryJson(p, isObject), EntryJson(t, isObject), place, v)
    requires EntryJson(q, isObject) == "" ==> place.sep == "" && place.rest == ""
    ensures Prints(EntriesJson([q], isObject, comma), EntriesJson([p], isObject, comma),
                   EntriesJson([t], isObject, comma),
                   if EntryJson(q, isObject) == "" then place.(sep := Sep(comma)) else place, v)
  {
    hide EntryJson, EntriesJson, ValueJson;
    OneEntry(q, isObject, comma);
    OneEntry(p, isObject, comma);
    OneEntry(t, isObject, comma);
    NoValue();
    if EntryJson(q, isObject) != "" {
      PrintsAround(Sep(comma), EntryJson(q, isObject), EntryJson(p, isObject), EntryJson(t, isObject), "", place, v);
    }
  }

  /** The last child's entries with those before them, and those after them in the later parse. */
  lemma {:induction false} EntriesAround(isObject: bool, comma: bool, qs: seq<Tree>, ps: seq<Tree>, ts: seq<Tree>,
                                         inner: Place, v: Tree)
    requires 0 < |qs| == |ps| <= |ts| && ts[..|qs| - 1] == ps[..|qs| - 1] == qs[..|qs| - 1]
    requires var n := |qs| - 1;
      var after := After(isObject, comma, ts, n);
      Prints(EntriesJson(Here(isObject, qs[n]), isObject, after), EntriesJson(Here(isObject, ps[n]), isObject, after),
             EntriesJson(Here(isObject, ts[n]), isObject, after), inner, v)
    ensures var n := |qs| - 1;
      var next := After(isObject, comma, ts, n) || EntriesJson(Here(isObject, ts[n]), isObject, false) != "";
      Prints(Entries(isObject, comma, qs), Entries(isObject, comma, ps), Entries(isObject, comma, ts),
             inner.(rest := inner.rest + Entries(isObject, next, ts[n + 1..])), v)
  {
    hide EntriesJson, Entries, Prints, Here;
    var n := |qs| - 1;
    var after := After(isObject, comma, ts, n);
    var next := after || EntriesJson(Here(isObject, ts[n]), isObject, false) != "";
    EntriesUpTo(isObject, comma, qs);
    EntriesUpTo(isObject, comma, ps);
    EntriesAt(isObject, comma, ts, n);
    PrintsAround(Entries(isObject, comma, qs[..n]), EntriesJson(Here(isObject, qs[n]), isObject, after),
                 EntriesJson(Here(isObject, ps[n]), isObject, after),
                 EntriesJson(Here(isObject, ts[n]), isObject, after),
                 Entries(isObject, next, ts[n + 1..]), inner, v);
  }

  lemma SameFront(qs: seq<Tree>, ps: seq<Tree>, ts: seq<Tree>)
    requires 0 < |qs| == |ps| && qs[..|qs| - 1] == ps[..|qs| - 1] && CutForest(qs, ts)
    ensures |qs| <= |ts| && ts[..|qs| - 1] == ps[..|qs| - 1] && CutOf(qs[|qs| - 1], ts[|qs| - 1])
  {
    hide CutOf;
  }

  lemma {:induction false} EntriesReplaced(isObject: bool, comma: bool, qs: seq<Tree>, ps: seq<Tree>, ts: seq<Tree>,
                                           v: Tree)
    requires Abandons(if isObject then InObject else InArray, qs, ps, Some(v)) && CutForest(qs, ts)
    ensures Prints(Entries(isObject, comma, qs), Entries(isObject, comma, ps), Entries(isObject, comma, ts),
                   EntriesPlace(isObject, comma, qs, ts), v)
    decreases ps, 1
  {
    hide EntryJson, Find, EntriesJson, Entries, CutOf, CutForest, Prints, ValuePlace, Collect, After;
    var n, tag := |qs| - 1, EntryTag(isObject);
    SameFront(qs, ps, ts);
    var q, p, t := qs[n], ps[n], ts[n];
    var after := After(isObject, comma, ts, n);
    SpineTag(q, t);
    if q.tag == tag {
      var place := ValuePlace(q.children, t.children, !t.partial);
      EntryReplaced(isObject, q, p, t, v);
      OneEntryReplaced(isObject, after, q, p, t, place, v);
      EntriesAround(isObject, comma, qs, ps, ts,
                    if EntryJson(q, isObject) == "" then place.(sep := Sep(after)) else place, v);
    } else {
      EntriesReplaced(isObject, after, q.children, p.children, t.children, v);
      EntriesOf(isObject, after, q.children);
      EntriesOf(isObject, after, p.children);
      EntriesOf(isObject, after, t.children);
      EntriesAround(isObject, comma, qs, ps, ts, EntriesPlace(isObject, after, q.children, t.children), v);
    }
  }

  // ----- The message -----

  /** Silent nodes make no difference to the message. */
  lemma {:induction false} VisitKept(m: Msg, qs: seq<Tree>, ps: seq<Tree>)
    requires Abandons(Outside, qs, ps, None)
    ensures VisitAll(Call, m, ps) == VisitAll(Call, m, qs)
    decreases ps
  {
    hide VisitAll, Entries, Find, ContainerJson;
    if DropsTail(qs, ps) {
      assert ps == qs + ps[|qs|..];
      VisitConcat(Call, m, qs, ps[|qs|..]);
      VisitAllSilent(Call, VisitAll(Call, m, qs), ps[|qs|..]);
    } else {
      var n := |qs| - 1;
      VisitLast(Call, m, qs);
      VisitLast(Call, m, ps);
      if ps[n].tag.ToolNode? {
        FindKept(InObject, qs[n].children, ps[n].children, None, ToolNameNode, MAX_DEPTH);
        EntriesKept(true, false, qs[n].children, ps[n].children);
        OpenContainer(true, qs[n], false);
        OpenContainer(true, ps[n], false);
      } else {
        VisitKept(VisitAll(Call, m, qs[..n]), qs[n].children, ps[n].children);
      }
    }
  }

  function LastArguments(m: Msg): string {
    if m.toolCalls == [] then "" else m.toolCalls[|m.toolCalls| - 1].arguments
  }

  /** The messages of what is kept, of the earlier parse and of the later one differ in one call's arguments. */
  ghost predicate Reprints(q: Msg, p: Msg, t: Msg, place: Place, v: Tree) {
    var n := |q.toolCalls|;
    && 0 < n == |p.toolCalls| <= |t.toolCalls|
    && p == q.(toolCalls := q.toolCalls[n - 1 := q.toolCalls[n - 1].(arguments := LastArguments(p))])
    && Prints(LastArguments(q), LastArguments(p), t.toolCalls[n - 1].arguments, place, v)
  }

  lemma {:induction false} VisitReplaced(m: Msg, qs: seq<Tree>, ps: seq<Tree>, ts: seq<Tree>, v: Tree)
    requires Abandons(Outside, qs, ps, Some(v)) && CutForest(qs, ts)
    ensures Reprints(VisitAll(Call, m, qs), VisitAll(Call, m, ps), VisitAll(Call, m, ts), CallPlace(qs, ts), v)
    decreases ps
  {
    hide VisitAll, Entries, Find, ContainerJson, CutOf, Prints, EntriesPlace, Reprints;
    var n := |qs| - 1;
    var q, p, t := qs[n], ps[n], ts[n];
    assert ts[..n] == qs[..n] && ts == ts[..n + 1] + ts[n + 1..] && ts[..n + 1][..n] == ts[..n];
    SpineTag(q, t);
    VisitLast(Call, m, qs);
    VisitLast(Call, m, ps);
    VisitLast(Call, m, ts[..n + 1]);
    VisitConcat(Call, m, ts[..n + 1], ts[n + 1..]);
    var before, now := VisitAll(Call, m, qs[..n]), VisitAll(Call, m, ts[..n + 1]);
    if p.tag.ToolNode? {
      FindKept(InObject, q.children, p.children, Some(v), ToolNameNode, MAX_DEPTH);
      FindInCut(q.children, t.children, ToolNameNode, MAX_DEPTH);
      EntriesReplaced(true, false, q.children, p.children, t.children, v);
      ContainerReplaced(true, q, p, t, !t.partial, v);
      CallReprinted(before, Call(q).value, Call(p).value, Call(t).value, CallPlace(qs, ts), v);
    } else {
      VisitReplaced(before, q.children, p.children, t.children, v);
    }
    LaterCalls(VisitAll(Call, m, qs), VisitAll(Call, m, ps), now, ts[n + 1..], CallPlace(qs, ts), v);
  }

  lemma CallReprinted(m: Msg, q: ToolCall, p: ToolCall, t: ToolCall, place: Place, v: Tree)
    requires p == q.(arguments := p.arguments) && Prints(q.arguments, p.arguments, t.arguments, place, v)
    ensures Reprints(m.(toolCalls := m.toolCalls + [q]), m.(toolCalls := m.toolCalls + [p]),
                     m.(toolCalls := m.toolCalls + [t]), place, v)
  {}

  lemma {:induction false} LaterCalls(q: Msg, p: Msg, t: Msg, later: seq<Tree>, place: Place, v: Tree)
    requires Reprints(q, p, t, place, v)
    ensures Reprints(q, p, VisitAll(Call, t, later), place, v)
  {
    hide Prints;
    VisitAppends(Call, t, later);
  }

  // ----- One parse and the next -----

  /** The next parse, what it keeps of the parse before it, and the value it gives up, if any. */
  datatype Step = Step(kept: seq<Tree>, abandoned: Option<Tree>, forest: seq<Tree>)

  ghost predicate IsStep(from: seq<Tree>, s: Step) {
    Abandons(Outside, s.kept, from, s.abandoned) && CutForest(s.kept, s.forest)
  }

  function PlaceOf(s: Step): Place {
    CallPlace(s.kept, s.forest)
  }

  /** What was printed of the value given up is the beginning of what is printed instead. */
  predicate Continues(s: Step) {
    s.abandoned.Some? ==> Given(PlaceOf(s), s.abandoned.value) <= Instead(PlaceOf(s))
  }

  /** Neither of the two is the beginning of the other. */
  predicate Contradicts(s: Step) {
    s.abandoned.Some? && !Comparable(Given(PlaceOf(s), s.abandoned.value), Instead(PlaceOf(s)))
  }

  lemma CompareAfter(c: string, a: string, b: string)
    ensures c + a <= c + b <==> a <= b
    ensures Comparable(c + a, c + b) <==> Comparable(a, b)
  {
    PrefixAfterCommon(c, a, b);
    PrefixAfterCommon(c, b, a);
  }

  /**
   Everything before the value that is given up is kept. So the later message extends the
   earlier one exactly when what was printed of that value starts what is printed in its
   place, and contradicts it exactly when neither of the two starts the other.
   */
  lemma {:induction false} StepIff(from: seq<Tree>, s: Step)
    requires IsStep(from, s)
    ensures var p, t := MappedTrees(Call, from), MappedTrees(Call, s.forest);
      && LastReprinted(p, t)
      && (Grows(p, t) <==> Continues(s))
      && (Kept(p, t) <==> Continues(s))
      && (Clash(p, t) <==> Contradicts(s))
  {
    hide Abandons, CutForest, VisitAll, Given, Instead, CallPlace;
    CallsStream();
    var p, kept, t := MappedTrees(Call, from), MappedTrees(Call, s.kept), MappedTrees(Call, s.forest);
    VisitCutForest(Call, EMPTY_MSG, s.kept, s.forest);
    if s.abandoned.None? {
      VisitKept(EMPTY_MSG, s.kept, from);
    } else {
      VisitReplaced(EMPTY_MSG, s.kept, from, s.forest, s.abandoned.value);
      CompareAfter(LastArguments(kept), Given(PlaceOf(s), s.abandoned.value), Instead(PlaceOf(s)));
      var n := |kept.toolCalls|;
      forall i | 0 <= i < n - 1 ensures SameCall(p.toolCalls[i], t.toolCalls[i]) {
        assert SameCall(kept.toolCalls[i], t.toolCalls[i]);
      }
    }
    KeptGrows(p, t);
  }

  lemma CallsStream()
    ensures StreamsCalls(Call)
  {
    forall p, t | CutOf(p, t) && t.tag.ToolNode? && Call(p).Some?
      ensures Call(t).Some? && CallGrows(Call(p).value, Call(t).value)
    {
      CallGrowsWithCut(p, t);
    }
  }

  /** What the two values print decides whenever one of the texts starts, or contradicts, the other. */
  lemma {:induction false} ValuesDecide(s: Step)
    requires s.abandoned.Some?
    ensures var v := ValueJson(s.abandoned, false);
      var w := ValueJson(PlaceOf(s).value, PlaceOf(s).closed);
      && (v <= w ==> Continues(s))
      && (!Comparable(v, w) ==> Contradicts(s))
      && (PlaceOf(s).rest == "" && w != "" ==> (Continues(s) <==> v <= w) && (Contradicts(s) <==> !Comparable(v, w)))
  {
    hide ValueJson, CallPlace;
    var place := PlaceOf(s);
    var v, w := ValueJson(s.abandoned, false), ValueJson(place.value, place.closed);
    NoValue();
    CompareAfter(place.sep, v, w + place.rest);
    assert place.sep + (w + place.rest) == place.sep + w + place.rest;
    StaysApart(v, w, place.rest);
  }

  lemma StaysApart(v: string, w: string, rest: string)
    ensures Comparable(v, w + rest) ==> Comparable(v, w)
  {
    var k := if |v| <= |w| then |v| else |w|;
    assert (w + rest)[..k] == w[..k];
    if v <= w + rest {
      assert v[..k] == (w + rest)[..k];
    }
  }

  predicate HasOpener(t: Tree) {
    t.tag.ArgObjectNode? || t.tag.ArgArrayNode? || t.tag.ArgStringValueNode?
  }

  /** An object, an array and a string open differently: none of them may replace another one. */
  lemma {:induction false} KindsClash(from: seq<Tree>, s: Step)
    requires IsStep(from, s) && s.abandoned.Some? && PlaceOf(s).value.Some?
    requires HasOpener(s.abandoned.value) && HasOpener(PlaceOf(s).value.value)
    requires s.abandoned.value.tag != PlaceOf(s).value.value.tag
    ensures Clash(MappedTrees(Call, from), MappedTrees(Call, s.forest))
  {
    hide ValueJson, CallPlace, IsStep, MappedTrees;
    OpensWith(s.abandoned.value, false);
    OpensWith(PlaceOf(s).value.value, PlaceOf(s).closed);
    ValuesDecide(s);
    StepIff(from, s);
  }

  lemma {:induction false} OpensWith(v: Tree, closed: bool)
    requires HasOpener(v)
    ensures ValueJson(Some(v), closed) != ""
    ensures ValueJson(Some(v), closed)[0]
      == if v.tag.ArgObjectNode? then '{' else if v.tag.ArgArrayNode? then '[' else '"'
  {}

  // ----- Streams -----

  ghost predicate AreSteps(from: seq<Tree>, steps: seq<Step>)
    decreases |steps|
  {
    steps != [] ==> IsStep(from, steps[0]) && AreSteps(steps[0].forest, steps[1..])
  }

  /** Each value given up had been printed as the beginning of what replaced it. */
  predicate NothingLost(steps: seq<Step>) {
    forall i :: 0 <= i < |steps| ==> Continues(steps[i])
  }

  /** Some value given up had been printed in contradiction to what replaced it. */
  predicate Contradicted(steps: seq<Step>) {
    exists i :: 0 <= i < |steps| && Contradicts(steps[i])
  }

  function Parses(steps: seq<Step>): (r: seq<Msg>)
    ensures |r| == |steps|
  {
    if steps == [] then [] else [MappedTrees(Call, steps[0].forest)] + Parses(steps[1..])
  }

  lemma {:induction false} StepsChain(from: seq<Tree>, steps: seq<Step>)
    requires AreSteps(from, steps)
    ensures var p, qs := MappedTrees(Call, from), Parses(steps);
      && Chain(p, qs)
      && (AllKept(p, qs) <==> NothingLost(steps))
      && (SomeClash(p, qs) <==> Contradicted(steps))
    decreases |steps|
  {
    hide IsStep, MappedTrees, Continues, Contradicts, LastReprinted, Kept, Clash;
    if steps != [] {
      var rest := steps[1..];
      StepIff(from, steps[0]);
      StepsChain(steps[0].forest, rest);
      assert Parses(steps)[1..] == Parses(rest);
      assert forall i :: 0 < i < |steps| ==> steps[i] == rest[i - 1];
      assert NothingLost(steps) <==> Continues(steps[0]) && NothingLost(rest) by {
        if NothingLost(steps) {
          assert forall i :: 0 <= i < |rest| ==> rest[i] == steps[i + 1];
        }
      }
      assert Contradicted(steps) <==> Contradicts(steps[0]) || Contradicted(rest) by {
        if i :| 0 <= i < |rest| && Contradicts(rest[i]) {
          assert Contradicts(steps[i + 1]);
        }
      }
    }
  }

  /**
   Over any stream of parses, each of which may give up the last unfinished value of the one
   before it, the server throws exactly when some value given up contradicts what replaced
   it, and the client ends with the server's message exactly when each was only continued.
   */
  lemma {:induction false} StreamDelivers(gen: nat -> string, steps: seq<Step>)
    requires steps != [] && AreSteps([], steps)
    ensures var (end, ds) := RunServer(gen, IDLE, Parses(steps));
      && (ds.Err? <==> Contradicted(steps))
      && (ds.Ok? && ApplyAll(EMPTY_MSG, ds.value) == end.msg <==> NothingLost(steps))
      && (ds.Ok? ==> Holds(end, MappedTrees(Call, steps[|steps| - 1].forest)))
  {
    hide AreSteps, Contradicted, NothingLost;
    StepsChain([], steps);
    assert MappedTrees(Call, []) == EMPTY_MSG && WithIds(EMPTY_MSG, []).toolCalls == [];
    RunIff(gen, IDLE, EMPTY_MSG, Parses(steps));
    LastParse(steps);
  }

  lemma {:induction false} LastParse(steps: seq<Step>)
    requires steps != []
    ensures Parses(steps)[|steps| - 1] == MappedTrees(Call, steps[|steps| - 1].forest)
  {
    hide MappedTrees;
    if |steps| > 1 {
      LastParse(steps[1..]);
    }
  }

  ghost predicate NoneGivenUp(steps: seq<Step>) {
    forall i :: 0 <= i < |steps| ==> steps[i].abandoned.None?
  }

  /** Without unions no value is given up, and every stream is delivered. */
  lemma {:induction false} NoUnionsDeliver(gen: nat -> string, steps: seq<Step>)
    requires steps != [] && AreSteps([], steps) && NoneGivenUp(steps)
    ensures var (end, ds) := RunServer(gen, IDLE, Parses(steps));
      && ds.Ok? && ApplyAll(EMPTY_MSG, ds.value) == end.msg
      && Holds(end, MappedTrees(Call, steps[|steps| - 1].forest))
  {
    hide Parses, RunServer, Holds, MappedTrees, AreSteps;
    StreamDelivers(gen, steps);
  }

  // ----- A union that throws -----

  function CallOf(name: string, argument: Tree): seq<Tree> {
    [Tree(NoRule, ToolNode, "", [Tree(NoRule, ToolNameNode, name, [], false), argument], true)]
  }

  function ArgumentOf(name: string, values: seq<Tree>): Tree {
    Tree(NoRule, ArgNode, "", [Tree(NoRule, ArgNameNode, name, [], false)] + values, true)
  }

  const AS_OBJECT := Tree(NoRule, ArgObjectNode, "", [], true)

  const AS_NUMBER := Tree(NoRule, ArgValueNode, "5", [], true)

  /**
   An argument that is an object or a number: right after its tag it is parsed as an object,
   which the first digit then disproves.
   */
  function UnionSteps(tool: string, name: string): seq<Step> {
    [Step([], None, CallOf(tool, ArgumentOf(name, [AS_OBJECT]))),
     Step(CallOf(tool, ArgumentOf(name, [])), Some(AS_OBJECT), CallOf(tool, ArgumentOf(name, [AS_NUMBER])))]
  }

  lemma {:induction false} UnionAbandons(tool: string, name: string)
    ensures Abandons(Outside, CallOf(tool, ArgumentOf(name, [])), CallOf(tool, ArgumentOf(name, [AS_OBJECT])),
                     Some(AS_OBJECT))
  {
    var q, p := ArgumentOf(name, []), ArgumentOf(name, [AS_OBJECT]);
    var qs, ps := CallOf(tool, q), CallOf(tool, p);
    var nameTree, toolName := Tree(NoRule, ArgNameNode, name, [], false), Tree(NoRule, ToolNameNode, tool, [], false);
    assert q.children == [nameTree] && p.children == [nameTree] + [AS_OBJECT];
    assert Find(q.children, ArgNameNode, MAX_DEPTH) == Some(nameTree);
    assert ValueOf([]).None? && [nameTree][1..] == [] && ValueOf(q.children).None?;
    assert GivesUp(InEntry, q.children, p.children, AS_OBJECT);
    assert Abandons(InEntry, q.children, p.children, Some(AS_OBJECT));
    assert qs[0].children == [toolName, q] && ps[0].children == [toolName, p];
    assert SameButLast(InObject, qs[0].children, ps[0].children);
    assert Abandons(InObject, qs[0].children, ps[0].children, Some(AS_OBJECT));
    assert Find(qs[0].children, ToolNameNode, MAX_DEPTH) == Some(toolName);
    assert SameButLast(Outside, qs, ps);
  }

  lemma {:induction false} UnionCut(tool: string, name: string)
    ensures CutForest(CallOf(tool, ArgumentOf(name, [])), CallOf(tool, ArgumentOf(name, [AS_NUMBER])))
  {
    var q, t := ArgumentOf(name, []), ArgumentOf(name, [AS_NUMBER]);
    var qs, ts := CallOf(tool, q), CallOf(tool, t);
    assert q.children[0] == t.children[0] && |q.children| == 1 && CutOf(q, t);
    assert qs[0].children[0] == ts[0].children[0] && |qs[0].children| == 2;
    assert qs[0].children[1] == q && ts[0].children[1] == t;
    assert CutOf(qs[0], ts[0]);
  }

  lemma {:induction false} UnionClashes(tool: string, name: string)
    ensures Clash(MappedTrees(Call, CallOf(tool, ArgumentOf(name, [AS_OBJECT]))),
                  MappedTrees(Call, CallOf(tool, ArgumentOf(name, [AS_NUMBER]))))
  {
    hide MappedTrees;
    PrintedCall(tool, name, AS_OBJECT);
    PrintedCall(tool, name, AS_NUMBER);
    var before := "{" + Dump(name) + ":";
    assert ValueJson(Some(AS_OBJECT), false) == "{" by {
      assert Collect(AS_OBJECT.children, ArgNode) == [];
      assert "{" + EntriesJson([], true, false) + "" == "{";
    }
    assert (before + "{")[|before|] == '{' && (before + "5")[|before|] == '5';
  }

  /** The two parses are a stream, the number contradicts the object, and so the server throws. */
  lemma {:induction false} UnionThrows(gen: nat -> string, tool: string, name: string)
    ensures var steps := UnionSteps(tool, name);
      AreSteps([], steps) && Contradicted(steps) && RunServer(gen, IDLE, Parses(steps)).1.Err?
  {
    hide MappedTrees, Abandons, CutForest, CallOf, ArgumentOf, RunServer, Contradicts, Parses;
    var steps := UnionSteps(tool, name);
    var first, second := steps[0], steps[1];
    UnionAbandons(tool, name);
    UnionCut(tool, name);
    FirstStep(first.forest);
    assert IsStep(first.forest, second) && IsStep([], first);
    assert steps[1..] == [second] && [second][1..] == [];
    assert AreSteps(second.forest, []) && AreSteps(first.forest, [second]);
    UnionClashes(tool, name);
    StepIff(first.forest, second);
    assert Contradicts(steps[1]);
    StreamDelivers(gen, steps);
  }

  lemma {:induction false} FirstStep(forest: seq<Tree>)
    ensures Abandons(Outside, [], [], None) && CutForest([], forest)
  {}

  lemma {:induction false} PrintedArgument(name: string, value: Tree)
    requires IsValue(value)
    ensures EntryJson(ArgumentOf(name, [value]), true) == Dump(name) + ":" + ValueJson(Some(value), false)
  {
    hide ValueJson, Dump;
    var children := ArgumentOf(name, [value]).children;
    assert Find(children, ArgNameNode, MAX_DEPTH) == Some(children[0]);
    assert children[1..] == [value] && ValueOf(children) == Some(value);
  }

  lemma {:induction false} PrintedCall(tool: string, name: string, value: Tree)
    requires IsValue(value)
    ensures MappedTrees(Call, CallOf(tool, ArgumentOf(name, [value])))
         == Msg("", "", [ToolCall(tool, "{" + Dump(name) + ":" + ValueJson(Some(value), false), "")])
  {
    hide ValueJson, Dump, EntryJson, EntriesJson, ContainerJson;
    var argument := ArgumentOf(name, [value]);
    var tree := CallOf(tool, argument)[0];
    var text := Dump(name) + ":" + ValueJson(Some(value), false);
    assert tree.children[1..] == [argument] && [argument][1..] == [];
    assert Collect(tree.children[0].children, ArgNode) == [] && Collect([], ArgNode) == [];
    assert Collect([argument], ArgNode) == [argument];
    assert Collect(tree.children, ArgNode) == [argument];
    PrintedArgument(name, value);
    OneEntry(argument, true, false);
    assert text != "" && Sep(false) + text == text;
    OpenContainer(true, tree, false);
    NoValue();
    assert "{" + text == "{" + Dump(name) + ":" + ValueJson(Some(value), false);
    assert Find(tree.children, ToolNameNode, MAX_DEPTH) == Some(tree.children[0]);
    assert Visit(Call, EMPTY_MSG, tree).toolCalls == [Call(tree).value];
    VisitOne(tree);
  }

  lemma {:induction false} VisitOne(t: Tree)
    ensures MappedTrees(Call, [t]) == Visit(Call, EMPTY_MSG, t)
  {
    hide Visit;
    assert [t][1..] == [];
    assert VisitAll(Call, EMPTY_MSG, [t]) == VisitAll(Call, Visit(Call, EMPTY_MSG, t), []);
  }
}
