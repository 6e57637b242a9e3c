/**
 The server's side of a stream (server-task.cpp, update_chat_msg with set_tool_call_ids
 of chat.h): every parse is given stable call ids and diffed against the one before.
 The end-to-end theorems join it with the mapper and the client.
 */
module ServerRun {
  import opened Prelude
  import opened ChatDiff
  import opened PegMapper
  import opened MapperPrinting
  import opened Streaming

  // ----- Tool call ids -----

  /** The cache after a message with these calls; generated ids come from `gen`, in order. */
  function FillCache(calls: seq<ToolCall>, ids: seq<string>, gen: nat -> string, used: nat): (r: (seq<string>, nat))
    ensures |r.0| >= |calls| && |r.0| >= |ids| && ids <= r.0
    decreases |calls| - |ids|
  {
    if |calls| <= |ids| then (ids, used)
    else
      var own := calls[|ids|].id;
      if own != "" then FillCache(calls, ids + [own], gen, used)
      else FillCache(calls, ids + [gen(used)], gen, used + 1)
  }

  function WithIds(m: Msg, ids: seq<string>): (r: Msg)
    requires |m.toolCalls| <= |ids|
    ensures |r.toolCalls| == |m.toolCalls|
    ensures forall i :: 0 <= i < |m.toolCalls| ==> r.toolCalls[i] == m.toolCalls[i].(id := ids[i])
  {
    m.(toolCalls := seq(|m.toolCalls|, i requires 0 <= i < |m.toolCalls| => m.toolCalls[i].(id := ids[i])))
  }

  predicate IsEmpty(m: Msg) {
    m.content == "" && m.reasoning == "" && m.toolCalls == []
  }

  // ----- One update and a whole run, on values -----

  datatype Server = Server(msg: Msg, ids: seq<string>, used: nat)

  const IDLE := Server(EMPTY_MSG, [], 0)

  /** The message is replaced before the difference is computed, so it stays when that throws. */
  function Update(gen: nat -> string, s: Server, parsed: Msg): (Server, Result<seq<Diff>, DiffError>) {
    if IsEmpty(parsed) then (s, Ok([]))
    else
      var (ids, used) := FillCache(parsed.toolCalls, s.ids, gen, s.used);
      var m := WithIds(parsed, ids);
      (Server(m, ids, used), ComputeDiffs(s.msg, m))
  }

  function RunServer(gen: nat -> string, s: Server, parses: seq<Msg>): (Server, Result<seq<Diff>, DiffError>)
    decreases |parses|
  {
    if parses == [] then (s, Ok([]))
    else
      var (s', d) := Update(gen, s, parses[0]);
      if d.Err? then (s', d)
      else
        var (end, ds) := RunServer(gen, s', parses[1..]);
        (end, if ds.Err? then ds else Ok(d.value + ds.value))
  }

  // ----- The class of the source -----

  class TaskState {
    var chatMsg: Msg
    var generatedToolCallIds: seq<string>
    var used: nat
    const gen: nat -> string

    ghost function Abs(): Server
      reads this
    {
      Server(chatMsg, generatedToolCallIds, used)
    }

    constructor (gen: nat -> string)
      ensures Abs() == IDLE && this.gen == gen
    {
      chatMsg, generatedToolCallIds, used := EMPTY_MSG, [], 0;
      this.gen := gen;
    }

    method SetToolCallIds(msg: Msg) returns (out: Msg)
      modifies this`generatedToolCallIds, this`used
      ensures (generatedToolCallIds, used) == FillCache(msg.toolCalls, old(generatedToolCallIds), gen, old(used))
      ensures out == WithIds(msg, generatedToolCallIds)
    {
      var calls := msg.toolCalls;
      ghost var filled := FillCache(calls, generatedToolCallIds, gen, used);
      for i := 0 to |calls|
        invariant |calls| == |msg.toolCalls| && i <= |generatedToolCallIds|
        invariant forall j :: 0 <= j < i ==> calls[j] == msg.toolCalls[j].(id := generatedToolCallIds[j])
        invariant forall j :: i <= j < |calls| ==> calls[j] == msg.toolCalls[j]
        invariant old(|generatedToolCallIds|) <= |generatedToolCallIds|
        invariant |generatedToolCallIds| > old(|generatedToolCallIds|) ==> |generatedToolCallIds| == i
        invariant FillCache(msg.toolCalls, generatedToolCallIds, gen, used) == filled
      {
        if |generatedToolCallIds| <= i {
          var id := calls[i].id;
          if id == "" {
            id := gen(used);
            used := used + 1;
          }
          generatedToolCallIds := generatedToolCallIds + [id];
        }
        calls := calls[i := calls[i].(id := generatedToolCallIds[i])];
      }
      out := msg.(toolCalls := calls);
      assert out.toolCalls == WithIds(msg, generatedToolCallIds).toolCalls;
    }

    method UpdateChatMsg(parsed: Msg) returns (diffs: Result<seq<Diff>, DiffError>)
      modifies this
      ensures (Abs(), diffs) == Update(gen, old(Abs()), parsed)
    {
      diffs := Ok([]);
      if !IsEmpty(parsed) {
        var prev := chatMsg;
        chatMsg := SetToolCallIds(parsed);
        diffs := ComputeMsgDiffs(prev, chatMsg);
      }
    }
  }

  // ----- Ids never change -----

  /** What every reachable server state satisfies: each call carries the id cached for its index. */
  ghost predicate IdsMatch(s: Server) {
    |s.msg.toolCalls| <= |s.ids| &&
    forall i :: 0 <= i < |s.msg.toolCalls| ==> s.msg.toolCalls[i].id == s.ids[i]
  }

  lemma UpdateKeepsIds(gen: nat -> string, s: Server, parsed: Msg)
    requires IdsMatch(s)
    ensures IdsMatch(Update(gen, s, parsed).0) && s.ids <= Update(gen, s, parsed).0.ids
  {}

  /** Over any run, thrown or not, an id once given to an index is the id of that index at the end. */
  lemma {:induction false} IdsAreStable(gen: nat -> string, s: Server, parses: seq<Msg>)
    requires IdsMatch(s)
    ensures IdsMatch(RunServer(gen, s, parses).0) && s.ids <= RunServer(gen, s, parses).0.ids
    decreases |parses|
  {
    hide Update;
    if parses != [] {
      var s' := Update(gen, s, parses[0]).0;
      UpdateKeepsIds(gen, s, parses[0]);
      IdsAreStable(gen, s', parses[1..]);
    }
  }

  /** The id that call `i` has in the first parse that has the call. */
  function FirstId(parses: seq<Msg>, i: nat): Option<string> {
    if parses == [] then None
    else if i < |parses[0].toolCalls| then Some(parses[0].toolCalls[i].id)
    else FirstId(parses[1..], i)
  }

  /** An id that is the call's own, or a generated one when it has none. */
  ghost predicate IdFor(gen: nat -> string, own: string, id: string) {
    if own != "" then id == own else exists u: nat :: id == gen(u)
  }

  lemma {:induction false} FilledId(calls: seq<ToolCall>, ids: seq<string>, gen: nat -> string, used: nat, i: nat)
    requires |ids| <= i
    ensures var filled := FillCache(calls, ids, gen, used).0;
      if i < |calls| then i < |filled| && IdFor(gen, calls[i].id, filled[i]) else |filled| <= i
    decreases |calls| - |ids|
  {
    if |ids| < |calls| {
      var own := calls[|ids|].id;
      var ids' := ids + [if own != "" then own else gen(used)];
      var used' := if own != "" then used else used + 1;
      assert FillCache(calls, ids, gen, used) == FillCache(calls, ids', gen, used');
      if |ids| < i {
        FilledId(calls, ids', gen, used', i);
      } else {
        assert IdFor(gen, own, ids'[i]);
        assert FillCache(calls, ids', gen, used').0[i] == ids'[i];
      }
    }
  }

  /** The id a call ends with is settled by the first parse that has the call. */
  lemma {:induction false} IdIsFirstSeen(gen: nat -> string, s: Server, parses: seq<Msg>, i: nat)
    requires |s.ids| <= i && IdsMatch(s)
    ensures var end := RunServer(gen, s, parses).0;
      i < |end.ids| ==> FirstId(parses, i).Some? && IdFor(gen, FirstId(parses, i).value, end.ids[i])
    decreases |parses|
  {
    hide IdFor, ComputeDiffs;
    if parses != [] {
      var s' := Update(gen, s, parses[0]).0;
      UpdateKeepsIds(gen, s, parses[0]);
      FilledId(parses[0].toolCalls, s.ids, gen, s.used, i);
      if i < |s'.ids| {
        IdsAreStable(gen, s', parses[1..]);
      } else {
        IdIsFirstSeen(gen, s', parses[1..], i);
      }
    }
  }

  /**
   A call whose parses give it the id `x` or none ends with `x` exactly when the first parse
   that has the call has the id; a parse cut between name and id loses it.
   */
  lemma {:induction false} ParsedIdIff(gen: nat -> string, s: Server, parses: seq<Msg>, i: nat, x: string)
    requires |s.ids| <= i < |RunServer(gen, s, parses).0.ids| && IdsMatch(s)
    requires x != "" && forall u: nat :: gen(u) != x
    requires FirstId(parses, i).Some? ==> FirstId(parses, i).value in ["", x]
    ensures RunServer(gen, s, parses).0.ids[i] == x <==> FirstId(parses, i) == Some(x)
  {
    IdIsFirstSeen(gen, s, parses, i);
  }

  /** The name alone, then the name with its id: the generated id stays. */
  lemma {:induction false} LostId(gen: nat -> string, name: string, x: string)
    ensures var named, identified := ToolCall(name, "{", ""), ToolCall(name, "{", x);
      RunServer(gen, IDLE, [Msg("", "", [named]), Msg("", "", [identified])]).0.ids == [gen(0)]
  {
    var p, q := Msg("", "", [ToolCall(name, "{", "")]), Msg("", "", [ToolCall(name, "{", x)]);
    assert FillCache(p.toolCalls, [gen(0)], gen, 1) == ([gen(0)], 1);
    assert [] + [gen(0)] == [gen(0)] && FillCache(p.toolCalls, [], gen, 0) == ([gen(0)], 1);
    var s := Update(gen, IDLE, p).0;
    assert s.ids == [gen(0)] && Update(gen, IDLE, p).1.Ok?;
    assert Update(gen, s, q).0.ids == [gen(0)];
    assert [p, q][1..] == [q] && [q][1..] == [];
    assert RunServer(gen, s, [q]).0.ids == [gen(0)];
  }

  // ----- Growing parses make extending messages -----

  /** The server holds parse `p` under its cached ids. */
  ghost predicate Holds(s: Server, p: Msg) {
    |p.toolCalls| <= |s.ids| && s.msg == WithIds(p, s.ids)
  }

  lemma HoldsEmpty(s: Server, p: Msg, q: Msg)
    requires Holds(s, p) && IsEmpty(q) && Grows(p, q)
    ensures Holds(s, q)
  {
    assert p == q;
  }

  lemma GrowthExtends(p: Msg, q: Msg, ids: seq<string>, ids': seq<string>)
    requires Grows(p, q) && |p.toolCalls| <= |ids| && |q.toolCalls| <= |ids'| && ids <= ids'
    ensures Extends(WithIds(p, ids), WithIds(q, ids'))
  {
    var n := |p.toolCalls|;
    var a, b := WithIds(p, ids).toolCalls, WithIds(q, ids').toolCalls;
    forall i | 0 <= i < n ensures a[i].id == b[i].id {
      assert ids[i] == ids'[i];
    }
    forall i | 0 <= i < n - 1 ensures a[i] == b[i] {
      assert SameCall(p.toolCalls[i], q.toolCalls[i]);
    }
  }

  lemma UpdateRebuilds(gen: nat -> string, s: Server, p: Msg, q: Msg)
    requires Holds(s, p) && Grows(p, q)
    ensures var (s', d) := Update(gen, s, q);
      Holds(s', q) && d.Ok? && ApplyAll(s.msg, d.value) == s'.msg
  {
    if IsEmpty(q) {
      HoldsEmpty(s, p, q);
    } else {
      var (ids, used) := FillCache(q.toolCalls, s.ids, gen, s.used);
      GrowthExtends(p, q, s.ids, ids);
      PatchIff(s.msg, WithIds(q, ids));
    }
  }

  lemma UpdateThrows(gen: nat -> string, s: Server, p: Msg, q: Msg)
    requires Holds(s, p) && Contradicts(p, q)
    ensures Update(gen, s, q).1.Err?
  {
    var (ids, used) := FillCache(q.toolCalls, s.ids, gen, s.used);
    var n := |p.toolCalls|;
    DiffsExistIff(s.msg, WithIds(q, ids));
    DivergeIsFinal(p.toolCalls[n - 1].arguments, q.toolCalls[n - 1].arguments, "", "");
  }

  // ----- End to end -----

  /** Successive cuts of one stream, the first of them no earlier than `from`. */
  ghost predicate CutChain(ns: seq<Node>, from: Cut, cuts: seq<Cut>)
    requires ValidCut(ns, from)
    decreases |cuts|
  {
    cuts != [] ==> ValidCut(ns, cuts[0]) && Before(from, cuts[0]) && CutChain(ns, cuts[0], cuts[1..])
  }

  /** No two successive cuts make the normaliser take something back. */
  ghost predicate SafeChain(ns: seq<Node>, from: Cut, cuts: seq<Cut>)
    requires ValidCut(ns, from) && CutChain(ns, from, cuts)
    decreases |cuts|
  {
    cuts != [] ==> SafeCuts(ns, from, cuts[0]) && SafeChain(ns, cuts[0], cuts[1..])
  }

  function Parses(ns: seq<Node>, from: Cut, cuts: seq<Cut>): seq<Msg>
    requires ValidCut(ns, from) && CutChain(ns, from, cuts)
    decreases |cuts|
  {
    if cuts == [] then [] else [CutMsg(ns, cuts[0])] + Parses(ns, cuts[0], cuts[1..])
  }

  function LastCut(from: Cut, cuts: seq<Cut>): Cut {
    if cuts == [] then from else cuts[|cuts| - 1]
  }

  /** What the run did: it threw exactly on an unsafe chain, and otherwise the client has the server's message. */
  ghost predicate Delivered(safe: bool, s: Server, last: Msg, end: Server, ds: Result<seq<Diff>, DiffError>) {
    && (ds.Ok? <==> safe)
    && (ds.Ok? ==> ApplyAll(s.msg, ds.value) == end.msg && Holds(end, last))
  }

  lemma {:induction false} LastCutValid(ns: seq<Node>, from: Cut, cuts: seq<Cut>)
    requires ValidCut(ns, from) && CutChain(ns, from, cuts)
    ensures ValidCut(ns, LastCut(from, cuts))
    decreases |cuts|
  {
    if cuts != [] {
      LastCutValid(ns, cuts[0], cuts[1..]);
    }
  }

  lemma {:induction false} RunDelivers(gen: nat -> string, ns: seq<Node>, s: Server, from: Cut, cuts: seq<Cut>)
    requires Disciplined(ns) && ValidCut(ns, from) && CutChain(ns, from, cuts) && Holds(s, CutMsg(ns, from))
    ensures ValidCut(ns, LastCut(from, cuts))
    ensures var (end, ds) := RunServer(gen, s, Parses(ns, from, cuts));
      Delivered(SafeChain(ns, from, cuts), s, CutMsg(ns, LastCut(from, cuts)), end, ds)
    decreases |cuts|
  {
    hide Update, CutMsg, ComputeDiffs, SafeCuts, Holds;
    LastCutValid(ns, from, cuts);
    if cuts != [] {
      var c := cuts[0];
      var q := CutMsg(ns, c);
      var parses := Parses(ns, from, cuts);
      assert parses[1..] == Parses(ns, c, cuts[1..]);
      CutsGrow(ns, from, c);
      if SafeCuts(ns, from, c) {
        UpdateRebuilds(gen, s, CutMsg(ns, from), q);
        var (s', d) := Update(gen, s, q);
        RunDelivers(gen, ns, s', c, cuts[1..]);
        var ds := RunServer(gen, s', parses[1..]).1;
        if ds.Ok? {
          ApplyConcat(s.msg, d.value, ds.value);
        }
      } else {
        UpdateThrows(gen, s, CutMsg(ns, from), q);
        assert parses[0] == q && !SafeChain(ns, from, cuts);
        assert RunServer(gen, s, parses) == Update(gen, s, q);
      }
    }
  }

  const BEGINNING := Cut(0, None)

  lemma {:induction false} CutsDeliver(gen: nat -> string, ns: seq<Node>, cuts: seq<Cut>)
    requires Disciplined(ns) && CutChain(ns, BEGINNING, cuts)
    ensures ValidCut(ns, LastCut(BEGINNING, cuts))
    ensures var (end, ds) := RunServer(gen, IDLE, Parses(ns, BEGINNING, cuts));
      Delivered(SafeChain(ns, BEGINNING, cuts), IDLE, CutMsg(ns, LastCut(BEGINNING, cuts)), end, ds)
  {
    assert CutNodes(ns, BEGINNING) == [];
    assert CutMsg(ns, BEGINNING) == EMPTY_MSG;
    assert WithIds(EMPTY_MSG, []).toolCalls == [];
    RunDelivers(gen, ns, IDLE, BEGINNING, cuts);
  }

  /**
   The node lists of successive parses: cuts of `ns`, each with any idle nodes. A rule begun
   in what might be a delimiter may be there in one parse only, and the text of a node around
   tagged arguments grows from parse to parse.
   */
  ghost predicate SeenAs(ns: seq<Node>, from: Cut, cuts: seq<Cut>, seen: seq<seq<Node>>)
    requires ValidCut(ns, from) && CutChain(ns, from, cuts)
    decreases |cuts|
  {
    && |seen| == |cuts|
    && (cuts != [] ==>
          Busy(seen[0]) == Busy(CutNodes(ns, cuts[0])) && SeenAs(ns, cuts[0], cuts[1..], seen[1..]))
  }

  function MappedEach(seen: seq<seq<Node>>): seq<Msg> {
    if seen == [] then [] else [Mapped(seen[0])] + MappedEach(seen[1..])
  }

  lemma {:induction false} SeenIsParsed(ns: seq<Node>, from: Cut, cuts: seq<Cut>, seen: seq<seq<Node>>)
    requires ValidCut(ns, from) && CutChain(ns, from, cuts) && SeenAs(ns, from, cuts, seen)
    ensures MappedEach(seen) == Parses(ns, from, cuts)
    decreases |cuts|
  {
    hide Mapped, Busy, CutNodes;
    if cuts != [] {
      SameBusy(seen[0], CutNodes(ns, cuts[0]));
      SeenIsParsed(ns, cuts[0], cuts[1..], seen[1..]);
    }
  }

  /**
   For any disciplined node stream and the parses at any successive cuts of it, the server
   throws exactly when some two successive cuts are unsafe; otherwise a client that applies
   every delta ends with the server's message, which is the last parse under the cached ids.
   */
  lemma {:induction false} StreamDelivers(gen: nat -> string, ns: seq<Node>, cuts: seq<Cut>, seen: seq<seq<Node>>)
    requires Disciplined(ns) && CutChain(ns, BEGINNING, cuts) && SeenAs(ns, BEGINNING, cuts, seen)
    ensures ValidCut(ns, LastCut(BEGINNING, cuts))
    ensures var (end, ds) := RunServer(gen, IDLE, MappedEach(seen));
      Delivered(SafeChain(ns, BEGINNING, cuts), IDLE, CutMsg(ns, LastCut(BEGINNING, cuts)), end, ds)
  {
    SeenIsParsed(ns, BEGINNING, cuts, seen);
    CutsDeliver(gen, ns, cuts);
  }

  /**
   End to end: over any safe stream of a well-formed message that reaches its end, nothing
   is thrown and the client holds exactly the plainly printed content, reasoning, names and
   arguments, with the ids of the cache.
   */
  lemma {:induction false} EndToEnd(gen: nat -> string, items: seq<Item>, cuts: seq<Cut>, seen: seq<seq<Node>>)
    requires AllWellFormed(items) && cuts != []
    requires var ns := Nodes(items);
      && CutChain(ns, BEGINNING, cuts) && SafeChain(ns, BEGINNING, cuts) && cuts[|cuts| - 1] == Cut(|ns|, None)
      && SeenAs(ns, BEGINNING, cuts, seen)
    ensures var (end, ds) := RunServer(gen, IDLE, MappedEach(seen));
      && ds.Ok?
      && |Print(items).toolCalls| <= |end.ids|
      && ApplyAll(EMPTY_MSG, ds.value) == end.msg == WithIds(Print(items), end.ids)
  {
    var ns := Nodes(items);
    WellFormedIsDisciplined(items);
    StreamDelivers(gen, ns, cuts, seen);
    assert CutNodes(ns, Cut(|ns|, None)) == ns;
    MapperRefinesPrinter(items);
  }

  /** Argument text around tagged arguments is idle however much of it there is. */
  lemma {:induction false} WrapperIsIdle(text: string, n: nat)
    requires n <= |text| && !StartsObject(TrimTrailing(text))
    ensures IsIdle(Node(ToolArgs, text[..n]))
  {
    TrimTrailingMonotone(text[..n], text);
    var a, b := TrimTrailing(text[..n]), TrimTrailing(text);
    assert a <= b && (a != "" ==> a[0] == b[0]);
  }
}
