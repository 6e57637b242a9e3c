/**
 What the id cache promises beyond keeping its ids (chat.h, set_tool_call_ids, and
 server-task.cpp, update_chat_msg): generated ids are taken in order, each once, and
 empty parses leave no trace.
 */
module ServerIds {
  import opened Prelude
  import opened ChatDiff
  import opened ServerRun

  predicate FirstHasNoId(parses: seq<Msg>, i: nat) {
    FirstId(parses, i) == Some("")
  }

  /** The number of calls from `a` up to `b` that had no id when first seen. */
  function Blanks(parses: seq<Msg>, a: nat, b: nat): (n: nat)
    requires a <= b
    decreases b - a
  {
    if a == b then 0 else (if FirstHasNoId(parses, a) then 1 else 0) + Blanks(parses, a + 1, b)
  }

  lemma {:induction false} BlanksSplit(parses: seq<Msg>, a: nat, b: nat, c: nat)
    requires a <= b <= c
    ensures Blanks(parses, a, c) == Blanks(parses, a, b) + Blanks(parses, b, c)
    decreases b - a
  {
    if a < b {
      BlanksSplit(parses, a + 1, b, c);
    }
  }

  lemma {:induction false} BlanksLater(parses: seq<Msg>, a: nat, b: nat)
    requires parses != [] && |parses[0].toolCalls| <= a <= b
    ensures Blanks(parses, a, b) == Blanks(parses[1..], a, b)
    decreases b - a
  {
    if a < b {
      BlanksLater(parses, a + 1, b);
    }
  }

  /** The first parse of a call without an id takes the next generated one. */
  lemma {:induction false} FilledInOrder(parses: seq<Msg>, ids: seq<string>, gen: nat -> string, used: nat)
    requires parses != [] && |ids| <= |parses[0].toolCalls|
    ensures var n := |parses[0].toolCalls|;
      var (filled, used') := FillCache(parses[0].toolCalls, ids, gen, used);
      && |filled| == n && used' == used + Blanks(parses, |ids|, n)
      && forall i: nat :: |ids| <= i < n && FirstHasNoId(parses, i) ==>
           filled[i] == gen(used + Blanks(parses, |ids|, i))
    decreases |parses[0].toolCalls| - |ids|
  {
    var calls := parses[0].toolCalls;
    if |ids| < |calls| {
      var own := calls[|ids|].id;
      var ids' := ids + [if own != "" then own else gen(used)];
      var used' := if own != "" then used else used + 1;
      var filled := FillCache(calls, ids, gen, used);
      assert filled == FillCache(calls, ids', gen, used');
      FilledInOrder(parses, ids', gen, used');
      assert filled.0[|ids|] == ids'[|ids|];
    }
  }

  /** What one parse does to the cache. */
  lemma {:induction false} UpdateInOrder(gen: nat -> string, s: Server, parses: seq<Msg>)
    requires parses != []
    ensures var (s', n) := (Update(gen, s, parses[0]).0, |parses[0].toolCalls|);
      && s.ids <= s'.ids && |s'.ids| == Larger(|s.ids|, n)
      && s'.used == s.used + Blanks(parses, |s.ids|, |s'.ids|)
      && forall i: nat :: |s.ids| <= i < |s'.ids| && FirstHasNoId(parses, i) ==>
           s'.ids[i] == gen(s.used + Blanks(parses, |s.ids|, i))
  {
    hide ComputeDiffs, FirstHasNoId, WithIds;
    if |s.ids| <= |parses[0].toolCalls| {
      FilledInOrder(parses, s.ids, gen, s.used);
    }
  }

  function Larger(a: nat, b: nat): nat {
    if a < b then b else a
  }

  /**
   A call that had no id when first seen ends with the generated id whose number is that of
   such calls before it: no generated id is left out or used twice.
   */
  lemma {:induction false} GeneratedInOrder(gen: nat -> string, s: Server, parses: seq<Msg>, i: nat)
    requires IdsMatch(s) && |s.ids| <= i < |RunServer(gen, s, parses).0.ids| && FirstHasNoId(parses, i)
    ensures RunServer(gen, s, parses).0.ids[i] == gen(s.used + Blanks(parses, |s.ids|, i))
    decreases |parses|
  {
    hide Update, IdsMatch, Blanks;
    if parses != [] {
      var s' := Update(gen, s, parses[0]).0;
      UpdateKeepsIds(gen, s, parses[0]);
      UpdateInOrder(gen, s, parses);
      if i < |s'.ids| {
        IdsAreStable(gen, s', parses[1..]);
      } else {
        BlanksSplit(parses, |s.ids|, |s'.ids|, i);
        BlanksLater(parses, |s'.ids|, i);
        GeneratedInOrder(gen, s', parses[1..], i);
      }
    }
  }

  /** With a generator that never repeats itself, no two calls share a generated id. */
  lemma {:induction false} GeneratedOnce(gen: nat -> string, parses: seq<Msg>, i: nat, j: nat)
    requires forall u: nat, v: nat :: gen(u) == gen(v) ==> u == v
    requires i < j < |RunServer(gen, IDLE, parses).0.ids| && FirstHasNoId(parses, i) && FirstHasNoId(parses, j)
    ensures var ids := RunServer(gen, IDLE, parses).0.ids; ids[i] != ids[j]
  {
    GeneratedInOrder(gen, IDLE, parses, i);
    GeneratedInOrder(gen, IDLE, parses, j);
    BlanksSplit(parses, 0, i, j);
    assert Blanks(parses, i, j) > 0;
  }

  /** The parses that hold anything at all. */
  function NonEmpty(parses: seq<Msg>): seq<Msg> {
    if parses == [] then []
    else
      var p := parses[0];
      (if p.content == "" && p.reasoning == "" && p.toolCalls == [] then [] else [p]) + NonEmpty(parses[1..])
  }

  /** Empty parses change neither the server nor what is sent. */
  lemma {:induction false} EmptyParsesAreIdle(gen: nat -> string, s: Server, parses: seq<Msg>)
    ensures RunServer(gen, s, parses) == RunServer(gen, s, NonEmpty(parses))
    decreases |parses|
  {
    hide FillCache, ComputeDiffs;
    if parses != [] {
      var p, rest := parses[0], NonEmpty(parses[1..]);
      EmptyParsesAreIdle(gen, Update(gen, s, p).0, parses[1..]);
      if IsEmpty(p) {
        assert NonEmpty(parses) == rest;
        assert forall ds: seq<Diff> :: [] + ds == ds;
      } else {
        assert NonEmpty(parses) == [p] + rest && ([p] + rest)[1..] == rest;
      }
    }
  }
}
