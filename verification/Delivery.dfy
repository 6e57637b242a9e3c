/**
 Runs in which the last call's arguments may be printed anew from one parse to the next
 (server-task.cpp, update_chat_msg over compute_diffs): when the server throws, and when
 the client ends with the server's message. A text that got shorter is not thrown, but the
 client keeps what was sent, so from then on it holds more than the server does.
 */
module Delivery {
  import opened ChatDiff
  import opened Streaming
  import opened ServerRun

  /** `q` extends `p`, except that the last call of `p` may have any arguments. */
  ghost predicate LastReprinted(p: Msg, q: Msg) {
    var n := |p.toolCalls|;
    && p.content <= q.content
    && p.reasoning <= q.reasoning
    && n <= |q.toolCalls|
    && (forall i :: 0 <= i < n - 1 ==> SameCall(p.toolCalls[i], q.toolCalls[i]))
    && (n > 0 ==> p.toolCalls[n - 1].name == q.toolCalls[n - 1].name)
  }

  /** The arguments of the last call of `p` are contradicted. */
  predicate Clash(p: Msg, q: Msg) {
    var n := |p.toolCalls|;
    0 < n <= |q.toolCalls| && !Comparable(p.toolCalls[n - 1].arguments, q.toolCalls[n - 1].arguments)
  }

  /** The arguments of the last call of `p` are only added to. */
  predicate Kept(p: Msg, q: Msg) {
    var n := |p.toolCalls|;
    0 < n <= |q.toolCalls| ==> p.toolCalls[n - 1].arguments <= q.toolCalls[n - 1].arguments
  }

  ghost predicate Chain(p: Msg, qs: seq<Msg>)
    decreases |qs|
  {
    qs != [] ==> LastReprinted(p, qs[0]) && Chain(qs[0], qs[1..])
  }

  predicate SomeClash(p: Msg, qs: seq<Msg>)
    decreases |qs|
  {
    qs != [] && (Clash(p, qs[0]) || SomeClash(qs[0], qs[1..]))
  }

  predicate AllKept(p: Msg, qs: seq<Msg>)
    decreases |qs|
  {
    qs != [] ==> Kept(p, qs[0]) && AllKept(qs[0], qs[1..])
  }

  // ----- How much text the client holds -----

  function CallsLength(calls: seq<ToolCall>): nat {
    if calls == [] then 0 else |calls[0].arguments| + CallsLength(calls[1..])
  }

  function TextLength(m: Msg): nat {
    |m.content| + |m.reasoning| + CallsLength(m.toolCalls)
  }

  function DiffLength(d: Diff): nat {
    |d.contentDelta| + |d.reasoningDelta| + if d.index.Some? then |d.callDelta.arguments| else 0
  }

  function DiffsLength(ds: seq<Diff>): nat {
    if ds == [] then 0 else DiffLength(ds[0]) + DiffsLength(ds[1..])
  }

  lemma {:induction false} CallsLengthConcat(a: seq<ToolCall>, b: seq<ToolCall>)
    ensures CallsLength(a + b) == CallsLength(a) + CallsLength(b)
  {
    if a == [] {
      assert a + b == b;
    } else {
      assert (a + b)[1..] == a[1..] + b;
      CallsLengthConcat(a[1..], b);
    }
  }

  lemma {:induction false} DiffsLengthConcat(a: seq<Diff>, b: seq<Diff>)
    ensures DiffsLength(a + b) == DiffsLength(a) + DiffsLength(b)
  {
    if a == [] {
      assert a + b == b;
    } else {
      assert (a + b)[1..] == a[1..] + b;
      DiffsLengthConcat(a[1..], b);
    }
  }

  /** Two lists of calls whose arguments differ in length at most at `k`. */
  lemma {:induction false} CallsLengthAt(a: seq<ToolCall>, b: seq<ToolCall>, k: nat)
    requires |a| == |b| && k < |a|
    requires forall i :: 0 <= i < |a| && i != k ==> |a[i].arguments| == |b[i].arguments|
    ensures CallsLength(a) - CallsLength(b) == |a[k].arguments| - |b[k].arguments|
  {
    if k > 0 {
      CallsLengthAt(a[1..], b[1..], k - 1);
    } else {
      CallsLengthSame(a[1..], b[1..]);
    }
  }

  lemma {:induction false} CallsLengthSame(a: seq<ToolCall>, b: seq<ToolCall>)
    requires |a| == |b| && forall i :: 0 <= i < |a| ==> |a[i].arguments| == |b[i].arguments|
    ensures CallsLength(a) == CallsLength(b)
  {
    if a != [] {
      CallsLengthSame(a[1..], b[1..]);
    }
  }

  lemma ApplyDiffLength(m: Msg, d: Diff)
    ensures TextLength(ApplyDiff(m, d)) == TextLength(m) + DiffLength(d)
  {
    match d.index
    case None =>
    case Some(i) =>
      var calls := m.toolCalls;
      if i < |calls| {
        CallsLengthAt(calls[i := ApplyCall(calls[i], d.callDelta)], calls, i);
      } else {
        CallsLengthConcat(calls, [d.callDelta]);
        assert [d.callDelta][1..] == [];
      }
  }

  lemma {:induction false} ApplyLength(m: Msg, ds: seq<Diff>)
    ensures TextLength(ApplyAll(m, ds)) == TextLength(m) + DiffsLength(ds)
    decreases |ds|
  {
    hide TextLength, ApplyDiff, DiffLength;
    if ds != [] {
      ApplyDiffLength(m, ds[0]);
      ApplyLength(ApplyDiff(m, ds[0]), ds[1..]);
    }
  }

  // ----- One update -----

  /** The client holds at least as much text as the server, and the same exactly when all was kept. */
  lemma PatchLength(p: Msg, q: Msg)
    requires LastReprinted(p, q) && ComputeDiffs(p, q).Ok?
    ensures var ds := ComputeDiffs(p, q).value;
      && TextLength(p) + DiffsLength(ds) >= TextLength(q)
      && (TextLength(p) + DiffsLength(ds) == TextLength(q) <==> Kept(p, q))
  {
    hide ComputeDiffs;
    var ds, n := ComputeDiffs(p, q).value, |p.toolCalls|;
    ApplyLength(p, ds);
    ApplyDiffsIsPatched(p, q);
    DiffsExistIff(p, q);
    DiffReaches(p.content, q.content);
    DiffReaches(p.reasoning, q.reasoning);
    var calls := PatchedCalls(p.toolCalls, q.toolCalls);
    if n == 0 {
      assert calls == q.toolCalls;
    } else {
      forall i | 0 <= i < |calls| && i != n - 1 ensures |calls[i].arguments| == |q.toolCalls[i].arguments| {
        if i < n - 1 {
          assert SameCall(p.toolCalls[i], q.toolCalls[i]);
        }
      }
      CallsLengthAt(calls, q.toolCalls, n - 1);
      DiffReaches(p.toolCalls[n - 1].arguments, q.toolCalls[n - 1].arguments);
    }
  }

  lemma WithIdsReprinted(p: Msg, q: Msg, ids: seq<string>, ids': seq<string>)
    requires LastReprinted(p, q) && |p.toolCalls| <= |ids| && |q.toolCalls| <= |ids'|
    ensures LastReprinted(WithIds(p, ids), WithIds(q, ids'))
    ensures Kept(WithIds(p, ids), WithIds(q, ids')) == Kept(p, q)
    ensures Clash(WithIds(p, ids), WithIds(q, ids')) == Clash(p, q)
  {
    var a, b := WithIds(p, ids).toolCalls, WithIds(q, ids').toolCalls;
    forall i | 0 <= i < |a| - 1 ensures SameCall(a[i], b[i]) {
      assert SameCall(p.toolCalls[i], q.toolCalls[i]);
    }
  }

  lemma KeptGrows(p: Msg, q: Msg)
    requires LastReprinted(p, q)
    ensures Kept(p, q) <==> Grows(p, q)
  {}

  lemma UpdateIff(gen: nat -> string, s: Server, p: Msg, q: Msg)
    requires Holds(s, p) && LastReprinted(p, q)
    ensures var (s', d) := Update(gen, s, q);
      && Holds(s', q)
      && (d.Err? <==> Clash(p, q))
      && (d.Ok? ==>
            && TextLength(s.msg) + DiffsLength(d.value) >= TextLength(s'.msg)
            && (TextLength(s.msg) + DiffsLength(d.value) == TextLength(s'.msg) <==> Kept(p, q)))
      && (Kept(p, q) ==> d.Ok? && ApplyAll(s.msg, d.value) == s'.msg)
  {
    KeptGrows(p, q);
    if IsEmpty(q) {
      assert p == q;
    } else {
      var (ids, used) := FillCache(q.toolCalls, s.ids, gen, s.used);
      var m := WithIds(q, ids);
      WithIdsReprinted(p, q, s.ids, ids);
      DiffsExistIff(s.msg, m);
      if ComputeDiffs(s.msg, m).Ok? {
        PatchLength(s.msg, m);
      }
      if Kept(p, q) {
        UpdateRebuilds(gen, s, p, q);
      }
    }
  }

  // ----- Whole runs -----

  lemma {:induction false} RunLengths(gen: nat -> string, s: Server, p: Msg, qs: seq<Msg>)
    requires Holds(s, p) && Chain(p, qs)
    ensures var (end, ds) := RunServer(gen, s, qs);
      && (ds.Err? <==> SomeClash(p, qs))
      && (ds.Ok? ==>
            && Holds(end, if qs == [] then p else qs[|qs| - 1])
            && TextLength(s.msg) + DiffsLength(ds.value) >= TextLength(end.msg)
            && (TextLength(s.msg) + DiffsLength(ds.value) == TextLength(end.msg) <==> AllKept(p, qs)))
      && (AllKept(p, qs) ==> ds.Ok? && ApplyAll(s.msg, ds.value) == end.msg)
    decreases |qs|
  {
    hide Update, Clash, Kept, Holds, LastReprinted, TextLength;
    if qs != [] {
      UpdateIff(gen, s, p, qs[0]);
      KeptIsNoClash(p, qs[0]);
      var (s', d) := Update(gen, s, qs[0]);
      if d.Ok? {
        RunLengths(gen, s', qs[0], qs[1..]);
        var ds := RunServer(gen, s', qs[1..]).1;
        if ds.Ok? {
          DiffsLengthConcat(d.value, ds.value);
          ApplyConcat(s.msg, d.value, ds.value);
        }
      }
    }
  }

  lemma KeptIsNoClash(p: Msg, q: Msg)
    ensures Kept(p, q) ==> !Clash(p, q)
  {}

  /**
   A run throws exactly when some two successive parses contradict each other, and it
   brings the client to the server's message exactly when no parse takes anything back.
   */
  lemma RunIff(gen: nat -> string, s: Server, p: Msg, qs: seq<Msg>)
    requires Holds(s, p) && Chain(p, qs)
    ensures var (end, ds) := RunServer(gen, s, qs);
      && (ds.Err? <==> SomeClash(p, qs))
      && (ds.Ok? && ApplyAll(s.msg, ds.value) == end.msg <==> AllKept(p, qs))
      && (ds.Ok? ==> Holds(end, if qs == [] then p else qs[|qs| - 1]))
  {
    hide RunServer, SomeClash, AllKept, Chain, Holds, TextLength;
    RunLengths(gen, s, p, qs);
    var ds := RunServer(gen, s, qs).1;
    if ds.Ok? {
      ApplyLength(s.msg, ds.value);
    }
  }
}
