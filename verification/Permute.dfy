/**
 Permutation parsers (chat-peg-parser.cpp, permute): a parser that takes every given
 parser once, in any order, built as ordered choices over bit masks with a memo table.
 */
module Permute {

  datatype Outcome = Fail | Success(end: nat) | NeedMore(end: nat)

  /** A deterministic parser over a fixed input, from a position to its outcome. */
  type Parser = nat -> Outcome

  /** The grammar built from parsers named by index; `Rule` names a memoised choice by its mask. */
  datatype Peg = Eps | Then(i: nat, rest: Peg) | Choice(alternatives: seq<Peg>) | Rule(mask: bv8, body: Peg)

  const MAX_PERMUTE := 6

  // ----- Ordered-choice semantics -----

  function Eval(ps: seq<Parser>, p: Peg, pos: nat): Outcome
    decreases p
  {
    match p
    case Eps => Success(pos)
    case Then(i, rest) =>
      if i >= |ps| then Fail
      else (match ps[i](pos)
            case Success(end) => Eval(ps, rest, end)
            case r => r)
    case Choice(alternatives) => EvalChoice(ps, alternatives, pos)
    case Rule(_, body) => Eval(ps, body, pos)
  }

  /** The first alternative that does not fail. */
  function EvalChoice(ps: seq<Parser>, alternatives: seq<Peg>, pos: nat): Outcome
    decreases alternatives
  {
    if alternatives == [] then Fail
    else
      var r := Eval(ps, alternatives[0], pos);
      if r.Fail? then EvalChoice(ps, alternatives[1..], pos) else r
  }

  // ----- Masks -----

  function Bit(i: nat): bv8
    requires i < MAX_PERMUTE
  {
    if i == 0 then 1 else if i == 1 then 2 else if i == 2 then 4 else if i == 3 then 8 else if i == 4 then 16 else 32
  }

  /** All of the first `n` bits. */
  function Full(n: nat): bv8
    requires 0 < n <= MAX_PERMUTE
  {
    (if n == MAX_PERMUTE then 64 else Bit(n)) - 1
  }

  predicate HasBit(mask: bv8, i: nat)
    requires i < MAX_PERMUTE
  {
    mask & Bit(i) != 0
  }

  function Without(mask: bv8, i: nat): bv8
    requires i < MAX_PERMUTE
  {
    mask & !Bit(i)
  }

  function Members(n: nat, mask: bv8): set<nat>
    requires n <= MAX_PERMUTE
  {
    set i: nat | i < n && HasBit(mask, i)
  }

  /** No bit beyond the first `n`. */
  predicate Within(n: nat, mask: bv8)
    requires 0 < n <= MAX_PERMUTE
  {
    mask & !Full(n) == 0
  }

  lemma BitsAreDisjoint(i: nat, j: nat)
    requires i < MAX_PERMUTE && j < MAX_PERMUTE && i != j
    ensures Bit(i) & Bit(j) == 0
  {}

  lemma MaskOut(mask: bv8, a: bv8, b: bv8)
    ensures (mask & !a) & a == 0
    ensures a & b == 0 ==> (mask & !a) & b == mask & b
  {}

  lemma WithoutBit(mask: bv8, i: nat, j: nat)
    requires i < MAX_PERMUTE && j < MAX_PERMUTE
    ensures HasBit(Without(mask, i), j) <==> HasBit(mask, j) && i != j
  {
    hide Bit;
    MaskOut(mask, Bit(i), Bit(j));
    if i != j {
      BitsAreDisjoint(i, j);
    }
  }

  lemma WithoutMembers(n: nat, mask: bv8, i: nat)
    requires i < n <= MAX_PERMUTE && HasBit(mask, i)
    ensures Members(n, Without(mask, i)) == Members(n, mask) - {i}
    ensures |Members(n, Without(mask, i))| < |Members(n, mask)|
  {
    forall j: nat | j < n ensures HasBit(Without(mask, i), j) <==> HasBit(mask, j) && i != j {
      WithoutBit(mask, i, j);
    }
    assert i in Members(n, mask);
  }

  lemma WithoutWithin(n: nat, mask: bv8, i: nat)
    requires i < n <= MAX_PERMUTE && Within(n, mask)
    ensures Within(n, Without(mask, i))
  {}

  lemma {:induction false} FullMembers(n: nat)
    requires 0 < n <= MAX_PERMUTE
    ensures Within(n, Full(n)) && Members(n, Full(n)) == Indices(n)
  {
    forall i: nat | i < n ensures HasBit(Full(n), i) {}
    IndicesAre(n);
  }

  /** All indices below `n`. */
  function Indices(n: nat): set<nat> {
    if n == 0 then {} else Indices(n - 1) + {n - 1}
  }

  lemma {:induction false} IndicesAre(n: nat)
    ensures forall i: nat :: i in Indices(n) <==> i < n
  {
    if n > 0 {
      IndicesAre(n - 1);
    }
  }

  lemma EmptyMask(n: nat, mask: bv8)
    requires 0 < n <= MAX_PERMUTE && Within(n, mask)
    ensures mask == 0 <==> Members(n, mask) == {}
  {
    if mask == 0 {
      forall i: nat | i < n ensures !HasBit(mask, i) {}
    } else {
      LowestBit(n, mask);
    }
  }

  lemma LowestBit(n: nat, mask: bv8)
    requires 0 < n <= MAX_PERMUTE && Within(n, mask) && mask != 0
    ensures Members(n, mask) != {}
  {
    if HasBit(mask, 0) {
      assert 0 in Members(n, mask);
    } else if n > 1 && HasBit(mask, 1) {
      assert 1 in Members(n, mask);
    } else if n > 2 && HasBit(mask, 2) {
      assert 2 in Members(n, mask);
    } else if n > 3 && HasBit(mask, 3) {
      assert 3 in Members(n, mask);
    } else if n > 4 && HasBit(mask, 4) {
      assert 4 in Members(n, mask);
    } else if n > 5 && HasBit(mask, 5) {
      assert 5 in Members(n, mask);
    } else {
      assert false;
    }
  }

  // ----- The grammar without the memo table -----

  function Remaining(n: nat, mask: bv8): Peg
    requires n <= MAX_PERMUTE
    decreases |Members(n, mask)|, n + 1
  {
    if mask == 0 then Eps else Rule(mask, Choice(Alternatives(n, mask, 0)))
  }

  function Alternatives(n: nat, mask: bv8, i: nat): seq<Peg>
    requires i <= n <= MAX_PERMUTE
    decreases |Members(n, mask)|, n - i
  {
    if i == n then []
    else if HasBit(mask, i) then
      WithoutMembers(n, mask, i);
      [Then(i, Remaining(n, Without(mask, i)))] + Alternatives(n, mask, i + 1)
    else Alternatives(n, mask, i + 1)
  }

  /** The given parsers one after the other. */
  function InOrder(n: nat, i: nat): Peg
    requires i <= n
    decreases n - i
  {
    if i == n then Eps else Then(i, InOrder(n, i + 1))
  }

  function PermutePeg(n: nat): Peg {
    if n < 2 || n > MAX_PERMUTE then InOrder(n, 0) else Remaining(n, Full(n))
  }

  lemma {:induction false} RemainingUnfold(n: nat, mask: bv8)
    requires n <= MAX_PERMUTE
    ensures Remaining(n, mask) == if mask == 0 then Eps else Rule(mask, Choice(Alternatives(n, mask, 0)))
  {}

  lemma AlternativesUnfold(n: nat, mask: bv8, i: nat)
    requires i <= n <= MAX_PERMUTE
    ensures Alternatives(n, mask, i) ==
      if i == n then []
      else (if HasBit(mask, i) then [Then(i, Remaining(n, Without(mask, i)))] else []) + Alternatives(n, mask, i + 1)
  {
    if i < n && !HasBit(mask, i) {
      assert [] + Alternatives(n, mask, i + 1) == Alternatives(n, mask, i + 1);
    }
  }

  // ----- The memoised construction of the source -----

  datatype Key = Key(mask: bv8)

  class Builder {
    const n: nat
    var rules: map<Key, Peg>

    /** The table agrees with the recursion that has no table. */
    ghost predicate Valid()
      reads this
    {
      n <= MAX_PERMUTE && forall m :: m in rules ==> rules[m] == Remaining(n, m.mask)
    }

    constructor (count: nat)
      requires count <= MAX_PERMUTE
      ensures Valid() && n == count && rules == map[]
    {
      n := count;
      rules := map[];
    }

    method RemainingOf(mask: bv8) returns (p: Peg)
      requires Valid()
      modifies this
      ensures Valid() && p == Remaining(n, mask)
      ensures old(rules).Keys <= rules.Keys && (mask != 0 ==> Key(mask) in rules)
      decreases |Members(n, mask)|
    {
      hide Remaining, Alternatives, Bit;
      RemainingUnfold(n, mask);
      if mask == 0 {
        return Eps;
      }
      if Key(mask) in rules {
        return rules[Key(mask)];
      }
      var alternatives := [];
      for i := 0 to n
        invariant Valid() && old(rules).Keys <= rules.Keys
        invariant alternatives + Alternatives(n, mask, i) == Alternatives(n, mask, 0)
      {
        AlternativesUnfold(n, mask, i);
        if mask & Bit(i) != 0 {
          WithoutMembers(n, mask, i);
          var rest := RemainingOf(mask & !Bit(i));
          alternatives := alternatives + [Then(i, rest)];
        }
      }
      AlternativesUnfold(n, mask, n);
      assert alternatives + [] == alternatives;
      p := Rule(mask, Choice(alternatives));
      assert p == Remaining(n, mask);
      rules := rules[Key(mask) := p];
    }
  }

  method PermuteParsers(n: nat) returns (p: Peg)
    ensures p == PermutePeg(n)
  {
    if n == 0 {
      return Eps;
    }
    if n == 1 || n > MAX_PERMUTE {
      var i: nat := n;
      p := Eps;
      while i > 0
        invariant i <= n && p == InOrder(n, i)
      {
        i := i - 1;
        p := Then(i, p);
      }
      return;
    }
    var b := new Builder(n);
    p := b.RemainingOf(Full(n));
  }

  // ----- What a permutation accepts -----

  /** `order` takes each member of `s` exactly once. */
  ghost predicate Ordering(order: seq<nat>, s: set<nat>)
    decreases |order|
  {
    if order == [] then s == {} else order[0] in s && Ordering(order[1..], s - {order[0]})
  }

  function RunOrder(ps: seq<Parser>, order: seq<nat>, pos: nat): Outcome
    decreases |order|
  {
    if order == [] then Success(pos)
    else if order[0] >= |ps| then Fail
    else match ps[order[0]](pos)
      case Success(end) => RunOrder(ps, order[1..], end)
      case r => r
  }

  /** Dictionary order on index sequences. */
  predicate Earlier(a: seq<nat>, b: seq<nat>)
    decreases |a|
  {
    b != [] && (a == [] || a[0] < b[0] || (a[0] == b[0] && Earlier(a[1..], b[1..])))
  }

  /**
   `r` is the outcome of the first ordering of `s` that does not fail, among those that
   start at `from` or later: earlier ones fail, or end the same way on too little input.
   */
  ghost predicate FirstOutcome(ps: seq<Parser>, s: set<nat>, from: nat, pos: nat, r: Outcome, order: seq<nat>) {
    if r.Fail? then
      forall o :: Ordering(o, s) && (o != [] ==> from <= o[0]) ==> RunOrder(ps, o, pos).Fail?
    else
      && Ordering(order, s) && (order != [] ==> from <= order[0])
      && RunOrder(ps, order, pos) == r
      && forall o :: Ordering(o, s) && (o != [] ==> from <= o[0]) && Earlier(o, order)
           ==> RunOrder(ps, o, pos).Fail? || RunOrder(ps, o, pos) == r
  }

  lemma {:induction false} RemainingFirst(ps: seq<Parser>, mask: bv8, pos: nat) returns (order: seq<nat>)
    requires 0 < |ps| <= MAX_PERMUTE && Within(|ps|, mask)
    ensures FirstOutcome(ps, Members(|ps|, mask), 0, pos, Eval(ps, Remaining(|ps|, mask), pos), order)
    decreases |Members(|ps|, mask)|, |ps| + 1
  {
    EmptyMask(|ps|, mask);
    if mask == 0 {
      order := [];
    } else {
      var alternatives := Alternatives(|ps|, mask, 0);
      assert Remaining(|ps|, mask) == Rule(mask, Choice(alternatives));
      assert Eval(ps, Choice(alternatives), pos) == EvalChoice(ps, alternatives, pos);
      order := AlternativesFirst(ps, mask, 0, pos);
    }
  }

  lemma {:induction false} AlternativesFirst(ps: seq<Parser>, mask: bv8, i: nat, pos: nat) returns (order: seq<nat>)
    requires 0 < |ps| <= MAX_PERMUTE && Within(|ps|, mask) && i <= |ps| && Members(|ps|, mask) != {}
    ensures FirstOutcome(ps, Members(|ps|, mask), i, pos, EvalChoice(ps, Alternatives(|ps|, mask, i), pos), order)
    decreases |Members(|ps|, mask)|, |ps| - i
  {
    hide Bit;
    var n := |ps|;
    var s := Members(n, mask);
    if i == n {
      order := [];
    } else {
      order := AlternativesFirst(ps, mask, i + 1, pos);
      if HasBit(mask, i) {
        WithoutMembers(n, mask, i);
        WithoutWithin(n, mask, i);
        assert i in s;
        var rest := Remaining(n, Without(mask, i));
        var later := Alternatives(n, mask, i + 1);
        assert Alternatives(n, mask, i) == [Then(i, rest)] + later;
        assert ([Then(i, rest)] + later)[1..] == later;
        var tail := [];
        if ps[i](pos).Success? {
          tail := RemainingFirst(ps, Without(mask, i), ps[i](pos).end);
        }
        order := ChooseFirst(ps, s, i, pos, Eval(ps, Then(i, rest), pos), EvalChoice(ps, later, pos), tail, order);
      } else {
        assert i !in s;
      }
    }
  }

  /** The alternative that starts with `i` comes before all those that start later. */
  lemma ChooseFirst(ps: seq<Parser>, s: set<nat>, i: nat, pos: nat, head: Outcome, others: Outcome,
                    tail: seq<nat>, otherOrder: seq<nat>) returns (order: seq<nat>)
    requires i in s && i < |ps|
    requires ps[i](pos).Success? ==> FirstOutcome(ps, s - {i}, 0, ps[i](pos).end, head, tail)
    requires !ps[i](pos).Success? ==> head == ps[i](pos)
    requires FirstOutcome(ps, s, i + 1, pos, others, otherOrder)
    ensures FirstOutcome(ps, s, i, pos, if head.Fail? then others else head, order)
  {
    if head.Fail? {
      order := otherOrder;
      forall o | Ordering(o, s) && o != [] && o[0] == i ensures RunOrder(ps, o, pos).Fail? {
        assert Ordering(o[1..], s - {i});
      }
    } else {
      var rest := tail;
      if !ps[i](pos).Success? {
        rest := SomeOrdering(s - {i});
      }
      order := [i] + rest;
      assert order[1..] == rest;
      forall o | Ordering(o, s) && (o != [] ==> i <= o[0]) && Earlier(o, order)
        ensures RunOrder(ps, o, pos).Fail? || RunOrder(ps, o, pos) == head
      {
        assert o != [] && o[0] == i && Ordering(o[1..], s - {i}) && Earlier(o[1..], rest);
      }
    }
  }

  lemma {:induction false} SomeOrdering(s: set<nat>) returns (order: seq<nat>)
    ensures Ordering(order, s)
    decreases s
  {
    if s == {} {
      order := [];
    } else {
      var i :| i in s;
      var rest := SomeOrdering(s - {i});
      order := [i] + rest;
      assert order[1..] == rest;
    }
  }

  /**
   The permutation parser gives the outcome of the first ordering of all its parsers, in
   dictionary order, that does not fail.
   */
  lemma PermuteIsFirstOrdering(ps: seq<Parser>, pos: nat) returns (order: seq<nat>)
    requires 2 <= |ps| <= 6
    ensures FirstOutcome(ps, Indices(|ps|), 0, pos, Eval(ps, PermutePeg(|ps|), pos), order)
  {
    FullMembers(|ps|);
    order := RemainingFirst(ps, Full(|ps|), pos);
  }

  /** It fails exactly when every ordering fails; without short inputs, it succeeds exactly when some ordering does. */
  lemma {:induction false} PermuteAcceptsIff(ps: seq<Parser>, pos: nat)
    requires 2 <= |ps| <= 6
    ensures var all := Indices(|ps|);
      var r := Eval(ps, PermutePeg(|ps|), pos);
      && (!r.Fail? <==> exists o :: Ordering(o, all) && !RunOrder(ps, o, pos).Fail?)
      && (r.Success? ==> exists o :: Ordering(o, all) && RunOrder(ps, o, pos) == r)
      && ((forall i, p :: 0 <= i < |ps| ==> !ps[i](p).NeedMore?) ==>
            (r.Success? <==> exists o :: Ordering(o, all) && RunOrder(ps, o, pos).Success?))
  {
    hide Eval, PermutePeg;
    var all := Indices(|ps|);
    var r := Eval(ps, PermutePeg(|ps|), pos);
    var order := PermuteIsFirstOrdering(ps, pos);
    if !r.Fail? {
      assert Ordering(order, all) && RunOrder(ps, order, pos) == r;
      if forall i, p :: 0 <= i < |ps| ==> !ps[i](p).NeedMore? {
        NeverShort(ps, order, pos);
      }
    }
  }

  lemma {:induction false} NeverShort(ps: seq<Parser>, order: seq<nat>, pos: nat)
    requires forall i, p :: 0 <= i < |ps| ==> !ps[i](p).NeedMore?
    ensures !RunOrder(ps, order, pos).NeedMore?
    decreases |order|
  {
    if order != [] && order[0] < |ps| && ps[order[0]](pos).Success? {
      NeverShort(ps, order[1..], ps[order[0]](pos).end);
    }
  }

  /** Outside 2 to 6 parsers nothing is permuted: they run in the given order. */
  lemma {:induction false} OtherSizesRunInOrder(ps: seq<Parser>, i: nat, pos: nat)
    requires i <= |ps|
    ensures Eval(ps, InOrder(|ps|, i), pos) == RunOrder(ps, seq(|ps| - i, k => k + i), pos)
    decreases |ps| - i
  {
    var order := seq(|ps| - i, k => k + i);
    if i < |ps| && ps[i](pos).Success? {
      OtherSizesRunInOrder(ps, i + 1, ps[i](pos).end);
      assert order[1..] == seq(|ps| - (i + 1), k => k + (i + 1));
    }
  }

  /** So do the parsers of the built grammar: none, one, or more than six. */
  lemma {:induction false} NothingPermuted(ps: seq<Parser>, pos: nat)
    requires |ps| < 2 || 6 < |ps|
    ensures Eval(ps, PermutePeg(|ps|), pos) == RunOrder(ps, seq(|ps|, k => k), pos)
  {
    OtherSizesRunInOrder(ps, 0, pos);
    assert seq(|ps| - 0, k => k + 0) == seq(|ps|, k => k);
  }
}
