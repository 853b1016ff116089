/** The backtracking linearizability checker: a search for a serial order that
    extends the real-time order and that a sequential specification accepts.
 */
module Linearizability {
  import opened Journals
  import opened Ordering

  /** A sequential specification: the next state, or a rejection. */
  type Step<!S, !Op> = (S, Op) -> Option<S>

  // ----- what a serial order is

  predicate InRange(xs: seq<nat>, n: nat) {
    forall i :: 0 <= i < |xs| ==> xs[i] < n
  }

  /** The state after applying operations in the given order, if all are accepted. */
  function Run<S, Op>(ops: seq<Op>, step: Step<S, Op>, s: S, order: seq<nat>): Option<S>
    requires InRange(order, |ops|)
  {
    if order == [] then Some(s)
    else
      var before := order[..|order| - 1];
      match Run(ops, step, s, before)
      case None => None
      case Some(t) => step(t, ops[order[|order| - 1]])
  }

  /** Every operation comes after its predecessors. */
  ghost predicate Respects(preds: seq<seq<nat>>, order: seq<nat>)
    requires InRange(order, |preds|)
  {
    forall i, p :: 0 <= i < |order| && p in preds[order[i]] ==> p in order[..i]
  }

  /** A legal prefix of a serial order. */
  ghost predicate Legal<S, Op>(ops: seq<Op>, preds: seq<seq<nat>>, step: Step<S, Op>, s: S, order: seq<nat>)
    requires |ops| == |preds|
  {
    InRange(order, |ops|) && Distinct(order) && Respects(preds, order) && Run(ops, step, s, order).Some?
  }

  /** All operations, once each, in an order the specification accepts. */
  ghost predicate Linearization<S, Op>(ops: seq<Op>, preds: seq<seq<nat>>, step: Step<S, Op>, s: S, order: seq<nat>)
    requires |ops| == |preds|
  {
    Legal(ops, preds, step, s, order) && |order| == |ops|
  }

  /** Every non-empty group of operations has one without a predecessor inside it. */
  ghost predicate Acyclic(preds: seq<seq<nat>>) {
    forall group :: IsGroup(preds, group) ==> HasFirst(preds, group)
  }

  ghost predicate IsGroup(preds: seq<seq<nat>>, group: set<nat>) {
    group != {} && forall i :: i in group ==> i < |preds|
  }

  ghost predicate HasFirst(preds: seq<seq<nat>>, group: set<nat>)
    requires IsGroup(preds, group)
  {
    exists i :: i in group && forall p :: p in preds[i] ==> p !in group
  }

  datatype LinFailure = LinFailure(prefix: seq<nat>, index: nat)

  /** A legal prefix, and an operation whose turn it could be that is rejected. */
  ghost predicate Stuck<S, Op>(ops: seq<Op>, preds: seq<seq<nat>>, step: Step<S, Op>, s: S, f: LinFailure)
    requires |ops| == |preds|
  {
    && Legal(ops, preds, step, s, f.prefix)
    && f.index < |ops| && f.index !in f.prefix && (forall p :: p in preds[f.index] ==> p in f.prefix)
    && step(Run(ops, step, s, f.prefix).value, ops[f.index]).None?
  }

  lemma LegalPrefix<S, Op>(ops: seq<Op>, preds: seq<seq<nat>>, step: Step<S, Op>, s: S, order: seq<nat>, i: nat)
    requires |ops| == |preds| && Legal(ops, preds, step, s, order) && i <= |order|
    ensures Legal(ops, preds, step, s, order[..i])
    decreases |order| - i
  {
    if i < |order| {
      LegalPrefix(ops, preds, step, s, order, i + 1);
      var longer := order[..i + 1];
      assert longer[..i] == order[..i];
      assert Run(ops, step, s, order[..i]).Some?;
      forall k, p | 0 <= k < i && p in preds[order[..i][k]]
        ensures p in order[..i][..k]
      {
        assert order[..i][..k] == order[..k];
      }
    } else {
      assert order[..i] == order;
    }
  }

  lemma RunSnoc<S, Op>(ops: seq<Op>, step: Step<S, Op>, s: S, order: seq<nat>, x: nat)
    requires InRange(order, |ops|) && x < |ops| && Run(ops, step, s, order).Some?
    ensures Run(ops, step, s, order + [x]) == step(Run(ops, step, s, order).value, ops[x])
  {
  }

  lemma LegalSnoc<S, Op>(ops: seq<Op>, preds: seq<seq<nat>>, step: Step<S, Op>, s: S, order: seq<nat>, x: nat)
    requires |ops| == |preds| && Legal(ops, preds, step, s, order) && x < |ops| && x !in order
    requires (forall p :: p in preds[x] ==> p in order) && step(Run(ops, step, s, order).value, ops[x]).Some?
    ensures Legal(ops, preds, step, s, order + [x])
    ensures Run(ops, step, s, order + [x]) == step(Run(ops, step, s, order).value, ops[x])
  {
    RunSnoc(ops, step, s, order, x);
    RespectsSnoc(preds, order, x);
    assert forall k :: 0 <= k < |order| ==> order[k] != x;
  }

  lemma RespectsSnoc(preds: seq<seq<nat>>, order: seq<nat>, x: nat)
    requires InRange(order, |preds|) && Respects(preds, order) && x < |preds|
             && forall p :: p in preds[x] ==> p in order
    ensures Respects(preds, order + [x])
  {
    var longer := order + [x];
    forall i, p | 0 <= i < |longer| && p in preds[longer[i]]
      ensures p in longer[..i]
    {
      if i < |order| {
        assert longer[..i] == order[..i];
      } else {
        assert longer[..i] == order;
      }
    }
  }

  // ----- counting

  function Range(n: nat): set<nat> {
    if n == 0 then {} else Range(n - 1) + {n - 1}
  }

  lemma {:induction false} RangeFacts(n: nat)
    ensures |Range(n)| == n && forall i :: i in Range(n) <==> 0 <= i < n
  {
    if n > 0 { RangeFacts(n - 1); }
  }

  lemma {:induction false} DistinctSize(xs: seq<nat>)
    requires Distinct(xs)
    ensures |Elements(xs)| == |xs|
  {
    if xs != [] {
      var init, last := xs[..|xs| - 1], xs[|xs| - 1];
      DistinctSize(init);
      assert Elements(xs) == Elements(init) + {last};
    }
  }

  /** A duplicate-free list of indices below `n` has at most `n` members, and `n`
      exactly when it names them all. */
  lemma Pigeonhole(xs: seq<nat>, n: nat)
    requires InRange(xs, n) && Distinct(xs)
    ensures |xs| <= n
    ensures |xs| == n <==> forall i: nat :: i < n ==> i in xs
  {
    DistinctSize(xs);
    RangeFacts(n);
    assert Elements(xs) <= Range(n);
    SubsetSize(Elements(xs), Range(n));
    if forall i: nat :: i < n ==> i in xs {
      assert Range(n) <= Elements(xs);
      SubsetSize(Range(n), Elements(xs));
    }
    if |xs| == n {
      forall i: nat | i < n ensures i in xs { assert i in Elements(xs); }
    }
  }

  // ----- the search

  class Search<S, Op> {
    const ops: seq<Op>
    const preds: seq<seq<nat>>
    const step: Step<S, Op>
    const start: S
    var pending: seq<bool>
    var serialized: seq<nat>
    var failure: Option<LinFailure>

    constructor (ops: seq<Op>, preds: seq<seq<nat>>, step: Step<S, Op>, start: S)
      requires |preds| == |ops| && forall i :: 0 <= i < |preds| ==> InRange(preds[i], |ops|)
      ensures Valid() && this.ops == ops && this.preds == preds && this.step == step && this.start == start
      ensures serialized == [] && failure == None
    {
      this.ops, this.preds, this.step, this.start := ops, preds, step, start;
      pending := seq(|ops|, i => true);
      serialized, failure := [], None;
    }

    /** The open operations are those not serialized yet, and the serialized ones
        form a legal prefix. */
    ghost predicate Fits(open: seq<bool>, done: seq<nat>) {
      && |preds| == |ops| == |open|
      && (forall i :: 0 <= i < |preds| ==> InRange(preds[i], |ops|))
      && Legal(ops, preds, step, start, done)
      && (forall i: nat :: i < |open| ==> (open[i] <==> i !in done))
    }

    ghost predicate Real(f: Option<LinFailure>) {
      |preds| == |ops| && (f.Some? ==> Stuck(ops, preds, step, start, f.value))
    }

    ghost predicate Valid()
      reads this
    {
      Fits(pending, serialized) && Real(failure)
    }

    ghost predicate Serial(order: seq<nat>) {
      |preds| == |ops| && Linearization(ops, preds, step, start, order)
    }

    /** No linearization extends the prefix. */
    ghost predicate Dead(prefix: seq<nat>) {
      forall order :: Serial(order) ==> !(prefix <= order)
    }

    /** No linearization extends the prefix with one of the first `n` operations. */
    ghost predicate RuledOut(prefix: seq<nat>, n: nat) {
      forall order :: Serial(order) && |prefix| < |order| && prefix <= order ==> order[|prefix|] >= n
    }

    predicate Ready(i: nat)
      reads this`pending
      requires i < |preds| && InRange(preds[i], |pending|)
    {
      forall k :: 0 <= k < |preds[i]| ==> !pending[preds[i][k]]
    }

    lemma ReadyMeans(i: nat)
      requires Valid() && i < |ops|
      ensures Ready(i) <==> forall p :: p in preds[i] ==> p in serialized
    {
    }

    /** The next operation of any linearization is open, ready and accepted. */
    lemma NextIsCandidate(state: S, order: seq<nat>)
      requires Valid() && Run(ops, step, start, serialized) == Some(state)
      requires Serial(order) && |serialized| < |order| && serialized <= order
      ensures order[|serialized|] < |ops| && Candidate(state, order[|serialized|]).Some?
    {
      var n := |serialized|;
      var x := order[n];
      assert serialized == order[..n];
      assert x !in order[..n];
      ReadyMeans(x);
      LegalPrefix(ops, preds, step, start, order, n + 1);
      assert order[..n + 1][..n] == order[..n];
    }

    /** One more operation is ruled out. */
    lemma RuleOut(state: S, i: nat)
      requires Valid() && Run(ops, step, start, serialized) == Some(state) && i < |ops| && RuledOut(serialized, i)
      requires Candidate(state, i).Some? ==> Dead(serialized + [i])
      ensures RuledOut(serialized, i + 1)
    {
      forall order | Serial(order) && |serialized| < |order| && serialized <= order
        ensures order[|serialized|] >= i + 1
      {
        NextIsCandidate(state, order);
        assert serialized + [order[|serialized|]] <= order;
      }
    }

    /** With every operation ruled out, no linearization extends the prefix. */
    lemma AllRuledOut()
      requires Valid() && RuledOut(serialized, |ops|) && |serialized| < |ops|
      ensures Dead(serialized)
    {
    }

    /** Placing a candidate keeps the bookkeeping. */
    lemma PlaceFits(state: S, i: nat)
      requires Valid() && Run(ops, step, start, serialized) == Some(state) && i < |ops| && Candidate(state, i).Some?
      ensures Fits(pending[i := false], serialized + [i])
              && Run(ops, step, start, serialized + [i]) == Candidate(state, i)
      ensures |serialized| < |ops|
    {
      ReadyMeans(i);
      LegalSnoc(ops, preds, step, start, serialized, i);
      Pigeonhole(serialized + [i], |ops|);
      assert forall k :: k in serialized + [i] <==> k in serialized || k == i;
    }

    /** Record the first open and ready operation the specification rejects. */
    method RecordFailure(state: S)
      requires Valid() && Run(ops, step, start, serialized) == Some(state)
      modifies this`failure
      ensures Valid()
      ensures old(failure).Some? ==> failure == old(failure)
      ensures failure.None? ==> forall i: nat :: i < |ops| && pending[i] && Ready(i) ==> step(state, ops[i]).Some?
      ensures old(failure).None? && failure.Some? ==>
                && failure.value.prefix == serialized && failure.value.index < |ops|
                && pending[failure.value.index] && Ready(failure.value.index)
                && step(state, ops[failure.value.index]).None?
                && forall i: nat :: i < failure.value.index && pending[i] && Ready(i) ==> step(state, ops[i]).Some?
    {
      if failure.Some? {
        return;
      }
      var i := 0;
      while i < |ops|
        invariant 0 <= i <= |ops| && failure.None?
        invariant forall k: nat :: k < i && pending[k] && Ready(k) ==> step(state, ops[k]).Some?
      {
        if pending[i] && Ready(i) && step(state, ops[i]).None? {
          ReadyMeans(i);
          assert Stuck(ops, preds, step, start, LinFailure(serialized, i));
          failure := Some(LinFailure(serialized, i));
          return;
        }
        i := i + 1;
      }
    }

    /** Among acyclic predecessors some open operation is ready. */
    lemma SomeReady()
      requires Valid() && Acyclic(preds) && exists i: nat :: i < |pending| && pending[i]
      ensures exists i: nat :: i < |ops| && pending[i] && Ready(i)
    {
      var group := set i: nat | i < |pending| && pending[i];
      var w: nat :| w < |pending| && pending[w];
      assert w in group;
      assert IsGroup(preds, group);
      assert HasFirst(preds, group);
      var i :| i in group && forall p :: p in preds[i] ==> p !in group;
      forall k | 0 <= k < |preds[i]|
        ensures !pending[preds[i][k]]
      {
        assert preds[i][k] in preds[i];
      }
    }

    /** Whether the operation may come next, with the state it leads to. */
    function Candidate(state: S, i: nat): Option<S>
      reads this`pending
      requires i < |ops| == |pending| == |preds| && InRange(preds[i], |pending|)
    {
      if pending[i] && Ready(i) then step(state, ops[i]) else None
    }

    /** None of the first `n` operations may come next. */
    ghost predicate Blocked(state: S, n: nat)
      reads this`pending
    {
      && n <= |ops| == |pending| == |preds| && (forall k :: 0 <= k < n ==> InRange(preds[k], |pending|))
      && forall k: nat :: k < n ==> Candidate(state, k).None?
    }

    /** Place operation `i` next and search on; undo it when that fails. */
    method Attempt(state: S, i: nat, next: S) returns (found: bool)
      requires Valid() && Run(ops, step, start, serialized) == Some(state) && i < |ops|
               && Candidate(state, i) == Some(next)
      modifies this`pending, this`serialized, this`failure
      ensures Valid()
      ensures found ==> old(serialized) <= serialized && Serial(serialized)
      ensures !found ==> serialized == old(serialized) && pending == old(pending) && Dead(serialized + [i])
      ensures old(failure).Some? ==> failure == old(failure)
      ensures !found && Acyclic(preds) ==> failure.Some?
      decreases |ops| - |serialized|, 0, 0
    {
      ghost var open0, done0 := pending, serialized;
      Place(state, i);
      found := Find(next);
      if !found {
        Undo(i, open0, done0);
      }
    }

    method Place(state: S, i: nat)
      requires Valid() && Run(ops, step, start, serialized) == Some(state) && i < |ops| && Candidate(state, i).Some?
      modifies this`pending, this`serialized
      ensures Valid() && pending == old(pending)[i := false] && serialized == old(serialized) + [i]
      ensures Run(ops, step, start, serialized) == old(Candidate(state, i)) && |old(serialized)| < |ops|
    {
      PlaceFits(state, i);
      pending := pending[i := false];
      serialized := serialized + [i];
    }

    method Undo(i: nat, ghost open0: seq<bool>, ghost done0: seq<nat>)
      requires i < |open0| && open0[i] && Fits(open0, done0) && Real(failure)
      requires pending == open0[i := false] && serialized == done0 + [i]
      modifies this`pending, this`serialized
      ensures Valid() && pending == open0 && serialized == done0
    {
      serialized := serialized[..|serialized| - 1];
      pending := pending[i := true];
      assert serialized == done0 && pending == open0;
    }

    /** Nothing could be placed: remember why, if nothing deeper did. */
    method GiveUp(state: S)
      requires Valid() && Run(ops, step, start, serialized) == Some(state) && |serialized| < |ops|
      requires Acyclic(preds) && failure.None? ==> Blocked(state, |ops|)
      modifies this`failure
      ensures Valid() && (old(failure).Some? ==> failure == old(failure)) && (Acyclic(preds) ==> failure.Some?)
    {
      Finished();
      if Acyclic(preds) {
        SomeReady();
        ghost var i: nat :| i < |ops| && pending[i] && Ready(i);
        assert failure.None? ==> Candidate(state, i).None?;
      }
      RecordFailure(state);
    }

    /** Whether nothing is open any more, which is when the prefix is complete. */
    lemma Finished()
      requires Valid()
      ensures |serialized| <= |ops|
      ensures (forall i :: 0 <= i < |pending| ==> !pending[i]) <==> Serial(serialized)
      ensures Serial(serialized) <==> |serialized| == |ops|
    {
      Pigeonhole(serialized, |ops|);
    }

    /** The search is sound and complete below the current prefix. On failure it
        restores what it changed, keeps the first recorded failure, and with acyclic
        predecessors there is one. */
    method Find(state: S) returns (found: bool)
      requires Valid() && Run(ops, step, start, serialized) == Some(state)
      modifies this`pending, this`serialized, this`failure
      ensures Valid()
      ensures found ==> old(serialized) <= serialized && Serial(serialized)
      ensures !found ==> serialized == old(serialized) && pending == old(pending) && Dead(serialized)
      ensures old(failure).Some? ==> failure == old(failure)
      ensures !found && Acyclic(preds) ==> failure.Some?
      decreases |ops| - |serialized|, 1
    {
      Finished();
      if forall i :: 0 <= i < |pending| ==> !pending[i] {
        return true;
      }
      found := TryAll(state);
      if !found {
        AllRuledOut();
        GiveUp(state);
      }
    }

    /** One operation as the next one. */
    method TryOne(state: S, i: nat) returns (found: bool)
      requires Valid() && Run(ops, step, start, serialized) == Some(state) && |serialized| < |ops| && i < |ops|
      requires RuledOut(serialized, i) && (Acyclic(preds) && failure.None? ==> Blocked(state, i))
      modifies this`pending, this`serialized, this`failure
      ensures Valid()
      ensures found ==> old(serialized) <= serialized && Serial(serialized)
      ensures !found ==> serialized == old(serialized) && pending == old(pending) && RuledOut(serialized, i + 1)
      ensures old(failure).Some? ==> failure == old(failure)
      ensures !found && Acyclic(preds) && failure.None? ==> Blocked(state, i + 1)
      decreases |ops| - |serialized|, 0, 1
    {
      found := false;
      var next := Candidate(state, i);
      if next.Some? {
        found := Attempt(state, i, next.value);
      }
      if !found {
        RuleOut(state, i);
      }
    }

    /** Every operation in turn as the next one. */
    method TryAll(state: S) returns (found: bool)
      requires Valid() && Run(ops, step, start, serialized) == Some(state) && |serialized| < |ops|
      modifies this`pending, this`serialized, this`failure
      ensures Valid()
      ensures found ==> old(serialized) <= serialized && Serial(serialized)
      ensures !found ==> serialized == old(serialized) && pending == old(pending) && RuledOut(serialized, |ops|)
      ensures old(failure).Some? ==> failure == old(failure)
      ensures !found && Acyclic(preds) && failure.None? ==> Blocked(state, |ops|)
      decreases |ops| - |serialized|, 0, 2
    {
      var i := 0;
      while i < |ops|
        invariant 0 <= i <= |ops| && Valid() && serialized == old(serialized) && pending == old(pending)
        invariant RuledOut(serialized, i) && (old(failure).Some? ==> failure == old(failure))
        invariant Acyclic(preds) && failure.None? ==> Blocked(state, i)
      {
        found := TryOne(state, i);
        if found {
          return;
        }
        i := i + 1;
      }
      return false;
    }
  }
}
