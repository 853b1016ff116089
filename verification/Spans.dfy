/** Dependency-first ordering of trace spans. */
module Spans {
  import opened Journals
  import opened Ordering
  import Linearizability

  datatype Span = Span(id: string, parent: Option<string>, events: nat)

  /** The first span in input order with the given id. */
  function FirstOf(spans: seq<Span>, id: string): (r: Option<nat>)
    ensures r.Some? ==>
              r.value < |spans| && spans[r.value].id == id && forall k :: 0 <= k < r.value ==> spans[k].id != id
    ensures r.None? ==> forall k :: 0 <= k < |spans| ==> spans[k].id != id
  {
    if spans == [] then None
    else
      match FirstOf(spans[..|spans| - 1], id)
      case Some(i) => Some(i)
      case None => if spans[|spans| - 1].id == id then Some(|spans| - 1) else None
  }

  /** The span a parent reference is bound to, when the batch has one. */
  function Bound(spans: seq<Span>, i: nat): (r: Option<nat>)
    requires i < |spans|
    ensures r.Some? ==> r.value < |spans|
  {
    match spans[i].parent case None => None case Some(p) => FirstOf(spans, p)
  }

  // ----- what the emission order should be

  /** Not emitted yet, and waiting for nothing. */
  predicate IsReady(spans: seq<Span>, order: seq<nat>, i: nat)
    requires i < |spans|
  {
    i !in order && (Bound(spans, i).None? || Bound(spans, i).value in order)
  }

  function ReadySet(spans: seq<Span>, order: seq<nat>): set<nat> {
    set i: nat | i < |spans| && IsReady(spans, order, i)
  }

  /** At every step the least ready span was emitted. */
  ghost predicate LeastFirst(spans: seq<Span>, order: seq<nat>) {
    forall k :: 0 <= k < |order| ==> IsLeast(order[k], ReadySet(spans, order[..k]))
  }

  /** The emission is complete when nothing is ready. */
  ghost predicate IsEmission(spans: seq<Span>, order: seq<nat>) {
    LeastFirst(spans, order) && ReadySet(spans, order) == {}
  }

  /** The parent chain reaches a span without bound parent in at most `n` steps. */
  predicate RootedIn(spans: seq<Span>, i: nat, n: nat)
    requires i < |spans|
    decreases n
  {
    match Bound(spans, i)
    case None => true
    case Some(p) => n > 0 && RootedIn(spans, p, n - 1)
  }

  ghost predicate Rooted(spans: seq<Span>, i: nat)
    requires i < |spans|
  {
    exists n :: RootedIn(spans, i, n)
  }

  /** The order is determined: there is only one emission. */
  lemma EmissionUnique(spans: seq<Span>, a: seq<nat>, b: seq<nat>)
    requires IsEmission(spans, a) && IsEmission(spans, b)
    ensures a == b
  {
    assert a[..|a|] == a && b[..|b|] == b;
    if |a| < |b| {
      PrefixUnique(spans, a, b, |a|);
      NextIsReady(spans, b, |a|);
    } else {
      PrefixUnique(spans, a, b, |b|);
      if |b| < |a| { NextIsReady(spans, a, |b|); }
    }
  }

  lemma NextIsReady(spans: seq<Span>, order: seq<nat>, n: nat)
    requires LeastFirst(spans, order) && n < |order|
    ensures order[n] in ReadySet(spans, order[..n])
  {
  }

  lemma {:induction false} PrefixUnique(spans: seq<Span>, a: seq<nat>, b: seq<nat>, n: nat)
    requires LeastFirst(spans, a) && LeastFirst(spans, b) && n <= |a| && n <= |b|
    ensures a[..n] == b[..n]
  {
    if n > 0 {
      PrefixUnique(spans, a, b, n - 1);
      assert a[..n] == a[..n - 1] + [a[n - 1]] && b[..n] == b[..n - 1] + [b[n - 1]];
    }
  }

  /** No span is emitted twice, and each comes after its bound parent. */
  lemma EmissionOrdered(spans: seq<Span>, order: seq<nat>)
    requires LeastFirst(spans, order)
    ensures forall i, k :: 0 <= i < k < |order| ==> order[i] != order[k]
    ensures forall k :: 0 <= k < |order| ==> order[k] < |spans|
    ensures forall k ::
              0 <= k < |order| ==> (Bound(spans, order[k]).Some? ==> Bound(spans, order[k]).value in order[..k])
  {
  }

  lemma {:induction false} EmittedIsRooted(spans: seq<Span>, order: seq<nat>, k: nat)
    requires LeastFirst(spans, order) && k < |order|
    ensures order[k] < |spans| && RootedIn(spans, order[k], k)
    decreases k
  {
    EmissionOrdered(spans, order);
    match Bound(spans, order[k]) {
      case None =>
      case Some(p) =>
        var i :| 0 <= i < k && order[i] == p;
        EmittedIsRooted(spans, order, i);
        RootedMore(spans, p, i, k - 1);
    }
  }

  lemma {:induction false} RootedMore(spans: seq<Span>, i: nat, n: nat, m: nat)
    requires i < |spans| && RootedIn(spans, i, n) && n <= m
    ensures RootedIn(spans, i, m)
    decreases n
  {
    if Bound(spans, i).Some? { RootedMore(spans, Bound(spans, i).value, n - 1, m - 1); }
  }

  lemma {:induction false} RootedIsEmitted(spans: seq<Span>, order: seq<nat>, i: nat, n: nat)
    requires IsEmission(spans, order) && i < |spans| && RootedIn(spans, i, n)
    ensures i in order
    decreases n
  {
    if Bound(spans, i).Some? { RootedIsEmitted(spans, order, Bound(spans, i).value, n - 1); }
    assert i !in ReadySet(spans, order);
  }

  /** Exactly the spans whose parent chain ends at a root are emitted; the others
      sit on or behind a parent cycle. */
  lemma EmittedIffRooted(spans: seq<Span>, order: seq<nat>, i: nat)
    requires IsEmission(spans, order) && i < |spans|
    ensures i in order <==> Rooted(spans, i)
  {
    if i in order {
      var k :| 0 <= k < |order| && order[k] == i;
      EmittedIsRooted(spans, order, k);
    }
    if Rooted(spans, i) {
      var n :| RootedIn(spans, i, n);
      RootedIsEmitted(spans, order, i, n);
    }
  }

  // ----- the emission loop

  /** Children lists, in input order. */
  ghost predicate Links(spans: seq<Span>, children: seq<seq<nat>>) {
    && |children| == |spans|
    && (forall p: nat :: p < |spans| ==> Ascending(children[p]) && Linearizability.InRange(children[p], |spans|))
    && (forall p: nat, c: nat :: p < |spans| && c < |spans| ==> (c in children[p] <==> Bound(spans, c) == Some(p)))
  }

  /** How many parents each span still awaits. */
  ghost predicate Awaits(spans: seq<Span>, order: seq<nat>, pending: seq<nat>) {
    && |pending| == |spans|
    && (forall c: nat :: c < |spans| ==>
          pending[c] == if Bound(spans, c).Some? && Bound(spans, c).value !in order then 1 else 0)
  }

  /** The tables after the first `n` spans were linked. */
  ghost predicate LinkedTo(spans: seq<Span>, children: seq<seq<nat>>, n: nat) {
    && |children| == |spans| && n <= |spans|
    && (forall p: nat :: p < |spans| ==> Ascending(children[p]) && Linearizability.InRange(children[p], n))
    && (forall p: nat, c: nat :: p < |spans| && c < n ==> (c in children[p] <==> Bound(spans, c) == Some(p)))
  }

  lemma LinkOne(spans: seq<Span>, children: seq<seq<nat>>, n: nat)
    requires LinkedTo(spans, children, n) && n < |spans|
    ensures match Bound(spans, n)
            case None => LinkedTo(spans, children, n + 1)
            case Some(p) => LinkedTo(spans, children[p := children[p] + [n]], n + 1)
  {
  }

  method BuildTables(spans: seq<Span>) returns (children: seq<seq<nat>>, pending: seq<nat>)
    ensures Links(spans, children) && Awaits(spans, [], pending)
  {
    children := seq(|spans|, i => []);
    pending := seq(|spans|, i => 0);
    var i := 0;
    while i < |spans|
      invariant 0 <= i <= |spans| && |pending| == |spans| && LinkedTo(spans, children, i)
      invariant forall c: nat :: c < |spans| ==> pending[c] == if c < i && Bound(spans, c).Some? then 1 else 0
    {
      LinkOne(spans, children, i);
      var parent := Bound(spans, i);
      if parent.Some? {
        children := children[parent.value := children[parent.value] + [i]];
        pending := pending[i := pending[i] + 1];
      }
      i := i + 1;
    }
  }

  /** What emitting one more span makes ready. */
  lemma ReadyAfter(spans: seq<Span>, order: seq<nat>, emitted: nat, kids: seq<nat>)
    requires emitted < |spans| && IsReady(spans, order, emitted)
    requires forall c: nat :: c < |spans| ==> (c in kids <==> Bound(spans, c) == Some(emitted))
    requires forall k :: 0 <= k < |kids| ==> kids[k] < |spans|
    requires forall c: nat :: c < |spans| && c in order && Bound(spans, c).Some? ==> Bound(spans, c).value in order
    ensures ReadySet(spans, order + [emitted]) == ReadySet(spans, order) - {emitted} + Elements(kids)
  {
  }

  /** Release the children of an emitted span. */
  method Release(kids: seq<nat>, pending0: seq<nat>, ready0: set<nat>) returns (pending: seq<nat>, ready: set<nat>)
    requires Ascending(kids) && forall k :: 0 <= k < |kids| ==> kids[k] < |pending0| && pending0[kids[k]] == 1
    ensures |pending| == |pending0|
            && forall c: nat :: c < |pending| ==> pending[c] == if c in kids then 0 else pending0[c]
    ensures ready == ready0 + Elements(kids)
  {
    pending, ready := pending0, ready0;
    var i := 0;
    while i < |kids|
      invariant 0 <= i <= |kids| && |pending| == |pending0|
      invariant forall c: nat :: c < |pending| ==> pending[c] == if c in kids[..i] then 0 else pending0[c]
      invariant ready == ready0 + Elements(kids[..i])
    {
      var child := kids[i];
      assert child !in kids[..i];
      assert forall c :: c in kids[..i + 1] <==> c in kids[..i] || c == child;
      pending := pending[child := pending[child] - 1];
      if pending[child] == 0 {
        ready := ready + {child};
      }
      i := i + 1;
    }
    assert kids[..i] == kids;
  }

  lemma LeastFirstSnoc(spans: seq<Span>, order: seq<nat>, i: nat)
    requires LeastFirst(spans, order) && IsLeast(i, ReadySet(spans, order))
    ensures LeastFirst(spans, order + [i])
  {
    var grown := order + [i];
    forall k | 0 <= k < |grown|
      ensures IsLeast(grown[k], ReadySet(spans, grown[..k]))
    {
      assert grown[..k] == if k < |order| then order[..k] else order;
    }
  }

  lemma EmissionWithin(spans: seq<Span>, order: seq<nat>)
    requires LeastFirst(spans, order)
    ensures |order| <= |spans|
    ensures forall c: nat :: c < |spans| && c in order && Bound(spans, c).Some? ==> Bound(spans, c).value in order
  {
    EmissionOrdered(spans, order);
    Linearizability.Pigeonhole(order, |spans|);
    forall c: nat | c < |spans| && c in order && Bound(spans, c).Some?
      ensures Bound(spans, c).value in order
    {
      var k :| 0 <= k < |order| && order[k] == c;
      assert Bound(spans, c).value in order[..k];
    }
  }

  /** The loop's step: what is known before and after emitting `i`. */
  lemma StepTables(spans: seq<Span>, order: seq<nat>, children: seq<seq<nat>>, pending: seq<nat>, i: nat)
    requires Links(spans, children) && Awaits(spans, order, pending) && i < |spans| && IsReady(spans, order, i)
    ensures forall k :: 0 <= k < |children[i]| ==> pending[children[i][k]] == 1
    ensures forall after: seq<nat> ::
              |after| == |pending|
              && (forall c: nat :: c < |after| ==> after[c] == if c in children[i] then 0 else pending[c])
              ==> Awaits(spans, order + [i], after)
  {
  }

  /** Kahn's algorithm emits the least ready span until none is ready. */
  method KahnEmission(spans: seq<Span>) returns (order: seq<nat>)
    ensures IsEmission(spans, order)
  {
    var children, pending := BuildTables(spans);
    var ready := set i: nat | i < |spans| && pending[i] == 0;
    order := [];
    assert ready == ReadySet(spans, []);
    while ready != {}
      invariant Links(spans, children) && Awaits(spans, order, pending) && ready == ReadySet(spans, order)
                && LeastFirst(spans, order)
      invariant |order| <= |spans|
      decreases |spans| - |order|
    {
      var i := Least(ready);
      StepTables(spans, order, children, pending, i);
      EmissionWithin(spans, order);
      ReadyAfter(spans, order, i, children[i]);
      LeastFirstSnoc(spans, order, i);
      EmissionWithin(spans, order + [i]);
      pending, ready := Release(children[i], pending, ready - {i});
      order := order + [i];
    }
  }

  /** `order` starts with `first`, and its rest are the other numbers below `i`, ascending. */
  ghost predicate Completed(first: seq<nat>, order: seq<nat>, i: nat, n: nat) {
    && first <= order && i <= n
    && Linearizability.InRange(order, n) && Distinct(order)
    && Ascending(order[|first|..]) && (forall k :: |first| <= k < |order| ==> order[k] < i)
    && forall k: nat :: k < i ==> k in order
  }

  lemma CompletedNext(first: seq<nat>, order: seq<nat>, i: nat, n: nat)
    requires Completed(first, order, i, n) && i < n
    ensures Completed(first, if i in first then order else order + [i], i + 1, n)
  {
    if i !in first {
      forall k | 0 <= k < |order|
        ensures order[k] != i
      {
        if k < |first| { assert order[k] == first[k]; }
      }
      assert (order + [i])[|first|..] == order[|first|..] + [i];
    } else {
      assert forall x :: x in first ==> x in order;
    }
  }

  /** What the emission left, appended in input order. */
  method AppendRest(first: seq<nat>, n: nat) returns (order: seq<nat>)
    requires Linearizability.InRange(first, n) && Distinct(first)
    ensures Completed(first, order, n, n)
  {
    order := first;
    var i := 0;
    while i < n
      invariant Completed(first, order, i, n)
    {
      CompletedNext(first, order, i, n);
      if i !in first {
        order := order + [i];
      }
      i := i + 1;
    }
  }

  /** The emission, then everything on or behind a cycle in input order: always all
      spans, once each. */
  method TopoOrderSpans(spans: seq<Span>) returns (order: seq<nat>, emitted: nat)
    ensures emitted <= |order| && IsEmission(spans, order[..emitted])
    ensures Linearizability.InRange(order, |spans|) && Distinct(order) && |order| == |spans|
    ensures Ascending(order[emitted..])
  {
    order := KahnEmission(spans);
    emitted := |order|;
    EmissionOrdered(spans, order);
    ghost var first := order;
    if emitted < |spans| {
      order := AppendRest(order, |spans|);
    }
    assert order[..emitted] == first;
    Linearizability.Pigeonhole(first, |spans|);
    Linearizability.Pigeonhole(order, |spans|);
  }
}
