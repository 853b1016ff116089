/** The journal built from trace spans in emission order. */
module SpanJournal {
  import opened Journals
  import opened Ordering
  import opened Store
  import opened Spans
  import Linearizability

  /** The spans in emission order. */
  function Emitted(spans: seq<Span>, order: seq<nat>): (r: seq<Span>)
    requires Linearizability.InRange(order, |spans|)
    ensures |r| == |order| && forall k :: 0 <= k < |order| ==> r[k] == spans[order[k]]
  {
    seq(|order|, k requires 0 <= k < |order| => spans[order[k]])
  }

  // ----- which entry an id is bound to

  /** The map from span ids to entries: the first emitted span of an id owns it. */
  ghost predicate Owns(m: map<string, EntryHash>, emitted: seq<Span>, hashes: seq<EntryHash>)
    requires |hashes| == |emitted|
  {
    forall id :: (id in m <==> FirstOf(emitted, id).Some?) && (id in m ==> m[id] == hashes[FirstOf(emitted, id).value])
  }

  lemma OwnsMore(m: map<string, EntryHash>, emitted: seq<Span>, hashes: seq<EntryHash>, s: Span, h: EntryHash)
    requires |hashes| == |emitted| && Owns(m, emitted, hashes)
    ensures Owns(if s.id in m then m else m[s.id := h], emitted + [s], hashes + [h])
  {
  }

  /** The entry a span observes: that of the first span emitted before it that carries
      its parent id. */
  ghost function Observed(emitted: seq<Span>, hashes: seq<EntryHash>, span: Span): seq<EntryHash>
    requires |emitted| <= |hashes|
  {
    match span.parent
    case None => []
    case Some(p) => match FirstOf(emitted, p) case None => [] case Some(i) => [hashes[i]]
  }

  // ----- the layout of the journal

  /** How many entries the emitted spans and their events take. */
  function Volume(emitted: seq<Span>): nat {
    if emitted == [] then 0 else Volume(emitted[..|emitted| - 1]) + 1 + emitted[|emitted| - 1].events
  }

  /** Where the entry of the `k`-th emitted span stands. */
  function At(emitted: seq<Span>, k: nat): nat
    requires k <= |emitted|
  {
    Volume(emitted[..k])
  }

  lemma AtNext(emitted: seq<Span>, k: nat)
    requires k < |emitted|
    ensures At(emitted, k + 1) == At(emitted, k) + 1 + emitted[k].events
  {
    assert emitted[..k + 1][..k] == emitted[..k];
  }

  lemma {:induction false} AtGrows(emitted: seq<Span>, i: nat, k: nat)
    requires i < k <= |emitted|
    ensures At(emitted, i) + 1 + emitted[i].events <= At(emitted, k)
    decreases k
  {
    AtNext(emitted, k - 1);
    if i < k - 1 { AtGrows(emitted, i, k - 1); }
  }

  /** The entry just before position `i`: all entries are one actor's. */
  function Previous(log: Log, i: nat): Option<EntryHash>
    requires i <= |log|
  {
    if i == 0 then None else Some(log[i - 1].id)
  }

  ghost predicate IsEvent(log: Log, i: nat)
    requires i < |log|
  {
    log[i].kind == Send && log[i].parents == AssembleParents(Previous(log, i), [])
  }

  /** The span's own entry, then one entry for each of its events. */
  ghost predicate Laid(log: Log, emitted: seq<Span>, hashes: seq<EntryHash>, k: nat)
    requires k < |emitted| <= |hashes|
  {
    var n := At(emitted, k);
    && n + emitted[k].events < |log|
    && log[n].id == hashes[k] && log[n].kind == Outcome
    && log[n].parents == AssembleParents(Previous(log, n), Observed(emitted[..k], hashes, emitted[k]))
    && forall i :: n < i <= n + emitted[k].events ==> IsEvent(log, i)
  }

  /** The journal is the emitted spans, one after the other, and nothing else. */
  ghost predicate Built(log: Log, emitted: seq<Span>, hashes: seq<EntryHash>) {
    && Causal(log) && ParentClosed(log) && (forall i :: 0 <= i < |log| ==> log[i].actor == 1)
    && |hashes| == |emitted| && |log| == Volume(emitted)
    && forall k :: 0 <= k < |emitted| ==> Laid(log, emitted, hashes, k)
  }

  lemma {:induction false} OneActor(log: Log)
    requires forall i :: 0 <= i < |log| ==> log[i].actor == 1
    ensures ActorEntries(log, 1) == log && Head(log, 1) == Previous(log, |log|)
  {
    if log != [] { OneActor(log[..|log| - 1]); }
  }

  lemma LaidGrows(log: Log, longer: Log, emitted: seq<Span>, hashes: seq<EntryHash>, span: Span, hash: EntryHash,
                  k: nat)
    requires k < |emitted| == |hashes| && Laid(log, emitted, hashes, k) && log <= longer
    ensures Laid(longer, emitted + [span], hashes + [hash], k)
  {
    var more := emitted + [span];
    assert more[..k] == emitted[..k];
    forall i | At(more, k) < i <= At(more, k) + more[k].events ensures IsEvent(longer, i) { assert IsEvent(log, i); }
  }

  // ----- the build

  /** A journal of one actor that append has kept in order. */
  ghost predicate Sound(log: Log) {
    Causal(log) && ParentClosed(log) && forall i :: 0 <= i < |log| ==> log[i].actor == 1
  }

  lemma CanAppend(log: Log, observed: seq<EntryHash>)
    requires Sound(log) && |observed| <= 1 && forall p :: p in observed ==> Present(log, p)
    ensures Appendable(log, 1, observed) && Head(log, 1) == Previous(log, |log|)
  {
    OneActor(log);
    HeadPresent(log, 1);
    ParentList(Head(log, 1), observed);
    if observed != [] {
      assert observed == [observed[0]];
      FirstParent(Head(log, 1), observed[0]);
    }
  }

  method AppendOwn(journal: DurableJournal, observed: seq<EntryHash>) returns (hash: EntryHash)
    requires Sound(journal.log) && |observed| <= 1 && forall p :: p in observed ==> Present(journal.log, p)
    modifies journal
    ensures Sound(journal.log) && |journal.log| == |old(journal.log)| + 1 && old(journal.log) <= journal.log
    ensures var n := |old(journal.log)|;
            var e := journal.log[n];
            e.id == hash && e.kind == Outcome && e.parents == AssembleParents(Previous(journal.log, n), observed)
  {
    CanAppend(journal.log, observed);
    var appended := journal.Append(Outcome, 1, observed, OtherPayload, true);
    hash := appended.value;
  }

  method AppendEvents(journal: DurableJournal, events: nat)
    requires Sound(journal.log)
    modifies journal
    ensures Sound(journal.log) && |journal.log| == |old(journal.log)| + events && old(journal.log) <= journal.log
    ensures forall i :: |old(journal.log)| <= i < |journal.log| ==> IsEvent(journal.log, i)
  {
    var i := 0;
    while i < events
      invariant 0 <= i <= events && Sound(journal.log)
      invariant |journal.log| == |old(journal.log)| + i && old(journal.log) <= journal.log
      invariant forall k :: |old(journal.log)| <= k < |journal.log| ==> IsEvent(journal.log, k)
    {
      CanAppend(journal.log, []);
      ghost var before := journal.log;
      var sent := journal.Append(Send, 1, [], OtherPayload, true);
      EventsGrow(before, journal.log, |old(journal.log)|);
      i := i + 1;
    }
  }

  lemma EventsGrow(before: Log, log: Log, from: nat)
    requires from <= |before| && |log| == |before| + 1 && before <= log && IsEvent(log, |before|)
    requires forall k :: from <= k < |before| ==> IsEvent(before, k)
    ensures forall k :: from <= k < |log| ==> IsEvent(log, k)
  {
    forall k | from <= k < |before| ensures IsEvent(log, k) { assert IsEvent(before, k); }
  }

  /** Append the next span below the entry its parent's id is bound to. */
  method BuildOne(journal: DurableJournal, owner: map<string, EntryHash>, span: Span,
                  ghost emitted: seq<Span>, ghost hashes: seq<EntryHash>)
    returns (hash: EntryHash, owner': map<string, EntryHash>)
    requires Built(journal.log, emitted, hashes) && Owns(owner, emitted, hashes)
    modifies journal
    ensures Built(journal.log, emitted + [span], hashes + [hash]) && Owns(owner', emitted + [span], hashes + [hash])
  {
    var observed := if span.parent.Some? && span.parent.value in owner then [owner[span.parent.value]] else [];
    ObservedRecorded(journal.log, emitted, hashes, span, observed);
    ghost var before := journal.log;
    hash := AppendOwn(journal, observed);
    ghost var own := journal.log;
    AppendEvents(journal, span.events);
    BuiltMore(before, own, journal.log, emitted, hashes, span, hash);
    OwnsMore(owner, emitted, hashes, span, hash);
    owner' := if span.id in owner then owner else owner[span.id := hash];
  }

  lemma ObservedRecorded(log: Log, emitted: seq<Span>, hashes: seq<EntryHash>, span: Span, observed: seq<EntryHash>)
    requires Built(log, emitted, hashes) && observed == Observed(emitted, hashes, span)
    ensures |observed| <= 1 && forall p :: p in observed ==> Present(log, p)
  {
    if observed != [] {
      var i := FirstOf(emitted, span.parent.value).value;
      assert Laid(log, emitted, hashes, i);
    }
  }

  lemma BuiltMore(before: Log, own: Log, log: Log, emitted: seq<Span>, hashes: seq<EntryHash>, span: Span,
                  hash: EntryHash)
    requires Built(before, emitted, hashes) && Sound(log)
    requires before <= own <= log && |own| == |before| + 1 && |log| == |own| + span.events
    requires own[|before|].id == hash && own[|before|].kind == Outcome
    requires own[|before|].parents == AssembleParents(Previous(own, |before|), Observed(emitted, hashes, span))
    requires forall i :: |own| <= i < |log| ==> IsEvent(log, i)
    ensures Built(log, emitted + [span], hashes + [hash])
  {
    var more, moreHashes := emitted + [span], hashes + [hash];
    assert more[..|emitted|] == emitted;
    forall k | 0 <= k < |more| ensures Laid(log, more, moreHashes, k) {
      if k < |emitted| {
        LaidGrows(before, log, emitted, hashes, span, hash, k);
      } else {
        assert Observed(more[..k], moreHashes, span) == Observed(emitted, hashes, span);
      }
    }
  }

  /** The whole build, for any emission order. */
  method BuildJournal(spans: seq<Span>, order: seq<nat>) returns (log: Log, hashes: seq<EntryHash>)
    requires Linearizability.InRange(order, |spans|)
    ensures Built(log, Emitted(spans, order), hashes)
  {
    var journal := new DurableJournal([]);
    var owner: map<string, EntryHash> := map[];
    hashes := [];
    ghost var all := Emitted(spans, order);
    var k := 0;
    while k < |order|
      invariant 0 <= k <= |order| && |hashes| == k && fresh(journal)
      invariant Built(journal.log, all[..k], hashes) && Owns(owner, all[..k], hashes)
    {
      var hash;
      hash, owner := BuildOne(journal, owner, spans[order[k]], all[..k], hashes);
      assert all[..k + 1] == all[..k] + [spans[order[k]]];
      hashes := hashes + [hash];
      k := k + 1;
    }
    assert all[..k] == all;
    log := journal.log;
  }

  // ----- which parent edges the journal keeps

  ghost predicate DistinctSpanIds(spans: seq<Span>) {
    forall i, k :: 0 <= i < k < |spans| ==> spans[i].id != spans[k].id
  }

  /** Every other span with the id of `b` among the first `k` emitted comes after `b`. */
  ghost predicate FirstOfItsId(spans: seq<Span>, order: seq<nat>, k: nat, b: nat)
    requires Linearizability.InRange(order, |spans|) && k <= |order| && b < |spans|
  {
    forall i :: 0 <= i < k && spans[order[i]].id == spans[b].id && order[i] != b ==> b in order[..i]
  }

  /** The span emitted at `p` owns its id at `k` exactly when it is the first of it. */
  lemma OwnerIs(spans: seq<Span>, order: seq<nat>, k: nat, p: nat)
    requires Linearizability.InRange(order, |spans|) && Distinct(order) && p < k <= |order|
    ensures var owner := FirstOf(Emitted(spans, order)[..k], spans[order[p]].id);
            owner.Some? && owner.value < k && (owner.value == p <==> FirstOfItsId(spans, order, k, order[p]))
  {
    var emitted, b := Emitted(spans, order)[..k], order[p];
    assert emitted[p].id == spans[b].id;
    var owner := FirstOf(emitted, spans[b].id).value;
    assert emitted[owner].id == spans[order[owner]].id;
    if order[owner] == b {
      forall i | 0 <= i < k && spans[order[i]].id == spans[b].id && order[i] != b
        ensures b in order[..i]
      {
        assert emitted[i].id == spans[b].id;
        assert order[..i][owner] == b;
      }
    } else {
      assert b !in order[..owner];
    }
  }

  /** The entry of the span emitted at `p` is a parent of the entry of the one at `k`. */
  ghost predicate Edge(log: Log, emitted: seq<Span>, hashes: seq<EntryHash>, p: nat, k: nat)
    requires Built(log, emitted, hashes) && p < |emitted| && k < |emitted|
  {
    assert Laid(log, emitted, hashes, k);
    hashes[p] in log[At(emitted, k)].parents
  }

  lemma SameEntry(log: Log, emitted: seq<Span>, hashes: seq<EntryHash>, p: nat, q: nat)
    requires Built(log, emitted, hashes) && p < |emitted| && q < |emitted|
    ensures hashes[p] == hashes[q] <==> p == q
  {
    assert Laid(log, emitted, hashes, p) && Laid(log, emitted, hashes, q);
    if p < q { AtGrows(emitted, p, q); }
    if q < p { AtGrows(emitted, q, p); }
  }

  lemma JustBefore(log: Log, emitted: seq<Span>, hashes: seq<EntryHash>, p: nat, k: nat)
    requires Built(log, emitted, hashes) && p < k < |emitted|
    ensures Laid(log, emitted, hashes, k) && Laid(log, emitted, hashes, p)
    ensures Previous(log, At(emitted, k)) == Some(hashes[p]) <==> k == p + 1 && emitted[p].events == 0
  {
    AtNext(emitted, p);
    if p + 1 < k { AtGrows(emitted, p + 1, k); }
    AtGrows(emitted, p, k);
  }

  /** A bound parent's entry is a parent of its child's entry exactly when the parent was
      the first of its id to be emitted, or nothing was appended between the two. */
  lemma EdgeIffFirst(spans: seq<Span>, order: seq<nat>, log: Log, hashes: seq<EntryHash>, p: nat, k: nat)
    requires LeastFirst(spans, order) && Linearizability.InRange(order, |spans|)
    requires Built(log, Emitted(spans, order), hashes) && p < k < |order| && Bound(spans, order[k]) == Some(order[p])
    ensures Edge(log, Emitted(spans, order), hashes, p, k)
            <==> FirstOfItsId(spans, order, k, order[p]) || (k == p + 1 && spans[order[p]].events == 0)
  {
    var emitted := Emitted(spans, order);
    EmissionOrdered(spans, order);
    OwnerIs(spans, order, k, p);
    JustBefore(log, emitted, hashes, p, k);
    var owner := FirstOf(emitted[..k], spans[order[p]].id).value;
    SameEntry(log, emitted, hashes, p, owner);
    assert emitted[k].parent == Some(spans[order[p]].id);
    FirstParent(Previous(log, At(emitted, k)), hashes[owner]);
  }

  /** Every bound edge is kept. */
  ghost predicate KeepsEdges(spans: seq<Span>, r: Ingested)
    requires Linearizability.InRange(r.order, |spans|) && Built(r.log, Emitted(spans, r.order), r.hashes)
  {
    forall p, k :: 0 <= p < k < |r.order| && Bound(spans, r.order[k]) == Some(r.order[p]) ==>
      Edge(r.log, Emitted(spans, r.order), r.hashes, p, k)
  }

  /** Some bound parent is neither the first of its id nor right in front of its child. */
  ghost predicate Misbinds(spans: seq<Span>, order: seq<nat>)
    requires Linearizability.InRange(order, |spans|)
  {
    exists p, k :: 0 <= p < k < |order| && Bound(spans, order[k]) == Some(order[p]) &&
      !FirstOfItsId(spans, order, k, order[p]) && !(k == p + 1 && spans[order[p]].events == 0)
  }

  datatype Ingested = Ingested(log: Log, order: seq<nat>, hashes: seq<EntryHash>)

  /** All spans are emitted exactly when every parent chain ends at a root. */
  lemma AllEmitted(spans: seq<Span>, order: seq<nat>)
    requires IsEmission(spans, order)
    ensures Linearizability.InRange(order, |spans|)
    ensures |order| == |spans| <==> forall i: nat :: i < |spans| ==> Rooted(spans, i)
  {
    EmissionOrdered(spans, order);
    Linearizability.Pigeonhole(order, |spans|);
    forall i: nat | i < |spans|
      ensures i in order <==> Rooted(spans, i)
    {
      EmittedIffRooted(spans, order, i);
    }
  }

  lemma EdgesDecided(spans: seq<Span>, r: Ingested)
    requires LeastFirst(spans, r.order) && Linearizability.InRange(r.order, |spans|)
    requires Built(r.log, Emitted(spans, r.order), r.hashes)
    ensures KeepsEdges(spans, r) <==> !Misbinds(spans, r.order)
    ensures DistinctSpanIds(spans) ==> KeepsEdges(spans, r)
  {
    forall p, k | 0 <= p < k < |r.order| && Bound(spans, r.order[k]) == Some(r.order[p])
      ensures Edge(r.log, Emitted(spans, r.order), r.hashes, p, k)
              <==> FirstOfItsId(spans, r.order, k, r.order[p]) || (k == p + 1 && spans[r.order[p]].events == 0)
    {
      EdgeIffFirst(spans, r.order, r.log, r.hashes, p, k);
    }
  }

  /** A batch is refused exactly when some parent chain never reaches a root. An accepted
      one is laid out span by span, and keeps every bound edge unless it misbinds; with
      distinct ids it keeps them all. */
  method Ingest(spans: seq<Span>) returns (r: Option<Ingested>)
    ensures r.Some? <==> forall i: nat :: i < |spans| ==> Rooted(spans, i)
    ensures r.Some? ==> IsEmission(spans, r.value.order) && |r.value.order| == |spans|
    ensures r.Some? ==> Linearizability.InRange(r.value.order, |spans|)
    ensures r.Some? ==> Built(r.value.log, Emitted(spans, r.value.order), r.value.hashes)
    ensures r.Some? ==> (KeepsEdges(spans, r.value) <==> !Misbinds(spans, r.value.order))
    ensures r.Some? && DistinctSpanIds(spans) ==> KeepsEdges(spans, r.value)
  {
    var order := KahnEmission(spans);
    AllEmitted(spans, order);
    if |order| != |spans| {
      return None;
    }
    var log, hashes := BuildJournal(spans, order);
    EdgesDecided(spans, Ingested(log, order, hashes));
    return Some(Ingested(log, order, hashes));
  }

  // ----- a batch that loses an edge

  /** Span 3 is ordered behind span 0, the first "p" of the input, but span 1, the first
      "p" emitted, owns the id; and the event of span 0 comes between the two. */
  function Doubled(): seq<Span> {
    [Span("p", Some("q"), 1), Span("p", None, 0), Span("q", None, 0), Span("c", Some("p"), 0)]
  }

  lemma DoubledBindings()
    ensures Bound(Doubled(), 0) == Some(2) && Bound(Doubled(), 1) == None
    ensures Bound(Doubled(), 2) == None && Bound(Doubled(), 3) == Some(0)
  {
    var spans := Doubled();
    assert spans[0].id == "p" && spans[1].id == "p" && spans[2].id == "q" && spans[3].id == "c";
    assert "p" != "q" && "c" != "p" && "c" != "q" by {
      assert "p"[0] != "q"[0] && "c"[0] != "p"[0] && "c"[0] != "q"[0];
    }
    assert FirstOf(spans, "p") == Some(0);
    assert FirstOf(spans, "q") == Some(2);
  }

  lemma DoubledOrder()
    ensures IsEmission(Doubled(), [1, 2, 0, 3]) && Bound(Doubled(), 3) == Some(0)
  {
    var spans := Doubled();
    var order := [1, 2, 0, 3];
    DoubledBindings();
    assert order[..0] == [] && order[..1] == [1] && order[..2] == [1, 2] && order[..3] == [1, 2, 0];
    assert IsLeast(1, ReadySet(spans, []));
    assert IsLeast(2, ReadySet(spans, [1]));
    assert IsLeast(0, ReadySet(spans, [1, 2]));
    assert IsLeast(3, ReadySet(spans, [1, 2, 0]));
    assert ReadySet(spans, order) == {};
  }

  lemma DoubledMisbinds(log: Log, hashes: seq<EntryHash>)
    requires LeastFirst(Doubled(), [1, 2, 0, 3]) && Bound(Doubled(), 3) == Some(0)
    requires Linearizability.InRange([1, 2, 0, 3], |Doubled()|)
    requires Built(log, Emitted(Doubled(), [1, 2, 0, 3]), hashes)
    ensures !Edge(log, Emitted(Doubled(), [1, 2, 0, 3]), hashes, 2, 3)
  {
    var order := [1, 2, 0, 3];
    EdgeIffFirst(Doubled(), order, log, hashes, 2, 3);
    assert order[..0] == [] && Doubled()[order[0]].id == Doubled()[0].id;
  }

  /** Ingest accepts that batch, and the child's entry does not observe the entry of its
      bound parent. */
  method EdgeIsLost() returns (r: Ingested)
    ensures r.order == [1, 2, 0, 3] && Bound(Doubled(), r.order[3]) == Some(r.order[2])
    ensures Built(r.log, Emitted(Doubled(), r.order), r.hashes)
    ensures !Edge(r.log, Emitted(Doubled(), r.order), r.hashes, 2, 3)
  {
    DoubledOrder();
    EmissionOrdered(Doubled(), [1, 2, 0, 3]);
    AllEmitted(Doubled(), [1, 2, 0, 3]);
    var answer := Ingest(Doubled());
    r := answer.value;
    EmissionUnique(Doubled(), r.order, [1, 2, 0, 3]);
    DoubledMisbinds(r.log, r.hashes);
  }
}
