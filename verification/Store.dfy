/** Appending to the journal: per-actor heads, parent assembly and fresh addresses. */
module Store {
  import opened Journals

  function ActorEntries(log: Log, actor: ActorId): (es: seq<Entry>)
    ensures forall i :: 0 <= i < |es| ==> es[i].actor == actor
  {
    if log == [] then []
    else
      var last := log[|log| - 1];
      ActorEntries(log[..|log| - 1], actor) + if last.actor == actor then [last] else []
  }

  /** The last entry of an actor. */
  function Head(log: Log, actor: ActorId): Option<EntryHash> {
    var es := ActorEntries(log, actor);
    if es == [] then None else Some(es[|es| - 1].id)
  }

  /** The actor's own head comes first; observed parents follow, without repeats. */
  function AssembleParents(head: Option<EntryHash>, observed: seq<EntryHash>): seq<EntryHash> {
    var start := if head.Some? then [head.value] else [];
    Deduped(start, observed)
  }

  function Deduped(sofar: seq<EntryHash>, observed: seq<EntryHash>): seq<EntryHash>
    decreases |observed|
  {
    if observed == [] then sofar
    else Deduped(if observed[0] in sofar then sofar else sofar + [observed[0]], observed[1..])
  }

  /** `xs` lists the first occurrences among the first `n` of `all`, in order; `at` says where. */
  ghost predicate Firsts(all: seq<EntryHash>, n: nat, xs: seq<EntryHash>, at: seq<nat>) {
    && n <= |all| && |xs| == |at|
    && (forall x :: 0 <= x < |at| ==> at[x] < n && xs[x] == all[at[x]] && all[at[x]] !in all[..at[x]])
    && (forall x, y :: 0 <= x < y < |at| ==> at[x] < at[y])
    && forall i :: 0 <= i < n ==> all[i] in xs
  }

  lemma FirstsMore(all: seq<EntryHash>, n: nat, xs: seq<EntryHash>, at: seq<nat>)
    requires Firsts(all, n, xs, at) && n < |all| && all[n] !in xs
    ensures Firsts(all, n + 1, xs + [all[n]], at + [n])
  {
    assert all[n] !in all[..n];
    forall i | 0 <= i < n + 1
      ensures all[i] in xs + [all[n]]
    {
      if i < n { assert all[i] in xs; }
    }
  }

  lemma {:induction false} DedupedInOrder(all: seq<EntryHash>, n: nat, sofar: seq<EntryHash>, had: seq<nat>)
    returns (at: seq<nat>)
    requires Firsts(all, n, sofar, had)
    ensures Firsts(all, |all|, Deduped(sofar, all[n..]), at)
    decreases |all| - n
  {
    if n == |all| {
      at := had;
    } else {
      assert all[n..][1..] == all[n + 1..];
      if all[n] in sofar {
        at := DedupedInOrder(all, n + 1, sofar, had);
      } else {
        FirstsMore(all, n, sofar, had);
        at := DedupedInOrder(all, n + 1, sofar + [all[n]], had + [n]);
      }
    }
  }

  /** The parents are the first occurrences in the head followed by the observed entries. */
  lemma ParentOrder(head: Option<EntryHash>, observed: seq<EntryHash>) returns (at: seq<nat>)
    ensures var all := (if head.Some? then [head.value] else []) + observed;
            Firsts(all, |all|, AssembleParents(head, observed), at)
  {
    if head.Some? {
      var all := [head.value] + observed;
      assert all[1..] == observed && all[..0] == [];
      at := DedupedInOrder(all, 1, [head.value], [0]);
    } else {
      assert [] + observed == observed && observed[0..] == observed;
      at := DedupedInOrder(observed, 0, [], []);
    }
  }

  /** The parents are the head and the observed entries, each once, the head first. */
  lemma ParentList(head: Option<EntryHash>, observed: seq<EntryHash>)
    ensures var parents := AssembleParents(head, observed);
            && (forall p :: p in parents <==> head == Some(p) || p in observed)
            && (forall i, k :: 0 <= i < k < |parents| ==> parents[i] != parents[k])
            && (head.Some? ==> parents != [] && parents[0] == head.value)
  {
    DedupedFacts(if head.Some? then [head.value] else [], observed);
  }

  lemma {:induction false} DedupedFacts(sofar: seq<EntryHash>, observed: seq<EntryHash>)
    requires forall i, k :: 0 <= i < k < |sofar| ==> sofar[i] != sofar[k]
    ensures sofar <= Deduped(sofar, observed)
    ensures forall p :: p in Deduped(sofar, observed) <==> p in sofar || p in observed
    ensures forall i, k ::
              0 <= i < k < |Deduped(sofar, observed)| ==> Deduped(sofar, observed)[i] != Deduped(sofar, observed)[k]
    decreases |observed|
  {
    if observed != [] {
      DedupedFacts(if observed[0] in sofar then sofar else sofar + [observed[0]], observed[1..]);
      assert forall p :: p in observed <==> p == observed[0] || p in observed[1..];
    }
  }

  /** With one observed entry the list is short: observing one's own head yields exactly
      that one parent. */
  lemma FirstParent(head: Option<EntryHash>, seen: EntryHash)
    ensures AssembleParents(head, [seen]) == match head
                                             case None => [seen]
                                             case Some(h) => if h == seen then [h] else [h, seen]
  {
    var start := if head.Some? then [head.value] else [];
    assert [seen][1..] == [];
    assert Deduped(start, [seen]) == Deduped(if seen in start then start else start + [seen], []);
  }

  ghost predicate Unused(log: Log, id: EntryHash) {
    forall i :: 0 <= i < |log| ==> log[i].id != id
  }

  /** An address no entry has: content addresses of distinct entries differ. */
  function FreshId(log: Log): (id: EntryHash)
    ensures Unused(log, id)
    ensures forall i :: 0 <= i < |log| ==> log[i].id < id
  {
    if log == [] then 0
    else
      var rest := FreshId(log[..|log| - 1]);
      var last := log[|log| - 1].id;
      if last < rest then rest else last + 1
  }

  const MAX_PARENTS_PER_ENTRY: nat := 4096

  /** The entry an append adds. */
  function Appended(log: Log, kind: Kind, actor: ActorId, observed: seq<EntryHash>, payload: Payload): Entry {
    Entry(FreshId(log), kind, actor, AssembleParents(Head(log, actor), observed), payload)
  }

  /** Every parent is recorded and they are not too many. */
  predicate Appendable(log: Log, actor: ActorId, observed: seq<EntryHash>) {
    var parents := AssembleParents(Head(log, actor), observed);
    |parents| <= MAX_PARENTS_PER_ENTRY && forall p :: p in parents ==> Present(log, p)
  }

  class DurableJournal {
    var log: Log

    constructor (log: Log)
      ensures this.log == log
    {
      this.log := log;
    }

    /** Append one entry below the actor's head and the observed entries, unless a
        parent is missing, the parents are too many or the store fails. */
    method Append(kind: Kind, actor: ActorId, observed: seq<EntryHash>, payload: Payload, storeOk: bool)
      returns (r: Option<EntryHash>)
      modifies this
      ensures r.None? ==> log == old(log)
      ensures r.Some? ==>
                log == old(log) + [Appended(old(log), kind, actor, observed, payload)] && r.value == FreshId(old(log))
      ensures r.Some? <==> storeOk && Appendable(old(log), actor, observed)
      ensures Causal(old(log)) && ParentClosed(old(log)) ==> Causal(log) && ParentClosed(log)
    {
      var parents := AssembleParents(Head(log, actor), observed);
      if |parents| > MAX_PARENTS_PER_ENTRY || !storeOk || exists p :: p in parents && !Present(log, p) {
        return None;
      }
      var id := FreshId(log);
      if Causal(log) && ParentClosed(log) {
        AppendKeepsCausal(log, Entry(id, kind, actor, parents, payload));
      }
      log := log + [Entry(id, kind, actor, parents, payload)];
      return Some(id);
    }
  }

  /** An actor's head is recorded. */
  lemma HeadPresent(log: Log, actor: ActorId)
    ensures Head(log, actor).Some? ==> Present(log, Head(log, actor).value)
  {
    var es := ActorEntries(log, actor);
    ActorEntriesIn(log, actor);
    if es != [] {
      var e := es[|es| - 1];
      assert e in log;
    }
  }

  lemma ActorSnoc(log: Log, e: Entry, actor: ActorId)
    ensures ActorEntries(log + [e], actor)
         == if e.actor == actor then ActorEntries(log, actor) + [e] else ActorEntries(log, actor)
  {
  }

  lemma {:induction false} ActorEntriesIn(log: Log, actor: ActorId)
    ensures forall e :: e in ActorEntries(log, actor) ==> e in log
  {
    if log != [] { ActorEntriesIn(log[..|log| - 1], actor); }
  }

  /** Every journal grown by appends from the empty one is causal and closed under
      parents: a new entry has a new address and only recorded parents. */
  lemma AppendKeepsCausal(log: Log, e: Entry)
    requires Causal(log) && ParentClosed(log) && Unused(log, e.id) && forall p :: p in e.parents ==> Present(log, p)
    ensures Causal(log + [e]) && ParentClosed(log + [e])
  {
    var grown := log + [e];
    assert DistinctIds(grown);
    forall i, p | 0 <= i < |grown| && p in grown[i].parents
      ensures Rank(grown, p) <= i && Present(grown, p)
    {
      if i < |log| {
        assert p in log[i].parents;
      }
      RankStable(log, grown, p);
    }
  }
}
