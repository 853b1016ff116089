/** Step evidence of the durable workflow engine: what a scan of the journal finds, and
    the discipline under which it finds the truth.
 */
module Workflow {
  import opened Journals
  import opened Ordering
  import opened Store

  // ----- step evidence

  datatype StepEvidence = StepEvidence(begins: map<string, EntryHash>, beginNames: map<EntryHash, string>,
                                       ends: map<EntryHash, nat>)

  predicate IsBeginEntry(e: Entry) { e.kind == StepBegin && e.payload.StepBeginPayload? }

  predicate IsEndEntry(e: Entry) { e.kind == StepEnd && e.payload.StepEndCompleted? && e.parents != [] }

  predicate IsStep(e: Entry) { IsBeginEntry(e) || IsEndEntry(e) }

  /** The step entries among an actor's entries. */
  function Steps(es: seq<Entry>): (r: seq<Entry>)
    ensures forall e :: e in r ==> e in es && IsStep(e)
  {
    if es == [] then []
    else
      var n := |es| - 1;
      Steps(es[..n]) + if IsStep(es[n]) then [es[n]] else []
  }

  function StepEntries(log: Log, actor: ActorId): seq<Entry> { Steps(ActorEntries(log, actor)) }

  lemma StepsSnoc(log: Log, e: Entry, actor: ActorId)
    ensures StepEntries(log + [e], actor) == StepEntries(log, actor) + if e.actor == actor && IsStep(e) then [e] else []
  {
    ActorSnoc(log, e, actor);
    assert (ActorEntries(log, actor) + [e])[..|ActorEntries(log, actor)|] == ActorEntries(log, actor);
  }

  function AddEvidence(ev: StepEvidence, e: Entry): StepEvidence {
    if IsBeginEntry(e) then
      ev.(begins := ev.begins[e.payload.name := e.id], beginNames := ev.beginNames[e.id := e.payload.name])
    else if IsEndEntry(e) then ev.(ends := ev.ends[e.parents[0] := e.payload.result])
    else ev
  }

  function EvidenceOf(es: seq<Entry>): StepEvidence {
    if es == [] then StepEvidence(map[], map[], map[]) else AddEvidence(EvidenceOf(es[..|es| - 1]), es[|es| - 1])
  }

  lemma EvidenceSnoc(es: seq<Entry>, e: Entry)
    ensures EvidenceOf(es + [e]) == AddEvidence(EvidenceOf(es), e)
  {
  }

  /** Only step entries are evidence. */
  lemma {:induction false} EvidenceOfSteps(es: seq<Entry>)
    ensures EvidenceOf(es) == EvidenceOf(Steps(es))
  {
    if es != [] {
      var n := |es| - 1;
      EvidenceOfSteps(es[..n]);
      assert Steps(es[..n]) + [] == Steps(es[..n]);
      EvidenceSnoc(Steps(es[..n]), es[n]);
    }
  }

  method ScanStepEvidence(log: Log, actor: ActorId) returns (ev: StepEvidence)
    ensures ev == EvidenceOf(ActorEntries(log, actor))
  {
    ev := StepEvidence(map[], map[], map[]);
    var i := 0;
    while i < |log|
      invariant 0 <= i <= |log| && ev == EvidenceOf(ActorEntries(log[..i], actor))
    {
      var e := log[i];
      assert log[..i + 1] == log[..i] + [e];
      ActorSnoc(log[..i], e, actor);
      EvidenceSnoc(ActorEntries(log[..i], actor), e);
      if e.actor == actor {
        if e.kind == StepBegin {
          if e.payload.StepBeginPayload? {
            ev := ev.(begins := ev.begins[e.payload.name := e.id], beginNames := ev.beginNames[e.id := e.payload.name]);
          }
        } else if e.kind == StepEnd {
          if e.payload.StepEndCompleted? && e.parents != [] {
            ev := ev.(ends := ev.ends[e.parents[0] := e.payload.result]);
          }
        }
      }
      i := i + 1;
    }
    assert log[..i] == log;
  }

  datatype StepPrior = Pending | InProgress(begin: EntryHash) | Completed(result: nat)

  function Classify(name: string, ev: StepEvidence): StepPrior {
    if name !in ev.begins then Pending
    else if ev.begins[name] in ev.ends then Completed(ev.ends[ev.begins[name]])
    else InProgress(ev.begins[name])
  }

  // ----- the step log a disciplined workflow leaves

  predicate DistinctNames(plan: seq<string>) {
    forall i, k :: 0 <= i < k < |plan| ==> plan[i] != plan[k]
  }

  ghost predicate IsBegin(e: Entry, name: string) { IsBeginEntry(e) && e.payload.name == name }

  ghost predicate IsEnd(e: Entry, result: nat, begin: EntryHash) {
    IsEndEntry(e) && e.payload.result == result && e.parents == [begin]
  }

  /** Begin/end pairs for a plan prefix, then at most one unpaired begin: `ids` are
      the begins in plan order and `results` the results of the paired ones. */
  ghost predicate Matches(es: seq<Entry>, plan: seq<string>, ids: seq<EntryHash>, results: seq<nat>)
    decreases |es|
  {
    && |results| <= |ids| <= |results| + 1 && |ids| <= |plan|
    && if es == [] then ids == []
       else
         var init, last := es[..|es| - 1], es[|es| - 1];
         if |ids| > |results| then
           && IsBegin(last, plan[|ids| - 1]) && last.id == ids[|ids| - 1]
           && Matches(init, plan, ids[..|ids| - 1], results)
         else
           && ids != [] && IsEnd(last, results[|ids| - 1], ids[|ids| - 1])
           && Matches(init, plan, ids, results[..|ids| - 1])
  }

  /** The same shape, entry by entry. */
  lemma {:induction false} MatchesShape(es: seq<Entry>, plan: seq<string>, ids: seq<EntryHash>, results: seq<nat>,
                                        i: nat)
    requires Matches(es, plan, ids, results)
    ensures |es| == |ids| + |results|
    ensures i < |ids| ==> IsBegin(es[2 * i], plan[i]) && es[2 * i].id == ids[i]
    ensures i < |results| ==> IsEnd(es[2 * i + 1], results[i], ids[i])
    decreases |es|
  {
    if es != [] {
      var init := es[..|es| - 1];
      if |ids| > |results| {
        MatchesShape(init, plan, ids[..|ids| - 1], results, i);
      } else {
        MatchesShape(init, plan, ids, results[..|ids| - 1], i);
      }
    }
  }

  // ----- what a scan of such a log finds

  ghost function BeginsOf(plan: seq<string>, ids: seq<EntryHash>): map<string, EntryHash>
    requires |ids| <= |plan|
  {
    if ids == [] then map[]
    else
      var n := |ids| - 1;
      BeginsOf(plan, ids[..n])[plan[n] := ids[n]]
  }

  ghost function NamesOf(plan: seq<string>, ids: seq<EntryHash>): map<EntryHash, string>
    requires |ids| <= |plan|
  {
    if ids == [] then map[]
    else
      var n := |ids| - 1;
      NamesOf(plan, ids[..n])[ids[n] := plan[n]]
  }

  ghost function EndsOf(ids: seq<EntryHash>, results: seq<nat>): map<EntryHash, nat>
    requires |results| <= |ids|
  {
    if results == [] then map[]
    else
      var n := |results| - 1;
      EndsOf(ids, results[..n])[ids[n] := results[n]]
  }

  lemma {:induction false} EndsPrefix(ids: seq<EntryHash>, n: nat, results: seq<nat>)
    requires |results| <= n <= |ids|
    ensures EndsOf(ids[..n], results) == EndsOf(ids, results)
    decreases |results|
  {
    if results != [] { EndsPrefix(ids, n, results[..|results| - 1]); }
  }

  /** The scan of a disciplined log finds exactly its begins and its ends. */
  lemma {:induction false} EvidenceIs(es: seq<Entry>, plan: seq<string>, ids: seq<EntryHash>, results: seq<nat>)
    requires Matches(es, plan, ids, results)
    ensures EvidenceOf(es) == StepEvidence(BeginsOf(plan, ids), NamesOf(plan, ids), EndsOf(ids, results))
    decreases |es|
  {
    if es != [] {
      var init := es[..|es| - 1];
      if |ids| > |results| {
        EvidenceIs(init, plan, ids[..|ids| - 1], results);
        EndsPrefix(ids, |ids| - 1, results);
      } else {
        EvidenceIs(init, plan, ids, results[..|ids| - 1]);
      }
    }
  }

  lemma {:induction false} BeginAt(plan: seq<string>, ids: seq<EntryHash>, i: nat)
    requires DistinctNames(plan) && i < |plan| && |ids| <= |plan|
    ensures plan[i] in BeginsOf(plan, ids) <==> i < |ids|
    ensures i < |ids| ==> BeginsOf(plan, ids)[plan[i]] == ids[i]
    decreases |ids|
  {
    if ids != [] { BeginAt(plan, ids[..|ids| - 1], i); }
  }

  lemma {:induction false} EndAt(ids: seq<EntryHash>, results: seq<nat>, i: nat)
    requires Distinct(ids) && i < |ids| && |results| <= |ids|
    ensures ids[i] in EndsOf(ids, results) <==> i < |results|
    ensures i < |results| ==> EndsOf(ids, results)[ids[i]] == results[i]
    decreases |results|
  {
    if results != [] { EndAt(ids, results[..|results| - 1], i); }
  }

  lemma {:induction false} NamesAt(plan: seq<string>, ids: seq<EntryHash>)
    requires Distinct(ids) && |ids| <= |plan|
    ensures |NamesOf(plan, ids)| == |ids|
    ensures forall h :: h in NamesOf(plan, ids) ==> h in ids
    ensures forall i :: 0 <= i < |ids| ==> ids[i] in NamesOf(plan, ids) && NamesOf(plan, ids)[ids[i]] == plan[i]
    decreases |ids|
  {
    if ids != [] {
      var n := |ids| - 1;
      NamesAt(plan, ids[..n]);
      assert forall i :: 0 <= i < n ==> ids[..n][i] == ids[i];
      assert ids[n] !in ids[..n];
    }
  }

  /** Paired steps are skipped with their result, the open one is in progress, the
      rest are pending. */
  lemma ClassifyPlan(es: seq<Entry>, plan: seq<string>, ids: seq<EntryHash>, results: seq<nat>, i: nat)
    requires Matches(es, plan, ids, results) && DistinctNames(plan) && Distinct(ids) && i < |plan|
    ensures Classify(plan[i], EvidenceOf(es)) ==
            if i < |results| then Completed(results[i]) else if i < |ids| then InProgress(ids[i]) else Pending
  {
    EvidenceIs(es, plan, ids, results);
    BeginAt(plan, ids, i);
    if i < |ids| { EndAt(ids, results, i); }
  }

  // ----- recovery

  /** Completed steps in journal order, named by the begins they pair with. */
  function CompletedOf(es: seq<Entry>, names: map<EntryHash, string>): seq<(string, nat)> {
    if es == [] then []
    else
      var e := es[|es| - 1];
      CompletedOf(es[..|es| - 1], names) + CompletedBy(e, names)
  }

  function CompletedBy(e: Entry, names: map<EntryHash, string>): seq<(string, nat)> {
    if IsEndEntry(e) && e.parents[0] in names then [(names[e.parents[0]], e.payload.result)] else []
  }

  function Pairs(plan: seq<string>, results: seq<nat>): (r: seq<(string, nat)>)
    requires |results| <= |plan|
    ensures |r| == |results| && forall i :: 0 <= i < |r| ==> r[i] == (plan[i], results[i])
  {
    seq(|results|, i requires 0 <= i < |results| => (plan[i], results[i]))
  }

  lemma {:induction false} CompletedArePairs(es: seq<Entry>, names: map<EntryHash, string>, plan: seq<string>,
                                             ids: seq<EntryHash>, results: seq<nat>)
    requires Matches(es, plan, ids, results)
    requires forall i :: 0 <= i < |ids| ==> ids[i] in names && names[ids[i]] == plan[i]
    ensures CompletedOf(es, names) == Pairs(plan, results)
    decreases |es|
  {
    if es != [] {
      var init := es[..|es| - 1];
      if |ids| > |results| {
        CompletedArePairs(init, names, plan, ids[..|ids| - 1], results);
      } else {
        var n := |results| - 1;
        CompletedArePairs(init, names, plan, ids, results[..n]);
        assert Pairs(plan, results) == Pairs(plan, results[..n]) + [(plan[n], results[n])];
      }
    }
  }

  lemma {:induction false} CompletedOfSteps(es: seq<Entry>, names: map<EntryHash, string>)
    ensures CompletedOf(es, names) == CompletedOf(Steps(es), names)
  {
    if es != [] {
      var n := |es| - 1;
      CompletedOfSteps(es[..n], names);
      assert Steps(es[..n]) + [] == Steps(es[..n]);
      CompletedSnoc(Steps(es[..n]), es[n], names);
    }
  }

  lemma CompletedSnoc(es: seq<Entry>, e: Entry, names: map<EntryHash, string>)
    ensures CompletedOf(es + [e], names) == CompletedOf(es, names) + CompletedBy(e, names)
  {
    assert (es + [e])[..|es|] == es;
  }

  lemma CompletedNext(log: Log, actor: ActorId, names: map<EntryHash, string>, i: nat)
    requires i < |log|
    ensures CompletedOf(ActorEntries(log[..i + 1], actor), names)
         == CompletedOf(ActorEntries(log[..i], actor), names)
            + if log[i].actor == actor then CompletedBy(log[i], names) else []
  {
    assert log[..i + 1] == log[..i] + [log[i]];
    ActorSnoc(log[..i], log[i], actor);
    CompletedSnoc(ActorEntries(log[..i], actor), log[i], names);
  }

  method ScanCompleted(log: Log, actor: ActorId, names: map<EntryHash, string>) returns (completed: seq<(string, nat)>)
    ensures completed == CompletedOf(ActorEntries(log, actor), names)
  {
    completed := [];
    var i := 0;
    while i < |log|
      invariant 0 <= i <= |log| && completed == CompletedOf(ActorEntries(log[..i], actor), names)
    {
      CompletedNext(log, actor, names, i);
      if log[i].actor == actor {
        completed := completed + CompletedBy(log[i], names);
      }
      i := i + 1;
    }
    assert log[..i] == log;
  }

  /** What recovery computes from a disciplined log. */
  lemma RecoveredIs(es: seq<Entry>, plan: seq<string>, ids: seq<EntryHash>, results: seq<nat>)
    requires Matches(es, plan, ids, results) && Distinct(ids)
    ensures |EvidenceOf(es).beginNames| == |ids|
    ensures CompletedOf(es, EvidenceOf(es).beginNames) == Pairs(plan, results)
  {
    EvidenceIs(es, plan, ids, results);
    NamesAt(plan, ids);
    CompletedArePairs(es, NamesOf(plan, ids), plan, ids, results);
  }

  // ----- the discipline

  /** The step entries are begin/end pairs for a plan prefix with at most one trailing
      begin, and while a step is open its begin is the actor's head. Other entries of the
      actor may stand anywhere else. */
  ghost predicate Disciplined(log: Log, actor: ActorId, plan: seq<string>, ids: seq<EntryHash>, results: seq<nat>) {
    && Matches(StepEntries(log, actor), plan, ids, results) && Distinct(ids)
    && (|ids| > |results| ==> Head(log, actor) == Some(ids[|results|]))
  }

  lemma DisciplinedEvidence(log: Log, actor: ActorId, plan: seq<string>, ids: seq<EntryHash>, results: seq<nat>)
    requires Disciplined(log, actor, plan, ids, results)
    ensures EvidenceOf(ActorEntries(log, actor)) == EvidenceOf(StepEntries(log, actor))
    ensures EvidenceOf(ActorEntries(log, actor))
         == StepEvidence(BeginsOf(plan, ids), NamesOf(plan, ids), EndsOf(ids, results))
  {
    EvidenceOfSteps(ActorEntries(log, actor));
    EvidenceIs(StepEntries(log, actor), plan, ids, results);
  }

  lemma BeginsAreRecorded(log: Log, actor: ActorId, plan: seq<string>, ids: seq<EntryHash>, results: seq<nat>, i: nat)
    requires Disciplined(log, actor, plan, ids, results) && i < |ids|
    ensures !Unused(log, ids[i])
  {
    var es := StepEntries(log, actor);
    MatchesShape(es, plan, ids, results, i);
    ActorEntriesIn(log, actor);
    assert es[2 * i] in es && es[2 * i] in log;
  }

  lemma BeginMatches(es: seq<Entry>, plan: seq<string>, ids: seq<EntryHash>, results: seq<nat>, e: Entry)
    requires Matches(es, plan, ids, results) && |ids| == |results| < |plan| && IsBegin(e, plan[|ids|])
    ensures Matches(es + [e], plan, ids + [e.id], results)
  {
    assert (es + [e])[..|es|] == es && (ids + [e.id])[..|ids|] == ids;
  }

  lemma EndMatches(es: seq<Entry>, plan: seq<string>, ids: seq<EntryHash>, results: seq<nat>, e: Entry, value: nat)
    requires Matches(es, plan, ids, results) && |ids| == |results| + 1 && IsEnd(e, value, ids[|results|])
    ensures Matches(es + [e], plan, ids, results + [value])
  {
    assert (es + [e])[..|es|] == es && (results + [value])[..|results|] == results;
  }

  /** A begin for the next step, while none is open. */
  lemma BeginKeepsDiscipline(log: Log, actor: ActorId, plan: seq<string>, ids: seq<EntryHash>, results: seq<nat>,
                             e: Entry)
    requires Disciplined(log, actor, plan, ids, results) && |ids| == |results| < |plan|
    requires e.actor == actor && IsBegin(e, plan[|ids|]) && Unused(log, e.id)
    ensures Disciplined(log + [e], actor, plan, ids + [e.id], results)
  {
    StepsSnoc(log, e, actor);
    ActorSnoc(log, e, actor);
    BeginMatches(StepEntries(log, actor), plan, ids, results, e);
    forall i | 0 <= i < |ids|
      ensures ids[i] != e.id
    {
      BeginsAreRecorded(log, actor, plan, ids, results, i);
    }
  }

  /** An end for the open step, below the actor's head. */
  lemma EndKeepsDiscipline(log: Log, actor: ActorId, plan: seq<string>, ids: seq<EntryHash>, results: seq<nat>,
                           e: Entry, value: nat)
    requires Disciplined(log, actor, plan, ids, results) && |ids| == |results| + 1
    requires e.actor == actor && e.kind == StepEnd && e.payload.StepEndCompleted? && e.payload.result == value
    requires e.parents == AssembleParents(Head(log, actor), [ids[|results|]])
    ensures Disciplined(log + [e], actor, plan, ids, results + [value])
  {
    FirstParent(Head(log, actor), ids[|results|]);
    StepsSnoc(log, e, actor);
    EndMatches(StepEntries(log, actor), plan, ids, results, e, value);
  }

  // ----- one append in general

  /** The entry that a step end appends. */
  function EndEntry(log: Log, actor: ActorId, begin: EntryHash, stepId: nat, value: nat): Entry {
    Appended(log, StepEnd, actor, [begin], StepEndCompleted(stepId, value))
  }

  lemma EndIsRecorded(log: Log, e: Entry)
    requires IsEndEntry(e)
    ensures var ev := EvidenceOf(ActorEntries(log, e.actor));
            EvidenceOf(ActorEntries(log + [e], e.actor)) == ev.(ends := ev.ends[e.parents[0] := e.payload.result])
  {
    ActorSnoc(log, e, e.actor);
    EvidenceSnoc(ActorEntries(log, e.actor), e);
  }

  /** An end pairs with the begin it names exactly when the actor has appended nothing
      after that begin. Otherwise it is booked on whatever entry is the actor's head. */
  lemma EndPairsIffHead(log: Log, actor: ActorId, begin: EntryHash, stepId: nat, value: nat)
    ensures var ends := EvidenceOf(ActorEntries(log, actor)).ends;
            var booked := match Head(log, actor) case None => begin case Some(h) => h;
            var ended := log + [EndEntry(log, actor, begin, stepId, value)];
            && EvidenceOf(ActorEntries(ended, actor)).ends == ends[booked := value]
            && (begin !in ends ==> (booked == begin <==> begin in ends[booked := value]))
  {
    FirstParent(Head(log, actor), begin);
    EndIsRecorded(log, EndEntry(log, actor, begin, stepId, value));
  }
}
