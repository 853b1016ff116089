/** Whole runs of a durable workflow: attempts that fail anywhere, with other entries
    appended in between.
 */
module Episodes {
  import opened Journals
  import opened Store
  import opened Workflow
  import opened Resume

  // ----- entries appended between attempts

  /** Every entry gets an address that was not used before. */
  ghost predicate Fresh(log: Log, noise: Log) {
    forall i :: 0 <= i < |noise| ==> Unused(log, noise[i].id)
  }

  /** Only the engine records steps; the actor may append anything else. */
  ghost predicate StepFree(noise: Log, actor: ActorId) {
    forall i :: 0 <= i < |noise| && noise[i].actor == actor ==> !IsStep(noise[i])
  }

  predicate Touches(noise: Log, actor: ActorId) {
    exists i :: 0 <= i < |noise| && noise[i].actor == actor
  }

  lemma StepsKeep(log: Log, e: Entry, actor: ActorId)
    requires !(e.actor == actor && IsStep(e))
    ensures StepEntries(log + [e], actor) == StepEntries(log, actor)
  {
    StepsSnoc(log, e, actor);
  }

  lemma {:induction false} NoiseSteps(log: Log, noise: Log, actor: ActorId)
    requires StepFree(noise, actor)
    ensures StepEntries(log + noise, actor) == StepEntries(log, actor)
    decreases |noise|
  {
    if noise == [] {
      assert log + noise == log;
    } else {
      var init, last := noise[..|noise| - 1], noise[|noise| - 1];
      assert !(last.actor == actor && IsStep(last));
      NoiseSteps(log, init, actor);
      StepsKeep(log + init, last, actor);
      assert log + noise == (log + init) + [last];
    }
  }

  lemma NoiseEvidence(log: Log, noise: Log, actor: ActorId)
    requires StepFree(noise, actor)
    ensures Evidence(log + noise, actor) == Evidence(log, actor)
  {
    NoiseSteps(log, noise, actor);
    EvidenceOfSteps(ActorEntries(log + noise, actor));
    EvidenceOfSteps(ActorEntries(log, actor));
  }

  ghost predicate IsOwn(noise: Log, actor: ActorId, h: EntryHash) {
    exists i :: 0 <= i < |noise| && noise[i].actor == actor && noise[i].id == h
  }

  lemma HeadSnoc(log: Log, e: Entry, actor: ActorId)
    ensures Head(log + [e], actor) == if e.actor == actor then Some(e.id) else Head(log, actor)
  {
    ActorSnoc(log, e, actor);
  }

  lemma {:induction false} NoiseMovesHead(log: Log, noise: Log, actor: ActorId)
    ensures !Touches(noise, actor) ==> Head(log + noise, actor) == Head(log, actor)
    ensures Touches(noise, actor) ==>
              Head(log + noise, actor).Some? && IsOwn(noise, actor, Head(log + noise, actor).value)
    decreases |noise|
  {
    if noise == [] {
      assert log + noise == log;
    } else {
      var n := |noise| - 1;
      NoiseMovesHead(log, noise[..n], actor);
      HeadSnoc(log + noise[..n], noise[n], actor);
      assert log + noise == (log + noise[..n]) + [noise[n]];
      assert forall i :: 0 <= i < n ==> noise[..n][i] == noise[i];
    }
  }

  /** The head stays, or becomes an entry that is not in the log. */
  lemma NoiseHead(log: Log, noise: Log, actor: ActorId)
    requires Fresh(log, noise)
    ensures !Touches(noise, actor) ==> Head(log + noise, actor) == Head(log, actor)
    ensures Touches(noise, actor) ==> Head(log + noise, actor).Some? && Unused(log, Head(log + noise, actor).value)
  {
    NoiseMovesHead(log, noise, actor);
  }

  // ----- a step that can never be paired

  /** The begin of `name` is unpaired and no longer the actor's head. */
  ghost predicate Lost(log: Log, actor: ActorId, name: string, begin: EntryHash) {
    var ev := Evidence(log, actor);
    && name in ev.begins && ev.begins[name] == begin && begin !in ev.ends
    && (forall h :: h in ev.beginNames && ev.beginNames[h] == name ==> h == begin)
    && Head(log, actor).Some? && Head(log, actor).value != begin && !Unused(log, begin)
  }

  /** Entries between attempts keep the discipline, unless one of the actor's own lands
      behind an open begin. Then that step is lost. */
  lemma NoiseDecides(log: Log, noise: Log, actor: ActorId, plan: seq<string>, ids: seq<EntryHash>, results: seq<nat>)
    requires Disciplined(log, actor, plan, ids, results) && DistinctNames(plan) && StepFree(noise, actor)
             && Fresh(log, noise)
    ensures |ids| == |results| || !Touches(noise, actor) ==> Disciplined(log + noise, actor, plan, ids, results)
    ensures |ids| > |results| && Touches(noise, actor) ==> Lost(log + noise, actor, plan[|results|], ids[|results|])
  {
    NoiseSteps(log, noise, actor);
    NoiseEvidence(log, noise, actor);
    NoiseHead(log, noise, actor);
    if |ids| > |results| && Touches(noise, actor) {
      BeginsAreRecorded(log, actor, plan, ids, results, |results|);
      DisciplinedEvidence(log, actor, plan, ids, results);
      BeginAt(plan, ids, |results|);
      EndAt(ids, results, |results|);
      NamesAt(plan, ids);
      StillUsed(log, noise, ids[|results|]);
    }
  }

  lemma StillUsed(log: Log, more: Log, h: EntryHash)
    requires !Unused(log, h)
    ensures !Unused(log + more, h)
  {
    var i :| 0 <= i < |log| && log[i].id == h;
    assert (log + more)[i].id == h;
  }

  lemma LostNoise(log: Log, noise: Log, actor: ActorId, name: string, begin: EntryHash)
    requires Lost(log, actor, name, begin) && StepFree(noise, actor) && Fresh(log, noise)
    ensures Lost(log + noise, actor, name, begin)
  {
    NoiseSteps(log, noise, actor);
    NoiseEvidence(log, noise, actor);
    NoiseHead(log, noise, actor);
    StillUsed(log, noise, begin);
  }

  lemma LostAppend(log: Log, actor: ActorId, name: string, begin: EntryHash, e: Entry)
    requires Lost(log, actor, name, begin) && e.actor == actor && Unused(log, e.id)
    requires (IsBeginEntry(e) && e.payload.name != name) || (IsEndEntry(e) && e.parents[0] == Head(log, actor).value)
    ensures Lost(log + [e], actor, name, begin)
  {
    ActorSnoc(log, e, actor);
    EvidenceSnoc(ActorEntries(log, actor), e);
    StillUsed(log, [e], begin);
  }

  lemma LostEnd(s: Flow, actor: ActorId, other: string, begin': EntryHash, value: nat, storeOk: bool, name: string,
                begin: EntryHash)
    requires Lost(s.log, actor, name, begin)
    ensures var ended := EndStep(s, actor, other, begin', value, storeOk);
            ended.Some? ==> Lost(ended.value.log, actor, name, begin)
  {
    var e := EndEntry(s.log, actor, begin', s.counter, value);
    FirstParent(Head(s.log, actor), begin');
    LostAppend(s.log, actor, name, begin, e);
  }

  lemma LostTurn(s: Flow, actor: ActorId, other: string, prior: StepPrior, world: World, name: string, begin: EntryHash)
    requires Lost(s.log, actor, name, begin) && (prior.Pending? ==> other != name)
    ensures Lost(TurnOf(s, actor, other, prior, world).flow.log, actor, name, begin)
  {
    match prior {
      case Completed(_) =>
      case InProgress(b) => LostOpen(s, actor, other, b, Rerun, world, name, begin);
      case Pending =>
        var begun := BeginStep(s, actor, other, world.store(|s.log|));
        if begun.Some? {
          LostAppend(s.log, actor, name, begin,
                     Appended(s.log, StepBegin, actor, [], StepBeginPayload(s.counter, other)));
          LostOpen(begun.value, actor, other, FreshId(s.log), Executed, world, name, begin);
        }
    }
  }

  lemma LostOpen(s: Flow, actor: ActorId, other: string, b: EntryHash, status: ResumeStatus, world: World, name: string,
                 begin: EntryHash)
    requires Lost(s.log, actor, name, begin)
    ensures Lost(RunOpen(s, actor, other, b, status, world).flow.log, actor, name, begin)
  {
    var ran := s.(effects := s.effects + [other]);
    var value := world.exec(other, |s.effects|);
    if value.Some? { LostEnd(ran, actor, other, b, value.value, world.store(|ran.log|), name, begin); }
  }

  /** What a turn adds is kept: effects and completed steps only grow. */
  lemma TurnGrows(s: Flow, actor: ActorId, name: string, prior: StepPrior, world: World)
    ensures var t := TurnOf(s, actor, name, prior, world);
            && s.log <= t.flow.log && s.effects <= t.flow.effects && s.completed <= t.flow.completed
            && (t.out.Done? && prior.InProgress? ==> Again(t, name))
  {
  }

  /** The step ran again, and memory counts it as completed. */
  ghost predicate Again(t: Turned, name: string)
    requires t.out.Done?
  {
    && t.out.value.name == name && t.out.value.status == Rerun
    && name in t.flow.effects && (name, t.out.value.result) in t.flow.completed
  }

  lemma LostAttempt(s: Flow, actor: ActorId, plan: seq<string>, world: World, name: string, begin: EntryHash)
    requires Lost(s.log, actor, name, begin)
    ensures Lost(Attempt(s, actor, plan, Evidence(s.log, actor), world).flow.log, actor, name, begin)
  {
    var turn := Turning(actor, Evidence(s.log, actor), world);
    var ok := (t: Attempted, i: nat) => Lost(t.flow.log, actor, name, begin);
    forall t: Attempted, k: nat | k < |plan| && ok(t, k) ensures ok(NextTurn(t, plan[k], turn), k + 1) {
      LostTurn(t.flow, actor, plan[k], Classify(plan[k], Evidence(s.log, actor)), world, name, begin);
    }
    StepByStep(s, plan, |plan|, turn, ok);
  }

  /** Where the lost step stands in an attempt that succeeded. */
  ghost predicate RanAgain(t: Attempted, k: nat, name: string) {
    && t.out.Done? && k < |t.out.value| && t.out.value[k].name == name && t.out.value[k].status == Rerun
    && name in t.flow.effects && (name, t.out.value[k].result) in t.flow.completed
  }

  lemma LostRunsAgain(s: Flow, actor: ActorId, plan: seq<string>, world: World, k: nat, begin: EntryHash)
    requires k < |plan| && Lost(s.log, actor, plan[k], begin)
    requires Attempt(s, actor, plan, Evidence(s.log, actor), world).out.Done?
    ensures RanAgain(Attempt(s, actor, plan, Evidence(s.log, actor), world), k, plan[k])
  {
    var ev := Evidence(s.log, actor);
    var turn := Turning(actor, ev, world);
    var ok := (t: Attempted, i: nat) => RanAgainBy(t, k, plan[k], i);
    forall t: Attempted, i: nat | i < |plan| && ok(t, i) ensures ok(NextTurn(t, plan[i], turn), i + 1) {
      TurnGrows(t.flow, actor, plan[i], Classify(plan[i], ev), world);
      AgainMore(t, k, plan, i, turn, Classify(plan[i], ev).InProgress?);
    }
    StepByStep(s, plan, |plan|, turn, ok);
  }

  ghost predicate RanAgainBy(t: Attempted, k: nat, name: string, i: nat) {
    t.out.Done? ==> |t.out.value| == i && (k < i ==> RanAgain(t, k, name))
  }

  lemma AgainMore(t: Attempted, k: nat, plan: seq<string>, i: nat, turn: (Flow, string) -> Turned, open: bool)
    requires k < |plan| && i < |plan| && RanAgainBy(t, k, plan[k], i) && (i == k ==> open)
    requires var u := turn(t.flow, plan[i]); t.flow.effects <= u.flow.effects && t.flow.completed <= u.flow.completed
    requires var u := turn(t.flow, plan[i]); u.out.Done? && open ==> Again(u, plan[i])
    ensures RanAgainBy(NextTurn(t, plan[i], turn), k, plan[k], i + 1)
  {
  }

  lemma {:induction false} EndsHold(es: seq<Entry>, names: map<EntryHash, string>, pair: (string, nat))
    requires pair in CompletedOf(es, names)
    ensures exists h :: h in EvidenceOf(es).ends && h in names && names[h] == pair.0
    decreases |es|
  {
    var n := |es| - 1;
    if pair in CompletedOf(es[..n], names) {
      EndsHold(es[..n], names, pair);
      var h :| h in EvidenceOf(es[..n]).ends && h in names && names[h] == pair.0;
      assert h in EvidenceOf(es).ends;
    } else {
      assert es[n].parents[0] in EvidenceOf(es).ends;
    }
  }

  /** Recovery never reports a lost step, though an attempt that succeeded counts it as
      completed in memory. */
  lemma LostBreaksMirror(t: Attempted, actor: ActorId, name: string, begin: EntryHash, k: nat)
    requires Lost(t.flow.log, actor, name, begin) && RanAgain(t, k, name)
    ensures !Mirrors(t.flow, actor)
  {
    if Mirrors(t.flow, actor) {
      EndsHold(ActorEntries(t.flow.log, actor), Evidence(t.flow.log, actor).beginNames, (name, t.out.value[k].result));
    }
  }

  // ----- runs

  /** Entries appended since the last attempt, and the world the next attempt meets. */
  datatype Episode = Episode(noise: Log, world: World)

  /** What recovery reads from a journal. */
  function Recovered(log: Log, actor: ActorId): Flow {
    var names := Evidence(log, actor).beginNames;
    Flow(log, |names|, CompletedOf(ActorEntries(log, actor), names), [])
  }

  /** Recover from the journal and resume once. */
  function Play(log: Log, actor: ActorId, plan: seq<string>, e: Episode): Attempted {
    Attempt(Recovered(log + e.noise, actor), actor, plan, Evidence(log + e.noise, actor), e.world)
  }

  /** A run: the journal before each episode and after the last, and each attempt. */
  datatype Run = Run(logs: seq<Log>, plays: seq<Attempted>)

  ghost predicate Played(run: Run, actor: ActorId, plan: seq<string>, episodes: seq<Episode>, n: nat)
    requires n < |episodes| == |run.plays| && |run.logs| == |run.plays| + 1
  {
    run.plays[n] == Play(run.logs[n], actor, plan, episodes[n]) && run.logs[n + 1] == run.plays[n].flow.log
  }

  ghost predicate IsRun(run: Run, actor: ActorId, plan: seq<string>, episodes: seq<Episode>) {
    && |run.plays| == |episodes| && |run.logs| == |episodes| + 1
    && forall n :: 0 <= n < |episodes| ==> Played(run, actor, plan, episodes, n)
  }

  /** The engine, run episode by episode. */
  method RunEpisodes(journal: DurableJournal, actor: ActorId, plan: seq<string>, episodes: seq<Episode>)
    returns (results: seq<FlowResult<seq<StepOutcome>>>, ghost run: Run)
    modifies journal
    ensures IsRun(run, actor, plan, episodes) && run.logs[0] == old(journal.log) && run.logs[|episodes|] == journal.log
    ensures |results| == |episodes| && forall n :: 0 <= n < |episodes| ==> results[n] == run.plays[n].out
  {
    run := Run([journal.log], []);
    results := [];
    var n := 0;
    while n < |episodes|
      invariant 0 <= n <= |episodes| && IsRun(run, actor, plan, episodes[..n])
      invariant run.logs[0] == old(journal.log) && run.logs[n] == journal.log
      invariant |results| == n && forall m :: 0 <= m < n ==> results[m] == run.plays[m].out
    {
      ghost var before := journal.log;
      var r := RunEpisode(journal, actor, plan, episodes[n]);
      ghost var t := Play(before, actor, plan, episodes[n]);
      RunMore(run, actor, plan, episodes, n, t);
      run := Run(run.logs + [t.flow.log], run.plays + [t]);
      results := results + [r];
      n := n + 1;
    }
    assert episodes[..n] == episodes;
  }

  method RunEpisode(journal: DurableJournal, actor: ActorId, plan: seq<string>, e: Episode)
    returns (r: FlowResult<seq<StepOutcome>>)
    modifies journal
    ensures var t := Play(old(journal.log), actor, plan, e); journal.log == t.flow.log && r == t.out
  {
    journal.log := journal.log + e.noise;
    var flow := new WorkflowExecution.RecoverFromJournal(actor, journal.log);
    flow.SetPlan(plan);
    assert flow.Now(journal) == Recovered(journal.log, actor);
    r := flow.Resume(journal, e.world);
  }

  lemma RunMore(run: Run, actor: ActorId, plan: seq<string>, episodes: seq<Episode>, n: nat, t: Attempted)
    requires n < |episodes| && IsRun(run, actor, plan, episodes[..n])
             && t == Play(run.logs[n], actor, plan, episodes[n])
    ensures IsRun(Run(run.logs + [t.flow.log], run.plays + [t]), actor, plan, episodes[..n + 1])
  {
    var more, played := Run(run.logs + [t.flow.log], run.plays + [t]), episodes[..n + 1];
    forall m | 0 <= m < n + 1 ensures Played(more, actor, plan, played, m) {
      if m < n { assert Played(run, actor, plan, episodes[..n], m); }
    }
  }

  // ----- clean runs

  /** Between attempts only the engine records steps, and addresses are not reused. */
  ghost predicate Orderly(run: Run, actor: ActorId, plan: seq<string>, episodes: seq<Episode>) {
    && IsRun(run, actor, plan, episodes) && DistinctNames(plan) && StepEntries(run.logs[0], actor) == []
    && forall n :: 0 <= n < |episodes| ==> StepFree(episodes[n].noise, actor) && Fresh(run.logs[n], episodes[n].noise)
  }

  /** No planned step is open. */
  ghost predicate Idle(log: Log, actor: ActorId, plan: seq<string>) {
    forall i :: 0 <= i < |plan| ==> !Classify(plan[i], Evidence(log, actor)).InProgress?
  }

  /** The actor appended nothing of its own in episode `m`, or no step was open. */
  ghost predicate CleanAt(run: Run, actor: ActorId, plan: seq<string>, episodes: seq<Episode>, m: nat)
    requires m < |episodes| && m < |run.logs|
  {
    Touches(episodes[m].noise, actor) ==> Idle(run.logs[m], actor, plan)
  }

  /** In the first `n` episodes the actor appended nothing of its own while a step was open. */
  ghost predicate Clean(run: Run, actor: ActorId, plan: seq<string>, episodes: seq<Episode>, n: nat)
    requires n <= |episodes| < |run.logs|
  {
    forall m :: 0 <= m < n ==> CleanAt(run, actor, plan, episodes, m)
  }

  ghost predicate InOrder(log: Log, actor: ActorId, plan: seq<string>) {
    exists ids, results :: Disciplined(log, actor, plan, ids, results)
  }

  lemma PriorIs(log: Log, actor: ActorId, plan: seq<string>, ids: seq<EntryHash>, results: seq<nat>, i: nat)
    requires Disciplined(log, actor, plan, ids, results) && DistinctNames(plan) && i < |plan|
    ensures Classify(plan[i], Evidence(log, actor)) ==
            if i < |results| then Completed(results[i]) else if i < |ids| then InProgress(ids[i]) else Pending
  {
    DisciplinedEvidence(log, actor, plan, ids, results);
    ClassifyPlan(StepEntries(log, actor), plan, ids, results, i);
  }

  lemma IdleIffClosed(log: Log, actor: ActorId, plan: seq<string>, ids: seq<EntryHash>, results: seq<nat>)
    requires Disciplined(log, actor, plan, ids, results) && DistinctNames(plan)
    ensures Idle(log, actor, plan) <==> |ids| == |results|
  {
    forall i | 0 <= i < |plan|
      ensures Classify(plan[i], Evidence(log, actor)).InProgress? <==> |results| <= i < |ids|
    {
      PriorIs(log, actor, plan, ids, results, i);
    }
    if |ids| > |results| {
      assert Classify(plan[|results|], Evidence(log, actor)).InProgress?;
    }
  }

  /** What one episode does to a disciplined journal. */
  ghost predicate Paced(t: Attempted, actor: ActorId, plan: seq<string>, results0: seq<nat>, ids: seq<EntryHash>,
                        results: seq<nat>) {
    && Disciplined(t.flow.log, actor, plan, ids, results) && Mirrors(t.flow, actor)
    && results0 <= results && (t.out.Done? <==> |results| == |plan|)
    && RanUpTo([], t.flow.effects, plan, |results0|, |results|)
  }

  /** An attempt that succeeded reports every step of the plan. */
  ghost predicate Reported(t: Attempted, plan: seq<string>, results: seq<nat>, paired: nat, begun: nat) {
    t.out.Done? ==> |t.out.value| == |plan| && Reports(t.out.value, plan, results, paired, begun)
  }

  /** The results from `from` on are what the effects returned, one run after the other. */
  ghost predicate Earned(world: World, plan: seq<string>, from: nat, results: seq<nat>) {
    |results| <= |plan| && forall i :: from <= i < |results| ==> world.exec(plan[i], i - from) == Some(results[i])
  }

  /** One episode from a disciplined journal, when its own entries came while idle. */
  lemma PlayKeeps(log: Log, actor: ActorId, plan: seq<string>, e: Episode, ids0: seq<EntryHash>, results0: seq<nat>)
    returns (ids: seq<EntryHash>, results: seq<nat>)
    requires DistinctNames(plan) && Disciplined(log, actor, plan, ids0, results0)
    requires StepFree(e.noise, actor) && Fresh(log, e.noise) && (Touches(e.noise, actor) ==> Idle(log, actor, plan))
    ensures Paced(Play(log, actor, plan, e), actor, plan, results0, ids, results)
    ensures Reported(Play(log, actor, plan, e), plan, results, |results0|, |ids0|)
    ensures Earned(e.world, plan, |results0|, results)
    ensures |results0| == |plan| ==> Play(log, actor, plan, e).flow == Recovered(log + e.noise, actor)
  {
    IdleIffClosed(log, actor, plan, ids0, results0);
    NoiseDecides(log, e.noise, actor, plan, ids0, results0);
    ids, results := RecoverAndResume(log + e.noise, actor, plan, e.world, ids0, results0);
  }

  lemma RecoverAndResume(log: Log, actor: ActorId, plan: seq<string>, world: World, ids0: seq<EntryHash>,
                         results0: seq<nat>)
    returns (ids: seq<EntryHash>, results: seq<nat>)
    requires DistinctNames(plan) && Disciplined(log, actor, plan, ids0, results0)
    ensures var t := Attempt(Recovered(log, actor), actor, plan, Evidence(log, actor), world);
            && Paced(t, actor, plan, results0, ids, results) && Reported(t, plan, results, |results0|, |ids0|)
            && (|results0| == |plan| ==> t.flow == Recovered(log, actor)) && Earned(world, plan, |results0|, results)
  {
    var g := Start(Recovered(log, actor), ids0, results0, world);
    ids, results := ResumeKeeps(g, actor, plan);
    KeptIsPaced(g, Attempt(g.flow, actor, plan, Evidence(log, actor), world), actor, plan, ids, results);
  }

  lemma KeptIsPaced(g: Start, t: Attempted, actor: ActorId, plan: seq<string>, ids: seq<EntryHash>, results: seq<nat>)
    requires Kept(g, t, actor, plan, ids, results) && g.flow.effects == []
    ensures Paced(t, actor, plan, g.results, ids, results) && Reported(t, plan, results, |g.results|, |g.ids|)
    ensures Earned(g.world, plan, |g.results|, results)
  {
    forall i | |g.results| <= i < |results|
      ensures g.world.exec(plan[i], i - |g.results|) == Some(results[i])
    {
      assert EffectOf(g, plan, i) == Some(results[i]);
    }
  }

  /** The same inside a run. */
  lemma EpisodeKeeps(run: Run, actor: ActorId, plan: seq<string>, episodes: seq<Episode>, n: nat)
    returns (ids0: seq<EntryHash>, results0: seq<nat>, ids: seq<EntryHash>, results: seq<nat>)
    requires Orderly(run, actor, plan, episodes) && n < |episodes|
    requires InOrder(run.logs[n], actor, plan) && CleanAt(run, actor, plan, episodes, n)
    ensures Disciplined(run.logs[n], actor, plan, ids0, results0)
    ensures Paced(run.plays[n], actor, plan, results0, ids, results) && run.logs[n + 1] == run.plays[n].flow.log
    ensures Reported(run.plays[n], plan, results, |results0|, |ids0|)
    ensures Earned(episodes[n].world, plan, |results0|, results)
  {
    assert Played(run, actor, plan, episodes, n);
    ids0, results0 :| Disciplined(run.logs[n], actor, plan, ids0, results0);
    ids, results := PlayKeeps(run.logs[n], actor, plan, episodes[n], ids0, results0);
  }

  lemma EpisodeInOrder(run: Run, actor: ActorId, plan: seq<string>, episodes: seq<Episode>, n: nat)
    requires Orderly(run, actor, plan, episodes) && n < |episodes|
    requires InOrder(run.logs[n], actor, plan) && CleanAt(run, actor, plan, episodes, n)
    ensures InOrder(run.logs[n + 1], actor, plan)
  {
    var ids0, results0, ids, results := EpisodeKeeps(run, actor, plan, episodes, n);
  }

  lemma StartInOrder(log: Log, actor: ActorId, plan: seq<string>)
    requires StepEntries(log, actor) == []
    ensures Disciplined(log, actor, plan, [], [])
  {
  }

  /** A clean run is disciplined after every episode. */
  lemma {:induction false} CleanKeepsOrder(run: Run, actor: ActorId, plan: seq<string>, episodes: seq<Episode>, n: nat)
    requires Orderly(run, actor, plan, episodes) && n <= |episodes| && Clean(run, actor, plan, episodes, n)
    ensures InOrder(run.logs[n], actor, plan)
    decreases n
  {
    if n == 0 {
      StartInOrder(run.logs[0], actor, plan);
    } else {
      CleanKeepsOrder(run, actor, plan, episodes, n - 1);
      EpisodeInOrder(run, actor, plan, episodes, n - 1);
    }
  }

  // ----- unclean runs

  /** A lost step stays lost through one more episode. */
  lemma EpisodeLoses(run: Run, actor: ActorId, plan: seq<string>, episodes: seq<Episode>, n: nat, name: string,
                     begin: EntryHash)
    requires IsRun(run, actor, plan, episodes) && n < |episodes|
    requires Lost(run.logs[n] + episodes[n].noise, actor, name, begin)
    ensures Lost(run.logs[n + 1], actor, name, begin) && run.logs[n + 1] == run.plays[n].flow.log
  {
    assert Played(run, actor, plan, episodes, n);
    LostAttempt(Recovered(run.logs[n] + episodes[n].noise, actor), actor, plan, episodes[n].world, name, begin);
  }

  lemma {:induction false} LostForever(run: Run, actor: ActorId, plan: seq<string>, episodes: seq<Episode>,
                                       m: nat, n: nat, name: string, begin: EntryHash)
    requires Orderly(run, actor, plan, episodes) && m < n <= |episodes|
    requires Lost(run.logs[m] + episodes[m].noise, actor, name, begin)
    ensures Lost(run.logs[n], actor, name, begin)
    decreases n
  {
    if m < n - 1 {
      LostForever(run, actor, plan, episodes, m, n - 1, name, begin);
      LostNoise(run.logs[n - 1], episodes[n - 1].noise, actor, name, begin);
    }
    EpisodeLoses(run, actor, plan, episodes, n - 1, name, begin);
  }

  /** The first episode in which the actor appended behind an open begin. */
  lemma {:induction false} FirstUnclean(run: Run, actor: ActorId, plan: seq<string>, episodes: seq<Episode>, n: nat)
    returns (m: nat)
    requires n <= |episodes| < |run.logs| && !Clean(run, actor, plan, episodes, n)
    ensures m < n && Clean(run, actor, plan, episodes, m) && !CleanAt(run, actor, plan, episodes, m)
    decreases n
  {
    m := n - 1;
    if !Clean(run, actor, plan, episodes, n - 1) { m := FirstUnclean(run, actor, plan, episodes, n - 1); }
  }

  /** An unclean run has lost a step, for good. */
  lemma UncleanLoses(run: Run, actor: ActorId, plan: seq<string>, episodes: seq<Episode>, n: nat)
    returns (k: nat, begin: EntryHash)
    requires Orderly(run, actor, plan, episodes) && n <= |episodes| && !Clean(run, actor, plan, episodes, n)
    ensures k < |plan| && Lost(run.logs[n], actor, plan[k], begin)
  {
    var m := FirstUnclean(run, actor, plan, episodes, n);
    CleanKeepsOrder(run, actor, plan, episodes, m);
    var ids, results :| Disciplined(run.logs[m], actor, plan, ids, results);
    IdleIffClosed(run.logs[m], actor, plan, ids, results);
    NoiseDecides(run.logs[m], episodes[m].noise, actor, plan, ids, results);
    k, begin := |results|, ids[|results|];
    LostForever(run, actor, plan, episodes, m, n, plan[k], begin);
  }

  ghost predicate PairedInFull(log: Log, actor: ActorId, plan: seq<string>) {
    forall i :: 0 <= i < |plan| ==> Classify(plan[i], Evidence(log, actor)).Completed?
  }

  lemma AllPaired(log: Log, actor: ActorId, plan: seq<string>, ids: seq<EntryHash>, results: seq<nat>)
    requires Disciplined(log, actor, plan, ids, results) && DistinctNames(plan) && |results| == |plan|
    ensures PairedInFull(log, actor, plan)
  {
    forall i | 0 <= i < |plan| ensures Classify(plan[i], Evidence(log, actor)).Completed? {
      PriorIs(log, actor, plan, ids, results, i);
    }
  }

  /** A resume that returned Ok has paired the whole plan exactly when the actor appended
      nothing of its own behind an open begin, now or ever before in the run. */
  lemma OkMeansPairedIffClean(run: Run, actor: ActorId, plan: seq<string>, episodes: seq<Episode>, n: nat)
    requires Orderly(run, actor, plan, episodes) && n < |episodes| && run.plays[n].out.Done?
    ensures PairedInFull(run.logs[n + 1], actor, plan) <==> Clean(run, actor, plan, episodes, n + 1)
  {
    if Clean(run, actor, plan, episodes, n + 1) {
      CleanKeepsOrder(run, actor, plan, episodes, n);
      var ids0, results0, ids, results := EpisodeKeeps(run, actor, plan, episodes, n);
      AllPaired(run.logs[n + 1], actor, plan, ids, results);
    } else {
      var k, begin := UncleanLoses(run, actor, plan, episodes, n + 1);
      assert !Classify(plan[k], Evidence(run.logs[n + 1], actor)).Completed?;
    }
  }

  lemma EpisodeRunsAgain(run: Run, actor: ActorId, plan: seq<string>, episodes: seq<Episode>, n: nat, k: nat,
                         begin: EntryHash)
    requires IsRun(run, actor, plan, episodes) && n < |episodes| && k < |plan| && run.plays[n].out.Done?
    requires Lost(run.logs[n] + episodes[n].noise, actor, plan[k], begin)
    ensures RanAgain(run.plays[n], k, plan[k])
  {
    assert Played(run, actor, plan, episodes, n);
    LostRunsAgain(Recovered(run.logs[n] + episodes[n].noise, actor), actor, plan, episodes[n].world, k, begin);
  }

  /** From then on every resume that returns Ok runs the lost effect again, reports it as a
      rerun, and leaves a state in memory that recovery does not give back. */
  lemma UncleanRunsAgain(run: Run, actor: ActorId, plan: seq<string>, episodes: seq<Episode>, n: nat) returns (k: nat)
    requires Orderly(run, actor, plan, episodes) && n < |episodes| && run.plays[n].out.Done?
    requires !Clean(run, actor, plan, episodes, n)
    ensures k < |plan| && RanAgain(run.plays[n], k, plan[k]) && !Mirrors(run.plays[n].flow, actor)
  {
    var begin;
    k, begin := UncleanLoses(run, actor, plan, episodes, n);
    LostNoise(run.logs[n], episodes[n].noise, actor, plan[k], begin);
    EpisodeLoses(run, actor, plan, episodes, n, plan[k], begin);
    EpisodeRunsAgain(run, actor, plan, episodes, n, k, begin);
    LostBreaksMirror(run.plays[n], actor, plan[k], begin, k);
  }

  // ----- failures happen in the best of worlds

  /** Every effect succeeds and every append is stored. */
  ghost predicate Works(world: World) {
    (forall name, n :: world.exec(name, n).Some?) && (forall n :: world.store(n))
  }

  lemma {:induction false} BeginsRecorded(es: seq<Entry>, name: string)
    requires name in EvidenceOf(es).begins
    ensures exists e :: e in es && e.id == EvidenceOf(es).begins[name]
    decreases |es|
  {
    var n := |es| - 1;
    if name in EvidenceOf(es[..n]).begins { BeginsRecorded(es[..n], name); }
    assert es[n] in es;
  }

  lemma CanEnd(log: Log, actor: ActorId, begin: EntryHash)
    requires Present(log, begin)
    ensures Appendable(log, actor, [begin]) && Appendable(log, actor, [])
  {
    HeadPresent(log, actor);
    FirstParent(Head(log, actor), begin);
  }

  lemma WorkingOpen(s: Flow, actor: ActorId, name: string, begin: EntryHash, status: ResumeStatus, world: World)
    requires Works(world) && Present(s.log, begin)
    ensures RunOpen(s, actor, name, begin, status, world).out.Done?
  {
    CanEnd(s.log, actor, begin);
  }

  lemma WorkingTurn(s: Flow, actor: ActorId, name: string, prior: StepPrior, world: World)
    requires Works(world) && (prior.InProgress? ==> Present(s.log, prior.begin))
    ensures TurnOf(s, actor, name, prior, world).out.Done?
  {
    match prior {
      case Completed(_) =>
      case InProgress(b) => WorkingOpen(s, actor, name, b, Rerun, world);
      case Pending =>
        HeadPresent(s.log, actor);
        var begun := BeginStep(s, actor, name, world.store(|s.log|));
        var e := Appended(s.log, StepBegin, actor, [], StepBeginPayload(s.counter, name));
        assert begun == Some(s.(log := s.log + [e], counter := s.counter + 1));
        assert begun.value.log[|s.log|].id == FreshId(s.log);
        WorkingOpen(begun.value, actor, name, FreshId(s.log), Executed, world);
    }
  }

  lemma StillPresent(log: Log, longer: Log, h: EntryHash)
    requires Present(log, h) && log <= longer
    ensures Present(longer, h)
  {
    assert longer[Rank(log, h) - 1].id == h;
  }

  /** In a world that works every resume returns Ok, whatever the journal looks like. */
  lemma WorkingAttempt(s: Flow, actor: ActorId, plan: seq<string>, world: World)
    requires Works(world)
    ensures Attempt(s, actor, plan, Evidence(s.log, actor), world).out.Done?
  {
    var ev := Evidence(s.log, actor);
    var turn := Turning(actor, ev, world);
    var ok := (t: Attempted, i: nat) => t.out.Done? && s.log <= t.flow.log;
    forall t: Attempted, k: nat | k < |plan| && ok(t, k) ensures ok(NextTurn(t, plan[k], turn), k + 1) {
      var prior := Classify(plan[k], ev);
      if prior.InProgress? {
        BeginsRecorded(ActorEntries(s.log, actor), plan[k]);
        ActorEntriesIn(s.log, actor);
        StillPresent(s.log, t.flow.log, prior.begin);
      }
      WorkingTurn(t.flow, actor, plan[k], prior, world);
      TurnGrows(t.flow, actor, plan[k], prior, world);
    }
    StepByStep(s, plan, |plan|, turn, ok);
  }

  /** One entry of the actor's own behind an open begin, then nothing but good luck: the
      resume returns Ok, reports a rerun, and the step is still open afterwards. */
  lemma OneEntryIsEnough(log: Log, actor: ActorId, plan: seq<string>, ids: seq<EntryHash>, results: seq<nat>,
                         own: Entry, world: World)
    requires Disciplined(log, actor, plan, ids, results) && |ids| > |results| && DistinctNames(plan)
    requires own.actor == actor && !IsStep(own) && Unused(log, own.id) && Works(world)
    ensures var t := Play(log, actor, plan, Episode([own], world));
            var k := |results|;
            RanAgain(t, k, plan[k]) && Classify(plan[k], Evidence(t.flow.log, actor)) == InProgress(ids[k])
            && !Mirrors(t.flow, actor)
  {
    var noise, k := [own], |results|;
    assert Touches(noise, actor) by { assert noise[0].actor == actor; }
    NoiseDecides(log, noise, actor, plan, ids, results);
    var s := Recovered(log + noise, actor);
    WorkingAttempt(s, actor, plan, world);
    LostAttempt(s, actor, plan, world, plan[k], ids[k]);
    LostRunsAgain(s, actor, plan, world, k, ids[k]);
    LostBreaksMirror(Play(log, actor, plan, Episode(noise, world)), actor, plan[k], ids[k], k);
  }

  /** Such a journal: one begun step. */
  lemma BegunStep(actor: ActorId, name: string)
    ensures var e := Appended([], StepBegin, actor, [], StepBeginPayload(0, name));
            Disciplined([e], actor, [name], [e.id], [])
  {
    var e := Appended([], StepBegin, actor, [], StepBeginPayload(0, name));
    StartInOrder([], actor, [name]);
    BeginKeepsDiscipline([], actor, [name], [], [], e);
    assert [] + [e] == [e] && [] + [e.id] == [e.id];
  }

  /** Worse, the rerun of a lost step books its result on whatever begin is the actor's
      head: another step whose effect has just failed counts as completed with it. */
  lemma WrongResult(s: Flow, actor: ActorId, lost: string, begin: EntryHash, other: string, open: EntryHash,
                    world: World)
    requires Lost(s.log, actor, lost, begin) && Classify(other, Evidence(s.log, actor)) == InProgress(open)
             && other != lost
    requires Head(s.log, actor) == Some(open) && world.store(|s.log|)
    requires world.exec(lost, |s.effects|).Some? && world.exec(other, |s.effects| + 1).None?
    ensures var t := Attempt(s, actor, [lost, other], Evidence(s.log, actor), world);
            && t.out == Failed(ExecFailed)
            && Classify(other, Evidence(t.flow.log, actor)) == Completed(world.exec(lost, |s.effects|).value)
  {
    BooksOnHead(s, actor, lost, begin, world);
    TwoTurns(s, actor, lost, other, Evidence(s.log, actor), world);
  }

  lemma {:induction false} EndsRecorded(es: seq<Entry>, h: EntryHash)
    requires h in EvidenceOf(es).ends
    ensures exists e :: e in es && h in e.parents
    decreases |es|
  {
    var n := |es| - 1;
    if h in EvidenceOf(es[..n]).ends { EndsRecorded(es[..n], h); }
    assert es[n] in es;
  }

  lemma EndsArePresent(log: Log, actor: ActorId, h: EntryHash)
    requires ParentClosed(log) && h in Evidence(log, actor).ends
    ensures Present(log, h)
  {
    EndsRecorded(ActorEntries(log, actor), h);
    var e :| e in ActorEntries(log, actor) && h in e.parents;
    ActorEntriesIn(log, actor);
    var i :| 0 <= i < |log| && log[i] == e;
  }

  /** The first attempt that reruns the lost step and then fails in the next one. */
  lemma LeavesOpen(s: Flow, actor: ActorId, lost: string, begin: EntryHash, other: string, world: World)
    requires Lost(s.log, actor, lost, begin) && ParentClosed(s.log) && other !in Evidence(s.log, actor).begins
             && other != lost
    requires (forall n :: world.store(n)) && world.exec(lost, |s.effects|).Some?
             && world.exec(other, |s.effects| + 1).None?
    ensures var t := Attempt(s, actor, [lost, other], Evidence(s.log, actor), world);
            && t.out == Failed(ExecFailed) && Lost(t.flow.log, actor, lost, begin)
            && Head(t.flow.log, actor).Some?
               && Classify(other, Evidence(t.flow.log, actor)) == InProgress(Head(t.flow.log, actor).value)
  {
    var ev, plan := Evidence(s.log, actor), [lost, other];
    LostAttempt(s, actor, plan, world, lost, begin);
    BooksOnHead(s, actor, lost, begin, world);
    TwoTurns(s, actor, lost, other, ev, world);
    HeadPresent(s.log, actor);
    OpensBehind(TurnOf(s, actor, lost, InProgress(begin), world).flow, actor, other, world, s.log,
                Head(s.log, actor).value);
  }

  lemma TwoTurns(s: Flow, actor: ActorId, a: string, b: string, ev: StepEvidence, world: World)
    ensures var one := TurnOf(s, actor, a, Classify(a, ev), world);
            var two := TurnOf(one.flow, actor, b, Classify(b, ev), world);
            one.out.Done? && two.out.Failed? ==>
              Attempt(s, actor, [a, b], ev, world) == Attempted(two.flow, Failed(two.out.error))
  {
    TwoSteps(s, a, b, Turning(actor, ev, world));
  }

  lemma TwoSteps(s: Flow, a: string, b: string, turn: (Flow, string) -> Turned)
    ensures AttemptTo(s, [a, b], 2, turn) == NextTurn(NextTurn(Attempted(s, Done([])), a, turn), b, turn)
  {
    assert AttemptTo(s, [a, b], 1, turn) == NextTurn(Attempted(s, Done([])), a, turn);
  }

  /** The rerun of a lost step books its result on the actor's head. */
  lemma BooksOnHead(s: Flow, actor: ActorId, lost: string, begin: EntryHash, world: World)
    requires Lost(s.log, actor, lost, begin) && world.store(|s.log|) && world.exec(lost, |s.effects|).Some?
    ensures var t := TurnOf(s, actor, lost, InProgress(begin), world);
            var ev := Evidence(s.log, actor);
            && t.out.Done? && s.log <= t.flow.log && t.flow.effects == s.effects + [lost]
            && Evidence(t.flow.log, actor)
               == ev.(ends := ev.ends[Head(s.log, actor).value := world.exec(lost, |s.effects|).value])
  {
    BeginsRecorded(ActorEntries(s.log, actor), lost);
    ActorEntriesIn(s.log, actor);
    CanEnd(s.log, actor, begin);
    FirstParent(Head(s.log, actor), begin);
    EndIsRecorded(s.log, EndEntry(s.log, actor, begin, s.counter, world.exec(lost, |s.effects|).value));
  }

  lemma OpensBehind(s: Flow, actor: ActorId, name: string, world: World, before: Log, booked: EntryHash)
    requires (forall n :: world.store(n)) && world.exec(name, |s.effects|).None?
    requires before <= s.log && ParentClosed(before) && Present(before, booked)
    requires Evidence(s.log, actor).ends.Keys == Evidence(before, actor).ends.Keys + {booked}
    ensures var t := TurnOf(s, actor, name, Pending, world);
            && t.out == Failed(ExecFailed)
            && Head(t.flow.log, actor).Some?
               && Classify(name, Evidence(t.flow.log, actor)) == InProgress(Head(t.flow.log, actor).value)
  {
    HeadPresent(s.log, actor);
    assert Appendable(s.log, actor, []);
    var e := Appended(s.log, StepBegin, actor, [], StepBeginPayload(s.counter, name));
    ActorSnoc(s.log, e, actor);
    EvidenceSnoc(ActorEntries(s.log, actor), e);
    NotEndedYet(s.log, actor, before, booked, e.id);
  }

  lemma NotEndedYet(log: Log, actor: ActorId, before: Log, booked: EntryHash, id: EntryHash)
    requires before <= log && ParentClosed(before) && Present(before, booked) && Unused(log, id)
    requires Evidence(log, actor).ends.Keys == Evidence(before, actor).ends.Keys + {booked}
    ensures id !in Evidence(log, actor).ends
  {
    if id in Evidence(log, actor).ends {
      if id in Evidence(before, actor).ends { EndsArePresent(before, actor, id); }
      StillPresent(before, log, id);
    }
  }

  /** Two attempts in which the effect of `other` fails leave it completed, with the result
      of the lost step. */
  lemma WrongResultReached(s: Flow, actor: ActorId, lost: string, begin: EntryHash, other: string, first: World,
                           second: World)
    requires Lost(s.log, actor, lost, begin) && ParentClosed(s.log) && other !in Evidence(s.log, actor).begins
             && other != lost
    requires (forall n :: first.store(n)) && first.exec(lost, |s.effects|).Some?
             && first.exec(other, |s.effects| + 1).None?
    requires (forall n :: second.store(n)) && second.exec(lost, 0).Some? && second.exec(other, 1).None?
    ensures var t := Attempt(s, actor, [lost, other], Evidence(s.log, actor), first);
            var u := Play(t.flow.log, actor, [lost, other], Episode([], second));
            && t.out == Failed(ExecFailed) && u.out == Failed(ExecFailed)
            && Classify(other, Evidence(u.flow.log, actor)) == Completed(second.exec(lost, 0).value)
  {
    LeavesOpen(s, actor, lost, begin, other, first);
    var log := Attempt(s, actor, [lost, other], Evidence(s.log, actor), first).flow.log;
    assert log + [] == log;
    WrongResult(Recovered(log, actor), actor, lost, begin, other, Head(log, actor).value, second);
  }

  // ----- what a clean run keeps

  lemma NotAgain(effects: seq<string>, plan: seq<string>, from: nat, to: nat, i: nat)
    requires Ran([], effects, plan, from, to) && DistinctNames(plan) && i < from
    ensures plan[i] !in effects
  {
    assert forall k :: 0 <= k < |effects| ==> effects[k] == plan[from + k];
  }

  /** A paired step keeps its result through an episode, and its effect does not run. */
  lemma EpisodeIsFinal(run: Run, actor: ActorId, plan: seq<string>, episodes: seq<Episode>, n: nat, i: nat, value: nat)
    requires Orderly(run, actor, plan, episodes) && n < |episodes| && Clean(run, actor, plan, episodes, n + 1)
             && i < |plan|
    requires Classify(plan[i], Evidence(run.logs[n], actor)) == Completed(value)
    ensures Classify(plan[i], Evidence(run.logs[n + 1], actor)) == Completed(value)
            && plan[i] !in run.plays[n].flow.effects
  {
    CleanKeepsOrder(run, actor, plan, episodes, n);
    var ids0, results0, ids, results := EpisodeKeeps(run, actor, plan, episodes, n);
    PriorIs(run.logs[n], actor, plan, ids0, results0, i);
    PriorIs(run.logs[n + 1], actor, plan, ids, results, i);
    var effects := run.plays[n].flow.effects;
    NotAgain(effects, plan, |results0|,
             if Ran([], effects, plan, |results0|, |results|) then |results| else |results| + 1, i);
  }

  /** In a clean run a paired step keeps its result and its effect never runs again. */
  lemma {:induction false} PairedIsFinal(run: Run, actor: ActorId, plan: seq<string>, episodes: seq<Episode>, m: nat,
                                         n: nat, i: nat, value: nat)
    requires Orderly(run, actor, plan, episodes) && m <= n < |episodes| && Clean(run, actor, plan, episodes, n + 1)
             && i < |plan|
    requires Classify(plan[i], Evidence(run.logs[m], actor)) == Completed(value)
    ensures Classify(plan[i], Evidence(run.logs[n + 1], actor)) == Completed(value)
            && plan[i] !in run.plays[n].flow.effects
    decreases n
  {
    if m < n { PairedIsFinal(run, actor, plan, episodes, m, n - 1, i, value); }
    EpisodeIsFinal(run, actor, plan, episodes, n, i, value);
  }

  /** Effect number `c` of an attempt was this one, and this is what it returned. */
  ghost predicate RanWith(t: Attempted, world: World, name: string, c: nat, value: nat) {
    c < |t.flow.effects| && t.flow.effects[c] == name && world.exec(name, c) == Some(value)
  }

  lemma RanHolds(t: Attempted, world: World, plan: seq<string>, from: nat, results: seq<nat>, i: nat)
    requires RanUpTo([], t.flow.effects, plan, from, |results|) && Earned(world, plan, from, results)
    requires from <= i < |results|
    ensures RanWith(t, world, plan[i], i - from, results[i])
  {
  }

  lemma PairedBetween(log: Log, log': Log, actor: ActorId, plan: seq<string>, ids0: seq<EntryHash>, results0: seq<nat>,
                      ids: seq<EntryHash>, results: seq<nat>, i: nat)
    requires DistinctNames(plan) && i < |plan|
    requires Disciplined(log, actor, plan, ids0, results0) && Disciplined(log', actor, plan, ids, results)
    requires Classify(plan[i], Evidence(log', actor)).Completed? && !Classify(plan[i], Evidence(log, actor)).Completed?
    ensures |results0| <= i < |results| && Classify(plan[i], Evidence(log', actor)).result == results[i]
  {
    PriorIs(log, actor, plan, ids0, results0, i);
    PriorIs(log', actor, plan, ids, results, i);
  }

  lemma EpisodePairs(run: Run, actor: ActorId, plan: seq<string>, episodes: seq<Episode>, n: nat, i: nat)
    returns (from: nat, results: seq<nat>)
    requires Orderly(run, actor, plan, episodes) && n < |episodes| && Clean(run, actor, plan, episodes, n + 1)
             && i < |plan|
    requires Classify(plan[i], Evidence(run.logs[n + 1], actor)).Completed?
             && !Classify(plan[i], Evidence(run.logs[n], actor)).Completed?
    ensures RanUpTo([], run.plays[n].flow.effects, plan, from, |results|)
            && Earned(episodes[n].world, plan, from, results)
    ensures from <= i < |results| && Classify(plan[i], Evidence(run.logs[n + 1], actor)).result == results[i]
  {
    CleanKeepsOrder(run, actor, plan, episodes, n);
    var ids0, results0, ids;
    ids0, results0, ids, results := EpisodeKeeps(run, actor, plan, episodes, n);
    from := |results0|;
    PairedBetween(run.logs[n], run.logs[n + 1], actor, plan, ids0, results0, ids, results, i);
  }

  /** A step that an episode paired had its effect run in that episode, and has its result. */
  lemma EpisodeHasRun(run: Run, actor: ActorId, plan: seq<string>, episodes: seq<Episode>, n: nat, i: nat)
    returns (c: nat)
    requires Orderly(run, actor, plan, episodes) && n < |episodes| && Clean(run, actor, plan, episodes, n + 1)
             && i < |plan|
    requires Classify(plan[i], Evidence(run.logs[n + 1], actor)).Completed?
             && !Classify(plan[i], Evidence(run.logs[n], actor)).Completed?
    ensures RanWith(run.plays[n], episodes[n].world, plan[i], c,
                    Classify(plan[i], Evidence(run.logs[n + 1], actor)).result)
  {
    var from, results := EpisodePairs(run, actor, plan, episodes, n, i);
    RanHolds(run.plays[n], episodes[n].world, plan, from, results, i);
    c := i - from;
  }

  /** In a clean run a step is paired only after its effect ran, and with what one run of it
      returned. */
  lemma {:induction false} PairedHasRun(run: Run, actor: ActorId, plan: seq<string>, episodes: seq<Episode>, n: nat,
                                        i: nat)
    returns (m: nat, c: nat)
    requires Orderly(run, actor, plan, episodes) && n <= |episodes| && Clean(run, actor, plan, episodes, n)
             && i < |plan|
    requires Classify(plan[i], Evidence(run.logs[n], actor)).Completed?
    ensures m < n
    ensures RanWith(run.plays[m], episodes[m].world, plan[i], c, Classify(plan[i], Evidence(run.logs[n], actor)).result)
    decreases n
  {
    if n == 0 {
      StartInOrder(run.logs[0], actor, plan);
      PriorIs(run.logs[0], actor, plan, [], [], i);
    } else if Classify(plan[i], Evidence(run.logs[n - 1], actor)).Completed? {
      m, c := PairedHasRun(run, actor, plan, episodes, n - 1, i);
      EpisodeIsFinal(run, actor, plan, episodes, n - 1, i, Classify(plan[i], Evidence(run.logs[n - 1], actor)).result);
    } else {
      m := n - 1;
      c := EpisodeHasRun(run, actor, plan, episodes, n - 1, i);
    }
  }

  // ----- after a success

  /** The whole plan is paired, with these results. */
  ghost predicate Finished(log: Log, actor: ActorId, plan: seq<string>, results: seq<nat>) {
    |results| == |plan| && exists ids :: Disciplined(log, actor, plan, ids, results)
  }

  /** Nothing was run, and every step is reported as skipped. */
  ghost predicate Replays(t: Attempted, plan: seq<string>, results: seq<nat>) {
    && t.flow.effects == [] && t.out.Done? && |t.out.value| == |plan| == |results|
    && forall k :: 0 <= k < |plan| ==> t.out.value[k] == StepOutcome(plan[k], Skipped, results[k])
  }

  /** An episode on a finished plan only replays it, whatever the actor appended before. */
  lemma FinishedPlay(log: Log, actor: ActorId, plan: seq<string>, e: Episode, results: seq<nat>)
    requires DistinctNames(plan) && Finished(log, actor, plan, results)
    requires StepFree(e.noise, actor) && Fresh(log, e.noise)
    ensures Replays(Play(log, actor, plan, e), plan, results)
    ensures Play(log, actor, plan, e).flow.log == log + e.noise && Finished(log + e.noise, actor, plan, results)
  {
    var ids :| Disciplined(log, actor, plan, ids, results);
    IdleIffClosed(log, actor, plan, ids, results);
    var ids1, results1 := PlayKeeps(log, actor, plan, e, ids, results);
    var t := Play(log, actor, plan, e);
    assert results1 == results;
    PairedReplays(t, plan, results, |ids|);
    assert t.flow.log == log + e.noise;
  }

  lemma PairedReplays(t: Attempted, plan: seq<string>, results: seq<nat>, begun: nat)
    requires |results| == |plan| && t.out.Done? && RanUpTo([], t.flow.effects, plan, |plan|, |plan|)
    requires Reported(t, plan, results, |plan|, begun)
    ensures Replays(t, plan, results)
  {
  }

  lemma FinishedNext(run: Run, actor: ActorId, plan: seq<string>, episodes: seq<Episode>, m: nat, results: seq<nat>)
    requires Orderly(run, actor, plan, episodes) && m < |episodes| && Finished(run.logs[m], actor, plan, results)
    ensures Finished(run.logs[m + 1], actor, plan, results)
  {
    assert Played(run, actor, plan, episodes, m);
    FinishedPlay(run.logs[m], actor, plan, episodes[m], results);
  }

  lemma {:induction false} StaysFinished(run: Run, actor: ActorId, plan: seq<string>, episodes: seq<Episode>, n: nat,
                                         m: nat, results: seq<nat>)
    requires Orderly(run, actor, plan, episodes) && n <= m <= |episodes| && Finished(run.logs[n], actor, plan, results)
    ensures Finished(run.logs[m], actor, plan, results)
    decreases m
  {
    if n < m {
      StaysFinished(run, actor, plan, episodes, n, m - 1, results);
      FinishedNext(run, actor, plan, episodes, m - 1, results);
    }
  }

  lemma OkFinishes(run: Run, actor: ActorId, plan: seq<string>, episodes: seq<Episode>, n: nat)
    returns (results: seq<nat>)
    requires Orderly(run, actor, plan, episodes) && n < |episodes| && Clean(run, actor, plan, episodes, n + 1)
    requires run.plays[n].out.Done?
    ensures Finished(run.logs[n + 1], actor, plan, results) && |run.plays[n].out.value| == |plan|
    ensures forall k :: 0 <= k < |plan| ==> run.plays[n].out.value[k].result == results[k]
  {
    CleanKeepsOrder(run, actor, plan, episodes, n);
    var ids0, results0, ids;
    ids0, results0, ids, results := EpisodeKeeps(run, actor, plan, episodes, n);
  }

  /** Once an attempt of a clean run has returned Ok, every later one appends nothing, runs no
      effect and reports the same results as skipped. From there on the actor may append
      what it likes. */
  lemma OkIsFinal(run: Run, actor: ActorId, plan: seq<string>, episodes: seq<Episode>, n: nat, m: nat)
    requires Orderly(run, actor, plan, episodes) && n < m < |episodes| && Clean(run, actor, plan, episodes, n + 1)
    requires run.plays[n].out.Done?
    ensures run.logs[m + 1] == run.logs[m] + episodes[m].noise && run.plays[m].flow.effects == []
    ensures run.plays[m].out.Done? && |run.plays[m].out.value| == |run.plays[n].out.value| == |plan|
    ensures forall k :: 0 <= k < |plan| ==>
              run.plays[m].out.value[k] == StepOutcome(plan[k], Skipped, run.plays[n].out.value[k].result)
  {
    var results := OkFinishes(run, actor, plan, episodes, n);
    StaysFinished(run, actor, plan, episodes, n + 1, m, results);
    assert Played(run, actor, plan, episodes, m);
    FinishedPlay(run.logs[m], actor, plan, episodes[m], results);
  }
}
