/** What the step evidence means, said of the journal itself, and how steps are numbered. */
module StepHistory {
  import opened Journals
  import opened Store
  import opened Workflow
  import opened Resume
  import opened Episodes

  // ----- the latest entries decide

  ghost predicate BeginsAt(log: Log, actor: ActorId, name: string, k: nat) {
    k < |log| && log[k].actor == actor && IsBegin(log[k], name)
  }

  ghost predicate EndsAt(log: Log, actor: ActorId, begin: EntryHash, k: nat) {
    k < |log| && log[k].actor == actor && IsEndEntry(log[k]) && log[k].parents[0] == begin
  }

  ghost predicate LatestBegin(log: Log, actor: ActorId, name: string, k: nat) {
    BeginsAt(log, actor, name, k) && forall i: nat :: k < i ==> !BeginsAt(log, actor, name, i)
  }

  ghost predicate LatestEnd(log: Log, actor: ActorId, begin: EntryHash, k: nat) {
    EndsAt(log, actor, begin, k) && forall i: nat :: k < i ==> !EndsAt(log, actor, begin, i)
  }

  /** One more entry of the journal, for the evidence about one actor. */
  lemma EvidenceNext(log: Log, actor: ActorId)
    requires log != []
    ensures var init, last := log[..|log| - 1], log[|log| - 1];
            Evidence(log, actor) == if last.actor == actor then AddEvidence(Evidence(init, actor), last)
                                    else Evidence(init, actor)
  {
    var init, last := log[..|log| - 1], log[|log| - 1];
    assert log == init + [last];
    ActorSnoc(init, last, actor);
    EvidenceSnoc(ActorEntries(init, actor), last);
  }

  /** A name has a begin in evidence exactly when the actor recorded one, and then it is the
      latest one. */
  lemma {:induction false} BeginMeans(log: Log, actor: ActorId, name: string)
    ensures name in Evidence(log, actor).begins <==> exists k: nat :: LatestBegin(log, actor, name, k)
    ensures forall k: nat :: LatestBegin(log, actor, name, k) ==>
              name in Evidence(log, actor).begins && Evidence(log, actor).begins[name] == log[k].id
    decreases |log|
  {
    if log != [] {
      var n := |log| - 1;
      BeginMeans(log[..n], actor, name);
      EvidenceNext(log, actor);
      forall k: nat
        ensures LatestBegin(log, actor, name, k) <==>
                  if BeginsAt(log, actor, name, n) then k == n else LatestBegin(log[..n], actor, name, k)
      {
        LatestBeginNext(log, actor, name, k);
      }
      if BeginsAt(log, actor, name, n) {
        assert LatestBegin(log, actor, name, n);
      } else if name in Evidence(log, actor).begins {
        var k: nat :| LatestBegin(log[..n], actor, name, k);
        assert LatestBegin(log, actor, name, k);
      }
    }
  }

  lemma LatestBeginNext(log: Log, actor: ActorId, name: string, k: nat)
    requires log != []
    ensures var n := |log| - 1;
            LatestBegin(log, actor, name, k) <==>
              if BeginsAt(log, actor, name, n) then k == n else LatestBegin(log[..n], actor, name, k)
  {
    var n := |log| - 1;
    assert forall i: nat :: i < n ==> (BeginsAt(log, actor, name, i) <==> BeginsAt(log[..n], actor, name, i));
  }

  /** A begin has an end in evidence exactly when the actor recorded one with that begin as
      first parent, and then it is the latest one's result. */
  lemma {:induction false} EndMeans(log: Log, actor: ActorId, begin: EntryHash)
    ensures begin in Evidence(log, actor).ends <==> exists k: nat :: LatestEnd(log, actor, begin, k)
    ensures forall k: nat :: LatestEnd(log, actor, begin, k) ==>
              begin in Evidence(log, actor).ends && Evidence(log, actor).ends[begin] == log[k].payload.result
    decreases |log|
  {
    if log != [] {
      var n := |log| - 1;
      EndMeans(log[..n], actor, begin);
      EvidenceNext(log, actor);
      forall k: nat
        ensures LatestEnd(log, actor, begin, k) <==>
                  if EndsAt(log, actor, begin, n) then k == n else LatestEnd(log[..n], actor, begin, k)
      {
        LatestEndNext(log, actor, begin, k);
      }
      if EndsAt(log, actor, begin, n) {
        assert LatestEnd(log, actor, begin, n);
      } else if begin in Evidence(log, actor).ends {
        var k: nat :| LatestEnd(log[..n], actor, begin, k);
        assert LatestEnd(log, actor, begin, k);
      }
    }
  }

  lemma LatestEndNext(log: Log, actor: ActorId, begin: EntryHash, k: nat)
    requires log != []
    ensures var n := |log| - 1;
            LatestEnd(log, actor, begin, k) <==>
              if EndsAt(log, actor, begin, n) then k == n else LatestEnd(log[..n], actor, begin, k)
  {
    var n := |log| - 1;
    assert forall i: nat :: i < n ==> (EndsAt(log, actor, begin, i) <==> EndsAt(log[..n], actor, begin, i));
  }

  /** How a step is classified, for any journal: by its latest begin and the latest end whose
      first parent that begin is. */
  lemma ClassifyMeans(log: Log, actor: ActorId, name: string, b: nat, e: nat)
    ensures (forall k: nat :: !BeginsAt(log, actor, name, k)) ==> Classify(name, Evidence(log, actor)) == Pending
    ensures LatestBegin(log, actor, name, b) && LatestEnd(log, actor, log[b].id, e) ==>
              Classify(name, Evidence(log, actor)) == Completed(log[e].payload.result)
    ensures LatestBegin(log, actor, name, b) && (forall k: nat :: !EndsAt(log, actor, log[b].id, k)) ==>
              Classify(name, Evidence(log, actor)) == InProgress(log[b].id)
  {
    BeginMeans(log, actor, name);
    if LatestBegin(log, actor, name, b) { EndMeans(log, actor, log[b].id); }
  }

  /** Entry `k` is an end of the actor whose first parent is a known begin. */
  ghost predicate Completes(log: Log, actor: ActorId, names: map<EntryHash, string>, k: nat) {
    k < |log| && log[k].actor == actor && IsEndEntry(log[k]) && log[k].parents[0] in names
  }

  /** `at` are the entries that complete a step, in order, and `completed` what they say. */
  ghost predicate Lists(log: Log, actor: ActorId, names: map<EntryHash, string>, n: nat, at: seq<nat>,
                        completed: seq<(string, nat)>) {
    && |completed| == |at|
    && (forall x :: 0 <= x < |at| ==>
          at[x] < n && Completes(log, actor, names, at[x])
          && completed[x] == (names[log[at[x]].parents[0]], log[at[x]].payload.result))
    && (forall x, y :: 0 <= x < y < |at| ==> at[x] < at[y])
    && forall k: nat :: k < n && Completes(log, actor, names, k) ==> k in at
  }

  lemma ListsSkip(log: Log, actor: ActorId, names: map<EntryHash, string>, n: nat, at: seq<nat>,
                  completed: seq<(string, nat)>)
    requires Lists(log, actor, names, n, at, completed) && !Completes(log, actor, names, n)
    ensures Lists(log, actor, names, n + 1, at, completed)
  {
  }

  lemma ListsMore(log: Log, actor: ActorId, names: map<EntryHash, string>, n: nat, at: seq<nat>,
                  completed: seq<(string, nat)>)
    requires Lists(log, actor, names, n, at, completed) && Completes(log, actor, names, n)
    ensures Lists(log, actor, names, n + 1, at + [n], completed + CompletedBy(log[n], names))
  {
    var more := at + [n];
    forall k: nat | k < n + 1 && Completes(log, actor, names, k)
      ensures k in more
    {
      if k < n { assert k in at; } else { assert more[|at|] == k; }
    }
  }

  /** What recovery lists as completed, for any journal and any known begins. */
  lemma {:induction false} CompletedMeans(log: Log, actor: ActorId, names: map<EntryHash, string>, n: nat)
    returns (at: seq<nat>)
    requires n <= |log|
    ensures Lists(log, actor, names, n, at, CompletedOf(ActorEntries(log[..n], actor), names))
  {
    if n == 0 {
      at := [];
    } else {
      at := CompletedMeans(log, actor, names, n - 1);
      at := CompletedMore(log, actor, names, n - 1, at);
    }
  }

  lemma CompletedMore(log: Log, actor: ActorId, names: map<EntryHash, string>, n: nat, had: seq<nat>)
    returns (at: seq<nat>)
    requires n < |log| && Lists(log, actor, names, n, had, CompletedOf(ActorEntries(log[..n], actor), names))
    ensures Lists(log, actor, names, n + 1, at, CompletedOf(ActorEntries(log[..n + 1], actor), names))
  {
    var was := CompletedOf(ActorEntries(log[..n], actor), names);
    var now := CompletedOf(ActorEntries(log[..n + 1], actor), names);
    CompletedNext(log, actor, names, n);
    if Completes(log, actor, names, n) {
      at := had + [n];
      ListsMore(log, actor, names, n, had, was);
    } else {
      at := had;
      assert now == was;
      ListsSkip(log, actor, names, n, had, was);
    }
  }

  // ----- step numbers

  /** How many steps were begun. */
  function Begins(es: seq<Entry>): nat {
    if es == [] then 0 else Begins(es[..|es| - 1]) + if IsBeginEntry(es[|es| - 1]) then 1 else 0
  }

  /** Every step entry carries the number of begins before it: a begin its own number, an end
      the number of steps begun by then. */
  ghost predicate Counted(es: seq<Entry>) {
    forall k :: 0 <= k < |es| ==> IsStep(es[k]) && es[k].payload.stepId == Begins(es[..k])
  }

  lemma CountedMore(es: seq<Entry>, e: Entry)
    requires Counted(es) && IsStep(e) && e.payload.stepId == Begins(es)
    ensures Counted(es + [e]) && Begins(es + [e]) == Begins(es) + if IsBeginEntry(e) then 1 else 0
  {
    var more := es + [e];
    assert more[..|es|] == es;
    forall k | 0 <= k < |more|
      ensures IsStep(more[k]) && more[k].payload.stepId == Begins(more[..k])
    {
      if k < |es| { assert more[..k] == es[..k]; }
    }
  }

  /** The journal's steps are numbered, and recovery counts them. */
  ghost predicate Numbered(log: Log, actor: ActorId) {
    exists es :: NumberedBy(log, actor, es)
  }

  ghost predicate NumberedBy(log: Log, actor: ActorId, es: seq<Entry>) {
    es == StepEntries(log, actor) && Counted(es) && |Evidence(log, actor).beginNames| == Begins(es)
  }

  lemma {:induction false} NamesAreRecorded(log: Log, actor: ActorId, h: EntryHash)
    requires h in Evidence(log, actor).beginNames
    ensures !Unused(log, h)
    decreases |log|
  {
    if log != [] {
      var n := |log| - 1;
      EvidenceNext(log, actor);
      if h in Evidence(log[..n], actor).beginNames { NamesAreRecorded(log[..n], actor, h); }
    }
  }

  lemma NumberedMore(log: Log, actor: ActorId, e: Entry)
    requires Numbered(log, actor) && e.actor == actor && IsStep(e) && Unused(log, e.id)
    requires e.payload.stepId == Begins(StepEntries(log, actor))
    ensures Numbered(log + [e], actor)
    ensures Begins(StepEntries(log + [e], actor)) == Begins(StepEntries(log, actor)) + if IsBeginEntry(e) then 1 else 0
  {
    StepsSnoc(log, e, actor);
    CountedMore(StepEntries(log, actor), e);
    var grown := log + [e];
    assert grown[..|log|] == log;
    EvidenceNext(grown, actor);
    if e.id in Evidence(log, actor).beginNames { NamesAreRecorded(log, actor, e.id); }
    assert NumberedBy(grown, actor, StepEntries(grown, actor));
  }

  ghost predicate InStep(s: Flow, actor: ActorId) {
    Numbered(s.log, actor) && s.counter == Begins(StepEntries(s.log, actor))
  }

  lemma BegunNumbered(s: Flow, actor: ActorId, e: Entry)
    requires InStep(s, actor) && e.actor == actor && IsBeginEntry(e) && Unused(s.log, e.id)
    requires e.payload.stepId == s.counter
    ensures InStep(s.(log := s.log + [e], counter := s.counter + 1), actor)
  {
    NumberedMore(s.log, actor, e);
  }

  lemma BeginCounts(s: Flow, actor: ActorId, name: string, storeOk: bool)
    requires InStep(s, actor)
    ensures var begun := BeginStep(s, actor, name, storeOk); begun.Some? ==> InStep(begun.value, actor)
  {
    BegunNumbered(s, actor, Appended(s.log, StepBegin, actor, [], StepBeginPayload(s.counter, name)));
  }

  lemma EndCounts(s: Flow, actor: ActorId, name: string, begin: EntryHash, value: nat, storeOk: bool)
    requires InStep(s, actor)
    ensures var ended := EndStep(s, actor, name, begin, value, storeOk); ended.Some? ==> InStep(ended.value, actor)
  {
    FirstParent(Head(s.log, actor), begin);
    NumberedMore(s.log, actor, EndEntry(s.log, actor, begin, s.counter, value));
  }

  lemma OpenCounts(s: Flow, actor: ActorId, name: string, begin: EntryHash, status: ResumeStatus, world: World)
    requires InStep(s, actor)
    ensures InStep(RunOpen(s, actor, name, begin, status, world).flow, actor)
  {
    var ran := s.(effects := s.effects + [name]);
    var effect := world.exec(name, |s.effects|);
    if effect.Some? { EndCounts(ran, actor, name, begin, effect.value, world.store(|ran.log|)); }
  }

  lemma TurnCounts(s: Flow, actor: ActorId, name: string, prior: StepPrior, world: World)
    requires InStep(s, actor)
    ensures InStep(TurnOf(s, actor, name, prior, world).flow, actor)
  {
    match prior {
      case Completed(_) =>
      case InProgress(begin) => OpenCounts(s, actor, name, begin, Rerun, world);
      case Pending =>
        BeginCounts(s, actor, name, world.store(|s.log|));
        var begun := BeginStep(s, actor, name, world.store(|s.log|));
        if begun.Some? { OpenCounts(begun.value, actor, name, FreshId(s.log), Executed, world); }
    }
  }

  /** From any numbered journal, whatever its steps look like, an attempt goes on counting. */
  lemma AttemptCounts(s: Flow, actor: ActorId, steps: seq<string>, ev: StepEvidence, world: World)
    requires InStep(s, actor)
    ensures InStep(Attempt(s, actor, steps, ev, world).flow, actor)
  {
    var turn := Turning(actor, ev, world);
    var ok := (t: Attempted, i: nat) => InStep(t.flow, actor);
    forall t: Attempted, k: nat | k < |steps| && ok(t, k) ensures ok(NextTurn(t, steps[k], turn), k + 1) {
      TurnCounts(t.flow, actor, steps[k], Classify(steps[k], ev), world);
    }
    StepByStep(s, steps, |steps|, turn, ok);
  }

  /** Over whole runs, clean or not, the steps are numbered in the order they were begun. */
  lemma {:induction false} RunCounts(run: Run, actor: ActorId, plan: seq<string>, episodes: seq<Episode>, n: nat)
    requires Orderly(run, actor, plan, episodes) && n <= |episodes|
    ensures Numbered(run.logs[n], actor)
    decreases n
  {
    if n == 0 {
      NoneNumbered(run.logs[0], actor);
    } else {
      RunCounts(run, actor, plan, episodes, n - 1);
      EpisodeCounts(run, actor, plan, episodes, n - 1);
    }
  }

  lemma NoneNumbered(log: Log, actor: ActorId)
    requires StepEntries(log, actor) == []
    ensures Numbered(log, actor)
  {
    EvidenceOfSteps(ActorEntries(log, actor));
    assert NumberedBy(log, actor, []);
  }

  lemma EpisodeCounts(run: Run, actor: ActorId, plan: seq<string>, episodes: seq<Episode>, n: nat)
    requires Orderly(run, actor, plan, episodes) && n < |episodes| && Numbered(run.logs[n], actor)
    ensures Numbered(run.logs[n + 1], actor)
  {
    assert Played(run, actor, plan, episodes, n);
    PlayCounts(run.logs[n], actor, plan, episodes[n]);
  }

  lemma PlayCounts(log: Log, actor: ActorId, plan: seq<string>, e: Episode)
    requires Numbered(log, actor) && StepFree(e.noise, actor)
    ensures Numbered(Play(log, actor, plan, e).flow.log, actor)
  {
    NoiseSteps(log, e.noise, actor);
    NoiseEvidence(log, e.noise, actor);
    assert NumberedBy(log + e.noise, actor, StepEntries(log, actor));
    AttemptCounts(Recovered(log + e.noise, actor), actor, plan, Evidence(log + e.noise, actor), e.world);
  }
}
