/** The durable workflow engine: steps recorded in a journal, and a resume that can fail
    at any effect or append.
 */
module Resume {
  import opened Journals
  import opened Store
  import opened Workflow

  datatype ResumeStatus = Skipped | Rerun | Executed

  datatype StepOutcome = StepOutcome(name: string, status: ResumeStatus, result: nat)

  datatype FlowError = JournalFailed | DuplicateStep(name: string) | NoPlan | ExecFailed

  datatype FlowResult<+T> = Done(value: T) | Failed(error: FlowError)

  /** A plan is refused exactly when a name repeats; the first repeat is reported. */
  method MakePlan(steps: seq<string>) returns (r: FlowResult<seq<string>>)
    ensures r.Done? <==> DistinctNames(steps)
    ensures r.Done? ==> r.value == steps
    ensures r.Failed? ==> exists k :: 0 <= k < |steps| && r.error == DuplicateStep(steps[k]) &&
                            steps[k] in steps[..k] && DistinctNames(steps[..k])
  {
    var seen: set<string> := {};
    var i := 0;
    while i < |steps|
      invariant 0 <= i <= |steps| && DistinctNames(steps[..i])
      invariant forall name :: name in seen <==> name in steps[..i]
    {
      if steps[i] in seen {
        ghost var k :| 0 <= k < i && steps[k] == steps[i];
        return Failed(DuplicateStep(steps[i]));
      }
      assert steps[..i + 1] == steps[..i] + [steps[i]];
      seen := seen + {steps[i]};
      i := i + 1;
    }
    assert steps[..i] == steps;
    return Done(steps);
  }

  /** What the outside world does during an attempt: the result of each effect and
      the fate of each append, by how many came before. */
  datatype World = World(exec: (string, nat) -> Option<nat>, store: nat -> bool)

  // ----- what an attempt does, as a function

  /** The journal, the state kept in memory, and the effects run so far. */
  datatype Flow = Flow(log: Log, counter: nat, completed: seq<(string, nat)>, effects: seq<string>)

  function BeginStep(s: Flow, actor: ActorId, name: string, storeOk: bool): Option<Flow> {
    if storeOk && Appendable(s.log, actor, []) then
      var e := Appended(s.log, StepBegin, actor, [], StepBeginPayload(s.counter, name));
      Some(s.(log := s.log + [e], counter := s.counter + 1))
    else None
  }

  function EndStep(s: Flow, actor: ActorId, name: string, begin: EntryHash, value: nat, storeOk: bool): Option<Flow> {
    if storeOk && Appendable(s.log, actor, [begin]) then
      var e := EndEntry(s.log, actor, begin, s.counter, value);
      Some(s.(log := s.log + [e], completed := s.completed + [(name, value)]))
    else None
  }

  datatype Turned = Turned(flow: Flow, out: FlowResult<StepOutcome>)

  /** Run the effect of a step that has a begin, and record its end. */
  function RunOpen(s: Flow, actor: ActorId, name: string, begin: EntryHash, status: ResumeStatus,
                   world: World): Turned {
    var ran := s.(effects := s.effects + [name]);
    var effect := world.exec(name, |s.effects|);
    if effect.None? then Turned(ran, Failed(ExecFailed))
    else
      var ended := EndStep(ran, actor, name, begin, effect.value, world.store(|ran.log|));
      if ended.None? then Turned(ran, Failed(JournalFailed))
      else Turned(ended.value, Done(StepOutcome(name, status, effect.value)))
  }

  /** One planned step, by what the journal said of it when the attempt started. */
  function TurnOf(s: Flow, actor: ActorId, name: string, prior: StepPrior, world: World): Turned {
    match prior
    case Completed(value) => Turned(s, Done(StepOutcome(name, Skipped, value)))
    case InProgress(begin) => RunOpen(s, actor, name, begin, Rerun, world)
    case Pending =>
      var begun := BeginStep(s, actor, name, world.store(|s.log|));
      if begun.None? then Turned(s, Failed(JournalFailed))
      else RunOpen(begun.value, actor, name, FreshId(s.log), Executed, world)
  }

  datatype Attempted = Attempted(flow: Flow, out: FlowResult<seq<StepOutcome>>)

  /** One more planned step, unless an earlier one failed. */
  function NextTurn(before: Attempted, name: string, turn: (Flow, string) -> Turned): Attempted {
    if before.out.Failed? then before
    else
      var t := turn(before.flow, name);
      Attempted(t.flow, if t.out.Failed? then Failed(t.out.error) else Done(before.out.value + [t.out.value]))
  }

  /** The first `i` planned steps in order, up to the first failure. */
  function AttemptTo(s: Flow, steps: seq<string>, i: nat, turn: (Flow, string) -> Turned): Attempted
    requires i <= |steps|
  {
    if i == 0 then Attempted(s, Done([])) else NextTurn(AttemptTo(s, steps, i - 1, turn), steps[i - 1], turn)
  }

  /** How a step is handled, given the evidence at the start of the attempt. */
  function Turning(actor: ActorId, ev: StepEvidence, world: World): (Flow, string) -> Turned {
    (s: Flow, name: string) => TurnOf(s, actor, name, Classify(name, ev), world)
  }

  function Attempt(s: Flow, actor: ActorId, steps: seq<string>, ev: StepEvidence, world: World): Attempted {
    AttemptTo(s, steps, |steps|, Turning(actor, ev, world))
  }

  /** What holds at the start and survives each step holds of the whole attempt. */
  lemma {:induction false} StepByStep(s: Flow, steps: seq<string>, i: nat, turn: (Flow, string) -> Turned,
                                      ok: (Attempted, nat) -> bool)
    requires i <= |steps| && ok(Attempted(s, Done([])), 0)
    requires forall t: Attempted, k: nat :: k < |steps| && ok(t, k) ==> ok(NextTurn(t, steps[k], turn), k + 1)
    ensures ok(AttemptTo(s, steps, i, turn), i)
    decreases i
  {
    if i > 0 { StepByStep(s, steps, i - 1, turn, ok); }
  }

  lemma {:induction false} FailureStays(s: Flow, steps: seq<string>, turn: (Flow, string) -> Turned, i: nat, n: nat)
    requires i <= n <= |steps| && AttemptTo(s, steps, i, turn).out.Failed?
    ensures AttemptTo(s, steps, n, turn) == AttemptTo(s, steps, i, turn)
    decreases n
  {
    if i < n { FailureStays(s, steps, turn, i, n - 1); }
  }

  /** The states an attempt went through while its steps succeeded. */
  ghost predicate Followed(flows: seq<Flow>, outcomes: seq<StepOutcome>, actor: ActorId, steps: seq<string>,
                           ev: StepEvidence, world: World) {
    && |outcomes| <= |steps| && |flows| == |outcomes| + 1
    && forall k ::
         0 <= k < |outcomes| ==> Follows(flows[k], actor, steps[k], ev, world, Turned(flows[k + 1], Done(outcomes[k])))
  }

  ghost predicate Follows(s: Flow, actor: ActorId, name: string, ev: StepEvidence, world: World, t: Turned) {
    t == TurnOf(s, actor, name, Classify(name, ev), world)
  }

  lemma FollowedMore(flows: seq<Flow>, outcomes: seq<StepOutcome>, actor: ActorId, steps: seq<string>, ev: StepEvidence,
                     world: World, next: Flow, one: StepOutcome)
    requires Followed(flows, outcomes, actor, steps, ev, world) && |outcomes| < |steps|
    requires Follows(flows[|outcomes|], actor, steps[|outcomes|], ev, world, Turned(next, Done(one)))
    ensures Followed(flows + [next], outcomes + [one], actor, steps, ev, world)
  {
  }

  lemma {:induction false} Walked(flows: seq<Flow>, outcomes: seq<StepOutcome>, steps: seq<string>,
                                  turn: (Flow, string) -> Turned, i: nat)
    requires i <= |outcomes| <= |steps| && |flows| == |outcomes| + 1
    requires forall k :: 0 <= k < |outcomes| ==> turn(flows[k], steps[k]) == Turned(flows[k + 1], Done(outcomes[k]))
    ensures AttemptTo(flows[0], steps, i, turn) == Attempted(flows[i], Done(outcomes[..i]))
    decreases i
  {
    if i > 0 {
      Walked(flows, outcomes, steps, turn, i - 1);
      assert outcomes[..i] == outcomes[..i - 1] + [outcomes[i - 1]];
    }
  }

  lemma WalkedTo(flows: seq<Flow>, outcomes: seq<StepOutcome>, actor: ActorId, steps: seq<string>, ev: StepEvidence,
                 world: World)
    requires Followed(flows, outcomes, actor, steps, ev, world)
    ensures AttemptTo(flows[0], steps, |outcomes|, Turning(actor, ev, world))
         == Attempted(flows[|outcomes|], Done(outcomes))
  {
    var turn := Turning(actor, ev, world);
    forall k | 0 <= k < |outcomes| ensures turn(flows[k], steps[k]) == Turned(flows[k + 1], Done(outcomes[k])) {
      assert Follows(flows[k], actor, steps[k], ev, world, Turned(flows[k + 1], Done(outcomes[k])));
    }
    Walked(flows, outcomes, steps, turn, |outcomes|);
    assert outcomes[..|outcomes|] == outcomes;
  }

  lemma StoppedHere(flows: seq<Flow>, outcomes: seq<StepOutcome>, actor: ActorId, steps: seq<string>, ev: StepEvidence,
                    world: World, last: Flow, error: FlowError)
    requires Followed(flows, outcomes, actor, steps, ev, world) && |outcomes| < |steps|
    requires Follows(flows[|outcomes|], actor, steps[|outcomes|], ev, world, Turned(last, Failed(error)))
    ensures Attempt(flows[0], actor, steps, ev, world) == Attempted(last, Failed(error))
  {
    WalkedTo(flows, outcomes, actor, steps, ev, world);
    FailureStays(flows[0], steps, Turning(actor, ev, world), |outcomes| + 1, |steps|);
  }

  /** The evidence an attempt starts from. */
  function Evidence(log: Log, actor: ActorId): StepEvidence { EvidenceOf(ActorEntries(log, actor)) }

  /** The state in memory is what recovery would compute from the journal. */
  predicate Mirrors(s: Flow, actor: ActorId) {
    var names := Evidence(s.log, actor).beginNames;
    s.counter == |names| && s.completed == CompletedOf(ActorEntries(s.log, actor), names)
  }

  // ----- the engine

  class WorkflowExecution {
    var actor: ActorId
    var stepCounter: nat
    var completedSteps: seq<(string, nat)>
    var plan: Option<seq<string>>
    /** The effects run so far, in order. */
    var effects: seq<string>

    constructor (actor: ActorId)
      ensures this.actor == actor && stepCounter == 0 && completedSteps == [] && plan == None && effects == []
    {
      this.actor, stepCounter, completedSteps, plan, effects := actor, 0, [], None, [];
    }

    /** The state shared with a journal, as a value. */
    function Now(journal: DurableJournal): Flow
      reads this, journal
    {
      Flow(journal.log, stepCounter, completedSteps, effects)
    }

    /** Recovery reads the state back from the journal. */
    constructor RecoverFromJournal(actor: ActorId, log: Log)
      ensures this.actor == actor && plan == None && effects == []
      ensures Mirrors(Flow(log, stepCounter, completedSteps, []), actor)
    {
      this.actor, plan, effects := actor, None, [];
      var ev := ScanStepEvidence(log, actor);
      var completed := ScanCompleted(log, actor, ev.beginNames);
      stepCounter := |ev.beginNames|;
      completedSteps := completed;
    }

    method SetPlan(steps: seq<string>)
      modifies this`plan
      ensures plan == Some(steps)
    {
      plan := Some(steps);
    }

    /** Record the beginning of a step; nothing changes when the append fails. */
    method RecordBegin(journal: DurableJournal, name: string, storeOk: bool) returns (r: Option<EntryHash>)
      modifies this`stepCounter, journal
      ensures var begun := BeginStep(old(Now(journal)), actor, name, storeOk);
              && Now(journal) == (if begun.Some? then begun.value else old(Now(journal)))
              && r == if begun.Some? then Some(FreshId(old(journal.log))) else None
    {
      r := journal.Append(Kind.StepBegin, actor, [], StepBeginPayload(stepCounter, name), storeOk);
      if r.Some? {
        stepCounter := stepCounter + 1;
      }
    }

    /** Record the completion of a step; nothing changes when the append fails. */
    method RecordEnd(journal: DurableJournal, name: string, begin: EntryHash, value: nat, storeOk: bool)
      returns (r: Option<EntryHash>)
      modifies this`completedSteps, journal
      ensures var ended := EndStep(old(Now(journal)), actor, name, begin, value, storeOk);
              && Now(journal) == (if ended.Some? then ended.value else old(Now(journal)))
              && r == if ended.Some? then Some(FreshId(old(journal.log))) else None
    {
      r := journal.Append(Kind.StepEnd, actor, [begin], StepEndCompleted(stepCounter, value), storeOk);
      if r.Some? {
        completedSteps := completedSteps + [(name, value)];
      }
    }

    method RunEffect(journal: DurableJournal, name: string, begin: EntryHash, status: ResumeStatus, world: World)
      returns (r: FlowResult<StepOutcome>)
      modifies this`completedSteps, this`effects, journal
      ensures Turned(Now(journal), r) == RunOpen(old(Now(journal)), actor, name, begin, status, world)
    {
      var outcome := world.exec(name, |effects|);
      effects := effects + [name];
      if outcome.None? {
        return Failed(ExecFailed);
      }
      var ended := RecordEnd(journal, name, begin, outcome.value, world.store(|journal.log|));
      if ended.None? {
        return Failed(JournalFailed);
      }
      return Done(StepOutcome(name, status, outcome.value));
    }

    method Turn(journal: DurableJournal, name: string, prior: StepPrior, world: World)
      returns (r: FlowResult<StepOutcome>)
      modifies this`stepCounter, this`completedSteps, this`effects, journal
      ensures Turned(Now(journal), r) == TurnOf(old(Now(journal)), actor, name, prior, world)
    {
      match prior {
        case Completed(value) =>
          return Done(StepOutcome(name, Skipped, value));
        case InProgress(begin) =>
          r := RunEffect(journal, name, begin, Rerun, world);
        case Pending =>
          var begun := RecordBegin(journal, name, world.store(|journal.log|));
          if begun.None? {
            return Failed(JournalFailed);
          }
          r := RunEffect(journal, name, begun.value, Executed, world);
      }
    }

    /** Resume does what `Attempt` says, from any journal and any state in memory. */
    method Resume(journal: DurableJournal, world: World) returns (r: FlowResult<seq<StepOutcome>>)
      modifies this`stepCounter, this`completedSteps, this`effects, journal
      ensures plan.None? ==> r == Failed(NoPlan) && Now(journal) == old(Now(journal))
      ensures plan.Some? ==>
                var t := Attempt(old(Now(journal)), actor, plan.value, Evidence(old(journal.log), actor), world);
                Now(journal) == t.flow && r == t.out
    {
      if plan.None? {
        return Failed(NoPlan);
      }
      var ev := ScanStepEvidence(journal.log, actor);
      r := RunPlan(journal, plan.value, ev, world);
    }

    /** The loop over the planned steps. */
    method RunPlan(journal: DurableJournal, steps: seq<string>, ev: StepEvidence, world: World)
      returns (r: FlowResult<seq<StepOutcome>>)
      modifies this`stepCounter, this`completedSteps, this`effects, journal
      ensures Attempted(Now(journal), r) == Attempt(old(Now(journal)), actor, steps, ev, world)
    {
      var outcomes: seq<StepOutcome> := [];
      ghost var flows := [Now(journal)];
      var i := 0;
      while i < |steps|
        invariant 0 <= i <= |steps| && |flows| == i + 1 && flows[0] == old(Now(journal)) && flows[i] == Now(journal)
        invariant Followed(flows, outcomes, actor, steps, ev, world)
      {
        var turn := Turn(journal, steps[i], Classify(steps[i], ev), world);
        if turn.Failed? {
          StoppedHere(flows, outcomes, actor, steps, ev, world, Now(journal), turn.error);
          return Failed(turn.error);
        }
        FollowedMore(flows, outcomes, actor, steps, ev, world, Now(journal), turn.value);
        flows := flows + [Now(journal)];
        outcomes := outcomes + [turn.value];
        i := i + 1;
      }
      WalkedTo(flows, outcomes, actor, steps, ev, world);
      return Done(outcomes);
    }
  }

  // ----- an attempt from a disciplined journal

  /** The journal is disciplined and the state in memory is right. */
  ghost predicate Stands(s: Flow, actor: ActorId, plan: seq<string>, ids: seq<EntryHash>, results: seq<nat>) {
    && Disciplined(s.log, actor, plan, ids, results)
    && s.counter == |ids| && s.completed == Pairs(plan, results)
  }

  /** Under the discipline, that is the same as mirroring the journal. */
  lemma StandsIffMirrors(s: Flow, actor: ActorId, plan: seq<string>, ids: seq<EntryHash>, results: seq<nat>)
    requires Disciplined(s.log, actor, plan, ids, results)
    ensures Stands(s, actor, plan, ids, results) <==> Mirrors(s, actor)
  {
    DisciplinedEvidence(s.log, actor, plan, ids, results);
    CompletedOfSteps(ActorEntries(s.log, actor), Evidence(s.log, actor).beginNames);
    RecoveredIs(StepEntries(s.log, actor), plan, ids, results);
  }

  lemma BeginStands(s: Flow, actor: ActorId, plan: seq<string>, ids: seq<EntryHash>, results: seq<nat>, storeOk: bool)
    requires Stands(s, actor, plan, ids, results) && |ids| == |results| < |plan|
    ensures var begun := BeginStep(s, actor, plan[|ids|], storeOk);
            begun.Some? ==>
              && Stands(begun.value, actor, plan, ids + [FreshId(s.log)], results)
              && s.log <= begun.value.log && begun.value.effects == s.effects
  {
    var e := Appended(s.log, StepBegin, actor, [], StepBeginPayload(s.counter, plan[|ids|]));
    BeginKeepsDiscipline(s.log, actor, plan, ids, results, e);
  }

  lemma EndStands(s: Flow, actor: ActorId, plan: seq<string>, ids: seq<EntryHash>, results: seq<nat>,
                  value: nat, storeOk: bool)
    requires Stands(s, actor, plan, ids, results) && |ids| == |results| + 1
    ensures var ended := EndStep(s, actor, plan[|results|], ids[|results|], value, storeOk);
            ended.Some? ==>
              && Stands(ended.value, actor, plan, ids, results + [value])
              && s.log <= ended.value.log && ended.value.effects == s.effects
  {
    var e := EndEntry(s.log, actor, ids[|results|], s.counter, value);
    EndKeepsDiscipline(s.log, actor, plan, ids, results, e, value);
    assert Pairs(plan, results + [value]) == Pairs(plan, results) + [(plan[|results|], value)];
  }

  lemma OpenStands(s: Flow, actor: ActorId, plan: seq<string>, ids: seq<EntryHash>, results: seq<nat>,
                   status: ResumeStatus, world: World)
    requires Stands(s, actor, plan, ids, results) && |ids| == |results| + 1
    ensures var t := RunOpen(s, actor, plan[|results|], ids[|results|], status, world);
            && s.log <= t.flow.log && t.flow.effects == s.effects + [plan[|results|]]
            && (t.out.Failed? ==> Stands(t.flow, actor, plan, ids, results) && OpenFails(s, t, plan[|results|], world))
            && (t.out.Done? ==> Stands(t.flow, actor, plan, ids, results + [t.out.value.result])
                                && world.exec(plan[|results|], |s.effects|) == Some(t.out.value.result)
                                && t.out.value == StepOutcome(plan[|results|], status, t.out.value.result))
  {
    var ran := s.(effects := s.effects + [plan[|results|]]);
    var effect := world.exec(plan[|results|], |s.effects|);
    if effect.Some? {
      EndStands(ran, actor, plan, ids, results, effect.value, world.store(|ran.log|));
      EndAppendable(s.log, actor, plan, ids, results);
    }
  }

  /** The effect failed, or the append behind it. */
  ghost predicate OpenFails(s: Flow, t: Turned, name: string, world: World) {
    && t.out.Failed?
    && match t.out.error
       case ExecFailed => world.exec(name, |s.effects|).None?
       case JournalFailed => !world.store(|t.flow.log|)
       case _ => false
  }

  /** Under the discipline only the store can refuse an append. */
  lemma BeginAppendable(log: Log, actor: ActorId)
    ensures Appendable(log, actor, [])
  {
    HeadPresent(log, actor);
  }

  lemma EndAppendable(log: Log, actor: ActorId, plan: seq<string>, ids: seq<EntryHash>, results: seq<nat>)
    requires Disciplined(log, actor, plan, ids, results) && |ids| == |results| + 1
    ensures Appendable(log, actor, [ids[|results|]])
  {
    HeadPresent(log, actor);
    FirstParent(Head(log, actor), ids[|results|]);
  }

  /** How a step is handled, given what was paired and begun before. */
  function StatusOf(i: nat, paired: nat, begun: nat): ResumeStatus {
    if i < paired then Skipped else if i < begun then Rerun else Executed
  }

  /** Where an attempt started, and the world it met. */
  datatype Start = Start(flow: Flow, ids: seq<EntryHash>, results: seq<nat>, world: World)

  /** What the effect of step `i` returned in this attempt: the effects of the steps from the
      first unpaired one on were run in turn, after those run before. */
  function EffectOf(g: Start, plan: seq<string>, i: nat): Option<nat>
    requires |g.results| <= i < |plan|
  {
    g.world.exec(plan[i], |g.flow.effects| + i - |g.results|)
  }

  /** Every step paired in this attempt has the result its effect returned. */
  ghost predicate Returned(g: Start, plan: seq<string>, results: seq<nat>) {
    |results| <= |plan| && forall i :: |g.results| <= i < |results| ==> EffectOf(g, plan, i) == Some(results[i])
  }

  /** Why an attempt stopped: the next effect failed and was the last one run, or the
      store refused the next entry. */
  ghost predicate Caused(g: Start, s: Flow, plan: seq<string>, results: seq<nat>, error: FlowError) {
    && |g.results| <= |results| < |plan|
    && match error
       case ExecFailed =>
         EffectOf(g, plan, |results|).None? && Ran(g.flow.effects, s.effects, plan, |g.results|, |results| + 1)
       case JournalFailed => !g.world.store(|s.log|)
       case _ => false
  }

  function Max(a: nat, b: nat): nat { if a < b then b else a }

  ghost predicate Reports(outcomes: seq<StepOutcome>, steps: seq<string>, results: seq<nat>, paired: nat, begun: nat) {
    && |outcomes| <= |steps| && |outcomes| <= |results|
    && forall k :: 0 <= k < |outcomes| ==> outcomes[k] == StepOutcome(steps[k], StatusOf(k, paired, begun), results[k])
  }

  /** The effects added are those of the steps `from` up to `to`, in plan order. */
  ghost predicate Ran(before: seq<string>, after: seq<string>, plan: seq<string>, from: nat, to: nat) {
    from <= to <= |plan| && after == before + plan[from..to]
  }

  /** After the first `i` steps: the paired ones are skipped, the others are paired now. */
  ghost predicate Underway(g: Start, s: Flow, actor: ActorId, plan: seq<string>, i: nat, ids: seq<EntryHash>,
                           results: seq<nat>) {
    && Stands(s, actor, plan, ids, results) && g.flow.log <= s.log && g.ids <= ids && g.results <= results
    && (i <= |g.results| ==> s == g.flow && ids == g.ids && results == g.results)
    && (i > |g.results| ==> |ids| == |results| == i)
    && Returned(g, plan, results)
    && Ran(g.flow.effects, s.effects, plan, |g.results|, Max(i, |g.results|))
  }

  /** After a failure: at most the last effect was not paired. */
  ghost predicate Stopped(g: Start, s: Flow, actor: ActorId, plan: seq<string>, i: nat, ids: seq<EntryHash>,
                          results: seq<nat>) {
    && Stands(s, actor, plan, ids, results) && g.flow.log <= s.log && g.ids <= ids && g.results <= results
    && |results| < i <= |plan|
    && Returned(g, plan, results)
    && RanUpTo(g.flow.effects, s.effects, plan, |g.results|, |results|)
  }

  lemma RanMore(before: seq<string>, mid: seq<string>, plan: seq<string>, from: nat, to: nat)
    requires Ran(before, mid, plan, from, to) && to < |plan|
    ensures Ran(before, mid + [plan[to]], plan, from, to + 1)
  {
    assert plan[from..to + 1] == plan[from..to] + [plan[to]];
  }

  lemma OpenTurn(s: Flow, actor: ActorId, plan: seq<string>, ids: seq<EntryHash>, results: seq<nat>,
                 status: ResumeStatus, world: World)
    returns (results': seq<nat>)
    requires Stands(s, actor, plan, ids, results) && |ids| == |results| + 1
    ensures var t := RunOpen(s, actor, plan[|results|], ids[|results|], status, world);
            && s.log <= t.flow.log && t.flow.effects == s.effects + [plan[|results|]]
            && Stands(t.flow, actor, plan, ids, results') && results <= results'
            && |results'| == (if t.out.Done? then |results| + 1 else |results|)
            && (t.out.Done? ==> t.out.value == StepOutcome(plan[|results|], status, results'[|results|])
                                && world.exec(plan[|results|], |s.effects|) == Some(results'[|results|]))
            && (t.out.Failed? ==> OpenFails(s, t, plan[|results|], world))
  {
    var t := RunOpen(s, actor, plan[|results|], ids[|results|], status, world);
    OpenStands(s, actor, plan, ids, results, status, world);
    results' := if t.out.Done? then results + [t.out.value.result] else results;
  }

  lemma PendingTurn(s: Flow, actor: ActorId, plan: seq<string>, ids: seq<EntryHash>, results: seq<nat>, world: World)
    returns (ids': seq<EntryHash>, results': seq<nat>)
    requires Stands(s, actor, plan, ids, results) && |ids| == |results| < |plan|
    ensures var t := TurnOf(s, actor, plan[|results|], Pending, world);
            && s.log <= t.flow.log && (t.flow.effects == s.effects || t.flow.effects == s.effects + [plan[|results|]])
            && Stands(t.flow, actor, plan, ids', results') && ids <= ids' && results <= results'
            && (t.out.Done? ==>
                  |ids'| == |results'| == |results| + 1 && t.flow.effects == s.effects + [plan[|results|]])
            && (t.out.Done? ==> t.out.value == StepOutcome(plan[|results|], Executed, results'[|results|])
                                && world.exec(plan[|results|], |s.effects|) == Some(results'[|results|]))
            && (t.out.Failed? ==> results' == results && TurnFails(s, t, plan[|results|], world))
  {
    ids', results' := ids, results;
    var begun := BeginStep(s, actor, plan[|results|], world.store(|s.log|));
    BeginStands(s, actor, plan, ids, results, world.store(|s.log|));
    BeginAppendable(s.log, actor);
    if begun.Some? {
      ids' := ids + [FreshId(s.log)];
      results' := OpenTurn(begun.value, actor, plan, ids', results, Executed, world);
    }
  }

  /** The effect failed after it was run, or the store refused an entry. */
  ghost predicate TurnFails(s: Flow, t: Turned, name: string, world: World) {
    && t.out.Failed?
    && match t.out.error
       case ExecFailed => world.exec(name, |s.effects|).None? && t.flow.effects == s.effects + [name]
       case JournalFailed => !world.store(|t.flow.log|)
       case _ => false
  }

  /** One more planned step was handled. */
  ghost predicate Handled(g: Start, t: Turned, actor: ActorId, plan: seq<string>, i: nat, ids: seq<EntryHash>,
                          results: seq<nat>) {
    && i < |plan|
    && (t.out.Done? ==> Underway(g, t.flow, actor, plan, i + 1, ids, results) && i < |results|)
    && (t.out.Done? ==> t.out.value == StepOutcome(plan[i], StatusOf(i, |g.results|, |g.ids|), results[i]))
    && (t.out.Failed? ==> Stopped(g, t.flow, actor, plan, i + 1, ids, results)
                          && Caused(g, t.flow, plan, results, t.out.error))
  }

  lemma SkipKeeps(g: Start, s: Flow, actor: ActorId, plan: seq<string>, i: nat, ids: seq<EntryHash>, results: seq<nat>)
    requires i < |g.results| && i < |plan| && Underway(g, s, actor, plan, i, ids, results)
    ensures Handled(g, TurnOf(s, actor, plan[i], Completed(results[i]), g.world), actor, plan, i, ids, results)
  {
  }

  lemma RerunKeeps(g: Start, s: Flow, actor: ActorId, plan: seq<string>, i: nat, ids: seq<EntryHash>, results: seq<nat>)
    returns (results': seq<nat>)
    requires |g.results| == i < |g.ids| && i < |plan| && Underway(g, s, actor, plan, i, ids, results)
    ensures results <= results'
            && Handled(g, TurnOf(s, actor, plan[i], InProgress(ids[i]), g.world), actor, plan, i, ids, results')
  {
    results' := OpenTurn(s, actor, plan, ids, results, Rerun, g.world);
    Concludes(g, s, TurnOf(s, actor, plan[i], InProgress(ids[i]), g.world), actor, plan, i, ids, results, ids,
              results');
  }

  lemma ExecuteKeeps(g: Start, s: Flow, actor: ActorId, plan: seq<string>, i: nat, ids: seq<EntryHash>,
                     results: seq<nat>)
    returns (ids': seq<EntryHash>, results': seq<nat>)
    requires |g.ids| <= i && |g.results| <= i < |plan| && |ids| == |results| == i
             && Underway(g, s, actor, plan, i, ids, results)
    ensures results <= results'
            && Handled(g, TurnOf(s, actor, plan[i], Pending, g.world), actor, plan, i, ids', results')
  {
    ids', results' := PendingTurn(s, actor, plan, ids, results, g.world);
    Concludes(g, s, TurnOf(s, actor, plan[i], Pending, g.world), actor, plan, i, ids, results, ids', results');
  }

  lemma ReturnedMore(g: Start, plan: seq<string>, results: seq<nat>, results': seq<nat>)
    requires Returned(g, plan, results) && |g.results| <= |results| < |plan|
    requires results <= results' && |results'| == |results| + 1
    requires EffectOf(g, plan, |results|) == Some(results'[|results|])
    ensures Returned(g, plan, results')
  {
  }

  /** A step that was run and paired. */
  lemma Succeeds(g: Start, s: Flow, t: Turned, actor: ActorId, plan: seq<string>, i: nat,
                 ids: seq<EntryHash>, results: seq<nat>, ids': seq<EntryHash>, results': seq<nat>)
    requires Underway(g, s, actor, plan, i, ids, results) && |g.results| <= |results| == i < |plan|
    requires Stands(t.flow, actor, plan, ids', results') && s.log <= t.flow.log && ids <= ids' && results <= results'
    requires t.out.Done? && t.flow.effects == s.effects + [plan[i]] && |ids'| == |results'| == i + 1
    requires t.out.value == StepOutcome(plan[i], StatusOf(i, |g.results|, |g.ids|), results'[i])
    requires EffectOf(g, plan, i) == Some(results'[i])
    ensures Handled(g, t, actor, plan, i, ids', results')
  {
    RanMore(g.flow.effects, s.effects, plan, |g.results|, i);
    ReturnedMore(g, plan, results, results');
  }

  /** A step that failed: its effect ran at most once. */
  lemma Fails(g: Start, s: Flow, t: Turned, actor: ActorId, plan: seq<string>, i: nat,
              ids: seq<EntryHash>, results: seq<nat>, ids': seq<EntryHash>)
    requires Underway(g, s, actor, plan, i, ids, results) && |g.results| <= |results| == i < |plan|
    requires Stands(t.flow, actor, plan, ids', results) && s.log <= t.flow.log && ids <= ids'
    requires t.flow.effects == s.effects + [plan[i]] || t.flow.effects == s.effects
    requires TurnFails(s, t, plan[i], g.world) && |s.effects| == |g.flow.effects| + i - |g.results|
    ensures Handled(g, t, actor, plan, i, ids', results)
  {
    RanMore(g.flow.effects, s.effects, plan, |g.results|, i);
  }

  /** A step that was not skipped: paired when it succeeded, and its effect ran at most once. */
  lemma Concludes(g: Start, s: Flow, t: Turned, actor: ActorId, plan: seq<string>, i: nat,
                  ids: seq<EntryHash>, results: seq<nat>, ids': seq<EntryHash>, results': seq<nat>)
    requires Underway(g, s, actor, plan, i, ids, results) && |g.results| <= |results| == i < |plan|
    requires Stands(t.flow, actor, plan, ids', results') && s.log <= t.flow.log && ids <= ids' && results <= results'
    requires t.flow.effects == s.effects + [plan[i]] || (t.out.Failed? && t.flow.effects == s.effects)
    requires t.out.Done? ==> |ids'| == |results'| == i + 1
    requires t.out.Done? ==> t.out.value == StepOutcome(plan[i], StatusOf(i, |g.results|, |g.ids|), results'[i])
    requires t.out.Done? ==> g.world.exec(plan[i], |s.effects|) == Some(results'[i])
    requires t.out.Failed? ==> results' == results && TurnFails(s, t, plan[i], g.world)
    ensures Handled(g, t, actor, plan, i, ids', results')
  {
    assert |s.effects| == |g.flow.effects| + i - |g.results|;
    if t.out.Done? {
      Succeeds(g, s, t, actor, plan, i, ids, results, ids', results');
    } else {
      Fails(g, s, t, actor, plan, i, ids, results, ids');
    }
  }

  /** A planned step, classified by what the journal said at the start. */
  lemma TurnKeeps(g: Start, s: Flow, actor: ActorId, plan: seq<string>, i: nat, ids: seq<EntryHash>, results: seq<nat>)
    returns (ids': seq<EntryHash>, results': seq<nat>)
    requires DistinctNames(plan) && i < |plan| && Disciplined(g.flow.log, actor, plan, g.ids, g.results)
    requires Underway(g, s, actor, plan, i, ids, results)
    ensures results <= results'
    ensures Handled(g, TurnOf(s, actor, plan[i], Classify(plan[i], Evidence(g.flow.log, actor)), g.world), actor, plan,
                    i, ids', results')
  {
    DisciplinedEvidence(g.flow.log, actor, plan, g.ids, g.results);
    ClassifyPlan(StepEntries(g.flow.log, actor), plan, g.ids, g.results, i);
    ids', results' := ids, results;
    if i < |g.results| {
      SkipKeeps(g, s, actor, plan, i, ids, results);
    } else if i < |g.ids| {
      results' := RerunKeeps(g, s, actor, plan, i, ids, results);
    } else {
      ids', results' := ExecuteKeeps(g, s, actor, plan, i, ids, results);
    }
  }

  /** How far an attempt at the first `i` steps came. */
  ghost predicate Advanced(g: Start, t: Attempted, actor: ActorId, plan: seq<string>, i: nat, ids: seq<EntryHash>,
                           results: seq<nat>) {
    && (t.out.Done? ==> Underway(g, t.flow, actor, plan, i, ids, results) && |t.out.value| == i)
    && (t.out.Done? ==> Reports(t.out.value, plan, results, |g.results|, |g.ids|))
    && (t.out.Failed? ==> Stopped(g, t.flow, actor, plan, i, ids, results)
                          && Caused(g, t.flow, plan, results, t.out.error))
  }

  lemma SetOut(g: Start, actor: ActorId, plan: seq<string>)
    requires Stands(g.flow, actor, plan, g.ids, g.results)
    ensures Progress(g, Attempted(g.flow, Done([])), actor, plan, 0)
  {
    assert g.flow.effects == g.flow.effects + plan[|g.results|..|g.results|];
    assert Advanced(g, Attempted(g.flow, Done([])), actor, plan, 0, g.ids, g.results);
  }

  lemma ReportsMore(outcomes: seq<StepOutcome>, plan: seq<string>, had: seq<nat>, results: seq<nat>, paired: nat,
                    begun: nat, one: StepOutcome)
    requires Reports(outcomes, plan, had, paired, begun) && had <= results && |outcomes| < |plan|
             && |outcomes| < |results|
    requires one == StepOutcome(plan[|outcomes|], StatusOf(|outcomes|, paired, begun), results[|outcomes|])
    ensures Reports(outcomes + [one], plan, results, paired, begun)
  {
  }

  /** An attempt came through the first `i` steps as it should, or stopped on the way. */
  ghost predicate Progress(g: Start, t: Attempted, actor: ActorId, plan: seq<string>, i: nat) {
    exists ids, results :: Advanced(g, t, actor, plan, i, ids, results)
  }

  lemma Conclude(g: Start, before: Attempted, actor: ActorId, plan: seq<string>, i: nat, had: seq<nat>, t: Turned,
                 ids: seq<EntryHash>, results: seq<nat>, turn: (Flow, string) -> Turned)
    requires before.out.Done? && |before.out.value| == i < |plan|
             && Reports(before.out.value, plan, had, |g.results|, |g.ids|)
    requires had <= results && Handled(g, t, actor, plan, i, ids, results) && t == turn(before.flow, plan[i])
    ensures Progress(g, NextTurn(before, plan[i], turn), actor, plan, i + 1)
  {
    if t.out.Done? {
      ReportsMore(before.out.value, plan, had, results, |g.results|, |g.ids|, t.out.value);
    }
    assert Advanced(g, NextTurn(before, plan[i], turn), actor, plan, i + 1, ids, results);
  }

  lemma StaysStopped(g: Start, t: Attempted, actor: ActorId, plan: seq<string>, i: nat, ids: seq<EntryHash>,
                     results: seq<nat>)
    requires i < |plan| && t.out.Failed? && Advanced(g, t, actor, plan, i, ids, results)
    ensures Progress(g, t, actor, plan, i + 1)
  {
    assert Advanced(g, t, actor, plan, i + 1, ids, results);
  }

  lemma NextProgress(g: Start, before: Attempted, actor: ActorId, plan: seq<string>, i: nat,
                     turn: (Flow, string) -> Turned)
    requires DistinctNames(plan) && i < |plan| && Disciplined(g.flow.log, actor, plan, g.ids, g.results)
    requires Progress(g, before, actor, plan, i) && turn == Turning(actor, Evidence(g.flow.log, actor), g.world)
    ensures Progress(g, NextTurn(before, plan[i], turn), actor, plan, i + 1)
  {
    var ids, results :| Advanced(g, before, actor, plan, i, ids, results);
    if before.out.Done? {
      var ids', results' := TurnKeeps(g, before.flow, actor, plan, i, ids, results);
      var t := TurnOf(before.flow, actor, plan[i], Classify(plan[i], Evidence(g.flow.log, actor)), g.world);
      Conclude(g, before, actor, plan, i, results, t, ids', results', turn);
    } else {
      StaysStopped(g, before, actor, plan, i, ids, results);
    }
  }

  /** An attempt keeps the discipline and the mirror wherever it fails. It skips the paired
      steps, reruns the open one and executes the rest in plan order. */
  lemma AttemptKeeps(g: Start, actor: ActorId, plan: seq<string>)
    requires DistinctNames(plan) && Stands(g.flow, actor, plan, g.ids, g.results)
    ensures Progress(g, Attempt(g.flow, actor, plan, Evidence(g.flow.log, actor), g.world), actor, plan, |plan|)
  {
    var turn := Turning(actor, Evidence(g.flow.log, actor), g.world);
    var ok := (t: Attempted, i: nat) => Progress(g, t, actor, plan, i);
    SetOut(g, actor, plan);
    forall t: Attempted, k: nat | k < |plan| && ok(t, k) ensures ok(NextTurn(t, plan[k], turn), k + 1) {
      NextProgress(g, t, actor, plan, k, turn);
    }
    StepByStep(g.flow, plan, |plan|, turn, ok);
  }

  /** What an attempt at the whole plan keeps: the discipline and the mirror, every result
      and every entry; it succeeds exactly when the plan is paired in full, and at most the
      last effect was not paired. */
  ghost predicate Kept(g: Start, t: Attempted, actor: ActorId, plan: seq<string>, ids: seq<EntryHash>,
                       results: seq<nat>) {
    && Disciplined(t.flow.log, actor, plan, ids, results) && Mirrors(t.flow, actor)
    && g.flow.log <= t.flow.log && g.ids <= ids && g.results <= results
    && (t.out.Done? <==> |results| == |plan|)
    && (t.out.Done? ==> |t.out.value| == |plan| && Reports(t.out.value, plan, results, |g.results|, |g.ids|))
    && RanUpTo(g.flow.effects, t.flow.effects, plan, |g.results|, |results|)
    && Returned(g, plan, results) && (t.out.Failed? ==> Caused(g, t.flow, plan, results, t.out.error))
  }

  ghost predicate RanUpTo(before: seq<string>, after: seq<string>, plan: seq<string>, from: nat, paired: nat) {
    Ran(before, after, plan, from, paired) || Ran(before, after, plan, from, paired + 1)
  }

  /** A resume from a disciplined journal and a mirroring state keeps both, wherever it
      fails; and a plan that was paired already is left alone. */
  lemma ResumeKeeps(g: Start, actor: ActorId, plan: seq<string>)
    returns (ids: seq<EntryHash>, results: seq<nat>)
    requires DistinctNames(plan) && Disciplined(g.flow.log, actor, plan, g.ids, g.results) && Mirrors(g.flow, actor)
    ensures var t := Attempt(g.flow, actor, plan, Evidence(g.flow.log, actor), g.world);
            Kept(g, t, actor, plan, ids, results) && (|g.results| == |plan| ==> t.flow == g.flow)
  {
    StandsIffMirrors(g.flow, actor, plan, g.ids, g.results);
    AttemptKeeps(g, actor, plan);
    ids, results := Settled(g, Attempt(g.flow, actor, plan, Evidence(g.flow.log, actor), g.world), actor, plan);
  }

  lemma Settled(g: Start, t: Attempted, actor: ActorId, plan: seq<string>)
    returns (ids: seq<EntryHash>, results: seq<nat>)
    requires Progress(g, t, actor, plan, |plan|) && |g.results| <= |plan|
    ensures Kept(g, t, actor, plan, ids, results) && (|g.results| == |plan| ==> t.flow == g.flow)
  {
    ids, results :| Advanced(g, t, actor, plan, |plan|, ids, results);
    StandsIffMirrors(t.flow, actor, plan, ids, results);
  }
}
