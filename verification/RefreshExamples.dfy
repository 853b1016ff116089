/** Two journals on which refreshing a lineage index loses what a rebuild finds. */
module RefreshExamples {
  import opened Journals
  import opened Ordering
  import opened WalkSpec
  import opened Solver
  import opened Lineage
  import opened Rebuild
  import opened Fronts
  import Keys
  import Store

  // ----- a witness beyond the horizon

  /** Three entries in a row: a send, its receive, and an outcome. */
  function Row(): Log {
    Hop() + [Entry(2, Outcome, 2, [1], OtherPayload)]
  }

  lemma RowCausal()
    ensures Causal(Row()) && ParentClosed(Row()) && Rank(Row(), 0) == 1 && Rank(Row(), 1) == 2
  {
    HopFacts();
    Store.AppendKeepsCausal(Hop(), Entry(2, Outcome, 2, [1], OtherPayload));
    RankStable(Hop(), Row(), 0);
    RankStable(Hop(), Row(), 1);
  }

  lemma RowFacts()
    ensures Causal(Row()) && ParentClosed(Row()) && Rank(Row(), 0) == 1 && Rank(Row(), 1) == 2 && Rank(Row(), 2) == 3
    ensures Get(Row(), 2).parents == [1] && Get(Row(), 1).parents == [0] && Get(Row(), 0).parents == []
    ensures Silently(Row(), 2, 1, 1)
  {
    RowCausal();
    RankAt(Row(), 2);
    RowStep();
  }

  lemma RowStep()
    requires Rank(Row(), 2) == 3
    ensures Silently(Row(), 2, 1, 1)
  {
    assert 1 in Get(Row(), 2).parents && Silently(Row(), 1, 1, 0);
  }

  lemma OneWitness(j: Log, w: EntryHash, horizon: Option<nat>)
    requires Causal(j)
    ensures WitnessClosure(j, [w], horizon) == Closure(j, w, 0, horizon)
  {
    assert [w][1..] == [];
    assert Closures(j, [w], |j| + 1, 0, horizon) == Closure(j, w, 0, horizon) + Closures(j, [], |j| + 1, 0, horizon);
  }

  lemma OneUp(j: Log, h: EntryHash, p: EntryHash, d: nat, horizon: Option<nat>)
    requires Causal(j) && Present(j, h) && Get(j, h).parents == [p] && !Beyond(d, horizon)
    ensures Closure(j, h, d, horizon) == {h} + Closure(j, p, d + 1, horizon)
  {
    assert [p][1..] == [];
    assert Closures(j, [p], Rank(j, h), d + 1, horizon)
        == Closure(j, p, d + 1, horizon) + Closures(j, [], Rank(j, h), d + 1, horizon);
  }

  lemma RowClosures()
    requires Causal(Row()) && Rank(Row(), 0) == 1 && Rank(Row(), 1) == 2 && Rank(Row(), 2) == 3
    requires Get(Row(), 2).parents == [1] && Get(Row(), 1).parents == [0] && Get(Row(), 0).parents == []
    ensures WitnessClosure(Row(), [2], Some(1)) == {1, 2} && 0 in WitnessClosure(Row(), [2, 1], Some(1))
  {
    var j, far := Row(), Some(1);
    OneUp(j, 2, 1, 0, far);
    OneUp(j, 1, 0, 1, far);
    OneUp(j, 1, 0, 0, far);
    assert Closure(j, 0, 2, far) == {} && 0 in Closure(j, 0, 1, far);
    WitnessMonotone(j, 1, [2, 1], far);
    OneWitness(j, 2, far);
  }

  lemma RowSets()
    requires Causal(Row()) && Rank(Row(), 0) == 1 && Rank(Row(), 1) == 2 && Rank(Row(), 2) == 3
    requires Get(Row(), 2).parents == [1] && Get(Row(), 1).parents == [0] && Get(Row(), 0).parents == []
    ensures {0, 1} in FaultSets(Row(), [2, 1], Some(1)) && {0, 1} !in FaultSets(Row(), [2], Some(1))
  {
    var j, far := Row(), Some(1);
    assert IsDerivation(j, 0, [0], 1, far);
    ExtendsDerivation(j, 1, 0, [0], 0, far, []);
    assert FaultableIn(j, [1] + [0]) == {0, 1};
    ChainCounts(j, 1, far, [1] + [0]);
    WitnessMonotone(j, 1, [2, 1], far);
    if {0, 1} in FaultSets(j, [2], far) {
      var chain := ChainOf(j, 2, far, {0, 1});
      RowChain(chain);
    }
  }

  lemma RowChain(chain: seq<EntryHash>)
    requires Causal(Row()) && Rank(Row(), 1) == 2 && Rank(Row(), 2) == 3 && IsDerivation(Row(), 2, chain, 0, Some(1))
    requires Get(Row(), 2).parents == [1] && Get(Row(), 1).parents == [0]
    ensures 0 !in chain
  {
    var p :| p in Get(Row(), 2).parents && IsDerivation(Row(), p, chain[1..], 1, Some(1));
    var q :| q in Get(Row(), 1).parents && IsDerivation(Row(), q, chain[1..][1..], 2, Some(1));
    assert chain == [2] + ([1] + []);
  }

  // ----- a witness that is missed

  lemma HopClosure(horizon: Option<nat>)
    requires !Beyond(1, horizon) && Causal(Hop()) && Rank(Hop(), 0) == 1 && Rank(Hop(), 1) == 2
    ensures WitnessClosure(Hop(), [1], horizon) == {0, 1} == WitnessClosure(Hop(), [1, 0], horizon)
  {
    var j := Hop();
    assert Get(j, 1).parents == [0] && Get(j, 0).parents == [];
    OneUp(j, 1, 0, 0, horizon);
    OneWitness(j, 1, horizon);
    OneWitness(j, 0, horizon);
    assert Closure(j, 0, 1, horizon) == {0} && Closure(j, 0, 0, horizon) == {0};
    WitnessUnion(j, [1], [0], horizon);
    assert [1] + [0] == [1, 0];
  }

  lemma HopVisits()
    requires Causal(Hop()) && Rank(Hop(), 0) == 1 && Rank(Hop(), 1) == 2
    ensures Visits(Hop(), 0) == 1 && Visits(Hop(), 1) == 2
    ensures forall horizon :: Walkable(Hop(), [1], horizon) && Walkable(Hop(), [1, 0], horizon)
  {
    var j := Hop();
    assert Get(j, 0).parents == [] && Get(j, 1).parents == [0] && [0][1..] == [];
    assert VisitsOf(j, [0], 2) == Visits(j, 0) + VisitsOf(j, [], 2);
  }

  lemma HopCached(horizon: Option<nat>)
    requires !Beyond(1, horizon) && Causal(Hop()) && Rank(Hop(), 0) == 1 && Rank(Hop(), 1) == 2
    ensures [1] + Uncached([1, 0], WitnessClosure(Hop(), [1], horizon)) == [1]
  {
    HopClosure(horizon);
    AllCached([1, 0], WitnessClosure(Hop(), [1], horizon));
  }

  lemma {:induction false} AllCached(ws: seq<EntryHash>, closure: set<EntryHash>)
    requires forall w :: w in ws ==> w in closure
    ensures Uncached(ws, closure) == []
  {
    if ws != [] { AllCached(ws[1..], closure); }
  }

  lemma ShortDerivation(horizon: Option<nat>)
    requires Causal(Hop()) && Rank(Hop(), 0) == 1 && Rank(Hop(), 1) == 2
    ensures {0} in FaultSets(Hop(), [1, 0], horizon) && {0} !in FaultSets(Hop(), [1], horizon)
  {
    var j := Hop();
    FaultSetsAreDerivations(j, [1, 0], horizon, {0});
    FaultSetsAreDerivations(j, [1], horizon, {0});
    assert IsDerivation(j, 0, [0], 0, horizon);
    assert FaultableIn(j, [0]) == {0};
    forall chain | IsDerivation(j, 1, chain, 0, horizon)
      ensures FaultableIn(j, chain) != {0}
    {
      assert 1 in FaultableIn(j, chain);
    }
  }

  lemma PairList(a: nat, b: nat)
    requires a < b
    ensures SortedList({a, b}) == [a, b]
  {
    assert Elements([a, b]) == {a, b};
    AscendingUnique(SortedList({a, b}), [a, b]);
  }

  lemma SingleList(a: nat)
    ensures SortedList({a}) == [a]
  {
    assert Elements([a]) == {a};
    AscendingUnique(SortedList({a}), [a]);
  }

  /** A set is listed exactly when it was collected. */
  lemma ListedIff(paths: seq<Clause>, family: set<set<EntryHash>>, s: set<EntryHash>)
    requires Canonical(paths, family)
    ensures SortedList(s) in paths <==> s in family
  {
    CanonicalMembers(paths, family);
    if SortedList(s) in paths { assert Elements(SortedList(s)) == s; }
  }

  /** What happens to the receive and then the send as witnesses of a hop. */
  lemma HopWitnesses(horizon: Option<nat>)
    requires horizon != Some(0)
    ensures Causal(Hop()) && ParentClosed(Hop()) && Rank(Hop(), 0) == 1 && Rank(Hop(), 1) == 2
    ensures Walkable(Hop(), [1], horizon) && Walkable(Hop(), [1, 0], horizon)
    ensures WitnessClosure(Hop(), [1], horizon) == WitnessClosure(Hop(), [1, 0], horizon)
    ensures [1] + Uncached([1, 0], WitnessClosure(Hop(), [1], horizon)) == [1]
  {
    HopFacts();
    HopClosure(horizon);
    HopVisits();
    HopCached(horizon);
  }

  // ----- the two refreshes

  /** A skipped witness can matter, with or without a horizon: an ancestor of a cached
      witness that is named as a witness itself has a shorter derivation the refresh
      never collects. */
  method RefreshCanMiss(config: SolverConfig, engine: SolverEngine)
    returns (refreshed: LineageIndex, rebuilt: LineageIndex, changed: bool)
    requires Keys.Fits(config) && config.maxHorizon != Some(0)
    ensures [0] in rebuilt.paths && [0] !in refreshed.paths && refreshed.closure == rebuilt.closure
  {
    ghost var horizon := config.maxHorizon;
    HopWitnesses(horizon);
    ShortDerivation(horizon);
    SingleList(0);
    refreshed, rebuilt, changed := RefreshBesideRebuild(Hop(), Hop(), [1], [1, 0], config, engine);
    ListedIff(refreshed.paths, FaultSets(Hop(), [1], horizon), {0});
    ListedIff(rebuilt.paths, FaultSets(Hop(), [1, 0], horizon), {0});
  }

  /** At horizon one the receive lies silently behind the outcome, and still a refresh that
      skips it loses the send, from the closure and from the paths. */
  method HorizonMatters(config: SolverConfig, engine: SolverEngine)
    returns (refreshed: LineageIndex, rebuilt: LineageIndex, changed: bool)
    requires Keys.Fits(config) && config.maxHorizon == Some(1)
    ensures Silently(Row(), 2, 1, 1)
    ensures 0 in rebuilt.closure && 0 !in refreshed.closure
    ensures [0, 1] in rebuilt.paths && [0, 1] !in refreshed.paths
  {
    RowFacts();
    RowClosures();
    RowSets();
    refreshed, rebuilt, changed := RefreshBesideRebuild(Row(), Row(), [2], [2, 1], config, engine);
    AllCached([2, 1], WitnessClosure(Row(), [2], Some(1)));
    assert [2] + [] == [2];
    PairList(0, 1);
    ListedIff(refreshed.paths, FaultSets(Row(), [2], Some(1)), {0, 1});
    ListedIff(rebuilt.paths, FaultSets(Row(), [2, 1], Some(1)), {0, 1});
  }
}
