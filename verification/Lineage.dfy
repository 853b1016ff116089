/** The lineage index: a cached witness closure with its derivation paths, and the
    differential refresh that walks only witnesses outside the cached closure.
 */
module Lineage {
  import opened Journals
  import opened Ordering
  import opened WalkSpec
  import opened Solver
  import LineageWalk
  import Support
  import Hazard
  import Keys
  import Bytes

  /** The stack walk stays within its node budget from every witness. */
  ghost predicate Walkable(j: Log, ws: seq<EntryHash>, horizon: Option<nat>)
    requires Causal(j)
  {
    horizon.Some? || forall w :: w in ws ==> Visits(j, w) <= LineageWalk.LINEAGE_WALK_NODE_BUDGET
  }

  lemma {:induction false} ClosuresSplit(j: Log, hs: seq<EntryHash>, i: nat, bound: nat, horizon: Option<nat>)
    requires Causal(j) && i < |hs| && forall h :: h in hs ==> Rank(j, h) < bound
    ensures Closures(j, hs[..i + 1], bound, 0, horizon)
         == Closures(j, hs[..i], bound, 0, horizon) + Closure(j, hs[i], 0, horizon)
    ensures PathBags(j, hs[..i + 1], bound, 0, horizon, [])
         == PathBags(j, hs[..i], bound, 0, horizon, []) + PathBag(j, hs[i], 0, horizon, [])
    decreases i
  {
    if i > 0 {
      ClosuresSplit(j, hs[1..], i - 1, bound, horizon);
      assert hs[..i + 1][1..] == hs[1..][..i] && hs[..i][1..] == hs[1..][..i - 1];
    } else {
      assert hs[..1][1..] == [];
    }
  }

  // ----- what is collected even past the node budget

  ghost predicate FromTrail(j: Log, ws: seq<EntryHash>, q: Path) {
    exists w :: w in ws && TrailPath(j, w, [], q)
  }

  ghost predicate TrailOf(j: Log, ws: seq<EntryHash>, chain: seq<EntryHash>) {
    exists w :: w in ws && IsTrail(j, w, chain)
  }

  /** The clause is the faultable entries of a trail from a witness. */
  ghost predicate TrailClause(j: Log, ws: seq<EntryHash>, c: Clause) {
    exists chain :: TrailOf(j, ws, chain) && c == SortedList(FaultableIn(j, chain))
  }

  lemma TrailsCompile(j: Log, ws: seq<EntryHash>, raw: seq<Path>, paths: seq<Clause>)
    requires forall q :: q in raw ==> FromTrail(j, ws, q)
    requires Canonical(paths, Hazard.PathSets(raw))
    ensures forall c :: c in paths ==> TrailClause(j, ws, c)
  {
    forall c | c in paths
      ensures TrailClause(j, ws, c)
    {
      assert c in Listed(paths);
      var q :| q in raw && q != [] && c == SortedList(Elements(q));
      var w :| w in ws && TrailPath(j, w, [], q);
      var chain :| IsTrail(j, w, chain) && q == [] + FaultablePart(j, chain);
      assert q == FaultablePart(j, chain);
      FaultablePartMembers(j, chain);
      assert TrailOf(j, ws, chain);
    }
  }

  /** The walk from one witness, on top of what the walker has collected. */
  method WalkOne(walker: LineageWalk.Walker, w: EntryHash, horizon: Option<nat>)
    requires Causal(walker.j) && walker.currentPath == []
    modifies walker
    ensures walker.currentPath == []
    ensures horizon.Some? || Visits(walker.j, w) <= LineageWalk.LINEAGE_WALK_NODE_BUDGET ==>
              && walker.closure == old(walker.closure) + Closure(walker.j, w, 0, horizon)
              && multiset(walker.paths) == old(multiset(walker.paths)) + PathBag(walker.j, w, 0, horizon, [])
    ensures horizon.None? ==>
              forall q :: q in walker.paths ==> q in old(walker.paths) || TrailPath(walker.j, w, [], q)
  {
    match horizon {
      case Some(h) => walker.CollectBounded(w, 0, h);
      case None => walker.CollectUnbounded(w);
    }
  }

  /** The raw walk over all witnesses. */
  method Walk(j: Log, ws: seq<EntryHash>, horizon: Option<nat>)
    returns (closure: set<EntryHash>, raw: seq<Path>, truncated: bool)
    requires Causal(j)
    ensures Walkable(j, ws, horizon) ==>
              closure == WitnessClosure(j, ws, horizon) && multiset(raw) == WitnessBag(j, ws, horizon)
    ensures horizon.None? ==> forall q :: q in raw ==> FromTrail(j, ws, q)
  {
    var walker := new LineageWalk.Walker(j);
    var i := 0;
    while i < |ws|
      invariant 0 <= i <= |ws| && walker.j == j && fresh(walker) && walker.currentPath == []
      invariant Walkable(j, ws, horizon) ==>
          && walker.closure == Closures(j, ws[..i], |j| + 1, 0, horizon)
          && multiset(walker.paths) == PathBags(j, ws[..i], |j| + 1, 0, horizon, [])
      invariant horizon.None? ==> forall q :: q in walker.paths ==> FromTrail(j, ws, q)
    {
      ClosuresSplit(j, ws, i, |j| + 1, horizon);
      WalkOne(walker, ws[i], horizon);
      i := i + 1;
    }
    assert ws[..i] == ws;
    closure, raw, truncated := walker.closure, walker.paths, walker.truncated;
  }

  /** The closure and the canonical derivation paths of a witness list. A cut or
      exhausted walk is not refused here. Past the node budget every clause still
      holds the faultable entries of a trail from a witness. */
  method CollectLineage(j: Log, ws: seq<EntryHash>, config: SolverConfig)
    returns (closure: set<EntryHash>, paths: seq<Clause>, walked: nat)
    requires Causal(j)
    ensures Walkable(j, ws, config.maxHorizon) ==>
              && closure == WitnessClosure(j, ws, config.maxHorizon)
              && Canonical(paths, FaultSets(j, ws, config.maxHorizon))
    ensures config.maxHorizon.None? ==> forall c :: c in paths ==> TrailClause(j, ws, c)
    ensures walked == |closure|
  {
    var raw, truncated;
    closure, raw, truncated := Walk(j, ws, config.maxHorizon);
    walked := |closure|;
    var support := Support.SupportFromPaths(raw, truncated && config.maxHorizon.Some?);
    var clauses := Support.HardClausesFromSupport(support);
    if Walkable(j, ws, config.maxHorizon) {
      RawSets(j, ws, config.maxHorizon, raw);
    }
    if clauses == [] {
      // Nothing compiled, so nothing non-empty was walked; the fallback over the
      // raw paths then lists nothing either.
      paths := SortDedup(NonEmptySets(raw));
      NothingWalked(raw);
    } else {
      paths := SortDedup(clauses);
    }
    Hazard.CompiledCanonical(raw, Support.BranchClauses(Support.PathBranches(raw)), paths);
    if config.maxHorizon.None? { TrailsCompile(j, ws, raw, paths); }
  }

  /** The fallback's clause list: the sorted member lists of the non-empty paths. */
  function NonEmptySets(raw: seq<Path>): seq<Clause> {
    if raw == [] then []
    else (if raw[0] == [] then [] else [SortedList(Elements(raw[0]))]) + NonEmptySets(raw[1..])
  }

  lemma {:induction false} NothingWalked(raw: seq<Path>)
    requires Support.BranchClauses(Support.PathBranches(raw)) == []
    ensures NonEmptySets(raw) == []
  {
    if raw != [] {
      if raw[0] != [] {
        assert raw[0] in raw;
        Support.PathClauses(raw, SortedList(Elements(raw[0])));
      }
      var rest := Support.BranchClauses(Support.PathBranches(raw[1..]));
      if rest != [] {
        var c := rest[0];
        Support.PathClauses(raw, c);
        Support.PathClauses(raw[1..], c);
      }
      NothingWalked(raw[1..]);
    }
  }

  lemma RawSets(j: Log, ws: seq<EntryHash>, horizon: Option<nat>, raw: seq<Path>)
    requires Causal(j) && multiset(raw) == WitnessBag(j, ws, horizon)
    ensures Hazard.PathSets(raw) == FaultSets(j, ws, horizon)
  {
    forall p
      ensures p in raw <==> p in WitnessBag(j, ws, horizon)
    {
      assert p in raw <==> p in multiset(raw);
    }
    forall s | s in FaultSets(j, ws, horizon)
      ensures s in Hazard.PathSets(raw)
    {
      var p :| p in WitnessBag(j, ws, horizon) && s == Elements(p);
      CollectedHasDerivation(j, ws, horizon, p);
      assert p != [];
      Hazard.PathSetsHold(raw, p);
    }
    forall s | s in Hazard.PathSets(raw)
      ensures s in FaultSets(j, ws, horizon)
    {
      var p :| p in raw && p != [] && s == Elements(p);
      MemberSetsHold(WitnessBag(j, ws, horizon), p);
    }
  }

  // ----- growth of the journal does not change what was walked

  lemma {:induction false} BagStable(j: Log, k: Log, h: EntryHash, depth: nat, horizon: Option<nat>, prefix: Path)
    requires Causal(j) && Causal(k) && j <= k && ParentClosed(j) && Present(j, h)
    ensures PathBag(k, h, depth, horizon, prefix) == PathBag(j, h, depth, horizon, prefix)
    ensures Closure(k, h, depth, horizon) == Closure(j, h, depth, horizon)
    decreases Rank(j, h), 1, 0
  {
    RankStable(j, k, h);
    if !Beyond(depth, horizon) {
      BagsStable(j, k, Get(j, h).parents, Rank(j, h), depth + 1, horizon, prefix + Own(j, h));
    }
  }

  lemma {:induction false} BagsStable(j: Log, k: Log, hs: seq<EntryHash>, bound: nat, depth: nat, horizon: Option<nat>,
                                      prefix: Path)
    requires Causal(j) && Causal(k) && j <= k && ParentClosed(j)
    requires forall h :: h in hs ==> Present(j, h) && Rank(j, h) < bound && Rank(k, h) < bound
    ensures PathBags(k, hs, bound, depth, horizon, prefix) == PathBags(j, hs, bound, depth, horizon, prefix)
    ensures Closures(k, hs, bound, depth, horizon) == Closures(j, hs, bound, depth, horizon)
    decreases bound, 0, |hs|
  {
    if hs != [] {
      BagStable(j, k, hs[0], depth, horizon, prefix);
      BagsStable(j, k, hs[1..], bound, depth, horizon, prefix);
    }
  }

  // ----- the index

  /** The witnesses a refresh will walk. */
  function Uncached(ws: seq<EntryHash>, closure: set<EntryHash>): (r: seq<EntryHash>)
    ensures forall w :: w in r <==> w in ws && w !in closure
  {
    if ws == [] then []
    else
      assert ws == [ws[0]] + ws[1..];
      (if ws[0] in closure then [] else [ws[0]]) + Uncached(ws[1..], closure)
  }

  lemma {:induction false} BagsConcat(j: Log, a: seq<EntryHash>, b: seq<EntryHash>, bound: nat, horizon: Option<nat>)
    requires Causal(j) && forall h :: h in a + b ==> Rank(j, h) < bound
    ensures PathBags(j, a + b, bound, 0, horizon, [])
         == PathBags(j, a, bound, 0, horizon, []) + PathBags(j, b, bound, 0, horizon, [])
    ensures Closures(j, a + b, bound, 0, horizon)
         == Closures(j, a, bound, 0, horizon) + Closures(j, b, bound, 0, horizon)
    decreases |a|
  {
    if a == [] {
      assert a + b == b;
    } else {
      assert (a + b)[1..] == a[1..] + b;
      assert forall h :: h in a[1..] + b ==> h in a + b;
      BagsConcat(j, a[1..], b, bound, horizon);
    }
  }

  /** Walking a longer witness list collects the union. */
  lemma WitnessUnion(j: Log, a: seq<EntryHash>, b: seq<EntryHash>, horizon: Option<nat>)
    requires Causal(j)
    ensures WitnessClosure(j, a + b, horizon) == WitnessClosure(j, a, horizon) + WitnessClosure(j, b, horizon)
    ensures FaultSets(j, a + b, horizon) == FaultSets(j, a, horizon) + FaultSets(j, b, horizon)
  {
    BagsConcat(j, a, b, |j| + 1, horizon);
    forall s
      ensures s in FaultSets(j, a + b, horizon) <==> s in FaultSets(j, a, horizon) + FaultSets(j, b, horizon)
    {
      MemberSetsSum(WitnessBag(j, a, horizon), WitnessBag(j, b, horizon), s);
    }
  }

  lemma {:induction false} BoundIrrelevant(j: Log, hs: seq<EntryHash>, b: nat, c: nat, horizon: Option<nat>)
    requires Causal(j) && forall h :: h in hs ==> Rank(j, h) < b && Rank(j, h) < c
    ensures PathBags(j, hs, b, 0, horizon, []) == PathBags(j, hs, c, 0, horizon, [])
    ensures Closures(j, hs, b, 0, horizon) == Closures(j, hs, c, 0, horizon)
    decreases |hs|
  {
    if hs != [] { BoundIrrelevant(j, hs[1..], b, c, horizon); }
  }

  /** Appending to the journal changes nothing about witnesses already recorded. */
  lemma WitnessesStable(j: Log, k: Log, ws: seq<EntryHash>, horizon: Option<nat>)
    requires Causal(j) && Causal(k) && j <= k && ParentClosed(j) && forall w :: w in ws ==> Present(j, w)
    ensures WitnessClosure(k, ws, horizon) == WitnessClosure(j, ws, horizon)
    ensures FaultSets(k, ws, horizon) == FaultSets(j, ws, horizon)
  {
    WalksStable(j, k, ws, horizon);
  }

  lemma WalksStable(j: Log, k: Log, ws: seq<EntryHash>, horizon: Option<nat>)
    requires Causal(j) && Causal(k) && j <= k && ParentClosed(j) && forall w :: w in ws ==> Present(j, w)
    ensures WitnessClosure(k, ws, horizon) == WitnessClosure(j, ws, horizon)
    ensures WitnessBag(k, ws, horizon) == WitnessBag(j, ws, horizon)
  {
    forall w | w in ws
      ensures Rank(k, w) == Rank(j, w)
    {
      RankStable(j, k, w);
    }
    BagsStable(j, k, ws, |k| + 1, 0, horizon, []);
    BoundIrrelevant(j, ws, |j| + 1, |k| + 1, horizon);
  }

  lemma CanonicalUnion(a: seq<Clause>, b: seq<Clause>, f: set<set<EntryHash>>, g: set<set<EntryHash>>)
    requires Canonical(a, f) && Canonical(b, g)
    ensures Canonical(SortDedup(a + b), f + g)
  {
    assert Listed(a + b) == Listed(a) + Listed(b);
    assert (set s | s in f + g :: SortedList(s))
        == (set s | s in f :: SortedList(s)) + (set s | s in g :: SortedList(s));
  }

  lemma ListedOfEither(a: seq<Clause>, b: seq<Clause>)
    ensures forall c :: c in SortDedup(a + b) ==> c in a || c in b
  {
    forall c | c in SortDedup(a + b)
      ensures c in a || c in b
    {
      assert c in Listed(SortDedup(a + b));
    }
  }

  class LineageIndex {
    var closure: set<EntryHash>
    var paths: seq<Clause>
    var journalLenAtBuild: nat
    var configFingerprint: Bytes.Octets
    var walkedEntries: nat

    /** The index holds what a fresh walk of `ws` over `j` under `horizon` collects. */
    ghost predicate Reflects(j: Log, ws: seq<EntryHash>, horizon: Option<nat>)
      reads this
      requires Causal(j)
    {
      closure == WitnessClosure(j, ws, horizon) && Canonical(paths, FaultSets(j, ws, horizon))
    }

    constructor Build(j: Log, ws: seq<EntryHash>, config: SolverConfig, engine: SolverEngine)
      requires Causal(j)
      ensures Walkable(j, ws, config.maxHorizon) ==> Reflects(j, ws, config.maxHorizon)
      ensures config.maxHorizon.None? ==> forall c :: c in paths ==> TrailClause(j, ws, c)
      ensures journalLenAtBuild == |j| && configFingerprint == Keys.FingerprintBytes(config, engine)
      ensures walkedEntries == |closure|
    {
      var visited, derived, walked := CollectLineage(j, ws, config);
      closure, paths, walkedEntries := visited, derived, walked;
      journalLenAtBuild := |j|;
      configFingerprint := Keys.FingerprintBytes(config, engine);
    }

    /** Adding what a walk of further witnesses collects. */
    lemma GrownReflects(j: Log, before: seq<EntryHash>, walks: seq<EntryHash>, horizon: Option<nat>,
                        newClosure: set<EntryHash>, newPaths: seq<Clause>)
      requires Causal(j) && Reflects(j, before, horizon)
      requires newClosure == WitnessClosure(j, walks, horizon) && Canonical(newPaths, FaultSets(j, walks, horizon))
      ensures closure + newClosure == WitnessClosure(j, before + walks, horizon)
      ensures Canonical(SortDedup(paths + newPaths), FaultSets(j, before + walks, horizon))
    {
      WitnessUnion(j, before, walks, horizon);
      CanonicalUnion(paths, newPaths, FaultSets(j, before, horizon), FaultSets(j, walks, horizon));
    }

    /** An index of `before` over an earlier journal `j0`, refreshed with `ws`. Under
        an unchanged fingerprint it holds what a fresh build on `before` plus the
        uncached members of `ws` would; under a changed one it is rebuilt on `ws`.
        It reports a change exactly when it walked. Past the node budget every clause it
        adds still holds the faultable entries of a trail from a witness it walked. */
    method Refresh(j: Log, ws: seq<EntryHash>, config: SolverConfig, engine: SolverEngine,
                   ghost j0: Log, ghost before: seq<EntryHash>,
                   ghost config0: SolverConfig, ghost engine0: SolverEngine)
      returns (changed: bool)
      requires Causal(j0) && ParentClosed(j0) && Causal(j) && j0 <= j
      requires forall w :: w in before ==> Present(j0, w)
      requires Keys.Fits(config) && Keys.Fits(config0)
      requires configFingerprint == Keys.FingerprintBytes(config0, engine0)
      modifies this
      ensures journalLenAtBuild == |j| && configFingerprint == Keys.FingerprintBytes(config, engine)
      ensures var same := config == config0 && engine == engine0;
              var walks := if same then Uncached(ws, old(closure)) else ws;
              && changed == (!same || walks != [])
              && (walks == [] && same ==> walkedEntries == 0)
              && (Walkable(j, walks, config.maxHorizon) && (same ==> old(Reflects(j0, before, config.maxHorizon))) ==>
                    Reflects(j, if same then before + walks else ws, config.maxHorizon))
              && (config.maxHorizon.None? ==>
                    forall c :: c in paths ==> (same && c in old(paths)) || TrailClause(j, walks, c))
    {
      var newFp := Keys.FingerprintBytes(config, engine);
      if newFp != configFingerprint {
        closure, paths, walkedEntries := CollectLineage(j, ws, config);
        journalLenAtBuild := |j|;
        configFingerprint := newFp;
        return true;
      }
      Keys.FingerprintInjective(config, config0, engine, engine0);
      WitnessesStable(j0, j, before, config.maxHorizon);
      var walks := Uncached(ws, closure);
      if walks == [] {
        journalLenAtBuild := |j|;
        walkedEntries := 0;
        assert before + walks == before;
        return false;
      }
      var newClosure, newPaths, walked := CollectLineage(j, walks, config);
      if Walkable(j, walks, config.maxHorizon) && Reflects(j, before, config.maxHorizon) {
        GrownReflects(j, before, walks, config.maxHorizon, newClosure, newPaths);
      }
      closure := closure + newClosure;
      ListedOfEither(paths, newPaths);
      paths := SortDedup(paths + newPaths);
      journalLenAtBuild := |j|;
      walkedEntries := walked;
      return true;
    }
  }
}
