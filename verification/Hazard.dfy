/** The hazard encoder: witness paths become sorted, deduplicated hard clauses
    with priced soft literals and an optional cardinality bound.
 */
module Hazard {
  import opened Journals
  import opened Ordering
  import opened WalkSpec
  import opened Solver
  import MemoWalk
  import Support

  // ----- the encoding a family of fault sets is meant to have

  ghost function Literals(hard: seq<Clause>): set<EntryHash> {
    set c, h | c in hard && h in c :: h
  }

  function Priced(j: Log, hs: seq<EntryHash>): seq<(Clause, nat)> {
    seq(|hs|, i requires 0 <= i < |hs| => ([hs[i]], FaultCost(j, hs[i])))
  }

  ghost predicate Encodes(j: Log, config: SolverConfig, enc: HazardEncoding, family: set<set<EntryHash>>) {
    var lits := SortedList(Literals(enc.hard));
    && Canonical(enc.hard, family)
    && enc.soft == Priced(j, lits)
    && enc.cardinality == match config.maxFaults
                          case Some(lim) => Some(CardinalityBound(lits, lim))
                          case None => None
  }

  /** What the walk reaches without breaching its cell budget. */
  ghost predicate WithinBudget(j: Log, ws: seq<EntryHash>, config: SolverConfig)
    requires Causal(j)
  {
    config.maxHorizon.Some? || !Overruns(j, ws)
  }

  /** Some witness reaches path lists that need more cells than the budget. */
  ghost predicate Overruns(j: Log, ws: seq<EntryHash>)
    requires Causal(j)
  {
    exists w :: w in ws && MemoWalk.ClosureCells(j, w) > MemoWalk.HAZARD_WALK_CELL_BUDGET
  }

  // ----- collecting the non-empty paths of all witnesses

  method KeepNonEmpty(all: seq<Path>, found: seq<Path>) returns (r: seq<Path>)
    ensures forall p :: p in r <==> p in all || (p in found && p != [])
  {
    r := all;
    var i := 0;
    while i < |found|
      invariant 0 <= i <= |found|
      invariant forall p :: p in r <==> p in all || (p in found[..i] && p != [])
    {
      assert found[..i + 1] == found[..i] + [found[i]];
      if found[i] != [] {
        r := r + [found[i]];
      }
      i := i + 1;
    }
    assert found[..i] == found;
  }

  ghost predicate FromWitnesses(j: Log, ws: seq<EntryHash>, horizon: Option<nat>, p: Path)
    requires Causal(j)
  {
    p != [] && exists w :: w in ws && p in Paths(j, w, 0, horizon)
  }

  lemma FromWitnessesExtend(j: Log, ws: seq<EntryHash>, i: nat, horizon: Option<nat>, p: Path)
    requires Causal(j) && i < |ws|
    ensures FromWitnesses(j, ws[..i + 1], horizon, p) <==>
            FromWitnesses(j, ws[..i], horizon, p) || (p != [] && p in Paths(j, ws[i], 0, horizon))
  {
  }

  method CollectBounded(j: Log, ws: seq<EntryHash>, limit: nat) returns (all: seq<Path>, truncated: bool)
    requires Causal(j)
    ensures forall p :: p in all <==> FromWitnesses(j, ws, Some(limit), p)
    ensures truncated <==> exists w :: w in ws && IsCut(j, w, 0, Some(limit))
  {
    var walk := new MemoWalk.BoundedMemo(j, limit);
    all := [];
    var i := 0;
    while i < |ws|
      invariant 0 <= i <= |ws| && walk.Valid() && walk.j == j && walk.limit == limit && fresh(walk)
      invariant forall p :: p in all <==> FromWitnesses(j, ws[..i], Some(limit), p)
      invariant walk.truncated <==> exists k :: 0 <= k < i && IsCut(j, ws[k], 0, Some(limit))
    {
      var found := walk.Collect(ws[i], 0);
      forall p ensures FromWitnesses(j, ws[..i + 1], Some(limit), p) <==>
                       FromWitnesses(j, ws[..i], Some(limit), p) || (p != [] && p in found)
      {
        FromWitnessesExtend(j, ws, i, Some(limit), p);
      }
      all := KeepNonEmpty(all, found);
      i := i + 1;
    }
    assert ws[..i] == ws;
    truncated := walk.truncated;
  }

  method CollectUnbounded(j: Log, ws: seq<EntryHash>) returns (all: seq<Path>, truncated: bool)
    requires Causal(j)
    ensures forall p :: p in all ==> FromWitnesses(j, ws, None, p)
    ensures !truncated ==> forall p :: FromWitnesses(j, ws, None, p) ==> p in all
    ensures truncated ==> Overruns(j, ws)
  {
    var walk := new MemoWalk.UnboundedMemo(j);
    all := [];
    var i := 0;
    while i < |ws|
      invariant 0 <= i <= |ws| && walk.Valid() && walk.j == j && fresh(walk)
      invariant forall p :: p in all ==> FromWitnesses(j, ws[..i], None, p)
      invariant !walk.truncated ==> forall p :: FromWitnesses(j, ws[..i], None, p) ==> p in all
      invariant walk.truncated ==> Overruns(j, ws)
    {
      assert ws[i] in ws;
      var found := walk.Collect(ws[i]);
      forall p ensures FromWitnesses(j, ws[..i + 1], None, p) <==>
                       FromWitnesses(j, ws[..i], None, p) || (p != [] && p in Paths(j, ws[i], 0, None))
      {
        FromWitnessesExtend(j, ws, i, None, p);
      }
      all := KeepNonEmpty(all, found);
      i := i + 1;
    }
    assert ws[..i] == ws;
    truncated := walk.truncated;
  }

  /** The member sets of the collected paths. */
  ghost function PathSets(all: seq<Path>): set<set<EntryHash>> {
    set p | p in all && p != [] :: Elements(p)
  }

  lemma PathSetsHold(all: seq<Path>, p: Path)
    requires p in all && p != []
    ensures Elements(p) in PathSets(all)
  {
  }

  lemma CollectedSets(j: Log, ws: seq<EntryHash>, horizon: Option<nat>, all: seq<Path>)
    requires Causal(j) && forall p :: p in all ==> FromWitnesses(j, ws, horizon, p)
    ensures PathSets(all) <= FaultSets(j, ws, horizon)
    ensures (forall p :: FromWitnesses(j, ws, horizon, p) ==> p in all) ==> PathSets(all) == FaultSets(j, ws, horizon)
  {
    forall s | s in PathSets(all)
      ensures s in FaultSets(j, ws, horizon)
    {
      var p :| p in all && p != [] && s == Elements(p);
      var w :| w in ws && p in Paths(j, w, 0, horizon);
      assert ListsSet(Paths(j, w, 0, horizon), s);
      FaultSetsOfWitnesses(j, ws, horizon, s);
    }
    if forall p :: FromWitnesses(j, ws, horizon, p) ==> p in all {
      forall s | s in FaultSets(j, ws, horizon)
        ensures s in PathSets(all)
      {
        FaultSetsOfWitnesses(j, ws, horizon, s);
        var w :| w in ws && ListsSet(Paths(j, w, 0, horizon), s);
        var p :| p in Paths(j, w, 0, horizon) && p != [] && s == Elements(p);
        assert FromWitnesses(j, ws, horizon, p);
        PathSetsHold(all, p);
      }
    }
  }

  /** Clauses compiled from paths, sorted and deduplicated, are the canonical list. */
  lemma CompiledCanonical(all: seq<Path>, clauses: seq<Clause>, hard: seq<Clause>)
    requires clauses == Support.BranchClauses(Support.PathBranches(all))
    requires Sorted(hard) && Listed(hard) == Listed(clauses)
    ensures Canonical(hard, PathSets(all))
  {
    var listed := set s | s in PathSets(all) :: SortedList(s);
    forall c | c in clauses
      ensures c in listed
    {
      Support.PathClauses(all, c);
      var p :| p in all && p != [] && c == SortedList(Elements(p));
      PathSetsHold(all, p);
    }
    forall c | c in listed
      ensures c in clauses
    {
      var s :| s in PathSets(all) && c == SortedList(s);
      var p :| p in all && p != [] && s == Elements(p);
      Support.PathClauses(all, c);
    }
    assert Listed(hard) == listed;
  }

  // ----- the encoder

  method Reduce(clauses: seq<Clause>) returns (hard: seq<Clause>)
    requires forall c :: c in clauses ==> c != [] && Ascending(c)
    ensures Sorted(hard) && Listed(hard) == Listed(clauses)
  {
    hard := [];
    var i := 0;
    while i < |clauses|
      invariant 0 <= i <= |clauses| && hard == clauses[..i]
    {
      assert clauses[i] in clauses;
      var s := Elements(clauses[i]);
      assert clauses[i][0] in s;
      AscendingUnique(SortedList(s), clauses[i]);
      if s != {} {
        hard := hard + [SortedList(s)];
      }
      i := i + 1;
    }
    assert hard == clauses;
    hard := SortDedup(hard);
  }

  method CollectLiterals(hard: seq<Clause>) returns (distinct: set<EntryHash>)
    ensures distinct == Literals(hard)
  {
    distinct := {};
    var i := 0;
    while i < |hard|
      invariant 0 <= i <= |hard| && distinct == Literals(hard[..i])
    {
      assert hard[..i + 1] == hard[..i] + [hard[i]];
      distinct := distinct + Elements(hard[i]);
      i := i + 1;
    }
    assert hard[..i] == hard;
  }

  method FirstMissing(j: Log, ws: seq<EntryHash>) returns (missing: Option<EntryHash>)
    ensures missing.None? <==> forall w :: w in ws ==> Present(j, w)
    ensures missing.Some? ==>
              exists i ::
                0 <= i < |ws| && ws[i] == missing.value && !Present(j, ws[i])
                && forall k :: 0 <= k < i ==> Present(j, ws[k])
  {
    var i := 0;
    while i < |ws|
      invariant 0 <= i <= |ws| && forall k :: 0 <= k < i ==> Present(j, ws[k])
    {
      if !Present(j, ws[i]) {
        return Some(ws[i]);
      }
      i := i + 1;
    }
    return None;
  }

  /** The one fault set of the receive, when the walk is cut right behind it and when it
      is not cut. */
  lemma HopSets(far: nat)
    requires far > 0
    ensures Causal(Hop()) && IsCut(Hop(), 1, 0, Some(0)) && !IsCut(Hop(), 1, 0, Some(far)) && Present(Hop(), 1)
    ensures FaultSets(Hop(), [1], Some(0)) == {{1}} && FaultSets(Hop(), [1], Some(far)) == {{0, 1}}
  {
    var j := Hop();
    HopFacts();
    assert Get(j, 1).parents == [0] && Get(j, 0).parents == [] && [0][1..] == [];
    assert Paths(j, 0, 1, Some(far)) == [[0]] && Paths(j, 0, 1, Some(0)) == [[]];
    OneParent(j, 1, 0, Some(far));
    OneParent(j, 1, 0, Some(0));
    assert Paths(j, 1, 0, Some(far)) == [[0] + [1]] && [0] + [1] == [0, 1];
    assert Paths(j, 1, 0, Some(0)) == [[] + [1]] && [] + [1] == [1];
    OnlyPath(j, 1, Some(0), [1]);
    OnlyPath(j, 1, Some(far), [0, 1]);
    assert Elements([1]) == {1} && Elements([0, 1]) == {0, 1};
  }

  /** The canonical list of one set. */
  lemma OnlyClause(hard: seq<Clause>, c: Clause)
    requires Canonical(hard, {Elements(c)}) && Ascending(c)
    ensures hard == [c]
  {
    AscendingUnique(SortedList(Elements(c)), c);
    assert Listed([c]) == {c};
    CanonicalUnique(hard, [c], {Elements(c)});
  }

  lemma OneParent(j: Log, h: EntryHash, p: EntryHash, horizon: Option<nat>)
    requires Causal(j) && Present(j, h) && Get(j, h).parents == [p]
    ensures Paths(j, h, 0, horizon) == Suffixed(Paths(j, p, 1, horizon), Own(j, h))
  {
    assert [p][1..] == [];
    assert ParentPaths(j, [p], Rank(j, h), 1, horizon, Own(j, h)) == Suffixed(Paths(j, p, 1, horizon), Own(j, h)) + [];
  }

  lemma OnlyPath(j: Log, w: EntryHash, horizon: Option<nat>, p: Path)
    requires Causal(j) && p != [] && Paths(j, w, 0, horizon) == [p]
    ensures FaultSets(j, [w], horizon) == {Elements(p)}
  {
    forall s ensures s in FaultSets(j, [w], horizon) <==> s == Elements(p) {
      FaultSetsOfWitnesses(j, [w], horizon, s);
    }
  }

  /** Within budget the encoding is the canonical one of exactly the witnesses'
      fault sets; past the budget it still only names real fault sets. Missing
      witnesses are refused first. Provenance is refused exactly when no fault set
      was collected: a horizon or budget cut by itself is not refused. */
  method EncodeHazard(j: Log, witnesses: seq<EntryHash>, config: SolverConfig) returns (r: Result<HazardEncoding>)
    requires Causal(j)
    ensures r.Err? && r.error.MissingParent? <==> exists w :: w in witnesses && !Present(j, w)
    ensures r.Err? ==>
              r.error.EmptyProvenance? || (r.error.MissingParent? && r.error.h in witnesses && !Present(j, r.error.h))
    ensures WithinBudget(j, witnesses, config) && (forall w :: w in witnesses ==> Present(j, w)) ==>
              var family := FaultSets(j, witnesses, config.maxHorizon);
              if family == {} && witnesses != [] then r == Err(EmptyProvenance)
              else r.Ok? && Encodes(j, config, r.value, family)
    ensures r.Ok? ==>
              exists family ::
                family <= FaultSets(j, witnesses, config.maxHorizon) && Encodes(j, config, r.value, family)
  {
    var missing := FirstMissing(j, witnesses);
    if missing.Some? {
      return Err(MissingParent(missing.value));
    }
    var all, truncated;
    match config.maxHorizon {
      case Some(limit) => all, truncated := CollectBounded(j, witnesses, limit);
      case None => all, truncated := CollectUnbounded(j, witnesses);
    }
    CollectedSets(j, witnesses, config.maxHorizon, all);
    var support := Support.SupportFromPaths(all, truncated);
    var clauses := Support.HardClausesFromSupport(support);
    forall c | c in clauses
      ensures c != [] && Ascending(c)
    {
      Support.PathClauses(all, c);
      var p :| p in all && p != [] && c == SortedList(Elements(p));
      assert p[0] in Elements(p);
    }
    var hard := Reduce(clauses);
    CompiledCanonical(all, clauses, hard);
    CanonicalMembers(hard, PathSets(all));
    assert clauses == [] || clauses[0] in Listed(clauses);
    assert hard == [] || hard[0] in Listed(hard);
    if clauses == [] && witnesses != [] {
      return Err(EmptyProvenance);
    }
    if hard == [] && witnesses != [] {
      return Err(EmptyProvenance);
    }
    var distinct := CollectLiterals(hard);
    var lits := SortedList(distinct);
    var cardinality := match config.maxFaults
      case Some(lim) => Some(CardinalityBound(lits, lim))
      case None => None;
    r := Ok(HazardEncoding(hard, Priced(j, lits), cardinality));
    assert Encodes(j, config, r.value, PathSets(all));
  }

  /** A witness with a single fault set is encoded as that one clause. */
  method EncodeOne(j: Log, w: EntryHash, config: SolverConfig, ghost c: Clause) returns (r: Result<HazardEncoding>)
    requires Causal(j) && Present(j, w) && config.maxHorizon.Some? && Ascending(c)
    requires FaultSets(j, [w], config.maxHorizon) == {Elements(c)}
    ensures r.Ok? && r.value.hard == [c]
  {
    r := EncodeHazard(j, [w], config);
    OnlyClause(r.value.hard, c);
  }

  /** A cut walk is not refused: at horizon zero the receive alone is blamed, though any
      farther horizon blames the pair. */
  method CutIsNotRefused(config: SolverConfig, far: nat)
    returns (cut: Result<HazardEncoding>, full: Result<HazardEncoding>)
    requires far > 0
    ensures Causal(Hop()) && IsCut(Hop(), 1, 0, Some(0)) && !IsCut(Hop(), 1, 0, Some(far))
    ensures cut.Ok? && cut.value.hard == [[1]]
    ensures full.Ok? && full.value.hard == [[0, 1]]
  {
    HopSets(far);
    assert Elements([1]) == {1} && Elements([0, 1]) == {0, 1};
    cut := EncodeOne(Hop(), 1, config.(maxHorizon := Some(0)), [1]);
    full := EncodeOne(Hop(), 1, config.(maxHorizon := Some(far)), [0, 1]);
  }
}
