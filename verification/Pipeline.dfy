/** End to end: the walkers agree, the engines agree, and the solver's cut is one
    the certificate verifier accepts.
 */
module Pipeline {
  import opened Journals
  import opened Ordering
  import opened WalkSpec
  import opened Solver
  import opened HittingSets
  import BranchAndBound
  import Threshold
  import CertWalk
  import Hazard
  import Lineage
  import Certificates

  // ----- the three walkers

  /** Every witness is recorded, and there is something to blame unless nothing is asked. */
  ghost predicate Encodable(j: Log, ws: seq<EntryHash>, horizon: Option<nat>)
    requires Causal(j)
  {
    (forall w :: w in ws ==> Present(j, w)) && (ws == [] || FaultSets(j, ws, horizon) != {})
  }

  /** The encoder's clause list, the lineage index's path list and the verifier's
      member sets are one family. The two lists are equal as lists. */
  method WalkersAgree(j: Log, ws: seq<EntryHash>, config: SolverConfig, engine: SolverEngine)
    returns (enc: Result<HazardEncoding>, index: Lineage.LineageIndex, cert: CertWalk.PathsResult)
    requires Causal(j) && config.maxHorizon.Some?
    ensures enc.Ok? <==> Encodable(j, ws, config.maxHorizon)
    ensures enc.Ok? ==> enc.value.hard == index.paths
    ensures cert.Collected? ==> MemberSets(multiset(cert.paths)) == FaultSets(j, ws, config.maxHorizon)
    ensures enc.Ok? && cert.Collected? ==> Canonical(enc.value.hard, MemberSets(multiset(cert.paths)))
    ensures index.closure == WitnessClosure(j, ws, config.maxHorizon)
    ensures enc == Err(EmptyProvenance) ==> index.paths == []
  {
    enc := Hazard.EncodeHazard(j, ws, config);
    index := new Lineage.LineageIndex.Build(j, ws, config, engine);
    cert := CertWalk.CollectFaultPaths(j, ws, config.maxHorizon.value);
    assert config.maxHorizon == Some(config.maxHorizon.value);
    ghost var family := FaultSets(j, ws, config.maxHorizon);
    if enc.Ok? {
      CanonicalUnique(enc.value.hard, index.paths, family);
    }
    CanonicalMembers(index.paths, family);
  }

  /** Without a horizon the two unbounded walks agree as well, while both budgets last. */
  method UnboundedWalkersAgree(j: Log, ws: seq<EntryHash>, config: SolverConfig, engine: SolverEngine)
    returns (enc: Result<HazardEncoding>, index: Lineage.LineageIndex)
    requires Causal(j) && config.maxHorizon.None?
    ensures Hazard.WithinBudget(j, ws, config) ==> (enc.Ok? <==> Encodable(j, ws, None))
    ensures Hazard.WithinBudget(j, ws, config) && Lineage.Walkable(j, ws, None) && enc.Ok? ==>
              enc.value.hard == index.paths
  {
    enc := Hazard.EncodeHazard(j, ws, config);
    index := new Lineage.LineageIndex.Build(j, ws, config, engine);
    if Hazard.WithinBudget(j, ws, config) && Lineage.Walkable(j, ws, None) && enc.Ok? {
      CanonicalUnique(enc.value.hard, index.paths, FaultSets(j, ws, None));
    }
  }

  // ----- the two engines

  /** Without a cardinality bound both engines return the same cost. With one, the
      builtin engine returns the same cost whenever its cut respects the bound, and
      never a larger one. */
  lemma EnginesAgree(enc: HazardEncoding, bnb: MaxSatSolution, sat: MaxSatSolution)
    requires BranchAndBound.Answers(enc, bnb) && Threshold.Exact(enc, sat)
    ensures bnb.totalCost <= sat.totalCost
    ensures BranchAndBound.Small(Elements(bnb.cut), enc.cardinality) ==> bnb.totalCost == sat.totalCost
    ensures enc.cardinality.None? ==> bnb.totalCost == sat.totalCost
  {
  }

  // ----- prices of an encoding

  ghost function PricesOf(j: Log, lits: seq<EntryHash>): Weights {
    map h | h in lits :: FaultCost(j, h)
  }

  lemma PricesSnoc(j: Log, init: seq<EntryHash>, last: EntryHash)
    ensures PricesOf(j, init + [last]) == PricesOf(j, init)[last := FaultCost(j, last)]
  {
    assert forall h :: h in init + [last] <==> h in init || h == last;
  }

  lemma {:induction false} PricedWeights(j: Log, lits: seq<EntryHash>)
    ensures BranchAndBound.WeightsOf(Hazard.Priced(j, lits)) == PricesOf(j, lits)
  {
    if lits == [] {
      assert Hazard.Priced(j, lits) == [];
    } else {
      var init, last := lits[..|lits| - 1], lits[|lits| - 1];
      assert lits == init + [last];
      calc {
        BranchAndBound.WeightsOf(Hazard.Priced(j, lits));
        { PricedSnoc(j, init, last); }
        BranchAndBound.WeightsOf(Hazard.Priced(j, init))[last := FaultCost(j, last)];
        { PricedWeights(j, init); }
        PricesOf(j, init)[last := FaultCost(j, last)];
        { PricesSnoc(j, init, last); }
        PricesOf(j, lits);
      }
    }
  }

  lemma PricedSnoc(j: Log, init: seq<EntryHash>, last: EntryHash)
    ensures BranchAndBound.WeightsOf(Hazard.Priced(j, init + [last])) ==
            BranchAndBound.WeightsOf(Hazard.Priced(j, init))[last := FaultCost(j, last)]
  {
    var soft := Hazard.Priced(j, init + [last]);
    assert soft == Hazard.Priced(j, init) + [([last], FaultCost(j, last))];
    assert soft[..|init|] == Hazard.Priced(j, init);
  }

  lemma EncodedWeights(j: Log, config: SolverConfig, enc: HazardEncoding, family: set<set<EntryHash>>)
    requires Hazard.Encodes(j, config, enc, family)
    ensures var w := BranchAndBound.WeightsOf(enc.soft);
            && AllPriced(enc.hard, w) && w.Keys == Hazard.Literals(enc.hard)
            && forall h :: h in w ==> w[h] == FaultCost(j, h)
  {
    var lits := SortedList(Hazard.Literals(enc.hard));
    PricedWeights(j, lits);
    forall h ensures h in lits <==> h in Hazard.Literals(enc.hard) { assert h in lits <==> h in Elements(lits); }
  }

  /** Hitting the encoded clauses is hitting the fault sets. */
  lemma EncodedHits(j: Log, config: SolverConfig, enc: HazardEncoding, family: set<set<EntryHash>>, cut: set<EntryHash>)
    requires Hazard.Encodes(j, config, enc, family) && {} !in family
    ensures BranchAndBound.HitsHard(cut, enc.hard) <==> Certificates.HitsFamily(cut, family)
  {
    CanonicalMembers(enc.hard, family);
    if BranchAndBound.HitsHard(cut, enc.hard) {
      forall s | s in family
        ensures s * cut != {}
      {
        var c := SortedList(s);
        assert c in enc.hard && c != [];
        var h :| h in c && h in cut;
        assert h in Elements(c);
        assert h in s * cut;
      }
    }
    if Certificates.HitsFamily(cut, family) {
      forall c | c in enc.hard && c != []
        ensures Meets(c, cut)
      {
        var h :| h in Elements(c) * cut;
        assert h in c;
      }
    }
  }

  // ----- optimal cuts are minimal

  /** A cheapest cut among those the cardinality bound allows, at its own cost. */
  ghost predicate Cheapest(enc: HazardEncoding, sol: MaxSatSolution) {
    var cut := Elements(sol.cut);
    && Ascending(sol.cut) && BranchAndBound.HitsHard(cut, enc.hard) && BranchAndBound.Small(cut, enc.cardinality)
    && sol.totalCost == Cost(BranchAndBound.WeightsOf(enc.soft), cut) && BranchAndBound.Undercuts(enc, sol.totalCost)
  }

  /** An answer of the builtin engine is one when it respects the bound, and one of the
      SAT-backed engine always. */
  lemma EnginesAreCheapest(enc: HazardEncoding, sol: MaxSatSolution)
    requires Threshold.Exact(enc, sol)
             || (BranchAndBound.Answers(enc, sol) && BranchAndBound.Small(Elements(sol.cut), enc.cardinality))
    ensures Cheapest(enc, sol)
  {
    if !Threshold.Exact(enc, sol) { BranchAndBound.AnswerFacts(enc, sol); }
  }

  /** With every price positive a cheapest cut is an inclusion-minimal hitting set, under a
      cardinality bound too: dropping a member would save its price and stay within the bound. */
  lemma OptimalIsMinimal(j: Log, config: SolverConfig, enc: HazardEncoding, family: set<set<EntryHash>>,
                         sol: MaxSatSolution)
    requires Hazard.Encodes(j, config, enc, family) && {} !in family && Cheapest(enc, sol)
    ensures Certificates.InclusionMinimal(Elements(sol.cut), family)
  {
    var w, cut := BranchAndBound.WeightsOf(enc.soft), Elements(sol.cut);
    EncodedWeights(j, config, enc, family);
    EncodedHits(j, config, enc, family, cut);
    forall sub: set<EntryHash> | sub < cut
      ensures !Certificates.HitsFamily(sub, family)
    {
      SmallerIsCheaper(w, sub, cut);
      SubsetSize(sub, cut);
      EncodedHits(j, config, enc, family, sub);
    }
  }

  lemma SmallerIsCheaper(w: Weights, sub: set<EntryHash>, cut: set<EntryHash>)
    requires sub < cut && forall h :: h in w ==> w[h] >= 1
    ensures Cost(w, sub) < Cost(w, cut)
  {
    var m :| m in cut && m !in sub;
    CostMonotone(w, sub, cut - {m});
    CostAdd(w, cut - {m}, m);
    assert cut - {m} + {m} == cut;
  }

  // ----- members of a minimal cut are recorded, faultable and few

  lemma FaultSetMembers(j: Log, ws: seq<EntryHash>, horizon: Option<nat>, s: set<EntryHash>, h: EntryHash)
    requires Causal(j) && s in FaultSets(j, ws, horizon) && h in s
    ensures Present(j, h) && IsFaultable(Get(j, h).kind)
  {
    FaultSetsAreDerivations(j, ws, horizon, s);
    var w, chain :| w in ws && IsDerivation(j, w, chain, 0, horizon) && s == FaultableIn(j, chain);
  }

  lemma MinimalMembers(j: Log, ws: seq<EntryHash>, horizon: Option<nat>, cut: set<EntryHash>, h: EntryHash)
    requires Causal(j) && Certificates.InclusionMinimal(cut, FaultSets(j, ws, horizon)) && h in cut
    ensures Present(j, h) && IsFaultable(Get(j, h).kind)
  {
    var family := FaultSets(j, ws, horizon);
    Certificates.EssentialIffMinimal(cut, family);
    assert Certificates.Essential(h, cut, family);
    var s :| s in family && s * cut == {h};
    assert h in s * cut;
    FaultSetMembers(j, ws, horizon, s, h);
  }

  /** Some path meets the cut in `m` only. */
  ghost predicate Alone(m: EntryHash, cut: set<EntryHash>, bag: multiset<Path>) {
    exists p :: p in bag && Elements(p) * cut == {m}
  }

  lemma AnotherPath(cut: set<EntryHash>, m: EntryHash, p: Path, n: EntryHash, bag: multiset<Path>)
    requires Elements(p) * cut == {m} && n != m && Alone(n, cut, bag)
    ensures Alone(n, cut, bag - multiset{p})
  {
    var q :| q in bag && Elements(q) * cut == {n};
    assert n in Elements(q) * cut && n !in Elements(p) * cut;
    assert q != p;
    assert q in bag - multiset{p};
  }

  /** Each member of a minimal cut has a path of its own. */
  lemma {:induction false} MembersWithinPaths(cut: set<EntryHash>, rest: set<EntryHash>, bag: multiset<Path>)
    requires rest <= cut && forall m :: m in rest ==> Alone(m, cut, bag)
    ensures |rest| <= |bag|
    decreases |rest|
  {
    if rest != {} {
      var m :| m in rest;
      var p :| p in bag && Elements(p) * cut == {m};
      var fewer := bag - multiset{p};
      forall n | n in rest - {m}
        ensures Alone(n, cut, fewer)
      {
        AnotherPath(cut, m, p, n, bag);
      }
      MembersWithinPaths(cut, rest - {m}, fewer);
      assert bag == fewer + multiset{p};
      assert rest == (rest - {m}) + {m};
    }
  }

  lemma CutWithinPaths(j: Log, ws: seq<EntryHash>, horizon: Option<nat>, cut: set<EntryHash>)
    requires Causal(j) && Certificates.InclusionMinimal(cut, FaultSets(j, ws, horizon))
    ensures |cut| <= |WitnessBag(j, ws, horizon)|
  {
    var family, bag := FaultSets(j, ws, horizon), WitnessBag(j, ws, horizon);
    Certificates.EssentialIffMinimal(cut, family);
    forall m | m in cut
      ensures Alone(m, cut, bag)
    {
      assert Certificates.Essential(m, cut, family);
      var s :| s in family && s * cut == {m};
      var p :| p in bag && s == Elements(p);
    }
    MembersWithinPaths(cut, cut, bag);
  }

  lemma {:induction false} PresentWithinJournal(j: Log, s: set<EntryHash>)
    requires forall h :: h in s ==> Present(j, h)
    ensures |s| <= |j|
    decreases |j|
  {
    if j == [] {
      assert s == {};
    } else {
      var last := j[|j| - 1].id;
      PresentWithinJournal(j[..|j| - 1], s - {last});
      SubsetSize(s, (s - {last}) + {last});
    }
  }

  // ----- the recorded cost

  lemma AscendingDistinct(xs: seq<EntryHash>)
    requires Ascending(xs)
    ensures Distinct(xs) && |Elements(xs)| == |xs|
  {
    AscendingUnique(xs, SortedList(Elements(xs)));
  }

  /** The record a solved encoding leaves behind. */
  function Record(sol: MaxSatSolution, config: SolverConfig, ws: seq<EntryHash>,
                  root: EntryHash): Certificates.RecordedSolverData {
    Certificates.RecordedSolverData(sol.cut, sol.totalCost, config.maxHorizon, config.supportVersion, ws, true, true,
                                    root)
  }

  /** A cheapest cut of the encoding of a journal is accepted. */
  lemma SolverCutIsAccepted(j: Log, ws: seq<EntryHash>, config: SolverConfig, enc: HazardEncoding, sol: MaxSatSolution,
                            b: Certificates.Binding)
    requires Causal(j) && ws != [] && forall w :: w in ws ==> Present(j, w)
    requires config.maxHorizon.Some? && 1 <= config.maxHorizon.value <= Certificates.MAX_RECORDED_HORIZON
    requires FaultSets(j, ws, config.maxHorizon) != {}
             && Hazard.Encodes(j, config, enc, FaultSets(j, ws, config.maxHorizon))
    requires Cheapest(enc, sol)
    requires |WitnessBag(j, ws, config.maxHorizon)| <= CertWalk.MAX_INCLUSION_PATHS
    requires b.root != 0 && !(b.strict && Certificates.LineageOnly(j))
    ensures Certificates.WellBound(j, Record(sol, config, ws, b.root), b, config.supportVersion)
    ensures Certificates.InclusionMinimal(Elements(sol.cut), FaultSets(j, ws, config.maxHorizon))
  {
    var family, cut := FaultSets(j, ws, config.maxHorizon), Elements(sol.cut);
    var w := BranchAndBound.WeightsOf(enc.soft);
    NoEmptyFaultSet(j, ws, config.maxHorizon);
    OptimalIsMinimal(j, config, enc, family, sol);
    EncodedWeights(j, config, enc, family);
    AscendingDistinct(sol.cut);
    CutWithinPaths(j, ws, config.maxHorizon, cut);
    forall h | h in sol.cut
      ensures Present(j, h) && IsFaultable(Get(j, h).kind)
      ensures h in w
    {
      assert h in cut;
      MinimalMembers(j, ws, config.maxHorizon, cut, h);
      MemberIsLiteral(j, config, enc, family, cut, h);
    }
    PresentWithinJournal(j, cut);
    SumCoversCost(j, w, sol.cut);
    var s :| s in family;
    var h :| h in s * cut;
    assert h in sol.cut;
  }

  lemma NoEmptyFaultSet(j: Log, ws: seq<EntryHash>, horizon: Option<nat>)
    requires Causal(j)
    ensures {} !in FaultSets(j, ws, horizon)
  {
    FaultSetsAreDerivations(j, ws, horizon, {});
  }

  lemma MemberIsLiteral(j: Log, config: SolverConfig, enc: HazardEncoding, family: set<set<EntryHash>>,
                        cut: set<EntryHash>, h: EntryHash)
    requires Hazard.Encodes(j, config, enc, family) && Certificates.InclusionMinimal(cut, family) && h in cut
    ensures h in Hazard.Literals(enc.hard)
  {
    Certificates.EssentialIffMinimal(cut, family);
    assert Certificates.Essential(h, cut, family);
    var s :| s in family && s * cut == {h};
    assert h in s * cut;
    CanonicalMembers(enc.hard, family);
    var c := SortedList(s);
    assert c in enc.hard && h in Elements(c);
  }

  // ----- the answer in terms of the journal

  /** The configured bound on faults. */
  ghost predicate Allowed(config: SolverConfig, cut: set<EntryHash>) {
    config.maxFaults.Some? ==> |cut| <= config.maxFaults.value
  }

  /** A cheapest list of events that breaks every derivation, as few as configured. */
  ghost predicate BestCut(j: Log, ws: seq<EntryHash>, config: SolverConfig, sol: MaxSatSolution)
    requires Causal(j)
  {
    && Ascending(sol.cut) && Breaks(j, ws, config, sol.cut) && sol.totalCost == Certificates.SumCost(j, sol.cut)
    && forall other: seq<EntryHash> ::
        Distinct(other) && Breaks(j, ws, config, other) ==> sol.totalCost <= Certificates.SumCost(j, other)
  }

  ghost predicate Breaks(j: Log, ws: seq<EntryHash>, config: SolverConfig, cut: seq<EntryHash>)
    requires Causal(j)
  {
    Certificates.HitsFamily(Elements(cut), FaultSets(j, ws, config.maxHorizon)) && Allowed(config, Elements(cut))
  }

  /** What an encoding allows and what it must hit, in terms of the journal. */
  lemma EncodedBreaks(j: Log, ws: seq<EntryHash>, config: SolverConfig, enc: HazardEncoding, cut: set<EntryHash>)
    requires Causal(j) && Hazard.Encodes(j, config, enc, FaultSets(j, ws, config.maxHorizon))
    ensures BranchAndBound.HitsHard(cut, enc.hard) <==>
              Certificates.HitsFamily(cut, FaultSets(j, ws, config.maxHorizon))
    ensures BranchAndBound.Small(cut, enc.cardinality) <==> Allowed(config, cut)
  {
    NoEmptyFaultSet(j, ws, config.maxHorizon);
    EncodedHits(j, config, enc, FaultSets(j, ws, config.maxHorizon), cut);
  }

  lemma {:induction false} SumCoversCost(j: Log, w: Weights, xs: seq<EntryHash>)
    requires Distinct(xs) && forall h :: h in w ==> w[h] == FaultCost(j, h)
    ensures Cost(w, Elements(xs)) <= Certificates.SumCost(j, xs)
    ensures (forall h :: h in xs ==> h in w) ==> Cost(w, Elements(xs)) == Certificates.SumCost(j, xs)
  {
    if xs != [] {
      var init, last := xs[..|xs| - 1], xs[|xs| - 1];
      assert forall h :: h in xs <==> h in init || h == last;
      SumCoversCost(j, w, init);
      CostAdd(w, Elements(init), last);
      assert Elements(xs) == Elements(init) + {last};
    }
  }

  /** A cheapest cut of the encoding is a best cut of the journal. */
  lemma CheapestIsBest(j: Log, ws: seq<EntryHash>, config: SolverConfig, enc: HazardEncoding, sol: MaxSatSolution)
    requires Causal(j) && Hazard.Encodes(j, config, enc, FaultSets(j, ws, config.maxHorizon)) && Cheapest(enc, sol)
    ensures BestCut(j, ws, config, sol)
  {
    var family, w := FaultSets(j, ws, config.maxHorizon), BranchAndBound.WeightsOf(enc.soft);
    NoEmptyFaultSet(j, ws, config.maxHorizon);
    EncodedWeights(j, config, enc, family);
    EncodedBreaks(j, ws, config, enc, Elements(sol.cut));
    OptimalIsMinimal(j, config, enc, family, sol);
    AscendingDistinct(sol.cut);
    forall h | h in sol.cut
      ensures h in w
    {
      assert h in Elements(sol.cut);
      MemberIsLiteral(j, config, enc, family, Elements(sol.cut), h);
    }
    SumCoversCost(j, w, sol.cut);
    forall other: seq<EntryHash> | Distinct(other) && Breaks(j, ws, config, other)
      ensures sol.totalCost <= Certificates.SumCost(j, other)
    {
      EncodedBreaks(j, ws, config, enc, Elements(other));
      SumCoversCost(j, w, other);
    }
  }

  /** Too few faults are allowed to break every derivation. */
  ghost predicate Unbreakable(j: Log, ws: seq<EntryHash>, config: SolverConfig)
    requires Causal(j)
  {
    forall cut :: Certificates.HitsFamily(cut, FaultSets(j, ws, config.maxHorizon)) ==> !Allowed(config, cut)
  }

  lemma NoneSmallIsUnbreakable(j: Log, ws: seq<EntryHash>, config: SolverConfig, enc: HazardEncoding)
    requires Causal(j) && Hazard.Encodes(j, config, enc, FaultSets(j, ws, config.maxHorizon))
    ensures NoneSmall(enc) <==> Unbreakable(j, ws, config)
  {
    forall cut
      ensures BranchAndBound.HitsHard(cut, enc.hard) <==>
                Certificates.HitsFamily(cut, FaultSets(j, ws, config.maxHorizon))
      ensures BranchAndBound.Small(cut, enc.cardinality) <==> Allowed(config, cut)
    {
      EncodedBreaks(j, ws, config, enc, cut);
    }
  }

  /** No hitting set respects the bound. */
  ghost predicate NoneSmall(enc: HazardEncoding) {
    forall cut :: !(BranchAndBound.HitsHard(cut, enc.hard) && BranchAndBound.Small(cut, enc.cardinality))
  }

  /** The engine's budgets are exceeded, the prices of all literals overflow, or no hitting
      set respects the bound. */
  ghost predicate OutOfReach(enc: HazardEncoding) {
    || BranchAndBound.OverBudget(enc, BranchAndBound.MAXSAT_BNB_MAX_CLAUSES, BranchAndBound.MAXSAT_BNB_MAX_COST_UNITS,
                                 BranchAndBound.MAXSAT_BNB_MAX_NODES)
    || BranchAndBound.TotalUnits(BranchAndBound.WeightsOf(enc.soft)) >= U64_MAX
    || NoneSmall(enc)
  }

  lemma TooDear(enc: HazardEncoding)
    requires AllPriced(enc.hard, BranchAndBound.WeightsOf(enc.soft)) && BranchAndBound.Undercuts(enc, U64_MAX)
    ensures BranchAndBound.TotalUnits(BranchAndBound.WeightsOf(enc.soft)) >= U64_MAX || NoneSmall(enc)
  {
    var w := BranchAndBound.WeightsOf(enc.soft);
    var total := BranchAndBound.TotalUnits(w);
    if cut :| Threshold.Within(cut, enc, total) {
      assert U64_MAX <= Cost(w, cut);
    } else {
      Threshold.NothingFits(enc, w, total);
    }
  }

  /** Encode, solve, record, verify: whenever the solver answers within the cardinality
      bound and the paths fit the verifier's budget, the verifier accepts. */
  method SolveAndVerify(j: Log, ws: seq<EntryHash>, config: SolverConfig, b: Certificates.Binding)
    returns (enc: Result<HazardEncoding>, sol: Result<MaxSatSolution>, verdict: Option<Certificates.CertResult>)
    requires Causal(j) && ws != [] && b.root != 0 && !(b.strict && Certificates.LineageOnly(j))
    requires config.maxHorizon.Some? && 1 <= config.maxHorizon.value <= Certificates.MAX_RECORDED_HORIZON
    ensures enc.Ok? <==> Encodable(j, ws, config.maxHorizon)
    ensures enc.Ok? && sol.Err? ==> OutOfReach(enc.value)
    ensures enc.Ok? && sol.Ok? && Allowed(config, Elements(sol.value.cut)) ==> BestCut(j, ws, config, sol.value)
    ensures verdict.Some? <==> enc.Ok? && sol.Ok?
    ensures enc.Ok? && sol.Ok? && |WitnessBag(j, ws, config.maxHorizon)| <= CertWalk.MAX_INCLUSION_PATHS
            && Allowed(config, Elements(sol.value.cut)) ==>
              verdict == Some(Certificates.Accepted)
  {
    enc := Hazard.EncodeHazard(j, ws, config);
    sol, verdict := Err(Unsupported), None;
    if enc.Err? {
      return;
    }
    sol := BranchAndBound.SolveMaxSatBnb(enc.value);
    if sol.Err? {
      EncodedWeights(j, config, enc.value, FaultSets(j, ws, config.maxHorizon));
      if sol.error == Unsupported { TooDear(enc.value); }
      return;
    }
    CanonicalMembers(enc.value.hard, FaultSets(j, ws, config.maxHorizon));
    EncodedBreaks(j, ws, config, enc.value, Elements(sol.value.cut));
    if Allowed(config, Elements(sol.value.cut)) {
      EnginesAreCheapest(enc.value, sol.value);
      CheapestIsBest(j, ws, config, enc.value, sol.value);
      if |WitnessBag(j, ws, config.maxHorizon)| <= CertWalk.MAX_INCLUSION_PATHS {
        SolverCutIsAccepted(j, ws, config, enc.value, sol.value, b);
      }
    }
    var result := Certificates.VerifyInclusionMinimal(j, Record(sol.value, config, ws, b.root), b,
                                                      config.supportVersion);
    verdict := Some(result);
  }

  lemma {:induction false} CostWithin(w: Weights, s: set<EntryHash>)
    requires forall h :: h in s ==> Price(w, h) <= 5
    ensures Cost(w, s) <= 5 * |s|
    decreases |s|
  {
    if s != {} { CostWithin(w, s - {Least(s)}); }
  }

  /** The prices of an encoding fit 64 bits as soon as five times the journal does. */
  lemma PricesFit(j: Log, ws: seq<EntryHash>, config: SolverConfig, enc: HazardEncoding)
    requires Causal(j) && Hazard.Encodes(j, config, enc, FaultSets(j, ws, config.maxHorizon))
    ensures BranchAndBound.TotalUnits(BranchAndBound.WeightsOf(enc.soft)) <= 5 * |j|
  {
    var family, w := FaultSets(j, ws, config.maxHorizon), BranchAndBound.WeightsOf(enc.soft);
    EncodedWeights(j, config, enc, family);
    CanonicalMembers(enc.hard, family);
    forall h | h in w
      ensures Present(j, h) && Price(w, h) <= 5
    {
      var c :| c in enc.hard && h in c;
      FaultSetMembers(j, ws, config.maxHorizon, Elements(c), h);
    }
    CostWithin(w, w.Keys);
    PresentWithinJournal(j, w.Keys);
  }

  /** The SAT-backed engine on the encoding of a journal. */
  method SolveExact(j: Log, ws: seq<EntryHash>, config: SolverConfig, enc: HazardEncoding)
    returns (sol: Result<MaxSatSolution>)
    requires Causal(j) && 5 * |j| <= U64_MAX && FaultSets(j, ws, config.maxHorizon) != {}
    requires Hazard.Encodes(j, config, enc, FaultSets(j, ws, config.maxHorizon))
    ensures sol.Err? <==> Unbreakable(j, ws, config)
    ensures sol.Ok? ==> Cheapest(enc, sol.value) && BestCut(j, ws, config, sol.value)
  {
    EncodedWeights(j, config, enc, FaultSets(j, ws, config.maxHorizon));
    PricesFit(j, ws, config, enc);
    CanonicalMembers(enc.hard, FaultSets(j, ws, config.maxHorizon));
    sol := Threshold.SolveIncremental(enc);
    if sol.Ok? {
      ExactIsBest(j, ws, config, enc, sol.value);
    } else {
      NoneSmallIsUnbreakable(j, ws, config, enc);
    }
  }

  lemma ExactIsBest(j: Log, ws: seq<EntryHash>, config: SolverConfig, enc: HazardEncoding, sol: MaxSatSolution)
    requires Causal(j) && Hazard.Encodes(j, config, enc, FaultSets(j, ws, config.maxHorizon))
    requires Threshold.Exact(enc, sol)
    ensures Cheapest(enc, sol) && BestCut(j, ws, config, sol) && !Unbreakable(j, ws, config)
  {
    EnginesAreCheapest(enc, sol);
    CheapestIsBest(j, ws, config, enc, sol);
    assert Breaks(j, ws, config, sol.cut);
  }

  /** The same with the SAT-backed engine, which always respects the bound: it answers
      exactly when some hitting set does, and then the verifier accepts. */
  method SolveExactAndVerify(j: Log, ws: seq<EntryHash>, config: SolverConfig, b: Certificates.Binding)
    returns (enc: Result<HazardEncoding>, sol: Result<MaxSatSolution>, verdict: Option<Certificates.CertResult>)
    requires Causal(j) && ws != [] && b.root != 0 && !(b.strict && Certificates.LineageOnly(j)) && 5 * |j| <= U64_MAX
    requires config.maxHorizon.Some? && 1 <= config.maxHorizon.value <= Certificates.MAX_RECORDED_HORIZON
    ensures enc.Ok? <==> Encodable(j, ws, config.maxHorizon)
    ensures enc.Ok? ==> (sol.Err? <==> Unbreakable(j, ws, config))
    ensures sol.Ok? ==> BestCut(j, ws, config, sol.value)
    ensures verdict.Some? <==> enc.Ok? && sol.Ok?
    ensures enc.Ok? && sol.Ok? && |WitnessBag(j, ws, config.maxHorizon)| <= CertWalk.MAX_INCLUSION_PATHS ==>
              verdict == Some(Certificates.Accepted)
  {
    enc := Hazard.EncodeHazard(j, ws, config);
    sol, verdict := Err(Unsupported), None;
    if enc.Err? {
      return;
    }
    sol := SolveExact(j, ws, config, enc.value);
    if sol.Err? {
      return;
    }
    if |WitnessBag(j, ws, config.maxHorizon)| <= CertWalk.MAX_INCLUSION_PATHS {
      SolverCutIsAccepted(j, ws, config, enc.value, sol.value, b);
    }
    var result := Certificates.VerifyInclusionMinimal(j, Record(sol.value, config, ws, b.root), b,
                                                      config.supportVersion);
    verdict := Some(result);
  }
}
