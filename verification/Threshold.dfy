/** The SAT-backed engine: unit variables turn prices into a count, and a binary
    search finds the least feasible cost threshold.
 */
module Threshold {
  import opened Journals
  import opened Ordering
  import opened Solver
  import opened HittingSets
  import opened Cnf
  import opened Counter
  import BranchAndBound

  const MAX_THRESHOLD_PROBES: nat := 64

  // ----- cuts as assignments: the i-th event is variable i + 1

  ghost function CutOf(a: Assignment, events: seq<EntryHash>): set<EntryHash> {
    set i | 0 <= i < |events| && i + 1 in a :: events[i]
  }

  function Selected(a: Assignment, events: seq<EntryHash>): (r: seq<EntryHash>)
    ensures Elements(r) == CutOf(a, events)
  {
    if events == [] then []
    else
      SelectedStep(a, events);
      var rest := Selected(a, events[..|events| - 1]);
      if |events| in a then rest + [events[|events| - 1]] else rest
  }

  ghost predicate AllBelow(s: set<EntryHash>, m: EntryHash) {
    forall h :: h in s ==> h < m
  }

  lemma CutInEvents(a: Assignment, events: seq<EntryHash>)
    requires Ascending(events) && events != []
    ensures AllBelow(CutOf(a, events[..|events| - 1]), events[|events| - 1])
  {
  }

  lemma {:induction false} SelectedAscending(a: Assignment, events: seq<EntryHash>)
    requires Ascending(events)
    ensures Ascending(Selected(a, events))
    decreases |events|
  {
    if events != [] {
      var init := events[..|events| - 1];
      SelectedAscending(a, init);
      CutInEvents(a, events);
      var rest := Selected(a, init);
      forall i | 0 <= i < |rest|
        ensures rest[i] < events[|events| - 1]
      {
        assert rest[i] in Elements(rest);
      }
    }
  }

  lemma SelectedStep(a: Assignment, events: seq<EntryHash>)
    requires events != []
    ensures CutOf(a, events) == CutOf(a, events[..|events| - 1]) + if |events| in a then {events[|events| - 1]} else {}
  {
  }

  function EventVars(events: seq<EntryHash>): (r: seq<nat>)
    ensures |r| == |events| && forall i :: 0 <= i < |events| ==> r[i] == i + 1
  {
    seq(|events|, i requires 0 <= i < |events| => i + 1)
  }

  lemma CutHas(a: Assignment, events: seq<EntryHash>, i: nat)
    requires Ascending(events) && i < |events|
    ensures events[i] in CutOf(a, events) <==> i + 1 in a
  {
  }

  /** The number of chosen events is the size of the cut. */
  lemma {:induction false} CutSize(a: Assignment, events: seq<EntryHash>)
    requires Ascending(events)
    ensures CountTrue(a, EventVars(events)) == |CutOf(a, events)|
    decreases |events|
  {
    if events != [] {
      var init, last := events[..|events| - 1], events[|events| - 1];
      CutSize(a, init);
      SelectedStep(a, events);
      assert EventVars(events)[..|events| - 1] == EventVars(init);
      CutInEvents(a, events);
      assert last !in CutOf(a, init);
    } else {
      assert CutOf(a, events) == {};
    }
  }

  // ----- unit variables

  /** Units per event, event by event. */
  ghost function UnitCost(a: Assignment, events: seq<EntryHash>, w: Weights, n: nat): nat
    requires n <= |events|
  {
    if n == 0 then 0 else UnitCost(a, events, w, n - 1) + if n in a then Price(w, events[n - 1]) else 0
  }

  lemma {:induction false} UnitCostIsCost(a: Assignment, events: seq<EntryHash>, w: Weights)
    requires Ascending(events)
    ensures UnitCost(a, events, w, |events|) == Cost(w, CutOf(a, events))
    decreases |events|
  {
    if events != [] {
      var init, last := events[..|events| - 1], events[|events| - 1];
      UnitCostIsCost(a, init, w);
      UnitCostPrefix(a, events, w, |init|);
      SelectedStep(a, events);
      CutInEvents(a, events);
      LastPaid(a, events, w);
    } else {
      assert CutOf(a, events) == {};
    }
  }

  lemma LastPaid(a: Assignment, events: seq<EntryHash>, w: Weights)
    requires Ascending(events) && events != []
    ensures Cost(w, CutOf(a, events))
         == Cost(w, CutOf(a, events[..|events| - 1])) + if |events| in a then Price(w, events[|events| - 1]) else 0
  {
    var init, last := events[..|events| - 1], events[|events| - 1];
    SelectedStep(a, events);
    CutInEvents(a, events);
    if |events| in a {
      CostAdd(w, CutOf(a, init), last);
    } else {
      assert CutOf(a, events) == CutOf(a, init);
    }
  }

  lemma {:induction false} UnitCostPrefix(a: Assignment, events: seq<EntryHash>, w: Weights, n: nat)
    requires n < |events|
    ensures UnitCost(a, events[..|events| - 1], w, n) == UnitCost(a, events, w, n)
  {
    if n > 0 { UnitCostPrefix(a, events, w, n - 1); }
  }

  /** `after` keeps `before`, and an assignment of `before` extends to `after`. */
  ghost predicate Conservative(before: seq<Lits>, after: seq<Lits>, base: nat) {
    && (forall a :: SatAll(a, after) ==> SatAll(a, before))
    && (forall a {:trigger Extends(a, after, base)} :: SatAll(a, before) ==> Extends(a, after, base))
  }

  /** Counting `units` counts the cost of the first `n` events. */
  ghost predicate CountsCost(clauses: seq<Lits>, units: seq<nat>, events: seq<EntryHash>, w: Weights, n: nat,
                             extra: nat)
    requires n <= |events|
  {
    forall a :: SatAll(a, clauses) ==>
      CountTrue(a, units) == UnitCost(a, events, w, n) + if n < |events| && n + 1 in a then extra else 0
  }

  /** One unit variable tied to event variable `v`. */
  method AddUnit(solver: SatSolver, v: nat, next: nat)
    requires 1 <= v < next && Below(solver.clauses, next)
    modifies solver
    ensures Below(solver.clauses, next + 1)
    ensures forall a :: SatAll(a, solver.clauses) <==> SatAll(a, old(solver.clauses)) && (v in a <==> next in a)
    ensures Conservative(old(solver.clauses), solver.clauses, next)
  {
    ghost var before := solver.clauses;
    AddTwo(solver, Neg(v), next, next + 1);
    AddTwo(solver, Neg(next), v, next + 1);
    forall a | SatAll(a, before)
      ensures Extends(a, solver.clauses, next)
    {
      var b := if v in a then a + {next} else a - {next};
      assert Agree(a, b, next);
      AgreeSat(a, b, before, next);
      assert SatAll(b, solver.clauses);
    }
  }

  lemma ConservativeChain(x: seq<Lits>, y: seq<Lits>, z: seq<Lits>, base: nat, mid: nat)
    requires Conservative(x, y, base) && Conservative(y, z, mid) && base <= mid
    ensures Conservative(x, z, base)
  {
    forall a | SatAll(a, x)
      ensures Extends(a, z, base)
    {
      assert Extends(a, y, base);
      var b :| Agree(a, b, base) && SatAll(b, y);
      assert Extends(b, z, mid);
      var c :| Agree(b, c, mid) && SatAll(c, z);
      AgreeChain(a, b, c, base, mid);
    }
  }

  lemma UnitCounted(before: seq<Lits>, after: seq<Lits>, units: seq<nat>, events: seq<EntryHash>, w: Weights, n: nat,
                    extra: nat, next: nat)
    requires n < |events| && CountsCost(before, units, events, w, n, extra)
    requires forall a :: SatAll(a, after) <==> SatAll(a, before) && (n + 1 in a <==> next in a)
    ensures CountsCost(after, units + [next], events, w, n, extra + 1)
  {
  }

  lemma EventCounted(clauses: seq<Lits>, units: seq<nat>, events: seq<EntryHash>, w: Weights, n: nat)
    requires n < |events| && CountsCost(clauses, units, events, w, n, Price(w, events[n]))
    ensures CountsCost(clauses, units, events, w, n + 1, 0)
  {
  }

  lemma ConservativeSelf(clauses: seq<Lits>, base: nat)
    ensures Conservative(clauses, clauses, base)
  {
  }

  /** `c` unit variables of event `i` have been added on top of `before`. */
  ghost predicate Tallied(before: seq<Lits>, clauses: seq<Lits>, units: seq<nat>, events: seq<EntryHash>, w: Weights,
                          i: nat, c: nat, base: nat, next: nat)
    requires i <= |events|
  {
    && base <= next && Below(clauses, next) && (forall u :: u in units ==> u < next)
    && Conservative(before, clauses, base) && CountsCost(clauses, units, events, w, i, c)
  }

  lemma TallyOne(before: seq<Lits>, held: seq<Lits>, after: seq<Lits>, units: seq<nat>, events: seq<EntryHash>,
                 w: Weights, i: nat, c: nat, base: nat, next: nat)
    requires i < |events| && Tallied(before, held, units, events, w, i, c, base, next)
    requires forall a :: SatAll(a, after) <==> SatAll(a, held) && (i + 1 in a <==> next in a)
    requires Below(after, next + 1) && Conservative(held, after, next)
    ensures Tallied(before, after, units + [next], events, w, i, c + 1, base, next + 1)
  {
    ConservativeChain(before, held, after, base, next);
    UnitCounted(held, after, units, events, w, i, c, next);
  }

  method AddOneUnit(solver: SatSolver, events: seq<EntryHash>, ghost w: Weights, i: nat, ghost c: nat, units: seq<nat>,
                    next: nat, ghost before: seq<Lits>, ghost base: nat)
    returns (more: seq<nat>)
    requires i < |events| < base && Tallied(before, solver.clauses, units, events, w, i, c, base, next)
    modifies solver
    ensures Tallied(before, solver.clauses, more, events, w, i, c + 1, base, next + 1)
  {
    ghost var held := solver.clauses;
    AddUnit(solver, i + 1, next);
    TallyOne(before, held, solver.clauses, units, events, w, i, c, base, next);
    more := units + [next];
  }

  /** As many unit variables for event `i` as its price. */
  method AddUnitsFor(solver: SatSolver, events: seq<EntryHash>, w: Weights, i: nat, sofar: seq<nat>, base: nat)
    returns (units: seq<nat>, next: nat)
    requires i < |events| < base && Below(solver.clauses, base) && events[i] in w
    requires (forall u :: u in sofar ==> u < base) && CountsCost(solver.clauses, sofar, events, w, i, 0)
    modifies solver
    ensures base <= next && Below(solver.clauses, next) && (forall u :: u in units ==> u < next)
    ensures Conservative(old(solver.clauses), solver.clauses, base)
    ensures CountsCost(solver.clauses, units, events, w, i + 1, 0)
  {
    units, next := sofar, base;
    ghost var before := solver.clauses;
    ConservativeSelf(before, base);
    var cost := w[events[i]];
    var c := 0;
    while c < cost
      invariant 0 <= c <= cost && Tallied(before, solver.clauses, units, events, w, i, c, base, next)
    {
      units := AddOneUnit(solver, events, w, i, c, units, next, before, base);
      next := next + 1;
      c := c + 1;
    }
    EventCounted(solver.clauses, units, events, w, i);
  }

  /** Price copies of every event variable. */
  method AddUnits(solver: SatSolver, events: seq<EntryHash>, w: Weights, base: nat) returns (units: seq<nat>, next: nat)
    requires |events| < base && Below(solver.clauses, base)
    requires forall h :: h in events ==> h in w
    modifies solver
    ensures base <= next && Below(solver.clauses, next) && (forall u :: u in units ==> u < next)
    ensures Conservative(old(solver.clauses), solver.clauses, base)
    ensures CountsCost(solver.clauses, units, events, w, |events|, 0)
  {
    units, next := [], base;
    ghost var before := solver.clauses;
    ConservativeSelf(before, base);
    var i := 0;
    while i < |events|
      invariant 0 <= i <= |events| && base <= next && Below(solver.clauses, next)
      invariant forall u :: u in units ==> u < next
      invariant Conservative(before, solver.clauses, base)
      invariant CountsCost(solver.clauses, units, events, w, i, 0)
    {
      ghost var held, from := solver.clauses, next;
      units, next := AddUnitsFor(solver, events, w, i, units, next);
      ConservativeChain(before, held, solver.clauses, base, from);
      i := i + 1;
    }
  }

  // ----- hard clauses

  function IndexOf(h: EntryHash, events: seq<EntryHash>): (i: nat)
    requires h in events
    ensures i < |events| && events[i] == h
  {
    if events[0] == h then 0 else 1 + IndexOf(h, events[1..])
  }

  function ClauseVars(c: Clause, events: seq<EntryHash>): (r: Lits)
    requires forall h :: h in c ==> h in events
    ensures |r| == |c| && forall i :: 0 <= i < |c| ==> r[i] == IndexOf(c[i], events) + 1
  {
    if c == [] then [] else [IndexOf(c[0], events) + 1] + ClauseVars(c[1..], events)
  }

  lemma ClauseMeaning(a: Assignment, c: Clause, events: seq<EntryHash>)
    requires Ascending(events) && forall h :: h in c ==> h in events
    ensures SatClause(a, ClauseVars(c, events)) <==> Meets(c, CutOf(a, events))
  {
    var lits := ClauseVars(c, events);
    forall i | 0 <= i < |c|
      ensures Holds(a, lits[i]) <==> c[i] in CutOf(a, events)
    {
      assert c[i] in c;
      CutHas(a, events, IndexOf(c[i], events));
    }
  }

  method AddHard(solver: SatSolver, hard: seq<Clause>, events: seq<EntryHash>)
    requires solver.clauses == [] && Ascending(events)
    requires forall c, h :: c in hard && h in c ==> h in events
    modifies solver
    ensures Below(solver.clauses, |events| + 1)
    ensures forall a :: SatAll(a, solver.clauses) <==> BranchAndBound.HitsHard(CutOf(a, events), hard)
  {
    var i := 0;
    while i < |hard|
      invariant 0 <= i <= |hard| && Below(solver.clauses, |events| + 1)
      invariant forall a :: SatAll(a, solver.clauses) <==> BranchAndBound.HitsHard(CutOf(a, events), hard[..i])
    {
      var c := hard[i];
      assert c in hard;
      assert forall d :: d in hard[..i + 1] <==> d in hard[..i] || d == c;
      var lits := ClauseVars(c, events);
      if lits != [] {
        forall a ensures SatClause(a, lits) <==> Meets(c, CutOf(a, events)) { ClauseMeaning(a, c, events); }
        solver.AddClause(lits);
      }
      i := i + 1;
    }
    assert hard[..i] == hard;
  }

  // ----- one probe

  /** A cut of recorded events that is feasible at threshold `k`. */
  ghost predicate Within(cut: set<EntryHash>, enc: HazardEncoding, k: nat) {
    && BranchAndBound.HitsHard(cut, enc.hard) && BranchAndBound.Small(cut, enc.cardinality)
    && Cost(BranchAndBound.WeightsOf(enc.soft), cut) <= k
  }

  ghost function AsAssignment(cut: set<EntryHash>, events: seq<EntryHash>): Assignment {
    set i | 0 <= i < |events| && events[i] in cut :: i + 1
  }

  lemma CutOfAssignment(cut: set<EntryHash>, events: seq<EntryHash>)
    ensures CutOf(AsAssignment(cut, events), events) == cut * Elements(events)
  {
  }

  /** Dropping entries no clause names keeps a cut feasible. */
  lemma TrimWithin(cut: set<EntryHash>, enc: HazardEncoding, k: nat, events: seq<EntryHash>)
    requires Within(cut, enc, k) && forall c, h :: c in enc.hard && h in c ==> h in events
    ensures Within(cut * Elements(events), enc, k)
  {
    var trimmed := cut * Elements(events);
    forall c | c in enc.hard && c != []
      ensures Meets(c, trimmed)
    {
      var h :| h in c && h in cut;
      assert h in trimmed;
    }
    SubsetSize(trimmed, cut);
    CostMonotone(BranchAndBound.WeightsOf(enc.soft), trimmed, cut);
  }

  lemma CutAgree(a: Assignment, b: Assignment, events: seq<EntryHash>, base: nat)
    requires Agree(a, b, base) && |events| < base
    ensures CutOf(a, events) == CutOf(b, events)
  {
  }

  /** The cardinality step, when it is needed. */
  method AddCardinality(solver: SatSolver, enc: HazardEncoding, events: seq<EntryHash>) returns (next: nat)
    requires Ascending(events) && Below(solver.clauses, |events| + 1)
    modifies solver
    ensures |events| < next && Below(solver.clauses, next)
    ensures forall a ::
              SatAll(a, solver.clauses) ==>
                SatAll(a, old(solver.clauses)) && BranchAndBound.Small(CutOf(a, events), enc.cardinality)
    ensures forall a ::
              SatAll(a, old(solver.clauses)) && BranchAndBound.Small(CutOf(a, events), enc.cardinality) ==>
                Extends(a, solver.clauses, |events| + 1)
  {
    next := |events| + 1;
    ghost var before := solver.clauses;
    if enc.cardinality.Some? && |events| > enc.cardinality.value.maxTrue {
      next := SequentialAtMost(enc.cardinality.value.maxTrue, EventVars(events), solver, next);
    }
    forall a
      ensures SatAll(a, solver.clauses) ==> SatAll(a, before) && BranchAndBound.Small(CutOf(a, events), enc.cardinality)
      ensures SatAll(a, before) && BranchAndBound.Small(CutOf(a, events), enc.cardinality) ==>
                Extends(a, solver.clauses, |events| + 1)
    {
      CutSize(a, events);
      assert Agree(a, a, |events| + 1);
    }
  }

  /** The cost step, when it is needed: bounds the cost and loses no cheap cut. */
  method AddCostBound(solver: SatSolver, w: Weights, events: seq<EntryHash>, k: nat, base: nat)
    requires Ascending(events) && |events| < base && Below(solver.clauses, base)
    requires forall h :: h in events ==> h in w
    modifies solver
    ensures forall a :: SatAll(a, solver.clauses) ==> SatAll(a, old(solver.clauses)) && Cost(w, CutOf(a, events)) <= k
    ensures forall a ::
              SatAll(a, old(solver.clauses)) && Cost(w, CutOf(a, events)) <= k ==> Extends(a, solver.clauses, base)
  {
    ghost var before := solver.clauses;
    var units, next := AddUnits(solver, events, w, base);
    ghost var mid := solver.clauses;
    forall a | SatAll(a, mid)
      ensures CountTrue(a, units) == Cost(w, CutOf(a, events)) <= |units|
    {
      UnitCostIsCost(a, events, w);
    }
    if k < |units| {
      var last := SequentialAtMost(k, units, solver, next);
    } else {
      SelfEncoded(mid, k, units, next);
    }
    forall a | SatAll(a, before) && Cost(w, CutOf(a, events)) <= k
      ensures Extends(a, solver.clauses, base)
    {
      CostExtension(a, before, mid, solver.clauses, w, events, units, k, base, next);
    }
  }

  lemma SelfEncoded(clauses: seq<Lits>, k: nat, xs: seq<nat>, base: nat)
    requires |xs| <= k
    ensures Encoded(clauses, clauses, k, xs, base)
  {
  }

  lemma CostExtension(a: Assignment, before: seq<Lits>, mid: seq<Lits>, after: seq<Lits>, w: Weights,
                      events: seq<EntryHash>, units: seq<nat>, k: nat, base: nat, next: nat)
    requires Conservative(before, mid, base) && Encoded(mid, after, k, units, next) && |events| < base <= next
    requires forall a :: SatAll(a, mid) ==> CountTrue(a, units) == Cost(w, CutOf(a, events))
    requires SatAll(a, before) && Cost(w, CutOf(a, events)) <= k
    ensures Extends(a, after, base)
  {
    assert Extends(a, mid, base);
    var b :| Agree(a, b, base) && SatAll(b, mid);
    CutAgree(a, b, events, base);
    assert Extends(b, after, next);
    var c :| Agree(b, c, next) && SatAll(c, after);
    AgreeChain(a, b, c, base, next);
  }

  /** A feasible cut survives both bounding steps. */
  lemma ModelOf(a: Assignment, hardOnly: seq<Lits>, small: seq<Lits>, all: seq<Lits>, enc: HazardEncoding,
                events: seq<EntryHash>, k: nat, next: nat)
    requires Within(CutOf(a, events), enc, k) && SatAll(a, hardOnly) && |events| < next
    requires forall a ::
               SatAll(a, hardOnly) && BranchAndBound.Small(CutOf(a, events), enc.cardinality) ==>
                 Extends(a, small, |events| + 1)
    requires forall a ::
               SatAll(a, small) && Cost(BranchAndBound.WeightsOf(enc.soft), CutOf(a, events)) <= k ==>
                 Extends(a, all, next)
    ensures exists c :: SatAll(c, all)
  {
    assert Extends(a, small, |events| + 1);
    var b :| Agree(a, b, |events| + 1) && SatAll(b, small);
    CutAgree(a, b, events, |events| + 1);
    assert Extends(b, all, next);
  }

  /** A probe answers exactly whether some cut is feasible at threshold `k`. */
  method TryThreshold(k: nat, enc: HazardEncoding, events: seq<EntryHash>, w: Weights)
    returns (r: Option<seq<EntryHash>>)
    requires w == BranchAndBound.WeightsOf(enc.soft) && events == SortedList(w.Keys)
    requires AllPriced(enc.hard, w)
    ensures r.Some? ==> Ascending(r.value) && Within(Elements(r.value), enc, k)
    ensures r.None? ==> forall cut :: !Within(cut, enc, k)
  {
    var solver := Load(k, enc, events, w);
    var verdict := solver.Solve();
    match verdict {
      case Model(a) =>
        SelectedAscending(a, events);
        return Some(Selected(a, events));
      case Unsat =>
        forall cut | Within(cut, enc, k)
          ensures exists c :: SatAll(c, solver.clauses)
        {
          TrimWithin(cut, enc, k, events);
          CutOfAssignment(cut, events);
          assert Within(CutOf(AsAssignment(cut, events), events), enc, k);
        }
        return None;
    }
  }

  /** The clauses of one probe: models are feasible cuts, and every feasible cut of
      known events has a model. */
  method Load(k: nat, enc: HazardEncoding, events: seq<EntryHash>, w: Weights) returns (solver: SatSolver)
    requires w == BranchAndBound.WeightsOf(enc.soft) && events == SortedList(w.Keys)
    requires AllPriced(enc.hard, w)
    ensures fresh(solver)
    ensures forall a :: SatAll(a, solver.clauses) ==> Within(CutOf(a, events), enc, k)
    ensures forall a :: Within(CutOf(a, events), enc, k) ==> exists c :: SatAll(c, solver.clauses)
  {
    forall h ensures h in events <==> h in w { assert h in events <==> h in Elements(events); }
    solver := new SatSolver();
    AddHard(solver, enc.hard, events);
    ghost var hardOnly := solver.clauses;
    var next := AddCardinality(solver, enc, events);
    ghost var small := solver.clauses;
    AddCostBound(solver, w, events, k, next);
    forall a | Within(CutOf(a, events), enc, k)
      ensures exists c :: SatAll(c, solver.clauses)
    {
      ModelOf(a, hardOnly, small, solver.clauses, enc, events, k, next);
    }
  }

  // ----- the search

  function Pow2(n: nat): (p: nat)
    ensures p >= 1
  {
    if n == 0 then 1 else 2 * Pow2(n - 1)
  }

  lemma Pow2Of64()
    ensures Pow2(64) == U64_MAX + 1
  {
    Pow2Of16();
    Pow2Add(16, 16);
    Pow2Add(32, 32);
  }

  lemma Pow2Of16()
    ensures Pow2(16) == 0x1_0000
  {
    assert Pow2(4) == 16;
    Pow2Add(4, 4);
    Pow2Add(8, 8);
  }

  lemma {:induction false} Pow2Add(m: nat, n: nat)
    ensures Pow2(m + n) == Pow2(m) * Pow2(n)
  {
    if m > 0 { Pow2Add(m - 1, n); }
  }

  /** No feasible cut costs less than `k`. */
  ghost predicate NoneBelow(enc: HazardEncoding, k: nat) {
    forall cut, c: nat :: c < k ==> !Within(cut, enc, c)
  }

  /** Some feasible cut costs at most `k`. */
  ghost predicate Reachable(enc: HazardEncoding, k: nat) {
    exists cut :: Within(cut, enc, k)
  }

  lemma RaiseFloor(enc: HazardEncoding, mid: nat)
    requires forall cut :: !Within(cut, enc, mid)
    ensures NoneBelow(enc, mid + 1)
  {
    forall cut, c: nat | c < mid + 1
      ensures !Within(cut, enc, c)
    {
      assert !Within(cut, enc, mid);
    }
  }

  /** No hitting set costs less, and on disjoint clauses without a bound it is the optimum. */
  ghost predicate LowerBounds(enc: HazardEncoding, lower: nat, k: nat) {
    var w := BranchAndBound.WeightsOf(enc.soft);
    && (forall other :: Hits(other, enc.hard) ==> lower <= Cost(w, other))
    && (PricedAndNonEmpty(enc.hard, w) && PairwiseDisjoint(enc.hard) && enc.cardinality.None? ==> k <= lower)
  }

  lemma LowerIsBound(enc: HazardEncoding, cut: seq<EntryHash>, k: nat, lower: nat)
    requires Within(Elements(cut), enc, k) && NoneBelow(enc, k) && k <= U64_MAX
    requires var w := BranchAndBound.WeightsOf(enc.soft);
      && (forall other :: Hits(other, enc.hard) ==> lower <= Cost(w, other))
      && (PricedAndNonEmpty(enc.hard, w) && PairwiseDisjoint(enc.hard) ==>
            exists other :: Hits(other, enc.hard) && lower == Sat(Cost(w, other)))
    ensures LowerBounds(enc, lower, k)
  {
    var w := BranchAndBound.WeightsOf(enc.soft);
    if PricedAndNonEmpty(enc.hard, w) && PairwiseDisjoint(enc.hard) && enc.cardinality.None? {
      var other :| Hits(other, enc.hard) && lower == Sat(Cost(w, other));
      assert Within(other, enc, Cost(w, other));
    }
  }

  /** What the SAT-backed engine returns: an exact optimum under the bound. */
  ghost predicate Exact(enc: HazardEncoding, sol: MaxSatSolution) {
    var w, cut := BranchAndBound.WeightsOf(enc.soft), Elements(sol.cut);
    && Ascending(sol.cut) && BranchAndBound.HitsHard(cut, enc.hard) && BranchAndBound.Small(cut, enc.cardinality)
    && sol.totalCost == Cost(w, cut) && BranchAndBound.Undercuts(enc, sol.totalCost)
    && BranchAndBound.CoreCost(enc, sol)
    && (forall other :: Hits(other, enc.hard) ==> sol.unsatCoreCost <= Cost(w, other))
    && (PricedAndNonEmpty(enc.hard, w) && PairwiseDisjoint(enc.hard) && enc.cardinality.None? ==>
          sol.unsatCoreCost == sol.totalCost)
  }

  lemma LeastIsExact(enc: HazardEncoding, cut: seq<EntryHash>, k: nat, lower: nat)
    requires Ascending(cut) && Within(Elements(cut), enc, k) && NoneBelow(enc, k)
    requires IsDisjointSum(enc.hard, BranchAndBound.WeightsOf(enc.soft), lower)
    requires k > 0 ==> LowerBounds(enc, lower, k)
    ensures Exact(enc, MaxSatSolution(cut, k, if lower < k then lower else k))
  {
    var w := BranchAndBound.WeightsOf(enc.soft);
    assert Within(Elements(cut), enc, Cost(w, Elements(cut)));
    forall other | BranchAndBound.HitsHard(other, enc.hard) && BranchAndBound.Small(other, enc.cardinality)
      ensures k <= Cost(w, other)
    {
      assert Within(other, enc, Cost(w, other));
    }
  }

  /** The binary search ends within its probe limit at the least feasible threshold. */
  method LeastThreshold(enc: HazardEncoding, events: seq<EntryHash>, w: Weights, total: nat) returns (hi: nat)
    requires w == BranchAndBound.WeightsOf(enc.soft) && events == SortedList(w.Keys)
    requires AllPriced(enc.hard, w) && total <= U64_MAX && Reachable(enc, total)
    ensures NoneBelow(enc, hi) && Reachable(enc, hi) && hi <= total
  {
    var lo := 0;
    hi := total;
    Pow2Of64();
    var probes := 0;
    while probes < MAX_THRESHOLD_PROBES && lo < hi
      invariant 0 <= probes <= MAX_THRESHOLD_PROBES && 0 <= lo <= hi <= total
      invariant hi - lo < Pow2(MAX_THRESHOLD_PROBES - probes)
      invariant NoneBelow(enc, lo) && Reachable(enc, hi)
    {
      var mid := lo + (hi - lo) / 2;
      var probe := TryThreshold(mid, enc, events, w);
      if probe.Some? {
        assert Within(Elements(probe.value), enc, mid);
        hi := mid;
      } else {
        RaiseFloor(enc, mid);
        NotAbove(enc, mid, hi);
        lo := mid + 1;
      }
      probes := probes + 1;
    }
  }

  lemma NotAbove(enc: HazardEncoding, mid: nat, hi: nat)
    requires (forall cut :: !Within(cut, enc, mid)) && Reachable(enc, hi)
    ensures mid < hi
  {
    var cut :| Within(cut, enc, hi);
    assert !Within(cut, enc, mid);
  }

  /** The SAT-backed engine is exact, under the cardinality bound too, and refuses
      exactly when no hitting set is small enough. */
  method SolveIncremental(enc: HazardEncoding) returns (r: Result<MaxSatSolution>)
    requires AllPriced(enc.hard, BranchAndBound.WeightsOf(enc.soft))
    requires BranchAndBound.TotalUnits(BranchAndBound.WeightsOf(enc.soft)) <= U64_MAX
    ensures enc.hard == [] ==> r == Ok(MaxSatSolution([], 0, 0))
    ensures r.Ok? && enc.hard != [] ==> Exact(enc, r.value)
    ensures r.Err? ==>
              r.error == Unsupported
              && forall cut :: !(BranchAndBound.HitsHard(cut, enc.hard) && BranchAndBound.Small(cut, enc.cardinality))
  {
    if enc.hard == [] {
      return Ok(MaxSatSolution([], 0, 0));
    }
    var w := BranchAndBound.BuildWeights(enc.soft);
    var events := SortedList(w.Keys);
    var total := BranchAndBound.TotalUnits(w);
    var whole := TryThreshold(total, enc, events, w);
    if whole.None? {
      NothingFits(enc, w, total);
      return Err(Unsupported);
    }
    if total == 0 {
      var free := TryThreshold(0, enc, events, w);
      assert free.Some?;
      ghost var sum := DisjointSumExists(enc.hard, w);
      LeastIsExact(enc, free.value, 0, sum);
      return Ok(MaxSatSolution(free.value, 0, 0));
    }
    var k := LeastThreshold(enc, events, w, total);
    var cut := TryThreshold(k, enc, events, w);
    assert cut.Some?;
    var lower := DisjointLower(enc.hard, w);
    var core := if lower < k then lower else k;
    LowerIsBound(enc, cut.value, k, lower);
    LeastIsExact(enc, cut.value, k, lower);
    return Ok(MaxSatSolution(cut.value, k, core));
  }

  /** When even the full price admits no cut, no small hitting set exists. */
  lemma NothingFits(enc: HazardEncoding, w: Weights, total: nat)
    requires w == BranchAndBound.WeightsOf(enc.soft) && total == Cost(w, w.Keys) && AllPriced(enc.hard, w)
    requires forall cut :: !Within(cut, enc, total)
    ensures forall cut :: !(BranchAndBound.HitsHard(cut, enc.hard) && BranchAndBound.Small(cut, enc.cardinality))
  {
    var events := SortedList(w.Keys);
    forall h ensures h in events <==> h in w { assert h in events <==> h in Elements(events); }
    forall cut | BranchAndBound.HitsHard(cut, enc.hard) && BranchAndBound.Small(cut, enc.cardinality)
      ensures Within(cut * w.Keys, enc, total)
    {
      assert Within(cut, enc, Cost(w, cut));
      TrimWithin(cut, enc, Cost(w, cut), events);
      CostMonotone(w, cut * w.Keys, w.Keys);
    }
  }
}
