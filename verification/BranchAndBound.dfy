/** The builtin engine: a greedy warm start followed by an exact branch and bound
    over the first uncovered clause.
 */
module BranchAndBound {
  import opened Journals
  import opened Ordering
  import opened Solver
  import opened HittingSets

  // ----- the greedy warm start

  function Coverage(cs: seq<Clause>, h: EntryHash): nat {
    if cs == [] then 0 else (if h in cs[0] then 1 else 0) + Coverage(cs[1..], h)
  }

  /** The greedy pass never counts a literal as free. */
  function GreedyPrice(w: Weights, h: EntryHash): (p: nat)
    ensures p >= 1 && p >= Price(w, h)
    ensures Price(w, h) >= 1 ==> p == Price(w, h)
  {
    if Price(w, h) > 1 then Price(w, h) else 1
  }

  /** Covers more, else is cheaper, else has the smaller address. */
  predicate Preferred(cs: seq<Clause>, w: Weights, a: EntryHash, b: EntryHash) {
    || Coverage(cs, a) > Coverage(cs, b)
    || (Coverage(cs, a) == Coverage(cs, b) && GreedyPrice(w, a) < GreedyPrice(w, b))
    || (Coverage(cs, a) == Coverage(cs, b) && GreedyPrice(w, a) == GreedyPrice(w, b) && a < b)
  }

  /** The preferred one among the listed literals. */
  function Pick(cs: seq<Clause>, w: Weights, lits: seq<EntryHash>): (p: EntryHash)
    requires lits != []
    ensures p in lits && forall l :: l in lits ==> l == p || Preferred(cs, w, p, l)
  {
    if |lits| == 1 then lits[0]
    else
      var rest := Pick(cs, w, lits[1..]);
      assert forall l :: l in lits <==> l == lits[0] || l in lits[1..];
      if lits[0] == rest || Preferred(cs, w, lits[0], rest) then lits[0] else rest
  }

  function AllLiterals(cs: seq<Clause>): set<EntryHash> {
    if cs == [] then {} else Elements(cs[0]) + AllLiterals(cs[1..])
  }

  lemma {:induction false} LiteralOf(cs: seq<Clause>, h: EntryHash)
    ensures h in AllLiterals(cs) <==> exists c :: c in cs && h in c
  {
    if cs != [] {
      LiteralOf(cs[1..], h);
      assert forall c :: c in cs <==> c == cs[0] || c in cs[1..];
    }
  }

  function Without(cs: seq<Clause>, h: EntryHash): (r: seq<Clause>)
    ensures |r| <= |cs|
    ensures h in AllLiterals(cs) ==> |r| < |cs|
  {
    if cs == [] then []
    else (if h in cs[0] then [] else [cs[0]]) + Without(cs[1..], h)
  }

  lemma {:induction false} WithoutMember(cs: seq<Clause>, h: EntryHash, c: Clause)
    ensures c in Without(cs, h) <==> c in cs && h !in c
  {
    if cs != [] {
      WithoutMember(cs[1..], h, c);
      assert c in cs <==> c == cs[0] || c in cs[1..];
    }
  }

  /** The literal the greedy pass takes next. */
  function Choice(cs: seq<Clause>, w: Weights): (l: EntryHash)
    requires AllLiterals(cs) != {}
    ensures l in AllLiterals(cs)
  {
    var l := Pick(cs, w, SortedList(AllLiterals(cs)));
    assert l in Elements(SortedList(AllLiterals(cs)));
    l
  }

  /** A literal preferred to all others is the one taken. */
  lemma ChoiceIs(cs: seq<Clause>, w: Weights, p: EntryHash)
    requires p in AllLiterals(cs) && forall l :: l in AllLiterals(cs) && l != p ==> Preferred(cs, w, p, l)
    ensures Choice(cs, w) == p
  {
    var lits := SortedList(AllLiterals(cs));
    assert p in Elements(lits);
    var q := Pick(cs, w, lits);
    assert q in Elements(lits);
  }

  /** The clauses a literal covers, by position. */
  ghost function Covered(cs: seq<Clause>, h: EntryHash): set<nat> {
    set i: nat | i < |cs| && h in cs[i]
  }

  lemma {:induction false} CoverageSnoc(cs: seq<Clause>, c: Clause, h: EntryHash)
    ensures Coverage(cs + [c], h) == Coverage(cs, h) + if h in c then 1 else 0
  {
    if cs != [] {
      CoverageSnoc(cs[1..], c, h);
      assert (cs + [c])[1..] == cs[1..] + [c];
    }
  }

  lemma {:induction false} CoverageCounts(cs: seq<Clause>, h: EntryHash)
    ensures Coverage(cs, h) == |Covered(cs, h)|
    decreases |cs|
  {
    if cs != [] {
      var n := |cs| - 1;
      CoverageCounts(cs[..n], h);
      CoverageSnoc(cs[..n], cs[n], h);
      CoveredSnoc(cs[..n], cs[n], h);
      assert cs[..n] + [cs[n]] == cs;
    }
  }

  lemma CoveredSnoc(cs: seq<Clause>, c: Clause, h: EntryHash)
    ensures |Covered(cs + [c], h)| == |Covered(cs, h)| + if h in c then 1 else 0
  {
    assert Covered(cs + [c], h) == Covered(cs, h) + if h in c then {|cs|} else {};
  }

  /** The literal taken covers the most clauses; among those it is the cheapest, free counting
      as one; among those it has the least address. */
  lemma ChoiceMeans(cs: seq<Clause>, w: Weights, q: EntryHash)
    requires q in AllLiterals(cs)
    ensures var p := Choice(cs, w);
            var most, others := |Covered(cs, p)|, |Covered(cs, q)|;
            && most >= others
            && (most == others ==> Price(w, p) <= Price(w, q) || Price(w, p) <= 1)
            && (most == others && Price(w, p) == Price(w, q) ==> p <= q)
  {
    var lits := SortedList(AllLiterals(cs));
    var p := Choice(cs, w);
    assert q in Elements(lits);
    assert p == q || Preferred(cs, w, p, q);
    CoverageCounts(cs, p);
    CoverageCounts(cs, q);
  }

  datatype Incumbent = Incumbent(cut: set<EntryHash>, cost: nat)

  /** The choice with one more literal, at the greedy price. */
  function Taking(w: Weights, inc: Incumbent, l: EntryHash): Incumbent {
    Incumbent(inc.cut + {l}, Sat(inc.cost + GreedyPrice(w, l)))
  }

  /** The warm start from a partial choice: keep taking the preferred literal. It is
      abandoned when the uncovered clauses have no literal left. */
  function Greedy(uncovered: seq<Clause>, w: Weights, sofar: Incumbent): Option<Incumbent>
    decreases |uncovered|
  {
    if uncovered == [] then Some(sofar)
    else if AllLiterals(uncovered) == {} then None
    else
      var l := Choice(uncovered, w);
      Greedy(Without(uncovered, l), w, Taking(w, sofar, l))
  }

  /** One round of the greedy pass, when the preferred literal is known. */
  lemma GreedyTakes(cs: seq<Clause>, w: Weights, sofar: Incumbent, p: EntryHash)
    requires p in AllLiterals(cs) && forall l :: l in AllLiterals(cs) && l != p ==> Preferred(cs, w, p, l)
    ensures Greedy(cs, w, sofar) == Greedy(Without(cs, p), w, Taking(w, sofar, p))
  {
    ChoiceIs(cs, w, p);
  }

  method GreedyIncumbent(hard: seq<Clause>, w: Weights) returns (r: Option<Incumbent>)
    ensures r == Greedy(hard, w, Incumbent({}, 0))
  {
    var uncovered := hard;
    var chosen := Incumbent({}, 0);
    while uncovered != []
      invariant Greedy(hard, w, Incumbent({}, 0)) == Greedy(uncovered, w, chosen)
      decreases |uncovered|
    {
      if AllLiterals(uncovered) == {} {
        return None;
      }
      var l := Choice(uncovered, w);
      chosen := Taking(w, chosen, l);
      uncovered := Without(uncovered, l);
    }
    return Some(chosen);
  }

  /** The state of the greedy pass: what is left shares nothing with the choice,
      everything else is hit, and the price covers the choice. */
  ghost predicate GreedyState(hard: seq<Clause>, uncovered: seq<Clause>, w: Weights, inc: Incumbent) {
    && (forall c :: c in uncovered <==> c in hard && !Meets(c, inc.cut))
    && inc.cost >= Sat(Cost(w, inc.cut)) && inc.cost <= U64_MAX
    && ((forall c, h :: c in hard && h in c ==> Price(w, h) >= 1) ==> inc.cost == Sat(Cost(w, inc.cut)))
  }

  /** The warm start succeeds exactly when no clause is empty, and then it hits every
      clause at a recorded cost no less than its true cost, and equal to it when no
      literal is free. */
  lemma {:induction false} GreedyHits(hard: seq<Clause>, uncovered: seq<Clause>, w: Weights, sofar: Incumbent)
    requires GreedyState(hard, uncovered, w, sofar)
    ensures var g := Greedy(uncovered, w, sofar);
            && (g.Some? <==> forall c :: c in hard ==> c != [])
            && (g.Some? ==> Hits(g.value.cut, hard) && GreedyState(hard, [], w, g.value))
    decreases |uncovered|
  {
    if uncovered == [] {
      GreedyDone(hard, w, sofar);
    } else if AllLiterals(uncovered) == {} {
      var c := uncovered[0];
      assert c in uncovered && c in hard;
      if c != [] { LiteralOf(uncovered, c[0]); }
    } else {
      var l := Choice(uncovered, w);
      GreedyStep(hard, uncovered, w, sofar, l);
      GreedyHits(hard, Without(uncovered, l), w, Taking(w, sofar, l));
    }
  }

  lemma GreedyDone(hard: seq<Clause>, w: Weights, inc: Incumbent)
    requires GreedyState(hard, [], w, inc)
    ensures Hits(inc.cut, hard) && forall c :: c in hard ==> c != []
  {
  }

  lemma GreedyStep(hard: seq<Clause>, uncovered: seq<Clause>, w: Weights, sofar: Incumbent, l: EntryHash)
    requires GreedyState(hard, uncovered, w, sofar) && l in AllLiterals(uncovered)
    ensures GreedyState(hard, Without(uncovered, l), w, Taking(w, sofar, l))
  {
    LiteralOf(uncovered, l);
    var c0 :| c0 in uncovered && l in c0;
    assert l !in sofar.cut;
    CostAdd(w, sofar.cut, l);
    forall c
      ensures c in Without(uncovered, l) <==> c in hard && !Meets(c, sofar.cut + {l})
    {
      WithoutMember(uncovered, l, c);
      if Meets(c, sofar.cut) { MeetsMore(c, sofar.cut, sofar.cut + {l}); }
    }
  }

  // ----- the order in which literals are tried

  predicate Cheaper(w: Weights, a: EntryHash, b: EntryHash) {
    Price(w, a) < Price(w, b) || (Price(w, a) == Price(w, b) && a < b)
  }

  ghost predicate CheapestFirst(w: Weights, ls: seq<EntryHash>) {
    forall i, k :: 0 <= i < k < |ls| ==> !Cheaper(w, ls[k], ls[i])
  }

  function InsertLit(w: Weights, h: EntryHash, ls: seq<EntryHash>): seq<EntryHash> {
    if ls == [] then [h]
    else if Cheaper(w, ls[0], h) then [ls[0]] + InsertLit(w, h, ls[1..])
    else [h] + ls
  }

  lemma {:induction false} InsertLitFacts(w: Weights, h: EntryHash, ls: seq<EntryHash>)
    requires CheapestFirst(w, ls)
    ensures CheapestFirst(w, InsertLit(w, h, ls)) && forall x :: x in InsertLit(w, h, ls) <==> x == h || x in ls
    ensures |InsertLit(w, h, ls)| == |ls| + 1
  {
    if ls != [] {
      assert forall x :: x in ls <==> x == ls[0] || x in ls[1..];
      if Cheaper(w, ls[0], h) {
        InsertLitFacts(w, h, ls[1..]);
        var rest := InsertLit(w, h, ls[1..]);
        assert forall i :: 0 <= i < |rest| ==> rest[i] in rest;
      }
    }
  }

  /** The literals of a clause from cheapest to dearest. */
  function TrialOrder(w: Weights, c: Clause): seq<EntryHash> {
    if c == [] then [] else InsertLit(w, c[0], TrialOrder(w, c[1..]))
  }

  lemma {:induction false} TrialOrderFacts(w: Weights, c: Clause)
    ensures CheapestFirst(w, TrialOrder(w, c)) && forall x :: x in TrialOrder(w, c) <==> x in c
    ensures |TrialOrder(w, c)| == |c|
  {
    if c != [] {
      TrialOrderFacts(w, c[1..]);
      InsertLitFacts(w, c[0], TrialOrder(w, c[1..]));
      assert forall x :: x in c <==> x == c[0] || x in c[1..];
    }
  }

  // ----- the search

  /** An upper bound on the search tree: one more than its literals, clause by clause. */
  function TreeSize(hard: seq<Clause>): (n: nat)
    ensures n >= 1
  {
    if hard == [] then 1 else (|hard[0]| + 1) * TreeSize(hard[1..])
  }

  lemma {:induction false} TreeShrinks(hard: seq<Clause>, start: nat, idx: nat)
    requires start <= idx < |hard|
    ensures 1 + |hard[idx]| * TreeSize(hard[idx + 1..]) <= TreeSize(hard[start..])
    decreases idx - start
  {
    assert hard[start..][1..] == hard[start + 1..];
    var rest := TreeSize(hard[start + 1..]);
    assert (|hard[start]| + 1) * rest == |hard[start]| * rest + rest;
    if start < idx { TreeShrinks(hard, start + 1, idx); }
  }

  lemma ManyTrees(i: nat, n: nat, size: nat)
    requires i < n
    ensures i * size + size == (i + 1) * size <= n * size
  {
    assert n * size == (i + 1) * size + (n - i - 1) * size;
  }

  class SearchState {
    const hard: seq<Clause>
    const weights: Weights
    const maxTrue: Option<nat>
    const maxNodes: nat
    var cur: set<EntryHash>
    var bestCut: set<EntryHash>
    var bestCost: nat
    var nodesVisited: nat

    constructor (hard: seq<Clause>, weights: Weights, maxTrue: Option<nat>, maxNodes: nat, bestCut: set<EntryHash>,
                 bestCost: nat)
      ensures this.hard == hard && this.weights == weights && this.maxTrue == maxTrue && this.maxNodes == maxNodes
      ensures this.bestCut == bestCut && this.bestCost == bestCost && cur == {} && nodesVisited == 0
    {
      this.hard, this.weights, this.maxTrue, this.maxNodes := hard, weights, maxTrue, maxNodes;
      this.bestCut, this.bestCost, cur, nodesVisited := bestCut, bestCost, {}, 0;
    }

    /** A hitting set within the cardinality bound. */
    ghost predicate Feasible(cut: set<EntryHash>) {
      Hits(cut, hard) && (maxTrue.Some? ==> |cut| <= maxTrue.value)
    }

    /** No feasible extension of `base` costs less than `cost`. */
    ghost predicate Settled(base: set<EntryHash>, cost: nat) {
      forall cut :: base <= cut && Feasible(cut) ==> cost <= Cost(weights, cut)
    }

    /** The incumbent is either the one given or a feasible cut at its own cost. */
    ghost predicate Improves(cut0: set<EntryHash>, cost0: nat)
      reads this
    {
      || (bestCut == cut0 && bestCost == cost0)
      || (bestCost < cost0 && Feasible(bestCut) && bestCost == Sat(Cost(weights, bestCut)))
    }

    /** First clause from `start` on that the current choice does not meet. */
    method FindUncovered(start: nat) returns (idx: nat)
      requires start <= |hard| && forall k :: 0 <= k < start ==> Meets(hard[k], cur)
      ensures start <= idx <= |hard|
      ensures forall k :: 0 <= k < idx ==> Meets(hard[k], cur)
      ensures idx < |hard| ==> !Meets(hard[idx], cur)
    {
      idx := start;
      while idx < |hard| && Meets(hard[idx], cur)
        invariant start <= idx <= |hard|
        invariant forall k :: 0 <= k < idx ==> Meets(hard[k], cur)
      {
        idx := idx + 1;
      }
    }

    /** Exhaustive below the current choice: on success no feasible extension beats
        the incumbent and the choice is restored. Whatever it installs is feasible.
        It gives up only past the node budget, which bounds the whole tree. */
    method Dfs(curCost: nat, start: nat) returns (ok: bool)
      requires start <= |hard| && forall k :: 0 <= k < start ==> Meets(hard[k], cur)
      requires curCost == Sat(Cost(weights, cur)) && bestCost <= U64_MAX
      modifies this
      ensures Improves(old(bestCut), old(bestCost)) && bestCost <= old(bestCost)
      ensures ok ==> cur == old(cur) && Settled(cur, bestCost)
      ensures nodesVisited <= old(nodesVisited) + TreeSize(hard[start..])
      ensures !ok ==> nodesVisited > maxNodes
      decreases |hard| - start
    {
      nodesVisited := nodesVisited + 1;
      if nodesVisited > maxNodes {
        return false;
      }
      if curCost >= bestCost {
        SettledByCost(cur, curCost);
        return true;
      }
      if maxTrue.Some? && |cur| > maxTrue.value {
        PruneBySize();
        return true;
      }
      var idx := FindUncovered(start);
      if idx == |hard| {
        assert Hits(cur, hard);
        bestCost := curCost;
        bestCut := cur;
        SettledByCost(cur, curCost);
        return true;
      }
      TreeShrinks(hard, start, idx);
      ok := Branch(curCost, idx);
    }

    /** Try every literal of the uncovered clause, cheapest first. */
    method Branch(curCost: nat, idx: nat) returns (ok: bool)
      requires idx < |hard| && (forall k :: 0 <= k < idx ==> Meets(hard[k], cur)) && !Meets(hard[idx], cur)
      requires curCost == Sat(Cost(weights, cur)) && bestCost <= U64_MAX
      modifies this
      ensures Improves(old(bestCut), old(bestCost)) && bestCost <= old(bestCost)
      ensures ok ==> cur == old(cur) && Settled(cur, bestCost)
      ensures nodesVisited <= old(nodesVisited) + |hard[idx]| * TreeSize(hard[idx + 1..])
      ensures !ok ==> nodesVisited > maxNodes
      decreases |hard| - idx, 0, 1
    {
      var lits := TrialOrder(weights, hard[idx]);
      TrialOrderFacts(weights, hard[idx]);
      ghost var below := TreeSize(hard[idx + 1..]);
      var i := 0;
      while i < |lits|
        invariant 0 <= i <= |lits| && cur == old(cur)
        invariant Improves(old(bestCut), old(bestCost)) && bestCost <= old(bestCost)
        invariant AllSettled(cur, lits, i, bestCost)
        invariant nodesVisited <= old(nodesVisited) + i * below
      {
        ghost var before := bestCost;
        ok := Try(curCost, idx, lits[i]);
        ManyTrees(i, |lits|, below);
        if !ok {
          return;
        }
        SettledCheaper(cur, lits, i, before);
        i := i + 1;
      }
      EveryCutBranches(idx, lits);
      return true;
    }

    /** Take one literal of the uncovered clause, search below it, and put it back. */
    method Try(curCost: nat, idx: nat, h: EntryHash) returns (ok: bool)
      requires idx < |hard| && (forall k :: 0 <= k < idx ==> Meets(hard[k], cur)) && h in hard[idx] && h !in cur
      requires curCost == Sat(Cost(weights, cur)) && bestCost <= U64_MAX
      modifies this
      ensures Improves(old(bestCut), old(bestCost)) && bestCost <= old(bestCost)
      ensures ok ==> cur == old(cur) && Settled(cur + {h}, bestCost)
      ensures nodesVisited <= old(nodesVisited) + TreeSize(hard[idx + 1..])
      ensures !ok ==> nodesVisited > maxNodes
      decreases |hard| - idx, 0, 0
    {
      CostAdd(weights, cur, h);
      var nxt := Sat(curCost + Price(weights, h));
      if nxt >= bestCost {
        SettledByCost(cur + {h}, nxt);
        return true;
      }
      ghost var base := cur;
      cur := cur + {h};
      MeetAfterInsert(base, h, idx);
      ok := Dfs(nxt, idx + 1);
      if ok {
        cur := cur - {h};
        assert cur == base;
      }
    }

    lemma SettledByCost(base: set<EntryHash>, cost: nat)
      requires cost == Sat(Cost(weights, base)) && cost >= bestCost
      ensures Settled(base, bestCost)
    {
      forall cut | base <= cut && Feasible(cut)
        ensures bestCost <= Cost(weights, cut)
      {
        CostMonotone(weights, base, cut);
      }
    }

    /** Each of the first `n` literals has been tried. */
    ghost predicate AllSettled(base: set<EntryHash>, lits: seq<EntryHash>, n: nat, cost: nat)
      requires n <= |lits|
    {
      n == 0 || (AllSettled(base, lits, n - 1, cost) && Settled(base + {lits[n - 1]}, cost))
    }

    lemma {:induction false} SettledCheaper(base: set<EntryHash>, lits: seq<EntryHash>, n: nat, before: nat)
      requires n <= |lits| && bestCost <= before && AllSettled(base, lits, n, before)
      ensures AllSettled(base, lits, n, bestCost)
    {
      if n > 0 { SettledCheaper(base, lits, n - 1, before); }
    }

    lemma {:induction false} SettledAt(base: set<EntryHash>, lits: seq<EntryHash>, n: nat, cost: nat, k: nat)
      requires k < n <= |lits| && AllSettled(base, lits, n, cost)
      ensures Settled(base + {lits[k]}, cost)
    {
      if k < n - 1 { SettledAt(base, lits, n - 1, cost, k); }
    }

    lemma PruneBySize()
      requires maxTrue.Some? && |cur| > maxTrue.value
      ensures Settled(cur, bestCost)
    {
      forall cut | cur <= cut
        ensures !Feasible(cut)
      {
        SubsetSize(cur, cut);
      }
    }

    lemma MeetAfterInsert(base: set<EntryHash>, h: EntryHash, idx: nat)
      requires idx < |hard| && (forall k :: 0 <= k < idx ==> Meets(hard[k], base)) && h in hard[idx]
      ensures forall k :: 0 <= k < idx + 1 ==> Meets(hard[k], base + {h})
    {
    }

    /** A feasible extension must pick some literal of the uncovered clause. */
    lemma EveryCutBranches(idx: nat, lits: seq<EntryHash>)
      requires idx < |hard| && (forall x :: x in lits <==> x in hard[idx])
      requires AllSettled(cur, lits, |lits|, bestCost)
      ensures Settled(cur, bestCost)
    {
      forall cut | cur <= cut && Feasible(cut)
        ensures bestCost <= Cost(weights, cut)
      {
        assert Meets(hard[idx], cut);
        var h :| h in hard[idx] && h in cut;
        var k :| 0 <= k < |lits| && lits[k] == h;
        SettledAt(cur, lits, |lits|, bestCost, k);
        assert cur + {lits[k]} <= cut;
      }
    }
  }

  // ----- the engine

  const MAXSAT_BNB_MAX_CLAUSES: nat := 2_000_000
  const MAXSAT_BNB_MAX_COST_UNITS: nat := 10_000_000
  const MAXSAT_BNB_MAX_NODES: nat := 10_000_000

  /** Weights as the soft clauses set them; a later one replaces an earlier one. */
  function WeightsOf(soft: seq<(Clause, nat)>): Weights {
    if soft == [] then map[]
    else
      var last := soft[|soft| - 1];
      WeightsOf(soft[..|soft| - 1]) + (map h | h in last.0 :: last.1)
  }

  method BuildWeights(soft: seq<(Clause, nat)>) returns (w: Weights)
    ensures w == WeightsOf(soft)
  {
    w := map[];
    var i := 0;
    while i < |soft|
      invariant 0 <= i <= |soft| && w == WeightsOf(soft[..i])
    {
      assert soft[..i + 1][..i] == soft[..i];
      w := AddWeights(w, soft[i].0, soft[i].1);
      i := i + 1;
    }
    assert soft[..i] == soft;
  }

  method AddWeights(before: Weights, lits: Clause, price: nat) returns (w: Weights)
    ensures w == before + (map h | h in lits :: price)
  {
    w := before;
    var k := 0;
    while k < |lits|
      invariant 0 <= k <= |lits| && w == before + (map h | h in lits[..k] :: price)
    {
      assert forall h :: h in lits[..k + 1] <==> h in lits[..k] || h == lits[k];
      w := w[lits[k] := price];
      k := k + 1;
    }
    assert lits[..k] == lits;
  }

  function TotalUnits(w: Weights): nat {
    Cost(w, w.Keys)
  }

  /** A set meets every clause that names a literal at all. */
  ghost predicate HitsHard(cut: set<EntryHash>, hard: seq<Clause>) {
    forall c :: c in hard && c != [] ==> Meets(c, cut)
  }

  /** Each non-empty clause as an ordered set. */
  function AsSets(hard: seq<Clause>): seq<Clause> {
    if hard == [] then []
    else (if hard[0] == [] then [] else [SortedList(Elements(hard[0]))]) + AsSets(hard[1..])
  }

  lemma {:induction false} AsSetsMembers(hard: seq<Clause>, s: Clause)
    ensures s in AsSets(hard) <==> exists c :: c in hard && c != [] && s == SortedList(Elements(c))
  {
    if hard != [] {
      AsSetsMembers(hard[1..], s);
      assert forall c :: c in hard <==> c == hard[0] || c in hard[1..];
    }
  }

  lemma OrderedIsItself(c: Clause)
    requires Ascending(c)
    ensures SortedList(Elements(c)) == c
  {
    AscendingUnique(SortedList(Elements(c)), c);
  }

  lemma PrependAsSet(c: Clause, rest: seq<Clause>)
    requires c != [] && Ascending(c) && AsSets(rest) == rest
    ensures AsSets([c] + rest) == [c] + rest
  {
    OrderedIsItself(c);
    assert ([c] + rest)[1..] == rest;
  }

  /** Clauses that are sorted sets already are searched as they are. */
  lemma {:induction false} AsSetsOrdered(hard: seq<Clause>)
    requires forall k :: 0 <= k < |hard| ==> hard[k] != [] && Ascending(hard[k])
    ensures AsSets(hard) == hard
  {
    if hard != [] {
      AsSetsOrdered(hard[1..]);
      PrependAsSet(hard[0], hard[1..]);
      assert hard == [hard[0]] + hard[1..];
    }
  }

  lemma SameLiterals(c: Clause, cut: set<EntryHash>)
    ensures Meets(SortedList(Elements(c)), cut) <==> Meets(c, cut)
    ensures c != [] ==> SortedList(Elements(c)) != []
  {
    var s := SortedList(Elements(c));
    assert forall h :: h in s <==> h in Elements(s);
    assert forall h :: h in c <==> h in Elements(c);
    assert c != [] ==> c[0] in Elements(c);
  }

  lemma AsSetsHits(cut: set<EntryHash>, hard: seq<Clause>)
    ensures Hits(cut, AsSets(hard)) <==> HitsHard(cut, hard)
  {
    if Hits(cut, AsSets(hard)) {
      forall c | c in hard && c != []
        ensures Meets(c, cut)
      {
        AsSetsMembers(hard, SortedList(Elements(c)));
        SameLiterals(c, cut);
      }
    }
    if HitsHard(cut, hard) {
      forall s | s in AsSets(hard)
        ensures Meets(s, cut)
      {
        AsSetsMembers(hard, s);
        var c :| c in hard && c != [] && s == SortedList(Elements(c));
        SameLiterals(c, cut);
      }
    }
  }

  function NoKey(c: Clause): nat { 0 }

  /** The clause sets in search order: shortest first, then lexicographic. */
  function SearchOrder(hard: seq<Clause>): (s: seq<Clause>)
    ensures multiset(s) == multiset(AsSets(hard))
  {
    SortBy(NoKey, AsSets(hard))
  }

  lemma SearchOrderFacts(hard: seq<Clause>)
    ensures forall cut :: Hits(cut, SearchOrder(hard)) <==> HitsHard(cut, hard)
    ensures forall c :: c in SearchOrder(hard) ==> c != []
  {
    forall c
      ensures c in SearchOrder(hard) <==> c in AsSets(hard)
    {
      assert c in SearchOrder(hard) <==> c in multiset(SearchOrder(hard));
      assert c in AsSets(hard) <==> c in multiset(AsSets(hard));
    }
    forall s | s in AsSets(hard)
      ensures s != []
    {
      AsSetsMembers(hard, s);
      var c :| c in hard && c != [] && s == SortedList(Elements(c));
      SameLiterals(c, {});
    }
    forall cut
      ensures Hits(cut, SearchOrder(hard)) <==> HitsHard(cut, hard)
    {
      AsSetsHits(cut, hard);
    }
  }

  /** The incumbent the search starts from. */
  function WarmStart(enc: HazardEncoding): Incumbent {
    match Greedy(SearchOrder(enc.hard), WeightsOf(enc.soft), Incumbent({}, 0))
    case Some(inc) => inc
    case None => Incumbent({}, U64_MAX)
  }

  lemma WarmStartHits(enc: HazardEncoding)
    ensures var g := WarmStart(enc);
            && HitsHard(g.cut, enc.hard)
            && Sat(Cost(WeightsOf(enc.soft), g.cut)) <= g.cost <= U64_MAX
  {
    SearchOrderFacts(enc.hard);
    GreedyHits(SearchOrder(enc.hard), SearchOrder(enc.hard), WeightsOf(enc.soft), Incumbent({}, 0));
  }

  ghost predicate Small(cut: set<EntryHash>, bound: Option<CardinalityBound>) {
    bound.Some? ==> |cut| <= bound.value.maxTrue
  }

  /** Cheapest among the hitting sets the bound allows. */
  ghost predicate Undercuts(enc: HazardEncoding, cost: nat) {
    forall cut :: HitsHard(cut, enc.hard) && Small(cut, enc.cardinality) ==> cost <= Cost(WeightsOf(enc.soft), cut)
  }

  /** A small hitting set that beats the warm start. */
  ghost predicate BetterSmallCut(enc: HazardEncoding, cost: nat) {
    exists cut :: HitsHard(cut, enc.hard) && Small(cut, enc.cardinality) && Cost(WeightsOf(enc.soft), cut) < cost
  }

  /** The lower bound that is reported: the disjoint sum, capped at the total. */
  ghost predicate CoreCost(enc: HazardEncoding, sol: MaxSatSolution) {
    exists lower: nat ::
      && IsDisjointSum(enc.hard, WeightsOf(enc.soft), lower)
      && sol.unsatCoreCost == if lower < sol.totalCost then lower else sol.totalCost
  }

  /** What an answer of the engine means. */
  ghost predicate Answers(enc: HazardEncoding, sol: MaxSatSolution) {
    var w, cut := WeightsOf(enc.soft), Elements(sol.cut);
    && Ascending(sol.cut) && HitsHard(cut, enc.hard)
    && Undercuts(enc, sol.totalCost)
    && (Small(cut, enc.cardinality) ==> sol.totalCost == Cost(w, cut))
    && (!Small(cut, enc.cardinality) ==> WarmStart(enc) == Incumbent(cut, sol.totalCost))
    && (Small(cut, enc.cardinality) <==>
          Small(WarmStart(enc).cut, enc.cardinality) || BetterSmallCut(enc, WarmStart(enc).cost))
    && CoreCost(enc, sol)
    && (AllPriced(enc.hard, w) ==> forall other :: Hits(other, enc.hard) ==> sol.unsatCoreCost <= Cost(w, other))
    && (PricedAndNonEmpty(enc.hard, w) && PairwiseDisjoint(enc.hard) && enc.cardinality.None? ==>
          sol.unsatCoreCost == sol.totalCost)
  }

  /** The part of an answer that does not speak of the warm start. */
  lemma AnswerFacts(enc: HazardEncoding, sol: MaxSatSolution)
    requires Answers(enc, sol)
    ensures Ascending(sol.cut) && HitsHard(Elements(sol.cut), enc.hard) && Undercuts(enc, sol.totalCost)
    ensures Small(Elements(sol.cut), enc.cardinality) ==> sol.totalCost == Cost(WeightsOf(enc.soft), Elements(sol.cut))
    ensures enc.cardinality.None? ==> sol.totalCost == Cost(WeightsOf(enc.soft), Elements(sol.cut))
  {
  }

  /** A small cut at its own cost, cheaper than a given one. */
  ghost predicate Beats(enc: HazardEncoding, inc: Incumbent, cost: nat) {
    inc.cost < cost && Small(inc.cut, enc.cardinality) && inc.cost == Sat(Cost(WeightsOf(enc.soft), inc.cut))
  }

  /** The search state after the warm start and a completed search. */
  lemma FinishedSearch(enc: HazardEncoding, bestCut: set<EntryHash>, bestCost: nat)
    requires bestCost < U64_MAX && HitsHard(bestCut, enc.hard)
    requires Incumbent(bestCut, bestCost) == WarmStart(enc)
             || Beats(enc, Incumbent(bestCut, bestCost), WarmStart(enc).cost)
    requires Undercuts(enc, bestCost)
    ensures Small(bestCut, enc.cardinality) ==> bestCost == Cost(WeightsOf(enc.soft), bestCut)
    ensures !Small(bestCut, enc.cardinality) ==> WarmStart(enc) == Incumbent(bestCut, bestCost)
    ensures Small(bestCut, enc.cardinality) <==>
              Small(WarmStart(enc).cut, enc.cardinality) || BetterSmallCut(enc, WarmStart(enc).cost)
  {
    var w, g := WeightsOf(enc.soft), WarmStart(enc);
    WarmStartHits(enc);
    if bestCut == g.cut && bestCost == g.cost {
      if Small(bestCut, enc.cardinality) {
        assert bestCost <= Cost(w, bestCut);
      }
    } else {
      assert HitsHard(bestCut, enc.hard) && Small(bestCut, enc.cardinality) && Cost(w, bestCut) < g.cost;
    }
  }

  lemma LowerIsTotal(enc: HazardEncoding, lower: nat, total: nat)
    requires PricedAndNonEmpty(enc.hard, WeightsOf(enc.soft)) && enc.cardinality.None?
    requires exists cut :: Hits(cut, enc.hard) && lower == Sat(Cost(WeightsOf(enc.soft), cut))
    requires Undercuts(enc, total) && total < U64_MAX
    ensures total <= lower
  {
  }

  /** Refused before the search: too many clauses, or too many cost units at machine width. */
  ghost predicate TooLarge(enc: HazardEncoding, maxClauses: nat, maxCostUnits: nat) {
    |enc.hard| > maxClauses || TotalUnits(WeightsOf(enc.soft)) % (U64_MAX + 1) > maxCostUnits
  }

  /** What the engine may run out of. */
  ghost predicate OverBudget(enc: HazardEncoding, maxClauses: nat, maxCostUnits: nat, maxNodes: nat) {
    || TooLarge(enc, maxClauses, maxCostUnits)
    || TreeSize(SearchOrder(enc.hard)) > maxNodes
  }

  /** Branch and bound with explicit budgets. */
  method SolveWithBudget(enc: HazardEncoding, maxClauses: nat, maxCostUnits: nat, maxNodes: nat)
    returns (r: Result<MaxSatSolution>)
    ensures r.Ok? && enc.hard != [] ==> Answers(enc, r.value)
    ensures enc.hard == [] ==> r == Ok(MaxSatSolution([], 0, 0))
    ensures r.Err? ==> r.error == BudgetExhausted || (r.error == Unsupported && Undercuts(enc, U64_MAX))
    ensures r == Err(BudgetExhausted) ==> OverBudget(enc, maxClauses, maxCostUnits, maxNodes)
    ensures enc.hard != [] && TooLarge(enc, maxClauses, maxCostUnits) ==> r == Err(BudgetExhausted)
  {
    if enc.hard == [] {
      return Ok(MaxSatSolution([], 0, 0));
    }
    if |enc.hard| > maxClauses {
      return Err(BudgetExhausted);
    }
    var weights := BuildWeights(enc.soft);
    // The sum wraps at the machine width; only the budget test reads it.
    if TotalUnits(weights) % (U64_MAX + 1) > maxCostUnits {
      return Err(BudgetExhausted);
    }
    var done, best := Search(enc, weights, maxNodes);
    if !done {
      return Err(BudgetExhausted);
    }
    if best.cost == U64_MAX {
      return Err(Unsupported);
    }
    FinishedSearch(enc, best.cut, best.cost);
    var lower := DisjointLower(enc.hard, weights);
    if PricedAndNonEmpty(enc.hard, weights) && PairwiseDisjoint(enc.hard) && enc.cardinality.None? {
      LowerIsTotal(enc, lower, best.cost);
    }
    r := Ok(MaxSatSolution(SortedList(best.cut), best.cost, if lower < best.cost then lower else best.cost));
  }

  /** The warm start and the exhaustive search behind it. */
  method Search(enc: HazardEncoding, weights: Weights, maxNodes: nat) returns (done: bool, best: Incumbent)
    requires weights == WeightsOf(enc.soft)
    ensures done ==> HitsHard(best.cut, enc.hard) && Undercuts(enc, best.cost) && best.cost <= U64_MAX
    ensures done ==> best == WarmStart(enc) || Beats(enc, best, WarmStart(enc).cost)
    ensures !done ==> TreeSize(SearchOrder(enc.hard)) > maxNodes
  {
    var hardSets := SearchOrder(enc.hard);
    SearchOrderFacts(enc.hard);
    var warm := GreedyIncumbent(hardSets, weights);
    WarmStartHits(enc);
    var maxTrue := if enc.cardinality.Some? then Some(enc.cardinality.value.maxTrue) else None;
    var start := if warm.Some? then warm.value else Incumbent({}, U64_MAX);
    var state := new SearchState(hardSets, weights, maxTrue, maxNodes, start.cut, start.cost);
    assert Cost(weights, {}) == 0;
    done := state.Dfs(0, 0);
    assert hardSets[0..] == hardSets;
    best := Incumbent(state.bestCut, state.bestCost);
    assert forall cut :: state.Feasible(cut) <==> HitsHard(cut, enc.hard) && Small(cut, enc.cardinality);
  }

  method SolveMaxSatBnb(enc: HazardEncoding) returns (r: Result<MaxSatSolution>)
    ensures r.Ok? && enc.hard != [] ==> Answers(enc, r.value)
    ensures enc.hard == [] ==> r == Ok(MaxSatSolution([], 0, 0))
    ensures r.Err? ==> r.error == BudgetExhausted || (r.error == Unsupported && Undercuts(enc, U64_MAX))
    ensures r == Err(BudgetExhausted) ==>
              OverBudget(enc, MAXSAT_BNB_MAX_CLAUSES, MAXSAT_BNB_MAX_COST_UNITS, MAXSAT_BNB_MAX_NODES)
    ensures enc.hard != [] && TooLarge(enc, MAXSAT_BNB_MAX_CLAUSES, MAXSAT_BNB_MAX_COST_UNITS) ==>
              r == Err(BudgetExhausted)
  {
    r := SolveWithBudget(enc, MAXSAT_BNB_MAX_CLAUSES, MAXSAT_BNB_MAX_COST_UNITS, MAXSAT_BNB_MAX_NODES);
  }
}
