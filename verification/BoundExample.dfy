/** Runs of the builtin engine that ignore the cardinality bound. */
module BoundExample {
  import opened Journals
  import opened Ordering
  import opened Solver
  import opened HittingSets
  import opened BranchAndBound

  /** Two dear events `a` and `b` hit every clause, and so do three cheap ones. */
  datatype Crossing = Crossing(
    a: EntryHash, b: EntryHash, x: EntryHash, y: EntryHash, z: EntryHash, cheap: nat, dear: nat) {

    /** Three cheap events cost no more than the two dear ones. */
    predicate Proper() {
      a < b < x < y < z && 1 <= cheap < dear && 3 * cheap <= 2 * dear
    }

    function Hard(): seq<Clause> { [[a, x], [a, y], [b, x], [b, z]] }

    function Prices(): Weights { map[a := dear, b := dear, x := cheap, y := cheap, z := cheap] }

    /** Only two faults are allowed. */
    function Encoding(): HazardEncoding {
      HazardEncoding(
        Hard(), [([a], dear), ([b], dear), ([x], cheap), ([y], cheap), ([z], cheap)],
        Some(CardinalityBound([a, b, x, y, z], 2)))
    }
  }

  lemma {:induction false} WeightsSnoc(soft: seq<(Clause, nat)>, h: EntryHash, price: nat)
    ensures WeightsOf(soft + [([h], price)]) == WeightsOf(soft)[h := price]
  {
    assert (soft + [([h], price)])[..|soft|] == soft;
  }

  lemma PricesOf(k: Crossing)
    requires k.Proper()
    ensures WeightsOf(k.Encoding().soft) == k.Prices()
  {
    var s1 := [] + [([k.a], k.dear)];
    var s2 := s1 + [([k.b], k.dear)];
    var s3 := s2 + [([k.x], k.cheap)];
    var s4 := s3 + [([k.y], k.cheap)];
    WeightsSnoc([], k.a, k.dear);
    WeightsSnoc(s1, k.b, k.dear);
    WeightsSnoc(s2, k.x, k.cheap);
    WeightsSnoc(s3, k.y, k.cheap);
    WeightsSnoc(s4, k.z, k.cheap);
    assert k.Encoding().soft == s4 + [([k.z], k.cheap)];
  }

  lemma PairFacts(p: EntryHash, q: EntryHash, r: EntryHash, s: EntryHash)
    ensures LexLess([p, q], [r, s]) <==> p < r || (p == r && q < s)
    ensures Elements([p, q]) == {p, q}
  {
    assert [p, q][1..] == [q] && [r, s][1..] == [s];
    assert LexLess([q], [s]) <==> q < s by { assert [s][1..] == []; }
  }

  lemma OrderOf(k: Crossing)
    requires k.Proper()
    ensures SearchOrder(k.Hard()) == k.Hard()
  {
    InOrderPairs(k.a, k.x, k.a, k.y, k.b, k.x, k.b, k.z);
    OrderedIsSearched(k.Hard());
  }

  lemma OrderedIsSearched(hard: seq<Clause>)
    requires forall k :: 0 <= k < |hard| ==> hard[k] != [] && Ascending(hard[k])
    requires InOrder(NoKey, hard)
    ensures SearchOrder(hard) == hard
  {
    AsSetsOrdered(hard);
    SortByOrdered(NoKey, hard);
  }

  lemma InOrderPairs(p: EntryHash, p': EntryHash, q: EntryHash, q': EntryHash, r: EntryHash, r': EntryHash,
                     s: EntryHash, s': EntryHash)
    requires p == q && p' < q' && q < r && r == s && r' < s'
    ensures InOrder(NoKey, [[p, p'], [q, q'], [r, r'], [s, s']])
  {
    PairFacts(q, q', p, p');
    PairFacts(r, r', p, p');
    PairFacts(s, s', p, p');
    PairFacts(r, r', q, q');
    PairFacts(s, s', q, q');
    PairFacts(s, s', r, r');
  }

  /** What one clause in front changes. */
  lemma InFront(c: Clause, rest: seq<Clause>, h: EntryHash)
    ensures Coverage([c] + rest, h) == Coverage(rest, h) + if h in c then 1 else 0
    ensures AllLiterals([c] + rest) == Elements(c) + AllLiterals(rest)
    ensures Without([c] + rest, h) == if h in c then Without(rest, h) else [c] + Without(rest, h)
  {
    assert ([c] + rest)[1..] == rest;
  }

  lemma TwoClauses(c: Clause, d: Clause, h: EntryHash)
    ensures Coverage([c, d], h) == (if h in c then 1 else 0) + (if h in d then 1 else 0)
    ensures AllLiterals([c, d]) == Elements(c) + Elements(d)
    ensures Without([c, d], h) == (if h in c then [] else [c]) + (if h in d then [] else [d])
  {
    InFront(d, [], h);
    InFront(c, [d], h);
    assert [d] + [] == [d] && [c] + [d] == [c, d];
  }

  lemma FourClauses(c: Clause, d: Clause, e: Clause, f: Clause, h: EntryHash)
    ensures Coverage([c, d, e, f], h) == Coverage([c, d], h) + Coverage([e, f], h)
    ensures AllLiterals([c, d, e, f]) == Elements(c) + Elements(d) + Elements(e) + Elements(f)
    ensures Without([c, d, e, f], h) == Without([c, d], h) + Without([e, f], h)
  {
    TwoClauses(c, d, h);
    TwoClauses(e, f, h);
    TwoInFront(c, d, [e, f], h);
    assert [c, d, e, f] == [c] + ([d] + [e, f]);
  }

  lemma TwoInFront(c: Clause, d: Clause, rest: seq<Clause>, h: EntryHash)
    ensures var all := [c] + ([d] + rest);
            && Coverage(all, h) == Coverage(rest, h) + (if h in c then 1 else 0) + (if h in d then 1 else 0)
            && AllLiterals(all) == Elements(c) + Elements(d) + AllLiterals(rest)
            && Without(all, h) == ((if h in c then [] else [c]) + (if h in d then [] else [d])) + Without(rest, h)
  {
    InFront(d, rest, h);
    InFront(c, [d] + rest, h);
  }

  lemma FirstShape(k: Crossing, l: EntryHash)
    requires k.Proper()
    ensures Coverage(k.Hard(), l) == (if l in {k.a, k.b, k.x} then 2 else if l in {k.y, k.z} then 1 else 0)
    ensures AllLiterals(k.Hard()) == {k.a, k.b, k.x, k.y, k.z}
    ensures Without(k.Hard(), k.x) == [[k.a, k.y], [k.b, k.z]]
  {
    FourClauses([k.a, k.x], [k.a, k.y], [k.b, k.x], [k.b, k.z], l);
    FourClauses([k.a, k.x], [k.a, k.y], [k.b, k.x], [k.b, k.z], k.x);
    TwoClauses([k.a, k.x], [k.a, k.y], l);
    TwoClauses([k.b, k.x], [k.b, k.z], l);
    TwoClauses([k.a, k.x], [k.a, k.y], k.x);
    TwoClauses([k.b, k.x], [k.b, k.z], k.x);
    PairFacts(k.a, k.x, k.a, k.y);
    PairFacts(k.a, k.y, k.a, k.y);
    PairFacts(k.b, k.x, k.b, k.x);
    PairFacts(k.b, k.z, k.b, k.z);
  }

  /** `x` covers as much as the dear ones do, and is cheaper. */
  lemma FirstRound(k: Crossing, sofar: Incumbent)
    requires k.Proper()
    ensures Greedy(k.Hard(), k.Prices(), sofar)
         == Greedy([[k.a, k.y], [k.b, k.z]], k.Prices(), Taking(k.Prices(), sofar, k.x))
  {
    FirstShape(k, k.x);
    forall l | l in AllLiterals(k.Hard()) && l != k.x
      ensures Preferred(k.Hard(), k.Prices(), k.x, l)
    {
      FirstShape(k, l);
    }
    GreedyTakes(k.Hard(), k.Prices(), sofar, k.x);
  }

  lemma SecondShape(k: Crossing, l: EntryHash)
    requires k.Proper()
    ensures Coverage([[k.a, k.y], [k.b, k.z]], l) == if l in {k.a, k.b, k.y, k.z} then 1 else 0
    ensures AllLiterals([[k.a, k.y], [k.b, k.z]]) == {k.a, k.b, k.y, k.z}
    ensures Without([[k.a, k.y], [k.b, k.z]], k.y) == [[k.b, k.z]]
  {
    TwoClauses([k.a, k.y], [k.b, k.z], l);
    TwoClauses([k.a, k.y], [k.b, k.z], k.y);
    PairFacts(k.a, k.y, k.a, k.y);
    PairFacts(k.b, k.z, k.b, k.z);
  }

  lemma SecondRound(k: Crossing, sofar: Incumbent)
    requires k.Proper()
    ensures Greedy([[k.a, k.y], [k.b, k.z]], k.Prices(), sofar)
         == Greedy([[k.b, k.z]], k.Prices(), Taking(k.Prices(), sofar, k.y))
  {
    var cs := [[k.a, k.y], [k.b, k.z]];
    SecondShape(k, k.y);
    forall l | l in AllLiterals(cs) && l != k.y
      ensures Preferred(cs, k.Prices(), k.y, l)
    {
      SecondShape(k, l);
    }
    GreedyTakes(cs, k.Prices(), sofar, k.y);
  }

  lemma ThirdRound(k: Crossing, sofar: Incumbent)
    requires k.Proper()
    ensures Greedy([[k.b, k.z]], k.Prices(), sofar) == Some(Taking(k.Prices(), sofar, k.z))
  {
    var cs := [[k.b, k.z]];
    assert cs == [[k.b, k.z]] + [];
    forall l ensures Coverage(cs, l) == if l in {k.b, k.z} then 1 else 0 { InFront([k.b, k.z], [], l); }
    InFront([k.b, k.z], [], k.z);
    GreedyTakes(cs, k.Prices(), sofar, k.z);
  }

  lemma TakeOne(k: Crossing, inc: Incumbent, l: EntryHash)
    requires k.Proper() && l in {k.x, k.y, k.z} && inc.cost + k.cheap <= U64_MAX
    ensures Taking(k.Prices(), inc, l) == Incumbent(inc.cut + {l}, inc.cost + k.cheap)
  {
  }

  lemma Takings(k: Crossing, none: Incumbent) returns (one: Incumbent, two: Incumbent, three: Incumbent)
    requires k.Proper() && 3 * k.cheap < U64_MAX && none == Incumbent({}, 0)
    ensures one == Taking(k.Prices(), none, k.x) && two == Taking(k.Prices(), one, k.y)
            && three == Taking(k.Prices(), two, k.z)
    ensures three == Incumbent({k.x, k.y, k.z}, 3 * k.cheap)
  {
    one := Taking(k.Prices(), none, k.x);
    TakeOne(k, none, k.x);
    two := Taking(k.Prices(), one, k.y);
    TakeOne(k, one, k.y);
    three := Taking(k.Prices(), two, k.z);
    TakeOne(k, two, k.z);
    assert three.cut == {k.x, k.y, k.z};
  }

  lemma GreedyOf(k: Crossing, none: Incumbent)
    requires k.Proper() && 3 * k.cheap < U64_MAX && none == Incumbent({}, 0)
    ensures Greedy(k.Hard(), k.Prices(), none) == Some(Incumbent({k.x, k.y, k.z}, 3 * k.cheap))
  {
    var one, two, three := Takings(k, none);
    FirstRound(k, none);
    SecondRound(k, one);
    ThirdRound(k, two);
  }

  lemma WarmStartOf(k: Crossing)
    requires k.Proper() && 3 * k.cheap < U64_MAX
    ensures WarmStart(k.Encoding()) == Incumbent({k.x, k.y, k.z}, 3 * k.cheap)
  {
    PricesOf(k);
    OrderOf(k);
    GreedyOf(k, Incumbent({}, 0));
  }

  lemma CutCost(w: Weights, a: EntryHash, b: EntryHash)
    requires a != b
    ensures Cost(w, {a, b}) == Price(w, a) + Price(w, b)
  {
    CostAdd(w, {}, a);
    CostAdd(w, {a}, b);
    assert {} + {a} == {a} && {a} + {b} == {a, b};
  }

  /** The dear pair is the only hitting set the bound allows. */
  lemma OnlySmallCut(k: Crossing, cut: set<EntryHash>)
    requires k.Proper()
    ensures HitsHard(cut, k.Hard()) && |cut| <= 2 <==> cut == {k.a, k.b}
  {
    var hard := k.Hard();
    if HitsHard(cut, hard) && |cut| <= 2 {
      assert hard[0] in hard && hard[1] in hard && hard[2] in hard && hard[3] in hard;
      assert Meets([k.a, k.x], cut) && Meets([k.a, k.y], cut) && Meets([k.b, k.x], cut) && Meets([k.b, k.z], cut);
      if k.a !in cut {
        SubsetSize({k.x, k.y, if k.b in cut then k.b else k.z}, cut);
      } else if k.b !in cut {
        SubsetSize({k.a, k.x, k.z}, cut);
      } else {
        assert cut == {k.a, k.b} + (cut - {k.a, k.b});
      }
    }
  }

  lemma Fits(n: nat)
    requires n <= U64_MAX
    ensures n % (U64_MAX + 1) == n
  {
  }

  lemma WithinBudgets(k: Crossing)
    requires k.Proper() && 5 * k.dear <= MAXSAT_BNB_MAX_COST_UNITS
    ensures !OverBudget(k.Encoding(), MAXSAT_BNB_MAX_CLAUSES, MAXSAT_BNB_MAX_COST_UNITS, MAXSAT_BNB_MAX_NODES)
  {
    PricesOf(k);
    OrderOf(k);
    TotalOf(k);
    Fits(TotalUnits(k.Prices()));
    TreeOf(k);
  }

  lemma TreeOf(k: Crossing)
    ensures TreeSize(k.Hard()) == 81
  {
    var last: seq<Clause> := [[k.b, k.z]];
    TreeInFront([k.b, k.z], []);
    TreeInFront([k.b, k.x], last);
    TreeInFront([k.a, k.y], [[k.b, k.x]] + last);
    TreeInFront([k.a, k.x], [[k.a, k.y]] + ([[k.b, k.x]] + last));
    assert last == [[k.b, k.z]] + [];
    assert k.Hard() == [[k.a, k.x]] + ([[k.a, k.y]] + ([[k.b, k.x]] + last));
  }

  lemma TreeInFront(c: Clause, rest: seq<Clause>)
    ensures TreeSize([c] + rest) == (|c| + 1) * TreeSize(rest)
  {
    assert ([c] + rest)[1..] == rest;
  }

  lemma TotalOf(k: Crossing)
    requires k.Proper()
    ensures TotalUnits(k.Prices()) == 2 * k.dear + 3 * k.cheap
  {
    var w := k.Prices();
    CutCost(w, k.a, k.b);
    CostAdd(w, {k.a, k.b}, k.x);
    CostAdd(w, {k.a, k.b} + {k.x}, k.y);
    CostAdd(w, {k.a, k.b} + {k.x} + {k.y}, k.z);
    assert w.Keys == {k.a, k.b} + {k.x} + {k.y} + {k.z};
  }

  lemma NothingBetter(k: Crossing)
    requires k.Proper()
    ensures !BetterSmallCut(k.Encoding(), 3 * k.cheap)
  {
    PricesOf(k);
    CutCost(k.Prices(), k.a, k.b);
    forall cut
      ensures HitsHard(cut, k.Hard()) && Small(cut, k.Encoding().cardinality) ==> cut == {k.a, k.b}
    {
      OnlySmallCut(k, cut);
    }
  }

  /** Every answer of the engine takes the three cheap faults. */
  lemma AnswerOf(k: Crossing, sol: MaxSatSolution)
    requires k.Proper() && 3 * k.cheap < U64_MAX && Answers(k.Encoding(), sol)
    ensures sol.cut == [k.x, k.y, k.z] && sol.totalCost == 3 * k.cheap
  {
    WarmStartOf(k);
    NothingBetter(k);
    ThreeApart(k);
    assert WarmStart(k.Encoding()) == Incumbent(Elements(sol.cut), sol.totalCost);
    AscendingUnique(sol.cut, [k.x, k.y, k.z]);
  }

  lemma ThreeApart(k: Crossing)
    requires k.Proper()
    ensures |{k.x, k.y, k.z}| == 3 && Elements([k.x, k.y, k.z]) == {k.x, k.y, k.z} && Ascending([k.x, k.y, k.z])
  {
  }

  lemma DearPairIsSmall(k: Crossing)
    requires k.Proper() && 5 * k.dear <= MAXSAT_BNB_MAX_COST_UNITS
    ensures HitsHard({k.a, k.b}, k.Hard()) && Small({k.a, k.b}, k.Encoding().cardinality)
            && !Undercuts(k.Encoding(), U64_MAX)
  {
    PricesOf(k);
    OnlySmallCut(k, {k.a, k.b});
    CutCost(k.Prices(), k.a, k.b);
    assert Cost(WeightsOf(k.Encoding().soft), {k.a, k.b}) < U64_MAX;
  }

  /** The engine answers with three faults where two are allowed, although the dear pair
      hits every clause within the bound. */
  method BoundIsIgnored(k: Crossing) returns (sol: MaxSatSolution)
    requires k.Proper() && 5 * k.dear <= MAXSAT_BNB_MAX_COST_UNITS
    ensures sol.cut == [k.x, k.y, k.z] && sol.totalCost == 3 * k.cheap
    ensures HitsHard({k.a, k.b}, k.Hard()) && Small({k.a, k.b}, k.Encoding().cardinality)
    ensures !Small(Elements(sol.cut), k.Encoding().cardinality)
  {
    var r := SolveMaxSatBnb(k.Encoding());
    WithinBudgets(k);
    DearPairIsSmall(k);
    sol := r.value;
    AnswerOf(k, sol);
    ThreeApart(k);
  }
}
