/** Priced hitting sets: costs, saturating sums, clause order and the greedy
    disjoint-clause lower bound.
 */
module HittingSets {
  import opened Journals
  import opened Ordering
  import opened Solver

  type Weights = map<EntryHash, nat>

  /** Clamp to the machine width; saturating addition is `Sat(a + b)`. */
  function Sat(n: nat): nat { if n > U64_MAX then U64_MAX else n }

  /** Literals without a weight cost one unit. */
  function Price(w: Weights, h: EntryHash): nat { if h in w then w[h] else 1 }

  function Cost(w: Weights, s: set<EntryHash>): nat {
    if s == {} then 0
    else
      var m := Least(s);
      Price(w, m) + Cost(w, s - {m})
  }

  lemma {:induction false} CostAdd(w: Weights, s: set<EntryHash>, h: EntryHash)
    requires h !in s
    ensures Cost(w, s + {h}) == Cost(w, s) + Price(w, h)
    decreases |s|
  {
    var t := s + {h};
    var m := Least(t);
    if m == h {
      assert t - {m} == s;
    } else {
      assert Least(s) == m;
      CostAdd(w, s - {m}, h);
      assert t - {m} == (s - {m}) + {h};
    }
  }

  lemma CostDrop(w: Weights, s: set<EntryHash>, h: EntryHash)
    requires h in s
    ensures Cost(w, s) == Cost(w, s - {h}) + Price(w, h)
  {
    CostAdd(w, s - {h}, h);
    assert s - {h} + {h} == s;
  }

  lemma {:induction false} CostUnion(w: Weights, a: set<EntryHash>, b: set<EntryHash>)
    requires a !! b
    ensures Cost(w, a + b) == Cost(w, a) + Cost(w, b)
    decreases |b|
  {
    if b == {} {
      assert a + b == a;
    } else {
      var h :| h in b;
      CostUnion(w, a, b - {h});
      CostDrop(w, b, h);
      CostDrop(w, a + b, h);
      assert a + b - {h} == a + (b - {h});
    }
  }

  lemma CostMonotone(w: Weights, a: set<EntryHash>, b: set<EntryHash>)
    requires a <= b
    ensures Cost(w, a) <= Cost(w, b)
  {
  }

  lemma CostMember(w: Weights, s: set<EntryHash>, h: EntryHash)
    requires h in s
    ensures Price(w, h) <= Cost(w, s)
  {
  }

  predicate Meets(c: Clause, cut: set<EntryHash>) {
    exists h :: h in c && h in cut
  }

  predicate Hits(cut: set<EntryHash>, hard: seq<Clause>) {
    forall c :: c in hard ==> Meets(c, cut)
  }

  // ----- clause order: by a key, then by length, then lexicographically

  predicate Before(key: Clause -> nat, a: Clause, b: Clause) {
    key(a) < key(b) || (key(a) == key(b) && (|a| < |b| || (|a| == |b| && LexLess(a, b))))
  }

  ghost predicate InOrder(key: Clause -> nat, cs: seq<Clause>) {
    forall i, k :: 0 <= i < k < |cs| ==> !Before(key, cs[k], cs[i])
  }

  lemma BeforeTransitive(key: Clause -> nat, a: Clause, b: Clause, c: Clause)
    requires !Before(key, b, a) && !Before(key, c, b)
    ensures !Before(key, c, a)
  {
    if Before(key, c, a) && |a| == |b| == |c| {
      LexTotal(a, b);
      LexTotal(b, c);
      if LexLess(a, b) && LexLess(b, c) { LexTransitive(a, b, c); }
      if LexLess(a, c) && LexLess(c, a) { LexTransitive(a, c, a); }
      LexIrreflexive(a);
    }
  }

  lemma BeforeAsymmetric(key: Clause -> nat, a: Clause, b: Clause)
    requires Before(key, a, b)
    ensures !Before(key, b, a)
  {
    if Before(key, b, a) {
      LexTransitive(a, b, a);
      LexIrreflexive(a);
    }
  }

  function Place(key: Clause -> nat, x: Clause, cs: seq<Clause>): (r: seq<Clause>)
    requires InOrder(key, cs)
    ensures InOrder(key, r) && multiset(r) == multiset(cs) + multiset{x}
  {
    if cs == [] then [x]
    else
      assert cs == [cs[0]] + cs[1..];
      if Before(key, cs[0], x) then
        var rest := Place(key, x, cs[1..]);
        PlaceBehind(key, cs, x, rest);
        [cs[0]] + rest
      else
        PlaceFront(key, cs, x);
        [x] + cs
  }

  lemma PlaceBehind(key: Clause -> nat, cs: seq<Clause>, x: Clause, rest: seq<Clause>)
    requires cs != [] && InOrder(key, cs) && InOrder(key, rest) && Before(key, cs[0], x)
    requires multiset(rest) == multiset(cs[1..]) + multiset{x}
    ensures InOrder(key, [cs[0]] + rest)
  {
    BeforeAsymmetric(key, cs[0], x);
    forall k | 0 <= k < |rest|
      ensures !Before(key, rest[k], cs[0])
    {
      assert rest[k] in multiset(rest);
      if rest[k] != x {
        assert rest[k] in cs[1..];
      }
    }
  }

  lemma PlaceFront(key: Clause -> nat, cs: seq<Clause>, x: Clause)
    requires cs != [] && InOrder(key, cs) && !Before(key, cs[0], x)
    ensures InOrder(key, [x] + cs)
  {
    forall k | 0 <= k < |cs|
      ensures !Before(key, cs[k], x)
    {
      if k > 0 { BeforeTransitive(key, x, cs[0], cs[k]); }
    }
  }

  function SortBy(key: Clause -> nat, cs: seq<Clause>): (r: seq<Clause>)
    ensures InOrder(key, r) && multiset(r) == multiset(cs)
  {
    if cs == [] then []
    else
      assert cs == [cs[0]] + cs[1..];
      Place(key, cs[0], SortBy(key, cs[1..]))
  }

  /** A list in order is left as it is. */
  lemma {:induction false} SortByOrdered(key: Clause -> nat, cs: seq<Clause>)
    requires InOrder(key, cs)
    ensures SortBy(key, cs) == cs
  {
    if cs != [] {
      SortByOrdered(key, cs[1..]);
      assert cs == [cs[0]] + cs[1..];
    }
  }

  // ----- the lower bound

  /** The least weight of a priced literal, or one when none is priced. */
  function ClauseMinCost(c: Clause, w: Weights): (m: nat)
    ensures forall h :: h in c && h in w ==> m <= w[h]
    ensures (exists h :: h in c && h in w) ==> exists h :: h in c && h in w && m == w[h]
    ensures !(exists h :: h in c && h in w) ==> m == 1
  {
    if c == [] then 1
    else
      var rest := ClauseMinCost(c[1..], w);
      assert forall h :: h in c <==> h == c[0] || h in c[1..];
      if c[0] !in w then
        rest
      else if exists h :: h in c[1..] && h in w then
        if w[c[0]] <= rest then w[c[0]] else rest
      else
        w[c[0]]
  }

  ghost predicate AllPriced(hard: seq<Clause>, w: Weights) {
    forall c, h :: c in hard && h in c ==> h in w
  }

  /** No clause is listed twice and no two clauses share a literal. */
  ghost predicate PairwiseDisjoint(hard: seq<Clause>) {
    && (forall c :: c in hard ==> multiset(hard)[c] == 1)
    && (forall c, d :: c in hard && d in hard && c != d ==> Elements(c) !! Elements(d))
  }

  lemma NotShared(hard: seq<Clause>, i: nat, k: nat, h: EntryHash)
    requires PairwiseDisjoint(hard) && i < k < |hard| && h in hard[i]
    ensures h !in hard[k]
  {
    assert h in Elements(hard[i]) && hard[i] in hard && hard[k] in hard;
    if hard[i] == hard[k] {
      Twice(hard, i, k);
    } else {
      assert h !in Elements(hard[k]);
    }
  }

  lemma Twice(b: seq<Clause>, i: nat, k: nat)
    requires i < k < |b| && b[i] == b[k]
    ensures multiset(b)[b[i]] >= 2
  {
    assert b == b[..i] + [b[i]] + b[i + 1..k] + [b[k]] + b[k + 1..];
  }

  /** A set that hits a clause pays at least its least weight inside it. */
  lemma ClauseShare(w: Weights, cut: set<EntryHash>, c: Clause)
    requires Meets(c, cut) && forall h :: h in c ==> h in w
    ensures Cost(w, cut * Elements(c)) >= ClauseMinCost(c, w)
  {
    var h :| h in c && h in cut;
    CostMember(w, cut * Elements(c), h);
  }

  /** Every hitting set pays `sum` inside `used`. */
  ghost predicate PaysInside(w: Weights, hard: seq<Clause>, used: set<EntryHash>, sum: nat) {
    forall cut :: Hits(cut, hard) ==> Cost(w, cut * used) >= sum
  }

  lemma PayOneMore(w: Weights, hard: seq<Clause>, used: set<EntryHash>, sum: nat, c: Clause)
    requires PaysInside(w, hard, used, sum) && c in hard && AllPriced(hard, w) && used !! Elements(c)
    ensures PaysInside(w, hard, used + Elements(c), sum + ClauseMinCost(c, w))
  {
    forall cut | Hits(cut, hard)
      ensures Cost(w, cut * (used + Elements(c))) >= sum + ClauseMinCost(c, w)
    {
      ClauseShare(w, cut, c);
      CostUnion(w, cut * used, cut * Elements(c));
      assert cut * used + cut * Elements(c) == cut * (used + Elements(c));
    }
  }

  /** A cheapest literal of a priced non-empty clause. */
  lemma CheapestIn(w: Weights, c: Clause) returns (h: EntryHash)
    requires c != [] && forall h :: h in c ==> h in w
    ensures h in c && Price(w, h) == ClauseMinCost(c, w)
  {
    assert c[0] in c;
    h :| h in c && h in w && ClauseMinCost(c, w) == w[h];
  }

  ghost predicate PricedAndNonEmpty(hard: seq<Clause>, w: Weights) {
    AllPriced(hard, w) && forall c :: c in hard ==> c != []
  }

  /** The literals of the first `i` clauses. */
  ghost function LitsOf(s: seq<Clause>, i: nat): set<EntryHash>
    requires i <= |s|
  {
    if i == 0 then {} else LitsOf(s, i - 1) + Elements(s[i - 1])
  }

  lemma {:induction false} LitsApart(s: seq<Clause>, i: nat, k: nat)
    requires PairwiseDisjoint(s) && i <= k < |s|
    ensures LitsOf(s, i) !! Elements(s[k])
  {
    if i > 0 {
      LitsApart(s, i - 1, k);
      forall h | h in Elements(s[i - 1])
        ensures h !in Elements(s[k])
      {
        NotShared(s, i - 1, k, h);
      }
    }
  }

  /** On disjoint clauses: `cheap` hits the first `i` of them at cost `sum`. */
  ghost predicate Attained(w: Weights, s: seq<Clause>, i: nat, cheap: set<EntryHash>, sum: nat)
    requires i <= |s|
  {
    && cheap <= LitsOf(s, i) && Cost(w, cheap) == sum
    && forall k :: 0 <= k < i ==> Meets(s[k], cheap)
  }

  lemma MeetsMore(c: Clause, a: set<EntryHash>, b: set<EntryHash>)
    requires Meets(c, a) && a <= b
    ensures Meets(c, b)
  {
  }

  lemma AttainOneMore(w: Weights, s: seq<Clause>, i: nat, cheap: set<EntryHash>, sum: nat)
    returns (more: set<EntryHash>)
    requires i < |s| && Attained(w, s, i, cheap, sum)
    requires s[i] != [] && (forall h :: h in s[i] ==> h in w) && PairwiseDisjoint(s)
    ensures Attained(w, s, i + 1, more, sum + ClauseMinCost(s[i], w))
  {
    LitsApart(s, i, i);
    var h := CheapestIn(w, s[i]);
    assert h in Elements(s[i]);
    CostAdd(w, cheap, h);
    more := cheap + {h};
    forall k | 0 <= k < i + 1
      ensures Meets(s[k], more)
    {
      if k < i {
        MeetsMore(s[k], cheap, more);
      } else {
        assert h in s[k] && h in more;
      }
    }
  }

  lemma PaidInAll(w: Weights, hard: seq<Clause>, used: set<EntryHash>, sum: nat)
    requires PaysInside(w, hard, used, sum)
    ensures forall cut :: Hits(cut, hard) ==> sum <= Cost(w, cut)
  {
    forall cut | Hits(cut, hard)
      ensures sum <= Cost(w, cut)
    {
      CostMonotone(w, cut * used, cut);
    }
  }

  // ----- which clauses the lower bound sums

  ghost predicate Apart(c: Clause, d: Clause) {
    forall h :: h in c ==> h !in d
  }

  /** Clause `k` shares no literal with one taken before it. */
  ghost predicate Unshared(s: seq<Clause>, taken: seq<bool>, k: nat)
    requires k < |s| && |taken| <= |s|
  {
    forall i :: 0 <= i < k && i < |taken| && taken[i] ==> Apart(s[i], s[k])
  }

  /** A clause is taken exactly when it shares no literal with one taken before. */
  ghost predicate TakenInTurn(s: seq<Clause>, taken: seq<bool>) {
    |taken| <= |s| && forall k :: 0 <= k < |taken| ==> (taken[k] <==> Unshared(s, taken, k))
  }

  ghost function TakenSum(s: seq<Clause>, w: Weights, taken: seq<bool>): nat
    requires |taken| <= |s|
  {
    if taken == [] then 0
    else
      var n := |taken| - 1;
      TakenSum(s, w, taken[..n]) + if taken[n] then ClauseMinCost(s[n], w) else 0
  }

  ghost function TakenLits(s: seq<Clause>, taken: seq<bool>): set<EntryHash>
    requires |taken| <= |s|
  {
    if taken == [] then {}
    else
      var n := |taken| - 1;
      TakenLits(s, taken[..n]) + if taken[n] then Elements(s[n]) else {}
  }

  /** The sum, at machine width, of the least prices of the clauses taken in turn, by least
      price, then length, then literals. */
  ghost predicate IsDisjointSum(hard: seq<Clause>, w: Weights, sum: nat) {
    exists s, taken ::
      && multiset(s) == multiset(hard) && InOrder((c: Clause) => ClauseMinCost(c, w), s)
      && |taken| == |s| && TakenInTurn(s, taken) && sum == Sat(TakenSum(s, w, taken))
  }

  /** So the clauses summed are pairwise disjoint, and each other clause shares a literal
      with one of them. */
  lemma TakenIsMaximal(s: seq<Clause>, taken: seq<bool>)
    requires |taken| == |s| && TakenInTurn(s, taken)
    ensures forall i, k :: 0 <= i < k < |s| && taken[i] && taken[k] ==> Apart(s[i], s[k])
    ensures forall k :: 0 <= k < |s| && !taken[k] ==> exists i :: 0 <= i < k && taken[i] && !Apart(s[i], s[k])
  {
    forall k | 0 <= k < |s| && !taken[k]
      ensures exists i :: 0 <= i < k && taken[i] && !Apart(s[i], s[k])
    {
      assert !Unshared(s, taken, k);
    }
    forall i, k | 0 <= i < k < |s| && taken[i] && taken[k]
      ensures Apart(s[i], s[k])
    {
      assert Unshared(s, taken, k);
    }
  }

  /** A clause meets the literals taken so far exactly when it shares one with a taken clause. */
  lemma {:induction false} SharedIffMet(s: seq<Clause>, taken: seq<bool>, k: nat)
    requires |taken| <= k < |s|
    ensures Meets(s[k], TakenLits(s, taken)) <==> !Unshared(s, taken, k)
    decreases |taken|
  {
    if taken != [] {
      var n := |taken| - 1;
      SharedIffMet(s, taken[..n], k);
      assert Unshared(s, taken, k) <==> Unshared(s, taken[..n], k) && (taken[n] ==> Apart(s[n], s[k]));
      assert Meets(s[k], TakenLits(s, taken)) <==>
               Meets(s[k], TakenLits(s, taken[..n])) || (taken[n] && Meets(s[k], Elements(s[n])));
      assert Meets(s[k], Elements(s[n])) <==> !Apart(s[n], s[k]);
    }
  }

  /** The choice among the first clauses, with the literals used and the sum so far. */
  ghost predicate Choosing(s: seq<Clause>, w: Weights, i: nat, taken: seq<bool>, used: set<EntryHash>, exact: nat) {
    && |taken| == i <= |s| && TakenInTurn(s, taken)
    && used == TakenLits(s, taken) && exact == TakenSum(s, w, taken)
  }

  lemma ChooseNext(s: seq<Clause>, w: Weights, i: nat, taken: seq<bool>, used: set<EntryHash>, exact: nat)
    requires i < |s| && Choosing(s, w, i, taken, used, exact)
    ensures Meets(s[i], used) ==> Choosing(s, w, i + 1, taken + [false], used, exact)
    ensures !Meets(s[i], used) ==>
              Choosing(s, w, i + 1, taken + [true], used + Elements(s[i]), exact + ClauseMinCost(s[i], w))
  {
    SharedIffMet(s, taken, i);
    var more := taken + [!Meets(s[i], used)];
    assert more[..i] == taken;
    forall k | 0 <= k < i + 1
      ensures more[k] <==> Unshared(s, more, k)
    {
      assert Unshared(s, more, k) <==> Unshared(s, taken, k);
    }
  }

  lemma Chosen(hard: seq<Clause>, w: Weights, s: seq<Clause>, taken: seq<bool>, used: set<EntryHash>, exact: nat)
    requires Choosing(s, w, |s|, taken, used, exact) && s == PriceOrder(hard, w)
    ensures IsDisjointSum(hard, w, Sat(exact))
  {
  }

  lemma {:induction false} ChoiceExists(s: seq<Clause>, w: Weights, i: nat)
    returns (taken: seq<bool>, used: set<EntryHash>, exact: nat)
    requires i <= |s|
    ensures Choosing(s, w, i, taken, used, exact)
  {
    if i == 0 {
      taken, used, exact := [], {}, 0;
    } else {
      taken, used, exact := ChoiceExists(s, w, i - 1);
      ChooseNext(s, w, i - 1, taken, used, exact);
      if Meets(s[i - 1], used) {
        taken := taken + [false];
      } else {
        taken, used, exact := taken + [true], used + Elements(s[i - 1]), exact + ClauseMinCost(s[i - 1], w);
      }
    }
  }

  lemma DisjointSumExists(hard: seq<Clause>, w: Weights) returns (sum: nat)
    ensures IsDisjointSum(hard, w, sum)
  {
    var s := PriceOrder(hard, w);
    var taken, used, exact := ChoiceExists(s, w, |s|);
    Chosen(hard, w, s, taken, used, exact);
    sum := Sat(exact);
  }

  /** The clauses from cheapest to dearest. */
  function PriceOrder(hard: seq<Clause>, w: Weights): (s: seq<Clause>)
    ensures multiset(s) == multiset(hard) && InOrder((c: Clause) => ClauseMinCost(c, w), s)
  {
    SortBy((c: Clause) => ClauseMinCost(c, w), hard)
  }

  lemma PriceOrderFacts(hard: seq<Clause>, w: Weights)
    ensures forall c :: c in PriceOrder(hard, w) <==> c in hard
    ensures PricedAndNonEmpty(hard, w) && PairwiseDisjoint(hard) ==> PairwiseDisjoint(PriceOrder(hard, w))
  {
    forall c
      ensures c in PriceOrder(hard, w) <==> c in hard
    {
      assert c in PriceOrder(hard, w) <==> c in multiset(PriceOrder(hard, w));
      assert c in hard <==> c in multiset(hard);
    }
  }

  /** The greedy pass over clauses in price order sums a clause whenever it shares no
      literal with those summed before. The sum never exceeds the cost of a hitting
      set, and on pairwise disjoint clauses some hitting set attains it. */
  method DisjointLower(hard: seq<Clause>, w: Weights) returns (sum: nat)
    ensures sum <= U64_MAX && IsDisjointSum(hard, w, sum)
    ensures AllPriced(hard, w) ==> forall cut :: Hits(cut, hard) ==> sum <= Cost(w, cut)
    ensures PricedAndNonEmpty(hard, w) && PairwiseDisjoint(hard) ==>
              exists cut :: Hits(cut, hard) && sum == Sat(Cost(w, cut))
  {
    var s := PriceOrder(hard, w);
    PriceOrderFacts(hard, w);
    ghost var used, exact, cheap, taken;
    sum, used, exact, cheap, taken := SumDisjoint(hard, s, w);
    Chosen(hard, w, s, taken, used, exact);
    TallyDone(w, hard, s, used, exact, cheap);
  }

  method SumDisjoint(ghost hard: seq<Clause>, s: seq<Clause>, w: Weights)
    returns (sum: nat, ghost used': set<EntryHash>, ghost exact: nat, ghost cheap: set<EntryHash>,
             ghost taken: seq<bool>)
    requires (forall c :: c in s ==> c in hard) && (Tight(hard, w) ==> PairwiseDisjoint(s))
    ensures sum == Sat(exact) && Tallied(w, hard, s, |s|, used', exact, cheap)
    ensures Choosing(s, w, |s|, taken, used', exact)
  {
    var used: set<EntryHash> := {};
    sum, exact, cheap, taken := 0, 0, {}, [];
    var i := 0;
    while i < |s|
      invariant 0 <= i <= |s| && sum == Sat(exact)
      invariant Tallied(w, hard, s, i, used, exact, cheap)
      invariant Choosing(s, w, i, taken, used, exact)
    {
      var c := s[i];
      assert c in s;
      ChooseNext(s, w, i, taken, used, exact);
      if Meets(c, used) {
        TallySkip(w, hard, s, i, used, exact, cheap);
        taken := taken + [false];
      } else {
        cheap := TallyTake(w, hard, s, i, used, exact, cheap);
        taken := taken + [true];
        sum := Sat(sum + ClauseMinCost(c, w));
        exact := exact + ClauseMinCost(c, w);
        used := used + Elements(c);
      }
      i := i + 1;
    }
    used' := used;
  }

  ghost predicate Tight(hard: seq<Clause>, w: Weights) {
    PricedAndNonEmpty(hard, w) && PairwiseDisjoint(hard)
  }

  /** What the first `i` clauses in price order have added up to: a price every
      hitting set pays, and on disjoint clauses one that `cheap` attains. */
  ghost predicate Tallied(w: Weights, hard: seq<Clause>, s: seq<Clause>, i: nat, used: set<EntryHash>, exact: nat,
                          cheap: set<EntryHash>)
    requires i <= |s|
  {
    && used <= LitsOf(s, i)
    && (AllPriced(hard, w) ==> PaysInside(w, hard, used, exact))
    && (Tight(hard, w) ==> Attained(w, s, i, cheap, exact))
  }

  lemma TallySkip(w: Weights, hard: seq<Clause>, s: seq<Clause>, i: nat, used: set<EntryHash>, exact: nat,
                  cheap: set<EntryHash>)
    requires i < |s| && Tallied(w, hard, s, i, used, exact, cheap) && Meets(s[i], used)
    requires Tight(hard, w) ==> PairwiseDisjoint(s)
    ensures Tallied(w, hard, s, i + 1, used, exact, cheap)
  {
    var h :| h in s[i] && h in used;
    assert h in Elements(s[i]);
    if Tight(hard, w) { LitsApart(s, i, i); }
  }

  lemma TallyTake(w: Weights, hard: seq<Clause>, s: seq<Clause>, i: nat, used: set<EntryHash>, exact: nat,
                  cheap: set<EntryHash>)
    returns (more: set<EntryHash>)
    requires i < |s| && s[i] in hard && Tallied(w, hard, s, i, used, exact, cheap)
    requires !Meets(s[i], used)
    requires Tight(hard, w) ==> PairwiseDisjoint(s)
    ensures Tallied(w, hard, s, i + 1, used + Elements(s[i]), exact + ClauseMinCost(s[i], w), more)
  {
    more := cheap;
    if AllPriced(hard, w) { PayOneMore(w, hard, used, exact, s[i]); }
    if Tight(hard, w) { more := AttainOneMore(w, s, i, cheap, exact); }
  }

  lemma TallyDone(w: Weights, hard: seq<Clause>, s: seq<Clause>, used: set<EntryHash>, exact: nat,
                  cheap: set<EntryHash>)
    requires Tallied(w, hard, s, |s|, used, exact, cheap) && forall c :: c in hard ==> c in s
    ensures AllPriced(hard, w) ==> forall cut :: Hits(cut, hard) ==> exact <= Cost(w, cut)
    ensures Tight(hard, w) ==> Hits(cheap, hard) && Cost(w, cheap) == exact
  {
    if AllPriced(hard, w) { PaidInAll(w, hard, used, exact); }
    if Tight(hard, w) { AttainedHits(w, hard, s, cheap, exact); }
  }

  lemma AttainedHits(w: Weights, hard: seq<Clause>, s: seq<Clause>, cheap: set<EntryHash>, sum: nat)
    requires Attained(w, s, |s|, cheap, sum) && forall c :: c in hard ==> c in s
    ensures Hits(cheap, hard)
  {
  }
}
