/** When refreshing a lineage index gives what a rebuild on the new witnesses would. */
module Rebuild {
  import opened Journals
  import opened WalkSpec
  import opened Lineage

  /** Refreshing an index of `before` with a superset `ws` gives a rebuild on `ws`
      exactly when every skipped witness, walked on its own, adds nothing. */
  lemma RefreshIsRebuild(j: Log, before: seq<EntryHash>, ws: seq<EntryHash>, horizon: Option<nat>)
    requires Causal(j) && forall w :: w in before ==> w in ws
    ensures var closure := WitnessClosure(j, before, horizon);
            var walked := before + Uncached(ws, closure);
            (WitnessClosure(j, walked, horizon) == WitnessClosure(j, ws, horizon)
             && FaultSets(j, walked, horizon) == FaultSets(j, ws, horizon))
            <==> forall w :: w in ws && w in closure && w !in before ==>
                   Closure(j, w, 0, horizon) <= WitnessClosure(j, walked, horizon)
                   && FaultSets(j, [w], horizon) <= FaultSets(j, walked, horizon)
  {
    var closure := WitnessClosure(j, before, horizon);
    var walked := before + Uncached(ws, closure);
    forall w | w in ws
      ensures Closure(j, w, 0, horizon) <= WitnessClosure(j, ws, horizon)
              && FaultSets(j, [w], horizon) <= FaultSets(j, ws, horizon)
    {
      WitnessMonotone(j, w, ws, horizon);
    }
    forall w | w in walked
      ensures Closure(j, w, 0, horizon) <= WitnessClosure(j, walked, horizon)
              && FaultSets(j, [w], horizon) <= FaultSets(j, walked, horizon)
    {
      WitnessMonotone(j, w, walked, horizon);
    }
    WitnessCover(j, walked, WitnessClosure(j, ws, horizon), FaultSets(j, ws, horizon), horizon);
    if forall w :: w in ws && w in closure && w !in before ==>
         Closure(j, w, 0, horizon) <= WitnessClosure(j, walked, horizon)
         && FaultSets(j, [w], horizon) <= FaultSets(j, walked, horizon)
    {
      WitnessCover(j, ws, WitnessClosure(j, walked, horizon), FaultSets(j, walked, horizon), horizon);
    }
  }

  lemma {:induction false} WitnessMonotone(j: Log, w: EntryHash, ws: seq<EntryHash>, horizon: Option<nat>)
    requires Causal(j) && w in ws
    ensures Closure(j, w, 0, horizon) <= WitnessClosure(j, ws, horizon)
    ensures FaultSets(j, [w], horizon) <= FaultSets(j, ws, horizon)
    decreases |ws|
  {
    WitnessUnion(j, [ws[0]], ws[1..], horizon);
    assert ws == [ws[0]] + ws[1..];
    if w != ws[0] {
      WitnessMonotone(j, w, ws[1..], horizon);
    } else {
      assert [w][1..] == [];
    }
  }

  lemma {:induction false} WitnessCover(j: Log, ws: seq<EntryHash>, closure: set<EntryHash>,
                                        family: set<set<EntryHash>>, horizon: Option<nat>)
    requires Causal(j)
    requires forall w :: w in ws ==> Closure(j, w, 0, horizon) <= closure && FaultSets(j, [w], horizon) <= family
    ensures WitnessClosure(j, ws, horizon) <= closure && FaultSets(j, ws, horizon) <= family
    decreases |ws|
  {
    if ws == [] {
      assert WitnessBag(j, ws, horizon) == multiset{};
    } else {
      WitnessUnion(j, [ws[0]], ws[1..], horizon);
      assert ws == [ws[0]] + ws[1..];
      assert [ws[0]][1..] == [];
      WitnessCover(j, ws[1..], closure, family, horizon);
    }
  }

  /** In particular when no further witness was cached as a mere ancestor. */
  lemma RefreshWithoutSkips(j: Log, before: seq<EntryHash>, ws: seq<EntryHash>, horizon: Option<nat>)
    requires Causal(j) && forall w :: w in before ==> w in ws
    requires forall w :: w in ws && w in WitnessClosure(j, before, horizon) ==> w in before
    ensures var walked := before + Uncached(ws, WitnessClosure(j, before, horizon));
            WitnessClosure(j, walked, horizon) == WitnessClosure(j, ws, horizon)
            && FaultSets(j, walked, horizon) == FaultSets(j, ws, horizon)
  {
    RefreshIsRebuild(j, before, ws, horizon);
  }

  // ----- without a horizon

  /** Without a horizon a refresh never loses an entry, and it equals a rebuild exactly
      when no skipped witness has a fault set of its own. */
  lemma RefreshWithoutHorizon(j: Log, before: seq<EntryHash>, ws: seq<EntryHash>)
    requires Causal(j) && forall w :: w in before ==> w in ws
    ensures var closure := WitnessClosure(j, before, None);
            var walked := before + Uncached(ws, closure);
            && WitnessClosure(j, walked, None) == WitnessClosure(j, ws, None)
            && (FaultSets(j, walked, None) == FaultSets(j, ws, None) <==>
                forall w ::
                  w in ws && w in closure && w !in before ==> FaultSets(j, [w], None) <= FaultSets(j, walked, None))
  {
    var closure := WitnessClosure(j, before, None);
    var walked := before + Uncached(ws, closure);
    WitnessUnion(j, before, Uncached(ws, closure), None);
    forall w | w in ws ensures Closure(j, w, 0, None) <= WitnessClosure(j, walked, None) {
      if w in closure {
        ClosuresWithin(j, before, |j| + 1, 0, w);
      } else {
        WitnessMonotone(j, w, walked, None);
      }
    }
    ClosureCover(j, ws, WitnessClosure(j, walked, None), None);
    forall w | w in walked
      ensures Closure(j, w, 0, None) <= WitnessClosure(j, ws, None)
    {
      WitnessMonotone(j, w, ws, None);
    }
    ClosureCover(j, walked, WitnessClosure(j, ws, None), None);
    RefreshIsRebuild(j, before, ws, None);
  }

  lemma {:induction false} ClosureCover(j: Log, ws: seq<EntryHash>, closure: set<EntryHash>, horizon: Option<nat>)
    requires Causal(j) && forall w :: w in ws ==> Closure(j, w, 0, horizon) <= closure
    ensures WitnessClosure(j, ws, horizon) <= closure
    decreases |ws|
  {
    if ws != [] {
      assert ws[0] in ws;
      ClosureCover(j, ws[1..], closure, horizon);
    }
  }

  // ----- witnesses reached silently

  /** `w` is `n` parent steps behind `v`, through entries no fault can be injected at. */
  ghost predicate Silently(j: Log, v: EntryHash, w: EntryHash, n: nat)
    decreases n
  {
    if n == 0 then v == w
    else
      && Present(j, v) && !IsFaultable(Get(j, v).kind)
      && exists p :: p in Get(j, v).parents && Silently(j, p, w, n - 1)
  }

  /** What is left of a horizon after `n` steps. */
  function Less(horizon: Option<nat>, n: nat): Option<nat>
    requires horizon.Some? ==> n <= horizon.value
  {
    if horizon.Some? then Some(horizon.value - n) else None
  }

  /** Starting deeper is the same as having a nearer horizon. */
  lemma {:induction false} DerivationShift(j: Log, h: EntryHash, chain: seq<EntryHash>, depth: nat, n: nat,
                                           horizon: Option<nat>)
    requires horizon.Some? ==> n <= horizon.value
    ensures IsDerivation(j, h, chain, depth + n, horizon) <==> IsDerivation(j, h, chain, depth, Less(horizon, n))
    decreases chain
  {
    if !Beyond(depth + n, horizon) && Present(j, h) && chain != [] && Get(j, h).parents != [] {
      forall p | p in Get(j, h).parents
        ensures IsDerivation(j, p, chain[1..], depth + 1 + n, horizon) <==>
                  IsDerivation(j, p, chain[1..], depth + 1, Less(horizon, n))
      {
        DerivationShift(j, p, chain[1..], depth + 1, n, horizon);
      }
      assert depth + n + 1 == depth + 1 + n;
    }
  }

  /** A derivation from `w` extends to one from `v` with the same faultable entries. */
  lemma {:induction false} SilentChain(j: Log, v: EntryHash, w: EntryHash, n: nat, depth: nat, horizon: Option<nat>,
                                       chain: seq<EntryHash>)
    returns (longer: seq<EntryHash>)
    requires Silently(j, v, w, n) && IsDerivation(j, w, chain, depth + n, horizon)
             && (horizon.Some? ==> depth + n <= horizon.value)
    ensures IsDerivation(j, v, longer, depth, horizon) && FaultableIn(j, longer) == FaultableIn(j, chain)
    decreases n
  {
    longer := chain;
    if n > 0 {
      var p :| p in Get(j, v).parents && Silently(j, p, w, n - 1);
      var rest := SilentChain(j, p, w, n - 1, depth + 1, horizon, chain);
      longer := [v] + rest;
      ExtendsDerivation(j, v, p, rest, depth, horizon, []);
      assert forall h :: h in longer <==> h == v || h in rest;
    }
  }

  /** A witness reached silently adds no fault set that the nearer horizon does not show. */
  lemma SilentCovers(j: Log, v: EntryHash, w: EntryHash, n: nat, horizon: Option<nat>)
    requires Causal(j) && Silently(j, v, w, n) && (horizon.Some? ==> n <= horizon.value)
    ensures FaultSets(j, [w], Less(horizon, n)) <= FaultSets(j, [v], horizon)
  {
    forall s | s in FaultSets(j, [w], Less(horizon, n))
      ensures s in FaultSets(j, [v], horizon)
    {
      SilentCoversOne(j, v, w, n, horizon, s);
    }
  }

  lemma SilentCoversOne(j: Log, v: EntryHash, w: EntryHash, n: nat, horizon: Option<nat>, s: set<EntryHash>)
    requires Causal(j) && Silently(j, v, w, n) && (horizon.Some? ==> n <= horizon.value)
    requires s in FaultSets(j, [w], Less(horizon, n))
    ensures s in FaultSets(j, [v], horizon)
  {
    var chain := ChainOf(j, w, Less(horizon, n), s);
    DerivationShift(j, w, chain, 0, n, horizon);
    var longer := SilentChain(j, v, w, n, 0, horizon, chain);
    ChainCounts(j, v, horizon, longer);
  }

  lemma ChainOf(j: Log, w: EntryHash, horizon: Option<nat>, s: set<EntryHash>) returns (chain: seq<EntryHash>)
    requires Causal(j) && s in FaultSets(j, [w], horizon)
    ensures s != {} && IsDerivation(j, w, chain, 0, horizon) && s == FaultableIn(j, chain)
  {
    FaultSetsAreDerivations(j, [w], horizon, s);
    var u, c :| u in [w] && IsDerivation(j, u, c, 0, horizon) && s == FaultableIn(j, c);
    chain := c;
  }

  lemma ChainCounts(j: Log, w: EntryHash, horizon: Option<nat>, chain: seq<EntryHash>)
    requires Causal(j) && IsDerivation(j, w, chain, 0, horizon) && FaultableIn(j, chain) != {}
    ensures FaultableIn(j, chain) in FaultSets(j, [w], horizon)
  {
    assert w in [w];
    FaultSetsAreDerivations(j, [w], horizon, FaultableIn(j, chain));
  }

  /** Without a horizon: a refresh equals a rebuild when every skipped witness lies behind
      a walked one through entries no fault can be injected at. */
  lemma SilentRefresh(j: Log, before: seq<EntryHash>, ws: seq<EntryHash>)
    requires Causal(j) && forall w :: w in before ==> w in ws
    requires forall w :: w in ws && w in WitnessClosure(j, before, None) && w !in before ==> SilentFrom(j, before, w)
    ensures var walked := before + Uncached(ws, WitnessClosure(j, before, None));
            WitnessClosure(j, walked, None) == WitnessClosure(j, ws, None)
            && FaultSets(j, walked, None) == FaultSets(j, ws, None)
  {
    var closure := WitnessClosure(j, before, None);
    var walked := before + Uncached(ws, closure);
    RefreshWithoutHorizon(j, before, ws);
    forall w | w in ws && w in closure && w !in before ensures FaultSets(j, [w], None) <= FaultSets(j, walked, None) {
      var v, n: nat :| v in before && Silently(j, v, w, n);
      SilentCovers(j, v, w, n, None);
      WitnessMonotone(j, v, walked, None);
    }
  }

  ghost predicate SilentFrom(j: Log, before: seq<EntryHash>, w: EntryHash) {
    exists v, n: nat :: v in before && Silently(j, v, w, n)
  }

  // ----- what a horizon changes

  /** A walk that is not cut finds the same with any farther horizon. */
  lemma {:induction false} UncutSame(j: Log, h: EntryHash, d: nat, near: nat, far: nat, chain: seq<EntryHash>)
    requires Causal(j) && !IsCut(j, h, d, Some(near)) && near <= far
    ensures IsDerivation(j, h, chain, d, Some(near)) <==> IsDerivation(j, h, chain, d, Some(far))
    ensures Closure(j, h, d, Some(near)) == Closure(j, h, d, Some(far))
    decreases Rank(j, h), 1, 0
  {
    if Present(j, h) {
      ParentsBelow(j, h);
      UncutParents(j, Get(j, h).parents, Rank(j, h), d + 1, near, far, if chain == [] then [] else chain[1..]);
    }
  }

  lemma {:induction false} UncutParents(j: Log, hs: seq<EntryHash>, bound: nat, d: nat, near: nat, far: nat,
                                        chain: seq<EntryHash>)
    requires Causal(j) && (forall h :: h in hs ==> Rank(j, h) < bound) && !AnyCut(j, hs, bound, d, Some(near))
             && near <= far
    ensures forall p ::
              p in hs ==> (IsDerivation(j, p, chain, d, Some(near)) <==> IsDerivation(j, p, chain, d, Some(far)))
    ensures Closures(j, hs, bound, d, Some(near)) == Closures(j, hs, bound, d, Some(far))
    decreases bound, 0, |hs|
  {
    if hs != [] {
      UncutSame(j, hs[0], d, near, far, chain);
      UncutParents(j, hs[1..], bound, d, near, far, chain);
      assert forall p :: p in hs <==> p == hs[0] || p in hs[1..];
    }
  }

  lemma UncutSets(j: Log, w: EntryHash, near: nat, far: nat)
    requires Causal(j) && !IsCut(j, w, 0, Some(near)) && near <= far
    ensures FaultSets(j, [w], Some(far)) <= FaultSets(j, [w], Some(near))
  {
    forall s | s in FaultSets(j, [w], Some(far)) ensures s in FaultSets(j, [w], Some(near)) {
      var chain := ChainOf(j, w, Some(far), s);
      UncutSame(j, w, 0, near, far, chain);
      ChainCounts(j, w, Some(near), chain);
    }
  }

  /** Starting deeper is having a nearer horizon, for the closure as well. */
  lemma {:induction false} ClosureShift(j: Log, h: EntryHash, d: nat, n: nat, far: nat)
    requires Causal(j) && n <= far
    ensures Closure(j, h, d + n, Some(far)) == Closure(j, h, d, Some(far - n))
    decreases Rank(j, h), 1, 0
  {
    if Present(j, h) { ClosuresShift(j, Get(j, h).parents, Rank(j, h), d + 1, n, far); }
  }

  lemma {:induction false} ClosuresShift(j: Log, hs: seq<EntryHash>, bound: nat, d: nat, n: nat, far: nat)
    requires Causal(j) && (forall h :: h in hs ==> Rank(j, h) < bound) && n <= far
    ensures Closures(j, hs, bound, d + n, Some(far)) == Closures(j, hs, bound, d, Some(far - n))
    decreases bound, 0, |hs|
  {
    if hs != [] {
      ClosureShift(j, hs[0], d, n, far);
      ClosuresShift(j, hs[1..], bound, d, n, far);
    }
  }

  lemma {:induction false} SilentClosure(j: Log, v: EntryHash, w: EntryHash, n: nat, d: nat, far: nat)
    requires Causal(j) && Silently(j, v, w, n) && d + n <= far
    ensures Closure(j, w, d + n, Some(far)) <= Closure(j, v, d, Some(far))
    decreases n
  {
    if n > 0 {
      var p :| p in Get(j, v).parents && Silently(j, p, w, n - 1);
      SilentClosure(j, p, w, n - 1, d + 1, far);
      ParentClosure(j, v, p, d, far);
      SubsetChain(Closure(j, w, d + n, Some(far)), Closure(j, p, d + 1, Some(far)), Closure(j, v, d, Some(far)));
    }
  }

  lemma SubsetChain(a: set<EntryHash>, b: set<EntryHash>, c: set<EntryHash>)
    requires a <= b <= c
    ensures a <= c
  {
  }

  lemma ParentClosure(j: Log, v: EntryHash, p: EntryHash, d: nat, far: nat)
    requires Causal(j) && Present(j, v) && p in Get(j, v).parents && d <= far
    ensures Closure(j, p, d + 1, Some(far)) <= Closure(j, v, d, Some(far))
  {
    ParentsBelow(j, v);
    ClosureHolds(j, Get(j, v).parents, Rank(j, v), d + 1, Some(far), p);
  }

  /** `w` lies silently behind a walked witness, near enough that all its derivations end
      before the horizon is reached from there. */
  ghost predicate SilentWithin(j: Log, before: seq<EntryHash>, w: EntryHash, far: nat)
    requires Causal(j)
  {
    exists v, n: nat :: v in before && n <= far && Silently(j, v, w, n) && !IsCut(j, w, 0, Some(far - n))
  }

  /** Under a horizon the skipped witnesses must also be walked out before it cuts. */
  lemma SilentRefreshWithin(j: Log, before: seq<EntryHash>, ws: seq<EntryHash>, far: nat)
    requires Causal(j) && forall w :: w in before ==> w in ws
    requires forall w ::
               w in ws && w in WitnessClosure(j, before, Some(far)) && w !in before ==> SilentWithin(j, before, w, far)
    ensures var walked := before + Uncached(ws, WitnessClosure(j, before, Some(far)));
            && WitnessClosure(j, walked, Some(far)) == WitnessClosure(j, ws, Some(far))
            && FaultSets(j, walked, Some(far)) == FaultSets(j, ws, Some(far))
  {
    var closure := WitnessClosure(j, before, Some(far));
    var walked := before + Uncached(ws, closure);
    forall w | w in ws && w in closure && w !in before
      ensures Closure(j, w, 0, Some(far)) <= WitnessClosure(j, walked, Some(far))
              && FaultSets(j, [w], Some(far)) <= FaultSets(j, walked, Some(far))
    {
      var v, n: nat :| v in before && n <= far && Silently(j, v, w, n) && !IsCut(j, w, 0, Some(far - n));
      SilentAdds(j, v, w, n, far);
      WitnessMonotone(j, v, walked, Some(far));
    }
    RefreshIsRebuild(j, before, ws, Some(far));
  }

  lemma SilentAdds(j: Log, v: EntryHash, w: EntryHash, n: nat, far: nat)
    requires Causal(j) && n <= far && Silently(j, v, w, n) && !IsCut(j, w, 0, Some(far - n))
    ensures Closure(j, w, 0, Some(far)) <= Closure(j, v, 0, Some(far))
            && FaultSets(j, [w], Some(far)) <= FaultSets(j, [v], Some(far))
  {
    SilentCovers(j, v, w, n, Some(far));
    UncutSets(j, w, far - n, far);
    UncutSame(j, w, 0, far - n, far, []);
    ClosureShift(j, w, 0, n, far);
    SilentClosure(j, v, w, n, 0, far);
  }
}
