/** The exact condition, read off the journal's graph, under which refreshing a lineage
    index gives what a rebuild would. A derivation is decided by its front, the first
    entry on it that a fault can be injected at, and by the horizon left behind it.
 */
module Fronts {
  import opened Journals
  import opened Ordering
  import opened WalkSpec
  import opened Lineage
  import opened Rebuild
  import opened Solver
  import Keys

  /** `f` is the first faultable entry on some way back from `w`, `n` steps away. */
  ghost predicate FrontAt(j: Log, w: EntryHash, f: EntryHash, n: nat, horizon: Option<nat>) {
    && Present(j, f) && IsFaultable(Get(j, f).kind) && Silently(j, w, f, n)
    && (horizon.Some? ==> n <= horizon.value)
  }

  /** The front of a chain and the rest of the chain from there on. */
  lemma {:induction false} FrontOfChain(j: Log, w: EntryHash, chain: seq<EntryHash>, depth: nat, horizon: Option<nat>)
    returns (f: EntryHash, n: nat, rest: seq<EntryHash>)
    requires IsDerivation(j, w, chain, depth, horizon) && FaultableIn(j, chain) != {}
    ensures Present(j, f) && IsFaultable(Get(j, f).kind) && Silently(j, w, f, n)
    ensures !Beyond(depth + n, horizon) && IsDerivation(j, f, rest, depth + n, horizon)
    ensures FaultableIn(j, rest) == FaultableIn(j, chain)
    decreases chain
  {
    if IsFaultable(Get(j, w).kind) {
      f, n, rest := w, 0, chain;
    } else {
      var p := SilentStep(j, w, chain, depth, horizon);
      f, n, rest := FrontOfChain(j, p, chain[1..], depth + 1, horizon);
      n := n + 1;
    }
  }

  lemma SilentStep(j: Log, w: EntryHash, chain: seq<EntryHash>, depth: nat, horizon: Option<nat>)
    returns (p: EntryHash)
    requires IsDerivation(j, w, chain, depth, horizon) && FaultableIn(j, chain) != {}
    requires Present(j, w) && !IsFaultable(Get(j, w).kind)
    ensures chain != [] && p in Get(j, w).parents && IsDerivation(j, p, chain[1..], depth + 1, horizon)
    ensures FaultableIn(j, chain[1..]) == FaultableIn(j, chain)
  {
    assert forall h :: h in chain <==> h == w || h in chain[1..];
    p :| p in Get(j, w).parents && IsDerivation(j, p, chain[1..], depth + 1, horizon);
  }

  /** Every fault set of a witness is one of a front, with the horizon left there. */
  lemma FrontOf(j: Log, w: EntryHash, horizon: Option<nat>, s: set<EntryHash>) returns (f: EntryHash, n: nat)
    requires Causal(j) && s in FaultSets(j, [w], horizon)
    ensures FrontAt(j, w, f, n, horizon) && s in FaultSets(j, [f], Less(horizon, n))
  {
    var chain := ChainOf(j, w, horizon, s);
    var rest;
    f, n, rest := FrontOfChain(j, w, chain, 0, horizon);
    DeeperCounts(j, f, rest, n, horizon);
  }

  lemma DeeperCounts(j: Log, f: EntryHash, chain: seq<EntryHash>, n: nat, horizon: Option<nat>)
    requires Causal(j) && IsDerivation(j, f, chain, n, horizon) && FaultableIn(j, chain) != {}
    requires horizon.Some? ==> n <= horizon.value
    ensures FaultableIn(j, chain) in FaultSets(j, [f], Less(horizon, n))
  {
    DerivationShift(j, f, chain, 0, n, horizon);
    ChainCounts(j, f, Less(horizon, n), chain);
  }

  /** Nothing on a derivation is later than where it starts. */
  lemma {:induction false} StartIsLatest(j: Log, h: EntryHash, chain: seq<EntryHash>, depth: nat, horizon: Option<nat>)
    requires Causal(j) && IsDerivation(j, h, chain, depth, horizon)
    ensures forall x :: x in chain ==> Rank(j, x) <= Rank(j, h)
    decreases chain
  {
    if !Beyond(depth, horizon) && Get(j, h).parents != [] {
      var p :| p in Get(j, h).parents && IsDerivation(j, p, chain[1..], depth + 1, horizon);
      StartIsLatest(j, p, chain[1..], depth + 1, horizon);
      ParentRank(j, h, p);
      assert forall x :: x in chain <==> x == h || x in chain[1..];
    }
  }

  /** A faultable entry is the latest member of each of its fault sets. */
  lemma FrontIsLatest(j: Log, f: EntryHash, horizon: Option<nat>, s: set<EntryHash>)
    requires Causal(j) && Present(j, f) && IsFaultable(Get(j, f).kind) && s in FaultSets(j, [f], horizon)
    ensures f in s && forall x :: x in s ==> Present(j, x) && Rank(j, x) <= Rank(j, f)
  {
    var chain := ChainOf(j, f, horizon, s);
    StartIsLatest(j, f, chain, 0, horizon);
    assert f in chain;
  }

  /** So a fault set tells its front. */
  lemma OneFront(j: Log, f: EntryHash, g: EntryHash, a: Option<nat>, b: Option<nat>, s: set<EntryHash>)
    requires Causal(j) && s in FaultSets(j, [f], a) && s in FaultSets(j, [g], b)
    requires Present(j, f) && IsFaultable(Get(j, f).kind) && Present(j, g) && IsFaultable(Get(j, g).kind)
    ensures f == g
  {
    FrontIsLatest(j, f, a, s);
    FrontIsLatest(j, g, b, s);
  }

  lemma SomeWitness(j: Log, ws: seq<EntryHash>, horizon: Option<nat>, s: set<EntryHash>) returns (v: EntryHash)
    requires Causal(j) && s in FaultSets(j, ws, horizon)
    ensures v in ws && s in FaultSets(j, [v], horizon)
  {
    FaultSetsAreDerivations(j, ws, horizon, s);
    var u, chain :| u in ws && IsDerivation(j, u, chain, 0, horizon) && s == FaultableIn(j, chain);
    v := u;
    ChainCounts(j, v, horizon, chain);
  }

  // ----- what a list of witnesses shows of a front

  /** Some listed witness has the front `f` with enough horizon left to show `s` there. */
  ghost predicate Shows(j: Log, vs: seq<EntryHash>, f: EntryHash, horizon: Option<nat>, s: set<EntryHash>)
    requires Causal(j)
  {
    exists v, m: nat :: v in vs && FrontAt(j, v, f, m, horizon) && s in FaultSets(j, [f], Less(horizon, m))
  }

  /** A fault set of a front is collected exactly when some witness shows it. */
  lemma CollectedIffShown(j: Log, vs: seq<EntryHash>, f: EntryHash, horizon: Option<nat>, near: Option<nat>,
                          s: set<EntryHash>)
    requires Causal(j) && Present(j, f) && IsFaultable(Get(j, f).kind) && s in FaultSets(j, [f], near)
    ensures s in FaultSets(j, vs, horizon) <==> Shows(j, vs, f, horizon, s)
  {
    if s in FaultSets(j, vs, horizon) {
      var v := SomeWitness(j, vs, horizon, s);
      var g, m := FrontOf(j, v, horizon, s);
      OneFront(j, f, g, near, Less(horizon, m), s);
    }
    if Shows(j, vs, f, horizon, s) {
      var v, m: nat :| v in vs && FrontAt(j, v, f, m, horizon) && s in FaultSets(j, [f], Less(horizon, m));
      SilentCovers(j, v, f, m, horizon);
      WitnessMonotone(j, v, vs, horizon);
    }
  }

  /** Whatever `w` shows of its fronts, some witness in `vs` shows too. */
  ghost predicate FrontsShown(j: Log, w: EntryHash, vs: seq<EntryHash>, horizon: Option<nat>)
    requires Causal(j)
  {
    forall f, n: nat, s ::
      FrontAt(j, w, f, n, horizon) && s in FaultSets(j, [f], Less(horizon, n)) ==> Shows(j, vs, f, horizon, s)
  }

  lemma CoveredIffShown(j: Log, w: EntryHash, vs: seq<EntryHash>, horizon: Option<nat>)
    requires Causal(j)
    ensures FaultSets(j, [w], horizon) <= FaultSets(j, vs, horizon) <==> FrontsShown(j, w, vs, horizon)
  {
    if FrontsShown(j, w, vs, horizon) {
      forall s | s in FaultSets(j, [w], horizon)
        ensures s in FaultSets(j, vs, horizon)
      {
        var f, n := FrontOf(j, w, horizon, s);
        CollectedIffShown(j, vs, f, horizon, Less(horizon, n), s);
      }
    } else {
      var f, n: nat, s :| FrontAt(j, w, f, n, horizon) && s in FaultSets(j, [f], Less(horizon, n))
                          && !Shows(j, vs, f, horizon, s);
      SilentCovers(j, w, f, n, horizon);
      CollectedIffShown(j, vs, f, horizon, Less(horizon, n), s);
    }
  }

  // ----- the closure, by distance

  /** `h` is `n` parent steps behind `w`. */
  ghost predicate Reaches(j: Log, w: EntryHash, h: EntryHash, n: nat)
    decreases n
  {
    Present(j, w) && if n == 0 then w == h else exists p :: p in Get(j, w).parents && Reaches(j, p, h, n - 1)
  }

  /** `h` is so near behind `w`, which itself is `depth` steps from where a walk started,
      that the horizon does not hide it. */
  ghost predicate Near(j: Log, w: EntryHash, h: EntryHash, depth: nat, horizon: Option<nat>) {
    exists n: nat :: Reaches(j, w, h, n) && !Beyond(depth + n, horizon)
  }

  lemma {:induction false} ReachedIsInClosure(j: Log, w: EntryHash, h: EntryHash, n: nat, depth: nat,
                                              horizon: Option<nat>)
    requires Causal(j) && Reaches(j, w, h, n) && !Beyond(depth + n, horizon)
    ensures h in Closure(j, w, depth, horizon)
    decreases n
  {
    if n > 0 {
      var p :| p in Get(j, w).parents && Reaches(j, p, h, n - 1);
      ReachedIsInClosure(j, p, h, n - 1, depth + 1, horizon);
      ParentsBelow(j, w);
      ClosureHolds(j, Get(j, w).parents, Rank(j, w), depth + 1, horizon, p);
    }
  }

  lemma {:induction false} ClosureIsReached(j: Log, w: EntryHash, h: EntryHash, depth: nat, horizon: Option<nat>)
    requires Causal(j) && h in Closure(j, w, depth, horizon)
    ensures Near(j, w, h, depth, horizon)
    decreases Rank(j, w), 1, 0
  {
    if w == h {
      assert Reaches(j, w, h, 0);
    } else {
      ParentsBelow(j, w);
      var p := ClosuresAreReached(j, Get(j, w).parents, Rank(j, w), h, depth + 1, horizon);
      var n: nat :| Reaches(j, p, h, n) && !Beyond(depth + 1 + n, horizon);
      assert Reaches(j, w, h, n + 1);
    }
  }

  lemma {:induction false} ClosuresAreReached(j: Log, hs: seq<EntryHash>, bound: nat, h: EntryHash, depth: nat,
                                              horizon: Option<nat>)
    returns (p: EntryHash)
    requires Causal(j) && forall x :: x in hs ==> Rank(j, x) < bound
    requires h in Closures(j, hs, bound, depth, horizon)
    ensures p in hs && Near(j, p, h, depth, horizon)
    decreases bound, 0, |hs|
  {
    if h in Closure(j, hs[0], depth, horizon) {
      p := hs[0];
      ClosureIsReached(j, p, h, depth, horizon);
    } else {
      p := ClosuresAreReached(j, hs[1..], bound, h, depth, horizon);
    }
  }

  ghost predicate NearSome(j: Log, vs: seq<EntryHash>, h: EntryHash, horizon: Option<nat>) {
    exists v :: v in vs && Near(j, v, h, 0, horizon)
  }

  /** Whatever is near `w` is near some witness in `vs`. */
  ghost predicate ReachCovered(j: Log, w: EntryHash, vs: seq<EntryHash>, horizon: Option<nat>) {
    forall h :: Near(j, w, h, 0, horizon) ==> NearSome(j, vs, h, horizon)
  }

  lemma ClosureIffNear(j: Log, vs: seq<EntryHash>, h: EntryHash, horizon: Option<nat>)
    requires Causal(j)
    ensures h in WitnessClosure(j, vs, horizon) <==> NearSome(j, vs, h, horizon)
  {
    if h in WitnessClosure(j, vs, horizon) {
      var v := ClosuresAreReached(j, vs, |j| + 1, h, 0, horizon);
    }
    if NearSome(j, vs, h, horizon) {
      var v :| v in vs && Near(j, v, h, 0, horizon);
      var n: nat :| Reaches(j, v, h, n) && !Beyond(0 + n, horizon);
      ReachedIsInClosure(j, v, h, n, 0, horizon);
      WitnessMonotone(j, v, vs, horizon);
    }
  }

  lemma ReachIffCovered(j: Log, w: EntryHash, vs: seq<EntryHash>, horizon: Option<nat>)
    requires Causal(j)
    ensures Closure(j, w, 0, horizon) <= WitnessClosure(j, vs, horizon) <==> ReachCovered(j, w, vs, horizon)
  {
    forall h
      ensures h in Closure(j, w, 0, horizon) <==> Near(j, w, h, 0, horizon)
    {
      if h in Closure(j, w, 0, horizon) { ClosureIsReached(j, w, h, 0, horizon); }
      if Near(j, w, h, 0, horizon) {
        var n: nat :| Reaches(j, w, h, n) && !Beyond(0 + n, horizon);
        ReachedIsInClosure(j, w, h, n, 0, horizon);
      }
    }
    forall h ensures h in WitnessClosure(j, vs, horizon) <==> NearSome(j, vs, h, horizon) {
      ClosureIffNear(j, vs, h, horizon);
    }
  }

  // ----- without a horizon only the fronts matter

  /** Some way back from `f` ends at an entry without parents. */
  ghost predicate Derivable(j: Log, f: EntryHash) {
    exists chain :: IsDerivation(j, f, chain, 0, None)
  }

  /** `f` is a first faultable entry behind `w`. */
  ghost predicate Front(j: Log, w: EntryHash, f: EntryHash) {
    Derivable(j, f) && exists n: nat :: FrontAt(j, w, f, n, None)
  }

  ghost predicate FrontIn(j: Log, vs: seq<EntryHash>, f: EntryHash) {
    exists v :: v in vs && Front(j, v, f)
  }

  /** Every front of `w` is a front of some witness in `vs`. */
  ghost predicate FrontsCovered(j: Log, w: EntryHash, vs: seq<EntryHash>) {
    forall f :: Front(j, w, f) ==> FrontIn(j, vs, f)
  }

  lemma FrontHasSet(j: Log, f: EntryHash) returns (s: set<EntryHash>)
    requires Causal(j) && Present(j, f) && IsFaultable(Get(j, f).kind) && Derivable(j, f)
    ensures s in FaultSets(j, [f], None)
  {
    var chain :| IsDerivation(j, f, chain, 0, None);
    s := FaultableIn(j, chain);
    assert f in s;
    ChainCounts(j, f, None, chain);
  }

  lemma SetHasDerivation(j: Log, f: EntryHash, s: set<EntryHash>)
    requires Causal(j) && s in FaultSets(j, [f], None)
    ensures Derivable(j, f)
  {
    var chain := ChainOf(j, f, None, s);
  }

  lemma CoveredIffFronts(j: Log, w: EntryHash, vs: seq<EntryHash>)
    requires Causal(j)
    ensures FaultSets(j, [w], None) <= FaultSets(j, vs, None) <==> FrontsCovered(j, w, vs)
  {
    CoveredIffShown(j, w, vs, None);
    if FrontsShown(j, w, vs, None) {
      forall f | Front(j, w, f)
        ensures FrontIn(j, vs, f)
      {
        var n: nat :| FrontAt(j, w, f, n, None);
        var s := FrontHasSet(j, f);
        assert s in FaultSets(j, [f], Less(None, n));
        assert Shows(j, vs, f, None, s);
      }
    }
    if FrontsCovered(j, w, vs) {
      forall f, n: nat, s | FrontAt(j, w, f, n, None) && s in FaultSets(j, [f], None)
        ensures Shows(j, vs, f, None, s)
      {
        SetHasDerivation(j, f, s);
        assert Front(j, w, f);
        var v :| v in vs && Front(j, v, f);
      }
    }
  }

  /** In a journal that was only ever appended to, every recorded entry is derivable. */
  lemma {:induction false} ClosedIsDerivable(j: Log, f: EntryHash) returns (chain: seq<EntryHash>)
    requires Causal(j) && ParentClosed(j) && Present(j, f)
    ensures IsDerivation(j, f, chain, 0, None) && Derivable(j, f)
    decreases Rank(j, f)
  {
    if Get(j, f).parents == [] {
      chain := [f];
    } else {
      var p := Get(j, f).parents[0];
      ParentRank(j, f, p);
      var rest := ClosedIsDerivable(j, p);
      chain := OneMore(j, f, p, rest);
    }
    assert IsDerivation(j, f, chain, 0, None);
  }

  lemma OneMore(j: Log, h: EntryHash, p: EntryHash, rest: seq<EntryHash>) returns (chain: seq<EntryHash>)
    requires Present(j, h) && p in Get(j, h).parents && IsDerivation(j, p, rest, 0, None)
    ensures IsDerivation(j, h, chain, 0, None)
  {
    DerivationShift(j, p, rest, 0, 1, None);
    ExtendsDerivation(j, h, p, rest, 0, None, []);
    chain := [h] + rest;
  }

  /** There the fronts are just the first faultable entries on the ways back. */
  lemma ClosedFront(j: Log, w: EntryHash, f: EntryHash)
    requires Causal(j) && ParentClosed(j)
    ensures Front(j, w, f) <==>
              Present(j, f) && IsFaultable(Get(j, f).kind) && exists n: nat :: Silently(j, w, f, n)
  {
    if Present(j, f) && IsFaultable(Get(j, f).kind) && exists n: nat :: Silently(j, w, f, n) {
      var chain := ClosedIsDerivable(j, f);
      var n: nat :| Silently(j, w, f, n);
      assert FrontAt(j, w, f, n, None);
    }
    if Front(j, w, f) {
      var n: nat :| FrontAt(j, w, f, n, None);
      assert Silently(j, w, f, n);
    }
  }

  // ----- refresh against rebuild

  /** The witnesses that a refresh skips although they were not indexed. */
  ghost predicate Skipped(j: Log, before: seq<EntryHash>, ws: seq<EntryHash>, horizon: Option<nat>, w: EntryHash)
    requires Causal(j)
  {
    w in ws && w in WitnessClosure(j, before, horizon) && w !in before
  }

  ghost predicate SkipsCovered(j: Log, before: seq<EntryHash>, ws: seq<EntryHash>)
    requires Causal(j)
  {
    var walked := before + Uncached(ws, WitnessClosure(j, before, None));
    forall w :: Skipped(j, before, ws, None, w) ==> FrontsCovered(j, w, walked)
  }

  /** Without a horizon, refreshing an index of `before` with a superset `ws` never loses an
      entry, and equals a rebuild on `ws` exactly when each first faultable entry behind a
      skipped witness is a first faultable entry behind a walked one. */
  lemma RefreshIffFronts(j: Log, before: seq<EntryHash>, ws: seq<EntryHash>)
    requires Causal(j) && forall w :: w in before ==> w in ws
    ensures var walked := before + Uncached(ws, WitnessClosure(j, before, None));
            && WitnessClosure(j, walked, None) == WitnessClosure(j, ws, None)
            && (FaultSets(j, walked, None) == FaultSets(j, ws, None) <==> SkipsCovered(j, before, ws))
  {
    var walked := before + Uncached(ws, WitnessClosure(j, before, None));
    RefreshWithoutHorizon(j, before, ws);
    forall w
      ensures FaultSets(j, [w], None) <= FaultSets(j, walked, None) <==> FrontsCovered(j, w, walked)
    {
      CoveredIffFronts(j, w, walked);
    }
  }

  /** With any horizon it does exactly when, for each skipped witness, all that is near it
      is near a walked one, and all that its fronts show the fronts of walked ones show. */
  lemma RefreshIffShown(j: Log, before: seq<EntryHash>, ws: seq<EntryHash>, horizon: Option<nat>)
    requires Causal(j) && forall w :: w in before ==> w in ws
    ensures var walked := before + Uncached(ws, WitnessClosure(j, before, horizon));
            (WitnessClosure(j, walked, horizon) == WitnessClosure(j, ws, horizon)
             && FaultSets(j, walked, horizon) == FaultSets(j, ws, horizon))
            <==> forall w :: Skipped(j, before, ws, horizon, w) ==>
                   ReachCovered(j, w, walked, horizon) && FrontsShown(j, w, walked, horizon)
  {
    var walked := before + Uncached(ws, WitnessClosure(j, before, horizon));
    RefreshIsRebuild(j, before, ws, horizon);
    forall w
      ensures FaultSets(j, [w], horizon) <= FaultSets(j, walked, horizon) <==> FrontsShown(j, w, walked, horizon)
      ensures Closure(j, w, 0, horizon) <= WitnessClosure(j, walked, horizon) <==> ReachCovered(j, w, walked, horizon)
    {
      CoveredIffShown(j, w, walked, horizon);
      ReachIffCovered(j, w, walked, horizon);
    }
  }

  // ----- the index itself

  lemma SameListIffSameSets(a: seq<Clause>, b: seq<Clause>, f: set<set<EntryHash>>, g: set<set<EntryHash>>)
    requires Canonical(a, f) && Canonical(b, g)
    ensures a == b <==> f == g
  {
    if f == g { CanonicalUnique(a, b, f); }
    if a == b {
      CanonicalMembers(a, f);
      CanonicalMembers(b, g);
      forall s ensures s in f <==> s in g {
        if s in f { assert Elements(SortedList(s)) == s && SortedList(s) in a; }
        if s in g { assert Elements(SortedList(s)) == s && SortedList(s) in b; }
      }
    }
  }

  /** An index built on `before`, refreshed with `ws` after the journal grew, beside one
      built on `ws`. Without a horizon they hold the same exactly when the fronts of the
      skipped witnesses are covered. */
  method RefreshBesideRebuild(j0: Log, j: Log, before: seq<EntryHash>, ws: seq<EntryHash>, config: SolverConfig,
                              engine: SolverEngine)
    returns (refreshed: LineageIndex, rebuilt: LineageIndex, changed: bool)
    requires Causal(j0) && ParentClosed(j0) && Causal(j) && j0 <= j && Keys.Fits(config)
    requires (forall w :: w in before ==> Present(j0, w)) && forall w :: w in before ==> w in ws
    ensures var horizon := config.maxHorizon;
            var walked := before + Uncached(ws, WitnessClosure(j, before, horizon));
            Walkable(j0, before, horizon) && Walkable(j, ws, horizon) ==>
              && refreshed.Reflects(j, walked, horizon) && rebuilt.Reflects(j, ws, horizon)
              && ((refreshed.closure == rebuilt.closure && refreshed.paths == rebuilt.paths) <==>
                  if horizon.None? then SkipsCovered(j, before, ws)
                  else forall w :: Skipped(j, before, ws, horizon, w) ==>
                         ReachCovered(j, w, walked, horizon) && FrontsShown(j, w, walked, horizon))
  {
    refreshed := new LineageIndex.Build(j0, before, config, engine);
    ghost var closure := refreshed.closure;
    changed := refreshed.Refresh(j, ws, config, engine, j0, before, config, engine);
    rebuilt := new LineageIndex.Build(j, ws, config, engine);
    ghost var horizon := config.maxHorizon;
    if Walkable(j0, before, horizon) && Walkable(j, ws, horizon) {
      WitnessesStable(j0, j, before, horizon);
      ghost var walked := before + Uncached(ws, closure);
      SameListIffSameSets(refreshed.paths, rebuilt.paths, FaultSets(j, walked, horizon), FaultSets(j, ws, horizon));
      if horizon.None? {
        RefreshIffFronts(j, before, ws);
      } else {
        RefreshIffShown(j, before, ws, horizon);
      }
    }
  }
}
