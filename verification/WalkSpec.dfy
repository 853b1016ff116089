/** What the backward walks over the journal are meant to compute: a recursive
    path list, the same paths as a bag, and a declarative account of both as
    derivation chains. Every walker is proved against these definitions.
 */
module WalkSpec {
  import opened Journals
  import opened Ordering

  type Path = seq<EntryHash>

  predicate Beyond(depth: nat, horizon: Option<nat>) {
    horizon.Some? && depth > horizon.value
  }

  /** What an entry contributes to a path through it. */
  function Own(j: Log, h: EntryHash): Path
    requires Present(j, h)
  {
    if IsFaultable(Get(j, h).kind) then [h] else []
  }

  // ----- the recursive path list, oldest entry first

  ghost function Paths(j: Log, h: EntryHash, depth: nat, horizon: Option<nat>): seq<Path>
    requires Causal(j)
    decreases Rank(j, h), 1, 0
  {
    if Beyond(depth, horizon) then [[]]
    else if !Present(j, h) then []
    else if Get(j, h).parents == [] then [Own(j, h)]
    else ParentPaths(j, Get(j, h).parents, Rank(j, h), depth + 1, horizon, Own(j, h))
  }

  ghost function ParentPaths(j: Log, hs: seq<EntryHash>, bound: nat, depth: nat, horizon: Option<nat>,
                             own: Path): seq<Path>
    requires Causal(j)
    requires forall h :: h in hs ==> Rank(j, h) < bound
    decreases bound, 0, |hs|
  {
    if hs == [] then []
    else Suffixed(Paths(j, hs[0], depth, horizon), own) + ParentPaths(j, hs[1..], bound, depth, horizon, own)
  }

  lemma ConcatAssociative<T>(a: seq<T>, b: seq<T>, c: seq<T>)
    ensures a + b + c == a + (b + c)
  {
  }

  lemma {:induction false} ParentPathsConcat(j: Log, a: seq<EntryHash>, b: seq<EntryHash>, bound: nat, depth: nat,
                                             horizon: Option<nat>, own: Path)
    requires Causal(j) && forall h :: h in a + b ==> Rank(j, h) < bound
    ensures ParentPaths(j, a + b, bound, depth, horizon, own)
         == ParentPaths(j, a, bound, depth, horizon, own) + ParentPaths(j, b, bound, depth, horizon, own)
    decreases |a|
  {
    if a == [] {
      assert a + b == b;
    } else {
      assert (a + b)[0] == a[0] && (a + b)[1..] == a[1..] + b;
      ParentPathsConcat(j, a[1..], b, bound, depth, horizon, own);
      ConcatAssociative(Suffixed(Paths(j, a[0], depth, horizon), own),
                        ParentPaths(j, a[1..], bound, depth, horizon, own),
                        ParentPaths(j, b, bound, depth, horizon, own));
    }
  }

  /** One more parent, from the front of the list on. */
  lemma ParentPathsSnoc(j: Log, hs: seq<EntryHash>, i: nat, bound: nat, depth: nat, horizon: Option<nat>, own: Path)
    requires Causal(j) && i < |hs| && forall h :: h in hs ==> Rank(j, h) < bound
    ensures ParentPaths(j, hs[..i + 1], bound, depth, horizon, own)
         == ParentPaths(j, hs[..i], bound, depth, horizon, own) + Suffixed(Paths(j, hs[i], depth, horizon), own)
  {
    assert hs[..i + 1] == hs[..i] + [hs[i]] && [hs[i]][1..] == [];
    ParentPathsConcat(j, hs[..i], [hs[i]], bound, depth, horizon, own);
  }

  function Suffixed(ps: seq<Path>, own: Path): (r: seq<Path>)
    ensures |r| == |ps|
    ensures forall i :: 0 <= i < |ps| ==> r[i] == ps[i] + own
  {
    if ps == [] then [] else [ps[0] + own] + Suffixed(ps[1..], own)
  }

  // ----- the same paths, newest entry first, in no particular order

  ghost function PathBag(j: Log, h: EntryHash, depth: nat, horizon: Option<nat>, prefix: Path): multiset<Path>
    requires Causal(j)
    decreases Rank(j, h), 1, 0
  {
    if Beyond(depth, horizon) then NonEmpty(prefix)
    else if !Present(j, h) then multiset{}
    else if Get(j, h).parents == [] then NonEmpty(prefix + Own(j, h))
    else PathBags(j, Get(j, h).parents, Rank(j, h), depth + 1, horizon, prefix + Own(j, h))
  }

  ghost function PathBags(j: Log, hs: seq<EntryHash>, bound: nat, depth: nat, horizon: Option<nat>,
                          prefix: Path): multiset<Path>
    requires Causal(j)
    requires forall h :: h in hs ==> Rank(j, h) < bound
    decreases bound, 0, |hs|
  {
    if hs == [] then multiset{}
    else PathBag(j, hs[0], depth, horizon, prefix) + PathBags(j, hs[1..], bound, depth, horizon, prefix)
  }

  function NonEmpty(p: Path): multiset<Path> {
    if p == [] then multiset{} else multiset{p}
  }

  /** All paths of a witness list. */
  ghost function WitnessBag(j: Log, ws: seq<EntryHash>, horizon: Option<nat>): multiset<Path>
    requires Causal(j)
  {
    PathBags(j, ws, |j| + 1, 0, horizon, [])
  }

  // ----- entries visited, horizon cuts and node counts

  ghost function Closure(j: Log, h: EntryHash, depth: nat, horizon: Option<nat>): set<EntryHash>
    requires Causal(j)
    decreases Rank(j, h), 1, 0
  {
    if Beyond(depth, horizon) || !Present(j, h) then {}
    else {h} + Closures(j, Get(j, h).parents, Rank(j, h), depth + 1, horizon)
  }

  ghost function Closures(j: Log, hs: seq<EntryHash>, bound: nat, depth: nat, horizon: Option<nat>): set<EntryHash>
    requires Causal(j)
    requires forall h :: h in hs ==> Rank(j, h) < bound
    decreases bound, 0, |hs|
  {
    if hs == [] then {}
    else Closure(j, hs[0], depth, horizon) + Closures(j, hs[1..], bound, depth, horizon)
  }

  ghost function WitnessClosure(j: Log, ws: seq<EntryHash>, horizon: Option<nat>): set<EntryHash>
    requires Causal(j)
  {
    Closures(j, ws, |j| + 1, 0, horizon)
  }

  /** Without a horizon the depth is irrelevant. */
  lemma {:induction false} ClosureDepth(j: Log, h: EntryHash, d: nat, e: nat)
    requires Causal(j)
    ensures Closure(j, h, d, None) == Closure(j, h, e, None)
    decreases Rank(j, h), 1, 0
  {
    if Present(j, h) { ClosuresDepth(j, Get(j, h).parents, Rank(j, h), d + 1, e + 1); }
  }

  lemma {:induction false} ClosuresDepth(j: Log, hs: seq<EntryHash>, bound: nat, d: nat, e: nat)
    requires Causal(j) && forall h :: h in hs ==> Rank(j, h) < bound
    ensures Closures(j, hs, bound, d, None) == Closures(j, hs, bound, e, None)
    decreases bound, 0, |hs|
  {
    if hs != [] {
      ClosureDepth(j, hs[0], d, e);
      ClosuresDepth(j, hs[1..], bound, d, e);
    }
  }

  /** The closure of an entry holds the closures of its members. */
  lemma {:induction false} ClosureWithin(j: Log, h: EntryHash, d: nat, w: EntryHash)
    requires Causal(j) && w in Closure(j, h, d, None)
    ensures Closure(j, w, 0, None) <= Closure(j, h, d, None)
    decreases Rank(j, h), 1, 0
  {
    if w == h {
      ClosureDepth(j, h, 0, d);
    } else {
      ClosuresWithin(j, Get(j, h).parents, Rank(j, h), d + 1, w);
    }
  }

  lemma {:induction false} ClosuresWithin(j: Log, hs: seq<EntryHash>, bound: nat, d: nat, w: EntryHash)
    requires Causal(j) && (forall h :: h in hs ==> Rank(j, h) < bound) && w in Closures(j, hs, bound, d, None)
    ensures Closure(j, w, 0, None) <= Closures(j, hs, bound, d, None)
    decreases bound, 0, |hs|
  {
    if w in Closure(j, hs[0], d, None) {
      ClosureWithin(j, hs[0], d, w);
    } else {
      ClosuresWithin(j, hs[1..], bound, d, w);
    }
  }

  lemma {:induction false} ClosureHolds(j: Log, hs: seq<EntryHash>, bound: nat, d: nat, horizon: Option<nat>,
                                        p: EntryHash)
    requires Causal(j) && (forall h :: h in hs ==> Rank(j, h) < bound) && p in hs
    ensures Closure(j, p, d, horizon) <= Closures(j, hs, bound, d, horizon)
    decreases |hs|
  {
    if p != hs[0] { ClosureHolds(j, hs[1..], bound, d, horizon, p); }
  }

  /** A recorded parent of a member is a member. */
  lemma ParentInClosure(j: Log, start: EntryHash, cur: EntryHash, p: EntryHash)
    requires Causal(j) && cur in Closure(j, start, 0, None) && Present(j, cur) && p in Get(j, cur).parents
             && Present(j, p)
    ensures p in Closure(j, start, 0, None)
  {
    ClosureWithin(j, start, 0, cur);
    ParentsBelow(j, cur);
    ClosureHolds(j, Get(j, cur).parents, Rank(j, cur), 1, None, p);
  }

  /** Whether the walk from `h` is cut off by the horizon somewhere. */
  ghost predicate IsCut(j: Log, h: EntryHash, depth: nat, horizon: Option<nat>)
    requires Causal(j)
    decreases Rank(j, h), 1, 0
  {
    Beyond(depth, horizon) ||
    (Present(j, h) && AnyCut(j, Get(j, h).parents, Rank(j, h), depth + 1, horizon))
  }

  ghost predicate AnyCut(j: Log, hs: seq<EntryHash>, bound: nat, depth: nat, horizon: Option<nat>)
    requires Causal(j)
    requires forall h :: h in hs ==> Rank(j, h) < bound
    decreases bound, 0, |hs|
  {
    hs != [] && (IsCut(j, hs[0], depth, horizon) || AnyCut(j, hs[1..], bound, depth, horizon))
  }

  /** Number of entry visits of an unbounded walk: the size of the unfolded tree. */
  ghost function Visits(j: Log, h: EntryHash): (n: nat)
    requires Causal(j)
    ensures n >= 1
    decreases Rank(j, h), 1, 0
  {
    if !Present(j, h) then 1
    else 1 + VisitsOf(j, Get(j, h).parents, Rank(j, h))
  }

  ghost function VisitsOf(j: Log, hs: seq<EntryHash>, bound: nat): nat
    requires Causal(j)
    requires forall h :: h in hs ==> Rank(j, h) < bound
    decreases bound, 0, |hs|
  {
    if hs == [] then 0 else Visits(j, hs[0]) + VisitsOf(j, hs[1..], bound)
  }

  // ----- the declarative account

  /** `chain` follows parent edges backward from `h` until it reaches an entry
      without parents or the horizon cuts it. */
  ghost predicate IsDerivation(j: Log, h: EntryHash, chain: seq<EntryHash>, depth: nat, horizon: Option<nat>)
    decreases chain
  {
    if Beyond(depth, horizon) then chain == []
    else
      && Present(j, h) && chain != [] && chain[0] == h
      && if Get(j, h).parents == [] then chain == [h]
         else exists p :: p in Get(j, h).parents && IsDerivation(j, p, chain[1..], depth + 1, horizon)
  }

  ghost function FaultablePart(j: Log, chain: seq<EntryHash>): Path {
    if chain == [] then []
    else (if Present(j, chain[0]) then Own(j, chain[0]) else []) + FaultablePart(j, chain[1..])
  }

  /** A chain that follows parent edges backward from `h` and may stop anywhere. */
  ghost predicate IsTrail(j: Log, h: EntryHash, chain: seq<EntryHash>) {
    var n := |chain| - 1;
    && n >= 0 && Present(j, chain[n])
    && (chain == [h] || (IsTrail(j, h, chain[..n]) && chain[n] in Get(j, chain[n - 1]).parents))
  }

  /** A path that some trail from `start` adds to `base`. */
  ghost predicate TrailPath(j: Log, start: EntryHash, base: Path, q: Path) {
    q == base || exists chain :: IsTrail(j, start, chain) && q == base + FaultablePart(j, chain)
  }

  lemma {:induction false} FaultableSnoc(j: Log, chain: seq<EntryHash>, h: EntryHash)
    requires Present(j, h)
    ensures FaultablePart(j, chain + [h]) == FaultablePart(j, chain) + Own(j, h)
  {
    if chain == [] {
      assert [h][1..] == [] && chain + [h] == [h];
    } else {
      assert (chain + [h])[0] == chain[0] && (chain + [h])[1..] == chain[1..] + [h];
      FaultableSnoc(j, chain[1..], h);
      ConcatAssociative(if Present(j, chain[0]) then Own(j, chain[0]) else [], FaultablePart(j, chain[1..]), Own(j, h));
    }
  }

  lemma TrailOne(j: Log, h: EntryHash)
    requires Present(j, h)
    ensures IsTrail(j, h, [h]) && FaultablePart(j, [h]) == Own(j, h)
  {
    FaultableSnoc(j, [], h);
    assert [] + [h] == [h];
  }

  lemma TrailSnoc(j: Log, start: EntryHash, chain: seq<EntryHash>, h: EntryHash)
    requires IsTrail(j, start, chain) && h in Get(j, chain[|chain| - 1]).parents && Present(j, h)
    ensures IsTrail(j, start, chain + [h]) && FaultablePart(j, chain + [h]) == FaultablePart(j, chain) + Own(j, h)
  {
    assert (chain + [h])[..|chain|] == chain;
    FaultableSnoc(j, chain, h);
  }

  /** The faultable entries of a chain as a set. */
  ghost function FaultableIn(j: Log, chain: seq<EntryHash>): set<EntryHash> {
    set h | h in chain && Present(j, h) && IsFaultable(Get(j, h).kind)
  }

  /** The member sets of all paths of a witness list: what the solver must hit. */
  ghost function FaultSets(j: Log, ws: seq<EntryHash>, horizon: Option<nat>): set<set<EntryHash>>
    requires Causal(j)
  {
    MemberSets(WitnessBag(j, ws, horizon))
  }

  ghost function MemberSets(bag: multiset<Path>): set<set<EntryHash>> {
    set p | p in bag :: Elements(p)
  }

  lemma MemberSetsHold(bag: multiset<Path>, p: Path)
    requires p in bag
    ensures Elements(p) in MemberSets(bag)
  {
  }

  // ----- the list and the bag hold the same paths

  function Reverse(p: Path): (r: Path)
    ensures |r| == |p|
    ensures forall i :: 0 <= i < |p| ==> r[i] == p[|p| - 1 - i]
  {
    if p == [] then [] else Reverse(p[1..]) + [p[0]]
  }

  /** Paths of a list, reversed and hung below `prefix`, empty ones dropped. */
  ghost function Under(prefix: Path, ps: seq<Path>): multiset<Path> {
    if ps == [] then multiset{}
    else NonEmpty(prefix + Reverse(ps[0])) + Under(prefix, ps[1..])
  }

  lemma {:induction false} UnderConcat(prefix: Path, ps: seq<Path>, qs: seq<Path>)
    ensures Under(prefix, ps + qs) == Under(prefix, ps) + Under(prefix, qs)
  {
    if ps == [] {
      assert ps + qs == qs;
    } else {
      assert (ps + qs)[1..] == ps[1..] + qs;
      UnderConcat(prefix, ps[1..], qs);
    }
  }

  lemma {:induction false} UnderSuffixed(prefix: Path, ps: seq<Path>, own: Path)
    requires |own| <= 1
    ensures Under(prefix, Suffixed(ps, own)) == Under(prefix + own, ps)
  {
    if ps != [] {
      UnderSuffixed(prefix, ps[1..], own);
      assert Reverse(ps[0] + own) == own + Reverse(ps[0]);
      assert prefix + Reverse(ps[0] + own) == prefix + own + Reverse(ps[0]);
    }
  }

  /** The two accounts of the recursion agree path by path. */
  lemma {:induction false} PathsMatchBag(j: Log, h: EntryHash, depth: nat, horizon: Option<nat>, prefix: Path)
    requires Causal(j)
    ensures PathBag(j, h, depth, horizon, prefix) == Under(prefix, Paths(j, h, depth, horizon))
    decreases Rank(j, h), 1, 0
  {
    if Beyond(depth, horizon) {
      assert prefix + Reverse([]) == prefix;
    } else if Present(j, h) {
      if Get(j, h).parents == [] {
        assert Reverse(Own(j, h)) == Own(j, h);
      } else {
        ParentPathsMatchBags(j, Get(j, h).parents, Rank(j, h), depth + 1, horizon, prefix, Own(j, h));
      }
    }
  }

  lemma {:induction false} ParentPathsMatchBags(j: Log, hs: seq<EntryHash>, bound: nat, depth: nat,
                                                horizon: Option<nat>, prefix: Path, own: Path)
    requires Causal(j) && |own| <= 1
    requires forall h :: h in hs ==> Rank(j, h) < bound
    ensures PathBags(j, hs, bound, depth, horizon, prefix + own)
         == Under(prefix, ParentPaths(j, hs, bound, depth, horizon, own))
    decreases bound, 0, |hs|
  {
    if hs != [] {
      PathsMatchBag(j, hs[0], depth, horizon, prefix + own);
      UnderSuffixed(prefix, Paths(j, hs[0], depth, horizon), own);
      ParentPathsMatchBags(j, hs[1..], bound, depth, horizon, prefix, own);
      UnderConcat(prefix, Suffixed(Paths(j, hs[0], depth, horizon), own),
                  ParentPaths(j, hs[1..], bound, depth, horizon, own));
    }
  }

  // ----- the bag is exactly the derivation chains

  /** Every path comes from a chain, and every chain with a faultable entry
      yields its path. */
  lemma {:induction false} BagHoldsDerivation(j: Log, h: EntryHash, depth: nat, horizon: Option<nat>, prefix: Path,
                                              chain: seq<EntryHash>)
    requires Causal(j) && IsDerivation(j, h, chain, depth, horizon)
    requires prefix + FaultablePart(j, chain) != []
    ensures prefix + FaultablePart(j, chain) in PathBag(j, h, depth, horizon, prefix)
    decreases chain
  {
    if Beyond(depth, horizon) {
      assert prefix + FaultablePart(j, chain) == prefix;
    } else {
      var rest := FaultablePart(j, chain[1..]);
      assert prefix + FaultablePart(j, chain) == prefix + Own(j, h) + rest;
      if Get(j, h).parents == [] {
        assert prefix + FaultablePart(j, chain) == prefix + Own(j, h);
      } else {
        var p :| p in Get(j, h).parents && IsDerivation(j, p, chain[1..], depth + 1, horizon);
        BagHoldsDerivation(j, p, depth + 1, horizon, prefix + Own(j, h), chain[1..]);
        BagsHold(j, Get(j, h).parents, Rank(j, h), depth + 1, horizon, prefix + Own(j, h), p);
      }
    }
  }

  lemma {:induction false} BagsHold(j: Log, hs: seq<EntryHash>, bound: nat, depth: nat, horizon: Option<nat>,
                                    prefix: Path, p: EntryHash)
    requires Causal(j) && p in hs
    requires forall h :: h in hs ==> Rank(j, h) < bound
    ensures PathBag(j, p, depth, horizon, prefix) <= PathBags(j, hs, bound, depth, horizon, prefix)
    decreases |hs|
  {
    if hs[0] != p {
      BagsHold(j, hs[1..], bound, depth, horizon, prefix, p);
    }
  }

  lemma {:induction false} BagComesFromDerivation(j: Log, h: EntryHash, depth: nat, horizon: Option<nat>, prefix: Path,
                                                  path: Path)
    returns (chain: seq<EntryHash>)
    requires Causal(j) && path in PathBag(j, h, depth, horizon, prefix)
    ensures IsDerivation(j, h, chain, depth, horizon)
    ensures path == prefix + FaultablePart(j, chain) && path != []
    decreases Rank(j, h), 1, 0
  {
    if Beyond(depth, horizon) {
      chain := [];
    } else if Get(j, h).parents == [] {
      chain := [h];
      assert FaultablePart(j, chain[1..]) == [];
    } else {
      var p, rest := BagsComeFrom(j, Get(j, h).parents, Rank(j, h), depth + 1, horizon, prefix + Own(j, h), path);
      chain := [h] + rest;
      ExtendsDerivation(j, h, p, rest, depth, horizon, prefix);
    }
  }

  /** A chain from a parent is a chain from the entry, one step longer. */
  lemma ExtendsDerivation(j: Log, h: EntryHash, p: EntryHash, rest: seq<EntryHash>, depth: nat, horizon: Option<nat>,
                          prefix: Path)
    requires !Beyond(depth, horizon) && Present(j, h) && p in Get(j, h).parents
    requires IsDerivation(j, p, rest, depth + 1, horizon)
    ensures IsDerivation(j, h, [h] + rest, depth, horizon)
    ensures prefix + FaultablePart(j, [h] + rest) == prefix + Own(j, h) + FaultablePart(j, rest)
  {
    assert ([h] + rest)[1..] == rest;
  }

  lemma {:induction false} BagsComeFrom(j: Log, hs: seq<EntryHash>, bound: nat, depth: nat, horizon: Option<nat>,
                                        prefix: Path, path: Path)
    returns (p: EntryHash, chain: seq<EntryHash>)
    requires Causal(j)
    requires forall h :: h in hs ==> Rank(j, h) < bound
    requires path in PathBags(j, hs, bound, depth, horizon, prefix)
    ensures p in hs && IsDerivation(j, p, chain, depth, horizon)
    ensures path == prefix + FaultablePart(j, chain) && path != []
    decreases bound, 0, |hs|
  {
    if path in PathBag(j, hs[0], depth, horizon, prefix) {
      p := hs[0];
      chain := BagComesFromDerivation(j, p, depth, horizon, prefix, path);
    } else {
      p, chain := BagsComeFrom(j, hs[1..], bound, depth, horizon, prefix, path);
    }
  }

  lemma {:induction false} FaultablePartMembers(j: Log, chain: seq<EntryHash>)
    ensures Elements(FaultablePart(j, chain)) == FaultableIn(j, chain)
  {
    if chain != [] {
      var h, rest := chain[0], chain[1..];
      FaultablePartMembers(j, rest);
      var own := if Present(j, h) then Own(j, h) else [];
      assert forall x :: x in chain <==> x == h || x in rest;
      assert forall x :: x in FaultablePart(j, chain) <==> x in own || x in FaultablePart(j, rest);
      assert Elements(FaultablePart(j, chain)) == Elements(own) + Elements(FaultablePart(j, rest));
      assert FaultableIn(j, chain) == Elements(own) + FaultableIn(j, rest);
    }
  }

  ghost predicate HasDerivation(j: Log, ws: seq<EntryHash>, horizon: Option<nat>, s: set<EntryHash>) {
    exists w, chain :: w in ws && IsDerivation(j, w, chain, 0, horizon) && s == FaultableIn(j, chain)
  }

  lemma CollectedHasDerivation(j: Log, ws: seq<EntryHash>, horizon: Option<nat>, path: Path)
    requires Causal(j) && path in WitnessBag(j, ws, horizon)
    ensures Elements(path) != {} && HasDerivation(j, ws, horizon, Elements(path))
  {
    var w, chain := BagsComeFrom(j, ws, |j| + 1, 0, horizon, [], path);
    FaultablePartMembers(j, chain);
    assert path == FaultablePart(j, chain);
    assert path[0] in Elements(path);
  }

  lemma DerivationIsCollected(j: Log, ws: seq<EntryHash>, horizon: Option<nat>, w: EntryHash, chain: seq<EntryHash>)
    requires Causal(j) && w in ws && IsDerivation(j, w, chain, 0, horizon)
    requires FaultableIn(j, chain) != {}
    ensures FaultablePart(j, chain) in WitnessBag(j, ws, horizon)
    ensures Elements(FaultablePart(j, chain)) == FaultableIn(j, chain)
  {
    FaultablePartMembers(j, chain);
    assert [] + FaultablePart(j, chain) == FaultablePart(j, chain);
    BagHoldsDerivation(j, w, 0, horizon, [], chain);
    BagsHold(j, ws, |j| + 1, 0, horizon, [], w);
  }

  /** A set is collected exactly when it is the non-empty faultable part of a
      derivation chain of some witness. */
  lemma FaultSetsAreDerivations(j: Log, ws: seq<EntryHash>, horizon: Option<nat>, s: set<EntryHash>)
    requires Causal(j)
    ensures s in FaultSets(j, ws, horizon) <==> s != {} && HasDerivation(j, ws, horizon, s)
  {
    if s in FaultSets(j, ws, horizon) {
      var path :| path in WitnessBag(j, ws, horizon) && s == Elements(path);
      CollectedHasDerivation(j, ws, horizon, path);
    }
    if s != {} && HasDerivation(j, ws, horizon, s) {
      var w, chain :| w in ws && IsDerivation(j, w, chain, 0, horizon) && s == FaultableIn(j, chain);
      DerivationIsCollected(j, ws, horizon, w, chain);
      MemberSetsHold(WitnessBag(j, ws, horizon), FaultablePart(j, chain));
    }
  }

  // ----- set-level views of the path list and of a witness list

  lemma {:induction false} UnderMembers(ps: seq<Path>, q: Path)
    ensures q in Under([], ps) <==> q != [] && exists p :: p in ps && q == Reverse(p)
  {
    if ps != [] {
      UnderMembers(ps[1..], q);
      assert forall p :: p in ps <==> p == ps[0] || p in ps[1..];
      assert [] + Reverse(ps[0]) == Reverse(ps[0]);
    }
  }

  lemma ReverseElements(p: Path)
    ensures Elements(Reverse(p)) == Elements(p)
  {
    forall x
      ensures x in Reverse(p) <==> x in p
    {
      if x in p {
        var i :| 0 <= i < |p| && p[i] == x;
        assert Reverse(p)[|p| - 1 - i] == x;
      }
    }
  }

  ghost predicate ListsSet(ps: seq<Path>, s: set<EntryHash>) {
    exists p :: p in ps && p != [] && s == Elements(p)
  }

  /** The recursive list and the bag yield the same member sets. */
  lemma PathListSets(j: Log, h: EntryHash, horizon: Option<nat>, s: set<EntryHash>)
    requires Causal(j)
    ensures s in MemberSets(PathBag(j, h, 0, horizon, [])) <==> ListsSet(Paths(j, h, 0, horizon), s)
  {
    var ps := Paths(j, h, 0, horizon);
    PathsMatchBag(j, h, 0, horizon, []);
    if s in MemberSets(Under([], ps)) {
      var q :| q in Under([], ps) && s == Elements(q);
      UnderMembers(ps, q);
      var p :| p in ps && q == Reverse(p);
      ReverseElements(p);
    }
    if ListsSet(ps, s) {
      var p :| p in ps && p != [] && s == Elements(p);
      ReverseElements(p);
      UnderMembers(ps, Reverse(p));
      MemberSetsHold(Under([], ps), Reverse(p));
    }
  }

  lemma {:induction false} BagsSets(j: Log, hs: seq<EntryHash>, bound: nat, horizon: Option<nat>, s: set<EntryHash>)
    requires Causal(j) && forall h :: h in hs ==> Rank(j, h) < bound
    ensures s in MemberSets(PathBags(j, hs, bound, 0, horizon, [])) <==>
            exists w :: w in hs && s in MemberSets(PathBag(j, w, 0, horizon, []))
    decreases |hs|
  {
    if hs != [] {
      var first, rest := hs[0], hs[1..];
      BagsSets(j, rest, bound, horizon, s);
      assert forall w :: w in hs <==> w == first || w in rest;
      MemberSetsSum(PathBag(j, first, 0, horizon, []), PathBags(j, rest, bound, 0, horizon, []), s);
      assert PathBags(j, hs, bound, 0, horizon, [])
          == PathBag(j, first, 0, horizon, []) + PathBags(j, rest, bound, 0, horizon, []);
      if exists w :: w in rest && s in MemberSets(PathBag(j, w, 0, horizon, [])) {
        var w :| w in rest && s in MemberSets(PathBag(j, w, 0, horizon, []));
        assert w in hs;
      }
    }
  }

  lemma MemberSetsSum(a: multiset<Path>, b: multiset<Path>, s: set<EntryHash>)
    ensures s in MemberSets(a + b) <==> s in MemberSets(a) || s in MemberSets(b)
  {
    if s in MemberSets(a) {
      var p :| p in a && s == Elements(p);
      assert p in a + b;
    }
    if s in MemberSets(b) {
      var p :| p in b && s == Elements(p);
      assert p in a + b;
    }
  }

  /** A witness list collects what its witnesses collect. */
  lemma FaultSetsOfWitnesses(j: Log, ws: seq<EntryHash>, horizon: Option<nat>, s: set<EntryHash>)
    requires Causal(j)
    ensures s in FaultSets(j, ws, horizon) <==> exists w :: w in ws && ListsSet(Paths(j, w, 0, horizon), s)
  {
    BagsSets(j, ws, |j| + 1, horizon, s);
    forall w | w in ws
      ensures s in MemberSets(PathBag(j, w, 0, horizon, [])) <==> ListsSet(Paths(j, w, 0, horizon), s)
    {
      PathListSets(j, w, horizon, s);
    }
  }

  // ----- what the horizon means

  /** The entry after position `i` is a parent of the entry there. */
  ghost predicate EdgeAt(j: Log, chain: seq<EntryHash>, i: nat) {
    i + 1 < |chain| && Present(j, chain[i]) && chain[i + 1] in Get(j, chain[i]).parents
  }

  ghost predicate Connected(j: Log, chain: seq<EntryHash>) {
    forall i: nat :: i < |chain| - 1 ==> EdgeAt(j, chain, i)
  }

  lemma ConnectedTail(j: Log, chain: seq<EntryHash>)
    requires |chain| > 1
    ensures Connected(j, chain) <==> EdgeAt(j, chain, 0) && Connected(j, chain[1..])
  {
    var rest := chain[1..];
    if Connected(j, chain) {
      forall i: nat | i < |rest| - 1
        ensures EdgeAt(j, rest, i)
      {
        assert EdgeAt(j, chain, i + 1);
      }
    }
    if EdgeAt(j, chain, 0) && Connected(j, rest) {
      forall i: nat | i < |chain| - 1
        ensures EdgeAt(j, chain, i)
      {
        if i > 0 { assert EdgeAt(j, rest, i - 1); }
      }
    }
  }

  /** The last entry is recorded, and has no parents or is `left` steps away. */
  ghost predicate StopsWithin(j: Log, chain: seq<EntryHash>, left: Option<nat>) {
    && chain != [] && Present(j, chain[|chain| - 1])
    && (left.Some? ==> |chain| - 1 <= left.value)
    && (left == Some(|chain| - 1) || Get(j, chain[|chain| - 1]).parents == [])
  }

  /** A derivation follows parent edges, takes at most the horizon's number of steps, and stops
      short of it only at an entry without parents. */
  lemma {:induction false} DerivationMeans(j: Log, h: EntryHash, chain: seq<EntryHash>, depth: nat, left: Option<nat>,
                                           horizon: Option<nat>)
    requires horizon == if left.Some? then Some(depth + left.value) else None
    ensures IsDerivation(j, h, chain, depth, horizon) <==>
              StopsWithin(j, chain, left) && chain[0] == h && Connected(j, chain)
    decreases |chain|
  {
    if |chain| <= 1 {
      assert |chain| == 1 ==> chain == [chain[0]];
      if chain == [h] && Present(j, h) { SingleDerivation(j, h, depth, left, horizon); }
    } else if chain[0] != h || !Present(j, h) {
      ConnectedTail(j, chain);
    } else {
      ConnectedTail(j, chain);
      DerivationTail(j, h, chain, depth, horizon);
      if left != Some(0) {
        var fewer := if left.Some? then Some(left.value - 1) else None;
        DerivationMeans(j, chain[1], chain[1..], depth + 1, fewer, horizon);
      }
    }
  }

  lemma SingleDerivation(j: Log, h: EntryHash, depth: nat, left: Option<nat>, horizon: Option<nat>)
    requires horizon == if left.Some? then Some(depth + left.value) else None
    requires Present(j, h)
    ensures IsDerivation(j, h, [h], depth, horizon) <==> left == Some(0) || Get(j, h).parents == []
  {
    var rest, next := [h][1..], depth + 1;
    assert rest == [];
    if Get(j, h).parents != [] {
      forall p: EntryHash
        ensures IsDerivation(j, p, rest, next, horizon) <==> left == Some(0)
      {
      }
      assert Get(j, h).parents[0] in Get(j, h).parents;
    }
  }

  lemma DerivationTail(j: Log, h: EntryHash, chain: seq<EntryHash>, depth: nat, horizon: Option<nat>)
    requires |chain| > 1 && chain[0] == h && Present(j, h) && !Beyond(depth, horizon)
    ensures IsDerivation(j, h, chain, depth, horizon) <==>
              chain[1] in Get(j, h).parents && IsDerivation(j, chain[1], chain[1..], depth + 1, horizon)
  {
    var rest, next := chain[1..], depth + 1;
    forall p: EntryHash | IsDerivation(j, p, rest, next, horizon)
      ensures p == chain[1]
    {
    }
    assert chain != [h];
  }
}
