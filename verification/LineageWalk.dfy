/** The two walkers of the lineage index. Both thread one mutable path through
    the walk; one recurses under a horizon, the other runs an enter/exit stack
    under a node budget.
 */
module LineageWalk {
  import opened Journals
  import opened WalkSpec

  const LINEAGE_WALK_NODE_BUDGET: nat := 1_000_000

  datatype Frame = Enter(h: EntryHash) | Exit(pushed: bool)

  function Enters(hs: seq<EntryHash>): (r: seq<Frame>)
    ensures |r| == |hs| && forall i :: 0 <= i < |hs| ==> r[i] == Enter(hs[i])
  {
    seq(|hs|, i requires 0 <= i < |hs| => Enter(hs[i]))
  }

  function Popped(p: Path): Path {
    if p == [] then [] else p[..|p| - 1]
  }

  /** What an entry records itself: the path that ends there, if it has no parent. */
  ghost function Recorded(j: Log, h: EntryHash, prefix: Path): multiset<Path>
    requires Present(j, h)
  {
    if Get(j, h).parents == [] then NonEmpty(prefix + Own(j, h)) else multiset{}
  }

  /** The stack once an entry is opened. */
  function Grown(j: Log, h: EntryHash, stack: seq<Frame>): seq<Frame>
    requires Present(j, h)
  {
    stack + [Exit(Own(j, h) != [])] + Enters(Get(j, h).parents)
  }

  // ----- what a frame stack still has to do

  ghost function Remaining(j: Log, stack: seq<Frame>, prefix: Path): multiset<Path>
    requires Causal(j)
  {
    if stack == [] then multiset{}
    else
      var rest := stack[..|stack| - 1];
      match stack[|stack| - 1]
      case Enter(h) => PathBag(j, h, 0, None, prefix) + Remaining(j, rest, prefix)
      case Exit(pushed) => Remaining(j, rest, if pushed then Popped(prefix) else prefix)
  }

  ghost function RemainingClosure(j: Log, stack: seq<Frame>): set<EntryHash>
    requires Causal(j)
  {
    if stack == [] then {}
    else
      (match stack[|stack| - 1] case Enter(h) => Closure(j, h, 0, None) case Exit(_) => {})
      + RemainingClosure(j, stack[..|stack| - 1])
  }

  ghost function RemainingVisits(j: Log, stack: seq<Frame>): nat
    requires Causal(j)
  {
    if stack == [] then 0
    else
      (match stack[|stack| - 1] case Enter(h) => Visits(j, h) case Exit(_) => 0)
      + RemainingVisits(j, stack[..|stack| - 1])
  }

  /** The path left once every frame has been processed. */
  ghost function Unwound(stack: seq<Frame>, prefix: Path): Path {
    if stack == [] then prefix
    else
      match stack[|stack| - 1]
      case Enter(_) => Unwound(stack[..|stack| - 1], prefix)
      case Exit(pushed) => Unwound(stack[..|stack| - 1], if pushed then Popped(prefix) else prefix)
  }

  // ----- without a horizon the depth is irrelevant

  lemma {:induction false} BagDepthIrrelevant(j: Log, h: EntryHash, d: nat, e: nat, prefix: Path)
    requires Causal(j)
    ensures PathBag(j, h, d, None, prefix) == PathBag(j, h, e, None, prefix)
    decreases Rank(j, h), 1, 0
  {
    if Present(j, h) {
      BagsDepthIrrelevant(j, Get(j, h).parents, Rank(j, h), d + 1, e + 1, prefix + Own(j, h));
    }
  }

  lemma {:induction false} BagsDepthIrrelevant(j: Log, hs: seq<EntryHash>, bound: nat, d: nat, e: nat, prefix: Path)
    requires Causal(j) && forall h :: h in hs ==> Rank(j, h) < bound
    ensures PathBags(j, hs, bound, d, None, prefix) == PathBags(j, hs, bound, e, None, prefix)
    decreases bound, 0, |hs|
  {
    if hs != [] {
      BagDepthIrrelevant(j, hs[0], d, e, prefix);
      BagsDepthIrrelevant(j, hs[1..], bound, d, e, prefix);
    }
  }

  /** Pushing the parents of an entry schedules exactly their walks. */
  lemma {:induction false} PushParents(j: Log, stack: seq<Frame>, hs: seq<EntryHash>, bound: nat, prefix: Path)
    requires Causal(j) && forall h :: h in hs ==> Rank(j, h) < bound
    ensures var grown := stack + Enters(hs);
            && Remaining(j, grown, prefix) == Remaining(j, stack, prefix) + PathBags(j, hs, bound, 0, None, prefix)
            && RemainingClosure(j, grown) == RemainingClosure(j, stack) + Closures(j, hs, bound, 0, None)
            && RemainingVisits(j, grown) == RemainingVisits(j, stack) + VisitsOf(j, hs, bound)
            && Unwound(grown, prefix) == Unwound(stack, prefix)
    decreases |hs|
  {
    if hs == [] {
      assert stack + Enters(hs) == stack;
    } else {
      var pushed := stack + [Enter(hs[0])];
      assert pushed[..|pushed| - 1] == stack;
      assert stack + Enters(hs) == pushed + Enters(hs[1..]);
      PushParents(j, pushed, hs[1..], bound, prefix);
    }
  }

  /** The exit frame of an entry takes its contribution off the prefix again. */
  lemma PushExit(j: Log, stack: seq<Frame>, own: Path, prefix: Path)
    requires Causal(j) && |own| <= 1
    ensures var base := stack + [Exit(own != [])];
            && Remaining(j, base, prefix + own) == Remaining(j, stack, prefix)
            && RemainingClosure(j, base) == RemainingClosure(j, stack)
            && RemainingVisits(j, base) == RemainingVisits(j, stack)
            && Unwound(base, prefix + own) == Unwound(stack, prefix)
  {
    assert (stack + [Exit(own != [])])[..|stack|] == stack;
    assert own != [] ==> Popped(prefix + own) == prefix;
    assert own == [] ==> prefix + own == prefix;
  }

  /** One entry is its own contribution and the walks of its parents. */
  lemma EntryStandsFor(j: Log, h: EntryHash, prefix: Path)
    requires Causal(j) && Present(j, h)
    ensures var parents := Get(j, h).parents;
            && PathBag(j, h, 0, None, prefix)
               == Recorded(j, h, prefix) + PathBags(j, parents, Rank(j, h), 0, None, prefix + Own(j, h))
            && Closure(j, h, 0, None) == {h} + Closures(j, parents, Rank(j, h), 0, None)
            && Visits(j, h) == 1 + VisitsOf(j, parents, Rank(j, h))
  {
    ParentsBelow(j, h);
    BagsDepthIrrelevant(j, Get(j, h).parents, Rank(j, h), 0, 1, prefix + Own(j, h));
    ClosuresDepth(j, Get(j, h).parents, Rank(j, h), 0, 1);
  }

  /** Expanding one entry: its own contribution plus its pushed parents account
      for exactly the work its enter frame stood for. */
  lemma ExpandEntry(j: Log, stack: seq<Frame>, h: EntryHash, prefix: Path)
    requires Causal(j) && Present(j, h)
    ensures var own := Own(j, h);
            var grown := Grown(j, h, stack);
            && PathBag(j, h, 0, None, prefix) + Remaining(j, stack, prefix)
               == Recorded(j, h, prefix) + Remaining(j, grown, prefix + own)
            && Closure(j, h, 0, None) + RemainingClosure(j, stack) == {h} + RemainingClosure(j, grown)
            && Visits(j, h) + RemainingVisits(j, stack) == 1 + RemainingVisits(j, grown)
            && Unwound(grown, prefix + own) == Unwound(stack, prefix)
  {
    ParentsBelow(j, h);
    PushExit(j, stack, Own(j, h), prefix);
    EntryStandsFor(j, h, prefix);
    PushParents(j, stack + [Exit(Own(j, h) != [])], Get(j, h).parents, Rank(j, h), prefix + Own(j, h));
  }

  /** What a walk was asked to do, on top of what had been collected before. */
  datatype Goal = Goal(start: EntryHash, paths: multiset<Path>, closure: set<EntryHash>, path: Path)

  /** The walk's account: what is collected plus what the stack still stands for
      is what the start entry stood for, and the visits spent balance. */
  ghost predicate Balanced(j: Log, g: Goal, stack: seq<Frame>, budget: nat, bag: multiset<Path>,
                           closure: set<EntryHash>, prefix: Path)
    requires Causal(j)
  {
    && budget - RemainingVisits(j, stack) == LINEAGE_WALK_NODE_BUDGET - Visits(j, g.start)
    && bag + Remaining(j, stack, prefix) == g.paths + PathBag(j, g.start, 0, None, g.path)
    && closure + RemainingClosure(j, stack) == g.closure + Closure(j, g.start, 0, None)
  }

  /** The state of a walk: `prefix` is restored by what is left on the stack, and
      the account balances unless the budget has run out. Without causality
      nothing is promised but that the walk stops. */
  ghost predicate OnCourse(j: Log, g: Goal, stack: seq<Frame>, budget: nat, bag: multiset<Path>,
                           closure: set<EntryHash>, prefix: Path, ranOut: bool) {
    Causal(j) ==>
      && Unwound(stack, prefix) == g.path
      && if ranOut then Visits(j, g.start) > LINEAGE_WALK_NODE_BUDGET
         else Balanced(j, g, stack, budget, bag, closure, prefix)
  }

  lemma OpenOnCourse(j: Log, g: Goal, stack: seq<Frame>, current: EntryHash, budget: nat, bag: multiset<Path>,
                     closure: set<EntryHash>, prefix: Path, ranOut: bool)
    requires budget > 0 && Present(j, current)
    requires OnCourse(j, g, stack + [Enter(current)], budget, bag, closure, prefix, ranOut)
    ensures OnCourse(j, g, Grown(j, current, stack), budget - 1, bag + Recorded(j, current, prefix),
                     closure + {current}, prefix + Own(j, current), ranOut)
  {
    if Causal(j) {
      var full := stack + [Enter(current)];
      assert full[..|stack|] == stack;
      ExpandEntry(j, stack, current, prefix);
      var recorded := Recorded(j, current, prefix);
      var rest := Remaining(j, Grown(j, current, stack), prefix + Own(j, current));
      assert Remaining(j, full, prefix) == recorded + rest;
      assert bag + recorded + rest == bag + (recorded + rest);
    }
  }

  lemma SkipOnCourse(j: Log, g: Goal, stack: seq<Frame>, current: EntryHash, budget: nat, bag: multiset<Path>,
                     closure: set<EntryHash>, prefix: Path, ranOut: bool)
    requires budget > 0 && !Present(j, current)
    requires OnCourse(j, g, stack + [Enter(current)], budget, bag, closure, prefix, ranOut)
    ensures OnCourse(j, g, stack, budget - 1, bag, closure, prefix, ranOut)
  {
  }

  lemma RunOutOnCourse(j: Log, g: Goal, stack: seq<Frame>, current: EntryHash, bag: multiset<Path>,
                       more: multiset<Path>, closure: set<EntryHash>, prefix: Path, ranOut: bool)
    requires OnCourse(j, g, stack + [Enter(current)], 0, bag, closure, prefix, ranOut)
    ensures OnCourse(j, g, stack, 0, more, closure, prefix, true)
  {
  }

  lemma ExitOnCourse(j: Log, g: Goal, stack: seq<Frame>, pushed: bool, budget: nat, bag: multiset<Path>,
                     closure: set<EntryHash>, prefix: Path, ranOut: bool)
    requires OnCourse(j, g, stack + [Exit(pushed)], budget, bag, closure, prefix, ranOut)
    ensures OnCourse(j, g, stack, budget, bag, closure, if pushed then Popped(prefix) else prefix, ranOut)
  {
  }

  lemma EnterOnCourse(j: Log, g: Goal)
    ensures OnCourse(j, g, [Enter(g.start)], LINEAGE_WALK_NODE_BUDGET, g.paths, g.closure, g.path, false)
  {
  }

  lemma ArriveOnCourse(j: Log, g: Goal, budget: nat, bag: multiset<Path>, closure: set<EntryHash>, prefix: Path,
                       ranOut: bool)
    requires Causal(j) && OnCourse(j, g, [], budget, bag, closure, prefix, ranOut)
    ensures prefix == g.path && ranOut == (Visits(j, g.start) > LINEAGE_WALK_NODE_BUDGET)
    ensures !ranOut ==>
              bag == g.paths + PathBag(j, g.start, 0, None, g.path)
              && closure == g.closure + Closure(j, g.start, 0, None)
  {
  }

  // ----- where a walk is, budget or not

  /** The prefix stands for a trail to an entry that has `h` as a parent. */
  ghost predicate LeadsTo(j: Log, g: Goal, prefix: Path, h: EntryHash) {
    || (h == g.start && prefix == g.path)
    || exists chain :: TrailTo(j, g, chain, h) && prefix == g.path + FaultablePart(j, chain)
  }

  ghost predicate TrailTo(j: Log, g: Goal, chain: seq<EntryHash>, h: EntryHash) {
    IsTrail(j, g.start, chain) && h in Get(j, chain[|chain| - 1]).parents
  }

  /** Every enter frame is entered with a prefix that leads to it. */
  ghost predicate OnTrail(j: Log, g: Goal, stack: seq<Frame>, prefix: Path) {
    stack == [] ||
    match stack[|stack| - 1]
    case Enter(h) => LeadsTo(j, g, prefix, h) && OnTrail(j, g, stack[..|stack| - 1], prefix)
    case Exit(pushed) => OnTrail(j, g, stack[..|stack| - 1], if pushed then Popped(prefix) else prefix)
  }

  /** Whatever was recorded is the faultable part of a trail. */
  ghost predicate Traced(j: Log, g: Goal, stack: seq<Frame>, bag: multiset<Path>, prefix: Path) {
    OnTrail(j, g, stack, prefix) && forall q :: q in bag ==> q in g.paths || TrailPath(j, g.start, g.path, q)
  }

  lemma EnterTraced(j: Log, g: Goal)
    ensures Traced(j, g, [Enter(g.start)], g.paths, g.path)
  {
  }

  lemma ExitTraced(j: Log, g: Goal, stack: seq<Frame>, pushed: bool, bag: multiset<Path>, prefix: Path)
    requires Traced(j, g, stack + [Exit(pushed)], bag, prefix)
    ensures Traced(j, g, stack, bag, if pushed then Popped(prefix) else prefix)
  {
    assert (stack + [Exit(pushed)])[..|stack|] == stack;
  }

  /** Stopping at an entry records the prefix that leads to it. */
  lemma StopTraced(j: Log, g: Goal, stack: seq<Frame>, h: EntryHash, bag: multiset<Path>, prefix: Path)
    requires Traced(j, g, stack + [Enter(h)], bag, prefix)
    ensures Traced(j, g, stack, bag + NonEmpty(prefix), prefix) && Traced(j, g, stack, bag, prefix)
  {
    assert (stack + [Enter(h)])[..|stack|] == stack;
    assert TrailPath(j, g.start, g.path, prefix);
  }

  lemma {:induction false} PushTraced(j: Log, g: Goal, stack: seq<Frame>, hs: seq<EntryHash>, prefix: Path)
    requires OnTrail(j, g, stack, prefix) && forall h :: h in hs ==> LeadsTo(j, g, prefix, h)
    ensures OnTrail(j, g, stack + Enters(hs), prefix)
    decreases |hs|
  {
    if hs == [] {
      assert stack + Enters(hs) == stack;
    } else {
      var n := |hs| - 1;
      PushTraced(j, g, stack, hs[..n], prefix);
      assert (stack + Enters(hs))[..|stack| + n] == stack + Enters(hs[..n]);
    }
  }

  /** The trail through an entry that is opened. */
  lemma Opened(j: Log, g: Goal, prefix: Path, h: EntryHash) returns (chain: seq<EntryHash>)
    requires LeadsTo(j, g, prefix, h) && Present(j, h)
    ensures IsTrail(j, g.start, chain) && chain[|chain| - 1] == h
            && prefix + Own(j, h) == g.path + FaultablePart(j, chain)
  {
    if h == g.start && prefix == g.path {
      chain := [h];
      TrailOne(j, h);
    } else {
      var before :| TrailTo(j, g, before, h) && prefix == g.path + FaultablePart(j, before);
      TrailSnoc(j, g.start, before, h);
      ConcatAssociative(g.path, FaultablePart(j, before), Own(j, h));
      chain := before + [h];
    }
  }

  lemma OpenTraced(j: Log, g: Goal, stack: seq<Frame>, h: EntryHash, bag: multiset<Path>, prefix: Path)
    requires Present(j, h) && Traced(j, g, stack + [Enter(h)], bag, prefix)
    ensures Traced(j, g, Grown(j, h, stack), bag + Recorded(j, h, prefix), prefix + Own(j, h))
  {
    var own, parents := Own(j, h), Get(j, h).parents;
    var full, base := stack + [Enter(h)], stack + [Exit(own != [])];
    assert full[..|stack|] == stack && base[..|stack|] == stack;
    assert (if own != [] then Popped(prefix + own) else prefix + own) == prefix;
    var chain := Opened(j, g, prefix, h);
    forall p | p in parents ensures LeadsTo(j, g, prefix + own, p) { assert TrailTo(j, g, chain, p); }
    PushTraced(j, g, base, parents, prefix + own);
    assert TrailPath(j, g.start, g.path, prefix + own);
  }

  /** The paths that go on from an entry reached with `here`. */
  ghost function Below(j: Log, h: EntryHash, depth: nat, horizon: Option<nat>, here: Path): multiset<Path>
    requires Causal(j) && Present(j, h)
  {
    if Get(j, h).parents == [] then NonEmpty(here)
    else PathBags(j, Get(j, h).parents, Rank(j, h), depth + 1, horizon, here)
  }

  lemma EntryIsBelow(j: Log, h: EntryHash, depth: nat, horizon: Option<nat>, prefix: Path)
    requires Causal(j) && Present(j, h) && !Beyond(depth, horizon)
    ensures var parents := Get(j, h).parents;
            && PathBag(j, h, depth, horizon, prefix) == Below(j, h, depth, horizon, prefix + Own(j, h))
            && Closure(j, h, depth, horizon) == {h} + Closures(j, parents, Rank(j, h), depth + 1, horizon)
            && IsCut(j, h, depth, horizon) == AnyCut(j, parents, Rank(j, h), depth + 1, horizon)
  {
    ParentsBelow(j, h);
  }

  class Walker {
    const j: Log
    var currentPath: Path
    var paths: seq<Path>
    var closure: set<EntryHash>
    var truncated: bool

    constructor (j: Log)
      ensures this.j == j && currentPath == [] && paths == [] && closure == {} && !truncated
    {
      this.j := j;
      currentPath, paths, closure, truncated := [], [], {}, false;
    }

    method Record()
      modifies this`paths
      ensures multiset(paths) == old(multiset(paths)) + NonEmpty(currentPath)
    {
      if currentPath != [] {
        paths := paths + [currentPath];
      }
    }

    /** The recursive walk adds exactly the paths below the current one, restores
        the path, and raises `truncated` exactly when the horizon cuts it. */
    method CollectBounded(current: EntryHash, depth: nat, maxDepth: nat)
      requires Causal(j)
      modifies this
      ensures currentPath == old(currentPath)
      ensures multiset(paths) == old(multiset(paths)) + PathBag(j, current, depth, Some(maxDepth), currentPath)
      ensures closure == old(closure) + Closure(j, current, depth, Some(maxDepth))
      ensures truncated == (old(truncated) || IsCut(j, current, depth, Some(maxDepth)))
      decreases Rank(j, current), 1, 0
    {
      if depth > maxDepth {
        truncated := true;
        Record();
        return;
      }
      if !Present(j, current) {
        return;
      }
      CollectEntry(current, depth, maxDepth);
    }

    method CollectEntry(current: EntryHash, depth: nat, maxDepth: nat)
      requires Causal(j) && Present(j, current) && depth <= maxDepth
      modifies this
      ensures currentPath == old(currentPath)
      ensures multiset(paths) == old(multiset(paths)) + PathBag(j, current, depth, Some(maxDepth), currentPath)
      ensures closure == old(closure) + Closure(j, current, depth, Some(maxDepth))
      ensures truncated == (old(truncated) || IsCut(j, current, depth, Some(maxDepth)))
      decreases Rank(j, current), 0, |Get(j, current).parents| + 2
    {
      closure := closure + {current};
      var pushed := IsFaultable(Get(j, current).kind);
      ghost var entered := currentPath;
      if pushed {
        currentPath := currentPath + [current];
      }
      assert currentPath == entered + Own(j, current);
      EntryIsBelow(j, current, depth, Some(maxDepth), entered);
      CollectBelow(current, depth, maxDepth);
      if pushed {
        currentPath := Popped(currentPath);
      }
      assert currentPath == entered;
    }

    method CollectBelow(current: EntryHash, depth: nat, maxDepth: nat)
      requires Causal(j) && Present(j, current)
      modifies this
      ensures currentPath == old(currentPath)
      ensures multiset(paths) == old(multiset(paths)) + Below(j, current, depth, Some(maxDepth), currentPath)
      ensures closure
           == old(closure) + Closures(j, Get(j, current).parents, Rank(j, current), depth + 1, Some(maxDepth))
      ensures truncated
           == (old(truncated) || AnyCut(j, Get(j, current).parents, Rank(j, current), depth + 1, Some(maxDepth)))
      decreases Rank(j, current), 0, |Get(j, current).parents| + 1
    {
      ParentsBelow(j, current);
      if Get(j, current).parents == [] {
        Record();
      } else {
        CollectParents(Get(j, current).parents, Rank(j, current), depth + 1, maxDepth);
      }
    }

    method CollectParents(parents: seq<EntryHash>, ghost bound: nat, depth: nat, maxDepth: nat)
      requires Causal(j) && forall p :: p in parents ==> Rank(j, p) < bound
      modifies this
      ensures currentPath == old(currentPath)
      ensures multiset(paths) == old(multiset(paths)) + PathBags(j, parents, bound, depth, Some(maxDepth), currentPath)
      ensures closure == old(closure) + Closures(j, parents, bound, depth, Some(maxDepth))
      ensures truncated == (old(truncated) || AnyCut(j, parents, bound, depth, Some(maxDepth)))
      decreases bound, 0, |parents|
    {
      var i := 0;
      while i < |parents|
        invariant 0 <= i <= |parents| && currentPath == old(currentPath)
        invariant multiset(paths) + PathBags(j, parents[i..], bound, depth, Some(maxDepth), currentPath)
               == old(multiset(paths)) + PathBags(j, parents, bound, depth, Some(maxDepth), currentPath)
        invariant closure + Closures(j, parents[i..], bound, depth, Some(maxDepth))
               == old(closure) + Closures(j, parents, bound, depth, Some(maxDepth))
        invariant (truncated || AnyCut(j, parents[i..], bound, depth, Some(maxDepth)))
               == (old(truncated) || AnyCut(j, parents, bound, depth, Some(maxDepth)))
      {
        assert parents[i..][0] == parents[i] && parents[i..][1..] == parents[i + 1..];
        CollectBounded(parents[i], depth, maxDepth);
        i := i + 1;
      }
    }

    /** Enter one entry that the budget still allows. */
    method Open(current: EntryHash, stack: seq<Frame>) returns (grown: seq<Frame>)
      requires Present(j, current)
      modifies this`currentPath, this`paths, this`closure
      ensures currentPath == old(currentPath) + Own(j, current)
      ensures closure == old(closure) + {current}
      ensures grown == Grown(j, current, stack)
      ensures multiset(paths) == old(multiset(paths)) + Recorded(j, current, old(currentPath))
    {
      closure := closure + {current};
      var own := Own(j, current);
      currentPath := currentPath + own;
      grown := stack + [Exit(own != [])];
      if Get(j, current).parents == [] {
        Record();
        assert grown + Enters([]) == grown;
      } else {
        grown := grown + Enters(Get(j, current).parents);
      }
    }

    /** Process one enter frame: at the end of the budget it is recorded and dropped. */
    method Visit(current: EntryHash, stack: seq<Frame>, budget: nat, ghost g: Goal, ghost ranOut: bool)
      returns (rest: seq<Frame>, left: nat, ghost out: bool)
      requires OnCourse(j, g, stack + [Enter(current)], budget, multiset(paths), closure, currentPath, ranOut)
      requires Traced(j, g, stack + [Enter(current)], multiset(paths), currentPath)
      requires ranOut ==> truncated
      modifies this
      ensures OnCourse(j, g, rest, left, multiset(paths), closure, currentPath, out)
      ensures Traced(j, g, rest, multiset(paths), currentPath)
      ensures truncated == (old(truncated) || out) && (ranOut ==> out)
      ensures left < budget || (left == budget && rest == stack)
    {
      rest, left, out := stack, budget, ranOut;
      StopTraced(j, g, stack, current, multiset(paths), currentPath);
      if budget == 0 {
        RunOutOnCourse(j, g, stack, current, multiset(paths), multiset(paths) + NonEmpty(currentPath), closure,
                       currentPath, ranOut);
        truncated, out := true, true;
        Record();
      } else {
        if Present(j, current) {
          OpenOnCourse(j, g, stack, current, budget, multiset(paths), closure, currentPath, ranOut);
          OpenTraced(j, g, stack, current, multiset(paths), currentPath);
          rest := Open(current, stack);
        } else {
          SkipOnCourse(j, g, stack, current, budget, multiset(paths), closure, currentPath, ranOut);
        }
        left := budget - 1;
      }
    }

    /** The stack walk stops on any graph at all, by budget and then by stack
        height. On a causal journal it restores the path even when it runs out,
        it runs out exactly when the unfolded walk is larger than the budget,
        and otherwise it collects exactly the recursive paths and entries. Even
        when it runs out, every path it adds belongs to a trail from the start. */
    method CollectUnbounded(start: EntryHash)
      modifies this
      ensures Causal(j) ==> currentPath == old(currentPath)
      ensures Causal(j) ==> truncated == (old(truncated) || Visits(j, start) > LINEAGE_WALK_NODE_BUDGET)
      ensures Causal(j) && Visits(j, start) <= LINEAGE_WALK_NODE_BUDGET ==>
                && multiset(paths) == old(multiset(paths)) + PathBag(j, start, 0, None, currentPath)
                && closure == old(closure) + Closure(j, start, 0, None)
      ensures forall q :: q in paths ==> q in old(paths) || TrailPath(j, start, old(currentPath), q)
    {
      var budget: nat := LINEAGE_WALK_NODE_BUDGET;
      var stack := [Enter(start)];
      ghost var ranOut := false;
      ghost var g := Goal(start, multiset(paths), closure, currentPath);
      EnterOnCourse(j, g);
      EnterTraced(j, g);
      while stack != []
        invariant truncated == (old(truncated) || ranOut)
        invariant OnCourse(j, g, stack, budget, multiset(paths), closure, currentPath, ranOut)
        invariant Traced(j, g, stack, multiset(paths), currentPath)
        decreases budget, |stack|
      {
        var top := stack[|stack| - 1];
        assert stack == stack[..|stack| - 1] + [top];
        stack := stack[..|stack| - 1];
        match top {
          case Exit(pushed) =>
            ExitOnCourse(j, g, stack, pushed, budget, multiset(paths), closure, currentPath, ranOut);
            ExitTraced(j, g, stack, pushed, multiset(paths), currentPath);
            if pushed {
              currentPath := Popped(currentPath);
            }
          case Enter(current) =>
            stack, budget, ranOut := Visit(current, stack, budget, g, ranOut);
        }
      }
      assert forall q :: q in paths ==> q in multiset(paths);
      if Causal(j) { ArriveOnCourse(j, g, budget, multiset(paths), closure, currentPath, ranOut); }
    }
  }
}
