/** The certificate verifier's own traversal: a stack of entries that each carry
    a private copy of the path walked so far.
 */
module CertWalk {
  import opened Journals
  import opened WalkSpec

  const MAX_INCLUSION_PATHS: nat := 65536

  datatype Item = Item(h: EntryHash, depth: nat, path: Path)

  datatype PathsResult = Collected(paths: seq<Path>) | TooManyPaths

  function Items(hs: seq<EntryHash>, depth: nat, path: Path): (r: seq<Item>)
    ensures |r| == |hs| && forall i :: 0 <= i < |hs| ==> r[i] == Item(hs[i], depth, path)
  {
    seq(|hs|, i requires 0 <= i < |hs| => Item(hs[i], depth, path))
  }

  ghost function Remaining(j: Log, stack: seq<Item>, horizon: nat): multiset<Path>
    requires Causal(j)
  {
    if stack == [] then multiset{}
    else
      var top := stack[|stack| - 1];
      Remaining(j, stack[..|stack| - 1], horizon) + PathBag(j, top.h, top.depth, Some(horizon), top.path)
  }

  ghost function Work(j: Log, stack: seq<Item>): nat
    requires Causal(j)
  {
    if stack == [] then 0 else Visits(j, stack[|stack| - 1].h) + Work(j, stack[..|stack| - 1])
  }

  /** Everything on a carried path was appended after the entry it leads to, so
      the repeated-entry guard never drops anything from a causal journal. */
  ghost predicate Descending(j: Log, stack: seq<Item>) {
    forall i, x :: 0 <= i < |stack| && x in stack[i].path ==> Rank(j, x) > Rank(j, stack[i].h)
  }

  lemma {:induction false} PushItems(j: Log, stack: seq<Item>, hs: seq<EntryHash>, bound: nat, depth: nat, path: Path,
                                     horizon: nat)
    requires Causal(j) && forall h :: h in hs ==> Rank(j, h) < bound
    ensures var grown := stack + Items(hs, depth, path);
            && Remaining(j, grown, horizon)
            == Remaining(j, stack, horizon) + PathBags(j, hs, bound, depth, Some(horizon), path)
            && Work(j, grown) == Work(j, stack) + VisitsOf(j, hs, bound)
    decreases |hs|
  {
    if hs == [] {
      assert stack + Items(hs, depth, path) == stack;
    } else {
      var pushed := stack + [Item(hs[0], depth, path)];
      assert pushed[..|pushed| - 1] == stack;
      assert stack + Items(hs, depth, path) == pushed + Items(hs[1..], depth, path);
      PushItems(j, pushed, hs[1..], bound, depth, path, horizon);
    }
  }

  /** Whether the walk goes on through the parents of an item. */
  predicate Expands(j: Log, top: Item, horizon: nat) {
    top.depth <= horizon && top.h !in top.path && Present(j, top.h) && Get(j, top.h).parents != []
  }

  /** The path an item carries on, or ends with. */
  function Extended(j: Log, top: Item, horizon: nat): Path {
    if top.depth <= horizon && Present(j, top.h) then top.path + Own(j, top.h) else top.path
  }

  function Next(j: Log, top: Item, horizon: nat): seq<Item> {
    if Expands(j, top, horizon) then Items(Get(j, top.h).parents, top.depth + 1, Extended(j, top, horizon)) else []
  }

  /** The at most one path an item ends in. */
  function Ended(j: Log, top: Item, horizon: nat): multiset<Path> {
    if Expands(j, top, horizon) then multiset{}
    else if top.depth <= horizon && (top.h in top.path || !Present(j, top.h)) then multiset{}
    else NonEmpty(Extended(j, top, horizon))
  }

  lemma EndedBag(j: Log, top: Item, horizon: nat)
    requires Causal(j) && top.h !in top.path && !Expands(j, top, horizon)
    ensures PathBag(j, top.h, top.depth, Some(horizon), top.path) == Ended(j, top, horizon)
  {
  }

  lemma UnfoldedBag(j: Log, top: Item, horizon: nat)
    requires Causal(j) && Expands(j, top, horizon)
    ensures PathBag(j, top.h, top.depth, Some(horizon), top.path)
            == PathBags(j, Get(j, top.h).parents, Rank(j, top.h), top.depth + 1, Some(horizon),
                        Extended(j, top, horizon))
    ensures Visits(j, top.h) == 1 + VisitsOf(j, Get(j, top.h).parents, Rank(j, top.h))
  {
  }

  lemma ExpandedBag(j: Log, stack: seq<Item>, top: Item, horizon: nat)
    requires Causal(j) && Expands(j, top, horizon)
    ensures Remaining(j, stack, horizon) + PathBag(j, top.h, top.depth, Some(horizon), top.path)
            == Remaining(j, stack + Next(j, top, horizon), horizon)
    ensures Work(j, stack + Next(j, top, horizon)) < Visits(j, top.h) + Work(j, stack)
  {
    var parents, bound, path := Get(j, top.h).parents, Rank(j, top.h), Extended(j, top, horizon);
    ParentsBelow(j, top.h);
    assert Next(j, top, horizon) == Items(parents, top.depth + 1, path);
    PushItems(j, stack, parents, bound, top.depth + 1, path, horizon);
    UnfoldedBag(j, top, horizon);
  }

  /** One step: the popped item stands for what it ends in plus its successors. */
  lemma StepBalances(j: Log, stack: seq<Item>, top: Item, horizon: nat)
    requires Causal(j) && Descending(j, stack + [top])
    ensures Remaining(j, stack + [top], horizon)
         == Remaining(j, stack + Next(j, top, horizon), horizon) + Ended(j, top, horizon)
    ensures Work(j, stack + Next(j, top, horizon)) < Work(j, stack + [top])
    ensures Descending(j, stack + Next(j, top, horizon))
    ensures top.h !in top.path
  {
    var full := stack + [top];
    assert full[..|full| - 1] == stack && full[|full| - 1] == top;
    assert top.h !in top.path;
    if Expands(j, top, horizon) {
      ExpandedBag(j, stack, top, horizon);
      ParentsDescend(j, stack, top, horizon);
    } else {
      EndedBag(j, top, horizon);
      assert stack + Next(j, top, horizon) == stack;
      assert forall i :: 0 <= i < |stack| ==> stack[i] == full[i];
    }
  }

  lemma ParentsDescend(j: Log, stack: seq<Item>, top: Item, horizon: nat)
    requires Causal(j) && Descending(j, stack + [top]) && Present(j, top.h)
    ensures Descending(j, stack + Items(Get(j, top.h).parents, top.depth + 1, top.path + Own(j, top.h)))
  {
    var full := stack + [top];
    assert full[|stack|] == top;
    var parents := Get(j, top.h).parents;
    var path := top.path + Own(j, top.h);
    var grown := stack + Items(parents, top.depth + 1, path);
    forall i, x | 0 <= i < |grown| && x in grown[i].path
      ensures Rank(j, x) > Rank(j, grown[i].h)
    {
      if i < |stack| {
        assert grown[i] == full[i];
      } else {
        ParentRank(j, top.h, grown[i].h);
      }
    }
  }

  /** Process one item: push its parents or record the path it ends in. */
  method Step(j: Log, top: Item, horizon: nat, stack: seq<Item>, paths: seq<Path>)
    returns (stack': seq<Item>, paths': seq<Path>)
    ensures stack' == stack + Next(j, top, horizon)
    ensures multiset(paths') == multiset(paths) + Ended(j, top, horizon)
  {
    stack', paths' := stack, paths;
    if top.depth > horizon {
      if top.path != [] {
        paths' := paths' + [top.path];
      }
      return;
    }
    if top.h in top.path || !Present(j, top.h) {
      return;
    }
    var path := top.path;
    if IsFaultable(Get(j, top.h).kind) {
      path := path + [top.h];
    }
    assert path == Extended(j, top, horizon);
    if Get(j, top.h).parents == [] {
      if path != [] {
        paths' := paths' + [path];
      }
    } else {
      stack' := stack' + Items(Get(j, top.h).parents, top.depth + 1, path);
    }
  }

  /** What is collected plus what the stack stands for never changes. */
  lemma StepKeepsTotal(j: Log, rest: seq<Item>, top: Item, horizon: nat, collected: multiset<Path>)
    requires Causal(j) && Descending(j, rest + [top])
    ensures (collected + Ended(j, top, horizon)) + Remaining(j, rest + Next(j, top, horizon), horizon)
            == collected + Remaining(j, rest + [top], horizon)
    ensures Work(j, rest + Next(j, top, horizon)) < Work(j, rest + [top])
    ensures Descending(j, rest + Next(j, top, horizon))
  {
    StepBalances(j, rest, top, horizon);
    Regroup(collected, Remaining(j, rest + Next(j, top, horizon), horizon), Ended(j, top, horizon));
  }

  lemma Regroup(a: multiset<Path>, b: multiset<Path>, c: multiset<Path>)
    ensures a + (b + c) == (a + c) + b
  {
  }

  /** The walk from one witness entry, continuing a path list within budget. */
  method CollectFrom(j: Log, start: EntryHash, horizon: nat, sofar: seq<Path>) returns (r: PathsResult)
    requires Causal(j) && |sofar| <= MAX_INCLUSION_PATHS
    ensures r.Collected? <==> |sofar| + |PathBag(j, start, 0, Some(horizon), [])| <= MAX_INCLUSION_PATHS
    ensures r.Collected? ==> multiset(r.paths) == multiset(sofar) + PathBag(j, start, 0, Some(horizon), [])
  {
    var paths := sofar;
    var stack := [Item(start, 0, [])];
    ghost var all := multiset(sofar) + PathBag(j, start, 0, Some(horizon), []);
    assert stack[..0] == [];
    while stack != []
      invariant Descending(j, stack)
      invariant |paths| <= MAX_INCLUSION_PATHS
      invariant multiset(paths) + Remaining(j, stack, horizon) == all
      decreases Work(j, stack)
    {
      var top := stack[|stack| - 1];
      var rest := stack[..|stack| - 1];
      assert stack == rest + [top];
      StepKeepsTotal(j, rest, top, horizon, multiset(paths));
      stack, paths := Step(j, top, horizon, rest, paths);
      if |paths| > MAX_INCLUSION_PATHS {
        SubBagSize(multiset(paths), all);
        return TooManyPaths;
      }
    }
    SubBagSize(all, multiset(paths));
    return Collected(paths);
  }

  lemma {:induction false} BagsSplit(j: Log, hs: seq<EntryHash>, i: nat, bound: nat, horizon: nat)
    requires Causal(j) && i < |hs| && forall h :: h in hs ==> Rank(j, h) < bound
    ensures PathBags(j, hs[..i + 1], bound, 0, Some(horizon), [])
         == PathBags(j, hs[..i], bound, 0, Some(horizon), []) + PathBag(j, hs[i], 0, Some(horizon), [])
    decreases i
  {
    if i > 0 {
      BagsSplit(j, hs[1..], i - 1, bound, horizon);
      assert hs[..i + 1][1..] == hs[1..][..i] && hs[..i][1..] == hs[1..][..i - 1];
    } else {
      assert hs[..1][1..] == [];
    }
  }

  lemma {:induction false} BagsPrefix(j: Log, hs: seq<EntryHash>, i: nat, bound: nat, horizon: nat)
    requires Causal(j) && i <= |hs| && forall h :: h in hs ==> Rank(j, h) < bound
    ensures PathBags(j, hs[..i], bound, 0, Some(horizon), []) <= PathBags(j, hs, bound, 0, Some(horizon), [])
    decreases |hs| - i
  {
    if i == |hs| {
      assert hs[..i] == hs;
    } else {
      BagsSplit(j, hs, i, bound, horizon);
      BagsPrefix(j, hs, i + 1, bound, horizon);
    }
  }

  /** The traversal succeeds exactly when the paths fit its budget, and then it
      holds exactly the paths of the witnesses, each as often as it occurs. */
  method CollectFaultPaths(j: Log, witnesses: seq<EntryHash>, horizon: nat) returns (r: PathsResult)
    requires Causal(j)
    ensures r.Collected? <==> |WitnessBag(j, witnesses, Some(horizon))| <= MAX_INCLUSION_PATHS
    ensures r.Collected? ==> multiset(r.paths) == WitnessBag(j, witnesses, Some(horizon))
  {
    var paths: seq<Path> := [];
    var i := 0;
    while i < |witnesses|
      invariant 0 <= i <= |witnesses| && |paths| <= MAX_INCLUSION_PATHS
      invariant multiset(paths) == PathBags(j, witnesses[..i], |j| + 1, 0, Some(horizon), [])
    {
      BagsSplit(j, witnesses, i, |j| + 1, horizon);
      BagsPrefix(j, witnesses, i + 1, |j| + 1, horizon);
      var step := CollectFrom(j, witnesses[i], horizon, paths);
      if step.TooManyPaths? {
        SubBagSize(PathBags(j, witnesses[..i + 1], |j| + 1, 0, Some(horizon), []),
                   WitnessBag(j, witnesses, Some(horizon)));
        return TooManyPaths;
      }
      paths := step.paths;
      assert |multiset(paths)| == |paths|;
      i := i + 1;
    }
    assert witnesses[..i] == witnesses;
    return Collected(paths);
  }

  lemma SubBagSize(a: multiset<Path>, b: multiset<Path>)
    requires a <= b
    ensures |a| <= |b|
  {
    assert b == a + (b - a);
  }
}
