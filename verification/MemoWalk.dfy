/** The two memoised path collectors of the hazard encoder. */
module MemoWalk {
  import opened Journals
  import opened WalkSpec

  // ----- the horizon-bounded recursive collector

  /** `memo` and `truncated` live across the witnesses of one encoding. */
  class BoundedMemo {
    const j: Log
    const limit: nat
    var memo: map<(EntryHash, nat), seq<Path>>
    var truncated: bool

    constructor (j: Log, limit: nat)
      requires Causal(j)
      ensures Valid() && this.j == j && this.limit == limit && !truncated
    {
      this.j := j;
      this.limit := limit;
      memo := map[];
      truncated := false;
    }

    /** Cached lists are the recursive ones, and a cached list that was cut has
        already raised the flag. */
    ghost predicate Valid()
      reads this
    {
      && Causal(j)
      && forall h, d :: (h, d) in memo ==>
          && memo[(h, d)] == Paths(j, h, d, Some(limit))
          && (IsCut(j, h, d, Some(limit)) ==> truncated)
    }

    /** The memoised recursion returns the plain recursive list and raises
        `truncated` exactly when the horizon cuts the walk. */
    method Collect(cur: EntryHash, depth: nat) returns (paths: seq<Path>)
      requires Valid()
      modifies this`memo, this`truncated
      ensures Valid()
      ensures paths == Paths(j, cur, depth, Some(limit))
      ensures truncated == (old(truncated) || IsCut(j, cur, depth, Some(limit)))
      decreases Rank(j, cur), 1, 0
    {
      if depth > limit {
        truncated := true;
        return [[]];
      }
      if (cur, depth) in memo {
        return memo[(cur, depth)];
      }
      if !Present(j, cur) {
        return [];
      }
      if Get(j, cur).parents == [] {
        paths := [Own(j, cur)];
      } else {
        paths := CollectParents(Get(j, cur).parents, Rank(j, cur), depth + 1, Own(j, cur));
      }
      memo := memo[(cur, depth) := paths];
    }

    /** The loop over the parents of one entry. */
    method CollectParents(parents: seq<EntryHash>, bound: nat, depth: nat, own: Path) returns (paths: seq<Path>)
      requires Valid()
      requires forall p :: p in parents ==> Rank(j, p) < bound
      modifies this`memo, this`truncated
      ensures Valid()
      ensures paths == ParentPaths(j, parents, bound, depth, Some(limit), own)
      ensures truncated == (old(truncated) || AnyCut(j, parents, bound, depth, Some(limit)))
      decreases bound, 0, |parents|
    {
      paths := [];
      var i := 0;
      while i < |parents|
        invariant 0 <= i <= |parents| && Valid()
        invariant paths == ParentPaths(j, parents[..i], bound, depth, Some(limit), own)
        invariant (old(truncated) || AnyCut(j, parents, bound, depth, Some(limit))) ==
                  (truncated || AnyCut(j, parents[i..], bound, depth, Some(limit)))
      {
        var sub := Collect(parents[i], depth);
        assert parents[i..][1..] == parents[i + 1..];
        ParentPathsSnoc(j, parents, i, bound, depth, Some(limit), own);
        paths := paths + Suffixed(sub, own);
        i := i + 1;
      }
      assert parents[..i] == parents;
    }
  }

  // ----- the unbounded collector: two-phase stack, memo and cell budget

  const HAZARD_WALK_CELL_BUDGET: nat := 4_000_000

  datatype Task = Enter(h: EntryHash) | Finish(h: EntryHash)

  function Enters(hs: seq<EntryHash>): (r: seq<Task>)
    ensures |r| == |hs| && forall i :: 0 <= i < |hs| ==> r[i] == Enter(hs[i])
  {
    seq(|hs|, i requires 0 <= i < |hs| => Enter(hs[i]))
  }

  ghost function Weight(j: Log, stack: seq<Task>): nat
    requires Causal(j)
  {
    if stack == [] then 0
    else
      var top := stack[|stack| - 1];
      (match top case Enter(h) => 2 * Visits(j, h) case Finish(_) => 1) + Weight(j, stack[..|stack| - 1])
  }

  lemma {:induction false} WeightOfPush(j: Log, stack: seq<Task>, hs: seq<EntryHash>, bound: nat)
    requires Causal(j) && forall h :: h in hs ==> Rank(j, h) < bound
    ensures Weight(j, stack + Enters(hs)) == Weight(j, stack) + 2 * VisitsOf(j, hs, bound)
    decreases |hs|
  {
    if hs == [] {
      assert stack + Enters(hs) == stack;
    } else {
      var pushed := stack + [Enter(hs[0])];
      assert pushed[..|pushed| - 1] == stack;
      assert stack + Enters(hs) == pushed + Enters(hs[1..]);
      WeightOfPush(j, pushed, hs[1..], bound);
    }
  }

  ghost function Unbounded(j: Log, h: EntryHash): seq<Path>
    requires Causal(j)
  {
    Paths(j, h, 0, None)
  }

  /** Without a horizon the depth is irrelevant. */
  lemma {:induction false} DepthIrrelevant(j: Log, h: EntryHash, depth: nat)
    requires Causal(j)
    ensures Paths(j, h, depth, None) == Unbounded(j, h)
    decreases Rank(j, h), 1, 0
  {
    if Present(j, h) && Get(j, h).parents != [] {
      ParentDepthIrrelevant(j, Get(j, h).parents, Rank(j, h), depth + 1, 1, Own(j, h));
    }
  }

  lemma {:induction false} ParentDepthIrrelevant(j: Log, hs: seq<EntryHash>, bound: nat, d: nat, e: nat, own: Path)
    requires Causal(j) && forall h :: h in hs ==> Rank(j, h) < bound
    ensures ParentPaths(j, hs, bound, d, None, own) == ParentPaths(j, hs, bound, e, None, own)
    decreases bound, 0, |hs|
  {
    if hs != [] {
      DepthIrrelevant(j, hs[0], d);
      DepthIrrelevant(j, hs[0], e);
      ParentDepthIrrelevant(j, hs[1..], bound, d, e, own);
    }
  }

  /** What the walk charges for storing a path list. */
  function Cells(ps: seq<Path>): nat {
    if ps == [] then 0 else Cells(ps[..|ps| - 1]) + |ps[|ps| - 1]| + 1
  }

  lemma {:induction false} CellsConcat(ps: seq<Path>, qs: seq<Path>)
    ensures Cells(ps + qs) == Cells(ps) + Cells(qs)
    decreases |qs|
  {
    if qs == [] {
      assert ps + qs == ps;
    } else {
      assert (ps + qs)[..|ps + qs| - 1] == ps + qs[..|qs| - 1];
      CellsConcat(ps, qs[..|qs| - 1]);
    }
  }

  /** Cells needed for the path lists of the first `n` entries that are in `done`. */
  ghost function CellsOf(j: Log, done: set<EntryHash>, n: nat): nat
    requires Causal(j) && n <= |j|
  {
    if n == 0 then 0
    else CellsOf(j, done, n - 1) + if j[n - 1].id in done then Cells(Unbounded(j, j[n - 1].id)) else 0
  }

  /** Cells needed for the path lists of all entries a walk can reach. */
  ghost function ClosureCells(j: Log, start: EntryHash): nat
    requires Causal(j)
  {
    CellsOf(j, Closure(j, start, 0, None), |j|)
  }

  lemma {:induction false} CellsOfAdd(j: Log, done: set<EntryHash>, h: EntryHash, n: nat)
    requires Causal(j) && n <= |j| && h !in done && Present(j, h)
    ensures CellsOf(j, done + {h}, n) == CellsOf(j, done, n) + if Rank(j, h) <= n then Cells(Unbounded(j, h)) else 0
  {
    if n > 0 {
      CellsOfAdd(j, done, h, n - 1);
      RankAt(j, n - 1);
    }
  }

  lemma {:induction false} CellsOfMonotone(j: Log, done: set<EntryHash>, more: set<EntryHash>, n: nat)
    requires Causal(j) && n <= |j| && forall i :: 0 <= i < n && j[i].id in done ==> j[i].id in more
    ensures CellsOf(j, done, n) <= CellsOf(j, more, n)
  {
    if n > 0 { CellsOfMonotone(j, done, more, n - 1); }
  }

  lemma CellsWithin(j: Log, done: set<EntryHash>, h: EntryHash, start: EntryHash)
    requires Causal(j) && h !in done && Present(j, h) && done + {h} <= Closure(j, start, 0, None)
    ensures CellsOf(j, done, |j|) + Cells(Unbounded(j, h)) <= ClosureCells(j, start)
  {
    CellsOfAdd(j, done, h, |j|);
    CellsOfMonotone(j, done + {h}, Closure(j, start, 0, None), |j|);
  }

  /** The innermost loop: extend each cached path, checking the budget first. */
  method AppendUnderBudget(sub: seq<Path>, own: Path, charged: nat)
    returns (added: seq<Path>, cells: nat, breached: bool)
    ensures |added| <= |sub| && added == Suffixed(sub, own)[..|added|]
    ensures cells == charged + Cells(added)
    ensures !breached ==> added == Suffixed(sub, own)
    ensures breached ==> charged + Cells(Suffixed(sub, own)) > HAZARD_WALK_CELL_BUDGET
  {
    added, cells, breached := [], charged, false;
    ghost var all := Suffixed(sub, own);
    var k := 0;
    while k < |sub|
      invariant 0 <= k <= |sub| && added == all[..k]
      invariant cells == charged + Cells(added)
    {
      if cells > HAZARD_WALK_CELL_BUDGET {
        CellsConcat(all[..k], all[k..]);
        assert all == all[..k] + all[k..];
        breached := true;
        return;
      }
      var path := sub[k] + own;
      cells := cells + |path| + 1;
      assert (added + [path])[..k] == added;
      added := added + [path];
      k := k + 1;
    }
  }

  lemma {:induction false} EmptyCells(j: Log, n: nat)
    requires Causal(j) && n <= |j|
    ensures CellsOf(j, {}, n) == 0
  {
    if n > 0 { EmptyCells(j, n - 1); }
  }

  ghost predicate OnStack(stack: seq<Task>, h: EntryHash) {
    exists k :: 0 <= k < |stack| && stack[k].h == h
  }

  /** A finish task sits below everything it still waits for, and everything
      above it is strictly older. */
  ghost predicate StackOk(j: Log, stack: seq<Task>, cached: set<EntryHash>) {
    forall i :: 0 <= i < |stack| && stack[i].Finish? ==> Waiting(j, stack, i, cached)
  }

  ghost predicate Waiting(j: Log, stack: seq<Task>, i: nat, cached: set<EntryHash>)
    requires i < |stack|
  {
    var h := stack[i].h;
    && Present(j, h) && Get(j, h).parents != [] && h !in cached
    && (forall k :: i < k < |stack| ==> Rank(j, stack[k].h) < Rank(j, h))
    && (forall p :: p in Get(j, h).parents ==> p in cached || OnStack(stack[i + 1..], p))
  }

  /** Popping a task once its entry is cached keeps the stack in order. */
  lemma PopKeepsStack(j: Log, stack: seq<Task>, top: Task, before: set<EntryHash>, cached: set<EntryHash>)
    requires StackOk(j, stack + [top], before) && cached == before + {top.h}
    ensures StackOk(j, stack, cached)
  {
    var full := stack + [top];
    forall i | 0 <= i < |stack| && stack[i].Finish?
      ensures Waiting(j, stack, i, cached)
    {
      assert full[i] == stack[i] && Waiting(j, full, i, before);
      assert full[|stack|] == top;
      assert forall k :: i < k < |stack| ==> full[k] == stack[k];
      forall p | p in Get(j, stack[i].h).parents && p !in cached
        ensures OnStack(stack[i + 1..], p)
      {
        var k :| 0 <= k < |full[i + 1..]| && full[i + 1..][k].h == p;
        assert stack[i + 1..][k].h == p;
      }
    }
  }

  /** The stack is in order and still leads to the start entry's list. */
  ghost predicate Pending(j: Log, stack: seq<Task>, cached: set<EntryHash>, start: EntryHash)
    requires Causal(j)
  {
    StackOk(j, stack, cached) && (start in cached || OnStack(stack, start)) && Reached(j, stack, start)
  }

  /** Every recorded entry on the stack can be reached from the start. */
  ghost predicate Reached(j: Log, stack: seq<Task>, start: EntryHash)
    requires Causal(j)
  {
    forall k :: 0 <= k < |stack| && Present(j, stack[k].h) ==> stack[k].h in Closure(j, start, 0, None)
  }

  lemma PushReached(j: Log, rest: seq<Task>, cur: EntryHash, start: EntryHash)
    requires Causal(j) && Present(j, cur) && Reached(j, rest + [Enter(cur)], start)
    ensures Reached(j, rest + [Finish(cur)] + Enters(Get(j, cur).parents), start)
  {
    var full, parents := rest + [Enter(cur)], Get(j, cur).parents;
    var grown := rest + [Finish(cur)] + Enters(parents);
    assert full[|rest|].h == cur;
    forall k | 0 <= k < |grown| && Present(j, grown[k].h) ensures grown[k].h in Closure(j, start, 0, None) {
      if k <= |rest| {
        assert grown[k].h == full[k].h;
      } else {
        assert grown[k].h == parents[k - |rest| - 1];
        ParentInClosure(j, start, cur, grown[k].h);
      }
    }
  }

  lemma PopPending(j: Log, rest: seq<Task>, top: Task, before: set<EntryHash>, cached: set<EntryHash>, start: EntryHash)
    requires Causal(j) && Pending(j, rest + [top], before, start) && cached == before + {top.h}
    ensures Pending(j, rest, cached, start)
    ensures Weight(j, rest) < Weight(j, rest + [top])
  {
    var full := rest + [top];
    PopKeepsStack(j, rest, top, before, cached);
    assert full[..|rest|] == rest;
    assert forall k :: 0 <= k < |rest| ==> full[k] == rest[k];
    if start !in cached {
      var k :| 0 <= k < |full| && full[k].h == start;
      assert rest[k].h == start;
    }
  }

  /** Nothing is above the top task, so all its parents are cached. */
  lemma TopIsReady(j: Log, rest: seq<Task>, cur: EntryHash, cached: set<EntryHash>)
    requires StackOk(j, rest + [Finish(cur)], cached)
    ensures Present(j, cur) && Get(j, cur).parents != [] && cur !in cached
    ensures forall p :: p in Get(j, cur).parents ==> p in cached
  {
    var full := rest + [Finish(cur)];
    assert Waiting(j, full, |rest|, cached) && full[|rest| + 1..] == [];
  }

  lemma PushKeepsStack(j: Log, stack: seq<Task>, cached: set<EntryHash>, cur: EntryHash)
    requires Causal(j) && StackOk(j, stack + [Enter(cur)], cached)
    requires cur !in cached && Present(j, cur) && Get(j, cur).parents != []
    ensures StackOk(j, stack + [Finish(cur)] + Enters(Get(j, cur).parents), cached)
    ensures forall h ::
              OnStack(stack + [Enter(cur)], h) ==> OnStack(stack + [Finish(cur)] + Enters(Get(j, cur).parents), h)
  {
    var parents := Get(j, cur).parents;
    var full := stack + [Enter(cur)];
    var grown := stack + [Finish(cur)] + Enters(parents);
    assert forall k :: 0 <= k < |full| ==> grown[k].h == full[k].h;
    forall k | |stack| < k < |grown|
      ensures Rank(j, grown[k].h) < Rank(j, cur)
    {
      assert grown[k].h == parents[k - |stack| - 1];
      ParentRank(j, cur, grown[k].h);
    }
    forall i | 0 <= i < |grown| && grown[i].Finish?
      ensures Waiting(j, grown, i, cached)
    {
      if i < |stack| {
        OldFinishWaits(j, stack, cached, cur, i);
      } else {
        forall p | p in parents
          ensures OnStack(grown[i + 1..], p)
        {
          var k :| 0 <= k < |parents| && parents[k] == p;
          assert grown[i + 1..][k].h == p;
        }
      }
    }
  }

  lemma GrownRank(j: Log, stack: seq<Task>, cur: EntryHash, i: nat, k: nat)
    requires Causal(j) && Present(j, cur) && i < |stack|
    requires forall l :: i < l <= |stack| ==> Rank(j, (stack + [Enter(cur)])[l].h) < Rank(j, stack[i].h)
    requires i < k < |stack| + 1 + |Get(j, cur).parents|
    ensures Rank(j, (stack + [Finish(cur)] + Enters(Get(j, cur).parents))[k].h) < Rank(j, stack[i].h)
  {
    var full := stack + [Enter(cur)];
    var grown := stack + [Finish(cur)] + Enters(Get(j, cur).parents);
    assert full[|stack|].h == cur;
    if k <= |stack| {
      assert grown[k].h == full[k].h;
    } else {
      assert grown[k].h == Get(j, cur).parents[k - |stack| - 1];
      ParentRank(j, cur, grown[k].h);
    }
  }

  lemma OldFinishWaits(j: Log, stack: seq<Task>, cached: set<EntryHash>, cur: EntryHash, i: nat)
    requires Causal(j) && StackOk(j, stack + [Enter(cur)], cached) && Present(j, cur)
    requires i < |stack| && stack[i].Finish?
    ensures Waiting(j, stack + [Finish(cur)] + Enters(Get(j, cur).parents), i, cached)
  {
    var parents := Get(j, cur).parents;
    var full := stack + [Enter(cur)];
    var grown := stack + [Finish(cur)] + Enters(parents);
    assert full[i] == stack[i] && Waiting(j, full, i, cached);
    forall k | i < k < |grown|
      ensures Rank(j, grown[k].h) < Rank(j, grown[i].h)
    {
      GrownRank(j, stack, cur, i, k);
    }
    forall p | p in Get(j, grown[i].h).parents && p !in cached
      ensures OnStack(grown[i + 1..], p)
    {
      var k :| 0 <= k < |full[i + 1..]| && full[i + 1..][k].h == p;
      assert grown[i + 1..][k].h == p;
    }
  }

  lemma WeightOfExpansion(j: Log, stack: seq<Task>, cur: EntryHash)
    requires Causal(j) && Present(j, cur)
    ensures Weight(j, stack + [Finish(cur)] + Enters(Get(j, cur).parents)) < Weight(j, stack + [Enter(cur)])
  {
    var base := stack + [Finish(cur)];
    assert base[..|stack|] == stack && (stack + [Enter(cur)])[..|stack|] == stack;
    WeightOfPush(j, base, Get(j, cur).parents, Rank(j, cur));
  }

  class UnboundedMemo {
    const j: Log
    var memo: map<EntryHash, seq<Path>>
    var truncated: bool

    constructor (j: Log)
      requires Causal(j)
      ensures Valid() && this.j == j && !truncated
    {
      this.j := j;
      memo := map[];
      truncated := false;
    }

    /** Cached paths are always real paths, and until the budget is breached the
        cached lists are complete. */
    ghost predicate Valid()
      reads this
    {
      && Causal(j)
      && (forall h :: h in memo ==> forall q :: q in memo[h] ==> q in Unbounded(j, h))
      && (!truncated ==> forall h :: h in memo ==> memo[h] == Unbounded(j, h))
    }

    /** The paths through the first `n` parents of an entry. */
    ghost function Joined(cur: EntryHash, n: nat): seq<Path>
      requires Causal(j) && Present(j, cur) && n <= |Get(j, cur).parents|
    {
      ParentPaths(j, Get(j, cur).parents[..n], Rank(j, cur), 1, None, Own(j, cur))
    }

    lemma JoinedNext(cur: EntryHash, n: nat)
      requires Causal(j) && Present(j, cur) && n < |Get(j, cur).parents|
      ensures var more := Suffixed(Unbounded(j, Get(j, cur).parents[n]), Own(j, cur));
              && Joined(cur, n + 1) == Joined(cur, n) + more
              && Cells(Joined(cur, n + 1)) == Cells(Joined(cur, n)) + Cells(more)
    {
      var parents := Get(j, cur).parents;
      ParentPathsSnoc(j, parents, n, Rank(j, cur), 1, None, Own(j, cur));
      DepthIrrelevant(j, parents[n], 1);
      CellsConcat(Joined(cur, n), Suffixed(Unbounded(j, parents[n]), Own(j, cur)));
    }

    lemma {:induction false} JoinedWithin(cur: EntryHash, n: nat)
      requires Causal(j) && Present(j, cur) && Get(j, cur).parents != [] && n <= |Get(j, cur).parents|
      ensures Cells(Joined(cur, n)) <= Cells(Unbounded(j, cur))
      ensures n == |Get(j, cur).parents| ==> Joined(cur, n) == Unbounded(j, cur)
      decreases |Get(j, cur).parents| - n
    {
      if n == |Get(j, cur).parents| {
        assert Get(j, cur).parents[..n] == Get(j, cur).parents;
      } else {
        JoinedNext(cur, n);
        JoinedWithin(cur, n + 1);
      }
    }

    /** Only paths of the entry, whether or not all of them. */
    ghost predicate Real(cur: EntryHash, paths: seq<Path>)
      requires Causal(j)
    {
      forall q :: q in paths ==> q in Unbounded(j, cur)
    }

    /** Whatever is added of a parent's cached paths is a path of the entry. */
    lemma AddedAreReal(cur: EntryHash, p: EntryHash, paths: seq<Path>, added: seq<Path>)
      requires Valid() && Present(j, cur) && p in Get(j, cur).parents && p in memo && Real(cur, paths)
      requires |added| <= |memo[p]| && added == Suffixed(memo[p], Own(j, cur))[..|added|]
      ensures Real(cur, paths + added)
    {
      forall k | 0 <= k < |added|
        ensures added[k] in Unbounded(j, cur)
      {
        ParentPathMember(p, cur, memo[p][k]);
      }
    }

    /** Join the cached list of one parent. */
    method JoinParent(cur: EntryHash, i: nat, paths: seq<Path>, cells: nat)
      returns (more: seq<Path>, total: nat, breached: bool)
      requires Valid() && Present(j, cur) && i < |Get(j, cur).parents| && Get(j, cur).parents[i] in memo
      requires Real(cur, paths)
      ensures Real(cur, more)
      ensures !truncated && !breached && paths == Joined(cur, i) ==>
                more == Joined(cur, i + 1) && total == cells + Cells(more) - Cells(paths)
      ensures !truncated && breached && paths == Joined(cur, i) ==>
                cells - Cells(paths) + Cells(Unbounded(j, cur)) > HAZARD_WALK_CELL_BUDGET
    {
      var p := Get(j, cur).parents[i];
      var added;
      added, total, breached := AppendUnderBudget(memo[p], Own(j, cur), cells);
      AddedAreReal(cur, p, paths, added);
      JoinedNext(cur, i);
      JoinedWithin(cur, i + 1);
      more := paths + added;
    }

    /** Second visit: join the cached lists of the parents under the cell budget. */
    method Join(cur: EntryHash, charged: nat) returns (paths: seq<Path>, cells: nat)
      requires Valid() && Present(j, cur) && Get(j, cur).parents != []
      requires forall p :: p in Get(j, cur).parents ==> p in memo
      modifies this`truncated
      ensures old(truncated) ==> truncated
      ensures Real(cur, paths)
      ensures !truncated ==> paths == Unbounded(j, cur) && cells == charged + Cells(paths)
      ensures truncated && !old(truncated) ==> charged + Cells(Unbounded(j, cur)) > HAZARD_WALK_CELL_BUDGET
    {
      paths, cells := [], charged;
      var i := 0;
      while i < |Get(j, cur).parents|
        invariant 0 <= i <= |Get(j, cur).parents|
        invariant truncated == old(truncated) && Real(cur, paths)
        invariant !truncated ==> paths == Joined(cur, i) && cells == charged + Cells(paths)
      {
        var more, total, breached := JoinParent(cur, i, paths, cells);
        if breached {
          paths, cells, truncated := more, total, true;
          return;
        }
        paths, cells := more, total;
        i := i + 1;
      }
      JoinedWithin(cur, i);
    }

    lemma ParentPathMember(p: EntryHash, cur: EntryHash, q: Path)
      requires Causal(j) && Present(j, cur) && p in Get(j, cur).parents
      requires q in Unbounded(j, p)
      ensures q + Own(j, cur) in Unbounded(j, cur)
    {
      SuffixedInParents(Get(j, cur).parents, Rank(j, cur), p, q, Own(j, cur));
    }

    lemma {:induction false} SuffixedInParents(hs: seq<EntryHash>, bound: nat, p: EntryHash, q: Path, own: Path)
      requires Causal(j) && p in hs && forall h :: h in hs ==> Rank(j, h) < bound
      requires q in Unbounded(j, p)
      ensures q + own in ParentPaths(j, hs, bound, 1, None, own)
      decreases |hs|
    {
      DepthIrrelevant(j, hs[0], 1);
      var first := Suffixed(Paths(j, hs[0], 1, None), own);
      if hs[0] == p {
        var i :| 0 <= i < |Unbounded(j, p)| && Unbounded(j, p)[i] == q;
        assert first[i] == q + own;
      } else {
        SuffixedInParents(hs[1..], bound, p, q, own);
      }
    }

    /** First visit: entries that need no parent list are cached at once. */
    method Visit(cur: EntryHash) returns (deferred: bool)
      requires Valid()
      modifies this`memo
      ensures Valid()
      ensures deferred == (cur !in old(memo) && Present(j, cur) && Get(j, cur).parents != [])
      ensures memo.Keys == old(memo).Keys + if deferred then {} else {cur}
    {
      deferred := false;
      if cur in memo {
      } else if !Present(j, cur) {
        memo := memo[cur := []];
      } else if Get(j, cur).parents == [] {
        memo := memo[cur := [Own(j, cur)]];
      } else {
        deferred := true;
      }
    }

    /** The budget account: until a breach, what was charged is what the joined
        entries need; a breach means that what the start reaches needs more than the budget. */
    ghost predicate Accounted(start: EntryHash, done: set<EntryHash>, cells: nat, wasTruncated: bool)
      requires Causal(j)
      reads this
    {
      && done <= memo.Keys && done <= Closure(j, start, 0, None)
      && (wasTruncated ==> truncated)
      && (!truncated ==> cells == CellsOf(j, done, |j|))
      && (truncated && !wasTruncated ==> ClosureCells(j, start) > HAZARD_WALK_CELL_BUDGET)
    }

    method Finalise(cur: EntryHash, charged: nat, ghost start: EntryHash, ghost done: set<EntryHash>,
                    ghost wasTruncated: bool)
      returns (cells: nat)
      requires Valid() && Present(j, cur) && Get(j, cur).parents != [] && cur !in memo
               && cur in Closure(j, start, 0, None)
      requires forall p :: p in Get(j, cur).parents ==> p in memo
      requires Accounted(start, done, charged, wasTruncated)
      modifies this`memo, this`truncated
      ensures Valid() && Accounted(start, done + {cur}, cells, wasTruncated)
      ensures memo.Keys == old(memo).Keys + {cur}
    {
      var joined;
      joined, cells := Join(cur, charged);
      CellsOfAdd(j, done, cur, |j|);
      CellsWithin(j, done, cur, start);
      memo := memo[cur := joined];
    }

    /** Pop an enter task: cache the entry, or push it again behind its parents. */
    method Arrive(rest: seq<Task>, cur: EntryHash, ghost start: EntryHash) returns (stack: seq<Task>)
      requires Valid() && Pending(j, rest + [Enter(cur)], memo.Keys, start)
      modifies this`memo
      ensures Valid() && Pending(j, stack, memo.Keys, start)
      ensures old(memo).Keys <= memo.Keys
      ensures Weight(j, stack) < Weight(j, rest + [Enter(cur)])
    {
      ghost var keys := memo.Keys;
      var deferred := Visit(cur);
      if deferred {
        PushKeepsStack(j, rest, memo.Keys, cur);
        PushReached(j, rest, cur, start);
        WeightOfExpansion(j, rest, cur);
        stack := rest + [Finish(cur)] + Enters(Get(j, cur).parents);
      } else {
        stack := rest;
        PopPending(j, rest, Enter(cur), keys, memo.Keys, start);
      }
    }

    /** Pop a finish task: everything it waited for is cached by now. */
    method Depart(rest: seq<Task>, cur: EntryHash, ghost start: EntryHash, charged: nat, ghost done: set<EntryHash>,
                  ghost wasTruncated: bool)
      returns (cells: nat)
      requires Valid() && Pending(j, rest + [Finish(cur)], memo.Keys, start)
      requires Accounted(start, done, charged, wasTruncated)
      modifies this`memo, this`truncated
      ensures Valid() && Pending(j, rest, memo.Keys, start)
      ensures Accounted(start, done + {cur}, cells, wasTruncated)
      ensures Weight(j, rest) < Weight(j, rest + [Finish(cur)])
    {
      ghost var keys := memo.Keys;
      TopIsReady(j, rest, cur, memo.Keys);
      assert (rest + [Finish(cur)])[|rest|].h == cur;
      cells := Finalise(cur, charged, start, done, wasTruncated);
      PopPending(j, rest, Finish(cur), keys, memo.Keys, start);
    }

    /** The stack machine returns exactly the recursive list unless the cell
        budget is breached, and it can only be breached when the lists of the
        entries the start reaches need more cells than the budget. Whatever it
        returns is made of real paths. */
    method Collect(start: EntryHash) returns (paths: seq<Path>)
      requires Valid()
      modifies this`memo, this`truncated
      ensures Valid()
      ensures old(truncated) ==> truncated
      ensures !truncated ==> paths == Unbounded(j, start)
      ensures forall q :: q in paths ==> q in Unbounded(j, start)
      ensures truncated && !old(truncated) ==> ClosureCells(j, start) > HAZARD_WALK_CELL_BUDGET
    {
      var stack: seq<Task> := [Enter(start)];
      var cells: nat := 0;
      ghost var done: set<EntryHash> := {};
      EmptyCells(j, |j|);
      while stack != []
        invariant Valid() && Pending(j, stack, memo.Keys, start)
        invariant Accounted(start, done, cells, old(truncated))
        decreases Weight(j, stack)
      {
        var top := stack[|stack| - 1];
        assert stack == stack[..|stack| - 1] + [top];
        match top {
          case Enter(cur) =>
            stack := Arrive(stack[..|stack| - 1], cur, start);
          case Finish(cur) =>
            cells := Depart(stack[..|stack| - 1], cur, start, cells, done, old(truncated));
            done := done + {cur};
            stack := stack[..|stack| - 1];
        }
      }
      paths := memo[start];
    }
  }
}
