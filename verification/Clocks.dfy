/** Vector clocks. In a journal grown by appends they say exactly what is in an entry's past. */
module Clocks {
  import opened Journals
  import opened Store
  import opened WalkSpec

  type Clock = map<ActorId, nat>

  function Count(c: Clock, a: ActorId): nat { if a in c then c[a] else 0 }

  predicate BeforeOrEqual(c: Clock, d: Clock) {
    forall a :: a in c ==> c[a] <= Count(d, a)
  }

  predicate HappensBefore(c: Clock, d: Clock) {
    BeforeOrEqual(c, d) && c != d
  }

  /** Clocks only ever hold incremented counts. */
  ghost predicate Ticked(c: Clock) {
    forall a :: a in c ==> c[a] >= 1
  }

  /** The component-wise maximum. */
  function Merge(c: Clock, d: Clock): Clock {
    map a | a in c.Keys + d.Keys :: if Count(c, a) < Count(d, a) then Count(d, a) else Count(c, a)
  }

  function Incremented(c: Clock, a: ActorId): Clock {
    c[a := Count(c, a) + 1]
  }

  /** Merging gives the least clock that is not before either. */
  lemma MergeIsLeast(c: Clock, d: Clock, e: Clock)
    ensures BeforeOrEqual(c, Merge(c, d)) && BeforeOrEqual(d, Merge(c, d))
    ensures BeforeOrEqual(c, e) && BeforeOrEqual(d, e) ==> BeforeOrEqual(Merge(c, d), e)
  {
  }

  /** What was merged into a clock that then ticked happens before it. */
  lemma MergedHappensBefore(c: Clock, d: Clock, a: ActorId)
    ensures HappensBefore(c, Incremented(Merge(c, d), a)) && HappensBefore(d, Incremented(Merge(c, d), a))
  {
    var later := Incremented(Merge(c, d), a);
    assert Count(later, a) > Count(c, a) && Count(later, a) > Count(d, a);
  }

  // ----- the clock of an entry

  /** The clock an append computes: the parents' clocks merged, one more for the actor. */
  ghost function ClockOf(j: Log, h: EntryHash): Clock
    requires Causal(j)
    decreases Rank(j, h), 1, 0
  {
    if !Present(j, h) then map[]
    else Incremented(Merged(j, Get(j, h).parents, Rank(j, h)), Get(j, h).actor)
  }

  ghost function Merged(j: Log, hs: seq<EntryHash>, bound: nat): Clock
    requires Causal(j) && forall h :: h in hs ==> Rank(j, h) < bound
    decreases bound, 0, |hs|
  {
    if hs == [] then map[] else Merge(ClockOf(j, hs[0]), Merged(j, hs[1..], bound))
  }

  lemma {:induction false} MergedCount(j: Log, hs: seq<EntryHash>, bound: nat, a: ActorId)
    requires Causal(j) && forall h :: h in hs ==> Rank(j, h) < bound
    ensures forall p :: p in hs ==> Count(ClockOf(j, p), a) <= Count(Merged(j, hs, bound), a)
    ensures Count(Merged(j, hs, bound), a) > 0 ==>
              exists p :: p in hs && Count(ClockOf(j, p), a) == Count(Merged(j, hs, bound), a)
    decreases |hs|
  {
    if hs != [] {
      MergedCount(j, hs[1..], bound, a);
      assert forall p :: p in hs <==> p == hs[0] || p in hs[1..];
      var c, d := ClockOf(j, hs[0]), Merged(j, hs[1..], bound);
      assert Count(Merge(c, d), a) == if Count(c, a) < Count(d, a) then Count(d, a) else Count(c, a);
    }
  }

  // ----- the chain of an actor

  /** Every entry has its actor's previous entry as a parent. */
  ghost predicate Chained(j: Log) {
    forall i :: 0 <= i < |j| ==> HasHead(j, i)
  }

  ghost predicate HasHead(j: Log, i: nat)
    requires i < |j|
  {
    Head(j[..i], j[i].actor).Some? ==> Head(j[..i], j[i].actor).value in j[i].parents
  }

  /** Appending keeps the chains, as it assembles the parents from the head. */
  lemma AppendKeepsChained(log: Log, e: Entry, observed: seq<EntryHash>)
    requires Chained(log) && e.parents == AssembleParents(Head(log, e.actor), observed)
    ensures Chained(log + [e])
  {
    var grown := log + [e];
    ParentList(Head(log, e.actor), observed);
    forall i | 0 <= i < |grown|
      ensures HasHead(grown, i)
    {
      if i < |log| {
        assert HasHead(log, i) && grown[..i] == log[..i];
      } else {
        assert grown[..i] == log;
      }
    }
  }

  /** How many entries the actor of `h` had recorded when `h` was, `h` included. */
  ghost function Nth(j: Log, h: EntryHash): nat
    requires Present(j, h)
  {
    |ActorEntries(j[..Rank(j, h)], Get(j, h).actor)|
  }

  lemma {:induction false} EntriesGrow(j: Log, a: ActorId, m: nat, n: nat)
    requires m <= n <= |j|
    ensures |ActorEntries(j[..m], a)| <= |ActorEntries(j[..n], a)|
    ensures m < n && j[n - 1].actor == a ==> |ActorEntries(j[..m], a)| < |ActorEntries(j[..n], a)|
    decreases n
  {
    if m < n {
      EntriesGrow(j, a, m, n - 1);
      assert j[..n] == j[..n - 1] + [j[n - 1]];
      ActorSnoc(j[..n - 1], j[n - 1], a);
    }
  }

  lemma NthLater(j: Log, x: EntryHash, y: EntryHash)
    requires Present(j, x) && Present(j, y) && Get(j, x).actor == Get(j, y).actor && Rank(j, x) < Rank(j, y)
    ensures Nth(j, x) < Nth(j, y)
  {
    EntriesGrow(j, Get(j, x).actor, Rank(j, x), Rank(j, y));
  }

  /** Of two entries of one actor the later one has the higher number. */
  lemma NthOrdered(j: Log, x: EntryHash, y: EntryHash)
    requires Present(j, x) && Present(j, y) && Get(j, x).actor == Get(j, y).actor
    ensures Nth(j, x) >= 1
    ensures Nth(j, x) < Nth(j, y) <==> Rank(j, x) < Rank(j, y)
    ensures Nth(j, x) == Nth(j, y) <==> x == y
  {
    EntriesGrow(j, Get(j, x).actor, 0, Rank(j, x));
    if Rank(j, x) < Rank(j, y) {
      NthLater(j, x, y);
    } else if Rank(j, y) < Rank(j, x) {
      NthLater(j, y, x);
    } else {
      assert x == y;
    }
  }

  /** The entry before `h` in its actor's chain: a parent, with the number before. */
  lemma Previous(j: Log, h: EntryHash) returns (g: EntryHash)
    requires Causal(j) && Chained(j) && Present(j, h) && Nth(j, h) > 1
    ensures g in Get(j, h).parents && Present(j, g) && Get(j, g).actor == Get(j, h).actor
    ensures Nth(j, g) == Nth(j, h) - 1
  {
    var i, a := Rank(j, h) - 1, Get(j, h).actor;
    assert j[..i + 1] == j[..i] + [j[i]];
    ActorSnoc(j[..i], j[i], a);
    assert HasHead(j, i);
    g := Head(j[..i], a).value;
    HeadCounts(j, i, a);
  }

  /** The head of a prefix is recorded, is the actor's, and counts all its entries. */
  lemma {:induction false} HeadCounts(j: Log, i: nat, a: ActorId)
    requires DistinctIds(j) && i <= |j| && Head(j[..i], a).Some?
    ensures var g := Head(j[..i], a).value;
            Present(j, g) && Get(j, g).actor == a && Nth(j, g) == |ActorEntries(j[..i], a)|
    decreases i
  {
    assert j[..i] == j[..i - 1] + [j[i - 1]];
    ActorSnoc(j[..i - 1], j[i - 1], a);
    if j[i - 1].actor == a {
      RankAt(j, i - 1);
    } else {
      HeadCounts(j, i - 1, a);
    }
  }

  /** Earlier entries of an actor are in the past of its later ones. */
  lemma {:induction false} ChainBack(j: Log, x: EntryHash, z: EntryHash)
    requires Causal(j) && Chained(j) && Present(j, x) && Present(j, z)
    requires Get(j, x).actor == Get(j, z).actor && Nth(j, x) <= Nth(j, z)
    ensures x in Past(j, z)
    decreases Rank(j, z)
  {
    NthOrdered(j, x, z);
    if x != z {
      var g := Previous(j, z);
      ParentRank(j, z, g);
      ChainBack(j, x, g);
      PastOfParent(j, z, g);
    }
  }

  // ----- the past

  /** Everything reachable along parent edges, the entry itself included. */
  ghost function Past(j: Log, h: EntryHash): set<EntryHash>
    requires Causal(j)
  {
    Closure(j, h, 0, None)
  }

  lemma PastOfParent(j: Log, h: EntryHash, p: EntryHash)
    requires Causal(j) && Present(j, h) && p in Get(j, h).parents
    ensures Past(j, p) <= Past(j, h) && h in Past(j, h)
  {
    ParentsBelow(j, h);
    ClosureHolds(j, Get(j, h).parents, Rank(j, h), 1, None, p);
    ClosureDepth(j, p, 0, 1);
  }

  lemma {:induction false} InSomeClosure(j: Log, hs: seq<EntryHash>, bound: nat, x: EntryHash) returns (p: EntryHash)
    requires Causal(j) && (forall h :: h in hs ==> Rank(j, h) < bound) && x in Closures(j, hs, bound, 1, None)
    ensures p in hs && x in Past(j, p)
    decreases |hs|
  {
    if x in Closure(j, hs[0], 1, None) {
      p := hs[0];
      ClosureDepth(j, p, 0, 1);
    } else {
      p := InSomeClosure(j, hs[1..], bound, x);
    }
  }

  /** Whatever is in an entry's past is the entry or in a parent's past. */
  lemma PastComesFrom(j: Log, h: EntryHash, x: EntryHash) returns (p: EntryHash)
    requires Causal(j) && x in Past(j, h) && x != h
    ensures Present(j, h) && p in Get(j, h).parents && x in Past(j, p)
  {
    ParentsBelow(j, h);
    p := InSomeClosure(j, Get(j, h).parents, Rank(j, h), x);
  }

  lemma {:induction false} PastIsEarlier(j: Log, h: EntryHash, x: EntryHash)
    requires Causal(j) && x in Past(j, h)
    ensures Present(j, h) && Present(j, x) && Rank(j, x) <= Rank(j, h)
    decreases Rank(j, h)
  {
    if x != h {
      var p := PastComesFrom(j, h, x);
      ParentRank(j, h, p);
      PastIsEarlier(j, p, x);
    }
  }

  /** The past of what is in the past. */
  lemma PastTransitive(j: Log, h: EntryHash, x: EntryHash)
    requires Causal(j) && x in Past(j, h)
    ensures Past(j, x) <= Past(j, h)
  {
    ClosureWithin(j, h, 0, x);
  }

  // ----- what a clock says

  /** `x` is an entry of `a` in `past`. */
  ghost predicate Within(j: Log, past: set<EntryHash>, a: ActorId, x: EntryHash) {
    x in past && Present(j, x) && Get(j, x).actor == a
  }

  /** `n` is the number of the latest entry of `a` in `past`, and zero when there is none. */
  ghost predicate Tops(j: Log, past: set<EntryHash>, a: ActorId, n: nat) {
    && (forall x :: Within(j, past, a, x) ==> Nth(j, x) <= n)
    && (n > 0 ==> exists x :: Within(j, past, a, x) && Nth(j, x) == n)
  }

  /** The component of an entry's clock for `a` is the number of the latest entry of `a` in
      its past. */
  ghost predicate Tells(j: Log, h: EntryHash, a: ActorId)
    requires Causal(j)
  {
    Tops(j, Past(j, h), a, Count(ClockOf(j, h), a))
  }

  lemma MergedBounds(j: Log, h: EntryHash, a: ActorId, x: EntryHash)
    requires Causal(j) && Present(j, h) && Within(j, Past(j, h) - {h}, a, x)
    requires forall p :: p in Get(j, h).parents ==> Tells(j, p, a)
    ensures Nth(j, x) <= Count(Merged(j, Get(j, h).parents, Rank(j, h)), a)
  {
    var p := PastComesFrom(j, h, x);
    MergedCount(j, Get(j, h).parents, Rank(j, h), a);
    assert Tells(j, p, a) && Within(j, Past(j, p), a, x);
  }

  lemma MergedReaches(j: Log, h: EntryHash, a: ActorId) returns (x: EntryHash)
    requires Causal(j) && Present(j, h) && Count(Merged(j, Get(j, h).parents, Rank(j, h)), a) > 0
    requires forall p :: p in Get(j, h).parents ==> Tells(j, p, a)
    ensures Within(j, Past(j, h) - {h}, a, x)
    ensures Nth(j, x) == Count(Merged(j, Get(j, h).parents, Rank(j, h)), a)
  {
    var n := Count(Merged(j, Get(j, h).parents, Rank(j, h)), a);
    MergedCount(j, Get(j, h).parents, Rank(j, h), a);
    var p :| p in Get(j, h).parents && Count(ClockOf(j, p), a) == n;
    assert Tells(j, p, a);
    x :| Within(j, Past(j, p), a, x) && Nth(j, x) == n;
    BeforeEntry(j, h, p, x);
  }

  lemma BeforeEntry(j: Log, h: EntryHash, p: EntryHash, x: EntryHash)
    requires Causal(j) && Present(j, h) && p in Get(j, h).parents && x in Past(j, p)
    ensures x in Past(j, h) - {h}
  {
    PastOfParent(j, h, p);
    PastIsEarlier(j, p, x);
    ParentRank(j, h, p);
  }

  /** The merged clock of the parents tells of what comes before the entry. */
  lemma MergedTells(j: Log, h: EntryHash, a: ActorId)
    requires Causal(j) && Present(j, h) && forall p :: p in Get(j, h).parents ==> Tells(j, p, a)
    ensures Tops(j, Past(j, h) - {h}, a, Count(Merged(j, Get(j, h).parents, Rank(j, h)), a))
  {
    forall x | Within(j, Past(j, h) - {h}, a, x)
      ensures Nth(j, x) <= Count(Merged(j, Get(j, h).parents, Rank(j, h)), a)
    {
      MergedBounds(j, h, a, x);
    }
    if Count(Merged(j, Get(j, h).parents, Rank(j, h)), a) > 0 { var x := MergedReaches(j, h, a); }
  }

  lemma TopsSame(j: Log, past: set<EntryHash>, h: EntryHash, a: ActorId, n: nat)
    requires Present(j, h) && Get(j, h).actor != a && Tops(j, past - {h}, a, n)
    ensures Tops(j, past, a, n)
  {
    forall x | Within(j, past, a, x)
      ensures Nth(j, x) <= n
    {
      assert Within(j, past - {h}, a, x);
    }
    if n > 0 {
      var x :| Within(j, past - {h}, a, x) && Nth(j, x) == n;
      assert Within(j, past, a, x);
    }
  }

  lemma TopsTicked(j: Log, past: set<EntryHash>, h: EntryHash, a: ActorId, n: nat)
    requires Within(j, past, a, h) && Tops(j, past - {h}, a, n) && Nth(j, h) == n + 1
    ensures Tops(j, past, a, n + 1)
  {
    forall x | Within(j, past, a, x)
      ensures Nth(j, x) <= n + 1
    {
      assert x != h ==> Within(j, past - {h}, a, x);
    }
  }

  /** What comes before an entry holds its actor's entries before it, and no others. */
  lemma OwnTop(j: Log, h: EntryHash, n: nat)
    requires Causal(j) && Chained(j) && Present(j, h) && Tops(j, Past(j, h) - {h}, Get(j, h).actor, n)
    ensures Nth(j, h) == n + 1
  {
    var a := Get(j, h).actor;
    NthOrdered(j, h, h);
    if Nth(j, h) > 1 {
      var g := Previous(j, h);
      PastOfParent(j, h, g);
      assert Within(j, Past(j, h) - {h}, a, g);
    }
    if n > 0 {
      var x :| Within(j, Past(j, h) - {h}, a, x) && Nth(j, x) == n;
      PastIsEarlier(j, h, x);
      NthOrdered(j, x, h);
    }
  }

  lemma {:induction false} ClockTells(j: Log, h: EntryHash, a: ActorId)
    requires Causal(j) && ParentClosed(j) && Chained(j) && Present(j, h)
    ensures Tells(j, h, a)
    ensures Get(j, h).actor == a ==> Count(ClockOf(j, h), a) == Nth(j, h)
    decreases Rank(j, h)
  {
    forall p | p in Get(j, h).parents
      ensures Tells(j, p, a)
    {
      ParentRank(j, h, p);
      assert Present(j, p) by { assert p in j[Rank(j, h) - 1].parents; }
      ClockTells(j, p, a);
    }
    MergedTells(j, h, a);
    var n := Count(Merged(j, Get(j, h).parents, Rank(j, h)), a);
    if Get(j, h).actor == a {
      OwnTop(j, h, n);
      TopsTicked(j, Past(j, h), h, a, n);
    } else {
      TopsSame(j, Past(j, h), h, a, n);
    }
  }

  /** An entry is in another's past exactly when the other's clock counts it: each clock maps
      every actor to how many of its entries are in the past. */
  lemma PastIffCounted(j: Log, x: EntryHash, y: EntryHash)
    requires Causal(j) && ParentClosed(j) && Chained(j) && Present(j, x) && Present(j, y)
    ensures x in Past(j, y) <==> Nth(j, x) <= Count(ClockOf(j, y), Get(j, x).actor)
  {
    var a := Get(j, x).actor;
    ClockTells(j, y, a);
    NthOrdered(j, x, x);
    if x in Past(j, y) { assert Within(j, Past(j, y), a, x); }
    if Nth(j, x) <= Count(ClockOf(j, y), a) {
      var z :| Within(j, Past(j, y), a, z) && Nth(j, z) == Count(ClockOf(j, y), a);
      ChainBack(j, x, z);
      PastTransitive(j, y, z);
    }
  }

  /** In a journal grown by appends, one clock is before or equal to another exactly when its
      entry is in the other's past; so the clocks decide causality. */
  lemma ClocksDecideCausality(j: Log, x: EntryHash, y: EntryHash)
    requires Causal(j) && ParentClosed(j) && Chained(j) && Present(j, x) && Present(j, y)
    ensures BeforeOrEqual(ClockOf(j, x), ClockOf(j, y)) <==> x in Past(j, y)
    ensures HappensBefore(ClockOf(j, x), ClockOf(j, y)) <==> x in Past(j, y) && x != y
  {
    if x in Past(j, y) { PastIsBefore(j, x, y); }
    if BeforeOrEqual(ClockOf(j, x), ClockOf(j, y)) { BeforeIsPast(j, x, y); }
    if ClockOf(j, x) == ClockOf(j, y) { ClocksDiffer(j, x, y); }
  }

  lemma BeforeIsPast(j: Log, x: EntryHash, y: EntryHash)
    requires Causal(j) && ParentClosed(j) && Chained(j) && Present(j, x) && Present(j, y)
    requires BeforeOrEqual(ClockOf(j, x), ClockOf(j, y))
    ensures x in Past(j, y)
  {
    var c := ClockOf(j, x);
    ClockTells(j, x, Get(j, x).actor);
    NthOrdered(j, x, x);
    assert Get(j, x).actor in c;
    PastIffCounted(j, x, y);
  }

  /** No two entries share a clock. */
  lemma ClocksDiffer(j: Log, x: EntryHash, y: EntryHash)
    requires Causal(j) && ParentClosed(j) && Chained(j) && Present(j, x) && Present(j, y)
    requires ClockOf(j, x) == ClockOf(j, y)
    ensures x == y
  {
    BeforeIsPast(j, x, y);
    BeforeIsPast(j, y, x);
    PastIsEarlier(j, x, y);
    PastIsEarlier(j, y, x);
  }

  lemma {:induction false} MergedTicked(j: Log, hs: seq<EntryHash>, bound: nat)
    requires Causal(j) && (forall h :: h in hs ==> Rank(j, h) < bound)
    ensures Ticked(Merged(j, hs, bound))
    decreases bound, 0, |hs|
  {
    if hs != [] {
      ClockTicked(j, hs[0]);
      MergedTicked(j, hs[1..], bound);
    }
  }

  lemma {:induction false} ClockTicked(j: Log, h: EntryHash)
    requires Causal(j)
    ensures Ticked(ClockOf(j, h))
    decreases Rank(j, h), 1, 0
  {
    if Present(j, h) {
      ParentsBelow(j, h);
      MergedTicked(j, Get(j, h).parents, Rank(j, h));
    }
  }

  lemma PastIsBefore(j: Log, x: EntryHash, y: EntryHash)
    requires Causal(j) && ParentClosed(j) && Chained(j) && x in Past(j, y) && Present(j, x) && Present(j, y)
    ensures BeforeOrEqual(ClockOf(j, x), ClockOf(j, y))
  {
    PastTransitive(j, y, x);
    forall a | a in ClockOf(j, x)
      ensures ClockOf(j, x)[a] <= Count(ClockOf(j, y), a)
    {
      ClockTells(j, x, a);
      ClockTells(j, y, a);
      if ClockOf(j, x)[a] > 0 {
        var z :| Within(j, Past(j, x), a, z) && Nth(j, z) == ClockOf(j, x)[a];
        assert Within(j, Past(j, y), a, z);
      }
    }
  }
}
