/** Sorted forms: ordered sets listed ascending, and clause lists sorted by the
    lexicographic order with duplicates removed. Both forms are unique, which is
    what lets lists built by different code be compared for equality.
 */
module Ordering {

  /** The members of one clause. */
  function Elements(xs: seq<nat>): set<nat> {
    set x | x in xs
  }

  predicate Distinct(xs: seq<nat>) {
    forall i, k :: 0 <= i < k < |xs| ==> xs[i] != xs[k]
  }

  lemma SubsetSize(a: set<nat>, b: set<nat>)
    requires a <= b
    ensures |a| <= |b|
    ensures |a| == |b| ==> a == b
  {
    assert b == a + (b - a);
  }

  /** The clauses of one list. */
  function Listed(xs: seq<seq<nat>>): set<seq<nat>> {
    set x | x in xs
  }

  // ----- one clause: a set of addresses listed ascending

  ghost predicate Ascending(xs: seq<nat>) {
    forall i, k :: 0 <= i < k < |xs| ==> xs[i] < xs[k]
  }

  predicate IsLeast(m: nat, s: set<nat>) {
    m in s && forall x :: x in s ==> m <= x
  }

  lemma {:induction false} LeastExists(s: set<nat>) returns (m: nat)
    requires s != {}
    ensures IsLeast(m, s)
  {
    m :| m in s;
    var rest := s - {m};
    if rest != {} {
      var n := LeastExists(rest);
      assert forall x :: x in s ==> x == m || x in rest;
      if n < m { m := n; }
    } else {
      assert s == {m};
    }
  }

  lemma SomeLeast(s: set<nat>)
    requires s != {}
    ensures exists m :: m in s && IsLeast(m, s)
  {
    var m := LeastExists(s);
  }

  function Least(s: set<nat>): (m: nat)
    requires s != {}
    ensures IsLeast(m, s)
  {
    SomeLeast(s);
    var m :| m in s && IsLeast(m, s);
    m
  }

  lemma PrependLeast(m: nat, rest: seq<nat>, s: set<nat>)
    requires IsLeast(m, s) && Ascending(rest) && Elements(rest) == s - {m}
    ensures Ascending([m] + rest) && Elements([m] + rest) == s
  {
    forall i | 0 <= i < |rest|
      ensures m < rest[i]
    {
      assert rest[i] in Elements(rest);
    }
    assert forall x :: x in [m] + rest <==> x == m || x in rest;
    assert forall x :: x in s <==> x == m || x in Elements(rest);
  }

  /** The iteration order of an ordered set. */
  function SortedList(s: set<nat>): (r: seq<nat>)
    ensures Ascending(r) && Elements(r) == s && |r| == |s|
    ensures r == [] <==> s == {}
  {
    if s == {} then []
    else
      var m := Least(s);
      var rest := SortedList(s - {m});
      PrependLeast(m, rest, s);
      [m] + rest
  }

  lemma {:induction false} AscendingUnique(a: seq<nat>, b: seq<nat>)
    requires Ascending(a) && Ascending(b) && Elements(a) == Elements(b)
    ensures a == b
    decreases |a|
  {
    assert b == [] || b[0] in Elements(b);
    if a != [] {
      assert a[0] in Elements(b) && b != [] && b[0] in Elements(a);
      assert a[0] == b[0];
      assert Elements(a[1..]) == Elements(a) - {a[0]} by {
        assert forall x :: x in a <==> x == a[0] || x in a[1..];
      }
      assert Elements(b[1..]) == Elements(b) - {b[0]} by {
        assert forall x :: x in b <==> x == b[0] || x in b[1..];
      }
      AscendingUnique(a[1..], b[1..]);
      assert a == [a[0]] + a[1..] && b == [b[0]] + b[1..];
    }
  }

  // ----- clause lists: lexicographic order

  predicate LexLess(a: seq<nat>, b: seq<nat>) {
    if b == [] then false
    else if a == [] then true
    else a[0] < b[0] || (a[0] == b[0] && LexLess(a[1..], b[1..]))
  }

  lemma {:induction false} LexTotal(a: seq<nat>, b: seq<nat>)
    ensures LexLess(a, b) || a == b || LexLess(b, a)
  {
    if a != [] && b != [] && a[0] == b[0] {
      LexTotal(a[1..], b[1..]);
      assert a == [a[0]] + a[1..] && b == [b[0]] + b[1..];
    }
  }

  lemma {:induction false} LexIrreflexive(a: seq<nat>)
    ensures !LexLess(a, a)
  {
    if a != [] { LexIrreflexive(a[1..]); }
  }

  lemma {:induction false} LexTransitive(a: seq<nat>, b: seq<nat>, c: seq<nat>)
    requires LexLess(a, b) && LexLess(b, c)
    ensures LexLess(a, c)
  {
    if a != [] && a[0] == b[0] && b[0] == c[0] {
      LexTransitive(a[1..], b[1..], c[1..]);
    }
  }

  ghost predicate Sorted(xs: seq<seq<nat>>) {
    forall i, k :: 0 <= i < k < |xs| ==> LexLess(xs[i], xs[k])
  }

  /** Insert into a sorted duplicate-free list, keeping it so. */
  function Insert(x: seq<nat>, xs: seq<seq<nat>>): (r: seq<seq<nat>>)
    requires Sorted(xs)
    ensures Sorted(r) && Listed(r) == Listed(xs) + {x}
  {
    if xs == [] then [x]
    else if x == xs[0] then
      assert Listed(xs) == Listed(xs) + {x}; xs
    else if LexLess(x, xs[0]) then
      FrontSorted(x, xs);
      [x] + xs
    else
      var rest := Insert(x, xs[1..]);
      InsertBehind(x, xs, rest);
      [xs[0]] + rest
  }

  lemma InsertBehind(x: seq<nat>, xs: seq<seq<nat>>, rest: seq<seq<nat>>)
    requires xs != [] && Sorted(xs) && x != xs[0] && !LexLess(x, xs[0])
    requires Sorted(rest) && Listed(rest) == Listed(xs[1..]) + {x}
    ensures Sorted([xs[0]] + rest) && Listed([xs[0]] + rest) == Listed(xs) + {x}
  {
    LexTotal(x, xs[0]);
    ListedCons(xs[0], rest);
    ListedCons(xs[0], xs[1..]);
    assert xs == [xs[0]] + xs[1..];
    forall i | 0 <= i < |rest|
      ensures LexLess(xs[0], rest[i])
    {
      assert rest[i] in Listed(xs[1..]) + {x};
    }
  }

  lemma ListedCons(x: seq<nat>, xs: seq<seq<nat>>)
    ensures Listed([x] + xs) == {x} + Listed(xs)
  {
  }

  lemma FrontSorted(x: seq<nat>, xs: seq<seq<nat>>)
    requires Sorted(xs) && xs != [] && LexLess(x, xs[0])
    ensures Sorted([x] + xs) && Listed([x] + xs) == Listed(xs) + {x}
  {
    ListedCons(x, xs);
    forall k | 0 < k < |xs|
      ensures LexLess(x, xs[k])
    {
      LexTransitive(x, xs[0], xs[k]);
    }
  }

  /** Sort then drop duplicates. */
  function SortDedup(xs: seq<seq<nat>>): (r: seq<seq<nat>>)
    ensures Sorted(r) && Listed(r) == Listed(xs)
  {
    if xs == [] then []
    else
      assert xs == [xs[0]] + xs[1..];
      Insert(xs[0], SortDedup(xs[1..]))
  }

  lemma {:induction false} SortedUnique(a: seq<seq<nat>>, b: seq<seq<nat>>)
    requires Sorted(a) && Sorted(b) && Listed(a) == Listed(b)
    ensures a == b
    decreases |a|
  {
    assert b == [] || b[0] in Listed(b);
    if a != [] {
      assert a[0] in Listed(b) && b != [] && b[0] in Listed(a);
      SortedHeads(a, b);
      SortedTail(a);
      SortedTail(b);
      SortedUnique(a[1..], b[1..]);
      assert a == [a[0]] + a[1..] && b == [b[0]] + b[1..];
    }
  }

  lemma SortedHeads(a: seq<seq<nat>>, b: seq<seq<nat>>)
    requires Sorted(a) && Sorted(b) && a != [] && b != [] && a[0] in b && b[0] in a
    ensures a[0] == b[0]
  {
    if a[0] != b[0] {
      assert LexLess(b[0], a[0]) && LexLess(a[0], b[0]);
      LexTransitive(a[0], b[0], a[0]);
      LexIrreflexive(a[0]);
    }
  }

  lemma SortedTail(a: seq<seq<nat>>)
    requires Sorted(a) && a != []
    ensures Sorted(a[1..]) && Listed(a[1..]) == Listed(a) - {a[0]}
  {
    assert a == [a[0]] + a[1..];
    if a[0] in a[1..] {
      LexIrreflexive(a[0]);
    }
  }

  // ----- a family of sets as a clause list

  /** `clauses` is the canonical list of the sets in `family`. */
  ghost predicate Canonical(clauses: seq<seq<nat>>, family: set<set<nat>>) {
    Sorted(clauses) && Listed(clauses) == (set s | s in family :: SortedList(s))
  }

  /** A family has one canonical list only, and the list determines the family. */
  lemma CanonicalUnique(a: seq<seq<nat>>, b: seq<seq<nat>>, family: set<set<nat>>)
    requires Canonical(a, family) && Canonical(b, family)
    ensures a == b
  {
    SortedUnique(a, b);
  }

  lemma CanonicalMembers(clauses: seq<seq<nat>>, family: set<set<nat>>)
    requires Canonical(clauses, family)
    ensures forall s :: s in family ==> SortedList(s) in clauses
    ensures forall c :: c in clauses ==> Elements(c) in family && Ascending(c)
    ensures clauses == [] <==> family == {}
  {
    forall s | s in family
      ensures SortedList(s) in clauses
    {
      assert SortedList(s) in Listed(clauses);
    }
    forall c | c in clauses
      ensures Elements(c) in family && Ascending(c)
    {
      assert c in Listed(clauses);
      var s :| s in family && c == SortedList(s);
      assert Elements(c) == s;
    }
    if family != {} {
      var s :| s in family;
      assert SortedList(s) in clauses;
    }
    if clauses != [] {
      assert clauses[0] in clauses;
    }
  }
}
