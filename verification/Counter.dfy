/** The sequential-counter encoding of "at most k of these variables are true". */
module Counter {
  import opened Cnf

  function Min(a: nat, b: nat): nat { if a < b then a else b }

  function CountTrue(a: Assignment, xs: seq<nat>): (n: nat)
    ensures n <= |xs|
  {
    if xs == [] then 0
    else CountTrue(a, xs[..|xs| - 1]) + if xs[|xs| - 1] in a then 1 else 0
  }

  // ----- numbering of the counter variables

  /** Variables used by the rows before row `i`. */
  function Offset(k: nat, i: nat): nat {
    if i <= 1 then 0 else Offset(k, i - 1) + Min(k, i - 1)
  }

  /** The variable that says at least `m` of the first `i` are true. */
  function Slot(base: nat, k: nat, i: nat, m: nat): nat
    requires 1 <= m
  {
    base + Offset(k, i) + m - 1
  }

  lemma {:induction false} OffsetMonotone(k: nat, i: nat, n: nat)
    requires 1 <= i < n
    ensures Offset(k, i) + Min(k, i) <= Offset(k, n)
    decreases n
  {
    if i < n - 1 { OffsetMonotone(k, i, n - 1); }
  }

  lemma SlotInjective(base: nat, k: nat, i: nat, m: nat, p: nat, q: nat)
    requires 1 <= m <= Min(k, i) && 1 <= q <= Min(k, p)
    requires Slot(base, k, i, m) == Slot(base, k, p, q)
    ensures i == p && m == q
  {
    if i < p { OffsetMonotone(k, i, p); }
    if p < i { OffsetMonotone(k, p, i); }
  }

  lemma SlotBelow(base: nat, k: nat, i: nat, m: nat, n: nat)
    requires 1 <= m <= Min(k, i) && i <= n
    ensures base <= Slot(base, k, i, m) < base + Offset(k, n + 1)
  {
    OffsetMonotone(k, i, n + 1);
  }

  // ----- what the clauses say, row by row

  ghost predicate At(a: Assignment, base: nat, k: nat, i: nat, m: nat)
  {
    1 <= m && Slot(base, k, i, m) in a
  }

  /** The first counter of row `i`. */
  ghost predicate First(a: Assignment, xs: seq<nat>, base: nat, k: nat, i: nat)
    requires 1 <= i <= |xs|
  {
    && (xs[i - 1] in a ==> At(a, base, k, i, 1))
    && (i >= 2 && At(a, base, k, i - 1, 1) ==> At(a, base, k, i, 1))
  }

  /** Counter `m` of row `i`, for `m` at least two. */
  ghost predicate Higher(a: Assignment, xs: seq<nat>, base: nat, k: nat, i: nat, m: nat)
    requires 2 <= m && 2 <= i <= |xs|
  {
    && (xs[i - 1] in a && At(a, base, k, i - 1, m - 1) ==> At(a, base, k, i, m))
    && (m <= Min(k, i - 1) && At(a, base, k, i - 1, m) ==> At(a, base, k, i, m))
  }

  /** Row `i` does not overflow. */
  ghost predicate Capped(a: Assignment, xs: seq<nat>, base: nat, k: nat, i: nat)
    requires 2 <= i <= |xs|
  {
    k < i ==> !(xs[i - 1] in a && At(a, base, k, i - 1, k))
  }

  ghost predicate Counts(a: Assignment, xs: seq<nat>, base: nat, k: nat) {
    && (forall i :: 1 <= i <= |xs| ==> First(a, xs, base, k, i))
    && (forall i, m :: 2 <= i <= |xs| && 2 <= m <= Min(k, i) ==> Higher(a, xs, base, k, i, m))
    && (forall i :: 2 <= i <= |xs| ==> Capped(a, xs, base, k, i))
  }

  // ----- the counters count

  lemma {:induction false} CountersReach(a: Assignment, xs: seq<nat>, base: nat, k: nat, i: nat, m: nat)
    requires Counts(a, xs, base, k) && 1 <= m <= Min(k, i) && i <= |xs| && CountTrue(a, xs[..i]) >= m
    ensures At(a, base, k, i, m)
    decreases i
  {
    assert xs[..i][..i - 1] == xs[..i - 1];
    assert First(a, xs, base, k, i);
    if CountTrue(a, xs[..i - 1]) >= m {
      CountersReach(a, xs, base, k, i - 1, m);
      if m >= 2 { assert Higher(a, xs, base, k, i, m); }
    } else if m >= 2 {
      CountersReach(a, xs, base, k, i - 1, m - 1);
      assert Higher(a, xs, base, k, i, m);
    }
  }

  lemma {:induction false} CountersCap(a: Assignment, xs: seq<nat>, base: nat, k: nat, i: nat)
    requires Counts(a, xs, base, k) && 1 <= k && i <= |xs|
    ensures CountTrue(a, xs[..i]) <= k
    decreases i
  {
    if i > 0 {
      CountersCap(a, xs, base, k, i - 1);
      assert xs[..i][..i - 1] == xs[..i - 1];
      if CountTrue(a, xs[..i - 1]) == k {
        CountersReach(a, xs, base, k, i - 1, k);
        assert Capped(a, xs, base, k, i);
      }
    }
  }

  /** The intended values of the counters. */
  ghost function CounterVars(a: Assignment, xs: seq<nat>, base: nat, k: nat): set<nat> {
    set i, m | 1 <= i <= |xs| && 1 <= m <= |xs| && m <= Min(k, i) && CountTrue(a, xs[..i]) >= m :: Slot(base, k, i, m)
  }

  ghost function Filled(a: Assignment, xs: seq<nat>, base: nat, k: nat): Assignment {
    (set v | v in a && v < base) + CounterVars(a, xs, base, k)
  }

  lemma FilledAt(a: Assignment, xs: seq<nat>, base: nat, k: nat, i: nat, m: nat)
    requires 1 <= i <= |xs| && 1 <= m <= Min(k, i)
    ensures At(Filled(a, xs, base, k), base, k, i, m) <==> CountTrue(a, xs[..i]) >= m
  {
    SlotBelow(base, k, i, m, |xs|);
    var v := Slot(base, k, i, m);
    if v in CounterVars(a, xs, base, k) {
      var p, q :| 1 <= p <= |xs| && 1 <= q <= |xs| && q <= Min(k, p) && CountTrue(a, xs[..p]) >= q
                  && v == Slot(base, k, p, q);
      SlotInjective(base, k, i, m, p, q);
    }
  }

  lemma FilledCounts(a: Assignment, xs: seq<nat>, base: nat, k: nat)
    requires 1 <= k && (forall x :: x in xs ==> x < base) && CountTrue(a, xs) <= k
    ensures Counts(Filled(a, xs, base, k), xs, base, k) && Agree(a, Filled(a, xs, base, k), base)
  {
    var b := Filled(a, xs, base, k);
    FilledAgrees(a, xs, base, k);
    forall i | 1 <= i <= |xs|
      ensures First(b, xs, base, k, i)
    {
      FilledRow(a, xs, base, k, i, 1);
    }
    forall i, m | 2 <= i <= |xs| && 2 <= m <= Min(k, i)
      ensures Higher(b, xs, base, k, i, m)
    {
      FilledRow(a, xs, base, k, i, m);
    }
    forall i | 2 <= i <= |xs|
      ensures Capped(b, xs, base, k, i)
    {
      FilledIsCapped(a, xs, base, k, i);
    }
  }

  lemma FilledIsCapped(a: Assignment, xs: seq<nat>, base: nat, k: nat, i: nat)
    requires 1 <= k && (forall x :: x in xs ==> x < base) && CountTrue(a, xs) <= k && 2 <= i <= |xs|
    ensures Capped(Filled(a, xs, base, k), xs, base, k, i)
  {
    assert xs[i - 1] in xs;
    if k < i {
      FilledAgrees(a, xs, base, k);
      FilledAt(a, xs, base, k, i - 1, k);
      assert xs[..i][..i - 1] == xs[..i - 1];
      CountMonotone(a, xs, i);
    }
  }

  lemma FilledAgrees(a: Assignment, xs: seq<nat>, base: nat, k: nat)
    ensures Agree(a, Filled(a, xs, base, k), base)
  {
  }

  lemma FilledRow(a: Assignment, xs: seq<nat>, base: nat, k: nat, i: nat, m: nat)
    requires 1 <= k && (forall x :: x in xs ==> x < base) && 1 <= i <= |xs| && 1 <= m <= Min(k, i)
    ensures m == 1 ==> First(Filled(a, xs, base, k), xs, base, k, i)
    ensures m >= 2 ==> Higher(Filled(a, xs, base, k), xs, base, k, i, m)
  {
    var b := Filled(a, xs, base, k);
    FilledAgrees(a, xs, base, k);
    FilledAt(a, xs, base, k, i, m);
    assert xs[i - 1] in xs;
    assert xs[..i][..i - 1] == xs[..i - 1];
    if i >= 2 {
      if m >= 2 { FilledAt(a, xs, base, k, i - 1, m - 1); }
      if m <= Min(k, i - 1) { FilledAt(a, xs, base, k, i - 1, m); }
    }
  }

  lemma {:induction false} CountMonotone(a: Assignment, xs: seq<nat>, i: nat)
    requires i <= |xs|
    ensures CountTrue(a, xs[..i]) <= CountTrue(a, xs)
    decreases |xs| - i
  {
    if i == |xs| {
      assert xs[..i] == xs;
    } else {
      CountMonotone(a, xs, i + 1);
      assert xs[..i + 1][..i] == xs[..i];
    }
  }

  // ----- the emitter

  /** The table of counter variables: filled below the diagonal, zero above. */
  ghost predicate IsTable(s: array2<nat>, base: nat, k: nat, n: nat)
    reads s
  {
    && s.Length0 == n + 1 && s.Length1 == k + 1
    && forall i, m :: 1 <= i <= n && 1 <= m <= k ==> s[i, m] == if m <= i then Slot(base, k, i, m) else 0
  }

  method FillTable(base: nat, k: nat, n: nat) returns (s: array2<nat>, next: nat)
    requires 1 <= base
    ensures fresh(s) && IsTable(s, base, k, n) && next == base + Offset(k, n + 1)
  {
    s := new nat[n + 1, k + 1]((i, m) => 0);
    next := base;
    var i := 1;
    while i <= n
      invariant 1 <= i <= n + 1 && next == base + Offset(k, i)
      invariant forall p, q :: 1 <= p < i && 1 <= q <= k ==> s[p, q] == if q <= p then Slot(base, k, p, q) else 0
      invariant forall p, q :: i <= p <= n && 1 <= q <= k ==> s[p, q] == 0
    {
      var m := 1;
      while m <= Min(k, i)
        invariant 1 <= m <= Min(k, i) + 1 && next == base + Offset(k, i) + m - 1
        invariant forall p, q :: 1 <= p < i && 1 <= q <= k ==> s[p, q] == if q <= p then Slot(base, k, p, q) else 0
        invariant forall q :: 1 <= q < m ==> s[i, q] == Slot(base, k, i, q)
        invariant forall q :: m <= q <= k ==> s[i, q] == 0
        invariant forall p, q :: i < p <= n && 1 <= q <= k ==> s[p, q] == 0
      {
        s[i, m] := next;
        next := next + 1;
        m := m + 1;
      }
      i := i + 1;
    }
  }

  lemma SatTwo(a: Assignment, l: int, m: int)
    ensures SatClause(a, [l, m]) <==> Holds(a, l) || Holds(a, m)
  {
  }

  lemma SatThree(a: Assignment, l: int, m: int, o: int)
    ensures SatClause(a, [l, m, o]) <==> Holds(a, l) || Holds(a, m) || Holds(a, o)
  {
  }

  /** Add `l or m`. */
  method AddTwo(solver: SatSolver, l: int, m: int, ghost next: nat)
    requires Below(solver.clauses, next) && Var(l) < next && Var(m) < next
    modifies solver
    ensures Below(solver.clauses, next)
    ensures forall a :: SatAll(a, solver.clauses) <==> SatAll(a, old(solver.clauses)) && (Holds(a, l) || Holds(a, m))
  {
    forall a ensures SatClause(a, [l, m]) <==> Holds(a, l) || Holds(a, m) { SatTwo(a, l, m); }
    solver.AddClause([l, m]);
  }

  method AddThree(solver: SatSolver, l: int, m: int, o: int, ghost next: nat)
    requires Below(solver.clauses, next) && Var(l) < next && Var(m) < next && Var(o) < next
    modifies solver
    ensures Below(solver.clauses, next)
    ensures forall a ::
              SatAll(a, solver.clauses) <==>
                SatAll(a, old(solver.clauses)) && (Holds(a, l) || Holds(a, m) || Holds(a, o))
  {
    forall a ensures SatClause(a, [l, m, o]) <==> Holds(a, l) || Holds(a, m) || Holds(a, o) { SatThree(a, l, m, o); }
    solver.AddClause([l, m, o]);
  }

  ghost predicate FirstRows(a: Assignment, xs: seq<nat>, base: nat, k: nat, n: nat)
    requires n <= |xs| + 1
  {
    forall i :: 1 <= i < n ==> First(a, xs, base, k, i)
  }

  ghost predicate HigherRow(a: Assignment, xs: seq<nat>, base: nat, k: nat, i: nat, n: nat)
    requires 2 <= i <= |xs|
  {
    forall m :: 2 <= m < n ==> Higher(a, xs, base, k, i, m)
  }

  ghost predicate HigherRows(a: Assignment, xs: seq<nat>, base: nat, k: nat, n: nat)
    requires n <= |xs| + 1
  {
    forall i :: 2 <= i < n ==> HigherRow(a, xs, base, k, i, Min(k, i) + 1)
  }

  ghost predicate CappedRows(a: Assignment, xs: seq<nat>, base: nat, k: nat, n: nat)
    requires n <= |xs| + 1
  {
    forall i :: 2 <= i < n ==> Capped(a, xs, base, k, i)
  }

  ghost predicate Ready(solver: SatSolver, xs: seq<nat>, base: nat, k: nat, s: array2<nat>)
    reads solver, s
  {
    && 1 <= k < |xs| && 1 <= base && (forall x :: x in xs ==> x < base)
    && IsTable(s, base, k, |xs|) && Below(solver.clauses, base + Offset(k, |xs| + 1))
  }

  lemma TableAt(s: array2<nat>, base: nat, k: nat, n: nat, i: nat, m: nat)
    requires IsTable(s, base, k, n) && 1 <= base && 1 <= i <= n && 1 <= m <= k
    ensures m <= i ==> s[i, m] == Slot(base, k, i, m) && 1 <= s[i, m] < base + Offset(k, n + 1)
    ensures m > i ==> s[i, m] == 0
  {
    if m <= i { SlotBelow(base, k, i, m, n); }
  }

  method EmitFirstAt(solver: SatSolver, xs: seq<nat>, base: nat, k: nat, s: array2<nat>, i: nat)
    requires Ready(solver, xs, base, k, s) && 1 <= i <= |xs|
    modifies solver
    ensures Ready(solver, xs, base, k, s)
    ensures forall a :: SatAll(a, solver.clauses) <==> SatAll(a, old(solver.clauses)) && First(a, xs, base, k, i)
  {
    ghost var next := base + Offset(k, |xs| + 1);
    TableAt(s, base, k, |xs|, i, 1);
    assert xs[i - 1] in xs;
    SlotBelow(base, k, i, 1, |xs|);
    AddTwo(solver, Neg(xs[i - 1]), s[i, 1], next);
    if i >= 2 {
      TableAt(s, base, k, |xs|, i - 1, 1);
      AddTwo(solver, Neg(s[i - 1, 1]), s[i, 1], next);
    }
  }

  method EmitFirst(solver: SatSolver, xs: seq<nat>, base: nat, k: nat, s: array2<nat>)
    requires Ready(solver, xs, base, k, s)
    modifies solver
    ensures Ready(solver, xs, base, k, s)
    ensures forall a ::
              SatAll(a, solver.clauses) <==> SatAll(a, old(solver.clauses)) && FirstRows(a, xs, base, k, |xs| + 1)
  {
    EmitFirstAt(solver, xs, base, k, s, 1);
    forall a ensures FirstRows(a, xs, base, k, 2) <==> First(a, xs, base, k, 1) {}
    var i := 2;
    while i <= |xs|
      invariant 2 <= i <= |xs| + 1 && Ready(solver, xs, base, k, s)
      invariant forall a ::
                  SatAll(a, solver.clauses) <==> SatAll(a, old(solver.clauses)) && FirstRows(a, xs, base, k, i)
    {
      EmitFirstAt(solver, xs, base, k, s, i);
      forall a ensures FirstRows(a, xs, base, k, i + 1) <==> FirstRows(a, xs, base, k, i) && First(a, xs, base, k, i) {}
      i := i + 1;
    }
  }

  method EmitHigherAt(solver: SatSolver, xs: seq<nat>, base: nat, k: nat, s: array2<nat>, i: nat, m: nat)
    requires Ready(solver, xs, base, k, s) && 2 <= i <= |xs| && 2 <= m <= Min(k, i)
    modifies solver
    ensures Ready(solver, xs, base, k, s)
    ensures forall a :: SatAll(a, solver.clauses) <==> SatAll(a, old(solver.clauses)) && Higher(a, xs, base, k, i, m)
  {
    ghost var next := base + Offset(k, |xs| + 1);
    TableAt(s, base, k, |xs|, i, m);
    TableAt(s, base, k, |xs|, i - 1, m - 1);
    TableAt(s, base, k, |xs|, i - 1, m);
    assert xs[i - 1] in xs;
    SlotBelow(base, k, i, m, |xs|);
    AddThree(solver, Neg(xs[i - 1]), Neg(s[i - 1, m - 1]), s[i, m], next);
    if s[i - 1, m] != 0 {
      AddTwo(solver, Neg(s[i - 1, m]), s[i, m], next);
    }
  }

  method EmitHigherRow(solver: SatSolver, xs: seq<nat>, base: nat, k: nat, s: array2<nat>, i: nat)
    requires Ready(solver, xs, base, k, s) && 2 <= i <= |xs|
    modifies solver
    ensures Ready(solver, xs, base, k, s)
    ensures forall a ::
              SatAll(a, solver.clauses) <==>
                SatAll(a, old(solver.clauses)) && HigherRow(a, xs, base, k, i, Min(k, i) + 1)
  {
    var upper := Min(k, i);
    var m := 2;
    while m <= upper
      invariant 2 <= m <= upper + 1 && Ready(solver, xs, base, k, s)
      invariant forall a ::
                  SatAll(a, solver.clauses) <==> SatAll(a, old(solver.clauses)) && HigherRow(a, xs, base, k, i, m)
    {
      EmitHigherAt(solver, xs, base, k, s, i, m);
      forall a
        ensures HigherRow(a, xs, base, k, i, m + 1) <==> HigherRow(a, xs, base, k, i, m) && Higher(a, xs, base, k, i, m)
      {
      }
      m := m + 1;
    }
  }

  method EmitHigher(solver: SatSolver, xs: seq<nat>, base: nat, k: nat, s: array2<nat>)
    requires Ready(solver, xs, base, k, s)
    modifies solver
    ensures Ready(solver, xs, base, k, s)
    ensures forall a ::
              SatAll(a, solver.clauses) <==> SatAll(a, old(solver.clauses)) && HigherRows(a, xs, base, k, |xs| + 1)
  {
    var i := 2;
    while i <= |xs|
      invariant 2 <= i <= |xs| + 1 && Ready(solver, xs, base, k, s)
      invariant forall a ::
                  SatAll(a, solver.clauses) <==> SatAll(a, old(solver.clauses)) && HigherRows(a, xs, base, k, i)
    {
      EmitHigherRow(solver, xs, base, k, s, i);
      forall a
        ensures HigherRows(a, xs, base, k, i + 1) <==>
                  HigherRows(a, xs, base, k, i) && HigherRow(a, xs, base, k, i, Min(k, i) + 1)
      {
      }
      i := i + 1;
    }
  }

  method EmitCaps(solver: SatSolver, xs: seq<nat>, base: nat, k: nat, s: array2<nat>)
    requires Ready(solver, xs, base, k, s)
    modifies solver
    ensures Ready(solver, xs, base, k, s)
    ensures forall a ::
              SatAll(a, solver.clauses) <==> SatAll(a, old(solver.clauses)) && CappedRows(a, xs, base, k, |xs| + 1)
  {
    ghost var next := base + Offset(k, |xs| + 1);
    var i := 2;
    while i <= |xs|
      invariant 2 <= i <= |xs| + 1 && Ready(solver, xs, base, k, s)
      invariant forall a ::
                  SatAll(a, solver.clauses) <==> SatAll(a, old(solver.clauses)) && CappedRows(a, xs, base, k, i)
    {
      assert xs[i - 1] in xs;
      TableAt(s, base, k, |xs|, i - 1, k);
      SlotBelow(base, k, i, 1, |xs|);
      if k < i {
        AddTwo(solver, Neg(xs[i - 1]), Neg(s[i - 1, k]), next);
      }
      forall a
        ensures CappedRows(a, xs, base, k, i + 1) <==> CappedRows(a, xs, base, k, i) && Capped(a, xs, base, k, i)
      {
      }
      i := i + 1;
    }
  }

  /** An assignment extends to the emitted clauses exactly when it keeps the old
      ones and at most `k` of `xs` are true. */
  ghost predicate Encoded(before: seq<Lits>, after: seq<Lits>, k: nat, xs: seq<nat>, base: nat) {
    && (forall a :: SatAll(a, after) ==> SatAll(a, before) && CountTrue(a, xs) <= k)
    && (forall a :: SatAll(a, before) && CountTrue(a, xs) <= k ==> Extends(a, after, base))
  }

  lemma RowsCount(a: Assignment, xs: seq<nat>, base: nat, k: nat)
    ensures FirstRows(a, xs, base, k, |xs| + 1) && HigherRows(a, xs, base, k, |xs| + 1)
            && CappedRows(a, xs, base, k, |xs| + 1)
            <==> Counts(a, xs, base, k)
  {
  }

  /** The row constraints are an encoding of the bound. */
  lemma CountsEncode(before: seq<Lits>, after: seq<Lits>, k: nat, xs: seq<nat>, base: nat)
    requires 1 <= k && (forall x :: x in xs ==> x < base) && Below(before, base)
    requires forall a :: SatAll(a, after) <==> SatAll(a, before) && Counts(a, xs, base, k)
    ensures Encoded(before, after, k, xs, base)
  {
    forall a | SatAll(a, after)
      ensures CountTrue(a, xs) <= k
    {
      CountersCap(a, xs, base, k, |xs|);
      assert xs[..|xs|] == xs;
    }
    forall a | SatAll(a, before) && CountTrue(a, xs) <= k
      ensures Extends(a, after, base)
    {
      var b := Filled(a, xs, base, k);
      FilledCounts(a, xs, base, k);
      AgreeSat(a, b, before, base);
      assert Agree(a, b, base) && SatAll(b, after);
    }
  }

  method ForbidAll(solver: SatSolver, xs: seq<nat>, ghost base: nat)
    requires (forall x :: x in xs ==> x < base) && Below(solver.clauses, base)
    modifies solver
    ensures Below(solver.clauses, base)
    ensures forall a :: SatAll(a, solver.clauses) <==> SatAll(a, old(solver.clauses)) && CountTrue(a, xs) == 0
  {
    var i := 0;
    while i < |xs|
      invariant 0 <= i <= |xs| && Below(solver.clauses, base)
      invariant forall a :: SatAll(a, solver.clauses) <==> SatAll(a, old(solver.clauses)) && CountTrue(a, xs[..i]) == 0
    {
      assert xs[i] in xs && xs[..i + 1][..i] == xs[..i];
      forall a ensures SatClause(a, [Neg(xs[i])]) <==> xs[i] !in a { assert [Neg(xs[i])][0] in [Neg(xs[i])]; }
      solver.AddClause([Neg(xs[i])]);
      i := i + 1;
    }
    assert xs[..i] == xs;
  }

  /** The sequential counter, for every list and every bound. */
  method SequentialAtMost(k: nat, xs: seq<nat>, solver: SatSolver, base: nat) returns (next: nat)
    requires 1 <= base && (forall x :: x in xs ==> x < base) && Below(solver.clauses, base)
    modifies solver
    ensures base <= next && Below(solver.clauses, next)
    ensures Encoded(old(solver.clauses), solver.clauses, k, xs, base)
  {
    next := base;
    if k >= |xs| {
      forall a | SatAll(a, solver.clauses) ensures Extends(a, solver.clauses, base) { assert Agree(a, a, base); }
      return;
    }
    if k == 0 {
      ForbidAll(solver, xs, base);
      forall a | SatAll(a, solver.clauses) ensures Extends(a, solver.clauses, base) { assert Agree(a, a, base); }
      return;
    }
    var s;
    s, next := FillTable(base, k, |xs|);
    EmitFirst(solver, xs, base, k, s);
    EmitHigher(solver, xs, base, k, s);
    EmitCaps(solver, xs, base, k, s);
    forall a
      ensures SatAll(a, solver.clauses) <==> SatAll(a, old(solver.clauses)) && Counts(a, xs, base, k)
    {
      RowsCount(a, xs, base, k);
    }
    CountsEncode(old(solver.clauses), solver.clauses, k, xs, base);
  }
}
