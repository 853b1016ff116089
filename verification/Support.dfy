/** Typed support expressions, their three-valued evaluation, and their
    compilation into hard clauses.
 */
module Support {
  import opened Journals
  import opened Ordering
  import opened WalkSpec

  datatype SupportOutcome = Satisfied | NotSatisfied | Unknown

  datatype SupportExpr =
    | AllOf(ids: set<EntryHash>)
    | AnyOf(branches: seq<SupportExpr>)
    | Opaque

  /** The constructors refuse an empty requirement set. (They refuse an empty
      branch list too; nothing below depends on that.) */
  ghost predicate WellFormed(e: SupportExpr) {
    match e
    case AllOf(ids) => ids != {}
    case AnyOf(branches) => forall b :: b in branches ==> WellFormed(b)
    case Opaque => true
  }

  predicate IsStrong(e: SupportExpr) {
    match e
    case AllOf(_) => true
    case AnyOf(branches) => forall b :: b in branches ==> IsStrong(b)
    case Opaque => false
  }

  // ----- evaluation over the set of recorded entries

  function Eval(e: SupportExpr, held: set<EntryHash>, horizon: Option<nat>, depth: nat): SupportOutcome {
    if Beyond(depth, horizon) then Unknown
    else match e
      case Opaque => Unknown
      case AllOf(ids) => if ids <= held then Satisfied else NotSatisfied
      case AnyOf(branches) =>
        if exists b :: b in branches && Eval(b, held, horizon, depth + 1) == Satisfied then Satisfied
        else if exists b :: b in branches && Eval(b, held, horizon, depth + 1) == Unknown then Unknown
        else NotSatisfied
  }

  /** The evaluation loop returns at the first satisfied branch; its answer does
      not depend on the order of the branches. */
  method Evaluate(e: SupportExpr, held: set<EntryHash>, horizon: Option<nat>, depth: nat) returns (r: SupportOutcome)
    ensures r == Eval(e, held, horizon, depth)
    decreases e
  {
    if horizon.Some? && depth > horizon.value {
      return Unknown;
    }
    match e {
      case Opaque =>
        return Unknown;
      case AllOf(ids) =>
        return if forall id :: id in ids ==> id in held then Satisfied else NotSatisfied;
      case AnyOf(branches) =>
        var sawUnknown := false;
        var i := 0;
        while i < |branches|
          invariant 0 <= i <= |branches|
          invariant forall k :: 0 <= k < i ==> Eval(branches[k], held, horizon, depth + 1) != Satisfied
          invariant sawUnknown <==> exists k :: 0 <= k < i && Eval(branches[k], held, horizon, depth + 1) == Unknown
        {
          var outcome := Evaluate(branches[i], held, horizon, depth + 1);
          match outcome {
            case Satisfied =>
              assert branches[i] in branches;
              return Satisfied;
            case Unknown => sawUnknown := true;
            case NotSatisfied =>
          }
          i := i + 1;
        }
        assert forall b :: b in branches ==> Eval(b, held, horizon, depth + 1) != Satisfied;
        if sawUnknown {
          ghost var k :| 0 <= k < |branches| && Eval(branches[k], held, horizon, depth + 1) == Unknown;
          assert branches[k] in branches;
          return Unknown;
        }
        return NotSatisfied;
    }
  }

  /** At least as far-sighted. */
  predicate Sees(longer: Option<nat>, shorter: Option<nat>) {
    longer.None? || (shorter.Some? && shorter.value <= longer.value)
  }

  /** A shorter horizon only turns answers into `Unknown`; a definite answer is
      the answer at every longer horizon, and with none. */
  lemma {:induction false} HorizonOnlyBlurs(e: SupportExpr, held: set<EntryHash>, shorter: Option<nat>,
                                            longer: Option<nat>, depth: nat)
    requires Sees(longer, shorter)
    ensures Eval(e, held, shorter, depth) == Unknown || Eval(e, held, shorter, depth) == Eval(e, held, longer, depth)
    decreases e
  {
    if e.AnyOf? && !Beyond(depth, shorter) {
      forall b | b in e.branches
        ensures Eval(b, held, shorter, depth + 1) == Unknown
                || Eval(b, held, shorter, depth + 1) == Eval(b, held, longer, depth + 1)
      {
        HorizonOnlyBlurs(b, held, shorter, longer, depth + 1);
      }
    }
  }

  // ----- what an answer means, by the parts of the expression

  /** `part` is reached from `e` by choosing a branch `d` times. */
  ghost predicate PartAt(e: SupportExpr, part: SupportExpr, d: nat)
    decreases e
  {
    if d == 0 then part == e
    else e.AnyOf? && exists b :: b in e.branches && PartAt(b, part, d - 1)
  }

  /** Some requirement set within the horizon is fully recorded. */
  ghost predicate Met(e: SupportExpr, held: set<EntryHash>, horizon: Option<nat>, depth: nat) {
    exists ids, d: nat :: PartAt(e, AllOf(ids), d) && !Beyond(depth + d, horizon) && ids <= held
  }

  /** Some part is opaque or lies beyond the horizon. */
  ghost predicate Hidden(e: SupportExpr, horizon: Option<nat>, depth: nat) {
    exists part, d: nat :: PartAt(e, part, d) && (part == Opaque || Beyond(depth + d, horizon))
  }

  lemma MetBelow(e: SupportExpr, held: set<EntryHash>, horizon: Option<nat>, depth: nat)
    requires e.AnyOf? && !Beyond(depth, horizon)
    ensures Met(e, held, horizon, depth) <==> exists b :: b in e.branches && Met(b, held, horizon, depth + 1)
  {
    if Met(e, held, horizon, depth) {
      var ids, d: nat :| PartAt(e, AllOf(ids), d) && !Beyond(depth + d, horizon) && ids <= held;
      var b :| b in e.branches && PartAt(b, AllOf(ids), d - 1);
      assert !Beyond(depth + 1 + (d - 1), horizon);
      assert Met(b, held, horizon, depth + 1);
    }
    if b :| b in e.branches && Met(b, held, horizon, depth + 1) {
      var ids, d: nat :| PartAt(b, AllOf(ids), d) && !Beyond(depth + 1 + d, horizon) && ids <= held;
      assert PartAt(e, AllOf(ids), d + 1);
    }
  }

  lemma HiddenBelow(e: SupportExpr, horizon: Option<nat>, depth: nat)
    requires e.AnyOf? && !Beyond(depth, horizon)
    ensures Hidden(e, horizon, depth) <==> exists b :: b in e.branches && Hidden(b, horizon, depth + 1)
  {
    if Hidden(e, horizon, depth) {
      var part, d: nat :| PartAt(e, part, d) && (part == Opaque || Beyond(depth + d, horizon));
      assert d > 0;
      var b :| b in e.branches && PartAt(b, part, d - 1);
      assert Beyond(depth + 1 + (d - 1), horizon) == Beyond(depth + d, horizon);
      assert Hidden(b, horizon, depth + 1);
    }
    if b :| b in e.branches && Hidden(b, horizon, depth + 1) {
      var part, d: nat :| PartAt(b, part, d) && (part == Opaque || Beyond(depth + 1 + d, horizon));
      assert PartAt(e, part, d + 1);
    }
  }

  lemma LeafMeans(e: SupportExpr, held: set<EntryHash>, horizon: Option<nat>, depth: nat)
    requires !e.AnyOf? || Beyond(depth, horizon)
    ensures Met(e, held, horizon, depth) <==> !Beyond(depth, horizon) && e.AllOf? && e.ids <= held
    ensures Hidden(e, horizon, depth) <==> Beyond(depth, horizon) || e == Opaque
  {
    assert PartAt(e, e, 0);
  }

  /** The three answers, exactly: satisfied when a requirement set within the horizon is
      fully recorded; unknown when none is and some part is opaque or out of sight; not
      satisfied when none is and everything is in sight. */
  lemma {:induction false} EvalMeans(e: SupportExpr, held: set<EntryHash>, horizon: Option<nat>, depth: nat)
    ensures Eval(e, held, horizon, depth) == Satisfied <==> Met(e, held, horizon, depth)
    ensures Eval(e, held, horizon, depth) == Unknown <==>
              !Met(e, held, horizon, depth) && Hidden(e, horizon, depth)
    ensures Eval(e, held, horizon, depth) == NotSatisfied <==>
              !Met(e, held, horizon, depth) && !Hidden(e, horizon, depth)
    decreases e
  {
    if e.AnyOf? && !Beyond(depth, horizon) {
      MetBelow(e, held, horizon, depth);
      HiddenBelow(e, horizon, depth);
      forall b | b in e.branches
        ensures Eval(b, held, horizon, depth + 1) == Satisfied <==> Met(b, held, horizon, depth + 1)
        ensures Eval(b, held, horizon, depth + 1) == Unknown <==>
                  !Met(b, held, horizon, depth + 1) && Hidden(b, horizon, depth + 1)
      {
        EvalMeans(b, held, horizon, depth + 1);
      }
    } else {
      LeafMeans(e, held, horizon, depth);
    }
  }

  /** An expression is strong exactly when no part of it is opaque. */
  lemma {:induction false} StrongMeans(e: SupportExpr)
    ensures IsStrong(e) <==> !Hidden(e, None, 0)
    decreases e
  {
    match e {
      case AnyOf(branches) =>
        HiddenBelow(e, None, 0);
        forall b | b in branches
          ensures IsStrong(b) <==> !Hidden(b, None, 1)
        {
          StrongMeans(b);
          assert Hidden(b, None, 1) <==> Hidden(b, None, 0);
        }
      case AllOf(_) => LeafMeans(e, {}, None, 0);
      case Opaque => LeafMeans(e, {}, None, 0);
    }
  }

  // ----- hard clauses

  function HardClauses(e: SupportExpr): seq<seq<EntryHash>>
    decreases e, 1
  {
    match e
    case AllOf(ids) => if ids == {} then [] else [SortedList(ids)]
    case AnyOf(branches) => BranchClauses(branches)
    case Opaque => []
  }

  function BranchClauses(branches: seq<SupportExpr>): seq<seq<EntryHash>>
    decreases branches, 0
  {
    if branches == [] then []
    else HardClauses(branches[0]) + BranchClauses(branches[1..])
  }

  lemma {:induction false} BranchClausesIn(branches: seq<SupportExpr>, c: seq<EntryHash>)
    ensures c in BranchClauses(branches) <==> exists b :: b in branches && c in HardClauses(b)
  {
    if branches != [] {
      var first, rest := branches[0], branches[1..];
      BranchClausesIn(rest, c);
      assert forall b :: b in branches <==> b == first || b in rest;
      assert BranchClauses(branches) == HardClauses(first) + BranchClauses(rest);
      if c in BranchClauses(rest) {
        var b :| b in rest && c in HardClauses(b);
        assert b in branches;
      }
      if c in HardClauses(first) {
        assert first in branches;
      }
    }
  }

  lemma {:induction false} BranchClausesExtend(branches: seq<SupportExpr>, b: SupportExpr)
    ensures BranchClauses(branches + [b]) == BranchClauses(branches) + HardClauses(b)
  {
    if branches == [] {
      assert (branches + [b])[1..] == [];
    } else {
      assert (branches + [b])[1..] == branches[1..] + [b];
      BranchClausesExtend(branches[1..], b);
    }
  }

  method HardClausesFromSupport(e: SupportExpr) returns (out: seq<seq<EntryHash>>)
    ensures out == HardClauses(e)
    decreases e
  {
    match e {
      case AllOf(ids) =>
        var clause := SortedList(ids);
        return if clause == [] then [] else [clause];
      case AnyOf(branches) =>
        out := [];
        var i := 0;
        while i < |branches|
          invariant 0 <= i <= |branches| && out == BranchClauses(branches[..i])
        {
          var sub := HardClausesFromSupport(branches[i]);
          BranchClausesExtend(branches[..i], branches[i]);
          assert branches[..i] + [branches[i]] == branches[..i + 1];
          out := out + sub;
          i := i + 1;
        }
        assert branches[..i] == branches;
      case Opaque =>
        return [];
    }
  }

  ghost predicate SomeClauseHeld(clauses: seq<seq<EntryHash>>, held: set<EntryHash>) {
    exists c :: c in clauses && Elements(c) <= held
  }

  /** Compilation preserves meaning: an expression is satisfied exactly when some
      compiled clause is fully recorded. */
  lemma {:induction false} ClausesPreserveMeaning(e: SupportExpr, held: set<EntryHash>, depth: nat)
    requires WellFormed(e)
    ensures Eval(e, held, None, depth) == Satisfied <==> SomeClauseHeld(HardClauses(e), held)
    decreases e
  {
    match e {
      case Opaque =>
      case AllOf(ids) =>
        assert HardClauses(e)[0] in HardClauses(e);
      case AnyOf(branches) =>
        forall b | b in branches
          ensures Eval(b, held, None, depth + 1) == Satisfied <==> SomeClauseHeld(HardClauses(b), held)
        {
          ClausesPreserveMeaning(b, held, depth + 1);
        }
        forall c
          ensures c in HardClauses(e) <==> exists b :: b in branches && c in HardClauses(b)
        {
          BranchClausesIn(branches, c);
        }
    }
  }

  /** Without a horizon the compiled clauses and the strength decide all three answers. */
  lemma ClausesDecide(e: SupportExpr, held: set<EntryHash>)
    requires WellFormed(e)
    ensures Eval(e, held, None, 0) == NotSatisfied <==> IsStrong(e) && !SomeClauseHeld(HardClauses(e), held)
    ensures Eval(e, held, None, 0) == Unknown <==> !IsStrong(e) && !SomeClauseHeld(HardClauses(e), held)
  {
    EvalMeans(e, held, None, 0);
    StrongMeans(e);
    ClausesPreserveMeaning(e, held, 0);
  }

  /** A fault set breaks the support exactly when it meets every clause that is
      recorded: the hitting sets of the clauses are the ways to falsify it. */
  lemma HittingFalsifies(e: SupportExpr, held: set<EntryHash>, cut: set<EntryHash>)
    requires WellFormed(e)
    ensures Eval(e, held - cut, None, 0) != Satisfied <==>
            forall c :: c in HardClauses(e) && Elements(c) <= held ==> Elements(c) * cut != {}
  {
    ClausesPreserveMeaning(e, held - cut, 0);
    forall c | c in HardClauses(e)
      ensures Elements(c) <= held - cut <==> Elements(c) <= held && Elements(c) * cut == {}
    {
      var s := Elements(c);
      if s <= held && s * cut == {} {
        forall x | x in s ensures x in held - cut { assert x !in s * cut; }
      }
    }
  }

  // ----- support from walked paths

  function PathBranches(paths: seq<Path>): seq<SupportExpr> {
    if paths == [] then []
    else
      var rest := PathBranches(paths[..|paths| - 1]);
      var ids := Elements(paths[|paths| - 1]);
      if ids == {} then rest else rest + [AllOf(ids)]
  }

  method SupportFromPaths(paths: seq<Path>, truncated: bool) returns (e: SupportExpr)
    ensures HardClauses(e) == BranchClauses(PathBranches(paths))
    ensures WellFormed(e)
    ensures IsStrong(e) <==> !truncated && exists p :: p in paths && p != []
  {
    var branches: seq<SupportExpr> := [];
    var i := 0;
    while i < |paths|
      invariant 0 <= i <= |paths| && branches == PathBranches(paths[..i])
      invariant forall b :: b in branches ==> b.AllOf? && b.ids != {}
      invariant branches != [] <==> exists k :: 0 <= k < i && paths[k] != []
    {
      assert paths[..i + 1][..i] == paths[..i];
      var ids := Elements(paths[i]);
      assert paths[i] != [] ==> paths[i][0] in ids;
      if ids != {} {
        branches := branches + [AllOf(ids)];
      }
      i := i + 1;
    }
    assert paths[..i] == paths;
    if branches != [] {
      ghost var k :| 0 <= k < |paths| && paths[k] != [];
      assert paths[k] in paths;
    }
    if truncated {
      BranchClausesExtend(branches, Opaque);
      branches := branches + [Opaque];
    }
    if branches == [] {
      return Opaque;
    }
    if |branches| == 1 && !truncated {
      assert branches[1..] == [] && branches[0] in branches;
      return branches[0];
    }
    if truncated {
      assert branches[|branches| - 1] == Opaque;
      assert Opaque in branches && !IsStrong(AnyOf(branches));
    } else {
      assert forall b :: b in branches ==> IsStrong(b);
    }
    return AnyOf(branches);
  }

  /** The clauses compiled from walked paths are the sorted member lists of the
      non-empty paths. Whether the walk was cut off leaves no trace in them. */
  lemma {:induction false} PathClauses(paths: seq<Path>, c: seq<EntryHash>)
    ensures c in BranchClauses(PathBranches(paths)) <==>
              exists p :: p in paths && p != [] && c == SortedList(Elements(p))
  {
    if paths != [] {
      var init, last := paths[..|paths| - 1], paths[|paths| - 1];
      assert forall p :: p in paths <==> p in init || p == last;
      PathClauses(init, c);
      assert last != [] ==> last[0] in Elements(last);
      if last != [] {
        BranchClausesExtend(PathBranches(init), AllOf(Elements(last)));
      }
    }
  }
}
