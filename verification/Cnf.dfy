/** Propositional clauses over numbered variables, and a decision procedure. */
module Cnf {

  /** An assignment is the set of variables that are true. */
  type Assignment = set<nat>

  /** A positive literal is its variable; a negative one is its negation. */
  type Lits = seq<int>

  datatype Verdict = Model(a: Assignment) | Unsat

  predicate Holds(a: Assignment, l: int) {
    if l > 0 then l in a else -l !in a
  }

  predicate SatClause(a: Assignment, c: Lits) {
    exists l :: l in c && Holds(a, l)
  }

  predicate SatAll(a: Assignment, cs: seq<Lits>) {
    forall c :: c in cs ==> SatClause(a, c)
  }

  function Var(l: int): nat { if l > 0 then l else -l }

  /** The literal that says a variable is false. */
  function Neg(v: nat): (l: int)
    ensures Var(l) == v && forall a :: Holds(a, l) <==> v !in a
  {
    var i: int := v;
    -i
  }

  ghost predicate Below(cs: seq<Lits>, next: nat) {
    forall c, l :: c in cs && l in c ==> Var(l) < next
  }

  ghost predicate Agree(a: Assignment, b: Assignment, next: nat) {
    forall v: nat :: v < next ==> (v in a <==> v in b)
  }

  /** Some assignment that agrees with `a` below `base` satisfies the clauses. */
  ghost predicate Extends(a: Assignment, clauses: seq<Lits>, base: nat) {
    exists b :: Agree(a, b, base) && SatAll(b, clauses)
  }

  lemma AgreeChain(a: Assignment, b: Assignment, c: Assignment, base: nat, mid: nat)
    requires Agree(a, b, base) && Agree(b, c, mid) && base <= mid
    ensures Agree(a, c, base)
  {
  }

  lemma AgreeSat(a: Assignment, b: Assignment, cs: seq<Lits>, next: nat)
    requires Agree(a, b, next) && Below(cs, next)
    ensures SatAll(a, cs) <==> SatAll(b, cs)
  {
  }

  lemma SatSnoc(a: Assignment, cs: seq<Lits>, c: Lits)
    ensures SatAll(a, cs + [c]) <==> SatAll(a, cs) && SatClause(a, c)
  {
  }

  function VarsOf(cs: seq<Lits>): set<nat> {
    set c, l | c in cs && l in c :: Var(l)
  }

  class SatSolver {
    var clauses: seq<Lits>

    constructor ()
      ensures clauses == []
    {
      clauses := [];
    }

    method AddClause(c: Lits)
      modifies this
      ensures clauses == old(clauses) + [c]
      ensures forall a :: SatAll(a, clauses) <==> SatAll(a, old(clauses)) && SatClause(a, c)
      ensures forall n :: Below(clauses, n) <==> Below(old(clauses), n) && forall l :: l in c ==> Var(l) < n
    {
      forall a: Assignment
        ensures SatAll(a, clauses + [c]) <==> SatAll(a, clauses) && SatClause(a, c)
      {
        SatSnoc(a, clauses, c);
      }
      assert forall d :: d in clauses + [c] <==> d in clauses || d == c;
      clauses := clauses + [c];
    }

    /** Complete search over the variables that occur, standing for the SAT library. */
    method Solve() returns (r: Verdict)
      ensures r.Model? ==> SatAll(r.a, clauses)
      ensures r.Unsat? ==> forall a :: !SatAll(a, clauses)
    {
      var vars := VarsOf(clauses);
      forall a: Assignment | SatAll(a, clauses)
        ensures a * vars <= vars && SatAll(a * vars, clauses)
      {
        RestrictSat(a, clauses);
      }
      if exists a: Assignment :: a <= vars && SatAll(a, clauses) {
        var a: Assignment :| a <= vars && SatAll(a, clauses);
        return Model(a);
      }
      return Unsat;
    }
  }

  lemma RestrictSat(a: Assignment, cs: seq<Lits>)
    requires SatAll(a, cs)
    ensures SatAll(a * VarsOf(cs), cs)
  {
  }
}
