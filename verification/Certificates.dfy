/** The certificate verifier's checks on a recorded cut: membership, exact cost
    and the one-pass inclusion-minimality test over its own traversal.
 */
module Certificates {
  import opened Journals
  import opened Ordering
  import opened WalkSpec
  import CertWalk
  import Solver

  const MAX_CUT_MEMBERS: nat := 65536
  const MAX_RECORDED_HORIZON: nat := 64
  const MAX_EVENT_COST: nat := 5

  datatype RecordedSolverData = RecordedSolverData(
    cut: seq<EntryHash>,
    cost: nat,
    horizon: Option<nat>,
    supportVersion: Option<nat>,
    witnesses: seq<EntryHash>,
    reproduced: bool,
    baselinePassed: bool,
    subject: EntryHash)

  /** What the caller binds to: the lineage policy and the journal's root hash. */
  datatype Binding = Binding(strict: bool, root: EntryHash)

  /** A journal imported for its lineage alone is marked by epoch zero. */
  predicate LineageOnly(j: Log) {
    exists i :: 0 <= i < |j| && j[i].kind == Epoch && j[i].payload == EpochMark(0)
  }

  /** The subject is the journal's root, and the policy admits the journal. */
  predicate Attests(j: Log, d: RecordedSolverData, b: Binding) {
    !(b.strict && LineageOnly(j)) && d.subject == b.root != 0
  }

  // ----- what the checks are meant to establish

  ghost predicate HitsFamily(cut: set<EntryHash>, family: set<set<EntryHash>>) {
    forall s :: s in family ==> s * cut != {}
  }

  /** A hitting set none of whose proper subsets is one. */
  ghost predicate InclusionMinimal(cut: set<EntryHash>, family: set<set<EntryHash>>) {
    HitsFamily(cut, family) && forall sub: set<EntryHash> :: sub < cut ==> !HitsFamily(sub, family)
  }

  /** Member by member: some set is hit by that member alone. */
  ghost predicate Essential(m: EntryHash, cut: set<EntryHash>, family: set<set<EntryHash>>) {
    exists s :: s in family && s * cut == {m}
  }

  /** The member-wise test is inclusion-minimality. */
  lemma EssentialIffMinimal(cut: set<EntryHash>, family: set<set<EntryHash>>)
    requires HitsFamily(cut, family)
    ensures InclusionMinimal(cut, family) <==> forall m :: m in cut ==> Essential(m, cut, family)
  {
    if InclusionMinimal(cut, family) {
      forall m | m in cut
        ensures Essential(m, cut, family)
      {
        var sub := cut - {m};
        assert sub < cut;
        var s :| s in family && s * sub == {};
        assert s * cut <= {m} && s * cut != {};
        assert s * cut == {m};
      }
    }
    if forall m :: m in cut ==> Essential(m, cut, family) {
      forall sub: set<EntryHash> | sub < cut
        ensures !HitsFamily(sub, family)
      {
        var m :| m in cut && m !in sub;
        assert Essential(m, cut, family);
        var s :| s in family && s * cut == {m};
        assert s * sub <= s * cut;
        assert m !in s * sub;
      }
    }
  }

  function SumCost(j: Log, cut: seq<EntryHash>): nat {
    if cut == [] then 0 else SumCost(j, cut[..|cut| - 1]) + FaultCost(j, cut[|cut| - 1])
  }

  /** Everything but the traversal. */
  ghost predicate WellBound(j: Log, d: RecordedSolverData, b: Binding, expectedVersion: Option<nat>) {
    && Attests(j, d, b)
    && |d.cut| <= |j| && d.cut != [] && |d.cut| <= MAX_CUT_MEMBERS && Distinct(d.cut)
    && (forall w :: w in d.witnesses ==> Present(j, w)) && d.witnesses != []
    && (forall h :: h in d.cut ==> Present(j, h) && IsFaultable(Get(j, h).kind))
    && d.horizon.Some? && 1 <= d.horizon.value <= MAX_RECORDED_HORIZON
    && d.cost == SumCost(j, d.cut)
    && (d.supportVersion.Some? && expectedVersion.Some? ==> d.supportVersion == expectedVersion)
    && d.reproduced && d.baselinePassed
  }

  // ----- the walked paths name each entry once

  lemma {:induction false} BagDistinct(j: Log, h: EntryHash, depth: nat, horizon: Option<nat>, prefix: Path, path: Path)
    requires Causal(j) && path in PathBag(j, h, depth, horizon, prefix)
    requires Distinct(prefix) && forall x :: x in prefix ==> Rank(j, x) > Rank(j, h)
    ensures Distinct(path)
    decreases Rank(j, h), 1, 0
  {
    if !Beyond(depth, horizon) && Get(j, h).parents != [] {
      BagsDistinct(j, Get(j, h).parents, Rank(j, h), depth + 1, horizon, prefix + Own(j, h), path);
    }
  }

  lemma {:induction false} BagsDistinct(j: Log, hs: seq<EntryHash>, bound: nat, depth: nat, horizon: Option<nat>,
                                        prefix: Path, path: Path)
    requires Causal(j) && (forall h :: h in hs ==> Rank(j, h) < bound)
             && path in PathBags(j, hs, bound, depth, horizon, prefix)
    requires Distinct(prefix) && forall x :: x in prefix ==> Rank(j, x) >= bound
    ensures Distinct(path)
    decreases bound, 0, |hs|
  {
    if path in PathBag(j, hs[0], depth, horizon, prefix) {
      BagDistinct(j, hs[0], depth, horizon, prefix, path);
    } else {
      BagsDistinct(j, hs[1..], bound, depth, horizon, prefix, path);
    }
  }

  // ----- the one-pass test

  /** The members of a path that are in the cut, in path order. */
  function InCut(p: Path, cut: set<EntryHash>): seq<EntryHash> {
    if p == [] then [] else (if p[0] in cut then [p[0]] else []) + InCut(p[1..], cut)
  }

  lemma {:induction false} InCutElements(p: Path, cut: set<EntryHash>)
    ensures Elements(InCut(p, cut)) == Elements(p) * cut
    ensures InCut(p, cut) == [] <==> Elements(p) * cut == {}
  {
    if p != [] {
      InCutElements(p[1..], cut);
      assert Elements(p) == {p[0]} + Elements(p[1..]);
      assert Elements(InCut(p, cut)) == (if p[0] in cut then {p[0]} else {}) + Elements(InCut(p[1..], cut));
      if InCut(p, cut) != [] { assert InCut(p, cut)[0] in Elements(InCut(p, cut)); }
    }
  }

  lemma InCutSingle(p: Path, cut: set<EntryHash>, m: EntryHash)
    requires Distinct(p)
    ensures InCut(p, cut) == [m] <==> Elements(p) * cut == {m}
  {
    InCutElements(p, cut);
    if InCut(p, cut) == [m] {
      assert Elements([m]) == {m};
    }
    if Elements(p) * cut == {m} {
      SingleInCut(p, cut, m);
    }
  }

  lemma {:induction false} SingleInCut(p: Path, cut: set<EntryHash>, m: EntryHash)
    requires Distinct(p) && Elements(p) * cut == {m}
    ensures InCut(p, cut) == [m]
  {
    assert m in Elements(p) * cut;
    var rest := p[1..];
    assert forall x :: x in p <==> x == p[0] || x in rest;
    if p[0] in cut {
      assert p[0] in Elements(p) * cut;
      InCutElements(rest, cut);
      assert Elements(rest) * cut == {} by {
        forall x | x in Elements(rest) * cut ensures x == m { assert x in Elements(p) * cut; }
        assert m !in rest;
      }
    } else {
      assert Elements(p) * cut == Elements(rest) * cut;
      SingleInCut(rest, cut, m);
    }
  }

  datatype CertResult = Accepted | Rejected(reason: Reason)

  datatype Reason =
    | LineageNotCertifiable | ZeroSubject | SubjectMismatch
    | CutExceedsJournal | ForgedWitness | UnknownCutEntry | CutNotFaultable
    | EmptyCut | TooManyMembers | HorizonOutOfRange | DuplicateMember | CostTooHigh | CostMismatch
    | VersionMismatch | NotReproduced | NoHorizon | NoWitnesses
    | TooManyPaths | MissesPath | RedundantMember

  /** Every path is hit, and every member is the only cut member of some path. */
  ghost predicate PassesOnePass(paths: seq<Path>, cut: seq<EntryHash>) {
    && (forall p :: p in paths ==> InCut(p, Elements(cut)) != [])
    && (forall m :: m in cut ==> Alone(m, paths, Elements(cut)))
  }

  /** Some path meets the cut in `m` only. */
  ghost predicate Alone(m: EntryHash, paths: seq<Path>, cut: set<EntryHash>) {
    exists p :: p in paths && InCut(p, cut) == [m]
  }

  /** The essential set: members seen alone on one of the given paths. */
  ghost predicate IsEssentialSet(essential: set<EntryHash>, paths: seq<Path>, cut: set<EntryHash>) {
    forall m :: m in essential <==> Alone(m, paths, cut)
  }

  method CheckPaths(paths: seq<Path>, cut: seq<EntryHash>) returns (r: CertResult)
    ensures r == Accepted <==> PassesOnePass(paths, cut)
    ensures r.Rejected? ==> r.reason.MissesPath? || r.reason.RedundantMember?
    ensures r == Rejected(MissesPath) <==> exists p :: p in paths && InCut(p, Elements(cut)) == []
  {
    var members := Elements(cut);
    var essential: set<EntryHash> := {};
    var i := 0;
    while i < |paths|
      invariant 0 <= i <= |paths|
      invariant forall p :: p in paths[..i] ==> InCut(p, members) != []
      invariant IsEssentialSet(essential, paths[..i], members)
    {
      assert forall p :: p in paths[..i + 1] <==> p in paths[..i] || p == paths[i];
      var hit := InCut(paths[i], members);
      if hit == [] {
        assert paths[i] in paths;
        return Rejected(MissesPath);
      }
      if |hit| == 1 {
        assert hit == [hit[0]];
        essential := essential + {hit[0]};
      }
      i := i + 1;
    }
    assert paths[..i] == paths;
    var k := 0;
    while k < |cut|
      invariant 0 <= k <= |cut| && forall m :: m in cut[..k] ==> m in essential
    {
      if cut[k] !in essential {
        assert cut[k] in cut;
        return Rejected(RedundantMember);
      }
      k := k + 1;
    }
    assert cut[..k] == cut;
    return Accepted;
  }

  /** On duplicate-free paths the one-pass test is inclusion-minimality. */
  lemma OnePassIsMinimal(paths: seq<Path>, cut: seq<EntryHash>, family: set<set<EntryHash>>)
    requires forall p :: p in paths ==> Distinct(p)
    requires forall s :: s in family <==> exists p :: p in paths && s == Elements(p)
    ensures PassesOnePass(paths, cut) <==> InclusionMinimal(Elements(cut), family)
  {
    var members := Elements(cut);
    forall p | p in paths
      ensures InCut(p, members) != [] <==> Elements(p) * members != {}
    {
      InCutElements(p, members);
    }
    OnePassHits(paths, cut, family);
    forall m: EntryHash
      ensures Alone(m, paths, members) <==> Essential(m, members, family)
    {
      OnePassEssential(paths, members, family, m);
    }
    assert forall m :: m in cut <==> m in members;
    if HitsFamily(members, family) {
      EssentialIffMinimal(members, family);
    }
  }

  lemma OnePassHits(paths: seq<Path>, cut: seq<EntryHash>, family: set<set<EntryHash>>)
    requires forall s :: s in family <==> exists p :: p in paths && s == Elements(p)
    requires forall p :: p in paths ==> (InCut(p, Elements(cut)) != [] <==> Elements(p) * Elements(cut) != {})
    ensures (forall p :: p in paths ==> InCut(p, Elements(cut)) != []) <==> HitsFamily(Elements(cut), family)
  {
  }

  lemma OnePassEssential(paths: seq<Path>, members: set<EntryHash>, family: set<set<EntryHash>>, m: EntryHash)
    requires forall p :: p in paths ==> Distinct(p)
    requires forall s :: s in family <==> exists p :: p in paths && s == Elements(p)
    ensures Alone(m, paths, members) <==> Essential(m, members, family)
  {
    if Alone(m, paths, members) {
      var p :| p in paths && InCut(p, members) == [m];
      InCutSingle(p, members, m);
      assert Elements(p) in family;
    }
    if Essential(m, members, family) {
      var s :| s in family && s * members == {m};
      var p :| p in paths && s == Elements(p);
      InCutSingle(p, members, m);
    }
  }

  method CheckDuplicates(cut: seq<EntryHash>) returns (ok: bool)
    ensures ok <==> Distinct(cut)
  {
    var seen: set<EntryHash> := {};
    var i := 0;
    while i < |cut|
      invariant 0 <= i <= |cut| && seen == Elements(cut[..i]) && Distinct(cut[..i])
    {
      assert cut[..i + 1] == cut[..i] + [cut[i]];
      if cut[i] in seen {
        ghost var k :| 0 <= k < i && cut[k] == cut[i];
        return false;
      }
      seen := seen + {cut[i]};
      i := i + 1;
    }
    assert cut[..i] == cut;
    return true;
  }

  lemma {:induction false} SumBound(j: Log, cut: seq<EntryHash>)
    requires forall h :: h in cut ==> Present(j, h)
    ensures SumCost(j, cut) <= MAX_EVENT_COST * |cut|
  {
    if cut != [] {
      assert cut[|cut| - 1] in cut;
      assert forall h :: h in cut[..|cut| - 1] ==> h in cut;
      SumBound(j, cut[..|cut| - 1]);
    }
  }

  /** The recomputed cost, with checked addition. */
  method RecomputeCost(j: Log, cut: seq<EntryHash>) returns (total: Option<nat>)
    requires |cut| <= MAX_CUT_MEMBERS && forall h :: h in cut ==> Present(j, h)
    ensures total == Some(SumCost(j, cut))
  {
    var sum := 0;
    var i := 0;
    while i < |cut|
      invariant 0 <= i <= |cut| && sum == SumCost(j, cut[..i])
    {
      assert cut[..i + 1][..i] == cut[..i];
      assert forall h :: h in cut[..i + 1] ==> h in cut;
      SumBound(j, cut[..i + 1]);
      sum := sum + FaultCost(j, cut[i]);
      assert sum <= MAX_EVENT_COST * MAX_CUT_MEMBERS;
      if sum > Solver.U64_MAX {
        return None;
      }
      i := i + 1;
    }
    assert cut[..i] == cut;
    return Some(sum);
  }

  /** What each refusal says about the record. */
  ghost predicate Refuses(j: Log, d: RecordedSolverData, b: Binding, expectedVersion: Option<nat>, reason: Reason)
    requires Causal(j)
  {
    match reason
    case LineageNotCertifiable => b.strict && LineageOnly(j)
    case ZeroSubject => d.subject == 0
    case SubjectMismatch => d.subject != b.root
    case CutExceedsJournal => |d.cut| > |j|
    case ForgedWitness => exists w :: w in d.witnesses && !Present(j, w)
    case UnknownCutEntry => exists h :: h in d.cut && !Present(j, h)
    case CutNotFaultable => exists h :: h in d.cut && Present(j, h) && !IsFaultable(Get(j, h).kind)
    case EmptyCut => d.cut == []
    case TooManyMembers => |d.cut| > MAX_CUT_MEMBERS
    case HorizonOutOfRange => d.horizon.Some? && !(1 <= d.horizon.value <= MAX_RECORDED_HORIZON)
    case DuplicateMember => !Distinct(d.cut)
    case CostTooHigh => d.cost > MAX_EVENT_COST * |d.cut|
    case CostMismatch => d.cost != SumCost(j, d.cut)
    case VersionMismatch =>
      d.supportVersion.Some? && expectedVersion.Some? && d.supportVersion.value != expectedVersion.value
    case NotReproduced => !(d.reproduced && d.baselinePassed)
    case NoHorizon => d.horizon.None?
    case NoWitnesses => d.witnesses == []
    case TooManyPaths => |WitnessBag(j, d.witnesses, d.horizon)| > CertWalk.MAX_INCLUSION_PATHS
    case MissesPath => !HitsFamily(Elements(d.cut), FaultSets(j, d.witnesses, d.horizon))
    case RedundantMember => Redundant(d.cut, FaultSets(j, d.witnesses, d.horizon))
  }

  /** The cut hits everything, and still does without one of its members. */
  ghost predicate Redundant(cut: seq<EntryHash>, family: set<set<EntryHash>>) {
    && HitsFamily(Elements(cut), family)
    && exists m :: m in cut && HitsFamily(Elements(cut) - {m}, family)
  }

  /** The refusals of the checks that do not walk. */
  predicate Unbound(reason: Reason) {
    !(reason.VersionMismatch? || reason.NotReproduced? || reason.NoHorizon? || reason.NoWitnesses?
      || reason.TooManyPaths? || reason.MissesPath? || reason.RedundantMember?)
  }

  /** The record names what the journal holds. */
  method CheckNames(j: Log, d: RecordedSolverData, b: Binding) returns (r: CertResult)
    requires Causal(j)
    ensures r.Rejected? ==> Unbound(r.reason) && Refuses(j, d, b, None, r.reason)
    ensures r == Accepted <==>
      && Attests(j, d, b) && |d.cut| <= |j|
      && (forall w :: w in d.witnesses ==> Present(j, w))
      && (forall h :: h in d.cut ==> Present(j, h) && IsFaultable(Get(j, h).kind))
  {
    if b.strict && LineageOnly(j) { return Rejected(LineageNotCertifiable); }
    if |d.cut| > |j| { return Rejected(CutExceedsJournal); }
    if d.subject == 0 { return Rejected(ZeroSubject); }
    if exists w :: w in d.witnesses && !Present(j, w) { return Rejected(ForgedWitness); }
    if d.subject != b.root { return Rejected(SubjectMismatch); }
    if exists h :: h in d.cut && !Present(j, h) { return Rejected(UnknownCutEntry); }
    if exists h :: h in d.cut && !IsFaultable(Get(j, h).kind) { return Rejected(CutNotFaultable); }
    return Accepted;
  }

  /** The journal-bound checks that do not walk. */
  method CheckBinding(j: Log, d: RecordedSolverData, b: Binding) returns (r: CertResult)
    requires Causal(j)
    ensures r.Rejected? ==> Unbound(r.reason) && Refuses(j, d, b, None, r.reason)
    ensures r == Accepted <==>
      && Attests(j, d, b)
      && |d.cut| <= |j| && d.cut != [] && |d.cut| <= MAX_CUT_MEMBERS && Distinct(d.cut)
      && (forall w :: w in d.witnesses ==> Present(j, w))
      && (forall h :: h in d.cut ==> Present(j, h) && IsFaultable(Get(j, h).kind))
      && (d.horizon.Some? ==> 1 <= d.horizon.value <= MAX_RECORDED_HORIZON)
      && d.cost == SumCost(j, d.cut)
  {
    r := CheckNames(j, d, b);
    if r.Rejected? { return; }
    if d.cut == [] { return Rejected(EmptyCut); }
    if |d.cut| > MAX_CUT_MEMBERS { return Rejected(TooManyMembers); }
    if d.horizon.Some? && !(1 <= d.horizon.value <= MAX_RECORDED_HORIZON) { return Rejected(HorizonOutOfRange); }
    var distinct := CheckDuplicates(d.cut);
    if !distinct { return Rejected(DuplicateMember); }
    SumBound(j, d.cut);
    if d.cost > |d.cut| * MAX_EVENT_COST { return Rejected(CostTooHigh); }
    var exact := RecomputeCost(j, d.cut);
    if exact.None? || d.cost != exact.value { return Rejected(CostMismatch); }
    return Accepted;
  }

  /** The verifier accepts a recorded cut exactly when it is well bound to the
      journal, its derivation paths fit the budget, and it is an inclusion-minimal
      hitting set of the fault sets of its witnesses under its horizon. */
  method VerifyInclusionMinimal(j: Log, d: RecordedSolverData, b: Binding, expectedVersion: Option<nat>)
    returns (r: CertResult)
    requires Causal(j)
    ensures r == Accepted <==>
      && WellBound(j, d, b, expectedVersion)
      && |WitnessBag(j, d.witnesses, d.horizon)| <= CertWalk.MAX_INCLUSION_PATHS
      && InclusionMinimal(Elements(d.cut), FaultSets(j, d.witnesses, d.horizon))
    ensures r.Rejected? ==> Refuses(j, d, b, expectedVersion, r.reason)
  {
    var bound := CheckBinding(j, d, b);
    if bound.Rejected? { return bound; }
    if d.supportVersion.Some? && expectedVersion.Some? && d.supportVersion.value != expectedVersion.value {
      return Rejected(VersionMismatch);
    }
    if !d.reproduced || !d.baselinePassed { return Rejected(NotReproduced); }
    if d.horizon.None? { return Rejected(NoHorizon); }
    if d.witnesses == [] { return Rejected(NoWitnesses); }
    assert d.horizon == Some(d.horizon.value);
    r := CheckMinimal(j, d.cut, d.witnesses, d.horizon.value);
  }

  /** The walk and the one-pass test over it. */
  method CheckMinimal(j: Log, cut: seq<EntryHash>, ws: seq<EntryHash>, limit: nat) returns (r: CertResult)
    requires Causal(j)
    ensures r == Accepted <==>
      && |WitnessBag(j, ws, Some(limit))| <= CertWalk.MAX_INCLUSION_PATHS
      && InclusionMinimal(Elements(cut), FaultSets(j, ws, Some(limit)))
    ensures r.Rejected? ==> r.reason.TooManyPaths? || r.reason.MissesPath? || r.reason.RedundantMember?
    ensures r == Rejected(TooManyPaths) <==> |WitnessBag(j, ws, Some(limit))| > CertWalk.MAX_INCLUSION_PATHS
    ensures r == Rejected(MissesPath) ==> !HitsFamily(Elements(cut), FaultSets(j, ws, Some(limit)))
    ensures r == Rejected(RedundantMember) ==> Redundant(cut, FaultSets(j, ws, Some(limit)))
  {
    var walked := CertWalk.CollectFaultPaths(j, ws, limit);
    if walked.TooManyPaths? { return Rejected(TooManyPaths); }
    WalkedFamily(j, ws, Some(limit), walked.paths);
    OnePassIsMinimal(walked.paths, cut, FaultSets(j, ws, Some(limit)));
    r := CheckPaths(walked.paths, cut);
    if r.Rejected? { RefusalMeans(walked.paths, cut, FaultSets(j, ws, Some(limit)), r.reason.MissesPath?); }
  }

  /** A cut that fails the one-pass test misses a set, or hits all and can lose a member. */
  lemma RefusalMeans(paths: seq<Path>, cut: seq<EntryHash>, family: set<set<EntryHash>>, misses: bool)
    requires forall p :: p in paths ==> Distinct(p)
    requires forall s :: s in family <==> exists p :: p in paths && s == Elements(p)
    requires !PassesOnePass(paths, cut) && (misses <==> exists p :: p in paths && InCut(p, Elements(cut)) == [])
    ensures misses ==> !HitsFamily(Elements(cut), family)
    ensures !misses ==> Redundant(cut, family)
  {
    var members := Elements(cut);
    forall p | p in paths
      ensures InCut(p, members) != [] <==> Elements(p) * members != {}
    {
      InCutElements(p, members);
    }
    OnePassHits(paths, cut, family);
    if !misses {
      var m :| m in cut && !Alone(m, paths, members);
      OnePassEssential(paths, members, family, m);
      NotEssential(m, members, family);
    }
  }

  /** A member that is nowhere alone can be dropped. */
  lemma NotEssential(m: EntryHash, members: set<EntryHash>, family: set<set<EntryHash>>)
    requires HitsFamily(members, family) && !Essential(m, members, family)
    ensures HitsFamily(members - {m}, family)
  {
    forall s | s in family
      ensures s * (members - {m}) != {}
    {
      var h :| h in s * members;
      if h == m {
        assert s * members != {m};
        var g :| g in s * members && g != m;
        assert g in s * (members - {m});
      } else {
        assert h in s * (members - {m});
      }
    }
  }

  lemma WalkedFamily(j: Log, ws: seq<EntryHash>, horizon: Option<nat>, paths: seq<Path>)
    requires Causal(j) && multiset(paths) == WitnessBag(j, ws, horizon)
    ensures forall p :: p in paths ==> Distinct(p)
    ensures forall s :: s in FaultSets(j, ws, horizon) <==> exists p :: p in paths && s == Elements(p)
  {
    forall p
      ensures p in paths <==> p in WitnessBag(j, ws, horizon)
    {
      assert p in paths <==> p in multiset(paths);
    }
    forall p | p in paths
      ensures Distinct(p)
    {
      BagsDistinct(j, ws, |j| + 1, 0, horizon, [], p);
    }
  }
}
