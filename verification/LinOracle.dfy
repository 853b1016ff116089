/** The linearizability oracle: real-time order from vector clocks, the key-value
    specification, and the verdict.
 */
module LinOracle {
  import opened Journals
  import opened Linearizability
  import opened Clocks
  import opened Store
  import opened WalkSpec
  import HittingSets

  const DEFAULT_LIN_BOUND: nat := 12

  datatype HistoryOperation =
    | Write(key: string, value: nat)
    | Read(key: string, value: nat)
    | Push(value: nat)
    | Pop(value: nat)

  datatype LinOperation<+Op> = LinOperation(invoke: EntryHash, response: EntryHash, operation: Op)

  /** The key-value specification: reads see the last write, or zero. */
  function KeyValueStep(values: map<string, nat>, op: HistoryOperation): Option<map<string, nat>> {
    match op
    case Write(key, value) => Some(values[key := value])
    case Read(key, value) => if (if key in values then values[key] else 0) == value then Some(values) else None
    case _ => Some(values)
  }

  /** What the last write to a key before the end of an order wrote, or zero. */
  function LastWrite(ops: seq<HistoryOperation>, order: seq<nat>, key: string): nat
    requires InRange(order, |ops|)
  {
    if order == [] then 0
    else
      var op := ops[order[|order| - 1]];
      if op.Write? && op.key == key then op.value else LastWrite(ops, order[..|order| - 1], key)
  }

  ghost predicate ReadsSeeLastWrite(ops: seq<HistoryOperation>, order: seq<nat>)
    requires InRange(order, |ops|)
  {
    forall i ::
      0 <= i < |order| && ops[order[i]].Read? ==> ops[order[i]].value == LastWrite(ops, order[..i], ops[order[i]].key)
  }

  /** The key-value specification accepts an order exactly when every read returns
      the last value written to its key, or zero before any write. */
  lemma {:induction false} KeyValueAccepts(ops: seq<HistoryOperation>, order: seq<nat>)
    requires InRange(order, |ops|)
    ensures Run(ops, KeyValueStep, map[], order).Some? <==> ReadsSeeLastWrite(ops, order)
    ensures Run(ops, KeyValueStep, map[], order).Some? ==>
              forall key :: LastWrite(ops, order, key) ==
                var values := Run(ops, KeyValueStep, map[], order).value; if key in values then values[key] else 0
    decreases |order|
  {
    if order != [] {
      var n := |order| - 1;
      var init := order[..n];
      KeyValueAccepts(ops, init);
      assert forall i :: 0 <= i < n ==> init[..i] == order[..i];
      var last := ops[order[n]];
      var lastFits := last.Read? ==> last.value == LastWrite(ops, init, last.key);
      assert ReadsSeeLastWrite(ops, order) <==> ReadsSeeLastWrite(ops, init) && lastFits;
    }
  }

  // ----- real-time predecessors

  ghost predicate Recorded<Op>(clocks: map<EntryHash, Clock>, ops: seq<LinOperation<Op>>) {
    forall i :: 0 <= i < |ops| ==> ops[i].invoke in clocks && ops[i].response in clocks
  }

  predicate Precedes<Op>(clocks: map<EntryHash, Clock>, ops: seq<LinOperation<Op>>, earlier: nat, later: nat)
    requires Recorded(clocks, ops) && earlier < |ops| && later < |ops|
  {
    earlier != later && HappensBefore(clocks[ops[earlier].response], clocks[ops[later].invoke])
  }

  /** Every invocation happens no later than its own response. */
  ghost predicate WellFormed<Op>(clocks: map<EntryHash, Clock>, ops: seq<LinOperation<Op>>) {
    && Recorded(clocks, ops)
    && forall i :: 0 <= i < |ops| ==>
        && Ticked(clocks[ops[i].invoke]) && Ticked(clocks[ops[i].response])
        && BeforeOrEqual(clocks[ops[i].invoke], clocks[ops[i].response])
  }

  ghost predicate IsPreds<Op>(clocks: map<EntryHash, Clock>, ops: seq<LinOperation<Op>>, preds: seq<seq<nat>>)
    requires Recorded(clocks, ops)
  {
    && |preds| == |ops|
    && (forall l :: 0 <= l < |ops| ==> InRange(preds[l], |ops|))
    && forall l: nat, e: nat :: l < |ops| && e < |ops| ==> (e in preds[l] <==> Precedes(clocks, ops, e, l))
  }

  method Predecessors<Op>(clocks: map<EntryHash, Clock>, ops: seq<LinOperation<Op>>) returns (preds: seq<seq<nat>>)
    requires Recorded(clocks, ops)
    ensures IsPreds(clocks, ops, preds)
  {
    preds := [];
    var later := 0;
    while later < |ops|
      invariant 0 <= later <= |ops| && |preds| == later
      invariant forall l :: 0 <= l < later ==> InRange(preds[l], |ops|)
      invariant forall l: nat, e: nat :: l < later && e < |ops| ==> (e in preds[l] <==> Precedes(clocks, ops, e, l))
    {
      var row := PredecessorsOf(clocks, ops, later);
      preds := preds + [row];
      later := later + 1;
    }
  }

  method PredecessorsOf<Op>(clocks: map<EntryHash, Clock>, ops: seq<LinOperation<Op>>, later: nat)
    returns (row: seq<nat>)
    requires Recorded(clocks, ops) && later < |ops|
    ensures InRange(row, |ops|) && forall e: nat :: e < |ops| ==> (e in row <==> Precedes(clocks, ops, e, later))
  {
    row := [];
    var earlier := 0;
    while earlier < |ops|
      invariant 0 <= earlier <= |ops| && InRange(row, earlier)
      invariant forall e: nat :: e < earlier ==> (e in row <==> Precedes(clocks, ops, e, later))
    {
      if Precedes(clocks, ops, earlier, later) {
        row := row + [earlier];
      }
      earlier := earlier + 1;
    }
  }

  // ----- real time in a journal

  /** The clocks are those the journal's appends computed. */
  ghost predicate ClocksOf(j: Log, clocks: map<EntryHash, Clock>) {
    Causal(j) && forall h :: h in clocks ==> Present(j, h) && clocks[h] == ClockOf(j, h)
  }

  /** Over a journal grown by appends, an operation precedes another exactly when its response
      lies strictly in the past of the other's invocation. */
  lemma PrecedesIsPast<Op>(j: Log, clocks: map<EntryHash, Clock>, ops: seq<LinOperation<Op>>, earlier: nat, later: nat)
    requires ClocksOf(j, clocks) && ParentClosed(j) && Chained(j)
    requires Recorded(clocks, ops) && earlier < |ops| && later < |ops|
    ensures Precedes(clocks, ops, earlier, later) <==>
              && earlier != later && ops[earlier].response != ops[later].invoke
              && ops[earlier].response in Past(j, ops[later].invoke)
  {
    ClocksDecideCausality(j, ops[earlier].response, ops[later].invoke);
  }

  /** Operations are well formed exactly when each invocation is in its response's past. */
  lemma WellFormedIsPast<Op>(j: Log, clocks: map<EntryHash, Clock>, ops: seq<LinOperation<Op>>)
    requires ClocksOf(j, clocks) && ParentClosed(j) && Chained(j) && Recorded(clocks, ops)
    ensures WellFormed(clocks, ops) <==>
              forall i :: 0 <= i < |ops| ==> ops[i].invoke in Past(j, ops[i].response)
  {
    forall i | 0 <= i < |ops|
      ensures Ticked(clocks[ops[i].invoke]) && Ticked(clocks[ops[i].response])
      ensures BeforeOrEqual(clocks[ops[i].invoke], clocks[ops[i].response]) <==>
                ops[i].invoke in Past(j, ops[i].response)
    {
      ClockTicked(j, ops[i].invoke);
      ClockTicked(j, ops[i].response);
      ClocksDecideCausality(j, ops[i].invoke, ops[i].response);
    }
  }

  // ----- real time has no cycles

  /** The number of events a clock has seen. */
  ghost function Weight(c: Clock): nat { HittingSets.Cost(c, c.Keys) }

  lemma {:induction false} CostPointwise(c: Clock, d: Clock, s: set<ActorId>)
    requires forall a :: a in s ==> a in c && c[a] <= HittingSets.Price(d, a)
    ensures HittingSets.Cost(c, s) <= HittingSets.Cost(d, s)
    ensures HittingSets.Cost(c, s) == HittingSets.Cost(d, s) ==> forall a :: a in s ==> c[a] == HittingSets.Price(d, a)
    decreases |s|
  {
    if s != {} {
      var a :| a in s;
      var rest := s - {a};
      CostPointwise(c, d, rest);
      HittingSets.CostAdd(c, rest, a);
      HittingSets.CostAdd(d, rest, a);
      assert rest + {a} == s;
    }
  }

  /** Happening before means having seen strictly fewer events. */
  lemma WeightGrows(c: Clock, d: Clock)
    requires Ticked(c) && Ticked(d) && BeforeOrEqual(c, d)
    ensures Weight(c) <= Weight(d)
    ensures c != d ==> Weight(c) < Weight(d)
  {
    assert c.Keys <= d.Keys;
    CostPointwise(c, d, c.Keys);
    var extra := d.Keys - c.Keys;
    HittingSets.CostUnion(d, c.Keys, extra);
    assert c.Keys + extra == d.Keys;
    if c != d && Weight(c) == HittingSets.Cost(d, c.Keys) {
      assert forall a :: a in c ==> c[a] == d[a];
      assert extra != {};
      var a :| a in extra;
      HittingSets.CostMember(d, extra, a);
    }
  }

  lemma {:induction false} LightestExists<Op>(clocks: map<EntryHash, Clock>, ops: seq<LinOperation<Op>>,
                                              group: set<nat>)
    returns (i: nat)
    requires Recorded(clocks, ops) && group != {} && forall k :: k in group ==> k < |ops|
    ensures i in group && forall k :: k in group ==> Weight(clocks[ops[i].response]) <= Weight(clocks[ops[k].response])
    decreases |group|
  {
    i :| i in group;
    var rest := group - {i};
    assert forall k :: k in group ==> k == i || k in rest;
    if rest != {} {
      var l := LightestExists(clocks, ops, rest);
      if Weight(clocks[ops[l].response]) < Weight(clocks[ops[i].response]) { i := l; }
    }
  }

  /** A well-formed history has an acyclic real-time order. */
  lemma RealTimeIsAcyclic<Op>(clocks: map<EntryHash, Clock>, ops: seq<LinOperation<Op>>, preds: seq<seq<nat>>)
    requires WellFormed(clocks, ops) && IsPreds(clocks, ops, preds)
    ensures Acyclic(preds)
  {
    forall group | IsGroup(preds, group)
      ensures HasFirst(preds, group)
    {
      var i := LightestExists(clocks, ops, group);
      forall p | p in preds[i]
        ensures p !in group
      {
        assert p < |ops| && Precedes(clocks, ops, p, i);
        WeightGrows(clocks[ops[p].response], clocks[ops[i].invoke]);
        WeightGrows(clocks[ops[i].invoke], clocks[ops[i].response]);
      }
    }
  }

  // ----- the verdict

  datatype LinVerdict = Pass | Unchecked | MissingEntry(h: EntryHash) | Violation(witnesses: seq<EntryHash>)

  /** The first entry an operation names that has no clock, invocation before response. */
  ghost predicate FirstGone<Op>(clocks: map<EntryHash, Clock>, ops: seq<LinOperation<Op>>, h: EntryHash) {
    && h !in clocks
    && exists i: nat :: i < |ops| && Recorded(clocks, ops[..i])
                        && (h == ops[i].invoke || (ops[i].invoke in clocks && h == ops[i].response))
  }

  method FirstMissing<Op>(clocks: map<EntryHash, Clock>, ops: seq<LinOperation<Op>>) returns (m: Option<EntryHash>)
    ensures m.None? <==> Recorded(clocks, ops)
    ensures m.Some? ==> FirstGone(clocks, ops, m.value)
  {
    var i := 0;
    while i < |ops|
      invariant 0 <= i <= |ops| && forall k :: 0 <= k < i ==> ops[k].invoke in clocks && ops[k].response in clocks
    {
      if ops[i].invoke !in clocks { return Some(ops[i].invoke); }
      if ops[i].response !in clocks { return Some(ops[i].response); }
      i := i + 1;
    }
    return None;
  }

  function Operations<Op>(ops: seq<LinOperation<Op>>): (r: seq<Op>)
    ensures |r| == |ops|
  {
    seq(|ops|, i requires 0 <= i < |ops| => ops[i].operation)
  }

  /** Some serial order extends real time and satisfies the specification. */
  ghost predicate Linearizable<S, Op>(clocks: map<EntryHash, Clock>, ops: seq<LinOperation<Op>>, step: Step<S, Op>,
                                      start: S)
    requires Recorded(clocks, ops)
  {
    exists preds, order :: IsPreds(clocks, ops, preds) && Linearization(Operations(ops), preds, step, start, order)
  }

  /** The witnesses name an operation that is rejected although its turn had come. */
  ghost predicate Explains<S, Op>(clocks: map<EntryHash, Clock>, ops: seq<LinOperation<Op>>, step: Step<S, Op>,
                                  start: S, ws: seq<EntryHash>)
    requires Recorded(clocks, ops)
  {
    exists preds, f ::
      IsPreds(clocks, ops, preds) && Stuck(Operations(ops), preds, step, start, f)
      && ws == [ops[f.index].invoke, ops[f.index].response]
  }

  /** Two predecessor tables of one history order operations alike. */
  lemma PredsAgree<S, Op>(clocks: map<EntryHash, Clock>, ops: seq<LinOperation<Op>>, p: seq<seq<nat>>, q: seq<seq<nat>>,
                          step: Step<S, Op>, start: S, order: seq<nat>)
    requires Recorded(clocks, ops) && IsPreds(clocks, ops, p) && IsPreds(clocks, ops, q)
    requires Linearization(Operations(ops), p, step, start, order)
    ensures Linearization(Operations(ops), q, step, start, order)
  {
  }

  lemma NoSerialOrder<S, Op>(clocks: map<EntryHash, Clock>, ops: seq<LinOperation<Op>>, preds: seq<seq<nat>>,
                             step: Step<S, Op>, start: S)
    requires Recorded(clocks, ops) && IsPreds(clocks, ops, preds)
    requires forall order :: !Linearization(Operations(ops), preds, step, start, order)
    ensures !Linearizable(clocks, ops, step, start)
  {
    forall p: seq<seq<nat>>, order: seq<nat> | IsPreds(clocks, ops, p)
      ensures !Linearization(Operations(ops), p, step, start, order)
    {
      if Linearization(Operations(ops), p, step, start, order) {
        PredsAgree(clocks, ops, p, preds, step, start, order);
      }
    }
  }

  /** Within the bound the oracle passes exactly the linearizable histories, and on a
      well-formed history a violation comes with a real explanation. */
  method CheckOperations<S, Op>(clocks: map<EntryHash, Clock>, ops: seq<LinOperation<Op>>, step: Step<S, Op>, start: S)
    returns (v: LinVerdict)
    ensures v == Unchecked <==> |ops| > DEFAULT_LIN_BOUND
    ensures |ops| <= DEFAULT_LIN_BOUND ==> (v.MissingEntry? <==> !Recorded(clocks, ops))
    ensures v.MissingEntry? ==> FirstGone(clocks, ops, v.h)
    ensures |ops| <= DEFAULT_LIN_BOUND && Recorded(clocks, ops) ==>
              (v == Pass <==> Linearizable(clocks, ops, step, start))
    ensures v.Violation? && WellFormed(clocks, ops) ==> Explains(clocks, ops, step, start, v.witnesses)
  {
    if |ops| > DEFAULT_LIN_BOUND {
      return Unchecked;
    }
    var missing := FirstMissing(clocks, ops);
    if missing.Some? {
      return MissingEntry(missing.value);
    }
    var preds := Predecessors(clocks, ops);
    var search := new Search(Operations(ops), preds, step, start);
    var found := search.Find(start);
    if found {
      return Pass;
    }
    forall order
      ensures !Linearization(Operations(ops), preds, step, start, order)
    {
      assert !search.Serial(order);
    }
    NoSerialOrder(clocks, ops, preds, step, start);
    if WellFormed(clocks, ops) {
      RealTimeIsAcyclic(clocks, ops, preds);
    }
    search.Finished();
    var index := if search.failure.Some? then search.failure.value.index else 0;
    assert |ops| > 0;
    return Violation([ops[index].invoke, ops[index].response]);
  }
}
