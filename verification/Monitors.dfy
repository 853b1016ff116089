/** Online monitors fed journal deltas as a run grows, and the oracle that replays a
    whole journal through the same monitors.
 */
module Monitors {
  import opened Journals

  /** Why a monitor spoke. The rendered sentences are left out, their parts kept. */
  datatype Reason =
    | Message(text: string)
    | Gap(steps: nat, max: nat, kind: Kind)
    | TrailingGap(steps: nat, max: nat, kind: Kind)

  datatype Action = Continue | Warn(reason: Reason) | Halt(reason: Reason)

  datatype Report = Report(name: string, atQuiescence: bool, reason: Reason)

  /** Any implementation of the monitor interface, over states `M`. */
  datatype Behaviour<!M> = Behaviour(
    onEntry: (M, Entry) -> (M, Action),
    onQuiescence: M -> (M, Action),
    reset: M -> M,
    name: M -> string)

  datatype Tone = Warning | Violation

  predicate Sounds(a: Action, tone: Tone) {
    if tone.Violation? then a.Halt? else a.Warn?
  }

  datatype Found = Found(at: EntryHash, report: Report)

  datatype Verdict = Verdict(violated: bool, witnesses: seq<EntryHash>, reasons: seq<Report>)

  // ----- what every monitor sees, entry by entry

  /** One monitor after a stretch of entries. */
  function After<M>(b: Behaviour<M>, m: M, es: seq<Entry>): M {
    if es == [] then m else b.onEntry(After(b, m, es[..|es| - 1]), es[|es| - 1]).0
  }

  function ActionAt<M>(b: Behaviour<M>, m: M, es: seq<Entry>, k: nat): Action
    requires k < |es|
  {
    b.onEntry(After(b, m, es[..k]), es[k]).1
  }

  function AllAfter<M>(b: Behaviour<M>, ms: seq<M>, es: seq<Entry>): (r: seq<M>)
    ensures |r| == |ms|
  {
    seq(|ms|, i requires 0 <= i < |ms| => After(b, ms[i], es))
  }

  /** What the monitors report on one entry, in monitor order. */
  function EntrySaid<M>(b: Behaviour<M>, ms: seq<M>, e: Entry, tone: Tone): seq<Found> {
    if ms == [] then []
    else
      var n := |ms| - 1;
      EntrySaid(b, ms[..n], e, tone) + Heard(b, b.onEntry(ms[n], e), e, tone)
  }

  lemma EntrySaidNext<M>(b: Behaviour<M>, ms: seq<M>, i: nat, e: Entry, tone: Tone)
    requires i < |ms|
    ensures EntrySaid(b, ms[..i + 1], e, tone)
         == EntrySaid(b, ms[..i], e, tone) + Heard(b, b.onEntry(ms[i], e), e, tone)
  {
    assert ms[..i + 1][..i] == ms[..i];
  }

  function Heard<M>(b: Behaviour<M>, out: (M, Action), e: Entry, tone: Tone): seq<Found> {
    if Sounds(out.1, tone) then [Found(e.id, Report(b.name(out.0), false, out.1.reason))] else []
  }

  /** Everything said in one tone over a stretch, in journal order and then in monitor order. */
  function Said<M>(b: Behaviour<M>, ms: seq<M>, es: seq<Entry>, tone: Tone): seq<Found> {
    if es == [] then []
    else
      var n := |es| - 1;
      Said(b, ms, es[..n], tone) + EntrySaid(b, AllAfter(b, ms, es[..n]), es[n], tone)
  }

  function First(found: seq<Found>): Option<Report> {
    if found == [] then None else Some(found[0].report)
  }

  lemma {:induction false} EntryQuiet<M>(b: Behaviour<M>, ms: seq<M>, e: Entry)
    ensures EntrySaid(b, ms, e, Violation) == [] <==> forall i :: 0 <= i < |ms| ==> !b.onEntry(ms[i], e).1.Halt?
  {
    if ms != [] { EntryQuiet(b, ms[..|ms| - 1], e); }
  }

  /** No monitor halts on entry `k`. */
  ghost predicate Still<M>(b: Behaviour<M>, ms: seq<M>, es: seq<Entry>, k: nat)
    requires k < |es|
  {
    forall i :: 0 <= i < |ms| ==> !ActionAt(b, ms[i], es, k).Halt?
  }

  lemma SaidNext<M>(b: Behaviour<M>, ms: seq<M>, es: seq<Entry>, n: nat)
    requires n < |es|
    ensures Said(b, ms, es[..n + 1], Violation) == [] <==> Said(b, ms, es[..n], Violation) == [] && Still(b, ms, es, n)
  {
    var now := AllAfter(b, ms, es[..n]);
    assert es[..n + 1][..n] == es[..n];
    EntryQuiet(b, now, es[n]);
    assert forall i :: 0 <= i < |ms| ==> ActionAt(b, ms[i], es, n) == b.onEntry(now[i], es[n]).1;
  }

  ghost predicate StillUpTo<M>(b: Behaviour<M>, ms: seq<M>, es: seq<Entry>, n: nat)
    requires n <= |es|
  {
    n == 0 || (StillUpTo(b, ms, es, n - 1) && Still(b, ms, es, n - 1))
  }

  lemma {:induction false} QuietUpTo<M>(b: Behaviour<M>, ms: seq<M>, es: seq<Entry>, n: nat)
    requires n <= |es|
    ensures Said(b, ms, es[..n], Violation) == [] <==> StillUpTo(b, ms, es, n)
  {
    if n > 0 {
      QuietUpTo(b, ms, es, n - 1);
      SaidNext(b, ms, es, n - 1);
    }
  }

  lemma {:induction false} AllStill<M>(b: Behaviour<M>, ms: seq<M>, es: seq<Entry>, n: nat)
    requires n <= |es| && forall k :: 0 <= k < n ==> Still(b, ms, es, k)
    ensures StillUpTo(b, ms, es, n)
  {
    if n > 0 { AllStill(b, ms, es, n - 1); }
  }

  lemma {:induction false} StillAt<M>(b: Behaviour<M>, ms: seq<M>, es: seq<Entry>, n: nat, k: nat)
    requires k < n <= |es| && StillUpTo(b, ms, es, n)
    ensures Still(b, ms, es, k)
    decreases n
  {
    if k < n - 1 { StillAt(b, ms, es, n - 1, k); }
  }

  /** The list of halts is empty exactly when no monitor halts on any entry. */
  lemma Quiet<M>(b: Behaviour<M>, ms: seq<M>, es: seq<Entry>)
    ensures Said(b, ms, es, Violation) == [] <==> forall k :: 0 <= k < |es| ==> Still(b, ms, es, k)
  {
    QuietUpTo(b, ms, es, |es|);
    assert es[..|es|] == es;
    if StillUpTo(b, ms, es, |es|) {
      forall k | 0 <= k < |es| ensures Still(b, ms, es, k) { StillAt(b, ms, es, |es|, k); }
    } else if forall k :: 0 <= k < |es| ==> Still(b, ms, es, k) {
      AllStill(b, ms, es, |es|);
    }
  }

  lemma {:induction false} AfterConcat<M>(b: Behaviour<M>, m: M, xs: seq<Entry>, ys: seq<Entry>)
    ensures After(b, m, xs + ys) == After(b, After(b, m, xs), ys)
  {
    if ys == [] {
      assert xs + ys == xs;
    } else {
      assert (xs + ys)[..|xs + ys| - 1] == xs + ys[..|ys| - 1];
      AfterConcat(b, m, xs, ys[..|ys| - 1]);
    }
  }

  lemma AllAfterConcat<M>(b: Behaviour<M>, ms: seq<M>, xs: seq<Entry>, ys: seq<Entry>)
    ensures AllAfter(b, ms, xs + ys) == AllAfter(b, AllAfter(b, ms, xs), ys)
  {
    forall i | 0 <= i < |ms| ensures After(b, ms[i], xs + ys) == After(b, AllAfter(b, ms, xs)[i], ys) {
      AfterConcat(b, ms[i], xs, ys);
    }
  }

  /** Halts of a journal split anywhere: the monitors carry all they need. */
  lemma {:induction false} HaltsConcat<M>(b: Behaviour<M>, ms: seq<M>, xs: seq<Entry>, ys: seq<Entry>)
    ensures Said(b, ms, xs + ys, Violation) == Said(b, ms, xs, Violation) + Said(b, AllAfter(b, ms, xs), ys, Violation)
  {
    if ys == [] {
      assert xs + ys == xs;
    } else {
      var rest := ys[..|ys| - 1];
      assert (xs + ys)[..|xs + ys| - 1] == xs + rest;
      HaltsConcat(b, ms, xs, rest);
      AllAfterConcat(b, ms, xs, rest);
    }
  }

  // ----- what is said, mark by mark

  /** `said` lists what is there in `outs`, in order. */
  ghost predicate Picks<T>(outs: seq<Option<T>>, who: seq<nat>, said: seq<T>) {
    && |said| == |who|
    && (forall x :: 0 <= x < |who| ==> who[x] < |outs| && outs[who[x]] == Some(said[x]))
    && (forall x, y :: 0 <= x < y < |who| ==> who[x] < who[y])
    && forall i: nat :: i < |outs| && outs[i].Some? ==> i in who
  }

  function Somes<T>(outs: seq<Option<T>>): seq<T> {
    if outs == [] then []
    else
      var last := outs[|outs| - 1];
      Somes(outs[..|outs| - 1]) + if last.Some? then [last.value] else []
  }

  lemma PicksNone<T>(outs: seq<Option<T>>, who: seq<nat>, said: seq<T>)
    requires Picks(outs, who, said)
    ensures Picks(outs + [None], who, said)
  {
  }

  lemma PicksSome<T>(outs: seq<Option<T>>, who: seq<nat>, said: seq<T>, x: T)
    requires Picks(outs, who, said)
    ensures Picks(outs + [Some(x)], who + [|outs|], said + [x])
  {
    var more := who + [|outs|];
    forall i: nat | i < |outs| + 1 && (outs + [Some(x)])[i].Some?
      ensures i in more
    {
      if i < |outs| { assert outs[i].Some? && i in who; } else { assert more[|who|] == i; }
    }
  }

  lemma {:induction false} SomesPicks<T>(outs: seq<Option<T>>) returns (who: seq<nat>)
    ensures Picks(outs, who, Somes(outs))
  {
    if outs == [] {
      who := [];
    } else {
      var init, last := outs[..|outs| - 1], outs[|outs| - 1];
      who := SomesPicks(init);
      assert outs == init + [last];
      if last.Some? {
        PicksSome(init, who, Somes(init), last.value);
        who := who + [|init|];
      } else {
        PicksNone(init, who, Somes(init));
        assert Somes(init) + [] == Somes(init);
      }
    }
  }

  /** Monitor number `monitor` spoke on entry number `entry`. */
  datatype Mark = Mark(entry: nat, monitor: nat)

  predicate Earlier(a: Mark, b: Mark) {
    a.entry < b.entry || (a.entry == b.entry && a.monitor < b.monitor)
  }

  ghost predicate InTurn(marks: seq<Mark>) {
    forall x, y :: 0 <= x < y < |marks| ==> Earlier(marks[x], marks[y])
  }

  ghost predicate AllNoted(spoken: (nat, nat) -> Option<Found>, n: nat, m: nat, marks: seq<Mark>) {
    forall k: nat, i: nat :: k < n && i < m && spoken(k, i).Some? ==> Mark(k, i) in marks
  }

  ghost predicate Matched(spoken: (nat, nat) -> Option<Found>, n: nat, m: nat, marks: seq<Mark>, found: seq<Found>) {
    && |found| == |marks|
    && forall x :: 0 <= x < |marks| ==> marks[x].entry < n && marks[x].monitor < m
                                        && spoken(marks[x].entry, marks[x].monitor) == Some(found[x])
  }

  /** `found` lists what `m` monitors said on `n` entries, in journal order and then in
      monitor order. */
  ghost predicate PicksAll(spoken: (nat, nat) -> Option<Found>, n: nat, m: nat, marks: seq<Mark>, found: seq<Found>) {
    Matched(spoken, n, m, marks, found) && InTurn(marks) && AllNoted(spoken, n, m, marks)
  }

  function MarksOn(n: nat, who: seq<nat>): (marks: seq<Mark>)
    ensures |marks| == |who| && forall x :: 0 <= x < |who| ==> marks[x] == Mark(n, who[x])
  {
    seq(|who|, x requires 0 <= x < |who| => Mark(n, who[x]))
  }

  lemma NotedMore(spoken: (nat, nat) -> Option<Found>, n: nat, m: nat, init: seq<Mark>, outs: seq<Option<Found>>,
                  who: seq<nat>, more: seq<Found>)
    requires AllNoted(spoken, n, m, init) && Picks(outs, who, more)
    requires |outs| == m && forall i :: 0 <= i < m ==> outs[i] == spoken(n, i)
    ensures AllNoted(spoken, n + 1, m, init + MarksOn(n, who))
  {
    var marks := init + MarksOn(n, who);
    forall k: nat, i: nat | k < n + 1 && i < m && spoken(k, i).Some?
      ensures Mark(k, i) in marks
    {
      if k == n {
        assert outs[i].Some?;
        var x :| 0 <= x < |who| && who[x] == i;
        assert marks[|init| + x] == Mark(k, i);
      } else {
        assert Mark(k, i) in init;
      }
    }
  }

  lemma TurnsMore(n: nat, init: seq<Mark>, who: seq<nat>)
    requires InTurn(init) && (forall x :: 0 <= x < |init| ==> init[x].entry < n)
    requires forall x, y :: 0 <= x < y < |who| ==> who[x] < who[y]
    ensures InTurn(init + MarksOn(n, who))
  {
  }

  lemma PicksOneMore(spoken: (nat, nat) -> Option<Found>, n: nat, m: nat, init: seq<Mark>, had: seq<Found>,
                     outs: seq<Option<Found>>, who: seq<nat>, more: seq<Found>)
    requires PicksAll(spoken, n, m, init, had) && Picks(outs, who, more)
    requires |outs| == m && forall i :: 0 <= i < m ==> outs[i] == spoken(n, i)
    ensures PicksAll(spoken, n + 1, m, init + MarksOn(n, who), had + more)
  {
    NotedMore(spoken, n, m, init, outs, who, more);
    TurnsMore(n, init, who);
  }

  /** What monitor `i` says on entry `k` in one tone: the entry, and the monitor's name and
      reason once it has seen it. */
  ghost function Spoken<M>(b: Behaviour<M>, ms: seq<M>, es: seq<Entry>, tone: Tone, k: nat, i: nat): Option<Found> {
    if k < |es| && i < |ms| && Sounds(ActionAt(b, ms[i], es, k), tone) then
      Some(Found(es[k].id, Report(b.name(After(b, ms[i], es[..k + 1])), false, ActionAt(b, ms[i], es, k).reason)))
    else None
  }

  /** What monitor `i` says at quiescence. */
  ghost function SpokenLast<M>(b: Behaviour<M>, ms: seq<M>, tone: Tone, i: nat): Option<Report>
    requires i < |ms|
  {
    var out := b.onQuiescence(ms[i]);
    if Sounds(out.1, tone) then Some(Report(b.name(out.0), true, out.1.reason)) else None
  }

  ghost function EntryOuts<M>(b: Behaviour<M>, ms: seq<M>, e: Entry, tone: Tone): (outs: seq<Option<Found>>)
    ensures |outs| == |ms|
  {
    seq(|ms|, i requires 0 <= i < |ms| =>
      var out := b.onEntry(ms[i], e);
      if Sounds(out.1, tone) then Some(Found(e.id, Report(b.name(out.0), false, out.1.reason))) else None)
  }

  lemma {:induction false} EntryIsSomes<M>(b: Behaviour<M>, ms: seq<M>, e: Entry, tone: Tone)
    ensures EntrySaid(b, ms, e, tone) == Somes(EntryOuts(b, ms, e, tone))
  {
    if ms != [] {
      var n := |ms| - 1;
      EntryIsSomes(b, ms[..n], e, tone);
      assert EntryOuts(b, ms, e, tone)[..n] == EntryOuts(b, ms[..n], e, tone);
    }
  }

  lemma {:induction false} SaidPicks<M>(b: Behaviour<M>, ms: seq<M>, es: seq<Entry>, tone: Tone, n: nat,
                                        spoken: (nat, nat) -> Option<Found>)
    returns (marks: seq<Mark>)
    requires n <= |es| && forall k: nat, i: nat :: spoken(k, i) == Spoken(b, ms, es, tone, k, i)
    ensures PicksAll(spoken, n, |ms|, marks, Said(b, ms, es[..n], tone))
  {
    if n == 0 {
      marks := [];
    } else {
      var init := SaidPicks(b, ms, es, tone, n - 1, spoken);
      var now := AllAfter(b, ms, es[..n - 1]);
      var outs := EntryOuts(b, now, es[n - 1], tone);
      var who := SomesPicks(outs);
      EntryIsSomes(b, now, es[n - 1], tone);
      OutsAreSpoken(b, ms, es, tone, n - 1);
      SaidOneMore(b, ms, es, tone, n - 1);
      PicksOneMore(spoken, n - 1, |ms|, init, Said(b, ms, es[..n - 1], tone), outs, who,
                   EntrySaid(b, now, es[n - 1], tone));
      marks := init + MarksOn(n - 1, who);
    }
  }

  lemma SaidOneMore<M>(b: Behaviour<M>, ms: seq<M>, es: seq<Entry>, tone: Tone, n: nat)
    requires n < |es|
    ensures Said(b, ms, es[..n + 1], tone)
         == Said(b, ms, es[..n], tone) + EntrySaid(b, AllAfter(b, ms, es[..n]), es[n], tone)
  {
    assert es[..n + 1][..n] == es[..n];
  }

  lemma OutsAreSpoken<M>(b: Behaviour<M>, ms: seq<M>, es: seq<Entry>, tone: Tone, n: nat)
    requires n < |es|
    ensures forall i :: 0 <= i < |ms| ==>
              EntryOuts(b, AllAfter(b, ms, es[..n]), es[n], tone)[i] == Spoken(b, ms, es, tone, n, i)
  {
    assert es[..n + 1][..n] == es[..n];
  }

  ghost function LastOuts<M>(b: Behaviour<M>, ms: seq<M>, tone: Tone): (outs: seq<Option<Report>>)
    ensures |outs| == |ms|
  {
    seq(|ms|, i requires 0 <= i < |ms| => SpokenLast(b, ms, tone, i))
  }

  lemma {:induction false} LastIsSomes<M>(b: Behaviour<M>, ms: seq<M>, tone: Tone)
    ensures AtQuiescence(b, ms, tone) == Somes(LastOuts(b, ms, tone))
  {
    if ms != [] {
      var n := |ms| - 1;
      LastIsSomes(b, ms[..n], tone);
      assert LastOuts(b, ms, tone)[..n] == LastOuts(b, ms[..n], tone);
    }
  }

  /** A full account: the reports on entries, then those at quiescence. */
  ghost predicate Account<M>(b: Behaviour<M>, begun: seq<M>, journal: Log, tone: Tone, marks: seq<Mark>,
                             found: seq<Found>, said: seq<Report>) {
    && PicksAll((k: nat, i: nat) => Spoken(b, begun, journal, tone, k, i), |journal|, |begun|, marks, found)
    && |found| <= |said| && said[..|found|] == Reports(found)
    && exists who: seq<nat> :: Picks(LastOuts(b, AllAfter(b, begun, journal), tone), who, said[|found|..])
  }

  lemma SaidIsAccounted<M>(b: Behaviour<M>, begun: seq<M>, journal: Log, tone: Tone) returns (marks: seq<Mark>)
    ensures var found := Said(b, begun, journal, tone);
            Account(b, begun, journal, tone, marks, found,
                    Reports(found) + AtQuiescence(b, AllAfter(b, begun, journal), tone))
  {
    var found, ended := Said(b, begun, journal, tone), AllAfter(b, begun, journal);
    marks := SaidPicks(b, begun, journal, tone, |journal|, (k: nat, i: nat) => Spoken(b, begun, journal, tone, k, i));
    var who := SomesPicks(LastOuts(b, ended, tone));
    LastIsSomes(b, ended, tone);
    assert journal[..|journal|] == journal;
    var said := Reports(found) + AtQuiescence(b, ended, tone);
    assert said[|found|..] == AtQuiescence(b, ended, tone) && said[..|found|] == Reports(found);
  }

  /** A verdict: its reasons are the account of the halts, and its witnesses are the
      halting entries, one per halt. A halt at quiescence alone points at the last entry. */
  ghost predicate Justified<M>(b: Behaviour<M>, begun: seq<M>, journal: Log, verdict: Verdict) {
    exists marks: seq<Mark>, found: seq<Found> :: JustifiedBy(b, begun, journal, verdict, marks, found)
  }

  ghost predicate JustifiedBy<M>(b: Behaviour<M>, begun: seq<M>, journal: Log, verdict: Verdict, marks: seq<Mark>,
                                 found: seq<Found>) {
    && Account(b, begun, journal, Violation, marks, found, verdict.reasons)
    && verdict.violated == (verdict.reasons != [])
    && (found != [] ==>
          |verdict.witnesses| == |marks| && forall x :: 0 <= x < |marks| && marks[x].entry < |journal| ==>
            verdict.witnesses[x] == journal[marks[x].entry].id)
    && (found == [] && verdict.violated && journal != [] ==> verdict.witnesses == [journal[|journal| - 1].id])
    && (found == [] && (!verdict.violated || journal == []) ==> verdict.witnesses == [])
  }

  ghost predicate Accounted<M>(b: Behaviour<M>, begun: seq<M>, journal: Log, tone: Tone, said: seq<Report>) {
    exists marks: seq<Mark>, found: seq<Found> :: Account(b, begun, journal, tone, marks, found, said)
  }

  lemma VerdictIsJustified<M>(b: Behaviour<M>, begun: seq<M>, journal: Log, verdict: Verdict)
    requires var found := Said(b, begun, journal, Violation);
      && verdict.reasons == Reports(found) + AtQuiescence(b, AllAfter(b, begun, journal), Violation)
      && verdict.violated == (verdict.reasons != [])
      && verdict.witnesses == Witnesses(found, verdict.reasons, journal)
    ensures Justified(b, begun, journal, verdict)
  {
    var found := Said(b, begun, journal, Violation);
    var marks := SaidIsAccounted(b, begun, journal, Violation);
    MarksPoint(b, begun, journal, Violation, marks, found);
    assert JustifiedBy(b, begun, journal, verdict, marks, found);
  }

  lemma MarksPoint<M>(b: Behaviour<M>, begun: seq<M>, journal: Log, tone: Tone, marks: seq<Mark>, found: seq<Found>)
    requires PicksAll((k: nat, i: nat) => Spoken(b, begun, journal, tone, k, i), |journal|, |begun|, marks, found)
    ensures forall x :: 0 <= x < |marks| ==> marks[x].entry < |journal| && found[x].at == journal[marks[x].entry].id
  {
    forall x | 0 <= x < |marks|
      ensures marks[x].entry < |journal| && found[x].at == journal[marks[x].entry].id
    {
      assert Spoken(b, begun, journal, tone, marks[x].entry, marks[x].monitor) == Some(found[x]);
    }
  }

  /** There is a halt on entry `k` exactly when some mark is on it. */
  lemma MarkedIffHalted<M>(b: Behaviour<M>, begun: seq<M>, journal: Log, marks: seq<Mark>, found: seq<Found>, k: nat)
    requires k < |journal|
    requires PicksAll((k: nat, i: nat) => Spoken(b, begun, journal, Violation, k, i), |journal|, |begun|, marks, found)
    ensures !Still(b, begun, journal, k) <==> MarkOn(marks, k)
  {
    if !Still(b, begun, journal, k) {
      var i: nat :| 0 <= i < |begun| && ActionAt(b, begun[i], journal, k).Halt?;
      assert Spoken(b, begun, journal, Violation, k, i).Some?;
      assert Mark(k, i) in marks;
    }
    if x :| 0 <= x < |marks| && marks[x].entry == k {
      assert Spoken(b, begun, journal, Violation, marks[x].entry, marks[x].monitor).Some?;
    }
  }

  /** So if any entry is halted on, the witnesses are exactly the entries halted on; else only
      the last one can be a witness; and a passing verdict has none. */
  lemma WitnessIffHalted<M>(b: Behaviour<M>, begun: seq<M>, journal: Log, verdict: Verdict, h: EntryHash)
    requires Justified(b, begun, journal, verdict)
    ensures (exists k :: 0 <= k < |journal| && !Still(b, begun, journal, k)) ==>
              (h in verdict.witnesses <==>
               exists k :: 0 <= k < |journal| && !Still(b, begun, journal, k) && journal[k].id == h)
    ensures (forall k :: 0 <= k < |journal| ==> Still(b, begun, journal, k)) && h in verdict.witnesses ==>
              verdict.violated && journal != [] && h == journal[|journal| - 1].id
    ensures !verdict.violated ==> verdict.witnesses == []
  {
    var marks: seq<Mark>, found: seq<Found> :| JustifiedBy(b, begun, journal, verdict, marks, found);
    MarksPoint(b, begun, journal, Violation, marks, found);
    forall k: nat | k < |journal|
      ensures !Still(b, begun, journal, k) <==> MarkOn(marks, k)
    {
      MarkedIffHalted(b, begun, journal, marks, found, k);
    }
    if marks != [] {
      assert MarkOn(marks, marks[0].entry);
      WitnessesOfMarks(journal, marks, verdict.witnesses, h);
    }
  }

  ghost predicate MarkOn(marks: seq<Mark>, k: nat) {
    exists x :: 0 <= x < |marks| && marks[x].entry == k
  }

  lemma WitnessesOfMarks(journal: Log, marks: seq<Mark>, witnesses: seq<EntryHash>, h: EntryHash)
    requires |witnesses| == |marks|
    requires forall x :: 0 <= x < |marks| ==> marks[x].entry < |journal| && witnesses[x] == journal[marks[x].entry].id
    ensures h in witnesses <==> exists k: nat :: k < |journal| && MarkOn(marks, k) && journal[k].id == h
  {
    if k: nat :| k < |journal| && MarkOn(marks, k) && journal[k].id == h {
      var x :| 0 <= x < |marks| && marks[x].entry == k;
      assert witnesses[x] == h;
    }
    if h in witnesses {
      var x :| 0 <= x < |witnesses| && witnesses[x] == h;
      assert MarkOn(marks, marks[x].entry);
    }
  }

  // ----- whole runs

  function Flatten(deltas: seq<seq<Entry>>): seq<Entry> {
    if deltas == [] then [] else deltas[0] + Flatten(deltas[1..])
  }

  /** A run that hands over one delta per scheduler step and stops at the first halt. */
  function Online<M>(b: Behaviour<M>, ms: seq<M>, deltas: seq<seq<Entry>>): Option<Report>
    decreases |deltas|
  {
    if deltas == [] then None
    else
      var now := First(Said(b, ms, deltas[0], Violation));
      if now.Some? then now else Online(b, AllAfter(b, ms, deltas[0]), deltas[1..])
  }

  lemma FirstConcat(a: seq<Found>, b: seq<Found>)
    ensures First(a + b) == if First(a).Some? then First(a) else First(b)
  {
    if a == [] { assert a + b == b; }
  }

  /** However a journal is cut into deltas, the run halts exactly when the replay of
      the whole journal finds a halt, and with the replay's first report. */
  lemma {:induction false} OnlineIsReplay<M>(b: Behaviour<M>, ms: seq<M>, deltas: seq<seq<Entry>>)
    ensures Online(b, ms, deltas) == First(Said(b, ms, Flatten(deltas), Violation))
    decreases |deltas|
  {
    if deltas != [] {
      var later := AllAfter(b, ms, deltas[0]);
      HaltsConcat(b, ms, deltas[0], Flatten(deltas[1..]));
      OnlineIsReplay(b, later, deltas[1..]);
      FirstConcat(Said(b, ms, deltas[0], Violation), Said(b, later, Flatten(deltas[1..]), Violation));
    }
  }

  // ----- the oracle and its step monitor share the monitors

  class MonitorOracle<M> {
    const behaviour: Behaviour<M>
    var monitors: seq<M>

    constructor (behaviour: Behaviour<M>, monitors: seq<M>)
      ensures this.behaviour == behaviour && this.monitors == monitors
    {
      this.behaviour, this.monitors := behaviour, monitors;
    }

    /** One entry through every monitor, stopping at a halt. */
    method Observe(e: Entry) returns (halt: Option<Report>)
      modifies this
      ensures halt == First(EntrySaid(behaviour, old(monitors), e, Violation))
      ensures |monitors| == |old(monitors)|
      ensures halt.None? ==> monitors == AllAfter(behaviour, old(monitors), [e])
    {
      ghost var before := monitors;
      var i := 0;
      while i < |monitors|
        invariant i <= |monitors| == |before|
        invariant forall k :: 0 <= k < i ==> monitors[k] == behaviour.onEntry(before[k], e).0
        invariant forall k :: i <= k < |before| ==> monitors[k] == before[k]
        invariant EntrySaid(behaviour, before[..i], e, Violation) == []
      {
        EntrySaidNext(behaviour, before, i, e, Violation);
        var (m, action) := behaviour.onEntry(monitors[i], e);
        monitors := monitors[i := m];
        if action.Halt? {
          FirstOfPrefix(behaviour, before, i + 1, e);
          return Some(Report(behaviour.name(m), false, action.reason));
        }
        i := i + 1;
      }
      assert before[..i] == before;
      OneEntry(behaviour, before, e);
      return None;
    }

    /** The step monitor: feed the entries from `start` on. */
    method Step(journal: Log, start: nat) returns (halt: Option<Report>)
      modifies this
      ensures halt == First(Said(behaviour, old(monitors), Delta(journal, start), Violation))
      ensures halt.None? ==> monitors == AllAfter(behaviour, old(monitors), Delta(journal, start))
    {
      ghost var before, delta := monitors, Delta(journal, start);
      var i := start;
      assert AllAfter(behaviour, before, delta[..0]) == before;
      while i < |journal|
        invariant start <= i && (start <= |journal| ==> i <= |journal|) && (start > |journal| ==> i == start)
        invariant i - start <= |delta|
        invariant monitors == AllAfter(behaviour, before, delta[..i - start])
        invariant Said(behaviour, before, delta[..i - start], Violation) == []
      {
        StepOne(behaviour, before, delta, i - start);
        halt := Observe(journal[i]);
        if halt.Some? {
          return;
        }
        i := i + 1;
      }
      assert delta[..i - start] == delta;
      return None;
    }

    /** Replay the whole journal from reset monitors, then quiescence. */
    method Check(journal: Log) returns (verdict: Verdict, warnings: seq<Report>)
      modifies this
      ensures var begun := ResetAll(behaviour, old(monitors));
        var halts, ended := Said(behaviour, begun, journal, Violation), AllAfter(behaviour, begun, journal);
        && verdict.reasons == Reports(halts) + AtQuiescence(behaviour, ended, Violation)
        && verdict.violated == (verdict.reasons != [])
        && verdict.witnesses == Witnesses(halts, verdict.reasons, journal)
        && warnings == Reports(Said(behaviour, begun, journal, Warning)) + AtQuiescence(behaviour, ended, Warning)
      ensures Justified(behaviour, ResetAll(behaviour, old(monitors)), journal, verdict)
      ensures Accounted(behaviour, ResetAll(behaviour, old(monitors)), journal, Warning, warnings)
    {
      monitors := ResetAll(behaviour, monitors);
      ghost var begun := monitors;
      var found, warned := Replay(journal);
      var quiet, more := Settle();
      warnings := Reports(warned) + more;
      verdict := Verdict(|found| + |quiet| > 0, Witnesses(found, Reports(found) + quiet, journal),
                         Reports(found) + quiet);
      VerdictIsJustified(behaviour, begun, journal, verdict);
      ghost var marks := SaidIsAccounted(behaviour, begun, journal, Warning);
    }

    /** The entry loop of the replay. */
    method Replay(journal: Log) returns (found: seq<Found>, warnings: seq<Found>)
      modifies this
      ensures found == Said(behaviour, old(monitors), journal, Violation)
      ensures warnings == Said(behaviour, old(monitors), journal, Warning)
      ensures monitors == AllAfter(behaviour, old(monitors), journal)
    {
      ghost var before := monitors;
      found, warnings := [], [];
      assert AllAfter(behaviour, before, journal[..0]) == before;
      for i := 0 to |journal|
        invariant monitors == AllAfter(behaviour, before, journal[..i])
        invariant found == Said(behaviour, before, journal[..i], Violation)
        invariant warnings == Said(behaviour, before, journal[..i], Warning)
      {
        assert journal[..i + 1][..i] == journal[..i];
        var now, warns := ObserveAll(journal[i]);
        assert journal[..i + 1] == journal[..i] + [journal[i]];
        AllAfterConcat(behaviour, before, journal[..i], [journal[i]]);
        found, warnings := found + now, warnings + warns;
      }
      assert journal[..|journal|] == journal;
    }

    /** One entry through every monitor, without stopping. */
    method ObserveAll(e: Entry) returns (found: seq<Found>, warnings: seq<Found>)
      modifies this
      ensures found == EntrySaid(behaviour, old(monitors), e, Violation)
      ensures warnings == EntrySaid(behaviour, old(monitors), e, Warning)
      ensures monitors == AllAfter(behaviour, old(monitors), [e])
    {
      ghost var before := monitors;
      found, warnings := [], [];
      for i := 0 to |monitors|
        invariant |monitors| == |before|
        invariant forall k :: 0 <= k < i ==> monitors[k] == behaviour.onEntry(before[k], e).0
        invariant forall k :: i <= k < |before| ==> monitors[k] == before[k]
        invariant found == EntrySaid(behaviour, before[..i], e, Violation)
        invariant warnings == EntrySaid(behaviour, before[..i], e, Warning)
      {
        assert before[..i + 1][..i] == before[..i];
        var (m, action) := behaviour.onEntry(monitors[i], e);
        monitors := monitors[i := m];
        match action {
          case Continue =>
          case Warn(reason) => warnings := warnings + [Found(e.id, Report(behaviour.name(m), false, reason))];
          case Halt(reason) => found := found + [Found(e.id, Report(behaviour.name(m), false, reason))];
        }
      }
      assert before[..|before|] == before;
      OneEntry(behaviour, before, e);
    }

    /** Quiescence after the last entry. */
    method Settle() returns (halts: seq<Report>, warnings: seq<Report>)
      modifies this
      ensures halts == AtQuiescence(behaviour, old(monitors), Violation)
      ensures warnings == AtQuiescence(behaviour, old(monitors), Warning)
    {
      ghost var before := monitors;
      halts, warnings := [], [];
      for i := 0 to |monitors|
        invariant |monitors| == |before|
        invariant forall k :: i <= k < |before| ==> monitors[k] == before[k]
        invariant halts == AtQuiescence(behaviour, before[..i], Violation)
        invariant warnings == AtQuiescence(behaviour, before[..i], Warning)
      {
        assert before[..i + 1][..i] == before[..i];
        var (m, action) := behaviour.onQuiescence(monitors[i]);
        monitors := monitors[i := m];
        match action {
          case Continue =>
          case Warn(reason) => warnings := warnings + [Report(behaviour.name(m), true, reason)];
          case Halt(reason) => halts := halts + [Report(behaviour.name(m), true, reason)];
        }
      }
      assert before[..|before|] == before;
    }
  }

  function Delta(journal: Log, start: nat): Log {
    if start <= |journal| then journal[start..] else []
  }

  function ResetAll<M>(b: Behaviour<M>, ms: seq<M>): seq<M> {
    seq(|ms|, i requires 0 <= i < |ms| => b.reset(ms[i]))
  }

  function Reports(found: seq<Found>): (r: seq<Report>)
    ensures |r| == |found|
  {
    seq(|found|, i requires 0 <= i < |found| => found[i].report)
  }

  /** What the monitors say at quiescence, in one tone. */
  function AtQuiescence<M>(b: Behaviour<M>, ms: seq<M>, tone: Tone): seq<Report> {
    if ms == [] then []
    else
      var n := |ms| - 1;
      var out := b.onQuiescence(ms[n]);
      AtQuiescence(b, ms[..n], tone)
      + (if Sounds(out.1, tone) then [Report(b.name(out.0), true, out.1.reason)] else [])
  }

  /** The halting entries; a quiescence halt alone points at the last entry. */
  function Witnesses(found: seq<Found>, reasons: seq<Report>, journal: Log): seq<EntryHash> {
    if found == [] && reasons != [] && journal != [] then [journal[|journal| - 1].id]
    else seq(|found|, i requires 0 <= i < |found| => found[i].at)
  }

  lemma OneEntry<M>(b: Behaviour<M>, ms: seq<M>, e: Entry)
    ensures forall i :: 0 <= i < |ms| ==> AllAfter(b, ms, [e])[i] == b.onEntry(ms[i], e).0
  {
    forall i | 0 <= i < |ms| ensures After(b, ms[i], [e]) == b.onEntry(ms[i], e).0 {
      assert [e][..0] == [];
    }
  }

  /** A halt found in a prefix of the monitors is the first of all of them. */
  lemma {:induction false} FirstOfPrefix<M>(b: Behaviour<M>, ms: seq<M>, n: nat, e: Entry)
    requires n <= |ms| && EntrySaid(b, ms[..n], e, Violation) != []
    ensures EntrySaid(b, ms, e, Violation) != []
            && EntrySaid(b, ms, e, Violation)[0] == EntrySaid(b, ms[..n], e, Violation)[0]
    decreases |ms|
  {
    if n == |ms| {
      assert ms[..n] == ms;
    } else {
      assert ms[..|ms| - 1][..n] == ms[..n];
      FirstOfPrefix(b, ms[..|ms| - 1], n, e);
    }
  }

  lemma StepOne<M>(b: Behaviour<M>, ms: seq<M>, delta: seq<Entry>, i: nat)
    requires i < |delta| && Said(b, ms, delta[..i], Violation) == []
    ensures AllAfter(b, ms, delta[..i + 1]) == AllAfter(b, AllAfter(b, ms, delta[..i]), [delta[i]])
    ensures Said(b, ms, delta[..i + 1], Violation) == EntrySaid(b, AllAfter(b, ms, delta[..i]), delta[i], Violation)
    ensures Said(b, ms, delta[..i + 1], Violation) != [] ==>
              First(Said(b, ms, delta, Violation)) == First(Said(b, ms, delta[..i + 1], Violation))
  {
    assert delta[..i + 1] == delta[..i] + [delta[i]];
    assert delta[..i + 1][..i] == delta[..i];
    AllAfterConcat(b, ms, delta[..i], [delta[i]]);
    assert delta == delta[..i + 1] + delta[i + 1..];
    HaltsConcat(b, ms, delta[..i + 1], delta[i + 1..]);
  }

  // ----- the two monitors that ship with the engine

  datatype Monitor =
    | Safety(holds: Entry -> bool, message: string, name: string)
    | Liveness(expected: Kind, maxGap: nat, stepsSince: nat, name: string)

  function OnEntry(m: Monitor, e: Entry): (Monitor, Action) {
    match m
    case Safety(inv, message, _) => (m, if inv(e) then Continue else Halt(Message(message)))
    case Liveness(expected, max, steps, _) =>
      if e.kind == expected then (m.(stepsSince := 0), Continue)
      else
        var m' := m.(stepsSince := steps + 1);
        (m', if steps + 1 > max then Halt(Gap(steps + 1, max, expected))
             else if steps + 1 == max then Warn(Gap(steps + 1, max, expected))
             else Continue)
  }

  function OnQuiescence(m: Monitor): (Monitor, Action) {
    match m
    case Safety(_, _, _) => (m, Continue)
    case Liveness(expected, max, steps, _) =>
      (m, if steps > max then Halt(TrailingGap(steps, max, expected))
          else if steps == max && max > 0 then Warn(TrailingGap(steps, max, expected))
          else Continue)
  }

  function Reset(m: Monitor): Monitor {
    if m.Liveness? then m.(stepsSince := 0) else m
  }

  function BuiltIn(): Behaviour<Monitor> {
    Behaviour(OnEntry, OnQuiescence, Reset, (m: Monitor) => m.name)
  }

  /** The step monitor is handed what was appended since it was last called. */
  lemma DeltaIsGrowth(seen: Log, grown: Log)
    ensures Delta(seen + grown, |seen|) == grown
  {
  }

  /** Length of the longest tail of the journal without `kind`. */
  function Tail(es: seq<Entry>, kind: Kind): (n: nat)
    ensures n <= |es|
    ensures forall i :: |es| - n <= i < |es| ==> es[i].kind != kind
    ensures n < |es| ==> es[|es| - n - 1].kind == kind
  {
    if es == [] || es[|es| - 1].kind == kind then 0 else Tail(es[..|es| - 1], kind) + 1
  }

  /** The liveness counter is the trailing gap of what it has seen since reset. */
  lemma {:induction false} CounterIsTail(m: Monitor, es: seq<Entry>)
    requires m.Liveness?
    ensures After(BuiltIn(), Reset(m), es) == m.(stepsSince := Tail(es, m.expected))
  {
    if es != [] { CounterIsTail(m, es[..|es| - 1]); }
  }

  lemma {:induction false} SafetyIsStateless(m: Monitor, es: seq<Entry>)
    requires m.Safety?
    ensures After(BuiltIn(), m, es) == m
  {
    if es != [] { SafetyIsStateless(m, es[..|es| - 1]); }
  }

  /** A stretch of more than `max` entries in a row, none of the expected kind. */
  ghost predicate Starved(es: seq<Entry>, kind: Kind, max: nat) {
    exists lo: nat, hi: nat :: Stretch(es, kind, lo, hi) && hi - lo > max
  }

  ghost predicate Stretch(es: seq<Entry>, kind: Kind, lo: nat, hi: nat) {
    lo <= hi <= |es| && forall i :: lo <= i < hi ==> es[i].kind != kind
  }

  /** A liveness monitor halts somewhere exactly when the journal starves it; a
      safety monitor exactly when some entry breaks the invariant. */
  lemma HaltsMean(m: Monitor, es: seq<Entry>)
    ensures (exists k :: 0 <= k < |es| && ActionAt(BuiltIn(), Reset(m), es, k).Halt?)
      <==> (if m.Liveness? then Starved(es, m.expected, m.maxGap) else exists k :: 0 <= k < |es| && !m.holds(es[k]))
  {
    if m.Liveness? {
      forall k | 0 <= k < |es|
        ensures ActionAt(BuiltIn(), Reset(m), es, k).Halt? <==> GapAt(es, m.expected, k + 1) > m.maxGap
      {
        CounterIsTail(m, es[..k]);
        assert es[..k + 1][..k] == es[..k];
      }
      StarvedIffTail(es, m.expected, m.maxGap);
      if n :| 0 < n <= |es| && GapAt(es, m.expected, n) > m.maxGap {
        assert ActionAt(BuiltIn(), Reset(m), es, n - 1).Halt?;
      }
    } else {
      forall k | 0 <= k < |es| ensures ActionAt(BuiltIn(), Reset(m), es, k).Halt? <==> !m.holds(es[k]) {
        SafetyIsStateless(m, es[..k]);
      }
    }
  }

  /** What a liveness monitor says on an entry is decided by the gap. */
  lemma LivenessSays(m: Monitor, es: seq<Entry>, k: nat)
    requires m.Liveness? && k < |es|
    ensures ActionAt(BuiltIn(), Reset(m), es, k) == GapSays(m, es, k)
  {
    CounterIsTail(m, es[..k]);
    assert es[..k + 1][..k] == es[..k];
  }

  /** And at quiescence by the trailing gap. */
  lemma LivenessSettles(m: Monitor, es: seq<Entry>)
    requires m.Liveness?
    ensures var gap := Tail(es, m.expected);
            OnQuiescence(After(BuiltIn(), Reset(m), es)).1 ==
              if gap > m.maxGap then Halt(TrailingGap(gap, m.maxGap, m.expected))
              else if gap == m.maxGap > 0 then Warn(TrailingGap(gap, m.maxGap, m.expected))
              else Continue
  {
    CounterIsTail(m, es);
  }

  /** Nothing below the bound, a warning at it, a halt past it. */
  ghost function GapSays(m: Monitor, es: seq<Entry>, k: nat): Action
    requires m.Liveness? && k < |es|
  {
    var gap := GapAt(es, m.expected, k + 1);
    if gap > m.maxGap then Halt(Gap(gap, m.maxGap, m.expected))
    else if gap == m.maxGap && es[k].kind != m.expected then Warn(Gap(gap, m.maxGap, m.expected))
    else Continue
  }

  /** A safety monitor halts with its message on the entries that break the invariant, and
      says nothing else. */
  lemma SafetySays(m: Monitor, es: seq<Entry>)
    requires m.Safety?
    ensures forall k :: 0 <= k < |es| ==>
              ActionAt(BuiltIn(), Reset(m), es, k) == if m.holds(es[k]) then Continue else Halt(Message(m.message))
    ensures OnQuiescence(After(BuiltIn(), Reset(m), es)).1 == Continue
  {
    SafetyIsStateless(m, es);
    forall k | 0 <= k < |es|
      ensures ActionAt(BuiltIn(), Reset(m), es, k) == if m.holds(es[k]) then Continue else Halt(Message(m.message))
    {
      SafetyIsStateless(m, es[..k]);
    }
  }

  /** Trailing gap of the first `n` entries. */
  function GapAt(es: seq<Entry>, kind: Kind, n: nat): nat
    requires n <= |es|
  {
    Tail(es[..n], kind)
  }

  lemma StarvedIffTail(es: seq<Entry>, kind: Kind, max: nat)
    ensures Starved(es, kind, max) <==> exists n :: 0 < n <= |es| && GapAt(es, kind, n) > max
  {
    if Starved(es, kind, max) {
      var lo: nat, hi: nat :| Stretch(es, kind, lo, hi) && hi - lo > max;
      var n := GapAt(es, kind, hi);
      assert n < hi ==> es[..hi][hi - n - 1].kind == kind;
    }
    if n :| 0 < n <= |es| && GapAt(es, kind, n) > max {
      assert Stretch(es, kind, n - GapAt(es, kind, n), n);
    }
  }

  /** At quiescence a built-in monitor halts only if it already halted on the last
      entry, so the verdict is decided by the entries alone. */
  lemma QuiescenceAddsNothing(m: Monitor, es: seq<Entry>)
    requires OnQuiescence(After(BuiltIn(), Reset(m), es)).1.Halt?
    ensures es != [] && ActionAt(BuiltIn(), Reset(m), es, |es| - 1).Halt?
  {
  }

  lemma {:induction false} QuiescenceQuiet(ms: seq<Monitor>, es: seq<Entry>)
    requires AtQuiescence(BuiltIn(), AllAfter(BuiltIn(), ResetAll(BuiltIn(), ms), es), Violation) != []
    ensures Said(BuiltIn(), ResetAll(BuiltIn(), ms), es, Violation) != []
  {
    var begun := ResetAll(BuiltIn(), ms);
    var i := SomeHalts(AllAfter(BuiltIn(), begun, es));
    QuiescenceAddsNothing(ms[i], es);
    Quiet(BuiltIn(), begun, es);
    assert ActionAt(BuiltIn(), begun[i], es, |es| - 1).Halt? && !Still(BuiltIn(), begun, es, |es| - 1);
  }

  lemma {:induction false} SomeHalts(ms: seq<Monitor>) returns (i: nat)
    requires AtQuiescence(BuiltIn(), ms, Violation) != []
    ensures i < |ms| && OnQuiescence(ms[i]).1.Halt?
  {
    i := |ms| - 1;
    if !OnQuiescence(ms[i]).1.Halt? { i := SomeHalts(ms[..i]); }
  }

  /** With built-in monitors a run is flagged by the replay exactly when feeding it
      step by step would have halted it, however the steps were cut. */
  lemma VerdictIsOnline(ms: seq<Monitor>, deltas: seq<seq<Entry>>, reasons: seq<Report>)
    requires var begun := ResetAll(BuiltIn(), ms);
      reasons == Reports(Said(BuiltIn(), begun, Flatten(deltas), Violation))
                 + AtQuiescence(BuiltIn(), AllAfter(BuiltIn(), begun, Flatten(deltas)), Violation)
    ensures reasons == [] <==> Online(BuiltIn(), ResetAll(BuiltIn(), ms), deltas).None?
    ensures reasons != [] ==> Online(BuiltIn(), ResetAll(BuiltIn(), ms), deltas) == Some(reasons[0])
  {
    var begun := ResetAll(BuiltIn(), ms);
    OnlineIsReplay(BuiltIn(), begun, deltas);
    if Said(BuiltIn(), begun, Flatten(deltas), Violation) == [] && reasons != [] {
      QuiescenceQuiet(ms, Flatten(deltas));
    }
  }
}
