/** The causal journal: an append-only sequence of entries that name their
    parents by content address, with the fault model's view of each entry.
 */
module Journals {

  /** A content address. The 32 bytes are read as one big-endian number, so the
      numeric order is the byte order the source sorts by. */
  type EntryHash = nat

  type ActorId = nat

  datatype Option<+T> = None | Some(value: T)

  datatype Kind =
    | Spawn | Block | Wake | TimerSet | TimerFire | ClockRead | Send | Recv
    | FsWrite | FsFsync | FsRead | RngDraw | Outcome | Assert | Snapshot | Epoch
    | InputStep | CapRequest | CapGrant | CapInvoke | CapRevoke | Fault
    | StepBegin | StepEnd

  /** Only the payloads that some modelled code reads are told apart. */
  datatype Payload =
    | StepBeginPayload(stepId: nat, name: string)
    | StepEndCompleted(stepId: nat, result: nat)
    | EpochMark(epoch: nat)
    | OtherPayload

  datatype Entry = Entry(id: EntryHash, kind: Kind, actor: ActorId, parents: seq<EntryHash>, payload: Payload)

  type Log = seq<Entry>

  /** Boundary kinds the fault model can inject at. */
  predicate IsFaultable(kind: Kind) {
    kind in {Send, Recv, FsRead, FsWrite, TimerFire, TimerSet}
  }

  /** Position of `h` plus one, or zero when the journal does not hold it. */
  function Rank(j: Log, h: EntryHash): (r: nat)
    ensures r <= |j|
    ensures r > 0 ==> j[r - 1].id == h
    ensures r == 0 <==> (forall i :: 0 <= i < |j| ==> j[i].id != h)
  {
    if |j| == 0 then 0
    else if j[|j| - 1].id == h then |j|
    else Rank(j[..|j| - 1], h)
  }

  predicate Present(j: Log, h: EntryHash) {
    Rank(j, h) > 0
  }

  function Get(j: Log, h: EntryHash): Entry
    requires Present(j, h)
  {
    j[Rank(j, h) - 1]
  }

  ghost predicate DistinctIds(j: Log) {
    forall i, k :: 0 <= i < k < |j| ==> j[i].id != j[k].id
  }

  /** Every parent that the journal holds was appended before its child. Parents
      the journal does not hold are allowed: slices and retention drop entries. */
  ghost predicate Causal(j: Log) {
    && DistinctIds(j)
    && forall i, p :: 0 <= i < |j| && p in j[i].parents ==> Rank(j, p) <= i
  }

  /** Append refuses an entry whose parents are missing, so a journal that was
      only ever appended to is closed under parents. */
  ghost predicate ParentClosed(j: Log) {
    forall i, p :: 0 <= i < |j| && p in j[i].parents ==> Present(j, p)
  }

  lemma RankAt(j: Log, i: nat)
    requires DistinctIds(j) && i < |j|
    ensures Rank(j, j[i].id) == i + 1
  {
  }

  lemma ParentRank(j: Log, h: EntryHash, p: EntryHash)
    requires Causal(j) && Present(j, h) && p in Get(j, h).parents
    ensures Rank(j, p) < Rank(j, h)
  {
  }

  lemma ParentsBelow(j: Log, h: EntryHash)
    requires Causal(j) && Present(j, h)
    ensures forall p :: p in Get(j, h).parents ==> Rank(j, p) < Rank(j, h)
  {
  }

  /** Fault-injection cost of one event. */
  function FaultCost(j: Log, h: EntryHash): (c: nat)
    ensures 1 <= c
    ensures Present(j, h) ==> c <= 5
  {
    if !Present(j, h) then 10
    else match Get(j, h).kind
      case Send | Recv => 2
      case TimerFire | TimerSet => 3
      case FsRead | FsWrite => 4
      case _ => 5
  }

  /** What kind of event an entry is, for pricing. */
  datatype EventClass = Networked | Timed | Stored | Other

  function ClassOf(kind: Kind): EventClass {
    if kind in {Send, Recv} then Networked
    else if kind in {TimerFire, TimerSet} then Timed
    else if kind in {FsRead, FsWrite} then Stored
    else Other
  }

  /** Network faults are cheapest, then timers, then storage, then everything else, then
      what is not recorded; and exactly the first three can be injected. */
  lemma PricesByClass(j: Log, a: EntryHash, b: EntryHash)
    requires Present(j, a)
    ensures IsFaultable(Get(j, a).kind) <==> !ClassOf(Get(j, a).kind).Other?
    ensures FaultCost(j, a) == match ClassOf(Get(j, a).kind)
                               case Networked => 2 case Timed => 3 case Stored => 4 case Other => 5
    ensures !Present(j, b) ==> FaultCost(j, a) < FaultCost(j, b) == 10
    ensures IsFaultable(Get(j, a).kind) <==> FaultCost(j, a) < 5
  {
  }

  /** Appending keeps the position of everything already recorded. */
  lemma RankStable(j: Log, k: Log, h: EntryHash)
    requires j <= k && DistinctIds(k) && Present(j, h)
    ensures Rank(k, h) == Rank(j, h) && Get(k, h) == Get(j, h)
  {
    RankAt(k, Rank(j, h) - 1);
  }

  /** A send and the receive it caused. */
  function Hop(): Log {
    [Entry(0, Send, 1, [], OtherPayload), Entry(1, Recv, 2, [0], OtherPayload)]
  }

  lemma HopFacts()
    ensures Causal(Hop()) && ParentClosed(Hop()) && Rank(Hop(), 0) == 1 && Rank(Hop(), 1) == 2
  {
    var j := Hop();
    assert Rank(j[..1], 0) == 1 && Rank(j, 0) == 1 && Rank(j, 1) == 2;
  }
}
