/** Campaign memo keys: the canonical variant layout with its decoder, and the
    attempt key whose layout is not uniquely decodable, with the exact collisions.
 */
module MemoKeys {
  import opened Journals
  import opened Bytes

  /** Floating-point parameters are carried as their bit patterns. */
  datatype Policy = Random | Pct(priorityChanges: nat) | Bandit(exploration: nat, pctMix: nat) | Replay | Dpor

  datatype Swarm = Swarm(dropProbability: nat, delayProbability: nat, maxDelayTicks: nat, crashProbability: nat,
                         faultClassesPerRun: nat)

  datatype SimFault =
    | Drop(id: EntryHash)
    | Delay(send: EntryHash, ticks: nat)
    | Partition(src: ActorId, dst: ActorId)
    | Crash(id: EntryHash)
    | Corrupt(write: EntryHash, xorMask: nat)
    | CrashState(write: EntryHash, state: nat)
    | Duplicate(send: EntryHash)

  datatype Variant = Variant(policy: Policy, swarm: Swarm, faults: seq<SimFault>)

  // ----- widths

  predicate PolicyFits(p: Policy) {
    match p
    case Pct(n) => IsU64(n)
    case Bandit(e, m) => IsU64(e) && IsU64(m)
    case _ => true
  }

  predicate SwarmFits(s: Swarm) {
    && IsU64(s.dropProbability) && IsU64(s.delayProbability) && IsU64(s.maxDelayTicks)
    && IsU64(s.crashProbability) && IsU64(s.faultClassesPerRun)
  }

  predicate IsU32(v: nat) { v < Pow256(4) }

  function U32(v: nat): (b: Octets)
    ensures |b| == 4
  {
    LE(v, 4)
  }

  predicate FaultFits(f: SimFault) {
    match f
    case Drop(id) => IsHash(id)
    case Delay(send, ticks) => IsHash(send) && IsU64(ticks)
    case Partition(src, dst) => IsU32(src) && IsU32(dst)
    case Crash(id) => IsHash(id)
    case Corrupt(write, mask) => IsHash(write) && IsU64(mask)
    case CrashState(write, state) => IsHash(write) && IsU64(state)
    case Duplicate(send) => IsHash(send)
  }

  predicate VariantFits(v: Variant) {
    PolicyFits(v.policy) && SwarmFits(v.swarm) && IsU64(|v.faults|) && forall f :: f in v.faults ==> FaultFits(f)
  }

  // ----- the layout; `rest` is what follows

  function PutPolicy(p: Policy, rest: Octets): Octets {
    match p
    case Random => [0] + rest
    case Pct(n) => [1] + (U64(n) + rest)
    case Bandit(e, m) => [2] + (U64(e) + (U64(m) + rest))
    case Replay => [3] + rest
    case Dpor => [4] + rest
  }

  function PutSwarm(s: Swarm, rest: Octets): Octets {
    U64(s.dropProbability) + (U64(s.delayProbability) + (U64(s.maxDelayTicks)
    + (U64(s.crashProbability) + (U64(s.faultClassesPerRun) + rest))))
  }

  function PutFault(f: SimFault, rest: Octets): Octets {
    match f
    case Drop(id) => [0] + (HashBytes(id) + rest)
    case Delay(send, ticks) => [1] + (HashBytes(send) + (U64(ticks) + rest))
    case Partition(src, dst) => [2] + (U32(src) + (U32(dst) + rest))
    case Crash(id) => [3] + (HashBytes(id) + rest)
    case Corrupt(write, mask) => [4] + (HashBytes(write) + (U64(mask) + rest))
    case CrashState(write, state) => [5] + (HashBytes(write) + (U64(state) + rest))
    case Duplicate(send) => [6] + (HashBytes(send) + rest)
  }

  function PutFaults(fs: seq<SimFault>, rest: Octets): Octets {
    if fs == [] then rest else PutFault(fs[0], PutFaults(fs[1..], rest))
  }

  function PutVariant(v: Variant, rest: Octets): Octets {
    PutPolicy(v.policy, PutSwarm(v.swarm, U64(|v.faults|) + PutFaults(v.faults, rest)))
  }

  /** The canonical bytes of a variant. */
  function VariantBytes(v: Variant): Octets {
    PutVariant(v, [])
  }

  // ----- a decoder, reading from the front

  type Read<+T> = Option<(T, Octets)>

  function GetByte(b: Octets): Read<nat> {
    if |b| < 1 then None else Some((b[0], b[1..]))
  }

  function GetLE(b: Octets, n: nat): Read<nat> {
    if |b| < n then None else Some((FromLE(b[..n]), b[n..]))
  }

  function GetHash(b: Octets): Read<EntryHash> {
    if |b| < 32 then None else Some((FromLE(Mirror(b[..32])), b[32..]))
  }

  function GetPolicy(b: Octets): Read<Policy> {
    match GetByte(b)
    case None => None
    case Some((0, r)) => Some((Random, r))
    case Some((1, r)) => (match GetLE(r, 8) case None => None case Some((n, r)) => Some((Pct(n), r)))
    case Some((2, r)) =>
      (match GetLE(r, 8) case None => None case Some((e, r)) =>
        match GetLE(r, 8) case None => None case Some((m, r)) => Some((Bandit(e, m), r)))
    case Some((3, r)) => Some((Replay, r))
    case Some((4, r)) => Some((Dpor, r))
    case Some(_) => None
  }

  function GetSwarm(b: Octets): Read<Swarm> {
    match GetLE(b, 8) case None => None case Some((d, b)) =>
    match GetLE(b, 8) case None => None case Some((e, b)) =>
    match GetLE(b, 8) case None => None case Some((t, b)) =>
    match GetLE(b, 8) case None => None case Some((c, b)) =>
    match GetLE(b, 8) case None => None case Some((k, b)) =>
    Some((Swarm(d, e, t, c, k), b))
  }

  /** A hash and a word, as three of the fault forms carry. */
  function GetHashWord(b: Octets): Read<(EntryHash, nat)> {
    match GetHash(b) case None => None case Some((h, b)) =>
    match GetLE(b, 8) case None => None case Some((v, b)) => Some(((h, v), b))
  }

  function GetFault(b: Octets): Read<SimFault> {
    match GetByte(b)
    case None => None
    case Some((0, r)) => (match GetHash(r) case None => None case Some((h, r)) => Some((Drop(h), r)))
    case Some((1, r)) => (match GetHashWord(r) case None => None case Some(((h, v), r)) => Some((Delay(h, v), r)))
    case Some((2, r)) =>
      (match GetLE(r, 4) case None => None case Some((s, r)) =>
        match GetLE(r, 4) case None => None case Some((d, r)) => Some((Partition(s, d), r)))
    case Some((3, r)) => (match GetHash(r) case None => None case Some((h, r)) => Some((Crash(h), r)))
    case Some((4, r)) => (match GetHashWord(r) case None => None case Some(((h, v), r)) => Some((Corrupt(h, v), r)))
    case Some((5, r)) => (match GetHashWord(r) case None => None case Some(((h, v), r)) => Some((CrashState(h, v), r)))
    case Some((6, r)) => (match GetHash(r) case None => None case Some((h, r)) => Some((Duplicate(h), r)))
    case Some(_) => None
  }

  function GetFaults(b: Octets, n: nat): Read<seq<SimFault>> {
    if n == 0 then Some(([], b))
    else match GetFault(b) case None => None case Some((f, b)) =>
         match GetFaults(b, n - 1) case None => None case Some((fs, b)) => Some(([f] + fs, b))
  }

  function GetVariant(b: Octets): Read<Variant> {
    match GetPolicy(b) case None => None case Some((p, b)) =>
    match GetSwarm(b) case None => None case Some((s, b)) =>
    match GetLE(b, 8) case None => None case Some((n, b)) =>
    match GetFaults(b, n) case None => None case Some((fs, b)) => Some((Variant(p, s, fs), b))
  }

  // ----- round trip

  lemma ByteTrip(v: nat, rest: Octets)
    ensures GetByte([v] + rest) == Some((v, rest))
  {
  }

  lemma LETrip(v: nat, n: nat, rest: Octets)
    requires v < Pow256(n)
    ensures GetLE(LE(v, n) + rest, n) == Some((v, rest))
  {
  }

  lemma WordTrip(v: nat, rest: Octets)
    requires IsU64(v)
    ensures GetLE(U64(v) + rest, 8) == Some((v, rest))
  {
    Pow256Of8();
    LETrip(v, 8, rest);
  }

  lemma HashTrip(h: EntryHash, rest: Octets)
    requires IsHash(h)
    ensures GetHash(HashBytes(h) + rest) == Some((h, rest))
  {
    var b := HashBytes(h) + rest;
    assert b[..32] == HashBytes(h) && b[32..] == rest;
    MirrorTwice(LE(h, 32));
    LERoundTrip(h, 32);
  }

  lemma HashWordTrip(h: EntryHash, v: nat, rest: Octets)
    requires IsHash(h) && IsU64(v)
    ensures GetHashWord(HashBytes(h) + (U64(v) + rest)) == Some(((h, v), rest))
  {
    HashTrip(h, U64(v) + rest);
    WordTrip(v, rest);
  }

  lemma PolicyTrip(p: Policy, rest: Octets)
    requires PolicyFits(p)
    ensures GetPolicy(PutPolicy(p, rest)) == Some((p, rest))
  {
    match p {
      case Random => ByteTrip(0, rest);
      case Pct(n) => ByteTrip(1, U64(n) + rest); WordTrip(n, rest);
      case Bandit(e, m) => ByteTrip(2, U64(e) + (U64(m) + rest)); WordTrip(e, U64(m) + rest); WordTrip(m, rest);
      case Replay => ByteTrip(3, rest);
      case Dpor => ByteTrip(4, rest);
    }
  }

  lemma SwarmTrip(s: Swarm, rest: Octets)
    requires SwarmFits(s)
    ensures GetSwarm(PutSwarm(s, rest)) == Some((s, rest))
  {
    var r4 := U64(s.faultClassesPerRun) + rest;
    var r3 := U64(s.crashProbability) + r4;
    var r2 := U64(s.maxDelayTicks) + r3;
    var r1 := U64(s.delayProbability) + r2;
    WordTrip(s.dropProbability, r1);
    WordTrip(s.delayProbability, r2);
    WordTrip(s.maxDelayTicks, r3);
    WordTrip(s.crashProbability, r4);
    WordTrip(s.faultClassesPerRun, rest);
  }

  lemma PartitionTrip(s: ActorId, d: ActorId, rest: Octets)
    requires IsU32(s) && IsU32(d)
    ensures GetFault(PutFault(Partition(s, d), rest)) == Some((Partition(s, d), rest))
  {
    ByteTrip(2, U32(s) + (U32(d) + rest));
    LETrip(s, 4, U32(d) + rest);
    LETrip(d, 4, rest);
  }

  lemma HashFaultTrip(f: SimFault, rest: Octets)
    requires FaultFits(f) && (f.Drop? || f.Crash? || f.Duplicate?)
    ensures GetFault(PutFault(f, rest)) == Some((f, rest))
  {
    var h := if f.Duplicate? then f.send else f.id;
    ByteTrip(if f.Drop? then 0 else if f.Crash? then 3 else 6, HashBytes(h) + rest);
    HashTrip(h, rest);
  }

  lemma WordFaultTrip(f: SimFault, rest: Octets)
    requires FaultFits(f) && (f.Delay? || f.Corrupt? || f.CrashState?)
    ensures GetFault(PutFault(f, rest)) == Some((f, rest))
  {
    var h := if f.Delay? then f.send else f.write;
    var v := match f case Delay(_, t) => t case Corrupt(_, m) => m case CrashState(_, s) => s;
    ByteTrip(if f.Delay? then 1 else if f.Corrupt? then 4 else 5, HashBytes(h) + (U64(v) + rest));
    HashWordTrip(h, v, rest);
  }

  lemma FaultTrip(f: SimFault, rest: Octets)
    requires FaultFits(f)
    ensures GetFault(PutFault(f, rest)) == Some((f, rest))
  {
    if f.Partition? {
      PartitionTrip(f.src, f.dst, rest);
    } else if f.Drop? || f.Crash? || f.Duplicate? {
      HashFaultTrip(f, rest);
    } else {
      WordFaultTrip(f, rest);
    }
  }

  lemma {:induction false} FaultsTrip(fs: seq<SimFault>, rest: Octets)
    requires forall f :: f in fs ==> FaultFits(f)
    ensures GetFaults(PutFaults(fs, rest), |fs|) == Some((fs, rest))
  {
    if fs != [] {
      FaultTrip(fs[0], PutFaults(fs[1..], rest));
      FaultsTrip(fs[1..], rest);
      assert [fs[0]] + fs[1..] == fs;
    }
  }

  /** The variant layout decodes to the variant it came from, whatever follows it;
      so no variant's bytes are a proper prefix of another's. */
  lemma VariantRoundTrip(v: Variant, rest: Octets)
    requires VariantFits(v)
    ensures GetVariant(PutVariant(v, rest)) == Some((v, rest))
  {
    var r2 := PutFaults(v.faults, rest);
    var r1 := U64(|v.faults|) + r2;
    PolicyTrip(v.policy, PutSwarm(v.swarm, r1));
    SwarmTrip(v.swarm, r1);
    WordTrip(|v.faults|, r2);
    FaultsTrip(v.faults, rest);
  }

  // ----- the attempt key

  /** `digest` is the hash of the variant bytes. */
  datatype Attempt = Attempt(digest: EntryHash, input: Option<EntryHash>, replay: Option<seq<nat>>,
                             seed: Option<EntryHash>)

  predicate AttemptFits(a: Attempt) {
    && IsHash(a.digest) && OptIsHash(a.input) && OptIsHash(a.seed)
    && (a.replay.Some? ==> IsU64(|a.replay.value|) && forall d :: d in a.replay.value ==> IsU64(d))
  }

  function Words(ds: seq<nat>): (b: Octets)
    ensures |b| == 8 * |ds|
  {
    if ds == [] then [] else U64(ds[0]) + Words(ds[1..])
  }

  function InputPart(o: Option<EntryHash>): (b: Octets)
    ensures |b| == if o.Some? then 33 else 1
  {
    match o case Some(h) => HashBytes(h) + [0xA1] case None => [0x00]
  }

  function ReplayWords(o: Option<seq<nat>>): Octets {
    match o case Some(ds) => U64(|ds|) + Words(ds) case None => []
  }

  function ReplayMark(o: Option<seq<nat>>): Octets {
    match o case Some(_) => [0xA2] case None => [0x01]
  }

  function SeedPart(o: Option<EntryHash>): (b: Octets)
    ensures |b| == if o.Some? then 33 else 1
  {
    match o case Some(h) => HashBytes(h) + [0xA3] case None => [0x02]
  }

  /** What lies between the fixed prefix and the replay marker. */
  function Body(a: Attempt): Octets {
    InputPart(a.input) + ReplayWords(a.replay)
  }

  function AttemptBytes(a: Attempt): Octets {
    (HashBytes(a.digest) + [0xA0] + Body(a)) + ReplayMark(a.replay) + SeedPart(a.seed)
  }

  // ----- peeling from the back

  lemma PeelBack(x: Octets, y: Octets, p: Octets, q: Octets)
    requires |p| == |q| && x + p == y + q
    ensures x == y && p == q
  {
    assert |x| == |y|;
    PeelEqual(x, y, p, q);
  }

  lemma PeelSeed(x: Octets, y: Octets, s: Option<EntryHash>, t: Option<EntryHash>)
    requires OptIsHash(s) && OptIsHash(t) && x + SeedPart(s) == y + SeedPart(t)
    ensures x == y && s == t
  {
    var b, c := x + SeedPart(s), y + SeedPart(t);
    assert b[|b| - 1] == if s.Some? then 0xA3 else 0x02;
    assert c[|c| - 1] == if t.Some? then 0xA3 else 0x02;
    PeelBack(x, y, SeedPart(s), SeedPart(t));
    if s.Some? {
      PeelBack(HashBytes(s.value), HashBytes(t.value), [0xA3], [0xA3]);
      HashInjective(s.value, t.value);
    }
  }

  lemma PeelMark(x: Octets, y: Octets, r: Option<seq<nat>>, s: Option<seq<nat>>)
    requires x + ReplayMark(r) == y + ReplayMark(s)
    ensures x == y && (r.Some? <==> s.Some?)
  {
    PeelBack(x, y, ReplayMark(r), ReplayMark(s));
    assert ReplayMark(r)[0] == ReplayMark(s)[0];
  }

  /** Everything but the body is always recoverable. */
  lemma AttemptBytesSplit(a: Attempt, b: Attempt)
    requires AttemptFits(a) && AttemptFits(b)
    ensures AttemptBytes(a) == AttemptBytes(b) <==>
            a.digest == b.digest && a.seed == b.seed && (a.replay.Some? <==> b.replay.Some?) && Body(a) == Body(b)
  {
    if AttemptBytes(a) == AttemptBytes(b) {
      var x, y := HashBytes(a.digest) + [0xA0] + Body(a), HashBytes(b.digest) + [0xA0] + Body(b);
      PeelSeed(x + ReplayMark(a.replay), y + ReplayMark(b.replay), a.seed, b.seed);
      PeelMark(x, y, a.replay, b.replay);
      PeelEqual(HashBytes(a.digest) + [0xA0], HashBytes(b.digest) + [0xA0], Body(a), Body(b));
      PeelBack(HashBytes(a.digest), HashBytes(b.digest), [0xA0], [0xA0]);
      HashInjective(a.digest, b.digest);
    }
  }

  lemma {:induction false} WordsInjective(ds: seq<nat>, es: seq<nat>)
    requires (forall d :: d in ds ==> IsU64(d)) && (forall e :: e in es ==> IsU64(e))
    requires Words(ds) == Words(es)
    ensures ds == es
  {
    assert 8 * |ds| == 8 * |es|;
    if ds != [] {
      PeelEqual(U64(ds[0]), U64(es[0]), Words(ds[1..]), Words(es[1..]));
      U64Injective(ds[0], es[0]);
      WordsInjective(ds[1..], es[1..]);
      assert ds == [ds[0]] + ds[1..] && es == [es[0]] + es[1..];
    }
  }

  lemma ReplayWordsInjective(ds: seq<nat>, es: seq<nat>)
    requires IsU64(|ds|) && IsU64(|es|)
    requires (forall d :: d in ds ==> IsU64(d)) && (forall e :: e in es ==> IsU64(e))
    requires U64(|ds|) + Words(ds) == U64(|es|) + Words(es)
    ensures ds == es
  {
    PeelEqual(U64(|ds|), U64(|es|), Words(ds), Words(es));
    WordsInjective(ds, es);
  }

  // ----- the collisions

  /** The 32 bytes a long replay puts where an input hash would stand. */
  function Disguise(ds: seq<nat>): (b: Octets)
    requires |ds| >= 4
    ensures |b| == 32
  {
    [0x00] + U64(|ds|) + U64(ds[0]) + U64(ds[1]) + U64(ds[2])[..7]
  }

  /** A replay that reads as an input hash followed by a shorter replay: its third
      decision has top byte 0xA1 and its fourth is the number of the remaining. */
  predicate Deceptive(ds: seq<nat>) {
    |ds| >= 4 && U64(ds[2])[7] == 0xA1 && ds[3] == |ds| - 4
  }

  /** `a` has no input hash and `b` has one, yet their bytes agree. */
  predicate Confused(a: Attempt, b: Attempt) {
    && a.digest == b.digest && a.seed == b.seed
    && a.input.None? && b.input.Some? && a.replay.Some? && b.replay.Some?
    && Deceptive(a.replay.value)
    && HashBytes(b.input.value) == Disguise(a.replay.value)
    && b.replay.value == a.replay.value[4..]
  }

  /** A body without input hash, regrouped as the one it could be taken for. */
  lemma Regroup(ds: seq<nat>)
    requires |ds| >= 4
    ensures [0x00] + (U64(|ds|) + Words(ds)) == (Disguise(ds) + [U64(ds[2])[7]]) + (U64(ds[3]) + Words(ds[4..]))
  {
    FourWords(ds);
    Shuffle(U64(|ds|), U64(ds[0]), U64(ds[1]), U64(ds[2]), U64(ds[3]) + Words(ds[4..]));
  }

  lemma FourWords(ds: seq<nat>)
    requires |ds| >= 4
    ensures Words(ds) == U64(ds[0]) + (U64(ds[1]) + (U64(ds[2]) + (U64(ds[3]) + Words(ds[4..]))))
  {
    assert ds[1..][1..] == ds[2..] && ds[2..][1..] == ds[3..] && ds[3..][1..] == ds[4..];
    assert Words(ds[3..]) == U64(ds[3]) + Words(ds[4..]);
    assert Words(ds[2..]) == U64(ds[2]) + Words(ds[3..]);
    assert Words(ds[1..]) == U64(ds[1]) + Words(ds[2..]);
  }

  lemma Shuffle(n: Octets, a: Octets, b: Octets, c: Octets, rest: Octets)
    requires |c| == 8
    ensures [0x00] + (n + (a + (b + (c + rest)))) == ([0x00] + n + a + b + c[..7] + [c[7]]) + rest
  {
  }

  lemma MixedBodies(a: Attempt, b: Attempt)
    requires AttemptFits(a) && AttemptFits(b)
    requires a.input.None? && b.input.Some? && a.replay.Some? && b.replay.Some?
    ensures Body(a) == Body(b) <==>
            && Deceptive(a.replay.value) && HashBytes(b.input.value) == Disguise(a.replay.value)
            && b.replay.value == a.replay.value[4..]
  {
    var ds, es, h := a.replay.value, b.replay.value, b.input.value;
    assert |Body(a)| == 9 + 8 * |ds| && |Body(b)| == 41 + 8 * |es|;
    if |ds| == |es| + 4 {
      Regroup(ds);
      MixedHeads(ds, es, h);
    }
  }

  lemma MixedHeads(ds: seq<nat>, es: seq<nat>, h: EntryHash)
    requires |ds| == |es| + 4 && IsU64(|ds|)
    requires (forall d :: d in ds ==> IsU64(d)) && (forall e :: e in es ==> IsU64(e))
    ensures var here, there := U64(ds[3]) + Words(ds[4..]), U64(|es|) + Words(es);
            (Disguise(ds) + [U64(ds[2])[7]]) + here == (HashBytes(h) + [0xA1]) + there <==>
              Deceptive(ds) && HashBytes(h) == Disguise(ds) && es == ds[4..]
  {
    assert forall d :: d in ds[4..] ==> d in ds;
    FieldsAgree(Disguise(ds), HashBytes(h), U64(ds[2])[7], ds[3], |es|, ds[4..], es);
  }

  /** The same layout read twice agrees field by field. */
  lemma FieldsAgree(p: Octets, q: Octets, t: nat, v: nat, n: nat, ws: seq<nat>, es: seq<nat>)
    requires |p| == |q| && IsU64(v) && IsU64(n) && |ws| == |es|
    requires (forall d :: d in ws ==> IsU64(d)) && (forall e :: e in es ==> IsU64(e))
    ensures (p + [t]) + (U64(v) + Words(ws)) == (q + [0xA1]) + (U64(n) + Words(es)) <==>
              p == q && t == 0xA1 && v == n && ws == es
  {
    if (p + [t]) + (U64(v) + Words(ws)) == (q + [0xA1]) + (U64(n) + Words(es)) {
      PeelEqual(p + [t], q + [0xA1], U64(v) + Words(ws), U64(n) + Words(es));
      PeelEqual(U64(v), U64(n), Words(ws), Words(es));
      U64Injective(v, n);
      WordsInjective(ws, es);
      assert (p + [t])[|p|] == (q + [0xA1])[|p|];
      PeelBack(p, q, [t], [0xA1]);
    }
  }

  lemma SameShapeBodies(a: Attempt, b: Attempt)
    requires AttemptFits(a) && AttemptFits(b) && Body(a) == Body(b)
    requires (a.replay.Some? <==> b.replay.Some?) && (a.input.Some? <==> b.input.Some?)
    ensures a.input == b.input && a.replay == b.replay
  {
    PeelEqual(InputPart(a.input), InputPart(b.input), ReplayWords(a.replay), ReplayWords(b.replay));
    if a.input.Some? {
      PeelBack(HashBytes(a.input.value), HashBytes(b.input.value), [0xA1], [0xA1]);
      HashInjective(a.input.value, b.input.value);
    }
    if a.replay.Some? {
      ReplayWordsInjective(a.replay.value, b.replay.value);
    }
  }

  /** Two attempts share a key exactly when they are the same attempt or one is
      the other's replay disguised as an input hash. */
  lemma AttemptCollisions(a: Attempt, b: Attempt)
    requires AttemptFits(a) && AttemptFits(b)
    ensures AttemptBytes(a) == AttemptBytes(b) <==> a == b || Confused(a, b) || Confused(b, a)
  {
    AttemptBytesSplit(a, b);
    if a.replay.Some? && b.replay.Some? {
      if a.input.None? && b.input.Some? { MixedBodies(a, b); }
      if a.input.Some? && b.input.None? { MixedBodies(b, a); }
    }
    if Body(a) == Body(b) && (a.replay.Some? <==> b.replay.Some?) && (a.input.Some? <==> b.input.Some?) {
      SameShapeBodies(a, b);
    }
    assert a.replay.None? ==> |Body(a)| == if a.input.Some? then 33 else 1;
    assert b.replay.None? ==> |Body(b)| == if b.input.Some? then 33 else 1;
  }

  /** The whole campaign key: with a digest that tells the two variants apart, equal
      keys mean equal variants, and attempts that are equal or disguised. */
  lemma CampaignCollisions(digest: Octets -> EntryHash, v: Variant, w: Variant, a: Attempt, b: Attempt)
    requires VariantFits(v) && VariantFits(w) && AttemptFits(a) && AttemptFits(b)
    requires a.digest == digest(VariantBytes(v)) && b.digest == digest(VariantBytes(w))
    requires digest(VariantBytes(v)) == digest(VariantBytes(w)) ==> VariantBytes(v) == VariantBytes(w)
    ensures AttemptBytes(a) == AttemptBytes(b) <==> v == w && (a == b || Confused(a, b) || Confused(b, a))
  {
    AttemptCollisions(a, b);
    VariantRoundTrip(v, []);
    VariantRoundTrip(w, []);
  }

  // ----- which attempts have a double

  lemma {:induction false} LEOfFromLE(b: Octets)
    requires forall i :: 0 <= i < |b| ==> b[i] < 256
    ensures FromLE(b) < Pow256(|b|) && LE(FromLE(b), |b|) == b
  {
    if b != [] {
      LEOfFromLE(b[1..]);
      assert FromLE(b) % 256 == b[0] && FromLE(b) / 256 == FromLE(b[1..]);
    }
  }

  /** Any 32 bytes are some hash. */
  lemma HashOf(b: Octets) returns (h: EntryHash)
    requires |b| == 32 && forall i :: 0 <= i < |b| ==> b[i] < 256
    ensures IsHash(h) && HashBytes(h) == b
  {
    h := FromLE(Mirror(b));
    MirroredNumber(b, 32);
  }

  lemma MirroredNumber(b: Octets, n: nat)
    requires |b| == n && forall i :: 0 <= i < |b| ==> b[i] < 256
    ensures FromLE(Mirror(b)) < Pow256(n) && Mirror(LE(FromLE(Mirror(b)), n)) == b
  {
    LEOfFromLE(Mirror(b));
    MirrorTwice(b);
  }

  lemma DisguiseIsBytes(ds: seq<nat>)
    requires |ds| >= 4
    ensures forall i :: 0 <= i < 32 ==> Disguise(ds)[i] < 256
  {
  }

  lemma DoubleOf(a: Attempt) returns (b: Attempt)
    requires AttemptFits(a) && a.input.None? && a.replay.Some? && Deceptive(a.replay.value)
    ensures AttemptFits(b) && b.input.Some? && Confused(a, b)
  {
    var ds := a.replay.value;
    DisguiseIsBytes(ds);
    var h := HashOf(Disguise(ds));
    assert forall d :: d in ds[4..] ==> d in ds;
    b := a.(input := Some(h), replay := Some(ds[4..]));
  }

  /** An attempt without input hash shares its key with some attempt that has one
      exactly when its replay is deceptive. */
  lemma DeceptiveHasDouble(a: Attempt)
    requires AttemptFits(a) && a.input.None?
    ensures a.replay.Some? && Deceptive(a.replay.value) <==>
            exists b :: AttemptFits(b) && b.input.Some? && AttemptBytes(a) == AttemptBytes(b)
  {
    if a.replay.Some? && Deceptive(a.replay.value) {
      var b := DoubleOf(a);
      AttemptCollisions(a, b);
      assert AttemptFits(b) && b.input.Some? && AttemptBytes(a) == AttemptBytes(b);
    }
    if b :| AttemptFits(b) && b.input.Some? && AttemptBytes(a) == AttemptBytes(b) {
      AttemptCollisions(a, b);
    }
  }

  lemma ShiftedByte(u: nat, n: nat)
    ensures LE(256 * u, n + 1) == [0] + LE(u, n)
  {
    assert (256 * u) % 256 == 0 && (256 * u) / 256 == u;
  }

  lemma TimesShifted(top: nat, p: nat)
    ensures top * (256 * p) == 256 * (top * p)
  {
  }

  lemma {:induction false} TopByte(top: nat, n: nat)
    requires top < 256
    ensures LE(top * Pow256(n), n + 1)[n] == top
    decreases n
  {
    if n == 0 {
      assert top * Pow256(0) == top;
    } else {
      TopByte(top, n - 1);
      TimesShifted(top, Pow256(n - 1));
      ShiftedByte(top * Pow256(n - 1), n);
    }
  }

  lemma BigWord(top: nat)
    requires top < 256
    ensures IsU64(top * Pow256(7)) && U64(top * Pow256(7))[7] == top
  {
    TopByte(top, 7);
    Pow256Of8();
    assert Pow256(8) == 256 * Pow256(7);
  }

  /** The layout does fail: this four-decision replay without an input hash has the
      key of an empty replay with one. */
  lemma DeceptiveExample(digest: EntryHash, seed: Option<EntryHash>)
    requires IsHash(digest) && OptIsHash(seed)
    ensures var a := Attempt(digest, None, Some([0, 0, 0xA1 * Pow256(7), 0]), seed);
            AttemptFits(a) && exists b :: AttemptFits(b) && b.input.Some? && AttemptBytes(a) == AttemptBytes(b)
  {
    var ds := [0, 0, 0xA1 * Pow256(7), 0];
    BigWord(0xA1);
    assert Deceptive(ds);
    var a := Attempt(digest, None, Some(ds), seed);
    DeceptiveHasDouble(a);
  }
}
