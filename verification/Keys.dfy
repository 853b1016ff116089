/** Hand-built key layouts. BLAKE3 is taken to be injective, so two keys agree
    exactly when the bytes fed to the hasher agree; what is proved here is about
    those bytes.
 */
module Keys {
  import opened Journals
  import opened Bytes
  import opened Solver

  /** Every field fits the width it is written with. */
  predicate Fits(c: SolverConfig) {
    && OptIsU64(c.maxHorizon) && OptIsU64(c.oracleVersion) && OptIsU64(c.inputClass)
    && OptIsU64(c.maxFaults) && OptIsU64(c.supportVersion)
    && OptIsHash(c.runConfigHash) && OptIsHash(c.supportDigest)
  }

  // ----- the fields after the horizon, each behind its own separator

  /** The separators of one layout, in order. */
  datatype Marks = Marks(oracle: nat, input: nat, faults: nat, engine: nat, run: nat, version: nat, digest: nat)

  /** How many eight-byte words the optional fields of a tail add. */
  function Words(o: Option<nat>, width: nat): nat { if o.Some? then width else 0 }

  function Pins(m: Marks, c: SolverConfig): (b: Octets)
    ensures |b| == 6 + 8 * (Words(c.runConfigHash, 4) + Words(c.supportVersion, 1) + Words(c.supportDigest, 4))
  {
    var digest := [m.digest] + OptHash(c.supportDigest);
    [m.run] + (OptHash(c.runConfigHash) + ([m.version] + (OptU64(c.supportVersion) + digest)))
  }

  /** The three limits, followed by `rest`. */
  function Limits(m: Marks, c: SolverConfig, rest: Octets): (b: Octets)
    ensures |b| == |rest| + 6 + 8 * (Words(c.oracleVersion, 1) + Words(c.inputClass, 1) + Words(c.maxFaults, 1))
  {
    var faults := [m.faults] + (OptU64(c.maxFaults) + rest);
    [m.oracle] + (OptU64(c.oracleVersion) + ([m.input] + (OptU64(c.inputClass) + faults)))
  }

  function TailWords(c: SolverConfig): nat {
    (Words(c.oracleVersion, 1) + Words(c.inputClass, 1) + Words(c.maxFaults, 1))
    + (Words(c.runConfigHash, 4) + Words(c.supportVersion, 1) + Words(c.supportDigest, 4))
  }

  function Tail(m: Marks, tag: nat, c: SolverConfig): (b: Octets)
    ensures |b| == 14 + 8 * TailWords(c)
  {
    Limits(m, c, [m.engine] + ([tag] + Pins(m, c)))
  }

  /** The part of a configuration the tail carries. */
  predicate SameTail(c: SolverConfig, d: SolverConfig) {
    c.(maxHorizon := d.maxHorizon) == d
  }

  lemma PeelMark(m: nat, x: Octets, y: Octets)
    requires [m] + x == [m] + y
    ensures x == y
  {
    PeelEqual([m], [m], x, y);
  }

  lemma PinsInjective(m: Marks, c: SolverConfig, d: SolverConfig)
    requires Fits(c) && Fits(d) && Pins(m, c) == Pins(m, d)
    ensures c.runConfigHash == d.runConfigHash && c.supportVersion == d.supportVersion
            && c.supportDigest == d.supportDigest
  {
    var c6, d6 := [m.digest] + OptHash(c.supportDigest), [m.digest] + OptHash(d.supportDigest);
    var c5, d5 := [m.version] + (OptU64(c.supportVersion) + c6), [m.version] + (OptU64(d.supportVersion) + d6);
    PeelMark(m.run, OptHash(c.runConfigHash) + c5, OptHash(d.runConfigHash) + d5);
    PeelOptHash(c.runConfigHash, d.runConfigHash, c5, d5);
    PeelMark(m.version, OptU64(c.supportVersion) + c6, OptU64(d.supportVersion) + d6);
    PeelOptU64(c.supportVersion, d.supportVersion, c6, d6);
    PeelMark(m.digest, OptHash(c.supportDigest), OptHash(d.supportDigest));
    assert OptHash(c.supportDigest) + [] == OptHash(c.supportDigest)
           && OptHash(d.supportDigest) + [] == OptHash(d.supportDigest);
    PeelOptHash(c.supportDigest, d.supportDigest, [], []);
  }

  lemma PeelLimits(m: Marks, c: SolverConfig, d: SolverConfig, x: Octets, y: Octets)
    requires Fits(c) && Fits(d) && Limits(m, c, x) == Limits(m, d, y)
    ensures c.oracleVersion == d.oracleVersion && c.inputClass == d.inputClass && c.maxFaults == d.maxFaults && x == y
  {
    var c2, d2 := [m.faults] + (OptU64(c.maxFaults) + x), [m.faults] + (OptU64(d.maxFaults) + y);
    var c1, d1 := [m.input] + (OptU64(c.inputClass) + c2), [m.input] + (OptU64(d.inputClass) + d2);
    PeelMark(m.oracle, OptU64(c.oracleVersion) + c1, OptU64(d.oracleVersion) + d1);
    PeelOptU64(c.oracleVersion, d.oracleVersion, c1, d1);
    PeelMark(m.input, OptU64(c.inputClass) + c2, OptU64(d.inputClass) + d2);
    PeelOptU64(c.inputClass, d.inputClass, c2, d2);
    PeelMark(m.faults, OptU64(c.maxFaults) + x, OptU64(d.maxFaults) + y);
    PeelOptU64(c.maxFaults, d.maxFaults, x, y);
  }

  lemma TailInjective(m: Marks, s: nat, t: nat, c: SolverConfig, d: SolverConfig)
    requires Fits(c) && Fits(d) && Tail(m, s, c) == Tail(m, t, d)
    ensures s == t && SameTail(c, d)
  {
    PeelLimits(m, c, d, [m.engine] + ([s] + Pins(m, c)), [m.engine] + ([t] + Pins(m, d)));
    PeelMark(m.engine, [s] + Pins(m, c), [t] + Pins(m, d));
    PeelEqual([s], [t], Pins(m, c), Pins(m, d));
    assert [s][0] == [t][0];
    PinsInjective(m, c, d);
  }

  // ----- the clause-cache key

  const KEY_MARKS := Marks(0xfd, 0xfc, 0xfb, 0xfa, 0xf9, 0xf8, 0xf7)

  function BareHorizon(o: Option<nat>): (b: Octets)
    ensures |b| == if o.Some? then 8 else 2
  {
    match o case Some(v) => U64(v) case None => [0xff, 0xff]
  }

  function KeyBytes(closure: EntryHash, tag: nat, c: SolverConfig): Octets {
    HashBytes(closure) + ([0xfe] + (BareHorizon(c.maxHorizon) + Tail(KEY_MARKS, tag, c)))
  }

  /** A hasher that is being fed `all`; `rest` names the bytes still to come. */
  class Hasher {
    var fed: Octets

    constructor ()
      ensures fed == []
    {
      fed := [];
    }

    method Update(bytes: Octets, ghost rest: Octets, ghost all: Octets)
      requires fed + (bytes + rest) == all
      modifies this
      ensures fed == old(fed) + bytes && fed + rest == all
    {
      assert fed + bytes + rest == fed + (bytes + rest);
      fed := fed + bytes;
    }

    method UpdateOptU64(o: Option<nat>, ghost rest: Octets, ghost all: Octets)
      requires fed + (OptU64(o) + rest) == all
      modifies this
      ensures fed + rest == all
    {
      if o.Some? {
        assert OptU64(o) + rest == [0x01] + (U64(o.value) + rest);
        Update([0x01], U64(o.value) + rest, all);
        Update(U64(o.value), rest, all);
      } else {
        Update([0x00], rest, all);
      }
    }

    method UpdateOptHash(o: Option<EntryHash>, ghost rest: Octets, ghost all: Octets)
      requires fed + (OptHash(o) + rest) == all
      modifies this
      ensures fed + rest == all
    {
      if o.Some? {
        assert OptHash(o) + rest == [0x01] + (HashBytes(o.value) + rest);
        Update([0x01], HashBytes(o.value) + rest, all);
        Update(HashBytes(o.value), rest, all);
      } else {
        Update([0x00], rest, all);
      }
    }

    method FeedLimits(c: SolverConfig, ghost rest: Octets, ghost all: Octets)
      requires fed + Limits(KEY_MARKS, c, rest) == all
      modifies this
      ensures fed + rest == all
    {
      ghost var r2 := [0xfb] + (OptU64(c.maxFaults) + rest);
      ghost var r1 := [0xfc] + (OptU64(c.inputClass) + r2);
      Update([0xfd], OptU64(c.oracleVersion) + r1, all);
      UpdateOptU64(c.oracleVersion, r1, all);
      Update([0xfc], OptU64(c.inputClass) + r2, all);
      UpdateOptU64(c.inputClass, r2, all);
      Update([0xfb], OptU64(c.maxFaults) + rest, all);
      UpdateOptU64(c.maxFaults, rest, all);
    }

    method FeedPins(c: SolverConfig, ghost all: Octets)
      requires fed + Pins(KEY_MARKS, c) == all
      modifies this
      ensures fed == all
    {
      ghost var r2 := [0xf7] + OptHash(c.supportDigest);
      ghost var r1 := [0xf8] + (OptU64(c.supportVersion) + r2);
      Update([0xf9], OptHash(c.runConfigHash) + r1, all);
      UpdateOptHash(c.runConfigHash, r1, all);
      Update([0xf8], OptU64(c.supportVersion) + r2, all);
      UpdateOptU64(c.supportVersion, r2, all);
      Update([0xf7], OptHash(c.supportDigest), all);
      assert OptHash(c.supportDigest) == OptHash(c.supportDigest) + [];
      UpdateOptHash(c.supportDigest, [], all);
    }
  }

  /** The hasher is fed exactly the documented layout. */
  method ComputeKey(closure: EntryHash, tag: nat, c: SolverConfig) returns (h: Hasher)
    ensures fresh(h) && h.fed == KeyBytes(closure, tag, c)
  {
    h := new Hasher();
    ghost var all := KeyBytes(closure, tag, c);
    ghost var r1 := Tail(KEY_MARKS, tag, c);
    ghost var r2 := [tag] + Pins(KEY_MARKS, c);
    h.Update(HashBytes(closure), [0xfe] + (BareHorizon(c.maxHorizon) + r1), all);
    h.Update([0xfe], BareHorizon(c.maxHorizon) + r1, all);
    if c.maxHorizon.Some? {
      h.Update(U64(c.maxHorizon.value), r1, all);
    } else {
      h.Update([0xff, 0xff], r1, all);
    }
    h.FeedLimits(c, [0xfa] + r2, all);
    h.Update([0xfa], r2, all);
    h.Update([tag], Pins(KEY_MARKS, c), all);
    h.FeedPins(c, all);
  }

  /** The bare horizon has no presence byte: the total length modulo eight is what
      tells the two-byte marker from an eight-byte horizon. */
  lemma HorizonByLength(closure: EntryHash, tag: nat, c: SolverConfig)
    ensures |KeyBytes(closure, tag, c)| % 8 == if c.maxHorizon.Some? then 7 else 1
  {
  }

  /** Equal cache keys mean equal closure, engine tag and configuration. */
  lemma KeyInjective(p: EntryHash, q: EntryHash, s: nat, t: nat, c: SolverConfig, d: SolverConfig)
    requires IsHash(p) && IsHash(q) && Fits(c) && Fits(d)
    requires KeyBytes(p, s, c) == KeyBytes(q, t, d)
    ensures p == q && s == t && c == d
  {
    HorizonByLength(p, s, c);
    HorizonByLength(q, t, d);
    var x, y := BareHorizon(c.maxHorizon) + Tail(KEY_MARKS, s, c), BareHorizon(d.maxHorizon) + Tail(KEY_MARKS, t, d);
    PeelEqual(HashBytes(p), HashBytes(q), [0xfe] + x, [0xfe] + y);
    HashInjective(p, q);
    PeelMark(0xfe, x, y);
    PeelEqual(BareHorizon(c.maxHorizon), BareHorizon(d.maxHorizon), Tail(KEY_MARKS, s, c), Tail(KEY_MARKS, t, d));
    if c.maxHorizon.Some? {
      U64Injective(c.maxHorizon.value, d.maxHorizon.value);
    }
    TailInjective(KEY_MARKS, s, t, c, d);
  }

  // ----- the solver-state fingerprint

  const FINGERPRINT_MARKS := Marks(0x02, 0x03, 0x04, 0x05, 0x06, 0x07, 0x08)
  const FINGERPRINT_DOMAIN := "ldgr.solver_state.config.fingerprint.v2"
  const COST_MODEL_VERSION: nat := 1

  function Ascii(s: string): Octets {
    seq(|s|, i requires 0 <= i < |s| => s[i] as nat)
  }

  function EngineTag(e: SolverEngine): nat {
    match e case Builtin => 0 case Cadical => 1 case Auto => 0xFE
  }

  function TaggedHorizon(o: Option<nat>): (b: Octets)
    ensures |b| > 0
  {
    match o case Some(v) => [0x01] + U64(v) case None => [0x00] + [0xFF, 0xFF]
  }

  function FingerprintBytes(c: SolverConfig, engine: SolverEngine): Octets {
    Ascii(FINGERPRINT_DOMAIN) + ([0x00, COST_MODEL_VERSION, 0x01]
    + (TaggedHorizon(c.maxHorizon) + Tail(FINGERPRINT_MARKS, EngineTag(engine), c)))
  }

  /** Equal fingerprints mean equal configuration and resolved engine. */
  lemma FingerprintInjective(c: SolverConfig, d: SolverConfig, e: SolverEngine, f: SolverEngine)
    requires Fits(c) && Fits(d) && FingerprintBytes(c, e) == FingerprintBytes(d, f)
    ensures c == d && e == f
  {
    var x := TaggedHorizon(c.maxHorizon) + Tail(FINGERPRINT_MARKS, EngineTag(e), c);
    var y := TaggedHorizon(d.maxHorizon) + Tail(FINGERPRINT_MARKS, EngineTag(f), d);
    var head := [0x00, COST_MODEL_VERSION, 0x01];
    PeelEqual(Ascii(FINGERPRINT_DOMAIN), Ascii(FINGERPRINT_DOMAIN), head + x, head + y);
    PeelEqual(head, head, x, y);
    assert TaggedHorizon(c.maxHorizon)[0] == x[0] == y[0] == TaggedHorizon(d.maxHorizon)[0];
    PeelEqual(TaggedHorizon(c.maxHorizon), TaggedHorizon(d.maxHorizon), Tail(FINGERPRINT_MARKS, EngineTag(e), c),
              Tail(FINGERPRINT_MARKS, EngineTag(f), d));
    if c.maxHorizon.Some? {
      PeelMark(0x01, U64(c.maxHorizon.value), U64(d.maxHorizon.value));
      U64Injective(c.maxHorizon.value, d.maxHorizon.value);
    }
    TailInjective(FINGERPRINT_MARKS, EngineTag(e), EngineTag(f), c, d);
  }
}
