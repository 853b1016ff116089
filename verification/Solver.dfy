/** Configuration and results shared by the encoder, the engines and the caches. */
module Solver {
  import opened Journals

  datatype SolverEngine = Auto | Builtin | Cadical

  /** The requested engine is left out: only the resolved one joins any key. */
  datatype SolverConfig = SolverConfig(
    maxHorizon: Option<nat>,
    oracleVersion: Option<nat>,
    inputClass: Option<nat>,
    maxFaults: Option<nat>,
    runConfigHash: Option<EntryHash>,
    supportVersion: Option<nat>,
    supportDigest: Option<EntryHash>)

  /** The largest 64-bit number. */
  const U64_MAX: nat := 0xFFFF_FFFF_FFFF_FFFF

  type Clause = seq<EntryHash>

  datatype CardinalityBound = CardinalityBound(literals: seq<EntryHash>, maxTrue: nat)

  datatype HazardEncoding = HazardEncoding(
    hard: seq<Clause>,
    soft: seq<(Clause, nat)>,
    cardinality: Option<CardinalityBound>)

  datatype MaxSatSolution = MaxSatSolution(cut: seq<EntryHash>, totalCost: nat, unsatCoreCost: nat)

  datatype SolverError = MissingParent(h: EntryHash) | EmptyProvenance | BudgetExhausted | Unsupported

  datatype Result<+T> = Ok(value: T) | Err(error: SolverError)
}
