/**
  The scorer's archive of committed states (crates/orch-fakes/src/scorer.rs).
  Scores are arbitrary functions of an input and of what was archived before the
  batch; an input that does not decode commits nothing.
 */
module ArchiveRules {
  import opened Base

  type StateHash = nat
  type CellKey = nat
  type Input = nat
  type Rating = nat

  const MAX_SCORE_BATCH_ITEMS := 256

  datatype Commit = Commit(hash: StateHash, cell: CellKey)

  datatype Response = Response(batchId: string, archiveSeq: u64, results: seq<Rating>)

  datatype Archive = Archive(featureMap: Option<nat>, program: Option<nat>, archiveSeq: u64, seen: set<StateHash>,
                             cells: map<CellKey, nat>, cache: map<string, Response>)
  {
    predicate Loaded() { featureMap.Some? && program.Some? }
  }

  datatype Scoring = Scoring(rate: (Input, set<StateHash>, map<CellKey, nat>) -> Rating,
                             decode: Input -> Option<Commit>)

  datatype Failure = InvalidRequest | FailedPrecondition

  datatype Op = Score(batchId: string, inputs: seq<Input>, insert: bool) | Replay(commits: seq<Commit>)

  function Count(cells: map<CellKey, nat>, k: CellKey): nat { if k in cells then cells[k] else 0 }

  /** A hash counts towards its cell the first time it is seen. */
  function Absorbed(a: Archive, commits: seq<Commit>): Archive {
    if commits == [] then a
    else
      var p, c := Absorbed(a, commits[..|commits| - 1]), commits[|commits| - 1];
      if c.hash in p.seen then p
      else p.(seen := p.seen + {c.hash}, cells := p.cells[c.cell := Count(p.cells, c.cell) + 1])
  }

  function Decoded(scoring: Scoring, inputs: seq<Input>): seq<Commit> {
    if inputs == [] then []
    else
      var c := scoring.decode(inputs[|inputs| - 1]);
      Decoded(scoring, inputs[..|inputs| - 1]) + if c.Some? then [c.value] else []
  }

  /** Every input is rated against the archive as it was before the batch. */
  function Rated(scoring: Scoring, a: Archive, inputs: seq<Input>): seq<Rating> {
    if inputs == [] then []
    else Rated(scoring, a, inputs[..|inputs| - 1]) + [scoring.rate(inputs[|inputs| - 1], a.seen, a.cells)]
  }

  function Scored(scoring: Scoring, a: Archive, batchId: string, inputs: seq<Input>, insert: bool)
    : (Archive, Result<Response, Failure>)
  {
    if inputs == [] || |inputs| > MAX_SCORE_BATCH_ITEMS then (a, Err(InvalidRequest))
    else if !a.Loaded() then (a, Err(FailedPrecondition))
    else if batchId in a.cache then (a, Ok(a.cache[batchId]))
    else if !insert then (a, Ok(Response(batchId, a.archiveSeq, Rated(scoring, a, inputs))))
    else
      var archiveSeq := Min(a.archiveSeq + 1, U64_MAX);
      var response := Response(batchId, archiveSeq, Rated(scoring, a, inputs));
      (Absorbed(a, Decoded(scoring, inputs)).(archiveSeq := archiveSeq, cache := a.cache[batchId := response]),
       Ok(response))
  }

  function Restored(a: Archive, snapshot: Archive): Result<Archive, Failure>
    requires snapshot.Loaded()
  {
    if a.featureMap != snapshot.featureMap || a.program != snapshot.program then Err(FailedPrecondition)
    else Ok(snapshot)
  }

  function Apply(scoring: Scoring, a: Archive, op: Op): Archive {
    match op
    case Score(batchId, inputs, insert) => Scored(scoring, a, batchId, inputs, insert).0
    case Replay(commits) => if a.Loaded() then Absorbed(a, commits) else a
  }

  function Run(scoring: Scoring, a: Archive, ops: seq<Op>): Archive {
    if ops == [] then a else Apply(scoring, Run(scoring, a, ops[..|ops| - 1]), ops[|ops| - 1])
  }

  /** An inserting batch that is neither refused nor cached. */
  predicate Inserting(a: Archive, op: Op) {
    && a.Loaded() && op.Score? && op.insert
    && op.inputs != [] && |op.inputs| <= MAX_SCORE_BATCH_ITEMS && op.batchId !in a.cache
  }

  /** What an operation commits: nothing for a refused, cached or score-only batch. */
  function CommittedBy(scoring: Scoring, a: Archive, op: Op): seq<Commit> {
    if Inserting(a, op) then Decoded(scoring, op.inputs)
    else if a.Loaded() && op.Replay? then op.commits
    else []
  }

  function CommittedSince(scoring: Scoring, a: Archive, ops: seq<Op>): seq<Commit> {
    if ops == [] then []
    else
      var before := ops[..|ops| - 1];
      CommittedSince(scoring, a, before) + CommittedBy(scoring, Run(scoring, a, before), ops[|ops| - 1])
  }
}
