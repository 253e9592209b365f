/** The archive itself, updated in place. */
module ScorerArchive {
  import opened Base
  import opened ArchiveRules
  import opened ArchiveRepair

  class ExperimentArchive {
    var featureMap: Option<nat>
    var program: Option<nat>
    var archiveSeq: u64
    var seenHashes: set<StateHash>
    var cellCounts: map<CellKey, nat>
    var batchCache: map<string, Response>

    ghost function View(): Archive
      reads this
    {
      Archive(featureMap, program, archiveSeq, seenHashes, cellCounts, batchCache)
    }

    constructor ()
      ensures View() == Archive(None, None, 0, {}, map[], map[])
    {
      featureMap, program, archiveSeq, seenHashes, cellCounts, batchCache := None, None, 0, {}, map[], map[];
    }

    /** Inserts each state once; counts how many were new. */
    method InsertAll(commits: seq<Commit>) returns (applied: nat, skipped: nat)
      modifies `seenHashes, `cellCounts
      ensures View() == Absorbed(old(View()), commits)
      ensures applied + skipped == |commits| && applied == |Hashes(commits) - old(seenHashes)|
    {
      applied, skipped := 0, 0;
      for k := 0 to |commits|
        invariant View() == Absorbed(old(View()), commits[..k])
        invariant applied + skipped == k && applied == |seenHashes| - |old(seenHashes)|
      {
        assert commits[..k + 1][..k] == commits[..k];
        if commits[k].hash in seenHashes {
          skipped := skipped + 1;
        } else {
          seenHashes := seenHashes + {commits[k].hash};
          cellCounts := cellCounts[commits[k].cell := Count(cellCounts, commits[k].cell) + 1];
          applied := applied + 1;
        }
      }
      assert commits[..|commits|] == commits;
      AbsorbedKeepsRest(old(View()), commits);
      assert seenHashes == old(seenHashes) + (Hashes(commits) - old(seenHashes));
    }

    method ScoreInputs(scoring: Scoring, inputs: seq<Input>) returns (results: seq<Rating>, commits: seq<Commit>)
      ensures results == Rated(scoring, View(), inputs) && commits == Decoded(scoring, inputs)
    {
      results, commits := [], [];
      for k := 0 to |inputs|
        invariant results == Rated(scoring, View(), inputs[..k]) && commits == Decoded(scoring, inputs[..k])
      {
        assert inputs[..k + 1][..k] == inputs[..k];
        results := results + [scoring.rate(inputs[k], seenHashes, cellCounts)];
        var c := scoring.decode(inputs[k]);
        if c.Some? { commits := commits + [c.value]; }
      }
      assert inputs[..|inputs|] == inputs;
    }

    method ScoreBatch(scoring: Scoring, batchId: string, inputs: seq<Input>, insert: bool)
      returns (r: Result<Response, Failure>)
      modifies `archiveSeq, `seenHashes, `cellCounts, `batchCache
      ensures (View(), r) == Scored(scoring, old(View()), batchId, inputs, insert)
    {
      if inputs == [] || |inputs| > MAX_SCORE_BATCH_ITEMS { return Err(InvalidRequest); }
      if featureMap.None? || program.None? { return Err(FailedPrecondition); }
      if batchId in batchCache { return Ok(batchCache[batchId]); }
      var results, commits := ScoreInputs(scoring, inputs);
      if !insert { return Ok(Response(batchId, archiveSeq, results)); }
      AbsorbedKeepsRest(View(), commits);
      var _, _ := InsertAll(commits);
      archiveSeq := Min(archiveSeq + 1, U64_MAX);
      var response := Response(batchId, archiveSeq, results);
      batchCache := batchCache[batchId := response];
      return Ok(response);
    }

    method ReplayCommits(scoring: Scoring, commits: seq<Commit>) returns (r: Result<(nat, nat), Failure>)
      modifies `seenHashes, `cellCounts
      ensures View() == Apply(scoring, old(View()), Replay(commits))
      ensures r.Ok? <==> old(View()).Loaded()
      ensures r.Ok? ==> r.value.0 == |Hashes(commits) - old(seenHashes)| && r.value.0 + r.value.1 == |commits|
    {
      if featureMap.None? || program.None? { return Err(FailedPrecondition); }
      var applied, skipped := InsertAll(commits);
      return Ok((applied, skipped));
    }

    method Restore(snapshot: Archive) returns (r: Result<u64, Failure>)
      requires snapshot.Loaded()
      modifies this
      ensures match Restored(old(View()), snapshot)
              case Ok(a) => View() == a && r == Ok(snapshot.archiveSeq)
              case Err(e) => View() == old(View()) && r == Err(e)
    {
      if featureMap != snapshot.featureMap || program != snapshot.program { return Err(FailedPrecondition); }
      archiveSeq, seenHashes := snapshot.archiveSeq, snapshot.seen;
      cellCounts, batchCache := snapshot.cells, snapshot.cache;
      return Ok(archiveSeq);
    }
  }
}
