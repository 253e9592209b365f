/** Repairing an archive by replay, and retrying batches. */
module ArchiveRepair {
  import opened Base
  import opened ArchiveRules

  ghost predicate Alike(a: Archive, b: Archive) { a.seen == b.seen && a.cells == b.cells }

  /** The cell of a state is a function of its hash. */
  ghost predicate Consistent(commits: seq<Commit>, cellOf: StateHash -> CellKey) {
    forall c :: c in commits ==> c.cell == cellOf(c.hash)
  }

  function Hashes(commits: seq<Commit>): set<StateHash> { set c | c in commits :: c.hash }

  ghost function NewIn(a: Archive, hashes: set<StateHash>, cellOf: StateHash -> CellKey, k: CellKey): set<StateHash> {
    set h | h in hashes && h !in a.seen && cellOf(h) == k
  }

  lemma {:induction false} HashesGrow(commits: seq<Commit>)
    requires commits != []
    ensures Hashes(commits) == Hashes(commits[..|commits| - 1]) + {commits[|commits| - 1].hash}
  {
    assert commits == commits[..|commits| - 1] + [commits[|commits| - 1]];
  }

  lemma {:induction false} AbsorbedKeepsRest(a: Archive, commits: seq<Commit>)
    ensures var r := Absorbed(a, commits); r == a.(seen := r.seen, cells := r.cells)
    ensures Absorbed(a, commits).seen == a.seen + Hashes(commits)
  {
    if commits == [] {
    } else {
      AbsorbedKeepsRest(a, commits[..|commits| - 1]);
      HashesGrow(commits);
    }
  }

  /** What a commit adds to the count of one cell. */
  lemma {:induction false} NewGrows(a: Archive, hashes: set<StateHash>, h: StateHash,
                                    cellOf: StateHash -> CellKey, k: CellKey)
    ensures var before, after := NewIn(a, hashes, cellOf, k), NewIn(a, hashes + {h}, cellOf, k);
            after == if h !in a.seen && cellOf(h) == k then before + {h} else before
  {
  }

  /** Each cell's count rises by the number of new hashes that fall in it. */
  lemma {:induction false} AbsorbedCounts(a: Archive, commits: seq<Commit>, cellOf: StateHash -> CellKey, k: CellKey)
    requires Consistent(commits, cellOf)
    ensures var r := Absorbed(a, commits);
            var added := NewIn(a, Hashes(commits), cellOf, k);
            && Count(r.cells, k) == Count(a.cells, k) + |added|
            && (k in r.cells <==> k in a.cells || added != {})
  {
    if commits == [] {
    } else {
      var front, c := commits[..|commits| - 1], commits[|commits| - 1];
      AbsorbedCounts(a, front, cellOf, k);
      AbsorbedKeepsRest(a, front);
      HashesGrow(commits);
      NewGrows(a, Hashes(front), c.hash, cellOf, k);
      var p, before := Absorbed(a, front), NewIn(a, Hashes(front), cellOf, k);
      if c.hash in p.seen {
        assert NewIn(a, Hashes(commits), cellOf, k) == before;
      } else {
        assert c.hash !in before && c.cell == cellOf(c.hash);
      }
    }
  }

  /** The archive depends on which states were committed, not on their order or number of times. */
  lemma {:induction false} OrderAndRepeatsVanish(a: Archive, x: seq<Commit>, y: seq<Commit>,
                                                 cellOf: StateHash -> CellKey)
    requires Consistent(x, cellOf) && Consistent(y, cellOf) && Hashes(x) == Hashes(y)
    ensures Alike(Absorbed(a, x), Absorbed(a, y))
  {
    AbsorbedKeepsRest(a, x);
    AbsorbedKeepsRest(a, y);
    var cx, cy := Absorbed(a, x).cells, Absorbed(a, y).cells;
    forall k ensures (k in cx <==> k in cy) && Count(cx, k) == Count(cy, k) {
      AbsorbedCounts(a, x, cellOf, k);
      AbsorbedCounts(a, y, cellOf, k);
    }
    forall k | k in cx ensures cx[k] == cy[k] { assert Count(cx, k) == Count(cy, k); }
    assert cx == cy;
  }

  lemma {:induction false} AbsorbedAlike(a: Archive, b: Archive, commits: seq<Commit>)
    requires Alike(a, b)
    ensures Alike(Absorbed(a, commits), Absorbed(b, commits))
  {
    if commits == [] {
    } else {
      AbsorbedAlike(a, b, commits[..|commits| - 1]);
    }
  }

  lemma {:induction false} AbsorbedSplits(a: Archive, x: seq<Commit>, y: seq<Commit>)
    ensures Absorbed(a, x + y) == Absorbed(Absorbed(a, x), y)
  {
    if y == [] {
      assert x + y == x;
    } else {
      AbsorbedSplits(a, x, y[..|y| - 1]);
      assert (x + y)[..|x + y| - 1] == x + y[..|y| - 1];
    }
  }

  lemma {:induction false} ApplyAbsorbs(scoring: Scoring, a: Archive, op: Op)
    ensures Alike(Apply(scoring, a, op), Absorbed(a, CommittedBy(scoring, a, op)))
    ensures Apply(scoring, a, op).featureMap == a.featureMap && Apply(scoring, a, op).program == a.program
    ensures forall id :: id in a.cache ==>
              id in Apply(scoring, a, op).cache && Apply(scoring, a, op).cache[id] == a.cache[id]
  {
    AbsorbedKeepsRest(a, CommittedBy(scoring, a, op));
    match op
    case Score(_, inputs, _) => AbsorbedKeepsRest(a, Decoded(scoring, inputs));
    case Replay(_) =>
  }

  /** Any run of batches and replays archives just what it committed. */
  lemma {:induction false} RunAbsorbs(scoring: Scoring, a: Archive, ops: seq<Op>)
    ensures var r := Run(scoring, a, ops);
            && Alike(r, Absorbed(a, CommittedSince(scoring, a, ops)))
            && r.featureMap == a.featureMap && r.program == a.program
            && forall id :: id in a.cache ==> id in r.cache && r.cache[id] == a.cache[id]
  {
    if ops == [] {
    } else {
      var before, op := ops[..|ops| - 1], ops[|ops| - 1];
      RunAbsorbs(scoring, a, before);
      var mid := Run(scoring, a, before);
      ApplyAbsorbs(scoring, mid, op);
      var x, y := CommittedSince(scoring, a, before), CommittedBy(scoring, mid, op);
      AbsorbedAlike(mid, Absorbed(a, x), y);
      AbsorbedSplits(a, x, y);
    }
  }

  /**
    Restoring a checkpoint and replaying the states committed since, in any
    order and with any repeats, rebuilds the archive of the uninterrupted run.
   */
  lemma {:induction false} RepairMatchesRun(scoring: Scoring, checkpoint: Archive, ops: seq<Op>, lost: Archive,
                                            replayed: seq<Commit>, cellOf: StateHash -> CellKey)
    requires checkpoint.Loaded() && lost.featureMap == checkpoint.featureMap && lost.program == checkpoint.program
    requires var since := CommittedSince(scoring, checkpoint, ops);
             Consistent(since, cellOf) && Consistent(replayed, cellOf) && Hashes(replayed) == Hashes(since)
    ensures Restored(lost, checkpoint).Ok?
    ensures Alike(Apply(scoring, Restored(lost, checkpoint).value, Replay(replayed)), Run(scoring, checkpoint, ops))
  {
    RunAbsorbs(scoring, checkpoint, ops);
    OrderAndRepeatsVanish(checkpoint, replayed, CommittedSince(scoring, checkpoint, ops), cellOf);
  }

  // ------------------------------------------------------------------
  // The sequence number and the response cache
  // ------------------------------------------------------------------

  lemma {:induction false} ApplyRecords(scoring: Scoring, a: Archive, op: Op)
    ensures var r := Apply(scoring, a, op);
            && r.featureMap == a.featureMap && r.program == a.program
            && if Inserting(a, op) then
                 && r.archiveSeq == Min(a.archiveSeq + 1, U64_MAX)
                 && exists response: Response ::
                      response.archiveSeq == r.archiveSeq && r.cache == a.cache[op.batchId := response]
               else
                 r.archiveSeq == a.archiveSeq && r.cache == a.cache
  {
    AbsorbedKeepsRest(a, CommittedBy(scoring, a, op));
    if Inserting(a, op) { assert Apply(scoring, a, op).cache[op.batchId].archiveSeq == Min(a.archiveSeq + 1, U64_MAX); }
  }

  /** How many batches of the run are inserted. */
  function Inserts(scoring: Scoring, a: Archive, ops: seq<Op>): nat {
    if ops == [] then 0
    else
      var before := ops[..|ops| - 1];
      Inserts(scoring, a, before) + if Inserting(Run(scoring, a, before), ops[|ops| - 1]) then 1 else 0
  }

  lemma {:induction false} SeqCountsInserts(scoring: Scoring, a: Archive, ops: seq<Op>)
    ensures Run(scoring, a, ops).archiveSeq == Min(a.archiveSeq + Inserts(scoring, a, ops), U64_MAX)
  {
    if ops == [] {
    } else {
      var before, op := ops[..|ops| - 1], ops[|ops| - 1];
      SeqCountsInserts(scoring, a, before);
      ApplyRecords(scoring, Run(scoring, a, before), op);
    }
  }

  /** A run inserts nothing exactly when no batch of it would be inserted at its start. */
  lemma {:induction false} InsertsNothing(scoring: Scoring, a: Archive, ops: seq<Op>)
    ensures Inserts(scoring, a, ops) == 0 <==> forall i :: 0 <= i < |ops| ==> !Inserting(a, ops[i])
    ensures Inserts(scoring, a, ops) == 0 ==> Run(scoring, a, ops).cache == a.cache
  {
    if ops == [] {
    } else {
      var before, op := ops[..|ops| - 1], ops[|ops| - 1];
      InsertsNothing(scoring, a, before);
      RunAbsorbs(scoring, a, before);
      ApplyRecords(scoring, Run(scoring, a, before), op);
      assert ops == before + [op];
      if forall i :: 0 <= i < |before| ==> !Inserting(a, before[i]) {
        assert Inserting(a, op) <==> Inserting(Run(scoring, a, before), op);
      } else {
        var i :| 0 <= i < |before| && Inserting(a, before[i]);
        assert Inserting(a, ops[i]);
      }
    }
  }

  /**
    Replaying does not repair the sequence number: it comes back only if no
    batch was inserted since the checkpoint or it had stopped counting.
   */
  lemma {:induction false} RepairedSeqIff(scoring: Scoring, checkpoint: Archive, ops: seq<Op>, replayed: seq<Commit>)
    ensures Apply(scoring, checkpoint, Replay(replayed)).archiveSeq == Run(scoring, checkpoint, ops).archiveSeq
       <==> (forall i :: 0 <= i < |ops| ==> !Inserting(checkpoint, ops[i])) || checkpoint.archiveSeq == U64_MAX
  {
    AbsorbedKeepsRest(checkpoint, replayed);
    SeqCountsInserts(scoring, checkpoint, ops);
    InsertsNothing(scoring, checkpoint, ops);
  }

  /** What two archives that rate differently still share. */
  ghost predicate InStep(a: Archive, b: Archive) {
    && a.featureMap == b.featureMap && a.program == b.program && a.archiveSeq == b.archiveSeq
    && a.cache.Keys == b.cache.Keys
    && forall id :: id in a.cache ==> a.cache[id].archiveSeq == b.cache[id].archiveSeq
  }

  lemma {:induction false} StepInStep(scoring: Scoring, a: Archive, b: Archive, op: Op)
    requires InStep(a, b)
    ensures InStep(Apply(scoring, a, op), Apply(scoring, b, op))
    ensures CommittedBy(scoring, a, op) == CommittedBy(scoring, b, op)
  {
    ApplyRecords(scoring, a, op);
    ApplyRecords(scoring, b, op);
  }

  lemma {:induction false} StaysInStep(scoring: Scoring, a: Archive, b: Archive, ops: seq<Op>)
    requires InStep(a, b)
    ensures InStep(Run(scoring, a, ops), Run(scoring, b, ops))
    ensures CommittedSince(scoring, a, ops) == CommittedSince(scoring, b, ops)
  {
    if ops == [] {
    } else {
      var before, op := ops[..|ops| - 1], ops[|ops| - 1];
      StaysInStep(scoring, a, b, before);
      StepInStep(scoring, Run(scoring, a, before), Run(scoring, b, before), op);
    }
  }

  lemma {:induction false} SeenAddsNothing(a: Archive, commits: seq<Commit>)
    requires Hashes(commits) <= a.seen
    ensures Absorbed(a, commits) == a
  {
    if commits == [] {
    } else {
      HashesGrow(commits);
      SeenAddsNothing(a, commits[..|commits| - 1]);
    }
  }

  /**
    After a repair the lost batches can simply be sent again: they add nothing
    twice, and they bring back the sequence number and the cached batch ids.
   */
  lemma {:induction false} RedoCatchesUp(scoring: Scoring, checkpoint: Archive, ops: seq<Op>, replayed: seq<Commit>,
                                         cellOf: StateHash -> CellKey)
    requires checkpoint.Loaded()
    requires var since := CommittedSince(scoring, checkpoint, ops);
             Consistent(since, cellOf) && Consistent(replayed, cellOf) && Hashes(replayed) == Hashes(since)
    ensures var redone := Run(scoring, Apply(scoring, checkpoint, Replay(replayed)), ops);
            Alike(redone, Run(scoring, checkpoint, ops)) && InStep(redone, Run(scoring, checkpoint, ops))
  {
    var repaired := Apply(scoring, checkpoint, Replay(replayed));
    AbsorbedKeepsRest(checkpoint, replayed);
    StaysInStep(scoring, repaired, checkpoint, ops);
    RunAbsorbs(scoring, repaired, ops);
    SeenAddsNothing(repaired, CommittedSince(scoring, checkpoint, ops));
    RepairMatchesRun(scoring, checkpoint, ops, checkpoint, replayed, cellOf);
  }

  /**
    A batch id that was inserted once is never scored again: whatever happened
    meanwhile, a retry changes nothing and returns the recorded response.
   */
  lemma {:induction false} RetryReturnsRecorded(scoring: Scoring, a: Archive, batchId: string, inputs: seq<Input>,
                                                meanwhile: seq<Op>, again: seq<Input>, insert: bool)
    requires Scored(scoring, a, batchId, inputs, true).1.Ok?
    requires again != [] && |again| <= MAX_SCORE_BATCH_ITEMS
    ensures var (inserted, first) := Scored(scoring, a, batchId, inputs, true);
            var later := Run(scoring, inserted, meanwhile);
            Scored(scoring, later, batchId, again, insert) == (later, first)
  {
    var (inserted, first) := Scored(scoring, a, batchId, inputs, true);
    AbsorbedKeepsRest(a, Decoded(scoring, inputs));
    RunAbsorbs(scoring, inserted, meanwhile);
  }

  /** The recorded answer reaches across a crash: a retry after the repair is numbered as it was before. */
  lemma {:induction false} RetryAcrossRepair(scoring: Scoring, checkpoint: Archive, ops: seq<Op>, replayed: seq<Commit>,
                                             cellOf: StateHash -> CellKey, batchId: string, again: seq<Input>,
                                             insert: bool)
    requires checkpoint.Loaded() && again != [] && |again| <= MAX_SCORE_BATCH_ITEMS
    requires var since := CommittedSince(scoring, checkpoint, ops);
             Consistent(since, cellOf) && Consistent(replayed, cellOf) && Hashes(replayed) == Hashes(since)
    requires batchId in Run(scoring, checkpoint, ops).cache
    ensures var redone := Run(scoring, Apply(scoring, checkpoint, Replay(replayed)), ops);
            var (after, answer) := Scored(scoring, redone, batchId, again, insert);
            && after == redone && answer.Ok?
            && answer.value.archiveSeq == Run(scoring, checkpoint, ops).cache[batchId].archiveSeq
  {
    RedoCatchesUp(scoring, checkpoint, ops, replayed, cellOf);
    RunAbsorbs(scoring, checkpoint, ops);
  }
}
