/** The consumer's loop (crates/orch-sched/src/pipeline.rs), run on its own. */
module PipelineConsumer {
  import opened Base
  import opened PipelineProtocol

  datatype Answer = Handed(result: Completion) | Finished | Waiting

  /** The buffer after these results have arrived. */
  function Merged(reorder: map<nat, Batch>, arrived: seq<Completion>): map<nat, Batch> {
    if arrived == [] then reorder
    else
      var b := arrived[|arrived| - 1].batch;
      Merged(reorder, arrived[..|arrived| - 1])[b.seqNo := b]
  }

  /** Each of these results came back good and did not bring number `q`, nor was it held before. */
  ghost predicate Undue(reorder: map<nat, Batch>, arrived: seq<Completion>, q: nat) {
    arrived == [] ||
    var n := |arrived| - 1;
    Undue(reorder, arrived[..n], q) && q !in Merged(reorder, arrived[..n]) && arrived[n].ok
  }

  lemma {:induction false} MergedGrows(reorder: map<nat, Batch>, incoming: seq<Completion>, k: nat, q: nat)
    requires k < |incoming|
    ensures var b := incoming[k].batch;
            Merged(reorder, incoming[..k + 1]) == Merged(reorder, incoming[..k])[b.seqNo := b]
    ensures Undue(reorder, incoming[..k + 1], q) <==>
              Undue(reorder, incoming[..k], q) && q !in Merged(reorder, incoming[..k]) && incoming[k].ok
  {
    assert incoming[..k + 1][..k] == incoming[..k];
  }

  /** The consumer's side of the pipeline: its hold-back buffer and cursor. */
  class Consumer {
    const deterministic: bool
    var reorder: map<nat, Batch>
    var nextSeq: nat

    constructor (deterministic: bool, firstSeq: nat)
      ensures this.deterministic == deterministic && reorder == map[] && nextSeq == firstSeq
    {
      this.deterministic, reorder, nextSeq := deterministic, map[], firstSeq;
    }

    /**
      `incoming` is what the channel would yield until it has nothing more to
      give; `closed` says whether it then reports the end or keeps waiting.
     */
    method NextCompleted(incoming: seq<Completion>, closed: bool) returns (answer: Answer, used: nat)
      modifies `reorder, `nextSeq
      ensures used <= |incoming|
      ensures answer.Handed? && deterministic && answer.result.ok ==>
                var merged := Merged(old(reorder), incoming[..used]);
                && old(nextSeq) in merged && answer.result == Completion(merged[old(nextSeq)], true)
                && reorder == merged - {old(nextSeq)} && nextSeq == old(nextSeq) + 1
                && Undue(old(reorder), incoming[..used], old(nextSeq))
      ensures answer.Handed? && (!deterministic || !answer.result.ok) ==>
                && 0 < used && answer.result == incoming[used - 1] && nextSeq == old(nextSeq)
                && reorder == if deterministic then Merged(old(reorder), incoming[..used - 1]) else old(reorder)
      ensures !answer.Handed? ==>
                && used == |incoming| && nextSeq == old(nextSeq) && (answer.Finished? <==> closed)
                && (if deterministic then reorder == Merged(old(reorder), incoming) && nextSeq !in reorder
                    else incoming == [] && reorder == old(reorder))
    {
      used := 0;
      if !deterministic {
        if incoming == [] { return if closed then Finished else Waiting, 0; }
        return Handed(incoming[0]), 1;
      }
      while nextSeq !in reorder
        invariant used <= |incoming| && nextSeq == old(nextSeq) && reorder == Merged(old(reorder), incoming[..used])
        invariant Undue(old(reorder), incoming[..used], nextSeq)
        decreases |incoming| - used
      {
        if used == |incoming| {
          assert incoming[..used] == incoming;
          return if closed then Finished else Waiting, used;
        }
        var got := incoming[used];
        MergedGrows(old(reorder), incoming, used, nextSeq);
        used := used + 1;
        if !got.ok { return Handed(got), used; }
        reorder := reorder[got.batch.seqNo := got.batch];
      }
      answer := Handed(Completion(reorder[nextSeq], true));
      reorder, nextSeq := reorder - {nextSeq}, nextSeq + 1;
    }
  }
}
