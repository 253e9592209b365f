/**
  Exactly when the pipeline loses a batch (crates/orch-sched/src/pipeline.rs): the
  hold-back buffer is a map by sequence number, so a second result with the number
  of a held one overwrites it.
 */
module PipelineClash {
  import opened Base
  import opened PipelineProtocol

  // ------------------------------------------------------------------
  // Exactly when a run conserves
  // ------------------------------------------------------------------

  /** Some poll of the run overwrote a batch that was held back. */
  predicate Clashed(c: Config, s: State, events: seq<Event>) {
    events != [] &&
    var n := |events| - 1;
    || Clashed(c, s, events[..n])
    || (events[n].Poll? && var mid := RunTo(c, s, events[..n]); mid.Some? && Clashes(c, mid.value))
  }

  lemma {:induction false} ClashSpares(c: Config, s: State, b: Batch)
    requires Enabled(c, s, Poll) && Bounded(c, s) && Clashes(c, s)
    ensures Excess(Polled(c, s), b) <= Excess(s, b)
  {
    AsHead(b, s.completed);
  }

  /** No step ever puts a batch back. */
  lemma {:induction false} StepNeverGains(c: Config, s: State, e: Event, b: Batch)
    requires Bounded(c, s) && Enabled(c, s, e)
    ensures Excess(Next(c, s, e), b) <= Excess(s, b)
  {
    if e.Poll? && Clashes(c, s) { ClashSpares(c, s, b); } else { StepMoves(c, s, e, b); }
  }

  lemma {:induction false} RunNeverGains(c: Config, events: seq<Event>, end: State)
    requires Run(c, Init(c), events, end)
    ensures Bounded(c, end) && forall b :: Excess(end, b) <= 0
    ensures Clashed(c, Init(c), events) ==> exists b :: Excess(end, b) < 0
    ensures !Clashed(c, Init(c), events) ==> Conserved(end)
  {
    if events == [] {
      forall b ensures Excess(end, b) == 0 { }
    } else {
      var n := |events| - 1;
      var mid := RunTo(c, Init(c), events[..n]).value;
      RunNeverGains(c, events[..n], mid);
      BoundsKept(c, mid, events[n]);
      forall b ensures Excess(end, b) <= Excess(mid, b) { StepNeverGains(c, mid, events[n], b); }
      if Clashed(c, Init(c), events[..n]) {
        var b :| Excess(mid, b) < 0;
        assert Excess(end, b) < 0;
      } else if events[n].Poll? && Clashes(c, mid) {
        ClashLoses(c, mid);
      } else {
        forall b ensures Excess(end, b) == 0 { StepMoves(c, mid, events[n], b); }
      }
    }
  }

  /** A run conserves its batches exactly when no poll of it overwrote one. */
  lemma {:induction false} ConservedIffNoClash(c: Config, events: seq<Event>, end: State)
    requires Run(c, Init(c), events, end)
    ensures Conserved(end) <==> !Clashed(c, Init(c), events)
  {
    RunNeverGains(c, events, end);
  }

  // ------------------------------------------------------------------
  // A repeated number loses a batch
  // ------------------------------------------------------------------

  lemma {:induction false} RunStep(c: Config, s: State, events: seq<Event>, mid: State, e: Event)
    requires RunTo(c, s, events) == Some(mid) && Enabled(c, mid, e)
    ensures RunTo(c, s, events + [e]) == Some(Next(c, mid, e))
  {
    assert (events + [e])[..|events|] == events;
  }

  predicate Idle(s: State) {
    && !s.closed && s.queue == [] && s.executor.None? && s.running == multiset{} && s.sending == multiset{}
    && s.dropping == 0 && s.completed == []
  }

  lemma {:induction false} EntryRuns(c: Config, s0: State, events: seq<Event>, s: State, b: Batch)
    requires RunTo(c, s0, events) == Some(s) && Idle(s)
    ensures RunTo(c, s0, events + [Submit(b)] + [Dequeue] + [Admit])
         == Some(s.(submitted := s.submitted + [b], running := multiset{b}))
  {
    RunStep(c, s0, events, s, Submit(b));
    var queued := s.(submitted := s.submitted + [b], queue := [b]);
    assert Next(c, s, Submit(b)) == queued;
    RunStep(c, s0, events + [Submit(b)], queued, Dequeue);
    var taken := s.(submitted := s.submitted + [b], executor := Some(b));
    assert Next(c, queued, Dequeue) == taken;
    RunStep(c, s0, events + [Submit(b)] + [Dequeue], taken, Admit);
    assert s.running + multiset{b} == multiset{b};
  }

  lemma {:induction false} ExitRuns(c: Config, s0: State, events: seq<Event>, s: State, b: Batch)
    requires Idle(s) && RunTo(c, s0, events) == Some(s.(running := multiset{b}))
    ensures var done := Completion(b, true);
            RunTo(c, s0, events + [Finish(b, true)] + [Send(done)] + [DropPermit]) == Some(s.(completed := [done]))
  {
    var done := Completion(b, true);
    var running := s.(running := multiset{b});
    RunStep(c, s0, events, running, Finish(b, true));
    var finished := s.(sending := multiset{done});
    assert Next(c, running, Finish(b, true)) == finished;
    RunStep(c, s0, events + [Finish(b, true)], finished, Send(done));
    var sent := s.(dropping := 1, completed := [done]);
    assert Next(c, finished, Send(done)) == sent;
    RunStep(c, s0, events + [Finish(b, true)] + [Send(done)], sent, DropPermit);
  }

  /** One batch through an idle pipeline, up to the poll that takes its result. */
  function Through(events: seq<Event>, b: Batch): seq<Event> {
    events + [Submit(b)] + [Dequeue] + [Admit] + [Finish(b, true)] + [Send(Completion(b, true))] + [DropPermit]
    + [Poll]
  }

  function HeldBack(s: State, b: Batch): State {
    s.(submitted := s.submitted + [b], reorder := s.reorder[b.seqNo := b])
  }

  lemma {:induction false} ThroughHoldsBack(c: Config, s0: State, events: seq<Event>, s: State, b: Batch)
    requires c.deterministic && RunTo(c, s0, events) == Some(s) && Idle(s)
    requires s.nextSeq !in s.reorder && b.seqNo != s.nextSeq
    ensures RunTo(c, s0, Through(events, b)) == Some(HeldBack(s, b))
    ensures b.seqNo in s.reorder ==> Clashed(c, s0, Through(events, b))
  {
    EntryRuns(c, s0, events, s, b);
    var inside := s.(submitted := s.submitted + [b]);
    var entered := events + [Submit(b)] + [Dequeue] + [Admit];
    ExitRuns(c, s0, entered, inside, b);
    var arrived := entered + [Finish(b, true)] + [Send(Completion(b, true))] + [DropPermit];
    var last := inside.(completed := [Completion(b, true)]);
    RunStep(c, s0, arrived, last, Poll);
    assert Next(c, last, Poll) == HeldBack(s, b) by { assert last.completed[1..] == []; }
    assert Through(events, b) == arrived + [Poll];
    assert (arrived + [Poll])[..|arrived|] == arrived;
  }

  /** Two batches with one number, neither of them due, and the first is gone for good. */
  lemma {:induction false} RepeatedNumberLoses(c: Config, a: Batch, b: Batch)
    requires c.deterministic && a.seqNo == b.seqNo != c.firstSeq
    ensures var end := RunTo(c, Init(c), Through(Through([], a), b)); end.Some? && !Conserved(end.value)
  {
    ThroughHoldsBack(c, Init(c), [], Init(c), a);
    ThroughHoldsBack(c, Init(c), Through([], a), HeldBack(Init(c), a), b);
    ConservedIffNoClash(c, Through(Through([], a), b), HeldBack(HeldBack(Init(c), a), b));
  }
}
