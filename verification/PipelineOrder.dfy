/** In-order hand-back, and that nothing is left behind. */
module PipelineOrder {
  import opened Base
  import opened PipelineProtocol

  /** The hand-back so far is first_seq, first_seq + 1, ... and nothing has failed. */
  ghost predicate Ordered(c: Config, s: State) {
    && s.nextSeq == c.firstSeq + |s.delivered|
    && (forall i :: 0 <= i < |s.delivered| ==> s.delivered[i].ok && s.delivered[i].batch.seqNo == c.firstSeq + i)
    && (forall r :: r in s.sending ==> r.ok) && (forall r :: r in s.completed ==> r.ok)
  }

  ghost predicate NoneFail(events: seq<Event>) {
    forall i :: 0 <= i < |events| && events[i].Finish? ==> events[i].ok
  }

  lemma {:induction false} StepOrders(c: Config, s: State, e: Event)
    requires c.deterministic && Bounded(c, s) && Ordered(c, s) && Enabled(c, s, e) && (e.Finish? ==> e.ok)
    ensures Ordered(c, Next(c, s, e))
  {
  }

  lemma {:induction false} RunOrders(c: Config, events: seq<Event>, end: State)
    requires c.deterministic && Run(c, Init(c), events, end) && NoneFail(events)
    requires Distinct(end.submitted)
    ensures Inv(c, end) && Ordered(c, end)
  {
    RunConserves(c, events, end);
    if events == [] {
    } else {
      var n := |events| - 1;
      var mid := RunTo(c, Init(c), events[..n]).value;
      SubmittedGrows(c, mid, events[n]);
      RunOrders(c, events[..n], mid);
      StepOrders(c, mid, events[n]);
    }
  }

  // ------------------------------------------------------------------
  // Nothing is left behind
  // ------------------------------------------------------------------

  predicate Internal(e: Event) { !e.Submit? && !e.Close? }

  /** No task, executor or consumer can move. */
  ghost predicate Stuck(c: Config, s: State) {
    forall e :: Internal(e) ==> !Enabled(c, s, e)
  }

  lemma {:induction false} StuckIsIdle(c: Config, s: State)
    requires Stuck(c, s)
    ensures s.queue == [] && s.executor.None? && s.running == multiset{} && s.sending == multiset{}
    ensures s.completed == [] && !(c.deterministic && s.nextSeq in s.reorder)
  {
    assert !Enabled(c, s, Poll) && !Enabled(c, s, Dequeue) && !Enabled(c, s, Admit) && !Enabled(c, s, DropPermit);
    if s.running != multiset{} {
      var b :| b in s.running;
      assert Enabled(c, s, Finish(b, true));
    }
    if s.sending != multiset{} {
      var r :| r in s.sending;
      assert Enabled(c, s, Send(r));
    }
    assert s.InFlight() == 0;
  }

  /** Sequence numbers without gaps from the first one on. */
  ghost predicate GapFree(c: Config, batches: seq<Batch>) {
    forall i :: 0 <= i < |batches| ==> batches[i].seqNo == c.firstSeq + i
  }

  lemma {:induction false} SubmittedOnce(c: Config, s: State, i: nat)
    requires Inv(c, s) && Distinct(s.submitted) && i < |s.submitted|
    ensures Copies(s, s.submitted[i]) == 1
  {
    var b := s.submitted[i];
    DistinctCounts(s.submitted, b, b);
    assert Excess(s, b) == 0;
  }

  lemma {:induction false} AsIsIn(b: Batch, results: seq<Completion>)
    ensures As(b, multiset(results)) > 0 <==> exists i :: 0 <= i < |results| && results[i].batch == b
  {
    if i :| 0 <= i < |results| && results[i].batch == b {
      assert results[i] == Completion(b, results[i].ok) && results[i] in multiset(results);
    }
    if As(b, multiset(results)) > 0 {
      assert Completion(b, true) in results || Completion(b, false) in results;
    }
  }

  /**
    When nothing can move, the number the consumer waits for was never
    submitted: only a gap parks the hold-back buffer.
   */
  lemma {:induction false} OnlyGapsPark(c: Config, s: State, i: nat)
    requires c.deterministic && Inv(c, s) && Ordered(c, s) && Stuck(c, s)
    requires i < |s.submitted|
    ensures s.submitted[i].seqNo != s.nextSeq
  {
    var b := s.submitted[i];
    StuckIsIdle(c, s);
    AsIsIn(b, s.delivered);
    assert Excess(s, b) == 0 && b in multiset(s.submitted);
  }

  lemma {:induction false} DeliveredCameIn(c: Config, s: State, i: nat)
    requires Inv(c, s) && i < |s.delivered|
    ensures s.delivered[i].batch in s.submitted
  {
    var b := s.delivered[i].batch;
    AsIsIn(b, s.delivered);
    assert Excess(s, b) == 0;
    assert b in multiset(s.submitted);
  }

  /**
    And a gap does park: no batch beyond a number that was never submitted is
    handed back, and when nothing can move all of them are held.
   */
  lemma {:induction false} GapParks(c: Config, s: State, q: nat)
    requires c.deterministic && Inv(c, s) && Ordered(c, s)
    requires c.firstSeq <= q && forall i :: 0 <= i < |s.submitted| ==> s.submitted[i].seqNo != q
    ensures forall i :: 0 <= i < |s.delivered| ==> s.delivered[i].batch.seqNo < q
    ensures Stuck(c, s) ==> forall i :: 0 <= i < |s.submitted| && q < s.submitted[i].seqNo ==>
              s.submitted[i].seqNo in s.reorder && s.reorder[s.submitted[i].seqNo] == s.submitted[i]
  {
    if q - c.firstSeq < |s.delivered| {
      DeliveredCameIn(c, s, q - c.firstSeq);
      assert false;
    }
    if Stuck(c, s) {
      StuckIsIdle(c, s);
      forall i | 0 <= i < |s.submitted| && q < s.submitted[i].seqNo
        ensures s.submitted[i].seqNo in s.reorder && s.reorder[s.submitted[i].seqNo] == s.submitted[i]
      {
        var b := s.submitted[i];
        AsIsIn(b, s.delivered);
        assert Excess(s, b) == 0 && b in multiset(s.submitted);
      }
    }
  }

  lemma {:induction false} DeliveredWasSubmitted(c: Config, s: State, i: nat)
    requires Inv(c, s) && Ordered(c, s) && GapFree(c, s.submitted) && i < |s.delivered|
    ensures i < |s.submitted| && s.delivered[i] == Completion(s.submitted[i], true)
  {
    DeliveredCameIn(c, s, i);
    var j :| 0 <= j < |s.submitted| && s.submitted[j] == s.delivered[i].batch;
  }

  lemma {:induction false} HeldBackIsUndelivered(c: Config, s: State, q: nat)
    requires Inv(c, s) && Ordered(c, s) && GapFree(c, s.submitted) && q in s.reorder
    ensures c.firstSeq + |s.delivered| <= q < c.firstSeq + |s.submitted|
  {
    var b := s.reorder[q];
    assert Excess(s, b) == 0;
    assert Copies(s, b) >= 1;
    assert b in multiset(s.submitted);
    var j :| 0 <= j < |s.submitted| && s.submitted[j] == b;
    SubmittedOnce(c, s, j);
    if q < c.firstSeq + |s.delivered| {
      DeliveredWasSubmitted(c, s, j);
      AsIsIn(b, s.delivered);
      assert false;
    }
  }

  /** With gap-free numbers a pipeline that cannot move has handed back every batch, in order, and holds none. */
  lemma {:induction false} GapFreeDrains(c: Config, s: State)
    requires c.deterministic && Inv(c, s) && Ordered(c, s) && GapFree(c, s.submitted) && Stuck(c, s)
    ensures |s.delivered| == |s.submitted| && s.reorder == map[]
    ensures forall i :: 0 <= i < |s.submitted| ==> s.delivered[i] == Completion(s.submitted[i], true)
  {
    if |s.delivered| < |s.submitted| { OnlyGapsPark(c, s, |s.delivered|); }
    if s.delivered != [] { DeliveredWasSubmitted(c, s, |s.delivered| - 1); }
    forall i | 0 <= i < |s.delivered| ensures i < |s.submitted| && s.delivered[i] == Completion(s.submitted[i], true) {
      DeliveredWasSubmitted(c, s, i);
    }
    if q :| q in s.reorder {
      HeldBackIsUndelivered(c, s, q);
    }
  }

  lemma {:induction false} DrainedIsStuck(c: Config, s: State)
    requires Drained(c, s)
    ensures Stuck(c, s)
  {
  }

  /** The deterministic contract, over every interleaving that has come to its end. */
  lemma {:induction false} DeterministicHandback(c: Config, events: seq<Event>, end: State)
    requires c.deterministic && Run(c, Init(c), events, end) && NoneFail(events)
    requires GapFree(c, end.submitted) && (Drained(c, end) || Stuck(c, end))
    ensures |end.delivered| == |end.submitted| && end.reorder == map[]
    ensures forall i :: 0 <= i < |end.submitted| ==>
              end.delivered[i] == Completion(end.submitted[i], true) && end.submitted[i].seqNo == c.firstSeq + i
  {
    RunOrders(c, events, end);
    if Drained(c, end) { DrainedIsStuck(c, end); }
    GapFreeDrains(c, end);
  }

  /** In fast mode every batch is handed back exactly once, in completion order. */
  lemma {:induction false} FastHandback(c: Config, events: seq<Event>, end: State, b: Batch)
    requires !c.deterministic && Run(c, Init(c), events, end)
    requires Drained(c, end) || Stuck(c, end)
    ensures As(b, multiset(end.delivered)) == multiset(end.submitted)[b]
  {
    RunConserves(c, events, end);
    if Drained(c, end) { DrainedIsStuck(c, end); }
    StuckIsIdle(c, end);
    assert Excess(end, b) == 0;
  }

  // ------------------------------------------------------------------
  // Termination
  // ------------------------------------------------------------------

  /** Work left: every internal step reduces it, so submissions stopped means drained after that many steps. */
  function Work(s: State): nat {
    7 * |s.queue| + (if s.executor.Some? then 6 else 0) + 5 * |s.running| + 4 * |s.sending| + s.dropping
    + 2 * |s.completed| + |s.reorder|
  }

  lemma {:induction false} RemovalCount(m: map<nat, Batch>, q: nat)
    requires q in m
    ensures |m - {q}| == |m| - 1
  {
    assert (m - {q}).Keys == m.Keys - {q};
    assert |m| == |m.Keys| && |m - {q}| == |(m - {q}).Keys|;
  }

  lemma {:induction false} InsertCount(m: map<nat, Batch>, q: nat, b: Batch)
    ensures |m[q := b]| <= |m| + 1
  {
    assert m[q := b].Keys == m.Keys + {q};
    assert |m| == |m.Keys| && |m[q := b]| == |m[q := b].Keys|;
  }

  lemma {:induction false} PollShrinksWork(c: Config, s: State)
    requires Enabled(c, s, Poll)
    ensures Work(Polled(c, s)) < Work(s)
  {
    if c.deterministic && s.nextSeq in s.reorder {
      RemovalCount(s.reorder, s.nextSeq);
    } else {
      InsertCount(s.reorder, s.completed[0].batch.seqNo, s.completed[0].batch);
    }
  }

  lemma {:induction false} OneFewer<T>(m: multiset<T>, x: T)
    requires x in m
    ensures |m - multiset{x}| == |m| - 1
  {
    assert m == (m - multiset{x}) + multiset{x};
  }

  lemma {:induction false} StepShrinksWork(c: Config, s: State, e: Event)
    requires Enabled(c, s, e) && Internal(e)
    ensures Work(Next(c, s, e)) < Work(s)
  {
    match e
    case Dequeue =>
    case Admit =>
    case Finish(b, _) => OneFewer(s.running, b);
    case Send(r) => OneFewer(s.sending, r);
    case DropPermit =>
    case Poll => PollShrinksWork(c, s);
  }

  lemma {:induction false} StepsAreBounded(c: Config, s: State, events: seq<Event>, end: State)
    requires Run(c, s, events, end) && forall i :: 0 <= i < |events| ==> Internal(events[i])
    ensures |events| + Work(end) <= Work(s)
  {
    if events == [] {
    } else {
      var n := |events| - 1;
      var mid := RunTo(c, s, events[..n]).value;
      StepsAreBounded(c, s, events[..n], mid);
      StepShrinksWork(c, mid, events[n]);
    }
  }
}
