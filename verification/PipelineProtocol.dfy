/**
  The batch pipeline (crates/orch-sched/src/pipeline.rs): a bounded submit queue,
  an executor that admits batches under a semaphore, a one-place completion
  channel and, in deterministic mode, a hold-back buffer that restores sequence
  order. Executing a batch is one step with either outcome.
 */
module PipelineProtocol {
  import opened Base

  datatype Batch = Batch(seqNo: nat, payload: nat)

  datatype Completion = Completion(batch: Batch, ok: bool)

  datatype Config = Config(deterministic: bool, maxInflightBatches: u32, firstSeq: nat)
  {
    function Permits(): nat { Max(maxInflightBatches, 1) }
    function SubmitCap(): nat { Max(Permits() - 1, 1) }
  }

  /** `dropping` counts tasks that have sent their result and still hold their permit. */
  datatype State = State(submitted: seq<Batch>, closed: bool, queue: seq<Batch>, executor: Option<Batch>,
                         running: multiset<Batch>, sending: multiset<Completion>, dropping: nat,
                         completed: seq<Completion>, reorder: map<nat, Batch>, nextSeq: nat,
                         delivered: seq<Completion>)
  {
    function InFlight(): nat { |running| + |sending| + dropping }
  }

  datatype Event =
    | Submit(batch: Batch)
    | Close
    | Dequeue
    | Admit
    | Finish(done: Batch, ok: bool)
    | Send(result: Completion)
    | DropPermit
    | Poll

  function Init(c: Config): State {
    State([], false, [], None, multiset{}, multiset{}, 0, [], map[], c.firstSeq, [])
  }

  predicate Enabled(c: Config, s: State, e: Event) {
    match e
    case Submit(_) => !s.closed && |s.queue| < c.SubmitCap()
    case Close => true
    case Dequeue => s.executor.None? && s.queue != []
    case Admit => s.executor.Some? && s.InFlight() < c.Permits()
    case Finish(b, _) => b in s.running
    case Send(result) => result in s.sending && s.completed == []
    case DropPermit => s.dropping > 0
    case Poll => (c.deterministic && s.nextSeq in s.reorder) || s.completed != []
  }

  /** One turn of the consumer's loop: hand back what is next in order, else take what has arrived. */
  function Polled(c: Config, s: State): State
    requires Enabled(c, s, Poll)
  {
    if c.deterministic && s.nextSeq in s.reorder then
      s.(reorder := s.reorder - {s.nextSeq}, nextSeq := s.nextSeq + 1,
         delivered := s.delivered + [Completion(s.reorder[s.nextSeq], true)])
    else
      var got := s.completed[0];
      var rest := s.(completed := s.completed[1..]);
      if c.deterministic && got.ok then rest.(reorder := rest.reorder[got.batch.seqNo := got.batch])
      else rest.(delivered := rest.delivered + [got])
  }

  function Next(c: Config, s: State, e: Event): State
    requires Enabled(c, s, e)
  {
    match e
    case Submit(b) => s.(submitted := s.submitted + [b], queue := s.queue + [b])
    case Close => s.(closed := true)
    case Dequeue => s.(executor := Some(s.queue[0]), queue := s.queue[1..])
    case Admit => s.(executor := None, running := s.running + multiset{s.executor.value})
    case Finish(b, ok) => s.(running := s.running - multiset{b}, sending := s.sending + multiset{Completion(b, ok)})
    case Send(result) =>
      s.(sending := s.sending - multiset{result}, dropping := s.dropping + 1, completed := s.completed + [result])
    case DropPermit => s.(dropping := s.dropping - 1)
    case Poll => Polled(c, s)
  }

  /** Where a sequence of events leads, if each is enabled in its turn. */
  function RunTo(c: Config, s: State, events: seq<Event>): Option<State> {
    if events == [] then Some(s)
    else
      var e := events[|events| - 1];
      match RunTo(c, s, events[..|events| - 1])
      case None => None
      case Some(mid) => if Enabled(c, mid, e) then Some(Next(c, mid, e)) else None
  }

  ghost predicate Run(c: Config, s: State, events: seq<Event>, end: State) {
    RunTo(c, s, events) == Some(end)
  }

  /** `recv` answers "closed": every sender is gone and nothing is left to hand back. */
  predicate Drained(c: Config, s: State) {
    && s.closed && s.queue == [] && s.executor.None? && s.InFlight() == 0 && s.completed == []
    && !(c.deterministic && s.nextSeq in s.reorder)
  }

  // ------------------------------------------------------------------
  // Conservation
  // ------------------------------------------------------------------

  function As(b: Batch, results: multiset<Completion>): nat {
    results[Completion(b, true)] + results[Completion(b, false)]
  }

  /** In how many places a batch is. */
  function Copies(s: State, b: Batch): nat {
    multiset(s.queue)[b]
    + (if s.executor == Some(b) then 1 else 0)
    + s.running[b]
    + As(b, s.sending)
    + As(b, multiset(s.completed))
    + (if b.seqNo in s.reorder && s.reorder[b.seqNo] == b then 1 else 0)
    + As(b, multiset(s.delivered))
  }

  ghost predicate Distinct(batches: seq<Batch>) {
    forall i, j :: 0 <= i < j < |batches| ==> batches[i].seqNo != batches[j].seqNo
  }

  /** Places a batch is in, beyond the times it was submitted. */
  function Excess(s: State, b: Batch): int { Copies(s, b) - multiset(s.submitted)[b] }

  ghost predicate Conserved(s: State) { forall b :: Excess(s, b) == 0 }

  ghost predicate Bounded(c: Config, s: State) {
    && s.InFlight() <= c.Permits() && |s.queue| <= c.SubmitCap() && |s.completed| <= 1
    && (forall q :: q in s.reorder ==> s.reorder[q].seqNo == q)
    && (s.reorder != map[] ==> c.deterministic)
  }

  lemma {:induction false} HeadCount<T>(s: seq<T>, x: T)
    requires s != []
    ensures multiset(s)[x] == multiset(s[1..])[x] + if s[0] == x then 1 else 0
  {
    assert s == [s[0]] + s[1..];
  }

  lemma {:induction false} DistinctCounts(batches: seq<Batch>, a: Batch, b: Batch)
    requires Distinct(batches) && a in batches && b in batches && a.seqNo == b.seqNo
    ensures a == b && multiset(batches)[a] == 1
  {
    var i :| 0 <= i < |batches| && batches[i] == a;
    var j :| 0 <= j < |batches| && batches[j] == b;
    assert i == j;
    assert batches == batches[..i] + [a] + batches[i + 1..];
    assert a !in batches[..i] && a !in batches[i + 1..];
  }

  lemma {:induction false} LastCount<T>(s: seq<T>, last: T, x: T)
    ensures multiset(s + [last])[x] == multiset(s)[x] + if last == x then 1 else 0
  {
  }

  function Is(result: Completion, b: Batch): nat { if result.batch == b then 1 else 0 }

  lemma {:induction false} AsAdds(b: Batch, results: multiset<Completion>, r: Completion)
    ensures As(b, results + multiset{r}) == As(b, results) + Is(r, b)
  {
    assert r == Completion(r.batch, r.ok);
  }

  lemma {:induction false} AsRemoves(b: Batch, results: multiset<Completion>, r: Completion)
    requires r in results
    ensures As(b, results - multiset{r}) == As(b, results) - Is(r, b)
  {
    assert results == (results - multiset{r}) + multiset{r};
    AsAdds(b, results - multiset{r}, r);
  }

  lemma {:induction false} AsLast(b: Batch, results: seq<Completion>, r: Completion)
    ensures As(b, multiset(results + [r])) == As(b, multiset(results)) + Is(r, b)
  {
    assert multiset(results + [r]) == multiset(results) + multiset{r};
    AsAdds(b, multiset(results), r);
  }

  lemma {:induction false} AsHead(b: Batch, results: seq<Completion>)
    requires results != []
    ensures As(b, multiset(results)) == As(b, multiset(results[1..])) + Is(results[0], b)
  {
    assert results == [results[0]] + results[1..];
    assert multiset(results) == multiset(results[1..]) + multiset{results[0]};
    AsAdds(b, multiset(results[1..]), results[0]);
  }

  /** Entering, leaving the queue and being admitted. */
  lemma {:induction false} EntryMoves(c: Config, s: State, e: Event, b: Batch)
    requires Enabled(c, s, e) && (e.Submit? || e.Close? || e.Dequeue? || e.Admit? || e.DropPermit?)
    ensures Excess(Next(c, s, e), b) == Excess(s, b)
  {
    match e
    case Submit(batch) =>
      LastCount(s.submitted, batch, b);
      LastCount(s.queue, batch, b);
    case Close =>
    case Dequeue => HeadCount(s.queue, b);
    case Admit =>
    case DropPermit =>
  }

  lemma {:induction false} FinishMoves(c: Config, s: State, done: Batch, ok: bool, b: Batch)
    requires done in s.running
    ensures Excess(Next(c, s, Finish(done, ok)), b) == Excess(s, b)
  {
    AsAdds(b, s.sending, Completion(done, ok));
    assert (s.running - multiset{done})[b] == s.running[b] - if done == b then 1 else 0;
  }

  lemma {:induction false} SendMoves(c: Config, s: State, result: Completion, b: Batch)
    requires result in s.sending && s.completed == []
    ensures Excess(Next(c, s, Send(result)), b) == Excess(s, b)
  {
    AsRemoves(b, s.sending, result);
    AsLast(b, s.completed, result);
  }

  /** What has just arrived has the number of a batch that is still held back. */
  predicate Clashes(c: Config, s: State) {
    && !(c.deterministic && s.nextSeq in s.reorder)
    && s.completed != [] && c.deterministic && s.completed[0].ok
    && s.completed[0].batch.seqNo in s.reorder
  }

  lemma {:induction false} DeliveryMoves(c: Config, s: State, b: Batch)
    requires Bounded(c, s) && c.deterministic && s.nextSeq in s.reorder
    ensures Excess(Polled(c, s), b) == Excess(s, b)
  {
    AsLast(b, s.delivered, Completion(s.reorder[s.nextSeq], true));
  }

  lemma {:induction false} ArrivalMoves(c: Config, s: State, b: Batch)
    requires Bounded(c, s) && s.completed != [] && !(c.deterministic && s.nextSeq in s.reorder) && !Clashes(c, s)
    ensures Excess(Polled(c, s), b) == Excess(s, b)
  {
    AsHead(b, s.completed);
    AsLast(b, s.delivered, s.completed[0]);
  }

  lemma {:induction false} ClashLoses(c: Config, s: State)
    requires Enabled(c, s, Poll) && Bounded(c, s) && Clashes(c, s)
    ensures var lost := s.reorder[s.completed[0].batch.seqNo]; Excess(Polled(c, s), lost) == Excess(s, lost) - 1
  {
    AsHead(s.reorder[s.completed[0].batch.seqNo], s.completed);
  }

  /** A poll conserves batches exactly when it does not overwrite one that is held back. */
  lemma {:induction false} PollMoves(c: Config, s: State)
    requires Enabled(c, s, Poll) && Bounded(c, s)
    ensures (forall b :: Excess(Polled(c, s), b) == Excess(s, b)) <==> !Clashes(c, s)
  {
    if Clashes(c, s) {
      ClashLoses(c, s);
    } else {
      forall b ensures Excess(Polled(c, s), b) == Excess(s, b) {
        if c.deterministic && s.nextSeq in s.reorder { DeliveryMoves(c, s, b); } else { ArrivalMoves(c, s, b); }
      }
    }
  }

  /** With distinct sequence numbers nothing is ever overwritten. */
  lemma {:induction false} DistinctNeverClash(c: Config, s: State)
    requires Conserved(s) && Bounded(c, s) && Distinct(s.submitted)
    ensures !Clashes(c, s)
  {
    if s.completed != [] && s.completed[0].batch.seqNo in s.reorder {
      var a, b := s.completed[0].batch, s.reorder[s.completed[0].batch.seqNo];
      HeadCount(s.completed, s.completed[0]);
      assert Excess(s, a) == 0 && Excess(s, b) == 0;
      assert Copies(s, a) >= 1 && Copies(s, b) >= 1;
      assert a in multiset(s.submitted) && b in multiset(s.submitted);
      DistinctCounts(s.submitted, a, b);
      assert Copies(s, a) == 1;
    }
  }

  // ------------------------------------------------------------------
  // Every run
  // ------------------------------------------------------------------

  ghost predicate Inv(c: Config, s: State) { Bounded(c, s) && Conserved(s) }

  lemma {:induction false} BoundsKept(c: Config, s: State, e: Event)
    requires Bounded(c, s) && Enabled(c, s, e)
    ensures Bounded(c, Next(c, s, e))
  {
  }

  lemma {:induction false} StepMoves(c: Config, s: State, e: Event, b: Batch)
    requires Bounded(c, s) && Enabled(c, s, e) && !(e.Poll? && Clashes(c, s))
    ensures Excess(Next(c, s, e), b) == Excess(s, b)
  {
    match e
    case Poll =>
      if c.deterministic && s.nextSeq in s.reorder { DeliveryMoves(c, s, b); } else { ArrivalMoves(c, s, b); }
    case Finish(done, ok) => FinishMoves(c, s, done, ok, b);
    case Send(result) => SendMoves(c, s, result, b);
    case _ => EntryMoves(c, s, e, b);
  }

  lemma {:induction false} StepKeeps(c: Config, s: State, e: Event)
    requires Inv(c, s) && Enabled(c, s, e) && (c.deterministic ==> Distinct(s.submitted))
    ensures Inv(c, Next(c, s, e))
  {
    BoundsKept(c, s, e);
    if c.deterministic { DistinctNeverClash(c, s); }
    forall b ensures Excess(Next(c, s, e), b) == 0 { StepMoves(c, s, e, b); }
  }

  lemma {:induction false} SubmittedGrows(c: Config, s: State, e: Event)
    requires Enabled(c, s, e)
    ensures s.submitted <= Next(c, s, e).submitted
  {
  }

  /**
    In every interleaving each batch is in exactly one place and the bounds hold.
    Only the hold-back buffer of deterministic mode needs distinct numbers for it.
   */
  lemma {:induction false} RunConserves(c: Config, events: seq<Event>, end: State)
    requires Run(c, Init(c), events, end) && (c.deterministic ==> Distinct(end.submitted))
    ensures Inv(c, end)
  {
    if events == [] {
      forall b ensures Excess(end, b) == 0 { }
    } else {
      var n := |events| - 1;
      var mid := RunTo(c, Init(c), events[..n]).value;
      SubmittedGrows(c, mid, events[n]);
      RunConserves(c, events[..n], mid);
      StepKeeps(c, mid, events[n]);
    }
  }
}
