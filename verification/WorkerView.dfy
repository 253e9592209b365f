/**
  What a scheduler knows of the slots (crates/orch-sched/src/slots.rs): the listing
  it starts from, then every watch batch it drains, however the log was cut up.
 */
module WorkerView {
  import opened Base
  import opened SlotTable
  import SlotProtocol
  import opened Playback
  import opened WorkerTable
  import opened WorkerForest
  import opened WorkerRuns

  // ------------------------------------------------------------------
  // The log only grows
  // ------------------------------------------------------------------

  lemma {:induction false} EventsGrow<S(!new)>(env: Env<S>, w: Worker<S>, call: Call)
    requires !call.WatchSlots? && !call.CompactWatch?
    ensures var (after, reply) := Apply(env, w, call);
            w.events <= after.events && after.cursor == w.cursor && !reply.Watched?
  {
  }

  /** Nothing told or waiting to be told is ever taken back. */
  lemma {:induction false} LogGrows<S(!new)>(env: Env<S>, o: Observed<S>, call: Call)
    requires o.worker.cursor <= |o.worker.events|
    ensures var after := Next(env, o, call);
            && o.told <= after.told && after.worker.cursor <= |after.worker.events|
            && o.told + Unread(o.worker) <= after.told + Unread(after.worker)
  {
    if call.WatchSlots? || call.CompactWatch? {
      ReadingMoves(env, o, call);
    } else {
      EventsGrow(env, o.worker, call);
    }
  }

  lemma {:induction false} RunLogGrows<S(!new)>(env: Env<S>, o: Observed<S>, calls: seq<Call>)
    requires o.worker.cursor <= |o.worker.events|
    ensures var after := RunCalls(env, o, calls);
            && o.told <= after.told && after.worker.cursor <= |after.worker.events|
            && o.told + Unread(o.worker) <= after.told + Unread(after.worker)
  {
    if calls == [] {
    } else {
      RunLogGrows(env, o, calls[..|calls| - 1]);
      LogGrows(env, RunCalls(env, o, calls[..|calls| - 1]), calls[|calls| - 1]);
    }
  }

  // ------------------------------------------------------------------
  // The scheduler's view
  // ------------------------------------------------------------------

  function Brief(events: seq<SlotInfo>): seq<(SlotId, SlotState)> {
    if events == [] then []
    else Brief(events[..|events| - 1]) + [(events[|events| - 1].id, events[|events| - 1].state)]
  }

  lemma {:induction false} BriefSplits(a: seq<SlotInfo>, b: seq<SlotInfo>)
    ensures Brief(a + b) == Brief(a) + Brief(b)
  {
    if b == [] {
      assert a + b == a;
    } else {
      BriefSplits(a, b[..|b| - 1]);
      assert (a + b)[..|a + b| - 1] == a + b[..|b| - 1];
    }
  }

  lemma {:induction false} UpdatedSplits(known: map<SlotId, SlotState>, a: seq<(SlotId, SlotState)>,
                                         b: seq<(SlotId, SlotState)>)
    ensures SlotProtocol.Updated(known, a + b) == SlotProtocol.Updated(SlotProtocol.Updated(known, a), b)
  {
    if b == [] {
      assert a + b == a;
    } else {
      UpdatedSplits(known, a, b[..|b| - 1]);
      assert (a + b)[..|a + b| - 1] == a + b[..|b| - 1];
    }
  }

  predicate Mentions(events: seq<SlotInfo>, id: SlotId) {
    events != [] && (Mentions(events[..|events| - 1], id) || events[|events| - 1].id == id)
  }

  lemma {:induction false} MentionsLasts(a: seq<SlotInfo>, b: seq<SlotInfo>, id: SlotId)
    requires a <= b && Mentions(a, id)
    ensures Mentions(b, id)
    decreases |b|
  {
    if |a| == |b| {
      assert a == b;
    } else {
      MentionsLasts(a, b[..|b| - 1], id);
    }
  }

  /** A slot that some event mentions shows its last state; any other is left as it was. */
  lemma {:induction false} BriefFolds(known: map<SlotId, SlotState>, full: map<SlotId, SlotInfo>,
                                      events: seq<SlotInfo>, id: SlotId)
    ensures var view, folded := SlotProtocol.Updated(known, Brief(events)), Fold(full, events);
            if Mentions(events, id) then id in view && id in folded && view[id] == folded[id].state
            else
              && (id in view <==> id in known) && (id in known ==> view[id] == known[id])
              && (id in folded <==> id in full) && (id in full ==> folded[id] == full[id])
  {
    if events == [] {
    } else {
      var n := |events| - 1;
      BriefFolds(known, full, events[..n], id);
      var brief := Brief(events);
      assert brief[..|brief| - 1] == Brief(events[..n]);
    }
  }

  /** The listing a scheduler starts from. */
  function Listed<S>(slots: Slots<S>): map<SlotId, SlotState> { map id | id in slots :: slots[id].kind }

  /** The map a scheduler builds from its listing by draining each watch batch as it comes. */
  ghost function SchedulerView<S(!new)>(env: Env<S>, o: Observed<S>, calls: seq<Call>): map<SlotId, SlotState> {
    if calls == [] then Listed(o.worker.slots)
    else
      var before := calls[..|calls| - 1];
      var reply := Apply(env, RunCalls(env, o, before).worker, calls[|calls| - 1]).1;
      var view := SchedulerView(env, o, before);
      if reply.Watched? then SlotProtocol.Updated(view, Brief(reply.events)) else view
  }

  lemma {:induction false} ToldGrows<S(!new)>(env: Env<S>, o: Observed<S>, calls: seq<Call>)
    returns (heard: seq<SlotInfo>)
    ensures RunCalls(env, o, calls).told == o.told + heard
  {
    if calls == [] {
      heard := [];
    } else {
      var before := calls[..|calls| - 1];
      var sofar := ToldGrows(env, o, before);
      var reply := Apply(env, RunCalls(env, o, before).worker, calls[|calls| - 1]).1;
      heard := if reply.Watched? then sofar + reply.events else sofar;
    }
  }

  lemma {:induction false} DrainedBatch<S(!new)>(env: Env<S>, o: Observed<S>, mid: Observed<S>, call: Call,
                                                 known: map<SlotId, SlotState>, sofar: seq<SlotInfo>,
                                                 heard: seq<SlotInfo>)
    requires mid.told == o.told + sofar && Next(env, mid, call).told == o.told + heard
    ensures var view, reply := SlotProtocol.Updated(known, Brief(sofar)), Apply(env, mid.worker, call).1;
            (if reply.Watched? then SlotProtocol.Updated(view, Brief(reply.events)) else view)
            == SlotProtocol.Updated(known, Brief(heard))
  {
    var reply := Apply(env, mid.worker, call).1;
    var batch := if reply.Watched? then reply.events else [];
    assert o.told + heard == o.told + (sofar + batch);
    assert heard == (o.told + heard)[|o.told|..] == sofar + batch;
    BriefSplits(sofar, batch);
    UpdatedSplits(known, Brief(sofar), Brief(batch));
  }

  /** However the batches were cut, the scheduler has folded exactly what it was told. */
  lemma {:induction false} ViewFoldsTold<S(!new)>(env: Env<S>, o: Observed<S>, calls: seq<Call>, heard: seq<SlotInfo>)
    requires RunCalls(env, o, calls).told == o.told + heard
    ensures SchedulerView(env, o, calls) == SlotProtocol.Updated(Listed(o.worker.slots), Brief(heard))
  {
    if calls == [] {
      assert heard == [];
    } else {
      var before := calls[..|calls| - 1];
      var mid := RunCalls(env, o, before);
      var sofar := ToldGrows(env, o, before);
      ViewFoldsTold(env, o, before, sofar);
      DrainedBatch(env, o, mid, calls[|calls| - 1], Listed(o.worker.slots), sofar, heard);
    }
  }

  /**
    What the log said of a slot before the listing and what it says at the end,
    when nothing heard in between mentions it: the same.
   */
  lemma {:induction false} UnmentionedIsSteady<S(!new)>(o: Observed<S>, end: Observed<S>, heard: seq<SlotInfo>,
                                                        id: SlotId)
    requires end.told == o.told + heard && Unread(end.worker) == [] && Unread(o.worker) <= heard
    requires !Mentions(heard, id)
    ensures (id in Known(o) <==> id in Known(end)) && (id in Known(o) ==> Known(o)[id] == Known(end)[id])
  {
    var waiting := Unread(o.worker);
    if Mentions(waiting, id) {
      MentionsLasts(waiting, heard, id);
      assert false;
    }
    assert end.told + Unread(end.worker) == o.told + heard;
    FoldSplits(map[], o.told, heard);
    FoldSplits(map[], o.told, waiting);
    BriefFolds(map[], Fold(map[], o.told), heard, id);
    BriefFolds(map[], Fold(map[], o.told), waiting, id);
  }

  lemma {:induction false} ViewOfSlot<S(!new)>(o: Observed<S>, end: Observed<S>, heard: seq<SlotInfo>, id: SlotId)
    requires Sound(o) && Sound(end)
    requires end.told == o.told + heard && Unread(end.worker) == [] && Unread(o.worker) <= heard
    ensures var view := SlotProtocol.Updated(Listed(o.worker.slots), Brief(heard));
            && (id in end.worker.slots ==> id in view && view[id] == end.worker.slots[id].kind != Empty)
            && (id in view && id !in end.worker.slots ==> view[id] == Empty)
  {
    BriefFolds(Listed(o.worker.slots), Fold(map[], o.told), heard, id);
    assert end.told + Unread(end.worker) == o.told + heard;
    FoldSplits(map[], o.told, heard);
    if !Mentions(heard, id) { UnmentionedIsSteady(o, end, heard, id); }
    if id in o.worker.slots { assert Reported(Known(o), o.worker.slots, id) && Stands(o.worker.slots, id); }
    if id in end.worker.slots { assert Reported(Known(end), end.worker.slots, id) && Stands(end.worker.slots, id); }
  }

  /**
    A scheduler may start on a worker in any state: once every event is read, its
    map names every live slot with its state and every removed slot as empty, and
    counts as many live slots as the worker has.
   */
  lemma {:induction false} DrainedViewIsTable<S(!new)>(env: Env<S>, o: Observed<S>, calls: seq<Call>)
    requires Sound(o) && o.worker.nextId + TotalDemand(calls) <= U64_MAX
    requires Unread(RunCalls(env, o, calls).worker) == []
    ensures var slots := RunCalls(env, o, calls).worker.slots;
            var view := SchedulerView(env, o, calls);
            && (forall id :: id in slots ==> id in view && view[id] == slots[id].kind)
            && (forall id :: id in view && id !in slots ==> view[id] == Empty)
            && Live(view) == Min(|slots|, U32_MAX)
  {
    var end := RunCalls(env, o, calls);
    RunKeeps(env, o, calls);
    RunLogGrows(env, o, calls);
    var heard := end.told[|o.told|..];
    assert end.told == o.told + heard;
    assert Unread(o.worker) <= heard by {
      assert end.told + Unread(end.worker) == end.told;
      assert forall i :: 0 <= i < |Unread(o.worker)| ==>
               Unread(o.worker)[i] == (o.told + Unread(o.worker))[|o.told| + i];
    }
    ViewFoldsTold(env, o, calls, heard);
    var view := SchedulerView(env, o, calls);
    forall id: SlotId
      ensures id in end.worker.slots ==> id in view && view[id] == end.worker.slots[id].kind != Empty
      ensures id in view && id !in end.worker.slots ==> view[id] == Empty
    {
      ViewOfSlot(o, end, heard, id);
    }
    assert LiveSlots(view) == end.worker.slots.Keys;
    assert |end.worker.slots| == |end.worker.slots.Keys|;
  }
}
