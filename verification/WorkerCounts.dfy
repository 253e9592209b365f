/**
  The child counts in the watch log. A slot's count is published when it forks and
  when its last child is gone, but not when it loses one child of several, so the
  latest report may be out of date; by exactly how much is proved here.
 */
module WorkerCounts {
  import opened Base
  import opened SlotTable
  import opened Playback
  import opened WorkerTable
  import opened WorkerForest
  import opened WorkerRuns

  /** The call forks `p` and so publishes its count. */
  ghost predicate Recounts<S>(env: Env<S>, w: Worker<S>, call: Call, p: SlotId) {
    call.Fork? && call.parent.id == p && DoFork(env, w, call.parent, call.count, call.seeds).1.Forked?
  }

  /** The call destroys a child of `p`. */
  ghost predicate Bereaves<S>(w: Worker<S>, call: Call, p: SlotId) {
    call.DestroyVm? && DoDestroy(w, call.lease).1.Done? && w.slots[call.lease.id].parent == Some(p)
  }

  /** How many children of `p` were destroyed since it last forked. */
  ghost function Gone<S(!new)>(env: Env<S>, o: Observed<S>, calls: seq<Call>, p: SlotId): nat {
    if calls == [] then 0
    else
      var before, last := calls[..|calls| - 1], calls[|calls| - 1];
      var w := RunCalls(env, o, before).worker;
      if Recounts(env, w, last, p) then 0
      else Gone(env, o, before, p) + if Bereaves(w, last, p) then 1 else 0
  }

  /** `p` was a parent before, is reported as before, and has lost so many children. */
  ghost predicate ReportStands<S(!new)>(o: Observed<S>, after: Observed<S>, p: SlotId, lost: nat) {
    && p in o.worker.slots && Children(o.worker.slots, p) != {}
    && p in Known(o) && p in Known(after) && Known(after)[p] == Known(o)[p]
    && |Children(o.worker.slots, p)| == |Children(after.worker.slots, p)| + lost
  }

  lemma {:induction false} ReportStays<S(!new)>(o: Observed<S>, after: Observed<S>, p: SlotId)
    requires Sound(o) && p in o.worker.slots && Children(after.worker.slots, p) == Children(o.worker.slots, p) != {}
    requires p in Known(after) && (p in Known(o) ==> Known(after)[p] == Known(o)[p])
    ensures ReportStands(o, after, p, 0)
  {
    assert Reported(Known(o), o.worker.slots, p);
  }

  lemma {:induction false} AllocationCount<S(!new)>(env: Env<S>, o: Observed<S>, config: Config, seed: Seed,
                                                    machine: Machine<S>, base: Option<SnapshotRef>, p: SlotId)
    requires Sound(o) && o.worker.nextId < U64_MAX
    requires Children(Allocated(env, o.worker, config, seed, machine, base).slots, p) != {}
    ensures ReportStands(o, Observed(Allocated(env, o.worker, config, seed, machine, base), o.told), p, 0)
  {
    var w := o.worker;
    var after := Allocated(env, w, config, seed, machine, base);
    var c :| c in Children(after.slots, p);
    assert Stands(w.slots, c);
    assert Children(after.slots, p) == Children(w.slots, p);
    Telling(o, after, [Info(after.slots, w.nextId)]);
    FoldPair(Known(o), Info(after.slots, w.nextId), Info(after.slots, w.nextId));
    assert Reported(Known(o), w.slots, p);
    ReportStays(o, Observed(after, o.told), p);
  }

  lemma {:induction false} RestoreCount<S(!new)>(env: Env<S>, o: Observed<S>, snapshot: SnapshotRef,
                                                 entropy: Option<Seed>, p: SlotId)
    requires Sound(o) && o.worker.nextId < U64_MAX && HasRoom(o.worker, 1) && snapshot in o.worker.snapshots
    requires Children(Next(env, o, RestoreSnapshot(snapshot, entropy)).worker.slots, p) != {}
    ensures ReportStands(o, Next(env, o, RestoreSnapshot(snapshot, entropy)), p, 0)
  {
    var r := o.worker.snapshots[snapshot];
    AllocationCount(env, o, r.config, if entropy.Some? then entropy.value else 0, r.machine, Some(snapshot), p);
  }

  lemma {:induction false} FoldSkips(known: map<SlotId, SlotInfo>, events: seq<SlotInfo>, p: SlotId)
    requires forall i :: 0 <= i < |events| ==> events[i].id != p
    ensures p in Fold(known, events) <==> p in known
    ensures p in known ==> Fold(known, events)[p] == known[p]
  {
    if events == [] {
    } else {
      FoldSkips(known, events[..|events| - 1], p);
    }
  }

  /** A slot's machine changed; the slot itself has no children. */
  lemma {:induction false} MachineCount<S(!new)>(o: Observed<S>, after: Worker<S>, id: SlotId, machine: Machine<S>,
                                                 events: seq<SlotInfo>, p: SlotId)
    requires Sound(o) && id in o.worker.slots && o.worker.slots[id].kind == Paused
    requires after == o.worker.(slots := o.worker.slots[id := o.worker.slots[id].(machine := machine)],
                                events := o.worker.events + events)
    requires forall i :: 0 <= i < |events| ==> events[i].id == id
    requires p in after.slots && Children(after.slots, p) != {}
    ensures ReportStands(o, Observed(after, o.told), p, 0)
  {
    assert Stands(o.worker.slots, id);
    assert Children(after.slots, p) == Children(o.worker.slots, p);
    assert Children(after.slots, id) == Children(o.worker.slots, id);
    assert Reported(Known(o), o.worker.slots, p);
    Telling(o, after, events);
    FoldSkips(Known(o), events, p);
    ReportStays(o, Observed(after, o.told), p);
  }

  lemma {:induction false} InjectCount<S(!new)>(env: Env<S>, o: Observed<S>, lease: Lease, inputs: seq<ScheduledEvent>,
                                                p: SlotId)
    requires Sound(o)
    requires var slots := Next(env, o, InjectInputs(lease, inputs)).worker.slots;
             p in slots && Children(slots, p) != {}
    ensures ReportStands(o, Next(env, o, InjectInputs(lease, inputs)), p, 0)
  {
    var w := o.worker;
    if |inputs| <= U32_MAX && PausedFailure(w, lease).None? {
      assert w.events + [] == w.events;
      MachineCount(o, DoInject(w, lease, inputs).0, lease.id, Injected(w.slots[lease.id].machine, inputs).0, [], p);
    } else {
      assert Reported(Known(o), w.slots, p);
    }
  }

  lemma {:induction false} RunCount<S(!new)>(env: Env<S>, o: Observed<S>, lease: Lease, until: RunUntil,
                                             cap: Option<u64>, captureFault: Option<Failure>, p: SlotId)
    requires Sound(o)
    requires var slots := Next(env, o, Run(lease, until, cap, captureFault)).worker.slots;
             p in slots && Children(slots, p) != {}
    ensures ReportStands(o, Next(env, o, Run(lease, until, cap, captureFault)), p, 0)
  {
    var w := o.worker;
    if captureFault.None? && PausedFailure(w, lease).None? {
      var id := lease.id;
      var machine := RunMachine(env, w.slots[id].machine, until, cap).0;
      var running := Info(w.slots[id := w.slots[id].(kind := Running)], id);
      var paused := Info(w.slots[id := w.slots[id].(machine := machine)], id);
      MachineCount(o, DoRun(env, w, lease, until, cap, captureFault).0, id, machine, [running, paused], p);
    } else {
      assert Reported(Known(o), w.slots, p);
    }
  }

  lemma {:induction false} BroodTold<S(!new)>(env: Env<S>, o: Observed<S>, id: SlotId, seeds: seq<Seed>, b: Brood<S>,
                                              after: Worker<S>)
    requires Sound(o) && id in o.worker.slots && FreshBrood(env, o.worker, id, seeds, b)
    requires id in b.slots && after == WithBrood(o.worker, id, b)
    ensures forall x {:trigger x in Known(Observed(after, o.told))} ::
              x in after.slots && (x == id || x !in o.worker.slots) ==>
                x in Known(Observed(after, o.told)) && Known(Observed(after, o.told))[x] == Info(after.slots, x)
    ensures forall x {:trigger x in Known(Observed(after, o.told))} ::
              x in o.worker.slots && x != id && x in Known(o) ==>
                x in Known(Observed(after, o.told)) && Known(Observed(after, o.told))[x] == Known(o)[x]
  {
    var first, second := Published(after.slots, [id]), Published(after.slots, Ids(b.leases));
    assert after.events == o.worker.events + (first + second);
    Telling(o, after, first + second);
    FoldSplits(Known(o), first, second);
    ForkReports(env, o.worker, id, seeds, b, after.slots, Known(o));
  }

  lemma {:induction false} ForkSpares<S(!new)>(slots: Slots<S>, after: Slots<S>, id: SlotId, first: SlotId, end: SlotId,
                                               p: SlotId)
    requires ForkOutcome(slots, after, id, first, end) && Forest(slots)
    requires p in after && p != id && Children(after, p) != {}
    ensures p in slots && Children(after, p) == Children(slots, p)
  {
    var c :| c in Children(after, p);
    assert Stands(slots, c);
  }

  lemma {:induction false} BroodCount<S(!new)>(env: Env<S>, o: Observed<S>, id: SlotId, seeds: seq<Seed>, b: Brood<S>,
                                               after: Worker<S>, p: SlotId)
    requires Sound(o) && id in o.worker.slots && FreshBrood(env, o.worker, id, seeds, b) && seeds != []
    requires id in b.slots && after == WithBrood(o.worker, id, b)
    requires p in after.slots && p != id && Children(after.slots, p) != {}
    ensures ReportStands(o, Observed(after, o.told), p, 0)
  {
    BroodIsOutcome(env, o.worker, id, seeds, b, after.slots);
    BroodTold(env, o, id, seeds, b, after);
    ForkSpares(o.worker.slots, after.slots, id, o.worker.nextId, b.nextId, p);
    assert Reported(Known(o), o.worker.slots, p);
    assert p in Known(Observed(after, o.told));
    ReportStays(o, Observed(after, o.told), p);
  }

  lemma {:induction false} Grows<S>(a: Slots<S>, b: Slots<S>, id: SlotId)
    requires a.Keys <= b.Keys && id in b && id !in a
    ensures |a| < |b|
  {
    Shrinks(a.Keys, b.Keys - {id});
    assert |a| == |a.Keys| && |b| == |b.Keys|;
  }

  lemma {:induction false} TableFits<S(!new)>(env: Env<S>, w: Worker<S>, call: Call, after: Slots<S>, id: SlotId,
                                              p: SlotId)
    requires after == Apply(env, w, call).0.slots && w.slots.Keys <= after.Keys && id in after && id !in w.slots
    ensures |Children(after, p)| <= U32_MAX
  {
    AllocationsRespectCapacity(env, w, call);
    Grows(w.slots, after, id);
    Shrinks(Children(after, p), after.Keys);
    assert |after| == |after.Keys|;
  }

  /** The table has room for its children, so the published count is not cut off. */
  lemma {:induction false} ForkFits<S(!new)>(env: Env<S>, w: Worker<S>, lease: Lease, count: u32, seeds: seq<Seed>,
                                             after: Slots<S>, p: SlotId)
    requires DoFork(env, w, lease, count, seeds).1.Forked? && after == DoFork(env, w, lease, count, seeds).0.slots
    requires FreshBrood(env, w, lease.id, seeds, Spawned(env, w, lease.id, seeds)) && Below(w.slots, w.nextId)
    ensures |Children(after, p)| <= U32_MAX
  {
    BroodIsOutcome(env, w, lease.id, seeds, Spawned(env, w, lease.id, seeds), after);
    TableFits(env, w, Fork(lease, count, seeds), after, w.nextId, p);
  }

  lemma {:induction false} ForkIsBrood<S(!new)>(env: Env<S>, o: Observed<S>, lease: Lease, count: u32, seeds: seq<Seed>,
                                                b: Brood<S>)
    requires Sound(o) && o.worker.nextId + count <= U64_MAX
    requires DoFork(env, o.worker, lease, count, seeds).1.Forked? && b == Spawned(env, o.worker, lease.id, seeds)
    ensures seeds != [] && FreshBrood(env, o.worker, lease.id, seeds, b) && lease.id in b.slots
    ensures Next(env, o, Fork(lease, count, seeds)) == Observed(WithBrood(o.worker, lease.id, b), o.told)
  {
    SpawnedIsFresh(env, o.worker, lease.id, seeds);
  }

  /** A fork tells the count of its own parent and leaves every other report alone. */
  lemma {:induction false} ForkCount<S(!new)>(env: Env<S>, o: Observed<S>, lease: Lease, count: u32, seeds: seq<Seed>,
                                              p: SlotId)
    requires Sound(o) && o.worker.nextId + count <= U64_MAX
    requires DoFork(env, o.worker, lease, count, seeds).1.Forked?
    requires var slots := DoFork(env, o.worker, lease, count, seeds).0.slots; p in slots && Children(slots, p) != {}
    ensures var after := Next(env, o, Fork(lease, count, seeds));
            if p == lease.id then
              p in Known(after) && Known(after)[p].liveChildren == |Children(after.worker.slots, p)|
            else ReportStands(o, after, p, 0)
  {
    var b := Spawned(env, o.worker, lease.id, seeds);
    ForkIsBrood(env, o, lease, count, seeds, b);
    var after := WithBrood(o.worker, lease.id, b);
    if p == lease.id {
      BroodTold(env, o, p, seeds, b, after);
      ForkFits(env, o.worker, lease, count, seeds, after.slots, p);
      assert p in Known(Observed(after, o.told));
    } else {
      BroodCount(env, o, lease.id, seeds, b, after, p);
    }
  }

  lemma {:induction false} LeafChildren<S(!new)>(slots: Slots<S>, id: SlotId, p: SlotId)
    requires Forest(slots) && id in slots && Children(slots, id) == {} && p in slots
    requires Children(slots - {id}, p) != {}
    ensures p != id
    ensures |Children(slots, p)|
         == |Children(slots - {id}, p)| + if slots[id].parent == Some(p) then 1 else 0
  {
    assert Children(slots - {id}, p) == Children(slots, p) - {id};
    assert id in Children(slots, p) <==> slots[id].parent == Some(p);
  }

  /** What a destroyed leaf publishes never names a slot that still has children. */
  lemma {:induction false} DestroyTells<S(!new)>(w: Worker<S>, id: SlotId, p: SlotId) returns (events: seq<SlotInfo>)
    requires Forest(w.slots) && id in w.slots && Children(w.slots, id) == {}
    requires var slots := Destroyed(w, id).slots; p in slots && Children(slots, p) != {}
    ensures var after := Destroyed(w, id);
            && after.events == w.events + events && after.cursor == w.cursor
            && Children(after.slots, p) == Children(w.slots - {id}, p) && p in w.slots
    ensures forall i :: 0 <= i < |events| ==> events[i].id != p
  {
    var after := Destroyed(w, id);
    var parent := w.slots[id].parent;
    assert Children(after.slots, p) == Children(w.slots - {id}, p);
    assert p != id;
    events := [Emptied(w.slots, id)];
    if parent.Some? && Children(w.slots - {id}, parent.value) == {} {
      assert Stands(w.slots, id);
      events := events + [Info(after.slots, parent.value)];
    }
  }

  lemma {:induction false} DestroyCount<S(!new)>(o: Observed<S>, id: SlotId, p: SlotId)
    requires Sound(o) && id in o.worker.slots && Children(o.worker.slots, id) == {}
    requires var slots := Destroyed(o.worker, id).slots; p in slots && Children(slots, p) != {}
    ensures ReportStands(o, Observed(Destroyed(o.worker, id), o.told), p,
                         if o.worker.slots[id].parent == Some(p) then 1 else 0)
  {
    var events := DestroyTells(o.worker, id, p);
    LeafChildren(o.worker.slots, id, p);
    assert Reported(Known(o), o.worker.slots, p);
    Telling(o, Destroyed(o.worker, id), events);
    FoldSkips(Known(o), events, p);
  }

  lemma {:induction false} QuietCount<S(!new)>(env: Env<S>, o: Observed<S>, call: Call, p: SlotId)
    requires Sound(o) && Next(env, o, call).worker.slots == o.worker.slots && Known(Next(env, o, call)) == Known(o)
    requires p in o.worker.slots && Children(o.worker.slots, p) != {}
    ensures ReportStands(o, Next(env, o, call), p, 0)
  {
    assert Reported(Known(o), o.worker.slots, p);
  }

  /** A fork publishes the count of `p`; any other call leaves the report, less at most one child. */
  ghost predicate Counted<S(!new)>(env: Env<S>, o: Observed<S>, call: Call, p: SlotId) {
    var after := Next(env, o, call);
    if Recounts(env, o.worker, call, p) then
      p in Known(after) && Known(after)[p].liveChildren == |Children(after.worker.slots, p)|
    else ReportStands(o, after, p, if Bereaves(o.worker, call, p) then 1 else 0)
  }

  lemma {:induction false} TakingStep<S(!new)>(env: Env<S>, o: Observed<S>, call: Call, p: SlotId)
    requires Sound(o) && o.worker.nextId + Demand(call) <= U64_MAX
    requires call.CreateVm? || call.RestoreSnapshot? || call.Fork? || call.DestroyVm?
    requires var slots := Next(env, o, call).worker.slots; p in slots && Children(slots, p) != {}
    ensures Counted(env, o, call, p)
  {
    if Next(env, o, call) == o {
      QuietCount(env, o, call, p);
    } else {
      match call
      case CreateVm(config, seed) => AllocationCount(env, o, config, seed, Booted(env), None, p);
      case RestoreSnapshot(snapshot, entropy) => RestoreCount(env, o, snapshot, entropy, p);
      case Fork(lease, count, seeds) => ForkCount(env, o, lease, count, seeds, p);
      case DestroyVm(lease) => DestroyCount(o, lease.id, p);
    }
  }

  lemma {:induction false} QuietStep<S(!new)>(env: Env<S>, o: Observed<S>, call: Call, p: SlotId)
    requires Sound(o) && (call.TakeSnapshot? || call.SetSlotsTotal? || call.WatchSlots? || call.CompactWatch?)
    requires p in o.worker.slots && Children(o.worker.slots, p) != {}
    ensures Counted(env, o, call, p)
  {
    if call.WatchSlots? || call.CompactWatch? { ReadingStep(env, o, call); }
    QuietCount(env, o, call, p);
  }

  lemma {:induction false} CountStep<S(!new)>(env: Env<S>, o: Observed<S>, call: Call, p: SlotId)
    requires Sound(o) && o.worker.nextId + Demand(call) <= U64_MAX
    requires var slots := Next(env, o, call).worker.slots; p in slots && Children(slots, p) != {}
    ensures Counted(env, o, call, p)
  {
    match call
    case InjectInputs(lease, inputs) => InjectCount(env, o, lease, inputs, p);
    case Run(lease, until, cap, fault) => RunCount(env, o, lease, until, cap, fault, p);
    case ReclaimSession =>
    case CreateVm(_, _) => TakingStep(env, o, call, p);
    case RestoreSnapshot(_, _) => TakingStep(env, o, call, p);
    case Fork(_, _, _) => TakingStep(env, o, call, p);
    case DestroyVm(_) => TakingStep(env, o, call, p);
    case _ => QuietStep(env, o, call, p);
  }

  lemma {:induction false} ParentCount<S(!new)>(env: Env<S>, total: u32, calls: seq<Call>, p: SlotId)
    requires 1 + TotalDemand(calls) <= U64_MAX
    requires var slots := RunCalls(env, Observed(Fresh(total), []), calls).worker.slots;
             p in slots && Children(slots, p) != {}
    ensures var o := RunCalls(env, Observed(Fresh(total), []), calls);
            && p in Known(o)
            && Known(o)[p].liveChildren
               == |Children(o.worker.slots, p)| + Gone(env, Observed(Fresh(total), []), calls, p)
  {
    if calls == [] {
    } else {
      var o0 := Observed(Fresh<S>(total), []);
      var before, last := calls[..|calls| - 1], calls[|calls| - 1];
      FreshIsSound<S>(total);
      RunKeeps(env, o0, before);
      var o := RunCalls(env, o0, before);
      CountStep(env, o, last, p);
      if !Recounts(env, o.worker, last, p) { ParentCount(env, total, before, p); }
    }
  }

  /**
    What the log says of a live slot's children, after any run: their number plus,
    while it still has some, the number destroyed since it last forked. So the
    count is right exactly when none was.
   */
  lemma {:induction false} ReportedCount<S(!new)>(env: Env<S>, total: u32, calls: seq<Call>, p: SlotId)
    requires 1 + TotalDemand(calls) <= U64_MAX
    requires p in RunCalls(env, Observed(Fresh(total), []), calls).worker.slots
    ensures var o := RunCalls(env, Observed(Fresh(total), []), calls);
            var children := Children(o.worker.slots, p);
            && p in Known(o)
            && Known(o)[p].liveChildren
               == |children| + if children == {} then 0 else Gone(env, Observed(Fresh(total), []), calls, p)
  {
    FreshIsSound<S>(total);
    RunKeeps(env, Observed(Fresh(total), []), calls);
    var o := RunCalls(env, Observed(Fresh(total), []), calls);
    assert Reported(Known(o), o.worker.slots, p);
    if Children(o.worker.slots, p) != {} { ParentCount(env, total, calls, p); }
  }

  // ------------------------------------------------------------------
  // A run that leaves a count out of date
  // ------------------------------------------------------------------

  lemma {:induction false} FirstCreate<S(!new)>(env: Env<S>, total: u32, w: Worker<S>)
    requires total >= 3 && w == DoCreate(env, Fresh(total), 0, 0).0
    ensures w.slots.Keys == {1} && w.slots[1] == Slot(env.mint(1, 0, 0), 0, Booted(env), None, None, Paused)
    ensures w.nextId == 2 && w.total == total && HasRoom(w, 2)
  {
    assert |w.slots| == |w.slots.Keys|;
  }

  lemma {:induction false} ForkOfTwo<S(!new)>(env: Env<S>, w: Worker<S>, lease: Lease, after: Worker<S>)
    requires w.slots.Keys == {1} && w.slots[1].kind == Paused && w.slots[1].parent == None && w.slots[1].config == 0
    requires w.nextId == 2
    requires lease == Lease(1, w.slots[1].token) && HasRoom(w, 2) && after == DoFork(env, w, lease, 2, [0, 0]).0
    ensures DoFork(env, w, lease, 2, [0, 0]).1.Forked?
    ensures after.slots.Keys == {1, 2, 3} && after.slots[1].parent == None
    ensures after.slots[2].parent == after.slots[3].parent == Some(1) && after.slots[2].kind == Paused
    ensures after.slots[2].token == env.mint(2, 0, 0)
  {
    SpawnedIsFresh(env, w, 1, [0, 0]);
    SpawnedKeepsParent(env, w, 1, [0, 0]);
    BroodIsOutcome(env, w, 1, [0, 0], Spawned(env, w, 1, [0, 0]), after.slots);
    assert after.slots.Keys == {1, 2, 3};
  }

  lemma {:induction false} OneOfTwoGone<S(!new)>(w: Worker<S>, lease: Lease, after: Worker<S>)
    requires w.slots.Keys == {1, 2, 3} && w.slots[1].parent == None && w.slots[2].kind == Paused
    requires w.slots[2].parent == w.slots[3].parent == Some(1)
    requires lease == Lease(2, w.slots[2].token) && after == DoDestroy(w, lease).0
    ensures DoDestroy(w, lease).1.Done? && 1 in after.slots && Children(after.slots, 1) == {3}
  {
    assert Children(w.slots, 2) == {};
    assert Children(w.slots - {2}, 1) == {3};
  }

  lemma {:induction false} GoneOneMore<S(!new)>(env: Env<S>, o: Observed<S>, calls: seq<Call>, call: Call, p: SlotId)
    ensures Gone(env, o, calls + [call], p)
         == var w := RunCalls(env, o, calls).worker;
            if Recounts(env, w, call, p) then 0
            else Gone(env, o, calls, p) + if Bereaves(w, call, p) then 1 else 0
  {
    assert (calls + [call])[..|calls|] == calls;
  }

  /** Create a slot, fork it twice and destroy one child: the log still says two children. */
  lemma {:induction false} StaleCount<S(!new)>(env: Env<S>, total: u32, calls: seq<Call>)
    requires total >= 3
    requires calls == [] + [CreateVm(0, 0)] + [Fork(Lease(1, env.mint(1, 0, 0)), 2, [0, 0])]
                      + [DestroyVm(Lease(2, env.mint(2, 0, 0)))]
    ensures var o := RunCalls(env, Observed(Fresh(total), []), calls);
            && 1 in o.worker.slots && 1 in Known(o)
            && Known(o)[1].liveChildren == 2 && |Children(o.worker.slots, 1)| == 1
  {
    var o0 := Observed(Fresh<S>(total), []);
    var create, destroy := CreateVm(0, 0), DestroyVm(Lease(2, env.mint(2, 0, 0)));
    var fork := Fork(Lease(1, env.mint(1, 0, 0)), 2, [0, 0]);
    RunOneMore(env, o0, [], create);
    RunOneMore(env, o0, [] + [create], fork);
    RunOneMore(env, o0, [] + [create] + [fork], destroy);
    GoneOneMore(env, o0, [] + [create], fork, 1);
    GoneOneMore(env, o0, [] + [create] + [fork], destroy, 1);
    var w1 := Next(env, o0, create).worker;
    FirstCreate(env, total, w1);
    var w2 := RunCalls(env, o0, [] + [create] + [fork]).worker;
    ForkOfTwo(env, w1, fork.parent, w2);
    OneOfTwoGone(w2, destroy.lease, RunCalls(env, o0, calls).worker);
    ReportedCount(env, total, calls, 1);
  }
}
