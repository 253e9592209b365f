/**
  Whole runs of worker calls: the lease forest and the watch log hold after
  every one of them, and a slot's fate depends on the calls to that slot alone.
 */
module WorkerRuns {
  import opened Base
  import opened SlotTable
  import SlotProtocol
  import opened Playback
  import opened WorkerTable
  import opened WorkerForest

  /** How many ids a call may take. */
  function Demand(call: Call): nat {
    if call.CreateVm? || call.RestoreSnapshot? then 1 else if call.Fork? then call.count else 0
  }

  function TotalDemand(calls: seq<Call>): nat {
    if calls == [] then 0 else TotalDemand(calls[..|calls| - 1]) + Demand(calls[|calls| - 1])
  }

  ghost function Known<S>(o: Observed<S>): map<SlotId, SlotInfo> { Fold(map[], o.told + Unread(o.worker)) }

  /** Appended events are unread until a watch takes them. */
  lemma {:induction false} Telling<S(!new)>(o: Observed<S>, after: Worker<S>, events: seq<SlotInfo>)
    requires after.events == o.worker.events + events && after.cursor == o.worker.cursor
    requires o.worker.cursor <= |o.worker.events|
    ensures Known(Observed(after, o.told)) == Fold(Known(o), events)
  {
    assert Unread(after) == Unread(o.worker) + events;
    assert o.told + Unread(after) == (o.told + Unread(o.worker)) + events;
    FoldSplits(map[], o.told + Unread(o.worker), events);
  }

  /** The run invariant: the forest, ids below the counter, and a log that tells the table. */
  ghost predicate Sound<S(!new)>(o: Observed<S>) {
    && o.worker.cursor <= |o.worker.events|
    && Forest(o.worker.slots) && Below(o.worker.slots, o.worker.nextId)
    && Describes(Known(o), o.worker.slots)
  }

  lemma {:induction false} AllocationKeeps<S(!new)>(env: Env<S>, o: Observed<S>, config: Config, seed: Seed,
                                                    machine: Machine<S>, base: Option<SnapshotRef>)
    requires Sound(o) && o.worker.nextId < U64_MAX
    ensures Sound(Observed(Allocated(env, o.worker, config, seed, machine, base), o.told))
  {
    var w := o.worker;
    var after := Allocated(env, w, config, seed, machine, base);
    RootKeeps(w.slots, w.nextId, after.slots[w.nextId], Known(o));
    var info := Info(after.slots, w.nextId);
    Telling(o, after, [info]);
    FoldPair(Known(o), info, info);
  }

  lemma {:induction false} RestoreStep<S(!new)>(env: Env<S>, o: Observed<S>, snapshot: SnapshotRef,
                                                entropy: Option<Seed>)
    requires Sound(o) && o.worker.nextId < U64_MAX
    ensures Sound(Next(env, o, RestoreSnapshot(snapshot, entropy)))
  {
    if HasRoom(o.worker, 1) && snapshot in o.worker.snapshots {
      var record, seed := o.worker.snapshots[snapshot], if entropy.Some? then entropy.value else 0;
      AllocationKeeps(env, o, record.config, seed, record.machine, Some(snapshot));
      assert Next(env, o, RestoreSnapshot(snapshot, entropy))
          == Observed(Allocated(env, o.worker, record.config, seed, record.machine, Some(snapshot)), o.told);
    } else {
      assert Next(env, o, RestoreSnapshot(snapshot, entropy)) == o;
    }
  }

  lemma {:induction false} BroodKeeps<S(!new)>(env: Env<S>, o: Observed<S>, p: SlotId, seeds: seq<Seed>, b: Brood<S>)
    requires Sound(o) && o.worker.nextId + |seeds| <= U64_MAX && seeds != []
    requires p in o.worker.slots && o.worker.slots[p].kind == Paused
    requires b == Spawned(env, o.worker, p, seeds) && p in b.slots
    ensures Sound(Observed(WithBrood(o.worker, p, b), o.told))
  {
    var w, after := o.worker, WithBrood(o.worker, p, b);
    ForkKeeps(env, w, p, seeds, after.slots, Known(o));
    var first, second := Published(after.slots, [p]), Published(after.slots, Ids(b.leases));
    assert after.events == w.events + (first + second);
    Telling(o, after, first + second);
    FoldSplits(Known(o), first, second);
  }

  lemma {:induction false} SpawnedNextId<S>(env: Env<S>, w: Worker<S>, parentId: SlotId, seeds: seq<Seed>)
    requires parentId in w.slots
    ensures Spawned(env, w, parentId, seeds).nextId <= w.nextId + |seeds|
  {
    if seeds == [] {
    } else {
      SpawnedNextId(env, w, parentId, seeds[..|seeds| - 1]);
    }
  }

  lemma {:induction false} ForkStep<S(!new)>(env: Env<S>, o: Observed<S>, lease: Lease, count: u32, seeds: seq<Seed>)
    requires Sound(o) && o.worker.nextId + count <= U64_MAX
    ensures Sound(Next(env, o, Fork(lease, count, seeds)))
  {
    if DoFork(env, o.worker, lease, count, seeds).1.Forked? {
      SpawnedKeepsParent(env, o.worker, lease.id, seeds);
      BroodKeeps(env, o, lease.id, seeds, Spawned(env, o.worker, lease.id, seeds));
    }
  }

  lemma {:induction false} QueuedKeepsClock<S>(m: Machine<S>, events: seq<ScheduledEvent>)
    requires m.nextOrder + |events| <= U64_MAX
    ensures Queued(m, events).icount == m.icount
  {
    if events == [] {
    } else {
      QueuedKeepsClock(m, events[..|events| - 1]);
    }
  }

  lemma {:induction false} InjectedKeepsClock<S>(m: Machine<S>, events: seq<ScheduledEvent>)
    ensures Injected(m, events).0.icount == m.icount
  {
    QueuedKeepsClock(m, events[..Min(|events|, U64_MAX - m.nextOrder)]);
    assert events[..|events|] == events;
  }

  lemma {:induction false} InjectStep<S(!new)>(env: Env<S>, o: Observed<S>, lease: Lease, inputs: seq<ScheduledEvent>)
    requires Sound(o)
    ensures Sound(Next(env, o, InjectInputs(lease, inputs)))
  {
    var w := o.worker;
    if |inputs| <= U32_MAX && PausedFailure(w, lease).None? {
      var id := lease.id;
      var machine := Injected(w.slots[id].machine, inputs).0;
      InjectedKeepsClock(w.slots[id].machine, inputs);
      assert Stands(w.slots, id) && Reported(Known(o), w.slots, id);
      MachineStands(w.slots, id, machine);
      MachineKeeps(w.slots, id, machine, Known(o), Known(o)[id]);
      assert Known(o)[id := Known(o)[id]] == Known(o);
    }
  }

  lemma {:induction false} RunStep<S(!new)>(env: Env<S>, o: Observed<S>, lease: Lease, until: RunUntil,
                                            cap: Option<u64>, captureFault: Option<Failure>)
    requires Sound(o)
    ensures Sound(Next(env, o, Run(lease, until, cap, captureFault)))
  {
    var w := o.worker;
    if captureFault.None? && PausedFailure(w, lease).None? {
      var id := lease.id;
      var machine := RunMachine(env, w.slots[id].machine, until, cap).0;
      var slots := w.slots[id := w.slots[id].(machine := machine)];
      var running := Info(w.slots[id := w.slots[id].(kind := Running)], id);
      assert Current(Info(slots, id), slots, id);
      MachineKeeps(w.slots, id, machine, Known(o), Info(slots, id));
      var after := DoRun(env, w, lease, until, cap, captureFault).0;
      Telling(o, after, [running, Info(slots, id)]);
      FoldPair(Known(o), running, Info(slots, id));
      assert Known(o)[id := running][id := Info(slots, id)] == Known(o)[id := Info(slots, id)];
    }
  }

  lemma {:induction false} DestroyedKeeps<S(!new)>(o: Observed<S>, id: SlotId)
    requires Sound(o) && id in o.worker.slots && Children(o.worker.slots, id) == {}
    ensures Sound(Observed(Destroyed(o.worker, id), o.told))
  {
    var events := DestroyKeeps(o.worker, id, Known(o));
    Telling(o, Destroyed(o.worker, id), events);
  }

  lemma {:induction false} DestroyStep<S(!new)>(env: Env<S>, o: Observed<S>, lease: Lease)
    requires Sound(o)
    ensures Sound(Next(env, o, DestroyVm(lease)))
  {
    if DoDestroy(o.worker, lease).1.Done? { DestroyedKeeps(o, lease.id); }
  }

  lemma {:induction false} ForestIsAcyclic<S(!new)>(slots: Slots<S>)
    requires Forest(slots)
    ensures Acyclic(slots)
  {
    forall id | id in slots && slots[id].parent.Some?
      ensures slots[id].parent.value in slots && slots[id].parent.value < id
    {
      assert Stands(slots, id);
    }
  }

  lemma {:induction false} ReclaimStep<S(!new)>(env: Env<S>, o: Observed<S>)
    requires Sound(o)
    ensures Sound(Next(env, o, ReclaimSession)) && Next(env, o, ReclaimSession).worker.slots == map[]
  {
    var w := o.worker;
    ForestIsAcyclic(w.slots);
    ReclaimEmpties(w.slots, w.nextId, Known(o));
    Telling(o, Next(env, o, ReclaimSession).worker, Reclaimed(w.slots));
  }

  lemma {:induction false} CutMoves<T>(told: seq<T>, events: seq<T>, start: nat, end: nat)
    requires start <= end <= |events|
    ensures (told + events[start..end]) + events[end..] == told + events[start..]
  {
  }

  lemma {:induction false} ReadingMoves<S(!new)>(env: Env<S>, o: Observed<S>, call: Call)
    requires o.worker.cursor <= |o.worker.events| && (call.WatchSlots? || call.CompactWatch?)
    ensures var after := Next(env, o, call);
            && after.told + Unread(after.worker) == o.told + Unread(o.worker)
            && after.worker.cursor <= |after.worker.events|
  {
    var w := o.worker;
    if call.WatchSlots? { CutMoves(o.told, w.events, w.cursor, w.cursor + Min(call.keep, |w.events| - w.cursor)); }
  }

  /** Reading and compacting move the line between told and unread, and nothing else. */
  lemma {:induction false} ReadingStep<S(!new)>(env: Env<S>, o: Observed<S>, call: Call)
    requires Sound(o) && (call.WatchSlots? || call.CompactWatch?)
    ensures Sound(Next(env, o, call)) && Known(Next(env, o, call)) == Known(o)
  {
    ReadingMoves(env, o, call);
    assert Next(env, o, call).worker.slots == o.worker.slots;
  }

  lemma {:induction false} IdsTaken<S(!new)>(env: Env<S>, w: Worker<S>, call: Call)
    ensures Apply(env, w, call).0.nextId <= w.nextId + Demand(call)
  {
    if call.Fork? && call.parent.id in w.slots { SpawnedNextId(env, w, call.parent.id, call.seeds); }
  }

  lemma {:induction false} StepKeeps<S(!new)>(env: Env<S>, o: Observed<S>, call: Call)
    requires Sound(o) && o.worker.nextId + Demand(call) <= U64_MAX
    ensures Sound(Next(env, o, call))
  {
    match call
    case CreateVm(config, seed) => AllocationKeeps(env, o, config, seed, Booted(env), None);
    case RestoreSnapshot(snapshot, entropy) => RestoreStep(env, o, snapshot, entropy);
    case Fork(lease, count, seeds) => ForkStep(env, o, lease, count, seeds);
    case InjectInputs(lease, inputs) => InjectStep(env, o, lease, inputs);
    case Run(lease, until, cap, fault) => RunStep(env, o, lease, until, cap, fault);
    case TakeSnapshot(_, _) =>
    case DestroyVm(lease) => DestroyStep(env, o, lease);
    case ReclaimSession => ReclaimStep(env, o);
    case SetSlotsTotal(_) =>
    case WatchSlots(_) => ReadingStep(env, o, call);
    case CompactWatch => ReadingStep(env, o, call);
  }

  /** Every run of worker calls that stays below id saturation keeps the forest and the log. */
  lemma {:induction false} RunKeeps<S(!new)>(env: Env<S>, o: Observed<S>, calls: seq<Call>)
    requires Sound(o) && o.worker.nextId + TotalDemand(calls) <= U64_MAX
    ensures var after := RunCalls(env, o, calls);
            Sound(after) && after.worker.nextId <= o.worker.nextId + TotalDemand(calls)
  {
    if calls == [] {
    } else {
      RunKeeps(env, o, calls[..|calls| - 1]);
      StepKeeps(env, RunCalls(env, o, calls[..|calls| - 1]), calls[|calls| - 1]);
      IdsTaken(env, RunCalls(env, o, calls[..|calls| - 1]).worker, calls[|calls| - 1]);
    }
  }

  lemma {:induction false} FreshIsSound<S(!new)>(total: u32)
    ensures Sound(Observed(Fresh<S>(total), []))
  {
    assert Known(Observed(Fresh<S>(total), [])) == map[];
  }

  /**
    Past saturation ids repeat: two creates in a row both answer with the last
    id, and the second lease takes the first one's slot.
   */
  lemma {:induction false} SaturatedIdsCollide<S(!new)>(env: Env<S>, w: Worker<S>, config: Config, seed: Seed)
    requires w.nextId == U64_MAX && HasRoom(w, 2)
    ensures var (first, a) := DoCreate(env, w, config, seed);
            var (second, b) := DoCreate(env, first, config, seed);
            a == b && a.Leased? && second.slots.Keys == first.slots.Keys
  {
    var (first, a) := DoCreate(env, w, config, seed);
    assert first.slots.Keys == w.slots.Keys + {w.nextId};
    assert |first.slots| == |first.slots.Keys| && |w.slots| == |w.slots.Keys|;
    assert |first.slots.Keys| <= |w.slots.Keys| + 1;
  }

  lemma {:induction false} RunOneMore<S(!new)>(env: Env<S>, o: Observed<S>, calls: seq<Call>, call: Call)
    ensures RunCalls(env, o, calls + [call]) == Next(env, RunCalls(env, o, calls), call)
    ensures TotalDemand(calls + [call]) == TotalDemand(calls) + Demand(call)
  {
    assert (calls + [call])[..|calls|] == calls;
  }

  /** Create and destroy, so many times over. */
  function Churn<S>(env: Env<S>, n: nat): (calls: seq<Call>)
    ensures |calls| == 2 * n
  {
    if n == 0 then [] else Churn(env, n - 1) + [CreateVm(0, 0)] + [DestroyVm(Lease(n, env.mint(n, 0, 0)))]
  }

  lemma {:induction false} ChurnOnce<S(!new)>(env: Env<S>, w: Worker<S>)
    requires w.slots == map[] && w.total > 0 && w.nextId < U64_MAX
    ensures var created := DoCreate(env, w, 0, 0).0;
            var after := DoDestroy(created, Lease(w.nextId, env.mint(w.nextId, 0, 0))).0;
            after.slots == map[] && after.total == w.total && after.nextId == w.nextId + 1
  {
    var created := DoCreate(env, w, 0, 0).0;
    assert created.slots.Keys == {w.nextId};
    assert Children(created.slots, w.nextId) == {};
    assert created.slots - {w.nextId} == map[];
  }

  lemma {:induction false} ChurnRound<S(!new)>(env: Env<S>, o: Observed<S>, before: seq<Call>, n: nat)
    requires var w := RunCalls(env, o, before).worker; w.slots == map[] && w.total > 0 && w.nextId == n < U64_MAX
    ensures var w := RunCalls(env, o, before).worker;
            var after := RunCalls(env, o, before + [CreateVm(0, 0)] + [DestroyVm(Lease(n, env.mint(n, 0, 0)))]).worker;
            after.slots == map[] && after.total == w.total && after.nextId == n + 1
  {
    RunOneMore(env, o, before, CreateVm(0, 0));
    RunOneMore(env, o, before + [CreateVm(0, 0)], DestroyVm(Lease(n, env.mint(n, 0, 0))));
    ChurnOnce(env, RunCalls(env, o, before).worker);
  }

  /** Each round takes an id and leaves the table empty. */
  lemma {:induction false} ChurnTakesIds<S(!new)>(env: Env<S>, total: u32, n: nat)
    requires total > 0 && n < U64_MAX
    ensures var w := RunCalls(env, Observed(Fresh(total), []), Churn(env, n)).worker;
            w.slots == map[] && w.total == total && w.nextId == n + 1
  {
    if n == 0 {
    } else {
      ChurnTakesIds(env, total, n - 1);
      ChurnRound(env, Observed(Fresh(total), []), Churn(env, n - 1), n);
    }
  }

  /** So saturation is reached: after enough rounds the next two creates share an id. */
  lemma {:induction false} CollisionIsReached<S(!new)>(env: Env<S>, total: u32)
    requires total >= 2
    ensures var w := RunCalls(env, Observed(Fresh(total), []), Churn(env, U64_MAX - 1)).worker;
            var (first, a) := DoCreate(env, w, 0, 0);
            var (second, b) := DoCreate(env, first, 0, 0);
            a == b && a.Leased? && second.slots.Keys == first.slots.Keys
  {
    ChurnTakesIds(env, total, U64_MAX - 1);
    SaturatedIdsCollide(env, RunCalls(env, Observed(Fresh(total), []), Churn(env, U64_MAX - 1)).worker, 0, 0);
  }

  // ------------------------------------------------------------------
  // Capacity
  // ------------------------------------------------------------------

  lemma {:induction false} InsertCount<S>(slots: Slots<S>, id: SlotId, slot: Slot<S>)
    ensures |slots[id := slot]| == if id in slots then |slots| else |slots| + 1
  {
    var after := slots[id := slot];
    assert after.Keys == slots.Keys + {id};
    assert |after| == |after.Keys| && |slots| == |slots.Keys|;
  }

  lemma {:induction false} SpawnedCount<S>(env: Env<S>, w: Worker<S>, parentId: SlotId, seeds: seq<Seed>)
    requires parentId in w.slots
    ensures |Spawned(env, w, parentId, seeds).slots| <= |w.slots| + |seeds|
  {
    if seeds == [] {
    } else {
      var b := Spawned(env, w, parentId, seeds[..|seeds| - 1]);
      SpawnedCount(env, w, parentId, seeds[..|seeds| - 1]);
      InsertCount(b.slots, b.nextId, ChildOf(env, w.slots[parentId], parentId, b.nextId, seeds[|seeds| - 1]));
    }
  }

  lemma {:induction false} KeysShrink<S>(a: Slots<S>, b: Slots<S>)
    requires a.Keys <= b.Keys
    ensures |a| <= |b|
  {
    Shrinks(a.Keys, b.Keys);
    assert |a| == |a.Keys| && |b| == |b.Keys|;
  }

  lemma {:induction false} OthersNeverGrow<S(!new)>(env: Env<S>, w: Worker<S>, call: Call)
    requires !call.CreateVm? && !call.RestoreSnapshot? && !call.Fork?
    ensures |Apply(env, w, call).0.slots| <= |w.slots|
  {
    var after := Apply(env, w, call).0.slots;
    assert after.Keys <= w.slots.Keys;
    KeysShrink(after, w.slots);
  }

  /** A call that makes the table grow leaves it within the pool size. */
  lemma {:induction false} AllocationsRespectCapacity<S(!new)>(env: Env<S>, w: Worker<S>, call: Call)
    ensures var after := Apply(env, w, call).0; |after.slots| > |w.slots| ==> |after.slots| <= w.total
  {
    match call
    case CreateVm(config, seed) =>
      InsertCount(w.slots, w.nextId, Slot(env.mint(w.nextId, config, seed), config, Booted(env), None, None, Paused));
    case RestoreSnapshot(snapshot, entropy) =>
      if snapshot in w.snapshots {
        var r := w.snapshots[snapshot];
        var token := env.mint(w.nextId, r.config, if entropy.Some? then entropy.value else 0);
        InsertCount(w.slots, w.nextId, Slot(token, r.config, r.machine, Some(snapshot), None, Paused));
      }
    case Fork(lease, count, seeds) =>
      if DoFork(env, w, lease, count, seeds).1.Forked? {
        var b := Spawned(env, w, lease.id, seeds);
        SpawnedCount(env, w, lease.id, seeds);
        SpawnedKeepsParent(env, w, lease.id, seeds);
        InsertCount(b.slots, lease.id, b.slots[lease.id].(kind := Frozen));
      }
    case _ => OthersNeverGrow(env, w, call);
  }
}
