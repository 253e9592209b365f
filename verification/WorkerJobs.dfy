/**
  Jobs on leased slots (crates/orch-sched/src/driver.rs over
  crates/orch-fakes/src/hypervisor.rs): what a job captures does not depend on
  how its slot came to be or on what happens to other slots meanwhile.
 */
module WorkerJobs {
  import opened Base
  import opened SlotTable
  import opened Playback
  import opened WorkerTable
  import opened WorkerForest
  import opened WorkerRuns

  /** What a call does to the machine it is addressed to, without the lease. */
  datatype MachineOp = Feed(inputs: seq<ScheduledEvent>) | Go(until: RunUntil, cap: Option<u64>)

  function OpOf(call: Call, lease: Lease): Option<MachineOp> {
    match call
    case InjectInputs(l, inputs) => if l == lease && |inputs| <= U32_MAX then Some(Feed(inputs)) else None
    case Run(l, until, cap, fault) => if l == lease && fault.None? then Some(Go(until, cap)) else None
    case _ => None
  }

  function OpsOf(calls: seq<Call>, lease: Lease): seq<MachineOp> {
    if calls == [] then []
    else
      var op := OpOf(calls[|calls| - 1], lease);
      OpsOf(calls[..|calls| - 1], lease) + if op.Some? then [op.value] else []
  }

  function Operated<S>(env: Env<S>, m: Machine<S>, op: MachineOp): Machine<S> {
    match op
    case Feed(inputs) => Injected(m, inputs).0
    case Go(until, cap) => RunMachine(env, m, until, cap).0
  }

  function Replayed<S>(env: Env<S>, m: Machine<S>, ops: seq<MachineOp>): Machine<S> {
    if ops == [] then m else Operated(env, Replayed(env, m, ops[..|ops| - 1]), ops[|ops| - 1])
  }

  lemma {:induction false} ReplayOneMore<S>(env: Env<S>, m: Machine<S>, ops: seq<MachineOp>, op: MachineOp)
    ensures Replayed(env, m, ops + [op]) == Operated(env, Replayed(env, m, ops), op)
  {
    assert (ops + [op])[..|ops|] == ops;
  }

  /** The call neither forks nor removes the slot of `lease`. */
  predicate Spares(call: Call, lease: Lease) {
    && !call.ReclaimSession?
    && (call.DestroyVm? ==> call.lease != lease)
    && (call.Fork? ==> call.parent != lease)
  }

  predicate Holds<S>(w: Worker<S>, lease: Lease) {
    lease.id in w.slots && w.slots[lease.id].token == lease.token && w.slots[lease.id].kind == Paused
  }

  lemma {:induction false} AllocationSpares<S(!new)>(env: Env<S>, w: Worker<S>, call: Call, lease: Lease)
    requires Below(w.slots, w.nextId) && w.nextId + Demand(call) <= U64_MAX && Holds(w, lease)
    requires (call.CreateVm? || call.RestoreSnapshot? || call.Fork?) && Spares(call, lease)
    ensures var after := Apply(env, w, call).0;
            lease.id in after.slots && after.slots[lease.id] == w.slots[lease.id]
  {
    if call.Fork? && DoFork(env, w, call.parent, call.count, call.seeds).1.Forked? {
      SpawnedIsFresh(env, w, call.parent.id, call.seeds);
      assert call.parent.id != lease.id;
    }
  }

  /** One call changes a held slot only as its own operation says. */
  lemma {:induction false} StepOnSlot<S(!new)>(env: Env<S>, w: Worker<S>, call: Call, lease: Lease)
    requires Below(w.slots, w.nextId) && w.nextId + Demand(call) <= U64_MAX && Holds(w, lease) && Spares(call, lease)
    ensures var slot := w.slots[lease.id];
            var op := OpOf(call, lease);
            var after := Apply(env, w, call).0;
            && lease.id in after.slots
            && after.slots[lease.id]
               == if op.Some? then slot.(machine := Operated(env, slot.machine, op.value)) else slot
  {
    if call.CreateVm? || call.RestoreSnapshot? || call.Fork? { AllocationSpares(env, w, call, lease); }
  }

  ghost predicate AllSpare(calls: seq<Call>, lease: Lease) {
    forall i :: 0 <= i < |calls| ==> Spares(calls[i], lease)
  }

  /** Over any run that spares it, a held slot evolves by the operations addressed to it alone. */
  lemma {:induction false} RunOnSlot<S(!new)>(env: Env<S>, o: Observed<S>, calls: seq<Call>, lease: Lease)
    requires Sound(o) && o.worker.nextId + TotalDemand(calls) <= U64_MAX
    requires Holds(o.worker, lease) && AllSpare(calls, lease)
    ensures var slot := o.worker.slots[lease.id];
            var after := RunCalls(env, o, calls).worker;
            && Holds(after, lease)
            && after.slots[lease.id] == slot.(machine := Replayed(env, slot.machine, OpsOf(calls, lease)))
  {
    if calls == [] {
    } else {
      var before, call := calls[..|calls| - 1], calls[|calls| - 1];
      RunOnSlot(env, o, before, lease);
      RunKeeps(env, o, before);
      StepOnSlot(env, RunCalls(env, o, before).worker, call, lease);
      var op, ops := OpOf(call, lease), OpsOf(before, lease);
      if op.Some? {
        ReplayOneMore(env, o.worker.slots[lease.id].machine, ops, op.value);
      } else {
        assert OpsOf(calls, lease) == ops;
      }
    }
  }

  // ------------------------------------------------------------------
  // Restored and forked slots
  // ------------------------------------------------------------------

  lemma {:induction false} RestoredSlot<S(!new)>(env: Env<S>, o: Observed<S>, snapshot: SnapshotRef,
                                                 entropy: Option<Seed>)
    requires Sound(o) && o.worker.nextId < U64_MAX && HasRoom(o.worker, 1) && snapshot in o.worker.snapshots
    ensures var (after, reply) := Apply(env, o.worker, RestoreSnapshot(snapshot, entropy));
            var record := o.worker.snapshots[snapshot];
            && reply.Leased? && Holds(after, reply.lease)
            && after.slots[reply.lease.id].config == record.config
            && after.slots[reply.lease.id].machine == record.machine
  {
  }

  lemma {:induction false} ForkedSlots<S(!new)>(env: Env<S>, o: Observed<S>, parent: Lease, seeds: seq<Seed>, i: nat)
    requires Sound(o) && o.worker.nextId + |seeds| <= U64_MAX && i < |seeds| <= U32_MAX
    requires Holds(o.worker, parent) && HasRoom(o.worker, |seeds|)
    ensures var (after, reply) := Apply(env, o.worker, Fork(parent, |seeds|, seeds));
            var slot := o.worker.slots[parent.id];
            && reply.Forked? && |reply.children| == |seeds| && Holds(after, reply.children[i])
            && after.slots[reply.children[i].id].config == slot.config
            && after.slots[reply.children[i].id].machine == slot.machine
  {
    var w := o.worker;
    SpawnedIsFresh(env, w, parent.id, seeds);
    var b := Spawned(env, w, parent.id, seeds);
    assert b.leases[w.nextId + i - w.nextId] == Lease(w.nextId + i, b.slots[w.nextId + i].token);
  }

  /** What sealing a slot after the run records. */
  lemma {:induction false} CaptureIsReplay<S(!new)>(env: Env<S>, o: Observed<S>, calls: seq<Call>, lease: Lease)
    requires Sound(o) && o.worker.nextId + TotalDemand(calls) <= U64_MAX
    requires Holds(o.worker, lease) && AllSpare(calls, lease)
    ensures var slot := o.worker.slots[lease.id];
            var record := Record(slot.config, Replayed(env, slot.machine, OpsOf(calls, lease)));
            var (after, reply) := DoSnapshot(env, RunCalls(env, o, calls).worker, lease, None);
            && reply == Sealed(env.seal(record))
            && env.seal(record) in after.snapshots && after.snapshots[env.seal(record)] == record
  {
    RunOnSlot(env, o, calls, lease);
  }

  ghost predicate SameStart<S(!new)>(a: Worker<S>, x: Lease, b: Worker<S>, y: Lease) {
    && Holds(a, x) && Holds(b, y)
    && a.slots[x.id].config == b.slots[y.id].config && a.slots[x.id].machine == b.slots[y.id].machine
  }

  /** Slots that start alike and take the same operations seal the same snapshot, whatever else their workers do. */
  lemma {:induction false} SameCapture<S(!new)>(env: Env<S>, a: Observed<S>, x: Lease, onX: seq<Call>,
                                                b: Observed<S>, y: Lease, onY: seq<Call>)
    requires Sound(a) && a.worker.nextId + TotalDemand(onX) <= U64_MAX && AllSpare(onX, x)
    requires Sound(b) && b.worker.nextId + TotalDemand(onY) <= U64_MAX && AllSpare(onY, y)
    requires SameStart(a.worker, x, b.worker, y) && OpsOf(onX, x) == OpsOf(onY, y)
    ensures var one := DoSnapshot(env, RunCalls(env, a, onX).worker, x, None);
            var two := DoSnapshot(env, RunCalls(env, b, onY).worker, y, None);
            && one.1.Sealed? && one.1 == two.1
            && one.1.snapshot in one.0.snapshots && one.1.snapshot in two.0.snapshots
            && one.0.snapshots[one.1.snapshot] == two.0.snapshots[one.1.snapshot]
  {
    CaptureIsReplay(env, a, onX, x);
    CaptureIsReplay(env, b, onY, y);
  }

  /** The worker and the lease after a restore that has room. */
  ghost function Restoring<S(!new)>(env: Env<S>, o: Observed<S>, snapshot: SnapshotRef,
                                    entropy: Option<Seed>): (Observed<S>, Lease)
    requires HasRoom(o.worker, 1) && snapshot in o.worker.snapshots
  {
    (Next(env, o, RestoreSnapshot(snapshot, entropy)),
     Apply(env, o.worker, RestoreSnapshot(snapshot, entropy)).1.lease)
  }

  lemma {:induction false} RestoringIsSound<S(!new)>(env: Env<S>, o: Observed<S>, snapshot: SnapshotRef,
                                                     entropy: Option<Seed>)
    requires Sound(o) && o.worker.nextId < U64_MAX && HasRoom(o.worker, 1) && snapshot in o.worker.snapshots
    ensures var (after, lease) := Restoring(env, o, snapshot, entropy);
            && Sound(after) && after.worker.nextId <= o.worker.nextId + 1 && Holds(after.worker, lease)
            && after.worker.slots[lease.id].config == o.worker.snapshots[snapshot].config
            && after.worker.slots[lease.id].machine == o.worker.snapshots[snapshot].machine
  {
    RestoredSlot(env, o, snapshot, entropy);
    StepKeeps(env, o, RestoreSnapshot(snapshot, entropy));
    IdsTaken(env, o.worker, RestoreSnapshot(snapshot, entropy));
  }

  /**
    A child forked from a restored parent starts like a slot restored from the
    same snapshot, on this worker or on another one that holds it.
   */
  lemma {:induction false} ForkedLikeRestored<S(!new)>(env: Env<S>, a: Observed<S>, b: Observed<S>,
                                                       snapshot: SnapshotRef,
                                                       entropy: Option<Seed>, seeds: seq<Seed>, i: nat)
    requires Sound(a) && a.worker.nextId < U64_MAX && HasRoom(a.worker, 1) && snapshot in a.worker.snapshots
    requires Sound(b) && b.worker.nextId + 1 + |seeds| <= U64_MAX && HasRoom(b.worker, 1)
    requires snapshot in b.worker.snapshots
    requires a.worker.snapshots[snapshot] == b.worker.snapshots[snapshot]
    requires i < |seeds| <= U32_MAX && HasRoom(Restoring(env, b, snapshot, None).0.worker, |seeds|)
    ensures var (restored, lease) := Restoring(env, a, snapshot, entropy);
            var (parents, parent) := Restoring(env, b, snapshot, None);
            var forked := Next(env, parents, Fork(parent, |seeds|, seeds));
            var reply := Apply(env, parents.worker, Fork(parent, |seeds|, seeds)).1;
            && Sound(restored) && Sound(forked)
            && reply.Forked? && |reply.children| == |seeds|
            && SameStart(restored.worker, lease, forked.worker, reply.children[i])
  {
    RestoringIsSound(env, a, snapshot, entropy);
    RestoringIsSound(env, b, snapshot, None);
    var (parents, parent) := Restoring(env, b, snapshot, None);
    ForkedSlots(env, parents, parent, seeds, i);
    StepKeeps(env, parents, Fork(parent, |seeds|, seeds));
  }

  /** `child` is the `i`-th fork of a parent restored from the snapshot. */
  ghost predicate ForkedFrom<S(!new)>(env: Env<S>, b: Observed<S>, snapshot: SnapshotRef, seeds: seq<Seed>, i: nat,
                                      forked: Observed<S>, child: Lease)
    requires HasRoom(b.worker, 1) && snapshot in b.worker.snapshots && |seeds| <= U32_MAX
  {
    var (parents, parent) := Restoring(env, b, snapshot, None);
    var (after, reply) := Apply(env, parents.worker, Fork(parent, |seeds|, seeds));
    && HasRoom(parents.worker, |seeds|) && forked == Next(env, parents, Fork(parent, |seeds|, seeds))
    && reply.Forked? && i < |reply.children| == |seeds| && child == reply.children[i]
  }

  /** A job seals the same snapshot on a restored slot as on a forked one, whatever else the two workers do. */
  lemma {:induction false} JobSealsTheSame<S(!new)>(env: Env<S>, a: Observed<S>, b: Observed<S>, snapshot: SnapshotRef,
                                                    entropy: Option<Seed>, seeds: seq<Seed>, i: nat,
                                                    restored: Observed<S>, lease: Lease, onLease: seq<Call>,
                                                    forked: Observed<S>, child: Lease, onChild: seq<Call>)
    requires Sound(a) && a.worker.nextId < U64_MAX && HasRoom(a.worker, 1) && snapshot in a.worker.snapshots
    requires Sound(b) && b.worker.nextId + 1 + |seeds| <= U64_MAX && HasRoom(b.worker, 1)
    requires snapshot in b.worker.snapshots && a.worker.snapshots[snapshot] == b.worker.snapshots[snapshot]
    requires i < |seeds| <= U32_MAX
    requires (restored, lease) == Restoring(env, a, snapshot, entropy)
    requires ForkedFrom(env, b, snapshot, seeds, i, forked, child)
    requires restored.worker.nextId + TotalDemand(onLease) <= U64_MAX && AllSpare(onLease, lease)
    requires forked.worker.nextId + TotalDemand(onChild) <= U64_MAX && AllSpare(onChild, child)
    requires OpsOf(onLease, lease) == OpsOf(onChild, child)
    ensures var one := DoSnapshot(env, RunCalls(env, restored, onLease).worker, lease, None);
            var two := DoSnapshot(env, RunCalls(env, forked, onChild).worker, child, None);
            && one.1.Sealed? && one.1 == two.1
            && one.1.snapshot in one.0.snapshots && one.1.snapshot in two.0.snapshots
            && one.0.snapshots[one.1.snapshot] == two.0.snapshots[one.1.snapshot]
  {
    ForkedLikeRestored(env, a, b, snapshot, entropy, seeds, i);
    SameCapture(env, restored, lease, onLease, forked, child, onChild);
  }

  /** The operations of a job: inject its events, then run its frames. */
  function JobOps(events: seq<ScheduledEvent>, frames: u32, cap: Option<u64>): seq<MachineOp> {
    [Feed(events), Go(FrameBudget(frames), cap)]
  }

  lemma {:induction false} JobReplays<S>(env: Env<S>, m: Machine<S>, events: seq<ScheduledEvent>, frames: u32,
                                         cap: Option<u64>)
    ensures Replayed(env, m, JobOps(events, frames, cap))
         == RunMachine(env, Injected(m, events).0, FrameBudget(frames), cap).0
  {
    var ops := JobOps(events, frames, cap);
    ReplayOneMore(env, m, [], ops[0]);
    ReplayOneMore(env, m, [ops[0]], ops[1]);
    assert ops == [ops[0]] + [ops[1]] && [] + [ops[0]] == [ops[0]];
  }

  /** A burst job without a cap leaves the machine `PlayBurst` describes. */
  lemma {:induction false} BurstJobPlays<S(!new)>(env: Env<S>, m: Machine<S>, segments: seq<Segment>)
    requires TotalHold(segments) > 0 && Fits(m, segments) && m.pending == []
    ensures Replayed(env, m, JobOps(BurstSchedule(segments, m.frame), TotalHold(segments), None))
         == PlayBurst(env.step, m, segments).0
  {
    BurstIsInjected(m, segments);
    JobReplays(env, m, BurstSchedule(segments, m.frame), TotalHold(segments), None);
  }
}
