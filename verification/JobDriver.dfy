/** Driving one pad-burst job on a leased slot (crates/orch-sched/src/driver.rs). */
module JobDriver {
  import opened Base
  import opened SlotTable
  import Playback
  import opened WorkerTable
  import opened WorkerJobs
  import opened Hypervisor

  /** A paused slot without children can be destroyed by its lease, and stays so while it only computes. */
  predicate Disposable<S>(w: Worker<S>, lease: Lease) {
    Holds(w, lease) && Children(w.slots, lease.id) == {}
  }

  lemma {:induction false} StaysDisposable<S(!new)>(w: Worker<S>, after: Worker<S>, lease: Lease,
                                                    machine: Playback.Machine<S>)
    requires Disposable(w, lease)
    requires after.slots == w.slots[lease.id := w.slots[lease.id].(machine := machine)]
    ensures Disposable(after, lease)
  {
    assert Children(after.slots, lease.id) == Children(w.slots, lease.id);
  }

  method Inject<S(!new)>(h: FakeHypervisor<S>, lease: Lease, inputs: seq<Playback.ScheduledEvent>)
    returns (failure: Option<Playback.Failure>)
    requires Disposable(h.View(), lease)
    modifies h`slots
    ensures Disposable(h.View(), lease) && h.slots[lease.id].config == old(h.slots[lease.id].config)
    ensures h.slots.Keys == old(h.slots.Keys)
    ensures failure.None? ==> |inputs| <= U32_MAX
    ensures failure.None? ==> h.slots[lease.id].machine == Playback.Injected(old(h.slots[lease.id].machine), inputs).0
  {
    ghost var machine := Playback.Injected(h.slots[lease.id].machine, inputs).0;
    var reply := h.InjectInputs(lease, inputs);
    assert Disposable(h.View(), lease) by {
      if |inputs| <= U32_MAX { StaysDisposable(old(h.View()), h.View(), lease, machine); }
    }
    failure := if reply.Failed? then Some(reply.failure) else None;
  }

  method RunFor<S(!new)>(h: FakeHypervisor<S>, lease: Lease, frames: u32, cap: Option<u64>)
    returns (r: Result<Playback.StopReason, Playback.Failure>)
    requires Disposable(h.View(), lease)
    modifies h`slots, h`watchEvents
    ensures Disposable(h.View(), lease) && h.slots[lease.id].config == old(h.slots[lease.id].config)
    ensures h.slots.Keys == old(h.slots.Keys)
    ensures h.slots[lease.id].machine == RunMachine(h.env, old(h.slots[lease.id].machine), FrameBudget(frames), cap).0
    ensures r.Ok? ==> r.value == Playback.FramesWithin(old(h.slots[lease.id].machine.icount), frames, cap).1
  {
    var reply := h.Run(lease, FrameBudget(frames), cap, None);
    StaysDisposable(old(h.View()), h.View(), lease,
                    RunMachine(h.env, old(h.slots[lease.id].machine), FrameBudget(frames), cap).0);
    r := if reply.Stopped? then Ok(reply.reason) else Err(if reply.Failed? then reply.failure else Playback.Internal);
  }

  method Dispose<S(!new)>(h: FakeHypervisor<S>, lease: Lease)
    requires Disposable(h.View(), lease)
    modifies h`slots, h`watchEvents
    ensures h.slots.Keys == old(h.slots.Keys) - {lease.id}
  {
    var _ := h.DestroyVm(lease);
  }

  /** Inject and run. */
  method Play<S(!new)>(h: FakeHypervisor<S>, lease: Lease, events: seq<Playback.ScheduledEvent>, frames: u32,
                       cap: Option<u64>)
    returns (r: Result<Playback.StopReason, Playback.Failure>)
    requires Disposable(h.View(), lease)
    modifies h`slots, h`watchEvents
    ensures Disposable(h.View(), lease) && h.slots.Keys == old(h.slots.Keys)
    ensures r.Ok? ==>
              && h.slots[lease.id].config == old(h.slots[lease.id].config)
              && h.slots[lease.id].machine
                 == Replayed(h.env, old(h.slots[lease.id].machine), JobOps(events, frames, cap))
              && (r.value.HardCap? || r.value.BudgetReached?)
  {
    JobReplays(h.env, h.slots[lease.id].machine, events, frames, cap);
    var failure := Inject(h, lease, events);
    if failure.Some? { return Err(failure.value); }
    r := RunFor(h, lease, frames, cap);
  }

  method Seal<S(!new)>(h: FakeHypervisor<S>, lease: Lease) returns (snapshot: SnapshotRef)
    requires Disposable(h.View(), lease)
    modifies h`snapshots
    ensures var record := Record(h.slots[lease.id].config, h.slots[lease.id].machine);
            && snapshot == h.env.seal(record) && snapshot in h.snapshots && h.snapshots[snapshot] == record
  {
    var reply := h.TakeSnapshot(lease, None);
    snapshot := reply.snapshot;
  }

  /**
    Inject, run, seal, destroy. The slot is given back whatever happens, and a
    job that succeeds has sealed the burst's replay on the machine it was given.
   */
  method DriveLeasedJob<S(!new)>(h: FakeHypervisor<S>, lease: Lease, segments: seq<Playback.Segment>, parentFrame: u32,
                                 cap: Option<u64>)
    returns (r: Result<(SnapshotRef, Playback.StopReason), Playback.Failure>)
    requires Disposable(h.View(), lease)
    modifies h
    ensures h.slots.Keys == old(h.slots.Keys) - {lease.id}
    ensures r.Ok? ==>
              var slot := old(h.slots[lease.id]);
              var ops := JobOps(Playback.BurstSchedule(segments, parentFrame),
                                Min(Playback.TotalHold(segments), U32_MAX), cap);
              var record := Record(slot.config, Replayed(h.env, slot.machine, ops));
              && Playback.TotalHold(segments) > 0
              && r.value.0 == h.env.seal(record) && r.value.0 in h.snapshots && h.snapshots[r.value.0] == record
              && (r.value.1.HardCap? || r.value.1.BudgetReached?)
  {
    var burst := Playback.BurstEvents(segments, parentFrame);
    if burst.Err? {
      Dispose(h, lease);
      return Err(burst.error);
    }
    var (events, frames) := burst.value;
    var run := Play(h, lease, events, frames, cap);
    if run.Err? {
      Dispose(h, lease);
      return Err(run.error);
    }
    var snapshot := Seal(h, lease);
    Dispose(h, lease);
    return Ok((snapshot, run.value));
  }
}
