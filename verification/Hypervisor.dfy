/** The fake hypervisor itself, updating its table in place (crates/orch-fakes/src/hypervisor.rs). */
module Hypervisor {
  import opened Base
  import opened SlotTable
  import Playback
  import opened WorkerTable
  import opened WorkerForest

  /** Ids in the order a `BTreeMap` visits them. */
  method ListAscending(ids: set<SlotId>) returns (r: seq<SlotId>)
    ensures r == Ascending(ids)
  {
    r := [];
    var rest := ids;
    while rest != {}
      invariant rest <= ids && StrictlyAscending(r) && forall x :: x in r <==> x in ids - rest
    {
      var x :| x in rest;
      r := InsertSorted(r, x);
      rest := rest - {x};
    }
    SortedListing(r, ids);
  }

  function Without<S>(slots: Slots<S>, ids: seq<SlotId>): Slots<S> {
    if ids == [] then slots else Without(slots, ids[..|ids| - 1]) - {ids[|ids| - 1]}
  }

  lemma {:induction false} WithoutKeeps<S>(slots: Slots<S>, ids: seq<SlotId>)
    ensures var rest := Without(slots, ids);
            && (forall x :: x in rest <==> x in slots && x !in ids)
            && (forall x :: x in rest ==> rest[x] == slots[x])
  {
    if ids == [] {
    } else {
      WithoutKeeps(slots, ids[..|ids| - 1]);
      assert ids == ids[..|ids| - 1] + [ids[|ids| - 1]];
    }
  }

  lemma {:induction false} PassShrinks<S(!new)>(slots: Slots<S>, bound: nat)
    requires Acyclic(slots) && Below(slots, bound) && slots != map[]
    ensures var rest := slots - Leaves(slots);
            && Acyclic(rest) && Below(rest, bound) && |rest| < |slots|
            && Reclaimed(slots) == EmptiedAll(slots, Ascending(Leaves(slots))) + Reclaimed(rest)
  {
    var id :| id in slots;
    LeafExists(slots, id, bound);
    LeavesGone(slots);
    RemovingShrinks(slots, Leaves(slots));
    ReclaimedUnfolds(slots);
  }

  lemma {:induction false} Regroup<T>(a: seq<T>, b: seq<T>, c: seq<T>)
    ensures (a + b) + c == a + (b + c)
  {
  }

  class FakeHypervisor<S(!new)> {
    const env: Env<S>
    var slotsTotal: u32
    var nextSlotId: u64
    var slots: Slots<S>
    var snapshots: map<SnapshotRef, Record<S>>
    var watchEvents: seq<SlotInfo>
    var watchCursor: nat

    function View(): Worker<S>
      reads this
    {
      Worker(slotsTotal, nextSlotId, slots, snapshots, watchEvents, watchCursor)
    }

    constructor (env: Env<S>, slotsTotal: u32)
      ensures View() == Fresh(slotsTotal) && this.env == env
    {
      this.env, this.slotsTotal, nextSlotId := env, slotsTotal, 1;
      slots, snapshots, watchEvents, watchCursor := map[], map[], [], 0;
    }

    method PushSlotEvent(id: SlotId)
      modifies `watchEvents
      ensures watchEvents == old(watchEvents) + Published(slots, [id])
    {
      PublishedOne(slots, id);
      if id in slots { watchEvents := watchEvents + [Info(slots, id)]; }
    }

    method EnsureCapacity(needed: u32) returns (failure: Option<Playback.Failure>)
      ensures failure == if HasRoom(View(), needed) then None else Some(RoomFailure(View()))
    {
      if |slots| > U32_MAX { return Some(Playback.Internal); }
      return if Max(slotsTotal - |slots|, 0) < needed then Some(Playback.ResourceExhausted) else None;
    }

    method AllocateLease(config: Config, seed: Seed) returns (lease: Lease)
      modifies `nextSlotId
      ensures lease == Lease(old(nextSlotId), env.mint(old(nextSlotId), config, seed))
      ensures nextSlotId == Bumped(old(nextSlotId))
    {
      lease := Lease(nextSlotId, env.mint(nextSlotId, config, seed));
      nextSlotId := Min(nextSlotId + 1, U64_MAX);
    }

    method AddRoot(config: Config, seed: Seed, machine: Playback.Machine<S>, base: Option<SnapshotRef>)
      returns (lease: Lease)
      modifies `nextSlotId, `slots, `watchEvents
      ensures View() == Allocated(env, old(View()), config, seed, machine, base)
      ensures lease == LeaseOf(View(), old(nextSlotId))
    {
      lease := AllocateLease(config, seed);
      slots := slots[lease.id := Slot(lease.token, config, machine, base, None, Paused)];
      PushSlotEvent(lease.id);
      PublishedOne(slots, lease.id);
    }

    method CreateVm(config: Config, seed: Seed) returns (reply: Reply)
      modifies `nextSlotId, `slots, `watchEvents
      ensures (View(), reply) == DoCreate(env, old(View()), config, seed)
    {
      var failure := EnsureCapacity(1);
      if failure.Some? { return Failed(failure.value); }
      var lease := AddRoot(config, seed, Booted(env), None);
      return Leased(lease);
    }

    method RestoreSnapshot(snapshot: SnapshotRef, entropy: Option<Seed>) returns (reply: Reply)
      modifies `nextSlotId, `slots, `watchEvents
      ensures (View(), reply) == DoRestore(env, old(View()), snapshot, entropy)
    {
      var failure := EnsureCapacity(1);
      if failure.Some? { return Failed(failure.value); }
      if snapshot !in snapshots { return Failed(Playback.NotFound); }
      var record := snapshots[snapshot];
      var lease := AddRoot(record.config, if entropy.Some? then entropy.value else 0, record.machine, Some(snapshot));
      return Leased(lease);
    }

    method SpawnChildren(parentId: SlotId, seeds: seq<Seed>) returns (leases: seq<Lease>)
      requires parentId in slots
      modifies `nextSlotId, `slots
      ensures Brood(slots, nextSlotId, leases) == Spawned(env, old(View()), parentId, seeds)
    {
      var parent := slots[parentId];
      leases := [];
      for k := 0 to |seeds|
        invariant Brood(slots, nextSlotId, leases) == Spawned(env, old(View()), parentId, seeds[..k])
      {
        assert seeds[..k + 1][..k] == seeds[..k];
        var lease := AllocateLease(parent.config, seeds[k]);
        slots := slots[lease.id := ChildOf(env, parent, parentId, lease.id, seeds[k])];
        leases := leases + [lease];
      }
      assert seeds[..|seeds|] == seeds;
    }

    method PublishAll(leases: seq<Lease>)
      modifies `watchEvents
      ensures watchEvents == old(watchEvents) + Published(slots, Ids(leases))
    {
      for k := 0 to |leases|
        invariant watchEvents == old(watchEvents) + Published(slots, Ids(leases[..k]))
      {
        assert leases[..k + 1][..k] == leases[..k];
        var ids := Ids(leases[..k]);
        assert (ids + [leases[k].id])[..|ids|] == ids && [leases[k].id][..0] == [];
        PushSlotEvent(leases[k].id);
      }
      assert leases[..|leases|] == leases;
    }

    method ForkChildren(parentId: SlotId, seeds: seq<Seed>) returns (leases: seq<Lease>)
      requires parentId in slots && parentId in Spawned(env, View(), parentId, seeds).slots
      modifies `nextSlotId, `slots, `watchEvents
      ensures View() == WithBrood(old(View()), parentId, Spawned(env, old(View()), parentId, seeds))
      ensures leases == Spawned(env, old(View()), parentId, seeds).leases
    {
      leases := SpawnChildren(parentId, seeds);
      slots := slots[parentId := slots[parentId].(kind := Frozen)];
      PushSlotEvent(parentId);
      PublishAll(leases);
    }

    method Fork(parent: Lease, count: u32, seeds: seq<Seed>) returns (reply: Reply)
      modifies `nextSlotId, `slots, `watchEvents
      ensures (View(), reply) == DoFork(env, old(View()), parent, count, seeds)
    {
      if count == 0 || |seeds| != count { return Failed(Playback.InvalidRequest); }
      var failure := EnsureCapacity(count);
      if failure.Some? { return Failed(failure.value); }
      failure := PausedFailure(View(), parent);
      if failure.Some? { return Failed(failure.value); }
      SpawnedKeepsParent(env, View(), parent.id, seeds);
      var leases := ForkChildren(parent.id, seeds);
      return Forked(leases);
    }

    method InjectInputs(lease: Lease, inputs: seq<Playback.ScheduledEvent>) returns (reply: Reply)
      modifies `slots
      ensures (View(), reply) == DoInject(old(View()), lease, inputs)
    {
      if |inputs| > U32_MAX { return Failed(Playback.InvalidRequest); }
      var failure := PausedFailure(View(), lease);
      if failure.Some? { return Failed(failure.value); }
      var machine, r := Playback.InjectInputs(slots[lease.id].machine, inputs);
      slots := slots[lease.id := slots[lease.id].(machine := machine)];
      return if r.Ok? then Scheduled(r.value) else Failed(r.error);
    }

    method RunSlot(machine: Playback.Machine<S>, until: RunUntil, cap: Option<u64>)
      returns (after: Playback.Machine<S>, r: Result<(Playback.StopReason, u32), Playback.Failure>)
      ensures (after, r) == RunMachine(env, machine, until, cap)
    {
      match until
      case UntilSdkEvent => return machine, Ok((Playback.NextSdkEvent, 0));
      case FrameBudget(frames) =>
        var m, reply := Playback.AdvanceFrames(env.step, machine, frames, cap);
        return m, if reply.Ok? then Ok((reply.value.1, reply.value.0)) else Err(reply.error);
      case IcountBudget(budget) =>
        var (m, reply) := AdvancedIcount(machine, budget, cap);
        return m, if reply.Ok? then Ok((reply.value, 0)) else Err(reply.error);
      case VnsBudget(budget) =>
        if machine.vns + budget > U64_MAX { return machine, Err(Playback.Internal); }
        return machine.(vns := machine.vns + budget), Ok((Playback.BudgetReached, 0));
      case Goal =>
        if env.goal(machine.state) { return machine, Ok((Playback.GoalSatisfied, 0)); }
        var m, reply := Playback.AdvanceFrames(env.step, machine, 1, cap);
        if reply.Err? { return m, Err(reply.error); }
        return m, Ok((if env.goal(m.state) then Playback.GoalSatisfied else reply.value.1, reply.value.0));
    }

    method Run(lease: Lease, until: RunUntil, cap: Option<u64>, captureFault: Option<Playback.Failure>)
      returns (reply: Reply)
      modifies `slots, `watchEvents
      ensures (View(), reply) == DoRun(env, old(View()), lease, until, cap, captureFault)
    {
      if captureFault.Some? { return Failed(captureFault.value); }
      var failure := PausedFailure(View(), lease);
      if failure.Some? { return Failed(failure.value); }
      ghost var before := slots;
      slots := slots[lease.id := slots[lease.id].(kind := Running)];
      PublishedOne(slots, lease.id);
      PushSlotEvent(lease.id);
      var machine, r := RunSlot(slots[lease.id].machine, until, cap);
      slots := slots[lease.id := slots[lease.id].(machine := machine, kind := Paused)];
      assert slots == before[lease.id := before[lease.id].(machine := machine)];
      PublishedOne(slots, lease.id);
      PushSlotEvent(lease.id);
      assert watchEvents == old(watchEvents) +
        [Info(before[lease.id := before[lease.id].(kind := Running)], lease.id), Info(slots, lease.id)];
      return if r.Ok? then Stopped(r.value.0, r.value.1) else Failed(r.error);
    }

    method TakeSnapshot(lease: Lease, captureFault: Option<Playback.Failure>) returns (reply: Reply)
      modifies `snapshots
      ensures (View(), reply) == DoSnapshot(env, old(View()), lease, captureFault)
    {
      var failure := PausedFailure(View(), lease);
      if failure.Some? { return Failed(failure.value); }
      if captureFault.Some? { return Failed(captureFault.value); }
      var record := Record(slots[lease.id].config, slots[lease.id].machine);
      snapshots := snapshots[env.seal(record) := record];
      return Sealed(env.seal(record));
    }

    method MaybeUnfreezeParent(parentId: SlotId)
      modifies `slots, `watchEvents
      ensures View() == Thawed(old(View()), Some(parentId))
    {
      PublishedOne(slots, parentId);
      if Children(slots, parentId) == {} {
        if parentId in slots && slots[parentId].kind == Frozen {
          slots := slots[parentId := slots[parentId].(kind := Paused)];
        }
        PublishedOne(slots, parentId);
        PushSlotEvent(parentId);
        assert parentId in slots ==> slots[parentId := slots[parentId]] == slots;
      }
    }

    method DestroyVm(lease: Lease) returns (reply: Reply)
      modifies `slots, `watchEvents
      ensures (View(), reply) == DoDestroy(old(View()), lease)
    {
      var failure := LeaseFailure(View(), lease);
      if failure.Some? { return Failed(failure.value); }
      var slot := slots[lease.id];
      if slot.kind == Running || Children(slots, lease.id) != {} { return Failed(Playback.FailedPrecondition); }
      watchEvents := watchEvents + [Emptied(slots, lease.id)];
      slots := slots - {lease.id};
      if slot.parent.Some? { MaybeUnfreezeParent(slot.parent.value); }
      return Done;
    }

    /** Removes the slots in order, reporting each as empty. */
    method RemoveAll(ids: seq<SlotId>)
      requires StrictlyAscending(ids) && forall i :: 0 <= i < |ids| ==> ids[i] in slots
      modifies `slots, `watchEvents
      ensures slots == Without(old(slots), ids)
      ensures watchEvents == old(watchEvents) + EmptiedAll(old(slots), ids)
    {
      for k := 0 to |ids|
        invariant slots == Without(old(slots), ids[..k])
        invariant watchEvents == old(watchEvents) + EmptiedAll(old(slots), ids[..k])
      {
        assert ids[..k + 1][..k] == ids[..k];
        WithoutKeeps(old(slots), ids[..k]);
        watchEvents := watchEvents + [Emptied(slots, ids[k])];
        slots := slots - {ids[k]};
      }
      assert ids[..|ids|] == ids;
    }

    /** One pass: every leaf of the table, in ascending order. */
    method ReclaimLeaves()
      modifies `slots, `watchEvents
      ensures slots == old(slots) - Leaves(old(slots))
      ensures watchEvents == old(watchEvents) + EmptiedAll(old(slots), Ascending(Leaves(old(slots))))
    {
      var leaves := ListAscending(Leaves(slots));
      WithoutKeeps(slots, leaves);
      RemoveAll(leaves);
      assert slots == old(slots) - Leaves(old(slots));
    }

    /** Child-first passes until nothing is leased; the forest is what makes it end. */
    method ReclaimSession()
      requires Acyclic(slots) && Below(slots, nextSlotId)
      modifies `slots, `watchEvents
      ensures slots == map[] && watchEvents == old(watchEvents) + Reclaimed(old(slots))
    {
      while slots != map[]
        invariant Acyclic(slots) && Below(slots, nextSlotId)
        invariant watchEvents + Reclaimed(slots) == old(watchEvents) + Reclaimed(old(slots))
        decreases |slots|
      {
        PassShrinks(slots, nextSlotId);
        ghost var events, pass := watchEvents, EmptiedAll(slots, Ascending(Leaves(slots)));
        ghost var rest := slots - Leaves(slots);
        Regroup(events, pass, Reclaimed(rest));
        ReclaimLeaves();
        assert slots == rest;
        assert watchEvents == events + pass;
      }
      ReclaimedUnfolds(slots);
    }

    method SetSlotsTotal(total: u32)
      modifies `slotsTotal
      ensures View() == old(View()).(total := total)
    {
      slotsTotal := total;
    }

    method WatchSlots(keep: nat) returns (reply: Reply)
      modifies `watchCursor
      ensures (View(), reply) == DoWatch(old(View()), keep)
    {
      var start := Min(watchCursor, |watchEvents|);
      var end := start + Min(keep, |watchEvents| - start);
      watchCursor := end;
      return Watched(watchEvents[start..end]);
    }

    method CompactConsumedWatchEvents() returns (consumed: nat)
      modifies `watchEvents, `watchCursor
      ensures View() == Compacted(old(View())) && consumed == Min(old(watchCursor), |old(watchEvents)|)
    {
      consumed := Min(watchCursor, |watchEvents|);
      if consumed > 0 { watchEvents, watchCursor := watchEvents[consumed..], 0; }
    }
  }
}
