/**
  The worker's slot table: leases, forks, the freeze/unfreeze forest and the
  slot-watch log (crates/orch-fakes/src/hypervisor.rs), with injected faults
  off. Truncated watch batches remain: each watch names how many events it keeps.
 */
module WorkerTable {
  import opened Base
  import opened SlotTable
  import opened Playback

  type Token = nat
  type Seed = nat
  type Config = nat
  type SnapshotRef = nat

  datatype Lease = Lease(id: SlotId, token: Token)

  datatype Slot<S> = Slot(token: Token, config: Config, machine: Machine<S>, base: Option<SnapshotRef>,
                          parent: Option<SlotId>, kind: SlotState)

  datatype Record<S> = Record(config: Config, machine: Machine<S>)

  datatype SlotInfo = SlotInfo(id: SlotId, state: SlotState, icount: u64, base: Option<SnapshotRef>, liveChildren: u32)

  type Slots<S> = map<SlotId, Slot<S>>

  datatype Worker<S> = Worker(total: u32, nextId: u64, slots: Slots<S>, snapshots: map<SnapshotRef, Record<S>>,
                              events: seq<SlotInfo>, cursor: nat)

  /** The guest and the hashes, all arbitrary. */
  datatype Env<!S> = Env(step: Step<S>, initial: S, goal: S -> bool, mint: (SlotId, Config, Seed) -> Token,
                         seal: Record<S> -> SnapshotRef)

  datatype RunUntil = UntilSdkEvent | FrameBudget(frames: u32) | IcountBudget(icount: u64) | VnsBudget(vns: u64) | Goal

  datatype Call =
    | CreateVm(config: Config, seed: Seed)
    | RestoreSnapshot(snapshot: SnapshotRef, entropy: Option<Seed>)
    | Fork(parent: Lease, count: u32, seeds: seq<Seed>)
    | InjectInputs(lease: Lease, inputs: seq<ScheduledEvent>)
    | Run(lease: Lease, until: RunUntil, cap: Option<u64>, captureFault: Option<Failure>)
    | TakeSnapshot(lease: Lease, captureFault: Option<Failure>)
    | DestroyVm(lease: Lease)
    | ReclaimSession
    | SetSlotsTotal(total: u32)
    | WatchSlots(keep: nat)
    | CompactWatch

  datatype Reply =
    | Leased(lease: Lease)
    | Forked(children: seq<Lease>)
    | Scheduled(count: u32)
    | Stopped(reason: StopReason, frames: u32)
    | Sealed(snapshot: SnapshotRef)
    | Watched(events: seq<SlotInfo>)
    | Done
    | Failed(failure: Failure)

  function Fresh<S>(total: u32): Worker<S> { Worker(total, 1, map[], map[], [], 0) }

  // ------------------------------------------------------------------
  // Reading the table
  // ------------------------------------------------------------------

  function Children<S>(slots: Slots<S>, id: SlotId): set<SlotId> {
    set c | c in slots && slots[c].parent == Some(id)
  }

  function Info<S>(slots: Slots<S>, id: SlotId): SlotInfo
    requires id in slots
  {
    SlotInfo(id, slots[id].kind, slots[id].machine.icount, slots[id].base, Min(|Children(slots, id)|, U32_MAX))
  }

  function Emptied<S>(slots: Slots<S>, id: SlotId): SlotInfo
    requires id in slots
  {
    SlotInfo(id, Empty, slots[id].machine.icount, slots[id].base, 0)
  }

  /** One event per id, in order; ids no longer in the table say nothing. */
  function Published<S>(slots: Slots<S>, ids: seq<SlotId>): seq<SlotInfo> {
    if ids == [] then []
    else
      var id := ids[|ids| - 1];
      Published(slots, ids[..|ids| - 1]) + if id in slots then [Info(slots, id)] else []
  }

  predicate HasRoom<S>(w: Worker<S>, needed: u32) {
    |w.slots| <= U32_MAX && Max(w.total - |w.slots|, 0) >= needed
  }

  function RoomFailure<S>(w: Worker<S>): Failure {
    if |w.slots| > U32_MAX then Internal else ResourceExhausted
  }

  function LeaseFailure<S>(w: Worker<S>, lease: Lease): Option<Failure> {
    if lease.id !in w.slots then Some(NotFound)
    else if w.slots[lease.id].token != lease.token then Some(FailedPrecondition)
    else None
  }

  /** Fork, inject, run and snapshot need a paused slot. */
  function PausedFailure<S>(w: Worker<S>, lease: Lease): (r: Option<Failure>)
    ensures r.None? <==> LeaseFailure(w, lease).None? && w.slots[lease.id].kind == Paused
  {
    if LeaseFailure(w, lease).Some? then LeaseFailure(w, lease)
    else if w.slots[lease.id].kind != Paused then Some(FailedPrecondition)
    else None
  }

  // ------------------------------------------------------------------
  // Operations
  // ------------------------------------------------------------------

  function Bumped(nextId: u64): u64 { Min(nextId + 1, U64_MAX) }

  /** Gives the next id to a root slot. */
  function Allocated<S>(env: Env<S>, w: Worker<S>, config: Config, seed: Seed, machine: Machine<S>,
                        base: Option<SnapshotRef>): Worker<S> {
    var slots := w.slots[w.nextId := Slot(env.mint(w.nextId, config, seed), config, machine, base, None, Paused)];
    w.(slots := slots, nextId := Bumped(w.nextId), events := w.events + [Info(slots, w.nextId)])
  }

  function LeaseOf<S>(w: Worker<S>, id: SlotId): Lease
    requires id in w.slots
  {
    Lease(id, w.slots[id].token)
  }

  function Booted<S>(env: Env<S>): Machine<S> { Machine(env.initial, 0, 0, 0, [], [], 0) }

  function DoCreate<S>(env: Env<S>, w: Worker<S>, config: Config, seed: Seed): (Worker<S>, Reply) {
    if !HasRoom(w, 1) then (w, Failed(RoomFailure(w)))
    else
      var after := Allocated(env, w, config, seed, Booted(env), None);
      (after, Leased(LeaseOf(after, w.nextId)))
  }

  function DoRestore<S>(env: Env<S>, w: Worker<S>, snapshot: SnapshotRef, entropy: Option<Seed>): (Worker<S>, Reply) {
    if !HasRoom(w, 1) then (w, Failed(RoomFailure(w)))
    else if snapshot !in w.snapshots then (w, Failed(NotFound))
    else
      var record := w.snapshots[snapshot];
      var seed := if entropy.Some? then entropy.value else 0;
      var after := Allocated(env, w, record.config, seed, record.machine, Some(snapshot));
      (after, Leased(LeaseOf(after, w.nextId)))
  }

  function ChildOf<S>(env: Env<S>, parent: Slot<S>, parentId: SlotId, id: SlotId, seed: Seed): Slot<S> {
    parent.(token := env.mint(id, parent.config, seed), parent := Some(parentId), kind := Paused)
  }

  /** The table, the next id and the leases once every seed has its child. */
  datatype Brood<S> = Brood(slots: Slots<S>, nextId: u64, leases: seq<Lease>)

  function Spawned<S>(env: Env<S>, w: Worker<S>, parentId: SlotId, seeds: seq<Seed>): Brood<S>
    requires parentId in w.slots
  {
    if seeds == [] then Brood(w.slots, w.nextId, [])
    else
      var b := Spawned(env, w, parentId, seeds[..|seeds| - 1]);
      var child := ChildOf(env, w.slots[parentId], parentId, b.nextId, seeds[|seeds| - 1]);
      Brood(b.slots[b.nextId := child], Bumped(b.nextId), b.leases + [Lease(b.nextId, child.token)])
  }

  function Ids(leases: seq<Lease>): seq<SlotId> {
    if leases == [] then [] else Ids(leases[..|leases| - 1]) + [leases[|leases| - 1].id]
  }

  lemma {:induction false} SpawnedKeepsParent<S>(env: Env<S>, w: Worker<S>, parentId: SlotId, seeds: seq<Seed>)
    requires parentId in w.slots
    ensures parentId in Spawned(env, w, parentId, seeds).slots
  {
    if seeds == [] {
    } else {
      SpawnedKeepsParent(env, w, parentId, seeds[..|seeds| - 1]);
    }
  }

  /** The children join the table and the parent freezes; the parent's event comes first. */
  function WithBrood<S>(w: Worker<S>, parentId: SlotId, b: Brood<S>): Worker<S>
    requires parentId in b.slots
  {
    var slots := b.slots[parentId := b.slots[parentId].(kind := Frozen)];
    w.(slots := slots, nextId := b.nextId,
       events := w.events + Published(slots, [parentId]) + Published(slots, Ids(b.leases)))
  }

  function DoFork<S>(env: Env<S>, w: Worker<S>, lease: Lease, count: u32, seeds: seq<Seed>): (Worker<S>, Reply) {
    if count == 0 || |seeds| != count then (w, Failed(InvalidRequest))
    else if !HasRoom(w, count) then (w, Failed(RoomFailure(w)))
    else
      match PausedFailure(w, lease)
      case Some(f) => (w, Failed(f))
      case None =>
        var b := Spawned(env, w, lease.id, seeds);
        SpawnedKeepsParent(env, w, lease.id, seeds);
        (WithBrood(w, lease.id, b), Forked(b.leases))
  }

  function DoInject<S>(w: Worker<S>, lease: Lease, inputs: seq<ScheduledEvent>): (Worker<S>, Reply) {
    if |inputs| > U32_MAX then (w, Failed(InvalidRequest))
    else
      match PausedFailure(w, lease)
      case Some(f) => (w, Failed(f))
      case None =>
        var (machine, r) := Injected(w.slots[lease.id].machine, inputs);
        (w.(slots := w.slots[lease.id := w.slots[lease.id].(machine := machine)]),
         if r.Ok? then Scheduled(r.value) else Failed(r.error))
  }

  /** Moves the instruction clock, bounded by the cap, and the virtual clock with it. */
  function AdvancedIcount<S>(m: Machine<S>, budget: u64, cap: Option<u64>): (Machine<S>, Result<StopReason, Failure>) {
    var capped := cap.Some? && (cap.value <= m.icount || budget > cap.value - m.icount);
    var amount := if !capped then budget else Max(cap.value - m.icount, 0);
    if m.icount + amount > U64_MAX then (m, Err(Internal))
    else
      var q := m.(icount := m.icount + amount);
      if m.vns + amount > U64_MAX then (q, Err(Internal))
      else (q.(vns := m.vns + amount), Ok(if capped then HardCap else BudgetReached))
  }

  function AdvancedFrames<S>(env: Env<S>, m: Machine<S>, frames: u32, cap: Option<u64>)
    : (Machine<S>, Result<(StopReason, u32), Failure>)
  {
    var (within, reason) := FramesWithin(m.icount, frames, cap);
    var (after, r) := AdvancedBy(env.step, m, within);
    (after, if r.Ok? then Ok((reason, within)) else Err(r.error))
  }

  function RunMachine<S>(env: Env<S>, m: Machine<S>, until: RunUntil, cap: Option<u64>)
    : (Machine<S>, Result<(StopReason, u32), Failure>)
  {
    match until
    case UntilSdkEvent => (m, Ok((NextSdkEvent, 0)))
    case FrameBudget(frames) => AdvancedFrames(env, m, frames, cap)
    case IcountBudget(budget) =>
      var (after, r) := AdvancedIcount(m, budget, cap);
      (after, if r.Ok? then Ok((r.value, 0)) else Err(r.error))
    case VnsBudget(budget) =>
      if m.vns + budget > U64_MAX then (m, Err(Internal))
      else (m.(vns := m.vns + budget), Ok((BudgetReached, 0)))
    case Goal =>
      if env.goal(m.state) then (m, Ok((GoalSatisfied, 0)))
      else
        var (after, r) := AdvancedFrames(env, m, 1, cap);
        (after, if r.Ok? && env.goal(after.state) then Ok((GoalSatisfied, r.value.1)) else r)
  }

  /** Running is published, then paused again, whatever the run did. */
  function DoRun<S>(env: Env<S>, w: Worker<S>, lease: Lease, until: RunUntil, cap: Option<u64>,
                    captureFault: Option<Failure>)
    : (Worker<S>, Reply)
  {
    if captureFault.Some? then (w, Failed(captureFault.value))
    else
      match PausedFailure(w, lease)
      case Some(f) => (w, Failed(f))
      case None =>
        var slot := w.slots[lease.id];
        var (machine, r) := RunMachine(env, slot.machine, until, cap);
        var running := w.slots[lease.id := slot.(kind := Running)];
        var slots := w.slots[lease.id := slot.(machine := machine)];
        (w.(slots := slots, events := w.events + [Info(running, lease.id), Info(slots, lease.id)]),
         if r.Ok? then Stopped(r.value.0, r.value.1) else Failed(r.error))
  }

  function DoSnapshot<S>(env: Env<S>, w: Worker<S>, lease: Lease, captureFault: Option<Failure>): (Worker<S>, Reply) {
    match PausedFailure(w, lease)
    case Some(f) => (w, Failed(f))
    case None =>
      if captureFault.Some? then (w, Failed(captureFault.value))
      else
        var record := Record(w.slots[lease.id].config, w.slots[lease.id].machine);
        (w.(snapshots := w.snapshots[env.seal(record) := record]), Sealed(env.seal(record)))
  }

  /** A parent whose last child is gone thaws and says so. */
  function Thawed<S>(w: Worker<S>, parent: Option<SlotId>): Worker<S> {
    if parent.None? || Children(w.slots, parent.value) != {} || parent.value !in w.slots then w
    else
      var slot := w.slots[parent.value];
      var slots := w.slots[parent.value := if slot.kind == Frozen then slot.(kind := Paused) else slot];
      w.(slots := slots, events := w.events + [Info(slots, parent.value)])
  }

  function Destroyed<S>(w: Worker<S>, id: SlotId): Worker<S>
    requires id in w.slots
  {
    var gone := w.(slots := w.slots - {id}, events := w.events + [Emptied(w.slots, id)]);
    Thawed(gone, w.slots[id].parent)
  }

  function DoDestroy<S>(w: Worker<S>, lease: Lease): (Worker<S>, Reply) {
    match LeaseFailure(w, lease)
    case Some(f) => (w, Failed(f))
    case None =>
      if w.slots[lease.id].kind == Running || Children(w.slots, lease.id) != {} then (w, Failed(FailedPrecondition))
      else (Destroyed(w, lease.id), Done)
  }

  function Leaves<S>(slots: Slots<S>): set<SlotId> {
    set id | id in slots && Children(slots, id) == {}
  }

  function EmptiedAll<S>(slots: Slots<S>, ids: seq<SlotId>): seq<SlotInfo>
    requires forall i :: 0 <= i < |ids| ==> ids[i] in slots
  {
    if ids == [] then []
    else EmptiedAll(slots, ids[..|ids| - 1]) + [Emptied(slots, ids[|ids| - 1])]
  }

  lemma {:induction false} RemovingShrinks<S>(slots: Slots<S>, ids: set<SlotId>)
    requires ids != {} && ids <= slots.Keys
    ensures |slots - ids| < |slots|
  {
    assert (slots - ids).Keys == slots.Keys - ids;
    assert |slots.Keys| == |slots.Keys - ids| + |ids| by { assert slots.Keys == (slots.Keys - ids) + ids; }
    assert |slots - ids| == |(slots - ids).Keys| && |slots| == |slots.Keys|;
  }

  /** Leaf pass by leaf pass, ascending within a pass. */
  ghost function Reclaimed<S>(slots: Slots<S>): seq<SlotInfo>
    decreases |slots|
  {
    var leaves := Leaves(slots);
    if leaves == {} then []
    else
      RemovingShrinks(slots, leaves);
      EmptiedAll(slots, Ascending(leaves)) + Reclaimed(slots - leaves)
  }

  lemma {:induction false} ReclaimedUnfolds<S>(slots: Slots<S>)
    ensures slots == map[] ==> Reclaimed(slots) == []
    ensures var leaves := Leaves(slots);
            leaves != {} ==> Reclaimed(slots) == EmptiedAll(slots, Ascending(leaves)) + Reclaimed(slots - leaves)
  {
    assert slots == map[] ==> Leaves(slots) == {};
  }

  lemma {:induction false} PublishedOne<S>(slots: Slots<S>, id: SlotId)
    ensures Published(slots, [id]) == if id in slots then [Info(slots, id)] else []
  {
    assert [id][..0] == [];
  }

  function Unread<S>(w: Worker<S>): seq<SlotInfo> { w.events[Min(w.cursor, |w.events|)..] }

  function DoWatch<S>(w: Worker<S>, keep: nat): (Worker<S>, Reply) {
    var start := Min(w.cursor, |w.events|);
    var end := start + Min(keep, |w.events| - start);
    (w.(cursor := end), Watched(w.events[start..end]))
  }

  function Compacted<S>(w: Worker<S>): Worker<S> {
    var consumed := Min(w.cursor, |w.events|);
    if consumed > 0 then w.(events := w.events[consumed..], cursor := 0) else w
  }

  ghost function Apply<S>(env: Env<S>, w: Worker<S>, call: Call): (Worker<S>, Reply) {
    match call
    case CreateVm(config, seed) => DoCreate(env, w, config, seed)
    case RestoreSnapshot(snapshot, entropy) => DoRestore(env, w, snapshot, entropy)
    case Fork(parent, count, seeds) => DoFork(env, w, parent, count, seeds)
    case InjectInputs(lease, inputs) => DoInject(w, lease, inputs)
    case Run(lease, until, cap, captureFault) => DoRun(env, w, lease, until, cap, captureFault)
    case TakeSnapshot(lease, captureFault) => DoSnapshot(env, w, lease, captureFault)
    case DestroyVm(lease) => DoDestroy(w, lease)
    case ReclaimSession => (w.(slots := map[], events := w.events + Reclaimed(w.slots)), Done)
    case SetSlotsTotal(total) => (w.(total := total), Done)
    case WatchSlots(keep) => DoWatch(w, keep)
    case CompactWatch => (Compacted(w), Done)
  }

  /** The worker together with everything its watcher has been told. */
  datatype Observed<S> = Observed(worker: Worker<S>, told: seq<SlotInfo>)

  ghost function Next<S>(env: Env<S>, o: Observed<S>, call: Call): Observed<S> {
    var (w, reply) := Apply(env, o.worker, call);
    Observed(w, if reply.Watched? then o.told + reply.events else o.told)
  }

  ghost function RunCalls<S>(env: Env<S>, o: Observed<S>, calls: seq<Call>): Observed<S> {
    if calls == [] then o else Next(env, RunCalls(env, o, calls[..|calls| - 1]), calls[|calls| - 1])
  }
}
