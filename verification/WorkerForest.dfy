/**
  What every run of worker calls keeps: the lease forest, and a watch log from
  which the slot table can be rebuilt.
 */
module WorkerForest {
  import opened Base
  import opened SlotTable
  import opened Playback
  import opened WorkerTable

  /** Its parent is live and older; it is frozen exactly when it has a live child, and paused otherwise. */
  ghost predicate Stands<S(!new)>(slots: Slots<S>, id: SlotId)
    requires id in slots
  {
    && (slots[id].parent.Some? ==> slots[id].parent.value in slots && slots[id].parent.value < id)
    && slots[id].kind == if Children(slots, id) == {} then Paused else Frozen
  }

  ghost predicate Forest<S(!new)>(slots: Slots<S>) {
    forall id {:trigger Stands(slots, id)} :: id in slots ==> Stands(slots, id)
  }

  ghost predicate Below<S(!new)>(slots: Slots<S>, bound: nat) {
    forall id :: id in slots ==> id < bound
  }

  /** The latest report on each slot. */
  function Fold(known: map<SlotId, SlotInfo>, events: seq<SlotInfo>): map<SlotId, SlotInfo> {
    if events == [] then known
    else
      var last := events[|events| - 1];
      Fold(known, events[..|events| - 1])[last.id := last]
  }

  lemma {:induction false} FoldSplits(known: map<SlotId, SlotInfo>, a: seq<SlotInfo>, b: seq<SlotInfo>)
    ensures Fold(known, a + b) == Fold(Fold(known, a), b)
  {
    if b == [] {
      assert a + b == a;
    } else {
      FoldSplits(known, a, b[..|b| - 1]);
      assert (a + b)[..|a + b| - 1] == a + b[..|b| - 1];
    }
  }

  lemma {:induction false} FoldPair(known: map<SlotId, SlotInfo>, a: SlotInfo, b: SlotInfo)
    ensures Fold(known, [a]) == known[a.id := a] && Fold(known, [a, b]) == known[a.id := a][b.id := b]
  {
    assert [a, b][..1] == [a] && [a][..0] == [];
  }

  /**
    A report on a live slot is current, except that the child count of a frozen
    slot may be out of date, and then it is too high.
   */
  ghost predicate Current<S(!new)>(info: SlotInfo, slots: Slots<S>, id: SlotId)
    requires id in slots
  {
    && info.id == id && info.state == slots[id].kind
    && info.icount == slots[id].machine.icount && info.base == slots[id].base
    && info.liveChildren >= Min(|Children(slots, id)|, U32_MAX)
    && (Children(slots, id) == {} ==> info.liveChildren == 0)
  }

  ghost predicate Reported<S(!new)>(known: map<SlotId, SlotInfo>, slots: Slots<S>, id: SlotId)
    requires id in slots
  {
    id in known && Current(known[id], slots, id)
  }

  ghost predicate Describes<S(!new)>(known: map<SlotId, SlotInfo>, slots: Slots<S>) {
    && (forall id {:trigger Reported(known, slots, id)} :: id in slots ==> Reported(known, slots, id))
    && (forall id :: id in known && id !in slots ==> known[id].state == Empty)
  }

  // ------------------------------------------------------------------
  // Changes to the table and what they publish
  // ------------------------------------------------------------------

  /** A slot that no change touched stands as before and is reported as before. */
  lemma {:induction false} Untouched<S(!new)>(a: Slots<S>, b: Slots<S>, x: SlotId, was: map<SlotId, SlotInfo>,
                                              now: map<SlotId, SlotInfo>)
    requires x in a && x in b && a[x] == b[x]
    requires forall c :: (c in a && a[c].parent == Some(x)) <==> (c in b && b[c].parent == Some(x))
    requires a[x].parent.Some? && a[x].parent.value in a ==> a[x].parent.value in b
    requires x in was && x in now && was[x] == now[x]
    requires Stands(a, x) && Reported(was, a, x)
    ensures Stands(b, x) && Reported(now, b, x)
  {
    assert Children(a, x) == Children(b, x);
  }

  lemma {:induction false} RootKeeps<S(!new)>(slots: Slots<S>, n: SlotId, root: Slot<S>, known: map<SlotId, SlotInfo>)
    requires Forest(slots) && Below(slots, n) && Describes(known, slots)
    requires root.parent == None && root.kind == Paused
    ensures var after := slots[n := root];
            Forest(after) && Below(after, n + 1) && Describes(known[n := Info(after, n)], after)
  {
    var after := slots[n := root];
    var told := known[n := Info(after, n)];
    forall x | x in after ensures Stands(after, x) && Reported(told, after, x) {
      if x == n {
        assert forall c :: c in slots ==> Stands(slots, c);
        assert Children(after, n) == {};
      } else {
        assert Stands(slots, x) && Reported(known, slots, x);
        Untouched(slots, after, x, known, told);
      }
    }
  }

  lemma {:induction false} MachineStands<S(!new)>(slots: Slots<S>, id: SlotId, machine: Machine<S>)
    requires id in slots && Stands(slots, id)
    ensures var after := slots[id := slots[id].(machine := machine)];
            Stands(after, id) && Children(after, id) == Children(slots, id)
  {
    assert Children(slots, id) == Children(slots[id := slots[id].(machine := machine)], id);
  }

  /** The machine of a slot may change freely as long as what is known of it stays current. */
  lemma {:induction false} MachineKeeps<S(!new)>(slots: Slots<S>, id: SlotId, machine: Machine<S>,
                                                 known: map<SlotId, SlotInfo>, info: SlotInfo)
    requires Forest(slots) && id in slots && Describes(known, slots)
    requires Current(info, slots[id := slots[id].(machine := machine)], id)
    ensures var after := slots[id := slots[id].(machine := machine)];
            Forest(after) && after.Keys == slots.Keys && Describes(known[id := info], after)
  {
    var after := slots[id := slots[id].(machine := machine)];
    MachineStands(slots, id, machine);
    forall x | x in slots && x != id ensures Stands(after, x) && Reported(known[id := info], after, x) {
      assert Reported(known, slots, x);
      Untouched(slots, after, x, known, known[id := info]);
    }
  }

  // ------------------------------------------------------------------
  // Fork
  // ------------------------------------------------------------------

  /** Below id saturation the children take the next ids, in order. */
  ghost predicate FreshBrood<S(!new)>(env: Env<S>, w: Worker<S>, parentId: SlotId, seeds: seq<Seed>, b: Brood<S>)
    requires parentId in w.slots
  {
    && b.nextId == w.nextId + |seeds| && |b.leases| == |seeds|
    && (forall id :: id in b.slots <==> id in w.slots || w.nextId <= id < b.nextId)
    && (forall id :: id in w.slots ==> b.slots[id] == w.slots[id])
    && (forall i :: 0 <= i < |seeds| ==>
          b.leases[i].id == w.nextId + i)
    && (forall id :: w.nextId <= id < b.nextId ==>
          && b.slots[id] == ChildOf(env, w.slots[parentId], parentId, id, seeds[id - w.nextId])
          && b.leases[id - w.nextId] == Lease(id, b.slots[id].token))
  }

  lemma {:induction false} SpawnedIsFresh<S(!new)>(env: Env<S>, w: Worker<S>, parentId: SlotId, seeds: seq<Seed>)
    requires parentId in w.slots && Below(w.slots, w.nextId) && w.nextId + |seeds| <= U64_MAX
    ensures FreshBrood(env, w, parentId, seeds, Spawned(env, w, parentId, seeds))
  {
    if seeds == [] {
    } else {
      SpawnedIsFresh(env, w, parentId, seeds[..|seeds| - 1]);
    }
  }

  lemma {:induction false} IdsInOrder(leases: seq<Lease>)
    ensures |Ids(leases)| == |leases| && forall i :: 0 <= i < |leases| ==> Ids(leases)[i] == leases[i].id
  {
    if leases == [] {
    } else {
      IdsInOrder(leases[..|leases| - 1]);
    }
  }

  lemma {:induction false} PublishingReports<S(!new)>(slots: Slots<S>, ids: seq<SlotId>, known: map<SlotId, SlotInfo>)
    requires forall i :: 0 <= i < |ids| ==> ids[i] in slots
    ensures var after := Fold(known, Published(slots, ids));
            && (forall id :: id in after <==> id in known || id in ids)
            && (forall id :: id in after ==>
                  after[id] == if id in ids then Info(slots, id) else known[id])
  {
    if ids == [] {
    } else {
      var rest, last := ids[..|ids| - 1], ids[|ids| - 1];
      assert ids == rest + [last];
      PublishingReports(slots, rest, known);
      var events := Published(slots, ids);
      assert events[..|events| - 1] == Published(slots, rest);
    }
  }

  /** What a fork does to the table, without naming the functions that do it. */
  ghost predicate ForkOutcome<S(!new)>(slots: Slots<S>, after: Slots<S>, p: SlotId, first: SlotId, end: SlotId) {
    && p in slots && first < end && Below(slots, first)
    && (forall id :: id in after <==> id in slots || first <= id < end)
    && (forall id :: id in slots && id != p ==> after[id] == slots[id])
    && p in after && after[p] == slots[p].(kind := Frozen)
    && (forall id :: first <= id < end ==> id in after && after[id].parent == Some(p) && after[id].kind == Paused)
  }

  lemma {:induction false} ForkFreezesParent<S(!new)>(slots: Slots<S>, after: Slots<S>, p: SlotId, first: SlotId,
                                                      end: SlotId)
    requires ForkOutcome(slots, after, p, first, end) && Stands(slots, p)
    ensures Stands(after, p) && Current(Info(after, p), after, p)
  {
    assert first in Children(after, p);
  }

  lemma {:induction false} ForkSparesOthers<S(!new)>(slots: Slots<S>, after: Slots<S>, p: SlotId, first: SlotId,
                                                     end: SlotId,
                                                     x: SlotId, known: map<SlotId, SlotInfo>,
                                                     told: map<SlotId, SlotInfo>)
    requires ForkOutcome(slots, after, p, first, end) && x in slots && x != p && Stands(slots, x)
    requires Reported(known, slots, x) && x in told && told[x] == known[x]
    ensures Stands(after, x) && Reported(told, after, x)
  {
    Untouched(slots, after, x, known, told);
  }

  lemma {:induction false} ForkedChildStands<S(!new)>(slots: Slots<S>, after: Slots<S>, p: SlotId, first: SlotId,
                                                      end: SlotId,
                                                      x: SlotId)
    requires ForkOutcome(slots, after, p, first, end) && Forest(slots) && first <= x < end
    ensures Stands(after, x) && Current(Info(after, x), after, x)
  {
    forall c | c in after ensures after[c].parent != Some(x) {
      if c in slots { assert Stands(slots, c); }
    }
    assert Children(after, x) == {};
  }

  lemma {:induction false} BroodIds<S(!new)>(env: Env<S>, w: Worker<S>, p: SlotId, seeds: seq<Seed>, b: Brood<S>)
    requires p in w.slots && FreshBrood(env, w, p, seeds, b) && Below(w.slots, w.nextId)
    ensures forall x :: x in Ids(b.leases) <==> x in b.slots && x !in w.slots
  {
    var ids := Ids(b.leases);
    IdsInOrder(b.leases);
    forall x ensures x in ids <==> x in b.slots && x !in w.slots {
      if x in b.slots && x !in w.slots { assert ids[x - w.nextId] == x; }
    }
  }

  lemma {:induction false} ForkReports<S(!new)>(env: Env<S>, w: Worker<S>, p: SlotId, seeds: seq<Seed>, b: Brood<S>,
                                                after: Slots<S>, known: map<SlotId, SlotInfo>)
    requires p in w.slots && FreshBrood(env, w, p, seeds, b) && Below(w.slots, w.nextId)
    requires after == b.slots[p := b.slots[p].(kind := Frozen)]
    ensures var told := Fold(Fold(known, Published(after, [p])), Published(after, Ids(b.leases)));
            && (forall x :: x in told <==> x in known || (x in after && (x == p || x !in w.slots)))
            && (forall x :: x in told ==>
                  told[x] == if x in after && (x == p || x !in w.slots) then Info(after, x) else known[x])
  {
    BroodIds(env, w, p, seeds, b);
    var first := Fold(known, Published(after, [p]));
    PublishingReports(after, [p], known);
    PublishingReports(after, Ids(b.leases), first);
  }

  lemma {:induction false} BroodIsOutcome<S(!new)>(env: Env<S>, w: Worker<S>, p: SlotId, seeds: seq<Seed>, b: Brood<S>,
                                                   after: Slots<S>)
    requires p in w.slots && FreshBrood(env, w, p, seeds, b) && Below(w.slots, w.nextId) && seeds != []
    requires after == b.slots[p := b.slots[p].(kind := Frozen)]
    ensures ForkOutcome(w.slots, after, p, w.nextId, b.nextId)
  {
  }

  lemma {:induction false} ForkDescribes<S(!new)>(slots: Slots<S>, after: Slots<S>, p: SlotId, first: SlotId,
                                                  end: SlotId,
                                                  known: map<SlotId, SlotInfo>, told: map<SlotId, SlotInfo>)
    requires ForkOutcome(slots, after, p, first, end) && Forest(slots) && Describes(known, slots)
    requires forall x :: x in told <==> x in known || (x in after && (x == p || x !in slots))
    requires forall x :: x in told ==>
               told[x] == if x in after && (x == p || x !in slots) then Info(after, x) else known[x]
    ensures Forest(after) && Below(after, end) && Describes(told, after)
  {
    forall x | x in after ensures Stands(after, x) && Reported(told, after, x) {
      if x == p {
        ForkFreezesParent(slots, after, p, first, end);
      } else if x in slots {
        assert Reported(known, slots, x);
        ForkSparesOthers(slots, after, p, first, end, x, known, told);
      } else {
        ForkedChildStands(slots, after, p, first, end, x);
      }
    }
  }

  lemma {:induction false} ForkKeeps<S(!new)>(env: Env<S>, w: Worker<S>, p: SlotId, seeds: seq<Seed>,
                                              after: Slots<S>, known: map<SlotId, SlotInfo>)
    requires p in w.slots && seeds != [] && w.nextId + |seeds| <= U64_MAX
    requires Forest(w.slots) && Below(w.slots, w.nextId) && w.slots[p].kind == Paused && Describes(known, w.slots)
    requires var b := Spawned(env, w, p, seeds);
             p in b.slots && after == b.slots[p := b.slots[p].(kind := Frozen)]
    ensures var b := Spawned(env, w, p, seeds);
            && Forest(after) && Below(after, b.nextId)
            && Describes(Fold(Fold(known, Published(after, [p])), Published(after, Ids(b.leases))), after)
  {
    var b := Spawned(env, w, p, seeds);
    SpawnedIsFresh(env, w, p, seeds);
    ForkReports(env, w, p, seeds, b, after, known);
    var told := Fold(Fold(known, Published(after, [p])), Published(after, Ids(b.leases)));
    BroodIsOutcome(env, w, p, seeds, b, after);
    ForkDescribes(w.slots, after, p, w.nextId, b.nextId, known, told);
  }

  // ------------------------------------------------------------------
  // Destroy and reclaim
  // ------------------------------------------------------------------

  lemma {:induction false} Shrinks(a: set<SlotId>, b: set<SlotId>)
    requires a <= b
    ensures |a| <= |b|
  {
    assert b == a + (b - a);
  }

  /** Emptying a leaf keeps every other slot except a parent left without children. */
  lemma {:induction false} LeafGone<S(!new)>(slots: Slots<S>, id: SlotId, x: SlotId, known: map<SlotId, SlotInfo>)
    requires Forest(slots) && id in slots && Children(slots, id) == {} && Describes(known, slots)
    requires x in slots && x != id
    ensures var after := slots - {id};
            && (after[x].parent.Some? ==> after[x].parent.value in after && after[x].parent.value < x)
            && (slots[id].parent != Some(x) || Children(after, x) != {} ==>
                  Stands(after, x) && Reported(known, after, x))
  {
    var after := slots - {id};
    assert Stands(slots, x) && Reported(known, slots, x);
    assert x !in Children(slots, id);
    assert Children(after, x) == Children(slots, x) - {id};
    assert |Children(after, x)| <= |Children(slots, x)| by {
      Shrinks(Children(after, x), Children(slots, x));
    }
    assert slots[id].parent == Some(x) ==> id in Children(slots, x);
  }

  lemma {:induction false} ParentThaws<S(!new)>(slots: Slots<S>, id: SlotId, p: SlotId, x: SlotId,
                                                known: map<SlotId, SlotInfo>, told: map<SlotId, SlotInfo>)
    requires Forest(slots) && id in slots && Children(slots, id) == {} && Describes(known, slots)
    requires slots[id].parent == Some(p) && Children(slots - {id}, p) == {}
    requires p in slots && p != id && x in slots && x != id
    requires var after := (slots - {id})[p := slots[p].(kind := Paused)];
             x in told && x in known && told[x] == if x == p then Info(after, p) else known[x]
    ensures var after := (slots - {id})[p := slots[p].(kind := Paused)];
            Stands(after, x) && Reported(told, after, x)
  {
    var gone := slots - {id};
    var after := gone[p := slots[p].(kind := Paused)];
    LeafGone(slots, id, x, known);
    if x == p {
      assert Children(after, p) == Children(gone, p);
    } else {
      Untouched(gone, after, x, known, told);
    }
  }

  lemma {:induction false} OrphanGone<S(!new)>(slots: Slots<S>, id: SlotId, known: map<SlotId, SlotInfo>)
    requires Forest(slots) && id in slots && Children(slots, id) == {} && Describes(known, slots)
    requires slots[id].parent.None? || Children(slots - {id}, slots[id].parent.value) != {}
    ensures var gone := slots - {id}; Forest(gone) && Describes(known[id := Emptied(slots, id)], gone)
  {
    var gone, told := slots - {id}, known[id := Emptied(slots, id)];
    forall x | x in gone ensures Stands(gone, x) && Reported(told, gone, x) {
      LeafGone(slots, id, x, known);
    }
  }

  lemma {:induction false} LastChildGone<S(!new)>(slots: Slots<S>, id: SlotId, p: SlotId, known: map<SlotId, SlotInfo>)
    requires Forest(slots) && id in slots && Children(slots, id) == {} && Describes(known, slots)
    requires slots[id].parent == Some(p) && Children(slots - {id}, p) == {}
    ensures p in slots && p != id && slots[p].kind == Frozen
    ensures var after := (slots - {id})[p := slots[p].(kind := Paused)];
            Forest(after) && Describes(known[id := Emptied(slots, id)][p := Info(after, p)], after)
  {
    assert Stands(slots, id);
    assert id in Children(slots, p);
    assert Stands(slots, p);
    var after := (slots - {id})[p := slots[p].(kind := Paused)];
    var told := known[id := Emptied(slots, id)][p := Info(after, p)];
    forall x | x in after ensures Stands(after, x) && Reported(told, after, x) {
      assert Reported(known, slots, x);
      ParentThaws(slots, id, p, x, known, told);
    }
  }

  lemma {:induction false} DestroyKeeps<S(!new)>(w: Worker<S>, id: SlotId, known: map<SlotId, SlotInfo>)
    returns (events: seq<SlotInfo>)
    requires Forest(w.slots) && id in w.slots && Children(w.slots, id) == {} && Describes(known, w.slots)
    ensures var after := Destroyed(w, id);
            && Forest(after.slots) && after.slots.Keys == w.slots.Keys - {id}
            && after == w.(slots := after.slots, events := w.events + events)
            && Describes(Fold(known, events), after.slots)
  {
    var empty := Emptied(w.slots, id);
    var gone := w.(slots := w.slots - {id}, events := w.events + [empty]);
    var parent := w.slots[id].parent;
    if parent.Some? && Children(gone.slots, parent.value) == {} {
      LastChildGone(w.slots, id, parent.value, known);
      var after := gone.slots[parent.value := w.slots[parent.value].(kind := Paused)];
      events := [empty, Info(after, parent.value)];
      FoldPair(known, empty, Info(after, parent.value));
      assert gone.events + [Info(after, parent.value)] == w.events + events;
    } else {
      OrphanGone(w.slots, id, known);
      events := [empty];
      FoldPair(known, empty, empty);
    }
  }

  /** Only the parent links of `Forest`. */
  ghost predicate Acyclic<S(!new)>(slots: Slots<S>) {
    forall id :: id in slots && slots[id].parent.Some? ==>
      slots[id].parent.value in slots && slots[id].parent.value < id
  }

  lemma {:induction false} LeafExists<S(!new)>(slots: Slots<S>, id: SlotId, bound: nat)
    requires Acyclic(slots) && Below(slots, bound) && id in slots
    ensures Leaves(slots) != {}
    decreases bound - id
  {
    if Children(slots, id) == {} {
      assert id in Leaves(slots);
    } else {
      var c :| c in Children(slots, id);
      LeafExists(slots, c, bound);
    }
  }

  lemma {:induction false} EmptyingReports<S(!new)>(slots: Slots<S>, ids: seq<SlotId>, known: map<SlotId, SlotInfo>)
    requires forall i :: 0 <= i < |ids| ==> ids[i] in slots
    ensures var told := Fold(known, EmptiedAll(slots, ids));
            && (forall x :: x in told <==> x in known || x in ids)
            && (forall x :: x in told ==> if x in ids then told[x].state == Empty else told[x] == known[x])
  {
    if ids == [] {
    } else {
      var rest, last := ids[..|ids| - 1], ids[|ids| - 1];
      assert ids == rest + [last];
      EmptyingReports(slots, rest, known);
      assert EmptiedAll(slots, ids)[..|EmptiedAll(slots, ids)| - 1] == EmptiedAll(slots, rest);
    }
  }

  lemma {:induction false} LeavesGone<S(!new)>(slots: Slots<S>)
    requires Acyclic(slots)
    ensures Acyclic(slots - Leaves(slots))
  {
    var rest := slots - Leaves(slots);
    forall id | id in rest && rest[id].parent.Some? ensures rest[id].parent.value in rest {
      assert id in Children(slots, rest[id].parent.value);
    }
  }

  /** Passes over the leaves end with every slot reported empty. */
  lemma {:induction false} ReclaimEmpties<S(!new)>(slots: Slots<S>, bound: nat, known: map<SlotId, SlotInfo>)
    requires Acyclic(slots) && Below(slots, bound)
    ensures var told := Fold(known, Reclaimed(slots));
            && (forall x :: x in told <==> x in known || x in slots)
            && (forall x :: x in told ==> if x in slots then told[x].state == Empty else told[x] == known[x])
    decreases |slots|
  {
    var leaves := Leaves(slots);
    if leaves == {} {
      if id :| id in slots { LeafExists(slots, id, bound); }
      assert slots == map[];
    } else {
      var rest := slots - leaves;
      RemovingShrinks(slots, leaves);
      assert Acyclic(rest) by { LeavesGone(slots); }
      var pass := EmptiedAll(slots, Ascending(leaves));
      EmptyingReports(slots, Ascending(leaves), known);
      ReclaimEmpties(rest, bound, Fold(known, pass));
      FoldSplits(known, pass, Reclaimed(rest));
    }
  }
}
